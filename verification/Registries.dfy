/** The cancel-token registries of the engine (`lib.rs`): one in-flight run per notebook, the newer superseding
    the older, and shared downloads counted by their holders. Tokens are named by number; `Arc::ptr_eq` is
    equality of names. */
module Registries {

  type Key = string
  type Token = nat

  // ----- superseding registries (ask, dialogue, tts) -----

  /** `current` is the registry map; `held` the guards alive, by token; tokens below `next` have been made. */
  datatype Single = Single(current: map<Key, Token>, cancelled: set<Token>, held: map<Token, Key>, next: Token)

  datatype SingleOp = Register(key: Key) | Cancel(key: Key) | DropGuard(token: Token)

  /** A fresh token replaces the registered one, which is cancelled. */
  function Registered(s: Single, key: Key): Single {
    Single(s.current[key := s.next],
           if key in s.current then s.cancelled + {s.current[key]} else s.cancelled,
           s.held[s.next := key], s.next + 1)
  }

  function Cancelled(s: Single, key: Key): Single {
    if key in s.current then s.(cancelled := s.cancelled + {s.current[key]}) else s
  }

  /** A dropped guard removes its registry entry only while its own token is the registered one. */
  function Dropped(s: Single, token: Token): Single {
    if token !in s.held then s
    else
      var key := s.held[token];
      var s' := s.(held := s.held - {token});
      if key in s.current && s.current[key] == token then s'.(current := s.current - {key}) else s'
  }

  function Apply(s: Single, op: SingleOp): Single {
    match op
    case Register(key) => Registered(s, key)
    case Cancel(key) => Cancelled(s, key)
    case DropGuard(token) => Dropped(s, token)
  }

  function ApplyAll(s: Single, ops: seq<SingleOp>): Single
    decreases |ops|
  {
    if ops == [] then s else ApplyAll(Apply(s, ops[0]), ops[1..])
  }

  /** Any uncancelled token whose guard is held is the registered token of its notebook; registered tokens belong to
      held guards of that notebook; tokens are fresh. */
  ghost predicate SingleOk(s: Single) {
    && (forall t :: t in s.held ==>
       t < s.next && (t !in s.cancelled ==> s.held[t] in s.current && s.current[s.held[t]] == t))
    && (forall k :: k in s.current ==> s.current[k] in s.held && s.held[s.current[k]] == k)
    && (forall t :: t in s.cancelled ==> t < s.next)
  }

  lemma {:induction false} SingleRunsOk(s: Single, ops: seq<SingleOp>)
    requires SingleOk(s)
    ensures SingleOk(ApplyAll(s, ops))
    decreases |ops|
  {
    if ops != [] {
      SingleStepOk(s, ops[0]);
      SingleRunsOk(Apply(s, ops[0]), ops[1..]);
    }
  }

  lemma SingleStepOk(s: Single, op: SingleOp)
    requires SingleOk(s)
    ensures SingleOk(Apply(s, op))
  {
    match op {
      case Register(key) =>
        var s' := Registered(s, key);
        assert forall t :: t in s'.held && t !in s'.cancelled ==>
          s'.held[t] in s'.current && s'.current[s'.held[t]] == t;
      case Cancel(_) =>
      case DropGuard(token) =>
        var s' := Dropped(s, token);
        forall k | k in s'.current
          ensures s'.current[k] in s'.held && s'.held[s'.current[k]] == k
        {
          assert s.held[s.current[k]] == k;
        }
    }
  }

  /** In every run from an empty registry: a notebook has at most one uncancelled run under way, and a cancel of the
      notebook reaches it. */
  lemma AtMostOneLiveRun(ops: seq<SingleOp>, t: Token, u: Token)
    ensures var s := ApplyAll(Single(map[], {}, map[], 0), ops);
      && (t in s.held && u in s.held && s.held[t] == s.held[u] && t !in s.cancelled && u !in s.cancelled ==> t == u)
      && (t in s.held ==> t in Cancelled(s, s.held[t]).cancelled)
  {
    SingleRunsOk(Single(map[], {}, map[], 0), ops);
  }

  /** A guard drop never evicts another run's token. */
  lemma DropEvictsOnlyItself(s: Single, token: Token, key: Key)
    requires SingleOk(s) && key in s.current && s.current[key] != token
    ensures var s' := Dropped(s, token);
      key in s'.current && s'.current[key] == s.current[key] && s'.cancelled == s.cancelled
  {
  }

  /** The registry object, shared by the engine's callers under a mutex. */
  class CancelRegistry {
    var current: map<Key, Token>
    var cancelled: set<Token>
    var next: Token
    ghost var state: Single

    ghost predicate Valid()
      reads this
    {
      SingleOk(state) && state.current == current && state.cancelled == cancelled && state.next == next
    }

    constructor ()
      ensures Valid() && state == Single(map[], {}, map[], 0)
    {
      current, cancelled, next := map[], {}, 0;
      state := Single(map[], {}, map[], 0);
    }

    method Register(key: Key) returns (token: Token)
      requires Valid()
      modifies this
      ensures Valid() && state == Registered(old(state), key) && token == old(next)
      ensures token !in cancelled && token !in old(state.held)
    {
      token := next;
      SingleStepOk(state, SingleOp.Register(key));
      state := Registered(state, key);
      if key in current {
        cancelled := cancelled + {current[key]};
      }
      current := current[key := token];
      next := next + 1;
    }

    /** Reports whether a run was found; the token it cancels is the registered one. */
    method Cancel(key: Key) returns (found: bool)
      requires Valid()
      modifies this`state, this`cancelled
      ensures Valid() && state == Cancelled(old(state), key) && found == (key in current)
      ensures cancelled == old(cancelled) + if found then {current[key]} else {}
    {
      found := key in current;
      if found {
        cancelled := cancelled + {current[key]};
      }
      SingleStepOk(state, SingleOp.Cancel(key));
      state := Cancelled(state, key);
    }

    /** The guard of run `owner` on `key` is dropped. */
    method DropGuard(key: Key, owner: Token)
      requires Valid() && owner in state.held && state.held[owner] == key
      modifies this
      ensures Valid() && state == Dropped(old(state), owner) && next == old(next)
    {
      SingleStepOk(state, SingleOp.DropGuard(owner));
      state := Dropped(state, owner);
      if key in current && current[key] == owner {
        current := current - {key};
      }
    }
  }

  // ----- the shared download registry -----

  /** `entries` is the registry map: token and holder count. `held` are the guards alive, each with its key
      and token. */
  datatype Shared = Shared(entries: map<Key, (Token, nat)>, cancelled: set<Token>, held: map<nat, (Key, Token)>,
                           next: nat)

  datatype SharedOp = Join(key: Key) | CancelDownload(key: Key) | Release(guard: nat)

  /** A caller joins the registered download or starts one; each call adds a guard. `next` names tokens and guards. */
  function Joined(s: Shared, key: Key): Shared {
    var entry := if key in s.entries then s.entries[key] else (s.next, 0);
    s.(entries := s.entries[key := (entry.0, entry.1 + 1)], held := s.held[s.next := (key, entry.0)],
       next := s.next + 1)
  }

  function DownloadCancelled(s: Shared, key: Key): Shared {
    if key in s.entries then s.(cancelled := s.cancelled + {s.entries[key].0}) else s
  }

  function Released(s: Shared, guard: nat): Shared {
    if guard !in s.held then s
    else
      var (key, owner) := s.held[guard];
      var s' := s.(held := s.held - {guard});
      if key in s.entries && s.entries[key].0 == owner then
        var n := if s.entries[key].1 == 0 then 0 else s.entries[key].1 - 1;
        if n == 0 then s'.(entries := s.entries - {key}) else s'.(entries := s.entries[key := (owner, n)])
      else s'
  }

  function ApplyShared(s: Shared, op: SharedOp): Shared {
    match op
    case Join(key) => Joined(s, key)
    case CancelDownload(key) => DownloadCancelled(s, key)
    case Release(guard) => Released(s, guard)
  }

  function ApplySharedAll(s: Shared, ops: seq<SharedOp>): Shared
    decreases |ops|
  {
    if ops == [] then s else ApplySharedAll(ApplyShared(s, ops[0]), ops[1..])
  }

  /** The guards alive on a key. */
  ghost function Holders(held: map<nat, (Key, Token)>, key: Key): set<nat> {
    set g | g in held && held[g].0 == key
  }

  /** The count of an entry is the number of live holders, who share its token; a key without an entry has none;
      and every name in use is below `next`. */
  ghost predicate SharedOk(s: Shared) {
    && (forall k :: k in s.entries ==> s.entries[k].0 < s.next && s.entries[k].1 == |Holders(s.held, k)| > 0)
    && (forall g :: g in s.held ==> g < s.next && s.held[g].0 in s.entries && s.held[g].1 == s.entries[s.held[g].0].0)
    && (forall t :: t in s.cancelled ==> t < s.next)
  }

  lemma JoinedOk(s: Shared, key: Key)
    requires SharedOk(s)
    ensures SharedOk(Joined(s, key))
  {
    var s' := Joined(s, key);
    if key !in s.entries {
      assert Holders(s.held, key) == {};
    }
    forall k | k in s'.entries
      ensures s'.entries[k].1 == |Holders(s'.held, k)| > 0
    {
      if k == key {
        assert Holders(s'.held, k) == Holders(s.held, k) + {s.next};
      } else {
        assert Holders(s'.held, k) == Holders(s.held, k);
      }
    }
  }

  lemma ReleasedOk(s: Shared, guard: nat)
    requires SharedOk(s)
    ensures SharedOk(Released(s, guard))
  {
    if guard in s.held {
      var s' := Released(s, guard);
      var key := s.held[guard].0;
      assert Holders(s'.held, key) == Holders(s.held, key) - {guard};
      forall k | k in s'.entries
        ensures s'.entries[k].1 == |Holders(s'.held, k)| > 0
      {
        if k != key {
          assert Holders(s'.held, k) == Holders(s.held, k);
        }
      }
      forall g | g in s'.held
        ensures s'.held[g].0 in s'.entries
      {
        if s'.held[g].0 == key {
          assert g in Holders(s'.held, key);
        }
      }
    }
  }

  lemma {:induction false} SharedRunsOk(s: Shared, ops: seq<SharedOp>)
    requires SharedOk(s)
    ensures SharedOk(ApplySharedAll(s, ops))
    decreases |ops|
  {
    if ops != [] {
      match ops[0] {
        case Join(key) => JoinedOk(s, key);
        case CancelDownload(_) =>
        case Release(guard) => ReleasedOk(s, guard);
      }
      SharedRunsOk(ApplyShared(s, ops[0]), ops[1..]);
    }
  }

  /** In every run from an empty registry: two holders of one download share one token; the entry counts the holders and
      vanishes with the last of them; and whoever joins after that gets a token that is new and not cancelled. */
  lemma SharedRuns(ops: seq<SharedOp>, key: Key)
    ensures var s := ApplySharedAll(Shared(map[], {}, map[], 0), ops);
      && (forall g, h :: g in Holders(s.held, key) && h in Holders(s.held, key) ==> s.held[g].1 == s.held[h].1)
      && (key in s.entries <==> Holders(s.held, key) != {})
      && (key in s.entries ==> s.entries[key].1 == |Holders(s.held, key)|)
      && (Holders(s.held, key) == {} ==>
            var t := Joined(s, key).entries[key].0; t !in s.cancelled && forall g :: g in s.held ==> s.held[g].1 != t)
  {
    SharedRunsOk(Shared(map[], {}, map[], 0), ops);
    var s := ApplySharedAll(Shared(map[], {}, map[], 0), ops);
    forall g | g in Holders(s.held, key)
      ensures key in s.entries && s.held[g].1 == s.entries[key].0
    {
      assert s.held[g].0 == key;
    }
    forall g | g in s.held
      ensures s.held[g].1 < s.next
    {
      assert s.held[g].0 in s.entries;
    }
  }

  /** The download registry object. */
  class DownloadRegistry {
    var entries: map<Key, (Token, nat)>
    var cancelled: set<Token>
    var next: nat
    ghost var state: Shared

    ghost predicate Valid()
      reads this
    {
      SharedOk(state) && state.entries == entries && state.cancelled == cancelled && state.next == next
    }

    constructor ()
      ensures Valid() && state == Shared(map[], {}, map[], 0)
    {
      entries, cancelled, next := map[], {}, 0;
      state := Shared(map[], {}, map[], 0);
    }

    method Register(key: Key) returns (token: Token)
      requires Valid()
      modifies this
      ensures Valid() && state == Joined(old(state), key) && state.held[old(next)] == (key, token)
    {
      JoinedOk(state, key);
      state := Joined(state, key);
      var (t, n) := if key in entries then entries[key] else (next, 0);
      token := t;
      entries := entries[key := (t, n + 1)];
      next := next + 1;
    }

    method Cancel(key: Key) returns (found: bool)
      requires Valid()
      modifies this`state, this`cancelled
      ensures Valid() && state == DownloadCancelled(old(state), key) && found == (key in entries)
      ensures cancelled == old(cancelled) + if found then {entries[key].0} else {}
    {
      found := key in entries;
      if found {
        cancelled := cancelled + {entries[key].0};
      }
      state := DownloadCancelled(state, key);
    }

    /** One holder's guard is dropped; the last one clears the entry. */
    method DropGuard(ghost guard: nat, key: Key, owner: Token)
      requires Valid() && guard in state.held && state.held[guard] == (key, owner)
      modifies this
      ensures Valid() && state == Released(old(state), guard) && next == old(next)
    {
      ReleasedOk(state, guard);
      state := Released(state, guard);
      var lastHolder := false;
      if key in entries && entries[key].0 == owner {
        var n := if entries[key].1 == 0 then 0 else entries[key].1 - 1;
        entries := entries[key := (owner, n)];
        lastHolder := n == 0;
      }
      if lastHolder {
        entries := entries - {key};
      }
    }
  }
}
