/** The chat log and the conversation history folded from it (`chat.rs`). */
module History {
  import opened Wrappers
  import opened Chars
  import opened FirstSeen

  datatype Role = User | Assistant

  /** One transcript row; `marked` rows are terminal markers (cancelled or errored turns). */
  datatype Row = Row(turn: string, role: Role, content: string, marked: bool) {
    predicate IsAnswer() {
      role.Assistant? && !marked && !IsBlankText(content)
    }
  }

  datatype Message = Message(role: Role, content: string)

  // ----- reference definitions over a transcript -----

  function TurnIds(rows: seq<Row>): seq<string> {
    seq(|rows|, i requires 0 <= i < |rows| => rows[i].turn)
  }

  /** Content of the turn's latest user row. */
  function UserOf(rows: seq<Row>, turn: string): Option<string> {
    if rows == [] then None
    else
      var r := rows[|rows| - 1];
      if r.turn == turn && r.role.User? then Some(r.content) else UserOf(rows[..|rows| - 1], turn)
  }

  /** Content of the turn's newest real answer. */
  function AnswerOf(rows: seq<Row>, turn: string): Option<string> {
    if rows == [] then None
    else
      var r := rows[|rows| - 1];
      if r.turn == turn && r.IsAnswer() then Some(r.content) else AnswerOf(rows[..|rows| - 1], turn)
  }

  /** The rows before the current turn's first row. */
  function Before(rows: seq<Row>, current: string): seq<Row> {
    if rows == [] || rows[0].turn == current then [] else [rows[0]] + Before(rows[1..], current)
  }

  /** One user/assistant pair for each of the given turns that has both. */
  function Pairs(rows: seq<Row>, turns: seq<string>): seq<Message> {
    if turns == [] then []
    else
      var t := turns[|turns| - 1];
      Pairs(rows, turns[..|turns| - 1]) + PairOf(UserOf(rows, t), AnswerOf(rows, t))
  }

  function PairOf(user: Option<string>, answer: Option<string>): seq<Message> {
    if user.Some? && answer.Some? then [Message(User, user.value), Message(Assistant, answer.value)] else []
  }

  function LastN<T>(s: seq<T>, n: nat): seq<T> {
    if |s| <= n then s else s[|s| - n..]
  }

  /** The newest whole pairs, at most `limit` messages, of the complete turns before the current one, each turn once
      and in first-seen order. */
  function HistorySpec(rows: seq<Row>, current: string, limit: nat): seq<Message> {
    var prior := Before(rows, current);
    LastN(Pairs(prior, Distinct(TurnIds(prior))), 2 * (limit / 2))
  }

  /** The first row of every turn is a user row. */
  ghost predicate TurnsStartWithUser(rows: seq<Row>) {
    forall i :: 0 <= i < |rows| ==> rows[i].role.User? || TurnHasUser(rows[..i], rows[i].turn)
  }

  predicate TurnHasUser(rows: seq<Row>, turn: string) {
    exists j :: 0 <= j < |rows| && rows[j].turn == turn && rows[j].role.User?
  }

  ghost predicate Alternating(msgs: seq<Message>) {
    |msgs| % 2 == 0 && forall i :: 0 <= i < |msgs| ==> msgs[i].role == if i % 2 == 0 then User else Assistant
  }

  // ----- the log -----

  /** A notebook's append-only log. */
  class ChatLog {
    var rows: seq<Row>

    ghost predicate Valid()
      reads this
    {
      TurnsStartWithUser(rows)
    }

    constructor ()
      ensures rows == [] && Valid()
    {
      rows := [];
    }

    method InsertUser(turn: string, content: string)
      requires Valid()
      modifies this
      ensures rows == old(rows) + [Row(turn, User, content, false)] && Valid()
    {
      KeepsGuard(rows, Row(turn, User, content, false));
      rows := rows + [Row(turn, User, content, false)];
    }

    /** Saves an answer, or rejects it when its turn has no user row. */
    method InsertAssistant(turn: string, content: string) returns (ok: bool)
      requires Valid()
      modifies this
      ensures ok == old(TurnHasUser(rows, turn)) && Valid()
      ensures rows == if ok then old(rows) + [Row(turn, Assistant, content, false)] else old(rows)
    {
      ok := TurnHasUser(rows, turn);
      if ok {
        KeepsGuard(rows, Row(turn, Assistant, content, false));
        rows := rows + [Row(turn, Assistant, content, false)];
      }
    }

    method InsertTerminalMarker(turn: string, content: string) returns (ok: bool)
      requires Valid()
      modifies this
      ensures ok == old(TurnHasUser(rows, turn)) && Valid()
      ensures rows == if ok then old(rows) + [Row(turn, Assistant, content, true)] else old(rows)
    {
      ok := TurnHasUser(rows, turn);
      if ok {
        KeepsGuard(rows, Row(turn, Assistant, content, true));
        rows := rows + [Row(turn, Assistant, content, true)];
      }
    }

    method History(current: string, limit: nat) returns (msgs: seq<Message>)
      requires Valid()
      ensures msgs == HistorySpec(rows, current, limit) && Alternating(msgs) && |msgs| <= limit
    {
      msgs := HistoryMessages(rows, current, limit);
      HistoryAlternates(rows, current, limit);
    }
  }

  lemma KeepsGuard(rows: seq<Row>, r: Row)
    requires TurnsStartWithUser(rows) && (r.role.User? || TurnHasUser(rows, r.turn))
    ensures TurnsStartWithUser(rows + [r])
  {
    var rows' := rows + [r];
    forall i | 0 <= i < |rows'|
      ensures rows'[i].role.User? || TurnHasUser(rows'[..i], rows'[i].turn)
    {
      if i < |rows| {
        assert rows'[..i] == rows[..i] && rows'[i] == rows[i];
      } else {
        assert rows'[..i] == rows;
      }
    }
  }

  // ----- folding -----

  lemma TurnsSnoc(rows: seq<Row>, r: Row)
    ensures Distinct(TurnIds(rows + [r])) ==
      if r.turn in TurnIds(rows) then Distinct(TurnIds(rows)) else Distinct(TurnIds(rows)) + [r.turn]
    ensures forall t ::
      UserOf(rows + [r], t) == if r.turn == t && r.role.User? then Some(r.content) else UserOf(rows, t)
    ensures forall t ::
      AnswerOf(rows + [r], t) == if r.turn == t && r.IsAnswer() then Some(r.content) else AnswerOf(rows, t)
  {
    assert (rows + [r])[..|rows|] == rows;
    assert TurnIds(rows + [r]) == TurnIds(rows) + [r.turn];
    DistinctSnoc(TurnIds(rows), r.turn);
  }

  lemma {:induction false} UserSeen(rows: seq<Row>, turn: string)
    ensures TurnHasUser(rows, turn) <==> UserOf(rows, turn).Some?
    decreases |rows|
  {
    if rows != [] {
      var n := |rows| - 1;
      UserSeen(rows[..n], turn);
      if TurnHasUser(rows, turn) && !(rows[n].turn == turn && rows[n].role.User?) {
        var j :| 0 <= j < |rows| && rows[j].turn == turn && rows[j].role.User?;
        assert rows[..n][j] == rows[j];
      }
      if TurnHasUser(rows[..n], turn) {
        var j :| 0 <= j < n && rows[..n][j].turn == turn && rows[..n][j].role.User?;
        assert rows[j] == rows[..n][j];
      }
    }
  }

  /** In a guarded log a turn has been seen exactly when its user row has. */
  lemma SeenIffUser(rows: seq<Row>, k: nat, turn: string)
    requires TurnsStartWithUser(rows) && k <= |rows|
    ensures turn in TurnIds(rows[..k]) <==> UserOf(rows[..k], turn).Some?
  {
    var head := rows[..k];
    UserSeen(head, turn);
    if turn in TurnIds(head) {
      var i :| 0 <= i < k && TurnIds(head)[i] == turn;
      if !rows[i].role.User? {
        assert TurnHasUser(rows[..i], turn);
        var j :| 0 <= j < i && rows[..i][j].turn == turn && rows[..i][j].role.User?;
        assert head[j] == rows[..i][j];
      } else {
        assert head[i] == rows[i];
      }
    }
    if TurnHasUser(head, turn) {
      var j :| 0 <= j < |head| && head[j].turn == turn && head[j].role.User?;
      assert TurnIds(head)[j] == turn;
    }
  }

  lemma {:induction false} BeforeIsPrefix(rows: seq<Row>, current: string, k: nat)
    requires k <= |rows| && forall i :: 0 <= i < k ==> rows[i].turn != current
    requires k == |rows| || rows[k].turn == current
    ensures Before(rows, current) == rows[..k]
    decreases k
  {
    if k > 0 {
      BeforeIsPrefix(rows[1..], current, k - 1);
      assert rows[..k] == [rows[0]] + rows[1..][..k - 1];
    }
  }

  /** The maps hold exactly what the reference functions know about the scanned rows. */
  ghost predicate RecordsUsers(m: map<string, string>, rows: seq<Row>) {
    forall t :: UserOf(rows, t) == if t in m then Some(m[t]) else None
  }

  ghost predicate RecordsAnswers(m: map<string, string>, rows: seq<Row>) {
    forall t :: AnswerOf(rows, t) == if t in m then Some(m[t]) else None
  }

  lemma RecordUser(m: map<string, string>, rows: seq<Row>, r: Row)
    requires RecordsUsers(m, rows)
    ensures RecordsUsers(if r.role.User? then m[r.turn := r.content] else m, rows + [r])
  {
    TurnsSnoc(rows, r);
  }

  lemma RecordAnswer(m: map<string, string>, rows: seq<Row>, r: Row)
    requires RecordsAnswers(m, rows)
    ensures RecordsAnswers(if r.IsAnswer() then m[r.turn := r.content] else m, rows + [r])
  {
    TurnsSnoc(rows, r);
  }

  lemma RecordTurn(rows: seq<Row>, k: nat, userOf: map<string, string>, answerOf: map<string, string>)
    requires TurnsStartWithUser(rows) && k < |rows|
    requires RecordsUsers(userOf, rows[..k]) && RecordsAnswers(answerOf, rows[..k])
    ensures var t := rows[k].turn; var seen := Distinct(TurnIds(rows[..k]));
      Distinct(TurnIds(rows[..k + 1])) == if t !in userOf && t !in answerOf then seen + [t] else seen
  {
    var t := rows[k].turn;
    assert rows[..k + 1] == rows[..k] + [rows[k]];
    TurnsSnoc(rows[..k], rows[k]);
    SeenIffUser(rows, k, t);
    AnswerSeen(rows[..k], t);
    assert UserOf(rows[..k], t) == if t in userOf then Some(userOf[t]) else None;
    assert AnswerOf(rows[..k], t) == if t in answerOf then Some(answerOf[t]) else None;
  }

  ghost predicate Folded(rows: seq<Row>, order: seq<string>, userOf: map<string, string>,
                         answerOf: map<string, string>) {
    && order == Distinct(TurnIds(rows))
    && RecordsUsers(userOf, rows) && RecordsAnswers(answerOf, rows)
  }

  /** Folds one more row into the turn order and the two maps. */
  method FoldRow(ghost rows: seq<Row>, ghost k: nat, r: Row, order: seq<string>, userOf: map<string, string>,
                 answerOf: map<string, string>)
    returns (order': seq<string>, userOf': map<string, string>, answerOf': map<string, string>)
    requires TurnsStartWithUser(rows) && k < |rows| && r == rows[k] && Folded(rows[..k], order, userOf, answerOf)
    ensures Folded(rows[..k + 1], order', userOf', answerOf')
  {
    order', userOf', answerOf' := order, userOf, answerOf;
    assert rows[..k + 1] == rows[..k] + [r];
    RecordTurn(rows, k, userOf, answerOf);
    RecordUser(userOf, rows[..k], r);
    RecordAnswer(answerOf, rows[..k], r);
    if r.turn !in userOf && r.turn !in answerOf {
      order' := order + [r.turn];
    }
    match r.role {
      case User =>
        userOf' := userOf[r.turn := r.content];
      case Assistant =>
        if r.IsAnswer() {
          answerOf' := answerOf[r.turn := r.content];
        }
    }
  }

  /** Rounding the overrun up to pairs leaves the largest even number within the limit. */
  lemma EvenDrop(len: nat, limit: nat, over: nat, drop: nat)
    requires len % 2 == 0 && len > limit && over == len - limit
    requires drop == if over % 2 == 0 then over else over + 1
    ensures len - drop == 2 * (limit / 2)
  {
  }

  /** Keeps the newest whole pairs within the limit. */
  method TrimPairs(all: seq<Message>, limit: nat) returns (msgs: seq<Message>)
    requires |all| % 2 == 0
    ensures msgs == LastN(all, 2 * (limit / 2))
  {
    msgs := all;
    if |msgs| > limit {
      var over := |msgs| - limit;
      var drop := if over % 2 == 0 then over else over + 1;
      drop := if drop < |msgs| then drop else |msgs|;
      EvenDrop(|msgs|, limit, over, drop);
      msgs := msgs[drop..];
    }
  }

  method HistoryMessages(rows: seq<Row>, current: string, limit: nat) returns (msgs: seq<Message>)
    requires TurnsStartWithUser(rows)
    ensures msgs == HistorySpec(rows, current, limit)
  {
    if limit == 0 {
      return [];
    }
    var order: seq<string> := [];
    var userOf: map<string, string>, answerOf: map<string, string> := map[], map[];
    var k := 0;
    while k < |rows| && rows[k].turn != current
      invariant 0 <= k <= |rows| && forall i :: 0 <= i < k ==> rows[i].turn != current
      invariant Folded(rows[..k], order, userOf, answerOf)
    {
      order, userOf, answerOf := FoldRow(rows, k, rows[k], order, userOf, answerOf);
      k := k + 1;
    }
    BeforeIsPrefix(rows, current, k);
    msgs := CollectPairs(rows[..k], order, userOf, answerOf);
    PairsEven(rows[..k], order);
    msgs := TrimPairs(msgs, limit);
  }

  lemma {:induction false} AnswerSeen(rows: seq<Row>, turn: string)
    ensures AnswerOf(rows, turn).Some? ==> turn in TurnIds(rows)
    decreases |rows|
  {
    if rows != [] {
      var n := |rows| - 1;
      AnswerSeen(rows[..n], turn);
      assert TurnIds(rows)[n] == rows[n].turn && TurnIds(rows)[..n] == TurnIds(rows[..n]);
    }
  }

  method CollectPairs(ghost rows: seq<Row>, order: seq<string>, userOf: map<string, string>,
                      answerOf: map<string, string>)
    returns (msgs: seq<Message>)
    requires RecordsUsers(userOf, rows) && RecordsAnswers(answerOf, rows)
    ensures msgs == Pairs(rows, order)
  {
    msgs := [];
    for i := 0 to |order|
      invariant msgs == Pairs(rows, order[..i])
    {
      var turn := order[i];
      assert order[..i + 1][..i] == order[..i];
      assert UserOf(rows, turn) == if turn in userOf then Some(userOf[turn]) else None;
      assert AnswerOf(rows, turn) == if turn in answerOf then Some(answerOf[turn]) else None;
      if turn in userOf && turn in answerOf {
        msgs := msgs + [Message(User, userOf[turn]), Message(Assistant, answerOf[turn])];
      }
    }
    assert order[..|order|] == order;
  }

  // ----- what the history guarantees -----

  lemma {:induction false} PairsEven(rows: seq<Row>, turns: seq<string>)
    ensures Alternating(Pairs(rows, turns))
    decreases |turns|
  {
    if turns != [] {
      PairsEven(rows, turns[..|turns| - 1]);
    }
  }

  /** Dropping whole leading pairs keeps strict alternation. */
  lemma DropPairs(msgs: seq<Message>, k: nat)
    requires Alternating(msgs) && 2 * k <= |msgs|
    ensures Alternating(msgs[2 * k..])
  {
  }

  lemma HistoryAlternates(rows: seq<Row>, current: string, limit: nat)
    ensures Alternating(HistorySpec(rows, current, limit)) && |HistorySpec(rows, current, limit)| <= limit
  {
    var prior := Before(rows, current);
    var all := Pairs(prior, Distinct(TurnIds(prior)));
    PairsEven(prior, Distinct(TurnIds(prior)));
    LastPairs(all, limit / 2);
  }

  lemma LastPairs(msgs: seq<Message>, pairs: nat)
    requires Alternating(msgs)
    ensures Alternating(LastN(msgs, 2 * pairs)) && |LastN(msgs, 2 * pairs)| <= 2 * pairs
  {
    if |msgs| > 2 * pairs {
      DropPairs(msgs, |msgs| / 2 - pairs);
    }
  }
}
