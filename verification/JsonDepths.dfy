/** Where the array scanner stops, on any text: at the first `]` outside strings after which no bracket and no brace is
    left open, a closer without an opener counting for nothing. */
module JsonDepths {
  import opened Wrappers
  import opened JsonSalvage

  /** The scanner's state before character `i`. */
  function LexAt(s: string, i: nat): Lex
    requires i <= |s|
  {
    if i == 0 then Outside else Next(LexAt(s, i - 1), s[i - 1])
  }

  /** How many more openers than closers stand, outside strings, from position `j` up to `i`. */
  function Surplus(s: string, open: char, close: char, j: nat, i: nat): int
    requires j <= i <= |s|
    decreases i
  {
    if i == j then 0
    else
      Surplus(s, open, close, j, i - 1)
      + if !LexAt(s, i - 1).Outside? then 0 else if s[i - 1] == open then 1 else if s[i - 1] == close then -1 else 0
  }

  /** `d` openers are left open before position `i`: the largest surplus of any stretch that ends there. */
  ghost predicate LeftOpen(s: string, open: char, close: char, i: nat, d: nat)
    requires i <= |s|
  {
    && (forall j: nat :: j <= i ==> Surplus(s, open, close, j, i) <= d)
    && exists j: nat :: j <= i && Surplus(s, open, close, j, i) == d
  }

  /** Character `n - 1` ends the array. */
  ghost predicate EndsArray(s: string, n: nat) {
    && 0 < n <= |s| && s[n - 1] == ']' && LexAt(s, n - 1).Outside?
    && LeftOpen(s, '[', ']', n, 0) && LeftOpen(s, '{', '}', n, 0)
  }

  // ----- the scanner's counters are those depths -----

  function Counted(s: string, open: char, close: char, i: nat): nat
    requires i <= |s|
  {
    if i == 0 then 0
    else
      var d := Counted(s, open, close, i - 1);
      if !LexAt(s, i - 1).Outside? then d
      else if s[i - 1] == open then d + 1
      else if s[i - 1] == close then SatDec(d)
      else d
  }

  lemma {:induction false} CountsOpen(s: string, open: char, close: char, i: nat)
    requires i <= |s| && open != close
    ensures LeftOpen(s, open, close, i, Counted(s, open, close, i))
  {
    if i == 0 {
      assert Surplus(s, open, close, 0, 0) == 0;
    } else {
      CountsOpen(s, open, close, i - 1);
      CountsNext(s, open, close, i);
    }
  }

  lemma CountsNext(s: string, open: char, close: char, i: nat)
    requires 0 < i <= |s| && open != close && LeftOpen(s, open, close, i - 1, Counted(s, open, close, i - 1))
    ensures LeftOpen(s, open, close, i, Counted(s, open, close, i))
  {
    var d := Counted(s, open, close, i);
    assert Surplus(s, open, close, i, i) == 0;
    forall k: nat | k <= i
      ensures Surplus(s, open, close, k, i) <= d
    {
      assert k < i ==> Surplus(s, open, close, k, i - 1) <= Counted(s, open, close, i - 1);
    }
    var j: nat :| j <= i - 1 && Surplus(s, open, close, j, i - 1) == Counted(s, open, close, i - 1);
    assert Surplus(s, open, close, j, i) == d || d == 0;
  }

  lemma NoneLeft(s: string, open: char, close: char, i: nat)
    requires i <= |s| && open != close
    ensures LeftOpen(s, open, close, i, 0) <==> Counted(s, open, close, i) == 0
  {
    CountsOpen(s, open, close, i);
  }

  /** Nothing is left open after the closing bracket at `i`. */
  lemma NothingLeft(s: string, i: nat)
    requires i < |s| && s[i] == ']' && LexAt(s, i).Outside?
    ensures LeftOpen(s, '[', ']', i + 1, 0) <==> SatDec(Counted(s, '[', ']', i)) == 0
    ensures LeftOpen(s, '{', '}', i + 1, 0) <==> Counted(s, '{', '}', i) == 0
  {
    CountedNext(s, i);
    NoneLeft(s, '[', ']', i + 1);
    NoneLeft(s, '{', '}', i + 1);
  }

  lemma StopsIsEnd(s: string, i: nat)
    requires i < |s|
    ensures Stops(LexAt(s, i), s[i], Counted(s, '[', ']', i), Counted(s, '{', '}', i)) <==> EndsArray(s, i + 1)
  {
    if s[i] == ']' && LexAt(s, i).Outside? {
      NothingLeft(s, i);
    }
  }

  lemma CountedNext(s: string, i: nat)
    requires i < |s| && s[i] == ']' && LexAt(s, i).Outside?
    ensures Counted(s, '[', ']', i + 1) == SatDec(Counted(s, '[', ']', i))
    ensures Counted(s, '{', '}', i + 1) == Counted(s, '{', '}', i)
  {
  }

  /** The walk before character `i`, when it has not stopped yet. */
  function WalkAt(s: string, i: nat): Option<nat>
    requires i <= |s|
  {
    Longer(Walk(s[i..], LexAt(s, i), Counted(s, '[', ']', i), Counted(s, '{', '}', i)), i)
  }

  lemma WalkStep(s: string, i: nat)
    requires i < |s|
    ensures WalkAt(s, i) == if EndsArray(s, i + 1) then Some(i + 1) else WalkAt(s, i + 1)
  {
    StopsIsEnd(s, i);
    assert s[i..][1..] == s[i + 1..];
    assert Counted(s, '[', ']', i + 1) == BracketDepth(LexAt(s, i), s[i], Counted(s, '[', ']', i));
    assert Counted(s, '{', '}', i + 1) == BraceDepth(LexAt(s, i), s[i], Counted(s, '{', '}', i));
  }

  lemma {:induction false} WalksTo(s: string, i: nat)
    requires i <= |s|
    ensures var r := WalkAt(s, i);
      if r.Some? then i < r.value && EndsArray(s, r.value) && forall m :: i < m < r.value ==> !EndsArray(s, m)
      else forall m :: i < m <= |s| ==> !EndsArray(s, m)
    decreases |s| - i
  {
    if i < |s| {
      WalkStep(s, i);
      if !EndsArray(s, i + 1) {
        WalksTo(s, i + 1);
      }
    }
  }

  /** On any text the walk takes the characters up to the first one that ends the array, and finds none exactly when
      there is none. */
  lemma WalkExactly(s: string)
    ensures var r := Walk(s, Outside, 0, 0);
      if r.Some? then EndsArray(s, r.value) && forall m :: 0 <= m < r.value ==> !EndsArray(s, m)
      else forall m :: 0 <= m <= |s| ==> !EndsArray(s, m)
  {
    assert s[0..] == s;
    WalksTo(s, 0);
  }

  // ----- whitespace before a closer -----

  /** The ASCII whitespace: tab, line feed, form feed, carriage return and space. */
  ghost predicate IsAsciiBlank(s: string) {
    forall i :: 0 <= i < |s| ==> s[i] as int in {0x09, 0x0A, 0x0C, 0x0D, 0x20}
  }

  /** A comma goes exactly when the next character after any ASCII whitespace is a closing bracket or brace. */
  lemma {:induction false} ClosesExactly(blank: string, c: char, rest: string)
    requires IsAsciiBlank(blank) && c as int !in {0x09, 0x0A, 0x0C, 0x0D, 0x20}
    ensures Closes(blank + ([c] + rest)) <==> c == ']' || c == '}'
    ensures !Closes(blank)
  {
    if blank == "" {
      assert "" + ([c] + rest) == [c] + rest;
    } else {
      assert (blank + ([c] + rest))[1..] == blank[1..] + ([c] + rest);
      ClosesExactly(blank[1..], c, rest);
    }
  }
}
