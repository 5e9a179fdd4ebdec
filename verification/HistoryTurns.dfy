/** What a conversation history holds, row by row: the newest complete turns, each with its own question and answer. */
module HistoryTurns {
  import opened Chars
  import opened Numbers
  import opened FirstSeen
  import opened History

  // ----- rows -----

  predicate IsQuestion(rows: seq<Row>, turn: string, i: int) {
    0 <= i < |rows| && rows[i].turn == turn && rows[i].role.User?
  }

  /** An answer that is no terminal marker and holds a character other than whitespace. */
  ghost predicate IsRealAnswer(rows: seq<Row>, turn: string, i: int) {
    && 0 <= i < |rows| && rows[i].turn == turn && rows[i].role.Assistant? && !rows[i].marked
    && exists k :: 0 <= k < |rows[i].content| && !IsWhitespace(rows[i].content[k])
  }

  ghost predicate LatestQuestion(rows: seq<Row>, turn: string, i: int) {
    IsQuestion(rows, turn, i) && forall j :: i < j ==> !IsQuestion(rows, turn, j)
  }

  ghost predicate NewestAnswer(rows: seq<Row>, turn: string, i: int) {
    IsRealAnswer(rows, turn, i) && forall j :: i < j ==> !IsRealAnswer(rows, turn, j)
  }

  /** The two messages are the turn's latest question and its newest real answer. */
  ghost predicate IsPair(rows: seq<Row>, turn: string, user: Message, answer: Message) {
    exists i, j :: PairedFrom(rows, turn, user, answer, i, j)
  }

  ghost predicate PairedFrom(rows: seq<Row>, turn: string, user: Message, answer: Message, i: int, j: int) {
    && LatestQuestion(rows, turn, i) && NewestAnswer(rows, turn, j)
    && user == Message(User, rows[i].content) && answer == Message(Assistant, rows[j].content)
  }

  ghost predicate Complete(rows: seq<Row>, turn: string) {
    (exists i :: IsQuestion(rows, turn, i)) && exists i :: IsRealAnswer(rows, turn, i)
  }

  /** A row of `first` comes before every row of `second`. */
  ghost predicate StartsBefore(rows: seq<Row>, first: string, second: string) {
    exists i :: 0 <= i < |rows| && rows[i].turn == first && forall j :: 0 <= j <= i ==> rows[j].turn != second
  }

  /** The complete turns, in the order of their first rows. */
  ghost predicate InTurn(rows: seq<Row>, turns: seq<string>) {
    && (forall t :: t in turns <==> Complete(rows, t))
    && (forall j, k :: 0 <= j < k < |turns| ==> StartsBefore(rows, turns[j], turns[k]))
  }

  /** `c` rows come before the current turn. */
  predicate CutsBefore(rows: seq<Row>, current: string, c: nat) {
    && c <= |rows| && (forall i :: 0 <= i < c ==> rows[i].turn != current)
    && (c < |rows| ==> rows[c].turn == current)
  }

  // ----- the reference functions, by rows -----

  lemma {:induction false} UserOfIs(rows: seq<Row>, turn: string)
    ensures UserOf(rows, turn).Some? ==>
      exists i :: LatestQuestion(rows, turn, i) && UserOf(rows, turn).value == rows[i].content
    ensures UserOf(rows, turn).None? ==> forall i :: !IsQuestion(rows, turn, i)
    decreases |rows|
  {
    if rows != [] {
      var n := |rows| - 1;
      var head := rows[..n];
      UserOfIs(head, turn);
      assert forall i :: i < n ==> (IsQuestion(rows, turn, i) <==> IsQuestion(head, turn, i));
      if IsQuestion(rows, turn, n) {
        assert LatestQuestion(rows, turn, n);
      } else if UserOf(head, turn).Some? {
        var i :| LatestQuestion(head, turn, i) && UserOf(head, turn).value == head[i].content;
        assert LatestQuestion(rows, turn, i);
      }
    }
  }

  lemma {:induction false} AnswerOfIs(rows: seq<Row>, turn: string)
    ensures AnswerOf(rows, turn).Some? ==>
      exists i :: NewestAnswer(rows, turn, i) && AnswerOf(rows, turn).value == rows[i].content
    ensures AnswerOf(rows, turn).None? ==> forall i :: !IsRealAnswer(rows, turn, i)
    decreases |rows|
  {
    if rows != [] {
      var n := |rows| - 1;
      var head := rows[..n];
      AnswerOfIs(head, turn);
      assert forall i :: i < n ==> (IsRealAnswer(rows, turn, i) <==> IsRealAnswer(head, turn, i));
      if IsRealAnswer(rows, turn, n) {
        assert NewestAnswer(rows, turn, n);
      } else if AnswerOf(head, turn).Some? {
        var i :| NewestAnswer(head, turn, i) && AnswerOf(head, turn).value == head[i].content;
        assert NewestAnswer(rows, turn, i);
      }
    }
  }

  /** A turn is complete exactly when both reference functions know it, and they pair its messages. */
  lemma PairIs(rows: seq<Row>, turn: string)
    ensures Complete(rows, turn) <==> UserOf(rows, turn).Some? && AnswerOf(rows, turn).Some?
    ensures Complete(rows, turn) ==> IsPair(rows, turn, Message(User, UserOf(rows, turn).value),
                                            Message(Assistant, AnswerOf(rows, turn).value))
  {
    UserOfIs(rows, turn);
    AnswerOfIs(rows, turn);
    if UserOf(rows, turn).Some? && AnswerOf(rows, turn).Some? {
      var i :| LatestQuestion(rows, turn, i) && UserOf(rows, turn).value == rows[i].content;
      var j :| NewestAnswer(rows, turn, j) && AnswerOf(rows, turn).value == rows[j].content;
      assert PairedFrom(rows, turn, Message(User, rows[i].content), Message(Assistant, rows[j].content), i, j);
    }
  }

  // ----- turns -----

  function CompleteTurns(rows: seq<Row>, turns: seq<string>): seq<string> {
    if turns == [] then []
    else
      var t := turns[|turns| - 1];
      CompleteTurns(rows, turns[..|turns| - 1])
      + if UserOf(rows, t).Some? && AnswerOf(rows, t).Some? then [t] else []
  }

  lemma {:induction false} CompleteTurnsHold(rows: seq<Row>, turns: seq<string>)
    ensures forall t :: t in CompleteTurns(rows, turns) <==> t in turns && Complete(rows, t)
    decreases |turns|
  {
    if turns != [] {
      var n := |turns| - 1;
      CompleteTurnsHold(rows, turns[..n]);
      PairIs(rows, turns[n]);
      assert turns == turns[..n] + [turns[n]];
    }
  }

  ghost predicate Ordered(rows: seq<Row>, turns: seq<string>) {
    forall j, k :: 0 <= j < k < |turns| ==> StartsBefore(rows, turns[j], turns[k])
  }

  lemma {:induction false} CompleteTurnsOrdered(rows: seq<Row>, turns: seq<string>)
    requires Ordered(rows, turns)
    ensures Ordered(rows, CompleteTurns(rows, turns))
    decreases |turns|
  {
    if turns != [] {
      var n := |turns| - 1;
      var head := CompleteTurns(rows, turns[..n]);
      CompleteTurnsOrdered(rows, turns[..n]);
      CompleteTurnsHold(rows, turns[..n]);
      forall j | 0 <= j < |head|
        ensures StartsBefore(rows, head[j], turns[n])
      {
        assert head[j] in head;
        var i :| 0 <= i < n && turns[..n][i] == head[j];
        assert turns[i] == head[j];
      }
    }
  }

  lemma TurnsOrdered(rows: seq<Row>)
    ensures Ordered(rows, Distinct(TurnIds(rows)))
  {
    var ids := TurnIds(rows);
    var turns := Distinct(ids);
    forall j, k | 0 <= j < k < |turns|
      ensures StartsBefore(rows, turns[j], turns[k])
    {
      FirstSeenOrder(ids, j, k);
      var i, m := IndexOf(ids, turns[j]), IndexOf(ids, turns[k]);
      assert turns[j] in turns && rows[i].turn == turns[j];
      forall x | 0 <= x <= i
        ensures rows[x].turn != turns[k]
      {
        assert ids[..m][x] == rows[x].turn;
      }
    }
  }

  lemma TurnHasRow(rows: seq<Row>, turn: string)
    requires Complete(rows, turn)
    ensures turn in TurnIds(rows)
  {
    var i :| IsQuestion(rows, turn, i);
    assert TurnIds(rows)[i] == turn;
  }

  /** Messages `2 * k` and `2 * k + 1` are the pair of turn `k`. */
  ghost predicate PairAt(rows: seq<Row>, turns: seq<string>, msgs: seq<Message>, k: int) {
    0 <= k < |turns| && 2 * k + 1 < |msgs| && IsPair(rows, turns[k], msgs[2 * k], msgs[2 * k + 1])
  }

  /** The messages are the pairs of the turns. */
  ghost predicate HoldsPairs(rows: seq<Row>, turns: seq<string>, msgs: seq<Message>) {
    |msgs| == 2 * |turns| && forall k :: 0 <= k < |turns| ==> PairAt(rows, turns, msgs, k)
  }

  lemma AppendPair(rows: seq<Row>, turns: seq<string>, msgs: seq<Message>, t: string, user: Message, answer: Message)
    requires HoldsPairs(rows, turns, msgs) && IsPair(rows, t, user, answer)
    ensures HoldsPairs(rows, turns + [t], msgs + [user, answer])
  {
    forall k | 0 <= k <= |turns|
      ensures PairAt(rows, turns + [t], msgs + [user, answer], k)
    {
      assert k < |turns| ==> PairAt(rows, turns, msgs, k);
    }
  }

  lemma {:induction false} PairsOfComplete(rows: seq<Row>, turns: seq<string>)
    ensures HoldsPairs(rows, CompleteTurns(rows, turns), Pairs(rows, turns))
    decreases |turns|
  {
    if turns != [] {
      var n := |turns| - 1;
      var t := turns[n];
      PairsOfComplete(rows, turns[..n]);
      PairIs(rows, t);
      if Complete(rows, t) {
        AppendPair(rows, CompleteTurns(rows, turns[..n]), Pairs(rows, turns[..n]), t,
                   Message(User, UserOf(rows, t).value), Message(Assistant, AnswerOf(rows, t).value));
      } else {
        assert CompleteTurns(rows, turns) == CompleteTurns(rows, turns[..n]);
        assert Pairs(rows, turns) == Pairs(rows, turns[..n]);
      }
    }
  }

  lemma AllInTurn(prior: seq<Row>)
    ensures InTurn(prior, CompleteTurns(prior, Distinct(TurnIds(prior))))
  {
    var all := Distinct(TurnIds(prior));
    CompleteTurnsHold(prior, all);
    TurnsOrdered(prior);
    CompleteTurnsOrdered(prior, all);
    forall t | Complete(prior, t)
      ensures t in CompleteTurns(prior, all)
    {
      TurnHasRow(prior, t);
    }
  }

  lemma NewestHold(rows: seq<Row>, turns: seq<string>, msgs: seq<Message>, d: nat)
    requires HoldsPairs(rows, turns, msgs) && d <= |turns|
    ensures HoldsPairs(rows, turns[d..], msgs[2 * d..])
  {
    forall k | 0 <= k < |turns| - d
      ensures PairAt(rows, turns[d..], msgs[2 * d..], k)
    {
      assert PairAt(rows, turns, msgs, d + k);
    }
  }

  /** A history is the question and newest real answer of the newest complete turns before the current one, as many as
      the limit allows in pairs, in the order in which the turns began. */
  lemma HistoryHolds(rows: seq<Row>, current: string, limit: nat) returns (c: nat, turns: seq<string>)
    ensures CutsBefore(rows, current, c) && InTurn(rows[..c], turns)
    ensures HoldsPairs(rows[..c], turns[|turns| - Min(|turns|, limit / 2)..], HistorySpec(rows, current, limit))
  {
    c := BeforeCuts(rows, current);
    var prior := rows[..c];
    turns := CompleteTurns(prior, Distinct(TurnIds(prior)));
    AllInTurn(prior);
    PairsOfComplete(prior, Distinct(TurnIds(prior)));
    NewestHold(prior, turns, Pairs(prior, Distinct(TurnIds(prior))), |turns| - Min(|turns|, limit / 2));
  }

  lemma {:induction false} BeforeCuts(rows: seq<Row>, current: string) returns (c: nat)
    ensures CutsBefore(rows, current, c) && Before(rows, current) == rows[..c]
  {
    c := 0;
    if rows != [] && rows[0].turn != current {
      c := BeforeCuts(rows[1..], current);
      assert rows[..c + 1] == [rows[0]] + rows[1..][..c];
      c := c + 1;
    }
  }
}
