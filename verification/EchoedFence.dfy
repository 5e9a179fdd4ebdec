/** The redaction law over the literal fences: what a reader sees of an excerpt that the model echoes with its fence. */
module EchoedFence {
  import opened Redactor
  import opened RedactorStream
  import opened ContextFit

  /** Some delta ends after exactly `p` characters. */
  ghost predicate EndsAt(deltas: seq<string>, p: nat) {
    exists k :: EndsWith(deltas, p, k)
  }

  ghost predicate EndsWith(deltas: seq<string>, p: nat, k: int) {
    0 < k <= |deltas| && |Concat(deltas[..k])| == p
  }

  lemma PrefixLength(deltas: seq<string>, k: nat)
    requires 0 < k <= |deltas|
    ensures |Concat(deltas[..k])| == |deltas[0]| + |Concat(deltas[1..][..k - 1])|
  {
    assert deltas[..k][1..] == deltas[1..][..k - 1];
  }

  lemma EndsAtStep(deltas: seq<string>, p: nat)
    requires deltas != []
    ensures EndsAt(deltas, p) <==>
      p == |deltas[0]| || (p >= |deltas[0]| && EndsAt(deltas[1..], p - |deltas[0]|))
  {
    PrefixLength(deltas, 1);
    if p == |deltas[0]| {
      assert EndsWith(deltas, p, 1);
    } else if p > |deltas[0]| && EndsAt(deltas[1..], p - |deltas[0]|) {
      var k :| EndsWith(deltas[1..], p - |deltas[0]|, k);
      PrefixLength(deltas, k + 1);
      assert EndsWith(deltas, p, k + 1);
    }
    if EndsAt(deltas, p) && p != |deltas[0]| {
      var k :| EndsWith(deltas, p, k);
      PrefixLength(deltas, k);
      assert EndsWith(deltas[1..], p - |deltas[0]|, k - 1);
    }
  }

  ghost predicate EndsBadly(ms: seq<string>, items: seq<Item>, x: nat, deltas: seq<string>) {
    exists p: nat :: EndsAt(deltas, p) && BadAt(ms, items, x + p)
  }

  /** A bad cut is a delta that ends at a bad position. */
  lemma {:induction false} BadCutEnds(ms: seq<string>, items: seq<Item>, x: nat, deltas: seq<string>)
    ensures BadCut(ms, items, x, deltas) <==> EndsBadly(ms, items, x, deltas)
    decreases |deltas|
  {
    if deltas != [] {
      var n := |deltas[0]|;
      BadCutEnds(ms, items, x + n, deltas[1..]);
      if p: nat :| EndsAt(deltas[1..], p) && BadAt(ms, items, x + n + p) {
        EndsAtStep(deltas, n + p);
        assert BadAt(ms, items, x + (n + p));
      }
      if BadAt(ms, items, x + n) {
        EndsAtStep(deltas, n);
      }
      if p: nat :| EndsAt(deltas, p) && BadAt(ms, items, x + p) {
        EndsAtStep(deltas, p);
        if p != n {
          assert BadAt(ms, items, x + n + (p - n));
        }
      }
    }
  }

  /** A plain piece and a marker, before more text. */
  function Step(a: string, kind: nat, rest: seq<Item>): seq<Item> {
    [Plain(a)] + ([Mark(kind)] + rest)
  }

  lemma StepText(ms: seq<string>, a: string, kind: nat, rest: seq<Item>)
    requires kind < |ms|
    ensures Text(ms, Step(a, kind, rest)) == a + (ms[kind] + Text(ms, rest))
    ensures Shown(Step(a, kind, rest)) == a + Shown(rest)
  {
    Cons(ms, Mark(kind), rest);
    Cons(ms, Plain(a), [Mark(kind)] + rest);
    assert "" + Shown(rest) == Shown(rest);
  }

  lemma BadAtCons(ms: seq<string>, it: Item, items: seq<Item>, x: nat)
    ensures BadAt(ms, [it] + items, x) <==>
      if x >= |ItemText(ms, it)| then BadAt(ms, items, x - |ItemText(ms, it)|) else CutsClosing(ms, [it] + items, x)
  {
    assert ([it] + items)[1..] == items;
  }

  /** A bad position comes one character before the end of a double-bracket marker. */
  lemma BadAtMark(ms: seq<string>, a: string, kind: nat, rest: seq<Item>, x: nat)
    requires kind < |ms| && ms[kind] != ""
    ensures BadAt(ms, Step(a, kind, rest), x) <==>
      || (kind < 2 && x + 1 == |a| + |ms[kind]|)
      || (x >= |a| + |ms[kind]| && BadAt(ms, rest, x - |a| - |ms[kind]|))
  {
    BadAtCons(ms, Plain(a), [Mark(kind)] + rest, x);
    if x >= |a| {
      BadAtCons(ms, Mark(kind), rest, x - |a|);
    }
  }

  /** `x` between a start and an end mark, inside other text. */
  function Enclosed(a: string, start: string, x: string, end: string, b: string): string {
    a + (start + (x + (end + b)))
  }

  /** A text with two markers in it, plain around them. */
  function Around(a: string, first: nat, x: string, last: nat, b: string): seq<Item> {
    Step(a, first, Step(x, last, [Plain(b)]))
  }

  lemma AroundText(ms: seq<string>, a: string, first: nat, x: string, last: nat, b: string)
    requires first < |ms| && last < |ms|
    ensures Text(ms, Around(a, first, x, last, b)) == Enclosed(a, ms[first], x, ms[last], b)
    ensures Shown(Around(a, first, x, last, b)) == a + (x + b)
  {
    StepText(ms, x, last, [Plain(b)]);
    StepText(ms, a, first, Step(x, last, [Plain(b)]));
    Cons(ms, Plain(b), []);
    assert [Plain(b)] + [] == [Plain(b)] && b + "" == b;
  }

  lemma AroundBad(ms: seq<string>, a: string, first: nat, x: string, last: nat, b: string, p: nat)
    requires first < |ms| && last < |ms| && ms[first] != "" && ms[last] != ""
    ensures BadAt(ms, Around(a, first, x, last, b), p) <==>
      || (first < 2 && p + 1 == |a| + |ms[first]|)
      || (last < 2 && p + 1 == |a| + |ms[first]| + |x| + |ms[last]|)
  {
    BadAtMark(ms, a, first, Step(x, last, [Plain(b)]), p);
    if p >= |a| + |ms[first]| {
      BadAtMark(ms, x, last, [Plain(b)], p - |a| - |ms[first]|);
    }
    if p >= |a| + |ms[first]| + |x| + |ms[last]| {
      BadAtCons(ms, Plain(b), [], p - |a| - |ms[first]| - |x| - |ms[last]|);
      assert [Plain(b)] + [] == [Plain(b)];
    }
  }

  /** `p` and `q` are the positions between the two closing brackets of the two markers, if these have two. */
  predicate Closings(ms: seq<string>, a: string, first: nat, x: string, last: nat, p: nat, q: nat) {
    && first < |ms| && last < |ms| && ms[first] != "" && ms[last] != ""
    && p == |a| + |ms[first]| - 1 && q == p + 1 + |x| + |ms[last]| - 1
  }

  lemma AroundEnds(ms: seq<string>, a: string, first: nat, x: string, last: nat, b: string, deltas: seq<string>, p: nat,
                   q: nat)
    requires Closings(ms, a, first, x, last, p, q)
    ensures EndsBadly(ms, Around(a, first, x, last, b), 0, deltas) <==>
      (first < 2 && EndsAt(deltas, p)) || (last < 2 && EndsAt(deltas, q))
  {
    var items := Around(a, first, x, last, b);
    AroundBad(ms, a, first, x, last, b, p);
    AroundBad(ms, a, first, x, last, b, q);
    assert BadAt(ms, items, 0 + p) == BadAt(ms, items, p) && BadAt(ms, items, 0 + q) == BadAt(ms, items, q);
    if r: nat :| EndsAt(deltas, r) && BadAt(ms, items, 0 + r) {
      AroundBad(ms, a, first, x, last, b, r);
    }
  }

  lemma AroundWellFormed(a: string, first: nat, x: string, last: nat, b: string)
    requires IsClean(a) && IsClean(x) && IsClean(b) && first < 4 && last < 4
    ensures WellFormed(Around(a, first, x, last, b))
  {
  }

  /** The echoed text as items of the redaction law. */
  lemma AroundItems(ms: seq<string>, a: string, first: nat, x: string, last: nat, b: string, deltas: seq<string>,
                    p: nat, q: nat)
    returns (items: seq<Item>)
    requires |ms| == 4 && IsClean(a) && IsClean(x) && IsClean(b) && Closings(ms, a, first, x, last, p, q)
    ensures WellFormed(items) && Text(ms, items) == Enclosed(a, ms[first], x, ms[last], b)
    ensures Shown(items) == a + (x + b)
    ensures EndsBadly(ms, items, 0, deltas) <==>
      (first < 2 && EndsAt(deltas, p)) || (last < 2 && EndsAt(deltas, q))
  {
    items := Around(a, first, x, last, b);
    AroundText(ms, a, first, x, last, b);
    AroundWellFormed(a, first, x, last, b);
    AroundEnds(ms, a, first, x, last, b, deltas, p, q);
  }

  lemma RedactsEnclosed(ms: seq<string>, a: string, first: nat, x: string, last: nat, b: string, deltas: seq<string>,
                        p: nat, q: nat)
    requires Fences(ms) && IsClean(a) && IsClean(x) && IsClean(b) && Closings(ms, a, first, x, last, p, q)
    requires Concat(deltas) == Enclosed(a, ms[first], x, ms[last], b)
    ensures Output(ms, "", deltas) == a + (x + b) <==>
      !(first < 2 && EndsAt(deltas, p)) && !(last < 2 && EndsAt(deltas, q))
  {
    var items := AroundItems(ms, a, first, x, last, b, deltas, p, q);
    RedactsText(ms, items, deltas);
    BadCutEnds(ms, items, 0, deltas);
  }

  /** The four markers of a nonce, in characters. */
  lemma MarkerForms(nonce: string)
    requires IsClean(nonce)
    ensures var ms := Markers(nonce);
      && Fences(ms)
      && ms[0] == "<<SRC:" + nonce + ">>" && ms[1] == "<<END:" + nonce + ">>"
      && ms[2] == "<SRC:" + nonce + ">" && ms[3] == "<END:" + nonce + ">"
  {
    MarkersAreFences(nonce);
  }

  /** The literal fence and the positions inside it. */
  lemma FenceForms(nonce: string, a: string, x: string, b: string, p: nat, q: nat)
    requires IsClean(nonce) && p == |a| + |nonce| + 7 && q == p + 1 + |x| + |nonce| + 7
    ensures Fences(Markers(nonce)) && Closings(Markers(nonce), a, 0, x, 1, p, q)
    ensures Enclosed(a, Markers(nonce)[0], x, Markers(nonce)[1], b)
         == Enclosed(a, "<<SRC:" + nonce + ">>", x, "<<END:" + nonce + ">>", b)
  {
    MarkerForms(nonce);
  }

  lemma VariantForms(nonce: string, a: string, x: string, b: string, p: nat, q: nat)
    requires IsClean(nonce) && p == |a| + |nonce| + 5 && q == p + 1 + |x| + |nonce| + 5
    ensures Fences(Markers(nonce)) && Closings(Markers(nonce), a, 2, x, 3, p, q)
    ensures Enclosed(a, Markers(nonce)[2], x, Markers(nonce)[3], b)
         == Enclosed(a, "<SRC:" + nonce + ">", x, "<END:" + nonce + ">", b)
  {
    MarkerForms(nonce);
  }

  /** Of a fenced text echoed anywhere in plain text, for every cutting of the stream, exactly the fence is missing, if
      and only if no delta ends between the two closing brackets of one of its markers, at `p` or `q`. */
  lemma EchoedFenceGoes(nonce: string, a: string, x: string, b: string, deltas: seq<string>, p: nat, q: nat)
    requires IsClean(nonce) && IsClean(a) && IsClean(x) && IsClean(b)
    requires Concat(deltas) == Enclosed(a, "<<SRC:" + nonce + ">>", x, "<<END:" + nonce + ">>", b)
    requires p == |a| + |nonce| + 7 && q == p + 1 + |x| + |nonce| + 7
    ensures Output(Markers(nonce), "", deltas) == a + (x + b) <==> !EndsAt(deltas, p) && !EndsAt(deltas, q)
  {
    FenceForms(nonce, a, x, b, p, q);
    RedactsEnclosed(Markers(nonce), a, 0, x, 1, b, deltas, p, q);
  }

  /** Of a text echoed between single-bracket variants of the fence, only the fence is ever missing. */
  lemma EchoedVariantGoes(nonce: string, a: string, x: string, b: string, deltas: seq<string>)
    requires IsClean(nonce) && IsClean(a) && IsClean(x) && IsClean(b)
    requires Concat(deltas) == Enclosed(a, "<SRC:" + nonce + ">", x, "<END:" + nonce + ">", b)
    ensures Output(Markers(nonce), "", deltas) == a + (x + b)
  {
    var p := |a| + |nonce| + 5;
    var q := p + 1 + |x| + |nonce| + 5;
    VariantForms(nonce, a, x, b, p, q);
    RedactsEnclosed(Markers(nonce), a, 2, x, 3, b, deltas, p, q);
  }

  lemma FenceEncloses(nonce: string, text: string)
    ensures Fence(nonce, text)
         == Enclosed("", "<<SRC:" + nonce + ">>", "\n" + text + "\n", "<<END:" + nonce + ">>", "\n")
  {
    assert ">>\n" == ">>" + "\n" && "\n<<END:" == "\n" + "<<END:";
  }

  /** So an excerpt that the model echoes as the prompt fenced it shows its text alone. */
  lemma EchoedExcerptGoes(nonce: string, text: string, deltas: seq<string>, p: nat, q: nat)
    requires IsClean(nonce) && IsClean(text) && Concat(deltas) == Fence(nonce, text)
    requires p == |nonce| + 7 && q == p + 1 + |text| + 2 + |nonce| + 7
    ensures Output(Markers(nonce), "", deltas) == "" + (("\n" + text + "\n") + "\n")
      <==> !EndsAt(deltas, p) && !EndsAt(deltas, q)
  {
    FenceEncloses(nonce, text);
    EchoedFenceGoes(nonce, "", "\n" + text + "\n", "\n", deltas, p, q);
  }

  /** What the redactor object shows of a whole stream. */
  method Stream(nonce: string, deltas: seq<string>) returns (shown: string)
    ensures shown == Output(Markers(nonce), "", deltas)
  {
    var redactor := new FenceRedactor(nonce);
    assert "" !in redactor.markers;
    shown := "";
    for k := 0 to |deltas|
      invariant redactor.markers == Markers(nonce)
      invariant (shown, redactor.buf) == After(Markers(nonce), deltas[..k])
    {
      assert deltas[..k + 1][..k] == deltas[..k];
      var emit := redactor.Push(deltas[k]);
      shown := shown + emit;
    }
    assert deltas[..|deltas|] == deltas && deltas + [] == deltas;
    OutputAfter(Markers(nonce), deltas, []);
    var tail := redactor.Flush();
    shown := shown + tail;
  }
}
