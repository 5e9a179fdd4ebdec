/** From the labels the prompt numbers its excerpts with to the citations of an answer that quotes them. */
module CitedLabels {
  import opened Chars
  import opened History
  import opened ContextFit
  import opened Citations

  // ----- a number printed as a label reads back as itself -----

  ghost predicate AllDigits(t: string) {
    forall i :: 0 <= i < |t| ==> IsDigit(t[i])
  }

  lemma {:induction false} DecimalReadsBack(n: nat)
    ensures Decimal(n) != "" && AllDigits(Decimal(n)) && DecimalValue(Decimal(n)) == n
    ensures Decimal(n)[0] == '0' ==> n == 0 && |Decimal(n)| == 1
  {
    if n >= 10 {
      DecimalReadsBack(n / 10);
      var t := Decimal(n);
      assert t[..|t| - 1] == Decimal(n / 10);
    } else {
      assert Decimal(n)[..0] == "";
    }
  }

  lemma DigitsUntrimmed(t: string)
    requires t != "" && AllDigits(t)
    ensures Trim(t) == t && SplitCommas(t) == [t] && ']' !in t
  {
    assert IsDigit(t[0]) && IsDigit(t[|t| - 1]);
    IndexFromIs(t, ',', 0, |t|);
  }

  lemma DecimalIsList(n: nat)
    requires n <= USIZE_MAX
    ensures IsNumberList(Decimal(n)) && NumbersOf(Decimal(n)) == [n] && ']' !in Decimal(n)
  {
    var t := Decimal(n);
    DecimalReadsBack(n);
    DigitsUntrimmed(t);
    assert IsNumber(Trim(SplitCommas(t)[0]));
    assert NumbersOf(t) == [n];
  }

  /** The answer quotes the label `[n]` at position `i`. */
  predicate Quotes(answer: string, i: nat, n: nat) {
    var end := i + 1 + |Decimal(n)|;
    end < |answer| && answer[i] == '[' && answer[i + 1..end] == Decimal(n) && answer[end] == ']'
  }

  /** A quoted label is a marker of its number, wherever it stands in an answer. */
  lemma QuotedLabelIsMarker(answer: string, i: nat, n: nat)
    requires Quotes(answer, i, n) && n <= USIZE_MAX
    ensures (i, n) in AllMarkers(answer)
  {
    DecimalIsList(n);
    assert [n][0] == n;
    assert IsMarker(answer, i, n, i + 1 + |Decimal(n)|);
    MarkersExactly(answer, i, n);
  }

  // ----- a list of numbers -----

  lemma {:induction false} TrimsBefore(before: string, core: string)
    requires IsBlankText(before)
    ensures Trim(before + core) == Trim(core)
  {
    if before == "" {
      assert before + core == core;
    } else {
      assert (before + core)[0] == before[0] && (before + core)[1..] == before[1..] + core;
      TrimsBefore(before[1..], core);
    }
  }

  lemma {:induction false} TrimsAfter(core: string, after: string)
    requires IsBlankText(after) && core != "" && !IsWhitespace(core[0]) && !IsWhitespace(core[|core| - 1])
    ensures Trim(core + after) == core
    decreases |after|
  {
    if after == "" {
      assert core + after == core;
    } else {
      var n := |after| - 1;
      assert (core + after)[0] == core[0] && (core + after)[|core| + n] == after[n];
      assert (core + after)[..|core| + n] == core + after[..n];
      TrimsAfter(core, after[..n]);
    }
  }

  /** Trimming takes away whitespace at both ends, and nothing else. */
  lemma TrimExactly(before: string, core: string, after: string)
    requires IsBlankText(before) && IsBlankText(after)
    requires core != "" && !IsWhitespace(core[0]) && !IsWhitespace(core[|core| - 1])
    ensures Trim(before + (core + after)) == core
  {
    TrimsBefore(before, core + after);
    TrimsAfter(core, after);
  }

  /** The decimal digits of `n` with any whitespace around them. */
  ghost predicate Pads(part: string, n: nat) {
    exists before, after :: PaddedBy(part, n, before, after)
  }

  ghost predicate PaddedBy(part: string, n: nat, before: string, after: string) {
    IsBlankText(before) && IsBlankText(after) && part == before + (Decimal(n) + after)
  }

  lemma PaddedReads(part: string, n: nat)
    requires Pads(part, n)
    ensures Trim(part) == Decimal(n) && ',' !in part
  {
    var before, after :| PaddedBy(part, n, before, after);
    DecimalReadsBack(n);
    assert IsDigit(Decimal(n)[0]) && IsDigit(Decimal(n)[|Decimal(n)| - 1]);
    TrimExactly(before, Decimal(n), after);
  }

  function Commas(parts: seq<string>): string {
    if parts == [] then "" else if |parts| == 1 then parts[0] else parts[0] + ("," + Commas(parts[1..]))
  }

  lemma {:induction false} SplitOfCommas(parts: seq<string>)
    requires parts != [] && forall k :: 0 <= k < |parts| ==> ',' !in parts[k]
    ensures SplitCommas(Commas(parts)) == parts
  {
    var s, n := Commas(parts), |parts[0]|;
    if |parts| == 1 {
      assert s[0..n] == s;
      IndexFromIs(s, ',', 0, n);
    } else {
      assert s[0..n] == parts[0] && s[n] == ',' && s[n + 1..] == Commas(parts[1..]);
      IndexFromIs(s, ',', 0, n);
      SplitOfCommas(parts[1..]);
    }
  }

  /** A comma-separated list of decimals, with any whitespace around each, reads back as exactly its numbers. */
  lemma PaddedListReads(parts: seq<string>, ns: seq<nat>)
    requires |parts| == |ns| > 0
    requires forall k :: 0 <= k < |ns| ==> Pads(parts[k], ns[k]) && ns[k] <= USIZE_MAX
    ensures IsNumberList(Commas(parts)) && NumbersOf(Commas(parts)) == ns
  {
    forall k | 0 <= k < |parts|
      ensures ',' !in parts[k] && IsNumber(Trim(parts[k])) && DecimalValue(Trim(parts[k])) == ns[k]
    {
      PaddedReads(parts[k], ns[k]);
      DecimalReadsBack(ns[k]);
    }
    SplitOfCommas(parts);
  }

  // ----- the labels of the prompt -----

  /** The excerpts after the first `k`. */
  function ExcerptsAfter(p: Prompt, units: seq<Unit>, k: nat): string
    requires k <= |units|
    decreases |units| - k
  {
    if k == |units| then "" else p.Excerpt(k + 1, units[k]) + ExcerptsAfter(p, units, k + 1)
  }

  lemma {:induction false} ExcerptsSplit(p: Prompt, units: seq<Unit>, k: nat)
    requires k <= |units|
    ensures p.Excerpts(units) == p.Excerpts(units[..k]) + ExcerptsAfter(p, units, k)
    decreases |units| - k
  {
    if k == |units| {
      assert units[..k] == units && p.Excerpts(units) + "" == p.Excerpts(units);
    } else {
      ExcerptsSplit(p, units, k + 1);
      assert units[..k + 1][..k] == units[..k];
      Regroup(p.Excerpts(units[..k]), p.Excerpt(k + 1, units[k]), ExcerptsAfter(p, units, k + 1));
    }
  }

  predicate StandsAt(s: string, i: nat, t: string) {
    i + |t| <= |s| && s[i..i + |t|] == t
  }

  /** What follows a label: the unit's title, and its text inside the fence. */
  function Labelled(p: Prompt, u: Unit): string {
    " (" + p.title(u) + "):\n<<SRC:" + p.nonce + ">>\n" + u.text + "\n<<END:" + p.nonce + ">>\n"
  }

  /** From position `i` on the prompt shows the label `[n]` and, up to position `end`, the unit it labels. */
  ghost predicate ShowsUnit(p: Prompt, prompt: string, i: nat, n: nat, u: Unit, end: nat) {
    && Quotes(prompt, i, n) && StandsAt(prompt, i + |Decimal(n)| + 2, Labelled(p, u))
    && end == i + |Decimal(n)| + 2 + |Labelled(p, u)|
  }

  /** The whole prompt, character by character: the intro, then each unit with its number directly after the one before
      it, then the outro. */
  ghost predicate Layout(p: Prompt, prompt: string, units: seq<Unit>, at: seq<nat>) {
    && |at| == |units| + 1 && at[0] == |p.intro| && StandsAt(prompt, 0, p.intro)
    && (forall n: nat :: 1 <= n <= |units| ==> ShowsUnit(p, prompt, at[n - 1], n, units[n - 1], at[n]))
    && StandsAt(prompt, at[|units|], p.outro) && |prompt| == at[|units|] + |p.outro|
  }

  lemma ExcerptForm(p: Prompt, n: nat, u: Unit)
    ensures p.Excerpt(n, u) == ("[" + Decimal(n) + "]") + Labelled(p, u)
  {
    Joins("[" + Decimal(n), p.title(u), p.nonce, u.text);
  }

  lemma Joins(number: string, title: string, nonce: string, text: string)
    ensures number + "] (" + title + "):\n" + Fence(nonce, text)
         == (number + "]") + (" (" + title + "):\n<<SRC:" + nonce + ">>\n" + text + "\n<<END:" + nonce + ">>\n")
  {
    var tail := nonce + (">>\n" + text + "\n<<END:" + nonce + ">>\n");
    assert Fence(nonce, text) == "<<SRC:" + tail;
    assert "] (" == "]" + " (" && "):\n" + "<<SRC:" == "):\n<<SRC:";
  }

  lemma ShowsExcerpt(p: Prompt, prompt: string, head: string, n: nat, u: Unit, tail: string)
    requires prompt == head + p.Excerpt(n, u) + tail
    ensures ShowsUnit(p, prompt, |head|, n, u, |head| + |p.Excerpt(n, u)|)
  {
    ExcerptForm(p, n, u);
    Splice(head, Decimal(n), Labelled(p, u), tail);
  }

  lemma Splice(head: string, digits: string, body: string, tail: string)
    ensures var s := head + (("[" + digits + "]") + body) + tail; var i, end := |head|, |head| + 1 + |digits|;
      && end < |s| && s[i] == '[' && s[i + 1..end] == digits && s[end] == ']' && StandsAt(s, end + 1, body)
  {
  }

  /** Where the label after the first `k` excerpts stands. */
  function Place(p: Prompt, units: seq<Unit>, k: nat): nat
    requires k <= |units|
  {
    |p.intro| + |p.Excerpts(units[..k])|
  }

  lemma UserSplit(p: Prompt, units: seq<Unit>, n: nat)
    requires InRange(n, |units|)
    ensures p.User(units) == (p.intro + p.Excerpts(units[..n - 1])) + p.Excerpt(n, units[n - 1])
                             + (ExcerptsAfter(p, units, n) + p.outro)
  {
    ExcerptsSplit(p, units, n - 1);
    Parts(p.intro, p.Excerpts(units[..n - 1]), p.Excerpt(n, units[n - 1]), ExcerptsAfter(p, units, n), p.outro);
  }

  lemma NextPlace(p: Prompt, units: seq<Unit>, n: nat)
    requires InRange(n, |units|)
    ensures Place(p, units, n) == Place(p, units, n - 1) + |p.Excerpt(n, units[n - 1])|
  {
    assert units[..n][..n - 1] == units[..n - 1];
  }

  lemma ShowsUnitAt(p: Prompt, units: seq<Unit>, n: nat)
    requires InRange(n, |units|)
    ensures ShowsUnit(p, p.User(units), Place(p, units, n - 1), n, units[n - 1], Place(p, units, n))
  {
    var head := p.intro + p.Excerpts(units[..n - 1]);
    UserSplit(p, units, n);
    NextPlace(p, units, n);
    ShowsExcerpt(p, p.User(units), head, n, units[n - 1], ExcerptsAfter(p, units, n) + p.outro);
    assert |head| == Place(p, units, n - 1);
  }

  lemma OuterParts(p: Prompt, units: seq<Unit>)
    ensures StandsAt(p.User(units), 0, p.intro) && StandsAt(p.User(units), Place(p, units, |units|), p.outro)
    ensures Place(p, units, 0) == |p.intro| && |p.User(units)| == Place(p, units, |units|) + |p.outro|
  {
    assert units[..|units|] == units && units[..0] == [];
    Ends(p.intro + p.Excerpts(units), p.outro);
    Regroup(p.intro, p.Excerpts(units), p.outro);
    Begins(p.intro, p.Excerpts(units) + p.outro);
  }

  lemma Ends(a: string, b: string)
    ensures StandsAt(a + b, |a|, b)
  {
  }

  lemma Begins(a: string, b: string)
    ensures StandsAt(a + b, 0, a)
  {
  }

  /** The prompt numbers its units from one, each label directly before its own unit. */
  lemma PromptLayout(p: Prompt, units: seq<Unit>) returns (at: seq<nat>)
    ensures Layout(p, p.User(units), units, at)
  {
    at := seq(|units| + 1, k requires 0 <= k <= |units| => Place(p, units, k));
    OuterParts(p, units);
    forall n: nat | InRange(n, |units|)
      ensures ShowsUnit(p, p.User(units), at[n - 1], n, units[n - 1], at[n])
    {
      ShowsUnitAt(p, units, n);
    }
  }

  lemma Parts(a: string, b: string, c: string, d: string, e: string)
    ensures a + (b + (c + d)) + e == (a + b) + c + (d + e)
  {
  }

  // ----- citations of the fitted units -----

  /** What an answer to a fitted prompt cites. */
  function FittedCitations(fit: Fit, answer: string): seq<Citation> {
    CitationsOf(fit.units, Cited(AllMarkers(answer), |fit.units|))
  }

  /** Every number a citation of the answer holds is in range, and the prompt, built from the units left after trimming,
      shows it as a label directly before one unit; the citation is of that unit's source and locates its chunk. */
  lemma NumberNamesLabel(p: Prompt, fit: Fit, answer: string, k: nat, n: nat) returns (at: seq<nat>)
    requires fit.prompt == p.User(fit.units)
    requires k < |FittedCitations(fit, answer)| && n in FittedCitations(fit, answer)[k].markers
    ensures 1 <= n <= |fit.units| && Layout(p, fit.prompt, fit.units, at)
    ensures ShowsUnit(p, fit.prompt, at[n - 1], n, fit.units[n - 1], at[n])
    ensures var c := FittedCitations(fit, answer)[k]; var u := fit.units[n - 1];
      c.sourceId == u.sourceId && HasChunk(c.locators, u.chunkId)
  {
    var ns := Cited(AllMarkers(answer), |fit.units|);
    assert IsCited(FittedCitations(fit, answer), n);
    AnswerCitations(answer, fit.units, n);
    at := PromptLayout(p, fit.units);
    CitationExact(fit.units, ns, k);
    CitationLocators(fit.units, ns, k);
  }

  /** An answer that quotes a label of the prompt cites it if and only if its unit survived the trimming, and a unit
      that survived is the one that had this number before: numbers of trimmed units are dropped. */
  lemma QuotedLabelCited(units0: seq<Unit>, history0: seq<Message>, trims: nat, fit: Fit, answer: string, i: nat,
                         n: nat)
    requires (fit.units, fit.history) == Trimmed(units0, history0, trims) && |fit.units| <= USIZE_MAX
    requires Quotes(answer, i, n)
    ensures IsCited(FittedCitations(fit, answer), n) <==> 1 <= n <= |fit.units|
    ensures |fit.units| <= |units0| && (1 <= n <= |fit.units| ==> fit.units[n - 1] == units0[n - 1])
  {
    TrimmedShape(units0, history0, trims);
    AnswerCitations(answer, fit.units, n);
    if InRange(n, |fit.units|) {
      QuotedLabelIsMarker(answer, i, n);
      assert HasMarker(answer, n);
    }
  }
}
