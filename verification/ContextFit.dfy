/** Fitting history and source units into the model context (`budget_history`, `fit_to_context`). */
module ContextFit {
  import opened Wrappers
  import opened Chars
  import opened Numbers
  import opened History

  const HISTORY_BUDGET_DIVISOR: nat := 3
  const MIN_OUTPUT_TOKENS: nat := 256
  const RESERVED_OUTPUT: nat := 2048

  datatype Unit = Unit(sourceId: string, chunkId: string, locator: Option<string>, text: string)

  type Measure = string -> nat

  // ----- budget_history -----

  function UsedTokens(history: seq<Message>, measure: Measure): nat {
    if history == [] then 0 else measure(history[0].content) + UsedTokens(history[1..], measure)
  }

  /** What a history uses is what its messages measure, added up. */
  lemma {:induction false} UsedIsSum(history: seq<Message>, measure: Measure, ms: seq<nat>)
    requires |ms| == |history| && forall i :: 0 <= i < |ms| ==> ms[i] == measure(history[i].content)
    ensures UsedTokens(history, measure) == Sum(ms)
  {
    if history != [] {
      UsedIsSum(history[1..], measure, ms[1..]);
      SumCons(ms[0], ms[1..]);
      assert ms == [ms[0]] + ms[1..];
    }
  }

  /** `pairs` is the fewest whole leading pairs to drop for the rest to be within its share of the context, or to be the
      newest pair alone; without a context size nothing is dropped. */
  ghost predicate DropsFewest(history: seq<Message>, context: nat, measure: Measure, pairs: nat) {
    && 2 * pairs <= |history| && (context == 0 ==> pairs == 0)
    && (context > 0 && |history| - 2 * pairs > 2 ==>
          UsedTokens(history[2 * pairs..], measure) <= context / HISTORY_BUDGET_DIVISOR)
    && forall k :: 0 <= k < pairs ==>
         |history| - 2 * k > 2 && UsedTokens(history[2 * k..], measure) > context / HISTORY_BUDGET_DIVISOR
  }

  /** Drops the fewest whole leading pairs that bring the history within its share of the context; the newest
      pair always stays. */
  method BudgetHistory(history: seq<Message>, context: nat, measure: Measure)
    returns (kept: seq<Message>, ghost pairs: nat)
    ensures DropsFewest(history, context, measure, pairs) && kept == history[2 * pairs..]
    ensures Alternating(history) ==> Alternating(kept)
  {
    kept, pairs := history, 0;
    if context == 0 || history == [] {
      return;
    }
    var cap := context / HISTORY_BUDGET_DIVISOR;
    while |kept| > 2 && UsedTokens(kept, measure) > cap
      invariant 2 * pairs <= |history| && kept == history[2 * pairs..]
      invariant forall k :: 0 <= k < pairs ==> |history| - 2 * k > 2 && UsedTokens(history[2 * k..], measure) > cap
      decreases |kept|
    {
      kept := kept[2..];
      pairs := pairs + 1;
    }
    if Alternating(history) {
      DropPairs(history, pairs);
    }
  }

  // ----- fit_to_context -----

  function HistoryText(history: seq<Message>): string {
    if history == [] then "" else history[0].content + "\n" + HistoryText(history[1..])
  }

  /** The flattened history holds every message in its place, each followed by a line break. */
  lemma {:induction false} HistoryTextHolds(history: seq<Message>, k: nat)
    requires k < |history|
    ensures HistoryText(history)
      == HistoryText(history[..k]) + ((history[k].content + "\n") + HistoryText(history[k + 1..]))
  {
    if k == 0 {
      assert history[..0] == [];
    } else {
      HistoryTextHolds(history[1..], k - 1);
      assert history[1..][..k - 1] == history[..k][1..] && history[1..][k..] == history[k + 1..];
      Regroup(history[0].content + "\n", HistoryText(history[1..k]),
              (history[k].content + "\n") + HistoryText(history[k + 1..]));
      assert history[..k][1..] == history[1..k];
    }
  }

  function DigitChar(d: nat): char
    requires d < 10
  {
    '0' + d as char
  }

  function Decimal(n: nat): string {
    if n < 10 then [DigitChar(n)] else Decimal(n / 10) + [DigitChar(n % 10)]
  }

  /** `fence_excerpt`. */
  function Fence(nonce: string, text: string): string {
    "<<SRC:" + nonce + ">>\n" + text + "\n<<END:" + nonce + ">>\n"
  }

  /** The system text, the parts of the user message around the excerpts, how a unit is labelled, and the nonce of the
      fence around its text. */
  datatype Prompt = Prompt(system: string, intro: string, title: Unit -> string, nonce: string, outro: string,
                           measure: Measure)
  {
    /** The excerpt numbered `n`. */
    function Excerpt(n: nat, u: Unit): string {
      "[" + Decimal(n) + "] (" + title(u) + "):\n" + Fence(nonce, u.text)
    }

    /** The excerpts, numbered from one by position. */
    function Excerpts(units: seq<Unit>): string {
      if units == [] then "" else Excerpts(units[..|units| - 1]) + Excerpt(|units|, units[|units| - 1])
    }

    function User(units: seq<Unit>): string {
      intro + Excerpts(units) + outro
    }

    function Assembled(units: seq<Unit>, history: seq<Message>): nat {
      measure(system) + measure(HistoryText(history)) + measure(User(units))
    }

    predicate Fits(units: seq<Unit>, history: seq<Message>, limit: nat) {
      Assembled(units, history) + MIN_OUTPUT_TOKENS <= limit
    }
  }

  /** `build_grounded_user`: the numbered excerpts between the fixed parts of the message. */
  method BuildGroundedUser(p: Prompt, units: seq<Unit>) returns (prompt: string)
    ensures prompt == p.User(units)
  {
    var blocks := "";
    for i := 0 to |units|
      invariant blocks == p.Excerpts(units[..i])
    {
      assert units[..i + 1][..i] == units[..i];
      blocks := blocks + ("[" + Decimal(i + 1) + "] (" + p.title(units[i]) + "):\n");
      blocks := blocks + Fence(p.nonce, units[i].text);
    }
    assert units[..|units|] == units;
    prompt := p.intro + blocks + p.outro;
  }

  predicate CanTrim(units: seq<Unit>, history: seq<Message>) {
    |units| > 1 || |history| > 2
  }

  /** The trim order: trailing units down to one, then leading history pairs. */
  function TrimOnce(units: seq<Unit>, history: seq<Message>): (seq<Unit>, seq<Message>)
    requires CanTrim(units, history)
  {
    if |units| > 1 then (units[..|units| - 1], history) else (units, history[2..])
  }

  /** The configuration after `n` trims, or the last one the trim order reaches. */
  function Trimmed(units: seq<Unit>, history: seq<Message>, n: nat): (seq<Unit>, seq<Message>) {
    if n == 0 then (units, history)
    else
      var (u, h) := Trimmed(units, history, n - 1);
      if CanTrim(u, h) then TrimOnce(u, h) else (u, h)
  }

  /** The units left after `n` trims: one is dropped each time while there is more than one. */
  function UnitsLeft(count: nat, n: nat): nat {
    if n < count then count - n else Min(1, count)
  }

  /** The history pairs dropped by the trims after that, while there is more than one pair. */
  function PairsDropped(count: nat, length: nat, n: nat): nat {
    Min(SatSub(n, SatSub(count, 1)), SatSub(length, 1) / 2)
  }

  lemma NextTrim(count: nat, length: nat, n: nat)
    requires n > 0
    ensures var u, u' := UnitsLeft(count, n - 1), UnitsLeft(count, n);
      var d, d' := PairsDropped(count, length, n - 1), PairsDropped(count, length, n);
      && 2 * d <= length && 2 * d' <= length
      && (u > 1 ==> u' == u - 1 && d' == d)
      && (u <= 1 && length - 2 * d > 2 ==> u' == u && d' == d + 1)
      && (u <= 1 && length - 2 * d <= 2 ==> u' == u && d' == d)
  {
  }

  /** So `n` trims leave a prefix of the units, and the history without leading pairs. */
  lemma {:induction false} TrimmedShape(units: seq<Unit>, history: seq<Message>, n: nat)
    ensures var u, pairs := UnitsLeft(|units|, n), PairsDropped(|units|, |history|, n);
      && u <= |units| && 2 * pairs <= |history|
      && Trimmed(units, history, n) == (units[..u], history[2 * pairs..])
  {
    if n == 0 {
      assert units[..|units|] == units && history[0..] == history;
    } else {
      TrimmedShape(units, history, n - 1);
      NextTrim(|units|, |history|, n);
      var u, pairs := UnitsLeft(|units|, n - 1), PairsDropped(|units|, |history|, n - 1);
      assert u > 0 ==> units[..u][..u - 1] == units[..u - 1];
      assert |history| - 2 * pairs > 2 ==> history[2 * pairs..][2..] == history[2 * (pairs + 1)..];
    }
  }

  datatype Fit = Fit(units: seq<Unit>, history: seq<Message>, system: string, prompt: string, maxTokens: nat)

  /** Configuration `n` is the first in the trim order that leaves room for the minimum output, or the last one. */
  ghost predicate TrimsFewest(p: Prompt, units: seq<Unit>, history: seq<Message>, limit: nat, n: nat) {
    && (limit == 0 ==> n == 0)
    && (limit > 0 ==> FitsAfter(p, units, history, limit, n) || NothingToTrim(units, history, n))
    && forall k :: 0 <= k < n ==> CanTrimAfter(units, history, k) && !FitsAfter(p, units, history, limit, k)
  }

  /** One unit and one pair are left, or less. */
  ghost predicate NothingToTrim(units: seq<Unit>, history: seq<Message>, n: nat) {
    var (u, h) := Trimmed(units, history, n); |u| <= 1 && |h| <= 2
  }

  ghost predicate CanTrimAfter(units: seq<Unit>, history: seq<Message>, k: nat) {
    var (u, h) := Trimmed(units, history, k); CanTrim(u, h)
  }

  /** The output budget takes all the room the prompt leaves, up to the reserve and not below one token. */
  ghost predicate Budgets(p: Prompt, fit: Fit, limit: nat) {
    var used := p.Assembled(fit.units, fit.history);
    if limit == 0 || used + RESERVED_OUTPUT <= limit then fit.maxTokens == RESERVED_OUTPUT
    else if used < limit then used + fit.maxTokens == limit
    else fit.maxTokens == 1
  }

  /** Fits system text, history and excerpts into the model's 32-bit context size; zero skips the guard. */
  method FitToContext(p: Prompt, units0: seq<Unit>, history0: seq<Message>, limit: nat) returns (fit: Fit, ghost n: nat)
    requires limit < 0x1_0000_0000
    ensures TrimsFewest(p, units0, history0, limit, n) && (fit.units, fit.history) == Trimmed(units0, history0, n)
    ensures fit.system == p.system && fit.prompt == p.User(fit.units) && Budgets(p, fit, limit)
    ensures Alternating(history0) ==> Alternating(fit.history)
  {
    var units, history := units0, history0;
    n := 0;
    var prompt := BuildGroundedUser(p, units);
    var systemTokens := p.measure(p.system);
    if limit == 0 {
      return Fit(units, history, p.system, prompt, RESERVED_OUTPUT), 0;
    }
    var userTokens := p.measure(prompt);
    var histTokens := p.measure(HistoryText(history));
    while systemTokens + histTokens + userTokens + MIN_OUTPUT_TOKENS > limit && CanTrim(units, history)
      invariant (units, history) == Trimmed(units0, history0, n)
      invariant prompt == p.User(units) && userTokens == p.measure(prompt)
      invariant histTokens == p.measure(HistoryText(history))
      invariant forall k :: 0 <= k < n ==>
        CanTrimAfter(units0, history0, k) && !FitsAfter(p, units0, history0, limit, k)
      decreases |units| + |history|
    {
      assert CanTrimAfter(units0, history0, n) && !FitsAfter(p, units0, history0, limit, n);
      if |units| > 1 {
        units := units[..|units| - 1];
        prompt := BuildGroundedUser(p, units);
        userTokens := p.measure(prompt);
      } else {
        history := history[2..];
        histTokens := p.measure(HistoryText(history));
      }
      n := n + 1;
    }
    var assembled := systemTokens + histTokens + userTokens;
    var room := if assembled < limit then limit - assembled else 0;
    var maxTokens := if room < 1 then 1 else if room > RESERVED_OUTPUT then RESERVED_OUTPUT else room;
    fit := Fit(units, history, p.system, prompt, maxTokens);
    TrimmedShape(units0, history0, n);
    if Alternating(history0) {
      DropPairs(history0, PairsDropped(|units0|, |history0|, n));
    }
  }

  /** When the whole prompt fits, it leaves at least the minimum output within the context. */
  lemma RoomLeft(p: Prompt, fit: Fit, limit: nat)
    requires limit > 0 && Budgets(p, fit, limit)
    ensures p.Fits(fit.units, fit.history, limit) <==>
      MIN_OUTPUT_TOKENS <= fit.maxTokens && p.Assembled(fit.units, fit.history) + fit.maxTokens <= limit
  {
  }

  ghost predicate FitsAfter(p: Prompt, units: seq<Unit>, history: seq<Message>, limit: nat, k: nat) {
    var (u, h) := Trimmed(units, history, k); p.Fits(u, h, limit)
  }
}
