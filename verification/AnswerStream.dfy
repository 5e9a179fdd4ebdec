/** The grounded-answer event stream (`answer_stream`), run against every outcome of its services, every provider
    chunk sequence and every point at which a cancel is observed. */
module AnswerStream {
  import opened Wrappers
  import opened Chars
  import opened Numbers
  import opened Redactor
  import History
  import ContextFit
  import Cite = Citations

  datatype Stage = Retrieving | Thinking | Answering

  datatype Event =
    | Staged(stage: Stage)
    | ThinkingDelta(thought: string)
    | TextDelta(text: string)
    | Citations(cites: seq<Cite.Citation>)
    | Done(tokensUsed: nat, grounded: bool, citationCount: nat)
    | Failed

  datatype ProviderItem = Thought(s: string) | Said(s: string) | Finished(tokens: nat) | Broken

  datatype Search = SearchFailed | Found(units: seq<ContextFit.Unit>)
  datatype Gap = GapFailed | Reindexing | NoGap

  /** The prior turns, the prompt parts and the model's context size; what the services answer; and `cancelled(n)`: what
      the n-th look at the cancel token sees. */
  datatype Services = Services(
    history: seq<History.Message>, prompt: ContextFit.Prompt, context: nat,
    embeds: bool, search: Search, gap: Gap, titles: bool, sections: bool, opens: bool,
    items: seq<ProviderItem>, locates: bool, cancelled: nat -> bool)
  {
    predicate FitMachine() {
      context < 0x1_0000_0000 && (search.Found? ==> |search.units| < Cite.U32_MODULUS)
    }

    /** The fence markers of this run. */
    function Fence(): seq<string> {
      Markers(prompt.nonce)
    }
  }

  // ----- what a run of events must look like -----

  ghost predicate Is(events: seq<Event>, i: int, e: Event) {
    0 <= i < |events| && events[i] == e
  }

  /** `Retrieving` comes first and only first. */
  ghost predicate StartsOnce(events: seq<Event>) {
    events != [] && forall i :: 0 <= i < |events| ==> (events[i] == Staged(Retrieving) <==> i == 0)
  }

  ghost predicate AtMostOnce(events: seq<Event>, e: Event) {
    forall i, j :: Is(events, i, e) && Is(events, j, e) ==> i == j
  }

  /** Every thinking delta comes after the one thinking stage, which the first of them follows directly. */
  ghost predicate ThinkingStaged(events: seq<Event>) {
    && AtMostOnce(events, Staged(Thinking))
    && (forall i :: Is(events, i, Staged(Thinking)) ==> FollowedByThought(events, i))
    && (forall k :: 0 <= k < |events| && events[k].ThinkingDelta? ==> StagedBefore(events, Thinking, k))
  }

  ghost predicate FollowedByThought(events: seq<Event>, i: int) {
    0 <= i < |events| - 1 && events[i + 1].ThinkingDelta?
  }

  ghost predicate StagedBefore(events: seq<Event>, stage: Stage, k: int) {
    exists i :: i < k && Is(events, i, Staged(stage))
  }

  /** Every text delta comes after the one answering stage. */
  ghost predicate AnsweringStaged(events: seq<Event>) {
    && AtMostOnce(events, Staged(Answering))
    && (forall k :: 0 <= k < |events| && events[k].TextDelta? ==> StagedBefore(events, Answering, k))
  }

  predicate IsTerminal(e: Event) {
    e.Failed? || e.Citations? || e.Done?
  }

  ghost predicate Unfinished(events: seq<Event>) {
    forall i :: 0 <= i < |events| ==> !IsTerminal(events[i])
  }

  ghost predicate NoEmptyText(events: seq<Event>) {
    forall i :: 0 <= i < |events| && events[i].TextDelta? ==> events[i].text != ""
  }

  ghost predicate WellStaged(events: seq<Event>) {
    StartsOnce(events) && ThinkingStaged(events) && AnsweringStaged(events) && NoEmptyText(events)
  }

  /** A run ends in a single error, in citations followed by done, or in neither. */
  ghost predicate EndsInError(events: seq<Event>) {
    events != [] && events[|events| - 1].Failed? && Unfinished(events[..|events| - 1])
  }

  ghost predicate EndsComplete(events: seq<Event>) {
    && |events| >= 2 && events[|events| - 2].Citations? && events[|events| - 1].Done?
    && Unfinished(events[..|events| - 2])
  }

  // ----- the text carried by events and provider items -----

  function TextOf(events: seq<Event>): string {
    if events == [] then ""
    else TextOf(events[..|events| - 1]) + (var e := events[|events| - 1]; if e.TextDelta? then e.text else "")
  }

  function ThoughtOf(events: seq<Event>): string {
    if events == [] then ""
    else ThoughtOf(events[..|events| - 1]) + (var e := events[|events| - 1]; if e.ThinkingDelta? then e.thought else "")
  }

  function SaidIn(items: seq<ProviderItem>): seq<string> {
    if items == [] then []
    else SaidIn(items[..|items| - 1]) + (var x := items[|items| - 1]; if x.Said? then [x.s] else [])
  }

  function ThoughtIn(items: seq<ProviderItem>): string {
    if items == [] then ""
    else ThoughtIn(items[..|items| - 1]) + (var x := items[|items| - 1]; if x.Thought? then x.s else "")
  }

  /** The usage the provider reported last, zero if it never did. */
  function TokensIn(items: seq<ProviderItem>): nat {
    if items == [] then 0
    else var x := items[|items| - 1]; if x.Finished? then x.tokens else TokensIn(items[..|items| - 1])
  }

  /** The last two events of a completed generation: the citations of the whole answer text as the provider sent it,
      over the units that survived the fit, and the summary of the run. */
  ghost predicate ClosesWith(events: seq<Event>, items: seq<ProviderItem>, units: seq<ContextFit.Unit>) {
    var answer := Concat(SaidIn(items));
    var cites := Cite.CitationsOf(units, Cite.Cited(Cite.AllMarkers(answer), |units|));
    && |events| >= 2 && events[|events| - 2] == Citations(cites)
    && events[|events| - 1] == Done(TokensIn(items), cites != [] || IsBlankText(answer), |cites|)
  }

  ghost predicate HasThought(items: seq<ProviderItem>) {
    exists x :: x in items && x.Thought?
  }

  ghost predicate HasSaid(items: seq<ProviderItem>) {
    exists x :: x in items && x.Said?
  }

  /** A stage is announced exactly when the items bring something for it. */
  ghost predicate StagesFor(events: seq<Event>, items: seq<ProviderItem>) {
    && (Staged(Thinking) in events <==> HasThought(items))
    && (Staged(Answering) in events <==> HasSaid(items))
  }

  /** The events show what the redactor emits for the first `taken` items. */
  ghost predicate ShowsUpTo(events: seq<Event>, ms: seq<string>, items: seq<ProviderItem>, taken: nat) {
    && taken <= |items| && Broken !in items[..taken] && StagesFor(events, items[..taken])
    && ThoughtOf(events) == ThoughtIn(items[..taken]) && TextOf(events) == After(ms, SaidIn(items[..taken])).0
  }

  /** The events show all that the redactor emits, the flush included. */
  ghost predicate ShowsAll(events: seq<Event>, ms: seq<string>, items: seq<ProviderItem>) {
    && Broken !in items && StagesFor(events, items)
    && ThoughtOf(events) == ThoughtIn(items) && TextOf(events) == Output(ms, "", SaidIn(items))
  }

  lemma TextSnoc(events: seq<Event>, e: Event)
    ensures TextOf(events + [e]) == TextOf(events) + if e.TextDelta? then e.text else ""
    ensures ThoughtOf(events + [e]) == ThoughtOf(events) + if e.ThinkingDelta? then e.thought else ""
  {
    assert (events + [e])[..|events|] == events;
  }

  // ----- how a run ends, from what its services answer -----

  function FirstBroken(items: seq<ProviderItem>): (k: nat)
    ensures k <= |items| && Broken !in items[..k] && (k < |items| ==> items[k].Broken?)
  {
    if items == [] || items[0].Broken? then 0 else 1 + FirstBroken(items[1..])
  }

  /** The run gets as far as a prompt for the provider. */
  predicate Prompts(services: Services) {
    && services.embeds && services.search.Found? && services.search.units != []
    && services.titles && services.sections
  }

  /** Every service the run needs answers, and the provider's stream is never broken. */
  predicate Succeeds(services: Services) {
    Prompts(services) && services.opens && Broken !in services.items && services.locates
  }

  /** The search answers that there is nothing to find, and no reindexing gap accounts for it. */
  predicate Refuses(services: Services) {
    services.embeds && services.search == Found([]) && services.gap.NoGap?
  }

  /** The looks at the cancel token taken by a run that none of them stops. */
  function Looks(services: Services): nat {
    if !services.embeds then 2
    else if services.search.SearchFailed? then 3
    else if !Prompts(services) then 4
    else if !services.opens then 5
    else if Broken in services.items then 6 + FirstBroken(services.items)
    else if !services.locates then 6 + |services.items|
    else 7 + |services.items|
  }

  /** None of the first `n` looks at the cancel token saw a cancel. */
  ghost predicate NoneSeen(services: Services, n: nat) {
    forall i: nat :: i < n ==> !services.cancelled(i)
  }

  /** Of `n` looks at the cancel token the last one, and no other, saw a cancel. */
  ghost predicate SeenLast(services: Services, n: nat) {
    n > 0 && services.cancelled(n - 1) && NoneSeen(services, n - 1)
  }

  /** A cancel seen at the last of `looks` looks ends a run silently. A run that sees none takes all its looks,
      and ends complete if every service it needs answers, or if the answer is that there is nothing to find; else
      in an error. */
  ghost predicate Ends(events: seq<Event>, cancelSeen: bool, services: Services, looks: nat) {
    if cancelSeen then Unfinished(events) && SeenLast(services, looks) && looks <= Looks(services)
    else
      && NoneSeen(services, looks) && looks == Looks(services)
      && if Succeeds(services) || Refuses(services) then EndsComplete(events) else EndsInError(events)
  }

  /** After so many looks, the last of which may have seen a cancel, the redactor has been flushed. */
  predicate Flushes(services: Services, cancelSeen: bool, looks: nat) {
    || looks == |services.items| + 7
    || (!cancelSeen && looks == |services.items| + 6 && Broken !in services.items)
  }

  /** One look comes before each provider item, from the sixth look on. */
  ghost predicate ShowsTaken(events: seq<Event>, services: Services, cancelSeen: bool, looks: nat) {
    if Flushes(services, cancelSeen, looks) then ShowsAll(events, services.Fence(), services.items)
    else ShowsUpTo(events, services.Fence(), services.items, SatSub(looks, 6))
  }

  ghost predicate IsRefusal(events: seq<Event>) {
    && TextOf(events) == NO_SOURCES_MSG && ThoughtOf(events) == ""
    && |events| >= 2 && events[|events| - 2] == Citations([]) && events[|events| - 1] == Done(0, true, 0)
  }

  /** What a run shows: the refusal, or what the redactor emits for the items taken; a completed answer closes with the
      citations over the units of its request. */
  ghost predicate Tells(events: seq<Event>, services: Services, cancelSeen: bool, looks: nat,
                        request: Option<ContextFit.Fit>) {
    if !cancelSeen && Refuses(services) then IsRefusal(events)
    else
      && ShowsTaken(events, services, cancelSeen, looks)
      && (!cancelSeen && Succeeds(services) ==>
            request.Some? && ClosesWith(events, services.items, request.value.units))
  }

  /** The provider is asked with the first fit of the prompt, exactly when the run gets that far. */
  ghost predicate Asks(services: Services, history: seq<History.Message>, trims: nat, cancelSeen: bool, looks: nat,
                       request: Option<ContextFit.Fit>) {
    && (request.Some? <==> Prompts(services) && !(cancelSeen && looks <= 5))
    && (request.Some? ==> FirstFit(services, history, trims, request.value))
  }

  ghost predicate FirstFit(services: Services, history: seq<History.Message>, trims: nat, fit: ContextFit.Fit) {
    && services.search.Found?
    && ContextFit.TrimsFewest(services.prompt, services.search.units, history, services.context, trims)
    && (fit.units, fit.history) == ContextFit.Trimmed(services.search.units, history, trims)
    && fit.system == services.prompt.system && fit.prompt == services.prompt.User(fit.units)
    && ContextFit.Budgets(services.prompt, fit, services.context)
  }

  // ----- appending one event -----

  lemma IsSnoc(events: seq<Event>, e: Event, x: Event)
    ensures forall i :: Is(events + [e], i, x) <==> Is(events, i, x) || (i == |events| && e == x)
  {
  }

  /** Appending anything but a stage keeps the staging, if a delta has its stage before it. */
  lemma AppendPlain(events: seq<Event>, e: Event)
    requires WellStaged(events) && !e.Staged?
    requires e.ThinkingDelta? ==> Staged(Thinking) in events
    requires e.TextDelta? ==> Staged(Answering) in events && e.text != ""
    ensures WellStaged(events + [e])
  {
    var events' := events + [e];
    IsSnoc(events, e, Staged(Thinking));
    IsSnoc(events, e, Staged(Answering));
    KeepsThinking(events, [e]);
    KeepsAnswering(events, [e]);
  }

  lemma KeepsThinking(events: seq<Event>, more: seq<Event>)
    requires ThinkingStaged(events) && Staged(Thinking) !in more
    requires (exists x :: x in more && x.ThinkingDelta?) ==> Staged(Thinking) in events
    ensures ThinkingStaged(events + more)
  {
    var events' := events + more;
    assert forall j :: |events| <= j < |events'| ==> events'[j] in more;
    forall i | Is(events', i, Staged(Thinking))
      ensures FollowedByThought(events', i) && Is(events, i, Staged(Thinking))
    {
      assert Is(events, i, Staged(Thinking));
      assert FollowedByThought(events, i);
    }
    forall k | 0 <= k < |events'| && events'[k].ThinkingDelta?
      ensures StagedBefore(events', Thinking, k)
    {
      var i: int;
      if k < |events| {
        assert StagedBefore(events, Thinking, k);
        i :| i < k && Is(events, i, Staged(Thinking));
      } else {
        assert events'[k] in more;
        i :| 0 <= i < |events| && events[i] == Staged(Thinking);
      }
      assert i < k && Is(events', i, Staged(Thinking));
    }
  }

  lemma KeepsAnswering(events: seq<Event>, more: seq<Event>)
    requires AnsweringStaged(events) && Staged(Answering) !in more
    requires (exists x :: x in more && x.TextDelta?) ==> Staged(Answering) in events
    ensures AnsweringStaged(events + more)
  {
    var events' := events + more;
    assert forall j :: |events| <= j < |events'| ==> events'[j] in more;
    assert forall i :: Is(events', i, Staged(Answering)) ==> Is(events, i, Staged(Answering));
    forall k | 0 <= k < |events'| && events'[k].TextDelta?
      ensures StagedBefore(events', Answering, k)
    {
      var i: int;
      if k < |events| {
        assert StagedBefore(events, Answering, k);
        i :| i < k && Is(events, i, Staged(Answering));
      } else {
        assert events'[k] in more;
        i :| 0 <= i < |events| && events[i] == Staged(Answering);
      }
      assert i < k && Is(events', i, Staged(Answering));
    }
  }

  lemma StartThinking(events: seq<Event>, s: string)
    requires WellStaged(events) && Staged(Thinking) !in events
    ensures WellStaged(events + [Staged(Thinking), ThinkingDelta(s)])
  {
    var events' := events + [Staged(Thinking), ThinkingDelta(s)];
    var n := |events|;
    assert forall i :: 0 <= i < n ==> events[i] != Staged(Thinking);
    assert forall k :: 0 <= k < n && events[k].ThinkingDelta? ==> StagedBefore(events, Thinking, k);
    assert forall k :: 0 <= k < n ==> !events[k].ThinkingDelta?;
    assert Is(events', n, Staged(Thinking)) && FollowedByThought(events', n);
    assert StagedBefore(events', Thinking, n + 1);
    KeepsAnswering(events, [Staged(Thinking), ThinkingDelta(s)]);
  }

  lemma StartAnswering(events: seq<Event>)
    requires WellStaged(events) && Staged(Answering) !in events
    ensures WellStaged(events + [Staged(Answering)])
  {
    var n := |events|;
    assert forall i :: 0 <= i < n ==> events[i] != Staged(Answering);
    assert forall k :: 0 <= k < n && events[k].TextDelta? ==> StagedBefore(events, Answering, k);
    assert forall k :: 0 <= k < n ==> !events[k].TextDelta?;
    KeepsThinking(events, [Staged(Answering)]);
  }

  // ----- the run -----

  const NO_SOURCES_MSG := "I couldn't find anything in this notebook's selected sources to answer that."

  /** A run still under way, whose stages the two flags reflect. */
  ghost predicate UnderWay(events: seq<Event>, thinking: bool, answering: bool) {
    && WellStaged(events) && Unfinished(events)
    && (thinking <==> Staged(Thinking) in events) && (answering <==> Staged(Answering) in events)
  }

  /** After `i` provider items: what is emitted and held is the redactor's for what they said, and thoughts are passed
      on unchanged. */
  ghost predicate Carried(ms: seq<string>, items: seq<ProviderItem>, i: nat, text: string, thought: string,
                          buf: string, answerText: string) {
    && i <= |items|
    && (text, buf) == After(ms, SaidIn(items[..i]))
    && thought == ThoughtIn(items[..i])
    && answerText == Concat(SaidIn(items[..i]))
  }

  function ThoughtEvents(thinking: bool, s: string): seq<Event> {
    if thinking then [ThinkingDelta(s)] else [Staged(Thinking), ThinkingDelta(s)]
  }

  function TextEvents(answering: bool, safe: string): seq<Event> {
    (if answering then [] else [Staged(Answering)]) + (if safe == "" then [] else [TextDelta(safe)])
  }

  lemma ThoughtUnderWay(events: seq<Event>, thinking: bool, answering: bool, s: string)
    requires UnderWay(events, thinking, answering)
    ensures UnderWay(events + ThoughtEvents(thinking, s), true, answering)
  {
    var out := ThoughtEvents(thinking, s);
    if thinking {
      AppendPlain(events, ThinkingDelta(s));
    } else {
      StartThinking(events, s);
      assert out[0] == Staged(Thinking);
    }
  }

  lemma ThoughtText(events: seq<Event>, thinking: bool, s: string)
    ensures TextOf(events + ThoughtEvents(thinking, s)) == TextOf(events)
    ensures ThoughtOf(events + ThoughtEvents(thinking, s)) == ThoughtOf(events) + s
  {
    if thinking {
      TextSnoc(events, ThinkingDelta(s));
    } else {
      TextSnoc(events, Staged(Thinking));
      TextSnoc(events + [Staged(Thinking)], ThinkingDelta(s));
      assert events + ThoughtEvents(thinking, s) == events + [Staged(Thinking)] + [ThinkingDelta(s)];
    }
  }

  lemma BegunUnderWay(events: seq<Event>, thinking: bool, answering: bool)
    requires UnderWay(events, thinking, answering)
    ensures UnderWay(events + if answering then [] else [Staged(Answering)], thinking, true)
  {
    if answering {
      assert events + [] == events;
    } else {
      StartAnswering(events);
      assert [Staged(Answering)][0] == Staged(Answering);
    }
  }

  lemma TextUnderWay(events: seq<Event>, thinking: bool, answering: bool, safe: string)
    requires UnderWay(events, thinking, answering)
    ensures UnderWay(events + TextEvents(answering, safe), thinking, true)
  {
    BegunUnderWay(events, thinking, answering);
    var begun := events + if answering then [] else [Staged(Answering)];
    if safe == "" {
      assert events + TextEvents(answering, safe) == begun;
    } else {
      AppendPlain(begun, TextDelta(safe));
      assert events + TextEvents(answering, safe) == begun + [TextDelta(safe)];
    }
  }

  lemma TextText(events: seq<Event>, answering: bool, safe: string)
    ensures TextOf(events + TextEvents(answering, safe)) == TextOf(events) + safe
    ensures ThoughtOf(events + TextEvents(answering, safe)) == ThoughtOf(events)
  {
    var begun := events + if answering then [] else [Staged(Answering)];
    if answering {
      assert begun == events;
    } else {
      TextSnoc(events, Staged(Answering));
    }
    if safe == "" {
      assert events + TextEvents(answering, safe) == begun;
    } else {
      TextSnoc(begun, TextDelta(safe));
      assert events + TextEvents(answering, safe) == begun + [TextDelta(safe)];
    }
  }

  lemma ThoughtCarried(ms: seq<string>, items: seq<ProviderItem>, i: nat, text: string, thought: string, buf: string,
                       answerText: string)
    requires Carried(ms, items, i, text, thought, buf, answerText) && i < |items| && !items[i].Said?
    ensures Carried(ms, items, i + 1, text, thought + if items[i].Thought? then items[i].s else "", buf, answerText)
  {
    assert items[..i + 1][..i] == items[..i];
    assert SaidIn(items[..i]) + [] == SaidIn(items[..i]);
  }

  lemma TextCarried(ms: seq<string>, items: seq<ProviderItem>, i: nat, text: string, thought: string, buf: string,
                    answerText: string)
    requires Carried(ms, items, i, text, thought, buf, answerText) && i < |items| && items[i].Said?
    ensures var (safe, held) := PushSpec(ms, buf, items[i].s);
      Carried(ms, items, i + 1, text + safe, thought, held, answerText + items[i].s)
  {
    assert items[..i + 1][..i] == items[..i];
    AfterSnoc(ms, SaidIn(items[..i]), items[i].s);
    ConcatSnoc(SaidIn(items[..i]), items[i].s);
    assert thought + "" == thought;
  }

  lemma AfterSnoc(ms: seq<string>, deltas: seq<string>, d: string)
    ensures var (emit, held) := PushSpec(ms, After(ms, deltas).1, d);
      After(ms, deltas + [d]) == (After(ms, deltas).0 + emit, held)
  {
    assert (deltas + [d])[..|deltas|] == deltas;
  }

  lemma {:induction false} ConcatSnoc(parts: seq<string>, d: string)
    ensures Concat(parts + [d]) == Concat(parts) + d
    decreases |parts|
  {
    if parts == [] {
      assert [d][1..] == [] && d + "" == d && "" + d == d;
      assert parts + [d] == [d];
    } else {
      assert (parts + [d])[1..] == parts[1..] + [d];
      ConcatSnoc(parts[1..], d);
    }
  }

  /** Where the relay stands after `i` provider items, none of them broken. */
  ghost predicate Relayed(ms: seq<string>, items: seq<ProviderItem>, i: nat, events: seq<Event>, thinking: bool,
                          answering: bool, buf: string, answerText: string)
  {
    && UnderWay(events, thinking, answering) && (answering || buf == "")
    && Carried(ms, items, i, TextOf(events), ThoughtOf(events), buf, answerText)
    && Broken !in items[..i] && (thinking <==> HasThought(items[..i])) && (answering <==> HasSaid(items[..i]))
  }

  lemma SeenNext(items: seq<ProviderItem>, i: nat)
    requires i < |items|
    ensures HasThought(items[..i + 1]) <==> HasThought(items[..i]) || items[i].Thought?
    ensures HasSaid(items[..i + 1]) <==> HasSaid(items[..i]) || items[i].Said?
    ensures Broken in items[..i + 1] <==> Broken in items[..i] || items[i].Broken?
  {
    assert items[..i + 1] == items[..i] + [items[i]];
    assert items[i] in items[..i + 1];
  }

  lemma ThoughtRelayed(ms: seq<string>, items: seq<ProviderItem>, i: nat, events: seq<Event>,
                                          thinking: bool, answering: bool, buf: string, answerText: string)
    requires Relayed(ms, items, i, events, thinking, answering, buf, answerText) && i < |items| && items[i].Thought?
    ensures Relayed(ms, items, i + 1, events + ThoughtEvents(thinking, items[i].s), true, answering, buf, answerText)
  {
    SeenNext(items, i);
    ThoughtUnderWay(events, thinking, answering, items[i].s);
    ThoughtText(events, thinking, items[i].s);
    ThoughtCarried(ms, items, i, TextOf(events), ThoughtOf(events), buf, answerText);
  }

  lemma FinishedRelayed(ms: seq<string>, items: seq<ProviderItem>, i: nat, events: seq<Event>,
                                           thinking: bool, answering: bool, buf: string, answerText: string)
    requires Relayed(ms, items, i, events, thinking, answering, buf, answerText) && i < |items| && items[i].Finished?
    ensures Relayed(ms, items, i + 1, events, thinking, answering, buf, answerText)
  {
    SeenNext(items, i);
    ThoughtCarried(ms, items, i, TextOf(events), ThoughtOf(events), buf, answerText);
  }

  lemma TextRelayed(ms: seq<string>, items: seq<ProviderItem>, i: nat, events: seq<Event>,
                                       thinking: bool, answering: bool, buf: string, answerText: string)
    requires Relayed(ms, items, i, events, thinking, answering, buf, answerText) && i < |items| && items[i].Said?
    ensures var (safe, held) := PushSpec(ms, buf, items[i].s);
      Relayed(ms, items, i + 1, events + TextEvents(answering, safe), thinking, true, held, answerText + items[i].s)
  {
    var (safe, held) := PushSpec(ms, buf, items[i].s);
    SeenNext(items, i);
    TextCarried(ms, items, i, TextOf(events), ThoughtOf(events), buf, answerText);
    TextUnderWay(events, thinking, answering, safe);
    TextText(events, answering, safe);
  }

  lemma RelayedShows(ms: seq<string>, items: seq<ProviderItem>, i: nat, events: seq<Event>,
                                        thinking: bool, answering: bool, buf: string, answerText: string)
    requires Relayed(ms, items, i, events, thinking, answering, buf, answerText)
    ensures WellStaged(events) && Unfinished(events) && ShowsUpTo(events, ms, items, i)
  {
  }

  lemma BrokenShows(ms: seq<string>, items: seq<ProviderItem>, i: nat, events: seq<Event>,
                    thinking: bool, answering: bool, buf: string, answerText: string)
    requires Relayed(ms, items, i, events, thinking, answering, buf, answerText)
    ensures WellStaged(events + [Failed]) && EndsInError(events + [Failed])
    ensures ShowsUpTo(events + [Failed], ms, items, i)
  {
    FailRun(events);
  }

  lemma TokensStep(items: seq<ProviderItem>, i: nat)
    requires i < |items|
    ensures TokensIn(items[..i + 1]) == if items[i].Finished? then items[i].tokens else TokensIn(items[..i])
  {
    assert items[..i + 1][..i] == items[..i];
  }

  /** Relays one provider item, any but a broken one. */
  method RelayItem(ghost items: seq<ProviderItem>, ghost i: nat, item: ProviderItem, redactor: FenceRedactor,
                   events: seq<Event>, thinking: bool, answering: bool, answerText: string, tokens: nat)
    returns (events': seq<Event>, thinking': bool, answering': bool, answerText': string, tokens': nat)
    requires i < |items| && item == items[i] && !item.Broken? && "" !in redactor.markers
    requires Relayed(redactor.markers, items, i, events, thinking, answering, redactor.buf, answerText)
    requires tokens == TokensIn(items[..i])
    modifies redactor
    ensures Relayed(redactor.markers, items, i + 1, events', thinking', answering', redactor.buf, answerText')
    ensures tokens' == TokensIn(items[..i + 1])
  {
    events', thinking', answering', answerText', tokens' := events, thinking, answering, answerText, tokens;
    TokensStep(items, i);
    match item {
      case Thought(s) =>
        ThoughtRelayed(redactor.markers, items, i, events, thinking, answering, redactor.buf, answerText);
        events' := events + ThoughtEvents(thinking, s);
        thinking' := true;
      case Said(s) =>
        TextRelayed(redactor.markers, items, i, events, thinking, answering, redactor.buf, answerText);
        answerText' := answerText + s;
        var safe := redactor.Push(s);
        events' := events + TextEvents(answering, safe);
        answering' := true;
      case Finished(t) =>
        FinishedRelayed(redactor.markers, items, i, events, thinking, answering, redactor.buf, answerText);
        tokens' := t;
    }
  }

  datatype Ending = Cancelled | Errored | Exhausted

  /** Where a relay stands that has not seen a cancel: after `i` items, one look before each. */
  ghost predicate Relaying(services: Services, ms: seq<string>, i: nat, polls: nat, firstPoll: nat, events: seq<Event>,
                           thinking: bool, answering: bool, buf: string, answerText: string, tokens: nat) {
    && i <= |services.items| && polls == firstPoll + i && NoneSeen(services, polls)
    && Relayed(ms, services.items, i, events, thinking, answering, buf, answerText)
    && tokens == TokensIn(services.items[..i])
  }

  /** A relay that ended early, on a cancel or at a broken item, after `taken` items. */
  ghost predicate CutOff(services: Services, ms: seq<string>, cancelled: bool, events: seq<Event>, polls: nat,
                         firstPoll: nat, taken: nat) {
    && taken < |services.items| && polls == firstPoll + taken + 1
    && WellStaged(events) && ShowsUpTo(events, ms, services.items, taken)
    && (cancelled ==> Unfinished(events) && SeenLast(services, polls))
    && (!cancelled ==> EndsInError(events) && NoneSeen(services, polls) && services.items[taken].Broken?)
  }

  lemma CutByCancel(services: Services, ms: seq<string>, i: nat, polls: nat, firstPoll: nat, events: seq<Event>,
                    thinking: bool, answering: bool, buf: string, answerText: string, tokens: nat)
    requires Relaying(services, ms, i, polls, firstPoll, events, thinking, answering, buf, answerText, tokens)
    requires i < |services.items| && SeenLast(services, polls + 1)
    ensures CutOff(services, ms, true, events, polls + 1, firstPoll, i)
  {
    RelayedShows(ms, services.items, i, events, thinking, answering, buf, answerText);
  }

  lemma CutByError(services: Services, ms: seq<string>, i: nat, polls: nat, firstPoll: nat, events: seq<Event>,
                   thinking: bool, answering: bool, buf: string, answerText: string, tokens: nat)
    requires Relaying(services, ms, i, polls, firstPoll, events, thinking, answering, buf, answerText, tokens)
    requires i < |services.items| && NoneSeen(services, polls + 1) && services.items[i].Broken?
    ensures CutOff(services, ms, false, events + [Failed], polls + 1, firstPoll, i)
  {
    BrokenShows(ms, services.items, i, events, thinking, answering, buf, answerText);
  }

  /** One look at the cancel token and one provider item. */
  method RelayNext(services: Services, redactor: FenceRedactor, i: nat, polls: nat, ghost firstPoll: nat,
                   events: seq<Event>, thinking: bool, answering: bool, answerText: string, tokens: nat)
    returns (events': seq<Event>, ending: Ending, thinking': bool, answering': bool, answerText': string, tokens': nat)
    requires "" !in redactor.markers && i < |services.items|
    requires Relaying(services, redactor.markers, i, polls, firstPoll, events, thinking, answering, redactor.buf,
                      answerText, tokens)
    modifies redactor
    ensures if ending.Exhausted? then
              Relaying(services, redactor.markers, i + 1, polls + 1, firstPoll, events', thinking', answering',
                       redactor.buf, answerText', tokens')
            else CutOff(services, redactor.markers, ending.Cancelled?, events', polls + 1, firstPoll, i)
  {
    events', thinking', answering', answerText', tokens' := events, thinking, answering, answerText, tokens;
    var seen := Look(services, polls);
    if seen {
      CutByCancel(services, redactor.markers, i, polls, firstPoll, events, thinking, answering, redactor.buf,
                  answerText, tokens);
      ending := Cancelled;
    } else if services.items[i].Broken? {
      CutByError(services, redactor.markers, i, polls, firstPoll, events, thinking, answering, redactor.buf,
                 answerText, tokens);
      events', ending := events + [Failed], Errored;
    } else {
      events', thinking', answering', answerText', tokens' :=
        RelayItem(services.items, i, services.items[i], redactor, events, thinking, answering, answerText, tokens);
      ending := Exhausted;
    }
  }

  /** Relays the provider's items through the redactor, looking at the cancel token before each. */
  method Relay(services: Services, redactor: FenceRedactor, start: seq<Event>, firstPoll: nat)
    returns (events: seq<Event>, ending: Ending, thinking: bool, answering: bool, answerText: string, tokens: nat,
             polls: nat, ghost taken: nat)
    requires "" !in redactor.markers && redactor.buf == "" && start == [Staged(Retrieving)]
    requires NoneSeen(services, firstPoll)
    modifies redactor
    ensures if ending.Exhausted? then
              Relaying(services, redactor.markers, |services.items|, polls, firstPoll, events, thinking, answering,
                       redactor.buf, answerText, tokens)
            else CutOff(services, redactor.markers, ending.Cancelled?, events, polls, firstPoll, taken)
  {
    events, ending, thinking, answering, answerText, tokens := start, Exhausted, false, false, "", 0;
    polls, taken := firstPoll, 0;
    StartRelayed(redactor.markers, services.items);
    for i := 0 to |services.items|
      invariant taken == i
      invariant Relaying(services, redactor.markers, i, polls, firstPoll, events, thinking, answering, redactor.buf,
                         answerText, tokens)
    {
      events, ending, thinking, answering, answerText, tokens :=
        RelayNext(services, redactor, i, polls, firstPoll, events, thinking, answering, answerText, tokens);
      polls := polls + 1;
      if !ending.Exhausted? {
        return;
      }
      taken := i + 1;
    }
    ending := Exhausted;
  }

  lemma StartRelayed(ms: seq<string>, items: seq<ProviderItem>)
    ensures Relayed(ms, items, 0, [Staged(Retrieving)], false, false, "", "")
  {
    StartCarried(ms, items);
    assert items[..0] == [];
  }

  lemma StartCarried(ms: seq<string>, items: seq<ProviderItem>)
    ensures UnderWay([Staged(Retrieving)], false, false)
    ensures Carried(ms, items, 0, TextOf([Staged(Retrieving)]), ThoughtOf([Staged(Retrieving)]), "", "")
  {
    TextSnoc([], Staged(Retrieving));
    assert [] + [Staged(Retrieving)] == [Staged(Retrieving)];
  }

  lemma FlushOfNothing(ms: seq<string>)
    requires "" !in ms
    ensures StripAll("", ms) == ""
  {
    StripAllNothing(ms, "");
  }

  lemma StagesKept(events: seq<Event>, more: seq<Event>)
    requires forall x :: x in more ==> !x.Staged?
    ensures forall stage :: Staged(stage) in events + more <==> Staged(stage) in events
  {
  }

  /** Ends a run with one terminal error. */
  lemma FailRun(events: seq<Event>)
    requires WellStaged(events) && Unfinished(events)
    ensures WellStaged(events + [Failed]) && EndsInError(events + [Failed])
    ensures TextOf(events + [Failed]) == TextOf(events) && ThoughtOf(events + [Failed]) == ThoughtOf(events)
    ensures forall stage :: Staged(stage) in events + [Failed] <==> Staged(stage) in events
  {
    StagesKept(events, [Failed]);
    AppendPlain(events, Failed);
    TextSnoc(events, Failed);
    assert (events + [Failed])[..|events|] == events;
  }

  lemma CompleteRun(events: seq<Event>, c: Event, d: Event)
    requires WellStaged(events) && Unfinished(events) && c.Citations? && d.Done?
    ensures WellStaged(events + [c, d]) && EndsComplete(events + [c, d])
    ensures TextOf(events + [c, d]) == TextOf(events) && ThoughtOf(events + [c, d]) == ThoughtOf(events)
    ensures forall stage :: Staged(stage) in events + [c, d] <==> Staged(stage) in events
  {
    StagesKept(events, [c, d]);
    AppendPlain(events, c);
    AppendPlain(events + [c], d);
    TextSnoc(events, c);
    TextSnoc(events + [c], d);
    assert events + [c] + [d] == events + [c, d];
    assert (events + [c, d])[..|events|] == events;
  }

  /** The next look at the cancel token. */
  method Look(services: Services, n: nat) returns (seen: bool)
    requires NoneSeen(services, n)
    ensures if seen then SeenLast(services, n + 1) else NoneSeen(services, n + 1)
  {
    seen := services.cancelled(n);
  }

  /** A run that ends before the provider is read: silently on a cancel, or with an error. */
  method Stop(services: Services, ghost looks: nat, cancelSeen: bool) returns (events: seq<Event>)
    requires if cancelSeen then SeenLast(services, looks) else NoneSeen(services, looks)
    requires if cancelSeen then looks <= Looks(services) else looks == Looks(services)
    requires looks <= 5 && (!cancelSeen ==> !Succeeds(services) && !Refuses(services))
    ensures WellStaged(events) && Ends(events, cancelSeen, services, looks)
    ensures forall request :: Tells(events, services, cancelSeen, looks, request)
  {
    events := [Staged(Retrieving)];
    StartCarried(services.Fence(), services.items);
    assert ShowsUpTo(events, services.Fence(), services.items, 0);
    if !cancelSeen {
      FailRun(events);
      events := events + [Failed];
      assert ShowsUpTo(events, services.Fence(), services.items, 0);
    }
  }

  /** A whole run. It starts with its one `Retrieving`, stages thinking and answering at most once each and before
      their deltas. It sees a cancel exactly when one of the looks it would take does, and then ends silently.
      Otherwise it ends complete exactly when every service it needs answers, or in the refusal exactly when there is
      nothing to find, and in an error in every other case. Whatever the end, it shows what the redactor emits for the
      items taken so far; a completed answer shows the redactor's whole output and cites the units of its request. */
  method Answer(services: Services)
    returns (events: seq<Event>, cancelSeen: bool, looks: nat, request: Option<ContextFit.Fit>, ghost pairs: nat,
             ghost trims: nat)
    requires services.FitMachine()
    ensures WellStaged(events) && Ends(events, cancelSeen, services, looks)
    ensures cancelSeen <==> !NoneSeen(services, Looks(services))
    ensures Tells(events, services, cancelSeen, looks, request)
    ensures !cancelSeen ==> (IsRefusal(events) <==> Refuses(services))
    ensures 2 * pairs <= |services.history|
    ensures Asks(services, services.history[2 * pairs..], trims, cancelSeen, looks, request)
    ensures request.Some? ==>
      ContextFit.DropsFewest(services.history, services.context, services.prompt.measure, pairs)
  {
    pairs, trims, looks, request := 0, 0, 1, None;
    cancelSeen := Look(services, 0);
    if cancelSeen {
      events := Stop(services, looks, true);
      return;
    }
    var history;
    history, pairs := ContextFit.BudgetHistory(services.history, services.context, services.prompt.measure);
    events, cancelSeen, looks, request, trims := Embed(services, history);
    RefusalExactly(events, services, cancelSeen, looks, request);
  }

  /** From the budgeted history on, after one look at the cancel token. */
  method Embed(services: Services, history: seq<History.Message>)
    returns (events: seq<Event>, cancelSeen: bool, looks: nat, request: Option<ContextFit.Fit>, ghost trims: nat)
    requires services.FitMachine() && NoneSeen(services, 1)
    ensures WellStaged(events) && Ends(events, cancelSeen, services, looks)
    ensures Tells(events, services, cancelSeen, looks, request)
    ensures Asks(services, history, trims, cancelSeen, looks, request)
  {
    trims, looks, request := 0, 2, None;
    cancelSeen := Look(services, 1);
    if cancelSeen || !services.embeds {
      events := Stop(services, looks, cancelSeen);
      return;
    }
    looks := 3;
    cancelSeen := Look(services, 2);
    if cancelSeen || services.search.SearchFailed? {
      events := Stop(services, looks, cancelSeen);
      return;
    }
    events, cancelSeen, looks, request, trims := Retrieved(services, history);
  }

  /** From the search's answer on, after three looks at the cancel token. */
  method Retrieved(services: Services, history: seq<History.Message>)
    returns (events: seq<Event>, cancelSeen: bool, looks: nat, request: Option<ContextFit.Fit>, ghost trims: nat)
    requires services.FitMachine() && NoneSeen(services, 3) && services.embeds && services.search.Found?
    ensures WellStaged(events) && Ends(events, cancelSeen, services, looks)
    ensures Tells(events, services, cancelSeen, looks, request)
    ensures Asks(services, history, trims, cancelSeen, looks, request)
  {
    trims, looks, request := 0, 4, None;
    cancelSeen := Look(services, 3);
    if cancelSeen {
      events := Stop(services, looks, true);
      return;
    }
    if services.search.units == [] {
      if services.gap != NoGap {
        events := Stop(services, looks, false);
      } else {
        events := NothingFound();
      }
      return;
    }
    if !services.titles || !services.sections {
      events := Stop(services, looks, false);
      return;
    }
    looks := 5;
    cancelSeen := Look(services, 4);
    if cancelSeen {
      events := Stop(services, looks, true);
      return;
    }
    events, cancelSeen, looks, request, trims := FitAndGenerate(services, history);
  }

  /** From the loaded labels on: the prompt is fitted, the provider opened and its answer relayed. */
  method FitAndGenerate(services: Services, history: seq<History.Message>)
    returns (events: seq<Event>, cancelSeen: bool, looks: nat, request: Option<ContextFit.Fit>, ghost trims: nat)
    requires services.FitMachine() && NoneSeen(services, 5) && Prompts(services)
    ensures WellStaged(events) && Ends(events, cancelSeen, services, looks)
    ensures Tells(events, services, cancelSeen, looks, request)
    ensures Asks(services, history, trims, cancelSeen, looks, request)
  {
    var fit;
    fit, trims := ContextFit.FitToContext(services.prompt, services.search.units, history, services.context);
    request := Some(fit);
    if !services.opens {
      looks, cancelSeen := 5, false;
      events := Stop(services, looks, false);
      return;
    }
    ContextFit.TrimmedShape(services.search.units, history, trims);
    events, cancelSeen, looks := Generate(services, fit.units);
  }

  /** The refusal for an empty corpus. */
  method NothingFound() returns (events: seq<Event>)
    ensures WellStaged(events) && EndsComplete(events) && IsRefusal(events)
  {
    events := [Staged(Retrieving)];
    StartCarried([], []);
    TextUnderWay(events, false, false, NO_SOURCES_MSG);
    TextText(events, false, NO_SOURCES_MSG);
    TextSnoc([], Staged(Retrieving));
    assert [] + [Staged(Retrieving)] == events;
    events := events + TextEvents(false, NO_SOURCES_MSG);
    CompleteRun(events, Citations([]), Done(0, true, 0));
    events := events + [Citations([]), Done(0, true, 0)];
  }

  /** The part of a run from the opened provider stream on, `units` being those that survived the fit. */
  method Generate(services: Services, units: seq<ContextFit.Unit>)
    returns (events: seq<Event>, cancelSeen: bool, looks: nat)
    requires |units| < Cite.U32_MODULUS && NoneSeen(services, 5) && Prompts(services) && services.opens
    ensures WellStaged(events) && Ends(events, cancelSeen, services, looks) && looks > 5
    ensures ShowsTaken(events, services, cancelSeen, looks)
    ensures !cancelSeen && Succeeds(services) ==> ClosesWith(events, services.items, units)
  {
    var redactor := new FenceRedactor(services.prompt.nonce);
    assert "" !in redactor.markers;
    var ending, thinking, answering, answerText, tokens;
    ghost var taken;
    events, ending, thinking, answering, answerText, tokens, looks, taken :=
      Relay(services, redactor, [Staged(Retrieving)], 5);
    cancelSeen := ending.Cancelled?;
    if !ending.Exhausted? {
      EndsRelaying(services, events, cancelSeen, looks, taken);
      return;
    }
    AllRelayed(services, looks, events, thinking, answering, redactor.buf, answerText, tokens);
    cancelSeen := Look(services, looks);
    looks := looks + 1;
    if cancelSeen {
      return;
    }
    events := FlushTail(services.items, redactor, events, thinking, answering, answerText);
    events, cancelSeen, looks := Conclude(services, units, events, answerText, tokens);
  }

  /** A run that stops while its items are relayed, on a cancel or at a broken item. */
  lemma EndsRelaying(services: Services, events: seq<Event>, cancelSeen: bool, looks: nat, taken: nat)
    requires Prompts(services) && services.opens
    requires CutOff(services, services.Fence(), cancelSeen, events, looks, 5, taken)
    ensures Ends(events, cancelSeen, services, looks) && ShowsTaken(events, services, cancelSeen, looks)
  {
    CutShort(services, taken);
  }

  lemma AllRelayed(services: Services, looks: nat, events: seq<Event>, thinking: bool, answering: bool, buf: string,
                   answerText: string, tokens: nat)
    requires Prompts(services) && services.opens
    requires Relaying(services, services.Fence(), |services.items|, looks, 5, events, thinking, answering, buf,
                      answerText, tokens)
    ensures looks == |services.items| + 5 && Broken !in services.items && tokens == TokensIn(services.items)
    ensures looks + 1 <= Looks(services) && WellStaged(events) && Unfinished(events)
    ensures ShowsTaken(events, services, true, looks + 1)
  {
    assert services.items[..|services.items|] == services.items;
    RelayedShows(services.Fence(), services.items, |services.items|, events, thinking, answering, buf, answerText);
  }

  /** Emits the tail the redactor held back, if there is one. */
  method FlushTail(ghost items: seq<ProviderItem>, redactor: FenceRedactor, shown: seq<Event>, thinking: bool,
                   answering: bool, answerText: string)
    returns (events: seq<Event>)
    requires "" !in redactor.markers
    requires Relayed(redactor.markers, items, |items|, shown, thinking, answering, redactor.buf, answerText)
    modifies redactor
    ensures WellStaged(events) && Unfinished(events) && ShowsAll(events, redactor.markers, items)
    ensures answerText == Concat(SaidIn(items))
  {
    Flushed(redactor.markers, items, shown, thinking, answering, redactor.buf, answerText);
    var tail := redactor.Flush();
    events := if tail == "" then shown else shown + [TextDelta(tail)];
  }

  lemma {:induction false} BrokenLater(items: seq<ProviderItem>, taken: nat)
    requires taken <= |items| && Broken !in items[..taken]
    ensures taken <= FirstBroken(items)
    ensures taken < |items| && items[taken].Broken? ==> taken == FirstBroken(items)
  {
    if taken > 0 {
      assert items[0] == items[..taken][0] && items[1..][..taken - 1] == items[..taken][1..];
      BrokenLater(items[1..], taken - 1);
    }
  }

  /** Items up to `taken` that are not broken come before the first broken one. */
  lemma CutShort(services: Services, taken: nat)
    requires taken <= |services.items| && Broken !in services.items[..taken]
    ensures taken <= FirstBroken(services.items)
    ensures taken < |services.items| && services.items[taken].Broken? ==>
      taken == FirstBroken(services.items) && Broken in services.items
    ensures taken == |services.items| ==> Broken !in services.items
  {
    BrokenLater(services.items, taken);
    assert services.items[..|services.items|] == services.items;
  }

  lemma FailShows(shown: seq<Event>, ms: seq<string>, items: seq<ProviderItem>)
    requires WellStaged(shown) && Unfinished(shown) && ShowsAll(shown, ms, items)
    ensures WellStaged(shown + [Failed]) && EndsInError(shown + [Failed]) && ShowsAll(shown + [Failed], ms, items)
  {
    FailRun(shown);
  }

  lemma CompleteShows(shown: seq<Event>, c: Event, d: Event, ms: seq<string>, items: seq<ProviderItem>)
    requires WellStaged(shown) && Unfinished(shown) && ShowsAll(shown, ms, items) && c.Citations? && d.Done?
    ensures WellStaged(shown + [c, d]) && EndsComplete(shown + [c, d]) && ShowsAll(shown + [c, d], ms, items)
  {
    CompleteRun(shown, c, d);
  }

  /** Citations, grounding and the closing events, once all the text is out. */
  method Conclude(services: Services, units: seq<ContextFit.Unit>, shown: seq<Event>, answerText: string, tokens: nat)
    returns (events: seq<Event>, cancelSeen: bool, looks: nat)
    requires |units| < Cite.U32_MODULUS && NoneSeen(services, |services.items| + 6)
    requires Prompts(services) && services.opens && Broken !in services.items
    requires WellStaged(shown) && Unfinished(shown) && ShowsAll(shown, services.Fence(), services.items)
    requires answerText == Concat(SaidIn(services.items)) && tokens == TokensIn(services.items)
    ensures WellStaged(events) && ShowsAll(events, services.Fence(), services.items)
    ensures Ends(events, cancelSeen, services, looks) && Flushes(services, cancelSeen, looks)
    ensures !cancelSeen && Succeeds(services) ==> ClosesWith(events, services.items, units)
  {
    looks := |services.items| + 6;
    var cites := Cite.ExtractCitations(answerText, units);
    var grounded := cites != [] || IsBlankText(answerText);
    if !services.locates {
      FailShows(shown, services.Fence(), services.items);
      return shown + [Failed], false, looks;
    }
    cancelSeen := Look(services, looks);
    looks := looks + 1;
    if cancelSeen {
      return shown, true, looks;
    }
    CompleteShows(shown, Citations(cites), Done(tokens, grounded, |cites|), services.Fence(), services.items);
    return shown + [Citations(cites), Done(tokens, grounded, |cites|)], false, looks;
  }

  /** With the final flush appended, the events carry the redactor's whole output. */
  lemma Flushed(ms: seq<string>, items: seq<ProviderItem>, events: seq<Event>,
                                   thinking: bool, answering: bool, buf: string, answerText: string)
    requires Relayed(ms, items, |items|, events, thinking, answering, buf, answerText) && "" !in ms
    ensures var tail := StripAll(buf, ms); var all := events + if tail == "" then [] else [TextDelta(tail)];
      && WellStaged(all) && Unfinished(all) && (tail == "" ==> all == events) && ShowsAll(all, ms, items)
      && answerText == Concat(SaidIn(items))
  {
    var tail := StripAll(buf, ms);
    assert items[..|items|] == items;
    AllCarried(ms, items, TextOf(events), ThoughtOf(events), buf, answerText);
    if tail == "" {
      assert events + [] == events && TextOf(events) + "" == TextOf(events);
    } else {
      if buf == "" {
        FlushOfNothing(ms);
      }
      AppendPlain(events, TextDelta(tail));
      TextSnoc(events, TextDelta(tail));
    }
  }

  lemma AllCarried(ms: seq<string>, items: seq<ProviderItem>, text: string, thought: string, buf: string,
                   answerText: string)
    requires Carried(ms, items, |items|, text, thought, buf, answerText)
    ensures text + StripAll(buf, ms) == Output(ms, "", SaidIn(items))
    ensures thought == ThoughtIn(items) && answerText == Concat(SaidIn(items))
  {
    assert items[..|items|] == items;
    OutputAfter(ms, SaidIn(items), []);
    assert SaidIn(items) + [] == SaidIn(items);
  }

  // ----- a refusal is no answer -----

  /** Blank text holds no marker, so the redactor passes it on. */
  lemma BlankShown(nonce: string, deltas: seq<string>)
    requires IsBlankText(Concat(deltas))
    ensures Output(Markers(nonce), "", deltas) == Concat(deltas)
  {
    var ms := Markers(nonce);
    forall k, i | 0 <= k < |ms|
      ensures !OccursAt("" + Concat(deltas), ms[k], i)
    {
      assert ms[k][0] == '<';
    }
    MarkerFreeUnchanged(ms, "", deltas);
  }

  lemma MessageNotBlank()
    ensures !IsBlankText(NO_SOURCES_MSG)
  {
    var last := NO_SOURCES_MSG[|NO_SOURCES_MSG| - 1];
    assert last == '.';
    assert !IsWhitespace(last);
  }

  /** A completed answer that cites nothing and yet counts as grounded is blank, so it is not the refusal. */
  lemma AnswerIsNoRefusal(events: seq<Event>, nonce: string, items: seq<ProviderItem>, units: seq<ContextFit.Unit>)
    requires ShowsAll(events, Markers(nonce), items) && ClosesWith(events, items, units)
    ensures !IsRefusal(events)
  {
    if IsBlankText(Concat(SaidIn(items))) {
      BlankShown(nonce, SaidIn(items));
      MessageNotBlank();
    }
  }

  lemma RefusalExactly(events: seq<Event>, services: Services, cancelSeen: bool, looks: nat,
                       request: Option<ContextFit.Fit>)
    requires Ends(events, cancelSeen, services, looks) && Tells(events, services, cancelSeen, looks, request)
    ensures !cancelSeen ==> (IsRefusal(events) <==> Refuses(services))
    ensures cancelSeen <==> !NoneSeen(services, Looks(services))
  {
    if !cancelSeen && Succeeds(services) {
      AnswerIsNoRefusal(events, services.prompt.nonce, services.items, request.value.units);
    }
  }
}
