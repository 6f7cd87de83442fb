/** Which event sequences a generation accepts, said of the events alone. */
module GenerationAcceptance {
  import opened Wrappers
  import opened CredentialScan
  import opened GenerationStream
  import Utf8

  ghost function StartedIds(events: seq<ProviderEvent>): set<ToolId> {
    if events == [] then {}
    else
      var rest, e := StartedIds(events[..|events| - 1]), events[|events| - 1];
      if e.ToolCallStarted? then rest + {e.id} else rest
  }

  ghost function CompletedIds(events: seq<ProviderEvent>): set<ToolId> {
    if events == [] then {}
    else
      var rest, e := CompletedIds(events[..|events| - 1]), events[|events| - 1];
      if e.ToolCallCompleted? then rest + {e.id} else rest
  }

  function OutputOf(e: ProviderEvent): seq<byte> {
    if e.TextDelta? || e.ReasoningDelta? then e.delta else []
  }

  function ArgumentsOf(e: ProviderEvent): seq<byte> {
    if e.ToolCallArguments? then e.delta else []
  }

  /** All text and reasoning, in the order it arrived. */
  ghost function Output(events: seq<ProviderEvent>): seq<byte> {
    if events == [] then [] else Output(events[..|events| - 1]) + OutputOf(events[|events| - 1])
  }

  /** All tool arguments, in the order they arrived. */
  ghost function AllArguments(events: seq<ProviderEvent>): seq<byte> {
    if events == [] then [] else AllArguments(events[..|events| - 1]) + ArgumentsOf(events[|events| - 1])
  }

  predicate WithinBudget(s: seq<byte>, maxBytes: nat, maxChars: nat) {
    |s| <= maxBytes && Chars(s) <= maxChars
  }

  /** A call starts once, among at most 128, and is fed and completed only between its start and its completion. */
  ghost predicate InOrder(before: seq<ProviderEvent>, e: ProviderEvent) {
    match e
    case ToolCallStarted(id, _) => id !in StartedIds(before) && |StartedIds(before)| < 128
    case ToolCallArguments(id, _) => id in StartedIds(before) && id !in CompletedIds(before)
    case ToolCallCompleted(id) => id in StartedIds(before) && id !in CompletedIds(before)
    case _ => true
  }

  ghost predicate NamesCredential(credential: seq<byte>, e: ProviderEvent) {
    match e
    case ToolCallStarted(id, name) => Reflects(credential, id) || Reflects(credential, name)
    case ToolCallArguments(id, _) => Reflects(credential, id)
    case ToolCallCompleted(id) => Reflects(credential, id)
    case _ => false
  }

  ghost predicate InProtocol(events: seq<ProviderEvent>) {
    events == [] ||
    (var before := events[..|events| - 1];
     InProtocol(before) && InOrder(before, events[|events| - 1]))
  }

  ghost predicate NothingNamed(credential: seq<byte>, events: seq<ProviderEvent>) {
    events == [] ||
    (NothingNamed(credential, events[..|events| - 1]) && !NamesCredential(credential, events[|events| - 1]))
  }

  ghost predicate NothingReflected(credential: seq<byte>, events: seq<ProviderEvent>) {
    forall c: Channel :: !Reflects(credential, Concat(Fragments(events, c)))
  }

  ghost predicate Acceptable(credential: seq<byte>, events: seq<ProviderEvent>) {
    && |events| <= MAX_PROVIDER_EVENTS
    && WithinBudget(Output(events), MAX_OUTPUT_BYTES, MAX_OUTPUT_CHARS)
    && WithinBudget(AllArguments(events), MAX_ARGUMENT_BYTES, MAX_ARGUMENT_CHARS)
    && InProtocol(events)
    && NothingNamed(credential, events)
    && NothingReflected(credential, events)
  }

  // One more event, conjunct by conjunct.

  lemma {:induction false} CharsOfParts(s: seq<byte>, t: seq<byte>)
    ensures Chars(s + t) == Chars(s) + Chars(t)
  {
    if s == [] {
      assert s + t == t;
    } else {
      CharsOfParts(s[1..], t);
      assert (s + t)[1..] == s[1..] + t;
    }
  }

  lemma BudgetShrinks(s: seq<byte>, t: seq<byte>, maxBytes: nat, maxChars: nat)
    ensures WithinBudget(s + t, maxBytes, maxChars) ==> WithinBudget(s, maxBytes, maxChars)
  {
    CharsOfParts(s, t);
  }

  lemma BytesAppend(events: seq<ProviderEvent>, e: ProviderEvent)
    ensures Output(events + [e]) == Output(events) + OutputOf(e)
    ensures AllArguments(events + [e]) == AllArguments(events) + ArgumentsOf(e)
    ensures OutputOf(e) == [] ==> Output(events) + OutputOf(e) == Output(events)
    ensures ArgumentsOf(e) == [] ==> AllArguments(events) + ArgumentsOf(e) == AllArguments(events)
  {
    assert (events + [e])[..|events + [e]| - 1] == events;
  }

  lemma CallsAppend(events: seq<ProviderEvent>, e: ProviderEvent)
    ensures StartedIds(events + [e]) == StartedIds(events) + if e.ToolCallStarted? then {e.id} else {}
    ensures CompletedIds(events + [e]) == CompletedIds(events) + if e.ToolCallCompleted? then {e.id} else {}
  {
    assert (events + [e])[..|events + [e]| - 1] == events;
  }

  lemma ProtocolAppends(credential: seq<byte>, events: seq<ProviderEvent>, e: ProviderEvent)
    ensures InProtocol(events + [e]) <==> InProtocol(events) && InOrder(events, e)
    ensures NothingNamed(credential, events + [e]) <==> NothingNamed(credential, events) && !NamesCredential(credential, e)
  {
    assert (events + [e])[..|events + [e]| - 1] == events;
  }

  /** The channel an event feeds, if it feeds one. */
  function FedBy(e: ProviderEvent): Option<Channel> {
    match e
    case TextDelta(_) => Some(Text)
    case ReasoningDelta(_) => Some(Reasoning)
    case ToolCallArguments(id, _) => Some(Arguments(id))
    case _ => None
  }

  ghost predicate StaysClean(credential: seq<byte>, events: seq<ProviderEvent>, e: ProviderEvent) {
    FedBy(e).Some? ==> !Reflects(credential, Concat(Fragments(events, FedBy(e).value)) + e.delta)
  }

  lemma ReflectionAppends(credential: seq<byte>, events: seq<ProviderEvent>, e: ProviderEvent)
    ensures NothingReflected(credential, events + [e]) <==> NothingReflected(credential, events) && StaysClean(credential, events, e)
  {
    var longer := events + [e];
    forall c: Channel
      ensures Reflects(credential, Concat(Fragments(events, c))) ==> Reflects(credential, Concat(Fragments(longer, c)))
      ensures FedBy(e) != Some(c) ==> Concat(Fragments(longer, c)) == Concat(Fragments(events, c))
    {
      SentGrows(events, e, c);
      if Reflects(credential, Concat(Fragments(events, c))) {
        OccursInLonger(credential, Concat(Fragments(events, c)), if SentOn(e, c) then e.delta else []);
      }
    }
    if FedBy(e).Some? {
      SentGrows(events, e, FedBy(e).value);
    }
  }

  /** All that is asked of one more event. */
  ghost predicate NextAcceptable(credential: seq<byte>, events: seq<ProviderEvent>, e: ProviderEvent) {
    && |events| < MAX_PROVIDER_EVENTS
    && WithinBudget(Output(events) + OutputOf(e), MAX_OUTPUT_BYTES, MAX_OUTPUT_CHARS)
    && WithinBudget(AllArguments(events) + ArgumentsOf(e), MAX_ARGUMENT_BYTES, MAX_ARGUMENT_CHARS)
    && InOrder(events, e)
    && !NamesCredential(credential, e)
    && StaysClean(credential, events, e)
  }

  lemma AcceptableAppends(credential: seq<byte>, events: seq<ProviderEvent>, e: ProviderEvent)
    ensures Acceptable(credential, events + [e]) <==> Acceptable(credential, events) && NextAcceptable(credential, events, e)
  {
    BytesAppend(events, e);
    BudgetShrinks(Output(events), OutputOf(e), MAX_OUTPUT_BYTES, MAX_OUTPUT_CHARS);
    BudgetShrinks(AllArguments(events), ArgumentsOf(e), MAX_ARGUMENT_BYTES, MAX_ARGUMENT_CHARS);
    ProtocolAppends(credential, events, e);
    ReflectionAppends(credential, events, e);
  }

  // What the counters and sets of an accumulator mean.

  predicate Spent(acc: Accumulator, count: nat, output: seq<byte>, arguments: seq<byte>) {
    && acc.eventCount == count
    && acc.outputBytes == |output| && acc.outputChars == Chars(output)
    && acc.argumentBytes == |arguments| && acc.argumentChars == Chars(arguments)
  }

  ghost predicate CallsKept(acc: Accumulator, events: seq<ProviderEvent>) {
    && acc.completed == CompletedIds(events)
    && acc.active == StartedIds(events) - CompletedIds(events)
    && CompletedIds(events) <= StartedIds(events)
  }

  ghost predicate Ledger(acc: Accumulator, events: seq<ProviderEvent>) {
    Spent(acc, |events|, Output(events), AllArguments(events)) && CallsKept(acc, events)
  }

  ghost predicate Affordable(events: seq<ProviderEvent>) {
    && |events| < MAX_PROVIDER_EVENTS
    && WithinBudget(Output(events), MAX_OUTPUT_BYTES, MAX_OUTPUT_CHARS)
    && WithinBudget(AllArguments(events), MAX_ARGUMENT_BYTES, MAX_ARGUMENT_CHARS)
  }

  lemma CallsCounted(acc: Accumulator, events: seq<ProviderEvent>)
    requires CallsKept(acc, events)
    ensures |acc.active| + |acc.completed| == |StartedIds(events)|
  {
    assert acc.active + acc.completed == StartedIds(events) && acc.active !! acc.completed;
  }

  lemma OutputTracked(acc: Accumulator, count: nat, output: seq<byte>, arguments: seq<byte>, delta: seq<byte>)
    requires Spent(acc, count, output, arguments)
    ensures var tracked := TrackOutput(acc, delta);
            && (tracked.Some? <==> WithinBudget(output + delta, MAX_OUTPUT_BYTES, MAX_OUTPUT_CHARS))
            && (tracked.Some? ==> Spent(tracked.value, count, output + delta, arguments))
  {
    CharsOfParts(output, delta);
  }

  lemma ArgumentsTracked(acc: Accumulator, count: nat, output: seq<byte>, arguments: seq<byte>, delta: seq<byte>)
    requires Spent(acc, count, output, arguments)
    ensures var tracked := TrackArguments(acc, delta);
            && (tracked.Some? <==> WithinBudget(arguments + delta, MAX_ARGUMENT_BYTES, MAX_ARGUMENT_CHARS))
            && (tracked.Some? ==> Spent(tracked.value, count, output, arguments + delta))
  {
    CharsOfParts(arguments, delta);
  }

  lemma CallsUntouched(acc: Accumulator, events: seq<ProviderEvent>, e: ProviderEvent)
    requires CallsKept(acc, events) && !e.ToolCallStarted? && !e.ToolCallCompleted?
    ensures CallsKept(acc, events + [e])
  {
    CallsAppend(events, e);
  }

  /** A guard refuses exactly the fragment that completes the credential on its channel. */
  lemma FilterRefusesReflection(credential: seq<byte>, fragments: seq<seq<byte>>, out: seq<byte>, pending: seq<byte>, delta: seq<byte>)
    requires ChannelInv(credential, fragments, out, pending)
    ensures Filter(credential, pending, delta).None? <==> Reflects(credential, Concat(fragments) + delta)
  {
    if credential != [] {
      var longer := fragments + [delta];
      assert longer[..|longer| - 1] == fragments;
      ConcatAppend(fragments, delta);
      GuardedStream(credential, longer);
    }
  }

  /** The part of an accumulator the ledger speaks of. */
  ghost predicate SameLedger(a: Accumulator, b: Accumulator) {
    && a.eventCount == b.eventCount && a.outputBytes == b.outputBytes && a.outputChars == b.outputChars
    && a.argumentBytes == b.argumentBytes && a.argumentChars == b.argumentChars
    && a.active == b.active && a.completed == b.completed
  }

  ghost predicate FilterDecides(credential: seq<byte>, events: seq<ProviderEvent>, pending: seq<byte>, e: ProviderEvent)
    requires FedBy(e).Some?
  {
    Filter(credential, pending, e.delta).Some? <==> StaysClean(credential, events, e)
  }

  lemma ChannelDecides(credential: seq<byte>, events: seq<ProviderEvent>, acc: Accumulator, e: ProviderEvent)
    requires FedBy(e).Some?
    requires OnChannel(credential, Fragments(events, FedBy(e).value), acc, FedBy(e).value)
    ensures FilterDecides(credential, events, Pending(acc, FedBy(e).value), e)
  {
    var c := FedBy(e).value;
    FilterRefusesReflection(credential, Fragments(events, c), Carried(acc.emitted, c), Pending(acc, c), e.delta);
  }

  lemma NextOutput(credential: seq<byte>, events: seq<ProviderEvent>, e: ProviderEvent)
    requires (e.TextDelta? || e.ReasoningDelta?) && Affordable(events)
    ensures NextAcceptable(credential, events, e) <==>
            WithinBudget(Output(events) + e.delta, MAX_OUTPUT_BYTES, MAX_OUTPUT_CHARS) && StaysClean(credential, events, e)
  {
    BytesAppend(events, e);
  }

  /** Emitting and withholding do not touch the ledger. */
  lemma LedgerOfTracked(tracked: Accumulator, next: Accumulator, events: seq<ProviderEvent>)
    requires Ledger(tracked, events) && SameLedger(tracked, next)
    ensures Ledger(next, events)
  {
  }

  lemma OutputLedger(acc: Accumulator, events: seq<ProviderEvent>, e: ProviderEvent)
    requires (e.TextDelta? || e.ReasoningDelta?) && Ledger(acc, events)
    ensures var tracked := TrackOutput(Counted(acc), e.delta);
            && (tracked.Some? <==> WithinBudget(Output(events) + e.delta, MAX_OUTPUT_BYTES, MAX_OUTPUT_CHARS))
            && (tracked.Some? ==> Ledger(tracked.value, events + [e]))
  {
    BytesAppend(events, e);
    OutputTracked(Counted(acc), |events| + 1, Output(events), AllArguments(events), e.delta);
    CallsUntouched(acc, events, e);
  }

  lemma TextForwarded(credential: seq<byte>, events: seq<ProviderEvent>, acc: Accumulator, e: ProviderEvent)
    requires e.TextDelta? && Ledger(acc, events) && Affordable(events) && FilterDecides(credential, events, acc.text, e)
    ensures Dispatch(credential, Counted(acc), e).Some? <==> NextAcceptable(credential, events, e)
    ensures Dispatch(credential, Counted(acc), e).Some? ==> Ledger(Dispatch(credential, Counted(acc), e).value, events + [e])
  {
    NextOutput(credential, events, e);
    OutputLedger(acc, events, e);
    var next := ForwardText(credential, Counted(acc), e.delta);
    assert Dispatch(credential, Counted(acc), e) == next;
    if next.Some? {
      LedgerOfTracked(TrackOutput(Counted(acc), e.delta).value, next.value, events + [e]);
    }
  }

  lemma ReasoningForwarded(credential: seq<byte>, events: seq<ProviderEvent>, acc: Accumulator, e: ProviderEvent)
    requires e.ReasoningDelta? && Ledger(acc, events) && Affordable(events) && FilterDecides(credential, events, acc.reasoning, e)
    ensures Dispatch(credential, Counted(acc), e).Some? <==> NextAcceptable(credential, events, e)
    ensures Dispatch(credential, Counted(acc), e).Some? ==> Ledger(Dispatch(credential, Counted(acc), e).value, events + [e])
  {
    NextOutput(credential, events, e);
    OutputLedger(acc, events, e);
    var next := ForwardReasoning(credential, Counted(acc), e.delta);
    assert Dispatch(credential, Counted(acc), e) == next;
    if next.Some? {
      LedgerOfTracked(TrackOutput(Counted(acc), e.delta).value, next.value, events + [e]);
    }
  }

  lemma NextArguments(credential: seq<byte>, events: seq<ProviderEvent>, e: ProviderEvent)
    requires e.ToolCallArguments? && Affordable(events)
    ensures NextAcceptable(credential, events, e) <==>
            && WithinBudget(AllArguments(events) + e.delta, MAX_ARGUMENT_BYTES, MAX_ARGUMENT_CHARS)
            && InOrder(events, e) && !Reflects(credential, e.id) && StaysClean(credential, events, e)
  {
    BytesAppend(events, e);
  }

  lemma ArgumentsLedger(acc: Accumulator, events: seq<ProviderEvent>, e: ProviderEvent)
    requires e.ToolCallArguments? && Ledger(acc, events)
    ensures var tracked := TrackArguments(Counted(acc), e.delta);
            && (tracked.Some? <==> WithinBudget(AllArguments(events) + e.delta, MAX_ARGUMENT_BYTES, MAX_ARGUMENT_CHARS))
            && (tracked.Some? ==> Ledger(tracked.value, events + [e]))
  {
    BytesAppend(events, e);
    ArgumentsTracked(Counted(acc), |events| + 1, Output(events), AllArguments(events), e.delta);
    CallsUntouched(acc, events, e);
  }

  lemma ArgumentsForwarded(credential: seq<byte>, events: seq<ProviderEvent>, acc: Accumulator, e: ProviderEvent)
    requires e.ToolCallArguments? && acc.tools.Keys == acc.active
    requires Ledger(acc, events) && Affordable(events) && FilterDecides(credential, events, Pending(acc, Arguments(e.id)), e)
    ensures Dispatch(credential, Counted(acc), e).Some? <==> NextAcceptable(credential, events, e)
    ensures Dispatch(credential, Counted(acc), e).Some? ==> Ledger(Dispatch(credential, Counted(acc), e).value, events + [e])
  {
    NextArguments(credential, events, e);
    ArgumentsLedger(acc, events, e);
    var next := ForwardToolArguments(credential, Counted(acc), e.id, e.delta);
    assert Dispatch(credential, Counted(acc), e) == next;
    if next.Some? {
      LedgerOfTracked(TrackArguments(Counted(acc), e.delta).value, next.value, events + [e]);
    }
  }

  lemma CallStarted(acc: Accumulator, events: seq<ProviderEvent>, e: ProviderEvent, next: Accumulator)
    requires CallsKept(acc, events) && e.ToolCallStarted? && e.id !in StartedIds(events)
    requires next.active == acc.active + {e.id} && next.completed == acc.completed
    ensures CallsKept(next, events + [e])
  {
    CallsAppend(events, e);
  }

  lemma StartForwarded(credential: seq<byte>, events: seq<ProviderEvent>, acc: Accumulator, e: ProviderEvent)
    requires e.ToolCallStarted? && Ledger(acc, events) && Affordable(events)
    ensures Dispatch(credential, Counted(acc), e).Some? <==> NextAcceptable(credential, events, e)
    ensures Dispatch(credential, Counted(acc), e).Some? ==> Ledger(Dispatch(credential, Counted(acc), e).value, events + [e])
  {
    BytesAppend(events, e);
    CallsCounted(acc, events);
    assert e.id in StartedIds(events) <==> e.id in acc.active || e.id in acc.completed;
    if Dispatch(credential, Counted(acc), e).Some? {
      CallStarted(acc, events, e, Dispatch(credential, Counted(acc), e).value);
    }
  }

  lemma CallCompleted(acc: Accumulator, events: seq<ProviderEvent>, e: ProviderEvent, next: Accumulator)
    requires CallsKept(acc, events) && e.ToolCallCompleted? && e.id in acc.active
    requires next.active == acc.active - {e.id} && next.completed == acc.completed + {e.id}
    ensures CallsKept(next, events + [e])
  {
    CallsAppend(events, e);
  }

  lemma CompletionForwarded(credential: seq<byte>, events: seq<ProviderEvent>, acc: Accumulator, e: ProviderEvent)
    requires e.ToolCallCompleted? && acc.tools.Keys == acc.active && Ledger(acc, events) && Affordable(events)
    ensures Dispatch(credential, Counted(acc), e).Some? <==> NextAcceptable(credential, events, e)
    ensures Dispatch(credential, Counted(acc), e).Some? ==> Ledger(Dispatch(credential, Counted(acc), e).value, events + [e])
  {
    BytesAppend(events, e);
    if Dispatch(credential, Counted(acc), e).Some? {
      CallCompleted(acc, events, e, Dispatch(credential, Counted(acc), e).value);
    }
  }

  lemma ForwardedIffAcceptable(credential: seq<byte>, events: seq<ProviderEvent>, acc: Accumulator, e: ProviderEvent)
    requires Run(credential, events) == Some(acc) && Ledger(acc, events) && Acceptable(credential, events)
    ensures Forward(credential, acc, e).Some? <==> NextAcceptable(credential, events, e)
    ensures Forward(credential, acc, e).Some? ==> Ledger(Forward(credential, acc, e).value, events + [e])
  {
    if |events| < MAX_PROVIDER_EVENTS {
      RunKeepsTools(credential, events);
      if FedBy(e).Some? {
        RunKeepsChannel(credential, events, FedBy(e).value);
        ChannelDecides(credential, events, acc, e);
      }
      match e {
        case TextDelta(_) => TextForwarded(credential, events, acc, e);
        case ReasoningDelta(_) => ReasoningForwarded(credential, events, acc, e);
        case ToolCallStarted(_, _) => StartForwarded(credential, events, acc, e);
        case ToolCallArguments(_, _) => ArgumentsForwarded(credential, events, acc, e);
        case ToolCallCompleted(_) => CompletionForwarded(credential, events, acc, e);
      }
    }
  }

  lemma {:induction false} RunSucceedsIff(credential: seq<byte>, events: seq<ProviderEvent>)
    ensures Run(credential, events).Some? <==> Acceptable(credential, events)
    ensures Run(credential, events).Some? ==> Ledger(Run(credential, events).value, events)
  {
    if events == [] {
      NothingSent(credential);
    } else {
      var shorter, e := events[..|events| - 1], events[|events| - 1];
      RunSucceedsIff(credential, shorter);
      assert events == shorter + [e];
      AcceptableAppends(credential, shorter, e);
      if Run(credential, shorter).Some? {
        ForwardedIffAcceptable(credential, shorter, Run(credential, shorter).value, e);
      }
    }
  }

  lemma NothingSent(credential: seq<byte>)
    ensures Acceptable(credential, [])
  {
    forall c: Channel
      ensures !Reflects(credential, Concat(Fragments([], c)))
    {
      assert Concat([]) == [];
    }
  }

  lemma {:induction false} ContinuationsAreFree(s: seq<byte>)
    requires forall i :: 0 <= i < |s| ==> Utf8.Continuation(s[i])
    ensures Chars(s) == 0
  {
    if s != [] {
      ContinuationsAreFree(s[1..]);
    }
  }

  /** Counting the bytes that do not continue a scalar counts the scalars. */
  lemma {:induction false} CharsAreScalars(s: seq<byte>)
    requires Utf8.WellFormed(s)
    ensures Chars(s) == Utf8.Scalars(s)
    decreases |s|
  {
    if s != [] {
      var n := Utf8.LeadLength(s[0]);
      CharsAreScalars(s[n..]);
      var tail := s[1..n];
      ContinuationsAreFree(tail);
      CharsOfParts(tail, s[n..]);
      assert s[1..] == tail + s[n..];
    }
  }

  /**
   Which generations succeed: those with at most 8192 events within the output and argument
   budgets, every tool call started once, used in between and completed, and the credential in no
   identifier, no name and no channel as a whole, however it was cut into fragments.
   */
  lemma GenerationSucceedsIff(credential: seq<byte>, events: seq<ProviderEvent>)
    ensures Generate(credential, events).Some? <==>
            && |events| <= 8192
            && |Output(events)| <= 262144 && Chars(Output(events)) <= 65536
            && |AllArguments(events)| <= 262144 && Chars(AllArguments(events)) <= 131072
            && InProtocol(events) && StartedIds(events) == CompletedIds(events)
            && NothingNamed(credential, events)
            && NothingReflected(credential, events)
    ensures InProtocol(events) ==> |StartedIds(events)| <= 128
  {
    RunSucceedsIff(credential, events);
    if Run(credential, events).Some? {
      AllClosed(Run(credential, events).value, events);
    }
    if InProtocol(events) {
      FewCalls(events);
    }
  }

  lemma AllClosed(acc: Accumulator, events: seq<ProviderEvent>)
    requires CallsKept(acc, events)
    ensures acc.active == {} <==> StartedIds(events) == CompletedIds(events)
  {
    if acc.active == {} {
      forall id | id in StartedIds(events)
        ensures id in CompletedIds(events)
      {
        assert id !in acc.active;
      }
    }
  }

  lemma {:induction false} FewCalls(events: seq<ProviderEvent>)
    requires InProtocol(events)
    ensures |StartedIds(events)| <= 128
  {
    if events != [] {
      FewCalls(events[..|events| - 1]);
    }
  }
}
