/** The transcript of a generation: every event a reader sees, said of the provider's events alone. */
module GenerationTranscript {
  import opened Wrappers
  import opened CredentialScan
  import opened GenerationStream
  import opened GenerationAcceptance

  // ----- one event

  ghost function Sent(events: seq<ProviderEvent>, c: Channel): seq<byte> {
    Concat(Fragments(events, c))
  }

  /** Where the guard has cut what was sent: everything before has been shown, the rest is withheld. */
  ghost function Cut(credential: seq<byte>, sent: seq<byte>): (cut: nat)
    ensures cut <= |sent|
  {
    if credential == [] then |sent| else |sent| - Withheld(credential, sent)
  }

  /** What one more fragment sets free: from the old cut to the new one. */
  ghost function Freed(credential: seq<byte>, sent: seq<byte>, delta: seq<byte>): seq<byte> {
    var from, to := Cut(credential, sent), Cut(credential, sent + delta);
    if from <= to then (sent + delta)[from..to] else []
  }

  function DeltaShown(c: Channel, bytes: seq<byte>, always: bool): seq<ChatEvent> {
    if bytes != [] || always then [Delta(c, bytes)] else []
  }

  /** What an accepted event adds to the log. Only a disabled guard passes empty text on. */
  ghost function Shown(credential: seq<byte>, events: seq<ProviderEvent>, e: ProviderEvent): seq<ChatEvent> {
    match e
    case TextDelta(delta) => DeltaShown(Text, Freed(credential, Sent(events, Text), delta), credential == [])
    case ReasoningDelta(delta) => DeltaShown(Reasoning, Freed(credential, Sent(events, Reasoning), delta), credential == [])
    case ToolCallStarted(id, name) => [Started(id, name)]
    case ToolCallArguments(id, delta) => DeltaShown(Arguments(id), Freed(credential, Sent(events, Arguments(id)), delta), false)
    case ToolCallCompleted(_) => []
  }

  /** A guard that has seen `fragments` withholds exactly what follows the cut. */
  lemma PendingFollowsCut(credential: seq<byte>, fragments: seq<seq<byte>>, out: seq<byte>, pending: seq<byte>)
    requires ChannelInv(credential, fragments, out, pending)
    ensures var sent := Concat(fragments);
            out == sent[..Cut(credential, sent)] && pending == sent[Cut(credential, sent)..]
  {
    if credential != [] {
      FeedIsOnePush(credential, fragments);
      PushFresh(credential, Concat(fragments));
    }
  }

  lemma PrefixRemainder(all: seq<byte>, from: nat, to: nat, out: seq<byte>)
    requires from <= |all| && to <= |all| && all[..to] == all[..from] + out
    ensures from <= to && out == all[from..to]
  {
    assert |all[..to]| == to && |all[..from]| == from;
    assert all[from..to] == all[..to][from..];
  }

  lemma FreedIs(credential: seq<byte>, sent: seq<byte>, delta: seq<byte>, out: seq<byte>)
    requires (sent + delta)[..Cut(credential, sent + delta)] == sent[..Cut(credential, sent)] + out
    ensures out == Freed(credential, sent, delta)
  {
    var from, to := Cut(credential, sent), Cut(credential, sent + delta);
    assert (sent + delta)[..from] == sent[..from];
    PrefixRemainder(sent + delta, from, to, out);
  }

  lemma FilterFrees(credential: seq<byte>, fragments: seq<seq<byte>>, out: seq<byte>, pending: seq<byte>, delta: seq<byte>)
    requires ChannelInv(credential, fragments, out, pending) && Filter(credential, pending, delta).Some?
    ensures Filter(credential, pending, delta).value.out == Freed(credential, Concat(fragments), delta)
  {
    var r := Filter(credential, pending, delta).value;
    FilterKeepsChannel(credential, fragments, out, pending, delta);
    PendingFollowsCut(credential, fragments, out, pending);
    PendingFollowsCut(credential, fragments + [delta], out + r.out, r.pending);
    ConcatAppend(fragments, delta);
    FreedIs(credential, Concat(fragments), delta, r.out);
  }

  lemma ChannelFrees(credential: seq<byte>, events: seq<ProviderEvent>, acc: Accumulator, e: ProviderEvent)
    requires Run(credential, events) == Some(acc) && FedBy(e).Some?
    requires Filter(credential, Pending(acc, FedBy(e).value), e.delta).Some?
    ensures Filter(credential, Pending(acc, FedBy(e).value), e.delta).value.out ==
            Freed(credential, Sent(events, FedBy(e).value), e.delta)
  {
    var c := FedBy(e).value;
    RunKeepsChannel(credential, events, c);
    FilterFrees(credential, Fragments(events, c), Carried(acc.emitted, c), Pending(acc, c), e.delta);
  }

  lemma EmitShows(acc: Accumulator, c: Channel, delta: seq<byte>, always: bool)
    ensures Emit(acc, c, delta, always).emitted == acc.emitted + DeltaShown(c, delta, always)
  {
  }

  lemma TextShows(credential: seq<byte>, events: seq<ProviderEvent>, acc: Accumulator, e: ProviderEvent)
    requires Run(credential, events) == Some(acc) && e.TextDelta? && ForwardText(credential, Counted(acc), e.delta).Some?
    ensures ForwardText(credential, Counted(acc), e.delta).value.emitted == acc.emitted + Shown(credential, events, e)
  {
    ChannelFrees(credential, events, acc, e);
    var filtered := Filter(credential, acc.text, e.delta).value;
    EmitShows(TrackOutput(Counted(acc), e.delta).value.(text := filtered.pending), Text, filtered.out, credential == []);
  }

  lemma ReasoningShows(credential: seq<byte>, events: seq<ProviderEvent>, acc: Accumulator, e: ProviderEvent)
    requires Run(credential, events) == Some(acc) && e.ReasoningDelta? && ForwardReasoning(credential, Counted(acc), e.delta).Some?
    ensures ForwardReasoning(credential, Counted(acc), e.delta).value.emitted == acc.emitted + Shown(credential, events, e)
  {
    ChannelFrees(credential, events, acc, e);
    var filtered := Filter(credential, acc.reasoning, e.delta).value;
    EmitShows(TrackOutput(Counted(acc), e.delta).value.(reasoning := filtered.pending), Reasoning, filtered.out, credential == []);
  }

  lemma ArgumentsShow(credential: seq<byte>, events: seq<ProviderEvent>, acc: Accumulator, e: ProviderEvent)
    requires Run(credential, events) == Some(acc) && e.ToolCallArguments?
    requires ForwardToolArguments(credential, Counted(acc), e.id, e.delta).Some?
    ensures ForwardToolArguments(credential, Counted(acc), e.id, e.delta).value.emitted == acc.emitted + Shown(credential, events, e)
  {
    assert Pending(acc, Arguments(e.id)) == acc.tools[e.id];
    ChannelFrees(credential, events, acc, e);
    var filtered := Filter(credential, acc.tools[e.id], e.delta).value;
    EmitShows(TrackArguments(Counted(acc), e.delta).value.(tools := acc.tools[e.id := filtered.pending]), Arguments(e.id), filtered.out, false);
  }

  lemma ForwardShows(credential: seq<byte>, events: seq<ProviderEvent>, acc: Accumulator, e: ProviderEvent)
    requires Run(credential, events) == Some(acc) && Forward(credential, acc, e).Some?
    ensures Forward(credential, acc, e).value.emitted == acc.emitted + Shown(credential, events, e)
  {
    var next := Dispatch(credential, Counted(acc), e);
    match e {
      case TextDelta(delta) =>
        assert next == ForwardText(credential, Counted(acc), delta);
        TextShows(credential, events, acc, e);
      case ReasoningDelta(delta) =>
        assert next == ForwardReasoning(credential, Counted(acc), delta);
        ReasoningShows(credential, events, acc, e);
      case ToolCallStarted(id, name) =>
        assert next == ForwardToolStart(credential, Counted(acc), id, name);
      case ToolCallArguments(id, delta) =>
        assert next == ForwardToolArguments(credential, Counted(acc), id, delta);
        ArgumentsShow(credential, events, acc, e);
      case ToolCallCompleted(id) =>
        assert next == CompleteToolCall(credential, Counted(acc), id);
    }
  }

  /**
   The log, event by event and for every run: an accepted event adds exactly what it shows, with
   the provider's own identifiers, names and bytes; the first event that is not accepted, and any
   after it, adds nothing.
   */
  lemma LogIsExact(credential: seq<byte>, events: seq<ProviderEvent>, e: ProviderEvent)
    ensures Log(credential, []) == []
    ensures Log(credential, events + [e]) ==
            Log(credential, events) + if Acceptable(credential, events + [e]) then Shown(credential, events, e) else []
  {
    var longer := events + [e];
    assert longer[..|longer| - 1] == events;
    RunSucceedsIff(credential, longer);
    if Run(credential, longer).Some? {
      ForwardShows(credential, events, Run(credential, events).value, e);
    }
  }

  // ----- starts and completions

  ghost function StartsSent(events: seq<ProviderEvent>): seq<(ToolId, seq<byte>)> {
    if events == [] then []
    else
      var rest, e := StartsSent(events[..|events| - 1]), events[|events| - 1];
      if e.ToolCallStarted? then rest + [(e.id, e.name)] else rest
  }

  ghost function StartsSeen(log: seq<ChatEvent>): seq<(ToolId, seq<byte>)> {
    if log == [] then []
    else
      var rest, e := StartsSeen(log[..|log| - 1]), log[|log| - 1];
      if e.Started? then rest + [(e.id, e.name)] else rest
  }

  ghost function CompletionsSent(events: seq<ProviderEvent>): seq<ToolId> {
    if events == [] then []
    else
      var rest, e := CompletionsSent(events[..|events| - 1]), events[|events| - 1];
      if e.ToolCallCompleted? then rest + [e.id] else rest
  }

  ghost function CompletionsSeen(log: seq<ChatEvent>): seq<ToolId> {
    if log == [] then []
    else
      var rest, e := CompletionsSeen(log[..|log| - 1]), log[|log| - 1];
      if e.Completed? then rest + [e.id] else rest
  }

  lemma SeenAppend(log: seq<ChatEvent>, e: ChatEvent)
    ensures StartsSeen(log + [e]) == StartsSeen(log) + if e.Started? then [(e.id, e.name)] else []
    ensures CompletionsSeen(log + [e]) == CompletionsSeen(log) + if e.Completed? then [e.id] else []
  {
    assert (log + [e])[..|log + [e]| - 1] == log;
  }

  lemma DeltaUnseen(log: seq<ChatEvent>, c: Channel, bytes: seq<byte>, always: bool)
    ensures StartsSeen(log + DeltaShown(c, bytes, always)) == StartsSeen(log)
    ensures CompletionsSeen(log + DeltaShown(c, bytes, always)) == CompletionsSeen(log)
  {
    SeenAppend(log, Delta(c, bytes));
    assert log + [] == log;
  }

  lemma ShownSeen(log: seq<ChatEvent>, credential: seq<byte>, events: seq<ProviderEvent>, e: ProviderEvent)
    ensures StartsSeen(log + Shown(credential, events, e)) ==
            StartsSeen(log) + if e.ToolCallStarted? then [(e.id, e.name)] else []
    ensures CompletionsSeen(log + Shown(credential, events, e)) == CompletionsSeen(log)
  {
    match e
    case TextDelta(delta) =>
      DeltaUnseen(log, Text, Freed(credential, Sent(events, Text), delta), credential == []);
    case ReasoningDelta(delta) =>
      DeltaUnseen(log, Reasoning, Freed(credential, Sent(events, Reasoning), delta), credential == []);
    case ToolCallStarted(id, name) => SeenAppend(log, Started(id, name));
    case ToolCallArguments(id, delta) =>
      DeltaUnseen(log, Arguments(id), Freed(credential, Sent(events, Arguments(id)), delta), false);
    case ToolCallCompleted(_) => assert log + [] == log;
  }

  /** How many leading events are accepted. */
  ghost function Accepted(credential: seq<byte>, events: seq<ProviderEvent>): (k: nat)
    ensures k <= |events|
  {
    if Acceptable(credential, events) || events == [] then |events| else Accepted(credential, events[..|events| - 1])
  }

  lemma {:induction false} AcceptedIsLongest(credential: seq<byte>, events: seq<ProviderEvent>)
    ensures var k := Accepted(credential, events);
            Acceptable(credential, events[..k]) && forall j :: k < j <= |events| ==> !Acceptable(credential, events[..j])
  {
    if Acceptable(credential, events) {
      assert events[..|events|] == events;
    } else if events == [] {
      NothingSent(credential);
    } else {
      var shorter := events[..|events| - 1];
      AcceptedIsLongest(credential, shorter);
      var k := Accepted(credential, events);
      assert shorter[..k] == events[..k];
      forall j | k < j <= |events|
        ensures !Acceptable(credential, events[..j])
      {
        if j == |events| {
          assert events[..j] == events;
        } else {
          assert shorter[..j] == events[..j];
        }
      }
    }
  }

  lemma {:induction false} AcceptableLog(credential: seq<byte>, events: seq<ProviderEvent>)
    requires Acceptable(credential, events)
    ensures StartsSeen(Log(credential, events)) == StartsSent(events) && CompletionsSeen(Log(credential, events)) == []
  {
    if events == [] {
      assert Log(credential, []) == [];
    } else {
      var shorter, e := events[..|events| - 1], events[|events| - 1];
      assert events == shorter + [e];
      AcceptableAppends(credential, shorter, e);
      AcceptableLog(credential, shorter);
      LogIsExact(credential, shorter, e);
      ShownSeen(Log(credential, shorter), credential, shorter, e);
    }
  }

  lemma {:induction false} LogStops(credential: seq<byte>, events: seq<ProviderEvent>)
    ensures Log(credential, events) == Log(credential, events[..Accepted(credential, events)])
  {
    RunSucceedsIff(credential, events);
    if Acceptable(credential, events) || events == [] {
      assert events[..|events|] == events;
    } else {
      var shorter := events[..|events| - 1];
      LogStops(credential, shorter);
      assert shorter[..Accepted(credential, shorter)] == events[..Accepted(credential, events)];
    }
  }

  /** In every run the calls announced are, in order, those the accepted events started, under their own names; none is closed early. */
  lemma StartsAreFaithful(credential: seq<byte>, events: seq<ProviderEvent>)
    ensures StartsSeen(Log(credential, events)) == StartsSent(events[..Accepted(credential, events)])
    ensures CompletionsSeen(Log(credential, events)) == []
  {
    LogStops(credential, events);
    AcceptedIsLongest(credential, events);
    AcceptableLog(credential, events[..Accepted(credential, events)]);
  }

  lemma {:induction false} LogOnlyGrows(credential: seq<byte>, events: seq<ProviderEvent>, k: nat)
    requires k <= |events|
    ensures Log(credential, events[..k]) <= Log(credential, events)
    decreases |events|
  {
    if k == |events| {
      assert events[..k] == events;
    } else {
      var shorter, e := events[..|events| - 1], events[|events| - 1];
      assert events == shorter + [e] && shorter[..k] == events[..k];
      LogOnlyGrows(credential, shorter, k);
      LogIsExact(credential, shorter, e);
    }
  }

  /** An announced call stands right after what the events before it had shown. */
  lemma StartStandsInPlace(credential: seq<byte>, events: seq<ProviderEvent>, i: nat)
    requires i < |events| && events[i].ToolCallStarted? && Acceptable(credential, events[..i + 1])
    ensures Log(credential, events[..i]) + [Started(events[i].id, events[i].name)] <= Log(credential, events)
  {
    assert events[..i + 1] == events[..i] + [events[i]];
    LogIsExact(credential, events[..i], events[i]);
    LogOnlyGrows(credential, events, i + 1);
  }

  // ----- the end of a generation

  ghost function Rest(credential: seq<byte>, events: seq<ProviderEvent>, c: Channel): seq<byte> {
    Sent(events, c)[Cut(credential, Sent(events, c))..]
  }

  /** The calls are closed in the order the provider completed them, each after what its channel had withheld. */
  ghost function Closings(credential: seq<byte>, events: seq<ProviderEvent>, ids: seq<ToolId>): seq<ChatEvent> {
    if ids == [] then []
    else
      var id := ids[|ids| - 1];
      Closings(credential, events, ids[..|ids| - 1])
      + DeltaShown(Arguments(id), Rest(credential, events, Arguments(id)), false) + [Completed(id)]
  }

  ghost predicate ParkedInOrder(finishing: Finishing, ids: seq<ToolId>) {
    |finishing| == |ids| && forall i :: 0 <= i < |ids| ==> finishing[i].0 == ids[i]
  }

  lemma {:induction false} RunParksInOrder(credential: seq<byte>, events: seq<ProviderEvent>)
    requires Run(credential, events).Some?
    ensures ParkedInOrder(Run(credential, events).value.finishing, CompletionsSent(events))
  {
    if events != [] {
      var shorter, e := events[..|events| - 1], events[|events| - 1];
      RunParksInOrder(credential, shorter);
      var acc := Run(credential, shorter).value;
      assert Run(credential, events) == Dispatch(credential, Counted(acc), e);
      DispatchParks(credential, Counted(acc), e);
    }
  }

  lemma DispatchParks(credential: seq<byte>, acc: Accumulator, e: ProviderEvent)
    requires Dispatch(credential, acc, e).Some?
    ensures var next := Dispatch(credential, acc, e).value;
            if e.ToolCallCompleted? then e.id in acc.tools && next.finishing == acc.finishing + [(e.id, acc.tools[e.id])]
            else next.finishing == acc.finishing
  {
  }

  lemma {:induction false} ParkedOnce(finishing: Finishing, i: nat)
    requires OncePerCall(finishing) && i < |finishing|
    ensures Parked(finishing, finishing[i].0) == finishing[i].1 && finishing[i].0 in Ids(finishing)
  {
    var shorter, last := finishing[..|finishing| - 1], finishing[|finishing| - 1];
    if i < |finishing| - 1 {
      assert shorter[i] == finishing[i];
      ParkedOnce(shorter, i);
    } else {
      ParkedUnknown(shorter, last.0);
      assert [] + last.1 == last.1;
    }
  }

  lemma ParkedRests(credential: seq<byte>, events: seq<ProviderEvent>, i: nat)
    requires Run(credential, events).Some? && i < |Run(credential, events).value.finishing|
    ensures var (id, rest) := Run(credential, events).value.finishing[i]; rest == Rest(credential, events, Arguments(id))
  {
    var acc := Run(credential, events).value;
    var (id, rest) := acc.finishing[i];
    RunKeepsTools(credential, events);
    RunKeepsChannel(credential, events, Arguments(id));
    ParkedOnce(acc.finishing, i);
    assert id in acc.completed && id !in acc.tools;
    PendingFollowsCut(credential, Fragments(events, Arguments(id)), Carried(acc.emitted, Arguments(id)), Pending(acc, Arguments(id)));
  }

  lemma FinishOneShows(log: seq<ChatEvent>, id: ToolId, rest: seq<byte>)
    ensures FinishOne(log, id, rest) == log + DeltaShown(Arguments(id), rest, false) + [Completed(id)]
  {
  }

  lemma {:induction false} FinishShowsClosings(credential: seq<byte>, events: seq<ProviderEvent>, finishing: Finishing,
                                               ids: seq<ToolId>, emitted: seq<ChatEvent>)
    requires ParkedInOrder(finishing, ids)
    requires forall i :: 0 <= i < |finishing| ==> finishing[i].1 == Rest(credential, events, Arguments(ids[i]))
    ensures FinishTools(finishing, emitted) == emitted + Closings(credential, events, ids)
  {
    if finishing != [] {
      var last := |finishing| - 1;
      FinishShowsClosings(credential, events, finishing[..last], ids[..last], emitted);
      FinishOneShows(FinishTools(finishing[..last], emitted), ids[last], finishing[last].1);
    }
  }

  /**
   A generation that succeeds shows its log, then what text and reasoning had withheld, then each
   call's withheld arguments and its completion, in the order of the provider's completions.
   */
  lemma GenerationIsExact(credential: seq<byte>, events: seq<ProviderEvent>)
    requires Generate(credential, events).Some?
    ensures Generate(credential, events).value ==
            Log(credential, events) + DeltaShown(Text, Rest(credential, events, Text), false)
            + DeltaShown(Reasoning, Rest(credential, events, Reasoning), false)
            + Closings(credential, events, CompletionsSent(events))
  {
    var acc := Run(credential, events).value;
    WithheldIsRest(credential, events, Text);
    WithheldIsRest(credential, events, Reasoning);
    FlushShows(acc);
    RunParksInOrder(credential, events);
    forall i | 0 <= i < |acc.finishing|
      ensures acc.finishing[i].1 == Rest(credential, events, Arguments(CompletionsSent(events)[i]))
    {
      ParkedRests(credential, events, i);
    }
    FinishShowsClosings(credential, events, acc.finishing, CompletionsSent(events), Flushed(acc).emitted);
  }

  lemma WithheldIsRest(credential: seq<byte>, events: seq<ProviderEvent>, c: Channel)
    requires Run(credential, events).Some?
    ensures Pending(Run(credential, events).value, c) == Rest(credential, events, c)
  {
    var acc := Run(credential, events).value;
    RunKeepsChannel(credential, events, c);
    PendingFollowsCut(credential, Fragments(events, c), Carried(acc.emitted, c), Pending(acc, c));
  }

  lemma FlushShows(last: Accumulator)
    ensures Flushed(last).finishing == last.finishing
    ensures Flushed(last).emitted ==
            last.emitted + DeltaShown(Text, last.text, false) + DeltaShown(Reasoning, last.reasoning, false)
  {
  }

  lemma ClosingSeen(log: seq<ChatEvent>, id: ToolId, rest: seq<byte>)
    ensures var closed := log + DeltaShown(Arguments(id), rest, false) + [Completed(id)];
            StartsSeen(closed) == StartsSeen(log) && CompletionsSeen(closed) == CompletionsSeen(log) + [id]
  {
    DeltaUnseen(log, Arguments(id), rest, false);
    SeenAppend(log + DeltaShown(Arguments(id), rest, false), Completed(id));
  }

  lemma ClosingsEnd(log: seq<ChatEvent>, credential: seq<byte>, events: seq<ProviderEvent>, ids: seq<ToolId>)
    requires ids != []
    ensures var front, id := ids[..|ids| - 1], ids[|ids| - 1];
            log + Closings(credential, events, ids) ==
            (log + Closings(credential, events, front)) + DeltaShown(Arguments(id), Rest(credential, events, Arguments(id)), false) + [Completed(id)]
  {
  }

  lemma {:induction false} ClosingsSeen(log: seq<ChatEvent>, credential: seq<byte>, events: seq<ProviderEvent>, ids: seq<ToolId>)
    ensures StartsSeen(log + Closings(credential, events, ids)) == StartsSeen(log)
    ensures CompletionsSeen(log + Closings(credential, events, ids)) == CompletionsSeen(log) + ids
  {
    if ids == [] {
      assert log + [] == log;
    } else {
      var front, id := ids[..|ids| - 1], ids[|ids| - 1];
      ClosingsSeen(log, credential, events, front);
      ClosingsEnd(log, credential, events, ids);
      ClosingSeen(log + Closings(credential, events, front), id, Rest(credential, events, Arguments(id)));
      LastOf(CompletionsSeen(log), ids);
    }
  }

  lemma LastOf(before: seq<ToolId>, ids: seq<ToolId>)
    requires ids != []
    ensures before + ids[..|ids| - 1] + [ids[|ids| - 1]] == before + ids
  {
  }

  /** A successful generation announces every call the provider started and closes every call it completed, in its order. */
  lemma GenerationAnnouncesCalls(credential: seq<byte>, events: seq<ProviderEvent>)
    requires Generate(credential, events).Some?
    ensures StartsSeen(Generate(credential, events).value) == StartsSent(events)
    ensures CompletionsSeen(Generate(credential, events).value) == CompletionsSent(events)
  {
    GenerationIsExact(credential, events);
    RunSucceedsIff(credential, events);
    AcceptableLog(credential, events);
    var log := Log(credential, events);
    DeltaUnseen(log, Text, Rest(credential, events, Text), false);
    var withText := log + DeltaShown(Text, Rest(credential, events, Text), false);
    DeltaUnseen(withText, Reasoning, Rest(credential, events, Reasoning), false);
    ClosingsSeen(withText + DeltaShown(Reasoning, Rest(credential, events, Reasoning), false), credential, events, CompletionsSent(events));
  }
}
