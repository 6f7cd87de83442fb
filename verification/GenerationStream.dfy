/**
 The accumulator behind one generation: provider events in, chat events out, every public
 channel filtered by its own credential guard. An empty credential disables the guard.
 */
module GenerationStream {
  import opened Wrappers
  import opened CredentialScan
  import Utf8

  const MAX_PROVIDER_EVENTS := 8192
  const MAX_OUTPUT_BYTES := 256 * 1024
  const MAX_OUTPUT_CHARS := 64 * 1024
  const MAX_TOOL_CALLS := 128
  const MAX_ARGUMENT_BYTES := 256 * 1024
  const MAX_ARGUMENT_CHARS := 128 * 1024

  type ToolId = seq<byte>

  datatype Channel = Text | Reasoning | Arguments(id: ToolId)

  datatype ProviderEvent =
    | TextDelta(delta: seq<byte>)
    | ReasoningDelta(delta: seq<byte>)
    | ToolCallStarted(id: ToolId, name: seq<byte>)
    | ToolCallArguments(id: ToolId, delta: seq<byte>)
    | ToolCallCompleted(id: ToolId)

  datatype ChatEvent =
    | Delta(channel: Channel, delta: seq<byte>)
    | Started(id: ToolId, name: seq<byte>)
    | Completed(id: ToolId)

  /** `text`, `reasoning`, `tools` and `finishing` hold the bytes each guard withholds. */
  datatype Accumulator = Accumulator(
    text: seq<byte>,
    reasoning: seq<byte>,
    tools: map<ToolId, seq<byte>>,
    finishing: seq<(ToolId, seq<byte>)>,
    active: set<ToolId>,
    completed: set<ToolId>,
    outputBytes: nat,
    outputChars: nat,
    argumentBytes: nat,
    argumentChars: nat,
    eventCount: nat,
    emitted: seq<ChatEvent>)

  const Initial := Accumulator([], [], map[], [], {}, {}, 0, 0, 0, 0, 0, [])

  function Chars(s: seq<byte>): nat {
    if s == [] then 0 else Chars(s[1..]) + if Utf8.Continuation(s[0]) then 0 else 1
  }

  ghost predicate Reflects(credential: seq<byte>, value: seq<byte>) {
    credential != [] && Occurs(credential, value)
  }

  ghost function Filter(credential: seq<byte>, pending: seq<byte>, fragment: seq<byte>): Option<Release> {
    if credential == [] then Some(Release(fragment, pending)) else Push(credential, pending, fragment)
  }

  function TrackOutput(acc: Accumulator, delta: seq<byte>): Option<Accumulator> {
    var bytes, chars := acc.outputBytes + |delta|, acc.outputChars + Chars(delta);
    if bytes > MAX_OUTPUT_BYTES || chars > MAX_OUTPUT_CHARS then None
    else Some(acc.(outputBytes := bytes, outputChars := chars))
  }

  function TrackArguments(acc: Accumulator, delta: seq<byte>): Option<Accumulator> {
    var bytes, chars := acc.argumentBytes + |delta|, acc.argumentChars + Chars(delta);
    if bytes > MAX_ARGUMENT_BYTES || chars > MAX_ARGUMENT_CHARS then None
    else Some(acc.(argumentBytes := bytes, argumentChars := chars))
  }

  function Emit(acc: Accumulator, channel: Channel, delta: seq<byte>, always: bool): Accumulator {
    if delta != [] || always then acc.(emitted := acc.emitted + [Delta(channel, delta)]) else acc
  }

  ghost function ForwardText(credential: seq<byte>, acc: Accumulator, delta: seq<byte>): Option<Accumulator> {
    var tracked := TrackOutput(acc, delta);
    var filtered := Filter(credential, acc.text, delta);
    if tracked.None? || filtered.None? then None
    else Some(Emit(tracked.value.(text := filtered.value.pending), Text, filtered.value.out, credential == []))
  }

  ghost function ForwardReasoning(credential: seq<byte>, acc: Accumulator, delta: seq<byte>): Option<Accumulator> {
    var tracked := TrackOutput(acc, delta);
    var filtered := Filter(credential, acc.reasoning, delta);
    if tracked.None? || filtered.None? then None
    else Some(Emit(tracked.value.(reasoning := filtered.value.pending), Reasoning, filtered.value.out, credential == []))
  }

  ghost function ForwardToolStart(credential: seq<byte>, acc: Accumulator, id: ToolId, name: seq<byte>): Option<Accumulator> {
    if Reflects(credential, id) || Reflects(credential, name) then None
    else if |acc.active| + |acc.completed| >= MAX_TOOL_CALLS then None
    else if id in acc.active || id in acc.completed then None
    else Some(acc.(active := acc.active + {id}, tools := acc.tools[id := []],
                   emitted := acc.emitted + [Started(id, name)]))
  }

  ghost function ForwardToolArguments(credential: seq<byte>, acc: Accumulator, id: ToolId, delta: seq<byte>): Option<Accumulator> {
    if Reflects(credential, id) || id !in acc.active then None else
      var tracked := TrackArguments(acc, delta);
      if tracked.None? || id !in acc.tools then None else
        var filtered := Filter(credential, acc.tools[id], delta);
        if filtered.None? then None
        else Some(Emit(tracked.value.(tools := acc.tools[id := filtered.value.pending]),
                       Arguments(id), filtered.value.out, false))
  }

  ghost function CompleteToolCall(credential: seq<byte>, acc: Accumulator, id: ToolId): Option<Accumulator> {
    if Reflects(credential, id) || id !in acc.active || id !in acc.tools then None
    else Some(acc.(active := acc.active - {id}, tools := acc.tools - {id},
                   completed := acc.completed + {id}, finishing := acc.finishing + [(id, acc.tools[id])]))
  }

  ghost function Dispatch(credential: seq<byte>, acc: Accumulator, event: ProviderEvent): Option<Accumulator> {
    match event
    case TextDelta(delta) => ForwardText(credential, acc, delta)
    case ReasoningDelta(delta) => ForwardReasoning(credential, acc, delta)
    case ToolCallStarted(id, name) => ForwardToolStart(credential, acc, id, name)
    case ToolCallArguments(id, delta) => ForwardToolArguments(credential, acc, id, delta)
    case ToolCallCompleted(id) => CompleteToolCall(credential, acc, id)
  }

  /** One provider event; `None` is an error, after which nothing more is emitted. */
  ghost function Forward(credential: seq<byte>, before: Accumulator, event: ProviderEvent): Option<Accumulator> {
    if before.eventCount + 1 > MAX_PROVIDER_EVENTS then None
    else Dispatch(credential, Counted(before), event)
  }

  ghost function Run(credential: seq<byte>, events: seq<ProviderEvent>): Option<Accumulator> {
    if events == [] then Some(Initial)
    else
      var before := Run(credential, events[..|events| - 1]);
      if before.None? then None else Forward(credential, before.value, events[|events| - 1])
  }

  /** Every chat event emitted while `events` arrive; an event that fails, and any after it, emits nothing. */
  ghost function Log(credential: seq<byte>, events: seq<ProviderEvent>): seq<ChatEvent> {
    var reached := Run(credential, events);
    if reached.Some? then reached.value.emitted
    else if events == [] then []
    else Log(credential, events[..|events| - 1])
  }

  ghost function FinishTools(finishing: Finishing, emitted: seq<ChatEvent>): seq<ChatEvent> {
    if finishing == [] then emitted
    else
      var (id, rest) := finishing[|finishing| - 1];
      FinishOne(FinishTools(finishing[..|finishing| - 1], emitted), id, rest)
  }

  /** The whole generation: `None` on any error, otherwise every chat event emitted. */
  ghost function Generate(credential: seq<byte>, events: seq<ProviderEvent>): Option<seq<ChatEvent>> {
    var last := Run(credential, events);
    if last.None? || last.value.active != {} then None
    else
      Some(FinishTools(Flushed(last.value).finishing, Flushed(last.value).emitted))
  }

  // ----- what is observable on each side

  /** The fragments the provider sent on one channel. */
  ghost function Fragments(events: seq<ProviderEvent>, c: Channel): seq<seq<byte>> {
    if events == [] then []
    else
      var rest := Fragments(events[..|events| - 1], c);
      var e := events[|events| - 1];
      if SentOn(e, c) then rest + [e.delta] else rest
  }

  /** The bytes a reader of one channel has seen. */
  ghost function Carried(log: seq<ChatEvent>, c: Channel): seq<byte> {
    if log == [] then []
    else
      var rest := Carried(log[..|log| - 1], c);
      var e := log[|log| - 1];
      if e.Delta? && e.channel == c then rest + e.delta else rest
  }

  datatype Calls = Calls(open: set<ToolId>, closed: set<ToolId>)

  /** Reference acceptor for the tool-call life cycle: start once, then arguments, then complete once. */
  ghost function Lifecycle(log: seq<ChatEvent>): Option<Calls> {
    if log == [] then Some(Calls({}, {}))
    else
      var before := Lifecycle(log[..|log| - 1]);
      if before.None? then None else
        var Calls(open, closed) := before.value;
        match log[|log| - 1]
        case Started(id, _) => if id in open || id in closed then None else Some(Calls(open + {id}, closed))
        case Completed(id) => if id in open then Some(Calls(open - {id}, closed + {id})) else None
        case Delta(c, _) => if c.Arguments? && c.id !in open then None else before
  }

  // ----- invariant of every reachable accumulator

  type Finishing = seq<(ToolId, seq<byte>)>

  ghost function Ids(finishing: Finishing): set<ToolId> {
    if finishing == [] then {} else Ids(finishing[..|finishing| - 1]) + {finishing[|finishing| - 1].0}
  }

  ghost predicate OncePerCall(finishing: Finishing) {
    finishing == [] ||
    (var shorter := finishing[..|finishing| - 1];
     OncePerCall(shorter) && finishing[|finishing| - 1].0 !in Ids(shorter))
  }

  ghost function Parked(finishing: Finishing, id: ToolId): seq<byte> {
    if finishing == [] then []
    else
      var (last, rest) := finishing[|finishing| - 1];
      var before := Parked(finishing[..|finishing| - 1], id);
      if last == id then before + rest else before
  }

  ghost function Pending(acc: Accumulator, c: Channel): seq<byte> {
    match c
    case Text => acc.text
    case Reasoning => acc.reasoning
    case Arguments(id) => if id in acc.tools then acc.tools[id] else Parked(acc.finishing, id)
  }

  ghost predicate ChannelInv(credential: seq<byte>, fragments: seq<seq<byte>>, out: seq<byte>, pending: seq<byte>) {
    if credential == [] then out == Concat(fragments) && pending == []
    else Feed(credential, [], fragments) == Some(Release(out, pending))
  }

  ghost predicate OpenExactly(log: seq<ChatEvent>, open: set<ToolId>) {
    Lifecycle(log) == Some(Calls(open, {}))
  }

  ghost predicate ToolsInv(acc: Accumulator) {
    && acc.tools.Keys == acc.active
    && acc.active !! acc.completed
    && Ids(acc.finishing) == acc.completed
    && OncePerCall(acc.finishing)
    && OpenExactly(acc.emitted, acc.active + acc.completed)
  }

  lemma FilterKeepsChannel(credential: seq<byte>, fragments: seq<seq<byte>>, out: seq<byte>, pending: seq<byte>, delta: seq<byte>)
    requires ChannelInv(credential, fragments, out, pending)
    requires Filter(credential, pending, delta).Some?
    ensures var r := Filter(credential, pending, delta).value;
            ChannelInv(credential, fragments + [delta], out + r.out, r.pending)
  {
    var longer := fragments + [delta];
    assert longer[..|longer| - 1] == fragments;
  }

  lemma CarriedAppend(log: seq<ChatEvent>, e: ChatEvent, c: Channel)
    ensures Carried(log + [e], c) == if e.Delta? && e.channel == c then Carried(log, c) + e.delta else Carried(log, c)
  {
    assert (log + [e])[..|log + [e]| - 1] == log;
  }

  lemma LifecycleAppend(log: seq<ChatEvent>, e: ChatEvent)
    requires Lifecycle(log).Some?
    ensures Lifecycle(log + [e]) ==
            var Calls(open, closed) := Lifecycle(log).value;
            match e
            case Started(id, _) => if id in open || id in closed then None else Some(Calls(open + {id}, closed))
            case Completed(id) => if id in open then Some(Calls(open - {id}, closed + {id})) else None
            case Delta(c, _) => if c.Arguments? && c.id !in open then None else Lifecycle(log)
  {
    assert (log + [e])[..|log + [e]| - 1] == log;
  }

  lemma EmitCarries(acc: Accumulator, channel: Channel, delta: seq<byte>, always: bool, c: Channel)
    ensures Carried(Emit(acc, channel, delta, always).emitted, c) ==
            if c == channel then Carried(acc.emitted, c) + delta else Carried(acc.emitted, c)
  {
    CarriedAppend(acc.emitted, Delta(channel, delta), c);
  }

  lemma EmitLifecycle(acc: Accumulator, channel: Channel, delta: seq<byte>, always: bool)
    requires Lifecycle(acc.emitted).Some?
    requires channel.Arguments? ==> channel.id in Lifecycle(acc.emitted).value.open
    ensures Lifecycle(Emit(acc, channel, delta, always).emitted) == Lifecycle(acc.emitted)
  {
    LifecycleAppend(acc.emitted, Delta(channel, delta));
  }

  lemma {:induction false} ParkedUnknown(finishing: Finishing, id: ToolId)
    requires id !in Ids(finishing)
    ensures Parked(finishing, id) == []
  {
    if finishing != [] {
      ParkedUnknown(finishing[..|finishing| - 1], id);
    }
  }

  lemma Park(finishing: Finishing, id: ToolId, rest: seq<byte>)
    ensures Ids(finishing + [(id, rest)]) == Ids(finishing) + {id}
    ensures OncePerCall(finishing) && id !in Ids(finishing) ==> OncePerCall(finishing + [(id, rest)])
  {
    var longer := finishing + [(id, rest)];
    assert longer[..|longer| - 1] == finishing;
  }

  lemma ParkedAfter(finishing: Finishing, id: ToolId, rest: seq<byte>, x: ToolId)
    ensures Parked(finishing + [(id, rest)], x) == if x == id then Parked(finishing, x) + rest else Parked(finishing, x)
  {
    var longer := finishing + [(id, rest)];
    assert longer[..|longer| - 1] == finishing;
  }

  // Each kind of event keeps the tool-call bookkeeping.

  /** Only the calls, the parked streams and the log matter to the bookkeeping of calls. */
  lemma SameCalls(acc: Accumulator, next: Accumulator)
    requires ToolsInv(acc) && next.tools.Keys == acc.tools.Keys && next.active == acc.active
    requires next.completed == acc.completed && next.finishing == acc.finishing
    requires Lifecycle(next.emitted) == Lifecycle(acc.emitted)
    ensures ToolsInv(next)
  {
  }

  lemma TextKeepsTools(credential: seq<byte>, acc: Accumulator, delta: seq<byte>)
    requires ToolsInv(acc) && ForwardText(credential, acc, delta).Some?
    ensures ToolsInv(ForwardText(credential, acc, delta).value)
  {
    EmitLifecycle(acc, Text, Filter(credential, acc.text, delta).value.out, credential == []);
    SameCalls(acc, ForwardText(credential, acc, delta).value);
  }

  lemma ReasoningKeepsTools(credential: seq<byte>, acc: Accumulator, delta: seq<byte>)
    requires ToolsInv(acc) && ForwardReasoning(credential, acc, delta).Some?
    ensures ToolsInv(ForwardReasoning(credential, acc, delta).value)
  {
    EmitLifecycle(acc, Reasoning, Filter(credential, acc.reasoning, delta).value.out, credential == []);
    SameCalls(acc, ForwardReasoning(credential, acc, delta).value);
  }

  lemma StartKeepsLifecycle(log: seq<ChatEvent>, open: set<ToolId>, id: ToolId, name: seq<byte>)
    requires OpenExactly(log, open) && id !in open
    ensures OpenExactly(log + [Started(id, name)], open + {id})
  {
    LifecycleAppend(log, Started(id, name));
  }

  lemma StartKeepsTools(credential: seq<byte>, acc: Accumulator, id: ToolId, name: seq<byte>)
    requires ToolsInv(acc) && ForwardToolStart(credential, acc, id, name).Some?
    ensures ToolsInv(ForwardToolStart(credential, acc, id, name).value)
  {
    var next := ForwardToolStart(credential, acc, id, name).value;
    StartedState(acc, id, name, next);
    StartKeepsLifecycle(acc.emitted, acc.active + acc.completed, id, name);
  }

  lemma StartedState(acc: Accumulator, id: ToolId, name: seq<byte>, next: Accumulator)
    requires acc.tools.Keys == acc.active && acc.active !! acc.completed && id !in acc.active + acc.completed
    requires next == acc.(active := acc.active + {id}, tools := acc.tools[id := []],
                          emitted := acc.emitted + [Started(id, name)])
    ensures next.tools.Keys == next.active && next.active !! next.completed
    ensures next.active + next.completed == acc.active + acc.completed + {id}
  {
  }

  lemma ArgumentsKeepTools(credential: seq<byte>, acc: Accumulator, id: ToolId, delta: seq<byte>)
    requires ToolsInv(acc) && ForwardToolArguments(credential, acc, id, delta).Some?
    ensures ToolsInv(ForwardToolArguments(credential, acc, id, delta).value)
  {
    EmitLifecycle(acc, Arguments(id), Filter(credential, acc.tools[id], delta).value.out, false);
    SameCalls(acc, ForwardToolArguments(credential, acc, id, delta).value);
  }

  lemma CompletedState(acc: Accumulator, id: ToolId, next: Accumulator)
    requires ToolsInv(acc) && id in acc.active
    requires next.active == acc.active - {id} && next.tools == acc.tools - {id} && next.completed == acc.completed + {id}
    requires Ids(next.finishing) == Ids(acc.finishing) + {id} && OncePerCall(next.finishing) && next.emitted == acc.emitted
    ensures ToolsInv(next)
  {
    assert next.active + next.completed == acc.active + acc.completed;
  }

  lemma CompletionKeepsTools(credential: seq<byte>, acc: Accumulator, id: ToolId)
    requires ToolsInv(acc) && CompleteToolCall(credential, acc, id).Some?
    ensures ToolsInv(CompleteToolCall(credential, acc, id).value)
  {
    Park(acc.finishing, id, acc.tools[id]);
    CompletedState(acc, id, CompleteToolCall(credential, acc, id).value);
  }

  lemma DispatchKeepsTools(credential: seq<byte>, acc: Accumulator, event: ProviderEvent)
    requires ToolsInv(acc) && Dispatch(credential, acc, event).Some?
    ensures ToolsInv(Dispatch(credential, acc, event).value)
  {
    match event {
      case TextDelta(delta) =>
        assert Dispatch(credential, acc, event) == ForwardText(credential, acc, delta);
        TextKeepsTools(credential, acc, delta);
      case ReasoningDelta(delta) =>
        assert Dispatch(credential, acc, event) == ForwardReasoning(credential, acc, delta);
        ReasoningKeepsTools(credential, acc, delta);
      case ToolCallStarted(id, name) =>
        assert Dispatch(credential, acc, event) == ForwardToolStart(credential, acc, id, name);
        StartKeepsTools(credential, acc, id, name);
      case ToolCallArguments(id, delta) =>
        assert Dispatch(credential, acc, event) == ForwardToolArguments(credential, acc, id, delta);
        ArgumentsKeepTools(credential, acc, id, delta);
      case ToolCallCompleted(id) =>
        assert Dispatch(credential, acc, event) == CompleteToolCall(credential, acc, id);
        CompletionKeepsTools(credential, acc, id);
    }
  }

  // Each kind of event keeps every channel: its own by one push, the others untouched.

  ghost predicate OnChannel(credential: seq<byte>, fragments: seq<seq<byte>>, acc: Accumulator, c: Channel) {
    ChannelInv(credential, fragments, Carried(acc.emitted, c), Pending(acc, c))
  }

  lemma TextKeepsChannel(credential: seq<byte>, fragments: seq<seq<byte>>, acc: Accumulator, delta: seq<byte>, c: Channel)
    requires OnChannel(credential, fragments, acc, c) && ForwardText(credential, acc, delta).Some?
    ensures OnChannel(credential, if c == Text then fragments + [delta] else fragments,
                      ForwardText(credential, acc, delta).value, c)
  {
    EmitCarries(acc, Text, Filter(credential, acc.text, delta).value.out, credential == [], c);
    if c == Text {
      FilterKeepsChannel(credential, fragments, Carried(acc.emitted, c), acc.text, delta);
    }
  }

  lemma ReasoningKeepsChannel(credential: seq<byte>, fragments: seq<seq<byte>>, acc: Accumulator, delta: seq<byte>, c: Channel)
    requires OnChannel(credential, fragments, acc, c) && ForwardReasoning(credential, acc, delta).Some?
    ensures OnChannel(credential, if c == Reasoning then fragments + [delta] else fragments,
                      ForwardReasoning(credential, acc, delta).value, c)
  {
    EmitCarries(acc, Reasoning, Filter(credential, acc.reasoning, delta).value.out, credential == [], c);
    if c == Reasoning {
      FilterKeepsChannel(credential, fragments, Carried(acc.emitted, c), acc.reasoning, delta);
    }
  }

  lemma ArgumentsKeepChannel(credential: seq<byte>, fragments: seq<seq<byte>>, acc: Accumulator, id: ToolId, delta: seq<byte>, c: Channel)
    requires OnChannel(credential, fragments, acc, c) && ForwardToolArguments(credential, acc, id, delta).Some?
    ensures OnChannel(credential, if c == Arguments(id) then fragments + [delta] else fragments,
                      ForwardToolArguments(credential, acc, id, delta).value, c)
  {
    EmitCarries(acc, Arguments(id), Filter(credential, acc.tools[id], delta).value.out, false, c);
    if c == Arguments(id) {
      FilterKeepsChannel(credential, fragments, Carried(acc.emitted, c), acc.tools[id], delta);
    }
  }

  lemma StartKeepsChannel(credential: seq<byte>, fragments: seq<seq<byte>>, acc: Accumulator, id: ToolId, name: seq<byte>, c: Channel)
    requires ToolsInv(acc) && OnChannel(credential, fragments, acc, c)
    requires ForwardToolStart(credential, acc, id, name).Some?
    ensures OnChannel(credential, fragments, ForwardToolStart(credential, acc, id, name).value, c)
  {
    CarriedAppend(acc.emitted, Started(id, name), c);
    ParkedUnknown(acc.finishing, id);
  }

  lemma CompletionKeepsPending(credential: seq<byte>, acc: Accumulator, id: ToolId, c: Channel)
    requires ToolsInv(acc) && CompleteToolCall(credential, acc, id).Some?
    ensures Pending(CompleteToolCall(credential, acc, id).value, c) == Pending(acc, c)
  {
    if c.Arguments? {
      ParkedAfter(acc.finishing, id, acc.tools[id], c.id);
      if c.id == id {
        ParkedUnknown(acc.finishing, id);
        assert [] + acc.tools[id] == acc.tools[id];
      }
    }
  }

  lemma CompletionKeepsChannel(credential: seq<byte>, fragments: seq<seq<byte>>, acc: Accumulator, id: ToolId, c: Channel)
    requires ToolsInv(acc) && OnChannel(credential, fragments, acc, c)
    requires CompleteToolCall(credential, acc, id).Some?
    ensures OnChannel(credential, fragments, CompleteToolCall(credential, acc, id).value, c)
  {
    CompletionKeepsPending(credential, acc, id, c);
  }

  predicate SentOn(event: ProviderEvent, c: Channel) {
    match event
    case TextDelta(_) => c == Text
    case ReasoningDelta(_) => c == Reasoning
    case ToolCallArguments(id, _) => c == Arguments(id)
    case _ => false
  }

  lemma DispatchKeepsChannel(credential: seq<byte>, fragments: seq<seq<byte>>, acc: Accumulator, event: ProviderEvent, c: Channel)
    requires ToolsInv(acc) && OnChannel(credential, fragments, acc, c)
    requires Dispatch(credential, acc, event).Some?
    ensures OnChannel(credential, if SentOn(event, c) then fragments + [event.delta] else fragments,
                      Dispatch(credential, acc, event).value, c)
  {
    match event {
      case TextDelta(delta) =>
        assert Dispatch(credential, acc, event) == ForwardText(credential, acc, delta);
        TextKeepsChannel(credential, fragments, acc, delta, c);
      case ReasoningDelta(delta) =>
        assert Dispatch(credential, acc, event) == ForwardReasoning(credential, acc, delta);
        ReasoningKeepsChannel(credential, fragments, acc, delta, c);
      case ToolCallStarted(id, name) =>
        assert Dispatch(credential, acc, event) == ForwardToolStart(credential, acc, id, name);
        StartKeepsChannel(credential, fragments, acc, id, name, c);
      case ToolCallArguments(id, delta) =>
        assert Dispatch(credential, acc, event) == ForwardToolArguments(credential, acc, id, delta);
        ArgumentsKeepChannel(credential, fragments, acc, id, delta, c);
      case ToolCallCompleted(id) =>
        assert Dispatch(credential, acc, event) == CompleteToolCall(credential, acc, id);
        CompletionKeepsChannel(credential, fragments, acc, id, c);
    }
  }

  /** The event counter belongs to neither invariant. */
  function Counted(acc: Accumulator): Accumulator {
    acc.(eventCount := acc.eventCount + 1)
  }

  lemma {:induction false} RunKeepsTools(credential: seq<byte>, events: seq<ProviderEvent>)
    requires Run(credential, events).Some?
    ensures ToolsInv(Run(credential, events).value)
  {
    if events == [] {
      var none: set<ToolId> := {};
      assert none + none == none;
    } else {
      var before := Run(credential, events[..|events| - 1]).value;
      RunKeepsTools(credential, events[..|events| - 1]);
      assert ToolsInv(Counted(before));
      DispatchKeepsTools(credential, Counted(before), events[|events| - 1]);
    }
  }

  lemma {:induction false} RunKeepsChannel(credential: seq<byte>, events: seq<ProviderEvent>, c: Channel)
    requires Run(credential, events).Some?
    ensures OnChannel(credential, Fragments(events, c), Run(credential, events).value, c)
  {
    if events == [] {
      assert Concat([]) == [];
    } else {
      var shorter, event := events[..|events| - 1], events[|events| - 1];
      var before := Run(credential, shorter).value;
      RunKeepsTools(credential, shorter);
      RunKeepsChannel(credential, shorter, c);
      assert ToolsInv(Counted(before)) && OnChannel(credential, Fragments(shorter, c), Counted(before), c);
      DispatchKeepsChannel(credential, Fragments(shorter, c), Counted(before), event, c);
    }
  }

  // ----- theorems

  lemma FragmentsAppend(events: seq<ProviderEvent>, e: ProviderEvent, c: Channel)
    ensures Fragments(events + [e], c) == if SentOn(e, c) then Fragments(events, c) + [e.delta] else Fragments(events, c)
  {
    assert (events + [e])[..|events + [e]| - 1] == events;
  }

  lemma ConcatAppend(fragments: seq<seq<byte>>, more: seq<byte>)
    ensures Concat(fragments + [more]) == Concat(fragments) + more
  {
    assert (fragments + [more])[..|fragments + [more]| - 1] == fragments;
  }

  /** Whatever arrives later on a channel follows what has been sent there. */
  lemma SentGrows(events: seq<ProviderEvent>, e: ProviderEvent, c: Channel)
    ensures Concat(Fragments(events + [e], c)) == Concat(Fragments(events, c)) + if SentOn(e, c) then e.delta else []
  {
    FragmentsAppend(events, e, c);
    if SentOn(e, c) {
      ConcatAppend(Fragments(events, c), e.delta);
    }
  }

  /** `seen` starts `sent`, and ends before every credential in it. */
  ghost predicate Unrevealing(credential: seq<byte>, seen: seq<byte>, sent: seq<byte>) {
    && seen <= sent
    && !Occurs(credential, seen)
    && forall i: nat :: OccursAt(credential, sent, i) ==> |seen| <= i
  }

  lemma GoodRunReveals(credential: seq<byte>, events: seq<ProviderEvent>, c: Channel, more: seq<byte>)
    requires credential != [] && Run(credential, events).Some?
    ensures Unrevealing(credential, Carried(Run(credential, events).value.emitted, c), Concat(Fragments(events, c)) + more)
  {
    RunKeepsChannel(credential, events, c);
    var fragments := Fragments(events, c);
    GuardedStream(credential, fragments);
    forall i: nat | OccursAt(credential, Concat(fragments) + more, i)
      ensures |Feed(credential, [], fragments).value.out| <= i
    {
      NothingOfTheCredentialEscapes(credential, fragments, more, i);
    }
  }

  lemma LastEventSent(events: seq<ProviderEvent>, c: Channel, more: seq<byte>) returns (tail: seq<byte>)
    requires events != []
    ensures Concat(Fragments(events[..|events| - 1], c)) + tail == Concat(Fragments(events, c)) + more
  {
    var shorter, e := events[..|events| - 1], events[|events| - 1];
    var sent := if SentOn(e, c) then e.delta else [];
    assert events == shorter + [e];
    SentGrows(shorter, e, c);
    tail := sent + more;
  }

  lemma {:induction false} LogReveals(credential: seq<byte>, events: seq<ProviderEvent>, c: Channel, more: seq<byte>)
    requires credential != []
    ensures Unrevealing(credential, Carried(Log(credential, events), c), Concat(Fragments(events, c)) + more)
  {
    if Run(credential, events).Some? {
      GoodRunReveals(credential, events, c, more);
    } else {
      var tail := LastEventSent(events, c, more);
      LogReveals(credential, events[..|events| - 1], c, tail);
    }
  }

  /**
   At every moment of every run, failed, cancelled or not, a reader of any channel has seen a
   prefix of what the provider sent there, which stops short of the first byte of every credential
   in it.
   */
  lemma NoChannelLeaks(credential: seq<byte>, events: seq<ProviderEvent>, c: Channel)
    requires credential != []
    ensures Unrevealing(credential, Carried(Log(credential, events), c), Concat(Fragments(events, c)))
  {
    LogReveals(credential, events, c, []);
    assert Concat(Fragments(events, c)) + [] == Concat(Fragments(events, c));
  }

  /** The two "argument stream was unavailable" errors are unreachable. */
  lemma ToolStreamsAlwaysAvailable(credential: seq<byte>, events: seq<ProviderEvent>, id: ToolId)
    requires Run(credential, events).Some?
    ensures id in Run(credential, events).value.active <==> id in Run(credential, events).value.tools
  {
    RunKeepsTools(credential, events);
  }

  ghost function FinishOne(log: seq<ChatEvent>, id: ToolId, rest: seq<byte>): seq<ChatEvent> {
    (if rest != [] then log + [Delta(Arguments(id), rest)] else log) + [Completed(id)]
  }

  lemma FinishOneCarries(log: seq<ChatEvent>, id: ToolId, rest: seq<byte>, c: Channel)
    ensures Carried(FinishOne(log, id, rest), c) ==
            if c == Arguments(id) then Carried(log, c) + rest else Carried(log, c)
  {
    var middle := log + [Delta(Arguments(id), rest)];
    CarriedAppend(log, Delta(Arguments(id), rest), c);
    CarriedAppend(middle, Completed(id), c);
    CarriedAppend(log, Completed(id), c);
  }

  lemma FinishOneCloses(log: seq<ChatEvent>, id: ToolId, rest: seq<byte>, open: set<ToolId>, closed: set<ToolId>)
    requires Lifecycle(log) == Some(Calls(open, closed)) && id in open
    ensures Lifecycle(FinishOne(log, id, rest)) == Some(Calls(open - {id}, closed + {id}))
  {
    var middle := log + [Delta(Arguments(id), rest)];
    LifecycleAppend(log, Delta(Arguments(id), rest));
    LifecycleAppend(middle, Completed(id));
    LifecycleAppend(log, Completed(id));
  }

  lemma {:induction false} FinishToolsCarries(finishing: Finishing, emitted: seq<ChatEvent>, c: Channel)
    ensures Carried(FinishTools(finishing, emitted), c) ==
            if c.Arguments? then Carried(emitted, c) + Parked(finishing, c.id) else Carried(emitted, c)
  {
    if finishing != [] {
      var (id, rest) := finishing[|finishing| - 1];
      var shorter := finishing[..|finishing| - 1];
      FinishToolsCarries(shorter, emitted, c);
      FinishOneCarries(FinishTools(shorter, emitted), id, rest, c);
    }
  }

  lemma {:induction false} FinishToolsCloses(finishing: Finishing, emitted: seq<ChatEvent>, open: set<ToolId>)
    requires Lifecycle(emitted) == Some(Calls(open, {})) && Ids(finishing) <= open
    requires OncePerCall(finishing)
    ensures Lifecycle(FinishTools(finishing, emitted)) == Some(Calls(open - Ids(finishing), Ids(finishing)))
  {
    if finishing == [] {
      assert Ids(finishing) == {};
      assert open - {} == open;
    } else {
      var (id, rest) := finishing[|finishing| - 1];
      var shorter := finishing[..|finishing| - 1];
      FinishToolsCloses(shorter, emitted, open);
      FinishOneCloses(FinishTools(shorter, emitted), id, rest, open - Ids(shorter), Ids(shorter));
      assert open - Ids(shorter) - {id} == open - Ids(finishing);
    }
  }

  /** The accumulator after `finish_public_streams` has flushed text and reasoning. */
  ghost function Flushed(last: Accumulator): Accumulator {
    Emit(Emit(last, Text, last.text, false), Reasoning, last.reasoning, false)
  }

  lemma FlushCarries(last: Accumulator, c: Channel)
    ensures Carried(Flushed(last).emitted, c) ==
            Carried(last.emitted, c) + if c.Arguments? then [] else Pending(last, c)
    ensures Flushed(last).finishing == last.finishing
  {
    var acc := Emit(last, Text, last.text, false);
    EmitCarries(last, Text, last.text, false, c);
    EmitCarries(acc, Reasoning, last.reasoning, false, c);
  }

  /** What a channel has withheld by the end of a run is delivered by its finish. */
  lemma FinishDeliversPending(last: Accumulator, c: Channel)
    requires ToolsInv(last) && last.active == {}
    ensures Carried(FinishTools(Flushed(last).finishing, Flushed(last).emitted), c) ==
            Carried(last.emitted, c) + Pending(last, c)
  {
    FlushCarries(last, c);
    FinishToolsCarries(last.finishing, Flushed(last).emitted, c);
  }

  /**
   A generation that succeeds delivers every byte the provider sent on every channel, in order
   and exactly once, however it was fragmented; none of it holds the credential.
   */
  lemma GenerationConserves(credential: seq<byte>, events: seq<ProviderEvent>, c: Channel)
    requires Generate(credential, events).Some?
    ensures Carried(Generate(credential, events).value, c) == Concat(Fragments(events, c))
    ensures credential != [] ==> !Occurs(credential, Carried(Generate(credential, events).value, c))
  {
    RunKeepsTools(credential, events);
    RunKeepsChannel(credential, events, c);
    FinishDeliversPending(Run(credential, events).value, c);
    if credential != [] {
      GuardedStream(credential, Fragments(events, c));
    }
  }

  /** A generation that succeeds has started, fed and completed each of its tool calls once, in that order. */
  lemma GenerationClosesToolCalls(credential: seq<byte>, events: seq<ProviderEvent>)
    requires Generate(credential, events).Some?
    ensures Lifecycle(Generate(credential, events).value) ==
            Some(Calls({}, Run(credential, events).value.completed))
  {
    var last := Run(credential, events).value;
    RunKeepsTools(credential, events);
    FlushKeepsLifecycle(last);
    assert last.active + last.completed == last.completed;
    FinishToolsCloses(last.finishing, Flushed(last).emitted, last.completed);
    assert last.completed - last.completed == {};
  }

  lemma FlushKeepsLifecycle(last: Accumulator)
    requires Lifecycle(last.emitted).Some?
    ensures Lifecycle(Flushed(last).emitted) == Lifecycle(last.emitted) && Flushed(last).finishing == last.finishing
  {
    var acc := Emit(last, Text, last.text, false);
    EmitLifecycle(last, Text, last.text, false);
    EmitLifecycle(acc, Reasoning, last.reasoning, false);
  }
}
