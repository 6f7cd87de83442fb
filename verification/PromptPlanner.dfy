/** Planning a generation request: a newest-first selection of history under four budgets, and its validator. */
module PromptPlanner {
  import opened Wrappers
  import Text

  const MAX_PROMPT_MESSAGES := 128
  const MAX_PROMPT_BYTES := 512 * 1024
  const MAX_PROMPT_CHARS := 128 * 1024
  const MAX_HISTORY_MESSAGE_BYTES := 256 * 1024
  const MAX_HISTORY_MESSAGE_CHARS := 64 * 1024
  const MAX_PROMPT_INPUT_MESSAGES := 4096
  const MAX_MODEL_ID_BYTES := 1024
  const MAX_MODEL_ID_CHARS := 256
  const MAX_HISTORY_MESSAGES := MAX_PROMPT_MESSAGES - 2

  datatype Role = System | User | Assistant

  datatype Message = Message(conversation: string, role: Role, content: string)

  datatype Temperature = Finite(value: real) | NaN | Infinite

  datatype Request = Request(
    conversation: string, model: string, messages: seq<Message>,
    temperature: Option<Temperature>, maxOutputTokens: Option<nat>)

  datatype Character = Character(name: string, description: string)

  datatype Mode = Chat | Story

  datatype PlanError =
    | InvalidModel | NonFiniteTemperature | ZeroOutputTokens
    | TooMuchHistory | ForeignMessage | ProfileNotEncodable
    | PromptLimit | HistoryMessageLimit | TooManyMessages | MisplacedSystemMessage

  /** The fixed texts, and the JSON encoder of the profile, which only fails by refusing. */
  datatype Wording = Wording(policy: string, profilePrefix: string, chat: string, story: string,
                             encodeProfile: (string, string) -> Option<string>)

  datatype StaticPrompt = StaticPrompt(system: Message, profile: Message)

  // ----- sizes

  function TotalBytes(messages: seq<Message>): nat {
    if messages == [] then 0 else Text.Bytes(messages[0].content) + TotalBytes(messages[1..])
  }

  function TotalChars(messages: seq<Message>): nat {
    if messages == [] then 0 else |messages[0].content| + TotalChars(messages[1..])
  }

  lemma {:induction false} TotalsOfParts(a: seq<Message>, b: seq<Message>)
    ensures TotalBytes(a + b) == TotalBytes(a) + TotalBytes(b)
    ensures TotalChars(a + b) == TotalChars(a) + TotalChars(b)
  {
    if a == [] {
      assert a + b == b;
    } else {
      TotalsOfParts(a[1..], b);
      assert (a + b)[1..] == a[1..] + b;
    }
  }

  lemma PairTotals(a: Message, b: Message)
    ensures TotalBytes([a, b]) == Text.Bytes(a.content) + Text.Bytes(b.content)
    ensures TotalChars([a, b]) == |a.content| + |b.content|
  {
    assert [a, b] == [a] + [b];
    TotalsOfParts([a], [b]);
    assert [a][1..] == [] && [b][1..] == [];
  }

  lemma {:induction false} TotalBytesBounded(messages: seq<Message>)
    ensures TotalBytes(messages) <= 4 * TotalChars(messages)
  {
    if messages != [] {
      Text.BytesBounds(messages[0].content);
      TotalBytesBounded(messages[1..]);
    }
  }

  predicate FitsPrompt(messages: seq<Message>) {
    TotalBytes(messages) <= MAX_PROMPT_BYTES && TotalChars(messages) <= MAX_PROMPT_CHARS
  }

  // ----- checks before the selection

  predicate ModelOk(model: string) {
    && Text.Trim(model) != "" && Text.Trim(model) == model
    && Text.Bytes(model) <= MAX_MODEL_ID_BYTES && |model| <= MAX_MODEL_ID_CHARS
    && !Text.HasControl(model)
  }

  function ControlsError(model: string, temperature: Option<Temperature>, maxOutputTokens: Option<nat>): Option<PlanError> {
    if !ModelOk(model) then Some(InvalidModel)
    else if temperature.Some? && !temperature.value.Finite? then Some(NonFiniteTemperature)
    else if maxOutputTokens == Some(0) then Some(ZeroOutputTokens)
    else None
  }

  function HistoryError(history: seq<Message>, conversation: string): Option<PlanError> {
    if |history| > MAX_PROMPT_INPUT_MESSAGES then Some(TooMuchHistory)
    else if exists m :: m in history && m.conversation != conversation then Some(ForeignMessage)
    else None
  }

  predicate ProfileInputOk(character: Character) {
    && Text.Bytes(character.name) + Text.Bytes(character.description) <= MAX_PROMPT_BYTES
    && |character.name| + |character.description| <= MAX_PROMPT_CHARS
  }

  function BuildStaticPrompt(wording: Wording, character: Character, conversation: string, mode: Mode): (r: Result<StaticPrompt, PlanError>)
    ensures r.Ok? ==>
              && r.value.system.role == System && r.value.profile.role == User
              && r.value.system.conversation == r.value.profile.conversation == conversation
              && FitsPrompt([r.value.system, r.value.profile])
  {
    if !ProfileInputOk(character) then Err(PromptLimit)
    else
      var instruction := if mode.Chat? then wording.chat else wording.story;
      var system := wording.policy + "\n\n" + instruction;
      var json := wording.encodeProfile(Text.Trim(character.name), Text.Trim(character.description));
      if json.None? then Err(ProfileNotEncodable)
      else
        var profile := wording.profilePrefix + json.value;
        if Text.Bytes(system) + Text.Bytes(profile) > MAX_PROMPT_BYTES || |system| + |profile| > MAX_PROMPT_CHARS
        then Err(PromptLimit)
        else
          var s, p := Message(conversation, System, system), Message(conversation, User, profile);
          PairTotals(s, p);
          Ok(StaticPrompt(s, p))
  }

  // ----- what the selection should be

  /** History without System messages, oldest first. */
  function Dialogue(history: seq<Message>): seq<Message> {
    if history == [] then []
    else if history[0].role == System then Dialogue(history[1..])
    else [history[0]] + Dialogue(history[1..])
  }

  predicate ItemOk(m: Message) {
    Text.Bytes(m.content) <= MAX_HISTORY_MESSAGE_BYTES && |m.content| <= MAX_HISTORY_MESSAGE_CHARS
  }

  /** `suffix` meets the message, item and aggregate budgets on top of the fixed messages. */
  ghost predicate Admissible(fixed: seq<Message>, suffix: seq<Message>) {
    && |suffix| <= MAX_HISTORY_MESSAGES
    && (forall m :: m in suffix ==> ItemOk(m))
    && FitsPrompt(fixed + suffix)
  }

  ghost function LongestSuffix(fixed: seq<Message>, dialogue: seq<Message>): seq<Message> {
    if dialogue == [] then []
    else
      var rest := LongestSuffix(fixed, dialogue[1..]);
      if rest == dialogue[1..] && Admissible(fixed, dialogue) then dialogue else rest
  }

  lemma {:induction false} LongestSuffixIsSuffix(fixed: seq<Message>, dialogue: seq<Message>)
    ensures var s := LongestSuffix(fixed, dialogue);
            |s| <= |dialogue| && s == dialogue[|dialogue| - |s|..]
  {
    if dialogue != [] {
      LongestSuffixIsSuffix(fixed, dialogue[1..]);
    }
  }

  lemma AdmissibleShrinks(fixed: seq<Message>, m: Message, suffix: seq<Message>)
    requires Admissible(fixed, [m] + suffix)
    ensures Admissible(fixed, suffix)
  {
    TotalsOfParts(fixed, [m] + suffix);
    TotalsOfParts([m], suffix);
    TotalsOfParts(fixed, suffix);
    assert forall x :: x in suffix ==> x in [m] + suffix;
  }

  lemma {:induction false} LongestSuffixIsAdmissible(fixed: seq<Message>, dialogue: seq<Message>)
    requires FitsPrompt(fixed)
    ensures Admissible(fixed, LongestSuffix(fixed, dialogue))
  {
    if dialogue == [] {
      assert fixed + [] == fixed;
    } else {
      LongestSuffixIsAdmissible(fixed, dialogue[1..]);
    }
  }

  lemma {:induction false} LongerSuffixFails(fixed: seq<Message>, dialogue: seq<Message>, k: nat)
    requires k + |LongestSuffix(fixed, dialogue)| < |dialogue|
    ensures !Admissible(fixed, dialogue[k..])
  {
    var m, newer := dialogue[0], dialogue[1..];
    assert dialogue == [m] + newer;
    LongestSuffixIsSuffix(fixed, newer);
    if k > 0 {
      assert dialogue[k..] == newer[k - 1..];
      LongerSuffixFails(fixed, newer, k - 1);
    } else {
      assert dialogue[0..] == dialogue;
      if LongestSuffix(fixed, newer) != newer {
        assert newer[0..] == newer;
        LongerSuffixFails(fixed, newer, 0);
        if Admissible(fixed, [m] + newer) {
          AdmissibleShrinks(fixed, m, newer);
        }
      }
    }
  }

  /** The definition above is the longest admissible suffix, and longer ones all fail. */
  lemma LongestSuffixIsLongest(fixed: seq<Message>, dialogue: seq<Message>)
    requires FitsPrompt(fixed)
    ensures Admissible(fixed, LongestSuffix(fixed, dialogue))
    ensures |LongestSuffix(fixed, dialogue)| <= |dialogue|
    ensures forall k :: 0 <= k < |dialogue| - |LongestSuffix(fixed, dialogue)| ==> !Admissible(fixed, dialogue[k..])
  {
    LongestSuffixIsAdmissible(fixed, dialogue);
    LongestSuffixIsSuffix(fixed, dialogue);
    forall k | 0 <= k < |dialogue| - |LongestSuffix(fixed, dialogue)|
      ensures !Admissible(fixed, dialogue[k..])
    {
      LongerSuffixFails(fixed, dialogue, k);
    }
  }

  lemma LongestStep(fixed: seq<Message>, m: Message, newer: seq<Message>)
    ensures LongestSuffix(fixed, [m] + newer) ==
            if LongestSuffix(fixed, newer) == newer && Admissible(fixed, [m] + newer) then [m] + newer
            else LongestSuffix(fixed, newer)
  {
    assert ([m] + newer)[1..] == newer;
  }

  lemma LongestSkips(fixed: seq<Message>, m: Message, newer: seq<Message>, suffix: seq<Message>)
    requires LongestSuffix(fixed, newer) == suffix && |suffix| < |newer|
    ensures LongestSuffix(fixed, [m] + newer) == suffix
  {
    LongestStep(fixed, m, newer);
  }

  /** Once a message does not fit on top of everything newer, nothing older is selected. */
  lemma {:induction false} SelectionStops(fixed: seq<Message>, older: seq<Message>, stuck: seq<Message>, newer: seq<Message>)
    requires LongestSuffix(fixed, stuck) == newer && |newer| < |stuck|
    ensures LongestSuffix(fixed, older + stuck) == newer
  {
    if older == [] {
      assert older + stuck == stuck;
    } else {
      SelectionStops(fixed, older[1..], stuck, newer);
      LongestSkips(fixed, older[0], older[1..] + stuck, newer);
      assert older + stuck == [older[0]] + (older[1..] + stuck);
    }
  }

  lemma DialogueStep(m: Message, history: seq<Message>)
    ensures Dialogue([m] + history) == if m.role == System then Dialogue(history) else [m] + Dialogue(history)
  {
    assert ([m] + history)[1..] == history;
  }

  lemma DialogueOfLongerParts(m: Message, a: seq<Message>, b: seq<Message>)
    requires Dialogue(a + b) == Dialogue(a) + Dialogue(b)
    ensures Dialogue([m] + (a + b)) == Dialogue([m] + a) + Dialogue(b)
  {
    DialogueStep(m, a + b);
    DialogueStep(m, a);
    PrependAssociates(m, Dialogue(a), Dialogue(b));
  }

  lemma PrependAssociates(m: Message, a: seq<Message>, b: seq<Message>)
    ensures [m] + (a + b) == ([m] + a) + b
  {
  }

  lemma {:induction false} DialogueOfParts(a: seq<Message>, b: seq<Message>)
    ensures Dialogue(a + b) == Dialogue(a) + Dialogue(b)
  {
    if a == [] {
      assert a + b == b;
    } else {
      var m, rest := a[0], a[1..];
      assert a == [m] + rest && a + b == [m] + (rest + b);
      DialogueOfParts(rest, b);
      DialogueOfLongerParts(m, rest, b);
    }
  }

  /** What the loop should return for a whole history. */
  ghost function Selection(fixed: seq<Message>, history: seq<Message>): Result<seq<Message>, PlanError> {
    var dialogue := Dialogue(history);
    var suffix := LongestSuffix(fixed, dialogue);
    if suffix == [] && dialogue != []
    then Err(if ItemOk(dialogue[|dialogue| - 1]) then PromptLimit else HistoryMessageLimit)
    else Ok(suffix)
  }

  function Reversed(s: seq<Message>): seq<Message> {
    if s == [] then [] else [s[|s| - 1]] + Reversed(s[..|s| - 1])
  }

  function CheckedAdd(a: nat, b: nat): Option<nat> {
    if a + b > U64_MAX then None else Some(a + b)
  }

  lemma DialogueAt(history: seq<Message>, i: nat)
    requires i < |history|
    ensures Dialogue(history[i..]) ==
            if history[i].role == System then Dialogue(history[i + 1..]) else [history[i]] + Dialogue(history[i + 1..])
  {
    assert history[i..][1..] == history[i + 1..];
  }

  lemma OneMoreFits(fixed: seq<Message>, m: Message, newer: seq<Message>)
    requires Admissible(fixed, newer)
    ensures Admissible(fixed, [m] + newer) <==>
            && |newer| < MAX_HISTORY_MESSAGES && ItemOk(m)
            && TotalBytes(fixed + newer) + Text.Bytes(m.content) <= MAX_PROMPT_BYTES
            && TotalChars(fixed + newer) + |m.content| <= MAX_PROMPT_CHARS
    ensures TotalBytes(fixed + ([m] + newer)) == TotalBytes(fixed + newer) + Text.Bytes(m.content)
    ensures TotalChars(fixed + ([m] + newer)) == TotalChars(fixed + newer) + |m.content|
  {
    TotalsOfParts(fixed, [m] + newer);
    TotalsOfParts([m], newer);
    TotalsOfParts(fixed, newer);
    assert TotalBytes([m]) == Text.Bytes(m.content) && TotalChars([m]) == |m.content|;
    assert m in [m] + newer;
    assert forall x :: x in [m] + newer <==> x == m || x in newer;
  }

  /** The refused message, with what had been selected, settles the outcome for the whole history. */
  lemma RefusalSettles(fixed: seq<Message>, history: seq<Message>, i: nat)
    requires i < |history| && history[i].role != System
    requires var newer := Dialogue(history[i + 1..]);
             LongestSuffix(fixed, newer) == newer && !Admissible(fixed, [history[i]] + newer)
    ensures var newer := Dialogue(history[i + 1..]);
            Selection(fixed, history) ==
            if newer == [] then Err(if ItemOk(history[i]) then PromptLimit else HistoryMessageLimit) else Ok(newer)
  {
    var newer := Dialogue(history[i + 1..]);
    DialogueAt(history, i);
    assert history == history[..i] + history[i..];
    DialogueOfParts(history[..i], history[i..]);
    LongestStep(fixed, history[i], newer);
    SelectionStops(fixed, Dialogue(history[..i]), [history[i]] + newer, newer);
    if newer == [] {
      assert Dialogue(history)[|Dialogue(history)| - 1] == history[i];
    }
  }

  /** Everything seen so far has been selected, and `bytes` and `chars` are the prompt's totals. */
  ghost predicate AllSelected(fixed: seq<Message>, newer: seq<Message>, bytes: nat, chars: nat) {
    && Admissible(fixed, newer) && LongestSuffix(fixed, newer) == newer
    && bytes == TotalBytes(fixed + newer) && chars == TotalChars(fixed + newer)
  }

  ghost predicate OneMore(newer: nat, m: Message, bytes: nat, chars: nat) {
    && newer < MAX_HISTORY_MESSAGES && ItemOk(m)
    && bytes + Text.Bytes(m.content) <= MAX_PROMPT_BYTES && chars + |m.content| <= MAX_PROMPT_CHARS
  }

  lemma BudgetsHold(fixed: seq<Message>, newer: seq<Message>, bytes: nat, chars: nat)
    requires AllSelected(fixed, newer, bytes, chars)
    ensures bytes <= MAX_PROMPT_BYTES && chars <= MAX_PROMPT_CHARS
  {
  }

  lemma MessageTaken(fixed: seq<Message>, m: Message, newer: seq<Message>, bytes: nat, chars: nat)
    requires AllSelected(fixed, newer, bytes, chars) && OneMore(|newer|, m, bytes, chars)
    ensures AllSelected(fixed, [m] + newer, bytes + Text.Bytes(m.content), chars + |m.content|)
  {
    OneMoreFits(fixed, m, newer);
    LongestStep(fixed, m, newer);
  }

  /** The value the loop returns at the first message that does not fit. */
  ghost function Stopped(m: Message, newer: seq<Message>): Result<seq<Message>, PlanError> {
    if newer == [] then Err(if ItemOk(m) then PromptLimit else HistoryMessageLimit) else Ok(newer)
  }

  lemma LoopStops(fixed: seq<Message>, history: seq<Message>, i: nat, newer: seq<Message>, bytes: nat, chars: nat)
    requires i < |history| && history[i].role != System && newer == Dialogue(history[i + 1..])
    requires AllSelected(fixed, newer, bytes, chars) && !OneMore(|newer|, history[i], bytes, chars)
    ensures Selection(fixed, history) == Stopped(history[i], newer)
  {
    OneMoreFits(fixed, history[i], newer);
    RefusalSettles(fixed, history, i);
  }

  lemma LoopFinishes(fixed: seq<Message>, history: seq<Message>, bytes: nat, chars: nat)
    requires AllSelected(fixed, Dialogue(history), bytes, chars)
    ensures Selection(fixed, history) == Ok(Dialogue(history))
  {
  }

  lemma ReversedGrows(s: seq<Message>, m: Message)
    ensures Reversed(s + [m]) == [m] + Reversed(s)
  {
    assert (s + [m])[..|s + [m]| - 1] == s;
  }

  lemma {:induction false} ReversedLength(s: seq<Message>)
    ensures |Reversed(s)| == |s|
  {
    if s != [] {
      ReversedLength(s[..|s| - 1]);
    }
  }

  /** The greedy loop of `plan_with_mode`, newest message first. */
  method SelectHistory(fixed: seq<Message>, history: seq<Message>) returns (r: Result<seq<Message>, PlanError>)
    requires FitsPrompt(fixed)
    ensures r == Selection(fixed, history)
  {
    var selected: seq<Message> := [];
    var totalBytes: nat, totalChars: nat := TotalBytes(fixed), TotalChars(fixed);
    var i := |history|;
    ghost var newer: seq<Message> := [];
    assert fixed + [] == fixed;
    while i > 0
      invariant 0 <= i <= |history| && newer == Dialogue(history[i..])
      invariant Reversed(selected) == newer
      invariant AllSelected(fixed, newer, totalBytes, totalChars)
    {
      i := i - 1;
      var message := history[i];
      DialogueAt(history, i);
      if message.role == System {
        continue;
      }
      ReversedLength(selected);
      BudgetsHold(fixed, newer, totalBytes, totalChars);
      if !OneMore(|newer|, message, totalBytes, totalChars) {
        LoopStops(fixed, history, i, newer, totalBytes, totalChars);
      }
      if |selected| == MAX_HISTORY_MESSAGES {
        return Ok(Reversed(selected));
      }
      var messageBytes, messageChars := Text.Bytes(message.content), |message.content|;
      if messageBytes > MAX_HISTORY_MESSAGE_BYTES || messageChars > MAX_HISTORY_MESSAGE_CHARS {
        if selected == [] {
          return Err(HistoryMessageLimit);
        }
        return Ok(Reversed(selected));
      }
      var nextBytes, nextChars := CheckedAdd(totalBytes, messageBytes), CheckedAdd(totalChars, messageChars);
      assert nextBytes.Some? && nextChars.Some?;  // neither addition can overflow
      if nextBytes.value > MAX_PROMPT_BYTES || nextChars.value > MAX_PROMPT_CHARS {
        if selected == [] {
          return Err(PromptLimit);
        }
        return Ok(Reversed(selected));
      }
      MessageTaken(fixed, message, newer, totalBytes, totalChars);
      totalBytes, totalChars := nextBytes.value, nextChars.value;
      ReversedGrows(selected, message);
      selected, newer := selected + [message], [message] + newer;
    }
    assert history[0..] == history;
    LoopFinishes(fixed, history, totalBytes, totalChars);
    return Ok(Reversed(selected));
  }

  // ----- the plan

  function Clamp(t: real): real {
    if t < 0.0 then 0.0 else if t > 2.0 then 2.0 else t
  }

  method PlanWithMode(wording: Wording, character: Character, conversation: string, mode: Mode, history: seq<Message>,
                      model: string, temperature: Temperature, maxOutputTokens: Option<nat>)
    returns (r: Result<Request, PlanError>)
    ensures r == Plan(wording, character, conversation, mode, history, model, temperature, maxOutputTokens)
  {
    var controls := ControlsError(model, Some(temperature), maxOutputTokens);
    if controls.Some? {
      return Err(controls.value);
    }
    var refused := HistoryError(history, conversation);
    if refused.Some? {
      return Err(refused.value);
    }
    var prompt := BuildStaticPrompt(wording, character, conversation, mode);
    if prompt.Err? {
      return Err(prompt.error);
    }
    var fixed := [prompt.value.system, prompt.value.profile];
    var selected := SelectHistory(fixed, history);
    if selected.Err? {
      return Err(selected.error);
    }
    return Ok(Request(conversation, model, fixed + selected.value, Some(Finite(Clamp(temperature.value))), maxOutputTokens));
  }

  ghost function Plan(wording: Wording, character: Character, conversation: string, mode: Mode, history: seq<Message>,
                      model: string, temperature: Temperature, maxOutputTokens: Option<nat>): Result<Request, PlanError> {
    var controls := ControlsError(model, Some(temperature), maxOutputTokens);
    var refused := HistoryError(history, conversation);
    var prompt := BuildStaticPrompt(wording, character, conversation, mode);
    if controls.Some? then Err(controls.value)
    else if refused.Some? then Err(refused.value)
    else if prompt.Err? then Err(prompt.error)
    else
      var fixed := [prompt.value.system, prompt.value.profile];
      Assembled(fixed, Selection(fixed, history), conversation, model, temperature.value, maxOutputTokens)
  }

  /** The request around a selection. */
  function Assembled(fixed: seq<Message>, selection: Result<seq<Message>, PlanError>, conversation: string, model: string,
                     temperature: real, maxOutputTokens: Option<nat>): Result<Request, PlanError> {
    match selection
    case Err(error) => Err(error)
    case Ok(selected) => Ok(Request(conversation, model, fixed + selected, Some(Finite(Clamp(temperature))), maxOutputTokens))
  }

  // ----- the validator

  ghost predicate ValidRequest(request: Request) {
    && ControlsError(request.model, request.temperature, request.maxOutputTokens).None?
    && |request.messages| <= MAX_PROMPT_MESSAGES
    && (forall i :: 0 <= i < |request.messages| ==> request.messages[i].conversation == request.conversation)
    && (forall i :: 0 < i < |request.messages| ==> request.messages[i].role != System)
    && FitsPrompt(request.messages)
  }

  /** What the validator knows after the first `n` messages. */
  ghost predicate PrefixValid(request: Request, n: nat)
    requires n <= |request.messages|
  {
    && (forall i :: 0 <= i < n ==> request.messages[i].conversation == request.conversation)
    && (forall i :: 0 < i < n ==> request.messages[i].role != System)
    && FitsPrompt(request.messages[..n])
  }

  lemma TotalsOfPrefix(messages: seq<Message>, i: nat)
    requires i < |messages|
    ensures TotalBytes(messages[..i + 1]) == TotalBytes(messages[..i]) + Text.Bytes(messages[i].content) <= TotalBytes(messages)
    ensures TotalChars(messages[..i + 1]) == TotalChars(messages[..i]) + |messages[i].content| <= TotalChars(messages)
  {
    assert messages[..i + 1] == messages[..i] + [messages[i]];
    assert messages == messages[..i + 1] + messages[i + 1..];
    TotalsOfParts(messages[..i], [messages[i]]);
    TotalsOfParts(messages[..i + 1], messages[i + 1..]);
    assert [messages[i]][1..] == [];
  }

  lemma PrefixStep(request: Request, n: nat)
    requires n < |request.messages| && PrefixValid(request, n)
    ensures var m := request.messages[n];
            PrefixValid(request, n + 1) <==>
            && m.conversation == request.conversation && (m.role == System ==> n == 0)
            && TotalBytes(request.messages[..n]) + Text.Bytes(m.content) <= MAX_PROMPT_BYTES
            && TotalChars(request.messages[..n]) + |m.content| <= MAX_PROMPT_CHARS
    ensures ValidRequest(request) ==> PrefixValid(request, n + 1)
    ensures TotalBytes(request.messages[..n + 1]) == TotalBytes(request.messages[..n]) + Text.Bytes(request.messages[n].content)
    ensures TotalChars(request.messages[..n + 1]) == TotalChars(request.messages[..n]) + |request.messages[n].content|
  {
    TotalsOfPrefix(request.messages, n);
  }

  /** `validate_generation_request`: the running checks decide the declarative validity. */
  method ValidateGenerationRequest(request: Request) returns (r: Option<PlanError>)
    ensures r.None? <==> ValidRequest(request)
  {
    var controls := ControlsError(request.model, request.temperature, request.maxOutputTokens);
    if controls.Some? {
      return controls;
    }
    if |request.messages| > MAX_PROMPT_MESSAGES {
      return Some(TooManyMessages);
    }
    var totalBytes: nat, totalChars: nat, sawSystem := 0, 0, false;
    for index := 0 to |request.messages|
      invariant PrefixValid(request, index) && (sawSystem ==> index > 0)
      invariant totalBytes == TotalBytes(request.messages[..index]) && totalChars == TotalChars(request.messages[..index])
    {
      var message := request.messages[index];
      PrefixStep(request, index);
      if message.conversation != request.conversation {
        return Some(ForeignMessage);
      }
      if message.role == System {
        if index != 0 || sawSystem {
          return Some(MisplacedSystemMessage);
        }
        sawSystem := true;
      }
      var nextBytes, nextChars := CheckedAdd(totalBytes, Text.Bytes(message.content)), CheckedAdd(totalChars, |message.content|);
      if nextBytes.None? || nextChars.None? || nextBytes.value > MAX_PROMPT_BYTES || nextChars.value > MAX_PROMPT_CHARS {
        return Some(PromptLimit);
      }
      totalBytes, totalChars := nextBytes.value, nextChars.value;
    }
    assert request.messages[..|request.messages|] == request.messages;
    return None;
  }

  lemma {:induction false} DialogueMembers(history: seq<Message>, m: Message)
    requires m in Dialogue(history)
    ensures m in history && m.role != System
  {
    if history[0].role == System || m != history[0] {
      DialogueMembers(history[1..], m);
    }
  }

  /**
   Every planned request passes the validator, holds the System message first and nowhere else,
   and carries the longest admissible suffix of the dialogue.
   */
  lemma PlannedRequestIsValid(wording: Wording, character: Character, conversation: string, mode: Mode, history: seq<Message>,
                              model: string, temperature: Temperature, maxOutputTokens: Option<nat>)
    requires Plan(wording, character, conversation, mode, history, model, temperature, maxOutputTokens).Ok?
    ensures var request := Plan(wording, character, conversation, mode, history, model, temperature, maxOutputTokens).value;
            && ValidRequest(request)
            && |request.messages| >= 2 && request.messages[0].role == System
            && request.messages[2..] == LongestSuffix(request.messages[..2], Dialogue(history))
            && request.temperature.Some? && request.temperature.value.Finite?
            && 0.0 <= request.temperature.value.value <= 2.0
  {
    var request := Plan(wording, character, conversation, mode, history, model, temperature, maxOutputTokens).value;
    var prompt := BuildStaticPrompt(wording, character, conversation, mode).value;
    var fixed := [prompt.system, prompt.profile];
    var selected := LongestSuffix(fixed, Dialogue(history));
    LongestSuffixIsLongest(fixed, Dialogue(history));
    LongestSuffixIsSuffix(fixed, Dialogue(history));
    assert request.messages == fixed + selected;
    assert request.messages[..2] == fixed && request.messages[2..] == selected;
    forall i | 0 <= i < |request.messages|
      ensures request.messages[i].conversation == request.conversation
      ensures i > 0 ==> request.messages[i].role != System
    {
      if i >= 2 {
        assert selected[i - 2] in Dialogue(history);
        DialogueMembers(history, selected[i - 2]);
      }
    }
  }

  // ----- what a plan carries and when there is one

  /** The two fixed messages, from the texts, the mode and the trimmed profile. */
  ghost predicate FixedMessages(wording: Wording, character: Character, conversation: string, mode: Mode, fixed: seq<Message>) {
    && |fixed| == 2
    && fixed[0] == Message(conversation, System, wording.policy + "\n\n" + match mode case Chat => wording.chat case Story => wording.story)
    && wording.encodeProfile(Text.Trim(character.name), Text.Trim(character.description)).Some?
    && fixed[1] == Message(conversation, User, wording.profilePrefix
                             + wording.encodeProfile(Text.Trim(character.name), Text.Trim(character.description)).value)
  }

  /** `sent` is `asked`, or the bound of [0, 2] nearest to it. */
  predicate TemperatureSent(asked: real, sent: real) {
    && (0.0 <= asked <= 2.0 ==> sent == asked)
    && (asked < 0.0 ==> sent == 0.0)
    && (asked > 2.0 ==> sent == 2.0)
  }

  /**
   A planned request carries what the caller gave: model, conversation and token limit unchanged,
   the temperature itself or the nearest bound, the policy with the instruction of the mode, the
   encoded profile, and then the selected history.
   */
  lemma PlanCarriesInputs(wording: Wording, character: Character, conversation: string, mode: Mode, history: seq<Message>,
                          model: string, temperature: Temperature, maxOutputTokens: Option<nat>)
    requires Plan(wording, character, conversation, mode, history, model, temperature, maxOutputTokens).Ok?
    ensures var request := Plan(wording, character, conversation, mode, history, model, temperature, maxOutputTokens).value;
            && request.model == model && request.conversation == conversation && request.maxOutputTokens == maxOutputTokens
            && temperature.Finite? && request.temperature.Some? && request.temperature.value.Finite?
            && TemperatureSent(temperature.value, request.temperature.value.value)
            && |request.messages| >= 2
            && FixedMessages(wording, character, conversation, mode, request.messages[..2])
            && request.messages[2..] == LongestSuffix(request.messages[..2], Dialogue(history))
  {
    PlannedRequestIsValid(wording, character, conversation, mode, history, model, temperature, maxOutputTokens);
  }

  /** A model identifier, character by character. */
  ghost predicate ModelSpelled(model: string) {
    && 1 <= |model| <= 256 && Text.Bytes(model) <= 1024
    && !Text.IsWhitespace(model[0]) && !Text.IsWhitespace(model[|model| - 1])
    && forall i :: 0 <= i < |model| ==> !Text.IsControl(model[i])
  }

  lemma ModelSpelledOut(model: string)
    ensures ModelOk(model) <==> ModelSpelled(model)
  {
    if model != [] && !Text.IsWhitespace(model[0]) && !Text.IsWhitespace(model[|model| - 1]) {
      assert Text.Trim(model) == model;
    }
  }

  ghost predicate PromptSpelled(wording: Wording, character: Character, conversation: string, mode: Mode, fixed: seq<Message>) {
    && Text.Bytes(character.name) + Text.Bytes(character.description) <= 524288
    && |character.name| + |character.description| <= 131072
    && FixedMessages(wording, character, conversation, mode, fixed)
    && Text.Bytes(fixed[0].content) + Text.Bytes(fixed[1].content) <= 524288
    && |fixed[0].content| + |fixed[1].content| <= 131072
  }

  lemma PromptSpelledOut(wording: Wording, character: Character, conversation: string, mode: Mode)
    ensures var prompt := BuildStaticPrompt(wording, character, conversation, mode);
            && (prompt.Ok? <==> exists fixed :: PromptSpelled(wording, character, conversation, mode, fixed))
            && (prompt.Ok? ==> PromptSpelled(wording, character, conversation, mode, [prompt.value.system, prompt.value.profile]))
  {
    var prompt := BuildStaticPrompt(wording, character, conversation, mode);
    if prompt.Ok? {
      assert PromptSpelled(wording, character, conversation, mode, [prompt.value.system, prompt.value.profile]);
    } else {
      forall fixed
        ensures !PromptSpelled(wording, character, conversation, mode, fixed)
      {
      }
    }
  }

  lemma FixedIsUnique(wording: Wording, character: Character, conversation: string, mode: Mode, one: seq<Message>, other: seq<Message>)
    requires FixedMessages(wording, character, conversation, mode, one) && FixedMessages(wording, character, conversation, mode, other)
    ensures one == other
  {
    assert one == [one[0], one[1]] && other == [other[0], other[1]];
  }

  /** The newest message that is not a System message does not fit behind the fixed ones. */
  ghost predicate NewestRefused(fixed: seq<Message>, history: seq<Message>) {
    exists i :: NewestDialogue(history, i) && !Admissible(fixed, [history[i]])
  }

  ghost predicate NewestDialogue(history: seq<Message>, i: int) {
    0 <= i < |history| && history[i].role != System && forall j :: i < j < |history| ==> history[j].role == System
  }

  lemma {:induction false} NoDialogue(history: seq<Message>)
    ensures Dialogue(history) == [] <==> forall j :: 0 <= j < |history| ==> history[j].role == System
  {
    if history != [] {
      NoDialogue(history[1..]);
      assert forall j :: 0 < j < |history| ==> history[j] == history[1..][j - 1];
    }
  }

  lemma NewestInTail(history: seq<Message>, i: nat)
    requires 0 < i && NewestDialogue(history, i)
    ensures NewestDialogue(history[1..], i - 1)
  {
    assert forall j :: 0 <= j < |history| - 1 ==> history[1..][j] == history[j + 1];
  }

  lemma {:induction false} NewestIsLast(history: seq<Message>, i: nat)
    requires NewestDialogue(history, i)
    ensures Dialogue(history) != [] && Dialogue(history)[|Dialogue(history)| - 1] == history[i]
  {
    if i > 0 {
      NewestInTail(history, i);
      NewestIsLast(history[1..], i - 1);
    } else {
      NoDialogue(history[1..]);
    }
  }

  lemma {:induction false} NewestExists(history: seq<Message>) returns (i: nat)
    requires Dialogue(history) != []
    ensures NewestDialogue(history, i)
  {
    if Dialogue(history[1..]) != [] {
      i := NewestExists(history[1..]);
      i := i + 1;
    } else {
      NoDialogue(history[1..]);
      i := 0;
    }
    assert forall j :: 0 < j < |history| ==> history[j] == history[1..][j - 1];
  }

  lemma {:induction false} EmptySelection(fixed: seq<Message>, dialogue: seq<Message>)
    requires dialogue != []
    ensures LongestSuffix(fixed, dialogue) == [] <==> !Admissible(fixed, [dialogue[|dialogue| - 1]])
  {
    if |dialogue| == 1 {
      assert dialogue == [dialogue[0]] && dialogue[1..] == [];
    } else {
      EmptySelection(fixed, dialogue[1..]);
    }
  }

  lemma SelectionSpelledOut(fixed: seq<Message>, history: seq<Message>)
    ensures Selection(fixed, history).Ok? <==> !NewestRefused(fixed, history)
  {
    if Dialogue(history) != [] {
      var i := NewestExists(history);
      NewestIsLast(history, i);
      EmptySelection(fixed, Dialogue(history));
      assert forall j :: NewestDialogue(history, j) ==> j == i;
    } else {
      NoDialogue(history);
    }
  }

  predicate ItemSpelled(m: Message) {
    Text.Bytes(m.content) <= 262144 && |m.content| <= 65536
  }

  lemma ItemsSpelledOut(suffix: seq<Message>)
    ensures (forall m :: m in suffix ==> ItemOk(m)) <==> forall i :: 0 <= i < |suffix| ==> ItemSpelled(suffix[i])
  {
    if forall m :: m in suffix ==> ItemOk(m) {
      forall i | 0 <= i < |suffix|
        ensures ItemSpelled(suffix[i])
      {
        assert ItemOk(suffix[i]);
      }
    } else {
      var m :| m in suffix && !ItemOk(m);
      var i :| 0 <= i < |suffix| && suffix[i] == m;
      assert !ItemSpelled(suffix[i]);
    }
  }

  /** The four budgets of a selection, in figures. */
  lemma AdmissibleSpelledOut(fixed: seq<Message>, suffix: seq<Message>)
    ensures Admissible(fixed, suffix) <==>
            && |suffix| <= 126
            && (forall i :: 0 <= i < |suffix| ==> ItemSpelled(suffix[i]))
            && TotalBytes(fixed) + TotalBytes(suffix) <= 524288 && TotalChars(fixed) + TotalChars(suffix) <= 131072
  {
    TotalsOfParts(fixed, suffix);
    ItemsSpelledOut(suffix);
  }

  /** The requests the validator lets through, in figures. */
  lemma RequestSpelledOut(request: Request)
    ensures ValidRequest(request) <==>
            && ModelSpelled(request.model) && request.maxOutputTokens != Some(0)
            && (request.temperature.Some? ==> request.temperature.value.Finite?)
            && |request.messages| <= 128
            && (forall i :: 0 <= i < |request.messages| ==> request.messages[i].conversation == request.conversation)
            && (forall i :: 1 <= i < |request.messages| ==> request.messages[i].role == User || request.messages[i].role == Assistant)
            && TotalBytes(request.messages) <= 524288 && TotalChars(request.messages) <= 131072
  {
    ModelSpelledOut(request.model);
  }

  ghost predicate HistorySpelled(history: seq<Message>, conversation: string) {
    |history| <= 4096 && forall i :: 0 <= i < |history| ==> history[i].conversation == conversation
  }

  lemma HistorySpelledOut(history: seq<Message>, conversation: string)
    ensures HistoryError(history, conversation).None? <==> HistorySpelled(history, conversation)
  {
  }

  /**
   There is a plan exactly when the model identifier, the temperature and the token limit are usable,
   the history is short enough and all of one conversation, the profile and the fixed messages fit,
   and the newest message of the dialogue, if there is one, fits behind them.
   */
  lemma PlanSucceedsIff(wording: Wording, character: Character, conversation: string, mode: Mode, history: seq<Message>,
                        model: string, temperature: Temperature, maxOutputTokens: Option<nat>)
    ensures Plan(wording, character, conversation, mode, history, model, temperature, maxOutputTokens).Ok? <==>
            && ModelSpelled(model) && temperature.Finite? && maxOutputTokens != Some(0)
            && HistorySpelled(history, conversation)
            && exists fixed :: PromptSpelled(wording, character, conversation, mode, fixed) && !NewestRefused(fixed, history)
  {
    ModelSpelledOut(model);
    HistorySpelledOut(history, conversation);
    PromptSpelledOut(wording, character, conversation, mode);
    var prompt := BuildStaticPrompt(wording, character, conversation, mode);
    if prompt.Ok? {
      var fixed := [prompt.value.system, prompt.value.profile];
      SelectionSpelledOut(fixed, history);
      forall other | PromptSpelled(wording, character, conversation, mode, other)
        ensures other == fixed
      {
        FixedIsUnique(wording, character, conversation, mode, fixed, other);
      }
    }
  }

  /** The newest message of the dialogue is too long by itself. */
  ghost predicate NewestTooLong(history: seq<Message>) {
    exists i :: NewestDialogue(history, i) && !ItemSpelled(history[i])
  }

  lemma SelectionErrorSpelledOut(fixed: seq<Message>, history: seq<Message>)
    requires Selection(fixed, history).Err?
    ensures Selection(fixed, history).error == if NewestTooLong(history) then HistoryMessageLimit else PromptLimit
  {
    var i := NewestExists(history);
    NewestIsLast(history, i);
    assert forall j :: NewestDialogue(history, j) ==> j == i;
    assert ItemOk(history[i]) <==> ItemSpelled(history[i]);
  }

  /** A plan fails for the first thing that is wrong, in this order. */
  lemma PlanFailsForFirstFault(wording: Wording, character: Character, conversation: string, mode: Mode, history: seq<Message>,
                               model: string, temperature: Temperature, maxOutputTokens: Option<nat>)
    requires Plan(wording, character, conversation, mode, history, model, temperature, maxOutputTokens).Err?
    ensures Plan(wording, character, conversation, mode, history, model, temperature, maxOutputTokens).error ==
            if !ModelSpelled(model) then InvalidModel
            else if !temperature.Finite? then NonFiniteTemperature
            else if maxOutputTokens == Some(0) then ZeroOutputTokens
            else if |history| > 4096 then TooMuchHistory
            else if exists i :: 0 <= i < |history| && history[i].conversation != conversation then ForeignMessage
            else if !ProfileInputOk(character) then PromptLimit
            else if wording.encodeProfile(Text.Trim(character.name), Text.Trim(character.description)).None? then ProfileNotEncodable
            else if !exists fixed :: PromptSpelled(wording, character, conversation, mode, fixed) then PromptLimit
            else if NewestTooLong(history) then HistoryMessageLimit
            else PromptLimit
  {
    ModelSpelledOut(model);
    HistorySpelledOut(history, conversation);
    PromptSpelledOut(wording, character, conversation, mode);
    var prompt := BuildStaticPrompt(wording, character, conversation, mode);
    if prompt.Ok? && HistorySpelled(history, conversation) {
      var fixed := [prompt.value.system, prompt.value.profile];
      if Selection(fixed, history).Err? {
        SelectionErrorSpelledOut(fixed, history);
      }
    }
  }

  // ----- locality

  lemma DialogueSkipsSystem(older: seq<Message>, system: Message, newer: seq<Message>)
    requires system.role == System
    ensures Dialogue(older + [system] + newer) == Dialogue(older + newer)
  {
    var tail := [system] + newer;
    assert older + [system] + newer == older + tail;
    assert tail[1..] == newer;
    DialogueOfParts(older, tail);
    DialogueOfParts(older, newer);
  }

  /** Putting a System message anywhere does not change what is selected. */
  lemma SystemMessagesAreInvisible(fixed: seq<Message>, older: seq<Message>, system: Message, newer: seq<Message>)
    requires system.role == System
    ensures Selection(fixed, older + [system] + newer) == Selection(fixed, older + newer)
  {
    DialogueSkipsSystem(older, system, newer);
  }

  /** An older message in front leaves the selection alone or is prepended to the whole dialogue. */
  lemma OlderMessageOnlyPrepends(fixed: seq<Message>, m: Message, history: seq<Message>)
    requires Selection(fixed, history).Ok?
    ensures var before, after := Selection(fixed, history).value, Selection(fixed, [m] + history);
            if after.Ok? then after.value == before || (after.value == [m] + before && before == Dialogue(history))
            else Dialogue(history) == [] && m.role != System
  {
    DialogueStep(m, history);
    LongestStep(fixed, m, Dialogue(history));
  }

  lemma HistoryErrorSkips(older: seq<Message>, m: Message, newer: seq<Message>, conversation: string)
    requires m.conversation == conversation && |older| + |newer| < MAX_PROMPT_INPUT_MESSAGES
    ensures HistoryError(older + [m] + newer, conversation) == HistoryError(older + newer, conversation)
  {
    var with, without := older + [m] + newer, older + newer;
    assert forall x :: x in with <==> x == m || x in without;
  }

  /** Below the planning limit, a System message anywhere in the history changes nothing in the plan. */
  lemma PlanIgnoresSystemMessages(
    wording: Wording, character: Character, conversation: string, mode: Mode, older: seq<Message>, system: Message,
    newer: seq<Message>, model: string, temperature: Temperature, maxOutputTokens: Option<nat>)
    requires system.role == System && system.conversation == conversation
    requires |older| + |newer| < MAX_PROMPT_INPUT_MESSAGES
    ensures Plan(wording, character, conversation, mode, older + [system] + newer, model, temperature, maxOutputTokens) ==
            Plan(wording, character, conversation, mode, older + newer, model, temperature, maxOutputTokens)
  {
    HistoryErrorSkips(older, system, newer, conversation);
    DialogueSkipsSystem(older, system, newer);
  }

  /**
   Below the planning limit, an older message of the conversation leaves a plan unchanged or is
   inserted right after the fixed messages; it can only break a plan that carried no dialogue.
   */
  lemma PlanWithOlderMessage(
    wording: Wording, character: Character, conversation: string, mode: Mode, m: Message,
    history: seq<Message>, model: string, temperature: Temperature, maxOutputTokens: Option<nat>)
    requires m.conversation == conversation && |history| < MAX_PROMPT_INPUT_MESSAGES
    requires Plan(wording, character, conversation, mode, history, model, temperature, maxOutputTokens).Ok?
    ensures var before := Plan(wording, character, conversation, mode, history, model, temperature, maxOutputTokens).value;
            var after := Plan(wording, character, conversation, mode, [m] + history, model, temperature, maxOutputTokens);
            && |before.messages| >= 2
            && if after.Ok?
               then after.value == before
                    || after.value == before.(messages := before.messages[..2] + [m] + before.messages[2..])
               else Dialogue(history) == [] && m.role != System
  {
    HistoryErrorSkips([], m, history, conversation);
    assert [] + [m] + history == [m] + history && [] + history == history;
    var fixed := PlansShareFixed(wording, character, conversation, mode, history, [m] + history, model, temperature, maxOutputTokens);
    AssembledWithOlder(fixed, m, history, conversation, model, temperature.value, maxOutputTokens);
  }

  /** Two admissible histories are planned on top of the same fixed messages. */
  lemma PlansShareFixed(
    wording: Wording, character: Character, conversation: string, mode: Mode, one: seq<Message>, other: seq<Message>,
    model: string, temperature: Temperature, maxOutputTokens: Option<nat>) returns (fixed: seq<Message>)
    requires Plan(wording, character, conversation, mode, one, model, temperature, maxOutputTokens).Ok?
    requires HistoryError(other, conversation).None?
    ensures |fixed| == 2 && temperature.Finite? && Selection(fixed, one).Ok?
    ensures Plan(wording, character, conversation, mode, one, model, temperature, maxOutputTokens) ==
            Assembled(fixed, Selection(fixed, one), conversation, model, temperature.value, maxOutputTokens)
    ensures Plan(wording, character, conversation, mode, other, model, temperature, maxOutputTokens) ==
            Assembled(fixed, Selection(fixed, other), conversation, model, temperature.value, maxOutputTokens)
  {
    var prompt := BuildStaticPrompt(wording, character, conversation, mode).value;
    fixed := [prompt.system, prompt.profile];
  }

  lemma AssembledWithOlder(fixed: seq<Message>, m: Message, history: seq<Message>, conversation: string, model: string,
                           temperature: real, maxOutputTokens: Option<nat>)
    requires |fixed| == 2 && Selection(fixed, history).Ok?
    ensures var before := Assembled(fixed, Selection(fixed, history), conversation, model, temperature, maxOutputTokens).value;
            var after := Assembled(fixed, Selection(fixed, [m] + history), conversation, model, temperature, maxOutputTokens);
            && |before.messages| >= 2
            && if after.Ok?
               then after.value == before
                    || after.value == before.(messages := before.messages[..2] + [m] + before.messages[2..])
               else Dialogue(history) == [] && m.role != System
  {
    OlderMessageOnlyPrepends(fixed, m, history);
    var selected := Selection(fixed, history).value;
    InsertAfterFixed(fixed, m, selected);
  }

  lemma InsertAfterFixed(fixed: seq<Message>, m: Message, selected: seq<Message>)
    requires |fixed| == 2
    ensures (fixed + selected)[..2] + [m] + (fixed + selected)[2..] == fixed + ([m] + selected)
  {
    assert (fixed + selected)[..2] == fixed && (fixed + selected)[2..] == selected;
  }

  // ----- bytes and characters

  ghost predicate AdmissibleByChars(fixed: seq<Message>, suffix: seq<Message>) {
    && |suffix| <= MAX_HISTORY_MESSAGES
    && (forall m :: m in suffix ==> |m.content| <= MAX_HISTORY_MESSAGE_CHARS)
    && TotalChars(fixed + suffix) <= MAX_PROMPT_CHARS
  }

  /** The byte budgets of the prompt and of each history item follow from the character budgets. */
  lemma CharactersDecide(fixed: seq<Message>, suffix: seq<Message>)
    ensures Admissible(fixed, suffix) <==> AdmissibleByChars(fixed, suffix)
    ensures FitsPrompt(fixed) <==> TotalChars(fixed) <= MAX_PROMPT_CHARS
  {
    TotalBytesBounded(fixed);
    TotalBytesBounded(fixed + suffix);
    forall m | m in suffix
      ensures ItemOk(m) <==> |m.content| <= MAX_HISTORY_MESSAGE_CHARS
    {
      Text.BytesBounds(m.content);
    }
  }

  lemma ProfileCharactersDecide(character: Character)
    ensures ProfileInputOk(character) <==> |character.name| + |character.description| <= MAX_PROMPT_CHARS
  {
    Text.BytesBounds(character.name);
    Text.BytesBounds(character.description);
  }

  lemma ModelCharactersDecide(model: string)
    ensures ModelOk(model) <==>
            && Text.Trim(model) != "" && Text.Trim(model) == model && |model| <= MAX_MODEL_ID_CHARS && !Text.HasControl(model)
  {
    Text.BytesBounds(model);
  }
}
