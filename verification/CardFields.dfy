/** Reading a version 3 character card: the consumed text field and the report of unsupported ones. */
module CardFields {
  import opened Wrappers
  import opened Folding
  import opened Ordering
  import Text

  const MAX_METADATA_BYTES := 4 * 1024 * 1024
  const MAX_NAME_BYTES := 1024
  const MAX_NAME_CHARS := 256
  const MAX_DESCRIPTION_BYTES := 256 * 1024
  const MAX_DESCRIPTION_CHARS := 64 * 1024
  const MAX_OPTIONAL_FIELDS := 128
  const MAX_KEY_BYTES := 256
  const MAX_KEY_CHARS := 128

  datatype CardError =
    | EmptyMetadata | MetadataTooLarge | InvalidJson | NotAnObject | NoSpec | WrongSpec | NoData
    | NoName | BlankName | TextTooLong | BadOptionalField | TooManyOptionalFields

  datatype CardMetadata = CardMetadata(name: string, description: string, unsupported: seq<string>, lengthBytes: nat)

  /** A parsed document; objects list their members in the map's own iteration order. */
  datatype Json = Str(text: string) | Object(members: seq<(string, Json)>) | Scalar

  function Get(members: seq<(string, Json)>, key: string): Option<Json> {
    if members == [] then None
    else if members[0].0 == key then Some(members[0].1)
    else Get(members[1..], key)
  }

  function Keys(members: seq<(string, Json)>): (r: seq<string>)
    ensures |r| == |members| && forall i :: 0 <= i < |members| ==> r[i] == members[i].0
  {
    seq(|members|, i requires 0 <= i < |members| => members[i].0)
  }

  // ----- collecting the optional fields

  predicate Reportable(key: string, consumed: Option<string>) {
    key != "name" && consumed != Some(key)
  }

  predicate ValidKey(key: string) {
    && key != "" && !Text.HasControl(key)
    && Text.Bytes(key) <= MAX_KEY_BYTES && |key| <= MAX_KEY_CHARS
  }

  ghost function Reported(keys: seq<string>, consumed: Option<string>): seq<string> {
    if keys == [] then []
    else
      var rest, key := Reported(keys[..|keys| - 1], consumed), keys[|keys| - 1];
      if Reportable(key, consumed) then rest + [key] else rest
  }

  ghost predicate Collectable(keys: seq<string>, consumed: Option<string>) {
    && (forall key :: key in Reported(keys, consumed) ==> ValidKey(key))
    && |Reported(keys, consumed)| <= MAX_OPTIONAL_FIELDS
  }

  method CollectOptionalFields(keys: seq<string>, consumed: Option<string>) returns (r: Result<seq<string>, CardError>)
    ensures r.Ok? <==> Collectable(keys, consumed)
    ensures r.Ok? ==> r.value == Dedup(Sort(StringLeq, Reported(keys, consumed)))
    ensures r.Err? ==> r.error in {BadOptionalField, TooManyOptionalFields}
  {
    var fields: seq<string> := [];
    for i := 0 to |keys|
      invariant fields == Reported(keys[..i], consumed)
      invariant |fields| <= MAX_OPTIONAL_FIELDS && forall key :: key in fields ==> ValidKey(key)
    {
      var key := keys[i];
      assert keys[..i + 1][..i] == keys[..i];
      if key == "name" || consumed == Some(key) {
        continue;
      }
      assert Reported(keys[..i + 1], consumed) == fields + [key];
      ReportedGrows(keys, consumed, i + 1);
      if key == "" || Text.HasControl(key) || Text.Bytes(key) > MAX_KEY_BYTES || |key| > MAX_KEY_CHARS {
        assert Reported(keys, consumed)[|fields|] == key && key in Reported(keys, consumed) && !ValidKey(key);
        return Err(BadOptionalField);
      }
      if |fields| == MAX_OPTIONAL_FIELDS {
        return Err(TooManyOptionalFields);
      }
      fields := fields + [key];
    }
    assert keys[..|keys|] == keys;
    return Ok(Dedup(Sort(StringLeq, fields)));
  }

  lemma {:induction false} ReportedGrows(keys: seq<string>, consumed: Option<string>, i: nat)
    requires i <= |keys|
    ensures Reported(keys[..i], consumed) <= Reported(keys, consumed)
    decreases |keys| - i
  {
    if i == |keys| {
      assert keys[..i] == keys;
    } else {
      assert keys[..i + 1][..i] == keys[..i];
      ReportedGrows(keys, consumed, i + 1);
    }
  }

  lemma {:induction false} ReportedMembers(keys: seq<string>, consumed: Option<string>, key: string)
    ensures key in Reported(keys, consumed) <==> key in keys && Reportable(key, consumed)
  {
    if keys != [] {
      var shorter := keys[..|keys| - 1];
      assert keys == shorter + [keys[|keys| - 1]];
      ReportedMembers(shorter, consumed, key);
    }
  }

  /** The report counts each key as often as the iteration does. */
  lemma {:induction false} ReportedCounts(keys: seq<string>, consumed: Option<string>, key: string)
    ensures multiset(Reported(keys, consumed))[key] == if Reportable(key, consumed) then multiset(keys)[key] else 0
  {
    if keys != [] {
      var shorter := keys[..|keys| - 1];
      assert keys == shorter + [keys[|keys| - 1]];
      ReportedCounts(shorter, consumed, key);
    }
  }

  /**
   Conservation: the fields reported are, in strictly increasing order, exactly the data keys minus
   `name` and the one text field consumed.
   */
  lemma FieldsAreConserved(keys: seq<string>, consumed: Option<string>)
    ensures var fields := Dedup(Sort(StringLeq, Reported(keys, consumed)));
            && Sorted(StringLeq, fields) && Distinct(fields)
            && forall key :: key in fields <==> key in keys && key != "name" && consumed != Some(key)
  {
    StringOrder();
    var reported := Reported(keys, consumed);
    SortSorts(StringLeq, reported);
    DedupSorted(StringLeq, Sort(StringLeq, reported));
    forall key
      ensures key in Dedup(Sort(StringLeq, reported)) <==> key in keys && Reportable(key, consumed)
    {
      ReportedMembers(keys, consumed, key);
      assert key in multiset(Sort(StringLeq, reported)) <==> key in multiset(reported);
    }
  }

  /** Whatever order the map is iterated in, the outcome is the same list or a rejection. */
  lemma IterationOrderIsIrrelevant(keys: seq<string>, reordered: seq<string>, consumed: Option<string>)
    requires multiset(keys) == multiset(reordered)
    ensures Collectable(keys, consumed) <==> Collectable(reordered, consumed)
    ensures Dedup(Sort(StringLeq, Reported(keys, consumed))) == Dedup(Sort(StringLeq, Reported(reordered, consumed)))
  {
    var a, b := Reported(keys, consumed), Reported(reordered, consumed);
    forall key
      ensures multiset(a)[key] == multiset(b)[key]
    {
      ReportedCounts(keys, consumed, key);
      ReportedCounts(reordered, consumed, key);
    }
    assert multiset(a) == multiset(b);
    StringOrder();
    SortIgnoresOrder(StringLeq, a, b);
    assert |a| == |multiset(a)| && |b| == |multiset(b)|;
    assert forall key :: key in a <==> key in multiset(a);
    assert forall key :: key in b <==> key in multiset(b);
  }

  // ----- the card

  predicate TextFits(text: string, maxBytes: nat, maxChars: nat) {
    Text.Bytes(text) <= maxBytes && |text| <= maxChars
  }

  /** The text field that becomes the description, and its text. */
  function DescriptionChoice(data: seq<(string, Json)>): (Option<string>, string) {
    var description, personality := Get(data, "description"), Get(data, "personality");
    if description.Some? && description.value.Str? then (Some("description"), Text.Trim(description.value.text))
    else if personality.Some? && personality.value.Str? then (Some("personality"), Text.Trim(personality.value.text))
    else (None, "")
  }

  /** `decoded` is the document `serde_json` reads from `length` bytes. */
  method ParseCardJson(length: nat, decoded: Option<Json>) returns (r: Result<CardMetadata, CardError>)
    ensures r.Ok? <==> ValidCard(length, decoded)
    ensures r.Ok? ==> r.value == CardOf(length, decoded.value)
  {
    if length == 0 {
      return Err(EmptyMetadata);
    }
    if length > MAX_METADATA_BYTES {
      return Err(MetadataTooLarge);
    }
    if decoded.None? {
      return Err(InvalidJson);
    }
    if !decoded.value.Object? {
      return Err(NotAnObject);
    }
    var root := decoded.value.members;
    var spec := Get(root, "spec");
    if spec.None? || !spec.value.Str? {
      return Err(NoSpec);
    }
    if spec.value.text != "chara_card_v3" {
      return Err(WrongSpec);
    }
    var data := Get(root, "data");
    if data.None? || !data.value.Object? {
      return Err(NoData);
    }
    var members := data.value.members;
    var rawName := Get(members, "name");
    if rawName.None? || !rawName.value.Str? {
      return Err(NoName);
    }
    var name := Text.Trim(rawName.value.text);
    if name == "" {
      return Err(BlankName);
    }
    if Text.Bytes(name) > MAX_NAME_BYTES || |name| > MAX_NAME_CHARS {
      return Err(TextTooLong);
    }
    var (field, description) := DescriptionChoice(members);
    if Text.Bytes(description) > MAX_DESCRIPTION_BYTES || |description| > MAX_DESCRIPTION_CHARS {
      return Err(TextTooLong);
    }
    var fields := CollectOptionalFields(Keys(members), field);
    if fields.Err? {
      return Err(fields.error);
    }
    return Ok(CardMetadata(name, description, fields.value, length));
  }

  predicate HasV3Shape(decoded: Option<Json>) {
    && decoded.Some? && decoded.value.Object?
    && Get(decoded.value.members, "spec") == Some(Str("chara_card_v3"))
    && Get(decoded.value.members, "data").Some? && Get(decoded.value.members, "data").value.Object?
    && var data := Get(decoded.value.members, "data").value.members;
       Get(data, "name").Some? && Get(data, "name").value.Str?
  }

  ghost predicate ValidCard(length: nat, decoded: Option<Json>) {
    && 0 < length <= MAX_METADATA_BYTES && HasV3Shape(decoded)
    && var data := Get(decoded.value.members, "data").value.members;
       var (field, description) := DescriptionChoice(data);
       && !Text.Blank(Get(data, "name").value.text)
       && TextFits(Text.Trim(Get(data, "name").value.text), MAX_NAME_BYTES, MAX_NAME_CHARS)
       && TextFits(description, MAX_DESCRIPTION_BYTES, MAX_DESCRIPTION_CHARS)
       && Collectable(Keys(data), field)
  }

  ghost function CardOf(length: nat, document: Json): CardMetadata
    requires HasV3Shape(Some(document))
  {
    var data := Get(document.members, "data").value.members;
    var (field, description) := DescriptionChoice(data);
    CardMetadata(Text.Trim(Get(data, "name").value.text), description,
                 Dedup(Sort(StringLeq, Reported(Keys(data), field))), length)
  }

  function DataOf(document: Json): seq<(string, Json)>
    requires HasV3Shape(Some(document))
  {
    Get(document.members, "data").value.members
  }

  lemma {:induction false} GetFinds(members: seq<(string, Json)>, key: string)
    ensures match Get(members, key)
            case None => key !in Keys(members)
            case Some(value) => (key, value) in members && key in Keys(members)
  {
    if members != [] && members[0].0 != key {
      GetFinds(members[1..], key);
      assert Keys(members) == [members[0].0] + Keys(members[1..]);
    } else if members != [] {
      assert Keys(members)[0] == key && members[0] == (key, members[0].1);
    }
  }

  /**
   Conservation of a card: every data key is the name, the one text field that became the
   description, or reported, and the report holds nothing else, each key once and in order.
   */
  lemma CardConservesKeys(length: nat, document: Json)
    requires HasV3Shape(Some(document))
    ensures var card, taken := CardOf(length, document), DescriptionChoice(DataOf(document)).0;
            && Sorted(StringLeq, card.unsupported) && Distinct(card.unsupported)
            && taken != Some("name") && (taken.Some? ==> taken.value in Keys(DataOf(document)))
            && forall key :: key in Keys(DataOf(document)) <==>
                 key == "name" || taken == Some(key) || key in card.unsupported
    ensures forall key :: key in CardOf(length, document).unsupported ==>
              key != "name" && DescriptionChoice(DataOf(document)).0 != Some(key)
  {
    var data := DataOf(document);
    FieldsAreConserved(Keys(data), DescriptionChoice(data).0);
    GetFinds(data, "name");
    GetFinds(data, "description");
    GetFinds(data, "personality");
  }

  ghost predicate IsText(data: seq<(string, Json)>, key: string, text: string) {
    Get(data, key) == Some(Str(text))
  }

  /** The description of a card is its `description` if that is a text, else its `personality` if that is one, else empty. */
  lemma DescriptionWins(length: nat, document: Json)
    requires HasV3Shape(Some(document))
    ensures var data, card, taken := DataOf(document), CardOf(length, document), DescriptionChoice(DataOf(document)).0;
            && (forall text :: IsText(data, "description", text) ==>
                  taken == Some("description") && card.description == Text.Trim(text))
            && (forall text :: (forall other :: !IsText(data, "description", other)) && IsText(data, "personality", text) ==>
                  taken == Some("personality") && card.description == Text.Trim(text))
            && ((forall text :: !IsText(data, "description", text) && !IsText(data, "personality", text)) ==>
                  taken == None && card.description == "")
            && (forall text :: IsText(data, "name", text) ==> card.name == Text.Trim(text))
            && card.lengthBytes == length
  {
    var data := DataOf(document);
    var description, personality := Get(data, "description"), Get(data, "personality");
    if description.Some? && description.value.Str? {
      assert IsText(data, "description", description.value.text);
    }
    if personality.Some? && personality.value.Str? {
      assert IsText(data, "personality", personality.value.text);
    }
  }

  ghost predicate KeySpelled(key: string) {
    && 1 <= |key| <= 128 && Text.Bytes(key) <= 256
    && forall i :: 0 <= i < |key| ==> !Text.IsControl(key[i])
  }

  /** How many of the keys are reported. */
  ghost function ReportCount(keys: seq<string>, taken: Option<string>): nat {
    if keys == [] then 0
    else ReportCount(keys[..|keys| - 1], taken) + if keys[|keys| - 1] == "name" || Some(keys[|keys| - 1]) == taken then 0 else 1
  }

  lemma {:induction false} ReportCounted(keys: seq<string>, taken: Option<string>)
    ensures |Reported(keys, taken)| == ReportCount(keys, taken)
  {
    if keys != [] {
      ReportCounted(keys[..|keys| - 1], taken);
    }
  }

  lemma CollectableSpelledOut(keys: seq<string>, taken: Option<string>)
    ensures Collectable(keys, taken) <==>
            && (forall key :: key in keys && key != "name" && taken != Some(key) ==> KeySpelled(key))
            && ReportCount(keys, taken) <= 128
  {
    ReportCounted(keys, taken);
    forall key
      ensures key in Reported(keys, taken) <==> key in keys && key != "name" && taken != Some(key)
      ensures ValidKey(key) <==> KeySpelled(key)
    {
      ReportedMembers(keys, taken, key);
    }
  }

  /**
   Which cards are accepted: 1 byte to 4 MiB of JSON with the version 3 shape, a name of 1 to 256
   characters once trimmed, a description of at most 65536, and at most 128 further keys of 1 to 128
   characters and 256 bytes without control characters.
   */
  lemma CardSpelledOut(length: nat, document: Json)
    ensures ValidCard(length, Some(document)) <==>
            && 1 <= length <= 4194304 && HasV3Shape(Some(document))
            && var card, taken := CardOf(length, document), DescriptionChoice(DataOf(document)).0;
               && 1 <= |card.name| <= 256 && |card.description| <= 65536
               && (forall key :: key in Keys(DataOf(document)) && key != "name" && taken != Some(key) ==> KeySpelled(key))
               && ReportCount(Keys(DataOf(document)), taken) <= 128
  {
    if HasV3Shape(Some(document)) {
      var card := CardOf(length, document);
      TextLimitsAreCharacterLimits(card.name);
      TextLimitsAreCharacterLimits(card.description);
      CollectableSpelledOut(Keys(DataOf(document)), DescriptionChoice(DataOf(document)).0);
    }
  }

  // ----- the order of the data members

  lemma {:induction false} GetIsTheMember(members: seq<(string, Json)>, key: string, value: Json)
    requires Distinct(Keys(members)) && (key, value) in members
    ensures Get(members, key) == Some(value)
  {
    if members[0] != (key, value) {
      var i :| 0 <= i < |members| && members[i] == (key, value);
      assert Keys(members)[0] != Keys(members)[i];
      assert (key, value) in members[1..] by { assert members[1..][i - 1] == (key, value); }
      assert Keys(members)[1..] == Keys(members[1..]);
      GetIsTheMember(members[1..], key, value);
    }
  }

  lemma FoundAgain(a: seq<(string, Json)>, b: seq<(string, Json)>, key: string)
    requires multiset(a) == multiset(b) && Distinct(Keys(b)) && Get(a, key).Some?
    ensures Get(b, key) == Get(a, key)
  {
    GetFinds(a, key);
    assert (key, Get(a, key).value) in multiset(b);
    GetIsTheMember(b, key, Get(a, key).value);
  }

  lemma GetIgnoresOrder(a: seq<(string, Json)>, b: seq<(string, Json)>, key: string)
    requires multiset(a) == multiset(b) && Distinct(Keys(a)) && Distinct(Keys(b))
    ensures Get(a, key) == Get(b, key)
  {
    if Get(a, key).Some? {
      FoundAgain(a, b, key);
    } else if Get(b, key).Some? {
      FoundAgain(b, a, key);
    }
  }

  function KeyBag(member: (string, Json)): multiset<string> {
    multiset{member.0}
  }

  lemma {:induction false} KeysAreFold(members: seq<(string, Json)>)
    ensures multiset(Keys(members)) == Fold(Union(), KeyBag, members)
  {
    if members != [] {
      var shorter := members[..|members| - 1];
      KeysAreFold(shorter);
      assert Keys(members) == Keys(shorter) + [members[|members| - 1].0];
    }
  }

  lemma KeysIgnoreOrder(a: seq<(string, Json)>, b: seq<(string, Json)>)
    requires multiset(a) == multiset(b)
    ensures multiset(Keys(a)) == multiset(Keys(b))
  {
    KeysAreFold(a);
    KeysAreFold(b);
    BagIgnoresOrder(KeyBag, a, b);
  }

  /** Two documents whose data hold the same members, in whatever order, are read as the same card. */
  lemma CardIgnoresMemberOrder(length: nat, a: Json, b: Json)
    requires HasV3Shape(Some(a)) && HasV3Shape(Some(b)) && multiset(DataOf(a)) == multiset(DataOf(b))
    requires Distinct(Keys(DataOf(a))) && Distinct(Keys(DataOf(b)))
    ensures ValidCard(length, Some(a)) <==> ValidCard(length, Some(b))
    ensures CardOf(length, a) == CardOf(length, b)
  {
    GetIgnoresOrder(DataOf(a), DataOf(b), "name");
    GetIgnoresOrder(DataOf(a), DataOf(b), "description");
    GetIgnoresOrder(DataOf(a), DataOf(b), "personality");
    KeysIgnoreOrder(DataOf(a), DataOf(b));
    IterationOrderIsIrrelevant(Keys(DataOf(a)), Keys(DataOf(b)), DescriptionChoice(DataOf(a)).0);
  }

  /** On the name and the description only the character limit decides. */
  lemma TextLimitsAreCharacterLimits(text: string)
    ensures TextFits(text, MAX_NAME_BYTES, MAX_NAME_CHARS) <==> |text| <= MAX_NAME_CHARS
    ensures TextFits(text, MAX_DESCRIPTION_BYTES, MAX_DESCRIPTION_CHARS) <==> |text| <= MAX_DESCRIPTION_CHARS
  {
    Text.ByteLimitIsRedundant(text, MAX_NAME_BYTES, MAX_NAME_CHARS);
    Text.ByteLimitIsRedundant(text, MAX_DESCRIPTION_BYTES, MAX_DESCRIPTION_CHARS);
  }

  /** Refused for its bytes and nothing else. */
  predicate RefusedForBytes(key: string) {
    key != "" && !Text.HasControl(key) && |key| <= MAX_KEY_CHARS && Text.Bytes(key) > MAX_KEY_BYTES
  }

  /**
   On optional keys the byte limit is only twice the character limit: it does refuse keys on its own,
   and the lengths at which it can are exactly 65 to 128 characters.
   */
  lemma KeyByteLimitDecides(length: nat)
    ensures (exists key :: |key| == length && RefusedForBytes(key)) <==> MAX_KEY_BYTES / 4 < length <= MAX_KEY_CHARS
  {
    if MAX_KEY_BYTES / 4 < length <= MAX_KEY_CHARS {
      var key := Text.Repeat('\U{1F600}', length);
      Text.RepeatBytes('\U{1F600}', length);
      assert RefusedForBytes(key);
    }
    forall key | |key| == length && RefusedForBytes(key)
      ensures MAX_KEY_BYTES / 4 < length
    {
      Text.BytesBounds(key);
    }
  }
}
