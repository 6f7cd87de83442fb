/** What an inspection report says, and what it does not depend on. */
module ArchiveReports {
  import opened Wrappers
  import opened EntryDecoding
  import opened ArchiveModel
  import opened ArchiveTheorems
  import opened Folding
  import ArchivePaths
  import AssetSignatures
  import Inspector = ArchiveInspector
  import Ordering

  predicate IsBad(env: Env, slot: Slot) {
    slot.entry.Some? && Mismatched(env, slot.entry.value)
  }

  predicate IsCard(env: Env, slot: Slot) {
    slot.entry.Some? && IsMetadata(env, slot.entry.value)
  }

  predicate IsPreview(env: Env, slot: Slot) {
    slot.entry.Some? && Previewable(env, slot.entry.value)
  }

  function SlotName(slot: Slot): string {
    if slot.entry.Some? then Name(slot.entry.value) else ""
  }

  // ----- mismatch reports

  /** Names of the counted assets with a bad signature, in archive order. */
  ghost function BadNames(run: Run, n: nat): seq<string>
    requires n <= |run.slots|
  {
    if n == 0 then []
    else if IsBad(run.env, run.slots[n - 1]) then BadNames(run, n - 1) + [SlotName(run.slots[n - 1])]
    else BadNames(run, n - 1)
  }

  lemma {:induction false} WarningsFollowBadNames(run: Run, n: nat)
    requires n <= |run.slots|
    ensures StateAfter(run, n).warnings == Ordering.Map(WarningFor, BadNames(run, n))
  {
    if n > 0 {
      WarningsFollowBadNames(run, n - 1);
      Ordering.MapAppend(WarningFor, BadNames(run, n - 1), SlotName(run.slots[n - 1]));
    }
  }

  lemma {:induction false} ReasonsFollowBadNames(run: Run, n: nat)
    requires n <= |run.slots|
    ensures StateAfter(run, n).blocked == Ordering.Map(ReasonFor, BadNames(run, n))
  {
    if n > 0 {
      ReasonsFollowBadNames(run, n - 1);
      Ordering.MapAppend(ReasonFor, BadNames(run, n - 1), SlotName(run.slots[n - 1]));
    }
  }

  lemma {:induction false} BadNamesComeFromEntries(run: Run, n: nat, name: string)
    requires n <= |run.slots|
    ensures name in BadNames(run, n) <==> exists i :: 0 <= i < n && IsBad(run.env, run.slots[i]) && SlotName(run.slots[i]) == name
  {
    if n > 0 {
      BadNamesComeFromEntries(run, n - 1, name);
    }
  }

  lemma AcceptedPathsArePairwise(run: Run, n: nat)
    requires n <= |run.slots| && AllPass(run, n)
    ensures ArchivePaths.PairwiseCompatible(Paths(run, n))
  {
    PassIffAccepted(run, n);
    ArchivePaths.AcceptedIffPairwiseCompatible(Paths(run, n));
  }

  lemma PairAgrees(run: Run, n: nat, i: nat, j: nat)
    requires i < j < n <= |run.slots| && ArchivePaths.PairwiseCompatible(Paths(run, n))
    ensures ArchivePaths.Agree(SlotPath(run.env, run.slots[i]), SlotPath(run.env, run.slots[j]))
  {
    PathsAt(run, n, i);
    PathsAt(run, n, j);
    assert ArchivePaths.Agree(Paths(run, n)[i], Paths(run, n)[j]);
  }

  /** Accepted entries have distinct keys, and equal names would have equal keys. */
  lemma AcceptedNamesDiffer(run: Run, i: nat, j: nat)
    requires i < j < |run.slots| && AllPass(run, j + 1)
    ensures run.slots[i].entry.Some? && run.slots[j].entry.Some?
    ensures Key(run.env, EntryAt(run, i)) != Key(run.env, EntryAt(run, j))
    ensures Name(EntryAt(run, i)) != Name(EntryAt(run, j))
  {
    assert PassesAt(run, i) && PassesAt(run, j);
    AcceptedPathsArePairwise(run, j + 1);
    PairAgrees(run, j + 1, i, j);
  }

  lemma {:induction false} BadNamesAreDistinct(run: Run, n: nat)
    requires n <= |run.slots| && AllPass(run, n)
    ensures Ordering.Distinct(BadNames(run, n))
  {
    if n > 0 {
      BadNamesAreDistinct(run, n - 1);
      var names := BadNames(run, n - 1);
      assert PassesAt(run, n - 1);
      forall k | 0 <= k < |names|
        ensures names[k] != Name(EntryAt(run, n - 1))
      {
        BadNamesComeFromEntries(run, n - 1, names[k]);
        var i :| 0 <= i < n - 1 && IsBad(run.env, run.slots[i]) && SlotName(run.slots[i]) == names[k];
        AcceptedNamesDiffer(run, i, n - 1);
      }
    }
  }

  lemma WarningOrderIsNameOrder()
    ensures Ordering.Embeds(WarningFor, Ordering.StringLeq, Inspector.WarningLeq)
  {
    forall x: string, y: string
      ensures Ordering.EmbedsAt(WarningFor, Ordering.StringLeq, Inspector.WarningLeq, x, y)
    {
      Ordering.CommonPrefix("Asset extension does not match file signature: ", x, y);
    }
  }

  lemma ReasonOrderIsNameOrder()
    ensures Ordering.Embeds(ReasonFor, Ordering.StringLeq, Ordering.StringLeq)
  {
    forall x: string, y: string
      ensures Ordering.EmbedsAt(ReasonFor, Ordering.StringLeq, Ordering.StringLeq, x, y)
    {
      Ordering.CommonPrefix("Asset file signature does not match its declared extension: ", x, y);
    }
  }

  lemma ReasonsOfDistinctNames(names: seq<string>)
    requires Ordering.Distinct(names)
    ensures Ordering.Distinct(Ordering.Map(ReasonFor, names))
  {
    forall i, j | 0 <= i < j < |names|
      ensures ReasonFor(names[i]) != ReasonFor(names[j])
    {
      var prefix := "Asset file signature does not match its declared extension: ";
      assert ReasonFor(names[i])[|prefix|..] == names[i] && ReasonFor(names[j])[|prefix|..] == names[j];
    }
  }

  lemma {:induction false} InsertDistinct(x: string, s: seq<string>)
    requires Ordering.Distinct(s) && x !in s
    ensures Ordering.Distinct(Ordering.Insert(Ordering.StringLeq, x, s))
  {
    if s != [] && !Ordering.StringLeq(x, s[0]) {
      InsertDistinct(x, s[1..]);
      Ordering.InsertPermutes(Ordering.StringLeq, x, s[1..]);
      var rest := Ordering.Insert(Ordering.StringLeq, x, s[1..]);
      forall k | 0 <= k < |rest|
        ensures rest[k] != s[0]
      {
        assert rest[k] in multiset(rest);
        assert rest[k] in s[1..] || rest[k] == x;
      }
    }
  }

  lemma {:induction false} SortDistinct(s: seq<string>)
    requires Ordering.Distinct(s)
    ensures Ordering.Distinct(Ordering.Sort(Ordering.StringLeq, s))
  {
    if s != [] {
      var shorter := s[..|s| - 1];
      SortDistinct(shorter);
      Ordering.StringOrder();
      Ordering.SortSorts(Ordering.StringLeq, shorter);
      var sorted := Ordering.Sort(Ordering.StringLeq, shorter);
      var x := s[|s| - 1];
      assert x !in multiset(shorter) && x !in multiset(sorted);
      InsertDistinct(x, sorted);
    }
  }

  /** The sorted names behind both mismatch lists of a report. */
  ghost function ReportedNames(run: Run): seq<string> {
    Ordering.Sort(Ordering.StringLeq, BadNames(run, |run.slots|))
  }

  lemma ReportListsFollowNames(run: Run)
    ensures Ordering.Sort(Inspector.WarningLeq, StateAfter(run, |run.slots|).warnings) == Ordering.Map(WarningFor, ReportedNames(run))
    ensures Ordering.Sort(Ordering.StringLeq, StateAfter(run, |run.slots|).blocked) == Ordering.Map(ReasonFor, ReportedNames(run))
  {
    WarningsFollowBadNames(run, |run.slots|);
    ReasonsFollowBadNames(run, |run.slots|);
    WarningOrderIsNameOrder();
    ReasonOrderIsNameOrder();
    Ordering.SortMaps(WarningFor, Ordering.StringLeq, Inspector.WarningLeq, BadNames(run, |run.slots|));
    Ordering.SortMaps(ReasonFor, Ordering.StringLeq, Ordering.StringLeq, BadNames(run, |run.slots|));
  }

  lemma ReportedNamesAreDistinct(run: Run)
    requires AllPass(run, |run.slots|)
    ensures Ordering.Distinct(ReportedNames(run))
  {
    BadNamesAreDistinct(run, |run.slots|);
    SortDistinct(BadNames(run, |run.slots|));
  }

  lemma ReportedNamesAreTheBadOnes(run: Run, name: string)
    ensures name in ReportedNames(run) <==>
            exists i :: 0 <= i < |run.slots| && IsBad(run.env, run.slots[i]) && SlotName(run.slots[i]) == name
  {
    var bad := BadNames(run, |run.slots|);
    BadNamesComeFromEntries(run, |run.slots|, name);
    Ordering.StringOrder();
    Ordering.SortSorts(Ordering.StringLeq, bad);
    assert name in multiset(ReportedNames(run)) <==> name in multiset(bad);
  }

  /**
   The two lists are sorted separately and one is deduplicated, yet the i-th warning and the i-th
   block reason name the same asset, no asset twice. `ReportedNamesAreTheBadOnes` says which assets.
   */
  lemma MismatchReportsAreAligned(run: Run)
    requires Succeeds(run)
    ensures var report, names := Inspector.Report(run), ReportedNames(run);
            && |report.warnings| == |report.blocked| == |names|
            && (forall i :: 0 <= i < |names| ==> report.warnings[i] == WarningFor(names[i]) && report.blocked[i] == ReasonFor(names[i]))
            && Ordering.Distinct(names)
  {
    var names := ReportedNames(run);
    ReportListsFollowNames(run);
    ReportedNamesAreDistinct(run);
    ReasonsOfDistinctNames(names);
    Ordering.DedupKeepsDistinct(Ordering.Map(ReasonFor, names));
  }

  // ----- the representative image

  ghost function FirstPreview(run: Run, n: nat): Option<nat>
    requires n <= |run.slots|
  {
    if n == 0 then None
    else
      var before := FirstPreview(run, n - 1);
      if before.None? && IsPreview(run.env, run.slots[n - 1]) then Some(n - 1) else before
  }

  lemma {:induction false} FirstPreviewIsLowest(run: Run, n: nat)
    requires n <= |run.slots|
    ensures match FirstPreview(run, n)
            case None => forall i :: 0 <= i < n ==> !IsPreview(run.env, run.slots[i])
            case Some(k) => k < n && IsPreview(run.env, run.slots[k]) && forall i :: 0 <= i < k ==> !IsPreview(run.env, run.slots[i])
  {
    if n > 0 {
      FirstPreviewIsLowest(run, n - 1);
    }
  }

  ghost function PreviewAt(run: Run, k: Option<nat>): Option<ImagePreview>
    requires k.Some? ==> k.value < |run.slots| && run.slots[k.value].entry.Some?
  {
    if k.None? then None else Some(PreviewOf(run.env, run.slots[k.value].entry.value))
  }

  lemma {:induction false} ImageIsFirstPreview(run: Run, n: nat)
    requires n <= |run.slots|
    ensures var k := FirstPreview(run, n);
            && (k.Some? ==> k.value < n && run.slots[k.value].entry.Some?)
            && StateAfter(run, n).image == PreviewAt(run, k)
  {
    if n > 0 {
      ImageIsFirstPreview(run, n - 1);
    }
  }

  /** The preview is that of the genuine counted image with the lowest index, if there is one. */
  lemma RepresentativeIsLowest(run: Run)
    ensures var n, image := |run.slots|, StateAfter(run, |run.slots|).image;
            match FirstPreview(run, n)
            case None => image == None && forall i :: 0 <= i < n ==> !IsPreview(run.env, run.slots[i])
            case Some(k) =>
              && k < n && IsPreview(run.env, run.slots[k]) && image == Some(PreviewOf(run.env, run.slots[k].entry.value))
              && forall i :: 0 <= i < k ==> !IsPreview(run.env, run.slots[i])
  {
    ImageIsFirstPreview(run, |run.slots|);
    FirstPreviewIsLowest(run, |run.slots|);
  }

  // ----- inspecting and staging

  ghost predicate DiskIsQuiet(run: Run) {
    forall i :: 0 <= i < |run.slots| && run.slots[i].entry.Some? ==>
      DiskAllows(run.env, EntryAt(run, i), run.slots[i].disk, StagedAs(run, i), run.files)
  }

  ghost function Unstaged(s: State): State {
    s.(staged := [])
  }

  lemma AdvanceIgnoresStaging(env: Env, s: State, e: Entry, stagedAs: Option<string>)
    ensures Unstaged(Advance(env, s, e, stagedAs)) == Advance(env, Unstaged(s), e, None)
  {
  }

  lemma {:induction false} StagingOnlyAddsFiles(run: Run, n: nat)
    requires n <= |run.slots|
    ensures Unstaged(StateAfter(run, n)) == StateAfter(run.(staging := None), n)
  {
    if n > 0 {
      StagingOnlyAddsFiles(run, n - 1);
      if run.slots[n - 1].entry.Some? {
        AdvanceIgnoresStaging(run.env, StateAfter(run, n - 1), run.slots[n - 1].entry.value, StagedAs(run, n - 1));
      }
    }
  }

  lemma {:induction false} PathsIgnoreStaging(run: Run, n: nat)
    requires n <= |run.slots|
    ensures Paths(run, n) == Paths(run.(staging := None), n)
  {
    if n > 0 {
      PathsIgnoreStaging(run, n - 1);
    }
  }

  /**
   Barring disk faults, inspecting and staging the same archive succeed or fail together, and
   their reports differ in the staged assets alone.
   */
  lemma InspectionAndStagingAgree(run: Run)
    requires DiskIsQuiet(run)
    ensures var inspected := run.(staging := None);
            && (Succeeds(run) <==> Succeeds(inspected))
            && (Succeeds(run) ==> Inspector.Report(run).(staged := []) == Inspector.Report(inspected))
  {
    var inspected := run.(staging := None);
    var n := |run.slots|;
    StagingOnlyAddsFiles(run, n);
    AcceptanceIsDeclarative(run);
    AcceptanceIsDeclarative(inspected);
    PathsIgnoreStaging(run, n);
    forall i | 0 <= i < n
      ensures Sound(run, i) <==> Sound(inspected, i)
    {
    }
  }

  /** Assets staged although they are not counted: a root card.json whose extension is an asset's. */
  ghost function CardAssets(run: Run, n: nat): nat
    requires n <= |run.slots|
  {
    if n == 0 then 0
    else CardAssets(run, n - 1) + if IsCard(run.env, run.slots[n - 1]) && IsAsset(run.env, run.slots[n - 1].entry.value) then 1 else 0
  }

  /** Staged and counted assets differ by exactly those; with a sane normaliser there are none. */
  lemma {:induction false} StagedCount(run: Run, n: nat)
    requires n <= |run.slots| && run.staging.Some?
    ensures |StateAfter(run, n).staged| == StateAfter(run, n).assets + CardAssets(run, n)
    ensures (forall name :: run.env.normalize(name) == Some(CARD_PATH) ==>
               !AssetSignatures.IsAssetExtension(run.env.extension(name))) ==> CardAssets(run, n) == 0
  {
    if n > 0 {
      StagedCount(run, n - 1);
    }
  }

  // ----- the order of the entries

  ghost function BadBag(env: Env): Slot -> multiset<string> {
    (slot: Slot) => if IsBad(env, slot) then multiset{SlotName(slot)} else multiset{}
  }

  ghost function CountedIn(env: Env): Slot -> int {
    (slot: Slot) => if slot.entry.Some? && Counted(env, slot.entry.value) then 1 else 0
  }

  lemma {:induction false} BadNamesAreFold(run: Run, n: nat)
    requires n <= |run.slots|
    ensures multiset(BadNames(run, n)) == Fold(Union(), BadBag(run.env), run.slots[..n])
  {
    if n > 0 {
      BadNamesAreFold(run, n - 1);
      BagPrefix(BadBag(run.env), run.slots, n - 1);
    }
  }

  lemma {:induction false} AssetsAreFold(run: Run, n: nat)
    requires n <= |run.slots|
    ensures StateAfter(run, n).assets == Fold(Plus, CountedIn(run.env), run.slots[..n])
  {
    if n > 0 {
      AssetsAreFold(run, n - 1);
      SizesGrow(run, CountedIn(run.env), n - 1);
    }
  }

  lemma AtMostOneCard(run: Run, i: nat, j: nat)
    requires i < j < |run.slots| && AllPass(run, j + 1)
    ensures !(IsCard(run.env, run.slots[i]) && IsCard(run.env, run.slots[j]))
  {
    AcceptedNamesDiffer(run, i, j);
  }

  /** At most one entry is the card, so the metadata is its content wherever it stands. */
  lemma {:induction false} MetadataIsTheCard(run: Run, n: nat, i: nat)
    requires i < n <= |run.slots| && AllPass(run, n) && IsCard(run.env, run.slots[i])
    ensures StateAfter(run, n).metadata == Some(Content(run.slots[i].entry.value.reader))
  {
    if i < n - 1 {
      AtMostOneCard(run, i, n - 1);
      MetadataIsTheCard(run, n - 1, i);
    }
  }

  lemma {:induction false} NoCardNoMetadata(run: Run, n: nat)
    requires n <= |run.slots| && forall i :: 0 <= i < n ==> !IsCard(run.env, run.slots[i])
    ensures StateAfter(run, n).metadata == None
  {
    if n > 0 {
        NoCardNoMetadata(run, n - 1);
    }
  }

  /** The same entries in another order, staged or not; every disk write that comes up succeeds. */
  ghost predicate Reordered(a: Run, b: Run) {
    && a.env == b.env && a.limits == b.limits && DiskIsQuiet(a) && DiskIsQuiet(b)
    && multiset(a.slots) == multiset(b.slots)
  }

  lemma SlotAppears(a: Run, b: Run, i: nat) returns (j: nat)
    requires Reordered(a, b) && i < |a.slots|
    ensures j < |b.slots| && b.slots[j] == a.slots[i]
  {
    assert a.slots[i] in multiset(b.slots);
    j :| j < |b.slots| && b.slots[j] == a.slots[i];
  }

  lemma SoundnessTravels(a: Run, b: Run)
    requires Reordered(a, b) && forall j :: 0 <= j < |b.slots| ==> Sound(b, j)
    ensures forall i :: 0 <= i < |a.slots| ==> Sound(a, i)
  {
    forall i | 0 <= i < |a.slots|
      ensures Sound(a, i)
    {
      var j := SlotAppears(a, b, i);
      assert Sound(b, j);
    }
  }

  /** A staged record without the name of its file, which holds the entry's position. */
  function Unnamed(asset: StagedAsset): StagedAsset {
    asset.(stagedName := "")
  }

  ghost function StagedBag(env: Env): Slot -> multiset<StagedAsset> {
    (slot: Slot) => if IsAssetSlot(env, slot) then multiset{StagedOf(env, slot.entry.value, "")} else multiset{}
  }

  ghost function Records(staged: seq<StagedAsset>): multiset<StagedAsset> {
    multiset(Ordering.Map(Unnamed, staged))
  }

  lemma RecordsAppend(staged: seq<StagedAsset>, asset: StagedAsset)
    ensures Records(staged + [asset]) == Records(staged) + multiset{Unnamed(asset)}
  {
    Ordering.MapAppend(Unnamed, staged, asset);
  }

  lemma RecordOfSlot(env: Env, slot: Slot, name: string)
    requires IsAssetSlot(env, slot)
    ensures StagedBag(env)(slot) == multiset{Unnamed(StagedOf(env, slot.entry.value, name))}
  {
    assert Unnamed(StagedOf(env, slot.entry.value, name)) == StagedOf(env, slot.entry.value, "");
  }

  /** The staged assets, read off the slots. */
  ghost function StagedList(run: Run, n: nat): seq<StagedAsset>
    requires n <= |run.slots| && run.staging.Some?
  {
    if n == 0 then []
    else if IsAssetSlot(run.env, run.slots[n - 1])
    then StagedList(run, n - 1) + [StagedOf(run.env, run.slots[n - 1].entry.value, StagedAs(run, n - 1).value)]
    else StagedList(run, n - 1)
  }

  lemma {:induction false} StagedIsList(run: Run, n: nat)
    requires n <= |run.slots| && run.staging.Some?
    ensures StateAfter(run, n).staged == StagedList(run, n)
  {
    if n > 0 {
      StagedIsList(run, n - 1);
      if run.slots[n - 1].entry.Some? {
        var s, e := StateAfter(run, n - 1), run.slots[n - 1].entry.value;
        assert StateAfter(run, n) == Advance(run.env, s, e, StagedAs(run, n - 1));
        BookedStaged(run.env, Taken(run.env, s, e), e, StagedAs(run, n - 1));
      }
    }
  }

  /** The records of the staged assets, summed slot by slot. */
  ghost function StagedRecords(run: Run, n: nat): multiset<StagedAsset>
    requires n <= |run.slots|
  {
    if n == 0 then multiset{} else StagedRecords(run, n - 1) + StagedBag(run.env)(run.slots[n - 1])
  }

  lemma {:induction false} StagedListRecords(run: Run, n: nat)
    requires n <= |run.slots| && run.staging.Some?
    ensures Records(StagedList(run, n)) == StagedRecords(run, n)
  {
    if n > 0 {
      StagedListRecords(run, n - 1);
      if IsAssetSlot(run.env, run.slots[n - 1]) {
        var asset := StagedOf(run.env, run.slots[n - 1].entry.value, StagedAs(run, n - 1).value);
        RecordsAppend(StagedList(run, n - 1), asset);
        RecordOfSlot(run.env, run.slots[n - 1], StagedAs(run, n - 1).value);
      }
    }
  }

  lemma {:induction false} StagedRecordsAreFold(run: Run, n: nat)
    requires n <= |run.slots|
    ensures StagedRecords(run, n) == Fold(Union(), StagedBag(run.env), run.slots[..n])
  {
    if n > 0 {
      StagedRecordsAreFold(run, n - 1);
      BagPrefix(StagedBag(run.env), run.slots, n - 1);
    }
  }

  ghost function PathBag(env: Env): Slot -> multiset<ArchivePaths.Path> {
    (slot: Slot) => multiset{SlotPath(env, slot)}
  }

  lemma {:induction false} PathsAreFold(run: Run, n: nat)
    requires n <= |run.slots|
    ensures multiset(Paths(run, n)) == Fold(Union(), PathBag(run.env), run.slots[..n])
  {
    if n > 0 {
      PathsAreFold(run, n - 1);
      BagPrefix(PathBag(run.env), run.slots, n - 1);
    }
  }

  lemma WholePrefix(run: Run)
    ensures run.slots[..|run.slots|] == run.slots
  {
  }

  lemma PathsPermute(a: Run, b: Run)
    requires Reordered(a, b)
    ensures multiset(Paths(a, |a.slots|)) == multiset(Paths(b, |b.slots|))
  {
    WholePrefix(a);
    WholePrefix(b);
    PathsAreFold(a, |a.slots|);
    PathsAreFold(b, |b.slots|);
    BagIgnoresOrder(PathBag(a.env), a.slots, b.slots);
  }

  lemma AcceptanceIgnoresOrder(a: Run, b: Run)
    requires Reordered(a, b)
    ensures AllPass(a, |a.slots|) <==> AllPass(b, |b.slots|)
  {
    AcceptanceIsDeclarative(a);
    AcceptanceIsDeclarative(b);
    PathsPermute(a, b);
    ArchivePaths.PairwiseIsOrderless(Paths(a, |a.slots|));
    ArchivePaths.PairwiseIsOrderless(Paths(b, |b.slots|));
    SumIgnoresOrder(SizeOf, a.slots, b.slots);
    if forall i :: 0 <= i < |a.slots| ==> Sound(a, i) {
      SoundnessTravels(b, a);
    }
    if forall i :: 0 <= i < |b.slots| ==> Sound(b, i) {
      SoundnessTravels(a, b);
    }
  }

  lemma MetadataIgnoresOrder(a: Run, b: Run)
    requires Reordered(a, b) && AllPass(a, |a.slots|) && AllPass(b, |b.slots|)
    ensures StateAfter(a, |a.slots|).metadata == StateAfter(b, |b.slots|).metadata
  {
    if i :| 0 <= i < |a.slots| && IsCard(a.env, a.slots[i]) {
      var j := SlotAppears(a, b, i);
      MetadataIsTheCard(a, |a.slots|, i);
      MetadataIsTheCard(b, |b.slots|, j);
    } else {
      forall j | 0 <= j < |b.slots|
        ensures !IsCard(b.env, b.slots[j])
      {
        var i := SlotAppears(b, a, j);
      }
      NoCardNoMetadata(a, |a.slots|);
      NoCardNoMetadata(b, |b.slots|);
    }
  }

  lemma BadNamesIgnoreOrder(a: Run, b: Run)
    requires Reordered(a, b)
    ensures multiset(BadNames(a, |a.slots|)) == multiset(BadNames(b, |b.slots|))
  {
    WholePrefix(a);
    WholePrefix(b);
    BadNamesAreFold(a, |a.slots|);
    BadNamesAreFold(b, |b.slots|);
    BagIgnoresOrder(BadBag(a.env), a.slots, b.slots);
  }

  lemma AssetsIgnoreOrder(a: Run, b: Run)
    requires Reordered(a, b)
    ensures StateAfter(a, |a.slots|).assets == StateAfter(b, |b.slots|).assets
  {
    WholePrefix(a);
    WholePrefix(b);
    AssetsAreFold(a, |a.slots|);
    AssetsAreFold(b, |b.slots|);
    SumIgnoresOrder(CountedIn(a.env), a.slots, b.slots);
  }

  lemma RecordsAreFold(run: Run)
    requires run.staging.Some?
    ensures Records(StateAfter(run, |run.slots|).staged) == Fold(Union(), StagedBag(run.env), run.slots)
  {
    WholePrefix(run);
    StagedIsList(run, |run.slots|);
    StagedListRecords(run, |run.slots|);
    StagedRecordsAreFold(run, |run.slots|);
  }

  lemma StagedIgnoresOrder(a: Run, b: Run)
    requires Reordered(a, b) && a.staging.Some? && b.staging.Some?
    ensures Records(StateAfter(a, |a.slots|).staged) == Records(StateAfter(b, |b.slots|).staged)
  {
    RecordsAreFold(a);
    RecordsAreFold(b);
    BagIgnoresOrder(StagedBag(a.env), a.slots, b.slots);
  }

  lemma MismatchListsIgnoreOrder(a: Run, b: Run)
    requires Reordered(a, b)
    ensures var s, t := StateAfter(a, |a.slots|), StateAfter(b, |b.slots|);
            && Ordering.Sort(Inspector.WarningLeq, s.warnings) == Ordering.Sort(Inspector.WarningLeq, t.warnings)
            && Ordering.Sort(Ordering.StringLeq, s.blocked) == Ordering.Sort(Ordering.StringLeq, t.blocked)
  {
    BadNamesIgnoreOrder(a, b);
    Ordering.StringOrder();
    Ordering.SortIgnoresOrder(Ordering.StringLeq, BadNames(a, |a.slots|), BadNames(b, |b.slots|));
    ReportListsFollowNames(a);
    ReportListsFollowNames(b);
  }

  lemma TotalIgnoresOrder(a: Run, b: Run)
    requires Reordered(a, b) && AllPass(a, |a.slots|) && AllPass(b, |b.slots|)
    ensures StateAfter(a, |a.slots|).total == StateAfter(b, |b.slots|).total
  {
    BytesAreConserved(a);
    BytesAreConserved(b);
    SumIgnoresOrder(SizeOf, a.slots, b.slots);
  }

  /**
   Shuffling the entries of an archive, whether they are inspected or staged, changes neither the
   verdict nor anything in the report except which image is its representative and the order and
   file names of the staged assets.
   */
  lemma ReportIgnoresEntryOrder(a: Run, b: Run)
    requires Reordered(a, b)
    ensures Succeeds(a) <==> Succeeds(b)
    ensures Succeeds(a) ==> Inspector.Report(a).(image := None, staged := []) == Inspector.Report(b).(image := None, staged := [])
    ensures Succeeds(a) && a.staging.Some? && b.staging.Some? ==>
              Records(Inspector.Report(a).staged) == Records(Inspector.Report(b).staged)
  {
    AcceptanceIgnoresOrder(a, b);
    if AllPass(a, |a.slots|) {
      MetadataIgnoresOrder(a, b);
      AssetsIgnoreOrder(a, b);
      MismatchListsIgnoreOrder(a, b);
      TotalIgnoresOrder(a, b);
      if a.staging.Some? && b.staging.Some? {
        StagedIgnoresOrder(a, b);
      }
    }
  }
}
