/** Theorems about whole inspections, over every archive. */
module ArchiveTheorems {
  import opened Wrappers
  import opened EntryDecoding
  import opened PartialFiles
  import opened ArchiveModel
  import opened Folding
  import ArchivePaths

  // ----- acceptance, without a run

  function EntryAt(run: Run, i: nat): (e: Entry)
    requires i < |run.slots| && run.slots[i].entry.Some?
  {
    run.slots[i].entry.value
  }

  function SizeOf(slot: Slot): int {
    if slot.entry.Some? then slot.entry.value.size else 0
  }

  function CompressedOf(slot: Slot): int {
    if slot.entry.Some? then slot.entry.value.compressed else 0
  }

  function DecodedOf(slot: Slot): int {
    if slot.entry.Some? then |Content(slot.entry.value.reader)| else 0
  }

  function SlotPath(env: Env, slot: Slot): ArchivePaths.Path {
    if slot.entry.Some? then PathOf(env, slot.entry.value) else ArchivePaths.Path("", false)
  }

  ghost function Paths(run: Run, n: nat): (paths: seq<ArchivePaths.Path>)
    requires n <= |run.slots|
    ensures |paths| == n
  {
    if n == 0 then [] else Paths(run, n - 1) + [SlotPath(run.env, run.slots[n - 1])]
  }

  lemma {:induction false} PathsAt(run: Run, n: nat, i: nat)
    requires i < n <= |run.slots|
    ensures Paths(run, n)[i] == SlotPath(run.env, run.slots[i])
  {
    if i < n - 1 {
      PathsAt(run, n - 1, i);
    }
  }

  /** All that is asked of entry `i` on its own. */
  ghost predicate Sound(run: Run, i: nat)
    requires i < |run.slots|
  {
    && run.slots[i].entry.Some?
    && LocallyAdmissible(run.env, run.limits, EntryAt(run, i))
    && Honest(EntryAt(run, i))
    && DiskAllows(run.env, EntryAt(run, i), run.slots[i].disk, StagedAs(run, i), run.files)
  }

  ghost predicate PrefixAccepted(run: Run, n: nat)
    requires n <= |run.slots|
  {
    && (forall i :: 0 <= i < n ==> Sound(run, i))
    && ArchivePaths.RegisterAll(Paths(run, n)).Some?
    && Fold(Plus, SizeOf, run.slots[..n]) <= run.limits.maxTotalBytes
  }

  lemma SizesGrow(run: Run, f: Slot -> int, i: nat)
    requires i < |run.slots|
    ensures Fold(Plus, f, run.slots[..i + 1]) == Fold(Plus, f, run.slots[..i]) + f(run.slots[i])
  {
    assert run.slots[..i + 1][..i] == run.slots[..i];
  }

  lemma PathsGrow(run: Run, i: nat)
    requires i < |run.slots| && run.slots[i].entry.Some?
    ensures Paths(run, i + 1) == Paths(run, i) + [PathOf(run.env, EntryAt(run, i))]
    ensures Paths(run, i + 1)[..i] == Paths(run, i)
  {
  }

  /** Names of other entries' partial files do not disturb this entry's. */
  lemma {:induction false} OwnNameUntouched(run: Run, i: nat, k: nat)
    requires i <= k && i <= |run.slots| && run.staging.Some?
    ensures PartialName(run.staging.value, k) in FilesAfter(run, i) <==> PartialName(run.staging.value, k) in run.files
    ensures PartialName(run.staging.value, k) in run.files ==>
              FilesAfter(run, i)[PartialName(run.staging.value, k)] == run.files[PartialName(run.staging.value, k)]
  {
    if i > 0 {
      OwnNameUntouched(run, i - 1, k);
      if PartialName(run.staging.value, k) == PartialName(run.staging.value, i - 1) {
        PartialNameInjective(run.staging.value, k, i - 1);
      }
    }
  }

  lemma RegisterAppend(paths: seq<ArchivePaths.Path>, p: ArchivePaths.Path, registry: ArchivePaths.Registry)
    requires ArchivePaths.RegisterAll(paths) == Some(registry)
    ensures ArchivePaths.RegisterAll(paths + [p]) ==
            if ArchivePaths.Fits(registry, p.key, p.isDir) then Some(registry[p.key := p.isDir]) else None
  {
    assert (paths + [p])[..|paths + [p]| - 1] == paths;
  }

  lemma PassedPath(run: Run, i: nat)
    requires i < |run.slots| && PassesAt(run, i)
    ensures run.slots[i].entry.Some?
    ensures ArchivePaths.Fits(StateAfter(run, i).paths, Key(run.env, EntryAt(run, i)), EntryAt(run, i).isDir)
    ensures StateAfter(run, i + 1).paths == StateAfter(run, i).paths[Key(run.env, EntryAt(run, i)) := EntryAt(run, i).isDir]
  {
  }

  lemma RegistryGrows(run: Run, i: nat, paths: seq<ArchivePaths.Path>)
    requires i < |run.slots| && PassesAt(run, i) && ArchivePaths.RegisterAll(paths) == Some(StateAfter(run, i).paths)
    ensures ArchivePaths.RegisterAll(paths + [SlotPath(run.env, run.slots[i])]) == Some(StateAfter(run, i + 1).paths)
  {
    PassedPath(run, i);
    RegisterAppend(paths, SlotPath(run.env, run.slots[i]), StateAfter(run, i).paths);
  }

  /** The accumulated registry is that of the paths seen. */
  lemma {:induction false} RegistryIsSummary(run: Run, n: nat)
    requires n <= |run.slots| && AllPass(run, n)
    ensures ArchivePaths.RegisterAll(Paths(run, n)) == Some(StateAfter(run, n).paths)
  {
    if n > 0 {
      RegistryIsSummary(run, n - 1);
      assert PassesAt(run, n - 1);
      RegistryGrows(run, n - 1, Paths(run, n - 1));
    }
  }

  /** Both accumulated totals are byte sums of the entries seen. */
  lemma {:induction false} TotalsAreSums(run: Run, n: nat)
    requires n <= |run.slots|
    ensures StateAfter(run, n).declared == Fold(Plus, SizeOf, run.slots[..n])
    ensures StateAfter(run, n).total == Fold(Plus, DecodedOf, run.slots[..n])
  {
    if n > 0 {
      TotalsAreSums(run, n - 1);
      SizesGrow(run, SizeOf, n - 1);
      SizesGrow(run, DecodedOf, n - 1);
    }
  }

  lemma DiskSeesOnlyFoundFiles(run: Run, i: nat)
    requires i < |run.slots| && run.slots[i].entry.Some?
    ensures DiskAllows(run.env, EntryAt(run, i), run.slots[i].disk, StagedAs(run, i), FilesAfter(run, i)) <==>
            DiskAllows(run.env, EntryAt(run, i), run.slots[i].disk, StagedAs(run, i), run.files)
  {
    if run.staging.Some? {
      OwnNameUntouched(run, i, i);
    }
  }

  lemma RegisterStep(run: Run, i: nat)
    requires i < |run.slots| && run.slots[i].entry.Some? && AllPass(run, i)
    ensures ArchivePaths.RegisterAll(Paths(run, i + 1)).Some? <==>
            ArchivePaths.Fits(StateAfter(run, i).paths, Key(run.env, EntryAt(run, i)), EntryAt(run, i).isDir)
  {
    RegistryIsSummary(run, i);
    RegisterAppend(Paths(run, i), PathOf(run.env, EntryAt(run, i)), StateAfter(run, i).paths);
  }

  lemma PassesIffSoundAndFits(run: Run, i: nat)
    requires i < |run.slots| && AllPass(run, i) && run.slots[i].entry.Some?
    ensures PassesAt(run, i) <==>
            && Sound(run, i)
            && ArchivePaths.Fits(StateAfter(run, i).paths, Key(run.env, EntryAt(run, i)), EntryAt(run, i).isDir)
            && StateAfter(run, i).declared + EntryAt(run, i).size <= run.limits.maxTotalBytes
  {
    TotalsAgree(run, i);
    DiskSeesOnlyFoundFiles(run, i);
  }

  lemma StepAccepted(run: Run, i: nat)
    requires i < |run.slots| && AllPass(run, i) && PrefixAccepted(run, i)
    ensures PassesAt(run, i) <==> PrefixAccepted(run, i + 1)
  {
    if run.slots[i].entry.Some? {
      TotalsAreSums(run, i);
      SizesGrow(run, SizeOf, i);
      RegisterStep(run, i);
      PassesIffSoundAndFits(run, i);
      assert (forall j :: 0 <= j < i + 1 ==> Sound(run, j)) <==> Sound(run, i);
    } else {
      assert !Sound(run, i);
    }
  }

  lemma {:induction false} RegisteredPrefix(paths: seq<ArchivePaths.Path>, n: nat)
    requires n <= |paths| && ArchivePaths.RegisterAll(paths).Some?
    ensures ArchivePaths.RegisterAll(paths[..n]).Some?
    decreases |paths| - n
  {
    if n == |paths| {
      assert paths[..n] == paths;
    } else {
      RegisteredPrefix(paths, n + 1);
      assert paths[..n + 1][..n] == paths[..n];
    }
  }

  lemma PrefixAcceptedShrinks(run: Run, i: nat)
    requires i < |run.slots| && PrefixAccepted(run, i + 1)
    ensures PrefixAccepted(run, i)
  {
    assert Sound(run, i);
    PathsGrow(run, i);
    RegisteredPrefix(Paths(run, i + 1), i);
    SizesGrow(run, SizeOf, i);
  }

  lemma AllPassGrows(run: Run, n: nat)
    requires n < |run.slots|
    ensures AllPass(run, n + 1) <==> AllPass(run, n) && PassesAt(run, n)
  {
  }

  lemma {:induction false} PassIffAccepted(run: Run, n: nat)
    requires n <= |run.slots|
    ensures AllPass(run, n) <==> PrefixAccepted(run, n)
  {
    if n > 0 {
      PassIffAccepted(run, n - 1);
      AllPassGrows(run, n - 1);
      if PrefixAccepted(run, n) {
        PrefixAcceptedShrinks(run, n - 1);
      }
      if AllPass(run, n - 1) {
        StepAccepted(run, n - 1);
      }
    }
  }

  /**
   Every entry of an archive passes exactly when each is sound on its own, all are pairwise
   compatible as paths, and the header sizes sum to at most the total limit. Decode-time limits
   play no part: headers alone decide.
   */
  lemma AcceptanceIsDeclarative(run: Run)
    ensures AllPass(run, |run.slots|) <==>
            && (forall i :: 0 <= i < |run.slots| ==> Sound(run, i))
            && ArchivePaths.PairwiseCompatible(Paths(run, |run.slots|))
            && Fold(Plus, SizeOf, run.slots) <= run.limits.maxTotalBytes
  {
    PassIffAccepted(run, |run.slots|);
    ArchivePaths.AcceptedIffPairwiseCompatible(Paths(run, |run.slots|));
    assert run.slots[..|run.slots|] == run.slots;
  }

  // ----- bytes

  /** On success both totals are the sum of the header sizes, which is the sum of the decoded sizes. */
  lemma BytesAreConserved(run: Run)
    requires AllPass(run, |run.slots|)
    ensures var s := StateAfter(run, |run.slots|);
            && s.total == s.declared == Fold(Plus, SizeOf, run.slots) == Fold(Plus, DecodedOf, run.slots)
            && s.total <= run.limits.maxTotalBytes
  {
    TotalsAreSums(run, |run.slots|);
    TotalsAgree(run, |run.slots|);
    assert run.slots[..|run.slots|] == run.slots;
  }

  /** Admitted entries that decode to their announced size never meet a decode-time limit. */
  lemma DecodeLimitsAreUnreachable(run: Run, i: nat)
    requires i < |run.slots| && AllPass(run, i) && run.slots[i].entry.Some?
    requires var s := StateAfter(run, i); Admits(run.env, run.limits, s.paths, s.declared, EntryAt(run, i))
    ensures var s := StateAfter(run, i);
            && s.total == s.declared
            && (PassesAt(run, i) <==>
                  Honest(EntryAt(run, i)) &&
                  DiskAllows(run.env, EntryAt(run, i), run.slots[i].disk, StagedAs(run, i), FilesAfter(run, i)))
  {
    TotalsAgree(run, i);
  }

  /** No archive expands by more than the permitted ratio. */
  lemma {:induction false} ExpansionIsBounded(run: Run, n: nat)
    requires n <= |run.slots| && AllPass(run, n)
    ensures StateAfter(run, n).total <= run.limits.maxRatio * Fold(Plus, CompressedOf, run.slots[..n])
  {
    if n > 0 {
      assert PassesAt(run, n - 1);
      ExpansionIsBounded(run, n - 1);
      SizesGrow(run, CompressedOf, n - 1);
      var before, e := Fold(Plus, CompressedOf, run.slots[..n - 1]), EntryAt(run, n - 1);
      assert WithinRatio(e, run.limits);
      assert StateAfter(run, n).total == StateAfter(run, n - 1).total + e.size;
      Distribute(run.limits.maxRatio, before, e.compressed);
    }
  }

  lemma Distribute(r: int, x: int, y: int)
    ensures r * (x + y) == r * x + y * r
  {
  }

  // ----- staging

  predicate IsAssetSlot(env: Env, slot: Slot) {
    slot.entry.Some? && IsAsset(env, slot.entry.value)
  }

  /** Some asset stands among the first `n` slots of a run that stages. */
  ghost predicate StagesWithin(run: Run, n: nat)
    requires n <= |run.slots|
  {
    run.staging.Some? && exists i :: 0 <= i < n && IsAssetSlot(run.env, run.slots[i])
  }

  lemma {:induction false} StagedIffAsset(run: Run, n: nat)
    requires n <= |run.slots|
    ensures StateAfter(run, n).staged != [] <==> StagesWithin(run, n)
  {
    if n > 0 {
      StagedIffAsset(run, n - 1);
      if run.staging.Some? && IsAssetSlot(run.env, run.slots[n - 1]) {
        assert StagesWithin(run, n);
      }
    }
  }

  /** Passing entries leave the directory as it was exactly when none of them is staged. */
  lemma FilesChangeIffStaged(run: Run, n: nat)
    requires n <= |run.slots| && AllPass(run, n)
    ensures FilesAfter(run, n) != run.files <==> StagesWithin(run, n)
  {
    FilesAreFoundOrStaged(run, n);
    StagedIffAsset(run, n);
    var staged := StateAfter(run, n).staged;
    if staged != [] {
      var last := staged[|staged| - 1].stagedName;
      assert last in Names(staged);
      assert last in FilesAfter(run, n) && last !in run.files;
    } else {
      assert Names(staged) == {};
      assert FilesAfter(run, n) == FilesAfter(run, n) - {};
    }
  }

  /**
   All or nothing, with its exact exception. A failed run leaves the staging directory as it was
   unless the entry that stopped it could not be opened and an asset stands before it, or had been
   admitted while a foreign file stood under its partial name.
   */
  lemma RollbackIsExact(run: Run)
    ensures FilesOnError(run) == run.files <==>
            var k := Progress(run, |run.slots|);
            || k == |run.slots|
            || (if run.slots[k].entry.None? then !StagesWithin(run, k)
                else
                  var s := StateAfter(run, k);
                  Admits(run.env, run.limits, s.paths, s.declared, EntryAt(run, k)) && run.staging.Some? ==>
                    PartialName(run.staging.value, k) !in run.files)
  {
    var k := Progress(run, |run.slots|);
    if k < |run.slots| {
      FilesChangeIffStaged(run, k);
    }
  }

  /** What a caller can check beforehand: every index opens and every partial name is free. */
  lemma FailureLeavesNothing(run: Run)
    requires forall i :: 0 <= i < |run.slots| ==> run.slots[i].entry.Some?
    requires run.staging.Some? ==>
               forall i :: 0 <= i < |run.slots| ==> PartialName(run.staging.value, i) !in run.files
    ensures FilesOnError(run) == run.files
  {
    RollbackIsExact(run);
  }

  // Two archives for which a failed run does change the directory.

  const PlainEnv: Env := Env(name => Some(name), name => "png", bytes => "", bytes => None)

  const EmptyAsset: Entry := Entry(Some("a.png"), false, false, false, 0, 0, [])

  const QuietDisk: Disk := Disk(false, None, false)

  const SomeLimits: Limits := Limits(2048, 64, 512, 100)

  /** A second entry that cannot be opened leaves the first entry's staged file behind. */
  lemma UnreadableEntryLeaks()
    ensures var run := Run(PlainEnv, SomeLimits, [Slot(Some(EmptyAsset), QuietDisk), Slot(None, QuietDisk)], Some("x"), map[]);
            !Succeeds(run) && FilesOnError(run) != run.files
  {
    var run := Run(PlainEnv, SomeLimits, [Slot(Some(EmptyAsset), QuietDisk), Slot(None, QuietDisk)], Some("x"), map[]);
    assert Content([]) == [] && !Faulty([]) && ChunkCount([]) == 0;
    assert StateAfter(run, 0) == Empty && FilesAfter(run, 0) == run.files;
    assert PassesAt(run, 0);
    assert !PassesAt(run, 1);
    ProgressIs(run, 1, 2);
    assert PartialName("x", 0) in FilesAfter(run, 1);
  }

  /** A foreign file under an asset's partial name makes the run fail and is deleted. */
  lemma ForeignFileIsLost()
    ensures var run := Run(PlainEnv, SomeLimits, [Slot(Some(EmptyAsset), QuietDisk)], Some("x"), map[PartialName("x", 0) := [1]]);
            !Succeeds(run) && FilesOnError(run) != run.files
  {
    var run := Run(PlainEnv, SomeLimits, [Slot(Some(EmptyAsset), QuietDisk)], Some("x"), map[PartialName("x", 0) := [1]]);
    assert StateAfter(run, 0) == Empty && FilesAfter(run, 0) == run.files;
    assert !PassesAt(run, 0);
    ProgressIs(run, 0, 1);
    assert Admits(run.env, run.limits, Empty.paths, Empty.declared, EmptyAsset);
    assert PartialName("x", 0) in run.files && PartialName("x", 0) !in FilesOnError(run);
  }

  ghost function StagedIndices(run: Run, n: nat): seq<nat>
    requires n <= |run.slots|
  {
    if n == 0 then []
    else if run.staging.Some? && run.slots[n - 1].entry.Some? && IsAsset(run.env, run.slots[n - 1].entry.value)
    then StagedIndices(run, n - 1) + [n - 1]
    else StagedIndices(run, n - 1)
  }

  ghost predicate StagedFaithfully(run: Run, n: nat, staged: seq<StagedAsset>, indices: seq<nat>, files: Files)
    requires n <= |run.slots|
  {
    && |staged| == |indices|
    && (forall k :: 0 <= k < |indices| ==> indices[k] < n)
    && (forall j, k :: 0 <= j < k < |indices| ==> indices[j] < indices[k])
    && (forall k :: 0 <= k < |indices| ==> AssetStagedAt(run, indices[k], staged[k], files))
  }

  /** Entry `i` is an asset, recorded and stored under its own partial name with its decoded bytes. */
  ghost predicate AssetStagedAt(run: Run, i: nat, asset: StagedAsset, files: Files) {
    && i < |run.slots| && run.slots[i].entry.Some? && run.staging.Some?
    && var e := run.slots[i].entry.value;
       var name := PartialName(run.staging.value, i);
       && IsAsset(run.env, e)
       && asset == StagedOf(run.env, e, name)
       && asset.sizeBytes == |Content(e.reader)| && asset.sha256 == run.env.sha256(Content(e.reader))
       && name in files && files[name] == Content(e.reader)
  }

  lemma StoredFileSurvives(run: Run, n: nat, i: nat, asset: StagedAsset)
    requires i < n < |run.slots| && AssetStagedAt(run, i, asset, FilesAfter(run, n))
    ensures AssetStagedAt(run, i, asset, FilesAfter(run, n + 1))
  {
    if PartialName(run.staging.value, i) == PartialName(run.staging.value, n) {
      PartialNameInjective(run.staging.value, i, n);
    }
  }

  lemma FilesSurvive(run: Run, n: nat, staged: seq<StagedAsset>, indices: seq<nat>)
    requires n < |run.slots| && StagedFaithfully(run, n, staged, indices, FilesAfter(run, n))
    ensures StagedFaithfully(run, n + 1, staged, indices, FilesAfter(run, n + 1))
  {
    forall k | 0 <= k < |indices|
      ensures AssetStagedAt(run, indices[k], staged[k], FilesAfter(run, n + 1))
    {
      StoredFileSurvives(run, n, indices[k], staged[k]);
    }
  }

  lemma FaithfulGrows(run: Run, n: nat, staged: seq<StagedAsset>, indices: seq<nat>, asset: StagedAsset, files: Files)
    requires n < |run.slots| && StagedFaithfully(run, n + 1, staged, indices, files)
    requires (forall k :: 0 <= k < |indices| ==> indices[k] < n) && AssetStagedAt(run, n, asset, files)
    ensures StagedFaithfully(run, n + 1, staged + [asset], indices + [n], files)
  {
  }

  /** After any number of accepted entries the directory holds one file per staged asset, with that entry's bytes. */
  lemma {:induction false} StagedFilesAreFaithful(run: Run, n: nat)
    requires n <= |run.slots| && AllPass(run, n)
    ensures StagedFaithfully(run, n, StateAfter(run, n).staged, StagedIndices(run, n), FilesAfter(run, n))
  {
    if n > 0 {
      assert PassesAt(run, n - 1);
      StagedFilesAreFaithful(run, n - 1);
      var staged, indices := StateAfter(run, n - 1).staged, StagedIndices(run, n - 1);
      FilesSurvive(run, n - 1, staged, indices);
      var e := EntryAt(run, n - 1);
      if run.staging.Some? && IsAsset(run.env, e) {
        var asset := StagedOf(run.env, e, PartialName(run.staging.value, n - 1));
        FaithfulGrows(run, n - 1, staged, indices, asset, FilesAfter(run, n));
      }
    }
  }

  /** Record and file agree on size and digest. */
  ghost predicate FileMatches(env: Env, asset: StagedAsset, files: Files) {
    && asset.stagedName in files
    && asset.sizeBytes == |files[asset.stagedName]|
    && asset.sha256 == env.sha256(files[asset.stagedName])
  }

  lemma StagedNamesDiffer(run: Run, staged: seq<StagedAsset>, indices: seq<nat>, files: Files, j: nat, k: nat)
    requires StagedFaithfully(run, |run.slots|, staged, indices, files) && j < k < |staged|
    ensures staged[j].stagedName != staged[k].stagedName
  {
    assert AssetStagedAt(run, indices[j], staged[j], files) && AssetStagedAt(run, indices[k], staged[k], files);
    if staged[j].stagedName == staged[k].stagedName {
      PartialNameInjective(run.staging.value, indices[j], indices[k]);
    }
  }

  /**
   A successful run adds to the directory exactly its staged files: distinct fresh names, each with
   the size and digest of the bytes stored, and nothing else changes.
   */
  lemma StagingIsExact(run: Run)
    requires AllPass(run, |run.slots|)
    ensures var n := |run.slots|;
            var staged, files := StateAfter(run, n).staged, FilesAfter(run, n);
            && Adds(run.files, files, Names(staged))
            && (forall k :: 0 <= k < |staged| ==> FileMatches(run.env, staged[k], files))
            && (forall j, k :: 0 <= j < k < |staged| ==> staged[j].stagedName != staged[k].stagedName)
  {
    var n := |run.slots|;
    var staged, files, indices := StateAfter(run, n).staged, FilesAfter(run, n), StagedIndices(run, n);
    FilesAreFoundOrStaged(run, n);
    StagedFilesAreFaithful(run, n);
    forall k | 0 <= k < |staged|
      ensures FileMatches(run.env, staged[k], files)
    {
      assert AssetStagedAt(run, indices[k], staged[k], files);
    }
    forall j, k | 0 <= j < k < |staged|
      ensures staged[j].stagedName != staged[k].stagedName
    {
      StagedNamesDiffer(run, staged, indices, files, j, k);
    }
  }
}
