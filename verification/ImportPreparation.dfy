/** Preparing an approved package import: inspect, stage, and compare two fingerprints of the source. */
module ImportPreparation {
  import opened Wrappers
  import opened EntryDecoding
  import opened ArchiveModel
  import opened ArchiveTheorems
  import opened ArchiveReports
  import opened PartialFiles
  import AssetSignatures
  import Inspector = ArchiveInspector

  /** The source as one reading finds it: its bytes and what the ZIP reader makes of them. */
  datatype Source = Source(bytes: seq<byte>, archive: Option<seq<Slot>>)

  /** What hashing the source and asking for its size yield; `None` when the disk refuses. */
  datatype Fingerprint = Fingerprint(digest: Option<string>, size: Option<nat>) {
    predicate Readable() {
      digest.Some? && size.Some?
    }
  }

  /**
   Everything a preparation reads: the source as inspected (`first`) and as staged (`second`), and
   its fingerprint at the inspection (`taken`) and after the staging (`recheck`).
   */
  datatype Import = Import(
    env: Env, limits: Limits, first: Source, second: Source, taken: Fingerprint, recheck: Fingerprint, inspection: string)

  datatype ImportFailure = Refused(reason: Rejection) | SourceUnreadable | SourceChanged | AssetCountMismatch

  datatype Prepared = Prepared(inspection: Inspector.ArchiveInspection, staged: seq<StagedAsset>)

  ghost predicate NormalizerIsSane(env: Env) {
    forall name :: env.normalize(name) == Some(CARD_PATH) ==> !AssetSignatures.IsAssetExtension(env.extension(name))
  }

  /** What a caller can see before staging: every index opens and every partial name is free. */
  ghost predicate OpenAndFree(archive: Option<seq<Slot>>, inspection: string, files: Files) {
    archive.Some? ==>
      && (forall i :: 0 <= i < |archive.value| ==> archive.value[i].entry.Some?)
      && (forall i :: 0 <= i < |archive.value| ==> PartialName(inspection, i) !in files)
  }

  // ----- what a preparation comes to

  function SlotsOf(source: Source): seq<Slot> {
    if source.archive.Some? then source.archive.value else []
  }

  function InspectionRun(job: Import, files: Files): Run {
    Run(job.env, job.limits, SlotsOf(job.first), None, files)
  }

  function StagingRun(job: Import, files: Files): Run {
    Run(job.env, job.limits, SlotsOf(job.second), Some(job.inspection), files)
  }

  ghost predicate Inspects(job: Import, files: Files) {
    && job.taken.Readable()
    && Inspector.Opens(job.limits, job.first.bytes, job.first.archive)
    && Succeeds(InspectionRun(job, files))
  }

  /** No counted asset of the inspected source carries a wrong signature. */
  ghost predicate Allowed(job: Import) {
    forall i :: 0 <= i < |SlotsOf(job.first)| ==> !IsBad(job.env, SlotsOf(job.first)[i])
  }

  ghost predicate Stages(job: Import, files: Files) {
    && Inspects(job, files) && Allowed(job)
    && Inspector.Opens(job.limits, job.second.bytes, job.second.archive)
    && Succeeds(StagingRun(job, files))
  }

  ghost function Staged(job: Import, files: Files): seq<StagedAsset> {
    StateAfter(StagingRun(job, files), |SlotsOf(job.second)|).staged
  }

  ghost function Counted(job: Import, files: Files): nat {
    StateAfter(InspectionRun(job, files), |SlotsOf(job.first)|).assets
  }

  ghost predicate Confirmed(job: Import, files: Files) {
    job.recheck == job.taken && |Staged(job, files)| == Counted(job, files)
  }

  ghost predicate Prepares(job: Import, files: Files) {
    Inspects(job, files) && (Allowed(job) ==> Stages(job, files) && Confirmed(job, files))
  }

  /** The staging directory afterwards. An unreadable recheck returns before any cleanup. */
  ghost function FilesLeft(job: Import, files: Files): Files {
    var staging := StagingRun(job, files);
    if !Inspects(job, files) || !Allowed(job) || !Inspector.Opens(job.limits, job.second.bytes, job.second.archive) then files
    else if !Succeeds(staging) then FilesOnError(staging)
    else if !job.recheck.Readable() || Confirmed(job, files) then FilesAfter(staging, |staging.slots|)
    else files
  }

  // ----- the method

  lemma ReportedIffBad(run: Run)
    ensures ReportedNames(run) == [] <==> forall i :: 0 <= i < |run.slots| ==> !IsBad(run.env, run.slots[i])
  {
    var names := ReportedNames(run);
    if names != [] {
      ReportedNamesAreTheBadOnes(run, names[0]);
    } else {
      forall i | 0 <= i < |run.slots|
        ensures !IsBad(run.env, run.slots[i])
      {
        ReportedNamesAreTheBadOnes(run, SlotName(run.slots[i]));
      }
    }
  }

  lemma BlockedIffNotAllowed(job: Import, files: Files)
    requires Inspects(job, files)
    ensures Inspector.Report(InspectionRun(job, files)).blocked == [] <==> Allowed(job)
  {
    MismatchReportsAreAligned(InspectionRun(job, files));
    ReportedIffBad(InspectionRun(job, files));
  }

  lemma CleanupRestores(job: Import, files: Files)
    requires Stages(job, files)
    ensures FilesAfter(StagingRun(job, files), |SlotsOf(job.second)|) - Names(Staged(job, files)) == files
  {
    FilesAreFoundOrStaged(StagingRun(job, files), |SlotsOf(job.second)|);
  }

  /** `prepare_import` for a package, from the first inspection on. */
  method PrepareImport(job: Import, directory: Inspector.StagingDirectory) returns (r: Result<Prepared, ImportFailure>)
    modifies directory
    ensures r.Ok? <==> Prepares(job, old(directory.files))
    ensures directory.files == FilesLeft(job, old(directory.files))
    ensures r.Ok? ==>
              && r.value.inspection == Inspector.Report(InspectionRun(job, old(directory.files)))
              && r.value.staged == if Allowed(job) then Staged(job, old(directory.files)) else []
  {
    ghost var found := directory.files;
    if job.taken.size.None? {
      return Err(SourceUnreadable);
    }
    var inspected := Inspector.InspectArchive(job.env, job.limits, job.first.bytes, job.first.archive, None, directory);
    NothingStagedWithoutStaging(InspectionRun(job, found));
    if inspected.Err? {
      return Err(Refused(inspected.error));
    }
    if job.taken.digest.None? {
      return Err(SourceUnreadable);
    }
    BlockedIffNotAllowed(job, found);
    if inspected.value.blocked != [] {
      return Ok(Prepared(inspected.value, []));
    }
    r := StageAllowed(job, inspected.value, directory);
  }

  /** The staging half, on an inspection that found nothing to block. */
  method StageAllowed(job: Import, inspected: Inspector.ArchiveInspection, directory: Inspector.StagingDirectory)
    returns (r: Result<Prepared, ImportFailure>)
    requires Inspects(job, directory.files) && Allowed(job)
    requires inspected == Inspector.Report(InspectionRun(job, directory.files))
    modifies directory
    ensures r.Ok? <==> Stages(job, old(directory.files)) && Confirmed(job, old(directory.files))
    ensures directory.files == FilesLeft(job, old(directory.files))
    ensures r.Ok? ==> r.value == Prepared(inspected, Staged(job, old(directory.files)))
  {
    ghost var found := directory.files;
    var staged := Inspector.InspectArchive(job.env, job.limits, job.second.bytes, job.second.archive, Some(job.inspection), directory);
    if staged.Err? {
      return Err(Refused(staged.error));
    }
    assert Stages(job, found);
    CleanupRestores(job, found);
    if job.recheck.digest.None? || job.recheck.size.None? {
      return Err(SourceUnreadable);
    }
    if job.recheck.digest != job.taken.digest || job.recheck.size != job.taken.size {
      Inspector.CleanupStagedAssets(staged.value.staged, directory);
      return Err(SourceChanged);
    }
    if |staged.value.staged| != inspected.assetCount {
      Inspector.CleanupStagedAssets(staged.value.staged, directory);
      return Err(AssetCountMismatch);
    }
    return Ok(Prepared(inspected, staged.value.staged));
  }

  lemma NothingStagedWithoutStaging(run: Run)
    requires run.staging.None?
    ensures FilesOnError(run) == run.files
    ensures forall i :: 0 <= i <= |run.slots| ==> FilesAfter(run, i) == run.files
  {
    forall i | 0 <= i <= |run.slots|
      ensures FilesAfter(run, i) == run.files
    {
      InspectionWritesNothing(run, i);
    }
  }

  lemma {:induction false} InspectionWritesNothing(run: Run, i: nat)
    requires run.staging.None? && i <= |run.slots|
    ensures FilesAfter(run, i) == run.files
  {
    if i > 0 {
      InspectionWritesNothing(run, i - 1);
    }
  }

  // ----- what it promises

  /**
   A failed preparation leaves the directory as it was, unless assets had been staged and the
   source could then not be read again.
   */
  lemma RollbackOfPreparation(job: Import, files: Files)
    requires OpenAndFree(job.second.archive, job.inspection, files) && !Prepares(job, files)
    ensures FilesLeft(job, files) == files <==>
            || !Stages(job, files) || job.recheck.Readable()
            || !exists i :: 0 <= i < |SlotsOf(job.second)| && IsAssetSlot(job.env, SlotsOf(job.second)[i])
  {
    var staging := StagingRun(job, files);
    FailureLeavesNothing(staging);
    if Stages(job, files) {
      FilesChangeIffStaged(staging, |staging.slots|);
    }
  }

  /** Every preparation that stages an asset leaks it when the source cannot be read again. */
  lemma UnreadableRecheckFails(job: Import, files: Files, i: nat)
    requires OpenAndFree(job.second.archive, job.inspection, files) && Stages(job, files) && !job.recheck.Readable()
    requires i < |SlotsOf(job.second)| && IsAssetSlot(job.env, SlotsOf(job.second)[i])
    ensures !Prepares(job, files) && FilesLeft(job, files) != files
  {
    RollbackOfPreparation(job, files);
  }

  /** A preparation that succeeds adds exactly its counted assets, and nothing if it is blocked. */
  lemma PreparedFilesAreExact(job: Import, files: Files)
    requires Prepares(job, files)
    ensures !Allowed(job) ==> FilesLeft(job, files) == files
    ensures Allowed(job) ==>
              var staged, left := Staged(job, files), FilesLeft(job, files);
              && |staged| == Counted(job, files)
              && Adds(files, left, Names(staged))
              && (forall k :: 0 <= k < |staged| ==> FileMatches(job.env, staged[k], left))
              && (forall j, k :: 0 <= j < k < |staged| ==> staged[j].stagedName != staged[k].stagedName)
  {
    if Allowed(job) {
      StagingIsExact(StagingRun(job, files));
    }
  }

  /** An inspection without block reasons met no bad signature, so everything staged is genuine. */
  lemma AllowedMeansGenuine(job: Import, files: Files, k: nat)
    requires Stages(job, files) && job.first == job.second && k < |Staged(job, files)|
    ensures Staged(job, files)[k].signatureValid
  {
    var run := StagingRun(job, files);
    StagedFilesAreFaithful(run, |run.slots|);
    var i := StagedIndices(run, |run.slots|)[k];
    assert AssetStagedAt(run, i, Staged(job, files)[k], FilesAfter(run, |run.slots|));
    assert !IsBad(job.env, SlotsOf(job.first)[i]);
  }

  /** With an unchanged, readable source and a quiet disk only the inspection itself can refuse. */
  lemma OnlyInspectionRefuses(job: Import, files: Files)
    requires job.first == job.second && job.recheck == job.taken
    requires NormalizerIsSane(job.env) && DiskIsQuiet(StagingRun(job, files))
    ensures Prepares(job, files) <==> Inspects(job, files)
  {
    var run := StagingRun(job, files);
    assert InspectionRun(job, files) == run.(staging := None);
    InspectionAndStagingAgree(run);
    StagedCount(run, |run.slots|);
    StagingOnlyAddsFiles(run, |run.slots|);
  }

  // ----- a source that changed in between

  /** Whatever was staged comes from a source whose digest and size were those of the inspection. */
  lemma StagedSourceIsUnchanged(job: Import, files: Files)
    requires Prepares(job, files) && Allowed(job)
    ensures job.taken.digest.Some? && job.recheck.digest == job.taken.digest
    ensures job.taken.size.Some? && job.recheck.size == job.taken.size
  {
  }

  /** A readable source with another digest or size is refused after staging, and nothing stays behind. */
  lemma ChangedSourceIsRefused(job: Import, files: Files)
    requires Stages(job, files) && job.recheck.digest.Some? && job.recheck.size.Some?
    requires job.recheck.digest != job.taken.digest || job.recheck.size != job.taken.size
    ensures !Prepares(job, files) && FilesLeft(job, files) == files
  {
  }

  /** So is a staging that did not stage what the inspection counted. */
  lemma MiscountIsRefused(job: Import, files: Files)
    requires Stages(job, files) && job.recheck == job.taken && |Staged(job, files)| != Counted(job, files)
    ensures !Prepares(job, files) && FilesLeft(job, files) == files
  {
  }

  /** When a preparation succeeds, without naming how it is checked. */
  lemma PreparesIff(job: Import, files: Files)
    ensures Prepares(job, files) <==>
            && job.taken.digest.Some? && job.taken.size.Some?
            && Inspector.Opens(job.limits, job.first.bytes, job.first.archive)
            && Succeeds(InspectionRun(job, files))
            && ((forall i :: 0 <= i < |SlotsOf(job.first)| ==> !IsBad(job.env, SlotsOf(job.first)[i])) ==>
                  && Inspector.Opens(job.limits, job.second.bytes, job.second.archive)
                  && Succeeds(StagingRun(job, files))
                  && job.recheck.digest == job.taken.digest && job.recheck.size == job.taken.size
                  && |Inspector.Report(StagingRun(job, files)).staged| == Inspector.Report(InspectionRun(job, files)).assetCount)
  {
  }
}
