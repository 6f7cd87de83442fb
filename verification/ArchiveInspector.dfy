/** The inspector itself: one mutable state, walked over every entry of the archive. */
module ArchiveInspector {
  import opened Wrappers
  import opened EntryDecoding
  import opened AssetSignatures
  import opened PartialFiles
  import opened ArchiveModel
  import ArchivePaths
  import CardFields
  import CentralDirectory
  import Ordering

  datatype EntryRead = EntryRead(
    metadata: Option<seq<byte>>, header: seq<byte>, sizeBytes: nat, staged: Option<StagedAsset>)

  datatype ArchiveInspection = ArchiveInspection(
    metadata: CardFields.CardMetadata, assetCount: nat, total: nat, warnings: seq<Warning>,
    blocked: seq<string>, image: Option<ImagePreview>, staged: seq<StagedAsset>)

  /** `saturating_mul` on 64 bits. */
  function SaturatingMul(a: u64, b: u64): u64 {
    if a * b > U64_MAX then U64_MAX else a * b
  }

  /** The saturated comparison of the source is the exact one. */
  lemma RatioTestIsExact(e: Entry, limits: Limits)
    ensures e.size > 0 && (e.compressed == 0 || e.size > SaturatingMul(e.compressed, limits.maxRatio))
            <==> !WithinRatio(e, limits)
  {
    if e.compressed == 0 {
      assert e.compressed * limits.maxRatio == 0;
    }
    assert e.compressed * limits.maxRatio >= 0;
  }

  predicate WarningLeq(a: Warning, b: Warning) {
    if a.code == b.code then Ordering.StringLeq(a.message, b.message) else Ordering.StringLeq(a.code, b.code)
  }

  class StagingDirectory {
    var files: Files

    constructor (files: Files)
      ensures this.files == files
    {
      this.files := files;
    }
  }

  class InspectionState {
    var archivePaths: ArchivePaths.Registry
    var declaredTotal: u64
    var totalUncompressed: u64
    var metadataBytes: Option<seq<byte>>
    var assetCount: nat
    var warnings: seq<Warning>
    var blockedReasons: seq<string>
    var representativeImage: Option<ImagePreview>
    var stagedAssets: seq<StagedAsset>

    ghost function Snapshot(): State
      reads this
    {
      State(archivePaths, declaredTotal, totalUncompressed, metadataBytes, assetCount,
            warnings, blockedReasons, representativeImage, stagedAssets)
    }

    constructor ()
      ensures Snapshot() == Empty
    {
      archivePaths, declaredTotal, totalUncompressed, metadataBytes, assetCount := map[], 0, 0, None, 0;
      warnings, blockedReasons, representativeImage, stagedAssets := [], [], None, [];
    }

    /** `validate_entry_type_and_size`. */
    method ValidateTypeAndSize(e: Entry, limits: Limits) returns (r: Option<Rejection>)
      modifies this`declaredTotal
      ensures r.None? <==>
              && !e.isSymlink && !e.encrypted && (e.isDir ==> e.size == 0) && e.size <= limits.maxEntryBytes
              && old(declaredTotal) + e.size <= limits.maxTotalBytes && WithinRatio(e, limits)
      ensures r.None? ==> declaredTotal == old(declaredTotal) + e.size
      ensures r.Some? ==> forall env: Env, paths ::
                NameOk(env, e) && ArchivePaths.Fits(paths, Key(env, e), e.isDir) ==>
                  Refusal(env, limits, paths, old(declaredTotal), e) == r
    {
      if e.isSymlink {
        return Some(Symlink);
      }
      if e.encrypted {
        return Some(Encrypted);
      }
      if e.isDir && e.size != 0 {
        return Some(DirectoryWithData);
      }
      if e.size > limits.maxEntryBytes {
        return Some(EntryTooLarge);
      }
      if declaredTotal + e.size > U64_MAX {
        return Some(TotalOverflow);
      }
      declaredTotal := declaredTotal + e.size;
      if declaredTotal > limits.maxTotalBytes {
        return Some(TotalTooLarge);
      }
      RatioTestIsExact(e, limits);
      if e.size > 0 && (e.compressed == 0 || e.size > SaturatingMul(e.compressed, limits.maxRatio)) {
        return Some(RatioExceeded);
      }
      return None;
    }

    /** `prepare_entry`: admission, with the path registered and the declared size added. */
    method PrepareEntry(env: Env, e: Entry, limits: Limits) returns (r: Result<EntryPlan, Rejection>)
      modifies this`archivePaths, this`declaredTotal
      ensures match Refusal(env, limits, old(archivePaths), old(declaredTotal), e)
              case Some(reason) => r == Err(reason)
              case None =>
                && r == Ok(PlanOf(env, e))
                && archivePaths == old(archivePaths)[Key(env, e) := e.isDir]
                && declaredTotal == old(declaredTotal) + e.size
    {
      if e.name.None? {
        return Err(NameNotUtf8);
      }
      var name := e.name.value;
      var collisionKey := env.normalize(name);
      if collisionKey.None? {
        return Err(BadPath);
      }
      var registered := ArchivePaths.Register(archivePaths, collisionKey.value, e.isDir);
      if registered.Err? {
        return Err(PathCollision);
      }
      archivePaths := registered.value;
      var refusal := ValidateTypeAndSize(e, limits);
      if refusal.Some? {
        assert Refusal(env, limits, old(archivePaths), old(declaredTotal), e) == refusal;
        return Err(refusal.value);
      }
      var extension := env.extension(name);
      var isMetadata := collisionKey.value == CARD_PATH && !e.isDir;
      if isMetadata && e.size > MAX_METADATA_BYTES {
        return Err(MetadataTooLarge);
      }
      return Ok(EntryPlan(name, collisionKey.value, extension, isMetadata, IsAssetExtension(extension) && !e.isDir));
    }

    /** `read_entry`: on failure the file under this entry's partial name is gone. */
    method ReadEntry(env: Env, e: Entry, plan: EntryPlan, limits: Limits, disk: Disk,
                     stagedAs: Option<string>, directory: StagingDirectory)
      returns (r: Result<EntryRead, Rejection>)
      requires plan == PlanOf(env, e)
      modifies this`totalUncompressed, directory
      ensures r.Ok? <==> Reads(env, limits, old(totalUncompressed), e, disk, stagedAs, old(directory.files))
      ensures r.Ok? ==>
                && IsReadOf(env, e, stagedAs, r.value)
                && totalUncompressed == old(totalUncompressed) + |Content(e.reader)|
                && directory.files == FilesWith(env, old(directory.files), e, stagedAs)
      ensures r.Err? ==> directory.files == RefusedFiles(old(directory.files), stagedAs, true)
    {
      var staging := plan.isAsset && stagedAs.Some?;
      if staging && (stagedAs.value in directory.files || disk.createFails) {
        directory.files := directory.files - {stagedAs.value};
        return Err(DiskFailure);
      }
      var decoded, total, written :=
        DecodeEntry(e.reader, e.size, plan.isMetadata, plan.isAsset, limits, totalUncompressed, staging, disk);
      totalUncompressed := total;
      if staging {
        directory.files := directory.files[stagedAs.value := written];
      }
      if decoded.Err? {
        if stagedAs.Some? {
          directory.files := directory.files - {stagedAs.value};
        }
        return Err(decoded.error);
      }
      var staged: Option<StagedAsset> := None;
      if staging {
        staged := Some(StagedAsset(plan.assetId, stagedAs.value, env.sha256(written),
                                   MediaType(plan.extension), decoded.value.sizeBytes, true));
      }
      return Ok(EntryRead(decoded.value.metadata, decoded.value.header, decoded.value.sizeBytes, staged));
    }

    ghost predicate IsReadOf(env: Env, e: Entry, stagedAs: Option<string>, read: EntryRead) {
      && read.metadata == (if IsMetadata(env, e) then Some(Content(e.reader)) else None)
      && read.header == (if IsAsset(env, e) then First(Content(e.reader)) else [])
      && read.sizeBytes == |Content(e.reader)|
      && read.staged == (if stagedAs.Some? && IsAsset(env, e)
                         then Some(StagedAsset(Key(env, e), stagedAs.value, env.sha256(Content(e.reader)),
                                               MediaType(env.extension(Name(e))), |Content(e.reader)|, true))
                         else None)
    }

    /** The signature check of one counted asset; returns whether the signature is genuine. */
    method RecordAsset(ghost content: seq<byte>, plan: EntryPlan, header: seq<byte>, sizeBytes: nat)
      returns (signatureValid: bool)
      requires assetCount < U32_MAX && header == First(content)
      modifies this`assetCount, this`warnings, this`blockedReasons, this`representativeImage
      ensures signatureValid == SignatureMatches(plan.extension, content)
      ensures assetCount == old(assetCount) + 1
      ensures warnings == if signatureValid then old(warnings) else old(warnings) + [WarningFor(plan.name)]
      ensures blockedReasons == if signatureValid then old(blockedReasons) else old(blockedReasons) + [ReasonFor(plan.name)]
      ensures representativeImage ==
              if signatureValid && old(representativeImage).None? && IsImage(plan.extension)
              then Some(ImagePreview(plan.assetId, MediaType(plan.extension), sizeBytes)) else old(representativeImage)
    {
      assetCount := assetCount + 1;
      HeaderDecidesSignature(plan.extension, content);
      signatureValid := SignatureMatches(plan.extension, header);
      var mediaType := MediaType(plan.extension);
      if !signatureValid {
        warnings := warnings + [WarningFor(plan.name)];
        blockedReasons := blockedReasons + [ReasonFor(plan.name)];
      } else if representativeImage.None? && "image/" <= mediaType {
        representativeImage := Some(ImagePreview(plan.assetId, mediaType, sizeBytes));
      }
    }

    /** The metadata or asset branch of `inspect_entry`; returns whether the entry's signature is in order. */
    method RecordContent(ghost env: Env, ghost e: Entry, ghost stagedAs: Option<string>, plan: EntryPlan, read: EntryRead)
      returns (r: Option<Rejection>, genuine: bool)
      requires plan == PlanOf(env, e) && IsReadOf(env, e, stagedAs, read) && assetCount <= U32_MAX
      modifies this`metadataBytes, this`assetCount, this`warnings, this`blockedReasons, this`representativeImage
      ensures r.None? <==> !(Counted(env, e) && old(assetCount) == U32_MAX)
      ensures r.None? ==> genuine == !Mismatched(env, e) && Snapshot() == Booked(env, old(Snapshot()), e, None)
    {
      r, genuine := None, true;
      if read.metadata.Some? {
        metadataBytes := read.metadata;
      } else if plan.isAsset {
        if assetCount == U32_MAX {
          return Some(AssetCountOverflow), true;
        }
        genuine := RecordAsset(Content(e.reader), plan, read.header, read.sizeBytes);
      }
    }

    /** The bookkeeping half of `inspect_entry`. */
    method RecordEntry(ghost env: Env, ghost e: Entry, ghost stagedAs: Option<string>, plan: EntryPlan, read: EntryRead)
      returns (r: Option<Rejection>)
      requires plan == PlanOf(env, e) && IsReadOf(env, e, stagedAs, read) && assetCount <= U32_MAX
      modifies this`metadataBytes, this`assetCount, this`warnings, this`blockedReasons, this`representativeImage, this`stagedAssets
      ensures r.None? <==> !(Counted(env, e) && old(assetCount) == U32_MAX)
      ensures r.Some? ==> stagedAssets == old(stagedAssets)
      ensures r.None? ==> Snapshot() == Booked(env, old(Snapshot()), e, stagedAs)
    {
      var genuine;
      BookedStaged(env, Snapshot(), e, stagedAs);
      r, genuine := RecordContent(env, e, stagedAs, plan, read);
      if r.None? && read.staged.Some? {
        stagedAssets := stagedAssets + [Stamped(read.staged.value, genuine)];
      }
    }

    /** `inspect_entry`: admission, decoding and bookkeeping of one entry. */
    method InspectEntry(env: Env, e: Entry, limits: Limits, disk: Disk,
                        stagedAs: Option<string>, directory: StagingDirectory)
      returns (r: Option<Rejection>)
      requires assetCount <= U32_MAX
      modifies this, directory
      ensures r.None? <==>
              && old(Passes(env, limits, Snapshot(), e, disk, stagedAs, directory.files))
              && !(Counted(env, e) && old(assetCount) == U32_MAX)
      ensures r.None? ==> Snapshot() == Advance(env, old(Snapshot()), e, stagedAs)
      ensures r.None? ==> directory.files == FilesWith(env, old(directory.files), e, stagedAs)
      ensures r.Some? ==> stagedAssets == old(stagedAssets)
      ensures r.Some? && old(assetCount) < U32_MAX ==>
                directory.files == RefusedFiles(old(directory.files), stagedAs,
                                                old(Admits(env, limits, archivePaths, declaredTotal, e)))
    {
      var plan := PrepareEntry(env, e, limits);
      if plan.Err? {
        return Some(plan.error);
      }
      var read := ReadEntry(env, e, plan.value, limits, disk, stagedAs, directory);
      if read.Err? {
        return Some(read.error);
      }
      r := RecordEntry(env, e, stagedAs, plan.value, read.value);
    }
  }

  /** `cleanup_staged_assets`. */
  method CleanupStagedAssets(assets: seq<StagedAsset>, directory: StagingDirectory)
    modifies directory
    ensures directory.files == old(directory.files) - Names(assets)
  {
    for i := 0 to |assets|
      invariant directory.files == old(directory.files) - Names(assets[..i])
    {
      NamesGrow(assets[..i], assets[i]);
      assert assets[..i] + [assets[i]] == assets[..i + 1];
      directory.files := directory.files - {assets[i].stagedName};
    }
    assert assets[..|assets|] == assets;
  }

  /** Everything `ZipArchive::new` and the end-of-central-directory record settle before the first entry. */
  predicate Opens(limits: Limits, file: seq<byte>, archive: Option<seq<Slot>>) {
    var declared := CentralDirectory.DeclaredEntryCount(file);
    && declared.Ok? && declared.value <= limits.maxEntries
    && archive.Some? && |archive.value| == declared.value
  }

  /** What a successful inspection reports. */
  ghost function Report(run: Run): ArchiveInspection
    requires StateAfter(run, |run.slots|).metadata.Some?
    requires CardOk(run.env, StateAfter(run, |run.slots|).metadata)
  {
    var s := StateAfter(run, |run.slots|);
    var document := run.env.decodeJson(s.metadata.value).value;
    ArchiveInspection(
      CardFields.CardOf(|s.metadata.value|, document), s.assets, s.total,
      Ordering.Sort(WarningLeq, s.warnings),
      Ordering.Dedup(Ordering.Sort(Ordering.StringLeq, s.blocked)), s.image, s.staged)
  }

  /**
   `inspect_archive_internal`. `archive` is what the ZIP reader makes of `file`; `directory` is only
   written when `staging` names an inspection.
   */
  method InspectArchive(env: Env, limits: Limits, file: seq<byte>, archive: Option<seq<Slot>>,
                        staging: Option<string>, directory: StagingDirectory)
    returns (r: Result<ArchiveInspection, Rejection>)
    modifies directory
    ensures r.Ok? ==> archive.Some? && |archive.value| <= limits.maxEntries && |archive.value| < 65535
    ensures !Opens(limits, file, archive) ==> r.Err? && directory.files == old(directory.files)
    ensures Opens(limits, file, archive) ==>
              var run := Run(env, limits, archive.value, staging, old(directory.files));
              && (r.Ok? <==> Succeeds(run))
              && (r.Ok? ==> r.value == Report(run) && directory.files == FilesAfter(run, |run.slots|))
              && (r.Err? ==> directory.files == FilesOnError(run))
  {
    var declared := CentralDirectory.DeclaredEntryCount(file);
    CentralDirectory.CountComesFromLastRecord(file);
    if declared.Err? {
      return Err(if declared.error.NoCentralDirectory? then NoDirectory else MultiDiskOrZip64);
    }
    if declared.value > limits.maxEntries {
      return Err(TooManyEntries);
    }
    if archive.None? {
      return Err(UnreadableArchive);
    }
    if |archive.value| != declared.value {
      return Err(DuplicateNames);
    }
    r := InspectEntries(env, limits, archive.value, staging, directory);
  }

  /** The entry loop of `inspect_archive_internal` and what follows it. */
  method InspectEntries(env: Env, limits: Limits, slots: seq<Slot>, staging: Option<string>, directory: StagingDirectory)
    returns (r: Result<ArchiveInspection, Rejection>)
    requires |slots| <= U16_MAX
    modifies directory
    ensures var run := Run(env, limits, slots, staging, old(directory.files));
            && (r.Ok? <==> Succeeds(run))
            && (r.Ok? ==> r.value == Report(run) && directory.files == FilesAfter(run, |run.slots|))
            && (r.Err? ==> directory.files == FilesOnError(run))
  {
    ghost var run := Run(env, limits, slots, staging, directory.files);
    var state := new InspectionState();
    for index := 0 to |slots|
      invariant AllPass(run, index)
      invariant state.Snapshot() == StateAfter(run, index)
      invariant directory.files == FilesAfter(run, index)
    {
      if slots[index].entry.None? {
        ProgressIs(run, index, |slots|);
        return Err(UnreadableEntry);
      }
      var stagedAs := if staging.Some? then Some(PartialName(staging.value, index)) else None;
      var refusal := VisitEntry(run, index, env, limits, slots[index].entry.value, slots[index].disk, stagedAs, state, directory);
      if refusal.Some? {
        return Err(refusal.value);
      }
    }
    ProgressIs(run, |slots|, |slots|);
    r := Conclude(run, env, state, directory);
  }

  /** One turn of the entry loop, with the cleanup a refusal triggers. */
  method VisitEntry(ghost run: Run, ghost index: nat, env: Env, limits: Limits, e: Entry, disk: Disk,
                    stagedAs: Option<string>, state: InspectionState, directory: StagingDirectory)
    returns (refusal: Option<Rejection>)
    requires index < |run.slots| <= U16_MAX && AllPass(run, index)
    requires run.slots[index] == Slot(Some(e), disk) && stagedAs == StagedAs(run, index)
    requires env == run.env && limits == run.limits
    requires state.Snapshot() == StateAfter(run, index) && directory.files == FilesAfter(run, index)
    modifies state, directory
    ensures refusal.None? ==>
              && PassesAt(run, index)
              && state.Snapshot() == StateAfter(run, index + 1) && directory.files == FilesAfter(run, index + 1)
    ensures refusal.Some? ==> Progress(run, |run.slots|) == index && directory.files == FilesOnError(run)
  {
    TotalsAgree(run, index);
    refusal := state.InspectEntry(env, e, limits, disk, stagedAs, directory);
    if refusal.Some? {
      ProgressIs(run, index, |run.slots|);
      CleanupStagedAssets(state.stagedAssets, directory);
      ghost var s := StateAfter(run, index);
      CleanupAfterRefusal(run, index, stagedAs, Admits(env, limits, s.paths, s.declared, e));
    }
  }

  /** The end of `inspect_archive_internal`: the card is parsed and the report put in order. */
  method Conclude(ghost run: Run, env: Env, state: InspectionState, directory: StagingDirectory)
    returns (r: Result<ArchiveInspection, Rejection>)
    requires AllPass(run, |run.slots|) && state.Snapshot() == StateAfter(run, |run.slots|)
    requires directory.files == FilesAfter(run, |run.slots|) && env == run.env
    modifies directory
    ensures r.Ok? <==> Succeeds(run)
    ensures r.Ok? ==> r.value == Report(run) && directory.files == FilesAfter(run, |run.slots|)
    ensures r.Err? ==> directory.files == run.files
  {
    var metadata := state.metadataBytes;
    CleanupAfterRefusal(run, |run.slots|, None, false);
    if metadata.None? {
      CleanupStagedAssets(state.stagedAssets, directory);
      return Err(NoMetadata);
    }
    var card := CardFields.ParseCardJson(|metadata.value|, env.decodeJson(metadata.value));
    if card.Err? {
      CleanupStagedAssets(state.stagedAssets, directory);
      return Err(BadMetadata);
    }
    return Ok(ArchiveInspection(
                card.value, state.assetCount, state.totalUncompressed,
                Ordering.Sort(WarningLeq, state.warnings),
                Ordering.Dedup(Ordering.Sort(Ordering.StringLeq, state.blockedReasons)),
                state.representativeImage, state.stagedAssets));
  }
}
