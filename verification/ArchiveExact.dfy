/**
 The inspector's promises spelled out over the archive itself: raw header fields, literal limits,
 and what the returned report says of the slots.
 */
module ArchiveExact {
  import opened Wrappers
  import opened EntryDecoding
  import opened ArchiveModel
  import opened ArchiveTheorems
  import opened ArchiveReports
  import opened Folding
  import opened PartialFiles
  import ArchivePaths
  import AssetSignatures
  import CardFields
  import Inspector = ArchiveInspector

  // ----- acceptance

  /** A header that is admissible on its own, field by field. */
  ghost predicate HeaderAllowed(env: Env, limits: Limits, e: Entry) {
    && e.name.Some? && env.normalize(e.name.value).Some?
    && !e.isSymlink && !e.encrypted
    && (e.isDir ==> e.size == 0)
    && e.size <= limits.maxEntryBytes
    && (e.size == 0 || (e.compressed > 0 && e.size <= e.compressed * limits.maxRatio))
    && (!e.isDir && env.normalize(e.name.value) == Some("card.json") ==> e.size <= 4194304)
  }

  ghost predicate HasAssetExtension(env: Env, e: Entry) {
    e.name.Some? && env.extension(e.name.value) in {"png", "jpg", "jpeg", "gif", "webp", "avif", "mp3", "wav", "ogg"}
  }

  /** The file of an asset can be created, written and synced. */
  ghost predicate Storable(run: Run, i: nat, e: Entry)
    requires i < |run.slots|
  {
    run.staging.Some? && !e.isDir && HasAssetExtension(run.env, e) ==>
      && PartialName(run.staging.value, i) !in run.files
      && !run.slots[i].disk.createFails && !run.slots[i].disk.syncFails
      && (run.slots[i].disk.writeFailsAt.Some? ==> ChunkCount(e.reader) <= run.slots[i].disk.writeFailsAt.value)
  }

  ghost predicate SlotAllowed(run: Run, i: nat)
    requires i < |run.slots|
  {
    && run.slots[i].entry.Some?
    && var e := run.slots[i].entry.value;
       && HeaderAllowed(run.env, run.limits, e)
       && !Faulty(e.reader) && |Content(e.reader)| == e.size
       && Storable(run, i, e)
  }

  /** Two accepted names: different keys, and neither lies below the other if that is a file. */
  ghost predicate NamesAgree(env: Env, a: Slot, b: Slot) {
    && a.entry.Some? && a.entry.value.name.Some? && env.normalize(a.entry.value.name.value).Some?
    && b.entry.Some? && b.entry.value.name.Some? && env.normalize(b.entry.value.name.value).Some?
    && var k, l := env.normalize(a.entry.value.name.value).value, env.normalize(b.entry.value.name.value).value;
       && k != l
       && (!a.entry.value.isDir ==> !(k + "/" <= l))
       && (!b.entry.value.isDir ==> !(l + "/" <= k))
  }

  lemma ExtensionIsListed(env: Env, e: Entry)
    requires e.name.Some?
    ensures HasAssetExtension(env, e) <==> AssetSignatures.IsAssetExtension(env.extension(e.name.value))
  {
  }

  lemma RatioSpelledOut(e: Entry, limits: Limits)
    ensures WithinRatio(e, limits) <==> e.size == 0 || (e.compressed > 0 && e.size <= e.compressed * limits.maxRatio)
  {
    Inspector.RatioTestIsExact(e, limits);
    if e.compressed == 0 {
      assert e.compressed * limits.maxRatio == 0;
    }
    assert e.compressed * limits.maxRatio >= 0;
  }

  lemma HeaderSpelledOut(env: Env, limits: Limits, e: Entry)
    ensures LocallyAdmissible(env, limits, e) <==> HeaderAllowed(env, limits, e)
  {
    RatioSpelledOut(e, limits);
  }

  lemma SlotSpelledOut(run: Run, i: nat)
    requires i < |run.slots|
    ensures Sound(run, i) <==> SlotAllowed(run, i)
  {
    if run.slots[i].entry.Some? {
      var e := run.slots[i].entry.value;
      HeaderSpelledOut(run.env, run.limits, e);
      if e.name.Some? {
        ExtensionIsListed(run.env, e);
      }
    }
  }

  lemma PairSpelledOut(run: Run, i: nat, j: nat)
    requires i < |run.slots| && j < |run.slots| && SlotAllowed(run, i) && SlotAllowed(run, j)
    ensures ArchivePaths.Agree(SlotPath(run.env, run.slots[i]), SlotPath(run.env, run.slots[j])) <==>
            NamesAgree(run.env, run.slots[i], run.slots[j])
  {
  }

  ghost predicate AllNamesAgree(run: Run) {
    forall i, j :: 0 <= i < j < |run.slots| ==> NamesAgree(run.env, run.slots[i], run.slots[j])
  }

  ghost predicate AllSlotsAllowed(run: Run) {
    forall i :: 0 <= i < |run.slots| ==> SlotAllowed(run, i)
  }

  lemma PairsSpelledOut(run: Run)
    requires AllSlotsAllowed(run)
    ensures ArchivePaths.PairwiseCompatible(Paths(run, |run.slots|)) <==> AllNamesAgree(run)
  {
    var paths := Paths(run, |run.slots|);
    forall i, j | 0 <= i < j < |run.slots|
      ensures ArchivePaths.Agree(paths[i], paths[j]) <==> NamesAgree(run.env, run.slots[i], run.slots[j])
    {
      PathsAt(run, |run.slots|, i);
      PathsAt(run, |run.slots|, j);
      PairSpelledOut(run, i, j);
    }
  }

  /**
   All entries pass exactly when every header is admissible field by field, every entry decodes to
   its announced size, assets can be stored, no two names collide and the announced sizes sum to at
   most the limit.
   */
  lemma AcceptanceSpelledOut(run: Run)
    ensures AllPass(run, |run.slots|) <==>
            AllSlotsAllowed(run) && AllNamesAgree(run) && Fold(Plus, SizeOf, run.slots) <= run.limits.maxTotalBytes
  {
    AcceptanceIsDeclarative(run);
    forall i | 0 <= i < |run.slots|
      ensures Sound(run, i) <==> SlotAllowed(run, i)
    {
      SlotSpelledOut(run, i);
    }
    if AllSlotsAllowed(run) {
      PairsSpelledOut(run);
    }
  }

  /** What a reason says about the refused header. */
  ghost predicate NamesFault(reason: Rejection, env: Env, limits: Limits, paths: ArchivePaths.Registry, declared: nat, e: Entry) {
    match reason
    case NameNotUtf8 => e.name.None?
    case BadPath => e.name.Some? && env.normalize(e.name.value).None?
    case PathCollision =>
      && e.name.Some? && env.normalize(e.name.value).Some?
      && !ArchivePaths.Fits(paths, env.normalize(e.name.value).value, e.isDir)
    case Symlink => e.isSymlink
    case Encrypted => e.encrypted
    case DirectoryWithData => e.isDir && e.size > 0
    case EntryTooLarge => e.size > limits.maxEntryBytes
    case TotalOverflow => declared + e.size > 0xFFFF_FFFF_FFFF_FFFF
    case TotalTooLarge => limits.maxTotalBytes < declared + e.size
    case RatioExceeded => e.size > 0 && (e.compressed == 0 || e.size > e.compressed * limits.maxRatio)
    case MetadataTooLarge =>
      e.name.Some? && env.normalize(e.name.value) == Some("card.json") && !e.isDir && e.size > 4194304
    case _ => false
  }

  /** A refusal names a fault the header really has, and is absent only if it has none. */
  lemma RefusalIsTruthful(env: Env, limits: Limits, paths: ArchivePaths.Registry, declared: nat, e: Entry)
    ensures var r := Refusal(env, limits, paths, declared, e);
            && (r.Some? ==> NamesFault(r.value, env, limits, paths, declared, e))
            && (r.None? ==> forall reason: Rejection :: !NamesFault(reason, env, limits, paths, declared, e))
  {
    RatioSpelledOut(e, limits);
  }

  // ----- the report

  /** A file with an asset extension other than the card itself. */
  ghost predicate CountsAsAsset(env: Env, slot: Slot) {
    && slot.entry.Some? && !slot.entry.value.isDir && HasAssetExtension(env, slot.entry.value)
    && env.normalize(slot.entry.value.name.value) != Some("card.json")
  }

  ghost predicate HoldsCard(env: Env, slot: Slot) {
    && slot.entry.Some? && !slot.entry.value.isDir
    && slot.entry.value.name.Some? && env.normalize(slot.entry.value.name.value) == Some("card.json")
  }

  /** A counted image whose content starts with its magic number. */
  ghost predicate ShowsImage(env: Env, slot: Slot) {
    && CountsAsAsset(env, slot)
    && var e := slot.entry.value;
       && env.extension(e.name.value) in {"png", "jpg", "jpeg", "gif", "webp", "avif"}
       && AssetSignatures.SignatureMatches(env.extension(e.name.value), Content(e.reader))
  }

  ghost function HowMany(run: Run, n: nat): nat
    requires n <= |run.slots|
  {
    if n == 0 then 0 else HowMany(run, n - 1) + if CountsAsAsset(run.env, run.slots[n - 1]) then 1 else 0
  }

  lemma SlotKinds(run: Run, i: nat)
    requires i < |run.slots| && SlotAllowed(run, i)
    ensures var slot := run.slots[i];
            && (CountsAsAsset(run.env, slot) <==> Counted(run.env, slot.entry.value))
            && (HoldsCard(run.env, slot) <==> IsCard(run.env, slot))
  {
    ExtensionIsListed(run.env, run.slots[i].entry.value);
  }

  lemma ImageFormats(extension: string)
    ensures AssetSignatures.IsImage(extension) <==> extension in {"png", "jpg", "jpeg", "gif", "webp", "avif"}
  {
    var media := AssetSignatures.MediaType(extension);
    assert "image/" <= "image/png" && "image/" <= "image/jpeg" && "image/" <= "image/gif";
    assert "image/" <= "image/webp" && "image/" <= "image/avif";
    assert media[0] == 'a' ==> !("image/" <= media);
  }

  lemma SlotPreviews(run: Run, i: nat)
    requires i < |run.slots| && SlotAllowed(run, i)
    ensures ShowsImage(run.env, run.slots[i]) <==> IsPreview(run.env, run.slots[i])
  {
    SlotKinds(run, i);
    ImageFormats(run.env.extension(run.slots[i].entry.value.name.value));
  }

  lemma {:induction false} CountIsExact(run: Run, n: nat)
    requires n <= |run.slots| && AllSlotsAllowed(run)
    ensures StateAfter(run, n).assets == HowMany(run, n)
  {
    if n > 0 {
      CountIsExact(run, n - 1);
      SlotKinds(run, n - 1);
    }
  }

  /** The preview of an image slot: its normalised path, media type and decoded size. */
  ghost function ImageOf(env: Env, slot: Slot): ImagePreview
    requires ShowsImage(env, slot)
  {
    var e := slot.entry.value;
    var key := env.normalize(e.name.value);
    ImagePreview(if key.Some? then key.value else "", AssetSignatures.MediaType(env.extension(e.name.value)), |Content(e.reader)|)
  }

  /** `k` is the first slot with a genuine counted image. */
  ghost predicate FirstImage(run: Run, k: nat) {
    k < |run.slots| && ShowsImage(run.env, run.slots[k]) && forall i :: 0 <= i < k ==> !ShowsImage(run.env, run.slots[i])
  }

  lemma PreviewsAreImages(run: Run)
    requires AllSlotsAllowed(run)
    ensures forall i :: 0 <= i < |run.slots| ==> (ShowsImage(run.env, run.slots[i]) <==> IsPreview(run.env, run.slots[i]))
  {
    forall i | 0 <= i < |run.slots|
      ensures ShowsImage(run.env, run.slots[i]) <==> IsPreview(run.env, run.slots[i])
    {
      SlotPreviews(run, i);
    }
  }

  lemma FirstImageIsFirstPreview(run: Run, k: nat)
    requires AllSlotsAllowed(run) && FirstImage(run, k)
    ensures FirstPreview(run, |run.slots|) == Some(k)
    ensures PreviewOf(run.env, run.slots[k].entry.value) == ImageOf(run.env, run.slots[k])
  {
    PreviewsAreImages(run);
    FirstPreviewIsLowest(run, |run.slots|);
    assert SlotAllowed(run, k);
  }

  lemma NoImageNoPreview(run: Run)
    requires AllSlotsAllowed(run)
    ensures FirstPreview(run, |run.slots|).None? <==> forall i :: 0 <= i < |run.slots| ==> !ShowsImage(run.env, run.slots[i])
  {
    PreviewsAreImages(run);
    FirstPreviewIsLowest(run, |run.slots|);
  }

  lemma ImageIsExact(run: Run)
    requires AllSlotsAllowed(run)
    ensures var image := StateAfter(run, |run.slots|).image;
            && (image.None? <==> forall i :: 0 <= i < |run.slots| ==> !ShowsImage(run.env, run.slots[i]))
            && (forall k: nat :: FirstImage(run, k) ==> image == Some(ImageOf(run.env, run.slots[k])))
  {
    ImageIsFirstPreview(run, |run.slots|);
    NoImageNoPreview(run);
    forall k: nat | FirstImage(run, k)
      ensures StateAfter(run, |run.slots|).image == Some(ImageOf(run.env, run.slots[k]))
    {
      FirstImageIsFirstPreview(run, k);
    }
  }

  lemma CardIsExact(run: Run) returns (i: nat)
    requires Succeeds(run)
    ensures i < |run.slots| && run.slots[i].entry.Some? && HoldsCard(run.env, run.slots[i])
    ensures forall j :: 0 <= j < |run.slots| && HoldsCard(run.env, run.slots[j]) ==> j == i
    ensures StateAfter(run, |run.slots|).metadata == Some(Content(run.slots[i].entry.value.reader))
  {
    AcceptanceSpelledOut(run);
    if forall j :: 0 <= j < |run.slots| ==> !IsCard(run.env, run.slots[j]) {
      NoCardNoMetadata(run, |run.slots|);
    }
    i :| i < |run.slots| && IsCard(run.env, run.slots[i]);
    SlotKinds(run, i);
    MetadataIsTheCard(run, |run.slots|, i);
    forall j | 0 <= j < |run.slots| && HoldsCard(run.env, run.slots[j])
      ensures j == i
    {
      SlotKinds(run, j);
    }
  }

  /**
   The figures a successful inspection returns, read off the slots: all decoded bytes, the number of
   counted assets, and the preview of the first genuine image.
   */
  lemma ReportedFiguresAreExact(run: Run)
    requires Succeeds(run)
    ensures var report := Inspector.Report(run);
            && report.total == Fold(Plus, DecodedOf, run.slots)
            && report.assetCount == HowMany(run, |run.slots|)
            && (report.image.None? <==> forall i :: 0 <= i < |run.slots| ==> !ShowsImage(run.env, run.slots[i]))
            && (forall k: nat :: FirstImage(run, k) ==> report.image == Some(ImageOf(run.env, run.slots[k])))
  {
    AcceptanceSpelledOut(run);
    BytesAreConserved(run);
    CountIsExact(run, |run.slots|);
    ImageIsExact(run);
  }

  /** The card it returns is read from the content of the only card entry. */
  lemma ReportedCardIsExact(run: Run) returns (i: nat)
    requires Succeeds(run)
    ensures i < |run.slots| && run.slots[i].entry.Some? && HoldsCard(run.env, run.slots[i])
    ensures forall j :: 0 <= j < |run.slots| && HoldsCard(run.env, run.slots[j]) ==> j == i
    ensures var content := Content(run.slots[i].entry.value.reader);
            && run.env.decodeJson(content).Some?
            && CardFields.ValidCard(|content|, run.env.decodeJson(content))
            && Inspector.Report(run).metadata == CardFields.CardOf(|content|, run.env.decodeJson(content).value)
  {
    i := CardIsExact(run);
  }

  /** A staged record, field by field. */
  ghost predicate RecordIsExact(run: Run, i: nat, asset: StagedAsset, files: Files) {
    && i < |run.slots| && run.slots[i].entry.Some? && run.staging.Some?
    && var e := run.slots[i].entry.value;
       && !e.isDir && HasAssetExtension(run.env, e) && run.env.normalize(e.name.value) == Some(asset.originalPath)
       && asset.stagedName == PartialName(run.staging.value, i)
       && asset.stagedName in files && files[asset.stagedName] == Content(e.reader)
       && asset.sizeBytes == |Content(e.reader)| && asset.sha256 == run.env.sha256(Content(e.reader))
       && var genuine := HoldsCard(run.env, run.slots[i])
                         || AssetSignatures.SignatureMatches(run.env.extension(e.name.value), Content(e.reader));
          && asset.signatureValid == genuine
          && asset.mediaType ==
             if genuine then AssetSignatures.MediaType(run.env.extension(e.name.value)) else "application/octet-stream"
  }

  lemma RecordSpelledOut(run: Run, i: nat, asset: StagedAsset, files: Files)
    requires AssetStagedAt(run, i, asset, files) && SlotAllowed(run, i)
    ensures RecordIsExact(run, i, asset, files)
  {
    SlotKinds(run, i);
    ExtensionIsListed(run.env, run.slots[i].entry.value);
  }

  /** Slots of the assets a run stages, in order. */
  ghost predicate StagesSlots(run: Run, indices: seq<nat>) {
    && (forall k :: 0 <= k < |indices| ==> indices[k] < |run.slots|)
    && (forall j, k :: 0 <= j < k < |indices| ==> indices[j] < indices[k])
    && (forall i :: 0 <= i < |run.slots| ==>
          (i in indices <==>
             && run.staging.Some? && run.slots[i].entry.Some?
             && !run.slots[i].entry.value.isDir && HasAssetExtension(run.env, run.slots[i].entry.value)))
  }

  lemma {:induction false} IndicesAreAssets(run: Run, n: nat, i: nat)
    requires n <= |run.slots|
    ensures i in StagedIndices(run, n) <==> i < n && run.staging.Some? && IsAssetSlot(run.env, run.slots[i])
  {
    if n > 0 {
      IndicesAreAssets(run, n - 1, i);
    }
  }

  lemma StagedSlotsSpelledOut(run: Run)
    requires AllPass(run, |run.slots|)
    ensures StagesSlots(run, StagedIndices(run, |run.slots|))
  {
    AcceptanceSpelledOut(run);
    StagedFilesAreFaithful(run, |run.slots|);
    forall i | 0 <= i < |run.slots|
      ensures i in StagedIndices(run, |run.slots|) <==>
              && run.staging.Some? && run.slots[i].entry.Some?
              && !run.slots[i].entry.value.isDir && HasAssetExtension(run.env, run.slots[i].entry.value)
    {
      assert SlotAllowed(run, i);
      IndicesAreAssets(run, |run.slots|, i);
      ExtensionIsListed(run.env, run.slots[i].entry.value);
    }
  }

  /** The staged assets it returns are those of the asset slots, one for one and in order, each record exact. */
  lemma ReportedAssetsAreExact(run: Run) returns (indices: seq<nat>)
    requires Succeeds(run)
    ensures StagesSlots(run, indices) && |Inspector.Report(run).staged| == |indices|
    ensures forall k :: 0 <= k < |indices| ==>
              RecordIsExact(run, indices[k], Inspector.Report(run).staged[k], FilesAfter(run, |run.slots|))
  {
    var n := |run.slots|;
    indices := StagedIndices(run, n);
    StagedFilesAreFaithful(run, n);
    StagedSlotsSpelledOut(run);
    AcceptanceSpelledOut(run);
    var staged := StateAfter(run, n).staged;
    forall k | 0 <= k < |indices|
      ensures RecordIsExact(run, indices[k], staged[k], FilesAfter(run, n))
    {
      assert AssetStagedAt(run, indices[k], staged[k], FilesAfter(run, n));
      RecordSpelledOut(run, indices[k], staged[k], FilesAfter(run, n));
    }
  }
}
