/** Concrete packages: one that is prepared, one that leaks, and one that is swapped under the importer's hands. */
module ImportExamples {
  import opened Wrappers
  import opened EntryDecoding
  import opened ArchiveModel
  import opened ArchiveTheorems
  import opened ArchiveReports
  import opened ArchiveExact
  import opened ImportPreparation
  import CardFields
  import CentralDirectory
  import Folding
  import Inspector = ArchiveInspector

  const CardDocument := CardFields.Object([
    ("spec", CardFields.Str("chara_card_v3")),
    ("data", CardFields.Object([("name", CardFields.Str("a"))]))])

  const PackageEnv: Env :=
    Env(name => Some(name), name => if name == CARD_PATH then "json" else "png", bytes => "", bytes => Some(CardDocument))

  const CardEntry: Entry := Entry(Some(CARD_PATH), false, false, false, 1, 1, [Chunk([0x7B])])

  /** A PNG signature and one more byte. */
  function Image(pixel: byte): seq<byte> {
    [0x89, 0x50, 0x4E, 0x47, 0x0D, 0x0A, 0x1A, 0x0A, pixel]
  }

  function PngEntry(pixel: byte): Entry {
    Entry(Some("a.png"), false, false, false, 9, 9, [Chunk(Image(pixel))])
  }

  function Package(pixel: byte): seq<Slot> {
    [Slot(Some(CardEntry), QuietDisk), Slot(Some(PngEntry(pixel)), QuietDisk)]
  }

  function PackageSource(pixel: byte): Source {
    Source(CentralDirectory.Record(2, [pixel, 0, 0, 0, 0, 0, 0, 0], []), Some(Package(pixel)))
  }

  function PackageRun(pixel: byte, staging: Option<string>): Run {
    Run(PackageEnv, SomeLimits, Package(pixel), staging, map[])
  }

  function PackageImport(first: byte, second: byte, taken: Fingerprint, recheck: Fingerprint): Import {
    Import(PackageEnv, SomeLimits, PackageSource(first), PackageSource(second), taken, recheck, "x")
  }

  lemma CardDocumentIsValid()
    ensures CardFields.ValidCard(1, Some(CardDocument))
  {
    var root := CardDocument.members;
    var data := [("name", CardFields.Str("a"))];
    assert root[1..][0] == ("data", CardFields.Object(data));
    assert CardFields.Get(root, "data") == Some(CardFields.Object(data));
    assert data[1..] == [];
    assert CardFields.DescriptionChoice(data) == (None, "");
    assert CardFields.Keys(data) == ["name"];
    assert ["name"][..0] == [];
    assert CardFields.Reported(["name"], None) == [];
    CardFields.TextLimitsAreCharacterLimits("a");
    CardFields.TextLimitsAreCharacterLimits("");
  }

  lemma PackageReads(pixel: byte)
    ensures !Faulty(CardEntry.reader) && Content(CardEntry.reader) == [0x7B] && ChunkCount(CardEntry.reader) == 1
    ensures !Faulty(PngEntry(pixel).reader) && Content(PngEntry(pixel).reader) == Image(pixel)
  {
    assert CardEntry.reader[1..] == [] && PngEntry(pixel).reader[1..] == [];
  }

  lemma PackageSums(pixel: byte)
    ensures Folding.Fold(Folding.Plus, SizeOf, Package(pixel)) == 10
    ensures Folding.Fold(Folding.Plus, DecodedOf, Package(pixel)) == 10
  {
    var slots := Package(pixel);
    PackageReads(pixel);
    assert slots[..2] == slots && slots[..1][..0] == [];
    Folding.FoldPrefix(Folding.Plus, SizeOf, slots, 1);
    Folding.FoldPrefix(Folding.Plus, SizeOf, slots, 0);
    Folding.FoldPrefix(Folding.Plus, DecodedOf, slots, 1);
    Folding.FoldPrefix(Folding.Plus, DecodedOf, slots, 0);
  }

  lemma PackageNamesAgree(pixel: byte)
    ensures NamesAgree(PackageEnv, Package(pixel)[0], Package(pixel)[1])
  {
    assert ("a.png" + "/")[0] == 'a' && (CARD_PATH + "/")[0] == 'c' && CARD_PATH[0] == 'c';
  }

  lemma PackageSlotsAllowed(pixel: byte, staging: Option<string>)
    ensures AllSlotsAllowed(PackageRun(pixel, staging))
  {
    PackageReads(pixel);
    assert SlotAllowed(PackageRun(pixel, staging), 0);
    assert SlotAllowed(PackageRun(pixel, staging), 1);
  }

  lemma PackagePasses(pixel: byte, staging: Option<string>)
    ensures Succeeds(PackageRun(pixel, staging))
  {
    var run := PackageRun(pixel, staging);
    PackageReads(pixel);
    PackageSums(pixel);
    PackageSlotsAllowed(pixel, staging);
    PackageNamesAgree(pixel);
    AcceptanceSpelledOut(run);
    MetadataIsTheCard(run, 2, 0);
    CardDocumentIsValid();
  }

  lemma PackageShowsImage(pixel: byte)
    ensures ShowsImage(PackageEnv, Package(pixel)[1]) && !ShowsImage(PackageEnv, Package(pixel)[0])
    ensures ImageOf(PackageEnv, Package(pixel)[1]) == ImagePreview("a.png", "image/png", 9)
  {
    PackageReads(pixel);
    assert [0x89, 0x50, 0x4E, 0x47, 0x0D, 0x0A, 0x1A, 0x0A] <= Image(pixel);
  }

  /** What the importer is told of such a package. */
  lemma PackageIsReported(pixel: byte, staging: Option<string>)
    ensures Succeeds(PackageRun(pixel, staging))
    ensures var report := Inspector.Report(PackageRun(pixel, staging));
            && report.total == 10 && report.assetCount == 1
            && report.image == Some(ImagePreview("a.png", "image/png", 9))
  {
    var run := PackageRun(pixel, staging);
    PackagePasses(pixel, staging);
    PackageSums(pixel);
    PackageShowsImage(pixel);
    ReportedFiguresAreExact(run);
    assert FirstImage(run, 1);
    assert HowMany(run, 1) == 0;
  }

  lemma PackageOpens(pixel: byte)
    ensures Inspector.Opens(SomeLimits, PackageSource(pixel).bytes, PackageSource(pixel).archive)
  {
    CentralDirectory.WrittenCountIsRead([], 2, [pixel, 0, 0, 0, 0, 0, 0, 0], []);
    assert [] + PackageSource(pixel).bytes == PackageSource(pixel).bytes;
  }

  lemma PackageIsAllowed(pixel: byte)
    ensures !IsBad(PackageEnv, Package(pixel)[0]) && !IsBad(PackageEnv, Package(pixel)[1])
    ensures IsAssetSlot(PackageEnv, Package(pixel)[1])
  {
    PackageShowsImage(pixel);
    PackageReads(pixel);
  }

  lemma PackageImportIsAllowed(first: byte, second: byte, taken: Fingerprint, recheck: Fingerprint)
    ensures Allowed(PackageImport(first, second, taken, recheck))
  {
    PackageIsAllowed(first);
    assert SlotsOf(PackageSource(first)) == Package(first);
  }

  lemma PackageInspects(first: byte, second: byte, taken: Fingerprint, recheck: Fingerprint)
    requires taken.Readable()
    ensures Inspects(PackageImport(first, second, taken, recheck), map[])
  {
    PackageOpens(first);
    PackagePasses(first, None);
    assert InspectionRun(PackageImport(first, second, taken, recheck), map[]) == PackageRun(first, None);
  }

  lemma PackageStages(first: byte, second: byte, taken: Fingerprint, recheck: Fingerprint)
    requires taken.Readable()
    ensures Stages(PackageImport(first, second, taken, recheck), map[])
  {
    var job := PackageImport(first, second, taken, recheck);
    PackageInspects(first, second, taken, recheck);
    PackageImportIsAllowed(first, second, taken, recheck);
    PackageOpens(second);
    PackagePasses(second, Some("x"));
    assert StagingRun(job, map[]) == PackageRun(second, Some("x"));
  }

  lemma PackageIsFree(pixel: byte)
    ensures OpenAndFree(PackageSource(pixel).archive, "x", map[])
  {
  }

  /** A genuine package whose source vanishes after staging: the preparation fails and its file stays. */
  lemma UnreadableRecheckLeaks()
    ensures var job := PackageImport(0, 0, Fingerprint(Some("d"), Some(22)), Fingerprint(None, None));
            && OpenAndFree(job.second.archive, job.inspection, map[])
            && !Prepares(job, map[]) && FilesLeft(job, map[]) != map[]
  {
    var job := PackageImport(0, 0, Fingerprint(Some("d"), Some(22)), Fingerprint(None, None));
    PackageIsFree(0);
    PackageStages(0, 0, job.taken, job.recheck);
    PackageIsAllowed(0);
    assert SlotsOf(job.second) == Package(0);
    UnreadableRecheckFails(job, map[], 1);
  }

  /**
   A source replaced between inspection and staging by another genuine package of the same size and
   asset count: it stages, the digest gives it away, and nothing stays behind.
   */
  lemma SwappedSourceIsRefused()
    ensures var job := PackageImport(0, 1, Fingerprint(Some("d"), Some(22)), Fingerprint(Some("e"), Some(22)));
            && |job.first.bytes| == |job.second.bytes| && job.taken.size == job.recheck.size
            && Stages(job, map[]) && !Prepares(job, map[]) && FilesLeft(job, map[]) == map[]
  {
    var job := PackageImport(0, 1, Fingerprint(Some("d"), Some(22)), Fingerprint(Some("e"), Some(22)));
    PackageStages(0, 1, job.taken, job.recheck);
    ChangedSourceIsRefused(job, map[]);
  }
}
