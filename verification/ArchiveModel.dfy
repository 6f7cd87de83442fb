/**
 What inspecting a CHARX archive means, entry by entry and as a whole. The methods of
 `ArchiveInspector` are proved against these definitions.
 */
module ArchiveModel {
  import opened Wrappers
  import opened EntryDecoding
  import opened AssetSignatures
  import opened PartialFiles
  import ArchivePaths
  import CardFields

  const CARD_PATH := "card.json"

  /** Code outside this component: path normalisation, extension extraction, SHA-256, JSON decoding. */
  datatype Env = Env(
    normalize: string -> Option<string>,
    extension: string -> string,
    sha256: seq<byte> -> string,
    decodeJson: seq<byte> -> Option<CardFields.Json>)

  /** One central-directory entry; `name` is `None` when its raw bytes are not UTF-8. */
  datatype Entry = Entry(
    name: Option<string>, isDir: bool, isSymlink: bool, encrypted: bool,
    size: u64, compressed: u64, reader: seq<ReadStep>)

  /** What opening one index yields (`None`: the entry cannot be opened), and the disk faults met staging it. */
  datatype Slot = Slot(entry: Option<Entry>, disk: Disk)

  datatype Warning = Warning(code: string, message: string)

  datatype ImagePreview = ImagePreview(assetId: string, mediaType: string, sizeBytes: nat)

  datatype StagedAsset = StagedAsset(
    originalPath: string, stagedName: string, sha256: string, mediaType: string,
    sizeBytes: nat, signatureValid: bool)

  type Files = map<string, seq<byte>>

  datatype State = State(
    paths: ArchivePaths.Registry, declared: nat, total: nat, metadata: Option<seq<byte>>, assets: nat,
    warnings: seq<Warning>, blocked: seq<string>, image: Option<ImagePreview>, staged: seq<StagedAsset>)

  const Empty := State(map[], 0, 0, None, 0, [], [], None, [])

  datatype EntryPlan = EntryPlan(name: string, assetId: string, extension: string, isMetadata: bool, isAsset: bool)

  // ----- one entry on its own

  predicate NameOk(env: Env, e: Entry) {
    e.name.Some? && env.normalize(e.name.value).Some?
  }

  function Name(e: Entry): string {
    if e.name.Some? then e.name.value else ""
  }

  function Key(env: Env, e: Entry): string {
    if NameOk(env, e) then env.normalize(e.name.value).value else ""
  }

  function PathOf(env: Env, e: Entry): ArchivePaths.Path {
    ArchivePaths.Path(Key(env, e), e.isDir)
  }

  predicate IsMetadata(env: Env, e: Entry) {
    Key(env, e) == CARD_PATH && !e.isDir
  }

  predicate IsAsset(env: Env, e: Entry) {
    IsAssetExtension(env.extension(Name(e))) && !e.isDir
  }

  function PlanOf(env: Env, e: Entry): EntryPlan {
    EntryPlan(Name(e), Key(env, e), env.extension(Name(e)), IsMetadata(env, e), IsAsset(env, e))
  }

  /** An asset that is counted and whose signature is checked. */
  predicate Counted(env: Env, e: Entry) {
    IsAsset(env, e) && !IsMetadata(env, e)
  }

  predicate Genuine(env: Env, e: Entry) {
    SignatureMatches(env.extension(Name(e)), Content(e.reader))
  }

  predicate Mismatched(env: Env, e: Entry) {
    Counted(env, e) && !Genuine(env, e)
  }

  function WarningFor(name: string): Warning {
    Warning("mime_mismatch", "Asset extension does not match file signature: " + name)
  }

  function ReasonFor(name: string): string {
    "Asset file signature does not match its declared extension: " + name
  }

  function PreviewOf(env: Env, e: Entry): ImagePreview {
    ImagePreview(Key(env, e), MediaType(env.extension(Name(e))), |Content(e.reader)|)
  }

  predicate Previewable(env: Env, e: Entry) {
    Counted(env, e) && Genuine(env, e) && IsImage(env.extension(Name(e)))
  }

  /** A staged asset whose signature turns out wrong loses its media type. */
  function Stamped(asset: StagedAsset, genuine: bool): StagedAsset {
    if genuine then asset else asset.(signatureValid := false, mediaType := "application/octet-stream")
  }

  function StagedOf(env: Env, e: Entry, name: string): StagedAsset {
    Stamped(
      StagedAsset(Key(env, e), name, env.sha256(Content(e.reader)), MediaType(env.extension(Name(e))), |Content(e.reader)|, true),
      !Mismatched(env, e))
  }

  /** Exact, unbounded arithmetic: no saturation, no overflow. */
  predicate WithinRatio(e: Entry, limits: Limits) {
    e.size <= e.compressed * limits.maxRatio
  }

  /** Admissible whatever the other entries are. */
  predicate LocallyAdmissible(env: Env, limits: Limits, e: Entry) {
    && NameOk(env, e) && !e.isSymlink && !e.encrypted
    && (e.isDir ==> e.size == 0)
    && e.size <= limits.maxEntryBytes
    && WithinRatio(e, limits)
    && (IsMetadata(env, e) ==> e.size <= MAX_METADATA_BYTES)
  }

  ghost predicate Admits(env: Env, limits: Limits, paths: ArchivePaths.Registry, declared: nat, e: Entry) {
    && LocallyAdmissible(env, limits, e)
    && ArchivePaths.Fits(paths, Key(env, e), e.isDir)
    && declared + e.size <= limits.maxTotalBytes
  }

  /** The decoder delivers the size the header announced. */
  predicate Honest(e: Entry) {
    !Faulty(e.reader) && |Content(e.reader)| == e.size
  }

  // ----- one accepted entry changes the state

  /** Admission and decoding: the path is registered and both totals grow. */
  ghost function Taken(env: Env, s: State, e: Entry): State {
    s.(paths := s.paths[Key(env, e) := e.isDir], declared := s.declared + e.size, total := s.total + |Content(e.reader)|)
  }

  /** Bookkeeping: everything the entry adds to the report. */
  ghost function Booked(env: Env, s: State, e: Entry, stagedAs: Option<string>): State {
    s.(metadata := if IsMetadata(env, e) then Some(Content(e.reader)) else s.metadata,
       assets := if Counted(env, e) then s.assets + 1 else s.assets,
       warnings := if Mismatched(env, e) then s.warnings + [WarningFor(Name(e))] else s.warnings,
       blocked := if Mismatched(env, e) then s.blocked + [ReasonFor(Name(e))] else s.blocked,
       image := if s.image.None? && Previewable(env, e) then Some(PreviewOf(env, e)) else s.image,
       staged := if stagedAs.Some? && IsAsset(env, e) then s.staged + [StagedOf(env, e, stagedAs.value)] else s.staged)
  }

  /** Staging an entry changes the staged list alone. */
  lemma BookedStaged(env: Env, s: State, e: Entry, stagedAs: Option<string>)
    ensures Booked(env, s, e, None).staged == s.staged
    ensures Booked(env, s, e, stagedAs) ==
            if stagedAs.Some? && IsAsset(env, e)
            then Booked(env, s, e, None).(staged := s.staged + [StagedOf(env, e, stagedAs.value)])
            else Booked(env, s, e, None)
  {
  }

  /** `stagedAs` is the partial file name when assets are being staged. */
  ghost function Advance(env: Env, s: State, e: Entry, stagedAs: Option<string>): State {
    Booked(env, Taken(env, s, e), e, stagedAs)
  }

  predicate DiskAllows(env: Env, e: Entry, disk: Disk, stagedAs: Option<string>, files: Files) {
    stagedAs.Some? && IsAsset(env, e) ==>
      stagedAs.value !in files && !disk.createFails && WritesSucceed(disk, ChunkCount(e.reader))
  }

  function FilesWith(env: Env, files: Files, e: Entry, stagedAs: Option<string>): Files {
    if stagedAs.Some? && IsAsset(env, e) then files[stagedAs.value := Content(e.reader)] else files
  }

  ghost predicate Reads(env: Env, limits: Limits, total: nat, e: Entry, disk: Disk, stagedAs: Option<string>, files: Files) {
    && Honest(e)
    && |Content(e.reader)| <= limits.maxEntryBytes
    && (Content(e.reader) != [] ==> total + |Content(e.reader)| <= limits.maxTotalBytes)
    && (IsMetadata(env, e) ==> |Content(e.reader)| <= MAX_METADATA_BYTES)
    && DiskAllows(env, e, disk, stagedAs, files)
  }

  ghost predicate Passes(env: Env, limits: Limits, s: State, e: Entry, disk: Disk, stagedAs: Option<string>, files: Files) {
    Admits(env, limits, s.paths, s.declared, e) && Reads(env, limits, s.total, e, disk, stagedAs, files)
  }

  // ----- a whole run

  datatype Run = Run(env: Env, limits: Limits, slots: seq<Slot>, staging: Option<string>, files: Files)

  function StagedAs(run: Run, i: nat): Option<string> {
    if run.staging.Some? then Some(PartialName(run.staging.value, i)) else None
  }

  /** Were the first `i` entries all accepted, this would be the state. */
  ghost function StateAfter(run: Run, i: nat): State
    requires i <= |run.slots|
  {
    if i == 0 then Empty
    else
      var slot := run.slots[i - 1];
      if slot.entry.None? then StateAfter(run, i - 1)
      else Advance(run.env, StateAfter(run, i - 1), slot.entry.value, StagedAs(run, i - 1))
  }

  ghost function FilesAfter(run: Run, i: nat): Files
    requires i <= |run.slots|
  {
    if i == 0 then run.files
    else
      var slot := run.slots[i - 1];
      if slot.entry.None? then FilesAfter(run, i - 1)
      else FilesWith(run.env, FilesAfter(run, i - 1), slot.entry.value, StagedAs(run, i - 1))
  }

  ghost predicate PassesAt(run: Run, i: nat)
    requires i < |run.slots|
  {
    && run.slots[i].entry.Some?
    && Passes(run.env, run.limits, StateAfter(run, i), run.slots[i].entry.value, run.slots[i].disk,
              StagedAs(run, i), FilesAfter(run, i))
  }

  ghost predicate AllPass(run: Run, n: nat)
    requires n <= |run.slots|
  {
    forall i :: 0 <= i < n ==> PassesAt(run, i)
  }

  ghost predicate CardOk(env: Env, metadata: Option<seq<byte>>) {
    metadata.Some? && CardFields.ValidCard(|metadata.value|, env.decodeJson(metadata.value))
  }

  ghost predicate Succeeds(run: Run) {
    AllPass(run, |run.slots|) && CardOk(run.env, StateAfter(run, |run.slots|).metadata)
  }

  /** Number of leading entries that pass. */
  ghost function Progress(run: Run, n: nat): (k: nat)
    requires n <= |run.slots|
    ensures k <= n && AllPass(run, k) && (k < n ==> !PassesAt(run, k))
  {
    if n == 0 then 0
    else
      var k := Progress(run, n - 1);
      if k == n - 1 && PassesAt(run, k) then n else k
  }

  /** A refused entry that had been admitted loses the file under its partial name, whoever wrote it. */
  function RefusedFiles(files: Files, stagedAs: Option<string>, admitted: bool): Files {
    if admitted && stagedAs.Some? then files - {stagedAs.value} else files
  }

  /**
   The staging directory after a failed run: unchanged, except that an entry that cannot be opened
   leaves what was staged before it, and an entry that fails while being read takes with it
   whatever file stood under its partial name.
   */
  ghost function FilesOnError(run: Run): Files {
    var k := Progress(run, |run.slots|);
    if k == |run.slots| then run.files
    else if run.slots[k].entry.None? then FilesAfter(run, k)
    else
      var s := StateAfter(run, k);
      RefusedFiles(run.files, StagedAs(run, k), Admits(run.env, run.limits, s.paths, s.declared, run.slots[k].entry.value))
  }

  /** The first reason, in the order the checks are made, to refuse an entry. */
  ghost function Refusal(env: Env, limits: Limits, paths: ArchivePaths.Registry, declared: nat, e: Entry): (r: Option<Rejection>)
    ensures r.None? <==> Admits(env, limits, paths, declared, e)
  {
    if e.name.None? then Some(NameNotUtf8)
    else if !NameOk(env, e) then Some(BadPath)
    else if !ArchivePaths.Fits(paths, Key(env, e), e.isDir) then Some(PathCollision)
    else if e.isSymlink then Some(Symlink)
    else if e.encrypted then Some(Encrypted)
    else if e.isDir && e.size != 0 then Some(DirectoryWithData)
    else if e.size > limits.maxEntryBytes then Some(EntryTooLarge)
    else if declared + e.size > U64_MAX then Some(TotalOverflow)
    else if declared + e.size > limits.maxTotalBytes then Some(TotalTooLarge)
    else if !WithinRatio(e, limits) then Some(RatioExceeded)
    else if IsMetadata(env, e) && e.size > MAX_METADATA_BYTES then Some(MetadataTooLarge)
    else None
  }

  // ----- facts about every reachable moment of a run

  lemma ProgressIs(run: Run, k: nat, n: nat)
    requires k <= n <= |run.slots| && AllPass(run, k) && (k < n ==> !PassesAt(run, k))
    ensures Progress(run, n) == k
  {
    var p := Progress(run, n);
    assert p == k;
  }

  /** Before every entry the decoded total is the declared total, and no counter is near its bound. */
  lemma {:induction false} TotalsAgree(run: Run, i: nat)
    requires i <= |run.slots| && AllPass(run, i)
    ensures var s := StateAfter(run, i);
            && s.total == s.declared <= run.limits.maxTotalBytes
            && s.assets <= i && |s.staged| <= i
  {
    if i > 0 {
      TotalsAgree(run, i - 1);
      assert PassesAt(run, i - 1);
    }
  }

  ghost function Names(staged: seq<StagedAsset>): set<string> {
    if staged == [] then {} else Names(staged[..|staged| - 1]) + {staged[|staged| - 1].stagedName}
  }

  lemma NamesGrow(staged: seq<StagedAsset>, asset: StagedAsset)
    ensures Names(staged + [asset]) == Names(staged) + {asset.stagedName}
  {
    assert (staged + [asset])[..|staged + [asset]| - 1] == staged;
  }

  /** `files` is `found` plus files under the fresh `names`. */
  ghost predicate Adds(found: Files, files: Files, names: set<string>) {
    names !! found.Keys && files.Keys == found.Keys + names && files - names == found
  }

  lemma FreshFileAdds(found: Files, files: Files, names: set<string>, name: string, content: seq<byte>)
    requires Adds(found, files, names) && name !in files
    ensures Adds(found, files[name := content], names + {name})
  {
    var now, all := files[name := content], names + {name};
    assert now - all == files - names;
  }

  lemma EntryAdds(env: Env, found: Files, files: Files, staged: seq<StagedAsset>, e: Entry, name: string)
    requires Adds(found, files, Names(staged)) && name !in files
    ensures Adds(found, files[name := Content(e.reader)], Names(staged + [StagedOf(env, e, name)]))
  {
    var asset := StagedOf(env, e, name);
    assert asset.stagedName == name;
    FreshFileAdds(found, files, Names(staged), name, Content(e.reader));
    NamesGrow(staged, asset);
    assert Names(staged + [asset]) == Names(staged) + {name};
  }

  lemma PassedNameIsFresh(run: Run, i: nat)
    requires i < |run.slots| && PassesAt(run, i)
    ensures run.slots[i].entry.Some?
    ensures StagedAs(run, i).Some? && IsAsset(run.env, run.slots[i].entry.value) ==> StagedAs(run, i).value !in FilesAfter(run, i)
  {
  }

  /** The files of a run are those it found and, under fresh names, those it staged. */
  lemma {:induction false} FilesAreFoundOrStaged(run: Run, i: nat)
    requires i <= |run.slots| && AllPass(run, i)
    ensures Adds(run.files, FilesAfter(run, i), Names(StateAfter(run, i).staged))
  {
    if i == 0 {
      assert run.files - {} == run.files;
    } else {
      FilesAreFoundOrStaged(run, i - 1);
      PassedNameIsFresh(run, i - 1);
      var e, name := run.slots[i - 1].entry.value, StagedAs(run, i - 1);
      if name.Some? && IsAsset(run.env, e) {
        EntryAdds(run.env, run.files, FilesAfter(run, i - 1), StateAfter(run, i - 1).staged, e, name.value);
      }
    }
  }

  /** Removing the staged files after a refusal leaves what the run found, less the refused entry's own file. */
  lemma CleanupAfterRefusal(run: Run, i: nat, name: Option<string>, admitted: bool)
    requires i <= |run.slots| && AllPass(run, i)
    ensures RefusedFiles(FilesAfter(run, i), name, admitted) - Names(StateAfter(run, i).staged)
            == RefusedFiles(run.files, name, admitted)
  {
    FilesAreFoundOrStaged(run, i);
    var names := Names(StateAfter(run, i).staged);
    if admitted && name.Some? {
      var files := FilesAfter(run, i);
      assert files - {name.value} - names == (files - names) - {name.value};
    }
  }
}
