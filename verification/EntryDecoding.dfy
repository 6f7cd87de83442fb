/** Decoding one archive entry, chunk by chunk, under the size limits. */
module EntryDecoding {
  import opened Wrappers
  import CardFields

  const HEADER_BYTES := 16
  const MAX_METADATA_BYTES := CardFields.MAX_METADATA_BYTES

  datatype Limits = Limits(maxEntries: nat, maxEntryBytes: u64, maxTotalBytes: u64, maxRatio: u64)

  datatype Rejection =
    // reading the archive
    | NoDirectory | TooManyEntries | UnreadableArchive | DuplicateNames | UnreadableEntry | MultiDiskOrZip64
    // admitting an entry
    | NameNotUtf8 | BadPath | PathCollision | Symlink | Encrypted | DirectoryWithData
    | EntryTooLarge | TotalOverflow | TotalTooLarge | RatioExceeded | MetadataTooLarge
    // decoding an entry
    | CannotDecode | DecodedEntryTooLarge | DecodedTotalTooLarge | SizeMismatch | DiskFailure
    // finishing
    | AssetCountOverflow | NoMetadata | BadMetadata

  /** What successive `read` calls return; an empty chunk, like the end, means end of entry. */
  datatype ReadStep = Chunk(bytes: seq<byte>) | Fault

  /** Faults met while one entry is written to the staging directory. */
  datatype Disk = Disk(createFails: bool, writeFailsAt: Option<nat>, syncFails: bool)

  datatype Decoded = Decoded(metadata: Option<seq<byte>>, header: seq<byte>, sizeBytes: nat)

  function Content(reader: seq<ReadStep>): seq<byte> {
    if reader == [] || reader[0].Fault? || reader[0].bytes == [] then []
    else reader[0].bytes + Content(reader[1..])
  }

  predicate Faulty(reader: seq<ReadStep>) {
    reader != [] && (reader[0].Fault? || (reader[0].bytes != [] && Faulty(reader[1..])))
  }

  /** Number of chunks delivered before the end of the entry. */
  function ChunkCount(reader: seq<ReadStep>): nat {
    if reader == [] || reader[0].Fault? || reader[0].bytes == [] then 0 else 1 + ChunkCount(reader[1..])
  }

  function First(s: seq<byte>): (r: seq<byte>)
    ensures r <= s && |r| <= HEADER_BYTES
  {
    if |s| <= HEADER_BYTES then s else s[..HEADER_BYTES]
  }

  /** `checked_entry_size` and `checked_total_size`: a checked 64-bit addition, then the limit. */
  function CheckedSize(current: u64, read: nat, limit: u64): (r: Option<u64>)
    ensures r == if current + read <= limit then Some(current + read) else None
  {
    if current + read > U64_MAX then None
    else
      var updated: u64 := current + read;
      if updated > limit then None else Some(updated)
  }

  predicate WritesSucceed(disk: Disk, chunks: nat) {
    && (disk.writeFailsAt.Some? ==> chunks <= disk.writeFailsAt.value)
    && !disk.syncFails
  }

  /** Success depends on the bytes delivered, never on how they were cut into chunks. */
  ghost predicate Decodable(
    reader: seq<ReadStep>, size: u64, isMetadata: bool, limits: Limits, total: u64, staging: bool, disk: Disk)
  {
    var content := Content(reader);
    && !Faulty(reader)
    && |content| == size
    && |content| <= limits.maxEntryBytes
    && (content != [] ==> total + |content| <= limits.maxTotalBytes)
    && (isMetadata ==> |content| <= MAX_METADATA_BYTES)
    && (staging ==> WritesSucceed(disk, ChunkCount(reader)))
  }

  /** `collect_entry_bytes`: the metadata buffer grows by the chunk, the header fills up to 16 bytes. */
  method CollectEntryBytes(metadata: Option<seq<byte>>, header: seq<byte>, isAsset: bool, chunk: seq<byte>)
    returns (ok: bool, metadataNow: Option<seq<byte>>, headerNow: seq<byte>)
    requires |header| <= HEADER_BYTES
    ensures metadataNow == if metadata.Some? then Some(metadata.value + chunk) else None
    ensures ok <==> metadata.Some? ==> |metadata.value| + |chunk| <= MAX_METADATA_BYTES
    ensures ok ==> headerNow == if isAsset then First(header + chunk) else header
  {
    metadataNow, headerNow := metadata, header;
    if metadata.Some? {
      metadataNow := Some(metadata.value + chunk);
      if |metadataNow.value| > MAX_METADATA_BYTES {
        return false, metadataNow, headerNow;
      }
    }
    if isAsset && |header| < HEADER_BYTES {
      var room := HEADER_BYTES - |header|;
      headerNow := header + if |chunk| < room then chunk else chunk[..room];
    }
    ok := true;
  }

  lemma FirstOfFirst(done: seq<byte>, chunk: seq<byte>)
    ensures First(First(done) + chunk) == First(done + chunk)
  {
    if |done| > HEADER_BYTES {
      assert First(First(done) + chunk) == done[..HEADER_BYTES] == (done + chunk)[..HEADER_BYTES];
    }
  }

  /** The checks and updates one chunk goes through before it is written. */
  method TakeChunk(entryBytes: u64, total: u64, metadata: Option<seq<byte>>, header: seq<byte>, isAsset: bool,
                   chunk: seq<byte>, limits: Limits)
    returns (refusal: Option<Rejection>, entryNow: u64, totalNow: u64, metadataNow: Option<seq<byte>>, headerNow: seq<byte>)
    requires |header| <= HEADER_BYTES
    ensures refusal.None? <==>
            && entryBytes + |chunk| <= limits.maxEntryBytes && total + |chunk| <= limits.maxTotalBytes
            && (metadata.Some? ==> |metadata.value| + |chunk| <= MAX_METADATA_BYTES)
    ensures refusal.None? ==>
              && entryNow == entryBytes + |chunk| && totalNow == total + |chunk|
              && metadataNow == (if metadata.Some? then Some(metadata.value + chunk) else None)
              && headerNow == (if isAsset then First(header + chunk) else header)
    ensures totalNow == total || totalNow == total + |chunk| <= limits.maxTotalBytes
  {
    entryNow, totalNow, metadataNow, headerNow := entryBytes, total, metadata, header;
    var entrySize := CheckedSize(entryBytes, |chunk|, limits.maxEntryBytes);
    if entrySize.None? {
      return Some(DecodedEntryTooLarge), entryNow, totalNow, metadataNow, headerNow;
    }
    entryNow := entrySize.value;
    var totalSize := CheckedSize(total, |chunk|, limits.maxTotalBytes);
    if totalSize.None? {
      return Some(DecodedTotalTooLarge), entryNow, totalNow, metadataNow, headerNow;
    }
    totalNow := totalSize.value;
    var fits;
    fits, metadataNow, headerNow := CollectEntryBytes(metadata, header, isAsset, chunk);
    refusal := if fits then None else Some(MetadataTooLarge);
  }

  /** What the loop knows after the chunks in `done`, with `rest` still to be read. */
  ghost predicate Midway(reader: seq<ReadStep>, done: seq<byte>, rest: seq<ReadStep>, chunks: nat) {
    && Content(reader) == done + Content(rest)
    && (Faulty(reader) <==> Faulty(rest))
    && ChunkCount(reader) == chunks + ChunkCount(rest)
  }

  lemma MidwayStep(reader: seq<ReadStep>, done: seq<byte>, rest: seq<ReadStep>, chunks: nat)
    requires Midway(reader, done, rest, chunks) && rest != [] && rest[0].Chunk? && rest[0].bytes != []
    ensures Midway(reader, done + rest[0].bytes, rest[1..], chunks + 1)
    ensures |done + rest[0].bytes| <= |Content(reader)| && chunks < ChunkCount(reader)
  {
    assert done + (rest[0].bytes + Content(rest[1..])) == done + rest[0].bytes + Content(rest[1..]);
  }

  /** Bytes beyond a limit settle that the entry cannot be decoded, however many follow. */
  lemma TooMuchDelivered(
    reader: seq<ReadStep>, size: u64, isMetadata: bool, limits: Limits, total: u64, staging: bool, disk: Disk, soFar: nat)
    requires 0 < soFar <= |Content(reader)|
    requires soFar > limits.maxEntryBytes || total + soFar > limits.maxTotalBytes || (isMetadata && soFar > MAX_METADATA_BYTES)
    ensures !Decodable(reader, size, isMetadata, limits, total, staging, disk)
  {
  }

  /**
   The decode loop of `read_entry_inner`, with the running total and the staged file as
   in-out values. `staging` says that a file has been created for this entry.
   */
  method DecodeEntry(
    reader: seq<ReadStep>, size: u64, isMetadata: bool, isAsset: bool, limits: Limits, totalBefore: u64,
    staging: bool, disk: Disk)
    returns (r: Result<Decoded, Rejection>, total: u64, written: seq<byte>)
    ensures r.Ok? <==> Decodable(reader, size, isMetadata, limits, totalBefore, staging, disk)
    ensures r.Ok? ==>
              && r.value.metadata == (if isMetadata then Some(Content(reader)) else None)
              && r.value.header == (if isAsset then First(Content(reader)) else [])
              && r.value.sizeBytes == |Content(reader)|
              && total == totalBefore + |Content(reader)|
              && (staging ==> written == Content(reader))
    // However the entry ends, no more than the limits was ever decoded or written.
    ensures written <= Content(reader) && |written| <= limits.maxEntryBytes && totalBefore + |written| <= total
    ensures totalBefore <= total && (total > totalBefore ==> total <= limits.maxTotalBytes)
  {
    var metadata: Option<seq<byte>> := if isMetadata then Some([]) else None;
    var header: seq<byte> := [];
    var entryBytes: u64 := 0;
    total, written := totalBefore, [];
    var rest, chunkIndex := reader, 0;
    ghost var done: seq<byte> := [];
    while rest != [] && (rest[0].Fault? || rest[0].bytes != [])
      invariant Midway(reader, done, rest, chunkIndex)
      invariant entryBytes == |done| && total == totalBefore + |done|
      invariant |done| <= limits.maxEntryBytes && (done != [] ==> total <= limits.maxTotalBytes)
      invariant metadata == if isMetadata then Some(done) else None
      invariant isMetadata ==> |done| <= MAX_METADATA_BYTES
      invariant header == if isAsset then First(done) else []
      invariant written == if staging then done else []
      invariant staging && disk.writeFailsAt.Some? ==> chunkIndex <= disk.writeFailsAt.value
      decreases |rest|
    {
      if rest[0].Fault? {
        return Err(CannotDecode), total, written;
      }
      var chunk := rest[0].bytes;
      MidwayStep(reader, done, rest, chunkIndex);
      FirstOfFirst(done, chunk);
      var refusal;
      refusal, entryBytes, total, metadata, header := TakeChunk(entryBytes, total, metadata, header, isAsset, chunk, limits);
      if refusal.Some? {
        TooMuchDelivered(reader, size, isMetadata, limits, totalBefore, staging, disk, |done| + |chunk|);
        return Err(refusal.value), total, written;
      }
      if staging {
        if disk.writeFailsAt == Some(chunkIndex) {
          return Err(DiskFailure), total, written;
        }
        written := written + chunk;
      }
      done, rest, chunkIndex := done + chunk, rest[1..], chunkIndex + 1;
    }
    assert Content(reader) == done;
    if entryBytes != size {
      return Err(SizeMismatch), total, written;
    }
    if staging && disk.syncFails {
      return Err(DiskFailure), total, written;
    }
    return Ok(Decoded(metadata, header, entryBytes)), total, written;
  }

  /** `reader` delivers `bytes` in some non-empty pieces and then ends. */
  ghost predicate Splits(reader: seq<ReadStep>, bytes: seq<byte>) {
    if reader == [] || reader[0] == Chunk([]) then bytes == []
    else reader[0].Chunk? && reader[0].bytes <= bytes && Splits(reader[1..], bytes[|reader[0].bytes|..])
  }

  lemma {:induction false} SplitContent(reader: seq<ReadStep>, bytes: seq<byte>)
    requires Splits(reader, bytes)
    ensures Content(reader) == bytes && !Faulty(reader)
  {
    if reader != [] && reader[0] != Chunk([]) {
      SplitContent(reader[1..], bytes[|reader[0].bytes|..]);
    }
  }

  /**
   Two readers that cut the same bytes differently decode alike: both succeed or both fail, and
   the content, hence metadata, header, size and running total, is the same.
   */
  lemma ChunkingIsInvisible(
    one: seq<ReadStep>, other: seq<ReadStep>, bytes: seq<byte>,
    size: u64, isMetadata: bool, limits: Limits, total: u64, staging: bool, disk: Disk)
    requires Splits(one, bytes) && Splits(other, bytes)
    requires staging ==> disk.writeFailsAt.None?
    ensures Content(one) == Content(other)
    ensures Decodable(one, size, isMetadata, limits, total, staging, disk) <==>
            Decodable(other, size, isMetadata, limits, total, staging, disk)
  {
    SplitContent(one, bytes);
    SplitContent(other, bytes);
  }
}
