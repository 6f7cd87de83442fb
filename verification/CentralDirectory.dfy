/**
 Locating the ZIP end-of-central-directory record in the tail of a file
 (section 4.3.16 of PKWARE APPNOTE.TXT).
 */
module CentralDirectory {
  import opened Wrappers

  const MAGIC: seq<byte> := [0x50, 0x4B, 0x05, 0x06]
  const RECORD_BYTES := 22

  datatype CountError = NoCentralDirectory | MultiDisk | Zip64

  function ReadU16(bytes: seq<byte>, offset: nat): nat
    requires offset + 2 <= |bytes|
  {
    bytes[offset] as int + 256 * (bytes[offset + 1] as int)
  }

  /** A record starts at `p` and its comment runs exactly to the end of `file`. */
  predicate RecordAt(file: seq<byte>, p: nat) {
    && p + RECORD_BYTES <= |file|
    && file[p..p + 4] == MAGIC
    && p + RECORD_BYTES + ReadU16(file, p + 20) == |file|
  }

  ghost predicate LastRecord(file: seq<byte>, p: nat) {
    RecordAt(file, p) && forall q: nat :: RecordAt(file, q) ==> q <= p
  }

  /** The reversed scan over 4-byte windows, positions below `from` still to be tried. */
  function ScanWindows(tail: seq<byte>, from: nat): (r: Option<nat>)
    requires from + 3 <= |tail|
    ensures r.Some? ==> r.value < from && RecordAt(tail, r.value)
    ensures forall q: nat :: q < from && RecordAt(tail, q) ==> r.Some? && q <= r.value
  {
    if from == 0 then None
    else
      var position := from - 1;
      if tail[position..position + 4] != MAGIC || position + RECORD_BYTES > |tail| then ScanWindows(tail, position)
      else
        var eocd := tail[position..];
        var commentLength := ReadU16(eocd, 20);
        if RECORD_BYTES + commentLength == |eocd| then Some(position) else ScanWindows(tail, position)
  }

  function FindEndOfCentralDirectory(tail: seq<byte>): (r: Option<nat>)
    ensures r.Some? ==> LastRecord(tail, r.value)
    ensures r.None? ==> forall q: nat :: !RecordAt(tail, q)
  {
    if |tail| < RECORD_BYTES then None else ScanWindows(tail, |tail| - 3)
  }

  function Tail(file: seq<byte>): seq<byte> {
    var length := if |file| <= U16_MAX + RECORD_BYTES then |file| else U16_MAX + RECORD_BYTES;
    file[|file| - length..]
  }

  function DeclaredEntryCount(file: seq<byte>): Result<nat, CountError> {
    var tail := Tail(file);
    var found := FindEndOfCentralDirectory(tail);
    if found.None? then Err(NoCentralDirectory)
    else
      var eocd := tail[found.value..];
      if ReadU16(eocd, 4) != 0 || ReadU16(eocd, 6) != 0 || ReadU16(eocd, 8) != ReadU16(eocd, 10) then Err(MultiDisk)
      else if ReadU16(eocd, 10) == U16_MAX then Err(Zip64)
      else Ok(ReadU16(eocd, 10))
  }

  /** What the record at `p` says, read in place. */
  function CountAt(file: seq<byte>, p: nat): Result<nat, CountError>
    requires p + RECORD_BYTES <= |file|
  {
    if ReadU16(file, p + 4) != 0 || ReadU16(file, p + 6) != 0 || ReadU16(file, p + 8) != ReadU16(file, p + 10)
    then Err(MultiDisk)
    else if ReadU16(file, p + 10) == U16_MAX then Err(Zip64)
    else Ok(ReadU16(file, p + 10))
  }

  /** A comment length fits in 16 bits, so no record of the file starts before the tail. */
  lemma RecordsLieInTail(file: seq<byte>, q: nat)
    requires RecordAt(file, q)
    ensures |file| - |Tail(file)| <= q
  {
  }

  lemma RecordsOfTail(file: seq<byte>, q: nat)
    ensures RecordAt(Tail(file), q) <==> RecordAt(file, |file| - |Tail(file)| + q)
  {
    var tail := Tail(file);
    var start := |file| - |tail|;
    if q + RECORD_BYTES <= |tail| {
      assert tail[q..q + 4] == file[start + q..start + q + 4];
    }
  }

  /** Scanning only the tail answers the question about the whole file. */
  lemma TailSearchIsWholeFileSearch(file: seq<byte>)
    ensures var r := FindEndOfCentralDirectory(Tail(file));
            && (r.Some? ==> LastRecord(file, |file| - |Tail(file)| + r.value))
            && (r.None? <==> forall q: nat :: !RecordAt(file, q))
  {
    var start := |file| - |Tail(file)|;
    var r := FindEndOfCentralDirectory(Tail(file));
    forall q: nat | RecordAt(file, q)
      ensures r.Some? && q <= start + r.value
    {
      RecordsLieInTail(file, q);
      RecordsOfTail(file, q - start);
    }
    if r.Some? {
      RecordsOfTail(file, r.value);
    }
  }

  lemma ReadFromSlice(file: seq<byte>, start: nat, offset: nat)
    requires start + offset + 2 <= |file|
    ensures ReadU16(file[start..], offset) == ReadU16(file, start + offset)
  {
  }

  /** The record found is read in place. */
  lemma CountReadInPlace(file: seq<byte>, p: nat)
    requires FindEndOfCentralDirectory(Tail(file)).Some?
    requires p == |file| - |Tail(file)| + FindEndOfCentralDirectory(Tail(file)).value && p + RECORD_BYTES <= |file|
    ensures DeclaredEntryCount(file) == CountAt(file, p)
  {
    assert Tail(file)[FindEndOfCentralDirectory(Tail(file)).value..] == file[p..];
    ReadFromSlice(file, p, 4);
    ReadFromSlice(file, p, 6);
    ReadFromSlice(file, p, 8);
    ReadFromSlice(file, p, 10);
  }

  /** The declared count is what the last record of the whole file states, and an error iff there is none or it is refused. */
  lemma CountComesFromLastRecord(file: seq<byte>)
    ensures DeclaredEntryCount(file) == Err(NoCentralDirectory) <==> forall q: nat :: !RecordAt(file, q)
    ensures forall p: nat :: LastRecord(file, p) ==> DeclaredEntryCount(file) == CountAt(file, p)
    ensures DeclaredEntryCount(file).Ok? ==> DeclaredEntryCount(file).value < U16_MAX
  {
    TailSearchIsWholeFileSearch(file);
    var r := FindEndOfCentralDirectory(Tail(file));
    if r.Some? {
      CountReadInPlace(file, |file| - |Tail(file)| + r.value);
    }
  }

  // ----- writing a record and finding it again

  function U16(n: nat): seq<byte>
    requires n <= U16_MAX
  {
    [n % 256, n / 256]
  }

  function Record(entries: nat, directory: seq<byte>, comment: seq<byte>): (r: seq<byte>)
    requires entries <= U16_MAX && |directory| == 8 && |comment| <= U16_MAX
    ensures |r| == RECORD_BYTES + |comment|
  {
    MAGIC + U16(0) + U16(0) + U16(entries) + U16(entries) + directory + U16(|comment|) + comment
  }

  lemma RecordFields(entries: nat, directory: seq<byte>, comment: seq<byte>)
    requires entries <= U16_MAX && |directory| == 8 && |comment| <= U16_MAX
    ensures var r := Record(entries, directory, comment);
            && r[..4] == MAGIC && ReadU16(r, 4) == 0 && ReadU16(r, 6) == 0
            && ReadU16(r, 8) == entries && ReadU16(r, 10) == entries && ReadU16(r, 20) == |comment|
  {
  }

  /**
   Round trip: an archive written as `body` and a closing record declares the written count,
   unless a later record is spelled inside that record or its comment; without a comment, always.
   */
  lemma WrittenCountIsRead(body: seq<byte>, entries: nat, directory: seq<byte>, comment: seq<byte>)
    requires entries < U16_MAX && |directory| == 8 && |comment| <= U16_MAX
    ensures var file := body + Record(entries, directory, comment);
            && RecordAt(file, |body|)
            && ((forall q: nat :: |body| < q ==> !RecordAt(file, q)) ==> DeclaredEntryCount(file) == Ok(entries))
    ensures comment == [] ==> DeclaredEntryCount(body + Record(entries, directory, comment)) == Ok(entries)
  {
    var record := Record(entries, directory, comment);
    var file := body + record;
    RecordFields(entries, directory, comment);
    assert file[|body|..] == record;
    assert file[|body|..|body| + 4] == record[..4];
    assert forall k: nat :: k + 2 <= |record| ==> ReadU16(file, |body| + k) == ReadU16(record, k);
    assert RecordAt(file, |body|);
    CountComesFromLastRecord(file);
    if forall q: nat :: |body| < q ==> !RecordAt(file, q) {
      assert LastRecord(file, |body|);
    }
  }

  /** Bytes `offset` and `offset + 1` of the record at `p` hold `n`, least significant first. */
  predicate FieldIs(file: seq<byte>, p: nat, offset: nat, n: nat) {
    p + offset + 2 <= |file| && n <= 65535 && file[p + offset] as int == n % 256 && file[p + offset + 1] as int == n / 256
  }

  lemma FieldSpelledOut(file: seq<byte>, p: nat, offset: nat, n: nat)
    requires p + offset + 2 <= |file|
    ensures FieldIs(file, p, offset, n) <==> ReadU16(file, p + offset) == n
  {
    var low, high := file[p + offset] as int, file[p + offset + 1] as int;
    if low + 256 * high == n {
      assert n / 256 == high && n % 256 == low;
    }
  }

  /** A record of one disk that declares `n` entries, byte by byte. */
  predicate Declares(file: seq<byte>, p: nat, n: nat) {
    && FieldIs(file, p, 4, 0) && FieldIs(file, p, 6, 0)    // this disk, the directory's disk
    && FieldIs(file, p, 8, n) && FieldIs(file, p, 10, n)   // entries on this disk, entries in all
    && n < 65535                                           // 65535 announces ZIP64
  }

  /** Exactly the counts that the last record of the file declares on a single disk and without ZIP64. */
  lemma DeclaredCountSpelledOut(file: seq<byte>, n: nat)
    ensures DeclaredEntryCount(file) == Ok(n) <==> exists p: nat :: LastRecord(file, p) && Declares(file, p, n)
  {
    CountComesFromLastRecord(file);
    TailSearchIsWholeFileSearch(file);
    forall p: nat | LastRecord(file, p)
      ensures Declares(file, p, n) <==> CountAt(file, p) == Ok(n)
    {
      FieldSpelledOut(file, p, 4, 0);
      FieldSpelledOut(file, p, 6, 0);
      FieldSpelledOut(file, p, 8, n);
      FieldSpelledOut(file, p, 10, n);
    }
  }
}
