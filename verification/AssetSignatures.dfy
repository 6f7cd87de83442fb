/** Asset extensions, their media types and magic numbers. */
module AssetSignatures {
  import opened Wrappers
  import opened EntryDecoding

  datatype Format = Png | Jpeg | Gif | Webp | Avif | Mp3 | Wav | Ogg | Other

  function FormatOf(extension: string): Format {
    match extension
    case "png" => Png
    case "jpg" => Jpeg
    case "jpeg" => Jpeg
    case "gif" => Gif
    case "webp" => Webp
    case "avif" => Avif
    case "mp3" => Mp3
    case "wav" => Wav
    case "ogg" => Ogg
    case _ => Other
  }

  predicate IsAssetExtension(extension: string) {
    !FormatOf(extension).Other?
  }

  function MediaType(extension: string): string {
    match FormatOf(extension)
    case Png => "image/png"
    case Jpeg => "image/jpeg"
    case Gif => "image/gif"
    case Webp => "image/webp"
    case Avif => "image/avif"
    case Mp3 => "audio/mpeg"
    case Wav => "audio/wav"
    case Ogg => "audio/ogg"
    case Other => "application/octet-stream"
  }

  predicate IsImage(extension: string) {
    "image/" <= MediaType(extension)
  }

  /** `header.get(from..from + 4) == Some(word)`. */
  predicate WordAt(header: seq<byte>, from: nat, word: seq<byte>) {
    from + 4 <= |header| && header[from..from + 4] == word
  }

  const RIFF: seq<byte> := [0x52, 0x49, 0x46, 0x46]

  predicate FormatMatches(format: Format, header: seq<byte>) {
    match format
    case Png => [0x89, 0x50, 0x4E, 0x47, 0x0D, 0x0A, 0x1A, 0x0A] <= header
    case Jpeg => [0xFF, 0xD8, 0xFF] <= header
    case Gif => [0x47, 0x49, 0x46, 0x38, 0x37, 0x61] <= header || [0x47, 0x49, 0x46, 0x38, 0x39, 0x61] <= header
    case Webp => RIFF <= header && WordAt(header, 8, [0x57, 0x45, 0x42, 0x50])
    case Avif =>
      && WordAt(header, 4, [0x66, 0x74, 0x79, 0x70])
      && (WordAt(header, 8, [0x61, 0x76, 0x69, 0x66]) || WordAt(header, 8, [0x61, 0x76, 0x69, 0x73]))
    case Wav => RIFF <= header && WordAt(header, 8, [0x57, 0x41, 0x56, 0x45])
    case Ogg => [0x4F, 0x67, 0x67, 0x53] <= header
    case Mp3 => [0x49, 0x44, 0x33] <= header || (2 <= |header| && header[0] == 0xFF && header[1] >= 0xE0)
    case Other => true
  }

  predicate SignatureMatches(extension: string, header: seq<byte>) {
    FormatMatches(FormatOf(extension), header)
  }

  lemma PrefixSeenInHeader(word: seq<byte>, content: seq<byte>)
    requires |word| <= HEADER_BYTES
    ensures word <= First(content) <==> word <= content
  {
    var header := First(content);
    assert header == content[..|header|];
    if word <= content {
      assert word == content[..|word|] == header[..|word|];
    }
  }

  lemma WordSeenInHeader(content: seq<byte>, from: nat, word: seq<byte>)
    requires from + 4 <= HEADER_BYTES
    ensures WordAt(First(content), from, word) <==> WordAt(content, from, word)
  {
    var header := First(content);
    if from + 4 <= |header| {
      assert header[from..from + 4] == content[from..from + 4];
    }
  }

  /** Sixteen bytes are enough: the verdict on the kept header is the verdict on the whole asset. */
  lemma HeaderDecidesSignature(extension: string, content: seq<byte>)
    ensures SignatureMatches(extension, First(content)) <==> SignatureMatches(extension, content)
  {
    match FormatOf(extension) {
      case Png => PrefixSeenInHeader([0x89, 0x50, 0x4E, 0x47, 0x0D, 0x0A, 0x1A, 0x0A], content);
      case Jpeg => PrefixSeenInHeader([0xFF, 0xD8, 0xFF], content);
      case Gif =>
        PrefixSeenInHeader([0x47, 0x49, 0x46, 0x38, 0x37, 0x61], content);
        PrefixSeenInHeader([0x47, 0x49, 0x46, 0x38, 0x39, 0x61], content);
      case Webp =>
        PrefixSeenInHeader(RIFF, content);
        WordSeenInHeader(content, 8, [0x57, 0x45, 0x42, 0x50]);
      case Avif =>
        WordSeenInHeader(content, 4, [0x66, 0x74, 0x79, 0x70]);
        WordSeenInHeader(content, 8, [0x61, 0x76, 0x69, 0x66]);
        WordSeenInHeader(content, 8, [0x61, 0x76, 0x69, 0x73]);
      case Wav =>
        PrefixSeenInHeader(RIFF, content);
        WordSeenInHeader(content, 8, [0x57, 0x41, 0x56, 0x45]);
      case Ogg => PrefixSeenInHeader([0x4F, 0x67, 0x67, 0x53], content);
      case Mp3 => PrefixSeenInHeader([0x49, 0x44, 0x33], content);
      case Other =>
    }
  }
}
