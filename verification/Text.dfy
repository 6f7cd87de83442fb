/** Strings of Unicode scalars and their UTF-8 size (section 3 of RFC 3629). */
module Text {

  function ScalarBytes(c: char): (n: nat)
    ensures 1 <= n <= 4
  {
    var v := c as int;
    if v < 0x80 then 1 else if v < 0x800 then 2 else if v < 0x1_0000 then 3 else 4
  }

  /** `str::len`; `|s|` is `chars().count()`. */
  function Bytes(s: string): nat {
    if s == [] then 0 else Bytes(s[..|s| - 1]) + ScalarBytes(s[|s| - 1])
  }

  /** `char::is_control` in Rust and in .NET: general category Cc. */
  predicate IsControl(c: char) {
    var v := c as int;
    v < 0x20 || 0x7F <= v < 0xA0
  }

  /** `char::is_whitespace` in Rust and `char.IsWhiteSpace` in .NET. */
  predicate IsWhitespace(c: char) {
    var v := c as int;
    || 0x09 <= v <= 0x0D
    || v in {0x20, 0x85, 0xA0, 0x1680, 0x2028, 0x2029, 0x202F, 0x205F, 0x3000}
    || 0x2000 <= v <= 0x200A
  }

  predicate HasControl(s: string) {
    exists i :: 0 <= i < |s| && IsControl(s[i])
  }

  predicate Blank(s: string) {
    forall i :: 0 <= i < |s| ==> IsWhitespace(s[i])
  }

  function Trim(s: string): (r: string)
    ensures r != [] ==> !IsWhitespace(r[0]) && !IsWhitespace(r[|r| - 1])
    ensures r == [] <==> Blank(s)
    ensures |r| <= |s|
    decreases |s|
  {
    if s == [] then []
    else if IsWhitespace(s[0]) then Trim(s[1..])
    else if IsWhitespace(s[|s| - 1]) then Trim(s[..|s| - 1])
    else s
  }

  /** `r` is the stretch of `s` from `from` to `to`, with nothing but whitespace around it. */
  predicate Kept(s: string, from: nat, to: nat, r: string) {
    from <= to <= |s| && r == s[from..to] && Blank(s[..from]) && Blank(s[to..])
  }

  lemma KeptBehindSpace(s: string, from: nat, to: nat, r: string)
    requires s != [] && IsWhitespace(s[0]) && Kept(s[1..], from, to, r)
    ensures Kept(s, from + 1, to + 1, r)
  {
    assert s[1..][from..to] == s[from + 1..to + 1] && s[1..][to..] == s[to + 1..];
    assert s[..from + 1] == [s[0]] + s[1..][..from];
  }

  lemma KeptBeforeSpace(s: string, from: nat, to: nat, r: string)
    requires s != [] && IsWhitespace(s[|s| - 1]) && Kept(s[..|s| - 1], from, to, r)
    ensures Kept(s, from, to, r)
  {
    var shorter := s[..|s| - 1];
    assert shorter[from..to] == s[from..to] && shorter[..from] == s[..from];
    assert s[to..] == shorter[to..] + [s[|s| - 1]];
  }

  /** Trimming leaves the stretch between the outer whitespace; `Trim` itself promises that it is the tightest. */
  lemma {:induction false} TrimIsSlice(s: string) returns (from: nat, to: nat)
    ensures Kept(s, from, to, Trim(s))
    decreases |s|
  {
    if s == [] {
      from, to := 0, 0;
    } else if IsWhitespace(s[0]) {
      from, to := TrimIsSlice(s[1..]);
      KeptBehindSpace(s, from, to, Trim(s[1..]));
      from, to := from + 1, to + 1;
    } else if IsWhitespace(s[|s| - 1]) {
      from, to := TrimIsSlice(s[..|s| - 1]);
      KeptBeforeSpace(s, from, to, Trim(s[..|s| - 1]));
    } else {
      from, to := 0, |s|;
      assert s[0..|s|] == s;
    }
  }

  /** A scalar takes one to four bytes. */
  lemma {:induction false} BytesBounds(s: string)
    ensures |s| <= Bytes(s) <= 4 * |s|
  {
    if s != [] {
      BytesBounds(s[..|s| - 1]);
    }
  }

  /** A byte limit four times the character limit never decides anything. */
  lemma ByteLimitIsRedundant(s: string, maxBytes: nat, maxChars: nat)
    requires maxBytes >= 4 * maxChars
    ensures Bytes(s) > maxBytes || |s| > maxChars <==> |s| > maxChars
  {
    BytesBounds(s);
  }

  function Repeat(c: char, n: nat): (s: string)
    ensures |s| == n && forall i :: 0 <= i < n ==> s[i] == c
  {
    if n == 0 then [] else Repeat(c, n - 1) + [c]
  }

  lemma {:induction false} RepeatBytes(c: char, n: nat)
    requires ScalarBytes(c) == 4
    ensures Bytes(Repeat(c, n)) == 4 * n
  {
    if n > 0 {
      RepeatBytes(c, n - 1);
      assert Repeat(c, n)[..n - 1] == Repeat(c, n - 1);
    }
  }
}
