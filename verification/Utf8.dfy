/**
 UTF-8 as far as scalar boundaries are concerned: a lead byte announces the length of
 its sequence and continuation bytes fill it (section 3 of RFC 3629). Over-long forms
 are not excluded, so everything proved here holds of a superset of Rust's `str`.
 */
module Utf8 {
  import opened Wrappers

  predicate Continuation(b: byte) {
    0x80 <= b < 0xC0
  }

  /** Length announced by a lead byte; 0 when `b` cannot start a sequence. */
  function LeadLength(b: byte): nat {
    if b < 0x80 then 1
    else if 0xC0 <= b < 0xE0 then 2
    else if 0xE0 <= b < 0xF0 then 3
    else if 0xF0 <= b < 0xF8 then 4
    else 0
  }

  predicate WellFormed(s: seq<byte>)
    decreases |s|
  {
    s == [] ||
    (var n := LeadLength(s[0]);
     && 1 <= n <= |s|
     && (forall i :: 1 <= i < n ==> Continuation(s[i]))
     && WellFormed(s[n..]))
  }

  /** Scalars of a well-formed text, counted from lead byte to lead byte. */
  function Scalars(s: seq<byte>): nat
    requires WellFormed(s)
    decreases |s|
  {
    if s == [] then 0 else 1 + Scalars(s[LeadLength(s[0])..])
  }

  /** `str::is_char_boundary`. */
  predicate Boundary(s: seq<byte>, i: nat) {
    i == |s| || (i < |s| && !Continuation(s[i]))
  }

  /** No boundary falls inside the first scalar. */
  lemma FirstScalarIsWhole(s: seq<byte>, i: nat)
    requires s != [] && WellFormed(s) && 0 < i <= |s| && Boundary(s, i)
    ensures 1 <= LeadLength(s[0]) <= i && Boundary(s[LeadLength(s[0])..], i - LeadLength(s[0]))
  {
  }

  lemma SplitTwice(s: seq<byte>, n: nat, i: nat)
    requires n <= i <= |s|
    ensures s[..i][n..] == s[n..][..i - n] && s[n..][i - n..] == s[i..]
  {
  }

  lemma {:induction false} SplitAtBoundary(s: seq<byte>, i: nat)
    requires WellFormed(s) && i <= |s| && Boundary(s, i)
    ensures WellFormed(s[..i]) && WellFormed(s[i..])
    decreases |s|
  {
    if i == 0 {
      assert s[0..] == s;
    } else {
      var n := LeadLength(s[0]);
      FirstScalarIsWhole(s, i);
      SplitAtBoundary(s[n..], i - n);
      SplitTwice(s, n, i);
      PrependScalar(s[..i], n);
    }
  }

  lemma PrependScalar(s: seq<byte>, n: nat)
    requires s != [] && n == LeadLength(s[0]) && 1 <= n <= |s|
    requires forall i :: 1 <= i < n ==> Continuation(s[i])
    requires WellFormed(s[n..])
    ensures WellFormed(s)
  {
  }

  lemma DropInFirst(s: seq<byte>, t: seq<byte>, n: nat)
    requires n <= |s|
    ensures (s + t)[n..] == s[n..] + t
  {
  }

  lemma {:induction false} Concatenate(s: seq<byte>, t: seq<byte>)
    requires WellFormed(s) && WellFormed(t)
    ensures WellFormed(s + t)
    decreases |s|
  {
    if s == [] {
      assert s + t == t;
    } else {
      var n := LeadLength(s[0]);
      Concatenate(s[n..], t);
      DropInFirst(s, t, n);
      PrependScalar(s + t, n);
    }
  }

  /** A well-formed prefix of a well-formed string ends between two scalars. */
  lemma {:induction false} WellFormedPrefixEndsAtBoundary(s: seq<byte>, m: nat)
    requires WellFormed(s) && m <= |s| && WellFormed(s[..m])
    ensures Boundary(s, m)
    decreases |s|
  {
    if 0 < m < |s| {
      var n := LeadLength(s[0]);
      assert s[..m][n..] == s[n..][..m - n];
      WellFormedPrefixEndsAtBoundary(s[n..], m - n);
    }
  }
}
