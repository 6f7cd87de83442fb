/**
 The credential reflection guard of the generation stream: a Knuth-Morris-Pratt scan
 that withholds exactly the bytes which could still turn into the credential.
 */
module CredentialScan {
  import opened Wrappers
  import Utf8

  /** The last `k` bytes of `text` are the first `k` bytes of `pattern`. */
  predicate Overlaps(pattern: seq<byte>, text: seq<byte>, k: nat) {
    k <= |pattern| && k <= |text| && pattern[..k] == text[|text| - k..]
  }

  ghost predicate Longest(pattern: seq<byte>, text: seq<byte>, m: nat) {
    Overlaps(pattern, text, m) && forall k: nat :: Overlaps(pattern, text, k) ==> k <= m
  }

  predicate OccursAt(pattern: seq<byte>, text: seq<byte>, i: nat) {
    i + |pattern| <= |text| && text[i..i + |pattern|] == pattern
  }

  ghost predicate Occurs(pattern: seq<byte>, text: seq<byte>) {
    exists i: nat :: OccursAt(pattern, text, i)
  }

  /**
   Entry `i` is the length of the longest prefix of the pattern that also ends
   `pattern[..i + 1]` without being the whole of it.
   */
  ghost predicate PrefixTable(pattern: seq<byte>, table: seq<nat>) {
    && |table| <= |pattern|
    && forall i :: 0 <= i < |table| ==> Longest(pattern, pattern[1..i + 1], table[i])
  }

  // ----- overlap algebra

  lemma OverlapExtends(pattern: seq<byte>, text: seq<byte>, b: byte, k: nat)
    requires k < |pattern|
    ensures Overlaps(pattern, text + [b], k + 1) <==> Overlaps(pattern, text, k) && pattern[k] == b
  {
    if k <= |text| {
      assert pattern[..k + 1] == pattern[..k] + [pattern[k]];
      assert (text + [b])[|text| - k..] == text[|text| - k..] + [b];
      assert pattern[..k + 1][..k] == pattern[..k];
      assert (text[|text| - k..] + [b])[..k] == text[|text| - k..];
    }
  }

  /** A shorter overlap is an overlap of the pattern with its own matched prefix. */
  lemma ShorterOverlapIsBorder(pattern: seq<byte>, text: seq<byte>, m: nat, k: nat)
    requires 0 < m && Overlaps(pattern, text, m) && k < m
    ensures Overlaps(pattern, text, k) <==> Overlaps(pattern, pattern[1..m], k)
  {
    assert text[|text| - k..] == text[|text| - m..][m - k..];
    assert pattern[1..m][m - 1 - k..] == pattern[..m][m - k..];
  }

  /** The shared inner loop of table construction and of the scan. */
  method Advance(pattern: seq<byte>, table: seq<nat>, ghost text: seq<byte>, start: nat, b: byte) returns (next: nat)
    requires start < |pattern| && start <= |table| && PrefixTable(pattern, table)
    requires Longest(pattern, text, start)
    ensures Longest(pattern, text + [b], next)
  {
    var matched: nat := start;
    while matched > 0 && b != pattern[matched]
      invariant matched <= start && Overlaps(pattern, text, matched)
      invariant forall k: nat :: k < |pattern| && Overlaps(pattern, text, k) && pattern[k] == b ==> k <= matched
    {
      var shorter := table[matched - 1];
      assert Longest(pattern, pattern[1..matched], shorter);
      ShorterOverlapIsBorder(pattern, text, matched, shorter);
      forall k: nat | k < |pattern| && Overlaps(pattern, text, k) && pattern[k] == b
        ensures k <= shorter
      {
        ShorterOverlapIsBorder(pattern, text, matched, k);
      }
      matched := shorter;
    }
    next := if b == pattern[matched] then matched + 1 else 0;
    forall k: nat | Overlaps(pattern, text + [b], k)
      ensures k <= next
    {
      if k > 0 {
        OverlapExtends(pattern, text, b, k - 1);
      }
    }
    OverlapExtends(pattern, text, b, matched);
  }

  method BuildPrefixTable(pattern: seq<byte>) returns (table: seq<nat>)
    requires pattern != []
    ensures |table| == |pattern| && PrefixTable(pattern, table)
  {
    table := [0];
    var matched: nat := 0;
    TableStarts(pattern);
    for index := 1 to |pattern|
      invariant |table| == index && PrefixTable(pattern, table)
      invariant matched < index && Longest(pattern, pattern[1..index], matched)
    {
      matched := Advance(pattern, table, pattern[1..index], matched, pattern[index]);
      SliceGrows(pattern, index);
      OverlapFits(pattern, pattern[1..index + 1], matched);
      ExtendTable(pattern, table, matched);
      table := table + [matched];
    }
  }

  lemma TableStarts(pattern: seq<byte>)
    requires pattern != []
    ensures Longest(pattern, pattern[1..1], 0) && PrefixTable(pattern, [0])
  {
    assert Overlaps(pattern, pattern[1..1], 0);
  }

  lemma SliceGrows(pattern: seq<byte>, index: nat)
    requires 1 <= index < |pattern|
    ensures pattern[1..index] + [pattern[index]] == pattern[1..index + 1]
  {
  }

  lemma OverlapFits(pattern: seq<byte>, text: seq<byte>, m: nat)
    requires Overlaps(pattern, text, m)
    ensures m <= |text|
  {
  }

  lemma ExtendTable(pattern: seq<byte>, table: seq<nat>, m: nat)
    requires |table| < |pattern| && PrefixTable(pattern, table)
    requires Longest(pattern, pattern[1..|table| + 1], m)
    ensures PrefixTable(pattern, table + [m])
  {
  }

  method ScanSuffix(value: seq<byte>, pattern: seq<byte>, table: seq<nat>) returns (r: Option<nat>)
    requires pattern != [] && |table| == |pattern| && PrefixTable(pattern, table)
    ensures r.None? <==> Occurs(pattern, value)
    ensures r.Some? ==> r.value < |pattern| && Longest(pattern, value, r.value)
  {
    var matched: nat := 0;
    for i := 0 to |value|
      invariant matched < |pattern| && Longest(pattern, value[..i], matched)
      invariant !Occurs(pattern, value[..i])
    {
      assert value[..i + 1] == value[..i] + [value[i]];
      matched := Advance(pattern, table, value[..i], matched, value[i]);
      if matched == |pattern| {
        assert OccursAt(pattern, value, i + 1 - |pattern|);
        return None;
      }
      NoNewOccurrence(pattern, value[..i], value[i]);
    }
    assert value[..|value|] == value;
    return Some(matched);
  }

  lemma NoNewOccurrence(pattern: seq<byte>, text: seq<byte>, b: byte)
    requires !Occurs(pattern, text) && !Overlaps(pattern, text + [b], |pattern|)
    ensures !Occurs(pattern, text + [b])
  {
    forall i: nat | OccursAt(pattern, text + [b], i)
      ensures false
    {
      if i + |pattern| <= |text| {
        assert OccursAt(pattern, text, i);
      }
    }
  }

  // ----- the guard as a function of everything received so far

  ghost function LongestUpTo(pattern: seq<byte>, text: seq<byte>, k: nat): (m: nat)
    requires k <= |pattern|
    ensures m <= k && Overlaps(pattern, text, m)
    ensures forall j: nat :: m < j <= k ==> !Overlaps(pattern, text, j)
  {
    if Overlaps(pattern, text, k) then k else
      assert k > 0 by { assert Overlaps(pattern, text, 0); }
      LongestUpTo(pattern, text, k - 1)
  }

  /** What must be withheld: the longest end of `text` that begins the credential. */
  ghost function Withheld(credential: seq<byte>, text: seq<byte>): (m: nat)
    ensures m <= |text| && Longest(credential, text, m)
  {
    LongestUpTo(credential, text, |credential|)
  }

  datatype Release = Release(out: seq<byte>, pending: seq<byte>)

  /** One `push` on a guard holding `pending`; `None` is the reflection error. */
  ghost function Push(credential: seq<byte>, pending: seq<byte>, fragment: seq<byte>): (r: Option<Release>) {
    var text := pending + fragment;
    if Occurs(credential, text) then None
    else
      var cut := |text| - Withheld(credential, text);
      Some(Release(text[..cut], text[cut..]))
  }

  /** Fragments pushed one after another; the released parts are concatenated. */
  ghost function Feed(credential: seq<byte>, pending: seq<byte>, fragments: seq<seq<byte>>): (r: Option<Release>)
    decreases |fragments|
  {
    if fragments == [] then Some(Release([], pending))
    else
      var last := |fragments| - 1;
      var before := Feed(credential, pending, fragments[..last]);
      if before.None? then None else
        var step := Push(credential, before.value.pending, fragments[last]);
        if step.None? then None
        else Some(Release(before.value.out + step.value.out, step.value.pending))
  }

  ghost function Concat(fragments: seq<seq<byte>>): seq<byte> {
    if fragments == [] then [] else Concat(fragments[..|fragments| - 1]) + fragments[|fragments| - 1]
  }

  /** Forgetting what was released loses no overlap: `tail` is all the guard needs of `text`. */
  lemma OverlapSeenThroughTail(credential: seq<byte>, text: seq<byte>, more: seq<byte>, k: nat)
    ensures var tail := text[|text| - Withheld(credential, text)..];
            Overlaps(credential, text + more, k) <==> Overlaps(credential, tail + more, k)
  {
    var m := Withheld(credential, text);
    var tail := text[|text| - m..];
    if k <= m + |more| {
      if k <= |text| + |more| {
        assert (text + more)[|text + more| - k..] == (tail + more)[|tail + more| - k..];
      }
    } else if Overlaps(credential, text + more, k) {
      var j := k - |more|;
      assert credential[..j] == credential[..k][..j];
      assert (text + more)[|text + more| - k..][..j] == text[|text| - j..];
      assert Overlaps(credential, text, j);
    }
  }

  /** Every occurrence completed by `more` lies wholly in the withheld tail and `more`. */
  lemma OccurrenceLiesInTail(credential: seq<byte>, text: seq<byte>, more: seq<byte>, i: nat)
    requires !Occurs(credential, text) && OccursAt(credential, text + more, i)
    ensures var cut := |text| - Withheld(credential, text);
            cut <= i && OccursAt(credential, text[cut..] + more, i - cut)
  {
    var cut := |text| - Withheld(credential, text);
    if i + |credential| <= |text| {
      assert (text + more)[i..i + |credential|] == text[i..i + |credential|];
      assert OccursAt(credential, text, i);
    }
    if i < cut {
      var j := |text| - i;
      assert credential[..j] == (text + more)[i..i + |credential|][..j] == text[i..];
      assert Overlaps(credential, text, j);
    }
    assert text[cut..] + more == (text + more)[cut..];
  }

  lemma OccursThroughTail(credential: seq<byte>, text: seq<byte>, more: seq<byte>)
    requires !Occurs(credential, text)
    ensures var tail := text[|text| - Withheld(credential, text)..];
            Occurs(credential, text + more) <==> Occurs(credential, tail + more)
  {
    var cut := |text| - Withheld(credential, text);
    var tail := text[cut..];
    if Occurs(credential, text + more) {
      var i: nat :| OccursAt(credential, text + more, i);
      OccurrenceLiesInTail(credential, text, more, i);
    }
    if Occurs(credential, tail + more) {
      var i: nat :| OccursAt(credential, tail + more, i);
      assert text + more == text[..cut] + (tail + more);
      assert OccursAt(credential, text + more, cut + i);
    }
  }

  lemma WithheldThroughTail(credential: seq<byte>, text: seq<byte>, more: seq<byte>)
    ensures var tail := text[|text| - Withheld(credential, text)..];
            Withheld(credential, text + more) == Withheld(credential, tail + more)
  {
    var tail := text[|text| - Withheld(credential, text)..];
    OverlapSeenThroughTail(credential, text, more, Withheld(credential, text + more));
    OverlapSeenThroughTail(credential, text, more, Withheld(credential, tail + more));
  }

  /** One more push on top of a guard that has seen `text` behaves like a guard fed everything at once. */
  lemma PushAfterPush(credential: seq<byte>, text: seq<byte>, more: seq<byte>)
    requires !Occurs(credential, text)
    ensures var cut := |text| - Withheld(credential, text);
            Push(credential, [], text + more) ==
            match Push(credential, text[cut..], more)
            case None => None
            case Some(step) => Some(Release(text[..cut] + step.out, step.pending))
  {
    var cut := |text| - Withheld(credential, text);
    var head, tail := text[..cut], text[cut..] + more;
    assert text + more == head + tail;
    OccursThroughTail(credential, text, more);
    WithheldThroughTail(credential, text, more);
    PushOnHead(credential, head, text[cut..], more, text + more);
  }

  lemma PushOnHead(credential: seq<byte>, head: seq<byte>, pending: seq<byte>, more: seq<byte>, all: seq<byte>)
    requires all == head + (pending + more)
    requires Occurs(credential, all) <==> Occurs(credential, pending + more)
    requires Withheld(credential, all) == Withheld(credential, pending + more)
    ensures Push(credential, [], all) ==
            match Push(credential, pending, more)
            case None => None
            case Some(step) => Some(Release(head + step.out, step.pending))
  {
    PushFresh(credential, all);
    CutInSecondHalf(head, pending + more, Withheld(credential, all));
  }

  lemma CutInSecondHalf(head: seq<byte>, tail: seq<byte>, k: nat)
    requires k <= |tail|
    ensures var all := head + tail;
            && all[..|all| - k] == head + tail[..|tail| - k]
            && all[|all| - k..] == tail[|tail| - k..]
  {
  }

  lemma PushFresh(credential: seq<byte>, text: seq<byte>)
    ensures var cut := |text| - Withheld(credential, text);
            Push(credential, [], text) ==
            if Occurs(credential, text) then None else Some(Release(text[..cut], text[cut..]))
  {
    assert [] + text == text;
  }

  lemma OccursInLonger(credential: seq<byte>, text: seq<byte>, more: seq<byte>)
    requires Occurs(credential, text)
    ensures Occurs(credential, text + more)
  {
    var i: nat :| OccursAt(credential, text, i);
    assert OccursAt(credential, text + more, i);
  }

  /**
   Fragmentation is invisible: pushing fragments one by one fails, releases and withholds
   exactly as one push of their concatenation would.
   */
  lemma {:induction false} FeedIsOnePush(credential: seq<byte>, fragments: seq<seq<byte>>)
    requires credential != []
    ensures Feed(credential, [], fragments) == Push(credential, [], Concat(fragments))
    decreases |fragments|
  {
    if fragments == [] {
      PushFresh(credential, []);
    } else {
      var last := |fragments| - 1;
      var text, more := Concat(fragments[..last]), fragments[last];
      FeedIsOnePush(credential, fragments[..last]);
      PushFresh(credential, text);
      if Occurs(credential, text) {
        OccursInLonger(credential, text, more);
        PushFresh(credential, text + more);
      } else {
        PushAfterPush(credential, text, more);
      }
    }
  }

  /**
   What a guarded stream promises its readers, for every fragmentation of the input:
   it fails exactly when the input contains the credential, and otherwise the bytes
   released so far followed by the bytes withheld are the input.
   */
  lemma GuardedStream(credential: seq<byte>, fragments: seq<seq<byte>>)
    requires credential != []
    ensures var r := Feed(credential, [], fragments);
            && (r.None? <==> Occurs(credential, Concat(fragments)))
            && (r.Some? ==>
                  && r.value.out + r.value.pending == Concat(fragments)
                  && !Occurs(credential, r.value.out)
                  && |r.value.pending| < |credential|)
  {
    FeedIsOnePush(credential, fragments);
    GuardedText(credential, Concat(fragments));
  }

  lemma GuardedText(credential: seq<byte>, text: seq<byte>)
    ensures var r := Push(credential, [], text);
            && (r.None? <==> Occurs(credential, text))
            && (r.Some? ==>
                  && r.value.out + r.value.pending == text
                  && !Occurs(credential, r.value.out)
                  && |r.value.pending| < |credential|)
  {
    PushFresh(credential, text);
    if !Occurs(credential, text) {
      WithheldIsProper(credential, text);
      var cut := |text| - Withheld(credential, text);
      assert text == text[..cut] + text[cut..];
      PrefixIsClean(credential, text[..cut], text[cut..]);
    }
  }

  lemma PrefixIsClean(credential: seq<byte>, head: seq<byte>, tail: seq<byte>)
    requires !Occurs(credential, head + tail)
    ensures !Occurs(credential, head)
  {
    if Occurs(credential, head) {
      OccursInLonger(credential, head, tail);
    }
  }

  lemma FullOverlapOccurs(credential: seq<byte>, text: seq<byte>)
    requires Overlaps(credential, text, |credential|)
    ensures Occurs(credential, text)
  {
    var i := |text| - |credential|;
    assert credential[..|credential|] == credential && text[i..i + |credential|] == text[i..];
    assert OccursAt(credential, text, i);
  }

  lemma WithheldIsProper(credential: seq<byte>, text: seq<byte>)
    requires !Occurs(credential, text)
    ensures Withheld(credential, text) < |credential|
  {
    if Overlaps(credential, text, |credential|) {
      FullOverlapOccurs(credential, text);
    }
  }

  /** When a fragment completes the credential, none of its bytes had been released before. */
  lemma NothingOfTheCredentialEscapes(credential: seq<byte>, fragments: seq<seq<byte>>, more: seq<byte>, i: nat)
    requires credential != [] && Feed(credential, [], fragments).Some?
    requires OccursAt(credential, Concat(fragments) + more, i)
    ensures |Feed(credential, [], fragments).value.out| <= i
  {
    FeedIsOnePush(credential, fragments);
    PushFresh(credential, Concat(fragments));
    OccurrenceLiesInTail(credential, Concat(fragments), more, i);
  }

  /** No guard can withhold less: one continuation makes a credential start at the first withheld byte. */
  lemma WithholdingIsMinimal(credential: seq<byte>, fragments: seq<seq<byte>>)
    requires credential != [] && Feed(credential, [], fragments).Some?
    ensures var r := Feed(credential, [], fragments).value;
            OccursAt(credential, Concat(fragments) + credential[|r.pending|..], |r.out|)
  {
    FeedIsOnePush(credential, fragments);
    var text := Concat(fragments);
    PushFresh(credential, text);
    WithheldCanComplete(credential, text);
  }

  lemma WithheldCanComplete(credential: seq<byte>, text: seq<byte>)
    ensures var m := Withheld(credential, text);
            OccursAt(credential, text + credential[m..], |text| - m)
  {
    var m := Withheld(credential, text);
    var cut, rest := |text| - m, credential[m..];
    assert text[cut..] == credential[..m];
    assert (text + rest)[cut..] == text[cut..] + rest;
    assert credential[..m] + rest == credential;
    assert (text + rest)[cut..cut + |credential|] == (text + rest)[cut..];
  }

  // ----- scalars are never split

  lemma CutIsScalarBoundary(credential: seq<byte>, text: seq<byte>)
    requires credential != [] && Utf8.WellFormed(credential) && Utf8.WellFormed(text)
    ensures var m := Withheld(credential, text);
            && Utf8.Boundary(text, |text| - m)
            && Utf8.WellFormed(text[..|text| - m]) && Utf8.WellFormed(text[|text| - m..])
  {
    var m := Withheld(credential, text);
    var cut := |text| - m;
    if m > 0 {
      assert text[cut] == text[cut..][0] == credential[..m][0] == credential[0];
    }
    Utf8.SplitAtBoundary(text, cut);
  }

  /** One push on a guard that holds UTF-8 cuts between two scalars of what it holds, and between two of the credential. */
  lemma PushKeepsScalars(credential: seq<byte>, pending: seq<byte>, fragment: seq<byte>)
    requires credential != [] && Utf8.WellFormed(credential) && Utf8.WellFormed(pending) && Utf8.WellFormed(fragment)
    requires Push(credential, pending, fragment).Some?
    ensures var r := Push(credential, pending, fragment).value;
            && Utf8.Boundary(pending + fragment, |r.out|)
            && Utf8.Boundary(credential, |r.pending|)
            && Utf8.WellFormed(r.out) && Utf8.WellFormed(r.pending)
  {
    var text := pending + fragment;
    Utf8.Concatenate(pending, fragment);
    CutIsScalarBoundary(credential, text);
    assert credential[..Withheld(credential, text)] == text[|text| - Withheld(credential, text)..];
    Utf8.WellFormedPrefixEndsAtBoundary(credential, Withheld(credential, text));
  }

  ghost predicate AllWellFormed(fragments: seq<seq<byte>>) {
    forall i :: 0 <= i < |fragments| ==> Utf8.WellFormed(fragments[i])
  }

  lemma {:induction false} FeedKeepsScalars(credential: seq<byte>, fragments: seq<seq<byte>>)
    requires credential != [] && Utf8.WellFormed(credential) && AllWellFormed(fragments)
    requires Feed(credential, [], fragments).Some?
    ensures Utf8.WellFormed(Feed(credential, [], fragments).value.out)
    ensures Utf8.WellFormed(Feed(credential, [], fragments).value.pending)
    decreases |fragments|
  {
    if fragments != [] {
      var last := |fragments| - 1;
      FeedKeepsScalars(credential, fragments[..last]);
      var before := Feed(credential, [], fragments[..last]).value;
      PushKeepsScalars(credential, before.pending, fragments[last]);
      Utf8.Concatenate(before.out, Push(credential, before.pending, fragments[last]).value.out);
    }
  }

  /**
   At every push of a stream of UTF-8 fragments, `split_off` falls between two scalars of the text
   the guard holds at that moment, so it cannot panic, and both halves are UTF-8 again.
   */
  lemma EveryCutIsScalarBoundary(credential: seq<byte>, fragments: seq<seq<byte>>, more: seq<byte>)
    requires credential != [] && Utf8.WellFormed(credential) && AllWellFormed(fragments) && Utf8.WellFormed(more)
    requires Feed(credential, [], fragments).Some?
    ensures var held := Feed(credential, [], fragments).value.pending;
            var step := Push(credential, held, more);
            step.Some? ==>
              && Utf8.Boundary(held + more, |step.value.out|) && Utf8.Boundary(credential, |step.value.pending|)
              && Utf8.WellFormed(step.value.out) && Utf8.WellFormed(step.value.pending)
  {
    FeedKeepsScalars(credential, fragments);
    var held := Feed(credential, [], fragments).value.pending;
    if Push(credential, held, more).Some? {
      PushKeepsScalars(credential, held, more);
    }
  }

  // ----- the mutable guard

  class ReflectionStream {
    const credential: seq<byte>   // empty: the guard is disabled
    const table: seq<nat>
    var pending: seq<byte>

    ghost predicate Valid()
      reads this
    {
      |table| == |credential| && PrefixTable(credential, table)
    }

    constructor (credential: seq<byte>, table: seq<nat>)
      requires |table| == |credential| && PrefixTable(credential, table)
      ensures Valid() && this.credential == credential && pending == []
    {
      this.credential, this.table, this.pending := credential, table, [];
    }

    method PushFragment(fragment: seq<byte>) returns (r: Option<seq<byte>>)
      requires Valid()
      modifies this`pending
      ensures Valid()
      ensures credential == [] ==> r == Some(fragment) && pending == old(pending)
      ensures credential != [] ==>
                match Push(credential, old(pending), fragment)
                case None => r == None && pending == []
                case Some(release) => r == Some(release.out) && pending == release.pending
    {
      if credential == [] {
        return Some(fragment);
      }
      pending := pending + fragment;
      var retained := ScanSuffix(pending, credential, table);
      if retained.None? {
        pending := [];
        return None;
      }
      var releaseEnd := |pending| - retained.value;
      r := Some(pending[..releaseEnd]);
      pending := pending[releaseEnd..];
    }

    method Finish() returns (rest: seq<byte>)
      modifies this`pending
      ensures rest == old(pending) && pending == []
    {
      rest := pending;
      pending := [];
    }
  }
}
