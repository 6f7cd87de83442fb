/** Validating a provider-catalog diff: three buckets per kind of entry, one identifier set per kind. */
module CatalogDiff {
  import opened Wrappers
  import Ordering
  import Text

  datatype Kind = Added | Updated | Removed

  /** A changed entry; for a manifest `template` is its own identifier. */
  datatype Change = Change(
    id: string, template: string,
    previousVersion: Option<nat>, nextVersion: Option<nat>,
    previousSha256: Option<string>, nextSha256: Option<string>,
    sections: seq<string>)

  datatype Buckets = Buckets(added: seq<Change>, changed: seq<Change>, removed: seq<Change>)

  datatype Diff = Diff(schemaVersion: nat, fromRevision: nat, toRevision: nat, templates: Buckets, models: Buckets)

  predicate IsHexDigit(c: char) {
    '0' <= c <= '9' || 'a' <= c <= 'f' || 'A' <= c <= 'F'
  }

  predicate IsSha256(s: string) {
    |s| == 64 && forall i :: 0 <= i < |s| ==> IsHexDigit(s[i])
  }

  predicate OptionalSha256Ok(s: Option<string>) {
    s.Some? ==> IsSha256(s.value)
  }

  predicate Present(version: Option<nat>, sha256: Option<string>) {
    version.Some? && version.value > 0 && sha256.Some?
  }

  predicate SidesOk(kind: Kind, c: Change) {
    var hasPrevious, hasNext := Present(c.previousVersion, c.previousSha256), Present(c.nextVersion, c.nextSha256);
    && (match kind
        case Added => !hasPrevious && hasNext
        case Updated => hasPrevious && hasNext
        case Removed => hasPrevious && !hasNext)
    && c.previousVersion.None? == c.previousSha256.None?
    && c.nextVersion.None? == c.nextSha256.None?
  }

  ghost predicate DistinctValues(values: seq<string>) {
    (forall i :: 0 <= i < |values| ==> !Text.Blank(values[i])) && Ordering.Distinct(values)
  }

  /** What is asked of one change, identifiers of other changes aside. */
  ghost predicate ChangeOk(kind: Kind, c: Change) {
    && !Text.Blank(c.id) && !Text.Blank(c.template)
    && OptionalSha256Ok(c.previousSha256) && OptionalSha256Ok(c.nextSha256)
    && SidesOk(kind, c) && DistinctValues(c.sections)
  }

  function Ids(changes: seq<Change>): (ids: seq<string>)
    ensures |ids| == |changes| && forall i :: 0 <= i < |changes| ==> ids[i] == changes[i].id
  {
    seq(|changes|, i requires 0 <= i < |changes| => changes[i].id)
  }

  function AllIds(b: Buckets): seq<string> {
    Ids(b.added) + Ids(b.changed) + Ids(b.removed)
  }

  ghost predicate ChangesOk(kind: Kind, changes: seq<Change>) {
    forall i :: 0 <= i < |changes| ==> ChangeOk(kind, changes[i])
  }

  ghost predicate BucketsOk(b: Buckets) {
    && ChangesOk(Added, b.added) && ChangesOk(Updated, b.changed) && ChangesOk(Removed, b.removed)
    && Ordering.Distinct(AllIds(b))
  }

  ghost predicate Accepted(d: Diff) {
    && d.schemaVersion == 1 && d.fromRevision != 0 && d.toRevision != 0
    && BucketsOk(d.templates) && BucketsOk(d.models)
  }

  // ----- the validator

  /** `values.Distinct().Count() == values.Count`, with no blank value. */
  method ValidateDistinctValues(values: seq<string>) returns (ok: bool)
    ensures ok <==> DistinctValues(values)
  {
    var seen: set<string> := {};
    for i := 0 to |values|
      invariant forall j :: 0 <= j < i ==> !Text.Blank(values[j]) && values[j] in seen
      invariant forall s :: s in seen ==> exists j :: 0 <= j < i && values[j] == s
      invariant forall j, k :: 0 <= j < k < i ==> values[j] != values[k]
    {
      if Text.Blank(values[i]) || values[i] in seen {
        return false;
      }
      seen := seen + {values[i]};
    }
    return true;
  }

  ghost function SetOf(ids: seq<string>): set<string> {
    set id | id in ids
  }

  /** One change: its identifiers, its novelty, and the rest of what is asked of it. */
  method ValidateChange(c: Change, kind: Kind, seen: set<string>) returns (ok: bool)
    ensures ok <==> ChangeOk(kind, c) && c.id !in seen
  {
    if Text.Blank(c.id) || Text.Blank(c.template) || c.id in seen {
      return false;
    }
    var distinct := ValidateDistinctValues(c.sections);
    ok := OptionalSha256Ok(c.previousSha256) && OptionalSha256Ok(c.nextSha256) && SidesOk(kind, c) && distinct;
  }

  /** One bucket, with the identifier set shared between the buckets of a kind. */
  method ValidateChanges(changes: seq<Change>, kind: Kind, before: seq<string>, seen: set<string>)
    returns (ok: bool, seenNow: set<string>)
    requires seen == SetOf(before) && Ordering.Distinct(before)
    ensures ok <==> ChangesOk(kind, changes) && Ordering.Distinct(before + Ids(changes))
    ensures ok ==> seenNow == SetOf(before + Ids(changes))
  {
    seenNow := seen;
    assert before + Ids(changes[..0]) == before;
    for i := 0 to |changes|
      invariant forall j :: 0 <= j < i ==> ChangeOk(kind, changes[j])
      invariant Ordering.Distinct(before + Ids(changes[..i]))
      invariant seenNow == SetOf(before + Ids(changes[..i]))
    {
      IdsGrow(before, changes, i);
      DistinctStep(before + Ids(changes[..i]), changes[i].id);
      ok := ValidateChange(changes[i], kind, seenNow);
      if !ok {
        return false, seenNow;
      }
      seenNow := seenNow + {changes[i].id};
    }
    assert changes[..|changes|] == changes;
    return true, seenNow;
  }

  lemma IdsGrow(before: seq<string>, changes: seq<Change>, i: nat)
    requires i < |changes|
    ensures before + Ids(changes[..i + 1]) == before + Ids(changes[..i]) + [changes[i].id]
    ensures Ordering.Distinct(before + Ids(changes)) ==> Ordering.Distinct(before + Ids(changes[..i + 1]))
  {
    DistinctPrefix(before + Ids(changes[..i + 1]), before + Ids(changes));
  }

  lemma DistinctPrefix(shorter: seq<string>, longer: seq<string>)
    requires shorter <= longer
    ensures Ordering.Distinct(longer) ==> Ordering.Distinct(shorter)
  {
  }

  lemma DistinctStep(ids: seq<string>, id: string)
    requires Ordering.Distinct(ids)
    ensures Ordering.Distinct(ids + [id]) <==> id !in SetOf(ids)
    ensures SetOf(ids + [id]) == SetOf(ids) + {id}
  {
    if id in ids {
      var i :| 0 <= i < |ids| && ids[i] == id;
      assert (ids + [id])[i] == (ids + [id])[|ids|];
    }
  }

  method ValidateBuckets(b: Buckets) returns (ok: bool)
    ensures ok <==> BucketsOk(b)
  {
    var ids1, ids2 := Ids(b.added), Ids(b.added) + Ids(b.changed);
    assert [] + ids1 == ids1;
    DistinctPrefix(ids2, AllIds(b));
    DistinctPrefix(ids1, ids2);
    var seen;
    ok, seen := ValidateChanges(b.added, Added, [], {});
    if ok {
      ok, seen := ValidateChanges(b.changed, Updated, ids1, seen);
      if ok {
        ok, seen := ValidateChanges(b.removed, Removed, ids2, seen);
      }
    }
  }

  method ValidateDiff(d: Diff) returns (ok: bool)
    ensures ok <==> Accepted(d)
  {
    if d.schemaVersion != 1 || d.fromRevision == 0 || d.toRevision == 0 {
      return false;
    }
    ok := ValidateBuckets(d.templates);
    if ok {
      ok := ValidateBuckets(d.models);
    }
  }

  // ----- inversion

  function InvertChange(c: Change): Change {
    c.(previousVersion := c.nextVersion, nextVersion := c.previousVersion,
       previousSha256 := c.nextSha256, nextSha256 := c.previousSha256)
  }

  function InvertAll(changes: seq<Change>): (r: seq<Change>)
    ensures |r| == |changes| && forall i :: 0 <= i < |changes| ==> r[i] == InvertChange(changes[i])
  {
    seq(|changes|, i requires 0 <= i < |changes| => InvertChange(changes[i]))
  }

  function InvertBuckets(b: Buckets): Buckets {
    Buckets(InvertAll(b.removed), InvertAll(b.changed), InvertAll(b.added))
  }

  /** The diff read backwards. */
  function Invert(d: Diff): Diff {
    Diff(d.schemaVersion, d.toRevision, d.fromRevision, InvertBuckets(d.templates), InvertBuckets(d.models))
  }

  function Opposite(kind: Kind): Kind {
    match kind case Added => Removed case Updated => Updated case Removed => Added
  }

  lemma ChangeInverts(kind: Kind, c: Change)
    ensures ChangeOk(Opposite(kind), InvertChange(c)) <==> ChangeOk(kind, c)
  {
  }

  lemma ChangesInvert(kind: Kind, changes: seq<Change>)
    ensures ChangesOk(Opposite(kind), InvertAll(changes)) <==> ChangesOk(kind, changes)
  {
    forall i | 0 <= i < |changes|
      ensures ChangeOk(Opposite(kind), InvertAll(changes)[i]) <==> ChangeOk(kind, changes[i])
    {
      ChangeInverts(kind, changes[i]);
    }
  }

  lemma {:induction false} DistinctOccurOnce(ids: seq<string>, id: string)
    requires Ordering.Distinct(ids)
    ensures multiset(ids)[id] <= 1
  {
    if ids != [] {
      var shorter, last := ids[..|ids| - 1], ids[|ids| - 1];
      assert ids == shorter + [last];
      DistinctOccurOnce(shorter, id);
      assert last !in multiset(shorter);
    }
  }

  lemma RepeatedOccursTwice(ids: seq<string>, i: nat, j: nat)
    requires i < j < |ids| && ids[i] == ids[j]
    ensures multiset(ids)[ids[i]] > 1
  {
    var front, back := ids[..j], ids[j..];
    assert ids == front + back;
    assert front[i] in multiset(front) && back[0] in multiset(back);
  }

  lemma DistinctIffOncePerBag(ids: seq<string>)
    ensures Ordering.Distinct(ids) <==> forall id :: multiset(ids)[id] <= 1
  {
    if Ordering.Distinct(ids) {
      forall id
        ensures multiset(ids)[id] <= 1
      {
        DistinctOccurOnce(ids, id);
      }
    } else {
      var i, j :| 0 <= i < j < |ids| && ids[i] == ids[j];
      RepeatedOccursTwice(ids, i, j);
    }
  }

  lemma IdsReverse(a: seq<string>, b: seq<string>, c: seq<string>)
    ensures Ordering.Distinct(a + b + c) <==> Ordering.Distinct(c + b + a)
  {
    DistinctIffOncePerBag(a + b + c);
    DistinctIffOncePerBag(c + b + a);
    assert multiset(a + b + c) == multiset(c + b + a);
  }

  lemma BucketsInvert(b: Buckets)
    ensures BucketsOk(InvertBuckets(b)) <==> BucketsOk(b)
  {
    ChangesInvert(Added, b.added);
    ChangesInvert(Updated, b.changed);
    ChangesInvert(Removed, b.removed);
    assert Ids(InvertAll(b.added)) == Ids(b.added);
    assert Ids(InvertAll(b.changed)) == Ids(b.changed);
    assert Ids(InvertAll(b.removed)) == Ids(b.removed);
    IdsReverse(Ids(b.added), Ids(b.changed), Ids(b.removed));
  }

  /** A diff and its inverse are accepted together, and inverting twice gives the diff back. */
  lemma AcceptanceIsInvertible(d: Diff)
    ensures Accepted(Invert(d)) <==> Accepted(d)
    ensures Invert(Invert(d)) == d
  {
    BucketsInvert(d.templates);
    BucketsInvert(d.models);
    forall changes: seq<Change>
      ensures InvertAll(InvertAll(changes)) == changes
    {
    }
  }

  /** In an accepted diff every identifier occurs once across the three buckets of its kind. */
  lemma IdentifiersOccurOnce(d: Diff, id: string)
    requires Accepted(d)
    ensures multiset(AllIds(d.templates))[id] <= 1 && multiset(AllIds(d.models))[id] <= 1
  {
    DistinctIffOncePerBag(AllIds(d.templates));
    DistinctIffOncePerBag(AllIds(d.models));
  }

  // ----- what an accepted diff looks like

  predicate HexDigest(s: string) {
    |s| == 64 && forall i :: 0 <= i < |s| ==> s[i] in "0123456789abcdefABCDEF"
  }

  /** One side of a change: present with a positive version and a digest. */
  predicate SideThere(version: Option<nat>, sha256: Option<string>) {
    version.Some? && version.value >= 1 && sha256.Some? && HexDigest(sha256.value)
  }

  /** Absent, or a leftover of version zero, which the client lets through. */
  predicate SideGone(version: Option<nat>, sha256: Option<string>) {
    (version.None? && sha256.None?) || (version == Some(0) && sha256.Some? && HexDigest(sha256.value))
  }

  ghost predicate ChangeSpelled(c: Change, before: bool, after: bool) {
    && (exists i :: 0 <= i < |c.id| && !Text.IsWhitespace(c.id[i]))
    && (exists i :: 0 <= i < |c.template| && !Text.IsWhitespace(c.template[i]))
    && (if before then SideThere(c.previousVersion, c.previousSha256) else SideGone(c.previousVersion, c.previousSha256))
    && (if after then SideThere(c.nextVersion, c.nextSha256) else SideGone(c.nextVersion, c.nextSha256))
    && (forall i :: 0 <= i < |c.sections| ==> !Text.Blank(c.sections[i]))
    && (forall i, j :: 0 <= i < j < |c.sections| ==> c.sections[i] != c.sections[j])
  }

  lemma HexSpelledOut(s: string)
    ensures IsSha256(s) <==> HexDigest(s)
  {
    forall i | 0 <= i < |s|
      ensures IsHexDigit(s[i]) <==> s[i] in "0123456789abcdefABCDEF"
    {
      HexCharacter(s[i]);
    }
  }

  lemma HexCharacter(c: char)
    ensures IsHexDigit(c) <==> c in "0123456789abcdefABCDEF"
  {
    var digits := "0123456789abcdefABCDEF";
    if '0' <= c <= '9' {
      assert digits[c as int - '0' as int] == c;
    } else if 'a' <= c <= 'f' {
      assert digits[10 + c as int - 'a' as int] == c;
    } else if 'A' <= c <= 'F' {
      assert digits[16 + c as int - 'A' as int] == c;
    }
  }

  lemma ChangeSpelledOut(kind: Kind, c: Change)
    ensures ChangeOk(kind, c) <==> ChangeSpelled(c, kind != Added, kind != Removed)
  {
    if c.previousSha256.Some? {
      HexSpelledOut(c.previousSha256.value);
    }
    if c.nextSha256.Some? {
      HexSpelledOut(c.nextSha256.value);
    }
  }

  ghost predicate AllSpelled(changes: seq<Change>, before: bool, after: bool) {
    forall i :: 0 <= i < |changes| ==> ChangeSpelled(changes[i], before, after)
  }

  lemma ChangesSpelledOut(kind: Kind, changes: seq<Change>)
    ensures ChangesOk(kind, changes) <==> AllSpelled(changes, kind != Added, kind != Removed)
  {
    forall i | 0 <= i < |changes|
      ensures ChangeOk(kind, changes[i]) <==> ChangeSpelled(changes[i], kind != Added, kind != Removed)
    {
      ChangeSpelledOut(kind, changes[i]);
    }
  }

  ghost predicate BucketsSpelled(b: Buckets) {
    && AllSpelled(b.added, false, true) && AllSpelled(b.changed, true, true) && AllSpelled(b.removed, true, false)
    && forall id :: multiset(Ids(b.added) + Ids(b.changed) + Ids(b.removed))[id] <= 1
  }

  lemma BucketsSpelledOut(b: Buckets)
    ensures BucketsOk(b) <==> BucketsSpelled(b)
  {
    ChangesSpelledOut(Added, b.added);
    ChangesSpelledOut(Updated, b.changed);
    ChangesSpelledOut(Removed, b.removed);
    DistinctIffOncePerBag(AllIds(b));
  }

  /**
   Exactly the accepted diffs: schema 1, both revisions set, an addition has only its next side, a
   removal only its previous one, an update both, and no identifier occurs twice among its kind.
   */
  lemma AcceptedSpelledOut(d: Diff)
    ensures Accepted(d) <==>
            && d.schemaVersion == 1 && d.fromRevision >= 1 && d.toRevision >= 1
            && BucketsSpelled(d.templates) && BucketsSpelled(d.models)
  {
    BucketsSpelledOut(d.templates);
    BucketsSpelledOut(d.models);
  }
}
