/** The registry of archive entry paths: which sets of entries describe one file tree. */
module ArchivePaths {
  import opened Wrappers

  /** Collision key to "is a directory". */
  type Registry = map<string, bool>

  datatype PathError = Collision | DescendsThroughFile | FileOverDirectory

  /** `key` names something strictly below `ancestor`. */
  predicate Below(key: string, ancestor: string) {
    ancestor + "/" <= key
  }

  /** Two entries can live in one tree. */
  predicate Compatible(k1: string, isDir1: bool, k2: string, isDir2: bool) {
    && k1 != k2
    && (isDir1 || !Below(k2, k1))
    && (isDir2 || !Below(k1, k2))
  }

  ghost predicate Fits(registry: Registry, key: string, isDir: bool) {
    forall k :: k in registry ==> Compatible(k, registry[k], key, isDir)
  }

  /** `rsplit_once('/')`, keeping the part before the last separator. */
  function ParentOf(key: string): (r: Option<string>)
    ensures r.Some? ==> |r.value| < |key| && Below(key, r.value)
    ensures r.Some? ==> forall a :: Below(key, a) ==> a == r.value || Below(r.value, a)
    ensures r.None? ==> forall a :: !Below(key, a)
  {
    ParentBefore(key, |key|)
  }

  /** Position-wise reading of `Below`. */
  lemma BelowAt(key: string, a: string)
    ensures Below(key, a) <==> |a| < |key| && key[|a|] == '/' && a == key[..|a|]
  {
    if |a| < |key| && key[|a|] == '/' && a == key[..|a|] {
      assert a + "/" == key[..|a| + 1];
    }
    if Below(key, a) {
      assert a == (a + "/")[..|a|];
      assert key[..|a| + 1] == a + "/";
      assert key[|a|] == key[..|a| + 1][|a|];
    }
  }

  function ParentBefore(key: string, end: nat): (r: Option<string>)
    requires end <= |key|
    requires forall a :: Below(key, a) ==> |a| < end
    ensures r.Some? ==> |r.value| < |key| && Below(key, r.value)
    ensures r.Some? ==> forall a :: Below(key, a) ==> a == r.value || Below(r.value, a)
    ensures r.None? ==> forall a :: !Below(key, a)
  {
    if end == 0 then None
    else if key[end - 1] == '/' then
      BelowAt(key, key[..end - 1]);
      AncestorsNest(key, key[..end - 1]);
      Some(key[..end - 1])
    else
      NotBelowAt(key, end - 1);
      ParentBefore(key, end - 1)
  }

  lemma NotBelowAt(key: string, i: nat)
    requires i < |key| && key[i] != '/'
    ensures forall a :: Below(key, a) ==> |a| != i
  {
    forall a | Below(key, a)
      ensures |a| != i
    {
      BelowAt(key, a);
    }
  }

  lemma AncestorsNest(key: string, parent: string)
    requires Below(key, parent)
    ensures forall a :: Below(key, a) && |a| < |parent| ==> Below(parent, a)
    ensures forall a :: Below(key, a) && |a| == |parent| ==> a == parent
  {
    BelowAt(key, parent);
    forall a | Below(key, a) && |a| <= |parent|
      ensures |a| < |parent| ==> Below(parent, a)
      ensures |a| == |parent| ==> a == parent
    {
      BelowAt(key, a);
      BelowAt(parent, a);
    }
  }

  lemma BelowIsTransitive(a: string, b: string, c: string)
    requires Below(a, b) && Below(b, c)
    ensures Below(a, c)
  {
    BelowAt(a, b);
    BelowAt(b, c);
    BelowAt(a, c);
  }

  /**
   `register_archive_path`: the ancestor walk over `rsplit_once` and the descendant scan together
   accept exactly the entries that fit.
   */
  method Register(registry: Registry, key: string, isDir: bool) returns (r: Result<Registry, PathError>)
    ensures r.Ok? <==> Fits(registry, key, isDir)
    ensures r.Ok? ==> key !in registry && r.value == registry[key := isDir]
    ensures r == Err(Collision) <==> key in registry
  {
    if key in registry {
      assert !Compatible(key, registry[key], key, isDir);
      return Err(Collision);
    }
    var ancestor := key;
    while ParentOf(ancestor).Some?
      invariant ancestor == key || Below(key, ancestor)
      invariant forall a :: Below(key, a) ==> Below(ancestor, a) || a !in registry || registry[a]
      decreases |ancestor|
    {
      var parent := ParentOf(ancestor).value;
      if ancestor != key {
        BelowIsTransitive(key, ancestor, parent);
      }
      if parent in registry && !registry[parent] {
        assert !Compatible(parent, registry[parent], key, isDir);
        return Err(DescendsThroughFile);
      }
      ancestor := parent;
    }
    if !isDir {
      var descendantPrefix := key + "/";
      if exists path :: path in registry && descendantPrefix <= path {
        var path :| path in registry && descendantPrefix <= path;
        assert !Compatible(path, registry[path], key, isDir);
        return Err(FileOverDirectory);
      }
    }
    return Ok(registry[key := isDir]);
  }

  // ----- whole sequences of entries

  datatype Path = Path(key: string, isDir: bool)

  /** All of `paths` registered in order, or `None` at the first refusal. */
  ghost function RegisterAll(paths: seq<Path>): (r: Option<Registry>) {
    if paths == [] then Some(map[])
    else
      var before := RegisterAll(paths[..|paths| - 1]);
      var p := paths[|paths| - 1];
      if before.None? || !Fits(before.value, p.key, p.isDir) then None
      else Some(before.value[p.key := p.isDir])
  }

  predicate Agree(p: Path, q: Path) {
    Compatible(p.key, p.isDir, q.key, q.isDir)
  }

  ghost predicate PairwiseCompatible(paths: seq<Path>) {
    forall i, j :: 0 <= i < j < |paths| ==> Agree(paths[i], paths[j])
  }

  ghost predicate Records(registry: Registry, paths: seq<Path>) {
    && (forall i :: 0 <= i < |paths| ==> paths[i].key in registry && registry[paths[i].key] == paths[i].isDir)
    && (forall k :: k in registry ==> Path(k, registry[k]) in paths)
  }

  lemma PairwiseStep(shorter: seq<Path>, p: Path)
    ensures PairwiseCompatible(shorter + [p]) <==>
            PairwiseCompatible(shorter) && forall q :: q in shorter ==> Agree(q, p)
  {
    var paths := shorter + [p];
    if PairwiseCompatible(paths) {
      forall i, j | 0 <= i < j < |shorter|
        ensures Agree(shorter[i], shorter[j])
      {
        assert Agree(paths[i], paths[j]);
      }
      forall q | q in shorter
        ensures Agree(q, p)
      {
        var i :| 0 <= i < |shorter| && shorter[i] == q;
        assert Agree(paths[i], paths[|shorter|]);
      }
    }
  }

  lemma FitsIffAgree(registry: Registry, shorter: seq<Path>, p: Path)
    requires Records(registry, shorter)
    ensures Fits(registry, p.key, p.isDir) <==> forall q :: q in shorter ==> Agree(q, p)
  {
    if forall q :: q in shorter ==> Agree(q, p) {
      forall k | k in registry
        ensures Compatible(k, registry[k], p.key, p.isDir)
      {
        assert Agree(Path(k, registry[k]), p);
      }
    }
  }

  /** Acceptance of a whole sequence is a property of its unordered pairs. */
  lemma {:induction false} AcceptedIffPairwiseCompatible(paths: seq<Path>)
    ensures RegisterAll(paths).Some? <==> PairwiseCompatible(paths)
    ensures RegisterAll(paths).Some? ==> Records(RegisterAll(paths).value, paths)
  {
    if paths != [] {
      var shorter, p := paths[..|paths| - 1], paths[|paths| - 1];
      AcceptedIffPairwiseCompatible(shorter);
      assert paths == shorter + [p];
      PairwiseStep(shorter, p);
      if PairwiseCompatible(shorter) {
        var registry := RegisterAll(shorter).value;
        FitsIffAgree(registry, shorter, p);
        if Fits(registry, p.key, p.isDir) {
          RecordsExtend(registry, shorter, p);
        }
      }
    }
  }

  lemma RecordsExtend(registry: Registry, shorter: seq<Path>, p: Path)
    requires Records(registry, shorter) && Fits(registry, p.key, p.isDir)
    ensures Records(registry[p.key := p.isDir], shorter + [p])
  {
    var paths, longer := shorter + [p], registry[p.key := p.isDir];
    forall i | 0 <= i < |paths|
      ensures paths[i].key in longer && longer[paths[i].key] == paths[i].isDir
    {
      if i < |shorter| {
        assert paths[i] == shorter[i];
        assert Compatible(paths[i].key, registry[paths[i].key], p.key, p.isDir);
      }
    }
    forall k | k in longer
      ensures Path(k, longer[k]) in paths
    {
      if k == p.key {
        assert paths[|shorter|] == p;
      } else {
        var i :| 0 <= i < |shorter| && shorter[i] == Path(k, registry[k]);
        assert paths[i] == shorter[i];
      }
    }
  }

  /** The same condition without an order: no entry twice, and any two different entries agree. */
  ghost predicate CompatibleBag(bag: multiset<Path>) {
    && (forall p :: p in bag ==> bag[p] == 1)
    && (forall p, q :: p in bag && q in bag && p != q ==> Agree(p, q))
  }

  lemma BagStep(bag: multiset<Path>, p: Path)
    ensures CompatibleBag(bag + multiset{p}) <==> CompatibleBag(bag) && forall q :: q in bag ==> Agree(q, p)
  {
    var all := bag + multiset{p};
    assert forall q :: q in all <==> q in bag || q == p;
    if CompatibleBag(all) {
      assert all[p] == bag[p] + 1;
      forall q | q in bag
        ensures bag[q] == 1 && Agree(q, p)
      {
        assert q in all;
      }
    }
  }

  lemma {:induction false} PairwiseIsOrderless(paths: seq<Path>)
    ensures PairwiseCompatible(paths) <==> CompatibleBag(multiset(paths))
  {
    if paths != [] {
      var shorter, p := paths[..|paths| - 1], paths[|paths| - 1];
      assert paths == shorter + [p];
      PairwiseIsOrderless(shorter);
      PairwiseStep(shorter, p);
      BagStep(multiset(shorter), p);
      assert forall q :: q in shorter <==> q in multiset(shorter);
    }
  }

  /** Every reordering of the entries is accepted or refused alike, and builds the same registry. */
  lemma RegistrationIgnoresOrder(paths: seq<Path>, reordered: seq<Path>)
    requires multiset(paths) == multiset(reordered)
    ensures RegisterAll(paths) == RegisterAll(reordered)
  {
    PairwiseIsOrderless(paths);
    PairwiseIsOrderless(reordered);
    AcceptedIffPairwiseCompatible(paths);
    AcceptedIffPairwiseCompatible(reordered);
    if PairwiseCompatible(paths) {
      RecordsDetermine(RegisterAll(paths).value, RegisterAll(reordered).value, paths, reordered);
    }
  }

  lemma RecordsDetermine(r1: Registry, r2: Registry, paths: seq<Path>, reordered: seq<Path>)
    requires multiset(paths) == multiset(reordered)
    requires Records(r1, paths) && Records(r2, reordered)
    ensures r1 == r2
  {
    SameRecords(r1, r2, paths, reordered);
    SameRecords(r2, r1, reordered, paths);
  }

  lemma SameRecords(r1: Registry, r2: Registry, paths: seq<Path>, reordered: seq<Path>)
    requires multiset(paths) == multiset(reordered)
    requires Records(r1, paths) && Records(r2, reordered)
    ensures forall k :: k in r1 ==> k in r2 && r2[k] == r1[k]
  {
    forall k | k in r1
      ensures k in r2 && r2[k] == r1[k]
    {
      assert Path(k, r1[k]) in multiset(paths);
      var i :| 0 <= i < |reordered| && reordered[i] == Path(k, r1[k]);
    }
  }

  // ----- file trees

  /** A name space in which everything below something lies below a directory. */
  ghost predicate FileTree(tree: Registry) {
    forall k, a :: k in tree && Below(k, a) ==> a in tree && tree[a]
  }

  ghost predicate Contains(tree: Registry, registry: Registry) {
    forall k :: k in registry ==> k in tree && tree[k] == registry[k]
  }

  ghost predicate DistinctKeys(paths: seq<Path>) {
    forall i, j :: 0 <= i < j < |paths| ==> paths[i].key != paths[j].key
  }

  ghost predicate LivesIn(paths: seq<Path>, tree: Registry) {
    forall i :: 0 <= i < |paths| ==> paths[i].key in tree && tree[paths[i].key] == paths[i].isDir
  }

  function AncestorsOf(key: string): set<string> {
    set i | 0 <= i < |key| && key[i] == '/' :: key[..i]
  }

  lemma AncestorsAreBelow(key: string)
    ensures forall a :: a in AncestorsOf(key) <==> Below(key, a)
  {
    forall a
      ensures a in AncestorsOf(key) <==> Below(key, a)
    {
      BelowAt(key, a);
    }
  }

  /** The registry together with every implied parent directory. */
  ghost function WithParents(registry: Registry): Registry {
    var parents := set k, a | k in registry && a in AncestorsOf(k) :: a;
    (map a | a in parents :: true) + registry
  }

  lemma WithParentsIsTree(registry: Registry)
    requires forall k, l :: k in registry && l in registry && k != l ==> Compatible(k, registry[k], l, registry[l])
    ensures FileTree(WithParents(registry)) && Contains(WithParents(registry), registry)
  {
    var tree := WithParents(registry);
    forall k, a | k in tree && Below(k, a)
      ensures a in tree && tree[a]
    {
      var low := k;
      if k !in registry {
        low :| low in registry && k in AncestorsOf(low);
        AncestorsAreBelow(low);
        BelowIsTransitive(low, k, a);
      }
      AncestorsAreBelow(low);
      BelowAt(low, a);
      if a in registry {
        assert Compatible(low, registry[low], a, registry[a]);
      }
    }
  }

  lemma RecordsAgree(registry: Registry, paths: seq<Path>, k: string, l: string)
    requires Records(registry, paths) && PairwiseCompatible(paths)
    requires k in registry && l in registry && k != l
    ensures Compatible(k, registry[k], l, registry[l])
  {
    var i :| 0 <= i < |paths| && paths[i] == Path(k, registry[k]);
    var j :| 0 <= j < |paths| && paths[j] == Path(l, registry[l]);
    assert i < j ==> Agree(paths[i], paths[j]);
    assert j < i ==> Agree(paths[j], paths[i]);
  }

  lemma AgreeingPathsFormTree(registry: Registry, paths: seq<Path>)
    requires Records(registry, paths) && PairwiseCompatible(paths)
    ensures FileTree(WithParents(registry)) && LivesIn(paths, WithParents(registry))
  {
    forall k, l | k in registry && l in registry && k != l
      ensures Compatible(k, registry[k], l, registry[l])
    {
      RecordsAgree(registry, paths, k, l);
    }
    WithParentsIsTree(registry);
  }

  lemma TreeMembersAgree(paths: seq<Path>, tree: Registry)
    requires DistinctKeys(paths) && FileTree(tree) && LivesIn(paths, tree)
    ensures PairwiseCompatible(paths)
  {
    forall i, j | 0 <= i < j < |paths|
      ensures Agree(paths[i], paths[j])
    {
      assert paths[i].key in tree && paths[j].key in tree;
    }
  }

  /** Acceptance means exactly that one file tree holds all the entries under distinct keys. */
  lemma AcceptedIffRealisable(paths: seq<Path>)
    ensures RegisterAll(paths).Some? <==>
            DistinctKeys(paths) && exists tree :: FileTree(tree) && LivesIn(paths, tree)
  {
    AcceptedIffPairwiseCompatible(paths);
    if PairwiseCompatible(paths) {
      AgreeingPathsFormTree(RegisterAll(paths).value, paths);
      assert forall i, j :: 0 <= i < j < |paths| ==> Agree(paths[i], paths[j]);
    }
    if DistinctKeys(paths) && exists tree :: FileTree(tree) && LivesIn(paths, tree) {
      var tree :| FileTree(tree) && LivesIn(paths, tree);
      TreeMembersAgree(paths, tree);
    }
  }
}
