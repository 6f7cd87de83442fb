/** The structural check of a provider request preview: one counter threaded through the whole tree. */
module BodyShape {
  import opened Wrappers
  import Text

  const MAX_DEPTH := 16
  const MAX_NODES := 256
  const MAX_ITEMS := 8
  const MAX_FIELDS := 32
  const MAX_NAME_BYTES := 128

  /** Absent members and null elements are values of their own. */
  datatype Node = Null | Shape(kind: string, items: Items, fields: Fields, truncated: Option<bool>)
  datatype Items = NoItems | Items(list: seq<Node>)
  datatype Fields = NoFields | Fields(list: seq<Field>)
  datatype Field = NullField | Field(name: Option<string>, shape: Node)

  predicate ScalarKind(kind: string) {
    kind in {"null", "boolean", "number", "string", "redacted", "truncated"}
  }

  predicate NameOk(f: Field) {
    && f.Field? && f.name.Some?
    && !Text.Blank(f.name.value) && !Text.HasControl(f.name.value) && Text.Bytes(f.name.value) <= MAX_NAME_BYTES
  }

  // ----- the tree, declaratively

  ghost predicate WellFormed(n: Node) {
    && n.Shape?
    && if ScalarKind(n.kind) then n.items.NoItems? && n.fields.NoFields? && n.truncated.None?
       else if n.kind == "array" then
         && n.items.Items? && |n.items.list| <= MAX_ITEMS && n.fields.NoFields? && n.truncated.Some?
         && forall i :: 0 <= i < |n.items.list| ==> WellFormed(n.items.list[i])
       else
         && n.kind == "object"
         && n.fields.Fields? && |n.fields.list| <= MAX_FIELDS && n.items.NoItems? && n.truncated.Some?
         && (forall i :: 0 <= i < |n.fields.list| ==> NameOk(n.fields.list[i]) && WellFormed(n.fields.list[i].shape))
         && NamesDistinct(n.fields.list, |n.fields.list|)
  }

  /** Nodes of the tree, absent ones not counted. */
  function Nodes(n: Node): nat {
    if n.Null? then 0
    else 1 + (if n.items.Items? then ItemNodes(n.items.list) else 0)
           + (if n.fields.Fields? then FieldNodes(n.fields.list) else 0)
  }

  function ItemNodes(list: seq<Node>): nat {
    if list == [] then 0 else ItemNodes(list[..|list| - 1]) + Nodes(list[|list| - 1])
  }

  function FieldNodes(list: seq<Field>): nat {
    if list == [] then 0 else FieldNodes(list[..|list| - 1]) + NodesIn(list[|list| - 1])
  }

  function NodesIn(f: Field): nat {
    if f.Field? then Nodes(f.shape) else 0
  }

  /** Edges on the longest path down from `n`. */
  function Height(n: Node): nat {
    if n.Null? then 0
    else Max(if n.items.Items? then ItemsHeight(n.items.list) else 0,
             if n.fields.Fields? then FieldsHeight(n.fields.list) else 0)
  }

  function ItemsHeight(list: seq<Node>): nat {
    if list == [] then 0 else Max(ItemsHeight(list[..|list| - 1]), 1 + Height(list[|list| - 1]))
  }

  function FieldsHeight(list: seq<Field>): nat {
    if list == [] then 0 else Max(FieldsHeight(list[..|list| - 1]), HeightOf(list[|list| - 1]))
  }

  function HeightOf(f: Field): nat {
    if f.Field? then 1 + Height(f.shape) else 0
  }

  function Max(a: nat, b: nat): nat {
    if a < b then b else a
  }

  ghost predicate Acceptable(n: Node, depth: nat, count: nat) {
    WellFormed(n) && depth + Height(n) <= MAX_DEPTH && count + Nodes(n) <= MAX_NODES
  }

  // ----- prefixes of a list of children

  lemma {:induction false} ItemsMonotone(list: seq<Node>, i: nat)
    requires i < |list|
    ensures ItemNodes(list[..i]) + Nodes(list[i]) == ItemNodes(list[..i + 1]) <= ItemNodes(list)
    ensures Max(ItemsHeight(list[..i]), 1 + Height(list[i])) == ItemsHeight(list[..i + 1]) <= ItemsHeight(list)
    decreases |list| - i
  {
    assert list[..i + 1][..i] == list[..i];
    if i + 1 == |list| {
      assert list[..i + 1] == list;
    } else {
      ItemsMonotone(list, i + 1);
    }
  }

  lemma {:induction false} FieldsMonotone(list: seq<Field>, i: nat)
    requires i < |list| && list[i].Field?
    ensures FieldNodes(list[..i]) + Nodes(list[i].shape) == FieldNodes(list[..i + 1])
    ensures Max(FieldsHeight(list[..i]), 1 + Height(list[i].shape)) == FieldsHeight(list[..i + 1])
  {
    assert list[..i + 1][..i] == list[..i];
  }

  lemma {:induction false} FieldPrefixesGrow(list: seq<Field>, i: nat)
    requires i <= |list|
    ensures FieldNodes(list[..i]) <= FieldNodes(list) && FieldsHeight(list[..i]) <= FieldsHeight(list)
    decreases |list| - i
  {
    if i == |list| {
      assert list[..i] == list;
    } else {
      assert list[..i + 1][..i] == list[..i];
      FieldPrefixesGrow(list, i + 1);
    }
  }

  // ----- the checker

  /**
   `ValidateProviderRequestBodyShape`: accepts exactly the acceptable trees, and then the shared
   counter has grown by exactly the number of nodes.
   */
  method ValidateShape(n: Node, depth: nat, count: nat) returns (ok: bool, countNow: nat)
    ensures ok <==> Acceptable(n, depth, count)
    ensures ok ==> countNow == count + Nodes(n)
    decreases n, 1
  {
    countNow := count;
    if n.Null? || depth > MAX_DEPTH {
      return false, countNow;
    }
    countNow := countNow + 1;
    if countNow > MAX_NODES {
      return false, countNow;
    }
    if ScalarKind(n.kind) {
      ok := n.items.NoItems? && n.fields.NoFields? && n.truncated.None?;
    } else if n.kind == "array" {
      if n.items.NoItems? || |n.items.list| > MAX_ITEMS || n.fields.Fields? || n.truncated.None? {
        return false, countNow;
      }
      assert n.items.list[..|n.items.list|] == n.items.list;
      ok, countNow := ValidateItems(n.items.list, depth, countNow);
    } else if n.kind == "object" {
      if n.fields.NoFields? || |n.fields.list| > MAX_FIELDS || n.items.Items? || n.truncated.None? {
        return false, countNow;
      }
      assert n.fields.list[..|n.fields.list|] == n.fields.list;
      ok, countNow := ValidateFields(n.fields.list, depth, countNow);
    } else {
      ok := false;
    }
  }

  /** The first `n` items pass every test. */
  ghost predicate ItemsOk(list: seq<Node>, n: nat, depth: nat, count: nat)
    requires n <= |list|
  {
    && (forall i :: 0 <= i < n ==> WellFormed(list[i]))
    && depth + ItemsHeight(list[..n]) <= MAX_DEPTH && count + ItemNodes(list[..n]) <= MAX_NODES
  }

  lemma ItemStep(list: seq<Node>, i: nat, depth: nat, count: nat)
    requires i < |list| && ItemsOk(list, i, depth, count)
    ensures ItemsOk(list, i + 1, depth, count) <==> Acceptable(list[i], depth + 1, count + ItemNodes(list[..i]))
    ensures ItemNodes(list[..i + 1]) == ItemNodes(list[..i]) + Nodes(list[i])
  {
    ItemsMonotone(list, i);
  }

  lemma ItemPrefixNeeded(list: seq<Node>, i: nat, depth: nat, count: nat)
    requires i < |list| && ItemsOk(list, |list|, depth, count)
    ensures ItemsOk(list, i + 1, depth, count)
  {
    ItemsMonotone(list, i);
    assert list[..|list|] == list;
  }

  method ValidateItems(list: seq<Node>, depth: nat, count: nat) returns (ok: bool, countNow: nat)
    requires depth <= MAX_DEPTH && count <= MAX_NODES
    ensures ok <==> ItemsOk(list, |list|, depth, count)
    ensures ok ==> countNow == count + ItemNodes(list)
    decreases list, 0
  {
    countNow := count;
    for i := 0 to |list|
      invariant ItemsOk(list, i, depth, count)
      invariant countNow == count + ItemNodes(list[..i])
    {
      ItemStep(list, i, depth, count);
      if ItemsOk(list, |list|, depth, count) {
        ItemPrefixNeeded(list, i, depth, count);
      }
      ok, countNow := ValidateShape(list[i], depth + 1, countNow);
      if !ok {
        return false, countNow;
      }
    }
    assert list[..|list|] == list;
    ok := true;
  }

  ghost predicate NamesDistinct(list: seq<Field>, n: nat)
    requires n <= |list| && forall i :: 0 <= i < n ==> list[i].Field?
  {
    forall i, j :: 0 <= i < j < n ==> list[i].name != list[j].name
  }

  /** The names among the first `n` fields. */
  ghost function NamesOf(list: seq<Field>, n: nat): set<string>
    requires n <= |list|
  {
    if n == 0 then {}
    else NamesOf(list, n - 1) + if list[n - 1].Field? && list[n - 1].name.Some? then {list[n - 1].name.value} else {}
  }

  lemma {:induction false} NameTaken(list: seq<Field>, n: nat, name: string)
    requires n <= |list|
    ensures name in NamesOf(list, n) <==> exists j :: 0 <= j < n && list[j].Field? && list[j].name == Some(name)
  {
    if n > 0 {
      NameTaken(list, n - 1, name);
    }
  }

  lemma NameAdded(list: seq<Field>, i: nat)
    requires i < |list| && NameOk(list[i]) && (forall j :: 0 <= j < i ==> list[j].Field?) && NamesDistinct(list, i)
    ensures NamesDistinct(list, i + 1) <==> list[i].name.value !in NamesOf(list, i)
  {
    var name := list[i].name.value;
    NameTaken(list, i, name);
    if name in NamesOf(list, i) {
      var j :| 0 <= j < i && list[j].Field? && list[j].name == Some(name);
      assert list[j].name == list[i].name;
    }
  }

  /** The first `n` fields pass every test. */
  ghost predicate FieldsOk(list: seq<Field>, n: nat, depth: nat, count: nat)
    requires n <= |list|
  {
    && (forall i :: 0 <= i < n ==> NameOk(list[i]) && WellFormed(list[i].shape))
    && NamesDistinct(list, n)
    && depth + FieldsHeight(list[..n]) <= MAX_DEPTH && count + FieldNodes(list[..n]) <= MAX_NODES
  }

  lemma FieldStep(list: seq<Field>, i: nat, depth: nat, count: nat)
    requires i < |list| && FieldsOk(list, i, depth, count) && NameOk(list[i])
    ensures FieldsOk(list, i + 1, depth, count) <==>
            && list[i].name.value !in NamesOf(list, i)
            && Acceptable(list[i].shape, depth + 1, count + FieldNodes(list[..i]))
    ensures FieldNodes(list[..i + 1]) == FieldNodes(list[..i]) + Nodes(list[i].shape)
    ensures NamesOf(list, i + 1) == NamesOf(list, i) + {list[i].name.value}
  {
    NameAdded(list, i);
    FieldsMonotone(list, i);
  }

  lemma FieldNeedsName(list: seq<Field>, i: nat, depth: nat, count: nat)
    requires i < |list| && !NameOk(list[i])
    ensures !FieldsOk(list, i + 1, depth, count)
  {
  }

  lemma FieldPrefixNeeded(list: seq<Field>, n: nat, depth: nat, count: nat)
    requires n <= |list|
    ensures FieldsOk(list, |list|, depth, count) ==> FieldsOk(list, n, depth, count)
  {
    FieldPrefixesGrow(list, n);
    assert list[..|list|] == list;
  }

  /** One turn of the field loop: the name, its novelty, then the shape below it. */
  method ValidateField(list: seq<Field>, i: nat, depth: nat, ghost count: nat, names: set<string>, soFar: nat)
    returns (ok: bool, countNow: nat)
    requires i < |list| && FieldsOk(list, i, depth, count)
    requires names == NamesOf(list, i) && soFar == count + FieldNodes(list[..i])
    ensures ok <==> FieldsOk(list, i + 1, depth, count)
    ensures ok ==> NameOk(list[i]) && countNow == count + FieldNodes(list[..i + 1])
    ensures ok ==> NamesOf(list, i + 1) == names + {list[i].name.value}
    decreases list[i], 0
  {
    var field := list[i];
    if !NameOk(field) {
      FieldNeedsName(list, i, depth, count);
      return false, soFar;
    }
    FieldStep(list, i, depth, count);
    if field.name.value in names {
      return false, soFar;
    }
    if field.shape.Null? {
      return false, soFar;
    }
    ok, countNow := ValidateShape(field.shape, depth + 1, soFar);
  }

  method ValidateFields(list: seq<Field>, depth: nat, count: nat) returns (ok: bool, countNow: nat)
    requires depth <= MAX_DEPTH && count <= MAX_NODES
    ensures ok <==> FieldsOk(list, |list|, depth, count)
    ensures ok ==> countNow == count + FieldNodes(list)
    decreases list, 1
  {
    countNow := count;
    var names: set<string> := {};
    for i := 0 to |list|
      invariant FieldsOk(list, i, depth, count) && names == NamesOf(list, i)
      invariant countNow == count + FieldNodes(list[..i])
    {
      FieldPrefixNeeded(list, i + 1, depth, count);
      ok, countNow := ValidateField(list, i, depth, count, names, countNow);
      if !ok {
        return false, countNow;
      }
      names := names + {list[i].name.value};
    }
    assert list[..|list|] == list;
    ok := true;
  }

  // ----- what an accepted tree looks like

  predicate NameSpelled(name: string) {
    && (exists i :: 0 <= i < |name| && !Text.IsWhitespace(name[i]))
    && (forall i :: 0 <= i < |name| ==> !Text.IsControl(name[i]))
    && Text.Bytes(name) <= 128
  }

  /** One node, by the kind it claims; the trees below it are asked for by `ShapeSpelled`. */
  ghost predicate NodeSpelled(n: Node) {
    match n
    case Null => false
    case Shape(kind, NoItems, NoFields, None) =>
      kind == "null" || kind == "boolean" || kind == "number" || kind == "string" || kind == "redacted" || kind == "truncated"
    case Shape(kind, Items(list), NoFields, Some(_)) => kind == "array" && |list| <= 8
    case Shape(kind, NoItems, Fields(list), Some(_)) =>
      && kind == "object" && |list| <= 32
      && (forall i :: 0 <= i < |list| ==> list[i].Field? && list[i].name.Some? && NameSpelled(list[i].name.value))
      && (forall i, j :: 0 <= i < j < |list| ==> list[i].Field? && list[j].Field? && list[i].name != list[j].name)
    case _ => false
  }

  ghost predicate ShapeSpelled(n: Node) {
    && NodeSpelled(n)
    && (n.items.Items? ==> forall i :: 0 <= i < |n.items.list| ==> ShapeSpelled(n.items.list[i]))
    && (n.fields.Fields? ==> forall i :: 0 <= i < |n.fields.list| ==> n.fields.list[i].Field? && ShapeSpelled(n.fields.list[i].shape))
  }

  lemma ScalarKinds(kind: string)
    ensures ScalarKind(kind) ==> kind != "array" && kind != "object"
  {
    assert |"array"| == 5 && |"object"| == 6;
    assert "string"[0] == 's' && "number"[0] == 'n' && "object"[0] == 'o';
  }

  lemma NodeSpelledOut(n: Node)
    requires n.Shape?
    ensures WellFormed(n) ==> NodeSpelled(n)
    ensures NodeSpelled(n) ==>
              (WellFormed(n) <==>
                 && (n.items.Items? ==> forall i :: 0 <= i < |n.items.list| ==> WellFormed(n.items.list[i]))
                 && (n.fields.Fields? ==> forall i :: 0 <= i < |n.fields.list| ==> WellFormed(n.fields.list[i].shape)))
  {
    ScalarKinds(n.kind);
    assert |"array"| == 5 && |"object"| == 6;
  }

  /** The trees the checker accepts, with every kind, limit and name rule written out. */
  lemma {:induction false} ShapesSpelledOut(n: Node)
    ensures WellFormed(n) <==> ShapeSpelled(n)
  {
    if n.Shape? {
      NodeSpelledOut(n);
      if n.items.Items? {
        forall i | 0 <= i < |n.items.list|
          ensures WellFormed(n.items.list[i]) <==> ShapeSpelled(n.items.list[i])
        {
          ShapesSpelledOut(n.items.list[i]);
        }
      }
      if n.fields.Fields? {
        forall i | 0 <= i < |n.fields.list| && n.fields.list[i].Field?
          ensures WellFormed(n.fields.list[i].shape) <==> ShapeSpelled(n.fields.list[i].shape)
        {
          ShapesSpelledOut(n.fields.list[i].shape);
        }
      }
    }
  }

  /** The top-level check: such a tree, at most 16 edges deep, of at most 256 nodes. */
  lemma AcceptedBodies(n: Node)
    ensures Acceptable(n, 0, 0) <==> ShapeSpelled(n) && Height(n) <= 16 && Nodes(n) <= 256
  {
    ShapesSpelledOut(n);
  }
}
