/** Which values survive being printed as KDL and read back. */
module KdlRoundTrip {
  import opened Toml
  import opened Assembly
  import opened Hcl
  import opened Kdl

  // ---- arguments ------------------------------------------------------------------------

  lemma {:induction false} ArgsAreScalars(v: Value)
    requires Inline(v)
    ensures forall x <- ArgsOf(v) :: Scalar(x)
    decreases v, 1
  {
    if v.Arr? { AllArgsAreScalars(v.items); }
  }

  lemma {:induction false} AllArgsAreScalars(items: seq<Value>)
    requires forall x <- items :: Inline(x)
    ensures forall x <- ArgsOfAll(items) :: Scalar(x)
    decreases items, 0
  {
    if items != [] {
      ArgsAreScalars(items[0]);
      AllArgsAreScalars(items[1..]);
    }
  }

  /** A list is written argument by argument just when it is a list of scalars. */
  lemma {:induction false} ArgsKeptIff(items: seq<Value>)
    requires forall x <- items :: Inline(x)
    ensures ArgsOfAll(items) == items <==> forall x <- items :: Scalar(x)
  {
    AllArgsAreScalars(items);
    if items != [] && forall x <- items :: Scalar(x) {
      ArgsKeptIff(items[1..]);
      assert ArgsOf(items[0]) == [items[0]];
    }
  }

  // ---- child nodes with different names -------------------------------------------------

  ghost predicate DistinctNames(nodes: seq<Node>) {
    forall i, j :: 0 <= i < j < |nodes| ==> nodes[i].name != nodes[j].name
  }

  lemma {:induction false} FoldKeeps(m: Fields, nodes: seq<Node>, a: string)
    requires forall n <- nodes :: n.name != a
    ensures Field(Fold(m, nodes), a) == Field(m, a)
    decreases |nodes|
  {
    if nodes != [] {
      FoldKeeps(InsertOrAppend(m, nodes[0].name, NodeValue(nodes[0])), nodes[1..], a);
    }
  }

  lemma {:induction false} FoldReads(m: Fields, nodes: seq<Node>, i: nat)
    requires DistinctNames(nodes) && i < |nodes| && nodes[i].name !in m
    ensures Field(Fold(m, nodes), nodes[i].name) == Some(NodeValue(nodes[i]))
    decreases |nodes|
  {
    var next := InsertOrAppend(m, nodes[0].name, NodeValue(nodes[0]));
    if i == 0 {
      forall n | n in nodes[1..] ensures n.name != nodes[0].name {
        var j :| 0 <= j < |nodes| - 1 && nodes[1..][j] == n;
        assert nodes[j + 1] == n;
      }
      FoldKeeps(next, nodes[1..], nodes[0].name);
    } else {
      assert nodes[1..][i - 1] == nodes[i];
      assert DistinctNames(nodes[1..]) by {
        forall p, q | 0 <= p < q < |nodes[1..]| ensures nodes[1..][p].name != nodes[1..][q].name {
          assert nodes[p + 1].name != nodes[q + 1].name;
        }
      }
      FoldReads(next, nodes[1..], i - 1);
    }
  }

  /** The nodes of a table carry its keys, each once. */
  lemma TableNames(order: Order, v: Value)
    requires ValidOrder(order) && v.Table? && Printable(v)
    ensures DistinctNames(TableNodes(order, v))
    ensures forall i :: 0 <= i < |TableNodes(order, v)| ==>
              var n := TableNodes(order, v)[i];
              n.name in v.entries && n == PropertyNode(order, n.name, v.entries[n.name])
    ensures forall a :: a in v.entries ==>
              exists i :: 0 <= i < |TableNodes(order, v)| && TableNodes(order, v)[i].name == a
  {
    var names := order(v.entries.Keys);
    assert Enumerates(names, v.entries.Keys);
    forall i | 0 <= i < |names| ensures TableNodes(order, v)[i].name == names[i] && names[i] in v.entries {}
    forall a | a in v.entries ensures exists i :: 0 <= i < |TableNodes(order, v)| && TableNodes(order, v)[i].name == a {
      var i :| 0 <= i < |names| && names[i] == a;
      assert TableNodes(order, v)[i].name == a;
    }
  }

  /** A printed table reads back field by field. */
  lemma TableReads(order: Order, v: Value, a: string)
    requires ValidOrder(order) && v.Table? && Printable(v)
    ensures Field(Fold(map[], TableNodes(order, v)), a) ==
            if a in v.entries then Some(NodeValue(PropertyNode(order, a, v.entries[a]))) else None
  {
    var nodes := TableNodes(order, v);
    TableNames(order, v);
    if a in v.entries {
      var i :| 0 <= i < |nodes| && nodes[i].name == a;
      FoldReads(map[], nodes, i);
    } else {
      FoldKeeps(map[], nodes, a);
    }
  }

  // ---- values ---------------------------------------------------------------------------

  /** A value that survives under a key. */
  predicate KeptValue(key: string, v: Value)
    decreases v
  {
    match v
    case Table(t) => t.Keys != {ITEM} && forall a <- t :: KeptValue(a, t[a])
    case Arr(items) =>
      if HasTable(items) then
        forall x <- items :: match x { case Table(t) => (forall a <- t :: KeptValue(a, t[a])) case _ => false }
      else (forall x <- items :: Scalar(x)) && (AlwaysList(key) || |items| >= 2)
    case _ => !AlwaysList(key)
  }

  predicate KeptFields(t: Fields) {
    forall a <- t :: KeptValue(a, t[a])
  }

  lemma {:induction false} FieldsKeptIff(order: Order, v: Value)
    requires ValidOrder(order) && v.Table? && Printable(v)
    ensures Fold(map[], TableNodes(order, v)) == v.entries <==> KeptFields(v.entries)
    decreases v, 0
  {
    match v case Table(t) =>
      var got := Fold(map[], TableNodes(order, v));
      forall a
        ensures if a in t then Field(got, a) == Field(t, a) <==> KeptValue(a, t[a]) else Field(got, a) == Field(t, a)
      {
        TableReads(order, v, a);
        if a in t { ValueKeptIff(order, a, t[a]); }
      }
      SameFieldsIff(got, t);
  }

  /** Exactly when one property survives. */
  lemma {:induction false} ValueKeptIff(order: Order, key: string, v: Value)
    requires ValidOrder(order) && Printable(v)
    ensures NodeValue(PropertyNode(order, key, v)) == v <==> KeptValue(key, v)
    decreases v, 1
  {
    match v
    case Table(t) =>
      FieldsKeptIff(order, v);
      TableValue(order, key, v);
    case Arr(items) =>
      if HasTable(items) {
        forall x | x in items && x.Table?
          ensures KeptItem(order, x) <==> KeptFields(x.entries)
        {
          FieldsKeptIff(order, x);
        }
        TableArrayValue(order, key, items);
      } else {
        ScalarListKeptIff(key, items);
      }
    case _ =>
  }

  /** A table whose only key is `item` turns into a list. */
  lemma TableValue(order: Order, key: string, v: Value)
    requires ValidOrder(order) && v.Table? && Printable(v)
    ensures var got := NodeValue(PropertyNode(order, key, v));
            if v.entries.Keys == {ITEM} then got.Arr? else got == Table(Fold(map[], TableNodes(order, v)))
  {
    var nodes := TableNodes(order, v);
    TableNames(order, v);
    assert Inlined(map[]) == map[];
    if v.entries.Keys == {ITEM} {
      assert ITEM in v.entries;
    }
  }

  /** An `item` node reads back as its table; an element that is no table leaves an empty one. */
  lemma ItemReads(order: Order, x: Value)
    requires ValidOrder(order) && PrintableItem(x)
    ensures NodeFields(ItemNode(order, x)) == if x.Table? then Fold(map[], TableNodes(order, x)) else map[]
  {
    assert Inlined(map[]) == map[];
  }

  lemma ItemsValue(key: string, nodes: seq<Node>)
    requires nodes != [] && forall i :: 0 <= i < |nodes| ==> nodes[i].name == ITEM
    ensures var got := NodeValue(Node(key, [], map[], Nested(nodes)));
            && got.Arr? && |got.items| == |nodes|
            && forall i :: 0 <= i < |nodes| ==> got.items[i] == Table(NodeFields(nodes[i]))
  {
    forall c | c in nodes ensures c.name == ITEM {}
  }

  lemma ItemNames(order: Order, items: seq<Value>)
    requires ValidOrder(order) && forall x <- items :: PrintableItem(x)
    ensures |ItemNodes(order, items)| == |items|
    ensures forall i :: 0 <= i < |items| ==> ItemNodes(order, items)[i] == ItemNode(order, items[i])
    ensures forall i :: 0 <= i < |items| ==> ItemNodes(order, items)[i].name == ITEM
  {
    forall i | 0 <= i < |items| ensures ItemNode(order, items[i]).name == ITEM {}
  }

  predicate KeptItem(order: Order, x: Value)
    requires ValidOrder(order) && PrintableItem(x)
  {
    x.Table? && Fold(map[], TableNodes(order, x)) == x.entries
  }

  lemma KeptItemIff(order: Order, x: Value)
    requires ValidOrder(order) && PrintableItem(x)
    ensures Table(NodeFields(ItemNode(order, x))) == x <==> KeptItem(order, x)
  {
    ItemReads(order, x);
  }

  lemma SameItems(got: seq<Value>, items: seq<Value>, kept: set<Value>)
    requires |got| == |items| && forall i :: 0 <= i < |items| ==> (got[i] == items[i] <==> items[i] in kept)
    ensures Arr(got) == Arr(items) <==> forall x <- items :: x in kept
  {
    if got == items {
      forall x | x in items ensures x in kept {
        var i :| 0 <= i < |items| && items[i] == x;
        assert got[i] == items[i];
      }
    }
    if forall x <- items :: x in kept {
      forall i | 0 <= i < |items| ensures got[i] == items[i] {
        assert items[i] in items;
      }
    }
  }

  lemma TableArrayValue(order: Order, key: string, items: seq<Value>)
    requires ValidOrder(order) && (forall x <- items :: PrintableItem(x)) && items != []
    ensures NodeValue(Node(key, [], map[], Nested(ItemNodes(order, items)))) == Arr(items) <==>
            forall x <- items :: KeptItem(order, x)
  {
    var nodes := ItemNodes(order, items);
    ItemNames(order, items);
    ItemsValue(key, nodes);
    var got := NodeValue(Node(key, [], map[], Nested(nodes))).items;
    var kept := set x | x in items && KeptItem(order, x);
    forall i | 0 <= i < |items| ensures got[i] == items[i] <==> items[i] in kept {
      KeptItemIff(order, items[i]);
    }
    SameItems(got, items, kept);
  }

  /** What a node without a block reads back as, compared with a list. */
  lemma ArgsValue(key: string, args: seq<Value>, items: seq<Value>)
    requires forall i :: 0 <= i < |args| ==> Scalar(args[i])
    ensures NodeValue(Node(key, args, map[], Childless)) == Arr(items) <==>
            args == items && (AlwaysList(key) || |args| >= 2)
  {
    if |args| == 1 { assert Scalar(args[0]); }
  }

  lemma ScalarListKeptIff(key: string, items: seq<Value>)
    requires forall x <- items :: Inline(x)
    ensures NodeValue(Node(key, ArgsOfAll(items), map[], Childless)) == Arr(items) <==>
            (forall x <- items :: Scalar(x)) && (AlwaysList(key) || |items| >= 2)
  {
    AllArgsAreScalars(items);
    ArgsKeptIff(items);
    ArgsValue(key, ArgsOfAll(items), items);
  }
}
