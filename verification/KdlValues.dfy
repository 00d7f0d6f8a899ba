/** What the KDL reader makes of any node's fields, said of its properties and children. */
module KdlValues {
  import opened Toml
  import opened Assembly
  import opened Kdl

  /** The fields that are lists even when they hold one value. */
  predicate ListName(a: string) {
    || a == "addrs" || a == "locations" || a == "plugins" || a == "includes" || a == "modules"
    || a == "proxy_set_headers" || a == "proxy_add_headers" || a == "webhook_notifications"
  }

  /** A child as a value on its own. */
  ghost predicate ChildMeans(n: Node, v: Value) {
    match n.children
    case Nested(nodes) =>
      if nodes != [] && forall c <- nodes :: c.name == "item" then
        && v.Arr? && |v.items| == |nodes|
        && forall i :: 0 <= i < |nodes| ==> v.items[i] == Table(NodeFields(nodes[i]))
      else v == Table(NodeFields(n))
    case Childless =>
      if n.args == [] then v == (if n.props == map[] then Str("") else Table(n.props))
      else if |n.args| == 1 then v == n.args[0]
      else v == Arr(n.args)
  }

  /** A child as the value of a field: a list field without a block is the list of its arguments. */
  ghost predicate ValueMeans(n: Node, v: Value) {
    if ListName(n.name) && n.children.Childless? then v == Arr(n.args) else ChildMeans(n, v)
  }

  /** An inline property as the value of a field. */
  function PropertyValue(props: Fields, a: string): Option<Value> {
    if a !in props then None else Some(if ListName(a) then Arr([props[a]]) else props[a])
  }

  /** The values a list is made of when these are put into one field one after the other. */
  function Spread(vs: seq<Value>): seq<Value> {
    if vs == [] then []
    else Spread(vs[..|vs| - 1]) + (if vs[|vs| - 1].Arr? then vs[|vs| - 1].items else [vs[|vs| - 1]])
  }

  predicate FirstList(vs: seq<Value>, i: nat) {
    i < |vs| && vs[i].Arr? && forall j :: 0 <= j < i ==> !vs[j].Arr?
  }

  /** From the first list on everything is appended to it; without one the last value wins. */
  ghost predicate Gathers(vs: seq<Value>, r: Option<Value>) {
    if vs == [] then r == None
    else if forall i :: 0 <= i < |vs| ==> !vs[i].Arr? then r == Some(vs[|vs| - 1])
    else exists i: nat :: FirstList(vs, i) && r == Some(Arr(Spread(vs[i..])))
  }

  /** The values of the children of one name, one by one in order. */
  ghost predicate ValuesOf(nodes: seq<Node>, a: string, vs: seq<Value>, at: seq<nat>) {
    && |at| == |vs| && (forall i, j :: 0 <= i < j < |at| ==> at[i] < at[j])
    && (forall i :: 0 <= i < |at| ==> at[i] < |nodes| && nodes[at[i]].name == a && ValueMeans(nodes[at[i]], vs[i]))
    && (forall j: nat :: j < |nodes| && nodes[j].name == a ==> j in at)
  }

  function Opt(v: Option<Value>): seq<Value> {
    if v.None? then [] else [v.value]
  }

  /** A field gathers its inline property and the children of its name. */
  ghost predicate FieldMeans(props: Fields, nodes: seq<Node>, a: string, r: Option<Value>) {
    exists vs, at :: ValuesOf(nodes, a, vs, at) && Gathers(Opt(PropertyValue(props, a)) + vs, r)
  }

  // ---- proofs ---------------------------------------------------------------------------

  lemma ListNames(a: string)
    ensures AlwaysList(a) <==> ListName(a)
  {}

  lemma NodeMeans(n: Node)
    ensures ChildMeans(n, ChildValue(n)) && ValueMeans(n, NodeValue(n))
  {
    ListNames(n.name);
  }

  lemma InlinedIs(props: Fields, a: string)
    ensures Field(Inlined(props), a) == PropertyValue(props, a)
  {
    ListNames(a);
  }

  function ValuesIn(nodes: seq<Node>, a: string): seq<Value> {
    if nodes == [] then []
    else (if nodes[0].name == a then [NodeValue(nodes[0])] else []) + ValuesIn(nodes[1..], a)
  }

  /** One value after the other into a field. */
  function Put(r: Option<Value>, v: Value): Option<Value> {
    if r.Some? && r.value.Arr? then Some(Arr(r.value.items + (if v.Arr? then v.items else [v]))) else Some(v)
  }

  function PutAll(r: Option<Value>, vs: seq<Value>): Option<Value>
    decreases |vs|
  {
    if vs == [] then r else PutAll(Put(r, vs[0]), vs[1..])
  }

  lemma {:induction false} FoldAt(m: Fields, nodes: seq<Node>, a: string)
    ensures Field(Fold(m, nodes), a) == PutAll(Field(m, a), ValuesIn(nodes, a))
    decreases |nodes|
  {
    if nodes != [] {
      var next := InsertOrAppend(m, nodes[0].name, NodeValue(nodes[0]));
      FoldAt(next, nodes[1..], a);
      if nodes[0].name == a {
        assert ValuesIn(nodes, a)[1..] == ValuesIn(nodes[1..], a);
      } else {
        assert ValuesIn(nodes, a) == ValuesIn(nodes[1..], a);
      }
    }
  }

  lemma {:induction false} SpreadFront(v: Value, vs: seq<Value>)
    ensures Spread([v] + vs) == (if v.Arr? then v.items else [v]) + Spread(vs)
    decreases |vs|
  {
    var all := [v] + vs;
    if vs == [] {
      assert all[..|all| - 1] == [];
    } else {
      SpreadFront(v, vs[..|vs| - 1]);
      assert all[..|all| - 1] == [v] + vs[..|vs| - 1];
    }
  }

  /** Once a list, everything is appended. */
  lemma {:induction false} PutOnList(items: seq<Value>, vs: seq<Value>)
    ensures PutAll(Some(Arr(items)), vs) == Some(Arr(items + Spread(vs)))
    decreases |vs|
  {
    if vs == [] {
      assert items + [] == items;
    } else {
      var more := if vs[0].Arr? then vs[0].items else [vs[0]];
      PutOnList(items + more, vs[1..]);
      SpreadFront(vs[0], vs[1..]);
      assert vs == [vs[0]] + vs[1..];
      assert items + more + Spread(vs[1..]) == items + Spread(vs);
    }
  }

  lemma {:induction false} PutGathers(v: Value, vs: seq<Value>)
    ensures Gathers([v] + vs, PutAll(Some(v), vs))
    decreases |vs|
  {
    var all := [v] + vs;
    if v.Arr? {
      PutOnList(v.items, vs);
      SpreadFront(v, vs);
      assert FirstList(all, 0) && all[0..] == all;
    } else if vs != [] {
      PutGathers(vs[0], vs[1..]);
      assert vs == [vs[0]] + vs[1..];
      GathersLater(v, vs, PutAll(Some(vs[0]), vs[1..]));
    }
  }

  lemma GathersLater(v: Value, vs: seq<Value>, r: Option<Value>)
    requires !v.Arr? && vs != [] && Gathers(vs, r)
    ensures Gathers([v] + vs, r)
  {
    var all := [v] + vs;
    if forall i :: 0 <= i < |vs| ==> !vs[i].Arr? {
      forall i | 0 <= i < |all| ensures !all[i].Arr? { if i > 0 { assert all[i] == vs[i - 1]; } }
    } else {
      var i: nat :| FirstList(vs, i) && r == Some(Arr(Spread(vs[i..])));
      FirstListLater(v, vs, i);
    }
  }

  lemma FirstListLater(v: Value, vs: seq<Value>, i: nat)
    requires !v.Arr? && FirstList(vs, i)
    ensures FirstList([v] + vs, i + 1) && ([v] + vs)[i + 1..] == vs[i..]
  {
    var all := [v] + vs;
    forall j | 0 <= j < i + 1 ensures !all[j].Arr? { if j > 0 { assert all[j] == vs[j - 1]; } }
  }

  lemma GatherAll(r: Option<Value>, vs: seq<Value>)
    ensures Gathers(Opt(r) + vs, PutAll(r, vs))
  {
    if r.Some? {
      PutGathers(r.value, vs);
    } else if vs != [] {
      PutGathers(vs[0], vs[1..]);
      assert [] + vs == [vs[0]] + vs[1..];
    } else {
      assert Opt(r) + vs == [];
    }
  }

  /** As `ValuesOf`, for all but the first child. */
  ghost predicate LaterValues(nodes: seq<Node>, a: string, vs: seq<Value>, at: seq<nat>) {
    && |at| == |vs| && (forall i, j :: 0 <= i < j < |at| ==> at[i] < at[j])
    && (forall i :: 0 <= i < |at| ==> 0 < at[i] < |nodes| && nodes[at[i]].name == a && ValueMeans(nodes[at[i]], vs[i]))
    && (forall j: nat :: 0 < j < |nodes| && nodes[j].name == a ==> j in at)
  }

  lemma ValuesShifted(nodes: seq<Node>, a: string, vs: seq<Value>, rest: seq<nat>, at: seq<nat>)
    requires nodes != [] && ValuesOf(nodes[1..], a, vs, rest)
    requires |at| == |rest| && forall i :: 0 <= i < |rest| ==> at[i] == rest[i] + 1
    ensures LaterValues(nodes, a, vs, at)
  {
    forall i | 0 <= i < |at|
      ensures 0 < at[i] < |nodes| && nodes[at[i]].name == a && ValueMeans(nodes[at[i]], vs[i])
    {
      assert nodes[1..][rest[i]] == nodes[at[i]];
    }
    forall j: nat | 0 < j < |nodes| && nodes[j].name == a ensures j in at {
      assert nodes[1..][j - 1] == nodes[j];
      var i :| 0 <= i < |rest| && rest[i] == j - 1;
      assert at[i] == j;
    }
  }

  lemma ValuesFirst(nodes: seq<Node>, a: string, v: Value, vs: seq<Value>, at: seq<nat>)
    requires nodes != [] && nodes[0].name == a && ValueMeans(nodes[0], v) && LaterValues(nodes, a, vs, at)
    ensures ValuesOf(nodes, a, [v] + vs, [0] + at)
  {
    var all, values := [0] + at, [v] + vs;
    forall i | 0 <= i < |all|
      ensures all[i] < |nodes| && nodes[all[i]].name == a && ValueMeans(nodes[all[i]], values[i])
    {
      if i > 0 { assert all[i] == at[i - 1] && values[i] == vs[i - 1]; }
    }
    forall j: nat | j < |nodes| && nodes[j].name == a ensures j in all {
      if j == 0 { assert all[0] == 0; } else { assert j in at; }
    }
  }

  lemma ValuesNext(nodes: seq<Node>, a: string, vs: seq<Value>, rest: seq<nat>) returns (at: seq<nat>)
    requires nodes != [] && ValuesOf(nodes[1..], a, vs, rest)
    ensures ValuesOf(nodes, a, (if nodes[0].name == a then [NodeValue(nodes[0])] else []) + vs, at)
  {
    at := seq(|rest|, i requires 0 <= i < |rest| => rest[i] + 1);
    ValuesShifted(nodes, a, vs, rest, at);
    if nodes[0].name == a {
      NodeMeans(nodes[0]);
      ValuesFirst(nodes, a, NodeValue(nodes[0]), vs, at);
      at := [0] + at;
    } else {
      assert [] + vs == vs;
    }
  }

  lemma {:induction false} ValuesAre(nodes: seq<Node>, a: string) returns (at: seq<nat>)
    ensures ValuesOf(nodes, a, ValuesIn(nodes, a), at)
  {
    if nodes == [] {
      at := [];
    } else {
      var rest := ValuesAre(nodes[1..], a);
      at := ValuesNext(nodes, a, ValuesIn(nodes[1..], a), rest);
    }
  }

  // ---- main results ---------------------------------------------------------------------

  lemma FoldMeans(props: Fields, nodes: seq<Node>, a: string)
    ensures FieldMeans(props, nodes, a, Field(Fold(Inlined(props), nodes), a))
  {
    FoldAt(Inlined(props), nodes, a);
    InlinedIs(props, a);
    GatherAll(PropertyValue(props, a), ValuesIn(nodes, a));
    var at := ValuesAre(nodes, a);
  }

  /** Every field of every node: its inline property and the children of its name, gathered. */
  lemma NodeReads(n: Node, a: string)
    ensures FieldMeans(n.props, ChildrenOf(n), a, Field(NodeFields(n), a))
  {
    FoldMeans(n.props, ChildrenOf(n), a);
  }

  /** A list field with one argument, or given as an inline property, is a list of one value. */
  lemma OneValueIsAList(n: Node, a: string, v: Value)
    requires ListName(a)
    ensures n.props == map[a := v] && n.children.Childless? ==> Field(NodeFields(n), a) == Some(Arr([v]))
    ensures n.props == map[] && n.children == Nested([Node(a, [v], map[], Childless)]) ==>
              Field(NodeFields(n), a) == Some(Arr([v]))
  {
    ListNames(a);
    InlinedIs(n.props, a);
    var child := Node(a, [v], map[], Childless);
    if n.children == Nested([child]) {
      FoldAt(Inlined(n.props), [child], a);
      assert [child][1..] == [] && ValuesIn([child][1..], a) == [] && ValuesIn([child], a) == [NodeValue(child)];
      assert PutAll(None, [NodeValue(child)]) == PutAll(Some(NodeValue(child)), [NodeValue(child)][1..]);
    }
  }
}
