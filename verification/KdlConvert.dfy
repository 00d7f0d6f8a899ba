/** The two KDL converters, step by step. */
module KdlConvert {
  import opened Toml
  import opened Assembly
  import opened Hcl
  import opened Kdl
  import opened KdlRoundTrip
  import opened KdlDocument
  import HC = HclConvert

  // ---- printing -------------------------------------------------------------------------

  /** Renders a value as arguments; nothing when the printer panics. */
  method WriteArgs(v: Value) returns (r: Option<seq<Value>>)
    ensures r == if Inline(v) then Some(ArgsOf(v)) else None
    decreases v
  {
    match v
    case Table(_) => return None;
    case Arr(items) =>
      var args: seq<Value> := [];
      for i := 0 to |items|
        invariant forall x <- items[..i] :: Inline(x)
        invariant args == ArgsOfAll(items[..i])
      {
        var more := WriteArgs(items[i]);
        if more.None? {
          return None;
        }
        ArgsAppend(items[..i], items[i]);
        assert items[..i + 1] == items[..i] + [items[i]];
        args := args + more.value;
      }
      assert items[..|items|] == items;
      return Some(args);
    case _ => return Some([v]);
  }

  lemma {:induction false} ArgsAppend(items: seq<Value>, x: Value)
    requires (forall y <- items :: Inline(y)) && Inline(x)
    ensures ArgsOfAll(items + [x]) == ArgsOfAll(items) + ArgsOf(x)
  {
    if items == [] {
      assert [] + [x] == [x] && [x][1..] == [];
    } else {
      assert (items + [x])[1..] == items[1..] + [x];
      ArgsAppend(items[1..], x);
    }
  }

  method WriteTable(order: Order, v: Value) returns (r: Option<seq<Node>>)
    requires ValidOrder(order) && v.Table?
    ensures r == if Printable(v) then Some(TableNodes(order, v)) else None
    decreases v, 0
  {
    match v case Table(t) =>
      var names := order(t.Keys);
      assert Enumerates(names, t.Keys);
      var nodes: seq<Node> := [];
      for i := 0 to |names|
        invariant |nodes| == i
        invariant forall j :: 0 <= j < i ==>
                    Printable(t[names[j]]) && nodes[j] == PropertyNode(order, names[j], t[names[j]])
      {
        var n := WriteProperty(order, names[i], t[names[i]]);
        if n.None? {
          return None;
        }
        nodes := nodes + [n.value];
      }
      forall a | a in t ensures Printable(t[a]) {
        var j :| 0 <= j < |names| && names[j] == a;
      }
      assert nodes == TableNodes(order, v);
      return Some(nodes);
  }

  method WriteItems(order: Order, items: seq<Value>) returns (r: Option<seq<Node>>)
    requires ValidOrder(order)
    ensures r == if forall x <- items :: PrintableItem(x) then Some(ItemNodes(order, items)) else None
    decreases items, 0
  {
    var nodes: seq<Node> := [];
    for i := 0 to |items|
      invariant |nodes| == i
      invariant forall j :: 0 <= j < i ==> PrintableItem(items[j]) && nodes[j] == ItemNode(order, items[j])
    {
      if items[i].Table? {
        var inner := WriteTable(order, items[i]);
        if inner.None? {
          assert !PrintableItem(items[i]) && items[i] in items;
          return None;
        }
        nodes := nodes + [Node(ITEM, [], map[], Nested(inner.value))];
      } else {
        var args := WriteArgs(items[i]);
        if args.None? {
          assert !PrintableItem(items[i]) && items[i] in items;
          return None;
        }
        nodes := nodes + [Node(ITEM, args.value, map[], Childless)];
      }
    }
    assert nodes == ItemNodes(order, items);
    return Some(nodes);
  }

  /** Writes one property; nothing when the printer panics. */
  method WriteProperty(order: Order, key: string, v: Value) returns (r: Option<Node>)
    requires ValidOrder(order)
    ensures r == if Printable(v) then Some(PropertyNode(order, key, v)) else None
    decreases v, 1
  {
    match v
    case Table(t) =>
      var nodes := WriteTable(order, v);
      return if nodes.None? then None else Some(Node(key, [], map[], Nested(nodes.value)));
    case Arr(items) =>
      if HasTable(items) {
        var nodes := WriteItems(order, items);
        return if nodes.None? then None else Some(Node(key, [], map[], Nested(nodes.value)));
      } else {
        var args := WriteArgs(v);
        return if args.None? then None else Some(Node(key, args.value, map[], Childless));
      }
    case _ => return Some(Node(key, [v], map[], Childless));
  }

  lemma PrintNext(order: Order, config: Config, keys: seq<Key>, i: nat, doc: seq<TopNode>)
    requires ValidOrder(order) && PrintableConfig(config) && (forall k <- keys :: k in config) && i < |keys|
    requires doc + PrintKeys(order, config, keys[i..]) == PrintKeys(order, config, keys)
    ensures doc + [EntryNode(order, keys[i].category, keys[i].name, config[keys[i]])] +
            PrintKeys(order, config, keys[i + 1..]) == PrintKeys(order, config, keys)
  {
    assert keys[i..][1..] == keys[i + 1..];
  }

  /** Writes the entries in order. */
  method WriteEntries(order: Order, config: Config, keys: seq<Key>) returns (r: Option<seq<TopNode>>)
    requires ValidOrder(order) && forall k <- keys :: k in config
    ensures r.Some? <==> forall k <- keys :: Printable(TableOf(config[k]))
    ensures r.Some? && PrintableConfig(config) ==> r.value == PrintKeys(order, config, keys)
  {
    var doc: seq<TopNode> := [];
    for i := 0 to |keys|
      invariant forall j :: 0 <= j < i ==> Printable(TableOf(config[keys[j]]))
      invariant PrintableConfig(config) ==> doc + PrintKeys(order, config, keys[i..]) == PrintKeys(order, config, keys)
    {
      var k := keys[i];
      var nodes := WriteTable(order, TableOf(config[k]));
      if nodes.None? {
        return None;
      }
      if PrintableConfig(config) { PrintNext(order, config, keys, i, doc); }
      var args := if k.category.Basic? then [] else [Str(k.name)];
      doc := doc + [TopNode(Known(k.category), Node("", args, map[], Nested(nodes.value)))];
    }
    return Some(doc);
  }

  /** The TOML to KDL converter. */
  method ConvertTomlToKdl(order: Order, config: Config) returns (r: Option<seq<TopNode>>)
    requires ValidOrder(order)
    ensures r == PrintKdl(order, config)
  {
    PrintedInConfig(order, config);
    r := WriteEntries(order, config, PrintedKeys(order, config));
    if r.Some? {
      forall k | k in config ensures Printable(TableOf(config[k])) {
        PrintedKeysAre(order, config, k);
      }
    }
  }

  // ---- reading --------------------------------------------------------------------------

  /** Reads the properties and the children of a node into a table. */
  method NodeToTomlMap(n: Node) returns (m: Fields)
    ensures m == NodeFields(n)
  {
    m := Inlined(n.props);
    var nodes := ChildrenOf(n);
    for i := 0 to |nodes|
      invariant Fold(m, nodes[i..]) == NodeFields(n)
    {
      assert nodes[i..][1..] == nodes[i + 1..];
      var value := NodeValue(nodes[i]);
      if nodes[i].name in m && m[nodes[i].name].Arr? {
        var existing := m[nodes[i].name].items;
        m := m[nodes[i].name := Arr(if value.Arr? then existing + value.items else existing + [value])];
      } else {
        m := m[nodes[i].name := value];
      }
    }
  }

  /** Reads a location: a child error ends the loop. */
  method ProcessLocationNode(n: Node) returns (r: Result<ParsedLocation>)
    ensures r == ParseLocationNode(n)
  {
    var s, nodes := Start(n), ChildrenOf(n);
    for i := 0 to |nodes|
      invariant LocationChildren(s, nodes[i..]) == LocationChildren(Start(n), nodes)
    {
      assert nodes[i..][1..] == nodes[i + 1..];
      var next := LocationChild(s, nodes[i]);
      if next.Err? {
        return Err;
      }
      s := next.value;
    }
    var fields := s.fields;
    if s.upstreamNames != [] && UPSTREAM !in fields {
      fields := fields[UPSTREAM := Str(s.upstreamNames[0])];
    }
    fields := HC.CompleteList(fields, PLUGINS, s.pluginNames);
    return Ok(ParsedLocation(fields, s.upstreams, s.plugins));
  }

  method ProcessServerNode(n: Node) returns (r: Result<ParsedServer>)
    ensures r == ParseServerNode(n)
  {
    var s, nodes := Start(n), ChildrenOf(n);
    for i := 0 to |nodes|
      invariant ServerChildren(s, nodes[i..]) == ServerChildren(Start(n), nodes)
    {
      assert nodes[i..][1..] == nodes[i + 1..];
      var next := ServerChild(s, nodes[i]);
      if next.Err? {
        return Err;
      }
      s := next.value;
    }
    var fields := HC.CompleteList(s.fields, LOCATIONS, s.locationNames);
    return Ok(ParsedServer(fields, s.locations, s.upstreams, s.plugins, s.certificates));
  }

  method ParseTopNode(t: TopNode) returns (r: Result<Block>)
    ensures r == ParseTop(t)
  {
    match t.kind
    case Unknown => return Err;
    case Known(c) =>
      if c.Basic? {
        var fields := NodeToTomlMap(t.node);
        return Ok(BasicBlock(fields));
      }
      var name := NameArg(t.node);
      if name.Err? {
        return Err;
      } else if c.Server? {
        var p := ProcessServerNode(t.node);
        return if p.Err? then Err else Ok(ServerBlock(name.value, p.value));
      } else if c.Location? {
        var p := ProcessLocationNode(t.node);
        return if p.Err? then Err else Ok(LocationBlock(name.value, p.value));
      } else {
        var fields := NodeToTomlMap(t.node);
        return Ok(ItemBlock(c, name.value, fields));
      }
  }

  lemma ParseNext(doc: seq<TopNode>, i: nat, done: seq<Block>)
    requires i < |doc|
    ensures HC.After(done, ParseDocument(doc[i..])) ==
            if ParseTop(doc[i]).Err? then Err
            else HC.After(done + [ParseTop(doc[i]).value], ParseDocument(doc[i + 1..]))
  {
    var rest := ParseDocument(doc[i + 1..]);
    assert doc[i..][1..] == doc[i + 1..];
    if ParseTop(doc[i]).Ok? && rest.Ok? { HC.SeqAssoc(done, [ParseTop(doc[i]).value], rest.value); }
  }

  /** The KDL to TOML converter. */
  method ConvertKdlToToml(doc: seq<TopNode>) returns (r: Result<Config>)
    ensures r == ReadKdl(doc)
  {
    var blocks: seq<Block> := [];
    assert doc[0..] == doc && (ParseDocument(doc).Ok? ==> [] + ParseDocument(doc).value == ParseDocument(doc).value);
    for i := 0 to |doc|
      invariant ParseDocument(doc) == HC.After(blocks, ParseDocument(doc[i..]))
    {
      ParseNext(doc, i, blocks);
      var block := ParseTopNode(doc[i]);
      if block.Err? {
        return Err;
      }
      blocks := blocks + [block.value];
    }
    assert doc[|doc|..] == [] && blocks + [] == blocks;
    r := AssembleToml(blocks);
  }
}
