/** Reading back a whole printed KDL document: exactly when it gives the configuration again. */
module KdlDocument {
  import opened Toml
  import opened Assembly
  import opened Hcl
  import opened Kdl
  import opened KdlRoundTrip

  // ---- locations and servers ------------------------------------------------------------

  /** As the printer writes it: no properties, and either arguments or a block. */
  predicate Written(n: Node) {
    n.props == map[] && (n.children.Nested? ==> n.args == [])
  }

  /** A child that a location takes for a definition; it has no name, so reading fails. */
  predicate LocationClash(n: Node) {
    RoleOf(n.name) in {UpstreamRole, PluginRole} && n.children.Nested?
  }

  predicate ServerClash(n: Node) {
    RoleOf(n.name) in {LocationRole, PluginRole, CertificateRole} && n.children.Nested?
  }

  const PLUGIN := "plugin"
  const LOCATION := "location"

  /** Keys that are read back under their plural name. */
  predicate Alias(name: string) {
    name == PLUGIN || name == LOCATION
  }

  lemma LocationStep(s: Reading, n: Node)
    requires Written(n)
    ensures LocationChild(s, n).Err? <==> LocationClash(n)
    ensures !LocationClash(n) && n.name != PLUGIN && n.name !in s.fields ==> LocationChild(s, n) == Ok(PlainChild(s, n))
    ensures LocationChild(s, n).Ok? ==>
              var next := LocationChild(s, n).value;
              next == s.(fields := next.fields) && (PLUGIN !in s.fields ==> PLUGIN !in next.fields)
  {}

  lemma ServerStepFails(s: Reading, n: Node)
    requires Written(n)
    ensures ServerChild(s, n).Err? <==> ServerClash(n)
  {}

  lemma ServerStepPlain(s: Reading, n: Node)
    requires Written(n) && !ServerClash(n) && !Alias(n.name) && n.name !in s.fields
    ensures ServerChild(s, n) == Ok(PlainChild(s, n))
  {
    match RoleOf(n.name)
    case LocationRole => assert n.name == LOCATIONS;
    case PluginRole => assert n.name == PLUGINS;
    case _ =>
  }

  lemma ServerStepFrame(s: Reading, n: Node)
    requires Written(n) && !ServerClash(n)
    ensures ServerChild(s, n).Ok? && ServerChild(s, n).value == s.(fields := ServerChild(s, n).value.fields)
  {}

  /** The field a child of a server is read into. */
  function Target(name: string): string {
    match RoleOf(name)
    case LocationRole => LOCATIONS
    case PluginRole => PLUGINS
    case _ => name
  }

  lemma ServerStepTarget(s: Reading, n: Node, a: string)
    requires Written(n) && !ServerClash(n) && a != Target(n.name) && a !in s.fields
    ensures ServerChild(s, n).Ok? && a !in ServerChild(s, n).value.fields
  {}

  lemma TargetNoAlias(name: string)
    ensures !Alias(Target(name))
  {
    assert |PLUGIN| == 6 && |LOCATION| == 8 && |PLUGINS| == 7 && |LOCATIONS| == 9;
  }

  lemma ServerStepAlias(s: Reading, n: Node, a: string)
    requires Written(n) && !ServerClash(n) && Alias(a) && a !in s.fields
    ensures ServerChild(s, n).Ok? && a !in ServerChild(s, n).value.fields
  {
    TargetNoAlias(n.name);
    ServerStepTarget(s, n, a);
  }

  // ---- all children ---------------------------------------------------------------------

  ghost predicate WrittenAll(nodes: seq<Node>) {
    forall i :: 0 <= i < |nodes| ==> Written(nodes[i])
  }

  /** Without a clash, an alias or a repeated name, a location is read like any table. */
  lemma {:induction false} LocationReadsPlainly(s: Reading, nodes: seq<Node>)
    requires WrittenAll(nodes) && DistinctNames(nodes)
    requires forall i :: 0 <= i < |nodes| ==>
               !LocationClash(nodes[i]) && nodes[i].name != PLUGIN && nodes[i].name !in s.fields
    ensures LocationChildren(s, nodes) == Ok(s.(fields := Fold(s.fields, nodes)))
    decreases |nodes|
  {
    if nodes != [] {
      var rest := nodes[1..];
      LocationStep(s, nodes[0]);
      forall i | 0 <= i < |rest| ensures Written(rest[i]) && !LocationClash(rest[i]) && rest[i].name != PLUGIN &&
        rest[i].name !in PlainChild(s, nodes[0]).fields
      {
        assert rest[i] == nodes[i + 1];
      }
      RestDistinct(nodes);
      LocationReadsPlainly(PlainChild(s, nodes[0]), rest);
    }
  }

  lemma {:induction false} LocationChildrenFrame(s: Reading, nodes: seq<Node>)
    requires WrittenAll(nodes)
    ensures LocationChildren(s, nodes).Err? <==> exists n <- nodes :: LocationClash(n)
    ensures LocationChildren(s, nodes).Ok? ==>
              var last := LocationChildren(s, nodes).value;
              last == s.(fields := last.fields) && (PLUGIN !in s.fields ==> PLUGIN !in last.fields)
    decreases |nodes|
  {
    if nodes != [] {
      LocationStep(s, nodes[0]);
      assert nodes == [nodes[0]] + nodes[1..];
      if LocationChild(s, nodes[0]).Ok? {
        LocationChildrenFrame(LocationChild(s, nodes[0]).value, nodes[1..]);
      }
    }
  }

  lemma RestDistinct(nodes: seq<Node>)
    requires nodes != [] && DistinctNames(nodes)
    ensures DistinctNames(nodes[1..])
  {
    forall p, q | 0 <= p < q < |nodes[1..]| ensures nodes[1..][p].name != nodes[1..][q].name {
      assert nodes[p + 1].name != nodes[q + 1].name;
    }
  }

  lemma {:induction false} ServerReadsPlainly(s: Reading, nodes: seq<Node>)
    requires WrittenAll(nodes) && DistinctNames(nodes)
    requires forall i :: 0 <= i < |nodes| ==>
               !ServerClash(nodes[i]) && !Alias(nodes[i].name) && nodes[i].name !in s.fields
    ensures ServerChildren(s, nodes) == Ok(s.(fields := Fold(s.fields, nodes)))
    decreases |nodes|
  {
    if nodes != [] {
      var rest := nodes[1..];
      ServerStepPlain(s, nodes[0]);
      forall i | 0 <= i < |rest| ensures Written(rest[i]) && !ServerClash(rest[i]) && !Alias(rest[i].name) &&
        rest[i].name !in PlainChild(s, nodes[0]).fields
      {
        assert rest[i] == nodes[i + 1];
      }
      RestDistinct(nodes);
      ServerReadsPlainly(PlainChild(s, nodes[0]), rest);
    }
  }

  lemma {:induction false} ServerChildrenFrame(s: Reading, nodes: seq<Node>, a: string)
    requires WrittenAll(nodes) && Alias(a) && a !in s.fields
    ensures ServerChildren(s, nodes).Err? <==> exists n <- nodes :: ServerClash(n)
    ensures ServerChildren(s, nodes).Ok? ==>
              var last := ServerChildren(s, nodes).value;
              last == s.(fields := last.fields) && a !in last.fields
    decreases |nodes|
  {
    if nodes != [] {
      ServerStepFails(s, nodes[0]);
      assert nodes == [nodes[0]] + nodes[1..];
      if ServerChild(s, nodes[0]).Ok? {
        ServerStepFrame(s, nodes[0]);
        ServerStepAlias(s, nodes[0], a);
        ServerChildrenFrame(ServerChild(s, nodes[0]).value, nodes[1..], a);
      }
    }
  }

  // ---- entries --------------------------------------------------------------------------

  /** A value written as a block. */
  predicate NestedValue(v: Value) {
    v.Table? || (v.Arr? && HasTable(v.items))
  }

  lemma PropertyWritten(order: Order, key: string, v: Value)
    requires ValidOrder(order) && Printable(v)
    ensures var n := PropertyNode(order, key, v);
            Written(n) && n.name == key && (n.children.Nested? <==> NestedValue(v))
  {}

  /** What a location must not hold if its printed form is to be read at all. */
  predicate LocationReadable(t: Fields) {
    forall a <- t :: RoleOf(a) in {UpstreamRole, PluginRole} ==> !NestedValue(t[a])
  }

  predicate ServerReadable(t: Fields) {
    forall a <- t :: RoleOf(a) in {LocationRole, PluginRole, CertificateRole} ==> !NestedValue(t[a])
  }

  lemma NodesWritten(order: Order, v: Value)
    requires ValidOrder(order) && v.Table? && Printable(v)
    ensures WrittenAll(TableNodes(order, v))
    ensures (exists n <- TableNodes(order, v) :: LocationClash(n)) <==> !LocationReadable(v.entries)
    ensures (exists n <- TableNodes(order, v) :: ServerClash(n)) <==> !ServerReadable(v.entries)
  {
    var nodes := TableNodes(order, v);
    TableNames(order, v);
    forall a | a in v.entries
      ensures Written(PropertyNode(order, a, v.entries[a]))
      ensures PropertyNode(order, a, v.entries[a]).children.Nested? <==> NestedValue(v.entries[a])
      ensures PropertyNode(order, a, v.entries[a]).name == a
      ensures PropertyNode(order, a, v.entries[a]) in nodes
    {
      PropertyWritten(order, a, v.entries[a]);
    }
    forall n | n in nodes ensures n.name in v.entries && n == PropertyNode(order, n.name, v.entries[n.name]) {
      var i :| 0 <= i < |nodes| && nodes[i] == n;
    }
    forall i | 0 <= i < |nodes| ensures Written(nodes[i]) {
      assert nodes[i] in nodes;
    }
  }

  function TableNode(order: Order, args: seq<Value>, v: Value): Node
    requires ValidOrder(order) && v.Table? && Printable(v)
  {
    Node("", args, map[], Nested(TableNodes(order, v)))
  }

  lemma LocationEntry(order: Order, args: seq<Value>, v: Value)
    requires ValidOrder(order) && v.Table? && Printable(v)
    ensures var p := ParseLocationNode(TableNode(order, args, v));
            && (p.Err? <==> !LocationReadable(v.entries))
            && (p.Ok? ==> p.value.upstreams == map[] && p.value.plugins == map[])
            && (p.Ok? ==> (p.value.location == v.entries <==> KeptFields(v.entries) && PLUGIN !in v.entries))
  {
    var nodes, start := TableNodes(order, v), Start(TableNode(order, args, v));
    assert Inlined(map[]) == map[];
    NodesWritten(order, v);
    TableNames(order, v);
    LocationChildrenFrame(start, nodes);
    if LocationReadable(v.entries) && PLUGIN !in v.entries {
      forall i | 0 <= i < |nodes| ensures !LocationClash(nodes[i]) && nodes[i].name != PLUGIN {
        assert nodes[i] in nodes;
      }
      LocationReadsPlainly(start, nodes);
      FieldsKeptIff(order, v);
    }
  }

  lemma ServerEntry(order: Order, args: seq<Value>, v: Value)
    requires ValidOrder(order) && v.Table? && Printable(v)
    ensures var p := ParseServerNode(TableNode(order, args, v));
            && (p.Err? <==> !ServerReadable(v.entries))
            && (p.Ok? ==> p.value.locations == map[] && p.value.upstreams == map[])
            && (p.Ok? ==> p.value.plugins == map[] && p.value.certificates == map[])
            && (p.Ok? ==> (p.value.server == v.entries <==>
                           KeptFields(v.entries) && PLUGIN !in v.entries && LOCATION !in v.entries))
  {
    var nodes, start := TableNodes(order, v), Start(TableNode(order, args, v));
    assert start.fields == map[];
    NodesWritten(order, v);
    ServerChildrenFrame(start, nodes, PLUGIN);
    ServerChildrenFrame(start, nodes, LOCATION);
    if ServerReadable(v.entries) && PLUGIN !in v.entries && LOCATION !in v.entries {
      ServerFields(order, start, v);
      FieldsKeptIff(order, v);
    }
  }

  lemma ServerFields(order: Order, start: Reading, v: Value)
    requires ValidOrder(order) && v.Table? && Printable(v) && start.fields == map[]
    requires ServerReadable(v.entries) && PLUGIN !in v.entries && LOCATION !in v.entries
    ensures ServerChildren(start, TableNodes(order, v)) == Ok(start.(fields := Fold(map[], TableNodes(order, v))))
  {
    var nodes := TableNodes(order, v);
    NodesWritten(order, v);
    TableNames(order, v);
    forall i | 0 <= i < |nodes| ensures !ServerClash(nodes[i]) && !Alias(nodes[i].name) {
      assert nodes[i] in nodes;
    }
    ServerReadsPlainly(start, nodes);
  }

  // ---- documents ------------------------------------------------------------------------

  predicate EntryReadable(c: Category, t: Fields) {
    (c.Location? ==> LocationReadable(t)) && (c.Server? ==> ServerReadable(t))
  }

  predicate EntryKept(c: Category, t: Fields) {
    KeptFields(t) && (c.Location? || c.Server? ==> PLUGIN !in t) && (c.Server? ==> LOCATION !in t)
  }

  /** The block that one printed entry is read as, if it can be read. */
  ghost predicate ReadsAs(b: Result<Block>, key: Key, v: Value, k: Key) {
    v.Table? &&
    if b.Err? then !EntryReadable(key.category, v.entries)
    else
      && EntryReadable(key.category, v.entries)
      && (k != key ==> Says(b.value, k).None?)
      && Says(b.value, key).Some?
      && (Says(b.value, key) == Some(v) <==> EntryKept(key.category, v.entries))
  }

  lemma ServerSaysOnly(name: string, p: ParsedServer, k: Key)
    requires p.locations == map[] && p.upstreams == map[] && p.plugins == map[] && p.certificates == map[]
    ensures Says(ServerBlock(name, p), k) == if k == KeyOf(Server, name) then Some(Table(p.server)) else None
  {}

  lemma LocationSaysOnly(name: string, p: ParsedLocation, k: Key)
    requires p.upstreams == map[] && p.plugins == map[]
    ensures Says(LocationBlock(name, p), k) == if k == KeyOf(Location, name) then Some(Table(p.location)) else None
  {}

  lemma ServerReadsAs(order: Order, name: string, v: Value, k: Key)
    requires ValidOrder(order) && v.Table? && Printable(v)
    ensures ReadsAs(ParseTop(TopNode(Known(Server), TableNode(order, [Str(name)], v))), KeyOf(Server, name), v, k)
  {
    ServerEntry(order, [Str(name)], v);
    var p := ParseServerNode(TableNode(order, [Str(name)], v));
    if p.Ok? {
      ServerSaysOnly(name, p.value, k);
      ServerSaysOnly(name, p.value, KeyOf(Server, name));
    }
  }

  lemma LocationReadsAs(order: Order, name: string, v: Value, k: Key)
    requires ValidOrder(order) && v.Table? && Printable(v)
    ensures ReadsAs(ParseTop(TopNode(Known(Location), TableNode(order, [Str(name)], v))), KeyOf(Location, name), v, k)
  {
    LocationEntry(order, [Str(name)], v);
    var p := ParseLocationNode(TableNode(order, [Str(name)], v));
    if p.Ok? {
      LocationSaysOnly(name, p.value, k);
      LocationSaysOnly(name, p.value, KeyOf(Location, name));
    }
  }

  lemma PlainReadsAs(order: Order, args: seq<Value>, key: Key, v: Value, k: Key)
    requires ValidOrder(order) && v.Table? && Printable(v) && key.category !in {Server, Location}
    requires args == if key.category.Basic? then [] else [Str(key.name)]
    ensures ReadsAs(ParseTop(TopNode(Known(key.category), TableNode(order, args, v))), key, v, k)
  {
    assert Inlined(map[]) == map[];
    assert key == KeyOf(key.category, key.name) && k == KeyOf(k.category, k.name);
    FieldsKeptIff(order, v);
  }

  lemma EntryReads(order: Order, key: Key, v: Value, k: Key)
    requires ValidOrder(order) && v.Table? && Printable(v)
    ensures ReadsAs(ParseTop(EntryNode(order, key.category, key.name, v)), key, v, k)
  {
    var args := if key.category.Basic? then [] else [Str(key.name)];
    assert TableOf(v) == v && key == KeyOf(key.category, key.name);
    assert EntryNode(order, key.category, key.name, v) == TopNode(Known(key.category), TableNode(order, args, v));
    if key.category.Server? {
      ServerReadsAs(order, key.name, v, k);
    } else if key.category.Location? {
      LocationReadsAs(order, key.name, v, k);
    } else {
      PlainReadsAs(order, args, key, v, k);
    }
  }

  lemma PrintOne(order: Order, config: Config, keys: seq<Key>)
    requires ValidOrder(order) && PrintableConfig(config) && (forall k <- keys :: k in config) && keys != []
    ensures var doc := PrintKeys(order, config, keys);
            && doc[1..] == PrintKeys(order, config, keys[1..])
            && doc[0] == EntryNode(order, keys[0].category, keys[0].name, TableOf(config[keys[0]]))
  {}

  lemma {:induction false} KeysReadIff(order: Order, config: Config, keys: seq<Key>)
    requires ValidOrder(order) && PrintableConfig(config) && forall k <- keys :: k in config
    ensures ParseDocument(PrintKeys(order, config, keys)).Ok? <==>
            forall k <- keys :: EntryReadable(k.category, TableOf(config[k]).entries)
  {
    if keys != [] {
      PrintOne(order, config, keys);
      assert keys == [keys[0]] + keys[1..];
      EntryReads(order, keys[0], TableOf(config[keys[0]]), keys[0]);
      KeysReadIff(order, config, keys[1..]);
    }
  }

  lemma {:induction false} KeysSpeak(order: Order, config: Config, keys: seq<Key>, k: Key)
    requires ValidOrder(order) && PrintableConfig(config) && (forall k <- keys :: k in config) && Distinct(keys)
    requires ParseDocument(PrintKeys(order, config, keys)).Ok?
    ensures var blocks := ParseDocument(PrintKeys(order, config, keys)).value;
            if k in keys then
              && Count(blocks, k) == 1
              && (First(blocks, k) == Some(TableOf(config[k])) <==> EntryKept(k.category, TableOf(config[k]).entries))
            else Count(blocks, k) == 0 && First(blocks, k) == None
  {
    if keys != [] {
      PrintOne(order, config, keys);
      var v := TableOf(config[keys[0]]);
      EntryReads(order, keys[0], v, k);
      EntryReads(order, keys[0], v, keys[0]);
      assert keys[0] !in keys[1..] && Distinct(keys[1..]);
      KeysSpeak(order, config, keys[1..], k);
      var blocks := ParseDocument(PrintKeys(order, config, keys)).value;
      assert blocks[1..] == ParseDocument(PrintKeys(order, config, keys[1..])).value;
    }
  }

  lemma SectionKeysAre(order: Order, config: Config, c: Category, k: Key)
    requires ValidOrder(order) && !c.Basic?
    ensures Distinct(SectionKeys(order, config, c))
    ensures k in SectionKeys(order, config, c) <==> k in config && k.category == c
  {
    var section, names := Section(config, c), Names(order, config, c);
    assert Enumerates(names, section.Keys);
    assert k == KeyOf(k.category, k.name);
    if k in config && k.category == c {
      assert k.name in section;
      var i :| 0 <= i < |names| && names[i] == k.name;
      assert SectionKeys(order, config, c)[i] == k;
    }
    if k in SectionKeys(order, config, c) {
      var i :| 0 <= i < |names| && KeyOf(c, names[i]) == k;
      assert names[i] in section;
    }
  }

  lemma SectionsApart(order: Order, config: Config, c: Category, others: seq<Key>)
    requires ValidOrder(order) && !c.Basic? && Distinct(others) && forall k <- others :: k.category != c
    ensures Distinct(others + SectionKeys(order, config, c))
  {
    forall k | k in others ensures k !in SectionKeys(order, config, c) {
      SectionKeysAre(order, config, c, k);
    }
    SectionKeysAre(order, config, c, KeyOf(Basic, ""));
    DistinctAppend(others, SectionKeys(order, config, c));
  }

  /** Every entry is printed once; a basic section that is no table is not. */
  lemma PrintedKeysAre(order: Order, config: Config, k: Key)
    requires ValidOrder(order)
    ensures Distinct(PrintedKeys(order, config))
    ensures k in PrintedKeys(order, config) <==> k in config && (k.category.Basic? ==> config[k].Table?)
  {
    var keys := if Item(config, Basic, "").Some? then [KeyOf(Basic, "")] else [];
    ghost var done := {Basic};
    assert forall x <- keys :: x.category in done;
    keys, done := AddSection(order, config, Upstream, keys, done, k);
    keys, done := AddSection(order, config, Location, keys, done, k);
    keys, done := AddSection(order, config, Server, keys, done, k);
    keys, done := AddSection(order, config, Plugin, keys, done, k);
    keys, done := AddSection(order, config, Certificate, keys, done, k);
    keys, done := AddSection(order, config, Storage, keys, done, k);
  }

  lemma AddSection(order: Order, config: Config, c: Category, keys: seq<Key>, done: set<Category>, k: Key)
    returns (keys': seq<Key>, done': set<Category>)
    requires ValidOrder(order) && Basic in done && c !in done
    requires Distinct(keys) && forall x <- keys :: x.category in done
    ensures keys' == keys + SectionKeys(order, config, c) && done' == done + {c}
    ensures Distinct(keys') && forall x <- keys' :: x.category in done'
    ensures k in keys' <==> k in keys || (k in config && k.category == c)
  {
    keys', done' := keys + SectionKeys(order, config, c), done + {c};
    SectionsApart(order, config, c, keys);
    forall x | x in keys' ensures x.category in done' {
      SectionKeysAre(order, config, c, x);
    }
    SectionKeysAre(order, config, c, k);
  }

  lemma PrintedInConfig(order: Order, config: Config)
    requires ValidOrder(order)
    ensures forall k <- PrintedKeys(order, config) :: k in config
  {
    forall k | k in PrintedKeys(order, config) ensures k in config {
      PrintedKeysAre(order, config, k);
    }
  }

  /** The printed document, or nothing when the printer panics. */
  ghost function PrintKdl(order: Order, config: Config): Option<seq<TopNode>>
    requires ValidOrder(order)
  {
    PrintedInConfig(order, config);
    if PrintableConfig(config) then Some(PrintKeys(order, config, PrintedKeys(order, config))) else None
  }

  // ---- main results ---------------------------------------------------------------------

  ghost predicate ReadableConfig(config: Config) {
    forall k <- config :: EntryReadable(k.category, TableOf(config[k]).entries)
  }

  lemma PrintedReadable(order: Order, config: Config)
    requires ValidOrder(order)
    ensures (forall k <- PrintedKeys(order, config) ::
               k in config && EntryReadable(k.category, TableOf(config[k]).entries)) <==>
            ReadableConfig(config)
  {
    forall k: Key
      ensures k in PrintedKeys(order, config) <==> k in config && (k.category.Basic? ==> config[k].Table?)
    {
      PrintedKeysAre(order, config, k);
    }
  }

  /** A printed document can be read exactly when no location or server holds a block where a name is expected. */
  lemma KdlReadsIff(order: Order, config: Config)
    requires ValidOrder(order) && PrintableConfig(config)
    ensures ReadKdl(PrintKdl(order, config).value).Ok? <==> ReadableConfig(config)
  {
    var keys := PrintedKeys(order, config);
    PrintedInConfig(order, config);
    PrintedReadable(order, config);
    KeysReadIff(order, config, keys);
    var blocks := ParseDocument(PrintKeys(order, config, keys));
    if blocks.Ok? {
      AssembleErrIff(blocks.value);
      forall k: Key ensures Count(blocks.value, k) <= 1 {
        PrintedKeysAre(order, config, k);
        KeysSpeak(order, config, keys, k);
      }
    }
  }

  /** An entry that survives printing and reading back. */
  predicate Kept(config: Config, k: Key)
    requires k in config
  {
    && config[k].Table?
    && EntryReadable(k.category, config[k].entries)
    && EntryKept(k.category, config[k].entries)
  }

  lemma KdlReadsAs(order: Order, config: Config, k: Key)
    requires ValidOrder(order) && PrintableConfig(config) && ReadableConfig(config)
    ensures ReadKdl(PrintKdl(order, config).value).Ok?
    ensures EntryOf(ReadKdl(PrintKdl(order, config).value).value, k) == EntryOf(config, k) <==>
            (k in config ==> Kept(config, k))
  {
    var keys := PrintedKeys(order, config);
    KdlReadsIff(order, config);
    PrintedInConfig(order, config);
    PrintedReadable(order, config);
    KeysReadIff(order, config, keys);
    var blocks := ParseDocument(PrintKeys(order, config, keys)).value;
    AssembleAt(blocks, k);
    PrintedKeysAre(order, config, k);
    KeysSpeak(order, config, keys, k);
  }

  lemma {:induction false} KeptIsPrintable(key: string, v: Value)
    requires KeptValue(key, v)
    ensures Printable(v)
    decreases v
  {
    match v
    case Table(t) =>
      forall a | a in t ensures Printable(t[a]) { KeptIsPrintable(a, t[a]); }
    case Arr(items) =>
      if HasTable(items) {
        forall x | x in items ensures x.Table? && Printable(x) {
          match x
          case Table(t) => forall a | a in t ensures Printable(t[a]) { KeptIsPrintable(a, t[a]); }
        }
      }
    case _ =>
  }

  lemma KeptConfigPrints(config: Config)
    requires forall k <- config :: Kept(config, k)
    ensures PrintableConfig(config) && ReadableConfig(config)
  {
    forall k | k in config
      ensures Printable(TableOf(config[k])) && EntryReadable(k.category, TableOf(config[k]).entries)
    {
      assert Kept(config, k);
      var t := config[k].entries;
      forall a | a in t ensures Printable(t[a]) { KeptIsPrintable(a, t[a]); }
    }
  }

  /** Printing and reading back gives the configuration again exactly when every entry is kept. */
  lemma KdlRoundTripIff(order: Order, config: Config)
    requires ValidOrder(order)
    ensures (PrintKdl(order, config).Some? && ReadKdl(PrintKdl(order, config).value) == Ok(config)) <==>
            forall k <- config :: Kept(config, k)
  {
    if forall k <- config :: Kept(config, k) { KeptConfigPrints(config); }
    if PrintableConfig(config) {
      KdlReadsIff(order, config);
      if ReadableConfig(config) {
        var back := ReadKdl(PrintKdl(order, config).value).value;
        forall k: Key ensures EntryOf(back, k) == EntryOf(config, k) <==> (k in config ==> Kept(config, k)) {
          KdlReadsAs(order, config, k);
        }
        SameConfigIff(back, config);
      }
    }
  }

  // ---- what does not survive ------------------------------------------------------------

  const SINGLETON: Config := map[KeyOf(Upstream, "u") := Table(map["sni" := Arr([Int(1)])])]

  /** A list of one value under a field that is not known to be a list is read back as the value. */
  lemma SingletonListIsUnwrapped(order: Order)
    requires ValidOrder(order)
    ensures PrintKdl(order, SINGLETON).Some? && ReadKdl(PrintKdl(order, SINGLETON).value) != Ok(SINGLETON)
  {
    var k := KeyOf(Upstream, "u");
    var items := [Int(1)];
    assert items[0] == Int(1) && !HasTable(items) && Printable(Arr(items));
    assert k in SINGLETON && SINGLETON[k].entries["sni"] == Arr(items);
    assert !AlwaysList("sni") && !KeptValue("sni", Arr(items));
    assert !KeptFields(SINGLETON[k].entries) && !Kept(SINGLETON, k);
    KdlRoundTripIff(order, SINGLETON);
  }

  const MIXED: Config := map[KeyOf(Upstream, "u") := Table(map["a" := Arr([Table(map[]), Int(1)])])]

  /** A scalar next to a table in one list is read back as an empty table. */
  lemma ScalarNextToTableIsLost(order: Order)
    requires ValidOrder(order)
    ensures PrintKdl(order, MIXED).Some? && ReadKdl(PrintKdl(order, MIXED).value) != Ok(MIXED)
  {
    var k := KeyOf(Upstream, "u");
    var items := [Table(map[]), Int(1)];
    assert items[0] in items && items[1] in items && HasTable(items) && Printable(Arr(items));
    assert k in MIXED && MIXED[k].entries["a"] == Arr(items);
    assert !KeptValue("a", Arr(items));
    assert !KeptFields(MIXED[k].entries) && !Kept(MIXED, k);
    KdlRoundTripIff(order, MIXED);
  }

  const PANICKING: Config := map[KeyOf(Basic, "") := Table(map["a" := Arr([Arr([Table(map[])])])])]

  /** A table in a list in a list makes the printer panic. */
  lemma NestedListPanics(order: Order)
    requires ValidOrder(order)
    ensures PrintKdl(order, PANICKING).None?
  {
    var k := KeyOf(Basic, "");
    var inner := [Table(map[])];
    var items := [Arr(inner)];
    assert inner[0] in inner && !Inline(inner[0]) && !Inline(Arr(inner));
    assert items[0] in items && !HasTable(items) && !Printable(Arr(items));
    assert PANICKING[k].entries["a"] == Arr(items);
    assert !Printable(TableOf(PANICKING[k]));
  }
}
