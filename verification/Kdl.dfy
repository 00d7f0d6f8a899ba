/** The KDL form of a configuration, as a tree of nodes: one flat node per entry. */
module Kdl {
  import opened Toml
  import opened Assembly
  import opened Hcl

  /** A node: positional arguments and named properties (both scalars), and perhaps a child block. */
  datatype Node = Node(name: string, args: seq<Value>, props: Fields, children: Children)

  datatype Children = Childless | Nested(nodes: seq<Node>)

  /** A top-level node; the singular and the plural spelling of its type mean the same. */
  datatype TopNode = TopNode(kind: Kind, node: Node)

  predicate Scalar(v: Value) {
    v.Str? || v.Int? || v.Bool?
  }

  /** Fields that are lists even when they hold one value. */
  predicate AlwaysList(field: string) {
    field in {"addrs", "locations", "plugins", "includes", "modules", "proxy_set_headers", "proxy_add_headers",
              "webhook_notifications"}
  }

  const ITEM := "item"

  // ---- printing -------------------------------------------------------------------------

  /** The value can be written as arguments: a table in it makes the printer panic. */
  predicate Inline(v: Value) {
    match v
    case Table(_) => false
    case Arr(items) => forall x <- items :: Inline(x)
    case _ => true
  }

  function ArgsOf(v: Value): seq<Value>
    requires Inline(v)
  {
    match v
    case Table(_) => []
    case Arr(items) => ArgsOfAll(items)
    case _ => [v]
  }

  function ArgsOfAll(items: seq<Value>): seq<Value>
    requires forall x <- items :: Inline(x)
  {
    if items == [] then [] else ArgsOf(items[0]) + ArgsOfAll(items[1..])
  }

  predicate HasTable(items: seq<Value>) {
    exists x <- items :: x.Table?
  }

  /** The printer does not panic on the value. */
  predicate Printable(v: Value) {
    match v
    case Table(t) => forall a <- t :: Printable(t[a])
    case Arr(items) =>
      if HasTable(items) then forall x <- items :: if x.Table? then Printable(x) else Inline(x)
      else forall x <- items :: Inline(x)
    case _ => true
  }

  function PropertyNode(order: Order, key: string, v: Value): Node
    requires ValidOrder(order) && Printable(v)
    decreases v, 1
  {
    match v
    case Table(t) => Node(key, [], map[], Nested(TableNodes(order, v)))
    case Arr(items) =>
      if HasTable(items) then
        Node(key, [], map[], Nested(ItemNodes(order, items)))
      else Node(key, ArgsOfAll(items), map[], Childless)
    case _ => Node(key, [v], map[], Childless)
  }

  predicate PrintableItem(x: Value) {
    if x.Table? then Printable(x) else Inline(x)
  }

  /** A list with a table in it becomes one `item` node per element. */
  function ItemNodes(order: Order, items: seq<Value>): seq<Node>
    requires ValidOrder(order) && forall x <- items :: PrintableItem(x)
    decreases items, 0
  {
    seq(|items|, i requires 0 <= i < |items| => ItemNode(order, items[i]))
  }

  function ItemNode(order: Order, x: Value): Node
    requires ValidOrder(order) && PrintableItem(x)
    decreases x, 1
  {
    if x.Table? then Node(ITEM, [], map[], Nested(TableNodes(order, x))) else Node(ITEM, ArgsOf(x), map[], Childless)
  }

  function TableNodes(order: Order, v: Value): seq<Node>
    requires ValidOrder(order) && v.Table? && Printable(v)
    decreases v, 0
  {
    match v case Table(t) =>
      assert Enumerates(order(t.Keys), t.Keys);
      var names := order(t.Keys);
      seq(|names|, i requires 0 <= i < |names| => PropertyNode(order, names[i], t[names[i]]))
  }

  // ---- reading values -------------------------------------------------------------------

  /** The value of a child node. */
  function ChildValue(n: Node): Value
    decreases n, 1
  {
    match n
    case Node(_, args, props, Nested(children)) =>
      if children != [] && (forall c <- children :: c.name == ITEM)
      then Arr(seq(|children|, i requires 0 <= i < |children| => Table(NodeFields(children[i]))))
      else Table(Fold(Inlined(props), children))
    case Node(_, args, props, Childless) =>
      if args == [] then (if props == map[] then Str("") else Table(props))
      else if |args| == 1 then args[0]
      else Arr(args)
  }

  /** Named properties; known list fields are wrapped. */
  function Inlined(props: Fields): Fields {
    map a | a in props :: if AlwaysList(a) then Arr([props[a]]) else props[a]
  }

  function NodeFields(n: Node): Fields
    decreases n, 0
  {
    match n
    case Node(_, _, props, Nested(children)) => Fold(Inlined(props), children)
    case Node(_, _, props, Childless) => Inlined(props)
  }

  /** The value of a node as an entry of a table: a known list field is a list whatever its length. */
  function NodeValue(n: Node): Value
    decreases n, 2
  {
    if AlwaysList(n.name) && n.children.Childless? then Arr(n.args) else ChildValue(n)
  }

  /** A repeated list appends; anything else overwrites. */
  function InsertOrAppend(m: Fields, key: string, v: Value): Fields {
    if key in m && m[key].Arr? then m[key := Arr(m[key].items + (if v.Arr? then v.items else [v]))]
    else m[key := v]
  }

  function Fold(m: Fields, nodes: seq<Node>): Fields
    decreases nodes, 3
  {
    if nodes == [] then m else Fold(InsertOrAppend(m, nodes[0].name, NodeValue(nodes[0])), nodes[1..])
  }

  // ---- reading locations and servers ----------------------------------------------------

  datatype Role = UpstreamRole | PluginRole | LocationRole | CertificateRole | Plain

  function RoleOf(name: string): Role {
    if name == "upstream" || name == "upstreams" then UpstreamRole
    else if name == "plugin" || name == "plugins" then PluginRole
    else if name == "location" || name == "locations" then LocationRole
    else if name == "certificate" || name == "certificates" then CertificateRole
    else Plain
  }

  /** The first argument, as a name. */
  function NameArg(n: Node): Result<string> {
    if n.args == [] then Err
    else
      match n.args[0]
      case Str(s) => Ok(s)
      case Bool(b) => Ok(if b then "true" else "false")
      case Int(i) => Ok(Decimal(i))
      case _ => Ok("")
  }

  function Decimal(i: int): string {
    if i < 0 then "-" + Digits(-i) else Digits(i)
  }

  function Digits(n: nat): string {
    if n < 10 then [('0' as int + n) as char] else Digits(n / 10) + [('0' as int + n % 10) as char]
  }

  /** What has been read of a location or a server so far. */
  datatype Reading = Reading(
    fields: Fields,
    locations: Fields, locationNames: seq<string>,
    upstreams: Fields, upstreamNames: seq<string>,
    plugins: Fields, pluginNames: seq<string>,
    certificates: Fields)

  function Start(n: Node): Reading {
    Reading(Inlined(n.props), map[], [], map[], [], map[], [], map[])
  }

  predicate IsBlock(n: Node) {
    n.children.Nested?
  }

  /** A plugin with properties is a definition even without a block. */
  predicate IsPluginDefinition(n: Node) {
    n.children.Nested? || n.props != map[]
  }

  function PlainChild(s: Reading, n: Node): Reading {
    s.(fields := InsertOrAppend(s.fields, n.name, NodeValue(n)))
  }

  function LocationChild(s: Reading, n: Node): Result<Reading> {
    match RoleOf(n.name)
    case UpstreamRole =>
      if !IsBlock(n) then Ok(s.(fields := s.fields[n.name := ChildValue(n)]))
      else if NameArg(n).Err? then Err
      else
        Ok(s.(upstreamNames := s.upstreamNames + [NameArg(n).value],
              upstreams := s.upstreams[NameArg(n).value := Table(NodeFields(n))]))
    case PluginRole =>
      if !IsPluginDefinition(n) then Ok(s.(fields := s.fields[PLUGINS := Arr(n.args)]))
      else if NameArg(n).Err? then Err
      else
        Ok(s.(pluginNames := s.pluginNames + [NameArg(n).value],
              plugins := s.plugins[NameArg(n).value := Table(NodeFields(n))]))
    case _ => Ok(PlainChild(s, n))
  }

  function LocationChildren(s: Reading, nodes: seq<Node>): Result<Reading>
    decreases |nodes|
  {
    if nodes == [] then Ok(s)
    else
      var next := LocationChild(s, nodes[0]);
      if next.Err? then Err else LocationChildren(next.value, nodes[1..])
  }

  function ChildrenOf(n: Node): seq<Node> {
    if n.children.Nested? then n.children.nodes else []
  }

  function ParseLocationNode(n: Node): Result<ParsedLocation> {
    var s := LocationChildren(Start(n), ChildrenOf(n));
    if s.Err? then Err
    else
      Ok(ParsedLocation(
        WithList(WithUpstream(s.value.fields, s.value.upstreamNames), PLUGINS, s.value.pluginNames),
        s.value.upstreams, s.value.plugins))
  }

  function ServerChild(s: Reading, n: Node): Result<Reading> {
    match RoleOf(n.name)
    case LocationRole =>
      if !IsBlock(n) then Ok(s.(fields := s.fields[LOCATIONS := Arr(n.args)]))
      else if NameArg(n).Err? then Err
      else
        var p := ParseLocationNode(n);
        if p.Err? then Err
        else
          Ok(s.(locationNames := s.locationNames + [NameArg(n).value],
                locations := s.locations[NameArg(n).value := Table(p.value.location)],
                upstreams := s.upstreams + p.value.upstreams,
                plugins := s.plugins + p.value.plugins))
    case PluginRole =>
      if !IsPluginDefinition(n) then Ok(s.(fields := s.fields[PLUGINS := Arr(n.args)]))
      else if NameArg(n).Err? then Err
      else Ok(s.(plugins := s.plugins[NameArg(n).value := Table(NodeFields(n))]))
    case CertificateRole =>
      if !IsBlock(n) then Ok(s.(fields := s.fields[n.name := ChildValue(n)]))
      else if NameArg(n).Err? then Err
      else Ok(s.(certificates := s.certificates[NameArg(n).value := Table(NodeFields(n))]))
    case _ => Ok(PlainChild(s, n))
  }

  function ServerChildren(s: Reading, nodes: seq<Node>): Result<Reading>
    decreases |nodes|
  {
    if nodes == [] then Ok(s)
    else
      var next := ServerChild(s, nodes[0]);
      if next.Err? then Err else ServerChildren(next.value, nodes[1..])
  }

  function ParseServerNode(n: Node): Result<ParsedServer> {
    var s := ServerChildren(Start(n), ChildrenOf(n));
    if s.Err? then Err
    else
      Ok(ParsedServer(WithList(s.value.fields, LOCATIONS, s.value.locationNames), s.value.locations,
                      s.value.upstreams, s.value.plugins, s.value.certificates))
  }

  // ---- documents ------------------------------------------------------------------------

  function ParseTop(t: TopNode): Result<Block> {
    if t.kind.Unknown? then Err
    else if t.kind.category.Basic? then Ok(BasicBlock(NodeFields(t.node)))
    else if NameArg(t.node).Err? then Err
    else
      var c, name := t.kind.category, NameArg(t.node).value;
      if c.Server? then
        var p := ParseServerNode(t.node);
        if p.Err? then Err else Ok(ServerBlock(name, p.value))
      else if c.Location? then
        var p := ParseLocationNode(t.node);
        if p.Err? then Err else Ok(LocationBlock(name, p.value))
      else Ok(ItemBlock(c, name, NodeFields(t.node)))
  }

  function ParseDocument(doc: seq<TopNode>): Result<seq<Block>> {
    if doc == [] then Ok([])
    else
      var first := ParseTop(doc[0]);
      if first.Err? then Err
      else
        var rest := ParseDocument(doc[1..]);
        if rest.Err? then Err else Ok([first.value] + rest.value)
  }

  /** Reads a document back into one configuration. */
  ghost function ReadKdl(doc: seq<TopNode>): Result<Config> {
    var blocks := ParseDocument(doc);
    if blocks.Err? then Err else Assemble(blocks.value)
  }

  /** What is printed of an entry that is not a table: nothing. */
  function TableOf(v: Value): Value {
    if v.Table? then v else Table(map[])
  }

  function EntryNode(order: Order, c: Category, name: string, v: Value): TopNode
    requires ValidOrder(order) && Printable(TableOf(v))
  {
    TopNode(Known(c), Node("", if c.Basic? then [] else [Str(name)], map[], Nested(TableNodes(order, TableOf(v)))))
  }

  /** The entries in the order they are printed. */
  function PrintedKeys(order: Order, config: Config): seq<Key> {
    (if Item(config, Basic, "").Some? then [KeyOf(Basic, "")] else []) +
    SectionKeys(order, config, Upstream) + SectionKeys(order, config, Location) +
    SectionKeys(order, config, Server) + SectionKeys(order, config, Plugin) +
    SectionKeys(order, config, Certificate) + SectionKeys(order, config, Storage)
  }

  function SectionKeys(order: Order, config: Config, c: Category): seq<Key>
    requires !c.Basic?
  {
    var names := Names(order, config, c);
    seq(|names|, i requires 0 <= i < |names| => KeyOf(c, names[i]))
  }

  ghost predicate PrintableConfig(config: Config) {
    forall k <- config :: Printable(TableOf(config[k]))
  }

  function PrintKeys(order: Order, config: Config, keys: seq<Key>): seq<TopNode>
    requires ValidOrder(order) && PrintableConfig(config) && forall k <- keys :: k in config
  {
    if keys == [] then []
    else [EntryNode(order, keys[0].category, keys[0].name, config[keys[0]])] + PrintKeys(order, config, keys[1..])
  }
}
