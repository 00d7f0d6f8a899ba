/**
 * The HCL form of a configuration, as a tree of blocks: printing nests locations in their
 * servers and upstreams and plugins in the first location that uses them; reading lifts them out.
 */
module Hcl {
  import opened Toml
  import opened Assembly

  /** A block type; the singular and the plural spelling mean the same. */
  datatype Kind = Known(category: Category) | Unknown

  datatype Body = Body(attrs: Fields, blocks: seq<HclBlock>)

  datatype HclBlock = HclBlock(kind: Kind, name: Option<string>, body: Body)

  // ---- attribute values -----------------------------------------------------------------

  /** An attribute value as it is read back: a table is printed as `{}`. */
  function HclValue(v: Value): Value {
    match v
    case Table(_) => Table(map[])
    case Arr(items) => Arr(seq(|items|, i requires 0 <= i < |items| => HclValue(items[i])))
    case _ => v
  }

  /** No table with entries anywhere inside. */
  predicate Flat(v: Value) {
    match v
    case Table(t) => t == map[]
    case Arr(items) => forall x <- items :: Flat(x)
    case _ => true
  }

  lemma {:induction false} FlatIffStable(v: Value)
    ensures HclValue(v) == v <==> Flat(v)
  {
    if v.Arr? {
      forall x | x in v.items ensures HclValue(x) == x <==> Flat(x) {
        FlatIffStable(x);
      }
      if HclValue(v) == v {
        forall x | x in v.items ensures Flat(x) {
          var i :| 0 <= i < |v.items| && v.items[i] == x;
          assert HclValue(v).items[i] == HclValue(x);
        }
      }
    }
  }

  function Attrs(fields: Fields): Fields {
    map a | a in fields :: HclValue(fields[a])
  }

  function Strings(items: seq<Value>): seq<string> {
    if items == [] then []
    else (if items[0].Str? then [items[0].text] else []) + Strings(items[1..])
  }

  /** The names a list attribute holds; anything that is not a list of strings is passed over. */
  function NameList(fields: Fields, attr: string): seq<string> {
    if attr in fields && fields[attr].Arr? then Strings(fields[attr].items) else []
  }

  function StringArray(names: seq<string>): Value {
    Arr(seq(|names|, i requires 0 <= i < |names| => Str(names[i])))
  }

  const UPSTREAM := "upstream"
  const PLUGINS := "plugins"
  const LOCATIONS := "locations"

  // ---- printing -------------------------------------------------------------------------

  /** What has already been written inside some location. */
  datatype Claims = Claims(upstreams: set<string>, plugins: set<string>)

  function Item(config: Config, c: Category, name: string): Option<Fields> {
    var k := KeyOf(c, name);
    if k in config && config[k].Table? then Some(config[k].entries) else None
  }

  function NamedBlock(c: Category, name: string, table: Fields): HclBlock {
    HclBlock(Known(c), Some(name), Body(Attrs(table), []))
  }

  /** The upstream a location gets to embed: the first to refer to it does. */
  function EmbeddedUpstream(config: Config, claims: Claims, loc: Fields): Option<string> {
    if UPSTREAM in loc && loc[UPSTREAM].Str? && loc[UPSTREAM].text !in claims.upstreams
       && Item(config, Upstream, loc[UPSTREAM].text).Some?
    then Some(loc[UPSTREAM].text) else None
  }

  /** The plugins a location gets to embed: all it lists or none. */
  function EmbeddedPlugins(config: Config, claims: Claims, loc: Fields): Option<seq<string>> {
    var names := NameList(loc, PLUGINS);
    if names != [] && (forall n <- names :: n !in claims.plugins && KeyOf(Plugin, n) in config)
    then Some(names) else None
  }

  /** Writes the named plain items that exist, in order. */
  function EmitItems(config: Config, c: Category, names: seq<string>): seq<HclBlock> {
    if names == [] then []
    else
      (if Item(config, c, names[0]).Some? then [NamedBlock(c, names[0], Item(config, c, names[0]).value)] else []) +
      EmitItems(config, c, names[1..])
  }

  function Skipped(config: Config, claims: Claims, loc: Fields): set<string> {
    (if EmbeddedUpstream(config, claims, loc).Some? then {UPSTREAM} else {}) +
    (if EmbeddedPlugins(config, claims, loc).Some? then {PLUGINS} else {})
  }

  function LocationBody(config: Config, claims: Claims, loc: Fields): Body {
    var u := EmbeddedUpstream(config, claims, loc);
    var ps := EmbeddedPlugins(config, claims, loc);
    Body(Attrs(loc - Skipped(config, claims, loc)),
         (if u.Some? then [NamedBlock(Upstream, u.value, Item(config, Upstream, u.value).value)] else []) +
         (if ps.Some? then EmitItems(config, Plugin, ps.value) else []))
  }

  function Claim(config: Config, claims: Claims, loc: Fields): Claims {
    var u := EmbeddedUpstream(config, claims, loc);
    var ps := EmbeddedPlugins(config, claims, loc);
    Claims(claims.upstreams + (if u.Some? then {u.value} else {}),
           claims.plugins + (if ps.Some? then set n | n in ps.value else {}))
  }

  /** Writes the named locations that exist, in order. */
  function EmitLocations(config: Config, claims: Claims, names: seq<string>): seq<HclBlock>
    decreases |names|
  {
    if names == [] then []
    else
      var loc := Item(config, Location, names[0]);
      if loc.None? then EmitLocations(config, claims, names[1..])
      else
        [HclBlock(Known(Location), Some(names[0]), LocationBody(config, claims, loc.value))] +
        EmitLocations(config, Claim(config, claims, loc.value), names[1..])
  }

  function ClaimAll(config: Config, claims: Claims, names: seq<string>): Claims
    decreases |names|
  {
    if names == [] then claims
    else
      var loc := Item(config, Location, names[0]);
      if loc.None? then ClaimAll(config, claims, names[1..])
      else ClaimAll(config, Claim(config, claims, loc.value), names[1..])
  }

  function ServerBody(config: Config, claims: Claims, server: Fields): Body {
    Body(Attrs(server - {LOCATIONS}), EmitLocations(config, claims, NameList(server, LOCATIONS)))
  }

  function EmitServers(config: Config, claims: Claims, names: seq<string>): seq<HclBlock>
    decreases |names|
  {
    if names == [] then []
    else
      var server := Item(config, Server, names[0]);
      if server.None? then EmitServers(config, claims, names[1..])
      else
        [HclBlock(Known(Server), Some(names[0]), ServerBody(config, claims, server.value))] +
        EmitServers(config, ClaimAll(config, claims, NameList(server.value, LOCATIONS)), names[1..])
  }

  function ServerClaims(config: Config, claims: Claims, names: seq<string>): Claims
    decreases |names|
  {
    if names == [] then claims
    else
      var server := Item(config, Server, names[0]);
      if server.None? then ServerClaims(config, claims, names[1..])
      else ServerClaims(config, ClaimAll(config, claims, NameList(server.value, LOCATIONS)), names[1..])
  }

  function Without(names: seq<string>, drop: set<string>): seq<string> {
    if names == [] then []
    else (if names[0] in drop then [] else [names[0]]) + Without(names[1..], drop)
  }

  lemma {:induction false} WithoutNothing(names: seq<string>)
    ensures Without(names, {}) == names
  {
    if names != [] { WithoutNothing(names[1..]); }
  }

  function BasicBlocks(config: Config): seq<HclBlock> {
    var basic := Item(config, Basic, "");
    if basic.Some? && basic.value != map[] then [HclBlock(Known(Basic), None, Body(Attrs(basic.value), []))] else []
  }

  function Names(order: Order, config: Config, c: Category): seq<string>
    requires !c.Basic?
  {
    order(Section(config, c).Keys)
  }

  function Embedded(config: Config, servers: seq<string>): set<string> {
    set s, l | s in servers && Item(config, Server, s).Some? &&
               l in NameList(Item(config, Server, s).value, LOCATIONS) && Item(config, Location, l).Some? :: l
  }

  function NoClaims(): Claims {
    Claims({}, {})
  }

  /** The locations written at the top level. */
  function Unlisted(order: Order, config: Config): seq<string> {
    Without(Names(order, config, Location), Embedded(config, Names(order, config, Server)))
  }

  function AllClaims(order: Order, config: Config): Claims {
    ClaimAll(config, ServerClaims(config, NoClaims(), Names(order, config, Server)), Unlisted(order, config))
  }

  function Print(order: Order, config: Config): seq<HclBlock> {
    var servers := Names(order, config, Server);
    var claims := ServerClaims(config, NoClaims(), servers);
    var all := AllClaims(order, config);
    BasicBlocks(config) +
    EmitServers(config, NoClaims(), servers) +
    EmitLocations(config, claims, Unlisted(order, config)) +
    EmitItems(config, Upstream, Without(Names(order, config, Upstream), all.upstreams)) +
    EmitItems(config, Plugin, Without(Names(order, config, Plugin), all.plugins)) +
    EmitItems(config, Certificate, Names(order, config, Certificate)) +
    EmitItems(config, Storage, Names(order, config, Storage))
  }

  // ---- reading --------------------------------------------------------------------------

  predicate Labelled(b: HclBlock, c: Category) {
    b.kind == Known(c) && b.name.Some?
  }

  /** The tables of the labelled blocks of one kind; a repeated label overwrites. */
  function TablesIn(blocks: seq<HclBlock>, c: Category): Fields {
    if blocks == [] then map[]
    else
      (if Labelled(blocks[0], c) then map[blocks[0].name.value := Table(blocks[0].body.attrs)] else map[]) +
      TablesIn(blocks[1..], c)
  }

  function LabelsIn(blocks: seq<HclBlock>, c: Category): seq<string> {
    if blocks == [] then []
    else (if Labelled(blocks[0], c) then [blocks[0].name.value] else []) + LabelsIn(blocks[1..], c)
  }

  function AppendNew(all: seq<string>, names: seq<string>): seq<string>
    decreases |names|
  {
    if names == [] then all
    else AppendNew(if names[0] in all then all else all + [names[0]], names[1..])
  }

  /** Completes the `upstream` reference from a nested block. */
  function WithUpstream(attrs: Fields, labels: seq<string>): Fields {
    if labels != [] && UPSTREAM !in attrs then attrs[UPSTREAM := Str(labels[0])] else attrs
  }

  /** Completes a list attribute from nested blocks. */
  function WithList(attrs: Fields, attr: string, labels: seq<string>): Fields {
    if labels == [] then attrs
    else attrs[attr := StringArray(AppendNew(NameList(attrs, attr), labels))]
  }

  function ParseLocation(body: Body): ParsedLocation {
    ParsedLocation(
      WithList(WithUpstream(body.attrs, LabelsIn(body.blocks, Upstream)), PLUGINS, LabelsIn(body.blocks, Plugin)),
      TablesIn(body.blocks, Upstream),
      TablesIn(body.blocks, Plugin))
  }

  /** Lifts the locations of a server, and what is nested in them, block after block. */
  function Lift(blocks: seq<HclBlock>): ParsedServer {
    if blocks == [] then ParsedServer(map[], map[], map[], map[], map[])
    else
      var b, rest := blocks[0], Lift(blocks[1..]);
      if Labelled(b, Location) then
        var p := ParseLocation(b.body);
        rest.(locations := map[b.name.value := Table(p.location)] + rest.locations,
              upstreams := p.upstreams + rest.upstreams,
              plugins := p.plugins + rest.plugins)
      else if Labelled(b, Plugin) then
        rest.(plugins := map[b.name.value := Table(b.body.attrs)] + rest.plugins)
      else if Labelled(b, Certificate) then
        rest.(certificates := map[b.name.value := Table(b.body.attrs)] + rest.certificates)
      else rest
  }

  function ParseServer(body: Body): ParsedServer {
    Lift(body.blocks).(server := WithList(body.attrs, LOCATIONS, LabelsIn(body.blocks, Location)))
  }

  /** A top-level block: an unknown type or a missing name is an error. */
  function ParseBlock(b: HclBlock): Result<Block> {
    if b.kind.Unknown? then Err
    else if b.kind.category.Basic? then Ok(BasicBlock(b.body.attrs))
    else if b.name.None? then Err
    else
      var c := b.kind.category;
      if c.Server? then Ok(ServerBlock(b.name.value, ParseServer(b.body)))
      else if c.Location? then Ok(LocationBlock(b.name.value, ParseLocation(b.body)))
      else Ok(ItemBlock(c, b.name.value, b.body.attrs))
  }

  function ParseAll(doc: seq<HclBlock>): Result<seq<Block>> {
    if doc == [] then Ok([])
    else
      var first := ParseBlock(doc[0]);
      if first.Err? then Err
      else
        var rest := ParseAll(doc[1..]);
        if rest.Err? then Err else Ok([first.value] + rest.value)
  }

  /** Reads a document back into one configuration. */
  ghost function Read(doc: seq<HclBlock>): Result<Config> {
    var blocks := ParseAll(doc);
    if blocks.Err? then Err else Assemble(blocks.value)
  }
}
