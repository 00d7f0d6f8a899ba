/** The two HCL converters, step by step. */
module HclConvert {
  import opened Toml
  import opened Assembly
  import opened Hcl

  /** Writes the plugins of a location and marks them as embedded. */
  method EmbedPlugins(config: Config, names: seq<string>, embedded: set<string>)
    returns (blocks: seq<HclBlock>, after: set<string>)
    ensures blocks == EmitItems(config, Plugin, names)
    ensures after == embedded + set n | n in names
  {
    blocks, after := [], embedded;
    for i := 0 to |names|
      invariant blocks + EmitItems(config, Plugin, names[i..]) == EmitItems(config, Plugin, names)
      invariant forall n :: n in after <==> n in embedded || n in names[..i]
    {
      after := after + {names[i]};
      var item := Item(config, Plugin, names[i]);
      if item.Some? {
        blocks := blocks + [NamedBlock(Plugin, names[i], item.value)];
      }
      assert names[..i + 1] == names[..i] + [names[i]] && names[i..][1..] == names[i + 1..];
    }
    assert names[..|names|] == names;
  }

  /** Writes one location, embedding what nobody has embedded before. */
  method WriteLocation(config: Config, claims: Claims, name: string, loc: Fields)
    returns (block: HclBlock, after: Claims)
    ensures block == HclBlock(Known(Location), Some(name), LocationBody(config, claims, loc))
    ensures after == Claim(config, claims, loc)
  {
    after := claims;
    var skip: set<string> := {};
    var upstream: seq<HclBlock> := [];
    if UPSTREAM in loc && loc[UPSTREAM].Str? && loc[UPSTREAM].text !in claims.upstreams {
      var item := Item(config, Upstream, loc[UPSTREAM].text);
      if item.Some? {
        after := after.(upstreams := claims.upstreams + {loc[UPSTREAM].text});
        skip := {UPSTREAM};
        upstream := [NamedBlock(Upstream, loc[UPSTREAM].text, item.value)];
      }
    }
    var plugins: seq<HclBlock> := [];
    var names := NameList(loc, PLUGINS);
    if names != [] && forall n <- names :: n !in claims.plugins && KeyOf(Plugin, n) in config {
      var embedded;
      plugins, embedded := EmbedPlugins(config, names, claims.plugins);
      after := after.(plugins := embedded);
      skip := skip + {PLUGINS};
    }
    block := HclBlock(Known(Location), Some(name), Body(Attrs(loc - skip), upstream + plugins));
  }

  /** Writes the listed locations that exist. */
  method WriteLocations(config: Config, claims: Claims, names: seq<string>)
    returns (blocks: seq<HclBlock>, after: Claims)
    ensures blocks == EmitLocations(config, claims, names)
    ensures after == ClaimAll(config, claims, names)
  {
    blocks, after := [], claims;
    for i := 0 to |names|
      invariant blocks + EmitLocations(config, after, names[i..]) == EmitLocations(config, claims, names)
      invariant ClaimAll(config, after, names[i..]) == ClaimAll(config, claims, names)
    {
      assert names[i..][1..] == names[i + 1..];
      var loc := Item(config, Location, names[i]);
      if loc.Some? {
        var block;
        block, after := WriteLocation(config, after, names[i], loc.value);
        blocks := blocks + [block];
      }
    }
  }

  method WriteServers(config: Config, names: seq<string>)
    returns (blocks: seq<HclBlock>, after: Claims, embedded: set<string>)
    ensures blocks == EmitServers(config, NoClaims(), names)
    ensures after == ServerClaims(config, NoClaims(), names)
    ensures embedded == Embedded(config, names)
  {
    blocks, after, embedded := [], NoClaims(), {};
    for i := 0 to |names|
      invariant blocks + EmitServers(config, after, names[i..]) == EmitServers(config, NoClaims(), names)
      invariant ServerClaims(config, after, names[i..]) == ServerClaims(config, NoClaims(), names)
      invariant embedded == Embedded(config, names[..i])
    {
      assert names[i..][1..] == names[i + 1..];
      var server := Item(config, Server, names[i]);
      if server.Some? {
        var list := NameList(server.value, LOCATIONS);
        var nested;
        nested, after := WriteLocations(config, after, list);
        blocks := blocks + [HclBlock(Known(Server), Some(names[i]), Body(Attrs(server.value - {LOCATIONS}), nested))];
        embedded := embedded + set l | l in list && Item(config, Location, l).Some?;
      }
      EmbeddedNext(config, names, i);
    }
    assert names[..|names|] == names;
  }

  lemma EmbeddedNext(config: Config, names: seq<string>, i: nat)
    requires i < |names|
    ensures Embedded(config, names[..i + 1]) == Embedded(config, names[..i]) +
            (var server := Item(config, Server, names[i]);
             if server.None? then {}
             else set l | l in NameList(server.value, LOCATIONS) && Item(config, Location, l).Some?)
  {
    assert names[..i + 1] == names[..i] + [names[i]];
  }

  lemma RestNext(config: Config, c: Category, names: seq<string>, embedded: set<string>, i: nat)
    requires i < |names|
    ensures EmitItems(config, c, Without(names[i..], embedded)) ==
            (if names[i] !in embedded && Item(config, c, names[i]).Some?
             then [NamedBlock(c, names[i], Item(config, c, names[i]).value)] else []) +
            EmitItems(config, c, Without(names[i + 1..], embedded))
  {
    var rest := Without(names[i + 1..], embedded);
    assert names[i..][1..] == names[i + 1..];
    if names[i] in embedded {
      assert Without(names[i..], embedded) == rest;
    } else {
      assert Without(names[i..], embedded) == [names[i]] + rest;
      assert ([names[i]] + rest)[1..] == rest;
    }
  }

  /** Writes the items of a section that are not embedded anywhere. */
  method WriteItems(config: Config, c: Category, names: seq<string>, embedded: set<string>)
    returns (blocks: seq<HclBlock>)
    ensures blocks == EmitItems(config, c, Without(names, embedded))
  {
    blocks := [];
    for i := 0 to |names|
      invariant blocks + EmitItems(config, c, Without(names[i..], embedded)) ==
                EmitItems(config, c, Without(names, embedded))
    {
      RestNext(config, c, names, embedded, i);
      ghost var rest := EmitItems(config, c, Without(names[i + 1..], embedded));
      assert [] + rest == rest;
      if names[i] !in embedded {
        var item := Item(config, c, names[i]);
        if item.Some? {
          SeqAssoc(blocks, [NamedBlock(c, names[i], item.value)], rest);
          blocks := blocks + [NamedBlock(c, names[i], item.value)];
        }
      }
    }
  }

  /** The TOML to HCL converter. */
  method ConvertTomlToHcl(order: Order, config: Config) returns (doc: seq<HclBlock>)
    ensures doc == Print(order, config)
  {
    var servers, claims, embedded := WriteServers(config, Names(order, config, Server));
    var top := Without(Names(order, config, Location), embedded);
    var locations, all := WriteLocations(config, claims, top);
    var upstreams := WriteItems(config, Upstream, Names(order, config, Upstream), all.upstreams);
    var plugins := WriteItems(config, Plugin, Names(order, config, Plugin), all.plugins);
    var certificates := WriteItems(config, Certificate, Names(order, config, Certificate), {});
    var storages := WriteItems(config, Storage, Names(order, config, Storage), {});
    WithoutNothing(Names(order, config, Certificate));
    WithoutNothing(Names(order, config, Storage));
    doc := BasicBlocks(config) + servers + locations + upstreams + plugins + certificates + storages;
  }

  // ---- reading --------------------------------------------------------------------------

  lemma MapAssoc<K, V>(a: map<K, V>, b: map<K, V>, c: map<K, V>)
    ensures (a + b) + c == a + (b + c)
  {}

  lemma MapUnit<K, V>(a: map<K, V>)
    ensures a + map[] == a && map[] + a == a
  {}

  lemma SeqAssoc<T>(a: seq<T>, b: seq<T>, c: seq<T>)
    ensures (a + b) + c == a + (b + c)
  {}

  /** The table one block gives for its name, if it is of the kind. */
  function TableIn(b: HclBlock, c: Category): Fields {
    if Labelled(b, c) then map[b.name.value := Table(b.body.attrs)] else map[]
  }

  function LabelIn(b: HclBlock, c: Category): seq<string> {
    if Labelled(b, c) then [b.name.value] else []
  }

  lemma ReadNext(blocks: seq<HclBlock>, c: Category, i: nat, tables: Fields, labels: seq<string>)
    requires i < |blocks|
    ensures tables + TablesIn(blocks[i..], c) == (tables + TableIn(blocks[i], c)) + TablesIn(blocks[i + 1..], c)
    ensures labels + LabelsIn(blocks[i..], c) == (labels + LabelIn(blocks[i], c)) + LabelsIn(blocks[i + 1..], c)
  {
    assert blocks[i..][1..] == blocks[i + 1..];
    MapAssoc(tables, TableIn(blocks[i], c), TablesIn(blocks[i + 1..], c));
    SeqAssoc(labels, LabelIn(blocks[i], c), LabelsIn(blocks[i + 1..], c));
  }

  /** Notes a nested block of the kind; a repeated name overwrites. */
  method Note(b: HclBlock, c: Category, tables: Fields, labels: seq<string>) returns (t: Fields, l: seq<string>)
    ensures t == tables + TableIn(b, c) && l == labels + LabelIn(b, c)
  {
    t, l := tables, labels;
    MapUnit(tables);
    if Labelled(b, c) {
      t, l := tables[b.name.value := Table(b.body.attrs)], labels + [b.name.value];
    }
  }

  method CompleteList(attrs: Fields, attr: string, labels: seq<string>) returns (r: Fields)
    ensures r == WithList(attrs, attr, labels)
  {
    r := attrs;
    if labels != [] {
      var all := NameList(attrs, attr);
      for i := 0 to |labels|
        invariant AppendNew(all, labels[i..]) == AppendNew(NameList(attrs, attr), labels)
      {
        assert labels[i..][1..] == labels[i + 1..];
        if labels[i] !in all {
          all := all + [labels[i]];
        }
      }
      r := r[attr := StringArray(all)];
    }
  }

  /** Reads a location and lifts its nested upstreams and plugins out. */
  method ProcessLocationBlock(body: Body) returns (p: ParsedLocation)
    ensures p == ParseLocation(body)
  {
    var blocks := body.blocks;
    var upstreams: Fields, plugins: Fields := map[], map[];
    var upstreamNames: seq<string>, pluginNames: seq<string> := [], [];
    for i := 0 to |blocks|
      invariant upstreams + TablesIn(blocks[i..], Upstream) == TablesIn(blocks, Upstream)
      invariant upstreamNames + LabelsIn(blocks[i..], Upstream) == LabelsIn(blocks, Upstream)
      invariant plugins + TablesIn(blocks[i..], Plugin) == TablesIn(blocks, Plugin)
      invariant pluginNames + LabelsIn(blocks[i..], Plugin) == LabelsIn(blocks, Plugin)
    {
      ReadNext(blocks, Upstream, i, upstreams, upstreamNames);
      ReadNext(blocks, Plugin, i, plugins, pluginNames);
      upstreams, upstreamNames := Note(blocks[i], Upstream, upstreams, upstreamNames);
      plugins, pluginNames := Note(blocks[i], Plugin, plugins, pluginNames);
    }
    MapUnit(upstreams);
    MapUnit(plugins);
    assert blocks[|blocks|..] == [];
    assert upstreamNames + [] == upstreamNames && pluginNames + [] == pluginNames;
    var location := body.attrs;
    if upstreamNames != [] && UPSTREAM !in location {
      location := location[UPSTREAM := Str(upstreamNames[0])];
    }
    location := CompleteList(location, PLUGINS, pluginNames);
    p := ParsedLocation(location, upstreams, plugins);
  }

  /** What is lifted from the blocks seen so far, overridden by what the rest lifts to. */
  function Over(a: ParsedServer, b: ParsedServer): ParsedServer {
    ParsedServer(a.server, a.locations + b.locations, a.upstreams + b.upstreams, a.plugins + b.plugins,
                 a.certificates + b.certificates)
  }

  lemma OverAssoc(a: ParsedServer, b: ParsedServer, c: ParsedServer)
    ensures Over(Over(a, b), c) == Over(a, Over(b, c))
  {
    MapAssoc(a.locations, b.locations, c.locations);
    MapAssoc(a.upstreams, b.upstreams, c.upstreams);
    MapAssoc(a.plugins, b.plugins, c.plugins);
    MapAssoc(a.certificates, b.certificates, c.certificates);
  }

  /** What one block of a server lifts to. */
  function LiftOne(b: HclBlock): ParsedServer {
    var none := ParsedServer(map[], map[], map[], map[], map[]);
    if Labelled(b, Location) then
      var p := ParseLocation(b.body);
      none.(locations := map[b.name.value := Table(p.location)], upstreams := p.upstreams, plugins := p.plugins)
    else if Labelled(b, Plugin) then none.(plugins := map[b.name.value := Table(b.body.attrs)])
    else if Labelled(b, Certificate) then none.(certificates := map[b.name.value := Table(b.body.attrs)])
    else none
  }

  lemma LiftNext(blocks: seq<HclBlock>, i: nat)
    requires i < |blocks|
    ensures Lift(blocks[i..]) == Over(LiftOne(blocks[i]), Lift(blocks[i + 1..]))
  {
    assert blocks[i..][1..] == blocks[i + 1..];
    var rest := Lift(blocks[i + 1..]);
    LiftsNoServer(blocks[i + 1..]);
    MapUnit(rest.locations);
    MapUnit(rest.upstreams);
    MapUnit(rest.plugins);
    MapUnit(rest.certificates);
  }

  lemma {:induction false} LiftsNoServer(blocks: seq<HclBlock>)
    ensures Lift(blocks).server == map[]
  {
    if blocks != [] { LiftsNoServer(blocks[1..]); }
  }

  /** Reads a server and lifts everything nested in it out. */
  method ProcessServerBlock(body: Body) returns (p: ParsedServer)
    ensures p == ParseServer(body)
  {
    var blocks := body.blocks;
    var lifted := ParsedServer(map[], map[], map[], map[], map[]);
    var names: seq<string> := [];
    LiftsNoServer(blocks);
    OverNothing(Lift(blocks));
    assert blocks[0..] == blocks;
    for i := 0 to |blocks|
      invariant Over(lifted, Lift(blocks[i..])) == Lift(blocks)
      invariant names + LabelsIn(blocks[i..], Location) == LabelsIn(blocks, Location)
    {
      LiftNext(blocks, i);
      OverAssoc(lifted, LiftOne(blocks[i]), Lift(blocks[i + 1..]));
      ReadNext(blocks, Location, i, map[], names);
      lifted, names := LiftBlock(blocks[i], lifted, names);
    }
    OverNothing(lifted);
    assert blocks[|blocks|..] == [] && names + [] == names;
    var server := CompleteList(body.attrs, LOCATIONS, names);
    p := lifted.(server := server);
  }

  lemma OverNothing(a: ParsedServer)
    ensures var none := ParsedServer(map[], map[], map[], map[], map[]);
            Over(a, none) == a && (a.server == map[] ==> Over(none, a) == a)
  {
    MapUnit(a.locations);
    MapUnit(a.upstreams);
    MapUnit(a.plugins);
    MapUnit(a.certificates);
  }

  method LiftBlock(b: HclBlock, lifted: ParsedServer, names: seq<string>) returns (r: ParsedServer, l: seq<string>)
    ensures r == Over(lifted, LiftOne(b)) && l == names + LabelIn(b, Location)
  {
    r, l := lifted, names;
    OverNothing(lifted);
    if Labelled(b, Location) {
      l := l + [b.name.value];
      var parsed := ProcessLocationBlock(b.body);
      r := r.(locations := r.locations[b.name.value := Table(parsed.location)],
              upstreams := r.upstreams + parsed.upstreams, plugins := r.plugins + parsed.plugins);
    } else if Labelled(b, Plugin) {
      r := r.(plugins := r.plugins[b.name.value := Table(b.body.attrs)]);
    } else if Labelled(b, Certificate) {
      r := r.(certificates := r.certificates[b.name.value := Table(b.body.attrs)]);
    }
  }

  function After(done: seq<Block>, rest: Result<seq<Block>>): Result<seq<Block>> {
    if rest.Err? then Err else Ok(done + rest.value)
  }

  lemma ParseNext(doc: seq<HclBlock>, i: nat, done: seq<Block>)
    requires i < |doc|
    ensures After(done, ParseAll(doc[i..])) ==
            if ParseBlock(doc[i]).Err? then Err else After(done + [ParseBlock(doc[i]).value], ParseAll(doc[i + 1..]))
  {
    var rest := ParseAll(doc[i + 1..]);
    assert doc[i..][1..] == doc[i + 1..];
    if ParseBlock(doc[i]).Ok? && rest.Ok? { SeqAssoc(done, [ParseBlock(doc[i]).value], rest.value); }
  }

  /** The HCL to TOML converter: an unknown block, a missing name or a duplicate entry is an error. */
  method ConvertHclToToml(doc: seq<HclBlock>) returns (r: Result<Config>)
    ensures r == Read(doc)
  {
    var blocks: seq<Block> := [];
    assert doc[0..] == doc && (ParseAll(doc).Ok? ==> [] + ParseAll(doc).value == ParseAll(doc).value);
    for i := 0 to |doc|
      invariant ParseAll(doc) == After(blocks, ParseAll(doc[i..]))
    {
      ParseNext(doc, i, blocks);
      var block := ParseTopBlock(doc[i]);
      if block.Err? {
        return Err;
      }
      blocks := blocks + [block.value];
    }
    assert doc[|doc|..] == [] && blocks + [] == blocks;
    r := AssembleToml(blocks);
  }

  method ParseTopBlock(b: HclBlock) returns (r: Result<Block>)
    ensures r == ParseBlock(b)
  {
    match b.kind
    case Unknown => return Err;
    case Known(c) =>
      if c.Basic? {
        return Ok(BasicBlock(b.body.attrs));
      } else if b.name.None? {
        return Err;
      } else if c.Server? {
        var p := ProcessServerBlock(b.body);
        return Ok(ServerBlock(b.name.value, p));
      } else if c.Location? {
        var p := ProcessLocationBlock(b.body);
        return Ok(LocationBlock(b.name.value, p));
      } else {
        return Ok(ItemBlock(c, b.name.value, b.body.attrs));
      }
  }
}
