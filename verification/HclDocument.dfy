/** Reading back a whole printed document: exactly when it gives the configuration again. */
module HclDocument {
  import opened Toml
  import opened Assembly
  import opened Hcl
  import opened HclRoundTrip

  // ---- what is claimed, and when --------------------------------------------------------

  /** The claims in force when a location of the list is written (for the last time). */
  function ClaimsAt(config: Config, claims: Claims, names: seq<string>, l: string): Option<Claims>
    decreases |names|
  {
    if names == [] then None
    else
      var loc := Item(config, Location, names[0]);
      if loc.None? then ClaimsAt(config, claims, names[1..], l)
      else
        var later := ClaimsAt(config, Claim(config, claims, loc.value), names[1..], l);
        if later.Some? then later else if names[0] == l then Some(claims) else None
  }

  lemma {:induction false} ClaimsAtIff(config: Config, claims: Claims, names: seq<string>, l: string)
    ensures ClaimsAt(config, claims, names, l).Some? <==> l in names && Item(config, Location, l).Some?
    decreases |names|
  {
    if names != [] {
      var loc := Item(config, Location, names[0]);
      ClaimsAtIff(config, if loc.None? then claims else Claim(config, claims, loc.value), names[1..], l);
    }
  }

  lemma {:induction false} ClaimsGrow(config: Config, claims: Claims, names: seq<string>)
    ensures claims.upstreams <= ClaimAll(config, claims, names).upstreams
    ensures claims.plugins <= ClaimAll(config, claims, names).plugins
    decreases |names|
  {
    if names != [] {
      var loc := Item(config, Location, names[0]);
      ClaimsGrow(config, if loc.None? then claims else Claim(config, claims, loc.value), names[1..]);
    }
  }

  lemma {:induction false} ServerClaimsGrow(config: Config, claims: Claims, names: seq<string>)
    ensures claims.upstreams <= ServerClaims(config, claims, names).upstreams
    ensures claims.plugins <= ServerClaims(config, claims, names).plugins
    decreases |names|
  {
    if names != [] {
      var server := Item(config, Server, names[0]);
      if server.None? {
        ServerClaimsGrow(config, claims, names[1..]);
      } else {
        var list := NameList(server.value, LOCATIONS);
        ClaimsGrow(config, claims, list);
        ServerClaimsGrow(config, ClaimAll(config, claims, list), names[1..]);
      }
    }
  }

  // ---- one server -----------------------------------------------------------------------

  function LocationAt(config: Config, at: Option<Claims>, l: string): Option<Value> {
    if at.Some? && Item(config, Location, l).Some?
    then Some(Table(ReadLocation(config, at.value, Item(config, Location, l).value).location))
    else None
  }

  /** What a list of written locations lifts to, for one name. */
  ghost predicate Lifts(config: Config, p: ParsedServer, before: Claims, after: Claims, at: Option<Claims>, n: string) {
    && Field(p.upstreams, n) == ReadBack(config, Upstream, n, n in after.upstreams - before.upstreams)
    && Field(p.plugins, n) == ReadBack(config, Plugin, n, n in after.plugins - before.plugins)
    && Field(p.locations, n) == LocationAt(config, at, n)
    && p.certificates == map[]
  }

  lemma LiftStep(config: Config, claims: Claims, name: string, loc: Fields, rest: seq<HclBlock>,
                 after: Claims, later: Option<Claims>, n: string)
    requires Item(config, Location, name) == Some(loc)
    requires Lifts(config, Lift(rest), Claim(config, claims, loc), after, later, n)
    requires Claim(config, claims, loc).upstreams <= after.upstreams
    requires Claim(config, claims, loc).plugins <= after.plugins
    requires later.Some? ==> Item(config, Location, n).Some?
    ensures var b := HclBlock(Known(Location), Some(name), LocationBody(config, claims, loc));
            Lifts(config, Lift([b] + rest), claims, after,
                  if later.Some? then later else if name == n then Some(claims) else None, n)
  {
    var b := HclBlock(Known(Location), Some(name), LocationBody(config, claims, loc));
    assert ([b] + rest)[1..] == rest;
    LocationBringsClaims(config, claims, loc, n);
  }

  lemma {:induction false} LocationsLift(config: Config, claims: Claims, names: seq<string>, n: string)
    ensures Lifts(config, Lift(EmitLocations(config, claims, names)), claims, ClaimAll(config, claims, names),
                  ClaimsAt(config, claims, names, n), n)
    decreases |names|
  {
    if names != [] {
      var loc := Item(config, Location, names[0]);
      if loc.None? {
        LocationsLift(config, claims, names[1..], n);
      } else {
        var next := Claim(config, claims, loc.value);
        LocationsLift(config, next, names[1..], n);
        ClaimsGrow(config, next, names[1..]);
        ClaimsAtIff(config, next, names[1..], n);
        LiftStep(config, claims, names[0], loc.value, EmitLocations(config, next, names[1..]),
                 ClaimAll(config, next, names[1..]), ClaimsAt(config, next, names[1..], n), n);
      }
    }
  }

  lemma {:induction false} LocationLabels(config: Config, claims: Claims, names: seq<string>)
    ensures LabelsIn(EmitLocations(config, claims, names), Location) == Existing(config, Location, names)
    decreases |names|
  {
    if names != [] {
      var loc := Item(config, Location, names[0]);
      if loc.None? {
        LocationLabels(config, claims, names[1..]);
      } else {
        var next := Claim(config, claims, loc.value);
        LocationLabels(config, next, names[1..]);
        PrependBlock(HclBlock(Known(Location), Some(names[0]), LocationBody(config, claims, loc.value)),
                     EmitLocations(config, next, names[1..]), Location, "");
      }
    }
  }

  function ReadServer(config: Config, claims: Claims, server: Fields): ParsedServer {
    ParseServer(ServerBody(config, claims, server))
  }

  /** A server reads back with the list of the locations that were written inside it. */
  function ServerTable(config: Config, server: Fields): Fields {
    WithList(Attrs(server - {LOCATIONS}), LOCATIONS, Existing(config, Location, NameList(server, LOCATIONS)))
  }

  lemma ServerReads(config: Config, claims: Claims, server: Fields, n: string)
    ensures ReadServer(config, claims, server).server == ServerTable(config, server)
    ensures var names := NameList(server, LOCATIONS);
            Lifts(config, ReadServer(config, claims, server), claims, ClaimAll(config, claims, names),
                  ClaimsAt(config, claims, names, n), n)
  {
    LocationLabels(config, claims, NameList(server, LOCATIONS));
    LocationsLift(config, claims, NameList(server, LOCATIONS), n);
  }

  /** Nothing nested, and a list of locations, if any, that is clean and not empty. */
  predicate ServerKept(config: Config, server: Fields) {
    && FlatFields(server)
    && (LOCATIONS in server ==>
          CleanList(config, Location, server[LOCATIONS]) && NameList(server, LOCATIONS) != [])
  }

  lemma ListAttrKeptIff(config: Config, server: Fields)
    requires LOCATIONS in server
    ensures Field(ServerTable(config, server), LOCATIONS) == Some(server[LOCATIONS]) <==>
            CleanList(config, Location, server[LOCATIONS]) && NameList(server, LOCATIONS) != []
  {
    var v, names := server[LOCATIONS], NameList(server, LOCATIONS);
    if v.Arr? { ListRestoredIff(config, Location, v); }
    if CleanList(config, Location, v) { ExistingAll(config, Location, names); }
  }

  lemma ServerKeptIff(config: Config, server: Fields)
    ensures ServerTable(config, server) == server <==> ServerKept(config, server)
  {
    var got := ServerTable(config, server);
    SameFieldsIff(got, server);
    if LOCATIONS in server {
      ListAttrKeptIff(config, server);
      if CleanList(config, Location, server[LOCATIONS]) { CleanIsFlat(config, Location, server[LOCATIONS]); }
    }
    forall a | a != LOCATIONS
      ensures Field(got, a) == Field(server, a) <==> (a in server ==> Flat(server[a]))
    {
      if a in server { FlatIffStable(server[a]); }
    }
    assert LOCATIONS !in server ==> NameList(server, LOCATIONS) == [];
    assert got == server ==> forall a :: Field(got, a) == Field(server, a);
  }

  // ---- the blocks of a document ---------------------------------------------------------

  function ServerBlocks(config: Config, claims: Claims, names: seq<string>): seq<Block>
    decreases |names|
  {
    if names == [] then []
    else
      var server := Item(config, Server, names[0]);
      if server.None? then ServerBlocks(config, claims, names[1..])
      else
        [ServerBlock(names[0], ReadServer(config, claims, server.value))] +
        ServerBlocks(config, ClaimAll(config, claims, NameList(server.value, LOCATIONS)), names[1..])
  }

  function LocationBlocks(config: Config, claims: Claims, names: seq<string>): seq<Block>
    decreases |names|
  {
    if names == [] then []
    else
      var loc := Item(config, Location, names[0]);
      if loc.None? then LocationBlocks(config, claims, names[1..])
      else
        [LocationBlock(names[0], ReadLocation(config, claims, loc.value))] +
        LocationBlocks(config, Claim(config, claims, loc.value), names[1..])
  }

  function ItemBlocks(config: Config, c: Category, names: seq<string>): seq<Block> {
    if names == [] then []
    else
      (if Item(config, c, names[0]).None? then []
       else [ItemBlock(c, names[0], Attrs(Item(config, c, names[0]).value))]) +
      ItemBlocks(config, c, names[1..])
  }

  lemma ParseCons(b: HclBlock, rest: seq<HclBlock>)
    requires ParseBlock(b).Ok? && ParseAll(rest).Ok?
    ensures ParseAll([b] + rest) == Ok([ParseBlock(b).value] + ParseAll(rest).value)
  {
    assert ([b] + rest)[1..] == rest;
  }

  lemma ConsAppend<T>(x: T, a: seq<T>, b: seq<T>)
    ensures [x] + (a + b) == ([x] + a) + b
  {}

  lemma {:induction false} ParseAppend(a: seq<HclBlock>, b: seq<HclBlock>)
    requires ParseAll(a).Ok? && ParseAll(b).Ok?
    ensures ParseAll(a + b) == Ok(ParseAll(a).value + ParseAll(b).value)
  {
    if a == [] {
      assert a + b == b;
      assert ParseAll(a).value + ParseAll(b).value == ParseAll(b).value;
    } else {
      ParseAppend(a[1..], b);
      assert (a + b)[1..] == a[1..] + b;
      ConsAppend(ParseBlock(a[0]).value, ParseAll(a[1..]).value, ParseAll(b).value);
    }
  }

  lemma {:induction false} ServersParse(config: Config, claims: Claims, names: seq<string>)
    ensures ParseAll(EmitServers(config, claims, names)) == Ok(ServerBlocks(config, claims, names))
    decreases |names|
  {
    if names != [] {
      var server := Item(config, Server, names[0]);
      if server.None? {
        ServersParse(config, claims, names[1..]);
      } else {
        var next := ClaimAll(config, claims, NameList(server.value, LOCATIONS));
        ServersParse(config, next, names[1..]);
        ParseCons(HclBlock(Known(Server), Some(names[0]), ServerBody(config, claims, server.value)),
                  EmitServers(config, next, names[1..]));
      }
    }
  }

  lemma {:induction false} LocationsParse(config: Config, claims: Claims, names: seq<string>)
    ensures ParseAll(EmitLocations(config, claims, names)) == Ok(LocationBlocks(config, claims, names))
    decreases |names|
  {
    if names != [] {
      var loc := Item(config, Location, names[0]);
      if loc.None? {
        LocationsParse(config, claims, names[1..]);
      } else {
        var next := Claim(config, claims, loc.value);
        LocationsParse(config, next, names[1..]);
        ParseCons(HclBlock(Known(Location), Some(names[0]), LocationBody(config, claims, loc.value)),
                  EmitLocations(config, next, names[1..]));
      }
    }
  }

  lemma {:induction false} ItemsParse(config: Config, c: Category, names: seq<string>)
    requires c in {Upstream, Plugin, Certificate, Storage}
    ensures ParseAll(EmitItems(config, c, names)) == Ok(ItemBlocks(config, c, names))
  {
    if names != [] {
      ItemsParse(config, c, names[1..]);
      var item := Item(config, c, names[0]);
      if item.Some? {
        ParseCons(NamedBlock(c, names[0], item.value), EmitItems(config, c, names[1..]));
      } else {
        assert EmitItems(config, c, names) == EmitItems(config, c, names[1..]);
        assert ItemBlocks(config, c, names) == ItemBlocks(config, c, names[1..]);
      }
    }
  }

  // ---- who speaks about an entry --------------------------------------------------------

  /** No block says anything, or exactly one does and this is what it says. */
  ghost predicate Speaks(blocks: seq<Block>, k: Key, v: Option<Value>) {
    First(blocks, k) == v && Count(blocks, k) == if v.Some? then 1 else 0
  }

  lemma SpeaksCons(x: Block, rest: seq<Block>, k: Key, v: Option<Value>)
    requires Speaks(rest, k, v) && (Says(x, k).None? || v.None?)
    ensures Speaks([x] + rest, k, if Says(x, k).Some? then Says(x, k) else v)
  {
    assert ([x] + rest)[1..] == rest;
  }

  /** The claims a location is written under by the servers, if one of them lists it. */
  function ServerClaimsAt(config: Config, claims: Claims, names: seq<string>, l: string): Option<Claims>
    decreases |names|
  {
    if names == [] then None
    else
      var server := Item(config, Server, names[0]);
      if server.None? then ServerClaimsAt(config, claims, names[1..], l)
      else
        var list := NameList(server.value, LOCATIONS);
        var at := ClaimsAt(config, claims, list, l);
        if at.Some? then at else ServerClaimsAt(config, ClaimAll(config, claims, list), names[1..], l)
  }

  predicate Lists(config: Config, s: string, l: string) {
    && Item(config, Server, s).Some?
    && l in NameList(Item(config, Server, s).value, LOCATIONS)
    && Item(config, Location, l).Some?
  }

  function ListCount(config: Config, names: seq<string>, l: string): nat {
    if names == [] then 0 else (if Lists(config, names[0], l) then 1 else 0) + ListCount(config, names[1..], l)
  }

  lemma {:induction false} ServersOnServer(config: Config, claims: Claims, names: seq<string>, n: string)
    requires Distinct(names)
    ensures Speaks(ServerBlocks(config, claims, names), KeyOf(Server, n),
                   if n in names && Item(config, Server, n).Some?
                   then Some(Table(ServerTable(config, Item(config, Server, n).value))) else None)
    decreases |names|
  {
    if names != [] {
      var server := Item(config, Server, names[0]);
      assert names[0] !in names[1..];
      if server.None? {
        ServersOnServer(config, claims, names[1..], n);
      } else {
        var next := ClaimAll(config, claims, NameList(server.value, LOCATIONS));
        ServersOnServer(config, next, names[1..], n);
        ServerReads(config, claims, server.value, n);
        SpeaksCons(ServerBlock(names[0], ReadServer(config, claims, server.value)),
                   ServerBlocks(config, next, names[1..]), KeyOf(Server, n),
                   if n in names[1..] && Item(config, Server, n).Some?
                   then Some(Table(ServerTable(config, Item(config, Server, n).value))) else None);
      }
    }
  }

  lemma {:induction false} ServersOnLocation(config: Config, claims: Claims, names: seq<string>, l: string)
    ensures First(ServerBlocks(config, claims, names), KeyOf(Location, l)) ==
            LocationAt(config, ServerClaimsAt(config, claims, names, l), l)
    ensures Count(ServerBlocks(config, claims, names), KeyOf(Location, l)) == ListCount(config, names, l)
    decreases |names|
  {
    if names != [] {
      var server := Item(config, Server, names[0]);
      if server.None? {
        ServersOnLocation(config, claims, names[1..], l);
      } else {
        var list := NameList(server.value, LOCATIONS);
        var next := ClaimAll(config, claims, list);
        ServersOnLocation(config, next, names[1..], l);
        ServerReads(config, claims, server.value, l);
        ClaimsAtIff(config, claims, list, l);
        CountAppend([ServerBlock(names[0], ReadServer(config, claims, server.value))],
                    ServerBlocks(config, next, names[1..]), KeyOf(Location, l));
      }
    }
  }

  /** The part of the claims that concerns upstreams or plugins. */
  function Claimed(claims: Claims, c: Category): set<string> {
    if c.Upstream? then claims.upstreams else if c.Plugin? then claims.plugins else {}
  }

  lemma {:induction false} ServersOnClaims(config: Config, claims: Claims, names: seq<string>, c: Category, n: string)
    requires c in {Upstream, Plugin}
    ensures Speaks(ServerBlocks(config, claims, names), KeyOf(c, n),
                   ReadBack(config, c, n, n in Claimed(ServerClaims(config, claims, names), c) - Claimed(claims, c)))
    decreases |names|
  {
    if names != [] {
      var server := Item(config, Server, names[0]);
      if server.None? {
        ServersOnClaims(config, claims, names[1..], c, n);
      } else {
        var list := NameList(server.value, LOCATIONS);
        var next := ClaimAll(config, claims, list);
        ServersOnClaims(config, next, names[1..], c, n);
        ServerReads(config, claims, server.value, n);
        ClaimsGrow(config, claims, list);
        ServerClaimsGrow(config, next, names[1..]);
        SpeaksCons(ServerBlock(names[0], ReadServer(config, claims, server.value)),
                   ServerBlocks(config, next, names[1..]), KeyOf(c, n),
                   ReadBack(config, c, n, n in Claimed(ServerClaims(config, next, names[1..]), c) - Claimed(next, c)));
      }
    }
  }

  lemma {:induction false} ServersSilent(config: Config, claims: Claims, names: seq<string>, k: Key)
    requires k.category in {Basic, Certificate, Storage}
    ensures Speaks(ServerBlocks(config, claims, names), k, None)
    decreases |names|
  {
    if names != [] {
      var server := Item(config, Server, names[0]);
      if server.None? {
        ServersSilent(config, claims, names[1..], k);
      } else {
        var next := ClaimAll(config, claims, NameList(server.value, LOCATIONS));
        ServersSilent(config, next, names[1..], k);
        ServerReads(config, claims, server.value, k.name);
        SpeaksCons(ServerBlock(names[0], ReadServer(config, claims, server.value)),
                   ServerBlocks(config, next, names[1..]), k, None);
      }
    }
  }

  lemma {:induction false} LocationsOnLocation(config: Config, claims: Claims, names: seq<string>, l: string)
    requires Distinct(names)
    ensures Speaks(LocationBlocks(config, claims, names), KeyOf(Location, l),
                   LocationAt(config, ClaimsAt(config, claims, names, l), l))
    decreases |names|
  {
    if names != [] {
      var loc := Item(config, Location, names[0]);
      assert names[0] !in names[1..];
      if loc.None? {
        LocationsOnLocation(config, claims, names[1..], l);
      } else {
        var next := Claim(config, claims, loc.value);
        LocationsOnLocation(config, next, names[1..], l);
        ClaimsAtIff(config, next, names[1..], l);
        SpeaksCons(LocationBlock(names[0], ReadLocation(config, claims, loc.value)),
                   LocationBlocks(config, next, names[1..]), KeyOf(Location, l),
                   LocationAt(config, ClaimsAt(config, next, names[1..], l), l));
      }
    }
  }

  lemma {:induction false} LocationsOnClaims(config: Config, claims: Claims, names: seq<string>, c: Category, n: string)
    requires c in {Upstream, Plugin}
    ensures Speaks(LocationBlocks(config, claims, names), KeyOf(c, n),
                   ReadBack(config, c, n, n in Claimed(ClaimAll(config, claims, names), c) - Claimed(claims, c)))
    decreases |names|
  {
    if names != [] {
      var loc := Item(config, Location, names[0]);
      if loc.None? {
        LocationsOnClaims(config, claims, names[1..], c, n);
      } else {
        var next := Claim(config, claims, loc.value);
        LocationsOnClaims(config, next, names[1..], c, n);
        LocationBringsClaims(config, claims, loc.value, n);
        ClaimsGrow(config, next, names[1..]);
        SpeaksCons(LocationBlock(names[0], ReadLocation(config, claims, loc.value)),
                   LocationBlocks(config, next, names[1..]), KeyOf(c, n),
                   ReadBack(config, c, n, n in Claimed(ClaimAll(config, next, names[1..]), c) - Claimed(next, c)));
      }
    }
  }

  lemma {:induction false} LocationsSilent(config: Config, claims: Claims, names: seq<string>, k: Key)
    requires k.category !in {Location, Upstream, Plugin}
    ensures Speaks(LocationBlocks(config, claims, names), k, None)
    decreases |names|
  {
    if names != [] {
      var loc := Item(config, Location, names[0]);
      if loc.None? {
        LocationsSilent(config, claims, names[1..], k);
      } else {
        var next := Claim(config, claims, loc.value);
        LocationsSilent(config, next, names[1..], k);
        SpeaksCons(LocationBlock(names[0], ReadLocation(config, claims, loc.value)),
                   LocationBlocks(config, next, names[1..]), k, None);
      }
    }
  }

  lemma {:induction false} ItemsSpeak(config: Config, c: Category, names: seq<string>, k: Key)
    requires c in {Upstream, Plugin, Certificate, Storage} && Distinct(names)
    ensures Speaks(ItemBlocks(config, c, names), k,
                   if k.category == c then ReadBack(config, c, k.name, k.name in names) else None)
  {
    if names != [] {
      assert names[0] !in names[1..];
      ItemsSpeak(config, c, names[1..], k);
      var item := Item(config, c, names[0]);
      if item.Some? {
        SpeaksCons(ItemBlock(c, names[0], Attrs(item.value)), ItemBlocks(config, c, names[1..]), k,
                   if k.category == c then ReadBack(config, c, k.name, k.name in names[1..]) else None);
      } else {
        assert ItemBlocks(config, c, names) == ItemBlocks(config, c, names[1..]);
      }
    }
  }

  // ---- the whole document ---------------------------------------------------------------

  function BasicEntry(config: Config): Option<Value> {
    var basic := Item(config, Basic, "");
    if basic.Some? && basic.value != map[] then Some(Table(Attrs(basic.value))) else None
  }

  /** The parsed top-level blocks of the printed document, group by group. */
  function DocumentBlocks(order: Order, config: Config): seq<Block> {
    var servers := Names(order, config, Server);
    var all := AllClaims(order, config);
    (if BasicEntry(config).Some? then [BasicBlock(BasicEntry(config).value.entries)] else []) +
    ServerBlocks(config, NoClaims(), servers) +
    LocationBlocks(config, ServerClaims(config, NoClaims(), servers), Unlisted(order, config)) +
    ItemBlocks(config, Upstream, Without(Names(order, config, Upstream), all.upstreams)) +
    ItemBlocks(config, Plugin, Without(Names(order, config, Plugin), all.plugins)) +
    ItemBlocks(config, Certificate, Names(order, config, Certificate)) +
    ItemBlocks(config, Storage, Names(order, config, Storage))
  }

  lemma BasicParses(config: Config)
    ensures ParseAll(BasicBlocks(config)) ==
            Ok(if BasicEntry(config).Some? then [BasicBlock(BasicEntry(config).value.entries)] else [])
  {
    if BasicEntry(config).Some? {
      assert BasicBlocks(config)[1..] == [];
      assert [BasicBlock(BasicEntry(config).value.entries)] + [] == [BasicBlock(BasicEntry(config).value.entries)];
    }
  }

  lemma AppendSeven(a: seq<HclBlock>, b: seq<HclBlock>, c: seq<HclBlock>, d: seq<HclBlock>,
                    e: seq<HclBlock>, f: seq<HclBlock>, g: seq<HclBlock>)
    requires ParseAll(a).Ok? && ParseAll(b).Ok? && ParseAll(c).Ok? && ParseAll(d).Ok?
    requires ParseAll(e).Ok? && ParseAll(f).Ok? && ParseAll(g).Ok?
    ensures ParseAll(a + b + c + d + e + f + g) ==
            Ok(ParseAll(a).value + ParseAll(b).value + ParseAll(c).value + ParseAll(d).value + ParseAll(e).value +
               ParseAll(f).value + ParseAll(g).value)
  {
    ParseAppend(a, b);
    ParseAppend(a + b, c);
    ParseAppend(a + b + c, d);
    ParseAppend(a + b + c + d, e);
    ParseAppend(a + b + c + d + e, f);
    ParseAppend(a + b + c + d + e + f, g);
  }

  /** A printed document always parses. */
  lemma PrintParses(order: Order, config: Config)
    ensures ParseAll(Print(order, config)) == Ok(DocumentBlocks(order, config))
  {
    var servers := Names(order, config, Server);
    var claims := ServerClaims(config, NoClaims(), servers);
    var all := AllClaims(order, config);
    var ups := Without(Names(order, config, Upstream), all.upstreams);
    var plugins := Without(Names(order, config, Plugin), all.plugins);
    BasicParses(config);
    ServersParse(config, NoClaims(), servers);
    LocationsParse(config, claims, Unlisted(order, config));
    ItemsParse(config, Upstream, ups);
    ItemsParse(config, Plugin, plugins);
    ItemsParse(config, Certificate, Names(order, config, Certificate));
    ItemsParse(config, Storage, Names(order, config, Storage));
    AppendSeven(BasicBlocks(config), EmitServers(config, NoClaims(), servers),
                EmitLocations(config, claims, Unlisted(order, config)), EmitItems(config, Upstream, ups),
                EmitItems(config, Plugin, plugins), EmitItems(config, Certificate, Names(order, config, Certificate)),
                EmitItems(config, Storage, Names(order, config, Storage)));
  }

  lemma {:induction false} WithoutMembers(names: seq<string>, drop: set<string>)
    ensures forall n :: n in Without(names, drop) <==> n in names && n !in drop
  {
    if names != [] {
      WithoutMembers(names[1..], drop);
      assert names == [names[0]] + names[1..];
      if names[0] in drop { assert Without(names, drop) == Without(names[1..], drop); }
    }
  }

  lemma {:induction false} WithoutDistinct(names: seq<string>, drop: set<string>)
    requires Distinct(names)
    ensures Distinct(Without(names, drop))
  {
    if names != [] {
      var rest := Without(names[1..], drop);
      assert Distinct(names[1..]);
      WithoutDistinct(names[1..], drop);
      if names[0] in drop {
        assert Without(names, drop) == rest;
      } else {
        WithoutMembers(names[1..], drop);
        DistinctAppend([names[0]], rest);
      }
    }
  }

  lemma NamesList(order: Order, config: Config, c: Category, n: string)
    requires ValidOrder(order) && !c.Basic?
    ensures Distinct(Names(order, config, c))
    ensures n in Names(order, config, c) <==> KeyOf(c, n) in config
  {
    var section := Section(config, c);
    assert Enumerates(order(section.Keys), section.Keys);
    if KeyOf(c, n) in config { assert n in section; }
    if n in section {
      var k: Key :| k in config && k.category == c && k.name == n;
      assert k == KeyOf(c, n);
    }
  }

  lemma {:induction false} ListedIff(config: Config, claims: Claims, names: seq<string>, l: string)
    ensures ServerClaimsAt(config, claims, names, l).Some? <==> l in Embedded(config, names)
    ensures ListCount(config, names, l) > 0 <==> l in Embedded(config, names)
    decreases |names|
  {
    if names != [] {
      var server := Item(config, Server, names[0]);
      if server.None? {
        ListedIff(config, claims, names[1..], l);
      } else {
        var list := NameList(server.value, LOCATIONS);
        ListedIff(config, ClaimAll(config, claims, list), names[1..], l);
        ClaimsAtIff(config, claims, list, l);
      }
      assert l in Embedded(config, names) <==> Lists(config, names[0], l) || l in Embedded(config, names[1..]);
    }
  }

  /** The claims in force when a location is written. */
  function WrittenUnder(order: Order, config: Config, l: string): Option<Claims> {
    var servers := Names(order, config, Server);
    var at := ServerClaimsAt(config, NoClaims(), servers, l);
    if at.Some? then at
    else ClaimsAt(config, ServerClaims(config, NoClaims(), servers), Unlisted(order, config), l)
  }

  /** What one entry of a printed configuration reads back as. */
  function Entry(order: Order, config: Config, k: Key): Option<Value> {
    match k.category
    case Basic => BasicEntry(config)
    case Server =>
      if Item(config, Server, k.name).Some?
      then Some(Table(ServerTable(config, Item(config, Server, k.name).value))) else None
    case Location => LocationAt(config, WrittenUnder(order, config, k.name), k.name)
    case _ => ReadBack(config, k.category, k.name, true)
  }

  lemma {:induction false} SpeaksSeven(a: seq<Block>, b: seq<Block>, c: seq<Block>, d: seq<Block>,
                                       e: seq<Block>, f: seq<Block>, g: seq<Block>, k: Key)
    ensures var all := a + b + c + d + e + f + g;
            && Count(all, k) ==
               Count(a, k) + Count(b, k) + Count(c, k) + Count(d, k) + Count(e, k) + Count(f, k) + Count(g, k)
            && First(all, k) ==
               if First(a, k).Some? then First(a, k) else if First(b, k).Some? then First(b, k)
               else if First(c, k).Some? then First(c, k) else if First(d, k).Some? then First(d, k)
               else if First(e, k).Some? then First(e, k) else if First(f, k).Some? then First(f, k) else First(g, k)
  {
    CountAppend(a, b, k);
    CountAppend(a + b, c, k);
    CountAppend(a + b + c, d, k);
    CountAppend(a + b + c + d, e, k);
    CountAppend(a + b + c + d + e, f, k);
    CountAppend(a + b + c + d + e + f, g, k);
  }

  /** The servers' blocks, for an entry that is not a location. */
  function ServersSay(order: Order, config: Config, k: Key): Option<Value> {
    var servers := Names(order, config, Server);
    var after := ServerClaims(config, NoClaims(), servers);
    match k.category
    case Server => Entry(order, config, k)
    case Upstream => ReadBack(config, Upstream, k.name, k.name in after.upstreams)
    case Plugin => ReadBack(config, Plugin, k.name, k.name in after.plugins)
    case _ => None
  }

  lemma {:induction false} ServersSpeak(order: Order, config: Config, k: Key)
    requires ValidOrder(order) && !k.category.Location?
    ensures Speaks(ServerBlocks(config, NoClaims(), Names(order, config, Server)), k, ServersSay(order, config, k))
  {
    var servers := Names(order, config, Server);
    NamesList(order, config, Server, k.name);
    assert k == KeyOf(k.category, k.name);
    if k.category.Server? {
      ServersOnServer(config, NoClaims(), servers, k.name);
    } else if k.category in {Upstream, Plugin} {
      ServersOnClaims(config, NoClaims(), servers, k.category, k.name);
    } else {
      ServersSilent(config, NoClaims(), servers, k);
    }
  }

  function LocationsSay(order: Order, config: Config, k: Key): Option<Value> {
    var before := ServerClaims(config, NoClaims(), Names(order, config, Server));
    var after := AllClaims(order, config);
    match k.category
    case Location => LocationAt(config, ClaimsAt(config, before, Unlisted(order, config), k.name), k.name)
    case Upstream => ReadBack(config, Upstream, k.name, k.name in after.upstreams - before.upstreams)
    case Plugin => ReadBack(config, Plugin, k.name, k.name in after.plugins - before.plugins)
    case _ => None
  }

  lemma {:induction false} LocationsSpeak(order: Order, config: Config, k: Key)
    requires ValidOrder(order)
    ensures var claims := ServerClaims(config, NoClaims(), Names(order, config, Server));
            Speaks(LocationBlocks(config, claims, Unlisted(order, config)), k, LocationsSay(order, config, k))
  {
    var claims := ServerClaims(config, NoClaims(), Names(order, config, Server));
    NamesList(order, config, Location, k.name);
    WithoutDistinct(Names(order, config, Location), Embedded(config, Names(order, config, Server)));
    assert k == KeyOf(k.category, k.name);
    if k.category.Location? {
      LocationsOnLocation(config, claims, Unlisted(order, config), k.name);
    } else if k.category in {Upstream, Plugin} {
      LocationsOnClaims(config, claims, Unlisted(order, config), k.category, k.name);
    } else {
      LocationsSilent(config, claims, Unlisted(order, config), k);
    }
  }

  /** The plain items left over for the top level. */
  lemma {:induction false} RestSpeaks(order: Order, config: Config, c: Category, drop: set<string>, k: Key)
    requires ValidOrder(order) && c in {Upstream, Plugin, Certificate, Storage}
    ensures Speaks(ItemBlocks(config, c, Without(Names(order, config, c), drop)), k,
                   if k.category == c then ReadBack(config, c, k.name, k.name !in drop) else None)
  {
    NamesList(order, config, c, k.name);
    WithoutMembers(Names(order, config, c), drop);
    WithoutDistinct(Names(order, config, c), drop);
    ItemsSpeak(config, c, Without(Names(order, config, c), drop), k);
  }

  lemma {:induction false} BasicSpeaks(config: Config, k: Key)
    ensures Speaks(if BasicEntry(config).Some? then [BasicBlock(BasicEntry(config).value.entries)] else [], k,
                   if k.category.Basic? then BasicEntry(config) else None)
  {}

  /** Counts and first speakers over the whole document. */
  lemma {:induction false} DocumentSums(order: Order, config: Config, k: Key)
    requires ValidOrder(order)
    ensures var servers := ServerBlocks(config, NoClaims(), Names(order, config, Server));
            var say := LocationsSay(order, config, k);
            var claimed := Claimed(AllClaims(order, config), k.category);
            var top := if k.category in {Upstream, Plugin} then ReadBack(config, k.category, k.name, k.name !in claimed)
                       else if k.category in {Certificate, Storage} then ReadBack(config, k.category, k.name, true)
                       else if k.category.Basic? then BasicEntry(config) else None;
            var doc := DocumentBlocks(order, config);
            && Count(doc, k) == Count(servers, k) + (if say.Some? then 1 else 0) + (if top.Some? then 1 else 0)
            && First(doc, k) ==
               if First(servers, k).Some? && !k.category.Basic? then First(servers, k)
               else if say.Some? then say else top
  {
    var servers := Names(order, config, Server);
    var all := AllClaims(order, config);
    BasicSpeaks(config, k);
    LocationsSpeak(order, config, k);
    RestSpeaks(order, config, Upstream, all.upstreams, k);
    RestSpeaks(order, config, Plugin, all.plugins, k);
    RestSpeaks(order, config, Certificate, {}, k);
    RestSpeaks(order, config, Storage, {}, k);
    WithoutNothing(Names(order, config, Certificate));
    WithoutNothing(Names(order, config, Storage));
    if k.category.Basic? { ServersSilent(config, NoClaims(), servers, k); }
    SpeaksSeven(
      if BasicEntry(config).Some? then [BasicBlock(BasicEntry(config).value.entries)] else [],
      ServerBlocks(config, NoClaims(), servers),
      LocationBlocks(config, ServerClaims(config, NoClaims(), servers), Unlisted(order, config)),
      ItemBlocks(config, Upstream, Without(Names(order, config, Upstream), all.upstreams)),
      ItemBlocks(config, Plugin, Without(Names(order, config, Plugin), all.plugins)),
      ItemBlocks(config, Certificate, Names(order, config, Certificate)),
      ItemBlocks(config, Storage, Names(order, config, Storage)), k);
  }

  /** Every location is written exactly once, or once for each server that lists it. */
  lemma WrittenAlways(order: Order, config: Config, l: string)
    requires ValidOrder(order)
    ensures WrittenUnder(order, config, l).Some? <==> Item(config, Location, l).Some?
    ensures LocationsSay(order, config, KeyOf(Location, l)).Some? <==>
            Item(config, Location, l).Some? && ListCount(config, Names(order, config, Server), l) == 0
  {
    var servers := Names(order, config, Server);
    ListedIff(config, NoClaims(), servers, l);
    NamesList(order, config, Location, l);
    WithoutMembers(Names(order, config, Location), Embedded(config, servers));
    ClaimsAtIff(config, ServerClaims(config, NoClaims(), servers), Unlisted(order, config), l);
  }

  lemma {:induction false} DocumentOnLocation(order: Order, config: Config, l: string)
    requires ValidOrder(order)
    ensures First(DocumentBlocks(order, config), KeyOf(Location, l)) == Entry(order, config, KeyOf(Location, l))
    ensures Count(DocumentBlocks(order, config), KeyOf(Location, l)) ==
            var n := ListCount(config, Names(order, config, Server), l);
            if n == 0 && Item(config, Location, l).Some? then 1 else n
  {
    var servers := Names(order, config, Server);
    DocumentSums(order, config, KeyOf(Location, l));
    WrittenAlways(order, config, l);
    ServersOnLocation(config, NoClaims(), servers, l);
    ListedIff(config, NoClaims(), servers, l);
  }

  lemma {:induction false} DocumentOnClaims(order: Order, config: Config, c: Category, n: string)
    requires ValidOrder(order) && c in {Upstream, Plugin}
    ensures Speaks(DocumentBlocks(order, config), KeyOf(c, n), ReadBack(config, c, n, true))
  {
    DocumentSums(order, config, KeyOf(c, n));
    ServersSpeak(order, config, KeyOf(c, n));
    ClaimsGrow(config, ServerClaims(config, NoClaims(), Names(order, config, Server)), Unlisted(order, config));
  }

  /** Every entry that is not a location is written exactly once. */
  lemma {:induction false} DocumentSpeaks(order: Order, config: Config, k: Key)
    requires ValidOrder(order) && !k.category.Location?
    ensures Speaks(DocumentBlocks(order, config), k, Entry(order, config, k))
  {
    if k.category in {Upstream, Plugin} {
      assert k == KeyOf(k.category, k.name);
      DocumentOnClaims(order, config, k.category, k.name);
    } else {
      DocumentSums(order, config, k);
      ServersSpeak(order, config, k);
    }
  }

  // ---- main results ---------------------------------------------------------------------

  /** Two servers list the same existing location. */
  ghost predicate SharedLocation(config: Config) {
    exists s, t, l :: s != t && Lists(config, s, l) && Lists(config, t, l)
  }

  lemma {:induction false} ListCountTwo(config: Config, names: seq<string>, l: string)
    requires Distinct(names)
    ensures ListCount(config, names, l) >= 1 <==> exists s :: s in names && Lists(config, s, l)
    ensures ListCount(config, names, l) >= 2 <==>
            exists s, t :: s != t && s in names && t in names && Lists(config, s, l) && Lists(config, t, l)
  {
    if names != [] {
      assert names[0] !in names[1..] && Distinct(names[1..]);
      ListCountTwo(config, names[1..], l);
      forall s ensures s in names <==> s == names[0] || s in names[1..] {}
      if Lists(config, names[0], l) && ListCount(config, names[1..], l) >= 1 {
        var s :| s in names[1..] && Lists(config, s, l);
        assert s != names[0];
      }
    }
  }

  lemma SharedIff(order: Order, config: Config)
    requires ValidOrder(order)
    ensures SharedLocation(config) <==> exists l :: ListCount(config, Names(order, config, Server), l) >= 2
  {
    var servers := Names(order, config, Server);
    forall s, l | Lists(config, s, l) ensures s in servers {
      NamesList(order, config, Server, s);
    }
    NamesList(order, config, Server, "");
    forall l
      ensures ListCount(config, servers, l) >= 2 <==>
              exists s, t :: s != t && Lists(config, s, l) && Lists(config, t, l)
    {
      ListCountTwo(config, servers, l);
    }
    if SharedLocation(config) {
      var s, t, l :| s != t && Lists(config, s, l) && Lists(config, t, l);
      assert ListCount(config, servers, l) >= 2;
    }
  }

  lemma WrittenTwiceIff(order: Order, config: Config, k: Key)
    requires ValidOrder(order)
    ensures Count(DocumentBlocks(order, config), k) >= 2 <==>
            k.category.Location? && ListCount(config, Names(order, config, Server), k.name) >= 2
  {
    if k.category.Location? {
      assert k == KeyOf(Location, k.name);
      DocumentOnLocation(order, config, k.name);
    } else {
      DocumentSpeaks(order, config, k);
    }
  }

  lemma WrittenTwiceIffShared(order: Order, config: Config, blocks: seq<Block>)
    requires ValidOrder(order) && blocks == DocumentBlocks(order, config)
    ensures (exists k: Key :: Count(blocks, k) >= 2) <==> SharedLocation(config)
  {
    SharedIff(order, config);
    if k: Key :| Count(blocks, k) >= 2 {
      WrittenTwiceIff(order, config, k);
    }
    if l :| ListCount(config, Names(order, config, Server), l) >= 2 {
      WrittenTwiceIff(order, config, KeyOf(Location, l));
      assert Count(blocks, KeyOf(Location, l)) >= 2;
    }
  }

  lemma PrintAssembles(order: Order, config: Config)
    ensures Read(Print(order, config)) == Assemble(DocumentBlocks(order, config))
  {
    PrintParses(order, config);
  }

  /** A printed document is refused just when a location is listed by two servers. */
  lemma PrintReadsIff(order: Order, config: Config)
    requires ValidOrder(order)
    ensures Read(Print(order, config)).Err? <==> SharedLocation(config)
  {
    PrintAssembles(order, config);
    AssembleErrIff(DocumentBlocks(order, config));
    WrittenTwiceIffShared(order, config, DocumentBlocks(order, config));
  }

  /** What a printed document reads back as, entry by entry. */
  lemma PrintReadsAs(order: Order, config: Config, k: Key)
    requires ValidOrder(order) && !SharedLocation(config)
    ensures Read(Print(order, config)).Ok?
    ensures EntryOf(Read(Print(order, config)).value, k) == Entry(order, config, k)
  {
    PrintReadsIff(order, config);
    PrintAssembles(order, config);
    AssembleAt(DocumentBlocks(order, config), k);
    if k.category.Location? {
      assert k == KeyOf(Location, k.name);
      DocumentOnLocation(order, config, k.name);
    } else {
      DocumentSpeaks(order, config, k);
    }
  }

  /** An entry that survives printing and reading back. */
  predicate Kept(order: Order, config: Config, k: Key)
    requires k in config
  {
    && config[k].Table?
    && FlatFields(config[k].entries)
    && (k.category.Server? ==> ServerKept(config, config[k].entries))
    && (k.category.Location? ==>
          var at := WrittenUnder(order, config, k.name);
          at.Some? && PluginListKept(config, at.value, config[k].entries))
  }

  /** An empty basic section is the same as none. */
  function Normal(config: Config): Config {
    var basic := KeyOf(Basic, "");
    if basic in config && config[basic] == Table(map[]) then config - {basic} else config
  }

  lemma EntryKeptIff(order: Order, config: Config, k: Key)
    requires ValidOrder(order)
    ensures if k in config then Entry(order, config, k) == EntryOf(Normal(config), k) <==> Kept(order, config, k)
            else Entry(order, config, k) == None == EntryOf(Normal(config), k)
  {
    assert k == KeyOf(k.category, k.name);
    if k in config && config[k].Table? {
      var t := config[k].entries;
      AttrsStableIff(t);
      if k.category.Server? {
        ServerKeptIff(config, t);
      } else if k.category.Location? {
        WrittenAlways(order, config, k.name);
        LocationKeptIff(config, WrittenUnder(order, config, k.name).value, t);
      }
    }
  }

  /**
   * Printing a configuration and reading it back gives it again exactly when no location is
   * listed by two servers and every entry is kept.
   */
  lemma RoundTripIff(order: Order, config: Config)
    requires ValidOrder(order)
    ensures Read(Print(order, config)) == Ok(Normal(config)) <==>
            !SharedLocation(config) && forall k <- config :: Kept(order, config, k)
  {
    PrintReadsIff(order, config);
    if !SharedLocation(config) {
      var back := Read(Print(order, config)).value;
      forall k: Key
        ensures if k in config then EntryOf(back, k) == EntryOf(Normal(config), k) <==> Kept(order, config, k)
                else EntryOf(back, k) == EntryOf(Normal(config), k)
      {
        PrintReadsAs(order, config, k);
        EntryKeptIff(order, config, k);
      }
      SameConfigIff(back, Normal(config));
    }
  }

  /** Conditions on the entries alone, whatever the order of printing. */
  ghost predicate Tidy(config: Config) {
    && !SharedLocation(config)
    && forall k <- config ::
         && config[k].Table? && FlatFields(config[k].entries)
         && (k.category.Server? ==> ServerKept(config, config[k].entries))
         && (k.category.Location? && PLUGINS in config[k].entries && config[k].entries[PLUGINS].Arr? ==>
               AllStrings(config[k].entries[PLUGINS]) && Distinct(NameList(config[k].entries, PLUGINS)))
  }

  lemma TidyPlugins(config: Config, claims: Claims, loc: Fields)
    requires forall k <- config :: config[k].Table?
    requires PLUGINS in loc && loc[PLUGINS].Arr? ==> AllStrings(loc[PLUGINS]) && Distinct(NameList(loc, PLUGINS))
    ensures PluginListKept(config, claims, loc)
  {
    if EmbeddedPlugins(config, claims, loc).Some? {
      forall n | n in NameList(loc, PLUGINS) ensures Item(config, Plugin, n).Some? {
        assert KeyOf(Plugin, n) in config;
      }
    }
  }

  /** Tidy configurations survive, in whatever order they are printed. */
  lemma TidyRoundTrip(order: Order, config: Config)
    requires ValidOrder(order) && Tidy(config)
    ensures Read(Print(order, config)) == Ok(Normal(config))
  {
    forall k | k in config ensures Kept(order, config, k) {
      if k.category.Location? {
        assert k == KeyOf(Location, k.name);
        WrittenAlways(order, config, k.name);
        TidyPlugins(config, WrittenUnder(order, config, k.name).value, config[k].entries);
      }
    }
    RoundTripIff(order, config);
  }

  // ---- what does not survive ------------------------------------------------------------

  const SHARING: Config :=
    map[KeyOf(Server, "a") := Table(map[LOCATIONS := Arr([Str("l")])]),
        KeyOf(Server, "b") := Table(map[LOCATIONS := Arr([Str("l")])]),
        KeyOf(Location, "l") := Table(map[])]

  /** A configuration two of whose servers share a location prints to a document that is refused. */
  lemma SharingIsRefused(order: Order)
    requires ValidOrder(order)
    ensures Read(Print(order, SHARING)).Err?
  {
    assert [Str("l")][1..] == [];
    assert Strings([Str("l")]) == ["l"] && "l" in ["l"];
    assert "a" != "b" && Lists(SHARING, "a", "l") && Lists(SHARING, "b", "l");
    PrintReadsIff(order, SHARING);
  }

  const NESTED: Config := map[KeyOf(Basic, "") := Table(map["a" := Table(map["b" := Int(1)])])]

  /** A table inside an entry is printed empty. */
  lemma NestedTableIsLost(order: Order)
    requires ValidOrder(order)
    ensures Read(Print(order, NESTED)) != Ok(NESTED)
  {
    var k := KeyOf(Basic, "");
    var inner: Fields := map["b" := Int(1)];
    assert "b" in inner && inner != map[];
    assert !Flat(NESTED[k].entries["a"]);
    assert !Kept(order, NESTED, k);
    assert "a" in NESTED[k].entries && NESTED[k] != Table(map[]);
    RoundTripIff(order, NESTED);
  }
}
