/** How often the printer writes an upstream or a plugin, at whatever depth. */
module HclEmission {
  import opened Toml
  import opened Hcl
  import opened HclRoundTrip
  import opened HclDocument

  /** The number of blocks of one kind and name in a document, nested blocks included. */
  function Written(blocks: seq<HclBlock>, c: Category, n: string): nat
    decreases blocks
  {
    if blocks == [] then 0 else WrittenIn(blocks[0], c, n) + Written(blocks[1..], c, n)
  }

  function WrittenIn(b: HclBlock, c: Category, n: string): nat
    decreases b
  {
    match b case HclBlock(_, _, Body(_, nested)) =>
      (if Labelled(b, c) && b.name.value == n then 1 else 0) + Written(nested, c, n)
  }

  lemma WrittenCons(b: HclBlock, rest: seq<HclBlock>, c: Category, n: string)
    ensures Written([b] + rest, c, n) ==
            (if Labelled(b, c) && b.name.value == n then 1 else 0) + Written(b.body.blocks, c, n) + Written(rest, c, n)
  {
    assert ([b] + rest)[1..] == rest;
  }

  lemma {:induction false} WrittenAppend(a: seq<HclBlock>, b: seq<HclBlock>, c: Category, n: string)
    ensures Written(a + b, c, n) == Written(a, c, n) + Written(b, c, n)
  {
    if a == [] {
      assert a + b == b;
    } else {
      assert (a + b)[1..] == a[1..] + b;
      WrittenAppend(a[1..], b, c, n);
    }
  }

  function Once(written: bool): nat {
    if written then 1 else 0
  }

  lemma {:induction false} ItemsWritten(config: Config, d: Category, names: seq<string>, c: Category, n: string)
    requires Distinct(names)
    ensures Written(EmitItems(config, d, names), c, n) == Once(c == d && n in names && Item(config, c, n).Some?)
  {
    if names != [] {
      assert names[0] !in names[1..] && Distinct(names[1..]);
      ItemsWritten(config, d, names[1..], c, n);
      var item := Item(config, d, names[0]);
      if item.Some? {
        WrittenCons(NamedBlock(d, names[0], item.value), EmitItems(config, d, names[1..]), c, n);
      } else {
        assert EmitItems(config, d, names) == EmitItems(config, d, names[1..]);
      }
    }
  }

  /** No location lists a plugin twice. */
  ghost predicate PluginListsDistinct(config: Config) {
    forall l :: Item(config, Location, l).Some? ==> Distinct(NameList(Item(config, Location, l).value, PLUGINS))
  }

  lemma {:induction false} LocationWritten(config: Config, claims: Claims, loc: Fields, c: Category, n: string)
    requires c in {Upstream, Plugin} && Distinct(NameList(loc, PLUGINS))
    ensures Written(LocationBody(config, claims, loc).blocks, c, n) ==
            Once(n in Claimed(Claim(config, claims, loc), c) - Claimed(claims, c) && Item(config, c, n).Some?)
  {
    var u, ps := EmbeddedUpstream(config, claims, loc), EmbeddedPlugins(config, claims, loc);
    var plugins := EmitItems(config, Plugin, if ps.Some? then ps.value else []);
    ItemsWritten(config, Plugin, if ps.Some? then ps.value else [], c, n);
    if u.Some? {
      WrittenCons(NamedBlock(Upstream, u.value, Item(config, Upstream, u.value).value), plugins, c, n);
    } else {
      assert LocationBody(config, claims, loc).blocks == plugins;
    }
  }

  lemma {:induction false} LocationsWritten(config: Config, claims: Claims, names: seq<string>, c: Category, n: string)
    requires c in {Upstream, Plugin} && PluginListsDistinct(config)
    ensures Written(EmitLocations(config, claims, names), c, n) ==
            Once(n in Claimed(ClaimAll(config, claims, names), c) - Claimed(claims, c) && Item(config, c, n).Some?)
    decreases |names|
  {
    if names != [] {
      var loc := Item(config, Location, names[0]);
      if loc.None? {
        LocationsWritten(config, claims, names[1..], c, n);
      } else {
        var next := Claim(config, claims, loc.value);
        LocationsWritten(config, next, names[1..], c, n);
        LocationWritten(config, claims, loc.value, c, n);
        ClaimsGrow(config, next, names[1..]);
        WrittenCons(HclBlock(Known(Location), Some(names[0]), LocationBody(config, claims, loc.value)),
                    EmitLocations(config, next, names[1..]), c, n);
      }
    }
  }

  lemma {:induction false} ServersWritten(config: Config, claims: Claims, names: seq<string>, c: Category, n: string)
    requires c in {Upstream, Plugin} && PluginListsDistinct(config)
    ensures Written(EmitServers(config, claims, names), c, n) ==
            Once(n in Claimed(ServerClaims(config, claims, names), c) - Claimed(claims, c) && Item(config, c, n).Some?)
    decreases |names|
  {
    if names != [] {
      var server := Item(config, Server, names[0]);
      if server.None? {
        ServersWritten(config, claims, names[1..], c, n);
      } else {
        var list := NameList(server.value, LOCATIONS);
        var next := ClaimAll(config, claims, list);
        ServersWritten(config, next, names[1..], c, n);
        LocationsWritten(config, claims, list, c, n);
        ClaimsGrow(config, claims, list);
        ServerClaimsGrow(config, next, names[1..]);
        WrittenCons(HclBlock(Known(Server), Some(names[0]), ServerBody(config, claims, server.value)),
                    EmitServers(config, next, names[1..]), c, n);
      }
    }
  }

  lemma RestWritten(order: Order, config: Config, d: Category, drop: set<string>, c: Category, n: string)
    requires ValidOrder(order) && !d.Basic?
    ensures Written(EmitItems(config, d, Without(Names(order, config, d), drop)), c, n) ==
            Once(c == d && n !in drop && Item(config, c, n).Some?)
  {
    NamesList(order, config, d, n);
    WithoutMembers(Names(order, config, d), drop);
    WithoutDistinct(Names(order, config, d), drop);
    ItemsWritten(config, d, Without(Names(order, config, d), drop), c, n);
  }

  lemma WrittenSeven(a: seq<HclBlock>, b: seq<HclBlock>, d: seq<HclBlock>, e: seq<HclBlock>,
                     f: seq<HclBlock>, g: seq<HclBlock>, h: seq<HclBlock>, c: Category, n: string)
    ensures Written(a + b + d + e + f + g + h, c, n) ==
            Written(a, c, n) + Written(b, c, n) + Written(d, c, n) + Written(e, c, n) + Written(f, c, n) +
            Written(g, c, n) + Written(h, c, n)
  {
    WrittenAppend(a, b, c, n);
    WrittenAppend(a + b, d, c, n);
    WrittenAppend(a + b + d, e, c, n);
    WrittenAppend(a + b + d + e, f, c, n);
    WrittenAppend(a + b + d + e + f, g, c, n);
    WrittenAppend(a + b + d + e + f + g, h, c, n);
  }

  /**
   * Every upstream and every plugin is written exactly once: inside the first location that
   * gets to claim it, or at the top level.
   */
  lemma {:induction false} WrittenOnce(order: Order, config: Config, c: Category, n: string)
    requires ValidOrder(order) && PluginListsDistinct(config) && c in {Upstream, Plugin}
    ensures Written(Print(order, config), c, n) == Once(Item(config, c, n).Some?)
  {
    var servers := Names(order, config, Server);
    var claims := ServerClaims(config, NoClaims(), servers);
    var all := AllClaims(order, config);
    ServersWritten(config, NoClaims(), servers, c, n);
    LocationsWritten(config, claims, Unlisted(order, config), c, n);
    ClaimsGrow(config, claims, Unlisted(order, config));
    RestWritten(order, config, Upstream, all.upstreams, c, n);
    RestWritten(order, config, Plugin, all.plugins, c, n);
    RestWritten(order, config, Certificate, {}, c, n);
    RestWritten(order, config, Storage, {}, c, n);
    WithoutNothing(Names(order, config, Certificate));
    WithoutNothing(Names(order, config, Storage));
    WrittenSeven(BasicBlocks(config), EmitServers(config, NoClaims(), servers),
                 EmitLocations(config, claims, Unlisted(order, config)),
                 EmitItems(config, Upstream, Without(Names(order, config, Upstream), all.upstreams)),
                 EmitItems(config, Plugin, Without(Names(order, config, Plugin), all.plugins)),
                 EmitItems(config, Certificate, Names(order, config, Certificate)),
                 EmitItems(config, Storage, Names(order, config, Storage)), c, n);
    BasicWritesNone(config, c, n);
  }

  lemma BasicWritesNone(config: Config, c: Category, n: string)
    requires !c.Basic?
    ensures Written(BasicBlocks(config), c, n) == 0
  {
    if BasicBlocks(config) != [] { assert BasicBlocks(config)[1..] == []; }
  }

  // ---- locations ------------------------------------------------------------------------

  function Occurrences(names: seq<string>, l: string): nat {
    if names == [] then 0 else (if names[0] == l then 1 else 0) + Occurrences(names[1..], l)
  }

  /** How often the servers list a location, repetitions included. */
  function Listings(config: Config, servers: seq<string>, l: string): nat {
    if servers == [] then 0
    else
      var server := Item(config, Server, servers[0]);
      (if server.None? then 0 else Occurrences(NameList(server.value, LOCATIONS), l)) +
      Listings(config, servers[1..], l)
  }

  lemma {:induction false} NoLocationInside(config: Config, claims: Claims, loc: Fields, l: string)
    ensures Written(LocationBody(config, claims, loc).blocks, Location, l) == 0
  {
    var u, ps := EmbeddedUpstream(config, claims, loc), EmbeddedPlugins(config, claims, loc);
    var plugins := EmitItems(config, Plugin, if ps.Some? then ps.value else []);
    NoLocationAmong(config, Plugin, if ps.Some? then ps.value else [], l);
    if u.Some? {
      WrittenCons(NamedBlock(Upstream, u.value, Item(config, Upstream, u.value).value), plugins, Location, l);
    } else {
      assert LocationBody(config, claims, loc).blocks == plugins;
    }
  }

  lemma {:induction false} NoLocationAmong(config: Config, d: Category, names: seq<string>, l: string)
    requires d != Location
    ensures Written(EmitItems(config, d, names), Location, l) == 0
  {
    if names != [] {
      NoLocationAmong(config, d, names[1..], l);
      var item := Item(config, d, names[0]);
      if item.Some? {
        WrittenCons(NamedBlock(d, names[0], item.value), EmitItems(config, d, names[1..]), Location, l);
      } else {
        assert EmitItems(config, d, names) == EmitItems(config, d, names[1..]);
      }
    }
  }

  lemma {:induction false} LocationsListed(config: Config, claims: Claims, names: seq<string>, l: string)
    ensures Written(EmitLocations(config, claims, names), Location, l) ==
            if Item(config, Location, l).Some? then Occurrences(names, l) else 0
    decreases |names|
  {
    if names != [] {
      var loc := Item(config, Location, names[0]);
      if loc.None? {
        LocationsListed(config, claims, names[1..], l);
      } else {
        var next := Claim(config, claims, loc.value);
        LocationsListed(config, next, names[1..], l);
        NoLocationInside(config, claims, loc.value, l);
        WrittenCons(HclBlock(Known(Location), Some(names[0]), LocationBody(config, claims, loc.value)),
                    EmitLocations(config, next, names[1..]), Location, l);
      }
    }
  }

  lemma {:induction false} ServersListed(config: Config, claims: Claims, names: seq<string>, l: string)
    ensures Written(EmitServers(config, claims, names), Location, l) ==
            if Item(config, Location, l).Some? then Listings(config, names, l) else 0
    decreases |names|
  {
    if names != [] {
      var server := Item(config, Server, names[0]);
      if server.None? {
        ServersListed(config, claims, names[1..], l);
      } else {
        var list := NameList(server.value, LOCATIONS);
        var next := ClaimAll(config, claims, list);
        ServersListed(config, next, names[1..], l);
        LocationsListed(config, claims, list, l);
        WrittenCons(HclBlock(Known(Server), Some(names[0]), ServerBody(config, claims, server.value)),
                    EmitServers(config, next, names[1..]), Location, l);
      }
    }
  }

  lemma {:induction false} OccursIff(names: seq<string>, l: string)
    ensures Occurrences(names, l) > 0 <==> l in names
    ensures Distinct(names) ==> Occurrences(names, l) <= 1
  {
    if names != [] {
      OccursIff(names[1..], l);
      assert names == [names[0]] + names[1..];
      if Distinct(names) { assert names[0] !in names[1..] && Distinct(names[1..]); }
    }
  }

  lemma {:induction false} ListingsIff(config: Config, servers: seq<string>, l: string)
    requires Item(config, Location, l).Some?
    ensures Listings(config, servers, l) > 0 <==> l in Embedded(config, servers)
  {
    if servers != [] {
      ListingsIff(config, servers[1..], l);
      var server := Item(config, Server, servers[0]);
      if server.Some? { OccursIff(NameList(server.value, LOCATIONS), l); }
      assert l in Embedded(config, servers) <==> Lists(config, servers[0], l) || l in Embedded(config, servers[1..]);
    }
  }

  lemma UnlistedOnce(order: Order, config: Config, l: string)
    requires ValidOrder(order) && Item(config, Location, l).Some?
    ensures Occurrences(Unlisted(order, config), l) == Once(Listings(config, Names(order, config, Server), l) == 0)
  {
    var names, drop := Names(order, config, Location), Embedded(config, Names(order, config, Server));
    NamesList(order, config, Location, l);
    WithoutMembers(names, drop);
    WithoutDistinct(names, drop);
    OccursIff(Unlisted(order, config), l);
    ListingsIff(config, Names(order, config, Server), l);
  }

  /** Every location is written once for each time a server lists it, and once if none does. */
  lemma {:induction false} LocationWrittenPerListing(order: Order, config: Config, l: string)
    requires ValidOrder(order)
    ensures var listings := Listings(config, Names(order, config, Server), l);
            Written(Print(order, config), Location, l) ==
            if Item(config, Location, l).None? then 0 else if listings == 0 then 1 else listings
  {
    var servers := Names(order, config, Server);
    var claims := ServerClaims(config, NoClaims(), servers);
    var all := AllClaims(order, config);
    var ups := Without(Names(order, config, Upstream), all.upstreams);
    var plugins := Without(Names(order, config, Plugin), all.plugins);
    ServersListed(config, NoClaims(), servers, l);
    LocationsListed(config, claims, Unlisted(order, config), l);
    if Item(config, Location, l).Some? { UnlistedOnce(order, config, l); }
    NoLocationAmong(config, Upstream, ups, l);
    NoLocationAmong(config, Plugin, plugins, l);
    NoLocationAmong(config, Certificate, Names(order, config, Certificate), l);
    NoLocationAmong(config, Storage, Names(order, config, Storage), l);
    BasicWritesNone(config, Location, l);
    WrittenSeven(BasicBlocks(config), EmitServers(config, NoClaims(), servers),
                 EmitLocations(config, claims, Unlisted(order, config)), EmitItems(config, Upstream, ups),
                 EmitItems(config, Plugin, plugins), EmitItems(config, Certificate, Names(order, config, Certificate)),
                 EmitItems(config, Storage, Names(order, config, Storage)), Location, l);
  }
}
