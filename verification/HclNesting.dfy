/** What the HCL printer nests: locations in their servers, upstreams and plugins in the locations that use them. */
module HclNesting {
  import opened Toml
  import opened Hcl
  import opened HclDocument
  import opened Completion
  import R = HclReading

  /** The entry is a table of the configuration. */
  predicate IsTable(config: Config, c: Category, n: string) {
    KeyOf(c, n) in config && config[KeyOf(c, n)].Table?
  }

  /** A location that names the upstream. */
  predicate UsesUpstream(config: Config, l: string, u: string) {
    && IsTable(config, Location, l)
    && var fields := config[KeyOf(Location, l)].entries;
       "upstream" in fields && fields["upstream"] == Str(u)
  }

  /** A table that lists the name in a list field. */
  predicate ListsIn(config: Config, c: Category, holder: string, attr: string, n: string) {
    && IsTable(config, c, holder)
    && var fields := config[KeyOf(c, holder)].entries;
       attr in fields && fields[attr].Arr? && Str(n) in fields[attr].items
  }

  lemma ListedNames(fields: Fields, attr: string, n: string)
    ensures n in NameList(fields, attr) <==> attr in fields && fields[attr].Arr? && Str(n) in fields[attr].items
  {
    if attr in fields && fields[attr].Arr? { InStrings(fields[attr].items, n); }
  }

  lemma {:induction false} InStrings(items: seq<Value>, n: string)
    ensures n in Strings(items) <==> Str(n) in items
  {
    if items != [] {
      InStrings(items[1..], n);
      assert items == [items[0]] + items[1..];
    }
  }

  // ---- top-level blocks -----------------------------------------------------------------

  lemma {:induction false} ItemsAtTop(config: Config, d: Category, names: seq<string>, c: Category, n: string)
    ensures R.Nests(EmitItems(config, d, names), c, n) <==> c == d && n in names && Item(config, d, n).Some?
  {
    if names != [] {
      ItemsAtTop(config, d, names[1..], c, n);
      assert names == [names[0]] + names[1..];
      if Item(config, d, names[0]).Some? {
        assert EmitItems(config, d, names)[1..] == EmitItems(config, d, names[1..]);
        R.NestsNext(EmitItems(config, d, names), c, n);
      } else {
        assert EmitItems(config, d, names) == EmitItems(config, d, names[1..]);
      }
    }
  }

  lemma {:induction false} LocationsAtTop(config: Config, claims: Claims, names: seq<string>, c: Category, n: string)
    ensures R.Nests(EmitLocations(config, claims, names), c, n) <==>
            c == Location && n in names && Item(config, Location, n).Some?
    decreases |names|
  {
    if names != [] {
      assert names == [names[0]] + names[1..];
      var loc := Item(config, Location, names[0]);
      if loc.Some? {
        LocationsAtTop(config, Claim(config, claims, loc.value), names[1..], c, n);
        R.NestsNext(EmitLocations(config, claims, names), c, n);
      } else {
        LocationsAtTop(config, claims, names[1..], c, n);
      }
    }
  }

  lemma {:induction false} ServersAtTop(config: Config, claims: Claims, names: seq<string>, c: Category, n: string)
    ensures R.Nests(EmitServers(config, claims, names), c, n) <==>
            c == Server && n in names && Item(config, Server, n).Some?
    decreases |names|
  {
    if names != [] {
      assert names == [names[0]] + names[1..];
      var server := Item(config, Server, names[0]);
      if server.Some? {
        ServersAtTop(config, ClaimAll(config, claims, NameList(server.value, LOCATIONS)), names[1..], c, n);
        R.NestsNext(EmitServers(config, claims, names), c, n);
      } else {
        ServersAtTop(config, claims, names[1..], c, n);
      }
    }
  }

  lemma NestsAppend(a: seq<HclBlock>, b: seq<HclBlock>, c: Category, n: string)
    ensures R.Nests(a + b, c, n) <==> R.Nests(a, c, n) || R.Nests(b, c, n)
  {
    if i :| 0 <= i < |a| && R.Is(a[i], c, n) { assert (a + b)[i] == a[i]; }
    if i :| 0 <= i < |b| && R.Is(b[i], c, n) { assert (a + b)[|a| + i] == b[i]; }
    if i :| 0 <= i < |a + b| && R.Is((a + b)[i], c, n) {
      if i >= |a| { assert b[i - |a|] == (a + b)[i]; }
    }
  }

  /** The names a kind is written under at the top level. */
  function TopNames(order: Order, config: Config, c: Category): seq<string> {
    match c
    case Basic => []
    case Location => Unlisted(order, config)
    case Upstream => Without(Names(order, config, Upstream), AllClaims(order, config).upstreams)
    case Plugin => Without(Names(order, config, Plugin), AllClaims(order, config).plugins)
    case _ => Names(order, config, c)
  }

  /** The blocks of one kind at the top level. */
  function TopBlocks(order: Order, config: Config, c: Category): seq<HclBlock> {
    match c
    case Basic => BasicBlocks(config)
    case Server => EmitServers(config, NoClaims(), Names(order, config, Server))
    case Location =>
      EmitLocations(config, ServerClaims(config, NoClaims(), Names(order, config, Server)), Unlisted(order, config))
    case _ => EmitItems(config, c, TopNames(order, config, c))
  }

  lemma PrintIs(order: Order, config: Config)
    ensures Print(order, config) ==
            TopBlocks(order, config, Basic) + TopBlocks(order, config, Server) + TopBlocks(order, config, Location) +
            TopBlocks(order, config, Upstream) + TopBlocks(order, config, Plugin) +
            TopBlocks(order, config, Certificate) + TopBlocks(order, config, Storage)
  {}

  lemma BlocksAtTop(order: Order, config: Config, d: Category, c: Category, n: string)
    requires !c.Basic?
    ensures R.Nests(TopBlocks(order, config, d), c, n) <==>
            c == d && n in TopNames(order, config, c) && Item(config, c, n).Some?
  {
    match d
    case Basic => BasicAtTop(config, c, n);
    case Server => ServersAtTop(config, NoClaims(), Names(order, config, Server), c, n);
    case Location =>
      var claims := ServerClaims(config, NoClaims(), Names(order, config, Server));
      LocationsAtTop(config, claims, Unlisted(order, config), c, n);
    case _ => ItemsAtTop(config, d, TopNames(order, config, d), c, n);
  }

  lemma PrintParts(order: Order, config: Config, c: Category, n: string)
    requires !c.Basic?
    ensures R.Nests(Print(order, config), c, n) <==> n in TopNames(order, config, c) && Item(config, c, n).Some?
  {
    PrintIs(order, config);
    forall d ensures R.Nests(TopBlocks(order, config, d), c, n) <==>
                     c == d && n in TopNames(order, config, c) && Item(config, c, n).Some?
    {
      BlocksAtTop(order, config, d, c, n);
    }
    SevenParts(TopBlocks(order, config, Basic), TopBlocks(order, config, Server), TopBlocks(order, config, Location),
               TopBlocks(order, config, Upstream), TopBlocks(order, config, Plugin),
               TopBlocks(order, config, Certificate), TopBlocks(order, config, Storage), c, n);
  }

  lemma BasicAtTop(config: Config, c: Category, n: string)
    requires !c.Basic?
    ensures !R.Nests(BasicBlocks(config), c, n)
  {}

  /** What is written at the top level, by kind. */
  lemma AtTop(order: Order, config: Config, c: Category, n: string)
    requires ValidOrder(order) && !c.Basic?
    ensures R.Nests(Print(order, config), c, n) <==>
            && Item(config, c, n).Some?
            && (c == Location ==> n in Unlisted(order, config))
            && (c == Upstream ==> n !in AllClaims(order, config).upstreams)
            && (c == Plugin ==> n !in AllClaims(order, config).plugins)
  {
    var all := AllClaims(order, config);
    PrintParts(order, config, c, n);
    WithoutMembers(Names(order, config, Upstream), all.upstreams);
    WithoutMembers(Names(order, config, Plugin), all.plugins);
    NamesList(order, config, c, n);
  }

  lemma SevenParts(a: seq<HclBlock>, b: seq<HclBlock>, d: seq<HclBlock>, e: seq<HclBlock>, f: seq<HclBlock>,
                   g: seq<HclBlock>, h: seq<HclBlock>, c: Category, n: string)
    ensures R.Nests(a + b + d + e + f + g + h, c, n) <==>
            || R.Nests(a, c, n) || R.Nests(b, c, n) || R.Nests(d, c, n) || R.Nests(e, c, n)
            || R.Nests(f, c, n) || R.Nests(g, c, n) || R.Nests(h, c, n)
  {
    NestsAppend(a, b, c, n);
    NestsAppend(a + b, d, c, n);
    NestsAppend(a + b + d, e, c, n);
    NestsAppend(a + b + d + e, f, c, n);
    NestsAppend(a + b + d + e + f, g, c, n);
    NestsAppend(a + b + d + e + f + g, h, c, n);
  }

  // ---- claims ---------------------------------------------------------------------------

  /** Some location among the names uses the upstream. */
  ghost predicate UsedBy(config: Config, names: seq<string>, u: string) {
    exists l <- names :: UsesUpstream(config, l, u)
  }

  lemma {:induction false} ClaimedUpstreams(config: Config, claims: Claims, names: seq<string>, u: string)
    ensures u in ClaimAll(config, claims, names).upstreams <==>
            u in claims.upstreams || (Item(config, Upstream, u).Some? && UsedBy(config, names, u))
    decreases |names|
  {
    if names != [] {
      assert names == [names[0]] + names[1..];
      var loc := Item(config, Location, names[0]);
      ClaimedUpstreams(config, if loc.None? then claims else Claim(config, claims, loc.value), names[1..], u);
      assert UsedBy(config, names, u) <==> UsesUpstream(config, names[0], u) || UsedBy(config, names[1..], u);
    }
  }

  lemma {:induction false} ServerClaimedUpstreams(config: Config, claims: Claims, names: seq<string>, u: string)
    ensures u in ServerClaims(config, claims, names).upstreams <==>
            || u in claims.upstreams
            || (Item(config, Upstream, u).Some? &&
                exists s, l :: s in names && ListsIn(config, Server, s, "locations", l) && UsesUpstream(config, l, u))
    decreases |names|
  {
    if names != [] {
      assert names == [names[0]] + names[1..];
      var server := Item(config, Server, names[0]);
      if server.None? {
        ServerClaimedUpstreams(config, claims, names[1..], u);
      } else {
        var list := NameList(server.value, LOCATIONS);
        ClaimedUpstreams(config, claims, list, u);
        ServerClaimedUpstreams(config, ClaimAll(config, claims, list), names[1..], u);
        forall l ensures l in list <==> ListsIn(config, Server, names[0], "locations", l) {
          ListedNames(server.value, LOCATIONS, l);
        }
      }
    }
  }

  lemma EmbeddedIff(order: Order, config: Config, l: string)
    requires ValidOrder(order) && IsTable(config, Location, l)
    ensures l in Embedded(config, Names(order, config, Server)) <==>
            exists s :: ListsIn(config, Server, s, "locations", l)
  {
    var servers := Names(order, config, Server);
    if s :| ListsIn(config, Server, s, "locations", l) {
      NamesList(order, config, Server, s);
      ListedNames(config[KeyOf(Server, s)].entries, LOCATIONS, l);
      assert s in servers && Item(config, Server, s).Some? && Item(config, Location, l).Some?;
      assert l in NameList(Item(config, Server, s).value, LOCATIONS);
    }
    if l in Embedded(config, servers) {
      var s :| s in servers && Item(config, Server, s).Some? && l in NameList(Item(config, Server, s).value, LOCATIONS);
      ListedNames(config[KeyOf(Server, s)].entries, LOCATIONS, l);
      assert ListsIn(config, Server, s, "locations", l);
    }
  }

  /** Every location is written: those a server lists in it, the others at the top level. */
  lemma UnlistedIff(order: Order, config: Config, l: string)
    requires ValidOrder(order) && IsTable(config, Location, l)
    ensures l in Unlisted(order, config) <==> forall s :: !ListsIn(config, Server, s, "locations", l)
  {
    WithoutMembers(Names(order, config, Location), Embedded(config, Names(order, config, Server)));
    NamesList(order, config, Location, l);
    EmbeddedIff(order, config, l);
  }

  // ---- plugins --------------------------------------------------------------------------

  /** The location lists plugins that all exist, and shares none of them with another location. */
  ghost predicate OwnsPlugins(config: Config, l: string) {
    forall n :: ListsIn(config, Location, l, "plugins", n) ==>
      KeyOf(Plugin, n) in config && forall m :: ListsIn(config, Location, m, "plugins", n) ==> m == l
  }

  lemma PluginsListed(config: Config, l: string, n: string)
    requires Item(config, Location, l).Some?
    ensures n in NameList(Item(config, Location, l).value, PLUGINS) <==> ListsIn(config, Location, l, "plugins", n)
  {
    ListedNames(Item(config, Location, l).value, PLUGINS, n);
  }

  /** What a location claims it lists; what only one location lists, that one claims. */
  lemma ClaimsPlugins(config: Config, claims: Claims, l: string, n: string)
    requires Item(config, Location, l).Some?
    ensures var after := Claim(config, claims, Item(config, Location, l).value);
            && (n in after.plugins ==> n in claims.plugins || ListsIn(config, Location, l, "plugins", n))
            && (OwnsPlugins(config, l) && ListsIn(config, Location, l, "plugins", n)
                && (forall m :: ListsIn(config, Location, l, "plugins", m) ==> m !in claims.plugins) ==>
                  n in after.plugins)
  {
    var loc := Item(config, Location, l).value;
    forall m ensures m in NameList(loc, PLUGINS) <==> ListsIn(config, Location, l, "plugins", m) {
      PluginsListed(config, l, m);
    }
  }

  lemma {:induction false} OnlyListedClaimed(config: Config, claims: Claims, names: seq<string>, n: string)
    requires n in ClaimAll(config, claims, names).plugins
    ensures n in claims.plugins || exists l :: ListsIn(config, Location, l, "plugins", n)
    decreases |names|
  {
    if names != [] {
      var loc := Item(config, Location, names[0]);
      if loc.None? {
        OnlyListedClaimed(config, claims, names[1..], n);
      } else {
        OnlyListedClaimed(config, Claim(config, claims, loc.value), names[1..], n);
        ClaimsPlugins(config, claims, names[0], n);
      }
    }
  }

  lemma {:induction false} OnlyListedInServers(config: Config, claims: Claims, names: seq<string>, n: string)
    requires n in ServerClaims(config, claims, names).plugins
    ensures n in claims.plugins || exists l :: ListsIn(config, Location, l, "plugins", n)
    decreases |names|
  {
    if names != [] {
      var server := Item(config, Server, names[0]);
      if server.None? {
        OnlyListedInServers(config, claims, names[1..], n);
      } else {
        var list := NameList(server.value, LOCATIONS);
        OnlyListedInServers(config, ClaimAll(config, claims, list), names[1..], n);
        if n in ClaimAll(config, claims, list).plugins { OnlyListedClaimed(config, claims, list, n); }
      }
    }
  }

  /** None of the plugins of a location is claimed. */
  ghost predicate Unclaimed(config: Config, claims: Claims, l: string) {
    forall n :: ListsIn(config, Location, l, "plugins", n) ==> n !in claims.plugins
  }

  lemma OthersLeave(config: Config, claims: Claims, l: string, m: string)
    requires OwnsPlugins(config, l) && m != l && Item(config, Location, m).Some? && Unclaimed(config, claims, l)
    ensures Unclaimed(config, Claim(config, claims, Item(config, Location, m).value), l)
  {
    forall n | ListsIn(config, Location, l, "plugins", n)
      ensures n !in Claim(config, claims, Item(config, Location, m).value).plugins
    {
      ClaimsPlugins(config, claims, m, n);
    }
  }

  /** Whoever comes by, the plugins of such a location stay unclaimed until it is written, and are claimed then. */
  lemma {:induction false} OwnerClaims(config: Config, claims: Claims, names: seq<string>, l: string, n: string)
    requires OwnsPlugins(config, l) && ListsIn(config, Location, l, "plugins", n) && Unclaimed(config, claims, l)
    ensures if l in names then n in ClaimAll(config, claims, names).plugins
            else Unclaimed(config, ClaimAll(config, claims, names), l)
    decreases |names|
  {
    if names != [] {
      assert names == [names[0]] + names[1..];
      var loc := Item(config, Location, names[0]);
      if loc.None? {
        OwnerClaims(config, claims, names[1..], l, n);
      } else if names[0] == l {
        ClaimsPlugins(config, claims, l, n);
        ClaimsGrow(config, Claim(config, claims, loc.value), names[1..]);
      } else {
        OthersLeave(config, claims, l, names[0]);
        OwnerClaims(config, Claim(config, claims, loc.value), names[1..], l, n);
      }
    }
  }

  lemma {:induction false} OwnerClaimsInServers(
      config: Config, claims: Claims, names: seq<string>, l: string, n: string)
    requires OwnsPlugins(config, l) && ListsIn(config, Location, l, "plugins", n) && Unclaimed(config, claims, l)
    ensures if l in Embedded(config, names) then n in ServerClaims(config, claims, names).plugins
            else Unclaimed(config, ServerClaims(config, claims, names), l)
    decreases |names|
  {
    if names != [] {
      assert names == [names[0]] + names[1..];
      var server := Item(config, Server, names[0]);
      assert l in Embedded(config, names) <==> Lists(config, names[0], l) || l in Embedded(config, names[1..]);
      if server.None? {
        OwnerClaimsInServers(config, claims, names[1..], l, n);
      } else {
        var list := NameList(server.value, LOCATIONS);
        OwnerClaims(config, claims, list, l, n);
        if l in list {
          ServerClaimsGrow(config, ClaimAll(config, claims, list), names[1..]);
        } else {
          OwnerClaimsInServers(config, ClaimAll(config, claims, list), names[1..], l, n);
        }
      }
    }
  }

  // ---- locations in servers -------------------------------------------------------------

  /** A server block with a location in it. */
  ghost predicate ServerHolds(blocks: seq<HclBlock>, s: string, l: string) {
    exists b <- blocks :: R.Is(b, Server, s) && R.Nests(b.body.blocks, Location, l)
  }

  lemma {:induction false} ServersHold(config: Config, claims: Claims, names: seq<string>, s: string, l: string)
    ensures ServerHolds(EmitServers(config, claims, names), s, l) <==>
            s in names && ListsIn(config, Server, s, "locations", l) && IsTable(config, Location, l)
    decreases |names|
  {
    if names != [] {
      assert names == [names[0]] + names[1..];
      var server := Item(config, Server, names[0]);
      if server.None? {
        ServersHold(config, claims, names[1..], s, l);
      } else {
        var list := NameList(server.value, LOCATIONS);
        var first := HclBlock(Known(Server), Some(names[0]), ServerBody(config, claims, server.value));
        var rest := EmitServers(config, ClaimAll(config, claims, list), names[1..]);
        ServersHold(config, ClaimAll(config, claims, list), names[1..], s, l);
        LocationsAtTop(config, claims, list, Location, l);
        ListedNames(server.value, LOCATIONS, l);
        assert EmitServers(config, claims, names) == [first] + rest;
        assert ServerHolds([first] + rest, s, l) <==>
               (R.Is(first, Server, s) && R.Nests(first.body.blocks, Location, l)) || ServerHolds(rest, s, l);
      }
    }
  }

  // ---- main results ---------------------------------------------------------------------

  /** A location stands at the top level exactly if no server lists it. */
  lemma TopLocationIff(order: Order, config: Config, l: string)
    requires ValidOrder(order)
    ensures R.Nests(Print(order, config), Location, l) <==>
            IsTable(config, Location, l) && forall s :: !ListsIn(config, Server, s, "locations", l)
  {
    AtTop(order, config, Location, l);
    if IsTable(config, Location, l) { UnlistedIff(order, config, l); }
  }

  /** A server block holds exactly the locations the server lists that exist. */
  lemma ServerHoldsIff(order: Order, config: Config, s: string, l: string)
    requires ValidOrder(order)
    ensures ServerHolds(Print(order, config), s, l) <==>
            ListsIn(config, Server, s, "locations", l) && IsTable(config, Location, l)
  {
    ServersHold(config, NoClaims(), Names(order, config, Server), s, l);
    NamesList(order, config, Server, s);
    ServersOnly(order, config, s, l);
  }

  lemma HoldsAppend(a: seq<HclBlock>, b: seq<HclBlock>, s: string, l: string)
    ensures ServerHolds(a + b, s, l) <==> ServerHolds(a, s, l) || ServerHolds(b, s, l)
  {
    forall x ensures x in a + b <==> x in a || x in b {}
  }

  /** Without a server of the name nothing holds the location in it. */
  lemma NoServerHolds(blocks: seq<HclBlock>, s: string, l: string)
    requires !R.Nests(blocks, Server, s)
    ensures !ServerHolds(blocks, s, l)
  {
    forall b | b in blocks ensures !R.Is(b, Server, s) {
      var i :| 0 <= i < |blocks| && blocks[i] == b;
    }
  }

  lemma ServersOnly(order: Order, config: Config, s: string, l: string)
    requires ValidOrder(order)
    ensures ServerHolds(Print(order, config), s, l) <==>
            ServerHolds(EmitServers(config, NoClaims(), Names(order, config, Server)), s, l)
  {
    PrintIs(order, config);
    forall d | d != Server ensures !R.Nests(TopBlocks(order, config, d), Server, s) {
      BlocksAtTop(order, config, d, Server, s);
    }
    SevenHold(TopBlocks(order, config, Basic), TopBlocks(order, config, Server), TopBlocks(order, config, Location),
              TopBlocks(order, config, Upstream), TopBlocks(order, config, Plugin),
              TopBlocks(order, config, Certificate), TopBlocks(order, config, Storage), s, l);
  }

  lemma SevenHold(a: seq<HclBlock>, b: seq<HclBlock>, d: seq<HclBlock>, e: seq<HclBlock>, f: seq<HclBlock>,
                  g: seq<HclBlock>, h: seq<HclBlock>, s: string, l: string)
    requires !R.Nests(a, Server, s) && !R.Nests(d, Server, s) && !R.Nests(e, Server, s)
    requires !R.Nests(f, Server, s) && !R.Nests(g, Server, s) && !R.Nests(h, Server, s)
    ensures ServerHolds(a + b + d + e + f + g + h, s, l) <==> ServerHolds(b, s, l)
  {
    NoServerHolds(a, s, l);
    NoServerHolds(d, s, l);
    NoServerHolds(e, s, l);
    NoServerHolds(f, s, l);
    NoServerHolds(g, s, l);
    NoServerHolds(h, s, l);
    HoldsAppend(a, b, s, l);
    HoldsAppend(a + b, d, s, l);
    HoldsAppend(a + b + d, e, s, l);
    HoldsAppend(a + b + d + e, f, s, l);
    HoldsAppend(a + b + d + e + f, g, s, l);
    HoldsAppend(a + b + d + e + f + g, h, s, l);
  }

  /** An upstream stands at the top level exactly if no location uses it. */
  lemma TopUpstreamIff(order: Order, config: Config, u: string)
    requires ValidOrder(order)
    ensures R.Nests(Print(order, config), Upstream, u) <==>
            IsTable(config, Upstream, u) && forall l :: !UsesUpstream(config, l, u)
  {
    var servers := Names(order, config, Server);
    var claims := ServerClaims(config, NoClaims(), servers);
    AtTop(order, config, Upstream, u);
    ServerClaimedUpstreams(config, NoClaims(), servers, u);
    ClaimedUpstreams(config, claims, Unlisted(order, config), u);
    forall l | UsesUpstream(config, l, u) && IsTable(config, Upstream, u)
      ensures u in AllClaims(order, config).upstreams
    {
      UnlistedIff(order, config, l);
      if s :| ListsIn(config, Server, s, "locations", l) {
        NamesList(order, config, Server, s);
      }
    }
  }

  /**
   * A plugin no location lists stands at the top level; one that a location lists with nothing
   * but plugins that exist and that no other location lists does not.
   */
  lemma TopPlugins(order: Order, config: Config, n: string)
    requires ValidOrder(order) && IsTable(config, Plugin, n)
    ensures (forall l :: !ListsIn(config, Location, l, "plugins", n)) ==> R.Nests(Print(order, config), Plugin, n)
    ensures (exists l :: ListsIn(config, Location, l, "plugins", n) && OwnsPlugins(config, l)) ==>
              !R.Nests(Print(order, config), Plugin, n)
  {
    AtTop(order, config, Plugin, n);
    if n in AllClaims(order, config).plugins { ClaimedIsListed(order, config, n); }
    if l :| ListsIn(config, Location, l, "plugins", n) && OwnsPlugins(config, l) { OwnerIsServed(order, config, l, n); }
  }

  lemma ClaimedIsListed(order: Order, config: Config, n: string)
    requires n in AllClaims(order, config).plugins
    ensures exists l :: ListsIn(config, Location, l, "plugins", n)
  {
    var servers := Names(order, config, Server);
    var claims := ServerClaims(config, NoClaims(), servers);
    OnlyListedClaimed(config, claims, Unlisted(order, config), n);
    if n in claims.plugins { OnlyListedInServers(config, NoClaims(), servers, n); }
  }

  lemma OwnerIsServed(order: Order, config: Config, l: string, n: string)
    requires ValidOrder(order) && OwnsPlugins(config, l) && ListsIn(config, Location, l, "plugins", n)
    ensures n in AllClaims(order, config).plugins
  {
    var servers := Names(order, config, Server);
    var claims := ServerClaims(config, NoClaims(), servers);
    OwnerClaimsInServers(config, NoClaims(), servers, l, n);
    if l in Embedded(config, servers) {
      ClaimsGrow(config, claims, Unlisted(order, config));
    } else {
      WithoutMembers(Names(order, config, Location), Embedded(config, servers));
      NamesList(order, config, Location, l);
      OwnerClaims(config, claims, Unlisted(order, config), l, n);
    }
  }
}
