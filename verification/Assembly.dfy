/**
 * Assembling parsed blocks into one configuration. Both block formats hand over the same blocks;
 * entries nested in servers and locations are lifted to their own sections.
 */
module Assembly {
  import opened Toml
  import D = DisjointUnion

  datatype ParsedLocation = ParsedLocation(location: Fields, upstreams: Fields, plugins: Fields)

  datatype ParsedServer = ParsedServer(
    server: Fields, locations: Fields, upstreams: Fields, plugins: Fields, certificates: Fields)

  /** A parsed block. Upstreams, plugins, certificates and storages are plain items. */
  datatype Block =
    | BasicBlock(table: Fields)
    | ServerBlock(name: string, server: ParsedServer)
    | LocationBlock(name: string, location: ParsedLocation)
    | ItemBlock(category: Category, name: string, table: Fields)

  /**
   * Where an entry is collected: plugins and certificates found inside servers and locations are
   * gathered apart from those at the top level and joined with them at the end.
   */
  type Place = D.Place<Key>

  type Collected = map<Place, Value>

  function Tag(c: Category, nested: bool, fields: Fields): Collected
    requires !c.Basic?
  {
    map p: Place | p in (set n | n in fields :: D.Place(KeyOf(c, n), nested)) :: fields[p.key.name]
  }

  function One(c: Category, name: string, v: Value): Collected {
    map[D.Place(KeyOf(c, name), false) := v]
  }

  /** The inserts one block causes. */
  function Collects(b: Block): Collected {
    match b
    case BasicBlock(t) => One(Basic, "", Table(t))
    case ServerBlock(n, p) =>
      One(Server, n, Table(p.server)) + Tag(Location, false, p.locations) +
      Tag(Upstream, false, p.upstreams) + Tag(Plugin, true, p.plugins) +
      Tag(Certificate, true, p.certificates)
    case LocationBlock(n, p) =>
      One(Location, n, Table(p.location)) + Tag(Upstream, false, p.upstreams) + Tag(Plugin, true, p.plugins)
    case ItemBlock(c, n, t) => One(c, n, Table(t))
  }

  /** The entries a block stands for, wherever they are collected. */
  function Contribution(b: Block): Config {
    D.Project(Collects(b))
  }

  function CollectsAll(blocks: seq<Block>): seq<Collected> {
    D.MapSeq(Collects, blocks)
  }

  function Contributions(blocks: seq<Block>): seq<Config> {
    D.MapSeq(Contribution, blocks)
  }

  /** The assembled configuration: the disjoint union of all contributions, or an error. */
  ghost function Assemble(blocks: seq<Block>): Result<Config> {
    D.Merge(Contributions(blocks))
  }

  // ---- contributions, entry by entry ----------------------------------------------------

  /** What a server block says about an entry. */
  function ServerSays(n: string, p: ParsedServer, k: Key): Option<Value> {
    match k.category
    case Server => if k.name == n then Some(Table(p.server)) else None
    case Location => Field(p.locations, k.name)
    case Upstream => Field(p.upstreams, k.name)
    case Plugin => Field(p.plugins, k.name)
    case Certificate => Field(p.certificates, k.name)
    case _ => None
  }

  function LocationSays(n: string, p: ParsedLocation, k: Key): Option<Value> {
    match k.category
    case Location => if k.name == n then Some(Table(p.location)) else None
    case Upstream => Field(p.upstreams, k.name)
    case Plugin => Field(p.plugins, k.name)
    case _ => None
  }

  function Field(fields: Fields, n: string): Option<Value> {
    if n in fields then Some(fields[n]) else None
  }

  function Says(b: Block, k: Key): Option<Value> {
    match b
    case BasicBlock(t) => if k.category.Basic? then Some(Table(t)) else None
    case ServerBlock(n, p) => ServerSays(n, p, k)
    case LocationBlock(n, p) => LocationSays(n, p, k)
    case ItemBlock(c, n, t) => if k == KeyOf(c, n) then Some(Table(t)) else None
  }

  /** The only place a block can collect an entry in. */
  predicate NestedIn(b: Block, c: Category) {
    (b.ServerBlock? || b.LocationBlock?) && KeptApart(c)
  }

  /** What a collection of one category says about a place. */
  ghost predicate IsTag(m: Collected, c: Category, nested: bool, fields: Fields, p: Place) {
    && (p in m <==> p.key.category == c && p.nested == nested && p.key.name in fields)
    && (p in m ==> m[p] == fields[p.key.name])
  }

  ghost predicate IsOne(m: Collected, c: Category, name: string, v: Value, p: Place) {
    (p in m <==> p == D.Place(KeyOf(c, name), false)) && (p in m ==> m[p] == v)
  }

  lemma TagAt(c: Category, nested: bool, fields: Fields, p: Place)
    requires !c.Basic?
    ensures IsTag(Tag(c, nested, fields), c, nested, fields, p)
  {
    if p.key.category == c && p.nested == nested && p.key.name in fields {
      assert p == D.Place(KeyOf(c, p.key.name), nested);
    }
  }

  lemma OneAt(c: Category, name: string, v: Value, p: Place)
    ensures IsOne(One(c, name, v), c, name, v, p)
  {}

  predicate KeptApart(c: Category) {
    c.Plugin? || c.Certificate?
  }

  lemma ServerPlaces(n: string, s: ParsedServer, p: Place,
                     a: Collected, b: Collected, c: Collected, d: Collected, e: Collected)
    requires IsOne(a, Server, n, Table(s.server), p) && IsTag(b, Location, false, s.locations, p)
    requires IsTag(c, Upstream, false, s.upstreams, p) && IsTag(d, Plugin, true, s.plugins, p)
    requires IsTag(e, Certificate, true, s.certificates, p)
    ensures p in a + b + c + d + e <==> ServerSays(n, s, p.key).Some? && p.nested == KeptApart(p.key.category)
    ensures p in a + b + c + d + e ==> (a + b + c + d + e)[p] == ServerSays(n, s, p.key).value
  {
    assert p == D.Place(p.key, p.nested);
  }

  lemma LocationPlaces(n: string, l: ParsedLocation, p: Place, a: Collected, b: Collected, c: Collected)
    requires IsOne(a, Location, n, Table(l.location), p) && IsTag(b, Upstream, false, l.upstreams, p)
    requires IsTag(c, Plugin, true, l.plugins, p)
    ensures p in a + b + c <==> LocationSays(n, l, p.key).Some? && p.nested == KeptApart(p.key.category)
    ensures p in a + b + c ==> (a + b + c)[p] == LocationSays(n, l, p.key).value
  {
    assert p == D.Place(p.key, p.nested);
  }

  lemma ServerCollects(n: string, s: ParsedServer, p: Place)
    ensures p in Collects(ServerBlock(n, s)) <==>
            ServerSays(n, s, p.key).Some? && p.nested == KeptApart(p.key.category)
    ensures p in Collects(ServerBlock(n, s)) ==> Collects(ServerBlock(n, s))[p] == ServerSays(n, s, p.key).value
  {
    OneAt(Server, n, Table(s.server), p);
    TagAt(Location, false, s.locations, p);
    TagAt(Upstream, false, s.upstreams, p);
    TagAt(Plugin, true, s.plugins, p);
    TagAt(Certificate, true, s.certificates, p);
    ServerPlaces(n, s, p, One(Server, n, Table(s.server)), Tag(Location, false, s.locations),
                 Tag(Upstream, false, s.upstreams), Tag(Plugin, true, s.plugins),
                 Tag(Certificate, true, s.certificates));
  }

  lemma LocationCollects(n: string, l: ParsedLocation, p: Place)
    ensures p in Collects(LocationBlock(n, l)) <==>
            LocationSays(n, l, p.key).Some? && p.nested == KeptApart(p.key.category)
    ensures p in Collects(LocationBlock(n, l)) ==> Collects(LocationBlock(n, l))[p] == LocationSays(n, l, p.key).value
  {
    OneAt(Location, n, Table(l.location), p);
    TagAt(Upstream, false, l.upstreams, p);
    TagAt(Plugin, true, l.plugins, p);
    LocationPlaces(n, l, p, One(Location, n, Table(l.location)), Tag(Upstream, false, l.upstreams),
                   Tag(Plugin, true, l.plugins));
  }

  lemma CollectsAt(b: Block, k: Key, nested: bool)
    ensures D.Place(k, nested) in Collects(b) <==> Says(b, k).Some? && nested == NestedIn(b, k.category)
    ensures D.Place(k, nested) in Collects(b) ==> Collects(b)[D.Place(k, nested)] == Says(b, k).value
  {
    match b
    case BasicBlock(_) =>
    case ServerBlock(n, s) => ServerCollects(n, s, D.Place(k, nested));
    case LocationBlock(n, l) => LocationCollects(n, l, D.Place(k, nested));
    case ItemBlock(_, _, _) =>
  }

  lemma CollectsApart(b: Block)
    ensures D.Apart(Collects(b))
  {
    forall k: Key | D.Place(k, false) in Collects(b) ensures D.Place(k, true) !in Collects(b) {
      CollectsAt(b, k, false);
      CollectsAt(b, k, true);
    }
  }

  lemma ContributionAt(b: Block, k: Key)
    ensures k in Contribution(b) <==> Says(b, k).Some?
    ensures k in Contribution(b) ==> Contribution(b)[k] == Says(b, k).value
  {
    D.ProjectMembers(Collects(b), k);
    CollectsAt(b, k, false);
    CollectsAt(b, k, true);
  }

  // ---- order independence ---------------------------------------------------------------

  lemma SameFieldsIff(a: Fields, b: Fields)
    ensures a == b <==> forall n :: Field(a, n) == Field(b, n)
  {
    if forall n :: Field(a, n) == Field(b, n) {
      forall n ensures (n in a <==> n in b) && (n in a ==> a[n] == b[n]) {
        assert Field(a, n) == Field(b, n);
      }
    }
  }

  function EntryOf(config: Config, k: Key): Option<Value> {
    if k in config then Some(config[k]) else None
  }

  lemma SameConfigIff(a: Config, b: Config)
    ensures a == b <==> forall k: Key :: EntryOf(a, k) == EntryOf(b, k)
  {
    if forall k: Key :: EntryOf(a, k) == EntryOf(b, k) {
      forall k: Key ensures (k in a <==> k in b) && (k in a ==> a[k] == b[k]) {
        assert EntryOf(a, k) == EntryOf(b, k);
      }
    }
  }

  // ---- which blocks speak about an entry ------------------------------------------------

  /** How many blocks say something about an entry. */
  function Count(blocks: seq<Block>, k: Key): nat {
    if blocks == [] then 0 else (if Says(blocks[0], k).Some? then 1 else 0) + Count(blocks[1..], k)
  }

  /** What the first block to say something about an entry says. */
  function First(blocks: seq<Block>, k: Key): Option<Value> {
    if blocks == [] then None
    else if Says(blocks[0], k).Some? then Says(blocks[0], k)
    else First(blocks[1..], k)
  }

  lemma {:induction false} CountAppend(a: seq<Block>, b: seq<Block>, k: Key)
    ensures Count(a + b, k) == Count(a, k) + Count(b, k)
    ensures First(a + b, k) == if First(a, k).Some? then First(a, k) else First(b, k)
  {
    if a == [] {
      assert a + b == b;
    } else {
      assert (a + b)[1..] == a[1..] + b;
      CountAppend(a[1..], b, k);
    }
  }

  lemma {:induction false} FirstSays(blocks: seq<Block>, k: Key)
    ensures First(blocks, k).None? <==> Count(blocks, k) == 0
    ensures Count(blocks, k) == 0 ==> forall i :: 0 <= i < |blocks| ==> Says(blocks[i], k).None?
    ensures Count(blocks, k) > 0 ==>
              exists i :: 0 <= i < |blocks| && Says(blocks[i], k).Some? && First(blocks, k) == Says(blocks[i], k)
  {
    if blocks != [] {
      FirstSays(blocks[1..], k);
      if Says(blocks[0], k).None? && Count(blocks, k) > 0 {
        var i :| 0 <= i < |blocks[1..]| && Says(blocks[1..][i], k).Some?
              && First(blocks[1..], k) == Says(blocks[1..][i], k);
        assert blocks[1..][i] == blocks[i + 1];
      }
    }
  }

  lemma {:induction false} CountTwo(blocks: seq<Block>, k: Key)
    ensures Count(blocks, k) >= 2 <==>
            exists i, j :: 0 <= i < j < |blocks| && Says(blocks[i], k).Some? && Says(blocks[j], k).Some?
  {
    if blocks != [] {
      var rest := blocks[1..];
      CountTwo(rest, k);
      FirstSays(rest, k);
      if i, j :| 0 <= i < j < |rest| && Says(rest[i], k).Some? && Says(rest[j], k).Some? {
        assert rest[i] == blocks[i + 1] && rest[j] == blocks[j + 1];
      }
      if Says(blocks[0], k).Some? && Count(rest, k) > 0 {
        var j :| 0 <= j < |rest| && Says(rest[j], k).Some?;
        assert rest[j] == blocks[j + 1];
      }
      if i, j :| 0 <= i < j < |blocks| && Says(blocks[i], k).Some? && Says(blocks[j], k).Some? {
        assert rest[j - 1] == blocks[j];
        if i > 0 { assert rest[i - 1] == blocks[i]; }
      }
    }
  }

  lemma GivesSays(blocks: seq<Block>, i: int, k: Key)
    ensures D.Gives(Contributions(blocks), i, k) <==> 0 <= i < |blocks| && Says(blocks[i], k).Some?
    ensures D.Gives(Contributions(blocks), i, k) ==> Contributions(blocks)[i][k] == Says(blocks[i], k).value
  {
    if 0 <= i < |blocks| { ContributionAt(blocks[i], k); }
  }

  lemma AssembleErrIff(blocks: seq<Block>)
    ensures Assemble(blocks).Err? <==> exists k: Key :: Count(blocks, k) >= 2
  {
    var parts := Contributions(blocks);
    if D.Conflict(parts) {
      var i, j, k :| i < j && D.Gives(parts, i, k) && D.Gives(parts, j, k);
      GivesSays(blocks, i, k);
      GivesSays(blocks, j, k);
      CountTwo(blocks, k);
    }
    if k: Key :| Count(blocks, k) >= 2 {
      CountTwo(blocks, k);
      var i, j :| 0 <= i < j < |blocks| && Says(blocks[i], k).Some? && Says(blocks[j], k).Some?;
      GivesSays(blocks, i, k);
      GivesSays(blocks, j, k);
      assert D.Gives(parts, i, k) && D.Gives(parts, j, k);
    }
  }

  /** An assembled entry is what the one block that speaks about it says. */
  lemma AssembleAt(blocks: seq<Block>, k: Key)
    requires Assemble(blocks).Ok?
    ensures First(blocks, k) == EntryOf(Assemble(blocks).value, k)
  {
    var parts := Contributions(blocks);
    D.UnionMembers(parts, k);
    FirstSays(blocks, k);
    if Count(blocks, k) > 0 {
      var i :| 0 <= i < |blocks| && Says(blocks[i], k).Some? && First(blocks, k) == Says(blocks[i], k);
      GivesSays(blocks, i, k);
      D.UnionValue(parts, i, k);
    } else {
      forall i ensures !D.Gives(parts, i, k) {
        GivesSays(blocks, i, k);
      }
    }
  }

  /** Blocks can come in any order: neither the outcome nor the result depends on it. */
  lemma AssembleAnyOrder(a: seq<Block>, b: seq<Block>)
    requires multiset(a) == multiset(b)
    ensures Assemble(a) == Assemble(b)
  {
    D.MapPermute(Contribution, a, b);
    D.MergeAnyOrder(Contributions(a), Contributions(b));
  }

  // ---- the loop -------------------------------------------------------------------------

  /** Inserts every entry of `src`, failing on the first name already present. */
  method MergeUnique(dst: Collected, src: Collected) returns (r: Result<Collected>)
    ensures r == D.Join(src, Ok(dst))
  {
    var out := dst;
    var rest := src.Keys;
    while rest != {}
      invariant rest <= src.Keys
      invariant forall p :: p in src && p !in rest ==> p !in dst
      invariant forall p :: p in out <==> p in dst || (p in src && p !in rest)
      invariant forall p :: p in out ==> out[p] == if p in dst then dst[p] else src[p]
      decreases |rest|
    {
      var p :| p in rest;
      if p in out {
        assert p in dst;
        return Err;
      }
      out := out[p := src[p]];
      rest := rest - {p};
    }
    assert out == dst + src;
    r := Ok(out);
  }

  /** Joins the two collections of each section, failing on a name found in both. */
  method JoinNested(collected: Collected) returns (r: Result<Config>)
    ensures r == if D.Apart(collected) then Ok(D.Project(collected)) else Err
  {
    var rest := collected.Keys;
    while rest != {}
      invariant rest <= collected.Keys
      invariant forall k: Key :: D.Place(k, true) in collected && D.Place(k, true) !in rest
                  ==> D.Place(k, false) !in collected
      decreases |rest|
    {
      var p :| p in rest;
      if p.nested && D.Place(p.key, false) in collected {
        assert D.Place(p.key, true) == p;
        return Err;
      }
      rest := rest - {p};
    }
    r := Ok(D.Project(collected));
  }

  lemma CollectsNext(blocks: seq<Block>, i: nat)
    requires i < |blocks|
    ensures D.Merge(CollectsAll(blocks[..i + 1])) == D.Join(Collects(blocks[i]), D.Merge(CollectsAll(blocks[..i])))
  {
    var before := CollectsAll(blocks[..i]);
    assert CollectsAll(blocks[..i + 1]) == D.InsertAt(before, i, Collects(blocks[i]));
    D.InsertJoins(before, i, Collects(blocks[i]));
  }

  lemma CollectsPrefix(blocks: seq<Block>, i: nat)
    requires i <= |blocks| && D.Merge(CollectsAll(blocks[..i])).Err?
    ensures D.Merge(CollectsAll(blocks)).Err?
  {
    assert CollectsAll(blocks[..i]) == CollectsAll(blocks)[..i];
    D.PrefixConflict(CollectsAll(blocks), i);
  }

  /** Collecting in two places and joining them gives the assembled configuration. */
  lemma AssembleIsCollectThenJoin(blocks: seq<Block>)
    ensures var m := D.Merge(CollectsAll(blocks));
            Assemble(blocks) == if m.Ok? && D.Apart(m.value) then Ok(D.Project(m.value)) else Err
  {
    var parts := CollectsAll(blocks);
    forall i | 0 <= i < |parts| ensures D.Apart(parts[i]) {
      CollectsApart(blocks[i]);
    }
    D.MapProject(Collects, Contribution, blocks);
    D.CollectThenJoin(parts);
  }

  /** Collects the blocks one by one, failing on the first entry already collected. */
  method CollectBlocks(blocks: seq<Block>) returns (r: Result<Collected>)
    ensures r == D.Merge(CollectsAll(blocks))
  {
    var collected: Collected := map[];
    assert CollectsAll(blocks[..0]) == [];
    for i := 0 to |blocks|
      invariant D.Merge(CollectsAll(blocks[..i])) == Ok(collected)
    {
      CollectsNext(blocks, i);
      var merged := MergeUnique(collected, Collects(blocks[i]));
      if merged.Err? {
        CollectsPrefix(blocks, i + 1);
        return Err;
      }
      collected := merged.value;
    }
    assert blocks[..|blocks|] == blocks;
    r := Ok(collected);
  }

  /** Assembles the blocks: an error exactly when two of them contribute the same entry. */
  method AssembleToml(blocks: seq<Block>) returns (r: Result<Config>)
    ensures r == Assemble(blocks)
  {
    AssembleIsCollectThenJoin(blocks);
    var collected := CollectBlocks(blocks);
    if collected.Err? {
      return Err;
    }
    r := JoinNested(collected.value);
  }
}
