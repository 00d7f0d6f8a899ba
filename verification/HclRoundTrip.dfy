/** What reading back a printed HCL document gives, entry by entry. */
module HclRoundTrip {
  import opened Toml
  import opened Assembly
  import opened Hcl

  // ---- lists of names -------------------------------------------------------------------

  /** The names that have a table in the section. */
  function Existing(config: Config, c: Category, names: seq<string>): seq<string> {
    if names == [] then []
    else (if Item(config, c, names[0]).Some? then [names[0]] else []) + Existing(config, c, names[1..])
  }

  lemma {:induction false} ExistingMembers(config: Config, c: Category, names: seq<string>, n: string)
    ensures n in Existing(config, c, names) <==> n in names && Item(config, c, n).Some?
  {
    if names != [] { ExistingMembers(config, c, names[1..], n); }
  }

  lemma {:induction false} ExistingAll(config: Config, c: Category, names: seq<string>)
    requires forall n <- names :: Item(config, c, n).Some?
    ensures Existing(config, c, names) == names
  {
    if names != [] { ExistingAll(config, c, names[1..]); }
  }

  lemma {:induction false} AppendNewDistinct(all: seq<string>, names: seq<string>)
    requires Distinct(all)
    ensures Distinct(AppendNew(all, names))
    ensures forall n :: n in AppendNew(all, names) ==> n in all || n in names
    decreases |names|
  {
    if names != [] {
      AppendNewDistinct(if names[0] in all then all else all + [names[0]], names[1..]);
    }
  }

  lemma {:induction false} AppendNewOfNew(all: seq<string>, names: seq<string>)
    requires Distinct(all + names)
    ensures AppendNew(all, names) == all + names
    decreases |names|
  {
    if names != [] {
      assert (all + names)[|all|] == names[0];
      forall i | 0 <= i < |all| ensures all[i] != names[0] {
        assert (all + names)[i] == all[i];
      }
      assert all + [names[0]] + names[1..] == all + names;
      AppendNewOfNew(all + [names[0]], names[1..]);
    }
  }

  predicate AllStrings(v: Value) {
    v.Arr? && forall x <- v.items :: x.Str?
  }

  lemma {:induction false} StringsOfArray(names: seq<string>)
    ensures Strings(StringArray(names).items) == names
  {
    if names != [] {
      assert StringArray(names).items[1..] == StringArray(names[1..]).items;
      StringsOfArray(names[1..]);
    }
  }

  lemma {:induction false} ArrayOfStrings(items: seq<Value>)
    requires forall x <- items :: x.Str?
    ensures StringArray(Strings(items)) == Arr(items)
  {
    if items != [] {
      ArrayOfStrings(items[1..]);
      assert Strings(items) == [items[0].text] + Strings(items[1..]);
    }
  }

  /** A list that names existing items only, each once. */
  predicate CleanList(config: Config, c: Category, v: Value) {
    && AllStrings(v)
    && Distinct(Strings(v.items))
    && forall n <- Strings(v.items) :: Item(config, c, n).Some?
  }

  /** Collecting the names of the written blocks gives a list back just when it is clean. */
  lemma ListRestoredIff(config: Config, c: Category, v: Value)
    requires v.Arr?
    ensures StringArray(AppendNew([], Existing(config, c, Strings(v.items)))) == v <==> CleanList(config, c, v)
  {
    var names := Strings(v.items);
    var back := AppendNew([], Existing(config, c, names));
    AppendNewDistinct([], Existing(config, c, names));
    if CleanList(config, c, v) {
      ExistingAll(config, c, names);
      assert [] + names == names;
      AppendNewOfNew([], names);
      ArrayOfStrings(v.items);
    }
    if StringArray(back) == v {
      StringsOfArray(back);
      forall n | n in names ensures Item(config, c, n).Some? {
        ExistingMembers(config, c, names, n);
      }
    }
  }

  // ---- blocks of plain items ------------------------------------------------------------

  /** What an item that is written reads back as. */
  function ReadBack(config: Config, c: Category, n: string, written: bool): Option<Value> {
    if written && Item(config, c, n).Some? then Some(Table(Attrs(Item(config, c, n).value))) else None
  }

  lemma PrependBlock(b: HclBlock, rest: seq<HclBlock>, c: Category, n: string)
    ensures Field(TablesIn([b] + rest, c), n) ==
            if n in TablesIn(rest, c) then Some(TablesIn(rest, c)[n])
            else if Labelled(b, c) && b.name.value == n then Some(Table(b.body.attrs))
            else None
    ensures LabelsIn([b] + rest, c) == (if Labelled(b, c) then [b.name.value] else []) + LabelsIn(rest, c)
  {
    assert ([b] + rest)[1..] == rest;
  }

  lemma {:induction false} ItemsRead(config: Config, c: Category, names: seq<string>, n: string)
    ensures Field(TablesIn(EmitItems(config, c, names), c), n) == ReadBack(config, c, n, n in names)
    ensures LabelsIn(EmitItems(config, c, names), c) == Existing(config, c, names)
  {
    if names != [] {
      var rest := EmitItems(config, c, names[1..]);
      ItemsRead(config, c, names[1..], n);
      if Item(config, c, names[0]).Some? {
        PrependBlock(NamedBlock(c, names[0], Item(config, c, names[0]).value), rest, c, n);
      } else {
        assert EmitItems(config, c, names) == rest;
      }
    }
  }

  lemma {:induction false} ItemsHideOthers(config: Config, c: Category, names: seq<string>, d: Category)
    requires c != d
    ensures TablesIn(EmitItems(config, c, names), d) == map[] && LabelsIn(EmitItems(config, c, names), d) == []
  {
    if names != [] {
      var bs, rest := EmitItems(config, c, names), EmitItems(config, c, names[1..]);
      ItemsHideOthers(config, c, names[1..], d);
      if Item(config, c, names[0]).Some? {
        assert bs[1..] == rest;
      } else {
        assert bs == rest;
      }
    }
  }

  // ---- locations ------------------------------------------------------------------------

  function ReadLocation(config: Config, claims: Claims, loc: Fields): ParsedLocation {
    ParseLocation(LocationBody(config, claims, loc))
  }

  lemma LocationBlocks(config: Config, claims: Claims, loc: Fields, n: string)
    ensures var bs := LocationBody(config, claims, loc).blocks;
            var u, ps := EmbeddedUpstream(config, claims, loc), EmbeddedPlugins(config, claims, loc);
            && LabelsIn(bs, Upstream) == (if u.Some? then [u.value] else [])
            && LabelsIn(bs, Plugin) == (if ps.Some? then Existing(config, Plugin, ps.value) else [])
            && Field(TablesIn(bs, Upstream), n) == ReadBack(config, Upstream, n, u == Some(n))
            && Field(TablesIn(bs, Plugin), n) == ReadBack(config, Plugin, n, ps.Some? && n in ps.value)
  {
    var u, ps := EmbeddedUpstream(config, claims, loc), EmbeddedPlugins(config, claims, loc);
    var names := if ps.Some? then ps.value else [];
    var plugins := EmitItems(config, Plugin, names);
    ItemsRead(config, Plugin, names, n);
    ItemsHideOthers(config, Plugin, names, Upstream);
    if u.Some? {
      var b := NamedBlock(Upstream, u.value, Item(config, Upstream, u.value).value);
      PrependBlock(b, plugins, Upstream, n);
      PrependBlock(b, plugins, Plugin, n);
    } else {
      assert LocationBody(config, claims, loc).blocks == plugins;
    }
  }

  /** A location brings back exactly the upstreams and plugins it claimed. */
  lemma LocationBringsClaims(config: Config, claims: Claims, loc: Fields, n: string)
    ensures Field(ReadLocation(config, claims, loc).upstreams, n) ==
            ReadBack(config, Upstream, n, n in Claim(config, claims, loc).upstreams - claims.upstreams)
    ensures Field(ReadLocation(config, claims, loc).plugins, n) ==
            ReadBack(config, Plugin, n, n in Claim(config, claims, loc).plugins - claims.plugins)
  {
    LocationBlocks(config, claims, loc, n);
  }

  predicate FlatFields(fields: Fields) {
    forall a <- fields :: Flat(fields[a])
  }

  lemma AttrsStableIff(fields: Fields)
    ensures Attrs(fields) == fields <==> FlatFields(fields)
  {
    forall a | a in fields ensures HclValue(fields[a]) == fields[a] <==> Flat(fields[a]) {
      FlatIffStable(fields[a]);
    }
    if Attrs(fields) == fields {
      forall a | a in fields ensures Flat(fields[a]) {
        assert Attrs(fields)[a] == fields[a];
      }
    }
  }

  /** If a location's plugins are written inside it, their list is clean. */
  predicate PluginListKept(config: Config, claims: Claims, loc: Fields) {
    EmbeddedPlugins(config, claims, loc).Some? ==> CleanList(config, Plugin, loc[PLUGINS])
  }

  /** The attributes of a location as read back. */
  lemma LocationAttrs(config: Config, claims: Claims, loc: Fields)
    ensures var u, ps := EmbeddedUpstream(config, claims, loc), EmbeddedPlugins(config, claims, loc);
            var names := if ps.Some? then Existing(config, Plugin, ps.value) else [];
            var kept := Attrs(loc - Skipped(config, claims, loc));
            var up := if u.Some? then kept[UPSTREAM := Str(u.value)] else kept;
            ReadLocation(config, claims, loc).location ==
            if names != [] then up[PLUGINS := StringArray(AppendNew([], names))] else up
  {
    LocationBlocks(config, claims, loc, "");
    assert UPSTREAM != PLUGINS by { assert |UPSTREAM| == 8 && |PLUGINS| == 7; }
  }

  lemma CleanIsFlat(config: Config, c: Category, v: Value)
    requires CleanList(config, c, v)
    ensures Flat(v)
  {}

  /** One attribute of a location that is there reads back unchanged just when this holds. */
  predicate AttrKept(config: Config, claims: Claims, loc: Fields, a: string)
    requires a in loc
  {
    Flat(loc[a]) && (a == PLUGINS ==> PluginListKept(config, claims, loc))
  }

  lemma PluginAttrKeptIff(config: Config, claims: Claims, loc: Fields)
    requires EmbeddedPlugins(config, claims, loc).Some?
    ensures Field(ReadLocation(config, claims, loc).location, PLUGINS) == Some(loc[PLUGINS]) <==>
            AttrKept(config, claims, loc, PLUGINS)
  {
    LocationAttrs(config, claims, loc);
    var v, names := loc[PLUGINS], EmbeddedPlugins(config, claims, loc).value;
    ListRestoredIff(config, Plugin, v);
    if CleanList(config, Plugin, v) {
      CleanIsFlat(config, Plugin, v);
      ExistingAll(config, Plugin, names);
    }
    assert UPSTREAM != PLUGINS by { assert |UPSTREAM| == 8 && |PLUGINS| == 7; }
  }

  lemma AttrKeptIff(config: Config, claims: Claims, loc: Fields, a: string)
    ensures var got := Field(ReadLocation(config, claims, loc).location, a);
            if a in loc then got == Some(loc[a]) <==> AttrKept(config, claims, loc, a) else got == None
  {
    if a == PLUGINS && EmbeddedPlugins(config, claims, loc).Some? {
      PluginAttrKeptIff(config, claims, loc);
    } else {
      LocationAttrs(config, claims, loc);
      if a in loc { FlatIffStable(loc[a]); }
    }
  }

  /** A location reads back as it was just when nothing in it is nested and its embedded list is clean. */
  lemma LocationKeptIff(config: Config, claims: Claims, loc: Fields)
    ensures ReadLocation(config, claims, loc).location == loc <==>
            FlatFields(loc) && PluginListKept(config, claims, loc)
  {
    var got := ReadLocation(config, claims, loc).location;
    forall a
      ensures if a in loc then Field(got, a) == Field(loc, a) <==> AttrKept(config, claims, loc, a)
              else Field(got, a) == Field(loc, a)
    {
      AttrKeptIff(config, claims, loc, a);
    }
    SameFieldsIff(got, loc);
    if got == loc && EmbeddedPlugins(config, claims, loc).Some? {
      assert AttrKept(config, claims, loc, PLUGINS);
    }
    assert (forall a <- loc :: AttrKept(config, claims, loc, a)) <==> got == loc;
  }
}
