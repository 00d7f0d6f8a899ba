/** A whole save over any directory that can be loaded, canonical or not. */
module AnySave {
  import opened Toml
  import opened Layout
  import opened ConfigStore
  import opened ConfigRefinement
  import opened WholeSave

  // ---- shared files ---------------------------------------------------------------------

  predicate OpensNew(mode: Mode, config: Loaded, f: FileKey, c: Category) {
    NewContent(mode, config, f).Doc? && c in NewContent(mode, config, f).headers
  }

  /** The files that stay hold nothing, and open no section a rewritten file opens. */
  ghost predicate SharedFits(mode: Mode, dir: Dir, config: Loaded) {
    && (forall f, k: Key :: Holds(dir, f, k) ==> Rewrites(mode, config.entries, f))
    && (forall f, g, c: Category ::
          Opens(dir, f, c) && !Rewrites(mode, config.entries, f) && Rewrites(mode, config.entries, g) ==>
            !OpensNew(mode, config, g, c))
  }

  lemma SharedContent(mode: Mode, config: Loaded, f: FileKey)
    requires !mode.MultiByItem? && Rewrites(mode, config.entries, f)
    ensures NewContent(mode, config, f).Doc?
    ensures forall k: Key :: k in NewContent(mode, config, f).entries <==> k in config.entries && Home(mode, k) == f
    ensures forall c :: c in NewContent(mode, config, f).headers ==> mode.Single? || f == CategoryFile(c)
  {}

  lemma SharedSays(mode: Mode, config: Loaded, dir: Dir, after: Dir, f: FileKey)
    requires !mode.MultiByItem? && Saved(mode, config.entries, config, dir, after)
    ensures if Rewrites(mode, config.entries, f)
            then f in after && after[f] == NewContent(mode, config, f) && after[f].Doc?
            else SameFile(after, dir, f)
  {
    if Rewrites(mode, config.entries, f) { SharedContent(mode, config, f); }
  }

  lemma SharedFitsParses(mode: Mode, config: Loaded, dir: Dir, after: Dir)
    requires !mode.MultiByItem? && Saved(mode, config.entries, config, dir, after)
    requires Parses(dir) && SharedFits(mode, dir, config)
    ensures Parses(after) && Merged(after) == config.entries
  {
    forall f | f in after ensures after[f].Doc? { SharedSays(mode, config, dir, after, f); }
    forall f, k: Key | Holds(after, f, k)
      ensures Home(mode, k) == f && k in config.entries && after[f].entries[k] == config.entries[k]
    {
      SharedHolds(mode, config, dir, after, f, k);
    }
    forall f, g, c: Category | Opens(after, f, c) && Opens(after, g, c) ensures f == g {
      SharedSays(mode, config, dir, after, f);
      SharedSays(mode, config, dir, after, g);
      SharedOpens(mode, config, dir, after, f, c);
      SharedOpens(mode, config, dir, after, g, c);
    }
    forall k: Key ensures SameAt(Merged(after), config.entries, k) {
      if k in Merged(after) { var f := MergedFrom(after, k); }
      if k in config.entries {
        SharedHolds(mode, config, dir, after, Home(mode, k), k);
        MergedAt(after, Home(mode, k), k);
      }
    }
    SameEverywhere(Merged(after), config.entries);
  }

  lemma SharedFitsNeeded(mode: Mode, config: Loaded, dir: Dir, after: Dir)
    requires !mode.MultiByItem? && Saved(mode, config.entries, config, dir, after)
    requires Parses(after) && Merged(after) == config.entries
    ensures SharedFits(mode, dir, config)
  {
    forall f, k: Key | Holds(dir, f, k) ensures Rewrites(mode, config.entries, f) {
      if !Rewrites(mode, config.entries, f) {
        SharedHolds(mode, config, dir, after, f, k);
        MergedAt(after, f, k);
        SharedHolds(mode, config, dir, after, Home(mode, k), k);
        assert false;
      }
    }
    forall f, g, c: Category |
      Opens(dir, f, c) && !Rewrites(mode, config.entries, f) && Rewrites(mode, config.entries, g)
      ensures !OpensNew(mode, config, g, c)
    {
      SharedSays(mode, config, dir, after, f);
      SharedSays(mode, config, dir, after, g);
      assert Opens(after, f, c);
      assert OpensNew(mode, config, g, c) ==> Opens(after, g, c);
    }
  }

  // ---- per item -------------------------------------------------------------------------

  /** The entry is written as a field of the item of its section without a name. */
  predicate WrittenAsField(saved: Config, k: Key) {
    && !k.category.Basic?
    && var item := KeyOf(k.category, "");
       item in saved && saved[item].Table? && k.name in saved[item].entries
  }

  function FieldValue(saved: Config, k: Key): Value
    requires WrittenAsField(saved, k)
  {
    saved[KeyOf(k.category, "")].entries[k.name]
  }

  /** What a file that stays may hold: not the basic section, and nothing that gets a file of its own. */
  ghost predicate KeptFits(dir: Dir, saved: Config) {
    forall f, k: Key :: Holds(dir, f, k) && !Rewrites(MultiByItem, saved, f) ==>
      !k.category.Basic? && (HasFile(k) ==> k !in saved) && !WrittenAsField(saved, k)
  }

  /** An item without a name is a table and in a file that stays, with its value. */
  ghost predicate UnnamedFits(dir: Dir, saved: Config) {
    forall k <- saved :: !HasFile(k) ==>
      && saved[k].Table?
      && exists f :: !Rewrites(MultiByItem, saved, f) && Holds(dir, f, k) && dir[f].entries[k] == saved[k]
  }

  /** Its fields come back as items: each has to be an old entry that is not saved. */
  ghost predicate FieldsFit(dir: Dir, saved: Config) {
    forall k: Key :: WrittenAsField(saved, k) ==>
      k !in saved && k in Merged(dir) && Merged(dir)[k] == FieldValue(saved, k)
  }

  /** Nothing else is in a file that is rewritten for another entry. */
  ghost predicate NothingLost(dir: Dir, saved: Config) {
    forall f, k: Key :: Holds(dir, f, k) && Rewrites(MultiByItem, saved, f) && !k.category.Basic? && k !in saved ==>
      WrittenAsField(saved, k)
  }

  ghost predicate ItemFits(dir: Dir, saved: Config) {
    && KeptFits(dir, saved) && UnnamedFits(dir, saved) && FieldsFit(dir, saved) && NothingLost(dir, saved)
    && HeadersApart(dir, saved)
  }

  /** A rewritten file holds an entry it is the home of, or a field. */
  lemma StoresIs(saved: Config, f: FileKey, k: Key)
    requires Rewrites(MultiByItem, saved, f)
    ensures Stores(saved, f, k).Some? <==>
            || (k in saved && HasFile(k) && Home(MultiByItem, k) == f)
            || (WrittenAsField(saved, k) && f == ItemFile(k.category, ""))
    ensures k in saved && HasFile(k) && Home(MultiByItem, k) == f ==> Stores(saved, f, k) == Some(saved[k])
    ensures WrittenAsField(saved, k) && f == ItemFile(k.category, "") && !(k in saved && HasFile(k)) ==>
              Stores(saved, f, k) == Some(FieldValue(saved, k))
  {
    assert k == KeyOf(k.category, k.name);
  }

  lemma FieldFile(saved: Config, k: Key)
    requires WrittenAsField(saved, k)
    ensures Rewrites(MultiByItem, saved, ItemFile(k.category, ""))
  {}

  lemma FitsDoc(dir: Dir, saved: Config, after: Dir, f: FileKey)
    requires ItemSaved(dir, saved, after) && Parses(dir) && UnnamedFits(dir, saved) && f in after
    ensures after[f].Doc?
  {
    assert if Rewrites(MultiByItem, saved, f) then after[f] == ItemContent(saved, f) else SameFile(after, dir, f);
    if Rewrites(MultiByItem, saved, f) && f.ItemFile? {
      var k := KeyOf(f.category, f.name);
      assert k in saved && (f.name != "" || saved[k].Table?);
    }
  }

  lemma FitsOnce(dir: Dir, saved: Config, after: Dir, f: FileKey, g: FileKey, k: Key)
    requires ItemSaved(dir, saved, after) && Parses(dir) && KeptFits(dir, saved) && FieldsFit(dir, saved)
    requires Holds(after, f, k) && Holds(after, g, k)
    ensures f == g
  {
    ItemHolds(dir, saved, after, f, k);
    ItemHolds(dir, saved, after, g, k);
    if Rewrites(MultiByItem, saved, f) { StoresIs(saved, f, k); }
    if Rewrites(MultiByItem, saved, g) { StoresIs(saved, g, k); }
  }

  lemma FitsParses(dir: Dir, saved: Config, after: Dir)
    requires ItemSaved(dir, saved, after) && Parses(dir) && ItemFits(dir, saved)
    ensures Parses(after)
  {
    forall f | f in after ensures after[f].Doc? { FitsDoc(dir, saved, after, f); }
    forall f, g, k: Key | Holds(after, f, k) && Holds(after, g, k) ensures f == g {
      FitsOnce(dir, saved, after, f, g, k);
    }
    forall f, g, c: Category | Opens(after, f, c) && Opens(after, g, c) ensures f == g {
      ItemOpens(dir, saved, after, f, c);
      ItemOpens(dir, saved, after, g, c);
    }
  }

  /** An entry that is saved is as saved afterwards. */
  lemma SavedIsThere(dir: Dir, saved: Config, after: Dir, k: Key)
    requires ItemSaved(dir, saved, after) && UnnamedFits(dir, saved) && Parses(after) && k in saved
    ensures k in Merged(after) && Merged(after)[k] == saved[k]
  {
    if HasFile(k) {
      HomeRewritten(saved, k);
      StoresIs(saved, Home(MultiByItem, k), k);
      ItemHolds(dir, saved, after, Home(MultiByItem, k), k);
      MergedAt(after, Home(MultiByItem, k), k);
    } else {
      var f :| !Rewrites(MultiByItem, saved, f) && Holds(dir, f, k) && dir[f].entries[k] == saved[k];
      ItemHolds(dir, saved, after, f, k);
      MergedAt(after, f, k);
    }
  }

  /** A field is there as an item. */
  lemma FieldIsThere(dir: Dir, saved: Config, after: Dir, k: Key)
    requires ItemSaved(dir, saved, after) && WrittenAsField(saved, k) && !(k in saved && HasFile(k))
    ensures Holds(after, ItemFile(k.category, ""), k)
    ensures after[ItemFile(k.category, "")].entries[k] == FieldValue(saved, k)
  {
    FieldFile(saved, k);
    StoresIs(saved, ItemFile(k.category, ""), k);
    ItemHolds(dir, saved, after, ItemFile(k.category, ""), k);
  }

  /** An entry that is not saved is what it was, the basic section excepted. */
  lemma RestIsThere(dir: Dir, saved: Config, after: Dir, k: Key)
    requires ItemSaved(dir, saved, after) && Parses(dir) && ItemFits(dir, saved) && Parses(after) && k !in saved
    ensures if k.category.Basic? then k !in Merged(after) else SameAt(Merged(after), Merged(dir), k)
  {
    if k in Merged(after) {
      var f := MergedFrom(after, k);
      ItemHolds(dir, saved, after, f, k);
      if Rewrites(MultiByItem, saved, f) { StoresIs(saved, f, k); } else { MergedAt(dir, f, k); }
    }
    if k in Merged(dir) && !k.category.Basic? {
      var f := MergedFrom(dir, k);
      if Rewrites(MultiByItem, saved, f) {
        FieldIsThere(dir, saved, after, k);
        MergedAt(after, ItemFile(k.category, ""), k);
      } else {
        ItemHolds(dir, saved, after, f, k);
        MergedAt(after, f, k);
      }
    }
  }

  lemma ItemFitsStores(dir: Dir, saved: Config, after: Dir)
    requires ItemSaved(dir, saved, after) && Parses(dir) && ItemFits(dir, saved)
    ensures Parses(after) && Merged(after) == AfterSave(MultiByItem, Merged(dir), saved)
  {
    FitsParses(dir, saved, after);
    var goal := AfterSave(MultiByItem, Merged(dir), saved);
    forall k: Key ensures SameAt(Merged(after), goal, k) {
      if k in saved { SavedIsThere(dir, saved, after, k); } else { RestIsThere(dir, saved, after, k); }
    }
    SameEverywhere(Merged(after), goal);
  }

  // ---- necessity ------------------------------------------------------------------------

  /** The save stored what it says. */
  ghost predicate Stored(dir: Dir, saved: Config, after: Dir) {
    Parses(after) && Merged(after) == AfterSave(MultiByItem, Merged(dir), saved)
  }

  lemma UnnamedNeeded(dir: Dir, saved: Config, after: Dir, k: Key)
    requires ItemSaved(dir, saved, after) && Stored(dir, saved, after) && k in saved && !HasFile(k)
    ensures saved[k].Table?
    ensures exists f :: !Rewrites(MultiByItem, saved, f) && Holds(dir, f, k) && dir[f].entries[k] == saved[k]
  {
    HomeRewritten(saved, k);
    assert k == KeyOf(k.category, k.name);
    assert after[Home(MultiByItem, k)] == ItemContent(saved, Home(MultiByItem, k));
    assert k in Merged(after) && Merged(after)[k] == saved[k];
    var f := MergedFrom(after, k);
    UnnamedHeldOutside(dir, saved, after, f, k);
    ItemHolds(dir, saved, after, f, k);
  }

  lemma FieldNeeded(dir: Dir, saved: Config, after: Dir, k: Key)
    requires ItemSaved(dir, saved, after) && Stored(dir, saved, after) && WrittenAsField(saved, k)
    ensures k !in saved && k in Merged(dir) && Merged(dir)[k] == FieldValue(saved, k)
  {
    var f := ItemFile(k.category, "");
    FieldFile(saved, k);
    StoresIs(saved, f, k);
    ItemHolds(dir, saved, after, f, k);
    assert Holds(after, f, k);
    if k in saved {
      if HasFile(k) {
        HomeRewritten(saved, k);
        StoresIs(saved, Home(MultiByItem, k), k);
        ItemHolds(dir, saved, after, Home(MultiByItem, k), k);
      } else {
        UnnamedNotStored(saved, f, k);
        MergedAt(after, f, k);
      }
      assert false;
    }
    MergedAt(after, f, k);
  }

  lemma KeptNeeded(dir: Dir, saved: Config, after: Dir, f: FileKey, k: Key)
    requires ItemSaved(dir, saved, after) && Stored(dir, saved, after)
    requires Holds(dir, f, k) && !Rewrites(MultiByItem, saved, f)
    ensures !k.category.Basic? && (HasFile(k) ==> k !in saved) && !WrittenAsField(saved, k)
  {
    ItemHolds(dir, saved, after, f, k);
    MergedAt(after, f, k);
    if k in saved && HasFile(k) {
      HomeRewritten(saved, k);
      StoresIs(saved, Home(MultiByItem, k), k);
      ItemHolds(dir, saved, after, Home(MultiByItem, k), k);
      assert false;
    }
    if WrittenAsField(saved, k) {
      FieldIsThere(dir, saved, after, k);
      FieldFile(saved, k);
      assert false;
    }
  }

  lemma LostNeeded(dir: Dir, saved: Config, after: Dir, f: FileKey, k: Key)
    requires ItemSaved(dir, saved, after) && Stored(dir, saved, after) && Parses(dir)
    requires Holds(dir, f, k) && Rewrites(MultiByItem, saved, f) && !k.category.Basic? && k !in saved
    ensures WrittenAsField(saved, k)
  {
    MergedAt(dir, f, k);
    assert k in Merged(after);
    var g := MergedFrom(after, k);
    ItemHolds(dir, saved, after, g, k);
    if Rewrites(MultiByItem, saved, g) { StoresIs(saved, g, k); }
  }

  lemma ItemFitsNeeded(dir: Dir, saved: Config, after: Dir)
    requires ItemSaved(dir, saved, after) && Stored(dir, saved, after) && Parses(dir)
    ensures ItemFits(dir, saved)
  {
    ParsedApart(dir, saved, after);
    forall f, k: Key | Holds(dir, f, k) && !Rewrites(MultiByItem, saved, f)
      ensures !k.category.Basic? && (HasFile(k) ==> k !in saved) && !WrittenAsField(saved, k)
    {
      KeptNeeded(dir, saved, after, f, k);
    }
    forall k | k in saved && !HasFile(k)
      ensures saved[k].Table?
      ensures exists f :: !Rewrites(MultiByItem, saved, f) && Holds(dir, f, k) && dir[f].entries[k] == saved[k]
    {
      UnnamedNeeded(dir, saved, after, k);
    }
    forall k: Key | WrittenAsField(saved, k)
      ensures k !in saved && k in Merged(dir) && Merged(dir)[k] == FieldValue(saved, k)
    {
      FieldNeeded(dir, saved, after, k);
    }
    forall f, k: Key | Holds(dir, f, k) && Rewrites(MultiByItem, saved, f) && !k.category.Basic? && k !in saved
      ensures WrittenAsField(saved, k)
    {
      LostNeeded(dir, saved, after, f, k);
    }
  }

  // ---- main result ----------------------------------------------------------------------

  /** What has to be checked of the directory before the save. */
  ghost predicate Fits(mode: Mode, dir: Dir, saved: Config, config: Loaded) {
    if mode.MultiByItem? then ItemFits(dir, saved) else SharedFits(mode, dir, config)
  }

  /**
   * For every directory that can be loaded: the next load sees the entries the save came to, and
   * per item the old ones besides, if and only if they fit.
   */
  lemma SaveStoresIff(mode: Mode, order: Order, dir: Dir, config: Loaded)
    requires ValidOrder(order) && Parses(dir)
    ensures var saved := Reached(mode, order, config);
            var after := Run(mode, order, dir, SaveAll(config));
            (Parses(after) && Merged(after) == AfterSave(mode, Merged(dir), saved)) <==> Fits(mode, dir, saved, config)
  {
    var saved := Reached(mode, order, config);
    var after := Run(mode, order, dir, SaveAll(config));
    RunSave(mode, order, dir, config);
    SaveWrites(mode, order, config, dir);
    if mode.MultiByItem? {
      SavedIsItemSaved(order, config, dir, after);
      if ItemFits(dir, saved) { ItemFitsStores(dir, saved, after); }
      if Stored(dir, saved, after) { ItemFitsNeeded(dir, saved, after); }
    } else {
      if SharedFits(mode, dir, config) { SharedFitsParses(mode, config, dir, after); }
      if Parses(after) && Merged(after) == config.entries { SharedFitsNeeded(mode, config, dir, after); }
    }
  }
}
