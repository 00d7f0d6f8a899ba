/** What `save_all` leaves on disk, file by file, and what the next load makes of it. */
module WholeSave {
  import opened Toml
  import opened Layout
  import opened ConfigStore
  import opened ConfigRefinement

  // ---- the plan -------------------------------------------------------------------------

  /** A per-item save visits every item exactly once, whatever order the library walks tables in. */
  lemma {:induction false} ItemPlanEnumerates(order: Order, entries: Config, categories: seq<Category>)
    requires ValidOrder(order) && Distinct(categories)
    requires forall c :: c in categories ==> !c.Basic?
    ensures Distinct(ItemPlan(order, entries, categories))
    ensures forall k: Key :: k in ItemPlan(order, entries, categories)
                        <==> k in entries && k.category in categories
    decreases |categories|
  {
    if categories != [] {
      var c := categories[0];
      var names := order(Section(entries, c).Keys);
      var here := seq(|names|, i requires 0 <= i < |names| => KeyOf(c, names[i]));
      var rest := ItemPlan(order, entries, categories[1..]);
      ItemPlanEnumerates(order, entries, categories[1..]);
      assert Enumerates(names, Section(entries, c).Keys);
      forall k: Key ensures k in here <==> k in entries && k.category == c {
        if k in entries && k.category == c {
          assert k.name in Section(entries, c);
          var i :| 0 <= i < |names| && names[i] == k.name;
          assert here[i] == k;
        }
        if k in here {
          var i :| 0 <= i < |here| && here[i] == k;
          assert names[i] in Section(entries, c);
        }
      }
      assert categories == [c] + categories[1..];
      DistinctAppend(here, rest);
    }
  }

  /** The items of a configuration, in the order a per-item save comes to them. */
  function Items(order: Order, config: Loaded): seq<Key> {
    ItemPlan(order, config.entries, ITEM_CATEGORIES)
  }

  lemma ItemsAre(order: Order, config: Loaded)
    requires ValidOrder(order)
    ensures Distinct(Items(order, config))
    ensures forall k: Key :: k in Items(order, config) <==> k in config.entries && !k.category.Basic?
  {
    ItemPlanEnumerates(order, config.entries, ITEM_CATEGORIES);
    forall k: Key ensures k in Items(order, config) <==> k in config.entries && !k.category.Basic? {
      CategoryListed(k.category);
    }
  }

  /** A per-item save stops at the first name the storage refuses. */
  predicate SaveStops(mode: Mode, order: Order, config: Loaded) {
    mode.MultiByItem? && |GoodPrefix(Items(order, config))| < |Items(order, config)|
  }

  /** The entries a save comes to: all of them, unless it stops at a refused name. */
  function Reached(mode: Mode, order: Order, config: Loaded): Config {
    if mode.MultiByItem? then
      map k: Key | k in config.entries && (k.category.Basic? || k in GoodPrefix(Items(order, config))) ::
        config.entries[k]
    else config.entries
  }

  /** No item has a name the storage refuses. */
  predicate GoodNames(entries: Config) {
    forall k: Key :: k in entries && !k.category.Basic? ==> !BadName(k.name)
  }

  lemma GoodPrefixWhole(keys: seq<Key>)
    requires forall k :: k in keys ==> !BadName(k.name)
    ensures GoodPrefix(keys) == keys
  {}

  /** With good names a save never stops and reaches everything. */
  lemma GoodNamesReached(mode: Mode, order: Order, config: Loaded)
    requires ValidOrder(order) && (mode.MultiByItem? ==> GoodNames(config.entries))
    ensures !SaveStops(mode, order, config)
    ensures Reached(mode, order, config) == config.entries
  {
    if mode.MultiByItem? {
      ItemsAre(order, config);
      GoodPrefixWhole(Items(order, config));
    }
  }

  // ---- the files ------------------------------------------------------------------------

  /** Steps that change pairwise different files. */
  predicate DistinctFiles(steps: seq<Step>) {
    forall i, j :: 0 <= i < j < |steps| ==> steps[i].file != steps[j].file
  }

  predicate AllSaves(steps: seq<Step>) {
    forall i :: 0 <= i < |steps| ==> steps[i].Save?
  }

  predicate Touched(steps: seq<Step>, f: FileKey) {
    exists i :: 0 <= i < |steps| && steps[i].file == f
  }

  /** The same file, or none, in both directories. */
  predicate SameFile(a: Dir, b: Dir, f: FileKey) {
    (f in a <==> f in b) && (f in a ==> a[f] == b[f])
  }

  ghost predicate Did(dir: Dir, steps: seq<Step>, after: Dir) {
    && (forall i :: 0 <= i < |steps| ==>
          if steps[i].Save? then steps[i].file in after && after[steps[i].file] == steps[i].content
          else steps[i].file !in after)
    && (forall f :: !Touched(steps, f) ==> SameFile(after, dir, f))
  }

  /** Steps on different files do each what they say and nothing else. */
  lemma {:induction false} StepsDo(dir: Dir, steps: seq<Step>)
    requires DistinctFiles(steps)
    ensures Did(dir, steps, RunSteps(dir, steps))
    decreases |steps|
  {
    if steps != [] {
      var before, last := steps[..|steps| - 1], steps[|steps| - 1];
      StepsDo(dir, before);
      var mid, after := RunSteps(dir, before), RunSteps(dir, steps);
      assert after == Apply(mid, last);
      forall i | 0 <= i < |steps|
        ensures if steps[i].Save? then steps[i].file in after && after[steps[i].file] == steps[i].content
                else steps[i].file !in after
      {
        if i < |steps| - 1 { assert before[i] == steps[i]; }
      }
      forall f | !Touched(steps, f) ensures SameFile(after, dir, f) {
        assert forall i :: 0 <= i < |before| ==> before[i].file == steps[i].file != f;
        assert !Touched(before, f) && steps[|steps| - 1].file != f;
      }
    }
  }

  /** The files a save of these entries rewrites. */
  predicate Rewrites(mode: Mode, saved: Config, f: FileKey) {
    match mode
    case Single => f == SingleFile
    case MultiByType => f.CategoryFile?
    case MultiByItem =>
      f == CategoryFile(Basic) || (f.ItemFile? && !f.category.Basic? && KeyOf(f.category, f.name) in saved)
  }

  /** What such a file holds afterwards. */
  function NewContent(mode: Mode, config: Loaded, f: FileKey): Content {
    match f
    case CategoryFile(c) => CategoryDoc(config, c)
    case ItemFile(c, n) =>
      if KeyOf(c, n) in config.entries then ItemDoc(config.entries[KeyOf(c, n)], c, n) else Doc(map[], {})
    case _ => WholeDoc(config)
  }

  /** The directory with exactly those files rewritten. */
  ghost predicate Saved(mode: Mode, saved: Config, config: Loaded, dir: Dir, after: Dir) {
    forall f ::
      if Rewrites(mode, saved, f) then f in after && after[f] == NewContent(mode, config, f)
      else SameFile(after, dir, f)
  }

  lemma TypePlan(order: Order, config: Loaded, f: FileKey)
    ensures DistinctFiles(SavePlan(MultiByType, order, config)) && AllSaves(SavePlan(MultiByType, order, config))
    ensures Touched(SavePlan(MultiByType, order, config), f) <==> f.CategoryFile?
    ensures forall i :: 0 <= i < |SavePlan(MultiByType, order, config)| ==>
              var step := SavePlan(MultiByType, order, config)[i];
              step.file.CategoryFile? && step.content == NewContent(MultiByType, config, step.file)
  {
    var steps := SavePlan(MultiByType, order, config);
    forall i | 0 <= i < |steps| ensures steps[i] == CategorySave(config, ALL_CATEGORIES[i]) {}
    assert Distinct(ALL_CATEGORIES);
    if f.CategoryFile? {
      CategoryListed(f.category);
      var i :| 0 <= i < |ALL_CATEGORIES| && ALL_CATEGORIES[i] == f.category;
      assert steps[i].file == f;
    }
  }

  lemma ItemSaveAt(config: Loaded, k: Key)
    requires k in config.entries && !k.category.Basic?
    ensures var step := ItemSave(config.entries, k);
            && step.Save? && step.file == ItemFile(k.category, k.name)
            && step.content == NewContent(MultiByItem, config, step.file)
  {
    assert KeyOf(k.category, k.name) == k;
  }

  /** The good prefix of the items, after the basic section. */
  lemma ItemPlanIs(config: Loaded, good: seq<Key>, steps: seq<Step>, f: FileKey)
    requires steps == [CategorySave(config, Basic)] + ItemSaves(config.entries, good)
    requires Distinct(good) && forall k <- good :: k in config.entries && !k.category.Basic?
    ensures DistinctFiles(steps) && AllSaves(steps)
    ensures Touched(steps, f) <==>
            f == CategoryFile(Basic) || (f.ItemFile? && !f.category.Basic? && KeyOf(f.category, f.name) in good)
    ensures forall i :: 0 <= i < |steps| ==> steps[i].content == NewContent(MultiByItem, config, steps[i].file)
  {
    forall i | 0 < i < |steps|
      ensures steps[i].Save? && steps[i].file == ItemFile(good[i - 1].category, good[i - 1].name)
      ensures steps[i].content == NewContent(MultiByItem, config, steps[i].file)
      ensures KeyOf(steps[i].file.category, steps[i].file.name) == good[i - 1]
    {
      assert good[i - 1] in good;
      ItemSaveAt(config, good[i - 1]);
      assert steps[i] == ItemSave(config.entries, good[i - 1]);
    }
    assert steps[0] == CategorySave(config, Basic);
    if f.ItemFile? && !f.category.Basic? && KeyOf(f.category, f.name) in good {
      var j :| 0 <= j < |good| && good[j] == KeyOf(f.category, f.name);
      assert steps[j + 1].file == f;
    }
  }

  lemma GoodPrefixDistinct(keys: seq<Key>)
    requires Distinct(keys)
    ensures Distinct(GoodPrefix(keys)) && forall k <- GoodPrefix(keys) :: k in keys
  {
    var good := GoodPrefix(keys);
    forall i, j | 0 <= i < j < |good| ensures good[i] != good[j] {
      assert good[i] == keys[i] && good[j] == keys[j];
    }
    forall k | k in good ensures k in keys {
      var i :| 0 <= i < |good| && good[i] == k;
      assert keys[i] == k;
    }
  }

  lemma ItemPlanSaves(order: Order, config: Loaded, f: FileKey)
    requires ValidOrder(order)
    ensures DistinctFiles(SavePlan(MultiByItem, order, config)) && AllSaves(SavePlan(MultiByItem, order, config))
    ensures Touched(SavePlan(MultiByItem, order, config), f) <==>
            Rewrites(MultiByItem, Reached(MultiByItem, order, config), f)
    ensures forall i :: 0 <= i < |SavePlan(MultiByItem, order, config)| ==>
              var step := SavePlan(MultiByItem, order, config)[i];
              step.content == NewContent(MultiByItem, config, step.file)
  {
    var good := GoodPrefix(Items(order, config));
    ItemsAre(order, config);
    GoodPrefixDistinct(Items(order, config));
    ItemPlanIs(config, good, SavePlan(MultiByItem, order, config), f);
  }

  /** In every mode: which files a save writes, each once, and what it writes there. */
  lemma PlanSaves(mode: Mode, order: Order, config: Loaded, f: FileKey)
    requires ValidOrder(order)
    ensures DistinctFiles(SavePlan(mode, order, config)) && AllSaves(SavePlan(mode, order, config))
    ensures Touched(SavePlan(mode, order, config), f) <==> Rewrites(mode, Reached(mode, order, config), f)
    ensures forall i :: 0 <= i < |SavePlan(mode, order, config)| ==>
              var step := SavePlan(mode, order, config)[i];
              step.content == NewContent(mode, config, step.file)
  {
    match mode
    case Single => assert SavePlan(mode, order, config)[0].file == SingleFile;
    case MultiByType => TypePlan(order, config, f);
    case MultiByItem => ItemPlanSaves(order, config, f);
  }

  lemma DidSave(mode: Mode, saved: Config, config: Loaded, steps: seq<Step>, dir: Dir, after: Dir, f: FileKey)
    requires AllSaves(steps) && Did(dir, steps, after)
    requires Touched(steps, f) <==> Rewrites(mode, saved, f)
    requires forall i :: 0 <= i < |steps| ==> steps[i].content == NewContent(mode, config, steps[i].file)
    ensures if Rewrites(mode, saved, f) then f in after && after[f] == NewContent(mode, config, f)
            else SameFile(after, dir, f)
  {
    if Touched(steps, f) { var i :| 0 <= i < |steps| && steps[i].file == f; }
  }

  /** The directory after a save, file by file, also when it stopped half-way. */
  lemma SaveWrites(mode: Mode, order: Order, config: Loaded, dir: Dir)
    requires ValidOrder(order)
    ensures Saved(mode, Reached(mode, order, config), config, dir, RunSteps(dir, SavePlan(mode, order, config)))
  {
    var steps := SavePlan(mode, order, config);
    PlanSaves(mode, order, config, SingleFile);
    StepsDo(dir, steps);
    forall f
      ensures if Rewrites(mode, Reached(mode, order, config), f)
              then f in RunSteps(dir, steps) && RunSteps(dir, steps)[f] == NewContent(mode, config, f)
              else SameFile(RunSteps(dir, steps), dir, f)
    {
      PlanSaves(mode, order, config, f);
      DidSave(mode, Reached(mode, order, config), config, steps, dir, RunSteps(dir, steps), f);
    }
  }

  // ---- shared files ---------------------------------------------------------------------

  /** What a save in a layout of shared files leaves: every rewritten file holds its own entries. */
  lemma SharedHolds(mode: Mode, config: Loaded, dir: Dir, after: Dir, f: FileKey, k: Key)
    requires !mode.MultiByItem? && Saved(mode, config.entries, config, dir, after)
    ensures Holds(after, f, k) <==>
            if Rewrites(mode, config.entries, f) then k in config.entries && Home(mode, k) == f else Holds(dir, f, k)
    ensures Rewrites(mode, config.entries, f) && Holds(after, f, k) ==> after[f].entries[k] == config.entries[k]
  {}

  lemma SharedOpens(mode: Mode, config: Loaded, dir: Dir, after: Dir, f: FileKey, c: Category)
    requires !mode.MultiByItem? && Saved(mode, config.entries, config, dir, after)
    ensures Rewrites(mode, config.entries, f) && Opens(after, f, c) ==> mode.Single? || f == CategoryFile(c)
    ensures !Rewrites(mode, config.entries, f) ==> (Opens(after, f, c) <==> Opens(dir, f, c))
  {}

  /** Files a shared layout does not write hold and open nothing. */
  ghost predicate OthersEmpty(mode: Mode, entries: Config, dir: Dir) {
    forall f :: f in dir && !Rewrites(mode, entries, f) ==>
      !mode.Single? && dir[f].Doc? && dir[f].entries == map[] && dir[f].headers == {}
  }

  lemma SharedCanonical(mode: Mode, config: Loaded, dir: Dir, after: Dir)
    requires !mode.MultiByItem? && Saved(mode, config.entries, config, dir, after)
    requires OthersEmpty(mode, config.entries, dir)
    ensures Canonical(mode, after) && Merged(after) == config.entries
  {
    forall f, k: Key | Holds(after, f, k)
      ensures Home(mode, k) == f && k in config.entries && after[f].entries[k] == config.entries[k]
    {
      SharedHolds(mode, config, dir, after, f, k);
    }
    forall f, c ensures Opens(after, f, c) ==> if mode.Single? then f == SingleFile else f == CategoryFile(c) {
      SharedOpens(mode, config, dir, after, f, c);
    }
    forall f | f in after ensures after[f].Doc? && (mode.Single? ==> f == SingleFile) {
      assert if Rewrites(mode, config.entries, f) then after[f] == NewContent(mode, config, f)
             else SameFile(after, dir, f);
    }
    assert Canonical(mode, after);
    forall k: Key ensures SameAt(Merged(after), config.entries, k) {
      if k in Merged(after) { var f := MergedFrom(after, k); }
      if k in config.entries {
        SharedHolds(mode, config, dir, after, Home(mode, k), k);
        MergedAt(after, Home(mode, k), k);
      }
    }
    SameEverywhere(Merged(after), config.entries);
  }

  // ---- per-item files -------------------------------------------------------------------

  /** The directory with the files of some entries rewritten item by item. */
  ghost predicate ItemSaved(base: Dir, saved: Config, after: Dir) {
    forall f ::
      if Rewrites(MultiByItem, saved, f) then f in after && after[f] == ItemContent(saved, f)
      else SameFile(after, base, f)
  }

  function ItemContent(saved: Config, f: FileKey): Content {
    match f
    case ItemFile(c, n) =>
      if KeyOf(c, n) in saved then ItemDoc(saved[KeyOf(c, n)], c, n) else Doc(map[], {})
    case _ => Doc(CategoryEntries(saved, Basic), {})
  }

  lemma SavedIsItemSaved(order: Order, config: Loaded, dir: Dir, after: Dir)
    requires Saved(MultiByItem, Reached(MultiByItem, order, config), config, dir, after)
    ensures ItemSaved(dir, Reached(MultiByItem, order, config), after)
  {
    var saved := Reached(MultiByItem, order, config);
    assert CategoryEntries(saved, Basic) == CategoryEntries(config.entries, Basic);
    forall f
      ensures if Rewrites(MultiByItem, saved, f) then f in after && after[f] == ItemContent(saved, f)
              else SameFile(after, dir, f)
    {
      assert if Rewrites(MultiByItem, saved, f) then f in after && after[f] == NewContent(MultiByItem, config, f)
             else SameFile(after, dir, f);
    }
  }

  /** What a rewritten file says about an entry. An item without a name becomes its own fields. */
  function Stores(saved: Config, f: FileKey, k: Key): Option<Value> {
    match f
    case ItemFile(c, n) =>
      var own := KeyOf(c, n);
      if own !in saved then None
      else if n != "" then (if k == own then Some(saved[own]) else None)
      else if saved[own].Table? && k.category == c && k.name in saved[own].entries
      then Some(saved[own].entries[k.name])
      else None
    case _ => if k.category.Basic? && k in saved then Some(saved[k]) else None
  }

  /** The item's file opens the section of its item. */
  predicate OpensSection(v: Value, name: string) {
    if name != "" then Inline(v)
    else v.Table? && (v.entries == map[] || exists n <- v.entries :: Inline(v.entries[n]))
  }

  /** The file opens the section once these entries have been saved. */
  predicate Heads(base: Dir, saved: Config, f: FileKey, c: Category) {
    if Rewrites(MultiByItem, saved, f)
    then f.ItemFile? && f.category == c && OpensSection(saved[KeyOf(f.category, f.name)], f.name)
    else Opens(base, f, c)
  }

  lemma ItemDocHolds(saved: Config, f: FileKey, k: Key)
    requires Rewrites(MultiByItem, saved, f)
    ensures (ItemContent(saved, f).Doc? && k in ItemContent(saved, f).entries) <==> Stores(saved, f, k).Some?
    ensures Stores(saved, f, k).Some? ==> ItemContent(saved, f).entries[k] == Stores(saved, f, k).value
  {
    assert k == KeyOf(k.category, k.name);
  }

  lemma ItemHolds(base: Dir, saved: Config, after: Dir, f: FileKey, k: Key)
    requires ItemSaved(base, saved, after)
    ensures if Rewrites(MultiByItem, saved, f)
            then (Holds(after, f, k) <==> Stores(saved, f, k).Some?) &&
                 (Holds(after, f, k) ==> after[f].entries[k] == Stores(saved, f, k).value)
            else (Holds(after, f, k) <==> Holds(base, f, k)) &&
                 (Holds(after, f, k) ==> after[f].entries[k] == base[f].entries[k])
  {
    if Rewrites(MultiByItem, saved, f) { ItemDocHolds(saved, f, k); }
  }

  lemma ItemOpens(base: Dir, saved: Config, after: Dir, f: FileKey, c: Category)
    requires ItemSaved(base, saved, after)
    ensures Opens(after, f, c) <==> Heads(base, saved, f, c)
  {}

  /** The basic section and every item with a name have a file of their own. */
  predicate HasFile(k: Key) {
    k.category.Basic? || k.name != ""
  }

  /** Every item has a name. */
  predicate Named(saved: Config) {
    forall k <- saved :: HasFile(k)
  }

  /** An item without a name, if there is one, has no fields. */
  predicate Tame(saved: Config) {
    forall k <- saved :: HasFile(k) || saved[k] == Table(map[])
  }

  /** No section is opened by two files. */
  ghost predicate HeadersApart(base: Dir, saved: Config) {
    forall f, g, c :: Heads(base, saved, f, c) && Heads(base, saved, g, c) ==> f == g
  }

  lemma TameStores(saved: Config, f: FileKey, k: Key)
    requires Tame(saved) && Rewrites(MultiByItem, saved, f)
    ensures Stores(saved, f, k) ==
            if k in saved && HasFile(k) && Home(MultiByItem, k) == f then Some(saved[k]) else None
  {
    assert k == KeyOf(k.category, k.name);
  }

  lemma HomeRewritten(saved: Config, k: Key)
    requires k in saved
    ensures Rewrites(MultiByItem, saved, Home(MultiByItem, k))
  {
    assert k == KeyOf(k.category, k.name);
  }

  lemma TameHolds(base: Dir, saved: Config, after: Dir, f: FileKey, k: Key)
    requires ItemSaved(base, saved, after) && Tame(saved)
    ensures Holds(after, f, k) <==>
            if Rewrites(MultiByItem, saved, f) then k in saved && HasFile(k) && Home(MultiByItem, k) == f
            else Holds(base, f, k)
    ensures Holds(after, f, k) ==>
            after[f].entries[k] == if Rewrites(MultiByItem, saved, f) then saved[k] else base[f].entries[k]
  {
    ItemHolds(base, saved, after, f, k);
    if Rewrites(MultiByItem, saved, f) { TameStores(saved, f, k); }
  }

  /** No file that stays as it is holds an entry that gets its own file. */
  ghost predicate KeptApart(base: Dir, saved: Config) {
    forall f, k: Key :: Holds(base, f, k) && !Rewrites(MultiByItem, saved, f) && HasFile(k) ==> k !in saved
  }

  lemma TameDocs(base: Dir, saved: Config, after: Dir, f: FileKey)
    requires ItemSaved(base, saved, after) && Tame(saved) && Parses(base) && f in after
    ensures after[f].Doc?
  {
    assert if Rewrites(MultiByItem, saved, f) then after[f] == ItemContent(saved, f) else SameFile(after, base, f);
  }

  lemma TameParses(base: Dir, saved: Config, after: Dir)
    requires ItemSaved(base, saved, after) && Tame(saved) && Parses(base)
    requires HeadersApart(base, saved) && KeptApart(base, saved)
    ensures Parses(after)
  {
    forall f | f in after ensures after[f].Doc? { TameDocs(base, saved, after, f); }
    forall f, g, k: Key | Holds(after, f, k) && Holds(after, g, k) ensures f == g {
      TameHolds(base, saved, after, f, k);
      TameHolds(base, saved, after, g, k);
    }
    forall f, g, c: Category | Opens(after, f, c) && Opens(after, g, c) ensures f == g {
      ItemOpens(base, saved, after, f, c);
      ItemOpens(base, saved, after, g, c);
    }
  }

  lemma ParsedApart(base: Dir, saved: Config, after: Dir)
    requires ItemSaved(base, saved, after) && Parses(after)
    ensures HeadersApart(base, saved)
    ensures Tame(saved) ==> KeptApart(base, saved)
  {
    forall f, g, c | Heads(base, saved, f, c) && Heads(base, saved, g, c) ensures f == g {
      ItemOpens(base, saved, after, f, c);
      ItemOpens(base, saved, after, g, c);
    }
    if Tame(saved) {
      forall f, k: Key | Holds(base, f, k) && !Rewrites(MultiByItem, saved, f) && HasFile(k) ensures k !in saved {
        TameHolds(base, saved, after, f, k);
        if k in saved {
          HomeRewritten(saved, k);
          TameHolds(base, saved, after, Home(MultiByItem, k), k);
        }
      }
    }
  }

  /** The save can be read back exactly when nothing ends up twice. */
  lemma TameParsesIff(base: Dir, saved: Config, after: Dir)
    requires ItemSaved(base, saved, after) && Tame(saved) && Parses(base)
    ensures Parses(after) <==> HeadersApart(base, saved) && KeptApart(base, saved)
  {
    if HeadersApart(base, saved) && KeptApart(base, saved) { TameParses(base, saved, after); }
    if Parses(after) { ParsedApart(base, saved, after); }
  }

  /** Saved entries with a file of their own have their value; others are where they were. */
  lemma TameMerged(base: Dir, saved: Config, after: Dir, k: Key)
    requires ItemSaved(base, saved, after) && Tame(saved) && Parses(after)
    ensures k in saved && HasFile(k) ==> k in Merged(after) && Merged(after)[k] == saved[k]
    ensures !(k in saved && HasFile(k)) ==>
              (k in Merged(after) <==> exists f :: !Rewrites(MultiByItem, saved, f) && Holds(base, f, k))
    ensures forall f :: !(k in saved && HasFile(k)) && !Rewrites(MultiByItem, saved, f) && Holds(base, f, k) ==>
              k in Merged(after) && Merged(after)[k] == base[f].entries[k]
  {
    if k in saved && HasFile(k) {
      HomeRewritten(saved, k);
      TameHolds(base, saved, after, Home(MultiByItem, k), k);
      MergedAt(after, Home(MultiByItem, k), k);
    } else {
      if k in Merged(after) {
        var f := MergedFrom(after, k);
        TameHolds(base, saved, after, f, k);
      }
      forall f | !Rewrites(MultiByItem, saved, f) && Holds(base, f, k)
        ensures k in Merged(after) && Merged(after)[k] == base[f].entries[k]
      {
        TameHolds(base, saved, after, f, k);
        MergedAt(after, f, k);
      }
    }
  }

  // ---- an item without a name -----------------------------------------------------------

  /** No rewritten file holds an item without a name with its own value. */
  lemma UnnamedNotStored(saved: Config, f: FileKey, k: Key)
    requires k in saved && !HasFile(k) && Rewrites(MultiByItem, saved, f)
    ensures Stores(saved, f, k) != Some(saved[k])
  {
    assert k == KeyOf(k.category, k.name);
    if f.ItemFile? && f.name == "" && saved[k].Table? && "" in saved[k].entries {
      NoSelfEntry(saved[k], "");
    }
  }

  lemma UnnamedHeldOutside(base: Dir, saved: Config, after: Dir, f: FileKey, k: Key)
    requires ItemSaved(base, saved, after) && k in saved && !HasFile(k)
    requires Holds(after, f, k) && after[f].entries[k] == saved[k]
    ensures !Rewrites(MultiByItem, saved, f) && Holds(base, f, k)
  {
    ItemHolds(base, saved, after, f, k);
    if Rewrites(MultiByItem, saved, f) { UnnamedNotStored(saved, f, k); }
  }

  // ---- what the next load sees ----------------------------------------------------------

  /** What the next load returns after a save: per item, old items the saved set lacks survive. */
  function AfterSave(mode: Mode, before: Config, saved: Config): Config {
    if mode.MultiByItem? then
      (map k: Key | k in before && !k.category.Basic? :: before[k]) + saved
    else saved
  }

  /** Per item, every saved item has a name and no section would be opened twice. */
  ghost predicate Storable(mode: Mode, dir: Dir, saved: Config) {
    mode.MultiByItem? ==> Named(saved) && HeadersApart(dir, saved)
  }

  lemma CanonicalKeptApart(base: Dir, saved: Config)
    requires Canonical(MultiByItem, base)
    ensures KeptApart(base, saved)
  {
    forall f, k: Key | Holds(base, f, k) && !Rewrites(MultiByItem, saved, f) && HasFile(k) ensures k !in saved {
      if k in saved { HomeRewritten(saved, k); }
    }
  }

  /** An entry that is not saved is what it was, unless it is the basic section. */
  lemma UnsavedStays(base: Dir, saved: Config, after: Dir, k: Key)
    requires Canonical(MultiByItem, base) && ItemSaved(base, saved, after) && Named(saved) && Parses(after)
    requires k !in saved
    ensures if k.category.Basic? then k !in Merged(after) else SameAt(Merged(after), Merged(base), k)
  {
    TameMerged(base, saved, after, k);
    assert k == KeyOf(k.category, k.name);
    if k in Merged(after) {
      var f :| !Rewrites(MultiByItem, saved, f) && Holds(base, f, k);
      MergedAt(base, f, k);
    }
    if k in Merged(base) && !k.category.Basic? {
      var f := MergedFrom(base, k);
      assert !Rewrites(MultiByItem, saved, f);
    }
  }

  lemma NamedSaveIs(base: Dir, saved: Config, after: Dir)
    requires Canonical(MultiByItem, base) && ItemSaved(base, saved, after) && Named(saved) && Parses(after)
    ensures Merged(after) == AfterSave(MultiByItem, Merged(base), saved)
    ensures Canonical(MultiByItem, after)
  {
    forall k: Key ensures SameAt(Merged(after), AfterSave(MultiByItem, Merged(base), saved), k) {
      if k in saved { TameMerged(base, saved, after, k); } else { UnsavedStays(base, saved, after, k); }
    }
    SameEverywhere(Merged(after), AfterSave(MultiByItem, Merged(base), saved));
    forall f, k: Key | Holds(after, f, k) ensures Home(MultiByItem, k) == f {
      TameHolds(base, saved, after, f, k);
    }
  }

  /** An item without a name is gone after the save. */
  lemma UnnamedIsGone(base: Dir, saved: Config, after: Dir, k: Key)
    requires Canonical(MultiByItem, base) && ItemSaved(base, saved, after)
    requires k in saved && !HasFile(k)
    ensures !(k in Merged(after) && Merged(after)[k] == saved[k])
  {
    if k in Merged(after) && Merged(after)[k] == saved[k] {
      var f := MergedFrom(after, k);
      UnnamedHeldOutside(base, saved, after, f, k);
      HomeRewritten(saved, k);
      assert false;
    }
  }

  lemma ItemSaveStoresIff(base: Dir, saved: Config, after: Dir)
    requires Canonical(MultiByItem, base) && ItemSaved(base, saved, after)
    ensures (Parses(after) && Merged(after) == AfterSave(MultiByItem, Merged(base), saved)) <==>
            Named(saved) && HeadersApart(base, saved)
    ensures Named(saved) && HeadersApart(base, saved) ==> Canonical(MultiByItem, after)
  {
    if Named(saved) {
      CanonicalKeptApart(base, saved);
      TameParsesIff(base, saved, after);
      if Parses(after) { NamedSaveIs(base, saved, after); }
    } else {
      var k :| k in saved && !HasFile(k);
      UnnamedIsGone(base, saved, after, k);
      assert k in AfterSave(MultiByItem, Merged(base), saved);
    }
  }

  lemma CanonicalOthersEmpty(mode: Mode, dir: Dir, entries: Config)
    requires Canonical(mode, dir) && !mode.MultiByItem?
    ensures OthersEmpty(mode, entries, dir)
  {
    forall f | f in dir && !Rewrites(mode, entries, f)
      ensures !mode.Single? && dir[f].Doc? && dir[f].entries == map[] && dir[f].headers == {}
    {
      forall k: Key ensures k !in dir[f].entries { assert Holds(dir, f, k) <==> k in dir[f].entries; }
      forall c ensures c !in dir[f].headers { assert Opens(dir, f, c) <==> c in dir[f].headers; }
    }
  }

  lemma RunSave(mode: Mode, order: Order, dir: Dir, config: Loaded)
    ensures Run(mode, order, dir, SaveAll(config)) == RunSteps(dir, SavePlan(mode, order, config))
  {}

  /**
   * What a save stores, exactly: the next load sees the entries it came to, and per item the old
   * ones it did not rewrite, if and only if the entries are storable. A save that stopped at a
   * refused name has come to the entries before it.
   */
  lemma SaveAllStoresIff(mode: Mode, order: Order, dir: Dir, config: Loaded)
    requires ValidOrder(order) && Canonical(mode, dir)
    ensures var saved := Reached(mode, order, config);
            var after := Run(mode, order, dir, SaveAll(config));
            && ((Parses(after) && Merged(after) == AfterSave(mode, Merged(dir), saved)) <==> Storable(mode, dir, saved))
            && (Storable(mode, dir, saved) ==> Canonical(mode, after))
  {
    var saved := Reached(mode, order, config);
    var after := Run(mode, order, dir, SaveAll(config));
    RunSave(mode, order, dir, config);
    SaveWrites(mode, order, config, dir);
    if mode.MultiByItem? {
      SavedIsItemSaved(order, config, dir, after);
      ItemSaveStoresIff(dir, saved, after);
    } else {
      CanonicalOthersEmpty(mode, dir, config.entries);
      SharedCanonical(mode, config, dir, after);
    }
  }

  /** The entries a per-item save does not rewrite are already as the configuration says. */
  ghost predicate RestAgrees(before: Config, saved: Config, config: Config) {
    forall k: Key :: k !in saved && !k.category.Basic? ==> SameAt(before, config, k)
  }

  lemma RestAgreesIff(before: Config, order: Order, config: Loaded)
    ensures AfterSave(MultiByItem, before, Reached(MultiByItem, order, config)) == config.entries <==>
            RestAgrees(before, Reached(MultiByItem, order, config), config.entries)
  {
    var saved := Reached(MultiByItem, order, config);
    var after := AfterSave(MultiByItem, before, saved);
    forall k: Key
      ensures SameAt(after, config.entries, k) <==>
              (k !in saved && !k.category.Basic? ==> SameAt(before, config.entries, k))
    {}
    if after == config.entries {
      forall k: Key ensures SameAt(after, config.entries, k) {}
    } else if RestAgrees(before, saved, config.entries) {
      SameEverywhere(after, config.entries);
    }
  }

  /**
   * A per-item save is exact if and only if its items have names, no section would be opened
   * twice, and whatever it does not rewrite is already as saved: with good names, nothing else
   * is stored.
   */
  lemma ItemSaveExactIff(order: Order, dir: Dir, config: Loaded)
    requires ValidOrder(order) && Canonical(MultiByItem, dir)
    ensures var saved := Reached(MultiByItem, order, config);
            var after := Run(MultiByItem, order, dir, SaveAll(config));
            (Parses(after) && Merged(after) == config.entries) <==>
            Named(saved) && HeadersApart(dir, saved) && RestAgrees(Merged(dir), saved, config.entries)
  {
    var saved := Reached(MultiByItem, order, config);
    var after := Run(MultiByItem, order, dir, SaveAll(config));
    SaveAllStoresIff(MultiByItem, order, dir, config);
    RestAgreesIff(Merged(dir), order, config);
    if Named(saved) {
      if Parses(after) {
        RunSave(MultiByItem, order, dir, config);
        SaveWrites(MultiByItem, order, config, dir);
        SavedIsItemSaved(order, config, dir, after);
        NamedSaveIs(dir, saved, after);
      }
    } else {
      var k :| k in saved && !HasFile(k);
      RunSave(MultiByItem, order, dir, config);
      SaveWrites(MultiByItem, order, config, dir);
      SavedIsItemSaved(order, config, dir, after);
      UnnamedIsGone(dir, saved, after, k);
      assert k in config.entries;
    }
  }

  /** With names the storage accepts, that is: everything stored before is among what is saved. */
  lemma GoodNamesExactIff(order: Order, dir: Dir, config: Loaded)
    requires ValidOrder(order) && Canonical(MultiByItem, dir) && GoodNames(config.entries)
    ensures var after := Run(MultiByItem, order, dir, SaveAll(config));
            (Parses(after) && Merged(after) == config.entries) <==>
            && Named(config.entries) && HeadersApart(dir, config.entries)
            && forall k: Key :: k in Merged(dir) && !k.category.Basic? ==> k in config.entries
  {
    GoodNamesReached(MultiByItem, order, config);
    ItemSaveExactIff(order, dir, config);
    var entries := config.entries;
    if RestAgrees(Merged(dir), entries, entries) {
      forall k: Key | k in Merged(dir) && !k.category.Basic? ensures k in entries {
        assert k !in entries ==> SameAt(Merged(dir), entries, k);
      }
    }
  }

  /** If every item is a table, no file of an item opens a section. */
  predicate Plain(entries: Config) {
    forall k <- entries :: HasFile(k) && (k.category.Basic? || !Inline(entries[k]))
  }

  lemma PlainIsStorable(dir: Dir, saved: Config)
    requires Plain(saved) && Parses(dir)
    ensures Named(saved) && HeadersApart(dir, saved)
  {
    forall f, c ensures Heads(dir, saved, f, c) ==> Opens(dir, f, c) {
      if Rewrites(MultiByItem, saved, f) && f.ItemFile? {
        var k := KeyOf(f.category, f.name);
        assert k in saved && k.name == f.name;
      }
    }
  }
}
