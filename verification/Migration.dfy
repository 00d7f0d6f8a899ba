/**
 * The startup migration: every file the mode would not have written itself is folded into the
 * canonical layout. The new layout is written first and the old files are retired afterwards.
 */
module Migration {
  import opened Toml
  import opened Layout
  import opened ConfigStore
  import opened ConfigRefinement
  import opened WholeSave

  /** `stale` lists the files of `dir` that the mode does not own, each once. */
  ghost predicate ListsStale(mode: Mode, dir: Dir, stale: seq<FileKey>) {
    && Distinct(stale)
    && (forall f :: f in stale <==> f in dir && !Owned(mode, f))
  }

  /** Every file is given by the kind of its path. */
  ghost predicate Kinds(dir: Dir) {
    forall f :: f in dir ==> WellFormed(f)
  }

  function Removes(files: seq<FileKey>): seq<Step> {
    seq(|files|, i requires 0 <= i < |files| => Remove(files[i]))
  }

  /** Whether the migration reports an error. */
  ghost predicate MigrationFails(mode: Mode, order: Order, dir: Dir, stale: seq<FileKey>) {
    stale != [] && (!Parses(dir) || SaveStops(mode, order, Load(dir).value))
  }

  ghost function MigrationSteps(mode: Mode, order: Order, dir: Dir, stale: seq<FileKey>): seq<Step> {
    if stale == [] || !Parses(dir) then []
    else
      var saves := SavePlan(mode, order, Load(dir).value);
      if SaveStops(mode, order, Load(dir).value) then saves else saves + Removes(stale)
  }

  ghost function Migrate(mode: Mode, order: Order, dir: Dir, stale: seq<FileKey>): Dir {
    RunSteps(dir, MigrationSteps(mode, order, dir, stale))
  }

  lemma {:induction false} RemovesRemove(dir: Dir, files: seq<FileKey>)
    ensures RunSteps(dir, Removes(files)) == dir - (set f | f in files)
    decreases |files|
  {
    if files != [] {
      var before, last := files[..|files| - 1], files[|files| - 1];
      RemovesRemove(dir, before);
      assert Removes(files)[..|files| - 1] == Removes(before);
      assert files == before + [last];
      assert (set f | f in files) == (set f | f in before) + {last};
    }
  }

  lemma ListsNothingIff(mode: Mode, dir: Dir, stale: seq<FileKey>)
    requires ListsStale(mode, dir, stale)
    ensures stale == [] <==> forall f :: f in dir ==> Owned(mode, f)
    ensures mode.Single? ==> stale == []
  {
    if stale != [] { assert stale[0] in stale; }
  }

  // ---- the files after a migration ------------------------------------------------------

  /** The files the mode owns. */
  ghost function OwnPart(mode: Mode, dir: Dir): Dir {
    map f | f in dir && Owned(mode, f) :: dir[f]
  }

  /** A file the mode owns and the migration does not rewrite. */
  ghost predicate Leftover(mode: Mode, dir: Dir, f: FileKey) {
    f in dir && Owned(mode, f) && !Rewrites(mode, Merged(dir), f)
  }

  /** Whatever is written goes to a file the mode owns. */
  lemma RewrittenIsOwned(mode: Mode, order: Order, config: Loaded, f: FileKey)
    requires ValidOrder(order) && Rewrites(mode, Reached(mode, order, config), f)
    ensures Owned(mode, f)
  {
    if mode.MultiByItem? && f.ItemFile? {
      var k := KeyOf(f.category, f.name);
      assert k in GoodPrefix(Items(order, config));
    }
  }

  /** Every operation writes only paths its mode writes. */
  lemma StepIsOwn(mode: Mode, order: Order, snapshot: Result<Loaded>, op: Op, i: nat)
    requires ValidOrder(order) && i < |StepsFrom(mode, order, snapshot, op)|
    ensures Owned(mode, StepsFrom(mode, order, snapshot, op)[i].file)
    ensures WellFormed(StepsFrom(mode, order, snapshot, op)[i].file)
  {
    if op.SaveAll? {
      var f := SavePlan(mode, order, op.config)[i].file;
      PlanSaves(mode, order, op.config, f);
      assert Touched(SavePlan(mode, order, op.config), f);
      RewrittenIsOwned(mode, order, op.config, f);
    }
  }

  /** A migration saves the loaded configuration over the files the mode owns and drops the others. */
  lemma MigrateSaves(mode: Mode, order: Order, dir: Dir, stale: seq<FileKey>)
    requires ValidOrder(order) && Parses(dir) && ListsStale(mode, dir, stale) && stale != []
    requires mode.MultiByItem? ==> GoodNames(Merged(dir))
    ensures !MigrationFails(mode, order, dir, stale)
    ensures Saved(mode, Merged(dir), Load(dir).value, OwnPart(mode, dir), Migrate(mode, order, dir, stale))
  {
    var config := Load(dir).value;
    var saves := SavePlan(mode, order, config);
    GoodNamesReached(mode, order, config);
    SaveWrites(mode, order, config, dir);
    RunStepsAppend(dir, saves, Removes(stale));
    var mid, after := RunSteps(dir, saves), Migrate(mode, order, dir, stale);
    RemovesRemove(mid, stale);
    forall f
      ensures if Rewrites(mode, Merged(dir), f) then f in after && after[f] == NewContent(mode, config, f)
              else SameFile(after, OwnPart(mode, dir), f)
    {
      if Rewrites(mode, Merged(dir), f) { RewrittenIsOwned(mode, order, config, f); }
    }
  }

  /** A migration that found something and reported no error came to every item. */
  lemma SucceededIsGood(mode: Mode, order: Order, dir: Dir, stale: seq<FileKey>)
    requires ValidOrder(order) && stale != []
    ensures !MigrationFails(mode, order, dir, stale) <==> Parses(dir) && (mode.MultiByItem? ==> GoodNames(Merged(dir)))
  {
    if Parses(dir) {
      var config := Load(dir).value;
      ItemsAre(order, config);
      if mode.MultiByItem? && GoodNames(config.entries) { GoodNamesReached(mode, order, config); }
      if mode.MultiByItem? && !SaveStops(mode, order, config) {
        var items := Items(order, config);
        assert GoodPrefix(items) == items;
      }
    }
  }

  /** Only an error leaves a file of another layout in place, and then it is untouched. */
  lemma FailedMigrationRetiresNothing(mode: Mode, order: Order, dir: Dir, stale: seq<FileKey>, f: FileKey)
    requires ValidOrder(order) && ListsStale(mode, dir, stale) && MigrationFails(mode, order, dir, stale) && f in stale
    ensures SameFile(Migrate(mode, order, dir, stale), dir, f)
  {
    if Parses(dir) {
      var config := Load(dir).value;
      SaveWrites(mode, order, config, dir);
      if Rewrites(mode, Reached(mode, order, config), f) { RewrittenIsOwned(mode, order, config, f); }
    }
  }

  lemma SavedOwned(mode: Mode, dir: Dir, config: Loaded, after: Dir, f: FileKey)
    requires Saved(mode, config.entries, config, OwnPart(mode, dir), after)
    requires Rewrites(mode, config.entries, f) ==> Owned(mode, f)
    requires f in after
    ensures Owned(mode, f)
  {
    assert !Rewrites(mode, config.entries, f) ==> SameFile(after, OwnPart(mode, dir), f);
  }

  lemma NothingStaleLeft(mode: Mode, order: Order, dir: Dir, stale: seq<FileKey>)
    requires ValidOrder(order) && ListsStale(mode, dir, stale) && !MigrationFails(mode, order, dir, stale)
    ensures forall f :: f in Migrate(mode, order, dir, stale) ==> Owned(mode, f)
  {
    if stale == [] {
      ListsNothingIff(mode, dir, stale);
    } else {
      var config := Load(dir).value;
      SucceededIsGood(mode, order, dir, stale);
      MigrateSaves(mode, order, dir, stale);
      GoodNamesReached(mode, order, config);
      forall f | f in Migrate(mode, order, dir, stale) ensures Owned(mode, f) {
        if Rewrites(mode, config.entries, f) { RewrittenIsOwned(mode, order, config, f); }
        SavedOwned(mode, dir, config, Migrate(mode, order, dir, stale), f);
      }
    }
  }

  /** Nothing stale is left, so a second migration changes nothing. */
  lemma MigrationSettles(mode: Mode, order: Order, dir: Dir, stale: seq<FileKey>, again: seq<FileKey>)
    requires ValidOrder(order) && ListsStale(mode, dir, stale) && !MigrationFails(mode, order, dir, stale)
    requires ListsStale(mode, Migrate(mode, order, dir, stale), again)
    ensures again == []
    ensures Migrate(mode, order, Migrate(mode, order, dir, stale), again) == Migrate(mode, order, dir, stale)
  {
    NothingStaleLeft(mode, order, dir, stale);
    ListsNothingIff(mode, Migrate(mode, order, dir, stale), again);
  }

  // ---- meaning --------------------------------------------------------------------------

  lemma OwnPartParses(mode: Mode, dir: Dir)
    requires Parses(dir)
    ensures Parses(OwnPart(mode, dir))
  {
    var own := OwnPart(mode, dir);
    forall f, k: Key ensures Holds(own, f, k) ==> Holds(dir, f, k) {}
    forall f, c: Category ensures Opens(own, f, c) ==> Opens(dir, f, c) {}
  }

  /** Per type nothing is ever left over, so the meaning is always kept. */
  lemma TypeMigrationPreserves(order: Order, dir: Dir, stale: seq<FileKey>)
    requires ValidOrder(order) && Parses(dir) && ListsStale(MultiByType, dir, stale) && stale != []
    ensures var after := Migrate(MultiByType, order, dir, stale);
            Canonical(MultiByType, after) && Merged(after) == Merged(dir)
  {
    var config := Load(dir).value;
    MigrateSaves(MultiByType, order, dir, stale);
    SharedCanonical(MultiByType, config, OwnPart(MultiByType, dir), Migrate(MultiByType, order, dir, stale));
  }

  lemma ItemMigrationSaves(order: Order, dir: Dir, stale: seq<FileKey>)
    requires ValidOrder(order) && Parses(dir) && ListsStale(MultiByItem, dir, stale) && stale != []
    requires GoodNames(Merged(dir))
    ensures ItemSaved(OwnPart(MultiByItem, dir), Merged(dir), Migrate(MultiByItem, order, dir, stale))
  {
    MigrateSaves(MultiByItem, order, dir, stale);
    GoodNamesReached(MultiByItem, order, Load(dir).value);
    SavedIsItemSaved(order, Load(dir).value, OwnPart(MultiByItem, dir), Migrate(MultiByItem, order, dir, stale));
  }

  /**
   * Where an entry has to be for a per-item migration to keep it: not in a left over file if it
   * has a file of its own; in one, and without fields, if it has no name.
   */
  ghost predicate Refiled(dir: Dir, f: FileKey, k: Key)
    requires Holds(dir, f, k)
  {
    if HasFile(k) then !Leftover(MultiByItem, dir, f)
    else Leftover(MultiByItem, dir, f) && dir[f].entries[k] == Table(map[])
  }

  ghost predicate AllRefiled(dir: Dir) {
    forall f, k: Key :: Holds(dir, f, k) ==> Refiled(dir, f, k)
  }

  lemma LeftoverIs(dir: Dir, f: FileKey, k: Key)
    ensures (Holds(OwnPart(MultiByItem, dir), f, k) && !Rewrites(MultiByItem, Merged(dir), f)) <==>
            (Holds(dir, f, k) && Leftover(MultiByItem, dir, f))
  {}

  lemma RefiledKeeps(dir: Dir, after: Dir)
    requires Parses(dir) && ItemSaved(OwnPart(MultiByItem, dir), Merged(dir), after)
    requires AllRefiled(dir) && HeadersApart(OwnPart(MultiByItem, dir), Merged(dir))
    ensures Parses(after) && Merged(after) == Merged(dir)
  {
    var own, all := OwnPart(MultiByItem, dir), Merged(dir);
    OwnPartParses(MultiByItem, dir);
    forall k | k in all ensures HasFile(k) || all[k] == Table(map[]) {
      var f := MergedFrom(dir, k);
      assert Refiled(dir, f, k);
    }
    forall f, k: Key | Holds(own, f, k) && !Rewrites(MultiByItem, all, f) ensures !HasFile(k) {
      LeftoverIs(dir, f, k);
      assert Refiled(dir, f, k);
    }
    TameParses(own, all, after);
    forall k: Key ensures SameAt(Merged(after), all, k) {
      RefiledAt(dir, after, k);
    }
    SameEverywhere(Merged(after), all);
  }

  lemma RefiledAt(dir: Dir, after: Dir, k: Key)
    requires Parses(dir) && Parses(after) && ItemSaved(OwnPart(MultiByItem, dir), Merged(dir), after)
    requires AllRefiled(dir) && Tame(Merged(dir))
    ensures SameAt(Merged(after), Merged(dir), k)
  {
    var own, all := OwnPart(MultiByItem, dir), Merged(dir);
    TameMerged(own, all, after, k);
    if k in Merged(after) && !(k in all && HasFile(k)) {
      var f :| !Rewrites(MultiByItem, all, f) && Holds(own, f, k);
      MergedAt(dir, f, k);
    }
    if k in all && !HasFile(k) {
      var f := MergedFrom(dir, k);
      assert Refiled(dir, f, k);
      LeftoverIs(dir, f, k);
    }
  }

  /** The field of an item without a name would come back as an item, if it had one. */
  lemma FieldComesBack(base: Dir, saved: Config, after: Dir, k: Key, n: string)
    requires ItemSaved(base, saved, after) && k in saved && !HasFile(k)
    requires saved[k].Table? && n in saved[k].entries
    ensures var item := KeyOf(k.category, n);
            Holds(after, Home(MultiByItem, k), item) && after[Home(MultiByItem, k)].entries[item] == saved[k].entries[n]
  {
    assert k == KeyOf(k.category, k.name);
    HomeRewritten(saved, k);
    ItemHolds(base, saved, after, Home(MultiByItem, k), KeyOf(k.category, n));
  }

  lemma OwnFileHolds(base: Dir, saved: Config, after: Dir, k: Key)
    requires ItemSaved(base, saved, after) && k in saved && HasFile(k)
    ensures Holds(after, Home(MultiByItem, k), k)
  {
    HomeRewritten(saved, k);
    ItemHolds(base, saved, after, Home(MultiByItem, k), k);
    assert k == KeyOf(k.category, k.name);
  }

  lemma KeptHasNoField(base: Dir, saved: Config, after: Dir, k: Key, n: string)
    requires ItemSaved(base, saved, after) && Parses(after) && Merged(after) == saved
    requires k in saved && !HasFile(k) && saved[k].Table?
    ensures n !in saved[k].entries
  {
    if n in saved[k].entries {
      var home, item := Home(MultiByItem, k), KeyOf(k.category, n);
      FieldComesBack(base, saved, after, k, n);
      MergedAt(after, home, item);
      if n == "" {
        NoSelfEntry(saved[k], "");
      } else {
        OwnFileHolds(base, saved, after, item);
      }
      assert false;
    }
  }

  /** A migration that keeps the meaning leaves no item without a name with fields. */
  lemma KeptIsTame(base: Dir, saved: Config, after: Dir, k: Key)
    requires ItemSaved(base, saved, after) && Parses(after) && Merged(after) == saved
    requires k in saved && !HasFile(k)
    ensures saved[k] == Table(map[])
  {
    HomeRewritten(saved, k);
    assert after[Home(MultiByItem, k)] == ItemContent(saved, Home(MultiByItem, k));
    assert k == KeyOf(k.category, k.name);
    assert saved[k].Table?;
    forall n ensures n !in saved[k].entries { KeptHasNoField(base, saved, after, k, n); }
  }

  lemma KeptIsRefiled(dir: Dir, after: Dir, f: FileKey, k: Key)
    requires Parses(dir) && ItemSaved(OwnPart(MultiByItem, dir), Merged(dir), after)
    requires Parses(after) && Merged(after) == Merged(dir) && Tame(Merged(dir)) && Holds(dir, f, k)
    ensures Refiled(dir, f, k)
  {
    var own, all := OwnPart(MultiByItem, dir), Merged(dir);
    MergedAt(dir, f, k);
    LeftoverIs(dir, f, k);
    if HasFile(k) {
      ParsedApart(own, all, after);
    } else {
      var g := MergedFrom(after, k);
      UnnamedHeldOutside(own, all, after, g, k);
      LeftoverIs(dir, g, k);
    }
  }

  lemma ItemMigrationPreservesIff(dir: Dir, after: Dir)
    requires Parses(dir) && ItemSaved(OwnPart(MultiByItem, dir), Merged(dir), after)
    ensures (Parses(after) && Merged(after) == Merged(dir)) <==>
            AllRefiled(dir) && HeadersApart(OwnPart(MultiByItem, dir), Merged(dir))
  {
    if Parses(after) && Merged(after) == Merged(dir) {
      ParsedApart(OwnPart(MultiByItem, dir), Merged(dir), after);
      forall k | k in Merged(dir) && !HasFile(k) ensures Merged(dir)[k] == Table(map[]) {
        KeptIsTame(OwnPart(MultiByItem, dir), Merged(dir), after, k);
      }
      forall f, k: Key | Holds(dir, f, k) ensures Refiled(dir, f, k) {
        KeptIsRefiled(dir, after, f, k);
      }
    }
    if AllRefiled(dir) && HeadersApart(OwnPart(MultiByItem, dir), Merged(dir)) { RefiledKeeps(dir, after); }
  }

  /**
   * A migration that reports no error leaves the loaded configuration unchanged exactly when
   * there was nothing to migrate, or the layout is per type, or every entry sits where it can be
   * refiled and no section would be opened twice.
   */
  lemma {:induction false} MigrationPreservesIff(mode: Mode, order: Order, dir: Dir, stale: seq<FileKey>)
    requires ValidOrder(order) && ListsStale(mode, dir, stale) && !MigrationFails(mode, order, dir, stale)
    ensures var after := Migrate(mode, order, dir, stale);
            (Parses(after) && Merged(after) == Merged(dir)) <==>
            if stale == [] then Parses(dir)
            else mode.MultiByItem? ==> AllRefiled(dir) && HeadersApart(OwnPart(mode, dir), Merged(dir))
  {
    ListsNothingIff(mode, dir, stale);
    if stale != [] {
      SucceededIsGood(mode, order, dir, stale);
      if mode.MultiByType? {
        TypeMigrationPreserves(order, dir, stale);
      } else {
        ItemMigrationSaves(order, dir, stale);
        ItemMigrationPreservesIff(dir, Migrate(mode, order, dir, stale));
      }
    }
  }

  /** Nothing is left over with entries in it, every item has a name, and no section is opened twice. */
  ghost predicate Clean(dir: Dir) {
    && Named(Merged(dir)) && HeadersApart(OwnPart(MultiByItem, dir), Merged(dir))
    && forall f, k: Key :: Leftover(MultiByItem, dir, f) ==> !Holds(dir, f, k)
  }

  /** The directory is then canonical as well: every entry has its old value and is at home. */
  lemma MigratedCanonicalIff(mode: Mode, order: Order, dir: Dir, stale: seq<FileKey>)
    requires ValidOrder(order) && ListsStale(mode, dir, stale) && !MigrationFails(mode, order, dir, stale)
    ensures var after := Migrate(mode, order, dir, stale);
            (Canonical(mode, after) && Merged(after) == Merged(dir)) <==>
            if stale == [] then Canonical(mode, dir) else mode.MultiByItem? ==> Clean(dir)
  {
    ListsNothingIff(mode, dir, stale);
    if stale == [] { return; }
    SucceededIsGood(mode, order, dir, stale);
    if mode.MultiByType? {
      TypeMigrationPreserves(order, dir, stale);
    } else {
      ItemMigrationSaves(order, dir, stale);
      ItemMigratedCanonicalIff(dir, Migrate(mode, order, dir, stale));
    }
  }

  lemma ItemMigratedCanonicalIff(dir: Dir, after: Dir)
    requires Parses(dir) && ItemSaved(OwnPart(MultiByItem, dir), Merged(dir), after)
    ensures (Canonical(MultiByItem, after) && Merged(after) == Merged(dir)) <==> Clean(dir)
  {
    var own, all := OwnPart(MultiByItem, dir), Merged(dir);
    ItemMigrationPreservesIff(dir, after);
    if Clean(dir) {
      forall f, k: Key | Holds(dir, f, k) ensures Refiled(dir, f, k) { MergedAt(dir, f, k); }
      forall f, k: Key | Holds(after, f, k) ensures Home(MultiByItem, k) == f {
        TameHolds(own, all, after, f, k);
        LeftoverIs(dir, f, k);
      }
    }
    if Canonical(MultiByItem, after) && Merged(after) == all {
      forall k | k in all ensures HasFile(k) {
        var f := MergedFrom(dir, k);
        assert Refiled(dir, f, k);
        if !HasFile(k) { UnnamedNotAtHome(dir, after, f, k); }
      }
      forall f, k: Key | Leftover(MultiByItem, dir, f) ensures !Holds(dir, f, k) {
        if Holds(dir, f, k) { MergedAt(dir, f, k); }
      }
    }
  }

  lemma UnnamedNotAtHome(dir: Dir, after: Dir, f: FileKey, k: Key)
    requires ItemSaved(OwnPart(MultiByItem, dir), Merged(dir), after)
    requires Holds(dir, f, k) && Leftover(MultiByItem, dir, f) && k in Merged(dir)
    ensures Holds(after, f, k) && Home(MultiByItem, k) != f
  {
    LeftoverIs(dir, f, k);
    ItemHolds(OwnPart(MultiByItem, dir), Merged(dir), after, f, k);
    HomeRewritten(Merged(dir), k);
  }

  // ---- interruption ---------------------------------------------------------------------

  /** Some readable file still holds the entry with this value. */
  ghost predicate Held(dir: Dir, k: Key, v: Value) {
    exists f :: Holds(dir, f, k) && dir[f].entries[k] == v
  }

  /** Whatever prefix of the steps was carried out, no entry is gone. */
  ghost predicate SafeToInterrupt(dir: Dir, steps: seq<Step>) {
    forall n, k: Key :: 0 <= n <= |steps| && k in Merged(dir)
      ==> Held(RunSteps(dir, steps[..n]), k, Merged(dir)[k])
  }

  /** The step writes the entry with this value. */
  predicate Carries(step: Step, k: Key, v: Value) {
    step.Save? && step.content.Doc? && k in step.content.entries && step.content.entries[k] == v
  }

  /** A file that holds an entry is rewritten or retired, and no step up to that one writes the entry. */
  ghost predicate Overtakes(dir: Dir, steps: seq<Step>, f: FileKey, k: Key, p: nat) {
    && p < |steps| && Holds(dir, f, k) && steps[p].file == f
    && forall w :: 0 <= w <= p ==> !Carries(steps[w], k, dir[f].entries[k])
  }

  ghost predicate Overtaken(dir: Dir, steps: seq<Step>) {
    exists f, k: Key, p: nat :: Overtakes(dir, steps, f, k, p)
  }

  lemma PrefixDo(dir: Dir, steps: seq<Step>, n: nat)
    requires DistinctFiles(steps) && n <= |steps|
    ensures Did(dir, steps[..n], RunSteps(dir, steps[..n]))
  {
    StepsDo(dir, steps[..n]);
  }

  lemma HeldThroughout(dir: Dir, steps: seq<Step>, f: FileKey, k: Key, n: nat)
    requires DistinctFiles(steps) && n <= |steps| && Holds(dir, f, k) && !Overtaken(dir, steps)
    ensures Held(RunSteps(dir, steps[..n]), k, dir[f].entries[k])
  {
    var v, done, now := dir[f].entries[k], steps[..n], RunSteps(dir, steps[..n]);
    PrefixDo(dir, steps, n);
    if Touched(done, f) {
      var p: nat :| p < n && done[p].file == f;
      assert !Overtakes(dir, steps, f, k, p);
      var w :| 0 <= w <= p && Carries(steps[w], k, v);
      assert done[w] == steps[w];
      assert Holds(now, steps[w].file, k);
    } else {
      assert Holds(now, f, k);
    }
  }

  lemma OvertakenIsLost(dir: Dir, steps: seq<Step>, f: FileKey, k: Key, p: nat)
    requires DistinctFiles(steps) && Parses(dir) && Overtakes(dir, steps, f, k, p)
    ensures !Held(RunSteps(dir, steps[..p + 1]), k, dir[f].entries[k])
  {
    var v, done, now := dir[f].entries[k], steps[..p + 1], RunSteps(dir, steps[..p + 1]);
    PrefixDo(dir, steps, p + 1);
    assert done[p] == steps[p];
    forall g ensures !(Holds(now, g, k) && now[g].entries[k] == v) {
      if Touched(done, g) {
        var i :| 0 <= i < |done| && done[i].file == g;
        assert done[i] == steps[i] && !Carries(steps[i], k, v);
        assert if done[i].Save? then now[g] == done[i].content else g !in now;
      } else {
        assert g != f && SameFile(now, dir, g);
        assert Holds(now, g, k) ==> Holds(dir, g, k);
      }
    }
  }

  /** Steps on different files lose nothing at any point exactly when no entry is overtaken. */
  lemma StepsSafeIff(dir: Dir, steps: seq<Step>)
    requires DistinctFiles(steps) && Parses(dir)
    ensures SafeToInterrupt(dir, steps) <==> !Overtaken(dir, steps)
  {
    if f, k: Key, p: nat :| Overtakes(dir, steps, f, k, p) {
      MergedAt(dir, f, k);
      OvertakenIsLost(dir, steps, f, k, p);
      assert !Held(RunSteps(dir, steps[..p + 1]), k, Merged(dir)[k]);
    } else {
      forall n, k: Key | 0 <= n <= |steps| && k in Merged(dir)
        ensures Held(RunSteps(dir, steps[..n]), k, Merged(dir)[k])
      {
        var f := MergedFrom(dir, k);
        HeldThroughout(dir, steps, f, k, n);
      }
    }
  }

  lemma StepsDistinct(mode: Mode, order: Order, dir: Dir, stale: seq<FileKey>)
    requires ValidOrder(order) && ListsStale(mode, dir, stale)
    ensures DistinctFiles(MigrationSteps(mode, order, dir, stale))
  {
    if stale != [] && Parses(dir) {
      var config := Load(dir).value;
      var saves := SavePlan(mode, order, config);
      PlanSaves(mode, order, config, SingleFile);
      forall i, j | 0 <= i < |saves| && 0 <= j < |stale| ensures saves[i].file != stale[j] {
        assert Touched(saves, saves[i].file) && stale[j] in stale;
        PlanSaves(mode, order, config, saves[i].file);
        RewrittenIsOwned(mode, order, config, saves[i].file);
      }
    }
  }

  /**
   * A migration can be interrupted after any of its writes and retirements without losing an
   * entry exactly when no file is rewritten or retired ahead of an entry it holds: for every
   * directory, also when the migration stops at a refused name.
   */
  lemma {:induction false} SafeToInterruptIff(mode: Mode, order: Order, dir: Dir, stale: seq<FileKey>)
    requires ValidOrder(order) && ListsStale(mode, dir, stale)
    ensures SafeToInterrupt(dir, MigrationSteps(mode, order, dir, stale))
       <==> !Overtaken(dir, MigrationSteps(mode, order, dir, stale))
  {
    var steps := MigrationSteps(mode, order, dir, stale);
    if Parses(dir) {
      StepsDistinct(mode, order, dir, stale);
      StepsSafeIff(dir, steps);
    } else {
      forall n, k: Key | 0 <= n <= |steps| && k in Merged(dir)
        ensures Held(RunSteps(dir, steps[..n]), k, Merged(dir)[k])
      {
        var f := MergedFrom(dir, k);
      }
    }
  }

  /** The save of a directory's own configuration carries an entry exactly where it stores it. */
  lemma CarriesIff(mode: Mode, order: Order, dir: Dir, i: nat, k: Key, v: Value)
    requires ValidOrder(order) && Parses(dir) && (mode.MultiByItem? ==> GoodNames(Merged(dir)))
    requires i < |SavePlan(mode, order, Load(dir).value)|
    ensures var step := SavePlan(mode, order, Load(dir).value)[i];
            Carries(step, k, v) <==>
            if mode.MultiByItem? then Stores(Merged(dir), step.file, k) == Some(v)
            else Home(mode, k) == step.file && k in Merged(dir) && Merged(dir)[k] == v
  {
    var config := Load(dir).value;
    var saves := SavePlan(mode, order, config);
    assert Touched(saves, saves[i].file);
    PlanSaves(mode, order, config, saves[i].file);
    GoodNamesReached(mode, order, config);
    if mode.MultiByItem? {
      ContentAgrees(config, saves[i].file);
      ItemDocHolds(Merged(dir), saves[i].file, k);
    }
  }

  lemma ContentAgrees(config: Loaded, f: FileKey)
    requires Rewrites(MultiByItem, config.entries, f)
    ensures NewContent(MultiByItem, config, f) == ItemContent(config.entries, f)
  {}

  /** The save of an entry with a file of its own. */
  lemma CarriedAtHome(mode: Mode, order: Order, dir: Dir, k: Key) returns (w: nat)
    requires ValidOrder(order) && Parses(dir) && (mode.MultiByItem? ==> GoodNames(Merged(dir)) && HasFile(k))
    requires k in Merged(dir)
    ensures w < |SavePlan(mode, order, Load(dir).value)|
    ensures var step := SavePlan(mode, order, Load(dir).value)[w];
            step.file == Home(mode, k) && Carries(step, k, Merged(dir)[k])
  {
    var config := Load(dir).value;
    PlanSaves(mode, order, config, Home(mode, k));
    GoodNamesReached(mode, order, config);
    if mode.MultiByItem? { HomeRewritten(Merged(dir), k); }
    w :| 0 <= w < |SavePlan(mode, order, config)| && SavePlan(mode, order, config)[w].file == Home(mode, k);
    CarriesIff(mode, order, dir, w, k, Merged(dir)[k]);
    assert k == KeyOf(k.category, k.name);
  }

  lemma StepsAre(mode: Mode, order: Order, dir: Dir, stale: seq<FileKey>)
    requires ValidOrder(order) && Parses(dir) && stale != [] && (mode.MultiByItem? ==> GoodNames(Merged(dir)))
    ensures MigrationSteps(mode, order, dir, stale) == SavePlan(mode, order, Load(dir).value) + Removes(stale)
  {
    GoodNamesReached(mode, order, Load(dir).value);
  }

  /** Files named like canonical ones hold only what their name stands for. */
  ghost predicate OwnFilesExact(mode: Mode, dir: Dir) {
    forall f, k: Key :: Holds(dir, f, k) && Owned(mode, f) ==> Home(mode, k) == f
  }

  lemma ExactIsSafe(mode: Mode, order: Order, dir: Dir, stale: seq<FileKey>, f: FileKey, k: Key, p: nat)
    requires ValidOrder(order) && Parses(dir) && ListsStale(mode, dir, stale) && stale != [] && OwnFilesExact(mode, dir)
    requires mode.MultiByItem? ==> GoodNames(Merged(dir)) && HasFile(k)
    ensures !Overtakes(dir, MigrationSteps(mode, order, dir, stale), f, k, p)
  {
    var steps, saves := MigrationSteps(mode, order, dir, stale), SavePlan(mode, order, Load(dir).value);
    StepsAre(mode, order, dir, stale);
    StepsDistinct(mode, order, dir, stale);
    if p < |steps| && Holds(dir, f, k) && steps[p].file == f {
      MergedAt(dir, f, k);
      var w := CarriedAtHome(mode, order, dir, k);
      assert steps[w] == saves[w];
      if w > p {
        assert Touched(saves, f);
        PlanSaves(mode, order, Load(dir).value, f);
        RewrittenIsOwned(mode, order, Load(dir).value, f);
        assert false;
      }
    }
  }

  /** An item without a name that is not left over is overtaken: nothing ever writes it. */
  lemma UnnamedIsOvertaken(order: Order, dir: Dir, stale: seq<FileKey>, f: FileKey, k: Key)
    requires ValidOrder(order) && Parses(dir) && ListsStale(MultiByItem, dir, stale) && stale != []
    requires GoodNames(Merged(dir)) && Holds(dir, f, k) && !HasFile(k) && !Leftover(MultiByItem, dir, f)
    ensures Overtaken(dir, MigrationSteps(MultiByItem, order, dir, stale))
  {
    var steps, saves := MigrationSteps(MultiByItem, order, dir, stale), SavePlan(MultiByItem, order, Load(dir).value);
    var v := dir[f].entries[k];
    StepsAre(MultiByItem, order, dir, stale);
    MergedAt(dir, f, k);
    forall w | 0 <= w < |steps| ensures !Carries(steps[w], k, v) {
      if w < |saves| {
        assert steps[w] == saves[w] && Touched(saves, saves[w].file);
        CarriesIff(MultiByItem, order, dir, w, k, v);
        PlanSaves(MultiByItem, order, Load(dir).value, saves[w].file);
        GoodNamesReached(MultiByItem, order, Load(dir).value);
        UnnamedNotStored(Merged(dir), saves[w].file, k);
      }
    }
    var p := StepOf(order, dir, stale, f);
    assert Overtakes(dir, steps, f, k, p);
  }

  lemma StepOf(order: Order, dir: Dir, stale: seq<FileKey>, f: FileKey) returns (p: nat)
    requires ValidOrder(order) && Parses(dir) && ListsStale(MultiByItem, dir, stale) && stale != []
    requires GoodNames(Merged(dir)) && f in dir && !Leftover(MultiByItem, dir, f)
    ensures p < |MigrationSteps(MultiByItem, order, dir, stale)|
    ensures MigrationSteps(MultiByItem, order, dir, stale)[p].file == f
  {
    var saves := SavePlan(MultiByItem, order, Load(dir).value);
    StepsAre(MultiByItem, order, dir, stale);
    if Owned(MultiByItem, f) {
      PlanSaves(MultiByItem, order, Load(dir).value, f);
      GoodNamesReached(MultiByItem, order, Load(dir).value);
      p :| 0 <= p < |saves| && saves[p].file == f;
    } else {
      var j :| 0 <= j < |stale| && stale[j] == f;
      p := |saves| + j;
    }
  }

  lemma ExactLeavesNothing(dir: Dir, f: FileKey, k: Key)
    requires OwnFilesExact(MultiByItem, dir) && Holds(dir, f, k)
    ensures !Leftover(MultiByItem, dir, f)
  {
    MergedAt(dir, f, k);
    HomeRewritten(Merged(dir), k);
  }

  /**
   * When canonically named files hold only what their name stands for, a migration is safe to
   * interrupt exactly when every item has a name, and keeps the meaning exactly when besides no
   * section would be opened twice. Per type, and with nothing to migrate, it always does both.
   */
  lemma ExactFilesMigrateSafely(mode: Mode, order: Order, dir: Dir, stale: seq<FileKey>)
    requires ValidOrder(order) && ListsStale(mode, dir, stale) && OwnFilesExact(mode, dir)
    requires Parses(dir) && !MigrationFails(mode, order, dir, stale)
    ensures SafeToInterrupt(dir, MigrationSteps(mode, order, dir, stale)) <==>
            stale == [] || mode.MultiByType? || Named(Merged(dir))
    ensures var after := Migrate(mode, order, dir, stale);
            (Parses(after) && Merged(after) == Merged(dir)) <==>
            (stale == [] || mode.MultiByType? ||
             (Named(Merged(dir)) && HeadersApart(OwnPart(mode, dir), Merged(dir))))
  {
    ListsNothingIff(mode, dir, stale);
    SafeToInterruptIff(mode, order, dir, stale);
    MigrationPreservesIff(mode, order, dir, stale);
    if stale != [] {
      SucceededIsGood(mode, order, dir, stale);
      if mode.MultiByType? || Named(Merged(dir)) {
        forall f, k: Key, p: nat ensures !Overtakes(dir, MigrationSteps(mode, order, dir, stale), f, k, p) {
          if Holds(dir, f, k) {
            MergedAt(dir, f, k);
            ExactIsSafe(mode, order, dir, stale, f, k, p);
          }
        }
      }
      if mode.MultiByItem? { ExactRefiledIff(order, dir, stale); }
    }
  }

  lemma ExactRefiledIff(order: Order, dir: Dir, stale: seq<FileKey>)
    requires ValidOrder(order) && Parses(dir) && ListsStale(MultiByItem, dir, stale) && stale != []
    requires OwnFilesExact(MultiByItem, dir) && GoodNames(Merged(dir))
    ensures AllRefiled(dir) <==> Named(Merged(dir))
    ensures !Named(Merged(dir)) ==> Overtaken(dir, MigrationSteps(MultiByItem, order, dir, stale))
  {
    forall f, k: Key | Holds(dir, f, k) ensures Refiled(dir, f, k) <==> HasFile(k) {
      ExactLeavesNothing(dir, f, k);
    }
    if k :| k in Merged(dir) && !HasFile(k) {
      var f := MergedFrom(dir, k);
      ExactLeavesNothing(dir, f, k);
      UnnamedIsOvertaken(order, dir, stale, f, k);
      assert !Refiled(dir, f, k);
    }
    if Named(Merged(dir)) {
      forall f, k: Key | Holds(dir, f, k) ensures HasFile(k) { MergedAt(dir, f, k); }
    }
  }

  // ---- overtaking, in terms of the saves ------------------------------------------------

  /** The file of one save holds an entry whose own save comes later. */
  predicate Ahead(mode: Mode, dir: Dir, saves: seq<Step>, k: Key, p: int, w: int) {
    0 <= p < w < |saves| && Holds(dir, saves[p].file, k) && saves[w].file == Home(mode, k)
  }

  lemma CarriedOnlyAtHome(mode: Mode, order: Order, dir: Dir, i: nat, k: Key, v: Value)
    requires ValidOrder(order) && Parses(dir)
    requires mode.MultiByItem? ==> GoodNames(Merged(dir)) && Named(Merged(dir))
    requires i < |SavePlan(mode, order, Load(dir).value)| && Carries(SavePlan(mode, order, Load(dir).value)[i], k, v)
    ensures SavePlan(mode, order, Load(dir).value)[i].file == Home(mode, k)
  {
    var saves := SavePlan(mode, order, Load(dir).value);
    CarriesIff(mode, order, dir, i, k, v);
    if mode.MultiByItem? {
      assert Touched(saves, saves[i].file);
      PlanSaves(mode, order, Load(dir).value, saves[i].file);
      GoodNamesReached(mode, order, Load(dir).value);
      TameStores(Merged(dir), saves[i].file, k);
    }
  }

  lemma AheadOvertakes(mode: Mode, order: Order, dir: Dir, stale: seq<FileKey>, k: Key, p: nat, w: nat)
    requires ValidOrder(order) && Parses(dir) && ListsStale(mode, dir, stale) && stale != []
    requires mode.MultiByItem? ==> GoodNames(Merged(dir)) && Named(Merged(dir))
    requires Ahead(mode, dir, SavePlan(mode, order, Load(dir).value), k, p, w)
    ensures Overtaken(dir, MigrationSteps(mode, order, dir, stale))
  {
    var saves := SavePlan(mode, order, Load(dir).value);
    var steps := MigrationSteps(mode, order, dir, stale);
    StepsAre(mode, order, dir, stale);
    PlanSaves(mode, order, Load(dir).value, SingleFile);
    var f := saves[p].file;
    forall i | 0 <= i <= p ensures !Carries(steps[i], k, dir[f].entries[k]) {
      assert steps[i] == saves[i];
      if Carries(saves[i], k, dir[f].entries[k]) {
        CarriedOnlyAtHome(mode, order, dir, i, k, dir[f].entries[k]);
        assert false;
      }
    }
    assert Overtakes(dir, steps, f, k, p);
  }

  lemma OvertakesAhead(mode: Mode, order: Order, dir: Dir, stale: seq<FileKey>, f: FileKey, k: Key, p: nat)
    returns (w: nat)
    requires ValidOrder(order) && Parses(dir) && ListsStale(mode, dir, stale) && stale != []
    requires mode.MultiByItem? ==> GoodNames(Merged(dir)) && Named(Merged(dir))
    requires Overtakes(dir, MigrationSteps(mode, order, dir, stale), f, k, p)
    ensures Ahead(mode, dir, SavePlan(mode, order, Load(dir).value), k, p, w)
  {
    var saves := SavePlan(mode, order, Load(dir).value);
    var steps := MigrationSteps(mode, order, dir, stale);
    StepsAre(mode, order, dir, stale);
    MergedAt(dir, f, k);
    w := CarriedAtHome(mode, order, dir, k);
    assert steps[w] == saves[w];
    assert p < w;
    assert steps[p] == saves[p];
  }

  /** With names for all items: some file is rewritten ahead of an entry it still holds. */
  lemma NamedOvertakenIff(mode: Mode, order: Order, dir: Dir, stale: seq<FileKey>)
    requires ValidOrder(order) && Parses(dir) && ListsStale(mode, dir, stale)
    requires mode.MultiByItem? ==> GoodNames(Merged(dir)) && Named(Merged(dir))
    ensures Overtaken(dir, MigrationSteps(mode, order, dir, stale)) <==>
            stale != [] && exists k: Key, p, w :: Ahead(mode, dir, SavePlan(mode, order, Load(dir).value), k, p, w)
  {
    if stale != [] {
      if k: Key, p, w :| Ahead(mode, dir, SavePlan(mode, order, Load(dir).value), k, p, w) {
        AheadOvertakes(mode, order, dir, stale, k, p, w);
      }
      if f, k: Key, p: nat :| Overtakes(dir, MigrationSteps(mode, order, dir, stale), f, k, p) {
        var w := OvertakesAhead(mode, order, dir, stale, f, k, p);
      }
    }
  }

  function Rank(c: Category): nat {
    match c
    case Basic => 0
    case Server => 1
    case Location => 2
    case Upstream => 3
    case Plugin => 4
    case Certificate => 5
    case Storage => 6
  }

  lemma RankIsIndex(c: Category)
    ensures Rank(c) < |ALL_CATEGORIES| && ALL_CATEGORIES[Rank(c)] == c
  {}

  lemma IndexIsRank(i: nat)
    requires i < |ALL_CATEGORIES|
    ensures Rank(ALL_CATEGORIES[i]) == i
  {}

  /** A section file holds an entry of a section written later. */
  ghost predicate LaterSection(dir: Dir) {
    exists c: Category, k: Key :: Holds(dir, CategoryFile(c), k) && Rank(c) < Rank(k.category)
  }

  lemma AheadByRank(dir: Dir, saves: seq<Step>)
    requires |saves| == |ALL_CATEGORIES|
    requires forall i :: 0 <= i < |saves| ==> saves[i].file == CategoryFile(ALL_CATEGORIES[i])
    ensures (exists k: Key, p, w :: Ahead(MultiByType, dir, saves, k, p, w)) <==> LaterSection(dir)
  {
    if c: Category, k: Key :| Holds(dir, CategoryFile(c), k) && Rank(c) < Rank(k.category) {
      RankIsIndex(c);
      RankIsIndex(k.category);
      assert Ahead(MultiByType, dir, saves, k, Rank(c), Rank(k.category));
    }
    if k: Key, p, w :| Ahead(MultiByType, dir, saves, k, p, w) {
      IndexIsRank(p);
      IndexIsRank(w);
      assert Holds(dir, CategoryFile(ALL_CATEGORIES[p]), k) && Rank(ALL_CATEGORIES[p]) < Rank(k.category);
    }
  }

  lemma TypePlanFiles(order: Order, config: Loaded)
    ensures var saves := SavePlan(MultiByType, order, config);
            |saves| == |ALL_CATEGORIES| &&
            forall i :: 0 <= i < |saves| ==> saves[i].file == CategoryFile(ALL_CATEGORIES[i])
  {}

  /** The order in which the sections are written. */
  lemma SectionOrder(order: Order, config: Loaded)
    ensures var saves := SavePlan(MultiByType, order, config);
            && |saves| == 7
            && saves[0].file == CategoryFile(Basic) && saves[1].file == CategoryFile(Server)
            && saves[2].file == CategoryFile(Location) && saves[3].file == CategoryFile(Upstream)
            && saves[4].file == CategoryFile(Plugin) && saves[5].file == CategoryFile(Certificate)
            && saves[6].file == CategoryFile(Storage)
  {
    TypePlanFiles(order, config);
  }

  /** Per type: a migration is safe exactly when no section file holds an entry of a later section. */
  lemma TypeSafeIff(order: Order, dir: Dir, stale: seq<FileKey>)
    requires ValidOrder(order) && Parses(dir) && ListsStale(MultiByType, dir, stale)
    ensures SafeToInterrupt(dir, MigrationSteps(MultiByType, order, dir, stale)) <==>
            stale == [] || !LaterSection(dir)
  {
    SafeToInterruptIff(MultiByType, order, dir, stale);
    NamedOvertakenIff(MultiByType, order, dir, stale);
    TypePlanFiles(order, Load(dir).value);
    AheadByRank(dir, SavePlan(MultiByType, order, Load(dir).value));
  }

  // ---- directories for which the unconditional claims fail ------------------------------

  const OLD_FILE := Other("old.toml")

  lemma OnlyOldIsStale(mode: Mode, dir: Dir)
    requires !mode.Single? && OLD_FILE in dir && forall f <- dir :: f == OLD_FILE || Owned(mode, f)
    ensures ListsStale(mode, dir, [OLD_FILE])
  {}

  /** `servers.toml` also holding an upstream: interrupted after two writes, the upstream is gone. */
  lemma InterruptedMigrationCanLose(order: Order)
    requires ValidOrder(order)
    ensures var dir: Dir := map[CategoryFile(Server) := Doc(map[KeyOf(Upstream, "u") := Table(map[])], {}),
                                OLD_FILE := Doc(map[], {})];
            && Parses(dir) && ListsStale(MultiByType, dir, [OLD_FILE])
            && !SafeToInterrupt(dir, MigrationSteps(MultiByType, order, dir, [OLD_FILE]))
  {
    var u := KeyOf(Upstream, "u");
    var dir: Dir := map[CategoryFile(Server) := Doc(map[u := Table(map[])], {}), OLD_FILE := Doc(map[], {})];
    assert forall f, k: Key :: Holds(dir, f, k) ==> f == CategoryFile(Server) && k == u;
    assert forall f, c: Category :: !Opens(dir, f, c);
    OnlyOldIsStale(MultiByType, dir);
    assert LaterSection(dir) by { assert Holds(dir, CategoryFile(Server), u) && Rank(Server) < Rank(u.category); }
    TypeSafeIff(order, dir, [OLD_FILE]);
  }

  /** `servers/x.toml` holding only an upstream: migrating leaves a directory that does not parse. */
  lemma LeftoverCanBreakTheDirectory(order: Order)
    requires ValidOrder(order)
    ensures var dir: Dir := map[ItemFile(Server, "x") := Doc(map[KeyOf(Upstream, "u") := Table(map[])], {}),
                                OLD_FILE := Doc(map[], {})];
            && Parses(dir) && ListsStale(MultiByItem, dir, [OLD_FILE])
            && !MigrationFails(MultiByItem, order, dir, [OLD_FILE])
            && !Parses(Migrate(MultiByItem, order, dir, [OLD_FILE]))
  {
    var u, f := KeyOf(Upstream, "u"), ItemFile(Server, "x");
    var dir: Dir := map[f := Doc(map[u := Table(map[])], {}), OLD_FILE := Doc(map[], {})];
    OneEntry(dir, f, u);
    OnlyOldIsStale(MultiByItem, dir);
    assert KeyOf(Server, "x") != u;
    LeftEntryBreaks(order, dir, f, u);
  }

  lemma LeftEntryBreaks(order: Order, dir: Dir, f: FileKey, k: Key)
    requires ValidOrder(order) && Parses(dir) && ListsStale(MultiByItem, dir, [OLD_FILE])
    requires GoodNames(Merged(dir)) && Tame(Merged(dir)) && HasFile(k) && k in Merged(dir)
    requires Leftover(MultiByItem, dir, f) && Holds(dir, f, k)
    ensures !MigrationFails(MultiByItem, order, dir, [OLD_FILE])
    ensures !Parses(Migrate(MultiByItem, order, dir, [OLD_FILE]))
  {
    MigrateSaves(MultiByItem, order, dir, [OLD_FILE]);
    ItemMigrationSaves(order, dir, [OLD_FILE]);
    LeftoverIs(dir, f, k);
    KeptEntryBreaks(OwnPart(MultiByItem, dir), Merged(dir), Migrate(MultiByItem, order, dir, [OLD_FILE]), f, k);
  }

  /** A file that stays and holds a saved entry makes the directory unreadable. */
  lemma KeptEntryBreaks(base: Dir, saved: Config, after: Dir, f: FileKey, k: Key)
    requires ItemSaved(base, saved, after) && Tame(saved) && HasFile(k) && k in saved
    requires Holds(base, f, k) && !Rewrites(MultiByItem, saved, f)
    ensures !Parses(after)
  {
    if Parses(after) { ParsedApart(base, saved, after); }
  }

  lemma OneEntry(dir: Dir, f: FileKey, k: Key)
    requires (forall g <- dir :: dir[g].Doc? && dir[g].headers == {}) && f in dir && dir[f].entries.Keys == {k}
    requires forall g <- dir :: g == f || dir[g].entries == map[]
    ensures Parses(dir) && Merged(dir).Keys == {k} && Merged(dir)[k] == dir[f].entries[k]
  {
    forall g, c: Category ensures !Opens(dir, g, c) {}
    assert Holds(dir, f, k);
    MergedAt(dir, f, k);
    forall j | j in Merged(dir) ensures j == k { var g := MergedFrom(dir, j); }
  }

  /** An old file with an item whose name is empty: the migration succeeds and the item is gone. */
  lemma UnnamedItemIsLost(order: Order)
    requires ValidOrder(order)
    ensures var k, v := KeyOf(Server, ""), Table(map["addr" := Str("x")]);
            var dir: Dir := map[OLD_FILE := Doc(map[k := v], {})];
            && Parses(dir) && ListsStale(MultiByItem, dir, [OLD_FILE])
            && !MigrationFails(MultiByItem, order, dir, [OLD_FILE])
            && !Held(Migrate(MultiByItem, order, dir, [OLD_FILE]), k, v)
  {
    var k, v := KeyOf(Server, ""), Table(map["addr" := Str("x")]);
    var dir: Dir := map[OLD_FILE := Doc(map[k := v], {})];
    var after := Migrate(MultiByItem, order, dir, [OLD_FILE]);
    OneEntry(dir, OLD_FILE, k);
    OnlyOldIsStale(MultiByItem, dir);
    MigrateSaves(MultiByItem, order, dir, [OLD_FILE]);
    ItemMigrationSaves(order, dir, [OLD_FILE]);
    forall f ensures !(Holds(after, f, k) && after[f].entries[k] == v) {
      if Holds(after, f, k) && after[f].entries[k] == v {
        UnnamedHeldOutside(OwnPart(MultiByItem, dir), Merged(dir), after, f, k);
        assert false;
      }
    }
  }

  /** Two items that are no tables: each of their new files opens the section, so nothing can be read. */
  lemma InlineItemsBreakTheDirectory(order: Order)
    requires ValidOrder(order)
    ensures var entries := map[KeyOf(Server, "a") := Int(1), KeyOf(Server, "b") := Int(2)];
            var dir: Dir := map[OLD_FILE := Doc(entries, {Server})];
            && Parses(dir) && ListsStale(MultiByItem, dir, [OLD_FILE])
            && !MigrationFails(MultiByItem, order, dir, [OLD_FILE])
            && !Parses(Migrate(MultiByItem, order, dir, [OLD_FILE]))
  {
    var a, b := KeyOf(Server, "a"), KeyOf(Server, "b");
    var dir: Dir := map[OLD_FILE := Doc(map[a := Int(1), b := Int(2)], {Server})];
    assert forall f, k: Key :: Holds(dir, f, k) ==> f == OLD_FILE && k in {a, b};
    assert Holds(dir, OLD_FILE, a) && Holds(dir, OLD_FILE, b);
    MergedAt(dir, OLD_FILE, a);
    MergedAt(dir, OLD_FILE, b);
    forall k | k in Merged(dir) ensures k in {a, b} { var f := MergedFrom(dir, k); }
    OnlyOldIsStale(MultiByItem, dir);
    MigrateSaves(MultiByItem, order, dir, [OLD_FILE]);
    ItemMigrationSaves(order, dir, [OLD_FILE]);
    BothHead(OwnPart(MultiByItem, dir), Merged(dir), Migrate(MultiByItem, order, dir, [OLD_FILE]), a, b);
  }

  lemma BothHead(base: Dir, saved: Config, after: Dir, a: Key, b: Key)
    requires ItemSaved(base, saved, after) && a in saved && b in saved && a != b && a.category == b.category
    requires !a.category.Basic? && HasFile(a) && HasFile(b) && Inline(saved[a]) && Inline(saved[b])
    ensures !Parses(after)
  {
    assert a == KeyOf(a.category, a.name) && b == KeyOf(b.category, b.name);
    HomeRewritten(saved, a);
    HomeRewritten(saved, b);
    assert Heads(base, saved, Home(MultiByItem, a), a.category) && Heads(base, saved, Home(MultiByItem, b), a.category);
    if Parses(after) { ParsedApart(base, saved, after); }
  }
}
