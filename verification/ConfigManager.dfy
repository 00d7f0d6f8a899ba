/** The configuration manager over its file storage, operation by operation. */
module ConfigManager {
  import opened Toml
  import opened Layout
  import opened ConfigStore
  import opened ConfigRefinement
  import opened WholeSave
  import opened Migration
  import opened Addresses
  import References

  /** The part of a directory already read. */
  ghost function Part(dir: Dir, done: set<FileKey>): Dir {
    map f | f in dir && f in done :: dir[f]
  }

  ghost predicate EntriesAre(dir: Dir, entries: Config) {
    && (forall f, k: Key :: Holds(dir, f, k) ==> k in entries && entries[k] == dir[f].entries[k])
    && (forall k: Key :: k in entries ==> exists f :: Holds(dir, f, k))
  }

  ghost predicate HeadersAre(dir: Dir, headers: set<Category>) {
    && (forall f, c :: Opens(dir, f, c) ==> c in headers)
    && (forall c :: c in headers ==> exists f :: Opens(dir, f, c))
  }

  /** The accumulated document describes the files read so far. */
  ghost predicate Describes(dir: Dir, entries: Config, headers: set<Category>) {
    Parses(dir) && EntriesAre(dir, entries) && HeadersAre(dir, headers)
  }

  lemma PartHolds(dir: Dir, done: set<FileKey>, f: FileKey, g: FileKey, k: Key)
    requires f in dir && f !in done && dir[f].Doc?
    ensures Holds(Part(dir, done + {f}), g, k) <==> Holds(Part(dir, done), g, k) || (g == f && k in dir[f].entries)
    ensures !Holds(Part(dir, done), f, k)
  {}

  lemma PartOpens(dir: Dir, done: set<FileKey>, f: FileKey, g: FileKey, c: Category)
    requires f in dir && f !in done && dir[f].Doc?
    ensures Opens(Part(dir, done + {f}), g, c) <==> Opens(Part(dir, done), g, c) || (g == f && c in dir[f].headers)
    ensures !Opens(Part(dir, done), f, c)
  {}

  lemma EntriesNext(dir: Dir, done: set<FileKey>, f: FileKey, entries: Config)
    requires EntriesAre(Part(dir, done), entries) && f in dir && f !in done && dir[f].Doc?
    requires dir[f].entries.Keys !! entries.Keys
    ensures EntriesAre(Part(dir, done + {f}), entries + dir[f].entries)
  {
    var p, q, all := Part(dir, done), Part(dir, done + {f}), entries + dir[f].entries;
    forall g, k: Key | Holds(q, g, k) ensures k in all && all[k] == q[g].entries[k] {
      PartHolds(dir, done, f, g, k);
    }
    forall k: Key | k in all ensures exists g :: Holds(q, g, k) {
      if k in dir[f].entries {
        assert Holds(q, f, k);
      } else {
        var g :| Holds(p, g, k);
        PartHolds(dir, done, f, g, k);
      }
    }
  }

  lemma HeadersNext(dir: Dir, done: set<FileKey>, f: FileKey, headers: set<Category>)
    requires HeadersAre(Part(dir, done), headers) && f in dir && f !in done && dir[f].Doc?
    ensures HeadersAre(Part(dir, done + {f}), headers + dir[f].headers)
  {
    var p, q := Part(dir, done), Part(dir, done + {f});
    forall g, c | Opens(q, g, c) ensures c in headers + dir[f].headers {
      PartOpens(dir, done, f, g, c);
    }
    forall c | c in headers + dir[f].headers ensures exists g :: Opens(q, g, c) {
      if c in dir[f].headers {
        assert Opens(q, f, c);
      } else {
        var g :| Opens(p, g, c);
        PartOpens(dir, done, f, g, c);
      }
    }
  }

  lemma ParsesNext(dir: Dir, done: set<FileKey>, f: FileKey, entries: Config, headers: set<Category>)
    requires Describes(Part(dir, done), entries, headers) && f in dir && f !in done && dir[f].Doc?
    requires dir[f].entries.Keys !! entries.Keys && dir[f].headers !! headers
    ensures Parses(Part(dir, done + {f}))
  {
    var p, q := Part(dir, done), Part(dir, done + {f});
    forall g | g in q ensures q[g].Doc? {
      assert g == f || g in p;
    }
    forall g, h, k: Key | Holds(q, g, k) && Holds(q, h, k) ensures g == h {
      PartHolds(dir, done, f, g, k);
      PartHolds(dir, done, f, h, k);
    }
    forall g, h, c: Category | Opens(q, g, c) && Opens(q, h, c) ensures g == h {
      PartOpens(dir, done, f, g, c);
      PartOpens(dir, done, f, h, c);
    }
  }

  lemma DescribesNext(dir: Dir, done: set<FileKey>, f: FileKey, entries: Config, headers: set<Category>)
    requires Describes(Part(dir, done), entries, headers)
    requires f in dir && f !in done && dir[f].Doc?
    requires dir[f].entries.Keys !! entries.Keys && dir[f].headers !! headers
    ensures Describes(Part(dir, done + {f}), entries + dir[f].entries, headers + dir[f].headers)
  {
    ParsesNext(dir, done, f, entries, headers);
    EntriesNext(dir, done, f, entries);
    HeadersNext(dir, done, f, headers);
  }

  lemma NothingRead(dir: Dir)
    ensures Describes(Part(dir, {}), map[], {})
  {}

  lemma AllRead(dir: Dir, done: set<FileKey>)
    requires done == dir.Keys
    ensures Part(dir, done) == dir
  {}

  /** A repeated entry or header makes the whole directory unreadable. */
  lemma RepeatsFail(dir: Dir, done: set<FileKey>, f: FileKey, entries: Config, headers: set<Category>)
    requires Describes(Part(dir, done), entries, headers)
    requires f in dir && f !in done && dir[f].Doc?
    requires !(dir[f].entries.Keys !! entries.Keys) || !(dir[f].headers !! headers)
    ensures !Parses(dir)
  {
    var p := Part(dir, done);
    if !(dir[f].entries.Keys !! entries.Keys) {
      var k: Key :| k in dir[f].entries && k in entries;
      var g :| Holds(p, g, k);
      assert Holds(dir, g, k) && Holds(dir, f, k);
    } else {
      var c: Category :| c in dir[f].headers && c in headers;
      var g :| Opens(p, g, c);
      assert Opens(dir, g, c) && Opens(dir, f, c);
    }
  }

  lemma DescribedIsLoaded(dir: Dir, entries: Config, headers: set<Category>)
    requires Describes(dir, entries, headers)
    ensures Load(dir) == Ok(Loaded(entries, headers + (set k: Key | k in entries :: k.category)))
  {
    forall k: Key ensures SameAt(entries, Merged(dir), k) {
      if k in Merged(dir) { var f := MergedFrom(dir, k); }
      if k in entries {
        var f :| Holds(dir, f, k);
        MergedAt(dir, f, k);
      }
    }
    SameEverywhere(entries, Merged(dir));
    assert Entries(dir) == Merged(dir).Keys == entries.Keys;
    forall c: Category ensures c in headers <==> exists f :: Opens(dir, f, c) {}
    assert (set f, c: Category | f in dir && dir[f].Doc? && c in dir[f].headers :: c) == headers by {
      forall c: Category | c in headers
        ensures c in (set f, c: Category | f in dir && dir[f].Doc? && c in dir[f].headers :: c)
      {
        var f :| Opens(dir, f, c);
      }
      forall c: Category | c in (set f, c: Category | f in dir && dir[f].Doc? && c in dir[f].headers :: c)
        ensures c in headers
      {
        var f :| f in dir && dir[f].Doc? && c in dir[f].headers;
        assert Opens(dir, f, c);
      }
    }
  }

  class Manager {
    const mode: Mode
    /** The order the TOML library walks tables in. */
    const order: Order
    /** The `.toml` files the loader reads. */
    var files: Dir
    /** Copies of retired files, under names the loader ignores. */
    var kept: Dir
    /** The configuration the proxy runs under. */
    var current: References.Names

    constructor (mode: Mode, order: Order, files: Dir, current: References.Names)
      ensures this.mode == mode && this.order == order && this.files == files && kept == map[]
      ensures this.current == current
    {
      this.mode := mode;
      this.order := order;
      this.files := files;
      this.kept := map[];
      this.current := current;
    }

    /** Reads every file and parses the concatenation. */
    method LoadAll() returns (r: Result<Loaded>)
      ensures r == Load(files)
    {
      var entries: Config := map[];
      var headers: set<Category> := {};
      var rest := files.Keys;
      ghost var done: set<FileKey> := {};
      NothingRead(files);
      while rest != {}
        invariant done == files.Keys - rest && rest <= files.Keys
        invariant Describes(Part(files, done), entries, headers)
        decreases |rest|
      {
        var f :| f in rest;
        if files[f].Malformed? {
          return Err;
        }
        if !(files[f].entries.Keys !! entries.Keys) || !(files[f].headers !! headers) {
          RepeatsFail(files, done, f, entries, headers);
          return Err;
        }
        DescribesNext(files, done, f, entries, headers);
        entries := entries + files[f].entries;
        headers := headers + files[f].headers;
        rest := rest - {f};
        done := done + {f};
      }
      AllRead(files, done);
      DescribedIsLoaded(files, entries, headers);
      r := Ok(Loaded(entries, headers + (set k: Key | k in entries :: k.category)));
    }

    /** The files this mode would never have written itself. */
    method StaleLayoutKeys() returns (stale: seq<FileKey>)
      requires Kinds(files)
      ensures ListsStale(mode, files, stale)
    {
      stale := [];
      var rest := files.Keys;
      while rest != {}
        invariant rest <= files.Keys && Distinct(stale)
        invariant forall f :: f in stale <==> f in files && f !in rest && !Owned(mode, f)
        decreases |rest|
      {
        var f :| f in rest;
        CanonicalIffOwned(mode, f);
        if !IsCanonicalKey(mode, Render(f)) {
          stale := stale + [f];
        }
        rest := rest - {f};
      }
    }

    method SaveStep(step: Step)
      requires step.Save?
      modifies this`files
      ensures files == Apply(old(files), step)
    {
      files := files[step.file := step.content];
    }

    method SaveSections(config: Loaded)
      requires mode.MultiByType?
      modifies this`files
      ensures files == RunSteps(old(files), SavePlan(mode, order, config))
    {
      ghost var steps := SavePlan(mode, order, config);
      for i := 0 to |ALL_CATEGORIES|
        invariant files == RunSteps(old(files), steps[..i])
      {
        SaveStep(CategorySave(config, ALL_CATEGORIES[i]));
        RunNext(old(files), steps, i);
      }
      assert steps[..|ALL_CATEGORIES|] == steps;
    }

    /** Writes the basic section, then the planned items up to the first name the storage refuses. */
    method SavePlanned(config: Loaded, plan: seq<Key>, ghost steps: seq<Step>) returns (ok: bool)
      requires ItemPlanned(config, plan, steps)
      modifies this`files
      ensures files == RunSteps(old(files), steps)
      ensures ok <==> |steps| == |plan| + 1
    {
      SaveStep(CategorySave(config, Basic));
      RunNext(old(files), steps, 0);
      for i := 0 to |plan|
        invariant i < |steps|
        invariant files == RunSteps(old(files), steps[..i + 1])
      {
        ItemPlanStep(config, plan, steps, i);
        if BadName(plan[i].name) {
          assert steps[..i + 1] == steps;
          return false;
        }
        SaveStep(ItemSave(config.entries, plan[i]));
        RunNext(old(files), steps, i + 1);
      }
      PlanDone(config, plan, steps);
      assert steps[..|plan| + 1] == steps;
      return true;
    }

    method SaveItems(config: Loaded) returns (ok: bool)
      requires mode.MultiByItem?
      modifies this`files
      ensures files == RunSteps(old(files), SavePlan(mode, order, config))
      ensures ok <==> !SaveStops(mode, order, config)
    {
      ghost var steps := SavePlan(MultiByItem, order, config);
      var plan := ItemPlan(order, config.entries, ITEM_CATEGORIES);
      ItemPlanSteps(order, config, plan, steps);
      ok := SavePlanned(config, plan, steps);
    }

    /** Writes the whole configuration, file by file, stopping at a name the storage refuses. */
    method SaveAll(config: Loaded) returns (ok: bool)
      modifies this`files
      ensures files == RunSteps(old(files), SavePlan(mode, order, config))
      ensures ok <==> !SaveStops(mode, order, config)
    {
      match mode
      case Single =>
        SaveStep(Save(SingleFile, WholeDoc(config)));
        RunOne(old(files), Save(SingleFile, WholeDoc(config)));
        return true;
      case MultiByType =>
        SaveSections(config);
        return true;
      case MultiByItem =>
        ok := SaveItems(config);
    }

    /** Rewrites one entry; in shared files the rest of the file is loaded and written back. */
    method Update(c: Category, name: string, fields: Fields) returns (ok: bool)
      modifies this`files
      ensures files == Run(mode, order, old(files), Op.Update(c, name, fields))
      ensures ok <==> Segment(name) && (mode.MultiByItem? || Parses(old(files)))
    {
      BadNameIff(name);
      var key := GetKey(mode, c, name);
      if key.Err? {
        return false;
      }
      var file := FileAt(mode, c, name, key.value);
      if mode == MultiByItem {
        SaveStep(Save(file, ItemDoc(Table(fields), c, name)));
        RunOne(old(files), Save(file, ItemDoc(Table(fields), c, name)));
        return true;
      }
      var loaded := LoadAll();
      if loaded.Err? {
        return false;
      }
      var config := InsertEntry(loaded.value, c, name, Table(fields));
      var content := if mode == MultiByType then CategoryDoc(config, c) else WholeDoc(config);
      SaveStep(Save(file, content));
      RunOne(old(files), Save(file, content));
      return true;
    }

    /** Removes one entry unless the running configuration still refers to it. */
    method Delete(c: Category, name: string) returns (ok: bool)
      modifies this`files
      ensures var free := !References.InUse(current, c, name);
              && files == Run(mode, order, old(files), Op.Delete(c, name, free))
              && (ok <==> Segment(name) && free && (mode.MultiByItem? || Parses(old(files))))
    {
      BadNameIff(name);
      var key := GetKey(mode, c, name);
      if key.Err? {
        return false;
      }
      var left := References.Remove(current, c, name);
      if left.Err? {
        return false;
      }
      var file := FileAt(mode, c, name, key.value);
      if mode == MultiByItem {
        files := files - {file};
        RunOne(old(files), Remove(file));
        return true;
      }
      var loaded := LoadAll();
      if loaded.Err? {
        return false;
      }
      var config := DropEntry(loaded.value, c, name);
      var content := if mode == MultiByType then CategoryDoc(config, c) else WholeDoc(config);
      SaveStep(Save(file, content));
      RunOne(old(files), Save(file, content));
      return true;
    }

    /** Takes a file out of the loader's sight, keeping its bytes. */
    method Retire(f: FileKey)
      requires f in files
      modifies this`files, this`kept
      ensures files == old(files) - {f}
      ensures kept == old(kept)[f := old(files)[f]]
    {
      kept := kept[f := files[f]];
      files := files - {f};
    }

    method RetireAll(stale: seq<FileKey>)
      requires Distinct(stale) && forall f :: f in stale ==> f in files
      modifies this`files, this`kept
      ensures files == RunSteps(old(files), Removes(stale))
      ensures forall f :: f in stale ==> f in kept && kept[f] == old(files)[f]
    {
      for i := 0 to |stale|
        invariant forall f :: f in files <==> f in old(files) && f !in stale[..i]
        invariant forall f :: f in files ==> files[f] == old(files)[f]
        invariant forall f :: f in stale[..i] ==> f in kept && kept[f] == old(files)[f]
      {
        assert stale[i] !in stale[..i];
        assert stale[..i + 1] == stale[..i] + [stale[i]];
        Retire(stale[i]);
      }
      assert stale[..|stale|] == stale;
      RemovesRemove(old(files), stale);
      assert files == old(files) - (set f | f in stale);
    }

    /** Writes everything that can be loaded in the layout of this mode. */
    method WriteCanonical() returns (ok: bool)
      modifies this`files
      ensures files == Rewritten(mode, order, old(files))
      ensures ok <==> RewriteWorks(mode, order, old(files))
    {
      var loaded := LoadAll();
      if loaded.Err? {
        return false;
      }
      ok := SaveAll(loaded.value);
    }

    /** Writes the canonical layout and then, only if that went through, retires the stale files. */
    method Replace(stale: seq<FileKey>) returns (ok: bool)
      requires ListsStale(mode, files, stale) && stale != []
      modifies this`files, this`kept
      ensures files == Migrate(mode, order, old(files), stale)
      ensures ok <==> !MigrationFails(mode, order, old(files), stale)
      ensures ok ==> forall f :: f in stale ==> f in kept
      ensures !ok ==> kept == old(kept)
    {
      MigrationIsRewriteThenRetire(mode, order, files, stale);
      StaleStaysListed(mode, order, files, stale);
      ok := WriteCanonical();
      if ok {
        RetireAll(stale);
      }
    }

    /** Rewrites the configuration in canonical form if any file of another layout is present. */
    method MigrateLayout() returns (r: Result<seq<FileKey>>, ghost stale: seq<FileKey>)
      requires Kinds(files)
      modifies this`files, this`kept
      ensures ListsStale(mode, old(files), stale)
      ensures files == Migrate(mode, order, old(files), stale)
      ensures r == if MigrationFails(mode, order, old(files), stale) then Err else Ok(stale)
      ensures r.Ok? ==> forall f :: f in stale ==> f in kept
      ensures r.Err? ==> kept == old(kept)
    {
      var found := StaleLayoutKeys();
      stale := found;
      if found == [] {
        return Ok([]), [];
      }
      var ok := Replace(found);
      r := if ok then Ok(found) else Err;
    }

    method GetEntry(c: Category, name: string) returns (r: Result<Option<Value>>)
      ensures r == Get(mode, files, c, name)
      ensures !Segment(name) ==> r.Err?
    {
      BadNameIff(name);
      var key := GetKey(mode, c, name);
      if key.Err? {
        return Err;
      }
      var file := FileAt(mode, c, name, key.value);
      if file !in files {
        return Ok(None);
      }
      if files[file].Malformed? {
        return Err;
      }
      r := Ok(Lookup(files[file].entries, KeyOf(c, name)));
    }
  }

  /** The kind of the path an entry is stored under. */
  function FileAt(mode: Mode, c: Category, name: string, key: string): (f: FileKey)
    requires GetKey(mode, c, name) == Ok(key)
    ensures WellFormed(f) && Render(f) == key
  {
    GetKeyIsHome(mode, c, name);
    Home(mode, KeyOf(c, name))
  }

  /** The directory once everything loadable has been written in the layout of the mode. */
  ghost function Rewritten(mode: Mode, order: Order, dir: Dir): Dir {
    if Load(dir).Err? then dir else RunSteps(dir, SavePlan(mode, order, Load(dir).value))
  }

  ghost predicate RewriteWorks(mode: Mode, order: Order, dir: Dir) {
    Load(dir).Ok? && !SaveStops(mode, order, Load(dir).value)
  }

  lemma MigrationIsRewriteThenRetire(mode: Mode, order: Order, dir: Dir, stale: seq<FileKey>)
    requires stale != []
    ensures MigrationFails(mode, order, dir, stale) <==> !RewriteWorks(mode, order, dir)
    ensures Migrate(mode, order, dir, stale) ==
            if RewriteWorks(mode, order, dir) then RunSteps(Rewritten(mode, order, dir), Removes(stale))
            else Rewritten(mode, order, dir)
  {
    if Load(dir).Ok? {
      MigrationRuns(mode, order, dir, stale, Load(dir).value);
    } else {
      MigrationStops(mode, order, dir, stale);
    }
  }

  lemma MigrationStops(mode: Mode, order: Order, dir: Dir, stale: seq<FileKey>)
    requires stale != [] && Load(dir).Err?
    ensures MigrationFails(mode, order, dir, stale) && Migrate(mode, order, dir, stale) == dir
  {}

  lemma MigrationRuns(mode: Mode, order: Order, dir: Dir, stale: seq<FileKey>, config: Loaded)
    requires stale != [] && Load(dir) == Ok(config)
    ensures MigrationFails(mode, order, dir, stale) <==> SaveStops(mode, order, config)
    ensures Migrate(mode, order, dir, stale) ==
            var saved := RunSteps(dir, SavePlan(mode, order, config));
            if SaveStops(mode, order, config) then saved else RunSteps(saved, Removes(stale))
  {
    RunStepsAppend(dir, SavePlan(mode, order, config), Removes(stale));
  }

  /** Whatever an operation writes has a kind. */
  lemma RunKeepsKinds(mode: Mode, order: Order, dir: Dir, op: Op)
    requires ValidOrder(order) && Kinds(dir)
    ensures Kinds(Run(mode, order, dir, op))
  {
    var steps := StepsFrom(mode, order, Load(dir), op);
    forall i | 0 <= i < |steps| ensures WellFormed(steps[i].file) {
      StepIsOwn(mode, order, Load(dir), op, i);
    }
    StepsKeepKinds(dir, steps);
  }

  lemma {:induction false} StepsKeepKinds(dir: Dir, steps: seq<Step>)
    requires Kinds(dir) && forall i :: 0 <= i < |steps| ==> WellFormed(steps[i].file)
    ensures Kinds(RunSteps(dir, steps))
    decreases |steps|
  {
    if steps != [] { StepsKeepKinds(dir, steps[..|steps| - 1]); }
  }

  lemma SavePlanSaves(mode: Mode, order: Order, config: Loaded)
    ensures forall i :: 0 <= i < |SavePlan(mode, order, config)| ==> SavePlan(mode, order, config)[i].Save?
  {
    match mode
    case Single =>
    case MultiByType =>
    case MultiByItem =>
  }

  lemma RunNext(dir: Dir, steps: seq<Step>, i: nat)
    requires i < |steps|
    ensures RunSteps(dir, steps[..i + 1]) == Apply(RunSteps(dir, steps[..i]), steps[i])
  {
    assert steps[..i + 1][..i] == steps[..i];
  }

  /** The steps of an item-wise save are the good prefix of the plan, after the basic section. */
  ghost predicate ItemPlanned(config: Loaded, plan: seq<Key>, steps: seq<Step>) {
    var good := GoodPrefix(plan);
    && |steps| == |good| + 1
    && steps[0] == CategorySave(config, Basic)
    && forall i :: 0 <= i < |good| ==> steps[i + 1] == ItemSave(config.entries, good[i])
  }

  lemma ItemPlanSteps(order: Order, config: Loaded, plan: seq<Key>, steps: seq<Step>)
    requires plan == ItemPlan(order, config.entries, ITEM_CATEGORIES) && steps == SavePlan(MultiByItem, order, config)
    ensures ItemPlanned(config, plan, steps)
    ensures SaveStops(MultiByItem, order, config) <==> |steps| < |plan| + 1
  {
    assert steps == [CategorySave(config, Basic)] + ItemSaves(config.entries, GoodPrefix(plan));
  }

  lemma PlanDone(config: Loaded, plan: seq<Key>, steps: seq<Step>)
    requires ItemPlanned(config, plan, steps)
    ensures |steps| <= |plan| + 1
  {}

  /** At each name the save either goes on with the next step or is over. */
  lemma ItemPlanStep(config: Loaded, plan: seq<Key>, steps: seq<Step>, i: nat)
    requires ItemPlanned(config, plan, steps) && i < |plan| && i < |steps|
    ensures if BadName(plan[i].name) then |steps| == i + 1
            else i + 1 < |steps| && steps[i + 1] == ItemSave(config.entries, plan[i])
  {
    var good := GoodPrefix(plan);
    assert forall j :: 0 <= j < |good| ==> good[j] in good && good[j] == plan[j];
  }

  lemma {:induction false} SavesKeepFiles(dir: Dir, saves: seq<Step>, f: FileKey)
    requires f in dir && forall i :: 0 <= i < |saves| ==> saves[i].Save?
    ensures f in RunSteps(dir, saves)
    decreases |saves|
  {
    if saves != [] { SavesKeepFiles(dir, saves[..|saves| - 1], f); }
  }

  /** Saves never remove a file, so everything listed as stale is still there to be retired. */
  lemma StaleStaysListed(mode: Mode, order: Order, dir: Dir, stale: seq<FileKey>)
    requires ListsStale(mode, dir, stale)
    ensures forall f :: f in stale ==> f in Rewritten(mode, order, dir)
  {
    if Load(dir).Ok? {
      var saves := SavePlan(mode, order, Load(dir).value);
      SavePlanSaves(mode, order, Load(dir).value);
      forall f | f in stale ensures f in RunSteps(dir, saves) {
        SavesKeepFiles(dir, saves, f);
      }
    }
  }
}
