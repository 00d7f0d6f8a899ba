/**
 * The three layouts refine one map from entries to values: what `update`, `delete`, `save_all`
 * and `get` do to the files is what they do to that map.
 */
module ConfigRefinement {
  import opened Toml
  import opened Layout
  import opened ConfigStore

  // ---- maps -----------------------------------------------------------------------------

  predicate SameAt(a: Config, b: Config, k: Key) {
    (k in a <==> k in b) && (k in a ==> a[k] == b[k])
  }

  lemma SameEverywhere(a: Config, b: Config)
    requires forall k: Key :: SameAt(a, b, k)
    ensures a == b
  {
    forall k: Key ensures k in a <==> k in b {
      assert SameAt(a, b, k);
    }
    forall k: Key | k in a ensures a[k] == b[k] {
      assert SameAt(a, b, k);
    }
  }

  lemma PutBack(m: Config, k: Key, v: Value)
    ensures (m - {k}) + map[k := v] == m[k := v]
  {}

  /** Only `k` lives in its per-item file. */
  lemma ItemElsewhere(m: Config, k: Key)
    ensures Elsewhere(MultiByItem, m, Home(MultiByItem, k)) == m - {k}
  {}

  /** A per-type file is decided by its own section alone. */
  lemma TypeElsewhere(m: Config, n: Config, c: Category)
    requires forall k: Key :: k.category != c ==> SameAt(m, n, k)
    ensures Elsewhere(MultiByType, m, CategoryFile(c)) + CategoryEntries(n, c) == n
  {
    var left := Elsewhere(MultiByType, m, CategoryFile(c)) + CategoryEntries(n, c);
    forall k: Key ensures SameAt(left, n, k) {}
    SameEverywhere(left, n);
  }

  // ---- single entries -------------------------------------------------------------------

  /** Items carry a name, the basic section does not. */
  predicate WellNamed(c: Category, name: string) {
    c.Basic? <==> name == ""
  }

  /** Only a per-item update that is not refused depends on its name. */
  predicate ExactlyNamed(mode: Mode, op: Op) {
    mode.MultiByItem? && op.Update? && !Refused(op) ==> WellNamed(op.category, op.name)
  }

  /** What an update or delete means for the logical configuration. */
  function Meaning(m: Config, op: Op): Config
    requires !op.SaveAll?
  {
    if Refused(op) then m
    else if op.Update? then m[KeyOf(op.category, op.name) := Table(op.fields)]
    else m - {KeyOf(op.category, op.name)}
  }

  lemma RunOne(dir: Dir, step: Step)
    ensures RunSteps(dir, [step]) == Apply(dir, step)
  {
    assert [step][..0] == [];
  }

  lemma ItemUpdateRefines(dir: Dir, k: Key, v: Value)
    requires Canonical(MultiByItem, dir)
    ensures var after := dir[Home(MultiByItem, k) := Doc(map[k := v], {})];
            Canonical(MultiByItem, after) && Merged(after) == Merged(dir)[k := v]
  {
    SaveCanonical(MultiByItem, dir, Home(MultiByItem, k), Doc(map[k := v], {}));
    ItemElsewhere(Merged(dir), k);
    PutBack(Merged(dir), k, v);
  }

  lemma ItemDeleteRefines(dir: Dir, k: Key)
    requires Canonical(MultiByItem, dir)
    ensures var after := dir - {Home(MultiByItem, k)};
            Canonical(MultiByItem, after) && Merged(after) == Merged(dir) - {k}
  {
    RemoveCanonical(MultiByItem, dir, Home(MultiByItem, k));
    ItemElsewhere(Merged(dir), k);
  }

  lemma TypeSaveRefines(dir: Dir, c: Category, config: Loaded)
    requires Canonical(MultiByType, dir)
    requires forall k: Key :: k.category != c ==> SameAt(Merged(dir), config.entries, k)
    ensures var after := dir[CategoryFile(c) := CategoryDoc(config, c)];
            Canonical(MultiByType, after) && Merged(after) == config.entries
  {
    SaveCanonical(MultiByType, dir, CategoryFile(c), CategoryDoc(config, c));
    TypeElsewhere(Merged(dir), config.entries, c);
  }

  lemma SingleSaveRefines(dir: Dir, config: Loaded)
    requires Canonical(Single, dir)
    ensures var after := dir[SingleFile := WholeDoc(config)];
            Canonical(Single, after) && Merged(after) == config.entries
  {
    SaveCanonical(Single, dir, SingleFile, WholeDoc(config));
    assert Elsewhere(Single, Merged(dir), SingleFile) == map[];
  }

  lemma ItemUpdateRuns(order: Order, dir: Dir, op: Op)
    requires Canonical(MultiByItem, dir) && op.Update? && !Refused(op) && WellNamed(op.category, op.name)
    ensures Canonical(MultiByItem, Run(MultiByItem, order, dir, op))
    ensures Merged(Run(MultiByItem, order, dir, op)) == Meaning(Merged(dir), op)
  {
    var k := KeyOf(op.category, op.name);
    RunOne(dir, Save(Home(MultiByItem, k), Doc(map[k := Table(op.fields)], {})));
    ItemUpdateRefines(dir, k, Table(op.fields));
  }

  lemma ItemDeleteRuns(order: Order, dir: Dir, op: Op)
    requires Canonical(MultiByItem, dir) && op.Delete? && !Refused(op)
    ensures Canonical(MultiByItem, Run(MultiByItem, order, dir, op))
    ensures Merged(Run(MultiByItem, order, dir, op)) == Meaning(Merged(dir), op)
  {
    var k := KeyOf(op.category, op.name);
    RunOne(dir, Remove(Home(MultiByItem, k)));
    ItemDeleteRefines(dir, k);
  }

  lemma ItemOpRefines(order: Order, dir: Dir, op: Op)
    requires Canonical(MultiByItem, dir) && !op.SaveAll? && !Refused(op) && ExactlyNamed(MultiByItem, op)
    ensures Canonical(MultiByItem, Run(MultiByItem, order, dir, op))
    ensures Merged(Run(MultiByItem, order, dir, op)) == Meaning(Merged(dir), op)
  {
    if op.Update? { ItemUpdateRuns(order, dir, op); } else { ItemDeleteRuns(order, dir, op); }
  }

  /** The configuration an update or delete in a shared file writes back. */
  function Edited(config: Loaded, op: Op): Loaded
    requires !op.SaveAll?
  {
    if op.Update? then InsertEntry(config, op.category, op.name, Table(op.fields))
    else DropEntry(config, op.category, op.name)
  }

  lemma EditedMeans(config: Loaded, op: Op)
    requires !op.SaveAll? && !Refused(op)
    ensures Edited(config, op).entries == Meaning(config.entries, op)
    ensures forall k: Key :: k.category != op.category
              ==> SameAt(config.entries, Edited(config, op).entries, k)
  {}

  lemma TypeOpRefines(order: Order, dir: Dir, op: Op)
    requires Canonical(MultiByType, dir) && !op.SaveAll? && !Refused(op)
    ensures Canonical(MultiByType, Run(MultiByType, order, dir, op))
    ensures Merged(Run(MultiByType, order, dir, op)) == Meaning(Merged(dir), op)
  {
    var config := Edited(Load(dir).value, op);
    EditedMeans(Load(dir).value, op);
    RunOne(dir, Save(CategoryFile(op.category), CategoryDoc(config, op.category)));
    TypeSaveRefines(dir, op.category, config);
  }

  lemma SingleOpRefines(order: Order, dir: Dir, op: Op)
    requires Canonical(Single, dir) && !op.SaveAll? && !Refused(op)
    ensures Canonical(Single, Run(Single, order, dir, op))
    ensures Merged(Run(Single, order, dir, op)) == Meaning(Merged(dir), op)
  {
    var config := Edited(Load(dir).value, op);
    EditedMeans(Load(dir).value, op);
    RunOne(dir, Save(SingleFile, WholeDoc(config)));
    SingleSaveRefines(dir, config);
  }

  /** An accepted update or delete changes exactly the addressed entry, in every mode. */
  lemma EntryOpRefines(mode: Mode, order: Order, dir: Dir, op: Op)
    requires Canonical(mode, dir) && !op.SaveAll? && ExactlyNamed(mode, op)
    ensures Canonical(mode, Run(mode, order, dir, op))
    ensures Merged(Run(mode, order, dir, op)) == Meaning(Merged(dir), op)
  {
    if !Refused(op) {
      match mode
      case Single => SingleOpRefines(order, dir, op);
      case MultiByType => TypeOpRefines(order, dir, op);
      case MultiByItem => ItemOpRefines(order, dir, op);
    }
  }

  /** A document saved for `k` that lacks the value leaves the directory without it. */
  lemma WrongItemDoc(dir: Dir, k: Key, v: Value, doc: Content)
    requires Canonical(MultiByItem, dir) && doc.Doc?
    requires k in doc.entries ==> doc.entries[k] != v
    ensures var after := dir[Home(MultiByItem, k) := doc];
            !(Parses(after) && k in Merged(after) && Merged(after)[k] == v)
  {
    var f := Home(MultiByItem, k);
    var after := dir[f := doc];
    if Parses(after) && k in Merged(after) {
      var g := MergedFrom(after, k);
      assert g != f ==> Holds(dir, g, k);
    }
  }

  /**
   * The naming rule is exactly what the per-item layout needs: with any other accepted name the
   * stored directory either stops parsing or holds something else than the updated map.
   */
  lemma ItemUpdateExactIffWellNamed(order: Order, dir: Dir, c: Category, name: string, fields: Fields)
    requires Canonical(MultiByItem, dir) && !BadName(name)
    ensures var after := Run(MultiByItem, order, dir, Update(c, name, fields));
            (Parses(after) && Merged(after) == Merged(dir)[KeyOf(c, name) := Table(fields)])
            <==> WellNamed(c, name)
  {
    if WellNamed(c, name) {
      EntryOpRefines(MultiByItem, order, dir, Update(c, name, fields));
    } else {
      var k := KeyOf(c, name);
      var doc := ItemDoc(Table(fields), c, name);
      RunOne(dir, Save(Home(MultiByItem, k), doc));
      if c.Basic? {
        NoSelfEntry(Table(map[name := Table(fields)]), name);
      } else if "" in fields {
        NoSelfEntry(Table(fields), "");
      }
      WrongItemDoc(dir, k, Table(fields), doc);
    }
  }

  /** So from a canonical directory one call does what it means exactly if it is well named. */
  lemma EntryOpRefinesIff(mode: Mode, order: Order, dir: Dir, op: Op)
    requires Canonical(mode, dir) && !op.SaveAll?
    ensures var after := Run(mode, order, dir, op);
            && ((Parses(after) && Merged(after) == Meaning(Merged(dir), op)) <==> ExactlyNamed(mode, op))
            && (ExactlyNamed(mode, op) ==> Canonical(mode, after))
  {
    if ExactlyNamed(mode, op) {
      EntryOpRefines(mode, order, dir, op);
    } else {
      ItemUpdateExactIffWellNamed(order, dir, op.category, op.name, op.fields);
    }
  }

  // ---- whole runs -----------------------------------------------------------------------

  ghost function RunAll(mode: Mode, order: Order, dir: Dir, ops: seq<Op>): Dir
    decreases |ops|
  {
    if ops == [] then dir
    else Run(mode, order, RunAll(mode, order, dir, ops[..|ops| - 1]), ops[|ops| - 1])
  }

  function MeaningAll(m: Config, ops: seq<Op>): Config
    requires forall op :: op in ops ==> !op.SaveAll?
    decreases |ops|
  {
    if ops == [] then m
    else Meaning(MeaningAll(m, ops[..|ops| - 1]), ops[|ops| - 1])
  }

  predicate EntryOps(mode: Mode, ops: seq<Op>) {
    forall op :: op in ops ==> !op.SaveAll? && ExactlyNamed(mode, op)
  }

  /** Any sequence of updates and deletes does to the files what it does to the map. */
  lemma {:induction false} RunsRefine(mode: Mode, order: Order, dir: Dir, ops: seq<Op>)
    requires Canonical(mode, dir) && EntryOps(mode, ops)
    ensures Canonical(mode, RunAll(mode, order, dir, ops))
    ensures Merged(RunAll(mode, order, dir, ops)) == MeaningAll(Merged(dir), ops)
    decreases |ops|
  {
    if ops != [] {
      var before := ops[..|ops| - 1];
      RunsRefine(mode, order, dir, before);
      assert ops[|ops| - 1] in ops;
      EntryOpRefines(mode, order, RunAll(mode, order, dir, before), ops[|ops| - 1]);
    }
  }

  /** Directories of any two modes that start out equal in meaning stay equal under every run. */
  lemma LayoutsAgree(m: Mode, n: Mode, order: Order, d: Dir, e: Dir, ops: seq<Op>)
    requires Canonical(m, d) && Canonical(n, e) && Merged(d) == Merged(e)
    requires EntryOps(m, ops) && EntryOps(n, ops)
    ensures Load(RunAll(m, order, d, ops)).Ok? && Load(RunAll(n, order, e, ops)).Ok?
    ensures Load(RunAll(m, order, d, ops)).value.entries == Load(RunAll(n, order, e, ops)).value.entries
  {
    RunsRefine(m, order, d, ops);
    RunsRefine(n, order, e, ops);
  }

  // ---- get ------------------------------------------------------------------------------

  function Lookup(m: Config, k: Key): Option<Value> {
    if k in m then Some(m[k]) else None
  }

  /** Reads the one file the entry's key names. */
  function Get(mode: Mode, dir: Dir, c: Category, name: string): (r: Result<Option<Value>>) {
    var f := Home(mode, KeyOf(c, name));
    if BadName(name) then Err
    else if f !in dir then Ok(None)
    else if dir[f].Malformed? then Err
    else Ok(Lookup(dir[f].entries, KeyOf(c, name)))
  }

  ghost predicate GetAgrees(mode: Mode, dir: Dir) {
    forall c: Category, name: string :: !BadName(name)
      ==> Get(mode, dir, c, name) == Ok(Lookup(Merged(dir), KeyOf(c, name)))
  }

  /** Reading one file agrees with loading everything exactly when addressable entries are at home. */
  lemma {:induction false} GetAgreesIff(mode: Mode, dir: Dir)
    requires Parses(dir)
    ensures GetAgrees(mode, dir)
       <==> forall f, k: Key :: Holds(dir, f, k) && !BadName(k.name) ==> Home(mode, k) == f
  {
    if GetAgrees(mode, dir) {
      forall f, k: Key | Holds(dir, f, k) && !BadName(k.name) ensures Home(mode, k) == f {
        MergedAt(dir, f, k);
        assert KeyOf(k.category, k.name) == k;
        assert Get(mode, dir, k.category, k.name) == Ok(Lookup(Merged(dir), k));
        assert Holds(dir, Home(mode, k), k);
      }
    }
    if forall f, k: Key :: Holds(dir, f, k) && !BadName(k.name) ==> Home(mode, k) == f {
      forall c: Category, name: string | !BadName(name)
        ensures Get(mode, dir, c, name) == Ok(Lookup(Merged(dir), KeyOf(c, name)))
      {
        var k := KeyOf(c, name);
        if k in Merged(dir) {
          var f := MergedFrom(dir, k);
        } else if Holds(dir, Home(mode, k), k) {
          MergedAt(dir, Home(mode, k), k);
        }
      }
    }
  }
}
