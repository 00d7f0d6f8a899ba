/** Which directories stay readable, and readable entry by entry, whatever is written later. */
module SteadyState {
  import opened Toml
  import opened Layout
  import opened ConfigStore
  import opened ConfigRefinement
  import opened WholeSave
  import opened Migration

  /** The whole can be loaded, and reading single entries agrees with it. */
  ghost predicate Readable(mode: Mode, dir: Dir) {
    Parses(dir) && GetAgrees(mode, dir)
  }

  /** Per item: the whole can be loaded and every entry that can be addressed is at home. */
  ghost predicate Sound(dir: Dir) {
    Parses(dir) && GoodHomed(MultiByItem, dir)
  }

  /** Written as a section, these fields open its header. */
  predicate OpenHeader(fields: Fields) {
    fields == map[] || exists n <- fields :: Inline(fields[n])
  }

  /** An item without a name is written as its fields; those must do no harm where they end up. */
  ghost predicate FieldsFit(dir: Dir, c: Titled, fields: Fields) {
    && (forall f, k: Key :: Holds(dir, f, k) && k.category == c && k.name in fields ==> f == ItemFile(c, ""))
    && (forall n <- fields :: n == "" || BadName(n))
    && (OpenHeader(fields) ==> forall f :: Opens(dir, f, c) ==> f == ItemFile(c, ""))
  }

  /**
   * What the per-item layout asks of a call: a whole save has to be storable, and an update of an
   * item without a name must fit. All deletes and all other updates will do.
   */
  ghost predicate Admissible(mode: Mode, order: Order, dir: Dir, op: Op) {
    mode.MultiByItem? ==>
      match op
      case SaveAll(config) => Storable(mode, dir, Reached(mode, order, config))
      case Update(c, name, fields) => c.Basic? || name != "" || FieldsFit(dir, c, fields)
      case Delete(_, _, _) => true
  }

  ghost predicate AllAdmissible(mode: Mode, order: Order, dir: Dir, ops: seq<Op>) {
    forall i :: 0 <= i < |ops| ==> Admissible(mode, order, RunAll(mode, order, dir, ops[..i]), ops[i])
  }

  /** Readable now and after every run of operations. */
  ghost predicate EverAfter(mode: Mode, order: Order, dir: Dir) {
    forall ops: seq<Op> :: AllAdmissible(mode, order, dir, ops) ==> Readable(mode, RunAll(mode, order, dir, ops))
  }

  /** The section holds an entry no call can delete, and none that makes it open its header. */
  ghost predicate Pinned(entries: Config, c: Category) {
    && (exists k: Key :: k in entries && k.category == c && BadName(k.name))
    && (forall k: Key :: k in entries && k.category == c ==> !Inline(entries[k]))
  }

  /** A header in another section's file does no harm only while its section never opens its own. */
  ghost predicate Calm(dir: Dir) {
    forall f, c :: Opens(dir, f, c) && f != CategoryFile(c) ==> f.CategoryFile? && Pinned(Merged(dir), c)
  }

  /** Every entry that can be addressed sits in the file its key names. */
  ghost predicate GoodHomed(mode: Mode, dir: Dir) {
    forall f, k: Key :: Holds(dir, f, k) && !BadName(k.name) ==> Home(mode, k) == f
  }

  ghost predicate Steady(mode: Mode, dir: Dir) {
    match mode
    case Single => true
    case MultiByType => Homed(MultiByType, dir) && Calm(dir)
    case MultiByItem => GoodHomed(MultiByItem, dir)
  }

  /** In single mode there is only the one file. */
  predicate Shape(mode: Mode, dir: Dir) {
    mode.Single? ==> dir.Keys <= {SingleFile}
  }

  lemma RunLast(mode: Mode, order: Order, dir: Dir, ops: seq<Op>, op: Op)
    ensures RunAll(mode, order, dir, ops + [op]) == Run(mode, order, RunAll(mode, order, dir, ops), op)
  {
    assert (ops + [op])[..|ops + [op]| - 1] == ops;
  }

  // ---- per type: one edit ---------------------------------------------------------------

  lemma TypeEdit(order: Order, dir: Dir, op: Op)
    requires Parses(dir) && !op.SaveAll? && !Refused(op)
    ensures Run(MultiByType, order, dir, op) ==
            dir[CategoryFile(op.category) := CategoryDoc(Edited(Load(dir).value, op), op.category)]
  {
    RunOne(dir, Save(CategoryFile(op.category), CategoryDoc(Edited(Load(dir).value, op), op.category)));
  }

  lemma EditHolds(dir: Dir, c: Category, config: Loaded, f: FileKey, k: Key)
    ensures var after := dir[CategoryFile(c) := CategoryDoc(config, c)];
            && (Holds(after, f, k) <==>
                if f == CategoryFile(c) then k in config.entries && k.category == c else Holds(dir, f, k))
            && (Holds(after, f, k) ==>
                after[f].entries[k] == if f == CategoryFile(c) then config.entries[k] else dir[f].entries[k])
  {}

  lemma EditOpens(dir: Dir, c: Category, config: Loaded, f: FileKey, d: Category)
    ensures var after := dir[CategoryFile(c) := CategoryDoc(config, c)];
            Opens(after, f, d) <==>
            if f == CategoryFile(c) then d == c && !c.Basic? && c in config.sections && Headed(config.entries, c)
            else Opens(dir, f, d)
  {}

  /** What the edited section file does not decide stays. */
  ghost predicate Agrees(m: Config, config: Config, c: Category) {
    forall k: Key :: k.category != c ==> SameAt(m, config, k)
  }

  lemma EditParses(dir: Dir, c: Category, config: Loaded)
    requires Parses(dir) && Homed(MultiByType, dir)
    requires forall f :: Opens(dir, f, c) && f != CategoryFile(c) ==> !Headed(config.entries, c)
    ensures Parses(dir[CategoryFile(c) := CategoryDoc(config, c)])
  {
    var after := dir[CategoryFile(c) := CategoryDoc(config, c)];
    forall f, g, k: Key | Holds(after, f, k) && Holds(after, g, k) ensures f == g {
      EditHolds(dir, c, config, f, k);
      EditHolds(dir, c, config, g, k);
    }
    forall f, g, d: Category | Opens(after, f, d) && Opens(after, g, d) ensures f == g {
      EditOpens(dir, c, config, f, d);
      EditOpens(dir, c, config, g, d);
    }
  }

  lemma EditMerged(dir: Dir, c: Category, config: Loaded)
    requires Parses(dir) && Homed(MultiByType, dir) && Agrees(Merged(dir), config.entries, c)
    requires Parses(dir[CategoryFile(c) := CategoryDoc(config, c)])
    ensures var after := dir[CategoryFile(c) := CategoryDoc(config, c)];
            Homed(MultiByType, after) && Merged(after) == config.entries
  {
    var after := dir[CategoryFile(c) := CategoryDoc(config, c)];
    forall f, k: Key | Holds(after, f, k) ensures f == CategoryFile(k.category) {
      EditHolds(dir, c, config, f, k);
    }
    forall k: Key ensures SameAt(Merged(after), config.entries, k) {
      EditMergedAt(dir, c, config, k);
    }
    SameEverywhere(Merged(after), config.entries);
  }

  lemma EditMergedAt(dir: Dir, c: Category, config: Loaded, k: Key)
    requires Parses(dir) && Homed(MultiByType, dir) && Agrees(Merged(dir), config.entries, c)
    requires Parses(dir[CategoryFile(c) := CategoryDoc(config, c)])
    ensures SameAt(Merged(dir[CategoryFile(c) := CategoryDoc(config, c)]), config.entries, k)
  {
    var after := dir[CategoryFile(c) := CategoryDoc(config, c)];
    if k in Merged(after) {
      var f := MergedFrom(after, k);
      EditHolds(dir, c, config, f, k);
      if f != CategoryFile(c) { MergedAt(dir, f, k); }
    }
    if k in config.entries {
      var f := CategoryFile(k.category);
      if k.category != c {
        assert SameAt(Merged(dir), config.entries, k);
        var g := MergedFrom(dir, k);
      }
      EditHolds(dir, c, config, f, k);
      MergedAt(after, f, k);
    }
  }

  lemma EditedAgrees(dir: Dir, op: Op)
    requires Parses(dir) && !op.SaveAll? && !Refused(op)
    ensures Agrees(Merged(dir), Edited(Load(dir).value, op).entries, op.category)
  {
    EditedMeans(Load(dir).value, op);
  }

  /** A pinned section stays pinned through edits, and so opens no header. */
  lemma PinnedStays(entries: Config, op: Op, c: Category)
    requires !op.SaveAll? && !Refused(op) && Pinned(entries, c)
    ensures Pinned(Meaning(entries, op), c) && !Headed(Meaning(entries, op), c)
  {
    var k: Key :| k in entries && k.category == c && BadName(k.name);
    assert KeyOf(op.category, op.name) != k;
    assert k in Meaning(entries, op);
    assert !EmptySection(Meaning(entries, op), c);
  }

  lemma TypeEditSteady(order: Order, dir: Dir, op: Op)
    requires Parses(dir) && Homed(MultiByType, dir) && Calm(dir) && !op.SaveAll? && !Refused(op)
    ensures var after := Run(MultiByType, order, dir, op);
            Parses(after) && Homed(MultiByType, after) && Calm(after)
  {
    var c, config := op.category, Edited(Load(dir).value, op);
    var after := dir[CategoryFile(c) := CategoryDoc(config, c)];
    TypeEdit(order, dir, op);
    EditedMeans(Load(dir).value, op);
    forall f | Opens(dir, f, c) && f != CategoryFile(c) ensures !Headed(config.entries, c) {
      PinnedStays(Merged(dir), op, c);
    }
    EditParses(dir, c, config);
    EditedAgrees(dir, op);
    EditMerged(dir, c, config);
    forall f, d | Opens(after, f, d) && f != CategoryFile(d) ensures f.CategoryFile? && Pinned(Merged(after), d) {
      EditOpens(dir, c, config, f, d);
      PinnedStays(Merged(dir), op, d);
    }
  }

  lemma TypeSaveSteady(order: Order, dir: Dir, config: Loaded)
    requires ValidOrder(order) && Parses(dir) && Homed(MultiByType, dir) && Calm(dir)
    ensures var after := Run(MultiByType, order, dir, SaveAll(config));
            Parses(after) && Homed(MultiByType, after) && Calm(after)
  {
    var after := Run(MultiByType, order, dir, SaveAll(config));
    RunSave(MultiByType, order, dir, config);
    SaveWrites(MultiByType, order, config, dir);
    forall f | f in dir && !f.CategoryFile? ensures dir[f].entries == map[] && dir[f].headers == {} {
      forall k: Key ensures k !in dir[f].entries { assert Holds(dir, f, k) <==> k in dir[f].entries; }
      forall c ensures c !in dir[f].headers { assert Opens(dir, f, c) <==> c in dir[f].headers; }
    }
    SharedCanonical(MultiByType, config, dir, after);
  }

  // ---- per item, and the single file ----------------------------------------------------

  /** One file replaced: what it now holds and opens must be nowhere else. */
  lemma ReplacedParsesIff(dir: Dir, f: FileKey, doc: Content)
    requires Parses(dir) && doc.Doc?
    ensures Parses(dir[f := doc]) <==>
            && (forall g, k: Key :: g != f && k in doc.entries ==> !Holds(dir, g, k))
            && (forall g, c: Category :: g != f && c in doc.headers ==> !Opens(dir, g, c))
  {
    var after := dir[f := doc];
    forall g, k: Key ensures Holds(after, g, k) <==> if g == f then k in doc.entries else Holds(dir, g, k) {}
    forall g, c: Category ensures Opens(after, g, c) <==> if g == f then c in doc.headers else Opens(dir, g, c) {}
    if Parses(after) {
      forall g, k: Key | g != f && k in doc.entries ensures !Holds(dir, g, k) { assert Holds(after, f, k); }
      forall g, c: Category | g != f && c in doc.headers ensures !Opens(dir, g, c) { assert Opens(after, f, c); }
    }
  }

  lemma ReplacedHomedIff(dir: Dir, f: FileKey, doc: Content)
    requires GoodHomed(MultiByItem, dir) && doc.Doc?
    ensures GoodHomed(MultiByItem, dir[f := doc]) <==>
            forall k: Key :: k in doc.entries && !BadName(k.name) ==> Home(MultiByItem, k) == f
  {
    var after := dir[f := doc];
    forall g, k: Key ensures Holds(after, g, k) <==> if g == f then k in doc.entries else Holds(dir, g, k) {}
    if GoodHomed(MultiByItem, after) {
      forall k: Key | k in doc.entries && !BadName(k.name) ensures Home(MultiByItem, k) == f {
        assert Holds(after, f, k);
      }
    }
  }

  /** An update of an item with a name, or of the basic section. */
  lemma NamedUpdateSteady(dir: Dir, c: Category, name: string, fields: Fields)
    requires Parses(dir) && GoodHomed(MultiByItem, dir) && !BadName(name) && (c.Basic? || name != "")
    ensures var after := dir[Home(MultiByItem, KeyOf(c, name)) := ItemDoc(Table(fields), c, name)];
            Parses(after) && GoodHomed(MultiByItem, after)
  {
    var k, doc := KeyOf(c, name), ItemDoc(Table(fields), c, name);
    assert doc.Doc? && doc.entries.Keys == {k} && doc.headers == {};
    ReplacedParsesIff(dir, Home(MultiByItem, k), doc);
    ReplacedHomedIff(dir, Home(MultiByItem, k), doc);
  }

  /** The document of an item without a name. */
  ghost predicate FieldsDoc(doc: Content, c: Titled, fields: Fields) {
    && doc.Doc? && doc.headers == (if OpenHeader(fields) then {c} else {})
    && forall k: Key :: k in doc.entries <==> k.category == c && k.name in fields
  }

  lemma UnnamedDoc(c: Titled, fields: Fields)
    ensures FieldsDoc(ItemDoc(Table(fields), c, ""), c, fields)
  {
    var doc := ItemDoc(Table(fields), c, "");
    forall k: Key ensures k in doc.entries <==> k.category == c && k.name in fields {
      assert k.category == c ==> k == KeyOf(c, k.name);
    }
  }

  lemma UnnamedUpdateIff(dir: Dir, f: FileKey, doc: Content, c: Titled, fields: Fields)
    requires Sound(dir) && FieldsDoc(doc, c, fields) && f == ItemFile(c, "")
    ensures Sound(dir[f := doc]) == FieldsFit(dir, c, fields)
  {
    ReplacedParsesIff(dir, f, doc);
    ReplacedHomedIff(dir, f, doc);
    if forall k: Key :: k in doc.entries && !BadName(k.name) ==> Home(MultiByItem, k) == f {
      forall n | n in fields ensures n == "" || BadName(n) { assert KeyOf(c, n) in doc.entries; }
    }
  }

  lemma ItemDeleteSteady(dir: Dir, f: FileKey)
    requires Parses(dir) && GoodHomed(MultiByItem, dir)
    ensures Parses(dir - {f}) && GoodHomed(MultiByItem, dir - {f})
  {
    assert forall g, j: Key :: Holds(dir - {f}, g, j) ==> Holds(dir, g, j);
    assert forall g, c: Category :: Opens(dir - {f}, g, c) ==> Opens(dir, g, c);
  }

  lemma ItemUpdateIs(order: Order, dir: Dir, c: Category, name: string, fields: Fields)
    requires !BadName(name)
    ensures Run(MultiByItem, order, dir, Update(c, name, fields)) ==
            dir[Home(MultiByItem, KeyOf(c, name)) := ItemDoc(Table(fields), c, name)]
  {
    RunOne(dir, Save(Home(MultiByItem, KeyOf(c, name)), ItemDoc(Table(fields), c, name)));
  }

  lemma NamedUpdateRuns(order: Order, dir: Dir, c: Category, name: string, fields: Fields)
    requires Parses(dir) && GoodHomed(MultiByItem, dir) && !BadName(name) && (c.Basic? || name != "")
    ensures var after := Run(MultiByItem, order, dir, Update(c, name, fields));
            Parses(after) && GoodHomed(MultiByItem, after)
  {
    ItemUpdateIs(order, dir, c, name, fields);
    NamedUpdateSteady(dir, c, name, fields);
  }

  lemma HomeOfUnnamed(c: Titled)
    ensures Home(MultiByItem, KeyOf(c, "")) == ItemFile(c, "")
  {}

  lemma UnnamedUpdateRunsIff(order: Order, dir: Dir, c: Titled, fields: Fields)
    requires Sound(dir)
    ensures var after := Run(MultiByItem, order, dir, Update(c, "", fields));
            Sound(after) == FieldsFit(dir, c, fields)
  {
    HomeOfUnnamed(c);
    ItemUpdateIs(order, dir, c, "", fields);
    UnnamedDoc(c, fields);
    UnnamedUpdateIff(dir, Home(MultiByItem, KeyOf(c, "")), ItemDoc(Table(fields), c, ""), c, fields);
  }

  lemma ItemUpdateSteady(order: Order, dir: Dir, op: Op)
    requires Parses(dir) && GoodHomed(MultiByItem, dir) && op.Update? && !Refused(op)
    requires Admissible(MultiByItem, order, dir, op)
    ensures var after := Run(MultiByItem, order, dir, op); Parses(after) && GoodHomed(MultiByItem, after)
  {
    if op.category.Basic? || op.name != "" {
      NamedUpdateRuns(order, dir, op.category, op.name, op.fields);
    } else {
      assert op == Update(op.category, "", op.fields);
      UnnamedUpdateRunsIff(order, dir, op.category, op.fields);
    }
  }

  lemma ItemRemoveSteady(order: Order, dir: Dir, op: Op)
    requires Parses(dir) && GoodHomed(MultiByItem, dir) && op.Delete? && !Refused(op)
    ensures var after := Run(MultiByItem, order, dir, op); Parses(after) && GoodHomed(MultiByItem, after)
  {
    var home := Home(MultiByItem, KeyOf(op.category, op.name));
    RunOne(dir, Remove(home));
    ItemDeleteSteady(dir, home);
  }

  lemma ReachedIsGood(order: Order, config: Loaded, k: Key)
    requires k in Reached(MultiByItem, order, config)
    ensures !BadName(k.name)
  {}

  lemma ItemSaveSteady(order: Order, dir: Dir, config: Loaded)
    requires ValidOrder(order) && Parses(dir) && GoodHomed(MultiByItem, dir)
    requires Storable(MultiByItem, dir, Reached(MultiByItem, order, config))
    ensures var after := Run(MultiByItem, order, dir, SaveAll(config));
            Parses(after) && GoodHomed(MultiByItem, after)
  {
    var saved := Reached(MultiByItem, order, config);
    var after := Run(MultiByItem, order, dir, SaveAll(config));
    RunSave(MultiByItem, order, dir, config);
    SaveWrites(MultiByItem, order, config, dir);
    SavedIsItemSaved(order, config, dir, after);
    forall f, k: Key | Holds(dir, f, k) && !Rewrites(MultiByItem, saved, f) && HasFile(k) ensures k !in saved {
      if k in saved {
        ReachedIsGood(order, config, k);
        HomeRewritten(saved, k);
        assert false;
      }
    }
    TameParses(dir, saved, after);
    forall f, k: Key | Holds(after, f, k) && !BadName(k.name) ensures Home(MultiByItem, k) == f {
      TameHolds(dir, saved, after, f, k);
    }
  }

  lemma SingleParses(dir: Dir)
    requires dir.Keys <= {SingleFile} && forall f <- dir :: dir[f].Doc?
    ensures Parses(dir)
  {}

  lemma SingleSteady(order: Order, dir: Dir, op: Op)
    requires dir.Keys <= {SingleFile} && Parses(dir)
    ensures var after := Run(Single, order, dir, op); after.Keys <= {SingleFile} && Parses(after)
  {
    if op.SaveAll? {
      RunOne(dir, Save(SingleFile, WholeDoc(op.config)));
      SingleParses(dir[SingleFile := WholeDoc(op.config)]);
    } else if !Refused(op) {
      var doc := WholeDoc(Edited(Load(dir).value, op));
      RunOne(dir, Save(SingleFile, doc));
      SingleParses(dir[SingleFile := doc]);
    }
  }

  // ---- sufficiency ----------------------------------------------------------------------

  lemma StepSteady(mode: Mode, order: Order, dir: Dir, op: Op)
    requires ValidOrder(order) && Parses(dir) && Steady(mode, dir) && Shape(mode, dir)
    requires Admissible(mode, order, dir, op)
    ensures var after := Run(mode, order, dir, op); Parses(after) && Steady(mode, after) && Shape(mode, after)
  {
    match mode
    case Single => SingleSteady(order, dir, op);
    case MultiByType =>
      if op.SaveAll? {
        TypeSaveSteady(order, dir, op.config);
      } else if !Refused(op) {
        TypeEditSteady(order, dir, op);
      }
    case MultiByItem =>
      if op.SaveAll? {
        ItemSaveSteady(order, dir, op.config);
      } else if !Refused(op) {
        if op.Update? {
          ItemUpdateSteady(order, dir, op);
        } else {
          ItemRemoveSteady(order, dir, op);
        }
      }
  }

  lemma {:induction false} RunSteady(mode: Mode, order: Order, dir: Dir, ops: seq<Op>)
    requires ValidOrder(order) && Parses(dir) && Steady(mode, dir) && Shape(mode, dir)
    requires AllAdmissible(mode, order, dir, ops)
    ensures var after := RunAll(mode, order, dir, ops); Parses(after) && Steady(mode, after) && Shape(mode, after)
    decreases |ops|
  {
    if ops != [] {
      var before, last := ops[..|ops| - 1], ops[|ops| - 1];
      assert forall i :: 0 <= i < |before| ==> before[..i] == ops[..i];
      RunSteady(mode, order, dir, before);
      StepSteady(mode, order, RunAll(mode, order, dir, before), last);
    }
  }

  lemma SteadyIsReadable(mode: Mode, dir: Dir)
    requires Parses(dir) && Steady(mode, dir) && Shape(mode, dir)
    ensures Readable(mode, dir)
  {
    GetAgreesIff(mode, dir);
  }

  // ---- necessity, per type --------------------------------------------------------------

  /** Two files that hold the same entry, or open the same section. */
  lemma TwiceBreaks(dir: Dir, f: FileKey, g: FileKey)
    requires f != g
    requires (exists k: Key :: Holds(dir, f, k) && Holds(dir, g, k)) ||
             (exists c :: Opens(dir, f, c) && Opens(dir, g, c))
    ensures !Parses(dir)
  {}

  lemma AwayBreaks(order: Order, dir: Dir, f: FileKey, k: Key)
    requires Parses(dir) && Holds(dir, f, k) && f != CategoryFile(k.category)
    ensures !Parses(Run(MultiByType, order, dir, Update(k.category, "", map[])))
  {
    var op, c := Update(k.category, "", map[]), k.category;
    var config := Edited(Load(dir).value, op);
    TypeEdit(order, dir, op);
    MergedAt(dir, f, k);
    EditHolds(dir, c, config, f, k);
    EditHolds(dir, c, config, CategoryFile(c), k);
    TwiceBreaks(dir[CategoryFile(c) := CategoryDoc(config, c)], f, CategoryFile(c));
  }

  /** An edit that makes the section open its own header, next to the stray one. */
  lemma OpenedTwice(order: Order, dir: Dir, f: FileKey, op: Op)
    requires Parses(dir) && !op.SaveAll? && !Refused(op) && !op.category.Basic?
    requires Opens(dir, f, op.category) && f != CategoryFile(op.category)
    requires Headed(Edited(Load(dir).value, op).entries, op.category)
    ensures !Parses(Run(MultiByType, order, dir, op))
  {
    var c, config := op.category, Edited(Load(dir).value, op);
    TypeEdit(order, dir, op);
    EditOpens(dir, c, config, f, c);
    EditOpens(dir, c, config, CategoryFile(c), c);
    TwiceBreaks(dir[CategoryFile(c) := CategoryDoc(config, c)], f, CategoryFile(c));
  }

  lemma StrayOutsideBreaks(order: Order, dir: Dir, f: FileKey, c: Category)
    requires ValidOrder(order) && Opens(dir, f, c) && !f.CategoryFile?
    ensures !Parses(Run(MultiByType, order, dir, SaveAll(Loaded(map[], {c}))))
  {
    var config := Loaded(map[], {c});
    var after := Run(MultiByType, order, dir, SaveAll(config));
    RunSave(MultiByType, order, dir, config);
    SaveWrites(MultiByType, order, config, dir);
    assert after[CategoryFile(c)] == NewContent(MultiByType, config, CategoryFile(c)) && SameFile(after, dir, f);
    assert Opens(after, f, c) && Opens(after, CategoryFile(c), c);
    TwiceBreaks(after, f, CategoryFile(c));
  }

  lemma InlineBreaks(order: Order, dir: Dir, f: FileKey, k: Key)
    requires Parses(dir) && !k.category.Basic? && k in Merged(dir) && Inline(Merged(dir)[k])
    requires Opens(dir, f, k.category) && f != CategoryFile(k.category)
    ensures !Parses(Run(MultiByType, order, dir, Update(k.category, if k.name == "" then "x" else "", map[])))
  {
    var op := Update(k.category, if k.name == "" then "x" else "", map[]);
    EditedMeans(Load(dir).value, op);
    var entries := Edited(Load(dir).value, op).entries;
    assert k in entries && entries[k] == Merged(dir)[k];
    OpenedTwice(order, dir, f, op);
  }

  /** The entries of a section. */
  function InSection(entries: Config, c: Category): set<Key> {
    set k | k in entries && k.category == c
  }

  /** Deleting the entries of a section one by one makes it open its header in the end. */
  lemma {:induction false} EmptyingBreaks(order: Order, start: Dir, ops: seq<Op>, f: FileKey, c: Category)
    returns (more: seq<Op>)
    requires var dir := RunAll(MultiByType, order, start, ops);
             && Parses(dir) && Homed(MultiByType, dir) && !c.Basic? && Opens(dir, f, c) && f != CategoryFile(c)
             && forall k: Key :: k in Merged(dir) && k.category == c ==> !BadName(k.name)
    ensures !Parses(RunAll(MultiByType, order, start, more))
    decreases |InSection(Merged(RunAll(MultiByType, order, start, ops)), c)|
  {
    var dir := RunAll(MultiByType, order, start, ops);
    var here := InSection(Merged(dir), c);
    var name := "";
    if here != {} {
      var k :| k in here;
      name := k.name;
      assert k == KeyOf(c, name);
    }
    var op := Delete(c, name, true);
    var after := Run(MultiByType, order, dir, op);
    RunLast(MultiByType, order, start, ops, op);
    EditedMeans(Load(dir).value, op);
    if here == {} || !Parses(after) {
      more := ops + [op];
      if here == {} {
        assert forall k: Key :: k in Merged(dir) ==> k !in here;
        OpenedTwice(order, dir, f, op);
      }
    } else {
      DeletedOne(order, dir, op, f);
      more := EmptyingBreaks(order, start, ops + [op], f, c);
    }
  }

  lemma DeletedOne(order: Order, dir: Dir, op: Op, f: FileKey)
    requires Parses(dir) && Homed(MultiByType, dir) && op.Delete? && !Refused(op) && !op.category.Basic?
    requires Opens(dir, f, op.category) && f != CategoryFile(op.category)
    requires KeyOf(op.category, op.name) in Merged(dir) && Parses(Run(MultiByType, order, dir, op))
    ensures var after := Run(MultiByType, order, dir, op);
            && Homed(MultiByType, after) && Opens(after, f, op.category)
            && Merged(after) == Merged(dir) - {KeyOf(op.category, op.name)}
            && |InSection(Merged(after), op.category)| < |InSection(Merged(dir), op.category)|
  {
    var c, config := op.category, Edited(Load(dir).value, op);
    TypeEdit(order, dir, op);
    EditedMeans(Load(dir).value, op);
    EditedAgrees(dir, op);
    EditMerged(dir, c, config);
    EditOpens(dir, c, config, f, c);
    var k := KeyOf(c, op.name);
    assert InSection(Merged(dir), c) == InSection(Merged(dir) - {k}, c) + {k};
  }

  lemma SteadyNeededPerType(order: Order, dir: Dir)
    requires ValidOrder(order) && EverAfter(MultiByType, order, dir)
    ensures Parses(dir) && Homed(MultiByType, dir) && Calm(dir)
  {
    assert RunAll(MultiByType, order, dir, []) == dir;
    assert AllAdmissible(MultiByType, order, dir, []);
    forall f, k: Key | Holds(dir, f, k) ensures f == CategoryFile(k.category) {
      if f != CategoryFile(k.category) {
        AwayBreaks(order, dir, f, k);
        OneBreaks(order, dir, Update(k.category, "", map[]));
      }
    }
    forall f, c | Opens(dir, f, c) && f != CategoryFile(c) ensures f.CategoryFile? && Pinned(Merged(dir), c) {
      StrayNeedsPin(order, dir, f, c);
    }
  }

  lemma OneBreaks(order: Order, dir: Dir, op: Op)
    requires EverAfter(MultiByType, order, dir)
    ensures Parses(Run(MultiByType, order, dir, op))
  {
    RunLast(MultiByType, order, dir, [], op);
    assert [] + [op] == [op] && AllAdmissible(MultiByType, order, dir, [op]);
  }

  lemma StrayIsOwned(order: Order, dir: Dir, f: FileKey, c: Category)
    requires ValidOrder(order) && EverAfter(MultiByType, order, dir) && Parses(dir)
    requires Opens(dir, f, c) && f != CategoryFile(c)
    ensures f.CategoryFile?
  {
    if !f.CategoryFile? {
      StrayOutsideBreaks(order, dir, f, c);
      OneBreaks(order, dir, SaveAll(Loaded(map[], {c})));
    }
  }

  lemma StrayForbidsInline(order: Order, dir: Dir, f: FileKey, k: Key)
    requires ValidOrder(order) && EverAfter(MultiByType, order, dir) && Parses(dir) && Homed(MultiByType, dir)
    requires Opens(dir, f, k.category) && f != CategoryFile(k.category) && k in Merged(dir)
    ensures !Inline(Merged(dir)[k])
  {
    if Inline(Merged(dir)[k]) {
      InlineBreaks(order, dir, f, k);
      OneBreaks(order, dir, Update(k.category, if k.name == "" then "x" else "", map[]));
    }
  }

  lemma StrayNeedsPin(order: Order, dir: Dir, f: FileKey, c: Category)
    requires ValidOrder(order) && EverAfter(MultiByType, order, dir) && Parses(dir) && Homed(MultiByType, dir)
    requires Opens(dir, f, c) && f != CategoryFile(c)
    ensures f.CategoryFile? && Pinned(Merged(dir), c)
  {
    StrayIsOwned(order, dir, f, c);
    forall k: Key | k in Merged(dir) && k.category == c ensures !Inline(Merged(dir)[k]) {
      StrayForbidsInline(order, dir, f, k);
    }
    if forall k: Key :: k in Merged(dir) && k.category == c ==> !BadName(k.name) {
      var more := EmptyingBreaks(order, dir, [], f, c);
      assert false;
    }
  }

  // ---- main results ---------------------------------------------------------------------

  /**
   * A directory stays readable, and single reads stay in agreement with whole loads, through
   * every later run if and only if it can be loaded and is steady now.
   */
  lemma EverAfterIff(mode: Mode, order: Order, dir: Dir)
    requires ValidOrder(order) && Shape(mode, dir)
    ensures EverAfter(mode, order, dir) <==> Parses(dir) && Steady(mode, dir)
  {
    if Parses(dir) && Steady(mode, dir) {
      forall ops: seq<Op> | AllAdmissible(mode, order, dir, ops)
        ensures Readable(mode, RunAll(mode, order, dir, ops))
      {
        RunSteady(mode, order, dir, ops);
        SteadyIsReadable(mode, RunAll(mode, order, dir, ops));
      }
    }
    if EverAfter(mode, order, dir) {
      assert RunAll(mode, order, dir, []) == dir && AllAdmissible(mode, order, dir, []);
      if mode.MultiByType? {
        SteadyNeededPerType(order, dir);
      } else {
        GetAgreesIff(mode, dir);
      }
    }
  }

  /**
   * What a migration achieves for good: it keeps the configuration and from then on reads agree
   * with loads through every run, if and only if the directory was steady to begin with or, if
   * there was something to migrate, is per type or clean.
   */
  lemma ReadsAgreeEverAfterIff(mode: Mode, order: Order, dir: Dir, stale: seq<FileKey>)
    requires ValidOrder(order) && ListsStale(mode, dir, stale) && Shape(mode, dir)
    requires !MigrationFails(mode, order, dir, stale)
    ensures var after := Migrate(mode, order, dir, stale);
            (Merged(after) == Merged(dir) && EverAfter(mode, order, after)) <==>
            if stale == [] then Parses(dir) && Steady(mode, dir) else mode.MultiByItem? ==> Clean(dir)
  {
    var after := Migrate(mode, order, dir, stale);
    ListsNothingIff(mode, dir, stale);
    if stale == [] {
      EverAfterIff(mode, order, dir);
    } else {
      SucceededIsGood(mode, order, dir, stale);
      MigratedCanonicalIff(mode, order, dir, stale);
      EverAfterIff(mode, order, after);
      if Merged(after) == Merged(dir) && Parses(after) && mode.MultiByItem? { GoodHomedIsHomed(dir, after); }
    }
  }

  lemma GoodHomedIsHomed(dir: Dir, after: Dir)
    requires Merged(after) == Merged(dir) && GoodNames(Merged(dir)) && Parses(after)
    ensures GoodHomed(MultiByItem, after) <==> Homed(MultiByItem, after)
  {
    forall f, k: Key | Holds(after, f, k) ensures !BadName(k.name) { MergedAt(after, f, k); }
  }

  // ---- calls that break a directory -----------------------------------------------------

  /** Of the updates the storage accepts, exactly the admissible ones leave a readable directory readable. */
  lemma UpdateReadableIff(order: Order, dir: Dir, op: Op)
    requires Readable(MultiByItem, dir) && op.Update? && !Refused(op)
    ensures Readable(MultiByItem, Run(MultiByItem, order, dir, op)) <==> Admissible(MultiByItem, order, dir, op)
  {
    var after := Run(MultiByItem, order, dir, op);
    GetAgreesIff(MultiByItem, dir);
    if Parses(after) { GetAgreesIff(MultiByItem, after); }
    if op.category.Basic? || op.name != "" {
      NamedUpdateRuns(order, dir, op.category, op.name, op.fields);
    } else {
      assert op == Update(op.category, "", op.fields);
      UnnamedUpdateRunsIff(order, dir, op.category, op.fields);
    }
  }

  /** Whatever the directory: an accepted update of an item without a name ends it, given one ordinary field. */
  lemma UnnamedUpdateBreaks(order: Order, dir: Dir, c: Titled, fields: Fields, n: string)
    requires n in fields && n != "" && !BadName(n)
    ensures !Refused(Update(c, "", fields))
    ensures !Readable(MultiByItem, Run(MultiByItem, order, dir, Update(c, "", fields)))
  {
    var home, after := ItemFile(c, ""), Run(MultiByItem, order, dir, Update(c, "", fields));
    ItemUpdateIs(order, dir, c, "", fields);
    assert Holds(after, home, KeyOf(c, n)) && Home(MultiByItem, KeyOf(c, n)) != home;
    if Parses(after) { GetAgreesIff(MultiByItem, after); }
  }

  // ---- a directory that breaks later ----------------------------------------------------

  /**
   * A stray `[upstreams]` header in `servers.toml`: nothing is stale, everything is where it
   * belongs and can be read, and after the last upstream is deleted nothing can be loaded.
   */
  lemma StrayHeaderBreaksLater(order: Order)
    requires ValidOrder(order)
    ensures var dir: Dir := map[CategoryFile(Server) := Doc(map[], {Upstream}),
                                CategoryFile(Upstream) := Doc(map[KeyOf(Upstream, "u") := Table(map[])], {})];
            && Parses(dir) && ListsStale(MultiByType, dir, []) && OwnFilesExact(MultiByType, dir)
            && GetAgrees(MultiByType, dir)
            && !Parses(Run(MultiByType, order, dir, Delete(Upstream, "u", true)))
  {
    var u := KeyOf(Upstream, "u");
    var dir: Dir := map[CategoryFile(Server) := Doc(map[], {Upstream}),
                        CategoryFile(Upstream) := Doc(map[u := Table(map[])], {})];
    assert forall f, k: Key :: Holds(dir, f, k) ==> f == CategoryFile(Upstream) && k == u;
    assert forall f, c: Category :: Opens(dir, f, c) ==> f == CategoryFile(Server) && c == Upstream;
    GetAgreesIff(MultiByType, dir);
    forall k | k in Merged(dir) ensures k == u { var f := MergedFrom(dir, k); }
    var op := Delete(Upstream, "u", true);
    EditedMeans(Load(dir).value, op);
    assert Opens(dir, CategoryFile(Server), Upstream);
    OpenedTwice(order, dir, CategoryFile(Server), op);
  }
}
