/**
 * One logical configuration kept in a directory of `.toml` files: what the loader makes of the
 * concatenated files, what every write stores, and the layout invariant the writes keep.
 */
module ConfigStore {
  import opened Toml
  import opened Layout

  /** A section of items; the basic section is an entry itself and has no header of its own. */
  type Titled = c: Category | !c.Basic? witness Server

  /**
   * What one file holds: its entries and the sections it opens with an explicit `[section]`
   * header, or text the loader rejects.
   */
  datatype Content = Doc(entries: Config, headers: set<Titled>) | Malformed

  /** The `.toml` files below the configuration path, by storage key. */
  type Dir = map<FileKey, Content>

  /** A configuration in memory, with the sections that are present (possibly empty). */
  datatype Loaded = Loaded(entries: Config, sections: set<Category>)

  // ---- loading --------------------------------------------------------------------------

  predicate Holds(dir: Dir, file: FileKey, k: Key) {
    file in dir && dir[file].Doc? && k in dir[file].entries
  }

  predicate Opens(dir: Dir, file: FileKey, c: Category) {
    file in dir && dir[file].Doc? && c in dir[file].headers
  }

  /** The concatenation is valid TOML: no entry and no section header appears twice. */
  ghost predicate Parses(dir: Dir) {
    && (forall f :: f in dir ==> dir[f].Doc?)
    && (forall f, g, k: Key :: Holds(dir, f, k) && Holds(dir, g, k) ==> f == g)
    && (forall f, g, c: Category :: Opens(dir, f, c) && Opens(dir, g, c) ==> f == g)
  }

  function Entries(dir: Dir): set<Key> {
    set f, k: Key | f in dir && dir[f].Doc? && k in dir[f].entries :: k
  }

  ghost function Holder(dir: Dir, k: Key): (f: FileKey)
    requires k in Entries(dir)
    ensures Holds(dir, f, k)
  {
    assert exists f :: Holds(dir, f, k) by {
      var f :| f in dir && dir[f].Doc? && k in dir[f].entries;
      assert Holds(dir, f, k);
    }
    var f :| Holds(dir, f, k);
    f
  }

  /** Every entry of every file, with the value it has there. */
  ghost function Merged(dir: Dir): (m: Config) {
    map k: Key | k in Entries(dir) :: dir[Holder(dir, k)].entries[k]
  }

  function Sections(dir: Dir): set<Category> {
    (set f, c: Category | f in dir && dir[f].Doc? && c in dir[f].headers :: c) +
    (set k: Key | k in Entries(dir) :: k.category)
  }

  ghost function Load(dir: Dir): Result<Loaded> {
    if Parses(dir) then Ok(Loaded(Merged(dir), Sections(dir))) else Err
  }

  lemma MergedAt(dir: Dir, f: FileKey, k: Key)
    requires Holds(dir, f, k)
    ensures k in Merged(dir)
    ensures Parses(dir) ==> Merged(dir)[k] == dir[f].entries[k]
  {
    assert k in Entries(dir);
    assert Holds(dir, Holder(dir, k), k);
  }

  lemma MergedFrom(dir: Dir, k: Key) returns (f: FileKey)
    requires k in Merged(dir)
    ensures Holds(dir, f, k) && Merged(dir)[k] == dir[f].entries[k]
  {
    f := Holder(dir, k);
  }

  // ---- what the writes store ------------------------------------------------------------

  predicate EmptySection(entries: Config, c: Category) {
    forall k: Key :: k in entries ==> k.category != c
  }

  /** A value written on a line of its own below the section's header, not as a table of its own. */
  predicate Inline(v: Value) {
    !v.Table? && !(v.Arr? && v.items != [] && forall x <- v.items :: x.Table?)
  }

  /** The section is printed with an explicit `[section]` header. */
  predicate Headed(entries: Config, c: Category) {
    EmptySection(entries, c) || exists k <- entries :: k.category == c && Inline(entries[k])
  }

  /** The whole configuration pretty-printed: an empty section leaves only its header. */
  function WholeDoc(config: Loaded): Content {
    Doc(config.entries, set c: Titled | c in config.sections && Headed(config.entries, c))
  }

  function CategoryEntries(entries: Config, c: Category): Config {
    map k: Key | k in entries && k.category == c :: entries[k]
  }

  function CategoryDoc(config: Loaded, c: Category): Content {
    Doc(CategoryEntries(config.entries, c),
        if c in config.sections && !c.Basic? && Headed(config.entries, c) then {c} else {})
  }

  /** An item wrapped as `[section.name]`; without a name its fields become the section itself. */
  function ItemDoc(v: Value, c: Category, name: string): Content {
    if c.Basic? then
      Doc(map[KeyOf(Basic, "") := if name == "" then v else Table(map[name := v])], {})
    else if name != "" then
      Doc(map[KeyOf(c, name) := v], if Inline(v) then {c} else {})
    else if v.Table? then
      Doc(map k: Key | k in (set n | n in v.entries :: KeyOf(c, n)) :: v.entries[k.name],
          if v.entries == map[] || exists n <- v.entries :: Inline(v.entries[n]) then {c} else {})
    else
      Malformed
  }

  function InsertEntry(config: Loaded, c: Category, name: string, v: Value): Loaded {
    Loaded(config.entries[KeyOf(c, name) := v], config.sections + {c})
  }

  function DropEntry(config: Loaded, c: Category, name: string): Loaded {
    Loaded(config.entries - {KeyOf(c, name)},
           if c.Basic? then config.sections - {c} else config.sections + {c})
  }

  /** The section file of one entry starts with the section's header unless the entry is printed as a table. */
  lemma OneEntryHeader(c: Titled, name: string, v: Value)
    ensures var config := Loaded(map[KeyOf(c, name) := v], {c});
            c in CategoryDoc(config, c).headers <==>
            match v
            case Table(_) => false
            case Arr(items) => items == [] || exists x <- items :: !x.Table?
            case _ => true
    ensures c in CategoryDoc(Loaded(map[], {c}), c).headers && CategoryDoc(Loaded(map[], {}), c).headers == {}
  {
    var config := Loaded(map[KeyOf(c, name) := v], {c});
    assert KeyOf(c, name) in config.entries && config.entries[KeyOf(c, name)] == v;
    assert !EmptySection(config.entries, c);
    assert Headed(config.entries, c) <==> Inline(v);
  }

  // ---- storage steps --------------------------------------------------------------------

  /** One atomic change of the readable files. Retiring a file takes it out of the loader's sight. */
  datatype Step = Save(file: FileKey, content: Content) | Remove(file: FileKey)

  function Apply(dir: Dir, step: Step): Dir {
    match step
    case Save(f, content) => dir[f := content]
    case Remove(f) => dir - {f}
  }

  function RunSteps(dir: Dir, steps: seq<Step>): Dir
    decreases |steps|
  {
    if steps == [] then dir else Apply(RunSteps(dir, steps[..|steps| - 1]), steps[|steps| - 1])
  }

  lemma {:induction false} RunStepsAppend(dir: Dir, a: seq<Step>, b: seq<Step>)
    ensures RunSteps(dir, a + b) == RunSteps(RunSteps(dir, a), b)
    decreases |b|
  {
    if b == [] {
      assert a + b == a;
    } else {
      assert (a + b)[..|a + b| - 1] == a + b[..|b| - 1];
      RunStepsAppend(dir, a, b[..|b| - 1]);
    }
  }

  /** The entries a per-item save visits after `basic`, section by section. */
  function ItemPlan(order: Order, entries: Config, categories: seq<Category>): seq<Key>
    requires forall c :: c in categories ==> !c.Basic?
  {
    if categories == [] then []
    else
      var names := order(Section(entries, categories[0]).Keys);
      seq(|names|, i requires 0 <= i < |names| => KeyOf(categories[0], names[i])) +
      ItemPlan(order, entries, categories[1..])
  }

  /** A name the storage refuses ends the save there; what was written before it stays. */
  function GoodPrefix(keys: seq<Key>): (good: seq<Key>)
    ensures good <= keys
    ensures forall k :: k in good ==> !BadName(k.name)
    ensures |good| < |keys| ==> BadName(keys[|good|].name)
  {
    if keys == [] || BadName(keys[0].name) then [] else [keys[0]] + GoodPrefix(keys[1..])
  }

  function ItemSave(entries: Config, k: Key): Step {
    Save(Home(MultiByItem, k),
         if k in entries then ItemDoc(entries[k], k.category, k.name) else Doc(map[], {}))
  }

  function ItemSaves(entries: Config, items: seq<Key>): seq<Step> {
    seq(|items|, i requires 0 <= i < |items| => ItemSave(entries, items[i]))
  }

  function CategorySave(config: Loaded, c: Category): Step {
    Save(CategoryFile(c), CategoryDoc(config, c))
  }

  function SavePlan(mode: Mode, order: Order, config: Loaded): seq<Step> {
    match mode
    case Single => [Save(SingleFile, WholeDoc(config))]
    case MultiByType =>
      seq(|ALL_CATEGORIES|, i requires 0 <= i < |ALL_CATEGORIES| =>
        CategorySave(config, ALL_CATEGORIES[i]))
    case MultiByItem =>
      [CategorySave(config, Basic)] +
      ItemSaves(config.entries, GoodPrefix(ItemPlan(order, config.entries, ITEM_CATEGORIES)))
  }

  // ---- operations -----------------------------------------------------------------------

  datatype Op =
    | Update(category: Category, name: string, fields: Fields)
    | Delete(category: Category, name: string, accepted: bool)
    | SaveAll(config: Loaded)

  /** Whether the operation works from a freshly loaded configuration. */
  predicate Reads(mode: Mode, op: Op) {
    !mode.MultiByItem? && !op.SaveAll?
  }

  predicate Refused(op: Op) {
    match op
    case Update(_, name, _) => BadName(name)
    case Delete(_, name, accepted) => BadName(name) || !accepted
    case SaveAll(_) => false
  }

  /** The file changes an operation makes once it holds the write lock and has loaded `snapshot`. */
  function StepsFrom(mode: Mode, order: Order, snapshot: Result<Loaded>, op: Op): seq<Step> {
    if Refused(op) then []
    else if op.SaveAll? then SavePlan(mode, order, op.config)
    else
      var file := Home(mode, KeyOf(op.category, op.name));
      if mode.MultiByItem? then
        if op.Update? then [Save(file, ItemDoc(Table(op.fields), op.category, op.name))]
        else [Remove(file)]
      else if snapshot.Err? then []
      else
        var config :=
          if op.Update? then InsertEntry(snapshot.value, op.category, op.name, Table(op.fields))
          else DropEntry(snapshot.value, op.category, op.name);
        [Save(file, if mode.MultiByType? then CategoryDoc(config, op.category) else WholeDoc(config))]
  }

  ghost function Run(mode: Mode, order: Order, dir: Dir, op: Op): Dir {
    RunSteps(dir, StepsFrom(mode, order, Load(dir), op))
  }

  // ---- the layout invariant -------------------------------------------------------------

  /** Every entry sits in the file its key names. */
  ghost predicate Homed(mode: Mode, dir: Dir) {
    forall f, k: Key :: Holds(dir, f, k) ==> Home(mode, k) == f
  }

  ghost predicate HeadersHomed(mode: Mode, dir: Dir) {
    match mode
    case Single => forall f :: f in dir ==> f == SingleFile
    case MultiByType => forall f, c :: Opens(dir, f, c) ==> f == CategoryFile(c)
    case MultiByItem => true
  }

  ghost predicate Canonical(mode: Mode, dir: Dir) {
    Parses(dir) && Homed(mode, dir) && HeadersHomed(mode, dir)
  }

  /** `entries` without those whose home is `f`. */
  function Elsewhere(mode: Mode, entries: Config, f: FileKey): Config {
    map k: Key | k in entries && Home(mode, k) != f :: entries[k]
  }

  /** Headers a save may add without breaking the invariant. */
  predicate HeadersAllowed(mode: Mode, f: FileKey, headers: set<Category>) {
    match mode
    case Single => f == SingleFile
    case MultiByType => forall c <- headers :: f == CategoryFile(c)
    case MultiByItem => headers == {}
  }

  /** Saving a document of homed entries replaces exactly the entries living in that file. */
  lemma SaveCanonical(mode: Mode, dir: Dir, f: FileKey, doc: Content)
    requires Canonical(mode, dir) && doc.Doc?
    requires forall k: Key :: k in doc.entries ==> Home(mode, k) == f
    requires HeadersAllowed(mode, f, doc.headers)
    ensures Canonical(mode, dir[f := doc])
    ensures Merged(dir[f := doc]) == Elsewhere(mode, Merged(dir), f) + doc.entries
  {
    var after := dir[f := doc];
    assert forall g, k: Key :: Holds(after, g, k) ==> (if g == f then k in doc.entries else Holds(dir, g, k));
    assert forall g, c: Category :: Opens(after, g, c) ==> (if g == f then c in doc.headers else Opens(dir, g, c));
    assert Canonical(mode, after);
    var expected := Elsewhere(mode, Merged(dir), f) + doc.entries;
    forall k: Key | k in Merged(after)
      ensures k in expected && expected[k] == Merged(after)[k]
    {
      var g := MergedFrom(after, k);
      if g != f { MergedAt(dir, g, k); }
    }
    forall k: Key | k in expected ensures k in Merged(after) {
      if k in doc.entries {
        MergedAt(after, f, k);
      } else {
        var g := MergedFrom(dir, k);
        MergedAt(after, g, k);
      }
    }
  }

  /** Removing a file removes exactly the entries living there. */
  lemma RemoveCanonical(mode: Mode, dir: Dir, f: FileKey)
    requires Canonical(mode, dir)
    ensures Canonical(mode, dir - {f})
    ensures Merged(dir - {f}) == Elsewhere(mode, Merged(dir), f)
  {
    var after := dir - {f};
    assert forall g :: g in after <==> g in dir && g != f;
    assert forall g, k: Key :: Holds(after, g, k) ==> g != f && Holds(dir, g, k);
    assert forall g, c: Category :: Opens(after, g, c) ==> g != f && Opens(dir, g, c);
    var expected := Elsewhere(mode, Merged(dir), f);
    forall k: Key | k in Merged(after)
      ensures k in expected && expected[k] == Merged(after)[k]
    {
      var g := MergedFrom(after, k);
      MergedAt(dir, g, k);
    }
    forall k: Key | k in expected ensures k in Merged(after) {
      var g := MergedFrom(dir, k);
      MergedAt(after, g, k);
    }
  }
}
