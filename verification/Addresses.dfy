/** Where entries are stored, letter by letter, and what one edit does there. */
module Addresses {
  import opened Toml
  import opened Layout
  import opened ConfigStore
  import opened ConfigRefinement

  /** A single path segment: no separator and no NUL in it. */
  predicate Segment(name: string) {
    forall i :: 0 <= i < |name| ==> name[i] != '/' && name[i] != '\\' && name[i] != '\0'
  }

  function SectionName(c: Category): string {
    match c
    case Basic => "basic"
    case Server => "servers"
    case Location => "locations"
    case Upstream => "upstreams"
    case Plugin => "plugins"
    case Certificate => "certificates"
    case Storage => "storages"
  }

  /** The path of an entry in each layout. */
  function PathOf(mode: Mode, c: Category, name: string): string {
    if mode == Single then "pingap.toml"
    else if mode == MultiByType || c == Basic then SectionName(c) + ".toml"
    else SectionName(c) + "/" + name + ".toml"
  }

  lemma BadNameIff(name: string)
    ensures BadName(name) <==> !Segment(name)
  {
    if !Segment(name) {
      var i :| 0 <= i < |name| && (name[i] == '/' || name[i] == '\\' || name[i] == '\0');
      assert name[i] in name;
    }
  }

  /** Every name that is a path segment has its path, every other name is refused. */
  lemma KeyIs(mode: Mode, c: Category, name: string)
    ensures GetKey(mode, c, name) == if Segment(name) then Ok(PathOf(mode, c, name)) else Err
  {
    BadNameIff(name);
    assert FormatCategory(c) == SectionName(c);
  }

  /** The path of an item: a section, a slash and one more segment. */
  ghost predicate ItemPath(key: string) {
    exists c: Category, rest: string :: c != Basic && '/' !in rest && key == SectionName(c) + "/" + rest
  }

  lemma SplitIs(key: string, c: Category, rest: string)
    requires key == SectionName(c) + "/" + rest && '/' !in rest
    ensures FirstSlash(key) == |SectionName(c)| && key[..|SectionName(c)|] == FormatCategory(c)
    ensures key[|SectionName(c)| + 1..] == rest
  {
    assert FormatCategory(c) == SectionName(c);
    FormatCategoryHasNoSlash(c);
    FirstSlashAfter(SectionName(c), rest);
  }

  /** The paths a layout writes itself, spelt out. */
  lemma CanonicalPathsIff(mode: Mode, key: string)
    ensures mode == Single ==> IsCanonicalKey(mode, key)
    ensures mode == MultiByType ==>
              (IsCanonicalKey(mode, key) <==>
               key in {"basic.toml", "servers.toml", "locations.toml", "upstreams.toml", "plugins.toml",
                       "certificates.toml", "storages.toml"})
    ensures mode == MultiByItem ==> (IsCanonicalKey(mode, key) <==> key == "basic.toml" || ItemPath(key))
  {
    if mode == MultiByType {
      TypePaths(key);
    } else if mode == MultiByItem {
      ItemPaths(key);
    }
  }

  lemma TypePaths(key: string)
    ensures IsCanonicalKey(MultiByType, key) <==>
            key in {"basic.toml", "servers.toml", "locations.toml", "upstreams.toml", "plugins.toml",
                    "certificates.toml", "storages.toml"}
  {
    forall c: Category ensures c in ALL_CATEGORIES { CategoryListed(c); }
    assert CategoryKey(Basic) == "basic.toml" && CategoryKey(Server) == "servers.toml";
    assert CategoryKey(Location) == "locations.toml" && CategoryKey(Upstream) == "upstreams.toml";
    assert CategoryKey(Plugin) == "plugins.toml" && CategoryKey(Certificate) == "certificates.toml";
    assert CategoryKey(Storage) == "storages.toml";
  }

  lemma ItemPathIsCanonical(key: string, c: Category, rest: string)
    requires c != Basic && '/' !in rest && key == SectionName(c) + "/" + rest
    ensures IsCanonicalKey(MultiByItem, key)
  {
    SplitIs(key, c, rest);
    CategoryListed(c);
    if key != CategoryKey(Basic) {
      var i := FirstSlash(key);
      assert i < |key| && key[i + 1..] == rest && key[..i] == FormatCategory(c);
    }
  }

  lemma CanonicalIsItemPath(key: string)
    requires IsCanonicalKey(MultiByItem, key) && key != CategoryKey(Basic)
    ensures ItemPath(key)
  {
    var i := FirstSlash(key);
    var c :| c in ITEM_CATEGORIES && key[..i] == FormatCategory(c);
    CategoryListed(c);
    assert FormatCategory(c) == SectionName(c);
    assert key == key[..i] + key[i..i + 1] + key[i + 1..] && key[i..i + 1] == "/";
    assert key == SectionName(c) + "/" + key[i + 1..];
  }

  lemma ItemPaths(key: string)
    ensures IsCanonicalKey(MultiByItem, key) <==> key == "basic.toml" || ItemPath(key)
  {
    assert CategoryKey(Basic) == "basic.toml";
    if c: Category, rest: string :| c != Basic && '/' !in rest && key == SectionName(c) + "/" + rest {
      ItemPathIsCanonical(key, c, rest);
    }
    if IsCanonicalKey(MultiByItem, key) && key != "basic.toml" { CanonicalIsItemPath(key); }
  }

  // ---- one edit -------------------------------------------------------------------------

  /** The name an entry of a section is stored under. */
  predicate Addresses(k: Key, c: Category, name: string) {
    k.category == c && (c == Basic || k.name == name)
  }

  /** Per item, an item has a name and the basic section has none. */
  predicate Fitting(mode: Mode, c: Category, name: string) {
    mode == MultiByItem ==> (c == Basic <==> name == "")
  }

  lemma UpdateMerged(mode: Mode, order: Order, dir: Dir, c: Category, name: string, fields: Fields)
    requires Canonical(mode, dir) && Segment(name) && Fitting(mode, c, name)
    ensures var after := Run(mode, order, dir, Update(c, name, fields));
            Canonical(mode, after) && Merged(after) == Merged(dir)[KeyOf(c, name) := Table(fields)]
  {
    BadNameIff(name);
    EntryOpRefines(mode, order, dir, Update(c, name, fields));
  }

  /** The entry under an address. */
  ghost function EntryAt(dir: Dir, k: Key): Option<Value>
    requires Load(dir).Ok?
  {
    Lookup(Load(dir).value.entries, k)
  }

  /** An update is there afterwards, for loads and for single reads, and nothing else has changed. */
  lemma UpdateStored(mode: Mode, order: Order, dir: Dir, c: Category, name: string, fields: Fields, k: Key)
    requires Canonical(mode, dir) && Segment(name) && Fitting(mode, c, name)
    ensures var after := Run(mode, order, dir, Update(c, name, fields));
            && Load(after).Ok?
            && Get(mode, after, c, name) == Ok(Some(Table(fields)))
            && EntryAt(after, k) == if Addresses(k, c, name) then Some(Table(fields)) else EntryAt(dir, k)
  {
    BadNameIff(name);
    UpdateMerged(mode, order, dir, c, name, fields);
    ReadsAgree(mode, Run(mode, order, dir, Update(c, name, fields)), c, name);
    assert k == KeyOf(k.category, k.name);
  }

  lemma DeleteMerged(mode: Mode, order: Order, dir: Dir, c: Category, name: string)
    requires Canonical(mode, dir) && Segment(name)
    ensures var after := Run(mode, order, dir, Delete(c, name, true));
            Canonical(mode, after) && Merged(after) == Merged(dir) - {KeyOf(c, name)}
  {
    BadNameIff(name);
    EntryOpRefines(mode, order, dir, Delete(c, name, true));
  }

  /** A delete the running configuration allows takes exactly its entry away. */
  lemma DeleteRemoves(mode: Mode, order: Order, dir: Dir, c: Category, name: string, k: Key)
    requires Canonical(mode, dir) && Segment(name)
    ensures var after := Run(mode, order, dir, Delete(c, name, true));
            && Load(after).Ok?
            && Get(mode, after, c, name) == Ok(None)
            && EntryAt(after, k) == if Addresses(k, c, name) then None else EntryAt(dir, k)
  {
    BadNameIff(name);
    DeleteMerged(mode, order, dir, c, name);
    ReadsAgree(mode, Run(mode, order, dir, Delete(c, name, true)), c, name);
    assert k == KeyOf(k.category, k.name);
  }

  /** What is refused changes nothing: a name that is no segment, and a delete that is not allowed. */
  lemma RefusedChangesNothing(mode: Mode, order: Order, dir: Dir, c: Category, name: string, fields: Fields)
    ensures Run(mode, order, dir, Delete(c, name, false)) == dir
    ensures !Segment(name) ==>
              && Run(mode, order, dir, Update(c, name, fields)) == dir
              && Run(mode, order, dir, Delete(c, name, true)) == dir
              && Get(mode, dir, c, name) == Err
  {
    BadNameIff(name);
  }

  lemma ReadsAgree(mode: Mode, dir: Dir, c: Category, name: string)
    requires Canonical(mode, dir) && !BadName(name)
    ensures Get(mode, dir, c, name) == Ok(Lookup(Merged(dir), KeyOf(c, name)))
  {
    GetAgreesIff(mode, dir);
  }
}
