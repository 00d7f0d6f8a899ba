/** Storage keys: which file a configuration mode writes an entry to, and which names it owns. */
module Layout {
  import opened Toml

  datatype Mode = Single | MultiByType | MultiByItem

  const SINGLE_KEY := "pingap.toml"
  const SUFFIX := ".toml"

  function FormatCategory(c: Category): string {
    match c
    case Basic => "basic"
    case Server => "servers"
    case Location => "locations"
    case Upstream => "upstreams"
    case Plugin => "plugins"
    case Certificate => "certificates"
    case Storage => "storages"
  }

  function CategoryKey(c: Category): string {
    FormatCategory(c) + SUFFIX
  }

  function ItemKey(c: Category, name: string): string {
    FormatCategory(c) + "/" + name + SUFFIX
  }

  /** Names holding a path separator or NUL never reach the storage. */
  predicate BadName(name: string) {
    '/' in name || '\\' in name || '\0' in name
  }

  /** A storage key, sorted by who writes it; `Other` is a file no mode ever writes. */
  datatype FileKey =
    | SingleFile
    | CategoryFile(category: Category)
    | ItemFile(category: Category, name: string)
    | Other(path: string)

  /** The path of a file below the configuration directory. */
  function Render(f: FileKey): string {
    match f
    case SingleFile => SINGLE_KEY
    case CategoryFile(c) => CategoryKey(c)
    case ItemFile(c, n) => ItemKey(c, n)
    case Other(p) => p
  }

  /** The file that holds an entry in the given mode. */
  function Home(mode: Mode, k: Key): FileKey {
    match mode
    case Single => SingleFile
    case MultiByType => CategoryFile(k.category)
    case MultiByItem =>
      if k.category.Basic? then CategoryFile(Basic) else ItemFile(k.category, k.name)
  }

  /** The storage key as the manager formats it. */
  function GetKey(mode: Mode, c: Category, name: string): (r: Result<string>) {
    if BadName(name) then Err
    else
      Ok(match mode
         case Single => SINGLE_KEY
         case MultiByType => FormatCategory(c) + SUFFIX
         case MultiByItem =>
           if c.Basic? then FormatCategory(c) + SUFFIX
           else FormatCategory(c) + "/" + name + SUFFIX)
  }

  /** The files a mode writes itself, by kind. */
  predicate Owned(mode: Mode, f: FileKey) {
    match mode
    case Single => true
    case MultiByType => f.CategoryFile?
    case MultiByItem =>
      f == CategoryFile(Basic) || (f.ItemFile? && !f.category.Basic? && '/' !in f.name)
  }

  /** The position of the first `/`, or the length when there is none. */
  function FirstSlash(s: string): (i: nat)
    ensures i <= |s| && '/' !in s[..i]
    ensures i < |s| ==> s[i] == '/'
    ensures i == |s| ==> '/' !in s
  {
    if s == [] || s[0] == '/' then 0
    else
      assert forall i :: 0 <= i <= |s[1..]| ==> s[..i + 1] == [s[0]] + s[1..][..i];
      assert s == [s[0]] + s[1..];
      1 + FirstSlash(s[1..])
  }

  predicate IsCanonicalKey(mode: Mode, key: string) {
    match mode
    case Single => true
    case MultiByType => exists c <- ALL_CATEGORIES :: key == CategoryKey(c)
    case MultiByItem =>
      if key == CategoryKey(Basic) then true
      else
        var i := FirstSlash(key);
        i < |key| && '/' !in key[i + 1..] &&
        exists c <- ITEM_CATEGORIES :: key[..i] == FormatCategory(c)
  }

  predicate HasSuffix(key: string) {
    |key| >= |SUFFIX| && key[|key| - |SUFFIX|..] == SUFFIX
  }

  lemma FormatCategoryHasNoSlash(c: Category)
    ensures '/' !in FormatCategory(c)
  {}

  lemma FormatCategoryInjective(c: Category, d: Category)
    requires FormatCategory(c) == FormatCategory(d)
    ensures c == d
  {
    assert |FormatCategory(c)| == |FormatCategory(d)|;
    assert FormatCategory(c)[0] == FormatCategory(d)[0];
  }

  lemma CategoryKeyInjective(c: Category, d: Category)
    requires CategoryKey(c) == CategoryKey(d)
    ensures c == d
  {
    assert FormatCategory(c) == CategoryKey(c)[..|CategoryKey(c)| - 5];
    assert FormatCategory(d) == CategoryKey(d)[..|CategoryKey(d)| - 5];
    FormatCategoryInjective(c, d);
  }

  lemma FirstSlashAfter(a: string, b: string)
    requires '/' !in a
    ensures FirstSlash(a + "/" + b) == |a|
  {
    var key := a + "/" + b;
    var i := FirstSlash(key);
    assert key[|a|] == '/';
    assert forall m :: 0 <= m < |a| ==> key[m] == a[m];
    assert forall m :: 0 <= m < i ==> key[m] == key[..i][m];
  }

  lemma SlashPosition(c: Category, name: string)
    ensures FirstSlash(ItemKey(c, name)) == |FormatCategory(c)|
    ensures ItemKey(c, name)[..|FormatCategory(c)|] == FormatCategory(c)
    ensures ItemKey(c, name)[|FormatCategory(c)| + 1..] == name + SUFFIX
  {
    FormatCategoryHasNoSlash(c);
    assert ItemKey(c, name) == FormatCategory(c) + "/" + (name + SUFFIX);
    FirstSlashAfter(FormatCategory(c), name + SUFFIX);
  }

  lemma ItemKeyInjective(c: Category, m: string, d: Category, n: string)
    requires ItemKey(c, m) == ItemKey(d, n)
    ensures c == d && m == n
  {
    SlashPosition(c, m);
    SlashPosition(d, n);
    FormatCategoryInjective(c, d);
    assert m == (m + SUFFIX)[..|m + SUFFIX| - 5];
    assert n == (n + SUFFIX)[..|n + SUFFIX| - 5];
  }

  lemma CategoryKeyIsNoItemKey(c: Category, d: Category, n: string)
    ensures CategoryKey(c) != ItemKey(d, n)
  {
    FormatCategoryHasNoSlash(c);
    assert '/' !in CategoryKey(c);
    assert ItemKey(d, n)[|FormatCategory(d)|] == '/';
  }

  /** Kinds that describe different paths: an `Other` path is none of the written ones. */
  ghost predicate WellFormed(f: FileKey) {
    match f
    case SingleFile => true
    case CategoryFile(_) => true
    case ItemFile(c, n) => !c.Basic? && '/' !in n
    case Other(p) =>
      && HasSuffix(p) && p != SINGLE_KEY
      && (forall c: Category :: p != CategoryKey(c))
      && (forall c: Category, n: string :: !c.Basic? && '/' !in n ==> p != ItemKey(c, n))
  }

  lemma SingleKeyStandsAlone(c: Category, n: string)
    ensures SINGLE_KEY != CategoryKey(c) && SINGLE_KEY != ItemKey(c, n)
  {
    assert '/' !in SINGLE_KEY && ItemKey(c, n)[|FormatCategory(c)|] == '/';
    assert SINGLE_KEY[1] == 'i' && CategoryKey(c)[1] != 'i';
  }

  /** Different kinds render to different paths. */
  lemma {:induction false} RenderInjective(f: FileKey, g: FileKey)
    requires WellFormed(f) && WellFormed(g) && Render(f) == Render(g)
    ensures f == g
  {
    match (f, g)
    case (CategoryFile(c), CategoryFile(d)) => CategoryKeyInjective(c, d);
    case (ItemFile(c, m), ItemFile(d, n)) => ItemKeyInjective(c, m, d, n);
    case (CategoryFile(c), ItemFile(d, n)) => CategoryKeyIsNoItemKey(c, d, n);
    case (ItemFile(d, n), CategoryFile(c)) => CategoryKeyIsNoItemKey(c, d, n);
    case (SingleFile, CategoryFile(c)) => SingleKeyStandsAlone(c, "");
    case (CategoryFile(c), SingleFile) => SingleKeyStandsAlone(c, "");
    case (SingleFile, ItemFile(c, n)) => SingleKeyStandsAlone(c, n);
    case (ItemFile(c, n), SingleFile) => SingleKeyStandsAlone(c, n);
    case _ =>
  }

  /** Every `.toml` path the loader can meet has a kind. */
  lemma EveryPathHasKind(p: string) returns (f: FileKey)
    requires HasSuffix(p)
    ensures WellFormed(f) && Render(f) == p
  {
    if p == SINGLE_KEY {
      f := SingleFile;
    } else if c: Category :| p == CategoryKey(c) {
      f := CategoryFile(c);
    } else if c: Category, n: string :| !c.Basic? && '/' !in n && p == ItemKey(c, n) {
      f := ItemFile(c, n);
    } else {
      f := Other(p);
    }
  }

  /** The manager formats exactly the path of the entry's home file. */
  lemma GetKeyIsHome(mode: Mode, c: Category, name: string)
    ensures GetKey(mode, c, name)
         == if BadName(name) then Err else Ok(Render(Home(mode, KeyOf(c, name))))
  {}

  lemma RenderHasSuffix(f: FileKey)
    requires WellFormed(f)
    ensures HasSuffix(Render(f))
  {
    match f
    case SingleFile =>
    case CategoryFile(c) => assert CategoryKey(c)[|CategoryKey(c)| - 5..] == SUFFIX;
    case ItemFile(c, n) => assert ItemKey(c, n)[|ItemKey(c, n)| - 5..] == SUFFIX;
    case Other(_) =>
  }

  /**
   * The string test that decides what a migration retires accepts exactly the files the mode
   * writes itself.
   */
  lemma {:induction false} CanonicalIffOwned(mode: Mode, f: FileKey)
    requires WellFormed(f)
    ensures IsCanonicalKey(mode, Render(f)) <==> Owned(mode, f)
  {
    RenderHasSuffix(f);
    match mode
    case Single =>
    case MultiByType => CanonicalByType(f);
    case MultiByItem => CanonicalByItem(f);
  }

  lemma CanonicalByType(f: FileKey)
    requires WellFormed(f)
    ensures IsCanonicalKey(MultiByType, Render(f)) <==> f.CategoryFile?
  {
    if f.CategoryFile? {
      CategoryListed(f.category);
    } else if IsCanonicalKey(MultiByType, Render(f)) {
      var c :| c in ALL_CATEGORIES && Render(f) == CategoryKey(c);
      RenderInjective(f, CategoryFile(c));
    }
  }

  lemma CanonicalByItem(f: FileKey)
    requires WellFormed(f) && HasSuffix(Render(f))
    ensures IsCanonicalKey(MultiByItem, Render(f)) <==> Owned(MultiByItem, f)
  {
    if f.ItemFile? {
      ItemKeyIsCanonical(f.category, f.name);
    } else if f != CategoryFile(Basic) && IsCanonicalKey(MultiByItem, Render(f)) {
      var g := CanonicalItem(Render(f));
      RenderInjective(f, g);
    }
  }

  lemma ItemKeyIsCanonical(c: Category, n: string)
    requires !c.Basic? && '/' !in n
    ensures IsCanonicalKey(MultiByItem, ItemKey(c, n))
  {
    SlashPosition(c, n);
    CategoryListed(c);
  }

  lemma CanonicalItem(key: string) returns (g: FileKey)
    requires HasSuffix(key) && IsCanonicalKey(MultiByItem, key)
    ensures WellFormed(g) && Owned(MultiByItem, g) && Render(g) == key
  {
    if key == CategoryKey(Basic) {
      g := CategoryFile(Basic);
    } else {
      var c :| c in ITEM_CATEGORIES && key[..FirstSlash(key)] == FormatCategory(c);
      CategoryListed(c);
      var n := ItemNameOf(key, c);
      g := ItemFile(c, n);
    }
  }

  lemma ItemNameOf(key: string, c: Category) returns (name: string)
    requires HasSuffix(key)
    requires FirstSlash(key) < |key| && '/' !in key[FirstSlash(key) + 1..]
    requires key[..FirstSlash(key)] == FormatCategory(c)
    ensures '/' !in name && key == ItemKey(c, name)
  {
    var i := FirstSlash(key);
    var n := |key| - |SUFFIX|;
    assert '/' !in SUFFIX;
    assert forall m :: n <= m < |key| ==> key[m] == key[n..][m - n];
    assert i < n;
    name := key[i + 1..n];
    assert forall x :: x in name ==> x in key[i + 1..];
    Reassemble(key, i, n);
    assert key[i..i + 1] == "/";
  }

  lemma Reassemble(key: string, i: nat, n: nat)
    requires i < n <= |key|
    ensures key == key[..i] + key[i..i + 1] + key[i + 1..n] + key[n..]
  {
    assert key[..i] + key[i..i + 1] == key[..i + 1];
    assert key[..i + 1] + key[i + 1..n] == key[..n];
    assert key[..n] + key[n..] == key;
  }
}
