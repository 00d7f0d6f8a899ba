/** The two-layer file cache: files on disk below a memory layer that may forget anything at any time. */
module FileCache {
  import opened Toml
  import opened Layout
  import opened CacheObject
  import opened CacheEviction

  // ---- where a file is ------------------------------------------------------------------

  /** A path cut at its slashes. */
  function Pieces(path: string): seq<string> {
    var i := FirstSlash(path);
    if i == |path| then [path] else [path[..i]] + Pieces(path[i + 1..])
  }

  /** Empty and `.` components lead nowhere. */
  function Steps(pieces: seq<string>): seq<string> {
    if pieces == [] then []
    else (if pieces[0] == "" || pieces[0] == "." then [] else [pieces[0]]) + Steps(pieces[1..])
  }

  /** The directories a relative path leads through; absolute paths and `..` leave the cache directory. */
  function Resolve(path: string): Option<seq<string>> {
    if (path != "" && path[0] == '/') || ".." in Pieces(path) then None else Some(Steps(Pieces(path)))
  }

  /** Where pushing the parts one after the other leads. */
  function ResolveAll(parts: seq<string>): Option<seq<string>> {
    if parts == [] then Some([])
    else
      var first, rest := Resolve(parts[0]), ResolveAll(parts[1..]);
      if first.None? || rest.None? then None else Some(first.value + rest.value)
  }

  /** The level directories, cut off the key from its last but one character backwards. */
  function LevelDirs(levels: seq<nat>, key: string, end: nat): seq<string>
    requires end <= |key|
  {
    if levels == [] then []
    else if end > levels[0] then
      (if levels[0] == 0 then [] else [key[end - levels[0]..end]]) + LevelDirs(levels[1..], key, end - levels[0])
    else LevelDirs(levels[1..], key, end)
  }

  function Below(levels: seq<nat>, key: string): seq<string>
    requires levels == [] || key != ""
  {
    (if levels == [] then [] else LevelDirs(levels, key, |key| - 1)) + [key]
  }

  /** The path below the cache directory; with levels, an empty key makes the computation panic. */
  function FilePath(levels: seq<nat>, key: string, ns: string): Option<seq<string>>
    requires levels == [] || key != ""
  {
    ResolveAll((if ns == "" then [] else [ns]) + Below(levels, key))
  }

  function Components(levels: seq<nat>, p: Path): seq<string>
    requires levels == [] || p.key != ""
  {
    p.ns + Below(levels, p.key)
  }

  /** A name that is a component of its own; cache keys are hexadecimal digests. */
  predicate Plain(name: string) {
    name != "" && '/' !in name && '.' !in name
  }

  lemma OnePiece(name: string)
    requires '/' !in name
    ensures Pieces(name) == [name]
  {
    assert FirstSlash(name) == |name|;
  }

  lemma NextPiece(name: string, rest: string)
    requires '/' !in name
    ensures Pieces(name + "/" + rest) == [name] + Pieces(rest)
  {
    var path := name + "/" + rest;
    FirstSlashAfter(name, rest);
    assert path[..|name|] == name && path[|name| + 1..] == rest;
  }

  /** A name without slashes is one directory, or none. */
  lemma NameResolves(name: string)
    requires '/' !in name
    ensures Resolve(name) == if name == ".." then None else if name == "" || name == "." then Some([]) else Some([name])
  {
    OnePiece(name);
    assert name != "" ==> name[0] in name;
    assert [name][0] == name && [name][1..] == [] && Steps([name][1..]) == [];
    assert Steps([name]) == if name == "" || name == "." then [] else [name];
  }

  lemma {:induction false} PlainParts(parts: seq<string>)
    requires forall n <- parts :: Plain(n)
    ensures ResolveAll(parts) == Some(parts)
  {
    if parts != [] {
      assert parts[0] in parts;
      NameResolves(parts[0]);
      assert [parts[0]] + parts[1..] == parts;
      PlainParts(parts[1..]);
    }
  }

  lemma {:induction false} PlainLevels(levels: seq<nat>, key: string, end: nat)
    requires Plain(key) && end <= |key|
    ensures forall d <- LevelDirs(levels, key, end) :: Plain(d)
    decreases |levels|
  {
    if levels != [] {
      if end > levels[0] {
        assert forall x :: x in key[end - levels[0]..end] ==> x in key;
        PlainLevels(levels[1..], key, end - levels[0]);
      } else {
        PlainLevels(levels[1..], key, end);
      }
    }
  }

  /** A plain key lies where its namespace leads. */
  lemma PlainKeyPath(levels: seq<nat>, key: string, ns: string)
    requires Plain(key)
    ensures FilePath(levels, key, ns) ==
            if Resolve(ns).None? then None else Some(Components(levels, Path(Resolve(ns).value, key)))
  {
    PlainLevels(levels, key, |key| - 1);
    PlainParts(Below(levels, key));
    NameResolves("");
    if ns != "" {
      var parts := [ns] + Below(levels, key);
      assert parts[0] == ns && parts[1..] == Below(levels, key);
    } else {
      assert [] + Below(levels, key) == Below(levels, key);
    }
  }

  /** With two levels, the two directories are cut off the key before its last character, from the back. */
  lemma TwoLevelPath(key: string, ns: string, a: nat, b: nat)
    requires Plain(key) && Plain(ns) && 0 < a && 0 < b && a + b < |key| - 1
    ensures var e := |key| - 1;
            FilePath([a, b], key, ns) == Some([ns, key[e - a..e], key[e - a - b..e - a], key])
    ensures FilePath([], key, ns) == Some([ns, key])
  {
    var e := |key| - 1;
    PlainKeyPath([a, b], key, ns);
    PlainKeyPath([], key, ns);
    NameResolves(ns);
    assert '.' in "." && '.' in "..";
    assert Resolve(ns) == Some([ns]);
    assert [a, b][1..] == [b] && [b][1..] == [] && LevelDirs([b][1..], key, e - a - b) == [];
    assert LevelDirs([b], key, e - a) == [key[e - a - b..e - a]];
    assert LevelDirs([a, b], key, e) == [key[e - a..e]] + [key[e - a - b..e - a]];
    assert Components([a, b], Path([ns], key)) == [ns, key[e - a..e], key[e - a - b..e - a], key];
    assert Components([], Path([ns], key)) == [ns, key];
  }

  lemma ComponentsInjective(levels: seq<nat>, p: Path, q: Path)
    requires (levels == [] || (p.key != "" && q.key != "")) && Components(levels, p) == Components(levels, q)
    ensures p == q
  {
    var a, b := Components(levels, p), Components(levels, q);
    assert a[|a| - 1] == p.key && b[|b| - 1] == q.key;
    assert p.ns == a[..|a| - |Below(levels, p.key)|] && q.ns == b[..|b| - |Below(levels, q.key)|];
  }

  /** Two entries share a file exactly if they have the same key and their namespaces lead to the same place. */
  lemma SharesFileIff(levels: seq<nat>, key: string, ns: string, other: string, ns': string)
    requires Plain(key) && Plain(other) && Resolve(ns).Some? && Resolve(ns').Some?
    ensures FilePath(levels, key, ns) == FilePath(levels, other, ns') <==> key == other && Resolve(ns) == Resolve(ns')
  {
    PlainKeyPath(levels, key, ns);
    PlainKeyPath(levels, other, ns');
    var p, q := Path(Resolve(ns).value, key), Path(Resolve(ns').value, other);
    if Components(levels, p) == Components(levels, q) { ComponentsInjective(levels, p, q); }
  }

  lemma DoubledSlash()
    ensures Resolve("a//b") == Resolve("a/b") == Some(["a", "b"])
  {
    OnePiece("b");
    NextPiece("", "b");
    assert "" + "/" + "b" == "/b";
    NextPiece("a", "b");
    assert "a" + "/" + "b" == "a/b";
    NextPiece("a", "/b");
    assert "a" + "/" + "/b" == "a//b";
    DoubledSteps();
  }

  lemma DoubledSteps()
    ensures Steps(["a"] + ["b"]) == Steps(["a"] + ([""] + ["b"])) == ["a", "b"]
  {
    assert (["a"] + ["b"])[1..] == ["b"] && (["a"] + ([""] + ["b"]))[1..] == [""] + ["b"];
    assert ([""] + ["b"])[1..] == ["b"];
    assert ["b"][1..] == [] && Steps(["b"]) == ["b"];
  }

  /** Different namespaces with the same files: `.` is the root, and slashes can be doubled. */
  lemma NamespacesCollide(levels: seq<nat>, key: string)
    requires Plain(key)
    ensures FilePath(levels, key, ".") == FilePath(levels, key, "") && !BadNamespace(".")
    ensures FilePath(levels, key, "a//b") == FilePath(levels, key, "a/b")
  {
    NameResolves("");
    NameResolves(".");
    DoubledSlash();
    SharesFileIff(levels, key, ".", key, "");
    SharesFileIff(levels, key, "a//b", key, "a/b");
  }

  // ---- namespaces that are not text -----------------------------------------------------

  const REPLACEMENT := '\U{FFFD}'

  /** A namespace comes as bytes; if they are no text, there is what is left with replacement characters. */
  datatype Namespace = Text(text: string) | Undecodable(lossy: string)

  predicate LossyMarked(ns: Namespace) {
    ns.Undecodable? ==> REPLACEMENT in ns.lossy
  }

  /** Reading and writing take the empty namespace for bytes that are no text. */
  function StoredUnder(ns: Namespace): string {
    if ns.Text? then ns.text else ""
  }

  /** Removing takes the replacement characters. */
  function RemovedUnder(ns: Namespace): string {
    if ns.Text? then ns.text else ns.lossy
  }

  lemma {:induction false} PieceWith(path: string, x: char) returns (piece: string)
    requires x in path && x != '/'
    ensures piece in Pieces(path) && x in piece
  {
    var i := FirstSlash(path);
    if i == |path| || x in path[..i] {
      piece := if i == |path| then path else path[..i];
      assert Pieces(path)[0] == piece;
    } else {
      var j :| 0 <= j < |path| && path[j] == x;
      assert forall m :: 0 <= m < i ==> path[m] == path[..i][m] && path[m] in path[..i];
      assert path[i + 1..][j - i - 1] == x;
      piece := PieceWith(path[i + 1..], x);
      assert Pieces(path) == [path[..i]] + Pieces(path[i + 1..]);
    }
  }

  lemma {:induction false} StepsKeep(pieces: seq<string>, piece: string)
    requires piece in pieces && piece != "" && piece != "."
    ensures piece in Steps(pieces)
  {
    if pieces[0] != piece {
      assert piece in pieces[1..];
      StepsKeep(pieces[1..], piece);
    }
  }

  lemma LossyLeadsSomewhere(lossy: string)
    requires REPLACEMENT in lossy && Resolve(lossy).Some?
    ensures Resolve(lossy).value != []
  {
    var piece := PieceWith(lossy, REPLACEMENT);
    assert piece != "." by { assert REPLACEMENT !in "."; }
    StepsKeep(Pieces(lossy), piece);
  }

  /** A removal looks for the file where it was put exactly if the namespace is text. */
  lemma RemovesWhatWasPutIff(levels: seq<nat>, key: string, ns: Namespace)
    requires Plain(key) && LossyMarked(ns)
    ensures FilePath(levels, key, RemovedUnder(ns)) == FilePath(levels, key, StoredUnder(ns)) <==> ns.Text?
  {
    NameResolves("");
    PlainKeyPath(levels, key, RemovedUnder(ns));
    PlainKeyPath(levels, key, StoredUnder(ns));
    if ns.Undecodable? && Resolve(ns.lossy).Some? {
      LossyLeadsSomewhere(ns.lossy);
      SharesFileIff(levels, key, ns.lossy, key, "");
    }
  }

  /** The file is the namespace's directory entry or lies below it. */
  predicate Under(levels: seq<nat>, ns: string, p: Path) {
    (levels == [] || p.key != "") && Resolve(ns).Some? && Resolve(ns).value <= Components(levels, p)
  }

  // ---- the cache as a value -------------------------------------------------------------

  datatype Settings = Settings(
    memory: bool, maxWeight: nat, maxSize: nat, readingMax: nat, writingMax: nat, levels: seq<nat>)

  datatype Store = Store(disk: Disk, hot: map<string, Object>, size: nat)

  predicate OverQuota(max: nat, count: nat) {
    max > 0 && count >= max
  }

  /** The memory layer answers first; a file that does not decode is a miss. */
  function Answer(cfg: Settings, s: Store, p: Path, count: nat): Option<Object> {
    if cfg.memory && p.key in s.hot then Some(s.hot[p.key])
    else if OverQuota(cfg.readingMax, count) || p !in s.disk then None
    else
      var o := Decode(s.disk[p].bytes);
      if o.Ok? then Some(o.value) else None
  }

  /** Reading moves a file into the memory layer and stamps it, or removes it if it is corrupt. */
  function AfterGet(cfg: Settings, s: Store, p: Path, count: nat, stamp: nat): Store {
    if (cfg.memory && p.key in s.hot) || OverQuota(cfg.readingMax, count) || p !in s.disk then s
    else
      var f := s.disk[p];
      var o := Decode(f.bytes);
      if o.Err? then Store(s.disk - {p}, s.hot, WrapSub(s.size, |f.bytes|))
      else Store(s.disk[p := f.(accessed := stamp)], if cfg.memory then s.hot[p.key := o.value] else s.hot, s.size)
  }

  predicate PutsHot(cfg: Settings, data: Object) {
    cfg.memory && Weight(data) < cfg.maxWeight
  }

  function NetAdd(disk: Disk, p: Path, data: Object): nat {
    SatSub(|Encode(data)|, Len(disk, p))
  }

  /** The evictions before a write. */
  ghost function RoomFor(cfg: Settings, walk: seq<Path>, s: Store, p: Path, data: Object): Eviction {
    if cfg.maxSize == 0 then Eviction(s.disk, s.size, [])
    else Evict(s.disk, walk, s.size, NetAdd(s.disk, p, data), cfg.maxSize, MAX_EVICT)
  }

  ghost function AfterPut(
      cfg: Settings, walk: seq<Path>, s: Store, p: Path, data: Object, count: nat, stamp: nat): Store
  {
    var hot := if PutsHot(cfg, data) then s.hot[p.key := data] else s.hot;
    if OverQuota(cfg.writingMax, count) then s.(hot := hot)
    else
      var e := RoomFor(cfg, walk, s, p, data);
      Store(e.disk[p := File(Encode(data), stamp)], hot,
            SatAdd(SatSub(e.size, Len(s.disk, p)), |Encode(data)|))
  }

  function AfterRemove(cfg: Settings, s: Store, p: Path): Store {
    var hot := if cfg.memory then s.hot - {p.key} else s.hot;
    if p in s.disk then Store(s.disk - {p}, hot, WrapSub(s.size, |s.disk[p].bytes|)) else s.(hot := hot)
  }

  /** Taking files away one by one, each with its own subtraction from the counter. */
  ghost function Deleted(s: Store, gone: set<Path>, hot: map<string, Object>): Store {
    Store(s.disk - gone, hot, (s.size - (Total(s.disk) - Total(s.disk - gone))) % U64)
  }

  function Stale(disk: Disk, before: nat): set<Path> {
    set p | p in disk && disk[p].accessed <= before
  }

  ghost function AfterClear(s: Store, before: nat): Store {
    Deleted(s, Stale(s.disk, before), s.hot)
  }

  predicate BadNamespace(ns: string) {
    ns == "" || '/' in ns || '\\' in ns || exists i :: 0 <= i < |ns| - 1 && ns[i] == '.' && ns[i + 1] == '.'
  }

  function Purged(cfg: Settings, disk: Disk, ns: string): set<Path> {
    set p | p in disk && Under(cfg.levels, ns, p) && !Temporary(p)
  }

  /**
   * How far a purge reaches: `.` takes everything; any other accepted namespace what has it as its
   * first directory, nested namespaces and level directories of the root included.
   */
  lemma PurgeReachesIff(cfg: Settings, disk: Disk, ns: string, p: Path)
    requires !BadNamespace(ns) && p in disk && (cfg.levels == [] || p.key != "")
    ensures p in Purged(cfg, disk, ns) <==>
            !Temporary(p) && (ns == "." || (if p.ns != [] then p.ns else Below(cfg.levels, p.key))[0] == ns)
  {
    NameResolves(ns);
  }

  function PurgedNames(gone: set<Path>): set<string> {
    set p | p in gone :: p.key
  }

  ghost function AfterPurge(cfg: Settings, s: Store, ns: string): Store {
    if BadNamespace(ns) then s
    else
      var gone := Purged(cfg, s.disk, ns);
      Deleted(s, gone, if cfg.memory then s.hot - PurgedNames(gone) else s.hot)
  }

  // ---- accounting -----------------------------------------------------------------------

  ghost predicate ExactStore(s: Store) {
    Exact(s.disk, s.size)
  }

  lemma GetExact(cfg: Settings, s: Store, p: Path, count: nat, stamp: nat)
    requires ExactStore(s)
    ensures ExactStore(AfterGet(cfg, s, p, count, stamp))
  {
    if p in s.disk {
      ExactWithout(s.disk, s.size, p);
      TotalWith(s.disk, p, s.disk[p].(accessed := stamp));
    }
  }

  lemma RemoveExact(cfg: Settings, s: Store, p: Path)
    requires ExactStore(s)
    ensures ExactStore(AfterRemove(cfg, s, p))
  {
    if p in s.disk { ExactWithout(s.disk, s.size, p); }
  }

  lemma {:induction false} TotalLess(disk: Disk, gone: set<Path>)
    ensures Total(disk - gone) <= Total(disk)
    decreases |gone|
  {
    if p :| p in gone {
      TotalLess(disk, gone - {p});
      if p in disk {
        TotalWithout(disk - (gone - {p}), p);
        assert disk - (gone - {p}) - {p} == disk - gone;
      } else {
        assert disk - (gone - {p}) == disk - gone;
      }
    } else {
      assert disk - gone == disk;
    }
  }

  lemma DeletedExact(s: Store, gone: set<Path>, hot: map<string, Object>)
    requires ExactStore(s)
    ensures ExactStore(Deleted(s, gone, hot))
  {
    TotalLess(s.disk, gone);
  }

  /** The file about to be overwritten was evicted to make room for its successor. */
  ghost predicate EvictsTarget(cfg: Settings, walk: seq<Path>, s: Store, p: Path, data: Object) {
    p in s.disk && p !in RoomFor(cfg, walk, s, p, data).disk
  }

  lemma RoomExact(cfg: Settings, walk: seq<Path>, s: Store, p: Path, data: Object)
    requires ExactStore(s) && Walks(walk, s.disk)
    ensures var e := RoomFor(cfg, walk, s, p, data);
            && Exact(e.disk, e.size) && e.size <= s.size
            && (forall q :: q in e.disk ==> q in s.disk && e.disk[q] == s.disk[q])
  {
    if cfg.maxSize != 0 {
      EvictExact(s.disk, walk, s.size, NetAdd(s.disk, p, data), cfg.maxSize, MAX_EVICT);
      EvictIsOldestPrefix(s.disk, walk, s.size, NetAdd(s.disk, p, data), cfg.maxSize, MAX_EVICT);
    }
  }

  /** How far the counter falls short after a write. */
  ghost function Shortfall(cfg: Settings, walk: seq<Path>, s: Store, p: Path, data: Object): nat {
    var e := RoomFor(cfg, walk, s, p, data);
    if !EvictsTarget(cfg, walk, s, p, data) then 0
    else if Total(e.disk) < Len(s.disk, p) then Total(e.disk) else Len(s.disk, p)
  }

  lemma PutShortfall(cfg: Settings, walk: seq<Path>, s: Store, p: Path, data: Object, count: nat, stamp: nat)
    requires ExactStore(s) && Walks(walk, s.disk) && !OverQuota(cfg.writingMax, count)
    requires Total(s.disk) + |Encode(data)| < U64
    ensures var after := AfterPut(cfg, walk, s, p, data, count, stamp);
            after.size + Shortfall(cfg, walk, s, p, data) == Total(after.disk) < U64
  {
    var e := RoomFor(cfg, walk, s, p, data);
    RoomExact(cfg, walk, s, p, data);
    TotalWith(e.disk, p, File(Encode(data), stamp));
    if p in e.disk { TotalWithout(e.disk, p); }
  }

  /** A write keeps the count exact unless it evicts a non-empty file it replaces while others remain. */
  lemma PutExactIff(cfg: Settings, walk: seq<Path>, s: Store, p: Path, data: Object, count: nat, stamp: nat)
    requires ExactStore(s) && Walks(walk, s.disk) && Total(s.disk) + |Encode(data)| < U64
    ensures ExactStore(AfterPut(cfg, walk, s, p, data, count, stamp)) <==>
            || OverQuota(cfg.writingMax, count)
            || !EvictsTarget(cfg, walk, s, p, data)
            || Len(s.disk, p) == 0
            || Total(RoomFor(cfg, walk, s, p, data).disk) == 0
  {
    if !OverQuota(cfg.writingMax, count) { PutShortfall(cfg, walk, s, p, data, count, stamp); }
  }

  /** If room was made without touching the file that is replaced, the budget is kept. */
  lemma PutWithinBudget(cfg: Settings, walk: seq<Path>, s: Store, p: Path, data: Object, count: nat, stamp: nat)
    requires ExactStore(s) && Walks(walk, s.disk) && Total(s.disk) + |Encode(data)| < U64 && 0 < cfg.maxSize
    requires !OverQuota(cfg.writingMax, count) && !EvictsTarget(cfg, walk, s, p, data)
    requires SatAdd(RoomFor(cfg, walk, s, p, data).size, NetAdd(s.disk, p, data)) <= cfg.maxSize
    ensures Total(AfterPut(cfg, walk, s, p, data, count, stamp).disk) <= cfg.maxSize
  {
    var e := RoomFor(cfg, walk, s, p, data);
    RoomExact(cfg, walk, s, p, data);
    PutShortfall(cfg, walk, s, p, data, count, stamp);
    TotalWith(e.disk, p, File(Encode(data), stamp));
  }

  /** Nothing is evicted that need not be: what goes is the shortest prefix that makes room, at most 64 files. */
  lemma RoomIsMinimal(cfg: Settings, walk: seq<Path>, s: Store, p: Path, data: Object)
    requires ExactStore(s) && Walks(walk, s.disk) && cfg.maxSize > 0
    ensures var e, need := RoomFor(cfg, walk, s, p, data), NetAdd(s.disk, p, data);
            && OldestPrefix(s.disk, walk, e.evicted) && e.disk == s.disk - Gone(walk, e.evicted)
            && |e.evicted| <= MAX_EVICT
            && (|| SatAdd(Total(e.disk), need) <= cfg.maxSize
                || |e.evicted| == MAX_EVICT
                || forall q :: !Evictable(e.disk, q))
            && (forall k :: 0 <= k < |e.evicted| ==>
                  SatAdd(Total(s.disk - Gone(walk, e.evicted[..k])), need) > cfg.maxSize)
  {
    var need := NetAdd(s.disk, p, data);
    EvictIsOldestPrefix(s.disk, walk, s.size, need, cfg.maxSize, MAX_EVICT);
    EvictExact(s.disk, walk, s.size, need, cfg.maxSize, MAX_EVICT);
    var e := Evict(s.disk, walk, s.size, need, cfg.maxSize, MAX_EVICT).evicted;
    forall k | 0 <= k < |e| ensures SatAdd(Total(s.disk - Gone(walk, e[..k])), need) > cfg.maxSize {
      EvictMinimal(s.disk, walk, s.size, need, cfg.maxSize, MAX_EVICT, k);
    }
  }

  // ---- the count can fall short ---------------------------------------------------------

  const OLD := Path(["n"], "a")
  const OTHER := Path(["n"], "b")
  const TIGHT := Settings(false, 0, 16, 0, 0, [])

  function Zeros(n: nat): (b: Bytes)
    ensures |b| == n
  {
    seq(n, i => 0)
  }

  function TwoFiles(): Store {
    Store(map[OLD := File(Zeros(10), 1), OTHER := File(Zeros(5), 2)], map[], 15)
  }

  /** Replacing the oldest file of a nearly full cache: the count falls short and the budget is exceeded. */
  lemma CountCanFallShort()
    ensures var data := Object([], [], Zeros(4));
            var after := AfterPut(TIGHT, [OLD, OTHER], TwoFiles(), OLD, data, 0, 3);
            ExactStore(TwoFiles()) && after.size == 12 && Total(after.disk) == 17 > TIGHT.maxSize
  {
    var data, s, walk := Object([], [], Zeros(4)), TwoFiles(), [OLD, OTHER];
    assert OLD != OTHER && |OLD.key| == 1 && |OTHER.key| == 1;
    var one := s.disk - {OLD};
    TotalWithout(s.disk, OLD);
    TotalWithout(one, OTHER);
    assert one - {OTHER} == map[];
    assert |Encode(data)| == 12;
    assert Oldest(s.disk, walk, 2, Some(0));
    OldestUnique(s.disk, walk, OldestOf(s.disk, walk), Some(0));
    assert NetAdd(s.disk, OLD, data) == 2 && WrapSub(15, 10) == 5;
    assert Evict(one, walk, 5, 2, 16, 63) == Eviction(one, 5, []);
    assert RoomFor(TIGHT, walk, s, OLD, data) == Eviction(one, 5, [0]);
    TotalWith(one, OLD, File(Encode(data), 3));
  }
}
