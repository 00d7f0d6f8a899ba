/** The disk side of the file cache: what it holds, how much, and what is evicted to make room. */
module CacheEviction {
  import opened Toml
  import opened CacheObject

  /** A cache file, named by the directories its namespace leads to and its key. */
  datatype Path = Path(ns: seq<string>, key: string)

  datatype File = File(bytes: Bytes, accessed: nat)

  type Disk = map<Path, File>

  /** The file name has the extension `tmp`: a write in progress. */
  predicate Temporary(p: Path) {
    |p.key| > 4 && p.key[|p.key| - 4..] == ".tmp"
  }

  predicate Evictable(disk: Disk, p: Path) {
    p in disk && !Temporary(p)
  }

  function Len(disk: Disk, p: Path): nat {
    if p in disk then |disk[p].bytes| else 0
  }

  // ---- how much is on disk --------------------------------------------------------------

  /** The total length of all files. */
  ghost function Total(disk: Disk): nat
    decreases |disk.Keys|
  {
    if disk == map[] then 0
    else
      var p :| p in disk;
      assert (disk - {p}).Keys == disk.Keys - {p};
      |disk[p].bytes| + Total(disk - {p})
  }

  /** Whichever file is counted first. */
  lemma {:induction false} TotalWithout(disk: Disk, p: Path)
    requires p in disk
    ensures Total(disk) == |disk[p].bytes| + Total(disk - {p})
    decreases |disk.Keys|
  {
    var q :| q in disk && Total(disk) == |disk[q].bytes| + Total(disk - {q});
    if q != p {
      assert (disk - {q}).Keys == disk.Keys - {q} && (disk - {p}).Keys == disk.Keys - {p};
      TotalWithout(disk - {q}, p);
      TotalWithout(disk - {p}, q);
      assert disk - {q} - {p} == disk - {p} - {q};
    }
  }

  lemma TotalWith(disk: Disk, p: Path, f: File)
    ensures Total(disk[p := f]) + Len(disk, p) == Total(disk) + |f.bytes|
  {
    TotalWithout(disk[p := f], p);
    assert disk[p := f] - {p} == disk - {p};
    if p in disk { TotalWithout(disk, p); } else { assert disk - {p} == disk; }
  }

  // ---- the oldest file ------------------------------------------------------------------

  /** The walk visits every file once. */
  ghost predicate Walks(walk: seq<Path>, disk: Disk) {
    Distinct(walk) && forall p :: p in disk ==> p in walk
  }

  /** Older, or as old and visited earlier. */
  predicate Before(disk: Disk, walk: seq<Path>, i: nat, j: nat)
    requires i < |walk| && j < |walk| && walk[i] in disk && walk[j] in disk
  {
    var a, b := disk[walk[i]].accessed, disk[walk[j]].accessed;
    a < b || (a == b && i < j)
  }

  /** The evictable file that comes before all others among the first `n` of the walk. */
  ghost predicate Oldest(disk: Disk, walk: seq<Path>, n: nat, r: Option<nat>) {
    && n <= |walk|
    && (r.None? <==> forall j :: 0 <= j < n ==> !Evictable(disk, walk[j]))
    && (r.Some? ==>
          && r.value < n && Evictable(disk, walk[r.value])
          && forall j :: 0 <= j < n && j != r.value && Evictable(disk, walk[j]) ==> Before(disk, walk, r.value, j))
  }

  /** One pass over the directory keeps the first file with the smallest access time. */
  method FindOldest(disk: Disk, walk: seq<Path>) returns (r: Option<nat>)
    ensures Oldest(disk, walk, |walk|, r)
  {
    r := None;
    for i := 0 to |walk|
      invariant Oldest(disk, walk, i, r)
    {
      if walk[i] in disk && !Temporary(walk[i]) {
        if r.None? || disk[walk[i]].accessed < disk[walk[r.value]].accessed {
          r := Some(i);
        }
      }
    }
  }

  lemma OldestUnique(disk: Disk, walk: seq<Path>, r: Option<nat>, r': Option<nat>)
    requires Oldest(disk, walk, |walk|, r) && Oldest(disk, walk, |walk|, r')
    ensures r == r'
  {}

  lemma {:induction false} OldestExists(disk: Disk, walk: seq<Path>, n: nat)
    requires n <= |walk|
    ensures exists r :: Oldest(disk, walk, n, r)
  {
    if n == 0 {
      assert Oldest(disk, walk, 0, None);
    } else {
      OldestExists(disk, walk, n - 1);
      var r :| Oldest(disk, walk, n - 1, r);
      if !Evictable(disk, walk[n - 1]) {
        assert Oldest(disk, walk, n, r);
      } else if r.None? || Before(disk, walk, n - 1, r.value) {
        assert Oldest(disk, walk, n, Some(n - 1));
      } else {
        assert Oldest(disk, walk, n, r);
      }
    }
  }

  ghost function OldestOf(disk: Disk, walk: seq<Path>): (r: Option<nat>)
    ensures Oldest(disk, walk, |walk|, r)
  {
    OldestExists(disk, walk, |walk|);
    var r :| Oldest(disk, walk, |walk|, r);
    r
  }

  // ---- making room ----------------------------------------------------------------------

  const U64: nat := 0x1_0000_0000_0000_0000
  const MAX_EVICT: nat := 64

  function SatAdd(a: nat, b: nat): nat {
    if a + b < U64 then a + b else U64 - 1
  }

  function SatSub(a: nat, b: nat): nat {
    if a < b then 0 else a - b
  }

  /** The counter after an atomic subtraction, which wraps around. */
  function WrapSub(a: nat, b: nat): nat {
    (a - b) % U64
  }

  /** The files that are left, the counter, and the evicted files as positions of the walk, in order. */
  datatype Eviction = Eviction(disk: Disk, size: nat, evicted: seq<nat>)

  /** Evicts the oldest file until there is room, nothing is left, or `n` files are gone. */
  ghost function Evict(disk: Disk, walk: seq<Path>, size: nat, need: nat, max: nat, n: nat): Eviction
    decreases n
  {
    var oldest := OldestOf(disk, walk);
    if n == 0 || SatAdd(size, need) <= max || oldest.None? then Eviction(disk, size, [])
    else
      var p := walk[oldest.value];
      var e := Evict(disk - {p}, walk, WrapSub(size, |disk[p].bytes|), need, max, n - 1);
      Eviction(e.disk, e.size, [oldest.value] + e.evicted)
  }

  function Gone(walk: seq<Path>, evicted: seq<nat>): set<Path> {
    set i | i in evicted && i < |walk| :: walk[i]
  }

  /** What is evicted is a prefix of the order by access time, ties by walk order. */
  ghost predicate OldestPrefix(disk: Disk, walk: seq<Path>, evicted: seq<nat>) {
    && (forall a :: 0 <= a < |evicted| ==> evicted[a] < |walk| && Evictable(disk, walk[evicted[a]]))
    && (forall a, b :: 0 <= a < b < |evicted| ==> Before(disk, walk, evicted[a], evicted[b]))
    && (forall a, j :: 0 <= a < |evicted| && 0 <= j < |walk| && j !in evicted && Evictable(disk, walk[j]) ==>
          Before(disk, walk, evicted[a], j))
  }

  lemma WithoutCons(disk: Disk, walk: seq<Path>, i: nat, rest: seq<nat>)
    requires i < |walk|
    ensures disk - Gone(walk, [i] + rest) == disk - {walk[i]} - Gone(walk, rest)
  {
    assert Gone(walk, [i] + rest) == {walk[i]} + Gone(walk, rest) by {
      assert i in [i] + rest;
      assert forall j <- rest :: j in [i] + rest;
    }
  }

  lemma WithoutNone(disk: Disk, walk: seq<Path>)
    ensures disk - Gone(walk, []) == disk
  {}

  lemma {:induction false} EvictIsOldestPrefix(disk: Disk, walk: seq<Path>, size: nat, need: nat, max: nat, n: nat)
    requires Walks(walk, disk)
    ensures var e := Evict(disk, walk, size, need, max, n);
            OldestPrefix(disk, walk, e.evicted) && e.disk == disk - Gone(walk, e.evicted) && |e.evicted| <= n
    decreases n
  {
    var oldest := OldestOf(disk, walk);
    if n != 0 && SatAdd(size, need) > max && oldest.Some? {
      var p, less := walk[oldest.value], WrapSub(size, |disk[walk[oldest.value]].bytes|);
      EvictIsOldestPrefix(disk - {p}, walk, less, need, max, n - 1);
      var rest := Evict(disk - {p}, walk, less, need, max, n - 1).evicted;
      WithoutCons(disk, walk, oldest.value, rest);
      PrefixCons(disk, walk, oldest.value, rest);
    } else {
      WithoutNone(disk, walk);
    }
  }

  lemma OthersEvictable(disk: Disk, walk: seq<Path>, i: nat, j: nat)
    requires Distinct(walk) && i < |walk| && j < |walk|
    ensures Evictable(disk - {walk[i]}, walk[j]) <==> j != i && Evictable(disk, walk[j])
  {
    assert i < j ==> walk[i] != walk[j];
    assert j < i ==> walk[j] != walk[i];
  }

  lemma BeforeOthers(disk: Disk, walk: seq<Path>, i: nat, j: nat)
    requires Oldest(disk, walk, |walk|, Some(i)) && j < |walk| && j != i && Evictable(disk, walk[j])
    ensures Before(disk, walk, i, j)
  {}

  lemma PrefixCons(disk: Disk, walk: seq<Path>, i: nat, rest: seq<nat>)
    requires Walks(walk, disk) && Oldest(disk, walk, |walk|, Some(i)) && OldestPrefix(disk - {walk[i]}, walk, rest)
    ensures OldestPrefix(disk, walk, [i] + rest)
  {
    var e, less := [i] + rest, disk - {walk[i]};
    forall a | 0 <= a < |rest| ensures rest[a] < |walk| && rest[a] != i && Evictable(disk, walk[rest[a]]) {
      OthersEvictable(disk, walk, i, rest[a]);
    }
    forall a | 0 <= a < |e| ensures e[a] < |walk| && Evictable(disk, walk[e[a]]) {}
    forall a, b | 0 <= a < b < |e| ensures Before(disk, walk, e[a], e[b]) {
      if a > 0 {
        assert Before(less, walk, rest[a - 1], rest[b - 1]);
      } else {
        BeforeOthers(disk, walk, i, rest[b - 1]);
      }
    }
    forall a, j | 0 <= a < |e| && 0 <= j < |walk| && j !in e && Evictable(disk, walk[j])
      ensures Before(disk, walk, e[a], j)
    {
      PrefixRest(disk, walk, i, rest, a, j);
    }
  }

  lemma PrefixRest(disk: Disk, walk: seq<Path>, i: nat, rest: seq<nat>, a: nat, j: nat)
    requires Walks(walk, disk) && Oldest(disk, walk, |walk|, Some(i)) && OldestPrefix(disk - {walk[i]}, walk, rest)
    requires a <= |rest| && j < |walk| && j != i && j !in rest && Evictable(disk, walk[j])
    requires a > 0 ==> rest[a - 1] < |walk| && Evictable(disk, walk[rest[a - 1]])
    ensures Before(disk, walk, if a == 0 then i else rest[a - 1], j)
  {
    if a == 0 {
      BeforeOthers(disk, walk, i, j);
    } else {
      OthersEvictable(disk, walk, i, j);
      assert Before(disk - {walk[i]}, walk, rest[a - 1], j);
    }
  }

  /** The counter equals the total, which fits. */
  ghost predicate Exact(disk: Disk, size: nat) {
    size == Total(disk) < U64
  }

  lemma ExactWithout(disk: Disk, size: nat, p: Path)
    requires Exact(disk, size) && p in disk
    ensures Exact(disk - {p}, WrapSub(size, |disk[p].bytes|))
    ensures WrapSub(size, |disk[p].bytes|) == size - |disk[p].bytes|
  {
    TotalWithout(disk, p);
  }

  /** Eviction keeps the count exact, and stops no sooner and no later than it must. */
  lemma {:induction false} EvictExact(disk: Disk, walk: seq<Path>, size: nat, need: nat, max: nat, n: nat)
    requires Walks(walk, disk) && Exact(disk, size)
    ensures var e := Evict(disk, walk, size, need, max, n);
            && Exact(e.disk, e.size)
            && e.size <= size
            && (SatAdd(e.size, need) <= max || |e.evicted| == n || forall p :: !Evictable(e.disk, p))
    decreases n
  {
    var oldest := OldestOf(disk, walk);
    if n != 0 && SatAdd(size, need) > max && oldest.Some? {
      var p := walk[oldest.value];
      ExactWithout(disk, size, p);
      EvictExact(disk - {p}, walk, WrapSub(size, |disk[p].bytes|), need, max, n - 1);
    } else if oldest.None? {
      forall p ensures !Evictable(disk, p) {
        if p in walk {
          var i :| 0 <= i < |walk| && walk[i] == p;
        }
      }
    }
  }

  /** Evicting fewer files would not have made room. */
  lemma {:induction false} EvictMinimal(disk: Disk, walk: seq<Path>, size: nat, need: nat, max: nat, n: nat, k: nat)
    requires Walks(walk, disk) && Exact(disk, size) && k < |Evict(disk, walk, size, need, max, n).evicted|
    ensures SatAdd(Total(disk - Gone(walk, Evict(disk, walk, size, need, max, n).evicted[..k])), need) > max
    decreases n
  {
    var e := Evict(disk, walk, size, need, max, n).evicted;
    if k == 0 {
      assert e[..0] == [];
      WithoutNone(disk, walk);
    } else {
      var i := OldestOf(disk, walk).value;
      var p, less := walk[i], WrapSub(size, |disk[walk[i]].bytes|);
      var rest := Evict(disk - {p}, walk, less, need, max, n - 1).evicted;
      ExactWithout(disk, size, p);
      EvictMinimal(disk - {p}, walk, less, need, max, n - 1, k - 1);
      assert e[..k] == [i] + rest[..k - 1];
      WithoutCons(disk, walk, i, rest[..k - 1]);
    }
  }
}
