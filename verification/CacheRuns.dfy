/** What the file cache serves over whole runs. */
module CacheRuns {
  import opened Toml
  import opened CacheObject
  import opened CacheEviction
  import opened FileCache

  /** One step: an operation, or the memory layer forgetting all but some keys. */
  datatype Op =
    | Put(p: Path, data: Object, walk: seq<Path>, count: nat, stamp: nat)
    | Get(p: Path, count: nat, stamp: nat)
    | Remove(p: Path)
    | Clear(before: nat)
    | Purge(ns: string)
    | Forget(kept: set<string>)

  function Remembered(hot: map<string, Object>, kept: set<string>): map<string, Object> {
    map k | k in hot && k in kept :: hot[k]
  }

  ghost function Next(cfg: Settings, s: Store, op: Op): Store {
    match op
    case Put(p, data, walk, count, stamp) => AfterPut(cfg, walk, s, p, data, count, stamp)
    case Get(p, count, stamp) => AfterGet(cfg, s, p, count, stamp)
    case Remove(p) => AfterRemove(cfg, s, p)
    case Clear(before) => AfterClear(s, before)
    case Purge(ns) => AfterPurge(cfg, s, ns)
    case Forget(kept) => s.(hot := Remembered(s.hot, kept))
  }

  ghost function Run(cfg: Settings, s: Store, ops: seq<Op>): Store
    decreases |ops|
  {
    if ops == [] then s else Run(cfg, Next(cfg, s, ops[0]), ops[1..])
  }

  // ---- coherence ------------------------------------------------------------------------

  /** The last value put under each key, unless the key was removed since. */
  function Recorded(last: map<string, Object>, op: Op): map<string, Object> {
    match op
    case Put(p, data, _, _, _) => last[p.key := data]
    case Remove(p) => last - {p.key}
    case _ => last
  }

  function Record(last: map<string, Object>, ops: seq<Op>): map<string, Object>
    decreases |ops|
  {
    if ops == [] then last else Record(Recorded(last, ops[0]), ops[1..])
  }

  /** Where the namespace a key belongs to leads. */
  type Owner = string -> seq<string>

  predicate HotCoherent(hot: map<string, Object>, last: map<string, Object>) {
    forall k <- hot :: k in last && hot[k] == last[k]
  }

  predicate DiskCoherent(disk: Disk, last: map<string, Object>, owner: Owner) {
    forall p <- disk :: p.ns == owner(p.key) && p.key in last && Decode(disk[p].bytes) == Ok(last[p.key])
  }

  /** Both layers hold nothing but last values. */
  predicate Coherent(s: Store, last: map<string, Object>, owner: Owner) {
    HotCoherent(s.hot, last) && DiskCoherent(s.disk, last, owner)
  }

  predicate Fits(data: Object) {
    |data.meta0| < U32 && |data.meta1| < U32
  }

  /** The operation names its key's own namespace. */
  predicate Owned(op: Op, owner: Owner) {
    match op
    case Put(p, data, _, _, _) => p.ns == owner(p.key) && Fits(data)
    case Get(p, _, _) => p.ns == owner(p.key)
    case Remove(p) => p.ns == owner(p.key)
    case _ => true
  }

  /** A write leaves no older copy behind: in memory if it is heavy, on disk if it is over quota. */
  predicate LeavesNoOldCopy(cfg: Settings, s: Store, op: Op) {
    op.Put? ==>
      && (PutsHot(cfg, op.data) || op.p.key !in s.hot || s.hot[op.p.key] == op.data)
      && (!OverQuota(cfg.writingMax, op.count) || op.p !in s.disk || Decode(s.disk[op.p].bytes) == Ok(op.data))
  }

  lemma EvictedDisk(cfg: Settings, walk: seq<Path>, s: Store, p: Path, data: Object)
    requires Walks(walk, s.disk)
    ensures forall q :: q in RoomFor(cfg, walk, s, p, data).disk ==>
              q in s.disk && RoomFor(cfg, walk, s, p, data).disk[q] == s.disk[q]
  {
    if cfg.maxSize != 0 {
      EvictIsOldestPrefix(s.disk, walk, s.size, NetAdd(s.disk, p, data), cfg.maxSize, MAX_EVICT);
    }
  }

  /** A write keeps both layers coherent exactly when it leaves no older copy behind. */
  lemma PutCoherentIff(cfg: Settings, s: Store, last: map<string, Object>, owner: Owner, op: Op)
    requires op.Put? && Owned(op, owner) && Walks(op.walk, s.disk) && Coherent(s, last, owner)
    ensures Coherent(Next(cfg, s, op), Recorded(last, op), owner) <==> LeavesNoOldCopy(cfg, s, op)
  {
    EvictedDisk(cfg, op.walk, s, op.p, op.data);
    RoundTripIff(op.data);
    HotAfterPutIff(cfg, s, last, op);
    var after := Next(cfg, s, op);
    var e := RoomFor(cfg, op.walk, s, op.p, op.data).disk;
    DiskAfterWrite(e, s.disk, last, owner, op.p, op.data, op.stamp);
    UnwrittenDiskIff(s.disk, last, owner, op.p, op.data);
  }

  lemma HotAfterPutIff(cfg: Settings, s: Store, last: map<string, Object>, op: Op)
    requires op.Put? && HotCoherent(s.hot, last)
    ensures var hot := if PutsHot(cfg, op.data) then s.hot[op.p.key := op.data] else s.hot;
            HotCoherent(hot, last[op.p.key := op.data]) <==>
            PutsHot(cfg, op.data) || op.p.key !in s.hot || s.hot[op.p.key] == op.data
  {}

  lemma DiskAfterWrite(e: Disk, disk: Disk, last: map<string, Object>, owner: Owner, p: Path, data: Object, stamp: nat)
    requires DiskCoherent(disk, last, owner) && p.ns == owner(p.key) && Decode(Encode(data)) == Ok(data)
    requires forall q :: q in e ==> q in disk && e[q] == disk[q]
    ensures DiskCoherent(e[p := File(Encode(data), stamp)], last[p.key := data], owner)
  {
    forall q | q in e && q.key == p.key ensures q == p {
      assert q == Path(owner(q.key), q.key) && p == Path(owner(p.key), p.key);
    }
  }

  lemma UnwrittenDiskIff(disk: Disk, last: map<string, Object>, owner: Owner, p: Path, data: Object)
    requires DiskCoherent(disk, last, owner) && p.ns == owner(p.key)
    ensures DiskCoherent(disk, last[p.key := data], owner) <==> p !in disk || Decode(disk[p].bytes) == Ok(data)
  {
    forall q | q in disk && q.key == p.key ensures q == p {
      assert q == Path(owner(q.key), q.key) && p == Path(owner(p.key), p.key);
    }
  }

  /** An operation on its key's own namespace that leaves no older copy behind. */
  ghost predicate Orderly(cfg: Settings, s: Store, op: Op, owner: Owner) {
    Owned(op, owner) && LeavesNoOldCopy(cfg, s, op) && (op.Put? ==> Walks(op.walk, s.disk))
  }

  ghost predicate OrderlyRun(cfg: Settings, s: Store, ops: seq<Op>, owner: Owner)
    decreases |ops|
  {
    ops == [] || (Orderly(cfg, s, ops[0], owner) && OrderlyRun(cfg, Next(cfg, s, ops[0]), ops[1..], owner))
  }

  /** Without the memory layer nothing is ever in it. */
  predicate HotUsed(cfg: Settings, s: Store) {
    cfg.memory || s.hot == map[]
  }

  lemma StepHotUsed(cfg: Settings, s: Store, op: Op)
    requires HotUsed(cfg, s)
    ensures HotUsed(cfg, Next(cfg, s, op))
  {}

  lemma StepCoherent(cfg: Settings, s: Store, last: map<string, Object>, owner: Owner, op: Op)
    requires Coherent(s, last, owner) && HotUsed(cfg, s) && Orderly(cfg, s, op, owner)
    ensures Coherent(Next(cfg, s, op), Recorded(last, op), owner)
  {
    match op
    case Put(_, _, _, _, _) => PutCoherentIff(cfg, s, last, owner, op);
    case Remove(p) => RemoveCoherent(cfg, s, last, owner, p);
    case _ =>
  }

  lemma RemoveCoherent(cfg: Settings, s: Store, last: map<string, Object>, owner: Owner, p: Path)
    requires Coherent(s, last, owner) && HotUsed(cfg, s) && p.ns == owner(p.key)
    ensures Coherent(AfterRemove(cfg, s, p), last - {p.key}, owner)
  {
    forall q | q in s.disk && q.key == p.key ensures q == p {
      assert q == Path(owner(q.key), q.key) && p == Path(owner(p.key), p.key);
    }
  }

  lemma {:induction false} RunCoherent(cfg: Settings, s: Store, last: map<string, Object>, owner: Owner, ops: seq<Op>)
    requires Coherent(s, last, owner) && HotUsed(cfg, s) && OrderlyRun(cfg, s, ops, owner)
    ensures Coherent(Run(cfg, s, ops), Record(last, ops), owner)
    decreases |ops|
  {
    if ops != [] {
      StepCoherent(cfg, s, last, owner, ops[0]);
      StepHotUsed(cfg, s, ops[0]);
      RunCoherent(cfg, Next(cfg, s, ops[0]), Recorded(last, ops[0]), owner, ops[1..]);
    }
  }

  /** After any orderly run a read is a miss or the last value put and not removed, whatever memory forgot. */
  lemma ServesLastPut(
      cfg: Settings, s: Store, last: map<string, Object>, owner: Owner, ops: seq<Op>, p: Path, count: nat)
    requires Coherent(s, last, owner) && HotUsed(cfg, s) && OrderlyRun(cfg, s, ops, owner)
    ensures var a, recorded := Answer(cfg, Run(cfg, s, ops), p, count), Record(last, ops);
            a.Some? ==> p.key in recorded && a.value == recorded[p.key]
  {
    RunCoherent(cfg, s, last, owner, ops);
  }

  lemma EmptyIsCoherent(owner: Owner)
    ensures Coherent(Store(map[], map[], 0), map[], owner)
  {}

  // ---- writes that are light and within quota -------------------------------------------

  /** What a caller can check of a run in advance. */
  predicate Light(cfg: Settings, op: Op) {
    op.Put? ==> (cfg.memory ==> Weight(op.data) < cfg.maxWeight) && !OverQuota(cfg.writingMax, op.count)
  }

  ghost predicate LightRun(cfg: Settings, s: Store, ops: seq<Op>, owner: Owner)
    decreases |ops|
  {
    ops == [] ||
    (Light(cfg, ops[0]) && Owned(ops[0], owner) && (ops[0].Put? ==> Walks(ops[0].walk, s.disk)) &&
     LightRun(cfg, Next(cfg, s, ops[0]), ops[1..], owner))
  }

  /** If no object is too heavy for memory and no write is over quota, every run is orderly. */
  lemma {:induction false} LightRunIsOrderly(cfg: Settings, s: Store, ops: seq<Op>, owner: Owner)
    requires HotUsed(cfg, s) && LightRun(cfg, s, ops, owner)
    ensures OrderlyRun(cfg, s, ops, owner)
    decreases |ops|
  {
    if ops != [] {
      StepHotUsed(cfg, s, ops[0]);
      LightRunIsOrderly(cfg, Next(cfg, s, ops[0]), ops[1..], owner);
    }
  }

  /** From an empty cache, whatever the run: a read is a miss or the last value put and not removed. */
  lemma LightRunServesLastPut(cfg: Settings, ops: seq<Op>, owner: Owner, p: Path, count: nat)
    requires LightRun(cfg, Store(map[], map[], 0), ops, owner)
    ensures var a, last := Answer(cfg, Run(cfg, Store(map[], map[], 0), ops), p, count), Record(map[], ops);
            a.Some? ==> p.key in last && a.value == last[p.key]
  {
    EmptyIsCoherent(owner);
    LightRunIsOrderly(cfg, Store(map[], map[], 0), ops, owner);
    ServesLastPut(cfg, Store(map[], map[], 0), map[], owner, ops, p, count);
  }

  const READ_ONLY_MEMORY := Settings(true, 1, 0, 0, 0, [])
  const KEY := Path(["n"], "a")

  /** A heavy write does not reach memory, but a read put the old value there: it is still served. */
  lemma HeavyWriteServesOld(a: Object, b: Object)
    requires Fits(a) && Fits(b)
    ensures var ops := [Put(KEY, a, [KEY], 0, 1), Get(KEY, 0, 2), Put(KEY, b, [KEY], 0, 3)];
            Answer(READ_ONLY_MEMORY, Run(READ_ONLY_MEMORY, Store(map[], map[], 0), ops), KEY, 0) == Some(a)
  {
    var cfg := READ_ONLY_MEMORY;
    var put, get, again := Put(KEY, a, [KEY], 0, 1), Get(KEY, 0, 2), Put(KEY, b, [KEY], 0, 3);
    var s1 := Next(cfg, Store(map[], map[], 0), put);
    var s2 := Next(cfg, s1, get);
    var s3 := Next(cfg, s2, again);
    RoundTripIff(a);
    assert KEY in s1.disk && s1.disk[KEY].bytes == Encode(a) && s1.hot == map[];
    assert KEY.key in s2.hot && s2.hot[KEY.key] == a;
    assert KEY.key in s3.hot && s3.hot[KEY.key] == a;
    ThreeSteps(cfg, Store(map[], map[], 0), put, get, again);
  }

  const BUSY := Settings(true, 2, 0, 0, 1, [])

  /** A write over quota reaches memory only: once memory forgets it, the old value is served again. */
  lemma OverQuotaServesOld(a: Object, b: Object)
    requires Fits(a)
    ensures var ops := [Put(KEY, a, [KEY], 0, 1), Put(KEY, b, [KEY], 1, 2), Forget({})];
            Answer(BUSY, Run(BUSY, Store(map[], map[], 0), ops), KEY, 0) == Some(a)
  {
    var put, again, forget := Put(KEY, a, [KEY], 0, 1), Put(KEY, b, [KEY], 1, 2), Forget({});
    var s1 := Next(BUSY, Store(map[], map[], 0), put);
    var s2 := Next(BUSY, s1, again);
    var s3 := Next(BUSY, s2, forget);
    RoundTripIff(a);
    assert KEY in s1.disk && s1.disk[KEY].bytes == Encode(a);
    assert s2.disk == s1.disk && s3.disk == s2.disk && s3.hot == map[];
    ThreeSteps(BUSY, Store(map[], map[], 0), put, again, forget);
  }

  lemma ThreeSteps(cfg: Settings, s: Store, a: Op, b: Op, c: Op)
    ensures Run(cfg, s, [a, b, c]) == Next(cfg, Next(cfg, Next(cfg, s, a), b), c)
  {
    var ops := [a, b, c];
    assert ops[1..] == [b, c] && [b, c][1..] == [c] && [c][1..] == [];
    var s2 := Next(cfg, Next(cfg, s, a), b);
    assert Run(cfg, s2, [c]) == Run(cfg, Next(cfg, s2, c), []);
  }

  /**
   * Memory goes by the key alone: a write that reaches it is served to every other namespace. One
   * that does not changes nothing there, except that it may evict.
   */
  lemma OtherNamespaceServed(cfg: Settings, s: Store, op: Op, q: Path, count: nat)
    requires op.Put? && q.key == op.p.key && q != op.p && Walks(op.walk, s.disk)
    ensures var was, now := Answer(cfg, s, q, count), Answer(cfg, Next(cfg, s, op), q, count);
            if PutsHot(cfg, op.data) then now == Some(op.data) else now == was || now == None
  {
    EvictedDisk(cfg, op.walk, s, op.p, op.data);
  }

  /** A removal that looks elsewhere: the object is served again, from its file. */
  lemma RemovedElsewhereServed(cfg: Settings, s: Store, put: Op, q: Path, count: nat)
    requires put.Put? && Fits(put.data) && q.key == put.p.key && q != put.p
    requires !OverQuota(cfg.writingMax, put.count) && !OverQuota(cfg.readingMax, count)
    ensures Answer(cfg, Next(cfg, Next(cfg, s, put), Remove(q)), put.p, count) == Some(put.data)
  {
    RoundTripIff(put.data);
    var stored := Next(cfg, s, put);
    assert put.p in stored.disk && stored.disk[put.p].bytes == Encode(put.data);
  }

  /** So it is with every namespace that is no text: what was put under it survives its removal. */
  lemma UndecodableSurvivesRemove(cfg: Settings, s: Store, ns: Namespace, key: string, put: Op, count: nat)
    requires ns.Undecodable? && LossyMarked(ns) && Resolve(RemovedUnder(ns)).Some?
    requires put.Put? && Fits(put.data) && Some(put.p.ns) == Resolve(StoredUnder(ns)) && put.p.key == key
    requires !OverQuota(cfg.writingMax, put.count) && !OverQuota(cfg.readingMax, count)
    ensures var remove := Remove(Path(Resolve(RemovedUnder(ns)).value, key));
            Answer(cfg, Next(cfg, Next(cfg, s, put), remove), put.p, count) == Some(put.data)
  {
    NameResolves("");
    LossyLeadsSomewhere(ns.lossy);
    RemovedElsewhereServed(cfg, s, put, Path(Resolve(RemovedUnder(ns)).value, key), count);
  }

  // ---- the count ------------------------------------------------------------------------

  /** A write that does not evict the file it replaces (or loses nothing by it). */
  ghost predicate Counted(cfg: Settings, s: Store, op: Op) {
    op.Put? ==>
      && Walks(op.walk, s.disk) && Total(s.disk) + |Encode(op.data)| < U64
      && (|| OverQuota(cfg.writingMax, op.count)
          || !EvictsTarget(cfg, op.walk, s, op.p, op.data)
          || Len(s.disk, op.p) == 0
          || Total(RoomFor(cfg, op.walk, s, op.p, op.data).disk) == 0)
  }

  ghost predicate CountedRun(cfg: Settings, s: Store, ops: seq<Op>)
    decreases |ops|
  {
    ops == [] || (Counted(cfg, s, ops[0]) && CountedRun(cfg, Next(cfg, s, ops[0]), ops[1..]))
  }

  lemma StepExact(cfg: Settings, s: Store, op: Op)
    requires ExactStore(s) && Counted(cfg, s, op)
    ensures ExactStore(Next(cfg, s, op))
  {
    match op
    case Put(p, data, walk, count, stamp) => PutExactIff(cfg, walk, s, p, data, count, stamp);
    case Get(p, count, stamp) => GetExact(cfg, s, p, count, stamp);
    case Remove(p) => RemoveExact(cfg, s, p);
    case Clear(before) => DeletedExact(s, Stale(s.disk, before), s.hot);
    case Purge(ns) =>
      var gone := Purged(cfg, s.disk, ns);
      DeletedExact(s, gone, if cfg.memory then s.hot - PurgedNames(gone) else s.hot);
    case Forget(_) =>
  }

  /** Over any run whose writes do not evict what they replace, the counter is the disk total. */
  lemma {:induction false} RunExact(cfg: Settings, s: Store, ops: seq<Op>)
    requires ExactStore(s) && CountedRun(cfg, s, ops)
    ensures ExactStore(Run(cfg, s, ops))
    decreases |ops|
  {
    if ops != [] {
      StepExact(cfg, s, ops[0]);
      RunExact(cfg, Next(cfg, s, ops[0]), ops[1..]);
    }
  }

  // ---- purging --------------------------------------------------------------------------

  /** What is in memory also has its file. */
  predicate HotBacked(s: Store, owner: Owner) {
    forall k <- s.hot :: Path(owner(k), k) in s.disk
  }

  /** No file goes but by removal or purge: nothing is evicted, cleared or skipped over quota. */
  ghost predicate KeepsFiles(cfg: Settings, s: Store, op: Op, owner: Owner) {
    && Owned(op, owner)
    && !op.Clear?
    && (op.Put? ==>
          && Walks(op.walk, s.disk) && !OverQuota(cfg.writingMax, op.count)
          && RoomFor(cfg, op.walk, s, op.p, op.data).disk == s.disk)
  }

  ghost predicate KeepingRun(cfg: Settings, s: Store, ops: seq<Op>, owner: Owner)
    decreases |ops|
  {
    ops == [] || (KeepsFiles(cfg, s, ops[0], owner) && KeepingRun(cfg, Next(cfg, s, ops[0]), ops[1..], owner))
  }

  lemma StepBacked(cfg: Settings, s: Store, op: Op, owner: Owner)
    requires HotBacked(s, owner) && HotUsed(cfg, s) && KeepsFiles(cfg, s, op, owner)
    ensures HotBacked(Next(cfg, s, op), owner)
  {
    match op
    case Purge(ns) =>
      var after, gone := Next(cfg, s, op), Purged(cfg, s.disk, ns);
      forall k | k in after.hot ensures Path(owner(k), k) in after.disk {
        assert Path(owner(k), k) in gone ==> k in PurgedNames(gone);
      }
    case Put(p, _, _, _, _) => assert p == Path(owner(p.key), p.key);
    case Get(p, _, _) => assert p == Path(owner(p.key), p.key);
    case Remove(p) => assert p == Path(owner(p.key), p.key);
    case _ =>
  }

  lemma {:induction false} RunBacked(cfg: Settings, s: Store, ops: seq<Op>, owner: Owner)
    requires HotBacked(s, owner) && HotUsed(cfg, s) && KeepingRun(cfg, s, ops, owner)
    ensures HotBacked(Run(cfg, s, ops), owner) && HotUsed(cfg, Run(cfg, s, ops))
    decreases |ops|
  {
    if ops != [] {
      StepBacked(cfg, s, ops[0], owner);
      StepHotUsed(cfg, s, ops[0]);
      RunBacked(cfg, Next(cfg, s, ops[0]), ops[1..], owner);
    }
  }

  /** What a purge leaves servable: exactly what memory holds without a file of that name to lead to it. */
  lemma PurgeServesIff(cfg: Settings, s: Store, ns: string, p: Path, count: nat)
    requires !BadNamespace(ns) && !Temporary(p) && Under(cfg.levels, ns, p)
    ensures Answer(cfg, AfterPurge(cfg, s, ns), p, count).Some? <==>
            cfg.memory && p.key in s.hot && p.key !in PurgedNames(Purged(cfg, s.disk, ns))
  {
    assert p in s.disk ==> p in Purged(cfg, s.disk, ns);
  }

  /** While no file has been evicted or cleared, a purge leaves nothing of its namespace servable. */
  lemma PurgeIsComplete(cfg: Settings, s: Store, ops: seq<Op>, owner: Owner, ns: string, key: string, count: nat)
    requires HotBacked(s, owner) && HotUsed(cfg, s) && KeepingRun(cfg, s, ops, owner)
    requires !BadNamespace(ns) && !Temporary(Path(owner(key), key)) && Under(cfg.levels, ns, Path(owner(key), key))
    ensures Answer(cfg, AfterPurge(cfg, Run(cfg, s, ops), ns), Path(owner(key), key), count) == None
  {
    var now, p := Run(cfg, s, ops), Path(owner(key), key);
    RunBacked(cfg, s, ops, owner);
    PurgeServesIff(cfg, now, ns, p, count);
    if key in now.hot {
      assert p in Purged(cfg, now.disk, ns);
    }
  }

  const NARROW := Settings(true, 2, 8, 0, 0, [])
  const EMPTY := Object([], [], [])

  /** The second write evicts the first file and leaves its copy in memory. */
  lemma SecondEvictsFirst() returns (s: Store)
    ensures var walk := [KEY, OTHER];
            var s1 := Next(NARROW, Store(map[], map[], 0), Put(KEY, EMPTY, walk, 0, 1));
            s == Next(NARROW, s1, Put(OTHER, EMPTY, walk, 0, 2))
    ensures s.disk.Keys == {OTHER} && "a" in s.hot && s.hot["a"] == EMPTY
  {
    var walk, s0 := [KEY, OTHER], Store(map[], map[], 0);
    var s1 := Next(NARROW, s0, Put(KEY, EMPTY, walk, 0, 1));
    s := Next(NARROW, s1, Put(OTHER, EMPTY, walk, 0, 2));
    assert KEY != OTHER && |KEY.key| == 1 && |Encode(EMPTY)| == 8;
    assert RoomFor(NARROW, walk, s0, KEY, EMPTY) == Eviction(map[], 0, []);
    assert s1 == Store(map[KEY := File(Encode(EMPTY), 1)], map["a" := EMPTY], 8);
    assert walk[0] == KEY && walk[1] == OTHER && OTHER !in s1.disk && Evictable(s1.disk, KEY);
    assert !Evictable(s1.disk, walk[1]) && |walk| == 2;
    assert Oldest(s1.disk, walk, 2, Some(0));
    OldestUnique(s1.disk, walk, OldestOf(s1.disk, walk), Some(0));
    assert s1.disk - {KEY} == map[] && WrapSub(8, 8) == 0;
    assert Evict(map[], walk, 0, 8, 8, 63) == Eviction(map[], 0, []);
    assert RoomFor(NARROW, walk, s1, OTHER, EMPTY) == Eviction(map[], 0, [0]);
  }

  /** A file evicted for another leaves its copy in memory, which a purge of the namespace does not find. */
  lemma EvictedStillServed()
    ensures var ops := [Put(KEY, EMPTY, [KEY, OTHER], 0, 1), Put(OTHER, EMPTY, [KEY, OTHER], 0, 2), Purge("n")];
            Answer(NARROW, Run(NARROW, Store(map[], map[], 0), ops), KEY, 0) == Some(EMPTY)
  {
    var walk := [KEY, OTHER];
    var s := SecondEvictsFirst();
    assert OTHER.key != "a" by { assert OTHER.key[0] == 'b'; }
    assert Purged(NARROW, s.disk, "n") <= s.disk.Keys == {OTHER};
    assert PurgedNames(Purged(NARROW, s.disk, "n")) <= {OTHER.key};
    assert "a" in Next(NARROW, s, Purge("n")).hot;
    ThreeSteps(NARROW, Store(map[], map[], 0), Put(KEY, EMPTY, walk, 0, 1), Put(OTHER, EMPTY, walk, 0, 2), Purge("n"));
  }
}
