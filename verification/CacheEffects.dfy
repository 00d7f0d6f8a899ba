/** What each operation of the file cache does, file by file and key by key. */
module CacheEffects {
  import opened Toml
  import opened CacheObject
  import opened CacheEviction
  import opened FileCache
  import opened CacheRuns

  // ---- objects --------------------------------------------------------------------------

  /** An object weighs its full pages of 4096 bytes, at least 1, and 65535 from 40 MiB on. */
  lemma ObjectWeight(o: Object)
    ensures var n, w := |o.body| + |o.meta0| + |o.meta1|, Weight(o);
            && (n <= 4096 ==> w == 1)
            && (4096 < n < 41943040 ==> w * 4096 <= n < (w + 1) * 4096)
            && (n >= 41943040 ==> w == 65535)
  {}

  function BigEndian(b: Bytes): nat
    requires |b| == 4
  {
    b[0] as int * 16777216 + b[1] as int * 65536 + b[2] as int * 256 + b[3] as int
  }

  /** The file of an object: two lengths, most significant byte first, and then its parts. */
  lemma EncodingLayout(o: Object)
    requires |o.meta0| < 0x1_0000_0000 && |o.meta1| < 0x1_0000_0000
    ensures var b := Encode(o);
            && |b| >= 8 && BigEndian(b[..4]) == |o.meta0| && BigEndian(b[4..8]) == |o.meta1|
            && b[8..] == o.meta0 + o.meta1 + o.body
  {
    var b := Encode(o);
    var h0, h1, rest := PutU32(|o.meta0|), PutU32(|o.meta1|), o.meta0 + o.meta1 + o.body;
    assert b == h0 + h1 + rest;
    assert b[..4] == h0 && b[4..8] == h1 && b[8..] == rest;
    BigEndianIs(|o.meta0|);
    BigEndianIs(|o.meta1|);
  }

  lemma BigEndianIs(n: nat)
    requires n < 0x1_0000_0000
    ensures BigEndian(PutU32(n)) == n
  {
    GetPut(n);
  }

  // ---- clear ----------------------------------------------------------------------------

  /** A file is left exactly if it was accessed later than the time given, and then it is as it was. */
  lemma ClearKeeps(s: Store, before: nat, p: Path)
    ensures var after := AfterClear(s, before);
            && (p in after.disk <==> p in s.disk && s.disk[p].accessed > before)
            && (p in after.disk ==> after.disk[p] == s.disk[p])
            && after.hot == s.hot
  {}

  // ---- get ------------------------------------------------------------------------------

  predicate Busy(max: nat, count: nat) {
    max > 0 && count >= max
  }

  /** Memory answers first, whatever the load; then the file, unless it is unreadable or reads are over quota. */
  lemma AnswerIs(cfg: Settings, s: Store, p: Path, count: nat)
    ensures cfg.memory && p.key in s.hot ==> Answer(cfg, s, p, count) == Some(s.hot[p.key])
    ensures !(cfg.memory && p.key in s.hot) && !Busy(cfg.readingMax, count) && p in s.disk ==>
              forall o: Object :: Fits(o) && s.disk[p].bytes == Encode(o) ==> Answer(cfg, s, p, count) == Some(o)
    ensures Answer(cfg, s, p, count) == None <==>
            && !(cfg.memory && p.key in s.hot)
            && (Busy(cfg.readingMax, count) || p !in s.disk || forall o: Object :: s.disk[p].bytes != Encode(o))
  {
    if p in s.disk {
      forall o: Object | Fits(o) ensures Decode(Encode(o)) == Ok(o) { RoundTripIff(o); }
      DecodesIff(s.disk[p].bytes);
    }
  }

  lemma DecodesIff(b: Bytes)
    ensures Decode(b).Ok? <==> exists o: Object :: b == Encode(o)
  {
    if Decode(b).Ok? { AcceptedIsEncoded(b); }
    if o: Object :| b == Encode(o) { EncodedDecodes(o); }
  }

  lemma EncodedDecodes(o: Object)
    ensures Decode(Encode(o)).Ok?
  {
    EncodeParts(o);
    GetPut(|o.meta0|);
    GetPut(|o.meta1|);
  }

  /** A read from a file stamps it and puts it in memory; an unreadable file goes; nothing else changes. */
  lemma GetEffects(cfg: Settings, s: Store, p: Path, count: nat, stamp: nat, q: Path, key: string)
    ensures var after := AfterGet(cfg, s, p, count, stamp);
            && (q != p ==> (q in after.disk <==> q in s.disk) && (q in after.disk ==> after.disk[q] == s.disk[q]))
            && (p in s.disk && Answer(cfg, s, p, count).Some? && !(cfg.memory && p.key in s.hot) ==>
                  p in after.disk && after.disk[p] == File(s.disk[p].bytes, stamp))
            && (p in after.disk ==> p in s.disk && after.disk[p].bytes == s.disk[p].bytes)
            && (p in s.disk && p !in after.disk <==>
                  p in s.disk && !(cfg.memory && p.key in s.hot) && !Busy(cfg.readingMax, count) &&
                  forall o: Object :: s.disk[p].bytes != Encode(o))
            && (key != p.key || !cfg.memory ==>
                  (key in after.hot <==> key in s.hot) && (key in after.hot ==> after.hot[key] == s.hot[key]))
            && (cfg.memory && Answer(cfg, s, p, count).Some? ==>
                  p.key in after.hot && after.hot[p.key] == Answer(cfg, s, p, count).value)
  {
    if p in s.disk { DecodesIff(s.disk[p].bytes); }
  }

  // ---- put ------------------------------------------------------------------------------

  /** The object is light enough for memory. */
  predicate GoesToMemory(cfg: Settings, data: Object) {
    cfg.memory && Weight(data) < cfg.maxWeight
  }

  /** A write is read back: from memory if it went there, and otherwise from its file, memory not knowing the key. */
  lemma PutIsServed(cfg: Settings, walk: seq<Path>, s: Store, p: Path, data: Object, count: nat, stamp: nat, later: nat)
    requires Fits(data)
    ensures var after := AfterPut(cfg, walk, s, p, data, count, stamp);
            && (GoesToMemory(cfg, data) ==> Answer(cfg, after, p, later) == Some(data))
            && (!Busy(cfg.writingMax, count) && !Busy(cfg.readingMax, later) && !(cfg.memory && p.key in s.hot) ==>
                  Answer(cfg, after, p, later) == Some(data))
  {
    RoundTripIff(data);
  }

  /** What a write leaves: its file, memory as it goes there, and of the other files those not evicted. */
  lemma PutEffects(
      cfg: Settings, walk: seq<Path>, s: Store, p: Path, data: Object, count: nat, stamp: nat, q: Path, key: string)
    requires Walks(walk, s.disk)
    ensures var after := AfterPut(cfg, walk, s, p, data, count, stamp);
            && (Busy(cfg.writingMax, count) ==> after.disk == s.disk && after.size == s.size)
            && (!Busy(cfg.writingMax, count) ==> p in after.disk && after.disk[p] == File(Encode(data), stamp))
            && (q != p && q in after.disk ==> q in s.disk && after.disk[q] == s.disk[q])
            && (q != p && q in s.disk && cfg.maxSize == 0 ==> q in after.disk)
            && (key != p.key || !GoesToMemory(cfg, data) ==>
                  (key in after.hot <==> key in s.hot) && (key in after.hot ==> after.hot[key] == s.hot[key]))
            && (GoesToMemory(cfg, data) ==> p.key in after.hot && after.hot[p.key] == data)
  {
    EvictedDisk(cfg, walk, s, p, data);
  }

  predicate EndsInTmp(p: Path) {
    |p.key| > 4 && p.key[|p.key| - 4] == '.' && p.key[|p.key| - 3..] == "tmp"
  }

  lemma TemporaryIs(p: Path)
    ensures Temporary(p) <==> EndsInTmp(p)
  {
    if |p.key| > 4 {
      var n := |p.key| - 4;
      assert p.key[n..] == [p.key[n]] + p.key[n + 1..];
    }
  }

  /** How many bytes a write adds to what its file already takes. */
  function Growth(disk: Disk, p: Path, data: Object): nat {
    var was := if p in disk then |disk[p].bytes| else 0;
    if |Encode(data)| > was then |Encode(data)| - was else 0
  }

  lemma RoomIs(cfg: Settings, walk: seq<Path>, s: Store, p: Path, data: Object) returns (evicted: seq<nat>)
    requires Walks(walk, s.disk)
    ensures OldestPrefix(s.disk, walk, evicted)
    ensures RoomFor(cfg, walk, s, p, data).disk == s.disk - Gone(walk, evicted)
    ensures evicted == RoomFor(cfg, walk, s, p, data).evicted
  {
    evicted := RoomFor(cfg, walk, s, p, data).evicted;
    if cfg.maxSize == 0 {
      WithoutNone(s.disk, walk);
    } else {
      EvictIsOldestPrefix(s.disk, walk, s.size, NetAdd(s.disk, p, data), cfg.maxSize, MAX_EVICT);
    }
  }

  /** A write never evicts a file in the making, nor a file accessed later than one it keeps. */
  lemma EvictsLeastRecent(cfg: Settings, walk: seq<Path>, s: Store, p: Path, data: Object, x: Path, y: Path)
    requires Walks(walk, s.disk)
    ensures var left := RoomFor(cfg, walk, s, p, data).disk;
            x in s.disk && x !in left ==>
              && !EndsInTmp(x)
              && (y in s.disk && y in left && !EndsInTmp(y) ==> s.disk[x].accessed <= s.disk[y].accessed)
  {
    TemporaryIs(x);
    TemporaryIs(y);
    var evicted := RoomIs(cfg, walk, s, p, data);
    if x in s.disk && x !in RoomFor(cfg, walk, s, p, data).disk {
      var i :| i in evicted && i < |walk| && walk[i] == x;
      var a :| 0 <= a < |evicted| && evicted[a] == i;
      if y in RoomFor(cfg, walk, s, p, data).disk && !EndsInTmp(y) {
        var j: nat :| j < |walk| && walk[j] == y;
        assert j !in evicted;
        assert Before(s.disk, walk, evicted[a], j);
      }
    }
  }

  /** The file evicted next: the first of the walk among those accessed longest ago. */
  lemma OldestIsFirst(disk: Disk, walk: seq<Path>, i: nat, j: nat)
    requires OldestOf(disk, walk) == Some(i) && j < |walk| && walk[j] in disk && !EndsInTmp(walk[j])
    ensures i < |walk| && walk[i] in disk && !EndsInTmp(walk[i])
    ensures if j < i then disk[walk[j]].accessed > disk[walk[i]].accessed
            else disk[walk[j]].accessed >= disk[walk[i]].accessed
  {
    TemporaryIs(walk[i]);
    TemporaryIs(walk[j]);
    if j != i { BeforeOthers(disk, walk, i, j); }
  }

  /** It evicts at most 64 files, and stops short of making room only at 64 or when nothing evictable is left. */
  lemma EvictsUntilRoom(cfg: Settings, walk: seq<Path>, s: Store, p: Path, data: Object)
    requires Walks(walk, s.disk) && ExactStore(s)
    ensures var left := RoomFor(cfg, walk, s, p, data).disk;
            && |s.disk.Keys - left.Keys| <= 64
            && (cfg.maxSize == 0 ==> left == s.disk)
            && (cfg.maxSize > 0 ==>
                  || Total(left) + Growth(s.disk, p, data) <= cfg.maxSize
                  || cfg.maxSize >= 0xFFFF_FFFF_FFFF_FFFF
                  || |s.disk.Keys - left.Keys| == 64
                  || forall z <- left :: EndsInTmp(z))
  {
    var left := RoomFor(cfg, walk, s, p, data).disk;
    var evicted := RoomIs(cfg, walk, s, p, data);
    GoneIs(s.disk, walk, evicted, left);
    if cfg.maxSize > 0 {
      RoomStops(cfg, walk, s, p, data);
      if SatAdd(Total(left), Growth(s.disk, p, data)) <= cfg.maxSize {
        RoomFits(left, Growth(s.disk, p, data), cfg.maxSize);
      }
      if forall z :: !Evictable(left, z) { OnlyTemporary(left); }
    }
  }

  lemma OnlyTemporary(disk: Disk)
    requires forall z :: !Evictable(disk, z)
    ensures forall z <- disk :: EndsInTmp(z)
  {
    forall z | z in disk ensures EndsInTmp(z) {
      assert !Evictable(disk, z);
      TemporaryIs(z);
    }
  }

  lemma RoomStops(cfg: Settings, walk: seq<Path>, s: Store, p: Path, data: Object)
    requires Walks(walk, s.disk) && ExactStore(s) && cfg.maxSize > 0
    ensures var e := RoomFor(cfg, walk, s, p, data);
            && |e.evicted| <= 64
            && (|| SatAdd(Total(e.disk), Growth(s.disk, p, data)) <= cfg.maxSize
                || |e.evicted| == 64
                || forall z :: !Evictable(e.disk, z))
  {
    RoomIsMinimal(cfg, walk, s, p, data);
  }

  lemma RoomFits(disk: Disk, need: nat, max: nat)
    requires SatAdd(Total(disk), need) <= max
    ensures Total(disk) + need <= max || max >= 0xFFFF_FFFF_FFFF_FFFF
  {}

  lemma GoneIs(disk: Disk, walk: seq<Path>, evicted: seq<nat>, left: Disk)
    requires Walks(walk, disk) && OldestPrefix(disk, walk, evicted) && left == disk - Gone(walk, evicted)
    ensures |disk.Keys - left.Keys| == |evicted|
  {
    PrefixDistinct(disk, walk, evicted);
    GoneCount(walk, evicted);
    forall x | x in Gone(walk, evicted) ensures x in disk {
      var i :| i in evicted && i < |walk| && walk[i] == x;
    }
    assert disk.Keys - left.Keys == Gone(walk, evicted);
  }

  ghost predicate Positions(walk: seq<Path>, evicted: seq<nat>) {
    Distinct(evicted) && forall a :: 0 <= a < |evicted| ==> evicted[a] < |walk|
  }

  /** Each position of the walk is another file. */
  lemma {:induction false} GoneCount(walk: seq<Path>, evicted: seq<nat>)
    requires Distinct(walk) && Positions(walk, evicted)
    ensures |Gone(walk, evicted)| == |evicted|
    decreases |evicted|
  {
    if evicted == [] {
      assert Gone(walk, evicted) == {};
    } else {
      var before, last := evicted[..|evicted| - 1], evicted[|evicted| - 1];
      assert evicted == before + [last];
      GoneCount(walk, before);
      forall i | i in before ensures i < |walk| && walk[i] != walk[last] {
        var a :| 0 <= a < |before| && before[a] == i;
        assert evicted[a] == i != last;
        assert i < last ==> walk[i] != walk[last];
        assert last < i ==> walk[last] != walk[i];
      }
      assert last in evicted && forall i <- before :: i in evicted;
      assert Gone(walk, evicted) == Gone(walk, before) + {walk[last]};
      assert walk[last] !in Gone(walk, before);
    }
  }

  lemma PrefixDistinct(disk: Disk, walk: seq<Path>, evicted: seq<nat>)
    requires OldestPrefix(disk, walk, evicted)
    ensures Positions(walk, evicted)
  {
    forall a, b | 0 <= a < b < |evicted| ensures evicted[a] != evicted[b] {
      assert Before(disk, walk, evicted[a], evicted[b]);
    }
  }

  // ---- remove and purge -----------------------------------------------------------------

  /** A removal takes the file and the key in memory, and nothing else; what it removed is not served. */
  lemma RemoveEffects(cfg: Settings, s: Store, p: Path, q: Path, key: string, count: nat)
    ensures var after := AfterRemove(cfg, s, p);
            && p !in after.disk && Answer(cfg, after, p, count) == None
            && (q != p ==> (q in after.disk <==> q in s.disk) && (q in after.disk ==> after.disk[q] == s.disk[q]))
            && (key != p.key || !cfg.memory ==>
                  (key in after.hot <==> key in s.hot) && (key in after.hot ==> after.hot[key] == s.hot[key]))
  {}

  /** Which directory a file lies in first: that of its namespace, or without one its first level. */
  function FirstDirectory(levels: seq<nat>, p: Path): string
    requires levels == [] || p.key != ""
  {
    (p.ns + Below(levels, p.key))[0]
  }

  /** A purge removes exactly the files below its directory that are complete; `.` is every directory. */
  lemma PurgeEffects(cfg: Settings, s: Store, ns: string, q: Path)
    requires cfg.levels == [] || q.key != ""
    ensures var after := AfterPurge(cfg, s, ns);
            && (q in after.disk ==> q in s.disk && after.disk[q] == s.disk[q])
            && (BadNamespace(ns) ==> after == s)
            && (!BadNamespace(ns) && q in s.disk ==>
                  (q !in after.disk <==> !EndsInTmp(q) && (ns == "." || FirstDirectory(cfg.levels, q) == ns)))
            && (!BadNamespace(ns) && cfg.memory && q in s.disk && q !in after.disk ==> q.key !in after.hot)
  {
    TemporaryIs(q);
    if !BadNamespace(ns) && q in s.disk { PurgeReachesIff(cfg, s.disk, ns, q); }
  }

  /** The namespaces a purge takes: not empty, without separators and without two dots in a row. */
  lemma PurgeTakes(ns: string)
    ensures !BadNamespace(ns) <==>
            && ns != ""
            && (forall i :: 0 <= i < |ns| ==> ns[i] != '/' && ns[i] != '\\')
            && (forall i :: 0 <= i < |ns| - 1 ==> !(ns[i] == '.' && ns[i + 1] == '.'))
  {
    if i :| 0 <= i < |ns| && (ns[i] == '/' || ns[i] == '\\') { assert ns[i] in ns; }
  }
}
