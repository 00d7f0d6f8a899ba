/** The file cache as an object whose files, memory layer and size counter change in place. */
module CacheStorage {
  import opened Toml
  import opened CacheObject
  import opened CacheEviction
  import opened FileCache

  lemma ModSub(a: int, b: int)
    ensures ((a % U64) - b) % U64 == (a - b) % U64
  {
    var q := a / U64;
    assert a % U64 - b == (a - b) - U64 * q;
    ModShift(a - b, q);
  }

  lemma ModShift(x: int, q: int)
    ensures (x - U64 * q) % U64 == x % U64
  {
    var r := x % U64;
    assert x - U64 * q == U64 * (x / U64 - q) + r;
    ModUnique(x - U64 * q, x / U64 - q, r);
  }

  lemma ModUnique(x: int, q: int, r: int)
    requires x == U64 * q + r && 0 <= r < U64
    ensures x % U64 == r
  {}

  /** The counter after some files have been subtracted from it one by one. */
  ghost function CountAfter(was: Disk, done: set<Path>, size: nat): nat {
    (size - (Total(was) - Total(was - done))) % U64
  }

  lemma WithoutNothing(disk: Disk, size: nat)
    requires size < U64
    ensures disk - {} == disk && CountAfter(disk, {}, size) == size
  {
    assert disk - {} == disk;
  }

  lemma DeleteNext(was: Disk, done: set<Path>, size: nat, p: Path)
    requires p in was - done
    ensures was - done - {p} == was - (done + {p})
    ensures WrapSub(CountAfter(was, done, size), |was[p].bytes|) == CountAfter(was, done + {p}, size)
  {
    TotalWithout(was - done, p);
    assert was - done - {p} == was - (done + {p});
    ModSub(size - (Total(was) - Total(was - done)), |was[p].bytes|);
  }

  /** Of the wanted files, exactly those the walk has passed are done. */
  ghost predicate Seen(done: set<Path>, wanted: set<Path>, walk: seq<Path>, i: nat)
    requires i <= |walk|
  {
    forall p :: p in done <==> p in wanted && p in walk[..i]
  }

  lemma SeenNext(done: set<Path>, wanted: set<Path>, walk: seq<Path>, i: nat)
    requires i < |walk| && Distinct(walk) && Seen(done, wanted, walk, i)
    ensures walk[i] !in done
    ensures walk[i] in wanted ==> Seen(done + {walk[i]}, wanted, walk, i + 1)
    ensures walk[i] !in wanted ==> Seen(done, wanted, walk, i + 1)
  {
    assert walk[..i + 1] == walk[..i] + [walk[i]];
    assert walk[i] !in walk[..i];
  }

  lemma SeenAll(done: set<Path>, wanted: set<Path>, walk: seq<Path>, was: Disk)
    requires Walks(walk, was) && wanted <= was.Keys && Seen(done, wanted, walk, |walk|)
    ensures done == wanted
  {
    assert walk[..|walk|] == walk;
  }

  function HotWithout(cfg: Settings, hot: map<string, Object>, done: set<Path>): map<string, Object> {
    if cfg.memory then hot - PurgedNames(done) else hot
  }

  lemma NoNames(cfg: Settings, hot: map<string, Object>)
    ensures HotWithout(cfg, hot, {}) == hot
  {}

  lemma NamesNext(cfg: Settings, hot: map<string, Object>, done: set<Path>, p: Path)
    ensures HotWithout(cfg, hot, done + {p}) ==
            if cfg.memory then HotWithout(cfg, hot, done) - {p.key} else HotWithout(cfg, hot, done)
  {
    assert PurgedNames(done + {p}) == PurgedNames(done) + {p.key};
  }

  class Cache {
    const cfg: Settings
    var disk: Disk
    var hot: map<string, Object>
    var size: nat

    ghost function Contents(): Store
      reads this
    {
      Store(disk, hot, size)
    }

    /** Opening a directory measures what is already there. */
    constructor (cfg: Settings, files: Disk, walk: seq<Path>)
      requires Walks(walk, files) && Total(files) < U64
      ensures this.cfg == cfg && disk == files && hot == map[]
      ensures ExactStore(Contents())
    {
      this.cfg := cfg;
      disk := files;
      hot := map[];
      size := 0;
      new;
      ghost var seen: Disk := map[];
      for i := 0 to |walk|
        invariant disk == files && hot == map[]
        invariant forall p :: p in seen <==> p in files && p in walk[..i]
        invariant forall p :: p in seen ==> seen[p] == files[p]
        invariant size == Total(seen)
      {
        assert walk[..i + 1] == walk[..i] + [walk[i]];
        if walk[i] in files {
          TotalWith(seen, walk[i], files[walk[i]]);
          assert walk[i] !in walk[..i];
          size := size + |files[walk[i]].bytes|;
          seen := seen[walk[i] := files[walk[i]]];
        }
      }
      assert walk[..|walk|] == walk;
      assert seen == files;
    }

    /** Removes the least recently accessed file. */
    method EvictOldestFile(walk: seq<Path>) returns (removed: bool)
      modifies this
      ensures hot == old(hot)
      ensures removed == OldestOf(old(disk), walk).Some?
      ensures if removed then
                var p := walk[OldestOf(old(disk), walk).value];
                disk == old(disk) - {p} && size == WrapSub(old(size), |old(disk)[p].bytes|)
              else disk == old(disk) && size == old(size)
    {
      var oldest := FindOldest(disk, walk);
      OldestUnique(disk, walk, oldest, OldestOf(disk, walk));
      if oldest.None? {
        return false;
      }
      var p := walk[oldest.value];
      size := WrapSub(size, |disk[p].bytes|);
      disk := disk - {p};
      return true;
    }

    /** Evicts until the new bytes fit, nothing is left, or the cap is reached. */
    method EnsureDiskSpace(walk: seq<Path>, need: nat)
      modifies this
      ensures hot == old(hot)
      ensures if cfg.maxSize == 0 then disk == old(disk) && size == old(size)
              else
                var e := Evict(old(disk), walk, old(size), need, cfg.maxSize, MAX_EVICT);
                disk == e.disk && size == e.size
    {
      if cfg.maxSize == 0 {
        return;
      }
      ghost var goal := Evict(disk, walk, size, need, cfg.maxSize, MAX_EVICT);
      for i := 0 to MAX_EVICT
        invariant hot == old(hot)
        invariant var e := Evict(disk, walk, size, need, cfg.maxSize, MAX_EVICT - i);
                  e.disk == goal.disk && e.size == goal.size
      {
        if SatAdd(size, need) <= cfg.maxSize {
          return;
        }
        var removed := EvictOldestFile(walk);
        if !removed {
          return;
        }
      }
    }

    method Get(p: Path, count: nat, stamp: nat) returns (r: Option<Object>)
      modifies this
      ensures r == Answer(cfg, old(Contents()), p, count)
      ensures Contents() == AfterGet(cfg, old(Contents()), p, count, stamp)
    {
      if cfg.memory && p.key in hot {
        return Some(hot[p.key]);
      }
      if OverQuota(cfg.readingMax, count) || p !in disk {
        return None;
      }
      var o := Decode(disk[p].bytes);
      if o.Err? {
        size := WrapSub(size, |disk[p].bytes|);
        disk := disk - {p};
        return None;
      }
      disk := disk[p := disk[p].(accessed := stamp)];
      if cfg.memory {
        hot := hot[p.key := o.value];
      }
      return Some(o.value);
    }

    method Put(walk: seq<Path>, p: Path, data: Object, count: nat, stamp: nat)
      modifies this
      ensures Contents() == AfterPut(cfg, walk, old(Contents()), p, data, count, stamp)
    {
      if cfg.memory {
        if Weight(data) < cfg.maxWeight {
          hot := hot[p.key := data];
        }
      }
      if OverQuota(cfg.writingMax, count) {
        return;
      }
      var bytes := Encode(data);
      var oldLen := if p in disk then |disk[p].bytes| else 0;
      EnsureDiskSpace(walk, SatSub(|bytes|, oldLen));
      disk := disk[p := File(bytes, stamp)];
      size := SatAdd(SatSub(size, oldLen), |bytes|);
    }

    method Remove(p: Path)
      modifies this
      ensures Contents() == AfterRemove(cfg, old(Contents()), p)
    {
      if cfg.memory {
        hot := hot - {p.key};
      }
      if p in disk {
        size := WrapSub(size, |disk[p].bytes|);
        disk := disk - {p};
      }
    }

    method DeleteFile(p: Path)
      requires p in disk
      modifies this
      ensures disk == old(disk) - {p} && size == WrapSub(old(size), |old(disk)[p].bytes|) && hot == old(hot)
    {
      size := WrapSub(size, |disk[p].bytes|);
      disk := disk - {p};
    }

    method ClearFiles(walk: seq<Path>, before: nat) returns (success: nat)
      requires Walks(walk, disk) && size < U64
      modifies this
      ensures Contents() == AfterClear(old(Contents()), before)
      ensures success == |Stale(old(disk), before)|
    {
      success := 0;
      ghost var done: set<Path> := {};
      ghost var was := disk;
      WithoutNothing(disk, size);
      for i := 0 to |walk|
        invariant hot == old(hot) && success == |done|
        invariant Seen(done, Stale(was, before), walk, i)
        invariant disk == was - done && size == CountAfter(was, done, old(size))
      {
        SeenNext(done, Stale(was, before), walk, i);
        var p := walk[i];
        if p in disk && disk[p].accessed <= before {
          DeleteNext(was, done, old(size), p);
          DeleteFile(p);
          done := done + {p};
          success := success + 1;
        }
      }
      SeenAll(done, Stale(was, before), walk, was);
    }

    /** Removes every file last accessed at or before a time, and counts them. */
    method Clear(walk: seq<Path>, before: nat) returns (success: nat)
      requires Walks(walk, disk) && size < U64
      modifies this
      ensures Contents() == AfterClear(old(Contents()), before)
      ensures forall p :: p in disk <==> p in old(disk) && old(disk)[p].accessed > before
      ensures (forall p :: p in disk ==> disk[p] == old(disk)[p]) && hot == old(hot)
      ensures success == |old(disk).Keys - disk.Keys|
    {
      success := ClearFiles(walk, before);
      assert old(disk).Keys - disk.Keys == Stale(old(disk), before);
    }

    /** Deletes one file and its copy in memory, which goes by the file's name. */
    method PurgeFile(p: Path)
      requires p in disk
      modifies this
      ensures disk == old(disk) - {p} && size == WrapSub(old(size), |old(disk)[p].bytes|)
      ensures hot == if cfg.memory then old(hot) - {p.key} else old(hot)
    {
      DeleteFile(p);
      if cfg.memory {
        hot := hot - {p.key};
      }
    }

    method PurgeFiles(walk: seq<Path>, ns: string) returns (success: nat)
      requires Walks(walk, disk) && size < U64
      modifies this
      ensures var gone := Purged(cfg, old(disk), ns);
              && success == |gone|
              && disk == old(disk) - gone && size == CountAfter(old(disk), gone, old(size))
              && hot == HotWithout(cfg, old(hot), gone)
    {
      success := 0;
      ghost var done: set<Path>, was := {}, disk;
      ghost var wanted := Purged(cfg, disk, ns);
      WithoutNothing(disk, size);
      NoNames(cfg, hot);
      for i := 0 to |walk|
        invariant success == |done| && Seen(done, wanted, walk, i)
        invariant disk == was - done && size == CountAfter(was, done, old(size))
        invariant hot == HotWithout(cfg, old(hot), done)
      {
        SeenNext(done, wanted, walk, i);
        var p := walk[i];
        assert p in wanted <==> p in was && Under(cfg.levels, ns, p) && !Temporary(p);
        if p in disk && Under(cfg.levels, ns, p) && !Temporary(p) {
          DeleteNext(was, done, old(size), p);
          NamesNext(cfg, old(hot), done, p);
          PurgeFile(p);
          done := done + {p};
          success := success + 1;
        }
      }
      SeenAll(done, wanted, walk, was);
    }

    /** Removes what lies under a namespace, from disk and, name by name, from memory. */
    method PurgeNamespace(walk: seq<Path>, ns: string) returns (r: Result<nat>)
      requires Walks(walk, disk) && size < U64
      modifies this
      ensures Contents() == AfterPurge(cfg, old(Contents()), ns)
      ensures r == if BadNamespace(ns) then Err else Ok(|Purged(cfg, old(disk), ns)|)
    {
      if BadNamespace(ns) {
        return Err;
      }
      var success := PurgeFiles(walk, ns);
      return Ok(success);
    }
  }
}
