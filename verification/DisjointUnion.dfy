/** Merging maps that must not overlap. */
module DisjointUnion {
  import opened Toml

  predicate Gives<K, V>(parts: seq<map<K, V>>, i: int, k: K) {
    0 <= i < |parts| && k in parts[i]
  }

  /** Two different parts hold the same key. */
  ghost predicate Conflict<K(!new), V>(parts: seq<map<K, V>>) {
    exists i, j, k :: i < j && Gives(parts, i, k) && Gives(parts, j, k)
  }

  function Union<K, V>(parts: seq<map<K, V>>): map<K, V>
    decreases |parts|
  {
    if parts == [] then map[] else Union(parts[..|parts| - 1]) + parts[|parts| - 1]
  }

  ghost function Merge<K(!new), V>(parts: seq<map<K, V>>): Result<map<K, V>> {
    if Conflict(parts) then Err else Ok(Union(parts))
  }

  lemma {:induction false} UnionMembers<K, V>(parts: seq<map<K, V>>, k: K)
    ensures k in Union(parts) <==> exists i :: Gives(parts, i, k)
    decreases |parts|
  {
    if parts != [] {
      var before, n := parts[..|parts| - 1], |parts| - 1;
      UnionMembers(before, k);
      if i :| Gives(before, i, k) { assert Gives(parts, i, k); }
      if i :| Gives(parts, i, k) {
        if i < n { assert Gives(before, i, k); }
      }
      if k in parts[n] { assert Gives(parts, n, k); }
    }
  }

  lemma PrefixConflict<K(!new), V>(parts: seq<map<K, V>>, n: nat)
    requires n <= |parts| && Conflict(parts[..n])
    ensures Conflict(parts)
  {
    var i, j, k :| i < j && Gives(parts[..n], i, k) && Gives(parts[..n], j, k);
    assert Gives(parts, i, k) && Gives(parts, j, k);
  }

  lemma {:induction false} UnionValue<K(!new), V>(parts: seq<map<K, V>>, i: int, k: K)
    requires !Conflict(parts) && Gives(parts, i, k)
    ensures k in Union(parts) && Union(parts)[k] == parts[i][k]
    decreases |parts|
  {
    var before, n := parts[..|parts| - 1], |parts| - 1;
    if i < n {
      assert Gives(before, i, k);
      if Conflict(before) { PrefixConflict(parts, n); }
      UnionValue(before, i, k);
      assert !Gives(parts, n, k);
    }
  }

  /** A map holding exactly what the parts hold is their union. */
  lemma UnionIs<K(!new), V>(parts: seq<map<K, V>>, whole: map<K, V>)
    requires !Conflict(parts)
    requires forall i, k :: Gives(parts, i, k) ==> k in whole && whole[k] == parts[i][k]
    requires forall k :: k in whole ==> exists i :: Gives(parts, i, k)
    ensures Union(parts) == whole
  {
    forall k ensures k in Union(parts) <==> k in whole {
      UnionMembers(parts, k);
    }
    forall k | k in whole ensures Union(parts)[k] == whole[k] {
      var i :| Gives(parts, i, k);
      UnionValue(parts, i, k);
    }
  }

  // ---- order independence ---------------------------------------------------------------

  /** Adding one part to a merged rest. */
  function Join<K, V>(part: map<K, V>, rest: Result<map<K, V>>): Result<map<K, V>> {
    if rest.Err? || !(part.Keys !! rest.value.Keys) then Err else Ok(rest.value + part)
  }

  function InsertAt<T>(rest: seq<T>, i: nat, x: T): seq<T>
    requires i <= |rest|
  {
    rest[..i] + [x] + rest[i..]
  }

  lemma InsertGives<K, V>(rest: seq<map<K, V>>, i: nat, part: map<K, V>, j: int, k: K)
    requires i <= |rest|
    ensures Gives(InsertAt(rest, i, part), j, k) <==>
            if j < i then Gives(rest, j, k) else if j == i then k in part else Gives(rest, j - 1, k)
  {}

  lemma InsertConflict<K(!new), V>(rest: seq<map<K, V>>, i: nat, part: map<K, V>)
    requires i <= |rest|
    ensures Conflict(InsertAt(rest, i, part)) <==>
            Conflict(rest) || exists j, k :: Gives(rest, j, k) && k in part
  {
    var all := InsertAt(rest, i, part);
    if p, q, k :| p < q && Gives(rest, p, k) && Gives(rest, q, k) {
      var p', q' := if p < i then p else p + 1, if q < i then q else q + 1;
      InsertGives(rest, i, part, p', k);
      InsertGives(rest, i, part, q', k);
      assert Gives(all, p', k) && Gives(all, q', k);
    }
    if j, k :| Gives(rest, j, k) && k in part {
      var j' := if j < i then j else j + 1;
      InsertGives(rest, i, part, j', k);
      InsertGives(rest, i, part, i, k);
      assert Gives(all, i, k) && Gives(all, j', k);
      assert if i < j' then i < j' else j' < i;
    }
    if p, q, k :| p < q && Gives(all, p, k) && Gives(all, q, k) {
      InsertGives(rest, i, part, p, k);
      InsertGives(rest, i, part, q, k);
      var p', q' := if p < i then p else p - 1, if q < i then q else q - 1;
      if p != i && q != i {
        assert Gives(rest, p', k) && Gives(rest, q', k) && p' < q';
      } else {
        assert Gives(rest, if p == i then q' else p', k) && k in part;
      }
    }
  }

  lemma OnlyHolder<K(!new), V>(parts: seq<map<K, V>>, i: int, j: int, k: K)
    requires !Conflict(parts) && Gives(parts, i, k) && i != j
    ensures !Gives(parts, j, k)
  {
    if i < j {
      assert !(Gives(parts, i, k) && Gives(parts, j, k));
    } else {
      assert !(Gives(parts, j, k) && Gives(parts, i, k));
    }
  }

  lemma AtIndex<T>(rest: seq<T>, i: nat, x: T, j: nat)
    requires i <= |rest| && j <= |rest|
    ensures InsertAt(rest, i, x)[j] == if j < i then rest[j] else if j == i then x else rest[j - 1]
  {}

  lemma InsertValue<K(!new), V>(rest: seq<map<K, V>>, i: nat, part: map<K, V>, j: int, k: K)
    requires i <= |rest| && !Conflict(InsertAt(rest, i, part)) && !Conflict(rest)
    requires Gives(InsertAt(rest, i, part), j, k)
    ensures k in Union(rest) + part && (Union(rest) + part)[k] == InsertAt(rest, i, part)[j][k]
  {
    var all := InsertAt(rest, i, part);
    InsertGives(rest, i, part, j, k);
    AtIndex(rest, i, part, j);
    if j != i {
      UnionValue(rest, if j < i then j else j - 1, k);
      OnlyHolder(all, j, i, k);
      InsertGives(rest, i, part, i, k);
    }
  }

  lemma InsertHolder<K(!new), V>(rest: seq<map<K, V>>, i: nat, part: map<K, V>, k: K) returns (j: int)
    requires i <= |rest| && k in Union(rest) + part
    ensures Gives(InsertAt(rest, i, part), j, k)
  {
    if k in part {
      j := i;
    } else {
      UnionMembers(rest, k);
      var j' :| Gives(rest, j', k);
      j := if j' < i then j' else j' + 1;
    }
    InsertGives(rest, i, part, j, k);
  }

  lemma InsertUnion<K(!new), V>(rest: seq<map<K, V>>, i: nat, part: map<K, V>)
    requires i <= |rest| && !Conflict(InsertAt(rest, i, part)) && !Conflict(rest)
    ensures Union(InsertAt(rest, i, part)) == Union(rest) + part
  {
    var all := InsertAt(rest, i, part);
    var joined := Union(rest) + part;
    forall j, k | Gives(all, j, k) ensures k in joined && joined[k] == all[j][k] {
      InsertValue(rest, i, part, j, k);
    }
    forall k | k in joined ensures exists j :: Gives(all, j, k) {
      var j := InsertHolder(rest, i, part, k);
    }
    UnionIs(all, joined);
  }

  lemma InsertJoins<K(!new), V>(rest: seq<map<K, V>>, i: nat, part: map<K, V>)
    requires i <= |rest|
    ensures Merge(InsertAt(rest, i, part)) == Join(part, Merge(rest))
  {
    InsertConflict(rest, i, part);
    forall k ensures k in Union(rest) <==> exists j :: Gives(rest, j, k) {
      UnionMembers(rest, k);
    }
    if !Conflict(InsertAt(rest, i, part)) { InsertUnion(rest, i, part); }
  }

  lemma TakeOut<T>(b: seq<T>, i: nat)
    requires i < |b|
    ensures b == InsertAt(b[..i] + b[i + 1..], i, b[i])
    ensures multiset(b) == multiset(b[..i] + b[i + 1..]) + multiset{b[i]}
  {
    var rest := b[..i] + b[i + 1..];
    assert rest[..i] == b[..i] && rest[i..] == b[i + 1..];
    assert b == b[..i] + [b[i]] + b[i + 1..];
    InsertMultiset(rest, i, b[i]);
  }

  lemma SplitOff<T>(a: seq<T>, b: seq<T>) returns (i: nat)
    requires a != [] && multiset(a) == multiset(b)
    ensures i < |b| && b[i] == a[0]
    ensures a == InsertAt(a[1..], 0, a[0]) && b == InsertAt(b[..i] + b[i + 1..], i, a[0])
    ensures multiset(a[1..]) == multiset(b[..i] + b[i + 1..])
  {
    assert a[0] in multiset(b);
    i :| 0 <= i < |b| && b[i] == a[0];
    TakeOut(a, 0);
    TakeOut(b, i);
    assert a[..0] + a[1..] == a[1..];
    SameRest(multiset(a[1..]), multiset(b[..i] + b[i + 1..]), a[0]);
  }

  lemma SameRest<T>(a: multiset<T>, b: multiset<T>, x: T)
    requires a + multiset{x} == b + multiset{x}
    ensures a == b
  {
    assert a == (a + multiset{x}) - multiset{x};
    assert b == (b + multiset{x}) - multiset{x};
  }

  function MapSeq<T, U>(f: T -> U, xs: seq<T>): seq<U> {
    seq(|xs|, i requires 0 <= i < |xs| => f(xs[i]))
  }

  lemma MapInsert<T, U>(f: T -> U, rest: seq<T>, i: nat, x: T)
    requires i <= |rest|
    ensures MapSeq(f, InsertAt(rest, i, x)) == InsertAt(MapSeq(f, rest), i, f(x))
  {}

  lemma InsertMultiset<T>(rest: seq<T>, i: nat, x: T)
    requires i <= |rest|
    ensures multiset(InsertAt(rest, i, x)) == multiset(rest) + multiset{x}
  {
    assert rest == rest[..i] + rest[i..];
  }

  lemma {:induction false} MapPermute<T, U>(f: T -> U, a: seq<T>, b: seq<T>)
    requires multiset(a) == multiset(b)
    ensures multiset(MapSeq(f, a)) == multiset(MapSeq(f, b))
    decreases |a|
  {
    if a == [] {
      assert |multiset(b)| == 0;
    } else {
      var i := SplitOff(a, b);
      var rest := b[..i] + b[i + 1..];
      MapPermute(f, a[1..], rest);
      MapInsert(f, a[1..], 0, a[0]);
      MapInsert(f, rest, i, a[0]);
      InsertMultiset(MapSeq(f, a[1..]), 0, f(a[0]));
      InsertMultiset(MapSeq(f, rest), i, f(a[0]));
    }
  }

  /** Parts can come in any order: neither the outcome nor the result depends on it. */
  lemma {:induction false} MergeAnyOrder<K(!new), V>(a: seq<map<K, V>>, b: seq<map<K, V>>)
    requires multiset(a) == multiset(b)
    ensures Merge(a) == Merge(b)
    decreases |a|
  {
    if a == [] {
      assert |multiset(b)| == 0;
    } else {
      var i := SplitOff(a, b);
      MergeAnyOrder(a[1..], b[..i] + b[i + 1..]);
      InsertJoins(a[1..], 0, a[0]);
      InsertJoins(b[..i] + b[i + 1..], i, a[0]);
    }
  }

  // ---- keys collected in two places -----------------------------------------------------

  /** A key together with which of its two collections holds it. */
  datatype Place<K> = Place(key: K, nested: bool)

  /** No key is held in both places. */
  ghost predicate Apart<K(!new), V>(m: map<Place<K>, V>) {
    forall k :: Place(k, false) in m ==> Place(k, true) !in m
  }

  /** Forgets the places. */
  function Project<K, V>(m: map<Place<K>, V>): map<K, V> {
    map k | k in (set p | p in m :: p.key) ::
      if Place(k, false) in m then m[Place(k, false)] else m[Place(k, true)]
  }

  function ProjectAll<K, V>(parts: seq<map<Place<K>, V>>): seq<map<K, V>> {
    seq(|parts|, i requires 0 <= i < |parts| => Project(parts[i]))
  }

  lemma MapProject<T, K, V>(f: T -> map<Place<K>, V>, g: T -> map<K, V>, xs: seq<T>)
    requires forall i :: 0 <= i < |xs| ==> g(xs[i]) == Project(f(xs[i]))
    ensures MapSeq(g, xs) == ProjectAll(MapSeq(f, xs))
  {}

  lemma ProjectMembers<K, V>(m: map<Place<K>, V>, k: K)
    ensures k in Project(m) <==> Place(k, false) in m || Place(k, true) in m
  {
    if Place(k, false) in m { assert Place(k, false).key == k; }
    if Place(k, true) in m { assert Place(k, true).key == k; }
  }

  lemma ProjectAt<K(!new), V>(m: map<Place<K>, V>, p: Place<K>)
    requires Apart(m) && p in m
    ensures p.key in Project(m) && Project(m)[p.key] == m[p]
  {
    ProjectMembers(m, p.key);
    assert p == Place(p.key, p.nested);
  }

  lemma ProjectGives<K, V>(parts: seq<map<Place<K>, V>>, i: int, k: K)
    ensures Gives(ProjectAll(parts), i, k) <==>
            Gives(parts, i, Place(k, false)) || Gives(parts, i, Place(k, true))
  {
    if 0 <= i < |parts| { ProjectMembers(parts[i], k); }
  }

  /** A part giving a key in either place gives the key. */
  lemma PlaceGives<K, V>(parts: seq<map<Place<K>, V>>, i: int, p: Place<K>)
    requires Gives(parts, i, p)
    ensures Gives(ProjectAll(parts), i, p.key)
  {
    assert p == Place(p.key, p.nested);
    ProjectGives(parts, i, p.key);
  }

  lemma PlaceConflict<K(!new), V>(parts: seq<map<Place<K>, V>>)
    requires Conflict(parts)
    ensures Conflict(ProjectAll(parts))
  {
    var i, j, p :| i < j && Gives(parts, i, p) && Gives(parts, j, p);
    PlaceGives(parts, i, p);
    PlaceGives(parts, j, p);
    assert Gives(ProjectAll(parts), i, p.key) && Gives(ProjectAll(parts), j, p.key);
  }

  lemma MeetingConflict<K(!new), V>(parts: seq<map<Place<K>, V>>)
    requires (forall i :: 0 <= i < |parts| ==> Apart(parts[i])) && !Apart(Union(parts))
    ensures Conflict(ProjectAll(parts))
  {
    var k :| Place(k, false) in Union(parts) && Place(k, true) in Union(parts);
    UnionMembers(parts, Place(k, false));
    UnionMembers(parts, Place(k, true));
    var i :| Gives(parts, i, Place(k, false));
    var j :| Gives(parts, j, Place(k, true));
    assert i != j by { assert Apart(parts[i]); }
    PlaceGives(parts, i, Place(k, false));
    PlaceGives(parts, j, Place(k, true));
    if i < j {
      assert Gives(ProjectAll(parts), i, k) && Gives(ProjectAll(parts), j, k);
    } else {
      assert Gives(ProjectAll(parts), j, k) && Gives(ProjectAll(parts), i, k);
    }
  }

  lemma NoKeyTwice<K(!new), V>(parts: seq<map<Place<K>, V>>, i: int, j: int, k: K)
    requires !Conflict(parts) && Apart(Union(parts)) && i < j && Gives(ProjectAll(parts), i, k)
    ensures !Gives(ProjectAll(parts), j, k)
  {
    ProjectGives(parts, i, k);
    ProjectGives(parts, j, k);
    forall a: bool, b: bool | Gives(parts, i, Place(k, a)) ensures !Gives(parts, j, Place(k, b)) {
      if a == b {
        OnlyHolder(parts, i, j, Place(k, a));
      } else {
        UnionValue(parts, i, Place(k, a));
        assert Place(k, b) !in Union(parts);
        UnionMembers(parts, Place(k, b));
      }
    }
  }

  lemma ProjectedUnion<K(!new), V>(parts: seq<map<Place<K>, V>>)
    requires forall i :: 0 <= i < |parts| ==> Apart(parts[i])
    requires !Conflict(parts) && Apart(Union(parts)) && !Conflict(ProjectAll(parts))
    ensures Union(ProjectAll(parts)) == Project(Union(parts))
  {
    var whole := Project(Union(parts));
    forall i, k | Gives(ProjectAll(parts), i, k)
      ensures k in whole && whole[k] == ProjectAll(parts)[i][k]
    {
      ProjectGives(parts, i, k);
      var p := if Gives(parts, i, Place(k, false)) then Place(k, false) else Place(k, true);
      UnionValue(parts, i, p);
      ProjectAt(Union(parts), p);
      ProjectAt(parts[i], p);
    }
    forall k | k in whole ensures exists i :: Gives(ProjectAll(parts), i, k) {
      ProjectMembers(Union(parts), k);
      var p := if Place(k, false) in Union(parts) then Place(k, false) else Place(k, true);
      UnionMembers(parts, p);
      var i :| Gives(parts, i, p);
      PlaceGives(parts, i, p);
    }
    UnionIs(ProjectAll(parts), whole);
  }

  /** Collecting place by place and joining the places at the end is merging key by key. */
  lemma CollectThenJoin<K(!new), V>(parts: seq<map<Place<K>, V>>)
    requires forall i :: 0 <= i < |parts| ==> Apart(parts[i])
    ensures Merge(ProjectAll(parts)) ==
            if Merge(parts).Ok? && Apart(Merge(parts).value) then Ok(Project(Merge(parts).value)) else Err
  {
    if Conflict(parts) {
      PlaceConflict(parts);
    } else if !Apart(Union(parts)) {
      MeetingConflict(parts);
    } else {
      forall i, j, k | i < j && Gives(ProjectAll(parts), i, k) ensures !Gives(ProjectAll(parts), j, k) {
        NoKeyTwice(parts, i, j, k);
      }
      ProjectedUnion(parts);
    }
  }
}
