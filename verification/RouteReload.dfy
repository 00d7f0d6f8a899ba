/**
 * The server routes beside the reload protocol: the lists of locations per server are published
 * after the reload has released its lock, outside the generation, and a failed reload of the
 * locations does not keep them back.
 */
module RouteReload {
  import opened Toml
  import P = PolicyReload

  /** `pending` holds, per reloader, the reload whose routes it has yet to publish. */
  datatype World = World(policy: P.State, routes: nat, pending: map<nat, nat>)

  /** A step of the protocol; with the lock the reloader leaves its routes to be published. */
  predicate Move(w: World, v: World, r: nat, a: P.Action) {
    && P.StepBy(w.policy, v.policy, r, a)
    && (a.Acquire? ==> r !in w.pending)
    && v.routes == w.routes
    && v.pending == if a.Release? then w.pending[r := w.policy.attempts] else w.pending
  }

  /** A reload that leaves the locations alone: routes for the locations of some earlier reload. */
  predicate Plan(w: World, v: World, r: nat, n: nat) {
    && P.StageOf(w.policy, r) == P.Idle && r !in w.pending && n <= w.policy.attempts
    && v == w.(pending := w.pending[r := n])
  }

  predicate Publish(w: World, v: World, r: nat) {
    r in w.pending && v == w.(routes := w.pending[r], pending := w.pending - {r})
  }

  /** No server's list changed. */
  predicate Skip(w: World, v: World, r: nat) {
    r in w.pending && v == w.(pending := w.pending - {r})
  }

  ghost predicate Step(w: World, v: World) {
    || w == v
    || (exists r: nat, a :: Move(w, v, r, a))
    || (exists r: nat, n: nat :: Plan(w, v, r, n))
    || (exists r: nat :: Publish(w, v, r) || Skip(w, v, r))
  }

  predicate Init(w: World) {
    P.Init(w.policy) && w.routes == 0 && w.pending == map[]
  }

  ghost predicate Run(trace: seq<World>) {
    trace != [] && Init(trace[0]) && forall i :: 0 <= i < |trace| - 1 ==> Step(trace[i], trace[i + 1])
  }

  // ---- the protocol inside --------------------------------------------------------------

  function Policies(trace: seq<World>): seq<P.State> {
    seq(|trace|, i requires 0 <= i < |trace| => trace[i].policy)
  }

  /** Forgetting the routes leaves a run of the protocol. */
  lemma PoliciesRun(trace: seq<World>)
    requires Run(trace)
    ensures P.Run(Policies(trace))
  {
    var states := Policies(trace);
    forall i | 0 <= i < |states| - 1 ensures P.Step(states[i], states[i + 1]) {
      var w, v := trace[i], trace[i + 1];
      assert Step(w, v);
      if r: nat, a :| Move(w, v, r, a) {
        assert P.StepBy(w.policy, v.policy, r, a);
      }
    }
  }

  lemma LocationsGrow(trace: seq<World>, i: nat, j: nat)
    requires Run(trace) && i <= j < |trace|
    ensures trace[i].policy.locations <= trace[j].policy.locations
  {
    PoliciesRun(trace);
    P.Monotone(Policies(trace), i, j);
  }

  // ---- a reader -------------------------------------------------------------------------

  /** The route is taken at `route`, the locations at any of the looks, both between the checks. */
  predicate Accepted(trace: seq<World>, r: P.Reader, route: nat) {
    && P.InOrder(Policies(trace), r) && P.Accepts(Policies(trace), r)
    && r.check <= route <= r.recheck
    && trace[r.resample].policy.count < trace[r.sample].policy.count + P.U64
  }

  /** The last routes published before a moment were those of reload `n`. */
  ghost predicate LastRouted(trace: seq<World>, t: nat, n: nat)
    requires t < |trace|
  {
    if t == 0 then n == 0
    else
      var w, v := trace[t - 1], trace[t];
      || (exists r: nat :: Publish(w, v, r) && w.pending[r] == n)
      || ((forall r: nat :: !Publish(w, v, r)) && LastRouted(trace, t - 1, n))
  }

  lemma {:induction false} RoutesAreLast(trace: seq<World>, t: nat, n: nat)
    requires Run(trace) && t < |trace|
    ensures trace[t].routes == n <==> LastRouted(trace, t, n)
  {
    if t > 0 {
      RoutesAreLast(trace, t - 1, n);
      assert Step(trace[t - 1], trace[t - 1 + 1]);
    }
  }

  /**
   * What an accepted read pairs: locations of one reload throughout, and a route of the same
   * reload exactly if its routes were the last to be published by then.
   */
  lemma AcceptedPairIff(trace: seq<World>, r: P.Reader, route: nat, look: nat)
    requires Run(trace) && Accepted(trace, r, route) && look in r.looks
    ensures trace[look].policy.locations == trace[route].policy.locations
    ensures trace[route].routes == trace[look].policy.locations <==>
            LastRouted(trace, route, trace[look].policy.locations)
  {
    PoliciesRun(trace);
    var states := Policies(trace);
    P.AcceptedReadIsOneReload(states, r, look);
    var both := r.(looks := r.looks + [route]);
    assert route in both.looks && P.InOrder(states, both) && P.Accepts(states, both);
    P.AcceptedReadIsOneReload(states, both, route);
    RoutesAreLast(trace, route, trace[look].policy.locations);
  }

  // ---- never newer ----------------------------------------------------------------------

  /** No routes were published whose reload, and every later one, had failed to store its locations. */
  ghost predicate NoneAhead(trace: seq<World>) {
    forall i, r: nat :: 0 <= i < |trace| - 1 && Publish(trace[i], trace[i + 1], r) ==>
      trace[i].pending[r] <= trace[i].policy.locations
  }

  lemma {:induction false} NotAhead(trace: seq<World>, t: nat)
    requires Run(trace) && NoneAhead(trace) && t < |trace|
    ensures trace[t].routes <= trace[t].policy.locations
  {
    if t > 0 {
      NotAhead(trace, t - 1);
      LocationsGrow(trace, t - 1, t);
      var w, v := trace[t - 1], trace[t - 1 + 1];
      assert Step(w, v);
      if r: nat :| Publish(w, v, r) {
        assert w.pending[r] <= w.policy.locations;
      }
    }
  }

  /** The route is never newer than the locations exactly if no reload publishes routes ahead of them. */
  lemma NeverNewerIff(trace: seq<World>)
    requires Run(trace)
    ensures (forall t :: 0 <= t < |trace| ==> trace[t].routes <= trace[t].policy.locations) <==> NoneAhead(trace)
  {
    if NoneAhead(trace) {
      forall t | 0 <= t < |trace| ensures trace[t].routes <= trace[t].policy.locations { NotAhead(trace, t); }
    } else {
      var i, r: nat :| 0 <= i < |trace| - 1 && Publish(trace[i], trace[i + 1], r)
                    && trace[i].pending[r] > trace[i].policy.locations;
      assert trace[i + 1].routes > trace[i + 1].policy.locations;
    }
  }

  // ---- one reload at a time, each in full -----------------------------------------------

  /** Reloads do not overlap, do not fail and publish their routes; route-only ones are for what runs. */
  ghost predicate Orderly(w: World, v: World) {
    || w == v
    || (exists r: nat, a :: Move(w, v, r, a) && !a.Fail? && (a.Acquire? ==> w.pending == map[]))
    || (exists r: nat :: Plan(w, v, r, w.policy.locations) && w.pending == map[] && w.policy.holder.None?)
    || (exists r: nat :: Publish(w, v, r))
  }

  ghost predicate OrderlyRun(trace: seq<World>) {
    trace != [] && Init(trace[0]) && forall i :: 0 <= i < |trace| - 1 ==> Orderly(trace[i], trace[i + 1])
  }

  /** A reload has stored its locations and its routes are still to be published. */
  predicate InWindow(w: World) {
    || (w.policy.holder.Some? && P.StageOf(w.policy, w.policy.holder.value) in {P.Published, P.Closed})
    || (exists r <- w.pending :: w.pending[r] > w.routes)
  }

  /** At most one reload is on its way: with the lock, or with routes for the locations in force. */
  ghost predicate OneAtATime(w: World) {
    && P.Inv(w.policy) && w.routes <= w.policy.locations
    && match w.policy.holder
       case None =>
         if w.pending == map[] then w.routes == w.policy.locations
         else exists r: nat :: w.pending == map[r := w.policy.locations]
       case Some(r) =>
         && w.pending == map[]
         && if P.StageOf(w.policy, r) in {P.Published, P.Closed}
            then w.routes < w.policy.locations == w.policy.attempts
            else w.routes == w.policy.locations
  }

  lemma MoveOrderly(w: World, v: World, r: nat, a: P.Action)
    requires OneAtATime(w) && Move(w, v, r, a) && !a.Fail? && (a.Acquire? ==> w.pending == map[])
    ensures OneAtATime(v)
  {
    P.StepKeeps(w.policy, v.policy, r, a);
    assert P.StageOf(w.policy, r) != P.Idle ==> w.policy.holder == Some(r);
    if a.Release? { assert v.pending == map[r := v.policy.locations]; }
  }

  lemma StepOrderly(w: World, v: World)
    requires OneAtATime(w) && Orderly(w, v)
    ensures OneAtATime(v)
  {
    if w == v {
    } else if r: nat, a :| Move(w, v, r, a) && !a.Fail? && (a.Acquire? ==> w.pending == map[]) {
      MoveOrderly(w, v, r, a);
    } else if r: nat :| Plan(w, v, r, w.policy.locations) && w.pending == map[] && w.policy.holder.None? {
      assert v.pending == map[r := v.policy.locations];
    } else {
      var r: nat :| Publish(w, v, r);
      assert v.pending == map[];
    }
  }

  lemma {:induction false} AlwaysOneAtATime(trace: seq<World>, t: nat)
    requires OrderlyRun(trace) && t < |trace|
    ensures OneAtATime(trace[t])
  {
    if t > 0 {
      AlwaysOneAtATime(trace, t - 1);
      assert Orderly(trace[t - 1], trace[t - 1 + 1]);
      StepOrderly(trace[t - 1], trace[t]);
    }
  }

  /** While reloads are orderly the route is never newer, and it is older exactly in the window. */
  lemma OrderlyAgreeIff(trace: seq<World>, t: nat)
    requires OrderlyRun(trace) && t < |trace|
    ensures trace[t].routes <= trace[t].policy.locations
    ensures trace[t].routes == trace[t].policy.locations <==> !InWindow(trace[t])
  {
    AlwaysOneAtATime(trace, t);
    var w := trace[t];
    if w.policy.holder.None? && w.pending != map[] {
      var r: nat :| w.pending == map[r := w.policy.locations];
      assert r in w.pending && w.pending[r] == w.policy.locations;
    }
  }

  lemma OrderlyIsRun(trace: seq<World>)
    requires OrderlyRun(trace)
    ensures Run(trace)
  {
    forall i | 0 <= i < |trace| - 1 ensures Step(trace[i], trace[i + 1]) {
      assert Orderly(trace[i], trace[i + 1]);
    }
  }

  /** So an accepted read mixes two reloads exactly if it took its route in the window. */
  lemma OrderlyReadMixesIff(trace: seq<World>, r: P.Reader, route: nat, look: nat)
    requires OrderlyRun(trace) && Accepted(trace, r, route) && look in r.looks
    ensures trace[route].routes <= trace[look].policy.locations
    ensures trace[route].routes == trace[look].policy.locations <==> !InWindow(trace[route])
  {
    OrderlyIsRun(trace);
    AcceptedPairIff(trace, r, route, look);
    OrderlyAgreeIff(trace, route);
  }

  // ---- reads that mix -------------------------------------------------------------------

  ghost function Last(trace: seq<World>): World
    requires trace != []
  {
    trace[|trace| - 1]
  }

  /** Nobody holds the lock and this reloader has nothing under way. */
  predicate Free(w: World, r: nat) {
    w.policy.holder.None? && P.StageOf(w.policy, r) == P.Idle && r !in w.pending
  }

  ghost predicate Bounded(w: World) {
    w.routes <= w.policy.attempts && forall r <- w.pending :: w.pending[r] <= w.policy.attempts
  }

  lemma {:induction false} AlwaysBounded(trace: seq<World>, t: nat)
    requires Run(trace) && t < |trace|
    ensures Bounded(trace[t])
  {
    if t > 0 {
      AlwaysBounded(trace, t - 1);
      assert Step(trace[t - 1], trace[t - 1 + 1]);
    }
  }

  lemma Extend(trace: seq<World>, w: World) returns (more: seq<World>)
    requires Run(trace) && Step(Last(trace), w)
    ensures Run(more) && trace <= more && Last(more) == w
  {
    more := trace + [w];
  }

  /** One protocol step of a reloader. */
  lemma Act(trace: seq<World>, r: nat, a: P.Action) returns (more: seq<World>)
    requires Run(trace) && P.Enabled(Last(trace).policy, r, a) && (a.Acquire? ==> r !in Last(trace).pending)
    ensures Run(more) && trace <= more
    ensures Last(more).policy == P.Do(Last(trace).policy, r, a) && Last(more).routes == Last(trace).routes
    ensures Last(more).pending ==
            if a.Release? then Last(trace).pending[r := Last(trace).policy.attempts] else Last(trace).pending
  {
    var w := Last(trace);
    var v := World(P.Do(w.policy, r, a), w.routes, if a.Release? then w.pending[r := w.policy.attempts] else w.pending);
    assert Move(w, v, r, a);
    more := Extend(trace, v);
  }

  lemma Begin(trace: seq<World>, r: nat) returns (more: seq<World>)
    requires Run(trace) && Free(Last(trace), r)
    ensures Run(more) && trace <= more
    ensures P.StageOf(Last(more).policy, r) == P.Begun && Last(more).policy.attempts == Last(trace).policy.attempts + 1
    ensures Last(more).policy.locations == Last(trace).policy.locations
    ensures Last(more).routes == Last(trace).routes && Last(more).pending == Last(trace).pending
  {
    more := Act(trace, r, P.Acquire);
    more := Act(more, r, P.Begin);
  }

  /** The locations of a new reload are stored and its routes are not. */
  lemma Reload(trace: seq<World>, r: nat) returns (more: seq<World>)
    requires Run(trace) && Free(Last(trace), r)
    ensures Run(more) && trace <= more
    ensures var n := Last(trace).policy.attempts + 1;
            && Last(more).policy.attempts == Last(more).policy.locations == n
            && Last(more).pending == Last(trace).pending[r := n] && Last(more).routes == Last(trace).routes
    ensures Last(more).policy.holder.None?
  {
    more := Begin(trace, r);
    more := Act(more, r, P.SetAbuse);
    more := Act(more, r, P.SetRegistered);
    more := Act(more, r, P.StoreLocations);
    more := Act(more, r, P.End);
    more := Act(more, r, P.Release);
  }

  /** A reload whose locations cannot be built. */
  lemma FailedReload(trace: seq<World>, r: nat) returns (more: seq<World>)
    requires Run(trace) && Free(Last(trace), r)
    ensures Run(more) && trace <= more
    ensures Last(more).policy.locations == Last(trace).policy.locations
    ensures Last(more).pending == Last(trace).pending[r := Last(trace).policy.attempts + 1]
    ensures Last(more).policy.holder.None?
  {
    more := Begin(trace, r);
    more := Act(more, r, P.Fail);
    more := Act(more, r, P.Release);
  }

  lemma PublishRoutes(trace: seq<World>, r: nat) returns (more: seq<World>)
    requires Run(trace) && r in Last(trace).pending
    ensures Run(more) && trace <= more
    ensures Last(more) == Last(trace).(routes := Last(trace).pending[r], pending := Last(trace).pending - {r})
  {
    var w := Last(trace);
    var v := w.(routes := w.pending[r], pending := w.pending - {r});
    assert Publish(w, v, r);
    more := Extend(trace, v);
  }

  /** All of a read at one moment. */
  function ReadAt(t: nat): P.Reader {
    P.Reader(t, t, [t], t, t)
  }

  lemma FreeLockAccepts(trace: seq<World>)
    requires Run(trace) && Last(trace).policy.holder.None?
    ensures Accepted(trace, ReadAt(|trace| - 1), |trace| - 1)
  {
    PoliciesRun(trace);
    P.OddMeansHeld(Policies(trace), |trace| - 1);
  }

  /** Whenever a reload is possible there is a run in which an accepted read pairs its locations with old routes. */
  lemma EveryReloadCanBeMixed(trace: seq<World>, r: nat) returns (more: seq<World>)
    requires Run(trace) && Free(Last(trace), r)
    ensures Run(more) && trace <= more && Accepted(more, ReadAt(|more| - 1), |more| - 1)
    ensures Last(more).routes == Last(trace).routes < Last(more).policy.locations
  {
    AlwaysBounded(trace, |trace| - 1);
    more := Reload(trace, r);
    FreeLockAccepts(more);
  }

  /** And one in which the reload fails, its routes are published all the same, and are read with old locations. */
  lemma EveryFailureCanBeAhead(trace: seq<World>, r: nat) returns (more: seq<World>)
    requires Run(trace) && Free(Last(trace), r)
    ensures Run(more) && trace <= more && Accepted(more, ReadAt(|more| - 1), |more| - 1)
    ensures Last(more).routes > Last(more).policy.locations == Last(trace).policy.locations
  {
    PoliciesRun(trace);
    P.InvAlways(Policies(trace), |trace| - 1);
    more := FailedReload(trace, r);
    more := PublishRoutes(more, r);
    FreeLockAccepts(more);
  }

  /** Two overlapping reloads can end, with nothing left to publish, on the routes of the older one. */
  lemma OverlapLeavesOldRoutes() returns (trace: seq<World>)
    ensures Run(trace) && Last(trace).pending == map[] && Last(trace).policy.holder.None?
    ensures Last(trace).routes == 1 && Last(trace).policy.locations == 2
  {
    trace := Reload([World(P.State(0, None, 0, map[], 0, 0, 0), 0, map[])], 0);
    trace := SecondReload(trace);
    trace := PublishRoutes(trace, 1);
    trace := PublishRoutes(trace, 0);
    assert Last(trace).pending == map[];
  }

  lemma SecondReload(trace: seq<World>) returns (more: seq<World>)
    requires Run(trace) && Last(trace).policy.holder.None?
    requires Last(trace).policy.attempts == 1 && Last(trace).pending == map[0 := 1]
    ensures Run(more) && Last(more).policy.holder.None?
    ensures Last(more).policy.locations == 2 && Last(more).pending == map[0 := 1, 1 := 2]
  {
    PoliciesRun(trace);
    P.InvAlways(Policies(trace), |trace| - 1);
    assert P.StageOf(Last(trace).policy, 1) == P.Idle;
    more := Reload(trace, 1);
  }
}
