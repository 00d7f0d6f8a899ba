/**
 * The reload protocol: reloaders take turns under a lock, the generation is odd while one of
 * them publishes, and readers accept what they saw only under one and the same even generation.
 */
module PolicyReload {
  import opened Toml

  const U64: nat := 0x1_0000_0000_0000_0000

  /** How far a reloader has come; `Closed` is after the second increment, before the lock is released. */
  datatype Stage = Idle | Locked | Begun | AbuseSet | RegisteredSet | Published | Closed

  /**
   * `count` is the number of increments so far; the generation is that number in 64 bits.
   * Each published snapshot carries the number of the reload attempt that made it.
   */
  datatype State = State(
    count: nat,
    holder: Option<nat>,
    attempts: nat,
    stages: map<nat, Stage>,
    abuse: nat,
    registered: nat,
    locations: nat)

  function Generation(s: State): nat {
    s.count % U64
  }

  predicate InProgress(s: State) {
    Generation(s) % 2 == 1
  }

  function StageOf(s: State, r: nat): Stage {
    if r in s.stages then s.stages[r] else Idle
  }

  function At(s: State, r: nat, stage: Stage): State {
    s.(stages := s.stages[r := stage])
  }

  datatype Action = Acquire | Begin | Fail | SetAbuse | SetRegistered | StoreLocations | End | Release

  predicate Enabled(s: State, r: nat, a: Action) {
    match a
    case Acquire => StageOf(s, r) == Idle && s.holder == None
    case Begin => StageOf(s, r) == Locked
    case Fail => StageOf(s, r) == Begun
    case SetAbuse => StageOf(s, r) == Begun
    case SetRegistered => StageOf(s, r) == AbuseSet
    case StoreLocations => StageOf(s, r) == RegisteredSet
    case End => StageOf(s, r) == Published
    case Release => StageOf(s, r) == Closed
  }

  /** One step of a reloader; building the new map may fail, which drops the guard at once. */
  function Do(s: State, r: nat, a: Action): State {
    match a
    case Acquire => At(s, r, Locked).(holder := Some(r), attempts := s.attempts + 1)
    case Begin => At(s, r, Begun).(count := s.count + 1)
    case Fail => At(s, r, Closed).(count := s.count + 1)
    case SetAbuse => At(s, r, AbuseSet).(abuse := s.attempts)
    case SetRegistered => At(s, r, RegisteredSet).(registered := s.attempts)
    case StoreLocations => At(s, r, Published).(locations := s.attempts)
    case End => At(s, r, Closed).(count := s.count + 1)
    case Release => At(s, r, Idle).(holder := None)
  }

  predicate StepBy(s: State, t: State, r: nat, a: Action) {
    Enabled(s, r, a) && t == Do(s, r, a)
  }

  /** Any reloader moves, or nothing changes (a reader looks). */
  ghost predicate Step(s: State, t: State) {
    s == t || exists r: nat, a :: StepBy(s, t, r, a)
  }

  predicate Init(s: State) {
    s == State(0, None, 0, map[], 0, 0, 0)
  }

  ghost predicate Run(trace: seq<State>) {
    trace != [] && Init(trace[0]) && forall i :: 0 <= i < |trace| - 1 ==> Step(trace[i], trace[i + 1])
  }

  // ---- the invariant --------------------------------------------------------------------

  predicate Publishing(stage: Stage) {
    stage in {Begun, AbuseSet, RegisteredSet, Published}
  }

  predicate Uniform(s: State) {
    s.abuse == s.registered == s.locations
  }

  /** What the stage of the lock holder says about the snapshots. */
  predicate StageInv(s: State, stage: Stage) {
    match stage
    case Idle => false
    case Locked => Uniform(s) && s.locations < s.attempts
    case Begun => Uniform(s) && s.locations < s.attempts
    case AbuseSet => s.abuse == s.attempts && s.registered == s.locations < s.attempts
    case RegisteredSet => s.abuse == s.registered == s.attempts && s.locations < s.attempts
    case Published => Uniform(s) && s.locations == s.attempts
    case Closed => Uniform(s) && s.locations <= s.attempts
  }

  ghost predicate Inv(s: State) {
    && (forall r: nat :: StageOf(s, r) != Idle ==> s.holder == Some(r))
    && (s.holder.None? ==> Uniform(s) && s.locations <= s.attempts && s.count % 2 == 0)
    && (s.holder.Some? ==>
          var stage := StageOf(s, s.holder.value);
          StageInv(s, stage) && (s.count % 2 == 1 <==> Publishing(stage)))
  }

  lemma StepKeeps(s: State, t: State, r: nat, a: Action)
    requires Inv(s) && StepBy(s, t, r, a)
    ensures Inv(t)
  {
    assert StageOf(s, r) != Idle ==> s.holder == Some(r);
    forall q: nat ensures StageOf(t, q) != Idle ==> t.holder == Some(q) {
      assert q != r ==> StageOf(t, q) == StageOf(s, q);
      assert StageOf(s, q) != Idle ==> s.holder == Some(q);
    }
  }

  lemma {:induction false} InvAlways(trace: seq<State>, i: nat)
    requires Run(trace) && i < |trace|
    ensures Inv(trace[i])
  {
    if i > 0 {
      InvAlways(trace, i - 1);
      assert Step(trace[i - 1], trace[i - 1 + 1]);
      if trace[i - 1] != trace[i] {
        var r: nat, a :| StepBy(trace[i - 1], trace[i], r, a);
        StepKeeps(trace[i - 1], trace[i], r, a);
      }
    }
  }

  const HALF: nat := 0x8000_0000_0000_0000

  lemma ParityOfGeneration(s: State)
    ensures InProgress(s) <==> s.count % 2 == 1
  {
    EvenShift(s.count / U64, Generation(s));
  }

  lemma EvenShift(q: nat, g: nat)
    ensures (U64 * q + g) % 2 == g % 2
  {
    assert U64 * q == 2 * (HALF * q);
    TwiceAnd(HALF * q, g);
  }

  lemma TwiceAnd(k: nat, g: nat)
    ensures (2 * k + g) % 2 == g % 2
  {}

  /** An odd generation has exactly one reloader behind it; a free lock means an even one. */
  lemma OddMeansHeld(trace: seq<State>, i: nat)
    requires Run(trace) && i < |trace|
    ensures trace[i].holder.None? ==> !InProgress(trace[i])
    ensures InProgress(trace[i]) ==>
              && trace[i].holder.Some?
              && (forall r: nat :: Publishing(StageOf(trace[i], r)) <==> trace[i].holder == Some(r))
  {
    InvAlways(trace, i);
    ParityOfGeneration(trace[i]);
    if InProgress(trace[i]) {
      forall r: nat ensures Publishing(StageOf(trace[i], r)) <==> trace[i].holder == Some(r) {
        assert StageOf(trace[i], r) != Idle ==> trace[i].holder == Some(r);
      }
    }
  }

  /** Enforcement is never behind routing, at any moment. */
  lemma HostsNeverBehind(trace: seq<State>, i: nat)
    requires Run(trace) && i < |trace|
    ensures trace[i].abuse >= trace[i].registered >= trace[i].locations
    ensures !InProgress(trace[i]) ==> Uniform(trace[i])
  {
    InvAlways(trace, i);
    ParityOfGeneration(trace[i]);
  }

  // ---- time -----------------------------------------------------------------------------

  lemma StepMonotone(s: State, t: State)
    requires Inv(s) && Step(s, t)
    ensures Later(s, t) && Settled(s, t)
  {
    if s != t {
      var r: nat, a :| StepBy(s, t, r, a);
      assert StageOf(s, r) != Idle ==> s.holder == Some(r);
    }
  }

  /** From one moment to the next. */
  lemma Tick(trace: seq<State>, i: nat)
    requires Run(trace) && i + 1 < |trace|
    ensures Later(trace[i], trace[i + 1])
    ensures Settled(trace[i], trace[i + 1])
  {
    InvAlways(trace, i);
    StepMonotone(trace[i], trace[i + 1]);
  }

  predicate Later(s: State, t: State) {
    s.count <= t.count && s.abuse <= t.abuse && s.registered <= t.registered && s.locations <= t.locations
  }

  /** If the count stands still at an even value, so do the snapshots. */
  predicate Settled(s: State, t: State) {
    s.count == t.count && s.count % 2 == 0 ==>
      s.abuse == t.abuse && s.registered == t.registered && s.locations == t.locations
  }

  lemma {:induction false} Monotone(trace: seq<State>, i: nat, j: nat)
    requires Run(trace) && i <= j < |trace|
    ensures Later(trace[i], trace[j])
    ensures Settled(trace[i], trace[j])
    decreases j - i
  {
    if i < j {
      Monotone(trace, i, j - 1);
      Tick(trace, j - 1);
      Chain(trace[i], trace[j - 1], trace[j]);
    }
  }

  lemma Chain(s: State, t: State, u: State)
    requires Later(s, t) && Later(t, u) && Settled(s, t) && Settled(t, u)
    ensures Later(s, u) && Settled(s, u)
  {}

  // ---- readers --------------------------------------------------------------------------

  /**
   * The moments of a read: the generation is sampled, a reload in progress is ruled out, the
   * snapshots are looked at any number of times, and both checks are made again.
   */
  datatype Reader = Reader(sample: nat, check: nat, looks: seq<nat>, recheck: nat, resample: nat)

  predicate InOrder(trace: seq<State>, r: Reader) {
    && r.sample <= r.check <= r.recheck <= r.resample < |trace|
    && forall t <- r.looks :: r.check <= t <= r.recheck
  }

  predicate Accepts(trace: seq<State>, r: Reader)
    requires InOrder(trace, r)
  {
    && !InProgress(trace[r.check])
    && !InProgress(trace[r.recheck])
    && Generation(trace[r.resample]) == Generation(trace[r.sample])
  }

  lemma SameGeneration(a: nat, b: nat)
    requires a <= b < a + U64 && a % U64 == b % U64
    ensures a == b
  {
    assert a == U64 * (a / U64) + a % U64 && b == U64 * (b / U64) + b % U64;
  }

  /**
   * Whatever a reader that accepts has looked at, in whatever order and how often, all came from
   * one and the same reload, which had been published as a whole before the read began.
   */
  lemma AcceptedReadIsOneReload(trace: seq<State>, r: Reader, t: nat)
    requires Run(trace) && InOrder(trace, r) && Accepts(trace, r) && t in r.looks
    requires trace[r.resample].count < trace[r.sample].count + U64
    ensures Uniform(trace[r.sample])
    ensures trace[t].abuse == trace[t].registered == trace[t].locations == trace[r.sample].locations
  {
    Monotone(trace, r.sample, r.check);
    Monotone(trace, r.check, t);
    Monotone(trace, t, r.resample);
    SameGeneration(trace[r.sample].count, trace[r.resample].count);
    ParityOfGeneration(trace[r.check]);
    HostsNeverBehind(trace, r.sample);
    ParityOfGeneration(trace[r.sample]);
    Monotone(trace, r.sample, t);
  }

  /** A reader that takes the route first never pairs it with an older host set, accepted or not. */
  lemma RouteFirst(trace: seq<State>, route: nat, hosts: nat)
    requires Run(trace) && route <= hosts < |trace|
    ensures trace[hosts].registered >= trace[route].locations && trace[hosts].abuse >= trace[route].locations
  {
    Monotone(trace, route, hosts);
    HostsNeverBehind(trace, route);
  }

  /** The first half of a reload, seen from the first moment. */
  function Halfway(n: nat): State {
    match n
    case 0 => State(0, None, 0, map[], 0, 0, 0)
    case 1 => State(0, Some(0), 1, map[0 := Locked], 0, 0, 0)
    case 2 => State(1, Some(0), 1, map[0 := Begun], 0, 0, 0)
    case 3 => State(1, Some(0), 1, map[0 := AbuseSet], 1, 0, 0)
    case 4 => State(1, Some(0), 1, map[0 := RegisteredSet], 1, 1, 0)
    case _ => State(1, Some(0), 1, map[0 := Published], 1, 1, 1)
  }

  lemma HalfwaySteps(n: nat)
    requires n < 5
    ensures Step(Halfway(n), Halfway(n + 1))
  {
    var actions := [Acquire, Begin, SetAbuse, SetRegistered, StoreLocations];
    var a := actions[n];
    assert StepBy(Halfway(n), Halfway(n + 1), 0, a);
  }

  /** Taking the hosts first can pair them with a newer route: the checks are what prevents it. */
  lemma HostsFirstCanBeBehind()
    ensures exists trace: seq<State>, hosts: nat, route: nat ::
              Run(trace) && hosts <= route < |trace| && trace[hosts].abuse < trace[route].locations
  {
    var trace, hosts: nat, route: nat := seq(6, i requires 0 <= i < 6 => Halfway(i)), 0, 5;
    forall i | 0 <= i < 5 ensures Step(trace[i], trace[i + 1]) {
      HalfwaySteps(i);
    }
    assert Run(trace) && hosts <= route < |trace| && trace[hosts].abuse < trace[route].locations;
  }
}
