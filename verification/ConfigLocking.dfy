/**
 * Concurrent `update`, `delete` and `save_all` calls on one manager: every call takes the write
 * lock, loads, writes file by file and releases, and calls interleave at each of these steps.
 */
module ConfigLocking {
  import opened Toml
  import opened Layout
  import opened ConfigStore
  import opened ConfigRefinement

  type Client = nat

  datatype Phase =
    | Waiting
    | Entered
    | Snapshot(loaded: Result<Loaded>)
    | Writing(steps: seq<Step>)
    | Finished

  datatype Call = Call(op: Op, phase: Phase)

  /** `log` records the calls in the order in which they were given the lock. */
  datatype State = State(dir: Dir, lock: Option<Client>, calls: map<Client, Call>, log: seq<Client>)

  datatype System = System(mode: Mode, order: Order, start: Dir)

  ghost predicate Init(sys: System, s: State) {
    s == State(sys.start, None, map[], [])
  }

  function WithPhase(s: State, c: Client, phase: Phase): map<Client, Call>
    requires c in s.calls
  {
    s.calls[c := s.calls[c].(phase := phase)]
  }

  ghost predicate Submit(s: State, t: State, c: Client, op: Op) {
    c !in s.calls && t == s.(calls := s.calls[c := Call(op, Waiting)])
  }

  ghost predicate Acquire(s: State, t: State, c: Client) {
    && c in s.calls && s.calls[c].phase.Waiting? && s.lock.None?
    && t == s.(lock := Some(c), calls := WithPhase(s, c, Entered), log := s.log + [c])
  }

  /** Loads the configuration, when the operation works from one. */
  ghost predicate TakeSnapshot(sys: System, s: State, t: State, c: Client) {
    && c in s.calls && s.calls[c].phase.Entered? && Reads(sys.mode, s.calls[c].op)
    && t == s.(calls := WithPhase(s, c, Snapshot(Load(s.dir))))
  }

  ghost predicate Plan(sys: System, s: State, t: State, c: Client) {
    && c in s.calls
    && (s.calls[c].phase.Snapshot? || (s.calls[c].phase.Entered? && !Reads(sys.mode, s.calls[c].op)))
    && var loaded := if s.calls[c].phase.Snapshot? then s.calls[c].phase.loaded else Err;
       t == s.(calls := WithPhase(s, c, Writing(StepsFrom(sys.mode, sys.order, loaded, s.calls[c].op))))
  }

  ghost predicate WriteFile(s: State, t: State, c: Client) {
    && c in s.calls && s.calls[c].phase.Writing? && s.calls[c].phase.steps != []
    && var steps := s.calls[c].phase.steps;
       t == s.(dir := Apply(s.dir, steps[0]), calls := WithPhase(s, c, Writing(steps[1..])))
  }

  ghost predicate Release(s: State, t: State, c: Client) {
    && c in s.calls && s.calls[c].phase == Writing([])
    && t == s.(lock := None, calls := WithPhase(s, c, Finished))
  }

  ghost predicate StepBy(sys: System, s: State, t: State, c: Client) {
    || (exists op :: Submit(s, t, c, op))
    || Acquire(s, t, c)
    || TakeSnapshot(sys, s, t, c)
    || Plan(sys, s, t, c)
    || WriteFile(s, t, c)
    || Release(s, t, c)
  }

  ghost predicate Next(sys: System, s: State, t: State) {
    exists c: Client :: StepBy(sys, s, t, c)
  }

  ghost predicate IsRun(sys: System, run: seq<State>) {
    && run != [] && Init(sys, run[0])
    && forall i :: 0 <= i < |run| - 1 ==> Next(sys, run[i], run[i + 1])
  }

  // ---- the invariant --------------------------------------------------------------------

  predicate Active(phase: Phase) {
    phase.Entered? || phase.Snapshot? || phase.Writing?
  }

  /** The operations behind a log, in lock order. */
  function Ops(calls: map<Client, Call>, log: seq<Client>): seq<Op>
    requires forall c :: c in log ==> c in calls
  {
    seq(|log|, i requires 0 <= i < |log| => assert log[i] in log; calls[log[i]].op)
  }

  ghost predicate Bookkeeping(s: State) {
    && Distinct(s.log)
    && (forall c :: c in s.log <==> c in s.calls && !s.calls[c].phase.Waiting?)
    && (forall c :: c in s.calls && Active(s.calls[c].phase) ==> s.lock == Some(c))
    && (s.lock.Some? ==>
          && s.lock.value in s.calls && Active(s.calls[s.lock.value].phase)
          && s.log != [] && s.log[|s.log| - 1] == s.lock.value)
  }

  /** What the calls finished so far, run one after the other, would have stored. */
  ghost function Serial(sys: System, s: State): Dir
    requires Bookkeeping(s)
  {
    RunAll(sys.mode, sys.order, sys.start, Ops(s.calls, s.log))
  }

  ghost function SerialBefore(sys: System, s: State): Dir
    requires Bookkeeping(s) && s.lock.Some?
  {
    RunAll(sys.mode, sys.order, sys.start, Ops(s.calls, s.log)[..|s.log| - 1])
  }

  ghost predicate Inv(sys: System, s: State) {
    && Bookkeeping(s)
    && match s.lock
       case None => s.dir == Serial(sys, s)
       case Some(c) =>
         match s.calls[c].phase
         case Entered => s.dir == SerialBefore(sys, s)
         case Snapshot(loaded) => s.dir == SerialBefore(sys, s) && loaded == Load(s.dir)
         case Writing(steps) => RunSteps(s.dir, steps) == Serial(sys, s)
         case _ => false
  }

  lemma RunStepsHead(dir: Dir, steps: seq<Step>)
    requires steps != []
    ensures RunSteps(dir, steps) == RunSteps(Apply(dir, steps[0]), steps[1..])
  {
    assert steps == [steps[0]] + steps[1..];
    RunStepsAppend(dir, [steps[0]], steps[1..]);
    RunOne(dir, steps[0]);
  }

  lemma OpsUnchanged(s: State, t: State)
    requires Bookkeeping(s) && Bookkeeping(t) && s.log == t.log
    requires forall c :: c in s.calls ==> c in t.calls && t.calls[c].op == s.calls[c].op
    ensures Ops(t.calls, t.log) == Ops(s.calls, s.log)
  {}

  lemma SubmitKeeps(sys: System, s: State, t: State, c: Client, op: Op)
    requires Inv(sys, s) && Submit(s, t, c, op)
    ensures Inv(sys, t)
  {
    OpsUnchanged(s, t);
  }

  lemma AcquireKeeps(sys: System, s: State, t: State, c: Client)
    requires Inv(sys, s) && Acquire(s, t, c)
    ensures Inv(sys, t)
  {
    assert t.log[..|t.log| - 1] == s.log;
    forall d ensures d in t.log <==> d in t.calls && !t.calls[d].phase.Waiting? {}
    assert Distinct(t.log) by { DistinctAppend(s.log, [c]); }
    assert Ops(t.calls, t.log)[..|t.log| - 1] == Ops(s.calls, s.log);
  }

  lemma TakeSnapshotKeeps(sys: System, s: State, t: State, c: Client)
    requires Inv(sys, s) && TakeSnapshot(sys, s, t, c)
    ensures Inv(sys, t)
  {
    OpsUnchanged(s, t);
  }

  /** The step list planned from the snapshot does exactly what the operation does on its own. */
  lemma PlanKeeps(sys: System, s: State, t: State, c: Client)
    requires Inv(sys, s) && Plan(sys, s, t, c)
    ensures Inv(sys, t)
  {
    OpsUnchanged(s, t);
    var loaded := if s.calls[c].phase.Snapshot? then s.calls[c].phase.loaded else Err;
    UnreadOps(sys, loaded, s.dir, s.calls[c].op);
    SerialStep(sys, s, c);
  }

  lemma SerialStep(sys: System, s: State, c: Client)
    requires Bookkeeping(s) && s.lock == Some(c)
    ensures Serial(sys, s) == Run(sys.mode, sys.order, SerialBefore(sys, s), s.calls[c].op)
  {}

  lemma UnreadOps(sys: System, loaded: Result<Loaded>, dir: Dir, op: Op)
    requires loaded == Load(dir) || !Reads(sys.mode, op)
    ensures StepsFrom(sys.mode, sys.order, loaded, op) == StepsFrom(sys.mode, sys.order, Load(dir), op)
  {}

  lemma WriteFileKeeps(sys: System, s: State, t: State, c: Client)
    requires Inv(sys, s) && WriteFile(s, t, c)
    ensures Inv(sys, t)
  {
    OpsUnchanged(s, t);
    RunStepsHead(s.dir, s.calls[c].phase.steps);
  }

  lemma ReleaseKeeps(sys: System, s: State, t: State, c: Client)
    requires Inv(sys, s) && Release(s, t, c)
    ensures Inv(sys, t)
  {
    OpsUnchanged(s, t);
  }

  lemma NextKeeps(sys: System, s: State, t: State)
    requires Inv(sys, s) && Next(sys, s, t)
    ensures Inv(sys, t)
  {
    var c: Client :| StepBy(sys, s, t, c);
    if op :| Submit(s, t, c, op) {
      SubmitKeeps(sys, s, t, c, op);
    } else if Acquire(s, t, c) {
      AcquireKeeps(sys, s, t, c);
    } else if TakeSnapshot(sys, s, t, c) {
      TakeSnapshotKeeps(sys, s, t, c);
    } else if Plan(sys, s, t, c) {
      PlanKeeps(sys, s, t, c);
    } else if WriteFile(s, t, c) {
      WriteFileKeeps(sys, s, t, c);
    } else {
      ReleaseKeeps(sys, s, t, c);
    }
  }

  lemma {:induction false} InvAlways(sys: System, run: seq<State>, i: nat)
    requires IsRun(sys, run) && i < |run|
    ensures Inv(sys, run[i])
  {
    if i > 0 {
      InvAlways(sys, run, i - 1);
      assert Next(sys, run[i - 1], run[i - 1 + 1]);
      NextKeeps(sys, run[i - 1], run[i]);
    }
  }

  // ---- what it means --------------------------------------------------------------------

  /** Until the holder starts writing, what it loaded is what is stored. */
  lemma SnapshotIsCurrent(sys: System, run: seq<State>, i: nat, c: Client)
    requires IsRun(sys, run) && i < |run|
    requires c in run[i].calls && run[i].calls[c].phase.Snapshot?
    ensures run[i].lock == Some(c)
    ensures run[i].calls[c].phase.loaded == Load(run[i].dir)
  {
    InvAlways(sys, run, i);
  }

  /**
   * No write is lost: whenever the lock is free, the files are those of running every call that
   * was given the lock, once each and one after the other, in lock order.
   */
  lemma NoLostWrites(sys: System, run: seq<State>, i: nat)
    requires IsRun(sys, run) && i < |run| && run[i].lock.None?
    ensures Bookkeeping(run[i])
    ensures run[i].dir == RunAll(sys.mode, sys.order, sys.start, Ops(run[i].calls, run[i].log))
    ensures forall c :: c in run[i].calls && run[i].calls[c].phase.Finished? ==> c in run[i].log
  {
    InvAlways(sys, run, i);
  }

  /** In terms of the configuration: the loaded map is the serial edit of the initial one. */
  lemma ConcurrentEditsCompose(sys: System, run: seq<State>, i: nat)
    requires IsRun(sys, run) && i < |run| && run[i].lock.None? && Bookkeeping(run[i])
    requires Canonical(sys.mode, sys.start) && EntryOps(sys.mode, Ops(run[i].calls, run[i].log))
    ensures Load(run[i].dir).Ok?
    ensures Load(run[i].dir).value.entries
         == MeaningAll(Merged(sys.start), Ops(run[i].calls, run[i].log))
  {
    NoLostWrites(sys, run, i);
    RunsRefine(sys.mode, sys.order, sys.start, Ops(run[i].calls, run[i].log));
  }
}
