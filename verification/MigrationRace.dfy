/**
 * A migration beside other calls. `migrate_layout` loads without the write lock and only its
 * `save_all` takes it, so calls that get the lock in between are saved over.
 */
module MigrationRace {
  import opened Toml
  import opened Layout
  import opened ConfigStore
  import opened ConfigRefinement
  import opened WholeSave
  import opened Migration
  import opened ConfigLocking

  /**
   * At `i` the migration listed `stale` and loaded; at `j` the lock is free again and client `m`,
   * which saved what was loaded at `i`, was the last to hold it.
   */
  ghost predicate Raced(sys: System, run: seq<State>, i: nat, j: nat, m: Client, stale: seq<FileKey>) {
    && ValidOrder(sys.order) && IsRun(sys, run) && i <= j < |run| && run[j].lock.None?
    && ListsStale(sys.mode, run[i].dir, stale) && stale != []
    && !MigrationFails(sys.mode, sys.order, run[i].dir, stale)
    && m in run[j].calls && run[j].calls[m].op == SaveAll(Load(run[i].dir).value)
    && run[j].log != [] && run[j].log[|run[j].log| - 1] == m
  }

  /** What all the other calls stored, before the migration's save. */
  ghost function Interim(sys: System, run: seq<State>, j: nat): Dir
    requires j < |run| && Bookkeeping(run[j]) && run[j].log != []
  {
    RunAll(sys.mode, sys.order, sys.start, Ops(run[j].calls, run[j].log)[..|run[j].log| - 1])
  }

  /** The directory once the stale files are retired. */
  ghost function Retired(dir: Dir, stale: seq<FileKey>): Dir {
    RunSteps(dir, Removes(stale))
  }

  // ---- files of other layouts -----------------------------------------------------------

  ghost predicate WritesOwn(sys: System, s: State) {
    forall c :: c in s.calls && s.calls[c].phase.Writing? ==>
      forall n :: 0 <= n < |s.calls[c].phase.steps| ==> Owned(sys.mode, s.calls[c].phase.steps[n].file)
  }

  lemma PlanWritesOwn(sys: System, s: State, t: State, c: Client)
    requires ValidOrder(sys.order) && WritesOwn(sys, s) && Plan(sys, s, t, c)
    ensures WritesOwn(sys, t)
  {
    var loaded := if s.calls[c].phase.Snapshot? then s.calls[c].phase.loaded else Err;
    forall n | 0 <= n < |t.calls[c].phase.steps| ensures Owned(sys.mode, t.calls[c].phase.steps[n].file) {
      StepIsOwn(sys.mode, sys.order, loaded, s.calls[c].op, n);
    }
  }

  lemma WriteKeepsOthers(sys: System, s: State, t: State, c: Client, f: FileKey)
    requires WritesOwn(sys, s) && WriteFile(s, t, c)
    ensures WritesOwn(sys, t)
    ensures !Owned(sys.mode, f) ==> SameFile(t.dir, s.dir, f)
  {}

  lemma NextWritesOwn(sys: System, s: State, t: State, f: FileKey)
    requires ValidOrder(sys.order) && WritesOwn(sys, s) && Next(sys, s, t)
    ensures WritesOwn(sys, t)
    ensures !Owned(sys.mode, f) ==> SameFile(t.dir, s.dir, f)
  {
    var c: Client :| StepBy(sys, s, t, c);
    if Plan(sys, s, t, c) {
      PlanWritesOwn(sys, s, t, c);
    } else if WriteFile(s, t, c) {
      WriteKeepsOthers(sys, s, t, c, f);
    }
  }

  lemma {:induction false} AlwaysWritesOwn(sys: System, run: seq<State>, i: nat)
    requires ValidOrder(sys.order) && IsRun(sys, run) && i < |run|
    ensures WritesOwn(sys, run[i])
  {
    if i > 0 {
      AlwaysWritesOwn(sys, run, i - 1);
      assert Next(sys, run[i - 1], run[i - 1 + 1]);
      NextWritesOwn(sys, run[i - 1], run[i], SingleFile);
    }
  }

  /** No call touches a file its mode would not write. */
  lemma {:induction false} OthersKept(sys: System, run: seq<State>, i: nat, j: nat, f: FileKey)
    requires ValidOrder(sys.order) && IsRun(sys, run) && i <= j < |run| && !Owned(sys.mode, f)
    ensures SameFile(run[j].dir, run[i].dir, f)
    decreases j
  {
    if i < j {
      OthersKept(sys, run, i, j - 1, f);
      AlwaysWritesOwn(sys, run, j - 1);
      assert Next(sys, run[j - 1], run[j - 1 + 1]);
      NextWritesOwn(sys, run[j - 1], run[j], f);
    }
  }

  // ---- what is left ---------------------------------------------------------------------

  /** Saving what was loaded from `seen` over what is there now, and retiring what was stale in `seen`. */
  lemma SavedOver(mode: Mode, order: Order, seen: Dir, before: Dir, now: Dir, stale: seq<FileKey>, f: FileKey)
    requires ValidOrder(order) && ListsStale(mode, seen, stale) && stale != []
    requires !MigrationFails(mode, order, seen, stale)
    requires now == RunSteps(before, SavePlan(mode, order, Load(seen).value))
    requires !Owned(mode, f) ==> SameFile(now, seen, f)
    ensures if Rewrites(mode, Merged(seen), f) then SameFile(Retired(now, stale), Migrate(mode, order, seen, stale), f)
            else if Owned(mode, f) then SameFile(Retired(now, stale), before, f)
            else f !in Retired(now, stale)
  {
    var config := Load(seen).value;
    SucceededIsGood(mode, order, seen, stale);
    GoodNamesReached(mode, order, config);
    SaveWrites(mode, order, config, before);
    MigrateSaves(mode, order, seen, stale);
    RemovesRemove(now, stale);
    if Rewrites(mode, Merged(seen), f) { RewrittenIsOwned(mode, order, config, f); }
  }

  /** The last call to hold the lock saved what the migration had loaded. */
  lemma SavedLast(sys: System, run: seq<State>, i: nat, j: nat, m: Client, stale: seq<FileKey>)
    requires Raced(sys, run, i, j, m, stale)
    ensures Bookkeeping(run[j])
    ensures run[j].dir == RunSteps(Interim(sys, run, j), SavePlan(sys.mode, sys.order, Load(run[i].dir).value))
  {
    NoLostWrites(sys, run, j);
    LastOp(sys, run[j], m);
  }

  lemma LastOp(sys: System, s: State, m: Client)
    requires Bookkeeping(s) && s.log != [] && s.log[|s.log| - 1] == m
    ensures m in s.calls
    ensures var ops := Ops(s.calls, s.log);
            RunAll(sys.mode, sys.order, sys.start, ops) ==
            Run(sys.mode, sys.order, RunAll(sys.mode, sys.order, sys.start, ops[..|s.log| - 1]), s.calls[m].op)
  {
    assert m in s.log;
    var ops := Ops(s.calls, s.log);
    assert ops[|ops| - 1] == s.calls[m].op;
    RunAllLast(sys, ops);
  }

  lemma RunAllLast(sys: System, ops: seq<Op>)
    requires ops != []
    ensures RunAll(sys.mode, sys.order, sys.start, ops) ==
            Run(sys.mode, sys.order, RunAll(sys.mode, sys.order, sys.start, ops[..|ops| - 1]), ops[|ops| - 1])
  {}

  /** Files the migration writes are as if it had run alone; the others as the calls left them. */
  lemma RacedFile(sys: System, run: seq<State>, i: nat, j: nat, m: Client, stale: seq<FileKey>, f: FileKey)
    requires Raced(sys, run, i, j, m, stale)
    ensures Bookkeeping(run[j])
    ensures if Rewrites(sys.mode, Merged(run[i].dir), f)
            then SameFile(Retired(run[j].dir, stale), Migrate(sys.mode, sys.order, run[i].dir, stale), f)
            else if Owned(sys.mode, f) then SameFile(Retired(run[j].dir, stale), Interim(sys, run, j), f)
            else f !in Retired(run[j].dir, stale)
  {
    SavedLast(sys, run, i, j, m, stale);
    if !Owned(sys.mode, f) { OthersKept(sys, run, i, j, f); }
    SavedOver(sys.mode, sys.order, run[i].dir, Interim(sys, run, j), run[j].dir, stale, f);
  }

  /** Per type, everything stored between the migration's load and its save is lost. */
  lemma TypeRaceLosesAll(sys: System, run: seq<State>, i: nat, j: nat, m: Client, stale: seq<FileKey>)
    requires Raced(sys, run, i, j, m, stale) && sys.mode.MultiByType?
    ensures Retired(run[j].dir, stale) == Migrate(MultiByType, sys.order, run[i].dir, stale)
    ensures Parses(Retired(run[j].dir, stale)) && Merged(Retired(run[j].dir, stale)) == Merged(run[i].dir)
  {
    var final, alone := Retired(run[j].dir, stale), Migrate(MultiByType, sys.order, run[i].dir, stale);
    NothingStaleLeft(MultiByType, sys.order, run[i].dir, stale);
    forall f ensures SameFile(final, alone, f) { RacedFile(sys, run, i, j, m, stale, f); }
    SameFiles(final, alone);
    TypeMigrationPreserves(sys.order, run[i].dir, stale);
  }

  lemma SameFiles(a: Dir, b: Dir)
    requires forall f :: SameFile(a, b, f)
    ensures a == b
  {
    forall f ensures f in a <==> f in b { assert SameFile(a, b, f); }
    assert forall f :: f in a ==> SameFile(a, b, f);
  }

  /** Per item, what was stored for an item in between survives exactly if the load had not seen it. */
  lemma ItemRaceKeepsIff(
      sys: System, run: seq<State>, i: nat, j: nat, m: Client, stale: seq<FileKey>, c: Category, name: string)
    requires Raced(sys, run, i, j, m, stale) && sys.mode.MultiByItem? && !c.Basic? && !BadName(name)
    ensures Bookkeeping(run[j])
    ensures var f := ItemFile(c, name);
            SameFile(Retired(run[j].dir, stale), Interim(sys, run, j), f) <==>
            (KeyOf(c, name) in Merged(run[i].dir) ==>
               SameFile(Interim(sys, run, j), Migrate(MultiByItem, sys.order, run[i].dir, stale), f))
  {
    RacedFile(sys, run, i, j, m, stale, ItemFile(c, name));
  }

  // ---- every edit can be lost -----------------------------------------------------------

  ghost function Last(run: seq<State>): State
    requires run != []
  {
    run[|run| - 1]
  }

  lemma Extend(sys: System, run: seq<State>, t: State) returns (more: seq<State>)
    requires IsRun(sys, run) && Next(sys, Last(run), t)
    ensures IsRun(sys, more) && run <= more && Last(more) == t
  {
    more := run + [t];
  }

  lemma {:induction false} WriteAll(sys: System, run: seq<State>, c: Client) returns (more: seq<State>)
    requires IsRun(sys, run) && c in Last(run).calls && Last(run).calls[c].phase.Writing?
    ensures IsRun(sys, more) && run <= more
    ensures var s := Last(run);
            Last(more) == s.(dir := RunSteps(s.dir, s.calls[c].phase.steps), calls := WithPhase(s, c, Writing([])))
    decreases |Last(run).calls[c].phase.steps|
  {
    var s := Last(run);
    var steps := s.calls[c].phase.steps;
    if steps == [] {
      more := run;
      assert WithPhase(s, c, Writing([])) == s.calls;
    } else {
      var t := s.(dir := Apply(s.dir, steps[0]), calls := WithPhase(s, c, Writing(steps[1..])));
      assert WriteFile(s, t, c);
      assert StepBy(sys, s, t, c);
      more := Extend(sys, run, t);
      more := WriteAll(sys, more, c);
      RunStepsHead(s.dir, steps);
      assert WithPhase(t, c, Writing([])) == WithPhase(s, c, Writing([]));
    }
  }

  lemma PlanCall(sys: System, run: seq<State>, c: Client) returns (more: seq<State>)
    requires IsRun(sys, run) && c in Last(run).calls
    requires var call := Last(run).calls[c];
             if Reads(sys.mode, call.op) then call.phase == Snapshot(Load(Last(run).dir)) else call.phase.Entered?
    ensures IsRun(sys, more) && run <= more
    ensures var s := Last(run);
            var steps := StepsFrom(sys.mode, sys.order, Load(s.dir), s.calls[c].op);
            Last(more) == s.(calls := WithPhase(s, c, Writing(steps)))
  {
    var s := Last(run);
    if !Reads(sys.mode, s.calls[c].op) { UnreadOps(sys, Err, s.dir, s.calls[c].op); }
    var t := s.(calls := WithPhase(s, c, Writing(StepsFrom(sys.mode, sys.order, Load(s.dir), s.calls[c].op))));
    assert Plan(sys, s, t, c);
    assert StepBy(sys, s, t, c);
    more := Extend(sys, run, t);
  }

  /** From a planned call to its end. */
  lemma WriteAndRelease(sys: System, run: seq<State>, c: Client) returns (more: seq<State>)
    requires IsRun(sys, run) && c in Last(run).calls && Last(run).calls[c].phase.Writing?
    ensures IsRun(sys, more) && run <= more
    ensures var s := Last(run);
            Last(more) == State(RunSteps(s.dir, s.calls[c].phase.steps), None, WithPhase(s, c, Finished), s.log)
  {
    var s := Last(run);
    more := WriteAll(sys, run, c);
    var t := Last(more);
    assert WithPhase(t, c, Finished) == WithPhase(s, c, Finished);
    more := ReleaseLock(sys, more, c);
  }

  lemma ReleaseLock(sys: System, run: seq<State>, c: Client) returns (more: seq<State>)
    requires IsRun(sys, run) && c in Last(run).calls && Last(run).calls[c].phase == Writing([])
    ensures IsRun(sys, more) && run <= more
    ensures var s := Last(run);
            Last(more) == s.(lock := None, calls := WithPhase(s, c, Finished))
  {
    var s := Last(run);
    var t := s.(lock := None, calls := WithPhase(s, c, Finished));
    assert Release(s, t, c);
    assert StepBy(sys, s, t, c);
    more := Extend(sys, run, t);
  }

  lemma StartCall(sys: System, run: seq<State>, c: Client, op: Op) returns (more: seq<State>)
    requires IsRun(sys, run) && Last(run).lock.None? && c !in Last(run).calls
    ensures IsRun(sys, more) && run <= more
    ensures var s := Last(run);
            Last(more) == State(s.dir, Some(c), s.calls[c := Call(op, Entered)], s.log + [c])
  {
    var s := Last(run);
    var t := s.(calls := s.calls[c := Call(op, Waiting)]);
    assert Submit(s, t, c, op);
    assert StepBy(sys, s, t, c);
    more := Extend(sys, run, t);
    var u := State(s.dir, Some(c), s.calls[c := Call(op, Entered)], s.log + [c]);
    assert u.calls == WithPhase(t, c, Entered);
    assert Acquire(t, u, c);
    assert StepBy(sys, t, u, c);
    more := Extend(sys, more, u);
  }

  lemma LoadForCall(sys: System, run: seq<State>, c: Client) returns (more: seq<State>)
    requires IsRun(sys, run) && c in Last(run).calls && Last(run).calls[c].phase.Entered?
    requires Reads(sys.mode, Last(run).calls[c].op)
    ensures IsRun(sys, more) && run <= more
    ensures var s := Last(run);
            Last(more) == s.(calls := WithPhase(s, c, Snapshot(Load(s.dir))))
  {
    var s := Last(run);
    var t := s.(calls := WithPhase(s, c, Snapshot(Load(s.dir))));
    assert TakeSnapshot(sys, s, t, c);
    assert StepBy(sys, s, t, c);
    more := Extend(sys, run, t);
  }

  /** The holder's call, once it has loaded if it does, to its end. */
  lemma FinishCall(sys: System, run: seq<State>, c: Client, calls: map<Client, Call>, op: Op) returns (more: seq<State>)
    requires IsRun(sys, run)
    requires Last(run).calls ==
             calls[c := Call(op, if Reads(sys.mode, op) then Snapshot(Load(Last(run).dir)) else Entered)]
    ensures IsRun(sys, more) && run <= more
    ensures var s := Last(run);
            Last(more) == State(Run(sys.mode, sys.order, s.dir, op), None, calls[c := Call(op, Finished)], s.log)
  {
    more := PlanCall(sys, run, c);
    var t := Last(more);
    assert WithPhase(t, c, Finished) == calls[c := Call(op, Finished)];
    more := WriteAndRelease(sys, more, c);
  }

  /** With the lock free, any call can be made from start to end. */
  lemma CallOnce(sys: System, run: seq<State>, c: Client, op: Op) returns (more: seq<State>)
    requires IsRun(sys, run) && Last(run).lock.None? && c !in Last(run).calls
    ensures IsRun(sys, more) && run <= more
    ensures Last(more).dir == Run(sys.mode, sys.order, Last(run).dir, op) && Last(more).lock.None?
    ensures Last(more).calls == Last(run).calls[c := Call(op, Finished)] && Last(more).log == Last(run).log + [c]
  {
    more := StartCall(sys, run, c, op);
    if Reads(sys.mode, op) {
      var t := Last(more);
      assert WithPhase(t, c, Snapshot(Load(t.dir))) == Last(run).calls[c := Call(op, Snapshot(Load(t.dir)))];
      more := LoadForCall(sys, more, c);
    }
    more := FinishCall(sys, more, c, Last(run).calls, op);
  }

  /** Two calls, one after the other, from the start. */
  lemma CallTwice(sys: System, first: Op, second: Op) returns (run: seq<State>)
    ensures IsRun(sys, run) && run[0].dir == sys.start
    ensures Last(run).lock.None? && Last(run).log == [0, 1]
    ensures Last(run).calls == map[0 := Call(first, Finished), 1 := Call(second, Finished)]
  {
    var one := CallOnce(sys, [State(sys.start, None, map[], [])], 0, first);
    assert Last(one).log == [0] && Last(one).calls == map[0 := Call(first, Finished)];
    run := CallOnce(sys, one, 1, second);
    assert run[0] == one[0];
  }

  lemma BothLogged(sys: System, run: seq<State>)
    requires IsRun(sys, run) && Last(run).log == [0, 1]
    ensures Bookkeeping(Last(run)) && 0 in Last(run).calls && 1 in Last(run).calls
    ensures Ops(Last(run).calls, Last(run).log) == [Last(run).calls[0].op, Last(run).calls[1].op]
  {
    InvAlways(sys, run, |run| - 1);
    assert 0 in Last(run).log && 1 in Last(run).log;
  }

  /**
   * Whatever the directory, the layout and the edit: a run in which the edit is made between the
   * migration's load and its save. What it wrote to a file the migration writes is lost; per type
   * that is all of it, per item all that was stored for an item the load had seen.
   */
  lemma EveryEditCanBeLost(sys: System, stale: seq<FileKey>, op: Op) returns (run: seq<State>)
    requires ValidOrder(sys.order) && ListsStale(sys.mode, sys.start, stale) && stale != []
    requires !MigrationFails(sys.mode, sys.order, sys.start, stale)
    ensures IsRun(sys, run) && Raced(sys, run, 0, |run| - 1, 1, stale) && Bookkeeping(Last(run))
    ensures Ops(Last(run).calls, Last(run).log) == [op, SaveAll(Load(sys.start).value)]
    ensures var final, alone := Retired(Last(run).dir, stale), Migrate(sys.mode, sys.order, sys.start, stale);
            && (forall f :: Rewrites(sys.mode, Merged(sys.start), f) ==> SameFile(final, alone, f))
            && (sys.mode.MultiByType? ==> final == alone && Merged(final) == Merged(sys.start))
  {
    run := CallTwice(sys, op, SaveAll(Load(sys.start).value));
    BothLogged(sys, run);
    var final, alone := Retired(Last(run).dir, stale), Migrate(sys.mode, sys.order, sys.start, stale);
    forall f | Rewrites(sys.mode, Merged(sys.start), f) ensures SameFile(final, alone, f) {
      RacedFile(sys, run, 0, |run| - 1, 1, stale, f);
    }
    if sys.mode.MultiByType? { TypeRaceLosesAll(sys, run, 0, |run| - 1, 1, stale); }
  }
}
