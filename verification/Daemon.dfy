/**
 * The daemon's loop over one root, as far as scans are concerned: which scan
 * job a row was last seen by. Rows are named by their id; `begun` and `marked`
 * are history: a batch of the running job has run, and the rows it has marked.
 *
 * Between any two steps other writers of the loop (remote scan, reconciler,
 * queue jobs) may insert rows; none of them writes the last-seen column of an
 * existing row. A crash may fall anywhere and loses only the loop's position.
 */
module Daemon {
  import opened Basics

  const MAX_DIRTY_PER_TICK: nat := 100

  datatype Job = Job(id: string, begun: bool, marked: set<string>)

  /** Where the loop stands: before the startup scan, at the top of the loop, or among dirty paths. */
  datatype Phase = Startup | Top | Dirty(processed: nat)

  datatype State = State(phase: Phase, seen: map<string, Option<string>>, job: Option<Job>, used: set<string>)

  datatype Step =
    | StartupScan(newId: string, marks: set<string>, completes: bool)
    | StartupSkip                                     // root missing, or the scan could not start
    | Continue(marks: set<string>, completes: bool)   // a running job: one more batch, and nothing else this round
    | ContinueFails
    | EnterDirty
    | PathScan(id: string, rows: set<string>)
    | FullRescan(id: string)
    | DirtyFails
    | LeaveDirty
    | ForeignInsert(row: string)
    | Crash

  function MarkAll(seen: map<string, Option<string>>, rows: set<string>, id: string): map<string, Option<string>>
  {
    map r | r in seen.Keys + rows :: if r in rows then Some(id) else seen[r]
  }

  /** One batch of the running job; completion sweeps and ends it. */
  function Batch(s: State, job: Job, marks: set<string>, completes: bool): State
  {
    s.(phase := Top, seen := MarkAll(s.seen, marks, job.id),
       job := if completes then None else Some(Job(job.id, true, job.marked + marks)))
  }

  function Next(s: State, step: Step): State
  {
    match step
    case StartupScan(newId, marks, completes) =>
      if s.phase != Startup || newId in s.used then s
      else if s.job.Some? then Batch(s, s.job.value, marks, completes)
      else Batch(s.(used := s.used + {newId}), Job(newId, false, {}), marks, completes)
    case StartupSkip => if s.phase == Startup then s.(phase := Top) else s
    case Continue(marks, completes) =>
      if s.phase == Top && s.job.Some? then Batch(s, s.job.value, marks, completes) else s
    case ContinueFails => s
    case EnterDirty => if s.phase == Top && s.job.None? then s.(phase := Dirty(0)) else s
    case PathScan(id, rows) =>
      if !InDirty(s) || id in s.used then s
      else s.(phase := Dirty(s.phase.processed + 1), seen := MarkAll(s.seen, rows, id), used := s.used + {id})
    case FullRescan(id) =>
      if !InDirty(s) || id in s.used then s
      else s.(phase := Dirty(s.phase.processed + 1), used := s.used + {id},
              job := if s.job.Some? then s.job else Some(Job(id, false, {})))
    case DirtyFails => if InDirty(s) then s.(phase := Dirty(s.phase.processed + 1)) else s
    case LeaveDirty => if s.phase.Dirty? then s.(phase := Top) else s
    case ForeignInsert(row) => if row in s.seen then s else s.(seen := s.seen[row := None])
    case Crash => s.(phase := Startup)
  }

  /** The loop may claim one more dirty path this tick. */
  predicate InDirty(s: State) { s.phase.Dirty? && s.phase.processed < MAX_DIRTY_PER_TICK }

  function Run(s: State, steps: seq<Step>): State
    decreases |steps|
  {
    if steps == [] then s else Run(Next(s, steps[0]), steps[1..])
  }

  /** A database without a running scan, whose rows were last seen by whatever scans there were. */
  predicate Initial(s: State)
  {
    s.phase == Startup && s.job.None? && IdsUsed(s)
  }

  predicate IdsUsed(s: State)
  {
    forall r | r in s.seen && s.seen[r].Some? :: s.seen[r].value in s.used
  }

  predicate CarriesId(s: State, r: string, id: string) { r in s.seen && s.seen[r] == Some(id) }

  /**
   * The rows that carry the running job's id are exactly those its batches
   * marked, and dirty paths are processed only before its first batch.
   */
  ghost predicate Inv(s: State)
  {
    && IdsUsed(s)
    && (s.job.Some? ==>
          && s.job.value.id in s.used
          && (forall r :: CarriesId(s, r, s.job.value.id) <==> r in s.job.value.marked)
          && (!s.job.value.begun ==> s.job.value.marked == {})
          && (s.phase.Dirty? ==> !s.job.value.begun))
  }

  lemma BatchInv(s: State, job: Job, marks: set<string>, completes: bool)
    requires IdsUsed(s) && job.id in s.used
    requires forall r :: CarriesId(s, r, job.id) <==> r in job.marked
    ensures Inv(Batch(s, job, marks, completes))
  {
    var s' := Batch(s, job, marks, completes);
    forall r ensures CarriesId(s', r, job.id) <==> r in job.marked + marks {
      assert CarriesId(s, r, job.id) <==> r in job.marked;
    }
  }

  lemma NextInv(s: State, step: Step)
    requires Inv(s)
    ensures Inv(Next(s, step))
  {
    match step
    case StartupScan(newId, marks, completes) =>
      if s.phase == Startup && newId !in s.used {
        if s.job.Some? { BatchInv(s, s.job.value, marks, completes); }
        else {
          assert forall r :: !CarriesId(s, r, newId);
          BatchInv(s.(used := s.used + {newId}), Job(newId, false, {}), marks, completes);
        }
      }
    case Continue(marks, completes) =>
      if s.phase == Top && s.job.Some? { BatchInv(s, s.job.value, marks, completes); }
    case PathScan(id, rows) =>
      if s.job.Some? {
        assert forall r :: CarriesId(Next(s, step), r, s.job.value.id) ==> CarriesId(s, r, s.job.value.id);
      }
    case FullRescan(id) =>
      assert id !in s.used ==> forall r :: !CarriesId(s, r, id);
    case ForeignInsert(row) =>
      if s.job.Some? {
        assert forall r :: CarriesId(Next(s, step), r, s.job.value.id) <==> CarriesId(s, r, s.job.value.id);
      }
    case _ =>
  }

  lemma {:induction false} RunInv(s: State, steps: seq<Step>)
    requires Inv(s)
    ensures Inv(Run(s, steps))
    decreases |steps|
  {
    if steps != [] {
      NextInv(s, steps[0]);
      RunInv(Next(s, steps[0]), steps[1..]);
    }
  }

  /** The step is a batch, at startup or in the loop, that completes the running job. */
  predicate Completes(s: State, step: Step)
  {
    s.job.Some? && ((step.Continue? && step.completes && s.phase == Top)
                    || (step.StartupScan? && step.completes && s.phase == Startup && step.newId !in s.used))
  }

  function MarksOf(step: Step): set<string>
    requires step.Continue? || step.StartupScan?
  {
    step.marks
  }

  /**
   * Marks survive to the sweep. In every run, with crashes and full-rescan
   * events anywhere, when a job completes the rows carrying its id, which are
   * those the sweep spares, are exactly the rows marked by any of its batches.
   */
  lemma MarksSurviveToSweep(s: State, steps: seq<Step>, last: Step)
    requires Initial(s) && Completes(Run(s, steps), last)
    ensures var before := Run(s, steps);
            var after := Next(before, last);
            && after.job.None?
            && (forall r :: CarriesId(after, r, before.job.value.id) <==> r in before.job.value.marked + MarksOf(last))
  {
    RunInv(s, steps);
    var before := Run(s, steps);
    var after := Next(before, last);
    hide Run;
    forall r ensures CarriesId(after, r, before.job.value.id) <==> r in before.job.value.marked + MarksOf(last) {
      assert CarriesId(before, r, before.job.value.id) <==> r in before.job.value.marked;
    }
  }

  /** The reason: no path scan runs between a job's first batch and its completion. */
  lemma NoPathScanDuringJob(s: State, steps: seq<Step>, id: string, rows: set<string>)
    requires Initial(s)
    requires Next(Run(s, steps), PathScan(id, rows)) != Run(s, steps)
    ensures var before := Run(s, steps); before.job.None? || !before.job.value.begun
  {
    RunInv(s, steps);
  }

  /** No tick processes more than a hundred dirty paths. */
  lemma {:induction false} TicksAreBounded(s: State, steps: seq<Step>)
    requires s.phase.Dirty? ==> s.phase.processed <= 100
    ensures Run(s, steps).phase.Dirty? ==> Run(s, steps).phase.processed <= 100
    decreases |steps|
  {
    if steps != [] { TicksAreBounded(Next(s, steps[0]), steps[1..]); }
  }

  /** Which steps each place in the loop allows: a running job goes first, and only then dirty paths have their turn. */
  lemma LoopOrder(s: State, id: string, rows: set<string>, marks: set<string>, completes: bool)
    requires id !in s.used
    ensures Next(s, EnterDirty).phase == (if s.phase == Top && s.job.None? then Dirty(0) else s.phase)
    ensures Next(s, Continue(marks, completes)) != s ==> s.phase == Top && s.job.Some?
    ensures Next(s, StartupSkip).phase == (if s.phase == Startup then Top else s.phase)
    ensures Next(s, LeaveDirty).phase == (if s.phase.Dirty? then Top else s.phase)
    ensures Next(s, DirtyFails).phase == Next(s, PathScan(id, rows)).phase == Next(s, FullRescan(id)).phase
            == (if s.phase.Dirty? && s.phase.processed < 100 then Dirty(s.phase.processed + 1) else s.phase)
    ensures Next(s, Crash) == s.(phase := Startup)
  {
  }

  /** A path scan marks its rows, and a row inserted by others was seen by no scan. */
  lemma OtherMarks(s: State, id: string, rows: set<string>, r: string)
    requires id !in s.used
    ensures s.phase.Dirty? && s.phase.processed < 100 ==>
              var s' := Next(s, PathScan(id, rows));
              s'.job == s.job && (if r in rows then CarriesId(s', r, id) else Find(s'.seen, r) == Find(s.seen, r))
    ensures r !in s.seen ==> Find(Next(s, ForeignInsert(r)).seen, r) == Some(None)
    ensures r in s.seen ==> Next(s, ForeignInsert(r)) == s
  {
  }

  /**
   * A full rescan that is asked for is carried out: unless a scan is running
   * anyway it opens a job with a new id, which the loop continues, across a
   * crash, until a batch completes it; the rows seen by then are the marked ones.
   */
  lemma RescanIsServed(s: State, id: string, other: string, first: set<string>, second: set<string>, r: string)
    requires Inv(s) && s.job.None? && s.phase.Dirty? && s.phase.processed < 100
    requires id !in s.used && other !in s.used && other != id
    ensures var asked := Next(Next(s, FullRescan(id)), LeaveDirty);
            var begun := Next(asked, Continue(first, false));
            var ended := Next(Next(begun, Crash), StartupScan(other, second, true));
            && asked.job == Some(Job(id, false, {})) && asked.phase == Top
            && begun.job == Some(Job(id, true, first))
            && ended.job.None? && ended.phase == Top && (CarriesId(ended, r, id) <==> r in first + second)
    ensures s.(job := Some(Job(other, true, first))).job
         == Next(s.(job := Some(Job(other, true, first))), FullRescan(id)).job
  {
    var asked := Next(Next(s, FullRescan(id)), LeaveDirty);
    assert !CarriesId(s, r, id);
    assert {} + first == first;
  }
}
