/**
 * Whole runs over one path: user edits, local scans and sweeps, remote scans,
 * uploads, reconciles in any mode, and deletion of the remote root.
 *
 * Next to the row the model keeps what no row knows: the file on disk, and the
 * hashes whose content has actually been sent to or received from the server.
 */
module EntryRuns {
  import opened Basics
  import opened EntrySync

  /** `seen` is the content every (size, mtime) pair has stood for; see `StatFaithful`. */
  datatype World = World(row: Option<Entry>, disk: Option<File>, transferred: set<string>, seen: map<(int, string),
      string>)

  datatype Step =
    | Edit(file: Option<File>)
    | LocalScan(reuse: bool, scan: string)
    | DirectoryScan(scan: string)
    | Sweep(scan: string)
    | RemoteScan(listed: Listed)
    | UploadJob(mode: Mode, fileId: string)
    | FolderJob(folderId: string)
    | Reconcile(mode: Mode, services: Services, fetch: Fetch)
    | RemoveLocal(mode: Mode)
    | RootDeleted

  function Stat(f: File): (int, string) { (f.size, f.mtime) }

  /** A size and modification time never stand for two contents; scanner and uploader both rely on it. */
  predicate StatFaithful(w: World, f: File)
  {
    Stat(f) in w.seen ==> w.seen[Stat(f)] == f.hash
  }

  function OnDisk(w: World, file: Option<File>): World
  {
    w.(disk := file, seen := if file.Some? then w.seen[Stat(file.value) := file.value.hash] else w.seen)
  }

  /** The row's recorded size and time are those of the file on disk. */
  predicate InStep(e: Entry, f: File)
  {
    e.size == Some(f.size) && e.mtime == Some(f.mtime)
  }

  /** `prepareUploadItem` lets the job through. */
  predicate UploadAllowed(w: World, mode: Mode)
  {
    w.row.Some? && w.disk.Some? && !w.row.value.isDirectory && Decide(w.row.value, mode) == Upload
    && InStep(w.row.value, w.disk.value)
  }

  function Next(w: World, step: Step): World
  {
    match step
    case Edit(file) =>
      if file.Some? && !StatFaithful(w, file.value) then w else OnDisk(w, file)
    case LocalScan(reuse, scan) =>
      if w.disk.None? then w else w.(row := Some(FileScanned(w.row, w.disk.value, reuse, scan)))
    case DirectoryScan(scan) =>
      w.(row := Some(DirectoryScanned(w.row, scan)))
    case Sweep(scan) =>
      if w.row.None? then w else w.(row := Some(Swept(w.row.value, scan)))
    case RemoteScan(listed) =>
      w.(row := Some(RemoteScanned(w.row, listed)))
    case UploadJob(mode, fileId) =>
      if !UploadAllowed(w, mode) then w
      else w.(row := Some(MarkedUploaded(w.row.value, fileId)), transferred := w.transferred + {w.disk.value.hash})
    case FolderJob(folderId) =>
      if w.row.None? || !w.row.value.isDirectory then w
      else w.(row := Some(MarkedFolderCreated(w.row.value, folderId)))
    case Reconcile(mode, services, fetch) =>
      if w.row.None? then w
      else
        var written := if Fetches(w.row.value, mode, services) && !fetch.NotFetched? then Some(fetch.file) else None;
        if written.Some? && !StatFaithful(w, written.value) then w
        else
          var row := Some(Reconciled(w.row.value, mode, services, fetch));
          if written.None? then w.(row := row)
          else OnDisk(w, written).(row := row, transferred := w.transferred + {written.value.hash})
    case RemoveLocal(mode) =>
      if w.row.None? || Decide(w.row.value, mode) != DeleteLocal then w else w.(disk := None)
    case RootDeleted =>
      if w.row.None? then w else w.(row := Some(MarkedRootRemoteDeleted(w.row.value)), disk := None)
  }

  function Run(w: World, steps: seq<Step>): World
    decreases |steps|
  {
    if steps == [] then w else Run(Next(w, steps[0]), steps[1..])
  }

  const START: World := World(None, None, {}, map[])

  // ---------------------------------------------------------------- invariant

  ghost predicate RowInv(w: World, e: Entry)
  {
    && (e.syncedHash.Some? ==> e.syncedHash.value in w.transferred)
    && (e.size.Some? <==> e.mtime.Some?)
    && (e.size.Some? ==> e.hash.Some? && (e.size.value, e.mtime.value) in w.seen
                         && w.seen[(e.size.value, e.mtime.value)] == e.hash.value)
  }

  ghost predicate Inv(w: World)
  {
    && (w.row.Some? ==> RowInv(w, w.row.value))
    && (w.disk.Some? ==> Stat(w.disk.value) in w.seen && w.seen[Stat(w.disk.value)] == w.disk.value.hash)
  }

  lemma NextInv(w: World, step: Step)
    requires Inv(w)
    ensures Inv(Next(w, step))
  {
    hide Decide;
    match step
    case LocalScan(_, _) => LocalScanInv(w, step);
    case Reconcile(_, _, _) => ReconcileInv(w, step);
    case _ =>
  }

  lemma LocalScanInv(w: World, step: Step)
    requires Inv(w) && step.LocalScan?
    ensures Inv(Next(w, step))
  {
  }

  lemma ReconcileInv(w: World, step: Step)
    requires Inv(w) && step.Reconcile?
    ensures Inv(Next(w, step))
  {
    hide Decide, Fetches;
    if w.row.Some? { ReconciledColumns(w.row.value, step.mode, step.services, step.fetch); }
    hide Reconciled;
  }

  /** A reconcile leaves the recorded content as it was, or records the file it wrote. */
  lemma ReconciledColumns(e: Entry, mode: Mode, services: Services, fetch: Fetch)
    ensures var r := Reconciled(e, mode, services, fetch);
            || (r.hash == e.hash && r.syncedHash == e.syncedHash && r.size == e.size && r.mtime == e.mtime)
            || (Fetches(e, mode, services) && fetch.Written? && r.hash == r.syncedHash == Some(fetch.file.hash)
                && r.size == Some(fetch.file.size) && r.mtime == Some(fetch.file.mtime))
  {
    hide Decide;
  }

  lemma {:induction false} RunInv(w: World, steps: seq<Step>)
    requires Inv(w)
    ensures Inv(Run(w, steps))
    decreases |steps|
  {
    if steps != [] {
      NextInv(w, steps[0]);
      RunInv(Next(w, steps[0]), steps[1..]);
    }
  }

  // ---------------------------------------------------------------- data safety

  /**
   * Two-way data safety, over every run in which modes, edits, scans, uploads
   * and reconciles interleave freely. If the next two-way decision gives up the
   * local copy, the recorded content is one that was transferred to or from the
   * server; and if the row is in step with the disk, so is the content that
   * would be lost. Remote content is replaced only when absent or acknowledged,
   * and an entry in conflict is left alone.
   */
  lemma TwoWayDataSafety(steps: seq<Step>)
    requires Run(START, steps).row.Some?
    ensures var w := Run(START, steps);
            var e := w.row.value;
            && (Decide(e, TwoWay) in {Download, DeleteLocal} ==>
                  && e.hash == e.syncedHash
                  && (e.hash.Some? ==> e.hash.value in w.transferred)
                  && (w.disk.Some? && InStep(e, w.disk.value) ==> w.disk.value.hash in w.transferred))
            && (Decide(e, TwoWay) == Upload ==> e.remoteId.None? || e.remoteUpdated == e.syncedRemote)
            && (InConflict(e) ==> Decide(e, TwoWay) == Conflict)
  {
    RunInv(START, steps);
    TwoWayExactly(Run(START, steps).row.value);
    hide Run, Decide;
  }

  /** An uploaded row always records content that was really sent: hash and synced hash are those of the disk. */
  lemma UploadRecordsWhatWasSent(steps: seq<Step>, mode: Mode, fileId: string)
    requires UploadAllowed(Run(START, steps), mode)
    ensures var w := Next(Run(START, steps), UploadJob(mode, fileId));
            w.row.value.syncedHash == Some(w.disk.value.hash) && w.disk.value.hash in w.transferred
  {
    RunInv(START, steps);
    hide Run, Decide;
  }

  /** What an uploaded row must be: known to the server under the file's id, synced, and not in conflict. */
  predicate MarkedAs(e: Entry, fileId: string)
  {
    && e.remoteId == Some(fileId) && e.remoteFileId == Some(fileId) && !e.remoteDeleted && !e.localDeleted
    && e.hash == e.syncedHash && !InConflict(e) && e.state == Unchanged
  }

  /**
   * The mark of an upload settles the row, whatever it was: it is on the server
   * under the file's id and has nothing to send. Upload-only has nothing left to
   * do, and no mode uploads or deletes the file.
   */
  lemma UploadSettles(e: Entry, mode: Mode, fileId: string)
    requires Decide(e, mode) == Upload && !e.isDirectory
    ensures var after := MarkedUploaded(e, fileId);
            && MarkedAs(after, fileId) && after.hash == e.hash && !after.isDirectory
            && after.size == e.size && after.mtime == e.mtime && after.lastSeen == e.lastSeen
            && after.remoteUpdated == e.remoteUpdated && after.syncedRemote == e.syncedRemote
            && Decide(after, UploadOnly) == Noop
            && (forall m :: Decide(after, m) !in {Upload, DeleteLocal, DeleteRemote, Conflict})
  {
  }

  /** Steps that bring no new content, no new remote version, and lose no record of what was downloaded. */
  predicate Uneventful(step: Step)
  {
    match step
    case LocalScan(_, _) => true
    case Sweep(_) => true
    case UploadJob(_, _) => true
    case FolderJob(_) => true
    case RemoveLocal(_) => true
    case Reconcile(_, services, fetch) => fetch.NotFetched? || (services.canHash && fetch.Written?)
    case _ => false
  }

  /** The row is settled and records the content on disk. */
  predicate Settled(w: World)
  {
    && w.row.Some? && w.disk.Some? && !w.row.value.isDirectory && OnServer(w.row.value) && !w.row.value.localDeleted
    && !InConflict(w.row.value) && w.row.value.hash == w.row.value.syncedHash == Some(w.disk.value.hash)
  }

  lemma SettledDecisions(e: Entry, m: Mode)
    requires OnServer(e) && !e.localDeleted && !InConflict(e) && e.hash == e.syncedHash
    ensures Decide(e, m) in {Noop, Download}
  {
  }

  lemma SettledStep(w: World, step: Step)
    requires Inv(w) && Settled(w) && Uneventful(step)
    ensures Settled(Next(w, step))
  {
    SettledDecisions(w.row.value, UploadOnly);
    SettledDecisions(w.row.value, RemoteMirror);
    SettledDecisions(w.row.value, TwoWay);
    assert forall m :: Decide(w.row.value, m) in {Noop, Download};
    hide Decide;
  }

  lemma {:induction false} SettledRun(w: World, steps: seq<Step>)
    requires Inv(w) && Settled(w) && forall i | 0 <= i < |steps| :: Uneventful(steps[i])
    ensures Settled(Run(w, steps))
    decreases |steps|
  {
    hide Settled, Next, Inv;
    if steps != [] {
      assert Uneventful(steps[0]);
      NextInv(w, steps[0]);
      SettledStep(w, steps[0]);
      SettledRun(Next(w, steps[0]), steps[1..]);
    }
  }

  /**
   * Once an upload was let through, the file is neither uploaded again nor
   * deleted, in any mode, until it is edited, listed, or the root is deleted.
   */
  lemma UploadedOnce(steps: seq<Step>, mode: Mode, fileId: string, quiet: seq<Step>, later: Mode)
    requires UploadAllowed(Run(START, steps), mode) && forall i | 0 <= i < |quiet| :: Uneventful(quiet[i])
    ensures var w := Run(Next(Run(START, steps), UploadJob(mode, fileId)), quiet);
            w.row.Some? && Decide(w.row.value, later) in {Noop, Download}
  {
    var w := Run(START, steps);
    RunInv(START, steps);
    hide Run, Next, Inv, UploadAllowed;
    NextInv(w, UploadJob(mode, fileId));
    UploadIsSettled(w, mode, fileId);
    SettledRun(Next(w, UploadJob(mode, fileId)), quiet);
    SettledDecisions(Run(Next(w, UploadJob(mode, fileId)), quiet).row.value, later);
  }

  lemma UploadIsSettled(w: World, mode: Mode, fileId: string)
    requires Inv(w) && UploadAllowed(w, mode)
    ensures Settled(Next(w, UploadJob(mode, fileId)))
  {
    UploadSettles(w.row.value, mode, fileId);
    hide Decide;
  }

  /** The step by which a two-way reconcile gives up the local copy: a download over it, or its deletion. */
  predicate GivesUp(e: Entry, step: Step)
  {
    match step
    case Reconcile(mode, services, fetch) => mode == TwoWay && Fetches(e, TwoWay, services) && !fetch.NotFetched?
    case RemoveLocal(mode) => mode == TwoWay && Decide(e, TwoWay) == DeleteLocal
    case _ => false
  }

  /** The step does not itself bring the content, and writes a file that is stat-faithful. */
  predicate Unrelated(w: World, f: File, step: Step)
  {
    step.Reconcile? && !step.fetch.NotFetched? ==> step.fetch.file.hash != f.hash && StatFaithful(w, step.fetch.file)
  }

  /** The content is neither on disk nor was ever transferred. */
  predicate Lost(w: World, f: File)
  {
    (w.disk.None? || w.disk.value.hash != f.hash) && f.hash !in w.transferred
  }

  /**
   * What a two-way reconcile loses, exactly. Take any reachable state whose row
   * gives up the local copy, and any content the user may have put there since.
   * If the row is in step with that content it was transferred, and so is not
   * lost. If the row is out of step, the reconcile does not notice, and the
   * content is lost if and only if it was never transferred.
   */
  lemma LostIffOutOfStep(steps: seq<Step>, f: File, step: Step)
    requires var w := Run(START, steps);
             && w.row.Some? && StatFaithful(w, f) && GivesUp(w.row.value, step)
             && Unrelated(OnDisk(w, Some(f)), f, step)
    ensures var w := Run(START, steps);
            var edited := Next(w, Edit(Some(f)));
            var after := Next(edited, step);
            && edited.row == w.row && edited.disk == Some(f) && GivesUp(edited.row.value, step)
            && (InStep(w.row.value, f) ==> f.hash in w.transferred)
            && (Lost(after, f) <==> !InStep(w.row.value, f) && f.hash !in w.transferred)
  {
    var w := Run(START, steps);
    RunInv(START, steps);
    TwoWayExactly(w.row.value);
    hide Run, Decide;
  }

  /**
   * `InStep` is the exact guard, for any size and time that are recorded or
   * were never seen: every content that may carry them survives the reconcile
   * if and only if the row records them. (A size and time seen before but not
   * recorded stand for one known content, for which `LostIffOutOfStep` decides.)
   */
  lemma NothingLostIffInStep(steps: seq<Step>, size: int, mtime: string, step: Step)
    requires var w := Run(START, steps);
             && w.row.Some? && GivesUp(w.row.value, step)
             && (step.Reconcile? ==> Stat(step.fetch.file) != (size, mtime) && StatFaithful(w, step.fetch.file))
    requires (size, mtime) !in Run(START, steps).seen || InStep(Run(START, steps).row.value, File("", size, mtime))
    ensures var w := Run(START, steps);
            (forall hash: string | StatFaithful(w, File(hash, size, mtime))
                && Unrelated(w, File(hash, size, mtime), step) ::
               !Lost(Next(Next(w, Edit(Some(File(hash, size, mtime)))), step), File(hash, size, mtime)))
            <==> InStep(w.row.value, File("", size, mtime))
  {
    var w := Run(START, steps);
    hide Run, Decide;
    if InStep(w.row.value, File("", size, mtime)) {
      forall hash: string | StatFaithful(w, File(hash, size, mtime)) && Unrelated(w, File(hash, size, mtime), step)
        ensures !Lost(Next(Next(w, Edit(Some(File(hash, size, mtime)))), step), File(hash, size, mtime))
      {
        LostIffOutOfStep(steps, File(hash, size, mtime), step);
      }
    } else {
      var avoid := w.transferred + if step.Reconcile? then {step.fetch.file.hash} else {};
      var hash := FreshString(avoid);
      var f := File(hash, size, mtime);
      assert StatFaithful(w, f) && Unrelated(w, f, step);
      LostIffOutOfStep(steps, f, step);
      assert Lost(Next(Next(w, Edit(Some(f))), step), f);
    }
  }

  /** Some string lies outside any finite set. */
  lemma {:induction false} FreshString(avoid: set<string>) returns (s: string)
    ensures s !in avoid
  {
    var bound := LongerThanAll(avoid);
    s := seq(bound, i => 'x');
  }

  lemma {:induction false} LongerThanAll(avoid: set<string>) returns (bound: nat)
    ensures forall s | s in avoid :: |s| < bound
    decreases avoid
  {
    if avoid == {} {
      bound := 0;
    } else {
      var first :| first in avoid;
      var rest := LongerThanAll(avoid - {first});
      bound := rest + |first| + 1;
    }
  }

  /** A run of the kind: a file put where a remote one was listed is overwritten before any scan saw it. */
  lemma UnscannedEditIsLost()
    ensures exists steps: seq<Step>, f: File, step: Step ::
              var w := Run(START, steps);
              && w.row.Some? && w.disk == Some(f) && GivesUp(w.row.value, step) && !InStep(w.row.value, f)
              && Lost(Next(w, step), f)
  {
    var mine, theirs := File("b", 1, "2"), File("c", 1, "3");
    var steps := [RemoteScan(Listed("r", false, Some("r"), "u", false)), Edit(Some(mine))];
    var w1 := Next(START, steps[0]);
    var w2 := Next(w1, steps[1]);
    assert steps[1..] == [steps[1]] && steps[1..][1..] == [];
    assert Run(w2, []) == w2;
    assert Run(w1, steps[1..]) == w2;
    assert Run(START, steps) == w2;
    var step := Reconcile(TwoWay, Services(true, true), Written(theirs));
    assert GivesUp(w2.row.value, step) && !InStep(w2.row.value, mine);
    assert Lost(Next(w2, step), mine);
  }

  /**
   * A scan catches up: after it the row is in step with the disk and records
   * the content that is there, whether or not it computed the hash. So a
   * two-way reconcile right after a scan loses nothing.
   */
  lemma ScanCatchesUp(steps: seq<Step>, reuse: bool, scan: string)
    requires Run(START, steps).disk.Some?
    ensures var w := Next(Run(START, steps), LocalScan(reuse, scan));
            && w.row.Some? && w.disk == Run(START, steps).disk && InStep(w.row.value, w.disk.value)
            && w.row.value.hash == Some(w.disk.value.hash) && w.row.value.lastSeen == Some(scan)
            && (Decide(w.row.value, TwoWay) in {Download, DeleteLocal} ==> w.disk.value.hash in w.transferred)
  {
    var w := Run(START, steps);
    RunInv(START, steps);
    NextInv(w, LocalScan(reuse, scan));
    FileScanRecords(w.row, w.disk.value, reuse, scan);
    TwoWayExactly(Next(w, LocalScan(reuse, scan)).row.value);
    hide Run, Decide, FileScanned;
  }

  /** Directory scans and sweeps record what they saw, and what they did not. */
  lemma ScansRecord(w: World, scan: string)
    requires w.row.Some?
    ensures var after := Next(w, DirectoryScan(scan)).row;
            after.Some? && after.value.isDirectory && after.value.lastSeen == Some(scan)
    ensures var e := w.row.value;
            Next(w, Sweep(scan)) == w.(row := Some(e.(state := if e.lastSeen == Some(scan) then e.state else Deleted)))
  {
  }

  /** A conflict found by a reconcile is marked, and the file left alone. */
  lemma ConflictsAreMarked(w: World, mode: Mode, services: Services, fetch: Fetch)
    requires w.row.Some? && Decide(w.row.value, mode) == Conflict
    ensures Next(w, Reconcile(mode, services, fetch)) == w.(row := Some(MarkedConflict(w.row.value)))
    ensures InConflict(MarkedConflict(w.row.value))
  {
    hide Decide;
  }

  /** Folder jobs mark directories only; local deletions happen exactly when decided. */
  lemma JobsRecord(w: World, folderId: string, mode: Mode)
    requires w.row.Some?
    ensures Next(w, FolderJob(folderId)).row
         == if w.row.value.isDirectory then Some(MarkedFolderCreated(w.row.value, folderId)) else w.row
    ensures Next(w, RemoveLocal(mode)) == if Decide(w.row.value, mode) == DeleteLocal then w.(disk := None) else w
  {
    hide Decide;
  }

  /** When the remote root is deleted the file goes, and no mode has anything to do about the row. */
  lemma RootDeletionEndsIt(w: World, mode: Mode)
    requires w.row.Some?
    ensures var after := Next(w, RootDeleted);
            after.disk.None? && after.row.Some? && Decide(after.row.value, mode) == Noop
  {
    RootDeletionSettles(w.row.value, mode);
    hide Decide;
  }

  // ---------------------------------------------------------------- conflicts and deletions

  predicate NoRootDeletion(steps: seq<Step>)
  {
    forall i | 0 <= i < |steps| :: !steps[i].RootDeleted?
  }

  /**
   * Short of deleting the remote root nothing ends a conflict: in every later
   * state the row is in conflict and every mode decides Conflict, so the file
   * is neither uploaded, overwritten nor deleted by its own row again.
   */
  lemma {:induction false} ConflictIsSticky(w: World, steps: seq<Step>)
    requires NoRootDeletion(steps)
    requires w.row.Some? && InConflict(w.row.value) && !w.row.value.localDeleted
    ensures var w' := Run(w, steps);
            w'.row.Some? && InConflict(w'.row.value) && !w'.row.value.localDeleted
            && forall mode :: Decide(w'.row.value, mode) == Conflict
    decreases |steps|
  {
    if steps != [] {
      assert forall mode :: Decide(w.row.value, mode) == Conflict;
      assert !steps[0].RootDeleted?;
      ConflictStep(w, steps[0]);
      ConflictIsSticky(Next(w, steps[0]), steps[1..]);
    }
  }

  lemma ConflictStep(w: World, step: Step)
    requires !step.RootDeleted?
    requires w.row.Some? && InConflict(w.row.value) && !w.row.value.localDeleted
    ensures var w' := Next(w, step); w'.row.Some? && InConflict(w'.row.value) && !w'.row.value.localDeleted
  {
    assert forall mode :: Decide(w.row.value, mode) == Conflict;
    hide Decide;
  }

  /**
   * Scans only ever mark a vanished file by its sync state, never by the column
   * the classifier reads. So, short of deleting the remote root, no run makes
   * any mode decide to delete the remote copy.
   */
  lemma {:induction false} RemoteIsNeverDeleted(w: World, steps: seq<Step>, mode: Mode)
    requires NoRootDeletion(steps) && (w.row.Some? ==> !w.row.value.localDeleted)
    ensures var w' := Run(w, steps);
            w'.row.Some? ==> !w'.row.value.localDeleted && Decide(w'.row.value, mode) != DeleteRemote
    decreases |steps|
  {
    if steps != [] {
      assert !steps[0].RootDeleted?;
      StaysUndeleted(w, steps[0]);
      RemoteIsNeverDeleted(Next(w, steps[0]), steps[1..], mode);
    }
  }

  lemma StaysUndeleted(w: World, step: Step)
    requires !step.RootDeleted? && (w.row.Some? ==> !w.row.value.localDeleted)
    ensures var w' := Next(w, step); w'.row.Some? ==> !w'.row.value.localDeleted
  {
    hide Decide;
  }

  // ---------------------------------------------------------------- convergence

  /** Nothing left to do, in any mode. */
  predicate Clean(e: Entry, file: File, listed: Listed)
  {
    && e.remoteId == Some(listed.remoteId) && !e.remoteDeleted && !e.localDeleted
    && e.hash == e.syncedHash == Some(file.hash)
    && e.remoteUpdated == e.syncedRemote == Some(listed.updated)
    && !InConflict(e)
  }

  lemma CleanIsNoop(e: Entry, file: File, listed: Listed, mode: Mode)
    requires Clean(e, file, listed)
    ensures Decide(e, mode) == Noop
  {
  }

  /** Steps that see the same content and the same remote version again. */
  predicate Unchanging(step: Step, listed: Listed)
  {
    match step
    case LocalScan(_, _) => true
    case Sweep(_) => true
    case RemoteScan(l) => l == listed
    case Reconcile(_, _, _) => true
    case UploadJob(_, _) => true
    case RemoveLocal(_) => true
    case _ => false
  }

  /**
   * A clean row stays clean, and Noop in every mode, under any interleaving of
   * rescans, sweeps, remote scans, queue jobs and reconciles that see nothing new.
   */
  lemma {:induction false} CleanStaysClean(w: World, file: File, listed: Listed, steps: seq<Step>, mode: Mode)
    requires Inv(w) && w.row.Some? && w.disk == Some(file) && !listed.deleted && Clean(w.row.value, file, listed)
    requires forall i | 0 <= i < |steps| :: Unchanging(steps[i], listed)
    ensures var w' := Run(w, steps);
            w'.row.Some? && w'.disk == Some(file) && Clean(w'.row.value, file, listed)
                && Decide(w'.row.value, mode) == Noop
    decreases |steps|
  {
    CleanIsNoop(w.row.value, file, listed, mode);
    if steps != [] {
      assert Unchanging(steps[0], listed);
      CleanStep(w, file, listed, steps[0]);
      NextInv(w, steps[0]);
      CleanStaysClean(Next(w, steps[0]), file, listed, steps[1..], mode);
    }
  }

  lemma CleanStep(w: World, file: File, listed: Listed, step: Step)
    requires Inv(w) && w.row.Some? && w.disk == Some(file) && !listed.deleted && Clean(w.row.value, file, listed)
    requires Unchanging(step, listed)
    ensures var w' := Next(w, step); w'.row.Some? && w'.disk == Some(file) && Clean(w'.row.value, file, listed)
  {
    CleanIsNoop(w.row.value, file, listed, UploadOnly);
    CleanIsNoop(w.row.value, file, listed, RemoteMirror);
    CleanIsNoop(w.row.value, file, listed, TwoWay);
    assert forall mode :: Decide(w.row.value, mode) == Noop;
    hide Decide;
  }

  /** After a measured download the row is clean, unless it was recorded as locally deleted. */
  lemma DownloadConverges(e: Entry, mode: Mode, file: File, listed: Listed)
    requires Fetches(e, mode, Services(true, true))
    requires e.remoteId == Some(listed.remoteId) && e.remoteUpdated == Some(listed.updated)
    ensures Clean(Reconciled(e, mode, Services(true, true), Written(file)), file, listed) <==> !e.localDeleted
    ensures Decide(Reconciled(e, mode, Services(true, true), Written(file)), mode) == Noop <==> !e.localDeleted
  {
  }

  /** Without a hasher the same download is followed, at the next scan, by an upload of what was just downloaded. */
  lemma UnhashedDownloadComesBack(e: Entry, file: File, scan: string)
    requires Fetches(e, TwoWay, Services(true, false)) && e.hash != Some(file.hash)
    ensures var after := FileScanned(Some(Reconciled(e, TwoWay, Services(true, false), Written(file))), file, false,
        scan);
            Decide(after, TwoWay) == Upload
  {
  }

  /** A never-synced, never-listed file. */
  predicate NeverSynced(e: Entry)
  {
    e.remoteId.None? && e.syncedRemote.None? && e.remoteUpdated.None? && !e.localDeleted && !e.remoteDeleted
        && !InConflict(e)
    && e.hash.Some? && !e.isDirectory
  }

  /**
   * First upload, a rescan, then the first remote listing of the uploaded file.
   * The row is clean exactly if the content did not change in between;
   * otherwise the listing of the user's own upload is taken for a conflict.
   */
  lemma FirstUploadConverges(e: Entry, file: File, later: File, listed: Listed, scan: string, mode: Mode)
    requires NeverSynced(e) && e.hash == Some(file.hash) && !listed.deleted
    ensures var after := RemoteScanned(Some(FileScanned(Some(MarkedUploaded(e, listed.remoteId)), later, false,
        scan)), listed);
            && (Clean(after, file, listed) <==> later.hash == file.hash)
            && (later.hash == file.hash ==> Decide(after, mode) == Noop)
            && (later.hash != file.hash ==> Decide(after, TwoWay) == Conflict)
  {
  }

  /**
   * Convergence after a download, over whole runs: from any reachable state,
   * once a fetched file was written and measured for a row not recorded as
   * locally deleted, every mode decides Noop, and keeps doing so through any
   * continuation that sees nothing new.
   */
  lemma ConvergesAfterDownload(steps: seq<Step>, mode: Mode, file: File, listed: Listed, quiet: seq<Step>, later: Mode)
    requires var w := Run(START, steps);
             && w.row.Some? && Fetches(w.row.value, mode, Services(true, true)) && StatFaithful(w, file)
             && !w.row.value.localDeleted && !listed.deleted
             && w.row.value.remoteId == Some(listed.remoteId) && w.row.value.remoteUpdated == Some(listed.updated)
    requires forall i | 0 <= i < |quiet| :: Unchanging(quiet[i], listed)
    ensures var w' := Run(Next(Run(START, steps), Reconcile(mode, Services(true, true), Written(file))), quiet);
            w'.row.Some? && w'.disk == Some(file) && Decide(w'.row.value, later) == Noop
  {
    var w := Run(START, steps);
    var w1 := Next(w, Reconcile(mode, Services(true, true), Written(file)));
    RunInv(START, steps);
    NextInv(w, Reconcile(mode, Services(true, true), Written(file)));
    DownloadConverges(w.row.value, mode, file, listed);
    CleanStaysClean(w1, file, listed, quiet, later);
  }

  /** Uploaded once, not yet listed. */
  predicate AwaitingListing(e: Entry, file: File, fileId: string)
  {
    && e.remoteId == Some(fileId) && !e.remoteDeleted && !e.localDeleted && !InConflict(e)
    && e.hash == e.syncedHash == Some(file.hash) && e.remoteUpdated.None? && e.syncedRemote.None?
  }

  predicate Rescan(step: Step) { step.LocalScan? || step.Sweep? }

  lemma {:induction false} RescansKeepWaiting(w: World, file: File, fileId: string, rescans: seq<Step>)
    requires Inv(w) && w.row.Some? && w.disk == Some(file) && AwaitingListing(w.row.value, file, fileId)
    requires forall i | 0 <= i < |rescans| :: Rescan(rescans[i])
    ensures var w' := Run(w, rescans);
            Inv(w') && w'.row.Some? && w'.disk == Some(file) && AwaitingListing(w'.row.value, file, fileId)
    decreases |rescans|
  {
    if rescans != [] {
      assert Rescan(rescans[0]);
      NextInv(w, rescans[0]);
      RescansKeepWaiting(Next(w, rescans[0]), file, fileId, rescans[1..]);
    }
  }

  lemma UploadAwaits(w: World, mode: Mode, fileId: string)
    requires Inv(w) && UploadAllowed(w, mode) && NeverSynced(w.row.value)
    ensures var sent := Next(w, UploadJob(mode, fileId));
            sent.row.Some? && sent.disk == w.disk && AwaitingListing(sent.row.value, w.disk.value, fileId)
  {
    hide Decide;
  }

  lemma ListingCleans(w: World, file: File, listed: Listed)
    requires w.row.Some? && AwaitingListing(w.row.value, file, listed.remoteId) && !listed.deleted
    ensures var w' := Next(w, RemoteScan(listed));
            w'.row.Some? && w'.disk == w.disk && Clean(w'.row.value, file, listed)
  {
    hide Decide;
  }

  /**
   * Convergence after a first upload, over whole runs: from any reachable
   * state, a never-synced file's upload, any rescans of the unchanged file, and
   * the first listing leave every mode at Noop, through any continuation that
   * sees nothing new.
   */
  lemma ConvergesAfterFirstUpload(steps: seq<Step>, mode: Mode, rescans: seq<Step>, listed: Listed, quiet: seq<Step>,
      later: Mode)
    requires UploadAllowed(Run(START, steps), mode) && NeverSynced(Run(START, steps).row.value) && !listed.deleted
    requires forall i | 0 <= i < |rescans| :: Rescan(rescans[i])
    requires forall i | 0 <= i < |quiet| :: Unchanging(quiet[i], listed)
    ensures var w := Run(START, steps);
            var waiting := Run(Next(w, UploadJob(mode, listed.remoteId)), rescans);
            var w' := Run(Next(waiting, RemoteScan(listed)), quiet);
            w'.row.Some? && w'.disk == w.disk && Decide(w'.row.value, later) == Noop
  {
    var w := Run(START, steps);
    var file := w.disk.value;
    var sent := Next(w, UploadJob(mode, listed.remoteId));
    RunInv(START, steps);
    NextInv(w, UploadJob(mode, listed.remoteId));
    UploadAwaits(w, mode, listed.remoteId);
    RescansKeepWaiting(sent, file, listed.remoteId, rescans);
    var waiting := Run(sent, rescans);
    hide Run, Decide;
    NextInv(waiting, RemoteScan(listed));
    ListingCleans(waiting, file, listed);
    CleanStaysClean(Next(waiting, RemoteScan(listed)), file, listed, quiet, later);
  }

  /**
   * A file found again where a row was recorded as locally deleted starts over:
   * nothing of its remote past is left, and it is uploaded as new.
   */
  lemma RevivalStartsOver(e: Entry, file: File, reuse: bool, scan: string)
    requires e.localDeleted
    ensures var after := FileScanned(Some(e), file, reuse, scan);
            && NeverSynced(after) && after.remoteFileId.None? && after.syncedHash.None? && after.state == PendingUpload
            && Decide(after, TwoWay) == Upload && Decide(after, UploadOnly) == Upload
            && Decide(after, RemoteMirror) == Noop
  {
  }

  /**
   * Re-upload of an acknowledged file keeps the old acknowledged version, so
   * the row settles exactly if the server lists the old version again, and is
   * otherwise downloaded back.
   */
  lemma ReuploadSettlesIff(e: Entry, listed: Listed)
    requires e.syncedRemote.Some? && e.hash.Some? && !listed.deleted
    ensures var after := RemoteScanned(Some(MarkedUploaded(e, listed.remoteId)), listed);
            && (Decide(after, TwoWay) == Noop <==> e.syncedRemote == Some(listed.updated))
            && (e.syncedRemote != Some(listed.updated) ==> Decide(after, TwoWay) == Download)
  {
  }

  /**
   * The first listing after an upload is acknowledged whatever it says: a
   * version written by another device in the meantime is never downloaded.
   */
  lemma FirstListingIsAcknowledged(e: Entry, listed: Listed, mode: Mode)
    requires NeverSynced(e) && !listed.deleted
    ensures Decide(RemoteScanned(Some(MarkedUploaded(e, listed.remoteId)), listed), mode) == Noop
  {
  }
}
