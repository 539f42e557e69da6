/**
 * All paths of a root together. What happens at one path is a step of
 * `EntryRuns`; a remote listing finds its row by remote id, wherever it is, and
 * so may move a row to another path.
 */
module EntryTree {
  import opened Basics
  import opened EntrySync
  import opened EntryRuns

  datatype Tree = Tree(
    rows: map<string, Entry>, disk: map<string, File>, transferred: set<string>, seen: map<(int, string), string>)

  datatype TreeStep =
    | On(path: string, step: EntryRuns.Step)     // anything that concerns one path alone
    | List(path: string, listed: Listed)         // a remote entry listed under a path
    | DeleteRoot                                 // the remote root is gone

  /** One path of the tree, with what the whole tree has transferred and seen. */
  function At(t: Tree, p: string): EntryRuns.World
  {
    EntryRuns.World(Find(t.rows, p), Find(t.disk, p), t.transferred, t.seen)
  }

  function Stored<T>(m: map<string, T>, p: string, x: Option<T>): map<string, T>
  {
    if x.Some? then m[p := x.value] else m - {p}
  }

  function Replaced(t: Tree, p: string, w: EntryRuns.World): Tree
  {
    Tree(Stored(t.rows, p, w.row), Stored(t.disk, p, w.disk), w.transferred, w.seen)
  }

  /** The paths whose rows carry the remote id. */
  function Holders(t: Tree, remoteId: string): set<string>
  {
    set q | q in t.rows && t.rows[q].remoteId == Some(remoteId)
  }

  /**
   * `upsertRemoteEntry`: the UPDATE takes the row with the remote id to the
   * listed path, and is refused if that path has another row; without such a
   * row the INSERT takes over the row at the listed path.
   */
  function Listing(t: Tree, p: string, l: Listed): Tree
  {
    var holders := Holders(t, l.remoteId);
    if holders == {} then t.(rows := t.rows[p := RemoteInserted(Find(t.rows, p), l)])
    else if holders == {p} then t.(rows := t.rows[p := RemoteUpdated(t.rows[p], l)])
    else if p in t.rows || |holders| > 1 then t
    else
      var q := TheOne(holders);
      t.(rows := (t.rows - {q})[p := RemoteUpdated(t.rows[q], l)])
  }

  function TheOne(s: set<string>): (x: string)
    requires |s| == 1
    ensures s == {x}
  {
    assert exists x :: s == {x} by {
      var x :| x in s;
      assert |s - {x}| == 0;
      assert s == {x};
    }
    var x :| s == {x};
    x
  }

  function Next(t: Tree, step: TreeStep): Tree
  {
    match step
    case On(p, s) =>
      if s.RemoteScan? || s.RootDeleted? then t else Replaced(t, p, EntryRuns.Next(At(t, p), s))
    case List(p, l) => Listing(t, p, l)
    case DeleteRoot =>
      t.(rows := map p | p in t.rows :: MarkedRootRemoteDeleted(t.rows[p]), disk := map[])
  }

  function Run(t: Tree, steps: seq<TreeStep>): Tree
    decreases |steps|
  {
    if steps == [] then t else Run(Next(t, steps[0]), steps[1..])
  }

  const EMPTY: Tree := Tree(map[], map[], {}, map[])

  // ---------------------------------------------------------------- invariant

  ghost predicate TreeInv(t: Tree)
  {
    forall p :: EntryRuns.Inv(At(t, p))
  }

  /** What was transferred or seen stays so. */
  predicate Grows(w: EntryRuns.World, w': EntryRuns.World)
  {
    w.transferred <= w'.transferred && forall k | k in w.seen :: k in w'.seen && w'.seen[k] == w.seen[k]
  }

  lemma StepGrows(w: EntryRuns.World, step: EntryRuns.Step)
    requires EntryRuns.Inv(w)
    ensures Grows(w, EntryRuns.Next(w, step))
  {
    hide Decide;
  }

  lemma GrownInv(w: EntryRuns.World, w': EntryRuns.World)
    requires EntryRuns.Inv(w) && Grows(w, w') && w'.row == w.row && w'.disk == w.disk
    ensures EntryRuns.Inv(w')
  {
  }

  lemma OnInv(t: Tree, p: string, step: EntryRuns.Step, q: string)
    requires TreeInv(t)
    ensures EntryRuns.Inv(At(Replaced(t, p, EntryRuns.Next(At(t, p), step)), q))
  {
    hide EntryRuns.Next;
    var w := EntryRuns.Next(At(t, p), step);
    assert EntryRuns.Inv(At(t, p)) && EntryRuns.Inv(At(t, q));
    EntryRuns.NextInv(At(t, p), step);
    StepGrows(At(t, p), step);
    var w' := At(Replaced(t, p, w), q);
    if q == p {
      assert w' == w;
    } else {
      GrownInv(At(t, q), w');
    }
  }

  /** A listing rewrites remote columns only, wherever the row ends up. */
  lemma ListingInv(t: Tree, p: string, l: Listed, q: string)
    requires TreeInv(t)
    ensures EntryRuns.Inv(At(Listing(t, p, l), q))
  {
    hide RemoteUpdated, RemoteInserted, RowInv;
    var t', holders := Listing(t, p, l), Holders(t, l.remoteId);
    assert EntryRuns.Inv(At(t, q)) && EntryRuns.Inv(At(t, p));
    if holders == {} {
      ListedRow(At(t, p), Find(t.rows, p), l);
    } else if holders == {p} {
      assert p in holders;
      ListedRow(At(t, p), Find(t.rows, p), l);
    } else if p !in t.rows && |holders| == 1 {
      var from := TheOne(holders);
      assert from in holders;
      assert EntryRuns.Inv(At(t, from));
      ListedRow(At(t, from), Some(t.rows[from]), l);
    }
    SameElsewhere(t, t', q);
  }

  /** What a row must satisfy depends only on what was transferred and seen. */
  lemma SameElsewhere(t: Tree, t': Tree, q: string)
    requires EntryRuns.Inv(At(t, q)) && t'.disk == t.disk && t'.transferred == t.transferred && t'.seen == t.seen
    ensures (q in t'.rows ==> RowInv(At(t, q), t'.rows[q])) ==> EntryRuns.Inv(At(t', q))
    ensures forall e, p :: RowInv(At(t, p), e) ==> RowInv(At(t, q), e)
  {
  }

  lemma ListedRow(w: EntryRuns.World, row: Option<Entry>, l: Listed)
    requires row.Some? ==> RowInv(w, row.value)
    ensures RowInv(w, RemoteInserted(row, l))
    ensures row.Some? ==> RowInv(w, RemoteUpdated(row.value, l))
  {
  }

  lemma DeleteRootInv(t: Tree, q: string)
    requires TreeInv(t)
    ensures EntryRuns.Inv(At(Next(t, DeleteRoot), q))
  {
    assert EntryRuns.Inv(At(t, q));
  }

  lemma NextTreeInv(t: Tree, step: TreeStep)
    requires TreeInv(t)
    ensures TreeInv(Next(t, step))
  {
    forall q ensures EntryRuns.Inv(At(Next(t, step), q)) {
      match step
      case On(p, s) =>
        assert EntryRuns.Inv(At(t, q));
        OnInv(t, p, s, q);
      case List(p, l) => ListingInv(t, p, l, q);
      case DeleteRoot => DeleteRootInv(t, q);
    }
  }

  lemma {:induction false} RunTreeInv(t: Tree, steps: seq<TreeStep>)
    requires TreeInv(t)
    ensures TreeInv(Run(t, steps))
    decreases |steps|
  {
    hide TreeInv, Next;
    if steps != [] {
      NextTreeInv(t, steps[0]);
      RunTreeInv(Next(t, steps[0]), steps[1..]);
    }
  }

  // ---------------------------------------------------------------- results

  /**
   * Two-way data safety for the whole tree: over every run, remote renames
   * included, at every path the local copy is given up only if its recorded
   * content was transferred, and the content on disk too when the row is in
   * step with it; uploads replace only absent or acknowledged remote versions;
   * and rows in conflict are left alone.
   */
  lemma TreeDataSafety(steps: seq<TreeStep>, p: string)
    requires p in Run(EMPTY, steps).rows
    ensures var t := Run(EMPTY, steps);
            var e := t.rows[p];
            && (Decide(e, TwoWay) in {Download, DeleteLocal} ==>
                  && e.hash == e.syncedHash
                  && (e.hash.Some? ==> e.hash.value in t.transferred)
                  && (p in t.disk && InStep(e, t.disk[p]) ==> t.disk[p].hash in t.transferred))
            && (Decide(e, TwoWay) == Upload ==> e.remoteId.None? || e.remoteUpdated == e.syncedRemote)
            && (InConflict(e) ==> Decide(e, TwoWay) == Conflict)
  {
    assert TreeInv(EMPTY);
    RunTreeInv(EMPTY, steps);
    var t := Run(EMPTY, steps);
    assert EntryRuns.Inv(At(t, p));
    TwoWayExactly(t.rows[p]);
    hide Run, Decide;
  }

  /** What happens at one path is its own step, and leaves every other path's row and file alone. */
  lemma StepsAreLocal(t: Tree, p: string, step: EntryRuns.Step, q: string)
    requires !step.RemoteScan? && !step.RootDeleted?
    ensures var t' := Next(t, On(p, step));
            && At(t', p) == EntryRuns.Next(At(t, p), step)
            && (q != p ==> Find(t'.rows, q) == Find(t.rows, q) && Find(t'.disk, q) == Find(t.disk, q))
  {
    hide EntryRuns.Next;
  }

  /**
   * Where a listing lands, exactly: on the one row with its remote id, wherever
   * that is, or, without one, on the row at the listed path or a new one. It is
   * refused if that would need two rows at one path.
   */
  lemma ListingLands(t: Tree, p: string, l: Listed, q: string)
    ensures var t' := Listing(t, p, l);
            && t'.disk == t.disk
            && ((forall r | r in t.rows :: t.rows[r].remoteId != Some(l.remoteId)) ==>
                  t'.rows == t.rows[p := RemoteInserted(Find(t.rows, p), l)])
            && (q in t.rows && t.rows[q].remoteId == Some(l.remoteId)
                && (forall r | r in t.rows && r != q :: t.rows[r].remoteId != Some(l.remoteId)) ==>
                  t'.rows ==
                  if q == p then t.rows[p := RemoteUpdated(t.rows[p], l)]
                  else if p in t.rows then t.rows
                  else (t.rows - {q})[p := RemoteUpdated(t.rows[q], l)])
  {
    var holders := Holders(t, l.remoteId);
    assert forall r :: r in holders <==> r in t.rows && t.rows[r].remoteId == Some(l.remoteId);
    if q in holders && forall r | r in t.rows && r != q :: t.rows[r].remoteId != Some(l.remoteId) {
      assert holders == {q};
    }
  }

  /** Deleting the remote root settles every row, in every mode, and empties the root. */
  lemma RootDeletionSettlesAll(t: Tree, p: string, mode: Mode)
    ensures var t' := Next(t, DeleteRoot);
            && t'.disk == map[] && t'.rows.Keys == t.rows.Keys
            && (p in t'.rows ==> Decide(t'.rows[p], mode) == Noop && t'.rows[p].state == Deleted)
  {
    if p in t.rows { RootDeletionSettles(t.rows[p], mode); }
  }

  /** A listing keeps the number of rows a remote id has, and moves a row exactly when only its path changed. */
  lemma RenameMovesTheRow(t: Tree, from: string, to: string, l: Listed)
    requires from != to && to !in t.rows && Holders(t, l.remoteId) == {from}
    ensures var t' := Listing(t, to, l);
            && from !in t'.rows && to in t'.rows && Holders(t', l.remoteId) == {to}
            && t'.rows[to] == RemoteUpdated(t.rows[from], l)
            && (forall q | q != from && q != to :: Find(t'.rows, q) == Find(t.rows, q))
            && t'.disk == t.disk
  {
    assert |Holders(t, l.remoteId)| == 1;
    var t' := Listing(t, to, l);
    assert TheOne(Holders(t, l.remoteId)) == from;
    assert from in Holders(t, l.remoteId);
    forall q ensures q in Holders(t', l.remoteId) <==> q == to {
      assert q in t.rows && t.rows[q].remoteId == Some(l.remoteId) ==> q in Holders(t, l.remoteId);
    }
  }
}
