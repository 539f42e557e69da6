/**
 * The reconciler's pass over a root: for every row, delete, fetch or set aside
 * a conflict copy, and update the row. The rows and the files are changed in
 * place; the pass works on the rows as they were listed when it began.
 */
module Reconciler {
  import opened Basics
  import opened EntrySync

  /** What the outside world does during one pass, per path. */
  datatype Io = Io(
    fetch: string -> Fetch,           // download to the row's own path
    conflictFetch: string -> Fetch,   // download of the conflict copy
    removes: string -> bool)          // whether the deletion succeeds

  /** `q` lies below directory `p`. */
  predicate Below(p: string, q: string)
  {
    |p| + 1 <= |q| && q[..|p|] == p && q[|p|] == '/'
  }

  /** Paths that deleting the entry at `p` removes. */
  predicate Removed(p: string, isDirectory: bool, q: string)
  {
    q == p || (isDirectory && Below(p, q))
  }

  /** Deleting an entry removes its path and, for a directory, every path that continues it after a slash. */
  lemma RemovedExactly(p: string, isDirectory: bool, q: string)
    ensures Removed(p, isDirectory, q) <==> q == p || (isDirectory && exists rest: string :: q == p + "/" + rest)
  {
    if Below(p, q) {
      assert q == p + "/" + q[|p| + 1..];
    }
  }

  /** Names tried for a conflict copy, first without and then with a counter. */
  datatype Naming = Naming(name: (string, nat) -> string)

  /**
   * The first of 999 candidate names that does not exist; never an existing
   * path, and an error exactly when all are taken.
   */
  method ConflictPathFor(naming: Naming, path: string, disk: map<string, File>) returns (r: Result<string>)
    ensures r.Ok? ==> r.value !in disk
    ensures r.Ok? ==> exists k: nat :: 1 <= k < 1000 && r.value == naming.name(path, k)
                        && forall j: nat | 1 <= j < k :: naming.name(path, j) in disk
    ensures r.Err? <==> forall k: nat | 1 <= k < 1000 :: naming.name(path, k) in disk
  {
    var index: nat := 1;
    while index < 1000
      invariant 1 <= index <= 1000
      invariant forall k: nat | 1 <= k < index :: naming.name(path, k) in disk
    {
      var candidate := naming.name(path, index);
      if candidate !in disk {
        return Ok(candidate);
      }
      index := index + 1;
    }
    r := Err("could not allocate conflict filename");
  }

  /** The remote side of a conflict is fetched: a file, still there remotely, with an id and a service to fetch it. */
  predicate WantsCopy(e: Entry, services: Services)
  {
    !e.isDirectory && !e.remoteDeleted && services.canDownload && e.remoteFileId.Some?
  }

  /** The first free name holds the file, and nothing else changed. */
  ghost predicate CopyWritten(naming: Naming, path: string, before: map<string, File>, after: map<string, File>,
                              file: File)
  {
    exists k: nat :: 1 <= k < 1000 && naming.name(path, k) !in before
      && (forall j: nat | 1 <= j < k :: naming.name(path, j) in before)
      && after == before[naming.name(path, k) := file]
  }

  /** Handling the row at `p` may change the file at `q`. */
  predicate Touches(p: string, e: Entry, mode: Mode, services: Services, q: string)
  {
    || (q == p && (Fetches(e, mode, services) || Decide(e, mode) == DeleteLocal))
    || (e.isDirectory && Below(p, q) && Decide(e, mode) == DeleteLocal)
  }

  /** Some row's turn may change the file at `q`: its own row fetches or deletes it, or a directory above is deleted. */
  predicate MayTouch(rows: map<string, Entry>, mode: Mode, services: Services, q: string)
  {
    exists p :: p in rows && Touches(p, rows[p], mode, services, q)
  }

  class Replica {
    var rows: map<string, Entry>
    var disk: map<string, File>

    constructor (rows: map<string, Entry>, disk: map<string, File>)
      ensures this.rows == rows && this.disk == disk
    {
      this.rows, this.disk := rows, disk;
    }

    method ApplyDeleteLocal(path: string, isDirectory: bool, succeeds: bool)
      modifies this
      ensures rows == old(rows)
      ensures forall q | q in disk :: q in old(disk) && disk[q] == old(disk)[q]
      ensures forall q | q in old(disk) && !Removed(path, isDirectory, q) :: q in disk
      ensures succeeds ==> forall q | q in disk :: !Removed(path, isDirectory, q)
    {
      if succeeds {
        disk := map q | q in disk && !Removed(path, isDirectory, q) :: disk[q];
      }
    }

    /** Marks the row and, for a file still present remotely, writes a copy beside it. */
    method ApplyConflict(path: string, entry: Entry, services: Services, fetch: Fetch, naming: Naming)
        returns (r: Result<()>)
      modifies this
      requires path in rows
      ensures rows == old(rows)[path := MarkedConflict(old(rows)[path])]
      ensures r.Err? <==>
              WantsCopy(entry, services) && forall k: nat | 1 <= k < 1000 :: naming.name(path, k) in old(disk)
      ensures if r.Ok? && WantsCopy(entry, services) && !fetch.NotFetched?
              then CopyWritten(naming, path, old(disk), disk, fetch.file) else disk == old(disk)
    {
      rows := rows[path := MarkedConflict(rows[path])];
      r := Ok(());
      if entry.isDirectory || entry.remoteDeleted || !services.canDownload || entry.remoteFileId.None? {
        return;
      }
      var copy := ConflictPathFor(naming, path, disk);
      if copy.Err? {
        return Err(copy.message);
      }
      if !fetch.NotFetched? {
        disk := disk[copy.value := fetch.file];
      }
    }

    /** Fetches the remote file over the row's own path and records it. */
    method ApplyDownload(path: string, entry: Entry, services: Services, fetch: Fetch)
      modifies this
      requires path in rows && rows[path] == entry
      ensures rows == old(rows)[path :=
                if fetch.NotFetched? then entry
                else if !services.canHash then MarkedDownloadedUnhashed(entry)
                else if fetch.WrittenUnmeasured? then entry
                else MarkedDownloaded(entry, fetch.file)]
      ensures disk == if fetch.NotFetched? then old(disk) else old(disk)[path := fetch.file]
    {
      if !fetch.NotFetched? {
        disk := disk[path := fetch.file];
        if !services.canHash {
          rows := rows[path := MarkedDownloadedUnhashed(rows[path])];
        } else if fetch.Written? {
          rows := rows[path := MarkedDownloaded(rows[path], fetch.file)];
        }
      }
    }

    /** One row's turn. A failure to name a conflict copy is passed on. */
    method ReconcileEntry(path: string, entry: Entry, mode: Mode, services: Services, io: Io, naming: Naming)
      returns (r: Result<()>)
      modifies this
      requires path in rows && rows[path] == entry
      ensures path in rows && rows == old(rows)[path := rows[path]]
      ensures r.Ok? ==> rows[path] == Reconciled(entry, mode, services, io.fetch(path))
      ensures forall q | q in old(disk) && !Touches(path, entry, mode, services, q) ::
          q in disk && disk[q] == old(disk)[q]
      ensures Decide(entry, mode) == DeleteLocal && io.removes(path) ==>
                forall q | q in disk :: !Removed(path, entry.isDirectory, q)
      ensures Fetches(entry, mode, services) && !io.fetch(path).NotFetched? ==>
                path in disk && disk[path] == io.fetch(path).file
      ensures Decide(entry, mode) == Conflict ==>
                if r.Ok? && WantsCopy(entry, services) && !io.conflictFetch(path).NotFetched?
                then CopyWritten(naming, path, old(disk), disk, io.conflictFetch(path).file) else disk == old(disk)
      ensures r.Err? ==> Decide(entry, mode) == Conflict
      ensures Decide(entry, mode) in {Noop, Upload, DeleteRemote} ==> disk == old(disk)
    {
      hide Below;
      r := Ok(());
      var decision := Decide(entry, mode);
      hide Decide;
      if decision == DeleteLocal {
        ApplyDeleteLocal(path, entry.isDirectory, io.removes(path));
      } else if decision == Conflict {
        r := ApplyConflict(path, entry, services, io.conflictFetch(path), naming);
      } else if decision == Download && !entry.isDirectory && services.canDownload && entry.remoteFileId.Some? {
        ApplyDownload(path, entry, services, io.fetch(path));
      }
    }

    /**
     * The pass over `listing`, the root's rows in path order. If it ends
     * normally every row was handled once, as `Reconciled` says. Whether or not
     * it ends normally, files whose own row neither fetches nor deletes, and
     * that lie below no deleted directory, are untouched.
     */
    method ReconcileRoot(listing: seq<string>, mode: Mode, services: Services, io: Io, naming: Naming)
        returns (r: Result<()>)
      modifies this
      requires forall p :: p in listing <==> p in rows
      requires forall i, j | 0 <= i < |listing| && 0 <= j < |listing| && listing[i] == listing[j] :: i == j
      ensures rows.Keys == old(rows).Keys
      ensures r.Ok? ==> forall p | p in rows :: rows[p] == Reconciled(old(rows)[p], mode, services, io.fetch(p))
      ensures forall q | q in old(disk) && !MayTouch(old(rows), mode, services, q) ::
                q in disk && disk[q] == old(disk)[q]
    {
      hide Decide, Below, Reconciled, Touches;
      ghost var before := rows;
      var listed := rows;
      var i := 0;
      r := Ok(());
      while i < |listing|
        invariant 0 <= i <= |listing| && listed == before && rows.Keys == before.Keys
        invariant forall k | 0 <= k < |listing| ::
                    rows[listing[k]] == if k < i then Reconciled(before[listing[k]], mode, services,
                        io.fetch(listing[k]))
                                        else before[listing[k]]
        invariant forall q | q in old(disk) && !MayTouch(before, mode, services, q) ::
            q in disk && disk[q] == old(disk)[q]
      {
        var path := listing[i];
        assert rows[path] == listed[path];
        r := ReconcileEntry(path, listed[path], mode, services, io, naming);
        if r.Err? {
          return;
        }
        i := i + 1;
      }
    }
  }

  /** In two-way mode, a file the pass may touch by its own row is recorded as synced and not in conflict. */
  lemma TouchedFilesAreSynced(rows: map<string, Entry>, services: Services, q: string)
    requires MayTouch(rows, TwoWay, services, q)
    ensures || (q in rows && rows[q].hash == rows[q].syncedHash && !InConflict(rows[q]) && !rows[q].localDeleted)
            || exists p :: p in rows && rows[p].isDirectory && Below(p, q) && rows[p].remoteDeleted
                && !InConflict(rows[p])
  {
    var p :| p in rows && Touches(p, rows[p], TwoWay, services, q);
    TwoWayExactly(rows[p]);
  }
}
