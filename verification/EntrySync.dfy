/**
 * The entry record: how a row is classified and decided on, and every SQL
 * statement that changes it, as a transition of one record.
 */
module EntrySync {
  import opened Basics

  datatype SyncState = Unchanged | PendingUpload | Deleted

  datatype Mode = UploadOnly | RemoteMirror | TwoWay

  datatype Decision = Noop | Upload | Download | DeleteLocal | DeleteRemote | Conflict

  /** A row of `entries`, with the columns that decisions and later statements read. */
  datatype Entry = Entry(
    remoteId: Option<string>,
    remoteFileId: Option<string>,
    localDeleted: bool,
    remoteDeleted: bool,
    isDirectory: bool,
    size: Option<int>,
    mtime: Option<string>,
    hash: Option<string>,
    syncedHash: Option<string>,
    remoteUpdated: Option<string>,
    syncedRemote: Option<string>,
    conflict: Option<string>,
    state: SyncState,
    lastSeen: Option<string>)

  datatype EntryState = EntryState(
    localExists: bool, remoteExists: bool, localDeleted: bool, remoteDeleted: bool,
    localDirty: bool, remoteDirty: bool, hasConflict: bool)

  function Classify(e: Entry): EntryState
  {
    EntryState(
      !e.localDeleted,
      e.remoteId.Some? && !e.remoteDeleted,
      e.localDeleted,
      e.remoteDeleted,
      !e.localDeleted && e.hash != e.syncedHash,
      !e.remoteDeleted && e.remoteUpdated != e.syncedRemote,
      e.conflict.Some? && e.conflict.value != "none")
  }

  function DecideUploadOnly(s: EntryState): Decision
  {
    if s.hasConflict then Conflict
    else if s.localDeleted && s.remoteDirty then Conflict
    else if s.localDeleted && s.remoteExists then DeleteRemote
    else if s.localExists && !s.remoteExists then Upload
    else if s.localExists && s.localDirty then Upload
    else Noop
  }

  function DecideRemoteMirror(s: EntryState): Decision
  {
    if s.hasConflict then Conflict
    else if s.remoteDeleted && s.localDirty then Conflict
    else if s.remoteDeleted && s.localExists then DeleteLocal
    else if s.remoteExists && !s.localExists then Download
    else if s.remoteExists && s.remoteDirty then Download
    else Noop
  }

  function DecideTwoWay(s: EntryState): Decision
  {
    if s.hasConflict then Conflict
    else if (s.localDeleted && s.remoteDirty) || (s.remoteDeleted && s.localDirty) || (s.localDirty && s.remoteDirty)
    then Conflict
    else if s.localDeleted && s.remoteExists then DeleteRemote
    else if s.remoteDeleted && s.localExists then DeleteLocal
    else if s.localExists && !s.remoteExists then Upload
    else if s.remoteExists && !s.localExists then Download
    else if s.localExists && s.localDirty then Upload
    else if s.remoteExists && s.remoteDirty then Download
    else Noop
  }

  function Decide(e: Entry, mode: Mode): Decision
  {
    match mode
    case UploadOnly => DecideUploadOnly(Classify(e))
    case RemoteMirror => DecideRemoteMirror(Classify(e))
    case TwoWay => DecideTwoWay(Classify(e))
  }

  predicate InConflict(e: Entry) { e.conflict.Some? && e.conflict.value != "none" }

  // ---------------------------------------------------------------- statements

  /** A regular file as a scan sees it. */
  datatype File = File(hash: string, size: int, mtime: string)

  const NEW_ROW: Entry := Entry(None, None, false, false, false, None, None, None, None, None, None, Some("none"),
      Unchanged, None)

  /** The columns a local upsert clears when the row was recorded as locally deleted. */
  function Revived(e: Entry): Entry
  {
    if !e.localDeleted then e
    else e.(remoteId := None, remoteDeleted := false, remoteUpdated := None, syncedRemote := None,
            localDeleted := false, conflict := Some("none"))
  }

  /** `upsertFileEntry` with the recorded hash `hash`. */
  function FileUpserted(row: Option<Entry>, size: int, mtime: string, hash: string, state: SyncState,
      scan: string): Entry
  {
    match row
    case None =>
      NEW_ROW.(size := Some(size), mtime := Some(mtime), hash := Some(hash), state := state, lastSeen := Some(scan))
    case Some(e) =>
      var r := Revived(e);
      (if e.localDeleted then r.(remoteFileId := None, syncedHash := None) else r)
      .(isDirectory := false, size := Some(size), mtime := Some(mtime), hash := Some(hash),
        state := if e.localDeleted then PendingUpload else state, lastSeen := Some(scan))
  }

  /** The scanner's decision to trust the recorded hash; false also when the finer clock of the file system differs. */
  predicate MayReuseHash(row: Option<Entry>, file: File)
  {
    row.Some? && row.value.state != Deleted && row.value.size == Some(file.size) && row.value.mtime == Some(file.mtime)
    && row.value.hash.Some?
  }

  /** `handleFileEntry`: reuse or compute the hash, derive the state, upsert. */
  function FileScanned(row: Option<Entry>, file: File, reuse: bool, scan: string): Entry
  {
    var shouldHash := !(reuse && MayReuseHash(row, file));
    var hash := if shouldHash then file.hash else row.value.hash.value;
    var state :=
      if row.None? || row.value.state == Deleted then PendingUpload
      else if row.value.remoteId.None? then PendingUpload
      else if shouldHash && row.value.hash != Some(hash) then PendingUpload
      else Unchanged;
    FileUpserted(row, file.size, file.mtime, hash, state, scan)
  }

  /** `upsertDirectoryEntry`. */
  function DirectoryScanned(row: Option<Entry>, scan: string): Entry
  {
    match row
    case None => NEW_ROW.(isDirectory := true, state := PendingUpload, lastSeen := Some(scan))
    case Some(e) =>
      Revived(e).(isDirectory := true,
                  state := if e.localDeleted || e.remoteId.None? || e.state == Deleted
                           then PendingUpload else Unchanged,
                  lastSeen := Some(scan))
  }

  /** `markEntriesNotSeenInScanDeleted` on one row. */
  function Swept(e: Entry, scan: string): Entry
  {
    if e.lastSeen != Some(scan) then e.(state := Deleted) else e
  }

  /** What a remote listing says about one entry. */
  datatype Listed = Listed(remoteId: string, folder: bool, fileId: Option<string>, updated: string, deleted: bool)

  /** The UPDATE of `upsertRemoteEntry`, for a row that already carries the remote id. */
  function RemoteUpdated(e: Entry, l: Listed): Entry
  {
    e.(isDirectory := l.folder, remoteUpdated := Some(l.updated), remoteFileId := l.fileId, remoteDeleted := l.deleted,
       syncedRemote := if e.syncedRemote.None? && e.remoteId.Some? && e.hash.Some? && e.hash == e.syncedHash
                       then Some(l.updated) else e.syncedRemote,
       state := if l.deleted then Deleted else Unchanged)
  }

  /** The INSERT of `upsertRemoteEntry`, which overwrites the remote half of a row with the same path. */
  function RemoteInserted(row: Option<Entry>, l: Listed): Entry
  {
    var e := if row.Some? then row.value else NEW_ROW;
    e.(remoteId := Some(l.remoteId), isDirectory := l.folder, remoteUpdated := Some(l.updated),
       remoteFileId := l.fileId, remoteDeleted := l.deleted, state := if l.deleted then Deleted else Unchanged)
  }

  /** `upsertRemoteEntry` as seen by the row at the listed path. */
  function RemoteScanned(row: Option<Entry>, l: Listed): Entry
  {
    if row.Some? && row.value.remoteId == Some(l.remoteId) then RemoteUpdated(row.value, l) else RemoteInserted(row, l)
  }

  function MarkedUploaded(e: Entry, fileId: string): Entry
  {
    e.(remoteId := Some(fileId), remoteFileId := Some(fileId), syncedHash := e.hash, remoteDeleted := false,
       localDeleted := false, conflict := Some("none"), state := Unchanged)
  }

  /** `markEntryDownloaded` with the facts of the written file. */
  function MarkedDownloaded(e: Entry, file: File): Entry
  {
    e.(size := Some(file.size), mtime := Some(file.mtime), hash := Some(file.hash), syncedHash := Some(file.hash),
       syncedRemote := e.remoteUpdated, state := Unchanged)
  }

  /** `markEntryDownloaded` when no hasher is available. */
  function MarkedDownloadedUnhashed(e: Entry): Entry
  {
    e.(syncedRemote := e.remoteUpdated, state := Unchanged)
  }

  function MarkedFolderCreated(e: Entry, folderId: string): Entry
  {
    e.(remoteId := Some(folderId), state := Unchanged)
  }

  function MarkedConflict(e: Entry): Entry
  {
    e.(conflict := Some("local_remote_modified"))
  }

  function MarkedRootRemoteDeleted(e: Entry): Entry
  {
    e.(state := Deleted, localDeleted := true, remoteDeleted := true, syncedRemote := e.remoteUpdated,
       conflict := Some("none"))
  }

  // ---------------------------------------------------------------- one reconcile step

  /** What the download of one entry did: nothing, wrote a file, or wrote one that could then not be measured. */
  datatype Fetch = NotFetched | Written(file: File) | WrittenUnmeasured(file: File)

  /** What the reconciler was built with. */
  datatype Services = Services(canDownload: bool, canHash: bool)

  predicate Fetches(e: Entry, mode: Mode, services: Services)
  {
    Decide(e, mode) == Download && !e.isDirectory && services.canDownload && e.remoteFileId.Some?
  }

  /** The row after the reconciler handled it. */
  function Reconciled(e: Entry, mode: Mode, services: Services, fetch: Fetch): Entry
  {
    if Decide(e, mode) == Conflict then MarkedConflict(e)
    else if !Fetches(e, mode, services) || fetch.NotFetched? then e
    else if !services.canHash then MarkedDownloadedUnhashed(e)
    else if fetch.WrittenUnmeasured? then e
    else MarkedDownloaded(e, fetch.file)
  }

  // ---------------------------------------------------------------- what the statements record

  /** The columns that belong to the local side of a row. */
  predicate SameLocal(a: Entry, b: Entry)
  {
    && a.localDeleted == b.localDeleted && a.size == b.size && a.mtime == b.mtime && a.hash == b.hash
    && a.syncedHash == b.syncedHash && a.conflict == b.conflict && a.lastSeen == b.lastSeen
  }

  /** The columns that belong to the remote side of a row. */
  predicate SameRemote(a: Entry, b: Entry)
  {
    && a.remoteId == b.remoteId && a.remoteFileId == b.remoteFileId && a.remoteDeleted == b.remoteDeleted
    && a.remoteUpdated == b.remoteUpdated && a.syncedRemote == b.syncedRemote
  }

  /**
   * What a file scan records. The hash is the file's own unless a live row of
   * the same size and time vouches for it; the row is pending exactly if it is
   * new, was deleted on either record, has no remote copy, or its content
   * changed; and a row that was not locally deleted keeps its remote side.
   */
  lemma FileScanRecords(row: Option<Entry>, file: File, reuse: bool, scan: string)
    ensures var after := FileScanned(row, file, reuse, scan);
            && after.size == Some(file.size) && after.mtime == Some(file.mtime) && after.lastSeen == Some(scan)
            && !after.isDirectory && !after.localDeleted
            && (after.hash == Some(file.hash)
                || (reuse && row.Some? && row.value.state != Deleted && row.value.size == Some(file.size)
                    && row.value.mtime == Some(file.mtime) && after.hash == row.value.hash))
            && after.state ==
               (if row.None? || row.value.state == Deleted || row.value.localDeleted || row.value.remoteId.None?
                   || row.value.hash != after.hash
                then PendingUpload else Unchanged)
            && (row.Some? && !row.value.localDeleted ==>
                  SameRemote(after, row.value) && after.syncedHash == row.value.syncedHash
                  && after.conflict == row.value.conflict)
            && (row.None? ==> after.remoteId.None? && after.syncedHash.None? && !InConflict(after))
  {
  }

  /** What a directory scan records; the remote side goes only with a local deletion. */
  lemma DirectoryScanRecords(row: Option<Entry>, scan: string)
    ensures var after := DirectoryScanned(row, scan);
            && after.isDirectory && !after.localDeleted && after.lastSeen == Some(scan)
            && after.state ==
               (if row.None? || row.value.state == Deleted || row.value.localDeleted || row.value.remoteId.None?
                then PendingUpload else Unchanged)
            && (row.Some? && !row.value.localDeleted ==>
                  SameRemote(after, row.value) && after.conflict == row.value.conflict)
            && (row.Some? && row.value.localDeleted ==>
                  after.remoteId.None? && !after.remoteDeleted && after.remoteUpdated.None? && after.syncedRemote.None?
                  && !InConflict(after))
            && (row.Some? ==> after.hash == row.value.hash && after.syncedHash == row.value.syncedHash)
  {
  }

  /**
   * What a listing records: the remote columns as listed, the local ones
   * untouched. It acknowledges the listed version exactly if none was
   * acknowledged, the row already stood for this remote entry, and its content
   * is synced.
   */
  lemma ListingRecords(row: Option<Entry>, l: Listed)
    ensures var after := RemoteScanned(row, l);
            var before := if row.Some? then row.value else NEW_ROW;
            && after.remoteId == Some(l.remoteId) && after.remoteFileId == l.fileId && after.remoteDeleted == l.deleted
            && after.remoteUpdated == Some(l.updated) && after.isDirectory == l.folder
            && after.state == (if l.deleted then Deleted else Unchanged)
            && SameLocal(after, before)
            && after.syncedRemote ==
               (if before.syncedRemote.None? && before.remoteId == Some(l.remoteId) && before.hash.Some?
                   && before.hash == before.syncedHash
                then Some(l.updated) else before.syncedRemote)
  {
  }

  /** A deletion listed for a clean file is carried out; listed for a changed one it is a conflict. */
  lemma ListedDeletionIsActedOn(e: Entry, l: Listed)
    requires l.deleted && !e.localDeleted && !InConflict(e)
    ensures var after := RemoteScanned(Some(e), l);
            && Decide(after, TwoWay) == Decide(after, RemoteMirror)
                 == (if e.hash == e.syncedHash then DeleteLocal else Conflict)
            && Decide(after, UploadOnly) == Upload
  {
  }

  /** A conflict, once marked, is one for every mode, and is all the mark changes. */
  lemma ConflictMarkRecords(e: Entry, mode: Mode)
    ensures var after := MarkedConflict(e);
            && InConflict(after) && Decide(after, mode) == Conflict
            && after == e.(conflict := after.conflict)
  {
  }

  /** Both download marks acknowledge the remote version; the measured one also records the file as synced. */
  lemma DownloadMarksRecord(e: Entry, file: File)
    ensures var after := MarkedDownloaded(e, file);
            && after.syncedRemote == e.remoteUpdated && after.state == Unchanged
            && after.size == Some(file.size) && after.mtime == Some(file.mtime)
            && after.hash == after.syncedHash == Some(file.hash)
            && after == e.(size := after.size, mtime := after.mtime, hash := after.hash, syncedHash := after.syncedHash,
                           syncedRemote := after.syncedRemote, state := after.state)
    ensures var after := MarkedDownloadedUnhashed(e);
            && after.syncedRemote == e.remoteUpdated && after.state == Unchanged
            && after == e.(syncedRemote := after.syncedRemote, state := after.state)
  {
  }

  /** A created folder is on the server, and upload-only has nothing more to do about it. */
  lemma FolderMarkSettles(e: Entry, folderId: string)
    requires Decide(e, UploadOnly) == Upload && e.isDirectory && e.hash == e.syncedHash && !e.remoteDeleted
    ensures var after := MarkedFolderCreated(e, folderId);
            && after.remoteId == Some(folderId) && after.state == Unchanged && SameLocal(after, e)
            && Decide(after, UploadOnly) == Noop
  {
  }

  /** When the remote root is deleted every row is settled: gone on both sides, acknowledged, and left alone. */
  lemma RootDeletionSettles(e: Entry, mode: Mode)
    ensures var after := MarkedRootRemoteDeleted(e);
            && after.state == Deleted && after.localDeleted && after.remoteDeleted && !InConflict(after)
            && after.syncedRemote == after.remoteUpdated == e.remoteUpdated
            && after.hash == e.hash && after.syncedHash == e.syncedHash && after.remoteId == e.remoteId
            && Decide(after, mode) == Noop
  {
  }

  // ---------------------------------------------------------------- decisions, column by column

  /** The remote version has changed since it was last acknowledged. */
  predicate RemoteMoved(e: Entry) { !e.remoteDeleted && e.remoteUpdated != e.syncedRemote }

  /** The recorded local content is not the synced one. */
  predicate LocalMoved(e: Entry) { !e.localDeleted && e.hash != e.syncedHash }

  predicate OnServer(e: Entry) { e.remoteId.Some? && !e.remoteDeleted }

  /** When each two-way decision is made, exactly, in terms of the row's columns. */
  lemma TwoWayExactly(e: Entry)
    ensures Decide(e, TwoWay) == Conflict <==>
              InConflict(e) || (e.localDeleted && RemoteMoved(e)) || (e.remoteDeleted && LocalMoved(e))
              || (LocalMoved(e) && RemoteMoved(e))
    ensures Decide(e, TwoWay) == DeleteLocal <==>
              !InConflict(e) && e.remoteDeleted && !e.localDeleted && e.hash == e.syncedHash
    ensures Decide(e, TwoWay) == Download <==>
              !InConflict(e) && OnServer(e) && !e.localDeleted && e.hash == e.syncedHash && RemoteMoved(e)
    ensures Decide(e, TwoWay) == DeleteRemote <==>
              !InConflict(e) && e.localDeleted && OnServer(e) && !RemoteMoved(e)
    ensures Decide(e, TwoWay) == Upload <==>
              !InConflict(e) && !e.localDeleted && !e.remoteDeleted
              && (if e.remoteUpdated == e.syncedRemote then e.remoteId.None? || LocalMoved(e)
                  else e.remoteId.None? && !LocalMoved(e))
    ensures InConflict(e) ==> forall mode :: Decide(e, mode) == Conflict
  {
  }

  /** The same for the one-way modes. */
  lemma OneWayExactly(e: Entry)
    ensures Decide(e, UploadOnly) == Conflict <==> InConflict(e) || (e.localDeleted && RemoteMoved(e))
    ensures Decide(e, UploadOnly) == DeleteRemote <==>
        !InConflict(e) && e.localDeleted && OnServer(e) && !RemoteMoved(e)
    ensures Decide(e, UploadOnly) == Upload <==> !InConflict(e) && !e.localDeleted && (!OnServer(e) || LocalMoved(e))
    ensures Decide(e, UploadOnly) !in {Download, DeleteLocal}
    ensures Decide(e, RemoteMirror) == Conflict <==> InConflict(e) || (e.remoteDeleted && LocalMoved(e))
    ensures Decide(e, RemoteMirror) == DeleteLocal <==>
              !InConflict(e) && e.remoteDeleted && !e.localDeleted && e.hash == e.syncedHash
    ensures Decide(e, RemoteMirror) == Download <==> !InConflict(e) && OnServer(e) && (e.localDeleted || RemoteMoved(e))
    ensures Decide(e, RemoteMirror) !in {Upload, DeleteRemote}
  {
  }

  /**
   * The modes agree: two-way does nothing exactly when both one-way modes do
   * nothing, and whatever else it decides short of a conflict is what the
   * one-way mode of that direction decides.
   */
  lemma TwoWayRefinesOneWay(e: Entry)
    ensures Decide(e, TwoWay) == Noop <==> Decide(e, UploadOnly) == Noop && Decide(e, RemoteMirror) == Noop
    ensures Decide(e, TwoWay) in {Upload, DeleteRemote} ==> Decide(e, UploadOnly) == Decide(e, TwoWay)
    ensures Decide(e, TwoWay) in {Download, DeleteLocal} ==> Decide(e, RemoteMirror) == Decide(e, TwoWay)
  {
  }
}
