/** Restoring a quarantined file: the verified move in the reverse direction. */
module Restore {
  import opened Domain
  import opened JournalProtocol
  import opened VerifiedMove
  import opened MoveCommands

  /** The restore of a verified quarantine; None for any other transaction. */
  function PlannedRestore(origin: Row, id: Uuid): Option<Transaction> {
    if !origin.tx.kind.Quarantine? || !origin.status.Verified? then None
    else
      var q := origin.tx;
      Some(Transaction(id, q.project, None, Kind.Restore, q.destination, q.source,
                       q.identity, q.size, q.blake3, q.sha256, q.token))
  }

  /** A move and its reverse leave the files as they were. */
  lemma ThereAndBack(files: map<Path, File>, a: Path, b: Path)
    requires a in files && b !in files
    ensures Moved(Moved(files, a, b), b, a) == files
  {
  }

  /** What the restore of `q` may have done: nothing, or one non-replacing rename back. */
  ghost predicate HasRestored(d: Digests, before: map<Path, File>, after: map<Path, File>, q: Transaction) {
    && q.destination in before && q.source !in before
    && before[q.destination].identity == q.identity
    && after == Moved(before, q.destination, q.source)
  }

  /** The file of quarantine transaction `q` can go back: it is where `q` put it, unchanged and with one
      link, its original path is free, and the record of its restore fits the table. */
  predicate Restorable(d: Digests, files: map<Path, File>, q: Transaction) {
    && q.size <= I64_MAX && d.hasKey(q.destination) && d.hasKey(q.source)
    && q.destination in files && q.source !in files
    && var file := files[q.destination];
       && file.identity == q.identity && |file.content| == q.size && file.links == 1
       && d.token(file.identity, |file.content|, file.modified) == q.token
       && d.blake3(file.content) == q.blake3 && d.sha256(file.content) == q.sha256
  }

  predicate CanRestore(entries: map<Uuid, Entry>, rows: map<Uuid, Row>, origin: Uuid) {
    && origin in entries && entries[origin].state.EntryVerified?
    && origin in rows && rows[origin].tx.kind.Quarantine? && rows[origin].status.Verified?
  }

  /** The row is one of the project, at the path where `q` put its file. */
  predicate AtDestination(q: Transaction, entry: Entry) {
    entry.project == q.project && entry.path == q.destination
  }

  /** How a restore of `q` that has reached this status has marked the quarantine table. */
  ghost predicate RestoreMarks(q: Transaction, status: Option<TransactionState>,
                               before: map<Uuid, Entry>, after: map<Uuid, Entry>)
  {
    && after.Keys == before.Keys
    && forall o | o in before ::
         && after[o].project == before[o].project && after[o].path == before[o].path
         && after[o].state == if AtDestination(q, before[o]) then StateAfter(None, status, before[o].state) else before[o].state
  }

  /** Restore one quarantine entry, cut short anywhere. On a reliable machine it succeeds exactly when
      the entry is a verified one whose file is unchanged and whose original path is free. The rows of
      the quarantine table at the file's quarantine path follow the restore's status; no other row
      changes. */
  method RestoreOne(m: Machine, origin: Uuid, id: Uuid) returns (ok: bool)
    modifies m
    ensures m.files != old(m.files) ==>
              && origin in old(m.rows) && old(m.rows)[origin].tx.kind.Quarantine? && old(m.rows)[origin].status.Verified?
              && HasRestored(m.digests, old(m.files), m.files, old(m.rows)[origin].tx)
    ensures ok ==> m.alive && m.files != old(m.files) && id !in old(m.rows) && Status(m.rows, id) == Some(Verified)
    ensures origin in old(m.rows) && origin != id ==> origin in m.rows && m.rows[origin] == old(m.rows)[origin]
    ensures m.entries.Keys == old(m.entries).Keys
    ensures !CanRestore(old(m.entries), old(m.rows), origin) || id in old(m.rows) ==> m.entries == old(m.entries)
    ensures CanRestore(old(m.entries), old(m.rows), origin) && id !in old(m.rows) ==>
              RestoreMarks(old(m.rows)[origin].tx, Status(m.rows, id), old(m.entries), m.entries)
    ensures ok ==> CanRestore(old(m.entries), old(m.rows), origin) && forall o | o in m.entries ::
              m.entries[o].state == if AtDestination(old(m.rows)[origin].tx, m.entries[o]) then EntryRestored
                                    else old(m.entries)[o].state
    ensures m.reliable && old(m.alive) && id !in old(m.rows) ==>
              (ok <==> CanRestore(old(m.entries), old(m.rows), origin)
                       && Restorable(m.digests, old(m.files), old(m.rows)[origin].tx))
  {
    ok := false;
    if origin !in m.entries || !m.entries[origin].state.EntryVerified? || origin !in m.rows {
      return;
    }
    var tx := PlannedRestore(m.rows[origin], id);
    if tx.None? {
      return;
    }
    var t := new FileTransaction.Planned(tx.value);
    ghost var before := m.files;
    ok := ExecuteVerifiedMove(m, t);
    if m.files != before {
      assert HasMoved(m.digests, before, m.files, tx.value);
    }
    if ok {
      assert m.files != before by {
        assert HasMoved(m.digests, before, m.files, tx.value);
        assert tx.value.source !in m.files;
      }
    }
  }

  /** Quarantine a file and restore it, either cut short anywhere: the file is untouched or at its
      quarantine path with nothing else changed; if both succeed, no file has changed at all and the
      quarantine row says restored. On a reliable machine what was quarantined can always be restored. */
  method QuarantineThenRestore(m: Machine, tx: Transaction, restoreId: Uuid) returns (moved: bool, restored: bool)
    requires tx.kind.Quarantine? && tx.id != restoreId
    modifies m
    ensures m.files == old(m.files) || HasMoved(m.digests, old(m.files), m.files, tx)
    ensures moved && restored ==> m.files == old(m.files)
    ensures moved && !restored && m.alive ==> tx.id in m.rows && m.rows[tx.id].status.Verified?
    ensures moved && restored ==> tx.id in m.entries && (tx.id !in old(m.entries) ==>
              m.entries[tx.id] == Entry(tx.project, tx.destination, EntryRestored))
    ensures forall o | o in old(m.entries) && o != tx.id && !AtDestination(tx, old(m.entries)[o]) ::
              o in m.entries && m.entries[o] == old(m.entries)[o]
    ensures m.reliable && old(m.alive) && tx.id !in old(m.entries) && restoreId !in old(m.rows) ==> (moved <==> restored)
  {
    restored := false;
    var t := new FileTransaction.Planned(tx);
    ghost var before := m.files;
    moved := ExecuteVerifiedMove(m, t);
    if !moved {
      return;
    }
    assert m.rows[tx.id].tx == tx;
    assert HasMoved(m.digests, before, m.files, tx);
    ThereAndBack(before, tx.source, tx.destination);
    restored := RestoreOne(m, tx.id, restoreId);
  }
}
