/** The verified move and its startup reconciliation, run by one process at a time on a machine that
    may lose power between any two durable steps. A dead machine ignores every later step, so a
    power cut at any point is a run of the same code whose remaining steps do nothing. */
module VerifiedMove {
  import opened Domain
  import opened JournalProtocol

  /** The mutable record a command works on. */
  class FileTransaction {
    const tx: Transaction
    var state: TransactionState
    var created: bool
    var pending: Option<Pending>

    constructor Planned(tx: Transaction)
      ensures this.tx == tx && state == TransactionState.Planned && !created && pending == None
    {
      this.tx := tx;
      state := TransactionState.Planned;
      created := false;
      pending := None;
    }

    constructor Loaded(row: Row)
      ensures tx == row.tx && state == row.status && created && pending == None
    {
      tx := row.tx;
      state := row.status;
      created := true;
      pending := None;
    }

    function Durable(): Option<TransactionState>
      reads this
    {
      if created then Some(state) else None
    }
  }

  lemma CommitReaches(d: Digests, w: World, c: Copy, next: TransactionState)
    requires w.copies == map[0 := c] && c.pending.Some? && c.pending.value.next == next
    requires Status(w.rows, c.tx.id) == c.state
    ensures Reaches(d, w, World(w.files, w.manifest, Committed(w.rows, c.tx, c.state, next),
                                Projected(w.entries, c.tx, next), map[0 := Copy(c.tx, Some(next), None)]))
  {
    assert w.copies[0 := Copy(c.tx, Some(next), None)] == map[0 := Copy(c.tx, Some(next), None)];
    ReachesByOneStep(d, w, Commit(0));
  }

  lemma AppendReaches(d: Digests, w: World, c: Copy, next: TransactionState)
    requires w.copies == map[0 := c] && c.pending.None? && Legal(c.state, next)
    ensures Reaches(d, w, World(w.files, w.manifest + [Event(c.tx.id, c.state, next)], w.rows, w.entries,
                                map[0 := c.(pending := Some(Pending(|w.manifest|, next)))]))
  {
    var c' := c.(pending := Some(Pending(|w.manifest|, next)));
    assert w.copies[0 := c'] == map[0 := c'];
    ReachesByOneStep(d, w, Append(0, next));
  }

  lemma AbandonReaches(d: Digests, w: World, c: Copy)
    requires w.copies == map[0 := c] && c.pending.Some?
    ensures Reaches(d, w, w.(copies := map[0 := c.(pending := None)]))
  {
    assert w.copies[0 := c.(pending := None)] == map[0 := c.(pending := None)];
    ReachesByOneStep(d, w, Abandon(0));
  }

  /** Only the row of `tx` may appear or change, and its record never does. */
  ghost predicate OnlyTouches(rows: map<Uuid, Row>, rows': map<Uuid, Row>, tx: Transaction) {
    && (forall i | i != tx.id :: i in rows <==> i in rows')
    && (forall i | i != tx.id && i in rows :: rows'[i] == rows[i])
    && (tx.id in rows ==> tx.id in rows' && rows'[tx.id].tx == rows[tx.id].tx)
    && (tx.id in rows' && tx.id !in rows ==> rows'[tx.id].tx == tx)
  }

  lemma OnlyTouchesOn(a: map<Uuid, Row>, b: map<Uuid, Row>, c: map<Uuid, Row>, tx: Transaction)
    requires OnlyTouches(a, b, tx) && OnlyTouches(b, c, tx)
    ensures OnlyTouches(a, c, tx)
  {
  }

  /** On a sound machine nothing fails; `cancelled` tells that the command was cancelled before it began
      (a command may also be cancelled later). On a reliable machine nothing fails, nobody cancels, the
      power stays on and all paths are on one
      volume; any other machine may fail at every step. */
  class Machine {
    const digests: Digests
    const sound: bool
    const cancelled: bool
    const reliable: bool := sound && !cancelled
    var files: map<Path, File>
    var manifest: seq<Event>
    var rows: map<Uuid, Row>
    var entries: map<Uuid, Entry>
    var alive: bool

    /** The machine as seen by the journal protocol, with one process that holds `t`. */
    ghost function View(t: FileTransaction): World
      reads this, t
    {
      World(files, manifest, rows, entries, map[0 := Copy(t.tx, t.Durable(), t.pending)])
    }

    /** `t` is exactly what the database holds. */
    ghost predicate Synced(t: FileTransaction)
      reads this, t
    {
      t.created && t.pending.None? && t.tx.id in rows && rows[t.tx.id].tx == t.tx && rows[t.tx.id].status == t.state
    }

    /** The database holds one more committed transition of `t`. */
    twostate predicate Advanced(t: FileTransaction, next: TransactionState)
      reads this, t
    {
      && rows == Committed(old(rows), t.tx, old(t.Durable()), next)
      && entries == Projected(old(entries), t.tx, next)
      && t.created && t.state == next
    }

    twostate predicate Kept(t: FileTransaction)
      reads this, t
    {
      rows == old(rows) && entries == old(entries) && t.Durable() == old(t.Durable()) && t.state == old(t.state)
    }

    /** The machine after the next start: same disk, power on, reliable or not. */
    constructor After(crashed: Machine, reliable: bool)
      ensures digests == crashed.digests && this.reliable == reliable && alive
      ensures files == crashed.files && manifest == crashed.manifest && rows == crashed.rows && entries == crashed.entries
    {
      digests, sound, cancelled, alive := crashed.digests, reliable, false, true;
      files, manifest, rows, entries := crashed.files, crashed.manifest, crashed.rows, crashed.entries;
    }

    method Restart()
      modifies this`alive
      ensures alive
    {
      alive := true;
    }

    /** Whether one fallible step succeeds. */
    method MaySucceed() returns (ok: bool)
      ensures reliable ==> ok
    {
      ok := *;
      ok := ok || reliable;
    }

    /** Append one line and flush it. A failure may leave the line in the file. */
    method AppendManifest(t: FileTransaction, next: TransactionState) returns (ok: bool)
      requires t.pending.None? && Legal(t.Durable(), next)
      modifies this`manifest, this`alive, t`pending
      ensures Reaches(digests, old(View(t)), View(t))
      ensures ok ==> alive && t.pending.Some? && t.pending.value.next == next
      ensures !ok ==> t.pending.None?
      ensures !old(alive) ==> !ok && !alive
      ensures reliable && old(alive) ==> ok
    {
      ghost var before := View(t);
      ReachesItself(digests, before);
      if !alive {
        return false;
      }
      alive := MaySucceed();
      if !alive {
        return false;
      }
      t.pending := Some(Pending(|manifest|, next));
      manifest := manifest + [Event(t.tx.id, t.Durable(), next)];
      AppendReaches(digests, before, before.copies[0], next);
      ok := MaySucceed();
      if !ok {
        ghost var written := View(t);
        GiveUp(t);
        ReachesTransitive(digests, before, written, View(t));
      }
    }

    /** The process drops what it appended but did not commit. */
    method GiveUp(t: FileTransaction)
      requires t.pending.Some?
      modifies this`alive, t`pending
      ensures Reaches(digests, old(View(t)), View(t)) && t.pending.None?
      ensures !old(alive) ==> !alive
    {
      ghost var before := View(t);
      t.pending := None;
      AbandonReaches(digests, before, before.copies[0]);
      var survived := *;
      alive := alive && survived;
    }

    /** One database transaction: compare-and-set of the status, event row, quarantine projection. */
    method CommitTransition(t: FileTransaction) returns (ok: bool)
      requires t.pending.Some?
      modifies this`rows, this`entries, this`alive, t`state, t`created, t`pending
      ensures Reaches(digests, old(View(t)), View(t))
      ensures t.pending.None?
      ensures ok ==> alive
      ensures ok || rows != old(rows) ==> Status(old(rows), t.tx.id) == old(t.Durable())
      ensures var next := old(t.pending.value.next);
              if ok then Advanced(t, next)
              else Kept(t) || (!alive && Advanced(t, next))
      ensures reliable && old(alive) && Status(old(rows), t.tx.id) == old(t.Durable()) ==> ok
    {
      ghost var before := View(t);
      ok := MaySucceed();
      if !alive || !ok || Status(rows, t.tx.id) != t.Durable() {
        GiveUp(t);
        return false;
      }
      var next := t.pending.value.next;
      entries := Projected(entries, t.tx, next);
      rows := Committed(rows, t.tx, t.Durable(), next);
      t.state, t.created, t.pending := next, true, None;
      CommitReaches(digests, before, before.copies[0], next);
      alive := MaySucceed();
      ok := alive;
    }

    /** Append first, then commit; the in-memory state follows only a successful commit. */
    method Journal(t: FileTransaction, next: TransactionState) returns (ok: bool)
      requires t.pending.None? && Legal(t.Durable(), next)
      modifies this`manifest, this`rows, this`entries, this`alive, t`state, t`created, t`pending
      ensures Reaches(digests, old(View(t)), View(t))
      ensures t.pending.None?
      ensures ok || rows != old(rows) ==> old(alive) && Status(old(rows), t.tx.id) == old(t.Durable())
      ensures !old(alive) ==> !ok && !alive && Kept(t)
      ensures if ok then alive && Advanced(t, next)
              else Kept(t) || (!alive && Advanced(t, next))
      ensures EntriesFollow(t.tx, old(t.Durable()), t.Durable(), old(entries), entries)
      ensures reliable && old(alive) && Status(old(rows), t.tx.id) == old(t.Durable()) ==> ok
    {
      hide Projected, EntriesFollow, Reaches;
      EntriesStay(t.tx, t.Durable(), entries);
      CommitMovesEntries(t.tx, t.Durable(), next, entries);
      ghost var before := View(t);
      ok := AppendManifest(t, next);
      if ok {
        ghost var appended := View(t);
        ok := CommitTransition(t);
        ReachesTransitive(digests, before, appended, View(t));
      }
    }

    method Create(t: FileTransaction) returns (ok: bool)
      requires t.pending.None? && !t.created && t.state.Planned?
      modifies this`manifest, this`rows, this`entries, this`alive, t
      ensures Reaches(digests, old(View(t)), View(t))
      ensures t.pending.None? && OnlyTouches(old(rows), rows, t.tx)
      ensures ok ==> alive && t.tx.id !in old(rows) && Synced(t) && t.state.Planned?
      ensures !ok ==> rows == old(rows)
                      || (t.tx.id !in old(rows) && Status(rows, t.tx.id) == Some(TransactionState.Planned))
      ensures entries == old(entries)
      ensures reliable && old(alive) && t.tx.id !in old(rows) ==> (ok <==> Recordable(digests, t.tx))
      ensures !Recordable(digests, t.tx) ==> !ok && manifest == old(manifest) && rows == old(rows)
    {
      if !Recordable(digests, t.tx) {
        ghost var before := View(t);
        ReachesItself(digests, before);
        return false;
      }
      ok := Journal(t, TransactionState.Planned);
    }

    method Transition(t: FileTransaction, next: TransactionState) returns (ok: bool)
      requires Synced(t)
      modifies this`manifest, this`rows, this`entries, this`alive, t
      ensures Reaches(digests, old(View(t)), View(t))
      ensures Synced(t) && OnlyTouches(old(rows), rows, t.tx)
      ensures EntriesFollow(t.tx, Some(old(t.state)), Some(t.state), old(entries), entries)
      ensures ok ==> alive && t.state == next && old(t.state).CanTransitionTo(next)
      ensures !ok ==> t.state == old(t.state) || (!alive && t.state == next && old(t.state).CanTransitionTo(next))
      ensures !old(alive) ==> !ok && !alive && t.state == old(t.state)
      ensures reliable && old(alive) && old(t.state).CanTransitionTo(next) ==> ok
    {
      hide Projected, EntriesFollow, Reaches;
      if !t.state.CanTransitionTo(next) {
        ReachesItself(digests, View(t));
        EntriesStay(t.tx, Some(t.state), entries);
        return false;
      }
      ok := Journal(t, next);
    }

    method Checkpoint() returns (ok: bool)
      ensures reliable ==> ok
      ensures cancelled ==> !ok
    {
      ok := MaySucceed();
      ok := ok && !cancelled;
    }

    method SnapshotPath(path: Path) returns (r: Option<Snapshot>)
      ensures r.Some? ==> alive && path in files && r.value == SnapshotOf(digests, files[path])
      ensures reliable && alive && path in files ==> r.Some?
    {
      var readable := MaySucceed();
      if alive && readable && path in files {
        r := Some(SnapshotOf(digests, files[path]));
      } else {
        r := None;
      }
    }

    /** A stable full pass; None stands for an I/O error, a cancellation or an unstable read. */
    method HashPath(path: Path, hash: Bytes -> Bytes) returns (r: Option<Bytes>)
      ensures r.Some? ==> alive && path in files && r.value == hash(files[path].content)
      ensures reliable && alive && path in files ==> r.Some?
    {
      var readable := MaySucceed();
      if alive && readable && path in files {
        r := Some(hash(files[path].content));
      } else {
        r := None;
      }
    }

    /** Rename without replacing. The mover may fail after the rename took effect. */
    method MoveNoReplace(t: FileTransaction, expected: Snapshot) returns (ok: bool)
      requires t.created && t.state.Moving? && t.pending.None?
      requires expected.identity == t.tx.identity && expected.size == t.tx.size && expected.token == t.tx.token
      modifies this`files, this`alive
      ensures Reaches(digests, old(View(t)), View(t))
      ensures files == old(files)
              || (old(alive) && CanMove(digests, old(files), t.tx)
                  && files == Moved(old(files), t.tx.source, t.tx.destination))
      ensures ok ==> alive && files != old(files)
      ensures !old(alive) ==> !alive
      ensures reliable && old(alive) ==> alive && (ok <==> CanMove(digests, old(files), t.tx))
    {
      ghost var before := View(t);
      ReachesItself(digests, before);
      ok := false;
      if !alive || t.tx.destination in files {
        return;
      }
      var source := SnapshotPath(t.tx.source);
      if source.None? || source.value.identity != expected.identity || source.value.size != expected.size
         || source.value.token != expected.token || source.value.links != 1
      {
        return;
      }
      alive := MaySucceed();
      if !alive {
        return;
      }
      files := Moved(files, t.tx.source, t.tx.destination);
      assert View(t) == Apply(digests, before, Rename(0));
      ReachesByOneStep(digests, before, Rename(0));
      alive := MaySucceed();
      var after := SnapshotPath(t.tx.destination);
      ok := after.Some? && after.value.identity == expected.identity && after.value.size == expected.size
            && after.value.token == expected.token;
    }

    method VerifyDestination(t: FileTransaction) returns (ok: bool)
      ensures ok ==> alive && t.tx.destination in files && DestinationMatches(digests, files[t.tx.destination], t.tx)
      ensures reliable && alive && t.tx.destination in files && DestinationMatches(digests, files[t.tx.destination], t.tx) ==> ok
      ensures cancelled ==> !ok
    {
      ok := Checkpoint();
      if !ok {
        return;
      }
      var destination := SnapshotPath(t.tx.destination);
      if destination.None? || destination.value.identity != t.tx.identity || destination.value.size != t.tx.size {
        return false;
      }
      var blake3 := HashPath(t.tx.destination, digests.blake3);
      if blake3.None? || blake3.value != t.tx.blake3 {
        return false;
      }
      var sha256 := HashPath(t.tx.destination, digests.sha256);
      ok := sha256.Some? && sha256.value == t.tx.sha256;
    }
  }
}
