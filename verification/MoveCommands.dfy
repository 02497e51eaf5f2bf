/** The move command, the reconciliation command, and what they do together across power cuts. */
module MoveCommands {
  import opened Domain
  import opened JournalProtocol
  import opened VerifiedMove

  /** The source file was the expected one and the files are those after one rename of it. */
  ghost predicate HasMoved(d: Digests, before: map<Path, File>, after: map<Path, File>, tx: Transaction) {
    CanMove(d, before, tx) && after == Moved(before, tx.source, tx.destination)
  }

  /** What a durable status says about the files, for a transaction that began with `before`. */
  ghost predicate Tells(d: Digests, status: Option<TransactionState>,
                        before: map<Path, File>, after: map<Path, File>, tx: Transaction)
  {
    match status
    case None => after == before
    case Some(s) =>
      && (s.Planned? || s.PreflightFailed? ==> after == before)
      && (s.PreflightValidated? ==> after == before)
      && (s.PreflightValidated? || s.Moving? || s.MoveFailed? || s.RecoveryRequired? ==>
            tx.source in before && SourceMatches(d, before[tx.source], tx))
      && (s.Moving? || s.MoveFailed? || s.RecoveryRequired? ==> after == before || HasMoved(d, before, after, tx))
      && (s.MovedUnverified? || s.VerifyFailed? || s.Verified? ==> HasMoved(d, before, after, tx))
      && (s.Verified? ==> tx.destination in after && DestinationMatches(d, after[tx.destination], tx))
      && !s.Cancelled? && !s.IsReconciled()
  }

  lemma CreationMovesNothing(tx: Transaction, entries: map<Uuid, Entry>)
    ensures EntriesFollow(tx, None, Some(TransactionState.Planned), entries, entries)
  {
  }

  /** Create the record and check the source; `snapshot` is present only when the move may start. */
  method Preflight(m: Machine, t: FileTransaction) returns (snapshot: Option<Snapshot>)
    requires !t.created && t.pending.None? && t.state.Planned?
    modifies m`manifest, m`rows, m`entries, m`alive, t
    ensures Reaches(m.digests, old(m.View(t)), m.View(t))
    ensures OnlyTouches(old(m.rows), m.rows, t.tx)
    ensures if t.tx.id in old(m.rows) then snapshot.None? && m.rows == old(m.rows)
            else Tells(m.digests, Status(m.rows, t.tx.id), m.files, m.files, t.tx)
    ensures if t.tx.id in old(m.rows) then m.entries == old(m.entries)
            else EntriesFollow(t.tx, None, Status(m.rows, t.tx.id), old(m.entries), m.entries)
    ensures snapshot.Some? ==>
              && m.Synced(t) && t.state.Moving? && m.alive
              && snapshot.value.identity == t.tx.identity && snapshot.value.size == t.tx.size
              && snapshot.value.token == t.tx.token
    ensures !Recordable(m.digests, t.tx) ==> snapshot.None? && m.rows == old(m.rows)
    ensures m.cancelled ==> snapshot.None?
                            && (t.tx.id !in old(m.rows) ==> Status(m.rows, t.tx.id) in {None, Some(TransactionState.Planned)})
    ensures m.reliable && old(m.alive) && t.tx.id !in old(m.rows) && Recordable(m.digests, t.tx) ==>
              && m.alive
              && (snapshot.Some? <==> t.tx.source in m.files && SourceMatches(m.digests, m.files[t.tx.source], t.tx))
              && (snapshot.None? ==> Status(m.rows, t.tx.id) == Some(PreflightFailed))
  {
    hide EntriesFollow, SourceMatches, Reaches;
    ghost var w0 := m.View(t);
    EntriesStay(t.tx, None, m.entries);
    CreationMovesNothing(t.tx, m.entries);
    snapshot := None;
    var ok := m.Create(t);
    if !ok {
      return;
    }
    ghost var w1 := m.View(t);
    snapshot := CheckAndStart(m, t);
    ReachesTransitive(m.digests, w0, w1, m.View(t));
    CheckedSinceCreation(t.tx, t.state, w0.entries, m.entries);
  }

  lemma CheckedSinceCreation(tx: Transaction, s: TransactionState, entries: map<Uuid, Entry>, entries': map<Uuid, Entry>)
    requires s.Planned? || s.PreflightFailed? || s.PreflightValidated? || s.Moving?
    requires EntriesFollow(tx, Some(TransactionState.Planned), Some(s), entries, entries')
    ensures EntriesFollow(tx, None, Some(s), entries, entries')
  {
  }

  /** The checks on a planned record's source, and the two transitions before the move. */
  method CheckAndStart(m: Machine, t: FileTransaction) returns (snapshot: Option<Snapshot>)
    requires m.Synced(t) && t.state.Planned?
    modifies m`manifest, m`rows, m`entries, m`alive, t
    ensures Reaches(m.digests, old(m.View(t)), m.View(t))
    ensures m.Synced(t) && OnlyTouches(old(m.rows), m.rows, t.tx)
    ensures EntriesFollow(t.tx, Some(TransactionState.Planned), Some(t.state), old(m.entries), m.entries)
    ensures t.state.Planned? || t.state.PreflightFailed?
            || ((t.state.PreflightValidated? || t.state.Moving?)
                && t.tx.source in m.files && SourceMatches(m.digests, m.files[t.tx.source], t.tx))
    ensures snapshot.Some? ==>
              && t.state.Moving? && m.alive
              && snapshot.value.identity == t.tx.identity && snapshot.value.size == t.tx.size
              && snapshot.value.token == t.tx.token
    ensures m.cancelled ==> snapshot.None? && t.state.Planned?
    ensures m.reliable && old(m.alive) ==>
              && m.alive
              && (snapshot.Some? <==> t.tx.source in m.files && SourceMatches(m.digests, m.files[t.tx.source], t.tx))
              && (snapshot.None? ==> t.state.PreflightFailed?)
  {
    hide EntriesFollow, Reaches;
    ghost var w0 := m.View(t);
    EntriesStay(t.tx, Some(TransactionState.Planned), m.entries);
    ReachesItself(m.digests, w0);
    snapshot := None;
    var ok := m.Checkpoint();
    if !ok {
      return;
    }
    var source := m.SnapshotPath(t.tx.source);
    if source.None? || source.value.identity != t.tx.identity || source.value.size != t.tx.size
       || source.value.token != t.tx.token
    {
      ok := m.Transition(t, PreflightFailed);
      return;
    }
    ok := ValidateAndStart(m, t);
    if ok {
      snapshot := source;
    }
  }

  method ValidateAndStart(m: Machine, t: FileTransaction) returns (ok: bool)
    requires m.Synced(t) && t.state.Planned?
    modifies m`manifest, m`rows, m`entries, m`alive, t
    ensures Reaches(m.digests, old(m.View(t)), m.View(t))
    ensures m.Synced(t) && OnlyTouches(old(m.rows), m.rows, t.tx)
    ensures t.state.Planned? || t.state.PreflightValidated? || t.state.Moving?
    ensures EntriesFollow(t.tx, Some(old(t.state)), Some(t.state), old(m.entries), m.entries)
    ensures ok ==> m.alive && t.state.Moving?
    ensures m.cancelled ==> !t.state.Moving?
    ensures m.reliable && old(m.alive) ==> ok
  {
    hide EntriesFollow, Reaches;
    ghost var w0 := m.View(t);
    ok := m.Transition(t, PreflightValidated);
    if !ok {
      return;
    }
    ok := m.Checkpoint();
    if !ok {
      return;
    }
    ghost var w1 := m.View(t);
    ok := m.Transition(t, Moving);
    ReachesTransitive(m.digests, w0, w1, m.View(t));
    EntriesFollowOn(t.tx, Some(TransactionState.Planned), Some(PreflightValidated), Some(t.state),
                    w0.entries, w1.entries, m.entries);
  }

  /** Two journal transitions in a row, as after a failed move or a failed verification. */
  method FailTowardsRecovery(m: Machine, t: FileTransaction, failure: TransactionState)
    requires m.Synced(t)
    requires (t.state.Moving? && failure.MoveFailed?) || (t.state.MovedUnverified? && failure.VerifyFailed?)
    modifies m`manifest, m`rows, m`entries, m`alive, t
    ensures Reaches(m.digests, old(m.View(t)), m.View(t))
    ensures OnlyTouches(old(m.rows), m.rows, t.tx)
    ensures m.Synced(t)
    ensures t.state == old(t.state) || t.state == failure || t.state.RecoveryRequired?
    ensures EntriesFollow(t.tx, Some(old(t.state)), Some(t.state), old(m.entries), m.entries)
    ensures m.reliable && old(m.alive) ==> t.state.RecoveryRequired?
  {
    hide EntriesFollow, Reaches;
    ghost var w0, s := m.View(t), t.state;
    var ok := m.Transition(t, failure);
    if ok {
      ghost var w1 := m.View(t);
      ok := m.Transition(t, RecoveryRequired);
      ReachesTransitive(m.digests, w0, w1, m.View(t));
      EntriesFollowOn(t.tx, Some(s), Some(failure), Some(t.state), w0.entries, w1.entries, m.entries);
    }
  }

  /** The statuses of a move that was started and is not yet reconciled. */
  predicate SinceMoving(s: Option<TransactionState>) {
    s.Some? && 2 <= s.value.Rank() && (s.value.Rank() == 6 ==> s.value.Verified?)
  }

  method MoveAndVerify(m: Machine, t: FileTransaction, snapshot: Snapshot) returns (ok: bool)
    requires m.Synced(t) && t.state.Moving?
    requires t.tx.source in m.files && SourceMatches(m.digests, m.files[t.tx.source], t.tx)
    requires snapshot.identity == t.tx.identity && snapshot.size == t.tx.size && snapshot.token == t.tx.token
    modifies m`files, m`manifest, m`rows, m`entries, m`alive, t
    ensures Reaches(m.digests, old(m.View(t)), m.View(t))
    ensures OnlyTouches(old(m.rows), m.rows, t.tx)
    ensures Tells(m.digests, Status(m.rows, t.tx.id), old(m.files), m.files, t.tx)
    ensures m.files == old(m.files) || HasMoved(m.digests, old(m.files), m.files, t.tx)
    ensures SinceMoving(Status(m.rows, t.tx.id))
    ensures EntriesFollow(t.tx, Some(Moving), Status(m.rows, t.tx.id), old(m.entries), m.entries)
    ensures ok ==> m.alive && Status(m.rows, t.tx.id) == Some(Verified)
    ensures m.reliable && old(m.alive) ==>
              if CanMove(m.digests, old(m.files), t.tx) && DestinationMatches(m.digests, old(m.files)[t.tx.source], t.tx)
              then ok else Status(m.rows, t.tx.id) == Some(RecoveryRequired)
  {
    hide EntriesFollow, Reaches, SourceMatches, DestinationMatches, OnlyTouches;
    ghost var w0 := m.View(t);
    var moved := m.MoveNoReplace(t, snapshot);
    ghost var w1 := m.View(t);
    if !moved {
      FailTowardsRecovery(m, t, MoveFailed);
      ReachesTransitive(m.digests, w0, w1, m.View(t));
      return false;
    }
    ok := VerifyMoved(m, t);
    ReachesTransitive(m.digests, w0, w1, m.View(t));
  }

  method VerifyMoved(m: Machine, t: FileTransaction) returns (ok: bool)
    requires m.Synced(t) && t.state.Moving?
    modifies m`manifest, m`rows, m`entries, m`alive, t
    ensures Reaches(m.digests, old(m.View(t)), m.View(t))
    ensures m.Synced(t) && OnlyTouches(old(m.rows), m.rows, t.tx)
    ensures t.state.Moving?
              || t.state.MovedUnverified? || t.state.VerifyFailed? || t.state.RecoveryRequired?
              || (t.state.Verified? && t.tx.destination in m.files
                  && DestinationMatches(m.digests, m.files[t.tx.destination], t.tx))
    ensures EntriesFollow(t.tx, Some(Moving), Some(t.state), old(m.entries), m.entries)
    ensures ok ==> m.alive && t.state.Verified?
    ensures m.reliable && old(m.alive) && t.tx.destination in m.files ==>
              if DestinationMatches(m.digests, m.files[t.tx.destination], t.tx) then ok else t.state.RecoveryRequired?
  {
    hide EntriesFollow, Reaches, DestinationMatches, OnlyTouches;
    ghost var w0 := m.View(t);
    ok := m.Transition(t, MovedUnverified);
    if !ok {
      return;
    }
    ghost var w1 := m.View(t);
    ok := m.VerifyDestination(t);
    if ok {
      ok := m.Transition(t, Verified);
    } else {
      FailTowardsRecovery(m, t, VerifyFailed);
    }
    ReachesTransitive(m.digests, w0, w1, m.View(t));
    OnlyTouchesOn(w0.rows, w1.rows, m.rows, t.tx);
    EntriesFollowOn(t.tx, Some(Moving), Some(MovedUnverified), Some(t.state), w0.entries, w1.entries, m.entries);
  }

  /** One quarantine or restore. Whatever fails and wherever the power is cut, the files are either
      untouched or differ by exactly one non-replacing rename of the expected file, the durable
      status says which, and success means a durable, fully matching destination. */
  method ExecuteVerifiedMove(m: Machine, t: FileTransaction) returns (ok: bool)
    requires !t.created && t.pending.None?
    modifies m`files, m`manifest, m`rows, m`entries, m`alive, t
    ensures Reaches(m.digests, old(m.View(t)), m.View(t))
    ensures OnlyTouches(old(m.rows), m.rows, t.tx)
    ensures m.files == old(m.files) || HasMoved(m.digests, old(m.files), m.files, t.tx)
    ensures t.tx.id in old(m.rows) || !old(t.state).Planned? ==>
              m.files == old(m.files) && m.rows == old(m.rows) && m.entries == old(m.entries)
    ensures t.tx.id !in old(m.rows) ==> EntriesFollow(t.tx, None, Status(m.rows, t.tx.id), old(m.entries), m.entries)
    ensures t.tx.id !in old(m.rows) ==> Tells(m.digests, Status(m.rows, t.tx.id), old(m.files), m.files, t.tx)
    ensures ok ==> m.alive && t.tx.id !in old(m.rows) && Status(m.rows, t.tx.id) == Some(Verified)
    ensures m.cancelled ==> !ok && m.files == old(m.files)
                            && (t.tx.id !in old(m.rows) ==> Status(m.rows, t.tx.id) in {None, Some(TransactionState.Planned)})
    ensures !Recordable(m.digests, t.tx) ==> !ok && m.files == old(m.files) && m.rows == old(m.rows)
    ensures m.reliable && old(m.alive) && old(t.state).Planned? && t.tx.id !in old(m.rows) && Recordable(m.digests, t.tx) ==>
              && (ok <==> CanMove(m.digests, old(m.files), t.tx)
                          && DestinationMatches(m.digests, old(m.files)[t.tx.source], t.tx))
              && (ok || Status(m.rows, t.tx.id) ==
                        if t.tx.source in old(m.files) && SourceMatches(m.digests, old(m.files)[t.tx.source], t.tx)
                        then Some(RecoveryRequired) else Some(PreflightFailed))
  {
    hide EntriesFollow, Reaches;
    ghost var w0 := m.View(t);
    if t.state != TransactionState.Planned {
      ReachesItself(m.digests, w0);
      EntriesStay(t.tx, None, m.entries);
      return false;
    }
    var snapshot := Preflight(m, t);
    ok := false;
    if snapshot.Some? {
      ghost var w1 := m.View(t);
      ok := MoveAndVerify(m, t, snapshot.value);
      ReachesTransitive(m.digests, w0, w1, m.View(t));
      EntriesFollowOn(t.tx, None, Some(Moving), Status(m.rows, t.tx.id), w0.entries, w1.entries, m.entries);
    }
  }

  datatype Reconciliation = SourceOnly | DestinationVerified | Both

  /** The state a verified destination is settled to. Failed states are left as they are. */
  function Settled(s: TransactionState): TransactionState {
    if s.Moving? || s.MovedUnverified? || s.RecoveryRequired? then Verified else s
  }

  /** Why reconciliation may have moved a transaction from `s` to `s'`. */
  ghost predicate Explains(d: Digests, files: map<Path, File>, tx: Transaction, s: TransactionState, s': TransactionState) {
    s' == s
    || (s.PendingRecovery() && s'.ReconciledSourceOnly? && tx.source in files && tx.destination !in files)
    || (s.PendingRecovery() && s'.ReconciledBoth? && tx.source in files && tx.destination in files)
    || (s.PendingRecovery() && s'.ReconciledMissing? && tx.source !in files && tx.destination !in files)
    || (((s.Moving? && s'.MovedUnverified?) || (s' == Settled(s) && s'.Verified?))
        && tx.source !in files && tx.destination in files
        && DestinationMatches(d, files[tx.destination], tx))
  }

  method Reconcile(m: Machine, t: FileTransaction) returns (r: Option<Reconciliation>)
    requires m.Synced(t)
    modifies m`manifest, m`rows, m`entries, m`alive, t
    ensures Reaches(m.digests, old(m.View(t)), m.View(t))
    ensures m.Synced(t) && OnlyTouches(old(m.rows), m.rows, t.tx)
    ensures Explains(m.digests, m.files, t.tx, old(t.state), t.state)
    ensures EntriesFollow(t.tx, Some(old(t.state)), Some(t.state), old(m.entries), m.entries)
    ensures r.Some? ==>
              if t.tx.source in m.files then
                if t.tx.destination in m.files then r.value == Both && t.state.ReconciledBoth?
                else r.value == SourceOnly && t.state.ReconciledSourceOnly?
              else
                && t.tx.destination in m.files && r.value == DestinationVerified
                && DestinationMatches(m.digests, m.files[t.tx.destination], t.tx)
                && t.state == Settled(old(t.state))
    ensures m.reliable && old(m.alive) ==>
              && (r.Some? <==> if t.tx.source in m.files then old(t.state).PendingRecovery()
                               else t.tx.destination in m.files && DestinationMatches(m.digests, m.files[t.tx.destination], t.tx))
              && (old(t.state).PendingRecovery() && t.tx.source !in m.files && t.tx.destination !in m.files ==>
                    t.state.ReconciledMissing?)
  {
    hide EntriesFollow, Reaches;
    ghost var w0 := m.View(t);
    ReachesItself(m.digests, w0);
    r := None;
    if t.tx.source in m.files {
      if t.tx.destination in m.files {
        var ok := m.Transition(t, ReconciledBoth);
        r := if ok then Some(Both) else None;
      } else {
        var ok := m.Transition(t, ReconciledSourceOnly);
        r := if ok then Some(SourceOnly) else None;
      }
    } else if t.tx.destination in m.files {
      r := SettleDestination(m, t);
    } else {
      var ok := m.Transition(t, ReconciledMissing);
    }
  }

  method SettleDestination(m: Machine, t: FileTransaction) returns (r: Option<Reconciliation>)
    requires m.Synced(t) && t.tx.source !in m.files && t.tx.destination in m.files
    modifies m`manifest, m`rows, m`entries, m`alive, t
    ensures Reaches(m.digests, old(m.View(t)), m.View(t))
    ensures m.Synced(t) && OnlyTouches(old(m.rows), m.rows, t.tx)
    ensures Explains(m.digests, m.files, t.tx, old(t.state), t.state)
    ensures EntriesFollow(t.tx, Some(old(t.state)), Some(t.state), old(m.entries), m.entries)
    ensures r.Some? ==> r == Some(DestinationVerified) && t.state == Settled(old(t.state))
                        && DestinationMatches(m.digests, m.files[t.tx.destination], t.tx)
    ensures m.reliable && old(m.alive) && DestinationMatches(m.digests, m.files[t.tx.destination], t.tx) ==> r.Some?
  {
    hide EntriesFollow, Reaches;
    ghost var w0, s0 := m.View(t), t.state;
    ReachesItself(m.digests, w0);
    EntriesStay(t.tx, Some(s0), m.entries);
    r := None;
    var ok := m.VerifyDestination(t);
    if !ok {
      return;
    }
    if t.state.Moving? {
      ok := m.Transition(t, MovedUnverified);
      if !ok {
        return;
      }
    }
    if t.state.MovedUnverified? || t.state.RecoveryRequired? {
      ghost var w1, s1 := m.View(t), t.state;
      ok := m.Transition(t, Verified);
      ReachesTransitive(m.digests, w0, w1, m.View(t));
      EntriesFollowOn(t.tx, Some(s0), Some(s1), Some(t.state), w0.entries, w1.entries, m.entries);
      if !ok {
        return;
      }
    }
    r := Some(DestinationVerified);
  }

  /** The state reconciliation leaves behind for a file that is at the source, or else at the destination. */
  function Reconciled(s: TransactionState, atSource: bool, matches: bool): TransactionState {
    if atSource then ReconciledSourceOnly else if matches then Settled(s) else s
  }

  lemma ClosingMovesNothing(tx: Transaction, s: TransactionState, s': TransactionState,
                            entries: map<Uuid, Entry>, entries': map<Uuid, Entry>)
    requires s'.IsReconciled() && EntriesFollow(tx, Some(s), Some(s'), entries, entries')
    ensures entries' == entries
  {
  }

  /** The next start: load the record and reconcile it. */
  method StartAndReconcile(m: Machine, id: Uuid, reliable: bool) returns (next: Machine, r: Option<Reconciliation>)
    requires id in m.rows ==> m.rows[id].tx.id == id
    ensures fresh(next) && next.digests == m.digests && next.files == m.files
    ensures id !in m.rows ==> r.None? && id !in next.rows
    ensures id in m.rows ==>
              && id in next.rows
              && var tx, was, now := m.rows[id].tx, m.rows[id].status, next.rows[id].status;
                 && Explains(m.digests, m.files, tx, was, now)
                 && EntriesFollow(tx, Some(was), Some(now), m.entries, next.entries)
                 && (r.Some? ==>
                       if tx.source in m.files then
                         if tx.destination in m.files then r.value == Both && now.ReconciledBoth?
                         else r.value == SourceOnly && now.ReconciledSourceOnly?
                       else
                         && tx.destination in m.files && r.value == DestinationVerified
                         && DestinationMatches(m.digests, m.files[tx.destination], tx) && now == Settled(was))
                 && (reliable ==>
                       (r.Some? <==>
                          if tx.source in m.files then was.PendingRecovery()
                          else tx.destination in m.files && DestinationMatches(m.digests, m.files[tx.destination], tx)))
  {
    hide EntriesFollow, Reaches, DestinationMatches, Explains;
    next := new Machine.After(m, reliable);
    r := None;
    if id in next.rows {
      var u := new FileTransaction.Loaded(next.rows[id]);
      r := Reconcile(next, u);
    }
  }

  /** Cut the power anywhere in a move whose expected file is in place, start the machine again, load the
      record and reconcile it. The file is at exactly one of the two paths. If the machine now is reliable
      and the record was pending, reconciliation answers exactly if the file is at the source or matches
      the record's digests, and leaves the record reconciled there, settled, or (a moved file with other
      digests) as it was, on the recovery list. If it is not reliable, whatever it answers is right. The
      quarantine table follows the record, except that closing a record leaves its rows where they were. */
  method CutPowerThenReconcile(m: Machine, tx: Transaction, reliable: bool)
    returns (next: Machine, r: Option<Reconciliation>, ghost crashed: Option<TransactionState>)
    requires tx.id !in m.rows && CanMove(m.digests, m.files, tx) && tx.source != tx.destination
    modifies m
    ensures fresh(next) && next.digests == m.digests
    ensures (tx.source in next.files) != (tx.destination in next.files)
    ensures next.files == old(m.files) || HasMoved(m.digests, old(m.files), next.files, tx)
    ensures crashed.None? ==> next.files == old(m.files)
    ensures m.reliable && old(m.alive) && Recordable(m.digests, tx) ==>
              crashed == Some(if DestinationMatches(m.digests, old(m.files)[tx.source], tx) then Verified else RecoveryRequired)
    ensures crashed.Some? ==> tx.id in next.rows
    ensures crashed.Some? ==>
              var now := next.rows[tx.id].status;
              EntriesFollow(tx, None, if now.IsReconciled() then crashed else Some(now), old(m.entries), next.entries)
    ensures crashed.Some? && crashed.value.PendingRecovery() ==>
              var now := next.rows[tx.id].status;
              && !now.ReconciledBoth? && !now.ReconciledMissing?
              && (r.Some? && tx.source in next.files ==> r == Some(SourceOnly) && now.ReconciledSourceOnly?)
              && (r.Some? && tx.destination in next.files ==>
                    && r == Some(DestinationVerified)
                    && DestinationMatches(m.digests, next.files[tx.destination], tx)
                    && if crashed.value.MoveFailed? || crashed.value.VerifyFailed?
                       then now == crashed.value && now.PendingRecovery()
                       else now.Verified?)
    ensures reliable && crashed.Some? && crashed.value.PendingRecovery() ==>
              var atSource := tx.source in next.files;
              var matches := DestinationMatches(m.digests, old(m.files)[tx.source], tx);
              && (r.Some? <==> atSource || matches)
              && next.rows[tx.id].status == Reconciled(crashed.value, atSource, matches)
  {
    hide EntriesFollow, Reaches, SourceMatches, DestinationMatches, Recordable;
    ghost var entries := m.entries;
    var t := new FileTransaction.Planned(tx);
    var ok := ExecuteVerifiedMove(m, t);
    crashed := Status(m.rows, tx.id);
    ghost var left := m.entries;
    next, r := StartAndReconcile(m, tx.id, reliable);
    if tx.id in next.rows {
      var now := next.rows[tx.id].status;
      if now.IsReconciled() {
        ClosingMovesNothing(tx, crashed.value, now, left, next.entries);
      } else {
        EntriesFollowOn(tx, None, crashed, Some(now), entries, left, next.entries);
      }
    }
  }
}
