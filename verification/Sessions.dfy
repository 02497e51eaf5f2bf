/** Whole runs: when every open transaction's file stays findable, and how it stops being so. */
module Sessions {
  import opened Domain
  import opened JournalProtocol
  import opened VerifiedMove
  import opened MoveCommands

  predicate HoldsAt(files: map<Path, File>, path: Path, identity: Identity) {
    path in files && files[path].identity == identity
  }

  /** The transaction's file is at exactly one of its two paths. */
  predicate Located(files: map<Path, File>, tx: Transaction) {
    HoldsAt(files, tx.source, tx.identity) != HoldsAt(files, tx.destination, tx.identity)
  }

  /** A file with one link is seen at one path only. */
  ghost predicate Linked(files: map<Path, File>) {
    forall p, q | p in files && q in files && files[p].identity == files[q].identity && files[p].links == 1 :: p == q
  }

  lemma MoveKeepsLinked(d: Digests, files: map<Path, File>, mover: Transaction)
    requires Linked(files) && CanMove(d, files, mover)
    ensures Linked(Moved(files, mover.source, mover.destination))
  {
  }

  /** Exactly when one move leaves another transaction's file findable: it moved a different file,
      or it moved it to a path the other transaction also names. */
  lemma MoveKeepsLocatedIff(d: Digests, files: map<Path, File>, mover: Transaction, other: Transaction)
    requires Linked(files) && CanMove(d, files, mover) && Located(files, other)
    ensures Located(Moved(files, mover.source, mover.destination), other)
            <==> mover.identity != other.identity || mover.destination in {other.source, other.destination}
  {
    var files' := Moved(files, mover.source, mover.destination);
    if mover.identity == other.identity {
      assert HoldsAt(files, mover.source, other.identity);
      assert forall p | p != mover.destination :: !HoldsAt(files', p, other.identity);
    }
  }

  /** Every transaction on the recovery list has its file at exactly one of its paths. */
  ghost predicate AllLocated(files: map<Path, File>, rows: map<Uuid, Row>) {
    forall id | id in rows && rows[id].status.PendingRecovery() :: Located(files, rows[id].tx)
  }

  /** What a careful caller checks before starting a move. */
  ghost predicate Clear(files: map<Path, File>, rows: map<Uuid, Row>, tx: Transaction) {
    && tx.id !in rows
    && Located(files, tx)
    && (forall id | id in rows && rows[id].status.PendingRecovery() ::
          tx.identity != rows[id].tx.identity || tx.destination in {rows[id].tx.source, rows[id].tx.destination})
  }

  ghost predicate NoneMissing(rows: map<Uuid, Row>) {
    forall id | id in rows :: !rows[id].status.ReconciledMissing?
  }

  ghost predicate Keyed(rows: map<Uuid, Row>) {
    forall id | id in rows :: rows[id].tx.id == id
  }

  ghost predicate Healthy(files: map<Path, File>, rows: map<Uuid, Row>) {
    Linked(files) && AllLocated(files, rows) && NoneMissing(rows) && Keyed(rows)
  }

  lemma ReachesConserves(d: Digests, w: World, w': World, f: File)
    requires Reaches(d, w, w')
    ensures |Holders(w'.files, f)| == |Holders(w.files, f)|
  {
    var run :| Runs(d, w, run, w');
    FilesAreConserved(d, w, run, w', f);
  }

  /** One move command, cut short anywhere, keeps a healthy machine healthy. */
  method CarefulMove(m: Machine, tx: Transaction) returns (ok: bool)
    requires Healthy(m.files, m.rows) && Clear(m.files, m.rows, tx)
    modifies m
    ensures Healthy(m.files, m.rows)
    ensures forall f :: |Holders(m.files, f)| == |Holders(old(m.files), f)|
    ensures ok ==> HasMoved(m.digests, old(m.files), m.files, tx) && Status(m.rows, tx.id) == Some(Verified)
    ensures m.reliable && old(m.alive) && Recordable(m.digests, tx) ==>
              (ok <==> CanMove(m.digests, old(m.files), tx) && DestinationMatches(m.digests, old(m.files)[tx.source], tx))
  {
    var t := new FileTransaction.Planned(tx);
    ghost var before := m.View(t);
    ok := ExecuteVerifiedMove(m, t);
    forall f: File ensures |Holders(m.files, f)| == |Holders(old(m.files), f)| {
      ReachesConserves(m.digests, before, m.View(t), f);
    }
    if m.files != old(m.files) {
      MoveKeepsLinked(m.digests, old(m.files), tx);
      forall id | id in m.rows && m.rows[id].status.PendingRecovery() ensures Located(m.files, m.rows[id].tx) {
        MoveKeepsLocatedIff(m.digests, old(m.files), tx, m.rows[id].tx);
      }
    }
    m.Restart();
  }

  /** One reconciliation, cut short anywhere, keeps a healthy machine healthy: the both-missing
      branch is not taken. */
  method Recover(m: Machine, id: Uuid) returns (r: Option<Reconciliation>)
    requires Healthy(m.files, m.rows) && id in m.rows
    modifies m
    ensures Healthy(m.files, m.rows) && m.files == old(m.files)
    ensures id in m.rows && m.rows[id].tx == old(m.rows)[id].tx
    ensures m.reliable && old(m.alive) && old(m.rows)[id].status.PendingRecovery() ==>
              var tx, was, now := old(m.rows)[id].tx, old(m.rows)[id].status, m.rows[id].status;
              if tx.source in m.files then
                if tx.destination in m.files then r == Some(Both) && now == ReconciledBoth
                else r == Some(SourceOnly) && now == ReconciledSourceOnly
              else if DestinationMatches(m.digests, m.files[tx.destination], tx) then
                r == Some(DestinationVerified) && now == Settled(was)
              else r.None?
  {
    var t := new FileTransaction.Loaded(m.rows[id]);
    r := Reconcile(m, t);
    m.Restart();
  }

  datatype Command = StartMove(tx: Transaction) | StartRecovery(id: Uuid)

  /** Any number of commands, each checked before it starts and each possibly cut short: no file is
      lost or changed, and no transaction is ever recorded as missing. */
  method Session(m: Machine, commands: seq<Command>)
    requires Healthy(m.files, m.rows)
    modifies m
    ensures Healthy(m.files, m.rows)
    ensures forall f :: |Holders(m.files, f)| == |Holders(old(m.files), f)|
  {
    for i := 0 to |commands|
      invariant Healthy(m.files, m.rows)
      invariant forall f :: |Holders(m.files, f)| == |Holders(old(m.files), f)|
    {
      ghost var start := m.files;
      match commands[i]
      case StartMove(tx) =>
        var clear := IsClear(m.files, m.rows, tx);
        if clear {
          var moved := CarefulMove(m, tx);
        }
      case StartRecovery(id) =>
        if id in m.rows {
          var settled := Recover(m, id);
        }
    }
  }

  method IsClear(files: map<Path, File>, rows: map<Uuid, Row>, tx: Transaction) returns (clear: bool)
    ensures clear <==> Clear(files, rows, tx)
    ensures clear <==>
              && tx.id !in rows
              && ((tx.source in files && files[tx.source].identity == tx.identity)
                  != (tx.destination in files && files[tx.destination].identity == tx.identity))
              && forall id | id in rows && rows[id].status.PendingRecovery() ::
                   || tx.identity != rows[id].tx.identity
                   || tx.destination == rows[id].tx.source || tx.destination == rows[id].tx.destination
  {
    clear := tx.id !in rows && Located(files, tx)
      && (forall id | id in rows ::
            rows[id].status.PendingRecovery() ==>
              tx.identity != rows[id].tx.identity || tx.destination == rows[id].tx.source
              || tx.destination == rows[id].tx.destination);
  }

  // ---------------------------------------------------------------- hazards

  /** Append and commit one legal transition of an up-to-date copy. */
  lemma Advance(d: Digests, w: World, p: nat, next: TransactionState) returns (w': World)
    requires p in w.copies && w.copies[p].pending.None?
    requires Legal(w.copies[p].state, next) && Status(w.rows, w.copies[p].tx.id) == w.copies[p].state
    ensures Reaches(d, w, w')
    ensures w'.files == w.files
    ensures var tx := w.copies[p].tx;
            && w'.rows.Keys == w.rows.Keys + {tx.id}
            && w'.rows[tx.id].tx == tx && w'.rows[tx.id].status == next
            && forall i | i in w.rows && i != tx.id :: i in w'.rows && w'.rows[i] == w.rows[i]
    ensures w'.copies == w.copies[p := Copy(w.copies[p].tx, Some(next), None)]
  {
    var v := Apply(d, w, Append(p, next));
    w' := Apply(d, v, Commit(p));
    ReachesByOneStep(d, w, Append(p, next));
    ReachesByOneStep(d, v, Commit(p));
    ReachesTransitive(d, w, v, w');
    assert w'.copies == w.copies[p := Copy(w.copies[p].tx, Some(next), None)];
  }

  /** From `w0`, process `p` has brought `tx` to the durable state `s` and nothing else changed. */
  ghost predicate BroughtTo(d: Digests, w0: World, w: World, p: nat, tx: Transaction, s: Option<TransactionState>) {
    && Reaches(d, w0, w)
    && w.files == w0.files
    && tx.id !in w0.rows
    && w.rows.Keys == w0.rows.Keys + (if s.Some? then {tx.id} else {})
    && (s.Some? ==> w.rows[tx.id].tx == tx && w.rows[tx.id].status == s.value)
    && (forall i | i in w0.rows :: w.rows[i] == w0.rows[i])
    && w.copies == w0.copies[p := Copy(tx, s, None)]
  }

  lemma BringFurther(d: Digests, w0: World, w: World, p: nat, tx: Transaction, s: Option<TransactionState>,
                     next: TransactionState) returns (w': World)
    requires BroughtTo(d, w0, w, p, tx, s) && Legal(s, next)
    ensures BroughtTo(d, w0, w', p, tx, Some(next))
  {
    w' := Advance(d, w, p, next);
    ReachesTransitive(d, w0, w, w');
    assert w'.copies == w0.copies[p := Copy(tx, Some(next), None)];
  }

  /** Start a move of `tx` by process `p` and stop right after `moving` is durable. */
  lemma AdvanceToMoving(d: Digests, w: World, p: nat, tx: Transaction) returns (w': World)
    requires tx.id !in w.rows
    ensures BroughtTo(d, w, w', p, tx, Some(Moving))
  {
    var planned := Apply(d, w, Plan(p, tx));
    ReachesByOneStep(d, w, Plan(p, tx));
    w' := BringFurther(d, w, planned, p, tx, None, Planned);
    w' := BringFurther(d, w, w', p, tx, Some(Planned), PreflightValidated);
    w' := BringFurther(d, w, w', p, tx, Some(PreflightValidated), Moving);
  }

  /** The careful check matters: two plans for one file, the first cut short right after its record
      is created, leave the first on the recovery list with both of its paths absent, although the
      file is safe at the second destination. Reconciling the first would record a loss. */
  lemma TwoPlansLoseSight(d: Digests, w: World, first: Transaction, second: Transaction)
    requires Initial(w) && Linked(w.files) && first.id != second.id
    requires first.source == second.source && first.destination != second.destination
    requires first.source !in {first.destination, second.destination}
    requires first.destination !in w.files && CanMove(d, w.files, second)
    ensures exists w' :: LosesSight(d, w, w', first, second)
  {
    var w1 := Apply(d, w, Plan(0, first));
    ReachesByOneStep(d, w, Plan(0, first));
    var w2 := Advance(d, w1, 0, Planned);
    ReachesTransitive(d, w, w1, w2);
    var w3 := AdvanceToMoving(d, w2, 1, second);
    ReachesTransitive(d, w, w2, w3);
    var w4 := Apply(d, w3, Rename(1));
    ReachesByOneStep(d, w3, Rename(1));
    ReachesTransitive(d, w, w3, w4);
    assert LosesSight(d, w, w4, first, second);
  }

  ghost predicate LosesSight(d: Digests, w: World, w': World, first: Transaction, second: Transaction) {
    && Reaches(d, w, w')
    && first.id in w'.rows && w'.rows[first.id].tx == first && w'.rows[first.id].status.PendingRecovery()
    && first.source !in w'.files && first.destination !in w'.files
    && second.destination in w'.files && second.source in w.files
    && w'.files[second.destination] == w.files[second.source]
  }

  /** Reconciling while the mover is still alive: the transaction is closed as source-only and leaves
      the recovery list, and then its file moves. No file is lost, but no record points at it. */
  lemma ReconcileUnderALiveMover(d: Digests, w: World, tx: Transaction)
    requires Initial(w) && CanMove(d, w.files, tx) && tx.source != tx.destination
    ensures exists w' :: Strands(d, w, w', tx)
  {
    var w1 := AdvanceToMoving(d, w, 0, tx);
    var w2 := Apply(d, w1, Load(1, tx.id));
    ReachesByOneStep(d, w1, Load(1, tx.id));
    ReachesTransitive(d, w, w1, w2);
    var w3 := Advance(d, w2, 1, ReconciledSourceOnly);
    ReachesTransitive(d, w, w2, w3);
    var w4 := Apply(d, w3, Rename(0));
    ReachesByOneStep(d, w3, Rename(0));
    ReachesTransitive(d, w, w3, w4);
    assert Strands(d, w, w4, tx);
  }

  ghost predicate Strands(d: Digests, w: World, w': World, tx: Transaction) {
    && Reaches(d, w, w')
    && tx.id in w'.rows && w'.rows[tx.id].status.ReconciledSourceOnly?
    && tx.source !in w'.files && tx.destination in w'.files && tx.source in w.files
    && w'.files[tx.destination] == w.files[tx.source]
  }

  /** The step commits an event of transaction `id`. */
  predicate CommitsOn(w: World, s: Step, id: Uuid) {
    s.Commit? && s.process in w.copies && w.copies[s.process].tx.id == id && w.copies[s.process].pending.Some?
  }

  /** The step commits the last event of transaction `id`: it leaves the recovery list. */
  predicate Closes(w: World, s: Step, id: Uuid) {
    CommitsOn(w, s, id) && !w.copies[s.process].pending.value.next.PendingRecovery()
  }

  ghost predicate EverCommits(d: Digests, w: World, run: seq<Step>, id: Uuid)
    decreases |run|
  {
    run != [] && Enabled(d, w, run[0]) && (CommitsOn(w, run[0], id) || EverCommits(d, Apply(d, w, run[0]), run[1..], id))
  }

  ghost predicate EverCloses(d: Digests, w: World, run: seq<Step>, id: Uuid)
    decreases |run|
  {
    run != [] && Enabled(d, w, run[0]) && (Closes(w, run[0], id) || EverCloses(d, Apply(d, w, run[0]), run[1..], id))
  }

  /** A commit on the transaction is a legal transition of its row; no other step touches the row. */
  lemma StepMovesStatus(d: Digests, w: World, s: Step, id: Uuid)
    requires Inv(w) && Enabled(d, w, s) && id in w.rows
    ensures id in Apply(d, w, s).rows
    ensures var now := Apply(d, w, s).rows[id];
            if CommitsOn(w, s, id)
            then w.rows[id].status.CanTransitionTo(now.status) && now.status == w.copies[s.process].pending.value.next
            else now == w.rows[id]
  {
    if s.Commit? {
      assert CopyInv(w.copies[s.process], w);
    }
  }

  /** After any run the status is the one it was exactly if nobody committed on the transaction. */
  lemma {:induction false} StatusStaysIff(d: Digests, w: World, run: seq<Step>, w': World, id: Uuid)
    requires Inv(w) && Runs(d, w, run, w') && id in w.rows
    ensures id in w'.rows && w'.rows[id].status.Rank() >= w.rows[id].status.Rank()
    ensures w'.rows[id].status == w.rows[id].status <==> !EverCommits(d, w, run, id)
    ensures EverCommits(d, w, run, id) ==> w'.rows[id].status.Rank() > w.rows[id].status.Rank()
    decreases |run|
  {
    hide Inv;
    if run != [] {
      StepKeepsInv(d, w, run[0]);
      StepMovesStatus(d, w, run[0], id);
      StatusStaysIff(d, Apply(d, w, run[0]), run[1..], w', id);
    }
  }

  /** An open transaction is off the recovery list after a run exactly if somebody closed it. */
  lemma {:induction false} ClosedIff(d: Digests, w: World, run: seq<Step>, w': World, id: Uuid)
    requires Inv(w) && Runs(d, w, run, w') && id in w.rows && w.rows[id].status.PendingRecovery()
    ensures id in w'.rows && (!w'.rows[id].status.PendingRecovery() <==> EverCloses(d, w, run, id))
    decreases |run|
  {
    hide Inv;
    if run != [] {
      StepKeepsInv(d, w, run[0]);
      StepMovesStatus(d, w, run[0], id);
      var v := Apply(d, w, run[0]);
      if v.rows[id].status.PendingRecovery() {
        ClosedIff(d, v, run[1..], w', id);
      } else {
        StatusStaysIff(d, v, run[1..], w', id);
      }
    }
  }

  /** Exactly when a rename happens under a record that no longer describes it. From the moment `moving`
      is durable: the record still says so at the rename if and only if nobody committed on it since,
      which the mover could read off its own row; and the moved file's transaction is off the recovery
      list if and only if somebody closed it. */
  lemma RenameStrandsIff(d: Digests, w: World, run: seq<Step>, w': World, p: nat, id: Uuid)
    requires Inv(w) && Runs(d, w, run, w') && id in w.rows && w.rows[id].status.Moving?
    requires Enabled(d, w', Rename(p)) && w'.copies[p].tx.id == id
    ensures var after := Apply(d, w', Rename(p));
            var tx := w'.copies[p].tx;
            && id in after.rows && after.rows[id].tx == tx
            && tx.source !in after.files && tx.destination in after.files
            && after.files[tx.destination] == w'.files[tx.source]
            && (after.rows[id].status.Moving? <==> !EverCommits(d, w, run, id))
            && (!after.rows[id].status.PendingRecovery() <==> EverCloses(d, w, run, id))
  {
    hide Inv, EverCommits, EverCloses;
    RunKeepsInv(d, w, run, w');
    CopyKnowsItsRow(w', p);
    StatusStaysIff(d, w, run, w', id);
    ClosedIff(d, w, run, w', id);
  }

  lemma CopyKnowsItsRow(w: World, p: nat)
    requires Inv(w) && p in w.copies && w.copies[p].state.Some?
    ensures w.copies[p].tx.id in w.rows && w.rows[w.copies[p].tx.id].tx == w.copies[p].tx
  {
    assert CopyInv(w.copies[p], w);
  }
}
