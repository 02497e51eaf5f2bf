/** The durable journal as a transition system. Any number of processes hold copies of transaction
    records, possibly stale; the manifest append, the database commit and the rename are separate
    atomic steps; a crashed process is one that takes no further step. */
module JournalProtocol {
  import opened Domain

  /** One line of the manifest, and one row of the event table. */
  datatype Event = Event(id: Uuid, from: Option<TransactionState>, to: TransactionState)

  /** A transaction row together with its event rows. */
  datatype Row = Row(tx: Transaction, status: TransactionState, events: seq<Event>)

  datatype EntryState = EntryVerified | EntryRestoring | EntryRestored | EntryRecovery

  /** A quarantine entry, keyed by the transaction it originates from. */
  datatype Entry = Entry(project: Uuid, path: Path, state: EntryState)

  /** A manifest line that was written but whose commit has not happened. */
  datatype Pending = Pending(index: nat, next: TransactionState)

  /** The record in one process's memory; `state` is None until the journal has created it. */
  datatype Copy = Copy(tx: Transaction, state: Option<TransactionState>, pending: Option<Pending>)

  datatype World = World(
    files: map<Path, File>,
    manifest: seq<Event>,
    rows: map<Uuid, Row>,
    entries: map<Uuid, Entry>,
    copies: map<nat, Copy>)

  datatype Step =
    | Plan(process: nat, tx: Transaction)
    | Load(process: nat, id: Uuid)
    | Append(process: nat, next: TransactionState)
    | Commit(process: nat)
    | Abandon(process: nat)
    | Rename(process: nat)

  function Status(rows: map<Uuid, Row>, id: Uuid): Option<TransactionState> {
    if id in rows then Some(rows[id].status) else None
  }

  /** Legal journal events: creation in the planned state, then the state machine. */
  predicate Legal(from: Option<TransactionState>, next: TransactionState) {
    match from
    case None => next.Planned?
    case Some(s) => s.CanTransitionTo(next)
  }

  function Committed(rows: map<Uuid, Row>, tx: Transaction, from: Option<TransactionState>, next: TransactionState)
    : map<Uuid, Row>
  {
    var before := if tx.id in rows then rows[tx.id].events else [];
    rows[tx.id := Row(tx, next, before + [Event(tx.id, from, next)])]
  }

  /** Entries of the restore's project that live at the restore's source. */
  predicate Restores(tx: Transaction, entry: Entry) {
    entry.project == tx.project && entry.path == tx.source
  }

  /** The effect of one committed transition on the quarantine table. */
  function Projected(entries: map<Uuid, Entry>, tx: Transaction, next: TransactionState): map<Uuid, Entry> {
    if tx.kind.Quarantine? && next.Verified? then
      entries[tx.id := if tx.id in entries then entries[tx.id].(state := EntryVerified)
                       else Entry(tx.project, tx.destination, EntryVerified)]
    else if tx.kind.Restore? && next.PreflightValidated? then
      map o | o in entries :: if Restores(tx, entries[o]) && entries[o].state.EntryVerified?
        then entries[o].(state := EntryRestoring) else entries[o]
    else if tx.kind.Restore? && next.Verified? then
      map o | o in entries :: if Restores(tx, entries[o]) then entries[o].(state := EntryRestored) else entries[o]
    else if tx.kind.Restore? && next.RecoveryRequired? then
      map o | o in entries :: if Restores(tx, entries[o]) then entries[o].(state := EntryRecovery) else entries[o]
    else
      entries
  }

  predicate Enabled(d: Digests, w: World, s: Step) {
    match s
    case Plan(p, tx) => true
    case Load(p, id) => id in w.rows
    case Append(p, next) =>
      p in w.copies && w.copies[p].pending.None? && Legal(w.copies[p].state, next)
    case Commit(p) =>
      p in w.copies && w.copies[p].pending.Some? && Status(w.rows, w.copies[p].tx.id) == w.copies[p].state
    case Abandon(p) => p in w.copies && w.copies[p].pending.Some?
    case Rename(p) =>
      p in w.copies && w.copies[p].state == Some(Moving) && w.copies[p].pending.None?
      && CanMove(d, w.files, w.copies[p].tx)
  }

  function Apply(d: Digests, w: World, s: Step): World
    requires Enabled(d, w, s)
  {
    match s
    case Plan(p, tx) => w.(copies := w.copies[p := Copy(tx, None, None)])
    case Load(p, id) => w.(copies := w.copies[p := Copy(w.rows[id].tx, Some(w.rows[id].status), None)])
    case Append(p, next) =>
      var c := w.copies[p];
      w.(manifest := w.manifest + [Event(c.tx.id, c.state, next)],
         copies := w.copies[p := c.(pending := Some(Pending(|w.manifest|, next)))])
    case Commit(p) =>
      var c := w.copies[p];
      var next := c.pending.value.next;
      w.(rows := Committed(w.rows, c.tx, c.state, next),
         entries := Projected(w.entries, c.tx, next),
         copies := w.copies[p := Copy(c.tx, Some(next), None)])
    case Abandon(p) => w.(copies := w.copies[p := w.copies[p].(pending := None)])
    case Rename(p) => w.(files := Moved(w.files, w.copies[p].tx.source, w.copies[p].tx.destination))
  }

  /** `run` is a sequence of enabled steps from `w` to `w'`, by whichever processes. */
  ghost predicate Runs(d: Digests, w: World, run: seq<Step>, w': World)
    decreases |run|
  {
    if run == [] then w == w'
    else Enabled(d, w, run[0]) && Runs(d, Apply(d, w, run[0]), run[1..], w')
  }

  ghost predicate Reaches(d: Digests, w: World, w': World) {
    exists run :: Runs(d, w, run, w')
  }

  lemma RunsConcatenate(d: Digests, w: World, a: seq<Step>, v: World, b: seq<Step>, w': World)
    requires Runs(d, w, a, v) && Runs(d, v, b, w')
    ensures Runs(d, w, a + b, w')
    decreases |a|
  {
    if a == [] {
      assert a + b == b;
    } else {
      RunsConcatenate(d, Apply(d, w, a[0]), a[1..], v, b, w');
      assert (a + b)[1..] == a[1..] + b;
    }
  }

  lemma ReachesTransitive(d: Digests, w: World, v: World, w': World)
    requires Reaches(d, w, v) && Reaches(d, v, w')
    ensures Reaches(d, w, w')
  {
    var a :| Runs(d, w, a, v);
    var b :| Runs(d, v, b, w');
    RunsConcatenate(d, w, a, v, b, w');
  }

  lemma ReachesByOneStep(d: Digests, w: World, s: Step)
    requires Enabled(d, w, s)
    ensures Reaches(d, w, Apply(d, w, s))
  {
    assert Runs(d, Apply(d, w, s), [], Apply(d, w, s));
    assert Runs(d, w, [s], Apply(d, w, s));
  }

  lemma ReachesItself(d: Digests, w: World)
    ensures Reaches(d, w, w)
  {
    assert Runs(d, w, [], w);
  }

  // ---------------------------------------------------------------- invariant

  /** An unforked legal history of one transaction, starting at `planned`. */
  ghost predicate IsChain(id: Uuid, events: seq<Event>)
    decreases |events|
  {
    if |events| == 0 then false
    else if |events| == 1 then events[0] == Event(id, None, Planned)
    else
      var front, last := events[..|events| - 1], events[|events| - 1];
      && IsChain(id, front)
      && last == Event(id, Some(front[|front| - 1].to), last.to)
      && front[|front| - 1].to.CanTransitionTo(last.to)
  }

  ghost predicate RowInv(id: Uuid, row: Row, manifest: seq<Event>) {
    && row.tx.id == id
    && IsChain(id, row.events)
    && row.events[|row.events| - 1].to == row.status
    && IsSubsequence(row.events, manifest)
  }

  /** A copy's state was durable at some point, and its pending line was written after that. */
  ghost predicate Observed(row: Row, k: nat, c: Copy, manifest: seq<Event>) {
    && k < |row.events|
    && c.state == Some(row.events[k].to)
    && (c.pending.Some? ==>
          c.pending.value.index < |manifest|
          && IsSubsequence(row.events[..k + 1], manifest[..c.pending.value.index]))
  }

  ghost predicate CopyInv(c: Copy, w: World) {
    && (c.pending.Some? ==>
          && Legal(c.state, c.pending.value.next)
          && c.pending.value.index < |w.manifest|
          && w.manifest[c.pending.value.index] == Event(c.tx.id, c.state, c.pending.value.next))
    && (c.state.Some? ==>
          && c.tx.id in w.rows
          && w.rows[c.tx.id].tx == c.tx
          && exists k: nat :: Observed(w.rows[c.tx.id], k, c, w.manifest))
  }

  /** A quarantine row exists exactly when its origin is a verified quarantine transaction. */
  ghost predicate EntriesInv(w: World) {
    && (forall o :: o in w.entries.Keys <==> HasEntry(w.rows, o))
    && (forall o | o in w.entries ::
          w.entries[o].project == w.rows[o].tx.project && w.entries[o].path == w.rows[o].tx.destination)
    && (forall o | o in w.entries && w.entries[o].state.EntryRestored? ::
          exists r :: r in w.rows && VerifiedRestoreOf(w.rows[r], w.entries[o]))
  }

  predicate HasEntry(rows: map<Uuid, Row>, o: Uuid) {
    o in rows && rows[o].tx.kind.Quarantine? && rows[o].status.Verified?
  }

  predicate VerifiedRestoreOf(row: Row, entry: Entry) {
    row.tx.kind.Restore? && row.status.Verified? && Restores(row.tx, entry)
  }

  ghost predicate Inv(w: World) {
    && (forall id | id in w.rows :: RowInv(id, w.rows[id], w.manifest))
    && (forall p | p in w.copies :: CopyInv(w.copies[p], w))
    && EntriesInv(w)
  }

  predicate Initial(w: World) {
    w.manifest == [] && w.rows == map[] && w.entries == map[] && w.copies == map[]
  }

  /** The rank of the state climbs with every event. */
  lemma {:induction false} ChainRanks(id: Uuid, events: seq<Event>, i: nat)
    requires IsChain(id, events) && i < |events|
    ensures events[i].to.Rank() + (|events| - 1 - i) <= events[|events| - 1].to.Rank()
    decreases |events|
  {
    if i < |events| - 1 {
      ChainRanks(id, events[..|events| - 1], i);
    }
  }

  lemma CopyInvStable(c: Copy, w: World, w': World)
    requires CopyInv(c, w)
    requires w.manifest <= w'.manifest
    requires RowsGrow(w.rows, w'.rows)
    ensures CopyInv(c, w')
  {
    if c.state.Some? {
      var row, row' := w.rows[c.tx.id], w'.rows[c.tx.id];
      var k: nat :| Observed(row, k, c, w.manifest);
      assert row.events[..k + 1] == row'.events[..k + 1];
      if c.pending.Some? {
        assert w.manifest[..c.pending.value.index] == w'.manifest[..c.pending.value.index];
      }
      assert Observed(row', k, c, w'.manifest);
    }
  }

  lemma AppendKeepsInv(d: Digests, w: World, p: nat, next: TransactionState)
    requires Inv(w) && Enabled(d, w, Append(p, next))
    ensures Inv(Apply(d, w, Append(p, next)))
  {
    var w' := Apply(d, w, Append(p, next));
    forall id | id in w'.rows ensures RowInv(id, w'.rows[id], w'.manifest) {
      SubsequenceGrows(w.rows[id].events, w.manifest, w'.manifest[|w.manifest|..]);
      assert w'.manifest == w.manifest + w'.manifest[|w.manifest|..];
    }
    forall q | q in w'.copies ensures CopyInv(w'.copies[q], w') {
      if q == p {
        var c := w.copies[p];
        if c.state.Some? {
          var row := w.rows[c.tx.id];
          var k: nat :| Observed(row, k, c, w.manifest);
          PrefixIsSubsequence(row.events, k + 1, w.manifest);
          assert w'.manifest[..|w.manifest|] == w.manifest;
          assert Observed(row, k, w'.copies[p], w'.manifest);
        }
      } else {
        CopyInvStable(w.copies[q], w, w');
      }
    }
  }

  lemma PrefixIsSubsequence<T>(a: seq<T>, n: nat, b: seq<T>)
    requires n <= |a| && IsSubsequence(a, b)
    ensures IsSubsequence(a[..n], b)
  {
    var index: seq<nat> :| Embeds(index, a, b);
    assert Embeds(index[..n], a[..n], b);
  }

  lemma ChainExtends(id: Uuid, events: seq<Event>, next: TransactionState)
    requires IsChain(id, events) && events[|events| - 1].to.CanTransitionTo(next)
    ensures IsChain(id, events + [Event(id, Some(events[|events| - 1].to), next)])
  {
    var events' := events + [Event(id, Some(events[|events| - 1].to), next)];
    assert events'[..|events'| - 1] == events;
  }

  /** The compare-and-set succeeds only for a copy that observed the current last event. */
  lemma CommitKeepsRow(c: Copy, w: World)
    requires CopyInv(c, w) && c.pending.Some? && Status(w.rows, c.tx.id) == c.state
    requires c.tx.id in w.rows ==> RowInv(c.tx.id, w.rows[c.tx.id], w.manifest)
    ensures RowInv(c.tx.id, Committed(w.rows, c.tx, c.state, c.pending.value.next)[c.tx.id], w.manifest)
  {
    var j := c.pending.value.index;
    if c.state.None? {
      assert Embeds<Event>([], [], w.manifest[..j]);
      SubsequenceSnoc([], w.manifest, j);
      assert [] + [w.manifest[j]] == [Event(c.tx.id, c.state, c.pending.value.next)];
    } else {
      var row := w.rows[c.tx.id];
      var k: nat :| Observed(row, k, c, w.manifest);
      if k < |row.events| - 1 {
        ChainRanks(c.tx.id, row.events, k);
        assert false;
      }
      assert row.events[..k + 1] == row.events;
      SubsequenceSnoc(row.events, w.manifest, j);
      ChainExtends(c.tx.id, row.events, c.pending.value.next);
    }
  }

  /** What a projection may do: add the origin's own entry, or relabel entries of one restore. */
  lemma ProjectedShape(entries: map<Uuid, Entry>, tx: Transaction, next: TransactionState, entries': map<Uuid, Entry>)
    requires entries' == Projected(entries, tx, next)
    requires tx.kind.Quarantine? && next.Verified? ==> tx.id !in entries
    ensures entries'.Keys == entries.Keys + (if tx.kind.Quarantine? && next.Verified? then {tx.id} else {})
    ensures forall o | o in entries ::
              && entries'[o].project == entries[o].project && entries'[o].path == entries[o].path
              && (entries'[o].state.EntryRestored? ==>
                    entries'[o] == entries[o] || (tx.kind.Restore? && next.Verified? && Restores(tx, entries'[o])))
    ensures tx.id in entries' && tx.id !in entries ==> entries'[tx.id] == Entry(tx.project, tx.destination, EntryVerified)
  {
  }

  /** A restore that has not passed its preflight. */
  predicate BeforePreflight(s: Option<TransactionState>) {
    s.None? || s.value.Planned?
  }

  /** A restore that has passed its preflight and is neither settled nor in recovery. */
  predicate Underway(s: Option<TransactionState>) {
    s.Some? && (s.value.PreflightValidated? || s.value.Moving? || s.value.MovedUnverified?
                || s.value.MoveFailed? || s.value.VerifyFailed?)
  }

  /** Where a row at the source of a restore stands once the restore has gone from status `s` to `s'`. */
  function StateAfter(s: Option<TransactionState>, s': Option<TransactionState>, e: EntryState): EntryState {
    if s' == s then e
    else if s' == Some(Verified) then EntryRestored
    else if s' == Some(RecoveryRequired) then EntryRecovery
    else if BeforePreflight(s) && Underway(s') && e.EntryVerified? then EntryRestoring
    else e
  }

  /** One row while `tx` goes from status `s` to `s'`: a quarantine marks its own row when it is verified, a
      restore the rows of its project at its source. */
  predicate EntryFollows(tx: Transaction, s: Option<TransactionState>, s': Option<TransactionState>, o: Uuid, e: Entry, e': Entry) {
    && e'.project == e.project && e'.path == e.path
    && e'.state ==
       if tx.kind.Restore? && e.project == tx.project && e.path == tx.source then StateAfter(s, s', e.state)
       else if tx.kind.Quarantine? && o == tx.id && s' != s && s' == Some(Verified) then EntryVerified
       else e.state
  }

  /** The quarantine table meanwhile: the rows follow, and only a verified quarantine adds one, its own. */
  ghost predicate EntriesFollow(tx: Transaction, s: Option<TransactionState>, s': Option<TransactionState>,
                                entries: map<Uuid, Entry>, entries': map<Uuid, Entry>)
  {
    && entries.Keys <= entries'.Keys <= entries.Keys + {tx.id}
    && (forall o | o in entries :: EntryFollows(tx, s, s', o, entries[o], entries'[o]))
    && (tx.id !in entries ==>
          && (tx.id in entries' <==> tx.kind.Quarantine? && s' != s && s' == Some(Verified))
          && (tx.id in entries' ==> entries'[tx.id] == Entry(tx.project, tx.destination, EntryVerified)))
  }

  lemma CommitMovesEntry(tx: Transaction, s: Option<TransactionState>, next: TransactionState, entries: map<Uuid, Entry>, o: Uuid)
    requires Legal(s, next) && o in entries
    ensures var entries' := Projected(entries, tx, next);
            o in entries' && EntryFollows(tx, s, Some(next), o, entries[o], entries'[o])
  {
  }

  /** Every legal commit moves the quarantine table accordingly. */
  lemma CommitMovesEntries(tx: Transaction, s: Option<TransactionState>, next: TransactionState, entries: map<Uuid, Entry>)
    requires Legal(s, next)
    ensures EntriesFollow(tx, s, Some(next), entries, Projected(entries, tx, next))
  {
    hide EntryFollows, Legal;
    forall o | o in entries
      ensures o in Projected(entries, tx, next)
              && EntryFollows(tx, s, Some(next), o, entries[o], Projected(entries, tx, next)[o])
    {
      CommitMovesEntry(tx, s, next, entries, o);
    }
    LegalChanges(s, next);
  }

  lemma LegalChanges(s: Option<TransactionState>, next: TransactionState)
    requires Legal(s, next)
    ensures s != Some(next)
  {
  }

  /** Whichever process commits: a quarantine marks its own row, and only when it is verified; a restore
      marks the rows of its project at its source, verified ones as restoring when it passes its preflight,
      all of them as restored when it is verified and as recovery when it needs recovery. No commit
      changes any other row. */
  lemma CommitMarks(d: Digests, w: World, p: nat, o: Uuid)
    requires Inv(w) && Enabled(d, w, Commit(p)) && o in w.entries
    ensures o in Apply(d, w, Commit(p)).entries
    ensures Marks(w.copies[p].tx, w.copies[p].pending.value.next, o, w.entries[o], Apply(d, w, Commit(p)).entries[o])
  {
    hide RowInv, EntriesInv, Projected, EntryFollows, Legal;
    var c := w.copies[p];
    assert CopyInv(c, w);
    CommitMovesEntry(c.tx, c.state, c.pending.value.next, w.entries, o);
    FollowingMarks(c.tx, c.state, c.pending.value.next, o, w.entries[o], Apply(d, w, Commit(p)).entries[o]);
  }

  /** How a commit to `next` changes one row. */
  predicate Marks(tx: Transaction, next: TransactionState, o: Uuid, row: Entry, row': Entry) {
    var marked := tx.kind.Restore? && row.project == tx.project && row.path == tx.source;
    && row'.project == row.project && row'.path == row.path
    && (marked && next.PreflightValidated? ==>
          row'.state == if row.state.EntryVerified? then EntryRestoring else row.state)
    && (marked && next.Verified? ==> row'.state.EntryRestored?)
    && (marked && next.RecoveryRequired? ==> row'.state.EntryRecovery?)
    && (row' != row && !marked ==> o == tx.id && tx.kind.Quarantine? && next.Verified? && row'.state.EntryVerified?)
    && (row' != row && marked ==> next.PreflightValidated? || next.Verified? || next.RecoveryRequired?)
  }

  lemma FollowingMarks(tx: Transaction, s: Option<TransactionState>, next: TransactionState, o: Uuid, row: Entry, row': Entry)
    requires Legal(s, next) && EntryFollows(tx, s, Some(next), o, row, row')
    ensures Marks(tx, next, o, row, row')
  {
  }

  lemma EntriesStay(tx: Transaction, s: Option<TransactionState>, entries: map<Uuid, Entry>)
    ensures EntriesFollow(tx, s, s, entries, entries)
  {
  }

  function StatusRank(s: Option<TransactionState>): nat {
    if s.None? then 0 else s.value.Rank()
  }

  /** The second of two stretches of a history does not close the transaction without verification, unless
      the first or the second is empty. */
  predicate Continues(s: Option<TransactionState>, v: Option<TransactionState>, s': Option<TransactionState>) {
    || s == v || v == s'
    || (v.Some? && s'.Some? && StatusRank(s) <= v.value.Rank() <= s'.value.Rank()
        && v.value.Rank() < 6 && (s'.value.Rank() == 6 ==> s'.value.Verified?))
  }

  lemma EntryFollowsOn(tx: Transaction, s: Option<TransactionState>, v: Option<TransactionState>,
                       s': Option<TransactionState>, o: Uuid, a: Entry, b: Entry, c: Entry)
    requires EntryFollows(tx, s, v, o, a, b) && EntryFollows(tx, v, s', o, b, c) && Continues(s, v, s')
    ensures EntryFollows(tx, s, s', o, a, c)
  {
  }

  /** Two stretches of one transaction's history add up. */
  lemma EntriesFollowOn(tx: Transaction, s: Option<TransactionState>, v: Option<TransactionState>,
                        s': Option<TransactionState>, a: map<Uuid, Entry>, b: map<Uuid, Entry>, c: map<Uuid, Entry>)
    requires EntriesFollow(tx, s, v, a, b) && EntriesFollow(tx, v, s', b, c) && Continues(s, v, s')
    ensures EntriesFollow(tx, s, s', a, c)
  {
    forall o | o in a ensures EntryFollows(tx, s, s', o, a[o], c[o]) {
      EntryFollowsOn(tx, s, v, s', o, a[o], b[o], c[o]);
    }
  }

  lemma CommitKeepsEntries(c: Copy, w: World, w': World)
    requires EntriesInv(w) && CopyInv(c, w) && c.pending.Some? && Status(w.rows, c.tx.id) == c.state
    requires w'.rows == Committed(w.rows, c.tx, c.state, c.pending.value.next)
    requires w'.entries == Projected(w.entries, c.tx, c.pending.value.next)
    ensures EntriesInv(w')
  {
    var next := c.pending.value.next;
    ProjectedShape(w.entries, c.tx, next, w'.entries);
    CommitKeepsKeys(c.tx, next, w.rows, w'.rows, w.entries.Keys, w'.entries.Keys);
    CommitKeepsPaths(c.tx, w, w');
    CommitKeepsRestored(c.tx, next, w, w');
  }

  lemma CommitKeepsPaths(tx: Transaction, w: World, w': World)
    requires EntriesInv(w)
    requires tx.id in w'.rows && w'.rows[tx.id].tx == tx && (tx.id in w.rows ==> w.rows[tx.id].tx == tx)
    requires forall id | id in w.rows && id != tx.id :: id in w'.rows && w'.rows[id] == w.rows[id]
    requires forall o | o in w'.entries :: HasEntry(w'.rows, o)
    requires forall o | o in w'.entries ::
               if o in w.entries then w'.entries[o].project == w.entries[o].project && w'.entries[o].path == w.entries[o].path
               else o == tx.id && w'.entries[o].project == tx.project && w'.entries[o].path == tx.destination
    ensures forall o | o in w'.entries ::
              w'.entries[o].project == w'.rows[o].tx.project && w'.entries[o].path == w'.rows[o].tx.destination
  {
  }

  lemma CommitKeepsKeys(tx: Transaction, next: TransactionState, rows: map<Uuid, Row>, rows': map<Uuid, Row>,
                        entries: set<Uuid>, entries': set<Uuid>)
    requires forall o :: o in entries <==> HasEntry(rows, o)
    requires tx.id in rows ==> rows[tx.id].tx == tx && !rows[tx.id].status.Verified?
    requires rows'.Keys == rows.Keys + {tx.id}
    requires rows'[tx.id].tx == tx && rows'[tx.id].status == next
    requires forall id | id in rows && id != tx.id :: rows'[id] == rows[id]
    requires entries' == entries + (if tx.kind.Quarantine? && next.Verified? then {tx.id} else {})
    ensures forall o :: o in entries' <==> HasEntry(rows', o)
  {
    forall o ensures o in entries' <==> HasEntry(rows', o) {
      assert o in entries <==> HasEntry(rows, o);
    }
  }

  lemma CommitKeepsRestored(tx: Transaction, next: TransactionState, w: World, w': World)
    requires EntriesInv(w)
    requires tx.id in w.rows ==> !w.rows[tx.id].status.Verified?
    requires tx.id in w'.rows && w'.rows[tx.id].tx == tx && w'.rows[tx.id].status == next
    requires forall id | id in w.rows && id != tx.id :: id in w'.rows && w'.rows[id] == w.rows[id]
    requires forall o | o in w'.entries && w'.entries[o].state.EntryRestored? ::
               || (o in w.entries && w'.entries[o] == w.entries[o])
               || (tx.kind.Restore? && next.Verified? && Restores(tx, w'.entries[o]))
    ensures forall o | o in w'.entries && w'.entries[o].state.EntryRestored? ::
              exists r :: r in w'.rows && VerifiedRestoreOf(w'.rows[r], w'.entries[o])
  {
    forall o | o in w'.entries && w'.entries[o].state.EntryRestored?
      ensures exists r :: r in w'.rows && VerifiedRestoreOf(w'.rows[r], w'.entries[o])
    {
      if o in w.entries && w'.entries[o] == w.entries[o] {
        var r :| r in w.rows && VerifiedRestoreOf(w.rows[r], w.entries[o]);
        assert r in w'.rows && VerifiedRestoreOf(w'.rows[r], w'.entries[o]);
      } else {
        assert VerifiedRestoreOf(w'.rows[tx.id], w'.entries[o]);
      }
    }
  }

  /** Between two worlds, every row keeps its record and only gains events. */
  ghost predicate RowsGrow(rows: map<Uuid, Row>, rows': map<Uuid, Row>) {
    forall id | id in rows ::
      id in rows' && rows[id].tx == rows'[id].tx && rows[id].events <= rows'[id].events
  }

  lemma StepGrowsRows(d: Digests, w: World, s: Step)
    requires Enabled(d, w, s)
    requires forall p | p in w.copies :: CopyInv(w.copies[p], w)
    ensures RowsGrow(w.rows, Apply(d, w, s).rows)
    ensures w.manifest <= Apply(d, w, s).manifest
  {
    if s.Commit? {
      assert CopyInv(w.copies[s.process], w);
    }
  }

  lemma LoadKeepsCopy(w: World, id: Uuid)
    requires id in w.rows && RowInv(id, w.rows[id], w.manifest)
    ensures CopyInv(Copy(w.rows[id].tx, Some(w.rows[id].status), None), w)
  {
    var row := w.rows[id];
    assert Observed(row, |row.events| - 1, Copy(row.tx, Some(row.status), None), w.manifest);
  }

  lemma CommitKeepsCopies(w: World, w': World, p: nat, c': Copy)
    requires forall q | q in w.copies :: CopyInv(w.copies[q], w)
    requires w'.copies == w.copies[p := c'] && CopyInv(c', w')
    requires w.manifest <= w'.manifest && RowsGrow(w.rows, w'.rows)
    ensures forall q | q in w'.copies :: CopyInv(w'.copies[q], w')
  {
    forall q | q in w'.copies ensures CopyInv(w'.copies[q], w') {
      if q != p {
        CopyInvStable(w.copies[q], w, w');
      }
    }
  }

  lemma CommitKeepsRows(w: World, c: Copy, rows': map<Uuid, Row>)
    requires Inv(w) && CopyInv(c, w) && c.pending.Some? && Status(w.rows, c.tx.id) == c.state
    requires rows' == Committed(w.rows, c.tx, c.state, c.pending.value.next)
    ensures forall id | id in rows' :: RowInv(id, rows'[id], w.manifest)
  {
    CommitKeepsRow(c, w);
    forall id | id in rows' && id != c.tx.id ensures RowInv(id, rows'[id], w.manifest) {
      assert RowInv(id, w.rows[id], w.manifest);
    }
  }

  lemma CommitKeepsInv(d: Digests, w: World, p: nat)
    requires Inv(w) && Enabled(d, w, Commit(p))
    ensures Inv(Apply(d, w, Commit(p)))
  {
    var w' := Apply(d, w, Commit(p));
    var c := w.copies[p];
    CommitKeepsRows(w, c, w'.rows);
    CommitKeepsEntries(c, w, w');
    StepGrowsRows(d, w, Commit(p));
    LoadKeepsCopy(w', c.tx.id);
    CommitKeepsCopies(w, w', p, w'.copies[p]);
  }

  lemma AbandonKeepsCopy(c: Copy, w: World)
    requires CopyInv(c, w)
    ensures CopyInv(c.(pending := None), w)
  {
    if c.state.Some? {
      var row := w.rows[c.tx.id];
      var k: nat :| Observed(row, k, c, w.manifest);
      assert Observed(row, k, c.(pending := None), w.manifest);
    }
  }

  /** A step that touches one copy, or only files, keeps the invariant if that copy is fine. */
  lemma LocalStepKeepsInv(w: World, w': World)
    requires Inv(w)
    requires w'.manifest == w.manifest && w'.rows == w.rows && w'.entries == w.entries
    requires forall q | q in w'.copies :: (q in w.copies && w'.copies[q] == w.copies[q]) || CopyInv(w'.copies[q], w)
    ensures Inv(w')
  {
    forall q | q in w'.copies ensures CopyInv(w'.copies[q], w') {
      CopyInvStable(w'.copies[q], w, w');
    }
  }

  lemma StepKeepsInv(d: Digests, w: World, s: Step)
    requires Inv(w) && Enabled(d, w, s)
    ensures Inv(Apply(d, w, s))
  {
    match s
    case Append(p, next) => AppendKeepsInv(d, w, p, next);
    case Commit(p) => CommitKeepsInv(d, w, p);
    case Load(p, id) =>
      LoadKeepsCopy(w, id);
      LocalStepKeepsInv(w, Apply(d, w, s));
    case Abandon(p) =>
      AbandonKeepsCopy(w.copies[p], w);
      LocalStepKeepsInv(w, Apply(d, w, s));
    case Plan(p, tx) => LocalStepKeepsInv(w, Apply(d, w, s));
    case Rename(p) => LocalStepKeepsInv(w, Apply(d, w, s));
  }

  lemma {:induction false} RunKeepsInv(d: Digests, w: World, run: seq<Step>, w': World)
    requires Inv(w) && Runs(d, w, run, w')
    ensures Inv(w')
    decreases |run|
  {
    if run != [] {
      StepKeepsInv(d, w, run[0]);
      RunKeepsInv(d, Apply(d, w, run[0]), run[1..], w');
    }
  }

  // ---------------------------------------------------------------- theorems

  lemma EntriesInvMeans(w: World)
    requires EntriesInv(w)
    ensures forall o :: o in w.entries.Keys <==>
              o in w.rows && w.rows[o].tx.kind == Kind.Quarantine && w.rows[o].status == Verified
    ensures forall o | o in w.entries ::
              && w.entries[o].project == w.rows[o].tx.project && w.entries[o].path == w.rows[o].tx.destination
              && (w.entries[o].state == EntryRestored ==>
                    exists r :: r in w.rows && w.rows[r].tx.kind == Kind.Restore && w.rows[r].status == Verified
                                && w.rows[r].tx.project == w.entries[o].project && w.rows[r].tx.source == w.entries[o].path)
  {
    assert forall o :: o in w.entries.Keys <==> HasEntry(w.rows, o);
    forall o | o in w.entries && w.entries[o].state == EntryRestored
      ensures exists r :: r in w.rows && w.rows[r].tx.kind == Kind.Restore && w.rows[r].status == Verified
                          && w.rows[r].tx.project == w.entries[o].project && w.rows[r].tx.source == w.entries[o].path
    {
      var r :| r in w.rows && VerifiedRestoreOf(w.rows[r], w.entries[o]);
    }
  }

  /** Every interleaving: each transaction has one legal history of at most seven events, a
      subsequence of the manifest, whose last event is the status; a quarantine row exists exactly
      for a verified quarantine transaction, under its project and destination; a restored row has a
      verified restore of its project and from its path behind it. */
  lemma EveryInterleaving(d: Digests, w: World, run: seq<Step>, w': World)
    requires Initial(w) && Runs(d, w, run, w')
    ensures forall id | id in w'.rows ::
              && IsChain(id, w'.rows[id].events)
              && |w'.rows[id].events| <= 7
              && IsSubsequence(w'.rows[id].events, w'.manifest)
              && w'.rows[id].events[|w'.rows[id].events| - 1].to == w'.rows[id].status
    ensures forall o :: o in w'.entries.Keys <==>
              o in w'.rows && w'.rows[o].tx.kind == Kind.Quarantine && w'.rows[o].status == Verified
    ensures forall o | o in w'.entries ::
              && w'.entries[o].project == w'.rows[o].tx.project && w'.entries[o].path == w'.rows[o].tx.destination
              && (w'.entries[o].state == EntryRestored ==>
                    exists r :: r in w'.rows && w'.rows[r].tx.kind == Kind.Restore && w'.rows[r].status == Verified
                                && w'.rows[r].tx.project == w'.entries[o].project && w'.rows[r].tx.source == w'.entries[o].path)
  {
    RunKeepsInv(d, w, run, w');
    EntriesInvMeans(w');
    hide EntriesInv;
    forall id | id in w'.rows ensures |w'.rows[id].events| <= 7 {
      var events := w'.rows[id].events;
      assert RowInv(id, w'.rows[id], w'.manifest);
      ChainRanks(id, events, 0);
    }
  }

  /** Histories only grow, so two observers never see diverging histories. */
  lemma {:induction false} HistoryNeverForks(d: Digests, w: World, run: seq<Step>, w': World, id: Uuid)
    requires Inv(w) && Runs(d, w, run, w') && id in w.rows
    ensures id in w'.rows && w.rows[id].events <= w'.rows[id].events && w.rows[id].tx == w'.rows[id].tx
    decreases |run|
  {
    if run != [] {
      var v := Apply(d, w, run[0]);
      StepKeepsInv(d, w, run[0]);
      StepGrowsRows(d, w, run[0]);
      HistoryNeverForks(d, v, run[1..], w', id);
    }
  }

  ghost function Holders(files: map<Path, File>, f: File): set<Path> {
    set p | p in files && files[p] == f
  }

  lemma MoveConserves(files: map<Path, File>, source: Path, destination: Path, f: File)
    requires source in files && destination !in files
    ensures |Holders(Moved(files, source, destination), f)| == |Holders(files, f)|
  {
    var before, after := Holders(files, f), Holders(Moved(files, source, destination), f);
    if files[source] == f {
      assert after == (before - {source}) + {destination};
    } else {
      assert after == before;
    }
  }

  /** No interleaving and no crash loses, duplicates, overwrites or edits a file: every file value
      is held by as many paths afterwards as before. */
  lemma {:induction false} FilesAreConserved(d: Digests, w: World, run: seq<Step>, w': World, f: File)
    requires Runs(d, w, run, w')
    ensures |Holders(w'.files, f)| == |Holders(w.files, f)|
    decreases |run|
  {
    if run != [] {
      var v := Apply(d, w, run[0]);
      if run[0].Rename? {
        var tx := w.copies[run[0].process].tx;
        MoveConserves(w.files, tx.source, tx.destination, f);
      }
      FilesAreConserved(d, v, run[1..], w', f);
    }
  }
}
