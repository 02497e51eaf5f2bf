/** Permanent-delete batches as a transition system: any number of processes hold batch copies that
    may be stale, every database transaction commits or changes nothing, and a quarantine row is
    reserved by the batch that starts executing. */
module DeleteProtocol {
  import opened Domain
  import opened Encoding

  datatype BatchState = Prepared | Executing | Completed | RecoveryRequired | Expired {
    predicate CanTransitionTo(next: BatchState) {
      match this
      case Prepared => next.Executing? || next.Expired?
      case Executing => next.Completed? || next.RecoveryRequired?
      case RecoveryRequired => next.Executing? || next.Completed?
      case _ => false
    }

    /** Authorised at some point, so its rows are reserved. */
    predicate Started() {
      Executing? || RecoveryRequired? || Completed?
    }
  }

  datatype ItemState = Planned | Deleting | Deleted | Failed {
    predicate CanTransitionTo(next: ItemState) {
      match this
      case Planned => next.Deleting?
      case Failed => next.Deleting? || next.Deleted?
      case Deleting => next.Deleted? || next.Failed?
      case Deleted => false
    }
  }

  datatype Mode = RetentionExpired | Immediate

  datatype Item = Item(entry: DeletionEntry, state: ItemState)

  datatype Batch = Batch(
    id: Id, project: Id, state: BatchState, mode: Mode, tokenDigest: Bytes, selectionDigest: Bytes,
    phrase: string, entryCount: nat, totalBytes: nat, expiresAt: int, items: seq<Item>)

  datatype DeleteState = IsActive | IsDeleting | IsDeleted | IsFailed

  /** A quarantine row: whether its state is `verified`, its deletion state and its reserving batch. */
  datatype EntryRow = EntryRow(project: Id, verified: bool, deletion: DeleteState, owner: Option<Id>)

  datatype Tables = Tables(batches: map<Id, Batch>, entries: map<Id, EntryRow>)

  // ---------------------------------------------------------------- database transactions

  predicate DistinctItems(items: seq<Item>) {
    forall i, j | 0 <= i < j < |items| :: items[i].entry.id != items[j].entry.id
  }

  predicate FitsSqlite(b: Batch) {
    b.entryCount <= I64_MAX && b.totalBytes <= I64_MAX
    && forall i | 0 <= i < |b.items| :: b.items[i].entry.size <= I64_MAX
  }

  /** None stands for an error, which rolls everything back. */
  function CreateBatch(t: Tables, b: Batch): Option<Tables> {
    if !b.state.Prepared? || (exists i | 0 <= i < |b.items| :: !b.items[i].state.Planned?) then None
    else if b.id in t.batches || !DistinctItems(b.items) || !FitsSqlite(b) then None
    else Some(t.(batches := t.batches[b.id := b]))
  }

  predicate Reservable(row: EntryRow, b: Batch, state: ItemState) {
    && row.project == b.project && row.verified
    && (row.deletion.IsDeleting?
        || (if b.state.Prepared? then row.deletion.IsActive?
            else if state.Failed? then row.deletion.IsFailed? else false))
    && (row.owner.None? || row.owner == Some(b.id))
  }

  /** Reserve the first `n` items of a copy, one update after the other. */
  function Reserve(entries: map<Id, EntryRow>, b: Batch, n: nat): Option<map<Id, EntryRow>>
    requires n <= |b.items|
  {
    if n == 0 then Some(entries)
    else
      var before := Reserve(entries, b, n - 1);
      var item := b.items[n - 1];
      if before.None? || item.state.Deleted? then before
      else if item.entry.id !in before.value || !Reservable(before.value[item.entry.id], b, item.state) then None
      else Some(before.value[item.entry.id :=
                  before.value[item.entry.id].(deletion := IsDeleting, owner := Some(b.id))])
  }

  function TransitionBatch(t: Tables, b: Batch, next: BatchState): Option<Tables> {
    if !b.state.CanTransitionTo(next) || b.id !in t.batches || t.batches[b.id].state != b.state then None
    else
      var stored := t.batches[b.id];
      var entries := if next.Executing? then Reserve(t.entries, b, |b.items|) else Some(t.entries);
      if entries.None? then None
      else if next.Completed? && exists i | 0 <= i < |stored.items| :: !stored.items[i].state.Deleted? then None
      else Some(Tables(t.batches[b.id := stored.(state := next)], entries.value))
  }

  function ProjectionOf(s: ItemState): DeleteState {
    match s
    case Planned => IsActive
    case Deleting => IsDeleting
    case Deleted => IsDeleted
    case Failed => IsFailed
  }

  function WithItem(b: Batch, i: nat, s: ItemState): Batch
    requires i < |b.items|
  {
    b.(items := b.items[i := b.items[i].(state := s)])
  }

  function TransitionItem(t: Tables, b: Batch, i: nat, next: ItemState): Option<Tables>
    requires i < |b.items|
  {
    var item := b.items[i];
    if !item.state.CanTransitionTo(next) || b.id !in t.batches then None
    else
      var stored := t.batches[b.id];
      if i >= |stored.items| || stored.items[i].entry.id != item.entry.id || stored.items[i].state != item.state then None
      else if item.entry.id !in t.entries || t.entries[item.entry.id].owner != Some(b.id) then None
      else Some(Tables(t.batches[b.id := WithItem(stored, i, next)],
                       t.entries[item.entry.id := t.entries[item.entry.id].(deletion := ProjectionOf(next))]))
  }

  // ---------------------------------------------------------------- the transition system

  datatype World = World(tables: Tables, copies: map<nat, Batch>)

  datatype Step =
    | Create(process: nat, batch: Batch)
    | Load(process: nat, id: Id)
    | MoveBatch(process: nat, to: BatchState)
    | MoveItem(process: nat, i: nat, toItem: ItemState)
    | Quarantined(id: Id, row: EntryRow)
    | Relabel(id: Id, verified: bool)

  predicate Enabled(w: World, s: Step) {
    match s
    case Create(p, b) => CreateBatch(w.tables, b).Some?
    case Load(p, id) => id in w.tables.batches
    case MoveBatch(p, next) => p in w.copies && TransitionBatch(w.tables, w.copies[p], next).Some?
    case MoveItem(p, i, next) =>
      p in w.copies && i < |w.copies[p].items| && TransitionItem(w.tables, w.copies[p], i, next).Some?
    case Quarantined(id, row) => id !in w.tables.entries && row.deletion.IsActive? && row.owner.None?
    case Relabel(id, verified) => id in w.tables.entries
  }

  function Apply(w: World, s: Step): World
    requires Enabled(w, s)
  {
    match s
    case Create(p, b) => World(CreateBatch(w.tables, b).value, w.copies[p := b])
    case Load(p, id) => w.(copies := w.copies[p := w.tables.batches[id]])
    case MoveBatch(p, next) =>
      World(TransitionBatch(w.tables, w.copies[p], next).value,
            w.copies[p := w.copies[p].(state := next)])
    case MoveItem(p, i, next) =>
      World(TransitionItem(w.tables, w.copies[p], i, next).value,
            w.copies[p := WithItem(w.copies[p], i, next)])
    case Quarantined(id, row) => w.(tables := w.tables.(entries := w.tables.entries[id := row]))
    case Relabel(id, verified) =>
      w.(tables := w.tables.(entries := w.tables.entries[id := w.tables.entries[id].(verified := verified)]))
  }

  ghost predicate Runs(w: World, run: seq<Step>, w': World)
    decreases |run|
  {
    if run == [] then w == w' else Enabled(w, run[0]) && Runs(Apply(w, run[0]), run[1..], w')
  }

  // ---------------------------------------------------------------- invariant

  predicate Agrees(s: ItemState, d: DeleteState) {
    match s
    case Planned => d.IsDeleting?
    case Deleting => d.IsDeleting?
    case Deleted => d.IsDeleted?
    case Failed => d.IsFailed? || d.IsDeleting?
  }

  predicate ReservedBy(entries: map<Id, EntryRow>, item: Item, b: Id) {
    && item.entry.id in entries
    && entries[item.entry.id].owner == Some(b)
    && Agrees(item.state, entries[item.entry.id].deletion)
  }

  ghost predicate BatchInv(id: Id, b: Batch, entries: map<Id, EntryRow>) {
    && b.id == id && DistinctItems(b.items)
    && (if b.state.Started() then forall i | 0 <= i < |b.items| :: ReservedBy(entries, b.items[i], id)
        else forall i | 0 <= i < |b.items| :: b.items[i].state.Planned?)
    && (b.state.Completed? ==> forall i | 0 <= i < |b.items| :: b.items[i].state.Deleted?)
  }

  /** An owned row belongs to a started batch that lists it; an unowned row is active. */
  ghost predicate EntryInv(e: Id, row: EntryRow, batches: map<Id, Batch>) {
    match row.owner
    case None => row.deletion.IsActive?
    case Some(b) =>
      b in batches && batches[b].state.Started()
      && exists i | 0 <= i < |batches[b].items| :: batches[b].items[i].entry.id == e
  }

  /** Same entry; an intent is never forgotten and a deletion is final. */
  predicate SameItem(c: Item, b: Item) {
    c.entry == b.entry && (b.state.Planned? ==> c.state.Planned?) && (c.state.Deleted? ==> b.state.Deleted?)
  }

  /** Same batch, same evidence; only states may differ, and `b` is not older than `c`. */
  ghost predicate SameBatch(c: Batch, b: Batch) {
    && c == b.(state := c.state, items := c.items)
    && |c.items| == |b.items|
    && (forall i | 0 <= i < |c.items| :: SameItem(c.items[i], b.items[i]))
  }

  ghost predicate TablesInv(t: Tables) {
    && (forall id | id in t.batches :: BatchInv(id, t.batches[id], t.entries))
    && (forall e | e in t.entries :: EntryInv(e, t.entries[e], t.batches))
  }

  /** A copy is some earlier version of a stored batch. */
  ghost predicate IsCopy(c: Batch, batches: map<Id, Batch>) {
    c.id in batches && SameBatch(c, batches[c.id])
  }

  ghost predicate Inv(w: World) {
    TablesInv(w.tables) && forall p | p in w.copies :: IsCopy(w.copies[p], w.tables.batches)
  }

  /** `e` is an undeleted item among the first `n` of the batch copy. */
  ghost predicate Lists(b: Batch, n: nat, e: Id)
    requires n <= |b.items|
  {
    exists i | 0 <= i < n :: b.items[i].entry.id == e && !b.items[i].state.Deleted?
  }

  /** What a reservation may have done to one row. */
  predicate Taken(row: EntryRow, row': EntryRow, b: Batch) {
    && row' == row.(deletion := IsDeleting, owner := Some(b.id))
    && (row.owner.None? || row.owner == Some(b.id))
    && !row.deletion.IsDeleted? && row.verified && row.project == b.project
  }

  /** A successful reservation takes every undeleted item's row and no other. */
  lemma {:induction false} ReserveEffect(entries: map<Id, EntryRow>, b: Batch, n: nat)
    requires n <= |b.items| && DistinctItems(b.items) && Reserve(entries, b, n).Some?
    ensures Reserve(entries, b, n).value.Keys == entries.Keys
    ensures forall i | 0 <= i < n && !b.items[i].state.Deleted? :: b.items[i].entry.id in entries
    ensures forall e | e in entries ::
              if Lists(b, n, e) then Taken(entries[e], Reserve(entries, b, n).value[e], b)
              else Reserve(entries, b, n).value[e] == entries[e]
  {
    if n > 0 {
      ReserveEffect(entries, b, n - 1);
      forall e | e in entries && e != b.items[n - 1].entry.id ensures Lists(b, n, e) <==> Lists(b, n - 1, e) {
      }
      assert !Lists(b, n - 1, b.items[n - 1].entry.id);
      assert Lists(b, n, b.items[n - 1].entry.id) <==> !b.items[n - 1].state.Deleted?;
    }
  }

  /** A reservation succeeds exactly if every undeleted item's row can be taken. */
  lemma {:induction false} ReserveSucceedsIff(entries: map<Id, EntryRow>, b: Batch, n: nat)
    requires n <= |b.items| && DistinctItems(b.items)
    ensures Reserve(entries, b, n).Some? <==>
              forall i | 0 <= i < n && !b.items[i].state.Deleted? ::
                b.items[i].entry.id in entries && Reservable(entries[b.items[i].entry.id], b, b.items[i].state)
  {
    if n > 0 {
      ReserveSucceedsIff(entries, b, n - 1);
      if Reserve(entries, b, n - 1).Some? {
        ReserveEffect(entries, b, n - 1);
        assert !Lists(b, n - 1, b.items[n - 1].entry.id);
      }
    }
  }

  /** The item's quarantine row still says `verified` and belongs to the project. */
  predicate RowStands(entries: map<Id, EntryRow>, project: Id, e: Id) {
    e in entries && entries[e].project == project && entries[e].verified
  }

  /** The quarantine rows let this batch execute: of a prepared one each row is verified, of its project
      and reserved by nobody; of a stopped one the rows of its undeleted items still are verified. */
  ghost predicate Startable(t: Tables, b: Batch) {
    match b.state
    case Executing => true
    case Prepared =>
      forall i | 0 <= i < |b.items| ::
        RowStands(t.entries, b.project, b.items[i].entry.id) && t.entries[b.items[i].entry.id].owner.None?
    case RecoveryRequired =>
      forall i | 0 <= i < |b.items| && !b.items[i].state.Deleted? :: RowStands(t.entries, b.project, b.items[i].entry.id)
    case _ => false
  }

  /** Exactly then a stored batch starts, or starts again. */
  lemma StartsIff(t: Tables, id: Id)
    requires TablesInv(t) && id in t.batches
    ensures Startable(t, t.batches[id]) <==>
              t.batches[id].state.Executing? || TransitionBatch(t, t.batches[id], Executing).Some?
  {
    var b := t.batches[id];
    assert BatchInv(id, b, t.entries);
    ReserveSucceedsIff(t.entries, b, |b.items|);
    forall i | 0 <= i < |b.items| && b.items[i].entry.id in t.entries
      ensures b.state.Prepared? ==> t.entries[b.items[i].entry.id].owner != Some(id)
      ensures t.entries[b.items[i].entry.id].owner.None? ==> t.entries[b.items[i].entry.id].deletion.IsActive?
      ensures b.state.RecoveryRequired? ==> ReservedBy(t.entries, b.items[i], id)
    {
      assert EntryInv(b.items[i].entry.id, t.entries[b.items[i].entry.id], t.batches);
    }
  }

  /** The batch that starts or resumes executing reserves exactly what it still has to delete. */
  lemma StartReserves(t: Tables, c: Batch)
    requires TablesInv(t) && c.id in t.batches && SameBatch(c, t.batches[c.id])
    requires c.state == t.batches[c.id].state && c.state.CanTransitionTo(Executing)
    requires Reserve(t.entries, c, |c.items|).Some?
    ensures BatchInv(c.id, t.batches[c.id].(state := Executing), Reserve(t.entries, c, |c.items|).value)
  {
    var stored, entries' := t.batches[c.id], Reserve(t.entries, c, |c.items|).value;
    assert BatchInv(c.id, stored, t.entries);
    assert DistinctItems(c.items);
    ReserveEffect(t.entries, c, |c.items|);
    forall i | 0 <= i < |stored.items| ensures ReservedBy(entries', stored.items[i], c.id) {
      var e := c.items[i].entry.id;
      if c.items[i].state.Deleted? {
        assert !Lists(c, |c.items|, e);
      } else {
        assert Lists(c, |c.items|, e);
        assert Taken(t.entries[e], entries'[e], c);
      }
    }
  }

  lemma StartKeepsOthers(t: Tables, c: Batch, id: Id)
    requires TablesInv(t) && c.id in t.batches && SameBatch(c, t.batches[c.id])
    requires Reserve(t.entries, c, |c.items|).Some?
    requires id in t.batches && id != c.id
    ensures BatchInv(id, t.batches[id], Reserve(t.entries, c, |c.items|).value)
  {
    assert BatchInv(c.id, t.batches[c.id], t.entries);
    assert BatchInv(id, t.batches[id], t.entries);
    assert DistinctItems(c.items);
    ReserveEffect(t.entries, c, |c.items|);
  }

  lemma StartKeepsEntries(t: Tables, c: Batch, batches': map<Id, Batch>)
    requires TablesInv(t) && c.id in t.batches && SameBatch(c, t.batches[c.id])
    requires Reserve(t.entries, c, |c.items|).Some?
    requires batches' == t.batches[c.id := t.batches[c.id].(state := Executing)]
    ensures forall e | e in Reserve(t.entries, c, |c.items|).value ::
              EntryInv(e, Reserve(t.entries, c, |c.items|).value[e], batches')
  {
    assert BatchInv(c.id, t.batches[c.id], t.entries);
    assert DistinctItems(c.items);
    ReserveEffect(t.entries, c, |c.items|);
    var entries' := Reserve(t.entries, c, |c.items|).value;
    forall e | e in entries' ensures EntryInv(e, entries'[e], batches') {
      assert EntryInv(e, t.entries[e], t.batches);
      if Lists(c, |c.items|, e) {
        var i :| 0 <= i < |c.items| && c.items[i].entry.id == e && !c.items[i].state.Deleted?;
        assert batches'[c.id].items[i].entry.id == e;
      }
    }
  }

  lemma MoveBatchKeepsTables(t: Tables, c: Batch, next: BatchState)
    requires TablesInv(t) && c.id in t.batches && SameBatch(c, t.batches[c.id])
    requires TransitionBatch(t, c, next).Some?
    ensures TablesInv(TransitionBatch(t, c, next).value)
  {
    var t' := TransitionBatch(t, c, next).value;
    var stored := t.batches[c.id];
    if next.Executing? {
      StartReserves(t, c);
      StartKeepsEntries(t, c, t'.batches);
      forall id | id in t'.batches ensures BatchInv(id, t'.batches[id], t'.entries) {
        if id != c.id {
          StartKeepsOthers(t, c, id);
        }
      }
    } else {
      forall id | id in t'.batches ensures BatchInv(id, t'.batches[id], t'.entries) {
        assert BatchInv(id, t.batches[id], t.entries);
      }
      forall e | e in t'.entries ensures EntryInv(e, t'.entries[e], t'.batches) {
        assert EntryInv(e, t.entries[e], t.batches);
      }
    }
  }

  lemma MoveItemKeepsTables(t: Tables, c: Batch, i: nat, next: ItemState)
    requires TablesInv(t) && c.id in t.batches && i < |c.items|
    requires TransitionItem(t, c, i, next).Some?
    ensures TablesInv(TransitionItem(t, c, i, next).value)
  {
    var t' := TransitionItem(t, c, i, next).value;
    var e := c.items[i].entry.id;
    assert EntryInv(e, t.entries[e], t.batches);
    forall id | id in t'.batches ensures BatchInv(id, t'.batches[id], t'.entries) {
      assert BatchInv(id, t.batches[id], t.entries);
    }
    forall x | x in t'.entries ensures EntryInv(x, t'.entries[x], t'.batches) {
      assert EntryInv(x, t.entries[x], t.batches);
      if t.entries[x].owner == Some(c.id) {
        var k :| 0 <= k < |t.batches[c.id].items| && t.batches[c.id].items[k].entry.id == x;
        assert t'.batches[c.id].items[k].entry.id == x;
      }
    }
  }

  /** Where a batch's and an item's state can come from: a batch executes after its challenge or after a
      stop, it stops or completes only once started, it expires only before; an item is recorded as
      deleted or failed only after its intent, and a failed one may turn out to be gone. */
  lemma ComesFrom(a: BatchState, b: BatchState, i: ItemState, j: ItemState)
    ensures a.CanTransitionTo(b) <==>
              match b
              case Prepared => false
              case Executing => a == Prepared || a == BatchState.RecoveryRequired
              case RecoveryRequired => a == Executing
              case Completed => a == Executing || a == BatchState.RecoveryRequired
              case Expired => a == Prepared
    ensures i.CanTransitionTo(j) <==>
              match j
              case Planned => false
              case Deleting => i == ItemState.Planned || i == ItemState.Failed
              case Deleted => i == Deleting || i == ItemState.Failed
              case Failed => i == Deleting
  {
  }

  /** An item transition changes that item's state, and in its row only what the row shows of it. */
  lemma MoveItemEffect(t: Tables, c: Batch, i: nat, next: ItemState)
    requires i < |c.items| && TransitionItem(t, c, i, next).Some?
    ensures var t', e := TransitionItem(t, c, i, next).value, c.items[i].entry.id;
            && c.id in t.batches && i < |t.batches[c.id].items| && e in t.entries
            && t.batches[c.id].items[i].entry.id == e && t.entries[e].owner == Some(c.id)
            && t'.batches.Keys == t.batches.Keys && t'.entries.Keys == t.entries.Keys
            && (forall id | id in t.batches && id != c.id :: t'.batches[id] == t.batches[id])
            && t'.batches[c.id] == t.batches[c.id].(items := t'.batches[c.id].items)
            && |t'.batches[c.id].items| == |t.batches[c.id].items|
            && (forall k | 0 <= k < |t.batches[c.id].items| && k != i :: t'.batches[c.id].items[k] == t.batches[c.id].items[k])
            && t'.batches[c.id].items[i] == Item(t.batches[c.id].items[i].entry, next)
            && (forall x | x in t.entries && x != e :: t'.entries[x] == t.entries[x])
            && t'.entries[e] == t.entries[e].(deletion := t'.entries[e].deletion)
            && (next == Deleting ==> t'.entries[e].deletion == IsDeleting)
            && (next == Deleted ==> t'.entries[e].deletion == IsDeleted)
            && (next == ItemState.Failed ==> t'.entries[e].deletion == IsFailed)
  {
  }

  lemma CreateKeepsTables(t: Tables, b: Batch)
    requires TablesInv(t) && CreateBatch(t, b).Some?
    ensures TablesInv(CreateBatch(t, b).value)
  {
    var t' := CreateBatch(t, b).value;
    forall id | id in t'.batches ensures BatchInv(id, t'.batches[id], t'.entries) {
      if id != b.id {
        assert BatchInv(id, t.batches[id], t.entries);
      }
    }
    forall e | e in t'.entries ensures EntryInv(e, t'.entries[e], t'.batches) {
      assert EntryInv(e, t.entries[e], t.batches);
    }
  }

  lemma EntryStepKeepsTables(t: Tables, id: Id, row: EntryRow)
    requires TablesInv(t)
    requires if id in t.entries then row == t.entries[id].(verified := row.verified)
             else row.deletion.IsActive? && row.owner.None?
    ensures TablesInv(t.(entries := t.entries[id := row]))
  {
    var entries' := t.entries[id := row];
    forall b | b in t.batches ensures BatchInv(b, t.batches[b], entries') {
      assert BatchInv(b, t.batches[b], t.entries);
    }
    forall e | e in entries' ensures EntryInv(e, entries'[e], t.batches) {
      if e in t.entries {
        assert EntryInv(e, t.entries[e], t.batches);
      }
    }
  }

  /** Batches only progress: same evidence, no resurrection of deleted items. */
  ghost predicate Progresses(batches: map<Id, Batch>, batches': map<Id, Batch>) {
    forall id | id in batches :: id in batches' && SameBatch(batches[id], batches'[id])
  }

  lemma CopyProgresses(c: Batch, batches: map<Id, Batch>, batches': map<Id, Batch>)
    requires IsCopy(c, batches) && Progresses(batches, batches')
    ensures IsCopy(c, batches')
  {
    assert SameBatch(batches[c.id], batches'[c.id]);
  }

  lemma CreateProgresses(t: Tables, b: Batch)
    requires TablesInv(t) && CreateBatch(t, b).Some?
    ensures Progresses(t.batches, CreateBatch(t, b).value.batches)
    ensures IsCopy(b, CreateBatch(t, b).value.batches)
  {
  }

  lemma MoveBatchProgresses(t: Tables, c: Batch, next: BatchState)
    requires TablesInv(t) && IsCopy(c, t.batches) && TransitionBatch(t, c, next).Some?
    ensures Progresses(t.batches, TransitionBatch(t, c, next).value.batches)
    ensures IsCopy(c.(state := next), TransitionBatch(t, c, next).value.batches)
  {
    assert BatchInv(c.id, t.batches[c.id], t.entries);
  }

  lemma MoveItemProgresses(t: Tables, c: Batch, i: nat, next: ItemState)
    requires TablesInv(t) && IsCopy(c, t.batches) && i < |c.items| && TransitionItem(t, c, i, next).Some?
    ensures Progresses(t.batches, TransitionItem(t, c, i, next).value.batches)
    ensures IsCopy(WithItem(c, i, next), TransitionItem(t, c, i, next).value.batches)
  {
    assert BatchInv(c.id, t.batches[c.id], t.entries);
  }

  lemma StepProgresses(w: World, s: Step)
    requires Inv(w) && Enabled(w, s)
    ensures Progresses(w.tables.batches, Apply(w, s).tables.batches)
    ensures s.Create? || s.Load? || s.MoveBatch? || s.MoveItem? ==>
              s.process in Apply(w, s).copies && IsCopy(Apply(w, s).copies[s.process], Apply(w, s).tables.batches)
  {
    match s {
      case Create(p, b) => CreateProgresses(w.tables, b);
      case Load(p, id) => assert BatchInv(id, w.tables.batches[id], w.tables.entries);
      case MoveBatch(p, next) => MoveBatchProgresses(w.tables, w.copies[p], next);
      case MoveItem(p, i, next) => MoveItemProgresses(w.tables, w.copies[p], i, next);
      case Quarantined(id, row) =>
      case Relabel(id, verified) =>
    }
  }

  lemma StepKeepsTables(w: World, s: Step)
    requires Inv(w) && Enabled(w, s)
    ensures TablesInv(Apply(w, s).tables)
  {
    match s {
      case Create(p, b) => CreateKeepsTables(w.tables, b);
      case Load(p, id) =>
      case MoveBatch(p, next) => MoveBatchKeepsTables(w.tables, w.copies[p], next);
      case MoveItem(p, i, next) => MoveItemKeepsTables(w.tables, w.copies[p], i, next);
      case Quarantined(id, row) => EntryStepKeepsTables(w.tables, id, row);
      case Relabel(id, verified) =>
        EntryStepKeepsTables(w.tables, id, w.tables.entries[id].(verified := verified));
    }
  }

  lemma StepKeepsInv(w: World, s: Step)
    requires Inv(w) && Enabled(w, s)
    ensures Inv(Apply(w, s))
  {
    StepKeepsTables(w, s);
    StepProgresses(w, s);
    var w' := Apply(w, s);
    forall p | p in w'.copies ensures IsCopy(w'.copies[p], w'.tables.batches) {
      if p in w.copies && w'.copies[p] == w.copies[p] {
        CopyProgresses(w.copies[p], w.tables.batches, w'.tables.batches);
      }
    }
  }

  lemma {:induction false} RunKeepsInv(w: World, run: seq<Step>, w': World)
    requires Inv(w) && Runs(w, run, w')
    ensures Inv(w') && Progresses(w.tables.batches, w'.tables.batches)
    decreases |run|
  {
    if run != [] {
      StepKeepsInv(w, run[0]);
      StepProgresses(w, run[0]);
      RunKeepsInv(Apply(w, run[0]), run[1..], w');
    }
  }

  // ---------------------------------------------------------------- theorems

  predicate Initial(w: World) {
    w.tables == Tables(map[], map[]) && w.copies == map[]
  }

  /** Two started batches never share an entry, whatever the interleaving. */
  lemma ReservationIsExclusive(w: World, run: seq<Step>, w': World, a: Id, b: Id, i: nat, j: nat)
    requires Initial(w) && Runs(w, run, w')
    requires a in w'.tables.batches && b in w'.tables.batches && a != b
    requires w'.tables.batches[a].state.Started() && w'.tables.batches[b].state.Started()
    requires i < |w'.tables.batches[a].items| && j < |w'.tables.batches[b].items|
    ensures w'.tables.batches[a].items[i].entry.id != w'.tables.batches[b].items[j].entry.id
  {
    RunKeepsInv(w, run, w');
    assert BatchInv(a, w'.tables.batches[a], w'.tables.entries);
    assert BatchInv(b, w'.tables.batches[b], w'.tables.entries);
    assert ReservedBy(w'.tables.entries, w'.tables.batches[a].items[i], a);
    assert ReservedBy(w'.tables.entries, w'.tables.batches[b].items[j], b);
  }

  /** The quarantine row of a started batch's item shows the item's own state. */
  lemma ProjectionAgrees(w: World, run: seq<Step>, w': World, b: Id, i: nat)
    requires Initial(w) && Runs(w, run, w')
    requires b in w'.tables.batches && w'.tables.batches[b].state.Started() && i < |w'.tables.batches[b].items|
    ensures var item := w'.tables.batches[b].items[i];
            && item.entry.id in w'.tables.entries
            && Agrees(item.state, w'.tables.entries[item.entry.id].deletion)
            && (item.state.Deleted? <==> w'.tables.entries[item.entry.id].deletion.IsDeleted?)
            && (w'.tables.batches[b].state.Completed? ==> item.state.Deleted?)
  {
    RunKeepsInv(w, run, w');
    assert BatchInv(b, w'.tables.batches[b], w'.tables.entries);
    assert ReservedBy(w'.tables.entries, w'.tables.batches[b].items[i], b);
  }

  /** A row that is not active was reserved, and its batch lists it. */
  lemma OnlyReservedRowsLeaveActive(w: World, run: seq<Step>, w': World, e: Id)
    requires Initial(w) && Runs(w, run, w')
    requires e in w'.tables.entries && !w'.tables.entries[e].deletion.IsActive?
    ensures w'.tables.entries[e].owner.Some?
    ensures var b := w'.tables.entries[e].owner.value;
            && b in w'.tables.batches && w'.tables.batches[b].state.Started()
            && exists i | 0 <= i < |w'.tables.batches[b].items| :: w'.tables.batches[b].items[i].entry.id == e
  {
    RunKeepsInv(w, run, w');
    assert EntryInv(e, w'.tables.entries[e], w'.tables.batches);
  }
}
