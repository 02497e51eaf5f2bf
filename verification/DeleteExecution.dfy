/** Preparing and executing a permanent-delete batch on a machine that may lose power between any
    two durable steps. Every removal is preceded by a durable intent and a full preflight. */
module DeleteExecution {
  import opened Domain
  import opened Encoding
  import opened DeleteProtocol

  /** The domain-separated digests and the confirmation phrase, as unknown functions. */
  datatype Authority = Authority(
    selection: Bytes -> Bytes, token: string -> Bytes, phrase: (nat, nat, Mode) -> string)

  function Entries(items: seq<Item>): (r: seq<DeletionEntry>)
    ensures |r| == |items| && forall i | 0 <= i < |r| :: r[i] == items[i].entry
  {
    seq(|items|, i requires 0 <= i < |items| => items[i].entry)
  }

  function TotalBytes(entries: seq<DeletionEntry>): nat {
    if entries == [] then 0 else TotalBytes(entries[..|entries| - 1]) + entries[|entries| - 1].size
  }

  lemma {:induction false} TotalBytesGrows(entries: seq<DeletionEntry>, n: nat)
    requires n <= |entries|
    ensures TotalBytes(entries[..n]) <= TotalBytes(entries)
  {
    if n == |entries| {
      assert entries[..n] == entries;
    } else {
      TotalBytesGrows(entries[..|entries| - 1], n);
      assert entries[..|entries| - 1][..n] == entries[..n];
    }
  }

  /** A checked sum of sizes; None on overflow of 64 bits. */
  method SumSizes(entries: seq<DeletionEntry>) returns (r: Option<nat>)
    ensures r == if TotalBytes(entries) <= U64_MAX then Some(TotalBytes(entries)) else None
  {
    var total := 0;
    for i := 0 to |entries|
      invariant total == TotalBytes(entries[..i]) <= U64_MAX
    {
      assert entries[..i + 1][..i] == entries[..i];
      total := total + entries[i].size;
      if total > U64_MAX {
        TotalBytesGrows(entries, i + 1);
        return None;
      }
    }
    assert entries[..|entries|] == entries;
    r := Some(total);
  }

  // ---------------------------------------------------------------- prepare and validate

  predicate EntryAcceptable(e: DeletionEntry, project: Id, now: int, mode: Mode) {
    e.project == project && (mode.RetentionExpired? ==> e.retainUntil <= now) && |e.blake3| == 32 && |e.sha256| == 32
  }

  /** What a selection must satisfy to be prepared. */
  predicate Preparable(entries: seq<DeletionEntry>, now: int, mode: Mode) {
    && entries != [] && DistinctIds(entries)
    && (forall i | 0 <= i < |entries| :: EntryAcceptable(entries[i], entries[0].project, now, mode))
    && TotalBytes(entries) <= U64_MAX && |entries| <= U64_MAX
  }

  /** What is recomputed from a stored batch before anything else is done with it. */
  predicate Consistent(a: Authority, b: Batch) {
    && |b.items| == b.entryCount <= U64_MAX
    && TotalBytes(Entries(b.items)) == b.totalBytes <= U64_MAX
    && a.selection(SelectionPreimage(Entries(b.items))) == b.selectionDigest
    && b.phrase == a.phrase(b.entryCount, b.totalBytes, b.mode)
    && forall i | 0 <= i < |b.items| :: b.items[i].entry.project == b.project
  }

  method ValidateLoaded(a: Authority, b: Batch) returns (ok: bool)
    ensures ok <==> Consistent(a, b)
  {
    var entries := Entries(b.items);
    var bytes := SumSizes(entries);
    ok := |entries| <= U64_MAX && bytes.Some? && |entries| == b.entryCount && bytes.value == b.totalBytes
      && a.selection(SelectionPreimage(entries)) == b.selectionDigest
      && b.phrase == a.phrase(|entries|, bytes.value, b.mode)
      && forall i | 0 <= i < |entries| :: entries[i].project == b.project;
  }

  /** Check a sorted selection entry by entry. */
  method CheckSelection(entries: seq<DeletionEntry>, now: int, mode: Mode) returns (total: Option<nat>)
    ensures total == if Preparable(entries, now, mode) then Some(TotalBytes(entries)) else None
  {
    if entries == [] {
      return None;
    }
    var seen: set<Id> := {};
    for i := 0 to |entries|
      invariant seen == set k | 0 <= k < i :: entries[k].id
      invariant forall k, l | 0 <= k < l < i :: entries[k].id != entries[l].id
      invariant forall k | 0 <= k < i :: EntryAcceptable(entries[k], entries[0].project, now, mode)
    {
      if entries[i].id in seen || entries[i].project != entries[0].project
         || (mode.RetentionExpired? && entries[i].retainUntil > now)
         || |entries[i].blake3| != 32 || |entries[i].sha256| != 32
      {
        return None;
      }
      seen := seen + {entries[i].id};
    }
    total := SumSizes(entries);
    if |entries| > U64_MAX {
      total := None;
    }
  }

  /** Build the batch of a challenge. */
  method PrepareBatch(a: Authority, id: Id, rawToken: string, entries: seq<DeletionEntry>, now: int, ttl: int, mode: Mode)
    returns (r: Option<Batch>)
    ensures r.Some? <==> ttl > 0 && Preparable(SortById(entries), now, mode)
    ensures r.Some? ==>
              var b := r.value;
              && b.id == id && b.state.Prepared? && b.mode == mode && b.tokenDigest == a.token(rawToken)
              && b.expiresAt == now + ttl && Entries(b.items) == SortById(entries)
              && (forall i | 0 <= i < |b.items| :: b.items[i].state.Planned?)
              && DistinctItems(b.items) && Consistent(a, b)
  {
    hide SortById, SelectionPreimage, TotalBytes;
    var sorted := SortById(entries);
    var total := CheckSelection(sorted, now, mode);
    if ttl <= 0 || total.None? {
      return None;
    }
    var items := seq(|sorted|, i requires 0 <= i < |sorted| => Item(sorted[i], ItemState.Planned));
    assert Entries(items) == sorted;
    r := Some(Batch(id, sorted[0].project, Prepared, mode, a.token(rawToken),
                    a.selection(SelectionPreimage(sorted)), a.phrase(|sorted|, total.value, mode),
                    |sorted|, total.value, now + ttl, items));
  }

  /** Validation looks at evidence only, so no run of transitions can make a batch inconsistent. */
  lemma LaterVersionsStayConsistent(a: Authority, b: Batch, b': Batch)
    requires Consistent(a, b) && SameBatch(b, b')
    ensures Consistent(a, b')
  {
    assert Entries(b.items) == Entries(b'.items);
  }

  /** Prepare, store, let any processes do anything, load: the batch still validates. */
  lemma StoredBatchesStayConsistent(a: Authority, w: World, p: nat, b: Batch, run: seq<Step>, w': World)
    requires Inv(w) && Consistent(a, b) && Enabled(w, Create(p, b)) && Runs(Apply(w, Create(p, b)), run, w')
    ensures b.id in w'.tables.batches && Consistent(a, w'.tables.batches[b.id])
  {
    StepKeepsInv(w, Create(p, b));
    RunKeepsInv(Apply(w, Create(p, b)), run, w');
    LaterVersionsStayConsistent(a, b, w'.tables.batches[b.id]);
  }

  /** A stored selection that validates against the prepared digest lists the prepared evidence,
      unless the digest collides. */
  lemma ValidationBindsEvidence(a: Authority, b: Batch, stored: Batch)
    requires Consistent(a, b) && Consistent(a, stored) && stored.selectionDigest == b.selectionDigest
    requires forall i | 0 <= i < |b.items| :: Encodable(b.items[i].entry)
    requires forall i | 0 <= i < |stored.items| :: Encodable(stored.items[i].entry)
    requires var x, y := SelectionPreimage(Entries(b.items)), SelectionPreimage(Entries(stored.items));
             a.selection(x) == a.selection(y) ==> x == y
    ensures SameList(SortById(Entries(b.items)), SortById(Entries(stored.items)))
  {
    SelectionBindsEvidence(Entries(b.items), Entries(stored.items));
  }

  // ---------------------------------------------------------------- files

  /** The whole evidence of one entry, as preflight checks it. */
  predicate Matches(d: Digests, file: File, e: DeletionEntry) {
    && file.identity == e.identity && |file.content| == e.size && file.links == 1
    && d.blake3(file.content) == e.blake3 && d.sha256(file.content) == e.sha256
  }

  /** Nothing appears and nothing changes; files may only disappear. */
  ghost predicate Shrunk(before: map<Path, File>, after: map<Path, File>) {
    forall p | p in after :: p in before && before[p] == after[p]
  }

  /** `item` is a durable intent to delete exactly this file. */
  predicate Intends(d: Digests, item: Item, p: Path, file: File) {
    item.entry.path == p && !item.state.Planned? && Matches(d, file, item.entry)
  }

  /** Every file that disappeared is covered by an intent of the batch. */
  ghost predicate Covered(d: Digests, before: map<Path, File>, after: map<Path, File>, items: seq<Item>) {
    forall p | p in before && p !in after :: exists k :: 0 <= k < |items| && Intends(d, items[k], p, before[p])
  }

  /** Cleared to be deleted, already deleted, or missing after a durable intent. */
  predicate ClearedItem(d: Digests, files: map<Path, File>, item: Item) {
    || item.state.Deleted?
    || (item.entry.path in files && Matches(d, files[item.entry.path], item.entry))
    || (item.entry.path !in files && !item.state.Planned?)
  }

  ghost predicate PreflightPassed(d: Digests, files: map<Path, File>, items: seq<Item>) {
    forall k | 0 <= k < |items| :: ClearedItem(d, files, items[k])
  }

  /** An item recorded as deleted by this call was either there, matched and is gone, or was already
      missing after an earlier intent. */
  predicate HonestItem(d: Digests, before: map<Path, File>, after: map<Path, File>, was: Item, now: Item) {
    now.state.Deleted? && !was.state.Deleted? ==>
      && was.entry.path !in after
      && (was.state.Planned? ==> was.entry.path in before && Matches(d, before[was.entry.path], was.entry))
  }

  ghost predicate Honest(d: Digests, before: map<Path, File>, after: map<Path, File>, was: seq<Item>, now: seq<Item>) {
    |was| == |now| && forall k | 0 <= k < |was| :: HonestItem(d, before, after, was[k], now[k])
  }

  /** What preflight may do to one item. */
  predicate ItemOutcome(files: map<Path, File>, was: Item, now: Item) {
    || now == was
    || (now == was.(state := Deleted) && (was.state.Deleting? || was.state.Failed?) && was.entry.path !in files)
  }

  /** The snapshot to delete against, taken of a file that matched; none when nothing is left. */
  predicate SnapshotTaken(d: Digests, files: map<Path, File>, item: Item, s: Option<Snapshot>) {
    if item.state.Deleted? then s.None?
    else
      && item.entry.path in files && Matches(d, files[item.entry.path], item.entry)
      && s == Some(SnapshotOf(d, files[item.entry.path]))
  }

  ghost predicate SnapshotsTaken(d: Digests, files: map<Path, File>, items: seq<Item>, snapshots: seq<Option<Snapshot>>) {
    |snapshots| == |items| && forall k | 0 <= k < |items| :: SnapshotTaken(d, files, items[k], snapshots[k])
  }

  /** The item still has a file to delete. */
  predicate IsLive(files: map<Path, File>, item: Item) {
    !item.state.Deleted? && item.entry.path in files
  }

  /** No file is to be deleted twice. */
  predicate DistinctPaths(files: map<Path, File>, items: seq<Item>) {
    forall i, j | 0 <= i < j < |items| && IsLive(files, items[i]) && IsLive(files, items[j]) ::
      items[i].entry.path != items[j].entry.path
  }

  /** From `before`, exactly the files of the first `n` items are gone. */
  ghost predicate Emptied(before: map<Path, File>, items: seq<Item>, n: nat, after: map<Path, File>)
    requires n <= |items|
  {
    forall p | p in before :: p !in after <==> exists k :: 0 <= k < n && IsLive(before, items[k]) && items[k].entry.path == p
  }

  lemma EmptiedSkip(before: map<Path, File>, items: seq<Item>, n: nat, after: map<Path, File>)
    requires n < |items| && items[n].state.Deleted?
    requires Emptied(before, items, n, after) && DistinctPaths(before, items[..n])
    ensures Emptied(before, items, n + 1, after) && DistinctPaths(before, items[..n + 1])
  {
    assert !IsLive(before, items[n]);
  }

  /** Removing the next item's file, which is there exactly if no earlier item shared it. */
  lemma EmptiedOn(before: map<Path, File>, items: seq<Item>, n: nat, now: map<Path, File>)
    requires n < |items| && IsLive(before, items[n])
    requires Emptied(before, items, n, now) && DistinctPaths(before, items[..n])
    ensures items[n].entry.path in now ==>
              && DistinctPaths(before, items[..n + 1])
              && Emptied(before, items, n + 1, now - {items[n].entry.path})
    ensures items[n].entry.path !in now ==> !DistinctPaths(before, items)
  {
    var path := items[n].entry.path;
    if path in now {
      forall p | p in before
        ensures p !in now - {path} <==> exists k :: 0 <= k < n + 1 && IsLive(before, items[k]) && items[k].entry.path == p
      {
        assert p !in now <==> exists k :: 0 <= k < n && IsLive(before, items[k]) && items[k].entry.path == p;
        assert IsLive(before, items[n]);
      }
    }
  }

  /** Its rows let the batch execute, all its items are cleared, and no two of them share a file. */
  ghost predicate Deletable(d: Digests, files: map<Path, File>, t: Tables, b: Batch) {
    Startable(t, b) && PreflightPassed(d, files, b.items) && DistinctPaths(files, b.items)
  }

  /** Only the batch `id` and rows reserved by it may differ; no row changes its project or label. */
  ghost predicate OnlyBatch(t: Tables, t': Tables, id: Id) {
    && t'.batches.Keys == t.batches.Keys && (forall k | k in t.batches && k != id :: t'.batches[k] == t.batches[k])
    && t'.entries.Keys == t.entries.Keys
    && forall e | e in t.entries ::
         && t'.entries[e].project == t.entries[e].project && t'.entries[e].verified == t.entries[e].verified
         && (t'.entries[e] == t.entries[e] || t'.entries[e].owner == Some(id))
  }

  // ---------------------------------------------------------------- the machine

  datatype Event = BatchEvent(batch: Id, toBatch: BatchState) | ItemEvent(batch: Id, entry: Id, toItem: ItemState)

  datatype Found = Present(snapshot: Snapshot) | Missing | Unreadable

  datatype Outcome = Outcome(entries: nat, bytes: nat)

  /** The batch a command works on. */
  class LoadedBatch {
    var batch: Batch

    constructor (b: Batch)
      ensures batch == b
    {
      batch := b;
    }
  }

  /** On a sound machine nothing fails; `cancelled` tells that the command was cancelled before it began
      (a command may also be cancelled later). On a reliable machine nothing fails, nobody cancels and the
      power stays on; any other machine may fail at every step. */
  class Machine {
    const digests: Digests
    const authority: Authority
    const sound: bool
    const cancelled: bool
    const reliable: bool := sound && !cancelled
    var files: map<Path, File>
    var manifest: seq<Event>
    var tables: Tables
    var alive: bool

    /** `c` is what the database holds, and the database is in order. */
    ghost predicate Synced(c: LoadedBatch)
      reads this, c
    {
      TablesInv(tables) && c.batch.id in tables.batches && tables.batches[c.batch.id] == c.batch
    }

    /** The machine after the next start: same disk, power on, reliable or not. */
    constructor After(crashed: Machine, reliable: bool)
      ensures digests == crashed.digests && authority == crashed.authority && this.reliable == reliable && alive
      ensures files == crashed.files && manifest == crashed.manifest && tables == crashed.tables
    {
      digests, authority, alive := crashed.digests, crashed.authority, true;
      sound, cancelled := reliable, false;
      files, manifest, tables := crashed.files, crashed.manifest, crashed.tables;
    }

    method Restart()
      modifies this`alive
      ensures alive
    {
      alive := true;
    }

    /** Whether one fallible step succeeds. */
    method MaySucceed() returns (ok: bool)
      ensures reliable ==> ok
    {
      ok := *;
      ok := ok || reliable;
    }

    method Checkpoint() returns (ok: bool)
      ensures reliable ==> ok
      ensures cancelled ==> !ok
    {
      ok := MaySucceed();
      ok := ok && !cancelled;
    }

    /** Append one line and flush it. A failure may leave the line in the file. */
    method AppendManifest(e: Event) returns (ok: bool)
      modifies this`manifest, this`alive
      ensures manifest == old(manifest) || manifest == old(manifest) + [e]
      ensures ok ==> old(alive) && alive && manifest == old(manifest) + [e]
      ensures !old(alive) ==> !alive
      ensures reliable && old(alive) ==> ok
    {
      ok := false;
      var survives := MaySucceed();
      alive := alive && survives;
      if !alive {
        return;
      }
      manifest := manifest + [e];
      ok := MaySucceed();
      if !ok {
        alive := *;
      }
    }

    method JournalBatch(c: LoadedBatch, next: BatchState) returns (ok: bool)
      requires Synced(c)
      modifies this`manifest, this`tables, this`alive, c
      ensures Synced(c)
      ensures ok || c.batch != old(c.batch) ==>
                && old(alive) && TransitionBatch(old(tables), old(c.batch), next) == Some(tables)
                && c.batch == old(c.batch).(state := next)
                && |manifest| > 0 && manifest[|manifest| - 1] == BatchEvent(c.batch.id, next)
      ensures c.batch == old(c.batch) ==> tables == old(tables)
      ensures OnlyBatch(old(tables), tables, c.batch.id)
      ensures ok ==> alive
      ensures !ok && alive ==> c.batch == old(c.batch)
      ensures !old(alive) ==> !alive
      ensures reliable && old(alive) && TransitionBatch(old(tables), old(c.batch), next).Some? ==> ok
    {
      ok := AppendManifest(BatchEvent(c.batch.id, next));
      if !ok {
        return;
      }
      var committed := TransitionBatch(tables, c.batch, next);
      ok := MaySucceed();
      if !ok || committed.None? {
        ok := false;
        alive := MaySucceed();
        return;
      }
      MoveBatchKeepsTables(tables, c.batch, next);
      MoveBatchTouches(tables, c.batch, next);
      tables := committed.value;
      c.batch := c.batch.(state := next);
      alive := MaySucceed();
      ok := alive;
    }

    method JournalItem(c: LoadedBatch, i: nat, next: ItemState) returns (ok: bool)
      requires Synced(c) && i < |c.batch.items|
      modifies this`manifest, this`tables, this`alive, c
      ensures Synced(c)
      ensures ok || c.batch != old(c.batch) ==>
                && old(alive) && TransitionItem(old(tables), old(c.batch), i, next) == Some(tables)
                && c.batch == WithItem(old(c.batch), i, next)
                && |manifest| > 0 && manifest[|manifest| - 1] == ItemEvent(c.batch.id, c.batch.items[i].entry.id, next)
      ensures c.batch == old(c.batch) ==> tables == old(tables)
      ensures OnlyBatch(old(tables), tables, c.batch.id)
      ensures ok ==> alive
      ensures !ok && alive ==> c.batch == old(c.batch)
      ensures !old(alive) ==> !alive
      ensures reliable && old(alive) && TransitionItem(old(tables), old(c.batch), i, next).Some? ==> ok
    {
      hide TablesInv, TransitionItem, OnlyBatch, WithItem;
      SameTables(tables, c.batch.id);
      MoveItemTouches(tables, c.batch, i, next);
      ok := AppendManifest(ItemEvent(c.batch.id, c.batch.items[i].entry.id, next));
      if !ok {
        return;
      }
      var committed := TransitionItem(tables, c.batch, i, next);
      ok := MaySucceed();
      if !ok || committed.None? {
        ok := false;
        alive := MaySucceed();
        return;
      }
      MoveItemKeepsTables(tables, c.batch, i, next);
      tables := committed.value;
      c.batch := WithItem(c.batch, i, next);
      alive := MaySucceed();
      ok := alive;
    }

    method SnapshotPath(path: Path) returns (r: Found)
      ensures r.Present? ==> alive && path in files && r.snapshot == SnapshotOf(digests, files[path])
      ensures r.Missing? ==> alive && path !in files
      ensures reliable && alive ==> !r.Unreadable?
    {
      var readable := MaySucceed();
      if !alive || !readable {
        r := Unreadable;
      } else if path in files {
        r := Present(SnapshotOf(digests, files[path]));
      } else {
        r := Missing;
      }
    }

    /** A stable full pass; None stands for an I/O error, a cancellation or an unstable read. */
    method HashPath(path: Path, hash: Bytes -> Bytes) returns (r: Option<Bytes>)
      ensures r.Some? ==> alive && path in files && r.value == hash(files[path].content)
      ensures reliable && alive && path in files ==> r.Some?
    {
      var readable := MaySucceed();
      r := if alive && readable && path in files then Some(hash(files[path].content)) else None;
    }

    method VerifyEntry(e: DeletionEntry, s: Snapshot) returns (ok: bool)
      requires e.path in files && s == SnapshotOf(digests, files[e.path])
      ensures ok ==> alive && Matches(digests, files[e.path], e)
      ensures reliable && alive && Matches(digests, files[e.path], e) ==> ok
    {
      if s.identity != e.identity || s.size != e.size || s.links != 1 {
        return false;
      }
      var blake3 := HashPath(e.path, digests.blake3);
      if blake3.None? {
        return false;
      }
      var sha256 := HashPath(e.path, digests.sha256);
      ok := sha256.Some? && blake3.value == e.blake3 && sha256.value == e.sha256;
    }

    /** Delete the opened file if its identity, size and token still are the expected ones; its link
        count may have changed. The deleter may fail after the file is gone. Only a durable intent may
        lead here. */
    method DeleteExact(c: LoadedBatch, i: nat, expected: Snapshot) returns (ok: bool)
      requires Synced(c) && i < |c.batch.items| && c.batch.items[i].state.Deleting?
      modifies this`files, this`alive
      ensures var path := c.batch.items[i].entry.path;
              files == old(files)
              || (path in old(files) && SameMetadata(SnapshotOf(digests, old(files)[path]), expected)
                  && files == old(files) - {path})
      ensures ok ==> alive && files != old(files)
      ensures !old(alive) ==> !alive
      ensures var path := c.batch.items[i].entry.path;
              reliable && old(alive) ==>
                alive && (ok <==> path in old(files) && SameMetadata(SnapshotOf(digests, old(files)[path]), expected))
    {
      var path := c.batch.items[i].entry.path;
      ok := MaySucceed();
      var current := SnapshotPath(path);
      if !ok || !current.Present? || current.snapshot.identity != expected.identity
         || current.snapshot.size != expected.size || current.snapshot.token != expected.token
      {
        return false;
      }
      alive := MaySucceed();
      if !alive {
        return false;
      }
      assert path in files;
      files := files - {path};
      alive := MaySucceed();
      var reported := MaySucceed();
      ok := alive && reported;
    }

    // -------------------------------------------------------------- preflight

    method FailPreflight(c: LoadedBatch)
      requires Synced(c) && c.batch.state.Executing?
      modifies this`manifest, this`tables, this`alive, c
      ensures Synced(c) && OnlyBatch(old(tables), tables, c.batch.id) && c.batch.id == old(c.batch.id)
      ensures c.batch == old(c.batch) || c.batch == old(c.batch).(state := BatchState.RecoveryRequired)
      ensures reliable && old(alive) ==> alive && c.batch.state.RecoveryRequired?
    {
      var ok := JournalBatch(c, BatchState.RecoveryRequired);
    }

    /** Check one item. None means the call stops here; otherwise the snapshot to delete against,
        which is absent exactly when there is nothing left to delete. */
    method PreflightItem(c: LoadedBatch, i: nat) returns (r: Option<Option<Snapshot>>)
      requires Synced(c) && c.batch.state.Executing? && i < |c.batch.items|
      modifies this`manifest, this`tables, this`alive, c
      ensures Synced(c) && OnlyBatch(old(tables), tables, c.batch.id)
      ensures c.batch.state.Executing? || (r.None? && c.batch.state.RecoveryRequired?)
      ensures |c.batch.items| == |old(c.batch).items|
      ensures c.batch == old(c.batch).(state := c.batch.state, items := old(c.batch).items[i := c.batch.items[i]])
      ensures ItemOutcome(files, old(c.batch).items[i], c.batch.items[i])
      ensures cancelled ==> r.None? && c.batch == old(c.batch)
      ensures r.Some? ==> ClearedItem(digests, files, old(c.batch).items[i])
                          && SnapshotTaken(digests, files, c.batch.items[i], r.value)
      ensures reliable && old(alive) ==>
                alive && if ClearedItem(digests, files, old(c.batch).items[i]) then r.Some? else c.batch.state.RecoveryRequired?
    {
      r := None;
      var proceed := Checkpoint();
      if !proceed {
        return;
      }
      var item := c.batch.items[i];
      if item.state.Deleted? {
        return Some(None);
      }
      var found := SnapshotPath(item.entry.path);
      if found.Present? {
        var ok := VerifyEntry(item.entry, found.snapshot);
        if ok {
          return Some(Some(found.snapshot));
        }
        FailPreflight(c);
      } else if found.Missing? && !item.state.Planned? {
        ItemCanMove(tables, c.batch, i, Deleted);
        var ok := JournalItem(c, i, Deleted);
        if ok {
          return Some(None);
        }
      } else {
        FailPreflight(c);
      }
    }

    /** All items are checked before any is deleted. */
    method Preflight(c: LoadedBatch) returns (r: Option<seq<Option<Snapshot>>>)
      requires Synced(c) && c.batch.state.Executing?
      modifies this`manifest, this`tables, this`alive, c
      ensures Synced(c) && OnlyBatch(old(tables), tables, c.batch.id)
      ensures |c.batch.items| == |old(c.batch).items|
      ensures c.batch == old(c.batch).(state := c.batch.state, items := c.batch.items)
      ensures c.batch.state.Executing? || (r.None? && c.batch.state.RecoveryRequired?)
      ensures forall k | 0 <= k < |c.batch.items| :: ItemOutcome(files, old(c.batch).items[k], c.batch.items[k])
      ensures cancelled ==> c.batch == old(c.batch) && (r.Some? ==> c.batch.items == [])
      ensures r.Some? ==> PreflightPassed(digests, files, old(c.batch).items)
                          && SnapshotsTaken(digests, files, c.batch.items, r.value)
      ensures reliable && old(alive) ==>
                alive && if PreflightPassed(digests, files, old(c.batch).items) then r.Some? else c.batch.state.RecoveryRequired?
    {
      hide TablesInv, Matches, ClearedItem, SnapshotTaken;
      ghost var was := c.batch;
      var snapshots: seq<Option<Snapshot>> := [];
      for i := 0 to |c.batch.items|
        invariant Synced(c) && OnlyBatch(old(tables), tables, c.batch.id)
        invariant |c.batch.items| == |was.items| && |snapshots| == i
        invariant c.batch == was.(items := c.batch.items) && c.batch.items[i..] == was.items[i..]
        invariant cancelled ==> i == 0
        invariant forall k | 0 <= k < i :: ItemOutcome(files, was.items[k], c.batch.items[k])
        invariant forall k | 0 <= k < i :: ClearedItem(digests, files, was.items[k])
        invariant forall k | 0 <= k < i :: SnapshotTaken(digests, files, c.batch.items[k], snapshots[k])
        invariant reliable && old(alive) ==> alive
      {
        assert c.batch.items[i] == was.items[i] by {
          assert c.batch.items[i..][0] == was.items[i..][0];
        }
        ghost var tail := c.batch.items[i + 1..];
        assert tail == c.batch.items[i..][1..] == was.items[i + 1..];
        var one := PreflightItem(c, i);
        assert c.batch.items[i + 1..] == tail;
        if one.None? {
          assert i == 0 ==> cancelled ==> c.batch.items == was.items;
          forall k | i < k < |was.items| ensures c.batch.items[k] == was.items[k] {
            assert c.batch.items[k] == tail[k - i - 1] == was.items[k];
          }
          return None;
        }
        snapshots := snapshots + [one.value];
      }
      r := Some(snapshots);
    }

    // -------------------------------------------------------------- deletion

    method FailDeletion(c: LoadedBatch, i: nat)
      requires Synced(c) && c.batch.state.Executing? && i < |c.batch.items| && c.batch.items[i].state.Deleting?
      modifies this`manifest, this`tables, this`alive, c
      ensures Synced(c) && OnlyBatch(old(tables), tables, c.batch.id)
      ensures c.batch.(state := Executing) in {old(c.batch), WithItem(old(c.batch), i, Failed)}
      ensures c.batch.state.Executing? || c.batch.state.RecoveryRequired?
      ensures reliable && old(alive) ==> alive && c.batch.state.RecoveryRequired? && c.batch.items[i].state.Failed?
    {
      hide TablesInv, TransitionItem, TransitionBatch;
      ItemCanMove(tables, c.batch, i, Failed);
      var ok := JournalItem(c, i, Failed);
      if ok {
        CanStop(tables, c.batch);
        ok := JournalBatch(c, BatchState.RecoveryRequired);
      }
    }

    /** Delete the file of one item: durable intent, delete, durable result. */
    method DeleteItem(c: LoadedBatch, i: nat, snapshot: Option<Snapshot>) returns (ok: bool)
      requires Synced(c) && c.batch.state.Executing? && i < |c.batch.items| && !c.batch.items[i].state.Deleted?
      modifies this`files, this`manifest, this`tables, this`alive, c
      ensures Synced(c) && OnlyBatch(old(tables), tables, c.batch.id)
      ensures c.batch.state.Executing? || (!ok && c.batch.state.RecoveryRequired?)
      ensures |c.batch.items| == |old(c.batch).items|
      ensures c.batch == old(c.batch).(state := c.batch.state, items := old(c.batch).items[i := c.batch.items[i]])
      ensures SameItem(old(c.batch).items[i], c.batch.items[i])
      ensures var now := c.batch.items[i];
              if files == old(files) then !now.state.Deleted?
              else
                && !now.state.Planned? && now.entry.path in old(files) && files == old(files) - {now.entry.path}
                && snapshot.Some? && SameMetadata(SnapshotOf(digests, old(files)[now.entry.path]), snapshot.value)
      ensures ok ==> c.batch.items[i].state.Deleted?
      ensures cancelled ==> !ok && files == old(files) && c.batch == old(c.batch)
      ensures var path := old(c.batch).items[i].entry.path;
              reliable && old(alive) && snapshot.Some? ==>
                if path in old(files) && SameMetadata(SnapshotOf(digests, old(files)[path]), snapshot.value) then ok && alive
                else c.batch.state.RecoveryRequired? && c.batch.items[i].state.Failed?
    {
      hide TablesInv, TransitionItem, TransitionBatch, OnlyBatch;
      ghost var t0 := tables;
      SameTables(tables, c.batch.id);
      ok := Checkpoint();
      if !ok {
        return;
      }
      if !c.batch.items[i].state.Deleting? {
        ItemCanMove(tables, c.batch, i, Deleting);
        ok := JournalItem(c, i, Deleting);
        if !ok {
          return;
        }
      }
      ghost var t1 := tables;
      if snapshot.None? {
        return false;
      }
      ok := DeleteExact(c, i, snapshot.value);
      if !ok {
        FailDeletion(c, i);
        OnlyBatchOn(t0, t1, tables, c.batch.id);
        return;
      }
      ItemCanMove(tables, c.batch, i, Deleted);
      ok := JournalItem(c, i, Deleted);
      OnlyBatchOn(t0, t1, tables, c.batch.id);
    }

    /** Delete one item after the other against the preflight's snapshots. */
    method DeleteAll(c: LoadedBatch, snapshots: seq<Option<Snapshot>>) returns (ok: bool)
      requires Synced(c) && c.batch.state.Executing? && SnapshotsTaken(digests, files, c.batch.items, snapshots)
      modifies this`files, this`manifest, this`tables, this`alive, c
      ensures Synced(c) && OnlyBatch(old(tables), tables, c.batch.id)
      ensures c.batch.state.Executing? || (!ok && c.batch.state.RecoveryRequired?)
      ensures |c.batch.items| == |old(c.batch).items|
      ensures c.batch == old(c.batch).(state := c.batch.state, items := c.batch.items)
      ensures forall k | 0 <= k < |c.batch.items| :: SameItem(old(c.batch).items[k], c.batch.items[k])
      ensures Shrunk(old(files), files) && Covered(digests, old(files), files, c.batch.items)
      ensures Honest(digests, old(files), files, old(c.batch).items, c.batch.items)
      ensures ok ==> forall k | 0 <= k < |c.batch.items| :: c.batch.items[k].state.Deleted?
      ensures old(c.batch).items == [] ==> files == old(files)
      ensures ok ==> DistinctPaths(old(files), old(c.batch).items)
                     && Emptied(old(files), old(c.batch).items, |old(c.batch).items|, files)
      ensures reliable && old(alive) ==>
                if DistinctPaths(old(files), old(c.batch).items) then ok && alive else c.batch.state.RecoveryRequired?
    {
      hide TablesInv, Matches, Covered, Honest, DistinctPaths, Emptied, OnlyBatch, SnapshotTaken, IsLive,
           Shrunk;
      ghost var was := c.batch;
      NothingEmptied(files, was.items);
      SameTables(tables, c.batch.id);
      NothingDeleted(digests, files, was.items);
      for i := 0 to |c.batch.items|
        invariant Synced(c) && OnlyBatch(old(tables), tables, c.batch.id) && c.batch.state.Executing?
        invariant |c.batch.items| == |was.items| == |snapshots|
        invariant c.batch == was.(items := c.batch.items)
        invariant forall k | i <= k < |was.items| :: c.batch.items[k] == was.items[k]
        invariant forall k | 0 <= k < i :: SameItem(was.items[k], c.batch.items[k])
        invariant forall k | 0 <= k < i :: c.batch.items[k].state.Deleted?
        invariant Shrunk(old(files), files) && Covered(digests, old(files), files, c.batch.items)
        invariant Honest(digests, old(files), files, was.items, c.batch.items)
        invariant DistinctPaths(old(files), was.items[..i]) && Emptied(old(files), was.items, i, files)
        invariant i == 0 ==> files == old(files)
        invariant reliable && old(alive) ==> alive
      {
        if c.batch.items[i].state.Deleted? {
          EmptiedSkip(old(files), was.items, i, files);
          continue;
        }
        ghost var before, items, t := files, c.batch.items, tables;
        assert SnapshotTaken(digests, old(files), was.items[i], snapshots[i]);
        TakenIsLive(digests, old(files), was.items[i], snapshots[i]);
        ShrunkAt(old(files), files, was.items[i].entry.path);
        EmptiedOn(old(files), was.items, i, files);
        ok := DeleteItem(c, i, snapshots[i]);
        OnlyBatchOn(old(tables), t, tables, c.batch.id);
        OneMoreDeleted(digests, old(files), before, files, was.items, items, c.batch.items, i);
        if !ok {
          return;
        }
      }
      assert was.items[..|was.items|] == was.items;
      ok := true;
    }

    /** Start or resume a batch: reserve, preflight everything, delete everything, complete. */
    method Proceed(c: LoadedBatch) returns (ok: bool)
      requires Synced(c) && (c.batch.state.Prepared? || c.batch.state.Executing? || c.batch.state.RecoveryRequired?)
      modifies this`files, this`manifest, this`tables, this`alive, c
      ensures Synced(c) && OnlyBatch(old(tables), tables, c.batch.id) && SameBatch(old(c.batch), c.batch)
      ensures c.batch.state.Started() || c.batch == old(c.batch)
      ensures Shrunk(old(files), files) && Covered(digests, old(files), files, c.batch.items)
      ensures Honest(digests, old(files), files, old(c.batch).items, c.batch.items)
      ensures files != old(files) ==> PreflightPassed(digests, old(files), old(c.batch).items)
      ensures ok ==> c.batch.state.Completed? && forall k | 0 <= k < |c.batch.items| :: c.batch.items[k].state.Deleted?
      ensures ok ==> Deletable(digests, old(files), old(tables), old(c.batch))
                     && Emptied(old(files), old(c.batch).items, |old(c.batch).items|, files)
      ensures !Startable(old(tables), old(c.batch)) ==> files == old(files) && tables == old(tables)
      ensures cancelled ==> files == old(files) && c.batch.items == old(c.batch).items
      ensures reliable && old(alive) ==>
                && (ok <==> Deletable(digests, old(files), old(tables), old(c.batch)))
                && (!ok && Startable(old(tables), old(c.batch)) ==> c.batch.state.RecoveryRequired?)
                && (!PreflightPassed(digests, old(files), old(c.batch).items) ==> files == old(files))
    {
      hide TablesInv, Matches, TransitionBatch, ClearedItem, SnapshotTaken, Startable, DistinctPaths, PreflightPassed,
           Emptied, OnlyBatch;
      ghost var was, t0 := c.batch, tables;
      SameTables(tables, c.batch.id);
      StartsIff(tables, c.batch.id);
      if !c.batch.state.Executing? {
        ok := JournalBatch(c, Executing);
        if !ok {
          return;
        }
      }
      ghost var t1 := tables;
      var snapshots := Preflight(c);
      ghost var checked, t2 := c.batch.items, tables;
      OnlyBatchOn(t0, t1, t2, c.batch.id);
      if snapshots.None? {
        return false;
      }
      SameLiveItems(files, was.items, checked);
      ok := DeleteAll(c, snapshots.value);
      ghost var t3 := tables;
      OnlyBatchOn(t0, t2, t3, c.batch.id);
      PreflightThenDelete(digests, old(files), files, was.items, checked, c.batch.items);
      if ok {
        CanComplete(tables, c.batch);
        ok := JournalBatch(c, Completed);
        OnlyBatchOn(t0, t3, tables, c.batch.id);
      }
    }

    /** The first step: store a challenge for a selection, all of it or nothing. */
    method Prepare(id: Id, rawToken: string, entries: seq<DeletionEntry>, now: int, ttl: int, mode: Mode)
      returns (ok: bool)
      requires TablesInv(tables)
      modifies this`manifest, this`tables, this`alive
      ensures TablesInv(tables) && Progresses(old(tables).batches, tables.batches)
      ensures tables != old(tables) || ok ==>
                && ttl > 0 && Preparable(SortById(entries), now, mode)
                && id !in old(tables).batches && tables.entries == old(tables).entries
                && id in tables.batches && tables.batches == old(tables).batches[id := tables.batches[id]]
                && tables.batches[id].state.Prepared? && tables.batches[id].mode == mode
                && (forall k | 0 <= k < |tables.batches[id].items| :: tables.batches[id].items[k].state.Planned?)
                && Entries(tables.batches[id].items) == SortById(entries)
                && Authorised(tables.batches[id], rawToken, tables.batches[id].phrase)
                && tables.batches[id].expiresAt == now + ttl
      ensures ok ==> alive && tables != old(tables)
      ensures manifest == old(manifest) || manifest == old(manifest) + [BatchEvent(id, Prepared)]
      ensures tables != old(tables) ==> manifest != old(manifest)
      ensures reliable && old(alive) ==>
                (ok <==> ttl > 0 && Preparable(SortById(entries), now, mode) && id !in old(tables).batches
                         && TotalBytes(SortById(entries)) <= I64_MAX && |entries| <= I64_MAX)
    {
      hide SortById, SelectionPreimage, TotalBytes, Preparable, Consistent;
      var batch := PrepareBatch(authority, id, rawToken, entries, now, ttl, mode);
      if batch.None? {
        return false;
      }
      ok := AppendManifest(BatchEvent(id, Prepared));
      var committed := CreateBatch(tables, batch.value);
      FitsIff(authority, batch.value);
      var commits := MaySucceed();
      if !ok || !commits || committed.None? {
        ok, alive := false, *;
        return;
      }
      CreateKeepsTables(tables, batch.value);
      CreateProgresses(tables, batch.value);
      tables := committed.value;
      alive := MaySucceed();
      ok := alive;
    }

    predicate Authorised(b: Batch, token: string, confirmation: string) {
      Consistent(authority, b) && authority.token(token) == b.tokenDigest && confirmation == b.phrase
    }

    /** One execute call, first or repeated, cut short anywhere. */
    method Execute(id: Id, token: string, confirmation: string, now: int) returns (r: Option<Outcome>)
      requires TablesInv(tables)
      modifies this
      ensures TablesInv(tables) && OnlyBatch(old(tables), tables, id) && Shrunk(old(files), files)
      ensures id !in old(tables).batches ==> r.None? && files == old(files) && tables == old(tables)
      ensures id in old(tables).batches ==>
                var was, now := old(tables).batches[id], tables.batches[id];
                && SameBatch(was, now) && (now.state == was.state || now.state.Started() || now.state.Expired?)
                && Covered(digests, old(files), files, now.items)
                && Honest(digests, old(files), files, was.items, now.items)
                && (files != old(files) ==> PreflightPassed(digests, old(files), was.items))
      ensures id in old(tables).batches && (files != old(files) || tables != old(tables) || r.Some?) ==>
                Authorised(old(tables).batches[id], token, confirmation)
      ensures id in old(tables).batches && (files != old(files) || old(tables).batches[id].items != tables.batches[id].items) ==>
                var was := old(tables).batches[id];
                (was.state.Prepared? && now <= was.expiresAt) || was.state.Executing? || was.state.RecoveryRequired?
      ensures id in old(tables).batches && tables.batches[id].state.Expired? ==>
                var was := old(tables).batches[id];
                was.state.Expired? || (was.state.Prepared? && now > was.expiresAt)
      ensures r.Some? ==>
                && id in tables.batches && tables.batches[id].state.Completed?
                && (forall k | 0 <= k < |tables.batches[id].items| :: tables.batches[id].items[k].state.Deleted?)
                && r.value == Outcome(tables.batches[id].entryCount, tables.batches[id].totalBytes)
      ensures r.Some? && !old(tables).batches[id].state.Completed? ==>
                var was := old(tables).batches[id];
                && Deletable(digests, old(files), old(tables), was) && Emptied(old(files), was.items, |was.items|, files)
                && (was.state.Prepared? ==> now <= was.expiresAt)
      ensures cancelled && id in old(tables).batches ==>
                files == old(files) && tables.batches[id].items == old(tables).batches[id].items
      ensures r.Some? && old(tables).batches[id].state.Completed? ==> files == old(files) && tables == old(tables)
      ensures reliable && old(alive) && id in old(tables).batches && Authorised(old(tables).batches[id], token, confirmation) ==>
                var was := old(tables).batches[id];
                var current := was.state.Prepared? ==> now <= was.expiresAt;
                && (r.Some? <==> was.state.Completed? || (current && Deletable(digests, old(files), old(tables), was)))
                && (!current ==> tables.batches[id].state.Expired?)
                && (current && r.None? ==>
                      if Startable(old(tables), was) then tables.batches[id].state.RecoveryRequired?
                      else files == old(files) && tables == old(tables))
                && (!PreflightPassed(digests, old(files), was.items) ==> files == old(files))
    {
      hide TablesInv, Consistent, TransitionBatch, ClearedItem;
      r := None;
      var loaded := MaySucceed();
      if !alive || !loaded || id !in tables.batches {
        return;
      }
      KeysAreIds(tables, id);
      var c := new LoadedBatch(tables.batches[id]);
      ghost var was := c.batch;
      var consistent := ValidateLoaded(authority, c.batch);
      if !consistent || authority.token(token) != c.batch.tokenDigest || confirmation != c.batch.phrase {
        return;
      }
      if c.batch.state.Completed? {
        CompletedIsDeleted(tables, id);
        r := Summarise(authority, c.batch);
        return;
      }
      if c.batch.state.Expired? {
        return;
      }
      if c.batch.state.Prepared? && now > c.batch.expiresAt {
        CanStop(tables, c.batch);
        var expired := JournalBatch(c, Expired);
        return;
      }
      var ok := Proceed(c);
      if ok {
        LaterVersionsStayConsistent(authority, was, c.batch);
        r := Summarise(authority, c.batch);
      }
    }
  }

  /** A batch transition changes no row but those it reserves, and of these only the reservation. */
  lemma MoveBatchTouches(t: Tables, c: Batch, next: BatchState)
    requires TablesInv(t) && c.id in t.batches && t.batches[c.id] == c && TransitionBatch(t, c, next).Some?
    ensures OnlyBatch(t, TransitionBatch(t, c, next).value, c.id)
  {
    assert BatchInv(c.id, c, t.entries);
    if next.Executing? {
      ReserveEffect(t.entries, c, |c.items|);
    }
  }

  lemma MoveItemTouches(t: Tables, c: Batch, i: nat, next: ItemState)
    requires c.id in t.batches && t.batches[c.id] == c && i < |c.items|
    ensures WithItem(c, i, next).id == c.id && |WithItem(c, i, next).items| == |c.items|
    ensures WithItem(c, i, next).items[i].entry == c.items[i].entry
    ensures TransitionItem(t, c, i, next).Some? ==>
              && WithItem(c, i, next) != c
              && TransitionItem(t, c, i, next).value.batches == t.batches[c.id := WithItem(c, i, next)]
              && OnlyBatch(t, TransitionItem(t, c, i, next).value, c.id)
  {
  }

  /** In a started batch that is in order, every legal item transition commits. */
  lemma ItemCanMove(t: Tables, c: Batch, i: nat, next: ItemState)
    requires TablesInv(t) && c.id in t.batches && t.batches[c.id] == c && c.state.Started()
    requires i < |c.items| && c.items[i].state.CanTransitionTo(next)
    ensures TransitionItem(t, c, i, next).Some?
  {
    assert BatchInv(c.id, c, t.entries);
    assert ReservedBy(t.entries, c.items[i], c.id);
  }

  lemma CanStop(t: Tables, c: Batch)
    requires c.id in t.batches && t.batches[c.id] == c
    ensures c.state.Executing? ==> TransitionBatch(t, c, BatchState.RecoveryRequired).Some?
    ensures c.state.Prepared? ==> TransitionBatch(t, c, Expired).Some?
  {
  }

  lemma CanComplete(t: Tables, c: Batch)
    requires c.id in t.batches && t.batches[c.id] == c && c.state.Executing?
    requires forall k | 0 <= k < |c.items| :: c.items[k].state.Deleted?
    ensures TransitionBatch(t, c, Completed).Some?
  {
  }

  lemma KeysAreIds(t: Tables, id: Id)
    requires TablesInv(t) && id in t.batches
    ensures t.batches[id].id == id
  {
    assert BatchInv(id, t.batches[id], t.entries);
  }

  lemma CompletedIsDeleted(t: Tables, id: Id)
    requires TablesInv(t) && id in t.batches && t.batches[id].state.Completed?
    ensures forall k | 0 <= k < |t.batches[id].items| :: t.batches[id].items[k].state.Deleted?
  {
    assert BatchInv(id, t.batches[id], t.entries);
  }

  /** Preflight changes only items that have no file left. */
  lemma SameLiveItems(files: map<Path, File>, was: seq<Item>, checked: seq<Item>)
    requires |was| == |checked| && forall k | 0 <= k < |was| :: ItemOutcome(files, was[k], checked[k])
    ensures DistinctPaths(files, was) <==> DistinctPaths(files, checked)
    ensures forall after :: Emptied(files, was, |was|, after) <==> Emptied(files, checked, |was|, after)
  {
    assert forall k | 0 <= k < |was| ::
        ItemOutcome(files, was[k], checked[k]) && (IsLive(files, was[k]) <==> IsLive(files, checked[k]));
  }

  /** Preflight's changes and the deletions together account for every newly deleted item. */
  lemma PreflightThenDelete(d: Digests, before: map<Path, File>, after: map<Path, File>,
                            was: seq<Item>, checked: seq<Item>, now: seq<Item>)
    requires |was| == |checked| && (forall k | 0 <= k < |was| :: ItemOutcome(before, was[k], checked[k]))
    requires Shrunk(before, after) && Honest(d, before, after, checked, now)
    requires forall k | 0 <= k < |now| :: SameItem(checked[k], now[k])
    ensures Honest(d, before, after, was, now)
    ensures forall k | 0 <= k < |now| :: SameItem(was[k], now[k])
  {
    hide Matches;
    forall k | 0 <= k < |was| ensures HonestItem(d, before, after, was[k], now[k]) && SameItem(was[k], now[k]) {
      assert ItemOutcome(before, was[k], checked[k]) && SameItem(checked[k], now[k]);
      assert HonestItem(d, before, after, checked[k], now[k]);
    }
  }

  /** No single size exceeds the total, so the total decides whether a batch fits its columns. */
  lemma FitsIff(a: Authority, b: Batch)
    requires Consistent(a, b)
    ensures FitsSqlite(b) <==> TotalBytes(Entries(b.items)) <= I64_MAX && |b.items| <= I64_MAX
  {
    var entries := Entries(b.items);
    forall i | 0 <= i < |b.items| ensures b.items[i].entry.size <= TotalBytes(entries) {
      TotalBytesGrows(entries, i + 1);
      assert entries[..i + 1][..i] == entries[..i];
    }
  }

  // ---------------------------------------------------------------- outcome

  function DeletedBytes(items: seq<Item>): nat {
    if items == [] then 0
    else DeletedBytes(items[..|items| - 1]) + if items[|items| - 1].state.Deleted? then items[|items| - 1].entry.size else 0
  }

  function DeletedCount(items: seq<Item>): nat {
    if items == [] then 0
    else DeletedCount(items[..|items| - 1]) + if items[|items| - 1].state.Deleted? then 1 else 0
  }

  lemma {:induction false} AllDeletedSums(items: seq<Item>)
    requires forall i | 0 <= i < |items| :: items[i].state.Deleted?
    ensures DeletedCount(items) == |items| && DeletedBytes(items) == TotalBytes(Entries(items))
  {
    if items != [] {
      AllDeletedSums(items[..|items| - 1]);
      assert Entries(items)[..|items| - 1] == Entries(items[..|items| - 1]);
    }
  }

  /** Saturating sums over the deleted items; of a consistent batch that is fully deleted they are
      the promised count and bytes, without saturation. */
  method Summarise(a: Authority, b: Batch) returns (r: Option<Outcome>)
    ensures r == Some(Outcome(if DeletedCount(b.items) <= U64_MAX then DeletedCount(b.items) else U64_MAX,
                              if DeletedBytes(b.items) <= U64_MAX then DeletedBytes(b.items) else U64_MAX))
    ensures Consistent(a, b) && (forall i | 0 <= i < |b.items| :: b.items[i].state.Deleted?) ==>
              r == Some(Outcome(b.entryCount, b.totalBytes))
  {
    var count, bytes := 0, 0;
    for i := 0 to |b.items|
      invariant count == if DeletedCount(b.items[..i]) <= U64_MAX then DeletedCount(b.items[..i]) else U64_MAX
      invariant bytes == if DeletedBytes(b.items[..i]) <= U64_MAX then DeletedBytes(b.items[..i]) else U64_MAX
    {
      assert b.items[..i + 1][..i] == b.items[..i];
      if b.items[i].state.Deleted? {
        count := SaturatingAdd(count, 1);
        bytes := SaturatingAdd(bytes, b.items[i].entry.size);
      }
    }
    assert b.items[..|b.items|] == b.items;
    if forall i | 0 <= i < |b.items| :: b.items[i].state.Deleted? {
      AllDeletedSums(b.items);
    }
    r := Some(Outcome(count, bytes));
  }

  lemma TakenIsLive(d: Digests, files: map<Path, File>, item: Item, s: Option<Snapshot>)
    requires SnapshotTaken(d, files, item, s) && !item.state.Deleted?
    ensures IsLive(files, item) && item.entry.path in files && Matches(d, files[item.entry.path], item.entry)
    ensures s == Some(SnapshotOf(d, files[item.entry.path]))
  {
  }

  lemma ShrunkAt(before: map<Path, File>, after: map<Path, File>, p: Path)
    requires Shrunk(before, after)
    ensures p in after ==> p in before && after[p] == before[p]
  {
  }

  lemma NothingEmptied(files: map<Path, File>, items: seq<Item>)
    ensures Emptied(files, items, 0, files) && DistinctPaths(files, items[..0])
  {
  }

  lemma NothingLeft(files: map<Path, File>, items: seq<Item>)
    requires forall k | 0 <= k < |items| :: items[k].state.Deleted?
    ensures Emptied(files, items, |items|, files)
  {
  }

  lemma SameTables(t: Tables, id: Id)
    ensures OnlyBatch(t, t, id)
  {
  }

  lemma OnlyBatchOn(t: Tables, u: Tables, t': Tables, id: Id)
    requires OnlyBatch(t, u, id) && OnlyBatch(u, t', id)
    ensures OnlyBatch(t, t', id)
  {
  }

  lemma NothingDeleted(d: Digests, files: map<Path, File>, items: seq<Item>)
    ensures Shrunk(files, files) && Covered(d, files, files, items) && Honest(d, files, files, items, items)
  {
  }

  /** One item more or less deleted keeps the account of removed files. */
  lemma OneMoreDeleted(d: Digests, start: map<Path, File>, before: map<Path, File>, after: map<Path, File>,
                       was: seq<Item>, items: seq<Item>, items': seq<Item>, i: nat)
    requires |was| == |items| == |items'| && i < |was| && items[i] == was[i] && !was[i].state.Deleted?
    requires items' == items[i := items'[i]] && SameItem(items[i], items'[i])
    requires Shrunk(start, before) && Covered(d, start, before, items) && Honest(d, start, before, was, items)
    requires was[i].entry.path in start && Matches(d, start[was[i].entry.path], was[i].entry)
    requires if after == before then !items'[i].state.Deleted?
             else !items'[i].state.Planned? && after == before - {was[i].entry.path}
    ensures Shrunk(start, after) && Covered(d, start, after, items') && Honest(d, start, after, was, items')
  {
    hide Matches;
    forall p | p in start && p !in after ensures exists k :: 0 <= k < |items'| && Intends(d, items'[k], p, start[p]) {
      if p !in before {
        var k :| 0 <= k < |items| && Intends(d, items[k], p, start[p]);
        assert Intends(d, items'[k], p, start[p]);
      } else {
        assert Intends(d, items'[i], p, start[p]);
      }
    }
    forall k | 0 <= k < |was| ensures HonestItem(d, start, after, was[k], items'[k]) {
      assert HonestItem(d, start, before, was[k], items[k]);
    }
  }

  // ---------------------------------------------------------------- whole runs

  /** Somewhere in the database there is a durable intent to delete exactly this file. */
  ghost predicate Intended(d: Digests, t: Tables, p: Path, file: File) {
    exists id, k :: IntendedAt(d, t, p, file, id, k)
  }

  ghost predicate IntendedAt(d: Digests, t: Tables, p: Path, file: File, id: Id, k: nat) {
    id in t.batches && t.batches[id].state.Started() && k < |t.batches[id].items| && Intends(d, t.batches[id].items[k], p, file)
  }

  /** What is recorded as deleted is gone. */
  ghost predicate RecordedGone(t: Tables, files: map<Path, File>) {
    forall id, k | id in t.batches && 0 <= k < |t.batches[id].items| && t.batches[id].items[k].state.Deleted? ::
      t.batches[id].items[k].entry.path !in files
  }

  lemma IntentMeansStarted(t: Tables, id: Id, k: nat)
    requires TablesInv(t) && id in t.batches && k < |t.batches[id].items| && !t.batches[id].items[k].state.Planned?
    ensures t.batches[id].state.Started()
  {
    assert BatchInv(id, t.batches[id], t.entries);
  }

  lemma IntentsStay(d: Digests, t: Tables, t': Tables, p: Path, file: File)
    requires TablesInv(t') && Progresses(t.batches, t'.batches) && Intended(d, t, p, file)
    ensures Intended(d, t', p, file)
  {
    hide TablesInv, Matches;
    var id, k :| IntendedAt(d, t, p, file, id, k);
    assert SameBatch(t.batches[id], t'.batches[id]);
    IntentMeansStarted(t', id, k);
    assert IntendedAt(d, t', p, file, id, k);
  }

  /** A file removed by one execute call is covered by an intent of that call's batch. */
  lemma CallIntended(d: Digests, t: Tables, id: Id, before: map<Path, File>, after: map<Path, File>, p: Path)
    requires TablesInv(t) && id in t.batches && Covered(d, before, after, t.batches[id].items)
    requires p in before && p !in after
    ensures Intended(d, t, p, before[p])
  {
    hide TablesInv, Matches;
    var k :| 0 <= k < |t.batches[id].items| && Intends(d, t.batches[id].items[k], p, before[p]);
    IntentMeansStarted(t, id, k);
    assert IntendedAt(d, t, p, before[p], id, k);
  }

  lemma OnlyBatchProgresses(t: Tables, t': Tables, id: Id)
    requires TablesInv(t) && OnlyBatch(t, t', id) && (id in t.batches ==> SameBatch(t.batches[id], t'.batches[id]))
    ensures Progresses(t.batches, t'.batches)
  {
  }

  // ---------------------------------------------------------------- two calls in a row

  /** Nothing recorded as deleted by this batch is still there. */
  ghost predicate BatchGone(b: Batch, files: map<Path, File>) {
    forall k | 0 <= k < |b.items| && b.items[k].state.Deleted? :: b.items[k].entry.path !in files
  }

  /** The rows of everything that is still to be deleted are verified and of the batch's project. */
  ghost predicate RowsStand(t: Tables, b: Batch) {
    forall k | 0 <= k < |b.items| && !b.items[k].state.Deleted? :: RowStands(t.entries, b.project, b.items[k].entry.id)
  }

  lemma StillStartable(t: Tables, t': Tables, id: Id)
    requires TablesInv(t) && TablesInv(t') && OnlyBatch(t, t', id) && id in t.batches
    requires SameBatch(t.batches[id], t'.batches[id])
    requires Startable(t, t.batches[id]) && RowsStand(t, t.batches[id])
    requires t'.batches[id].state.Prepared? ==> t.batches[id].state.Prepared?
    requires !t'.batches[id].state.Completed? && !t'.batches[id].state.Expired?
    ensures Startable(t', t'.batches[id])
  {
    var was, now := t.batches[id], t'.batches[id];
    assert BatchInv(id, was, t.entries) && BatchInv(id, now, t'.entries);
    forall k | 0 <= k < |now.items| && !now.items[k].state.Deleted?
      ensures RowStands(t'.entries, now.project, now.items[k].entry.id)
      ensures now.state.Prepared? ==> t'.entries[now.items[k].entry.id].owner.None?
    {
      assert SameItem(was.items[k], now.items[k]);
      assert RowStands(t.entries, was.project, was.items[k].entry.id);
      assert EntryInv(now.items[k].entry.id, t'.entries[now.items[k].entry.id], t'.batches);
    }
  }

  /** What an interrupted call leaves passes preflight again: a file that is gone has a durable intent. */
  lemma StillCleared(d: Digests, before: map<Path, File>, after: map<Path, File>, was: Batch, now: Batch)
    requires SameBatch(was, now) && BatchGone(was, before)
    requires Shrunk(before, after) && Covered(d, before, after, now.items)
    requires PreflightPassed(d, before, was.items) && DistinctPaths(before, was.items)
    ensures PreflightPassed(d, after, now.items) && DistinctPaths(after, now.items)
  {
    hide Matches;
    forall k | 0 <= k < |now.items| ensures ClearedItem(d, after, now.items[k]) {
      var path := now.items[k].entry.path;
      assert SameItem(was.items[k], now.items[k]) && ClearedItem(d, before, was.items[k]);
      if !now.items[k].state.Deleted? && path in before && path !in after {
        var i :| 0 <= i < |now.items| && Intends(d, now.items[i], path, before[path]);
        assert SameItem(was.items[i], now.items[i]);
        assert IsLive(before, was.items[i]) && IsLive(before, was.items[k]);
      }
    }
    forall i, j | 0 <= i < j < |now.items| && IsLive(after, now.items[i]) && IsLive(after, now.items[j])
      ensures now.items[i].entry.path != now.items[j].entry.path
    {
      assert SameItem(was.items[i], now.items[i]) && SameItem(was.items[j], now.items[j]);
      assert IsLive(before, was.items[i]) && IsLive(before, was.items[j]);
    }
  }

  /** Two calls together remove what one uninterrupted call would have removed. */
  lemma EmptiedInTwo(d: Digests, before: map<Path, File>, between: map<Path, File>, after: map<Path, File>,
                     was: Batch, now: Batch)
    requires SameBatch(was, now) && BatchGone(was, before)
    requires Shrunk(before, between) && Covered(d, before, between, now.items)
    requires Honest(d, before, between, was.items, now.items)
    requires Shrunk(between, after) && Emptied(between, now.items, |now.items|, after)
    ensures Emptied(before, was.items, |was.items|, after)
  {
    hide Matches;
    forall p | p in before
      ensures p !in after <==> exists k :: 0 <= k < |was.items| && IsLive(before, was.items[k]) && was.items[k].entry.path == p
    {
      if p in between {
        forall k | 0 <= k < |was.items| && was.items[k].entry.path == p
          ensures IsLive(before, was.items[k]) <==> IsLive(between, now.items[k])
        {
          assert SameItem(was.items[k], now.items[k]) && HonestItem(d, before, between, was.items[k], now.items[k]);
        }
      } else {
        var k :| 0 <= k < |now.items| && Intends(d, now.items[k], p, before[p]);
        assert SameItem(was.items[k], now.items[k]);
        assert IsLive(before, was.items[k]);
      }
    }
  }

  /** Cut the power anywhere in a call that could have succeeded, start a reliable machine and make the
      same call again: it succeeds, with the promised outcome, and together the two calls have removed
      exactly the files that were to be deleted. */
  method CutThenRetry(m: Machine, id: Id, token: string, confirmation: string, now: int, later: int)
    returns (next: Machine, r: Option<Outcome>)
    requires TablesInv(m.tables) && id in m.tables.batches
    requires m.Authorised(m.tables.batches[id], token, confirmation)
    requires Deletable(m.digests, m.files, m.tables, m.tables.batches[id])
    requires RowsStand(m.tables, m.tables.batches[id]) && BatchGone(m.tables.batches[id], m.files)
    requires m.tables.batches[id].state.Prepared? ==> now <= later <= m.tables.batches[id].expiresAt
    modifies m
    ensures fresh(next) && TablesInv(next.tables) && id in next.tables.batches && next.tables.batches[id].state.Completed?
    ensures r == Some(Outcome(old(m.tables).batches[id].entryCount, old(m.tables).batches[id].totalBytes))
    ensures Shrunk(old(m.files), next.files)
    ensures var items := old(m.tables).batches[id].items; Emptied(old(m.files), items, |items|, next.files)
  {
    hide TablesInv, Consistent, PreflightPassed, DistinctPaths, RowsStand, BatchGone, Covered, Honest, Emptied;
    ghost var was, files, t := m.tables.batches[id], m.files, m.tables;
    var first := m.Execute(id, token, confirmation, now);
    next := new Machine.After(m, true);
    ghost var between, u := next.files, next.tables;
    StillCleared(m.digests, files, between, was, u.batches[id]);
    if !u.batches[id].state.Completed? {
      StillStartable(t, u, id);
    }
    LaterVersionsStayConsistent(m.authority, was, u.batches[id]);
    if u.batches[id].state.Completed? {
      CompletedIsDeleted(u, id);
      NothingLeft(between, u.batches[id].items);
    }
    r := next.Execute(id, token, confirmation, later);
    EmptiedInTwo(m.digests, files, between, next.files, was, u.batches[id]);
  }

  /** The entry's row can be reserved and its file is there with all evidence. */
  predicate EntryReady(d: Digests, files: map<Path, File>, rows: map<Id, EntryRow>, e: DeletionEntry) {
    && e.id in rows && rows[e.id].project == e.project && rows[e.id].verified && rows[e.id].owner.None?
    && e.path in files && Matches(d, files[e.path], e)
  }

  ghost predicate SelectionReady(d: Digests, files: map<Path, File>, rows: map<Id, EntryRow>, entries: seq<DeletionEntry>) {
    && (forall e | e in entries :: EntryReady(d, files, rows, e))
    && (forall x, y | x in entries && y in entries && x.id != y.id :: x.path != y.path)
  }

  /** A freshly prepared batch can be deleted exactly if its selection is ready. */
  lemma FreshDeletableIff(d: Digests, files: map<Path, File>, t: Tables, b: Batch, entries: seq<DeletionEntry>)
    requires b.state.Prepared?
    requires forall i | 0 <= i < |b.items| :: b.items[i].state.Planned? && b.items[i].entry.project == b.project
    requires DistinctItems(b.items) && forall e :: e in Entries(b.items) <==> e in entries
    ensures Deletable(d, files, t, b) <==> SelectionReady(d, files, t.entries, entries)
  {
    hide Matches;
    var sorted := Entries(b.items);
    if Deletable(d, files, t, b) {
      forall e | e in entries ensures EntryReady(d, files, t.entries, e) {
        assert e in sorted;
        var i :| 0 <= i < |sorted| && sorted[i] == e;
        assert RowStands(t.entries, b.project, b.items[i].entry.id) && ClearedItem(d, files, b.items[i]);
      }
      forall x, y | x in entries && y in entries && x.id != y.id ensures x.path != y.path {
        assert x in sorted && y in sorted;
        var i :| 0 <= i < |sorted| && sorted[i] == x;
        var j :| 0 <= j < |sorted| && sorted[j] == y;
        assert ClearedItem(d, files, b.items[i]) && ClearedItem(d, files, b.items[j]);
        assert IsLive(files, b.items[i]) && IsLive(files, b.items[j]);
      }
    }
    if SelectionReady(d, files, t.entries, entries) {
      forall i | 0 <= i < |b.items| ensures EntryReady(d, files, t.entries, b.items[i].entry) && b.items[i].entry in entries {
        assert sorted[i] in sorted;
      }
    }
  }

  lemma FreshBatch(a: Authority, t: Tables, id: Id, entries: seq<DeletionEntry>)
    requires TablesInv(t) && id in t.batches && Consistent(a, t.batches[id])
    requires Entries(t.batches[id].items) == SortById(entries)
    ensures var b := t.batches[id];
            && DistinctItems(b.items) && (forall i | 0 <= i < |b.items| :: b.items[i].entry.project == b.project)
            && b.entryCount == |entries| && b.totalBytes == TotalBytes(SortById(entries))
            && forall e :: e in Entries(b.items) <==> e in entries
  {
    assert BatchInv(id, t.batches[id], t.entries);
  }

  lemma FreshEmptied(d: Digests, files: map<Path, File>, rows: map<Id, EntryRow>, b: Batch, entries: seq<DeletionEntry>,
                     after: map<Path, File>)
    requires SelectionReady(d, files, rows, entries) && Emptied(files, b.items, |b.items|, after)
    requires forall i | 0 <= i < |b.items| :: b.items[i].state.Planned?
    requires forall e :: e in Entries(b.items) <==> e in entries
    ensures forall p | p in files :: p !in after <==> exists e :: e in entries && e.path == p
  {
    hide Matches;
    var sorted := Entries(b.items);
    forall p | p in files ensures p !in after <==> exists e :: e in entries && e.path == p {
      if e :| e in entries && e.path == p {
        assert e in sorted;
        var i :| 0 <= i < |sorted| && sorted[i] == e;
        assert IsLive(files, b.items[i]);
      }
      if p !in after {
        var k :| 0 <= k < |b.items| && IsLive(files, b.items[k]) && b.items[k].entry.path == p;
        assert sorted[k] in sorted;
      }
    }
  }

  /** A selection from challenge to removal: on a reliable machine, of what can be prepared and is
      confirmed in time, everything is deleted exactly if every row is free and every file has its
      evidence under a path of its own. What was deleted are the files of the selection and no others. */
  method PrepareThenExecute(m: Machine, id: Id, token: string, entries: seq<DeletionEntry>, now: int, later: int,
                            ttl: int, mode: Mode)
    returns (r: Option<Outcome>)
    requires TablesInv(m.tables)
    modifies m
    ensures TablesInv(m.tables) && Shrunk(old(m.files), m.files)
    ensures r.Some? ==>
              && r.value == Outcome(|entries|, TotalBytes(SortById(entries)))
              && forall p | p in old(m.files) :: p !in m.files <==> exists e :: e in entries && e.path == p
    ensures r.Some? ==> ttl > 0 && later <= now + ttl && Preparable(SortById(entries), now, mode)
                        && SelectionReady(m.digests, old(m.files), old(m.tables).entries, entries)
    ensures m.reliable && old(m.alive) && ttl > 0 && Preparable(SortById(entries), now, mode) && id !in old(m.tables).batches
            && TotalBytes(SortById(entries)) <= I64_MAX && |entries| <= I64_MAX && later <= now + ttl ==>
              (r.Some? <==> SelectionReady(m.digests, old(m.files), old(m.tables).entries, entries))
  {
    hide TablesInv, Consistent, Matches, SortById, TotalBytes, Preparable, Deletable, SelectionReady;
    r := None;
    var ok := m.Prepare(id, token, entries, now, ttl, mode);
    if !ok {
      return;
    }
    ghost var b := m.tables.batches[id];
    FreshBatch(m.authority, m.tables, id, entries);
    FreshDeletableIff(m.digests, m.files, m.tables, b, entries);
    r := m.Execute(id, token, m.tables.batches[id].phrase, later);
    if r.Some? {
      FreshEmptied(m.digests, old(m.files), old(m.tables).entries, b, entries, m.files);
    }
  }

  datatype Call =
    | CallPrepare(id: Id, token: string, entries: seq<DeletionEntry>, now: int, ttl: int, mode: Mode)
    | CallExecute(id: Id, token: string, confirmation: string, now: int)

  /** Any number of calls, each possibly cut short: nothing but intended, fully matching files ever
      disappears, nothing reappears or changes, and what is recorded as deleted is gone. */
  method Campaign(m: Machine, calls: seq<Call>)
    requires TablesInv(m.tables) && RecordedGone(m.tables, m.files)
    modifies m
    ensures TablesInv(m.tables) && RecordedGone(m.tables, m.files)
    ensures Shrunk(old(m.files), m.files)
    ensures forall p | p in old(m.files) && p !in m.files :: Intended(m.digests, m.tables, p, old(m.files)[p])
  {
    for i := 0 to |calls|
      invariant TablesInv(m.tables) && RecordedGone(m.tables, m.files)
      invariant Shrunk(old(m.files), m.files)
      invariant forall p | p in old(m.files) && p !in m.files :: Intended(m.digests, m.tables, p, old(m.files)[p])
    {
      OneCall(m, calls[i], old(m.files));
      m.Restart();
    }
  }

  method OneCall(m: Machine, call: Call, ghost start: map<Path, File>)
    requires TablesInv(m.tables) && RecordedGone(m.tables, m.files) && Shrunk(start, m.files)
    requires forall p | p in start && p !in m.files :: Intended(m.digests, m.tables, p, start[p])
    modifies m
    ensures TablesInv(m.tables) && RecordedGone(m.tables, m.files) && Shrunk(start, m.files)
    ensures forall p | p in start && p !in m.files :: Intended(m.digests, m.tables, p, start[p])
  {
    hide TablesInv, Intended, Intends, ClearedItem, Matches, Preparable, SortById;
    ghost var t, before := m.tables, m.files;
    match call {
      case CallPrepare(id, token, entries, now, ttl, mode) =>
        var ok := m.Prepare(id, token, entries, now, ttl, mode);
      case CallExecute(id, token, confirmation, now) =>
        var r := m.Execute(id, token, confirmation, now);
        OnlyBatchProgresses(t, m.tables, id);
        if m.files != before {
          forall p | p in before && p !in m.files ensures Intended(m.digests, m.tables, p, before[p]) {
            CallIntended(m.digests, m.tables, id, before, m.files, p);
          }
        }
    }
    forall p | p in start && p !in m.files ensures Intended(m.digests, m.tables, p, start[p]) {
      if p !in before {
        IntentsStay(m.digests, t, m.tables, p, start[p]);
      }
    }
  }
}
