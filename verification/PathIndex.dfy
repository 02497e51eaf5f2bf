/** The path index of a project. An entry is filed under the key of its normalized path; a path that
    collides there with a differently spelled one is filed under the key of its exact text. The index
    behaves like a plain map from exact text to entry. */
module PathIndex {
  import opened Domain

  /** Lexical text of a path (none when it escapes the root), and the two keys of a text. */
  datatype Keys = Keys(text: Path -> Option<string>, normalized: string -> Bytes, exact: string -> Bytes)

  /** The hashes behind the keys do not collide, and the domain prefix keeps the two kinds apart. */
  ghost predicate CollisionFree(k: Keys) {
    && (forall t, u :: k.exact(t) == k.exact(u) ==> t == u)
    && (forall t, u :: k.normalized(t) != k.exact(u))
  }

  datatype Entry = Entry(id: nat, original: Path, root: nat)

  /** What one scan saw of one file. */
  datatype Observation = Observation(identity: Option<Identity>, size: nat, modified: int, token: Bytes)

  datatype SnapshotRow = SnapshotRow(id: nat, seen: Observation)

  /** The two tables and the next unused identifier. Snapshots are unique per session and entry. */
  datatype Store = Store(entries: map<Bytes, Entry>, snapshots: map<(nat, nat), SnapshotRow>, next: nat)

  /** The plain model: an identifier per text, and the last observation per session and text. */
  datatype Plain = Plain(ids: map<string, nat>, seen: map<(nat, string), Observation>)

  // ---------------------------------------------------------------- looking up

  predicate Spells(k: Keys, e: Entry, text: string) {
    k.text(e.original) == Some(text)
  }

  /** The key under which `text` is filed. */
  function Home(k: Keys, entries: map<Bytes, Entry>, text: string): (r: Option<Bytes>)
    ensures r.Some? ==> r.value in entries && Spells(k, entries[r.value], text)
  {
    if k.normalized(text) in entries && Spells(k, entries[k.normalized(text)], text) then Some(k.normalized(text))
    else if k.exact(text) in entries && Spells(k, entries[k.exact(text)], text) then Some(k.exact(text))
    else None
  }

  /** Where to write `text`: its entry, or a free key, or an error when an exact key is taken by a
      different text. */
  datatype Slot = Existing(key: Bytes) | Free(key: Bytes) | Collision

  function FindSlot(k: Keys, entries: map<Bytes, Entry>, text: string): Slot {
    var n, x := k.normalized(text), k.exact(text);
    if n !in entries then Free(n)
    else if Spells(k, entries[n], text) then Existing(n)
    else if x !in entries then Free(x)
    else if Spells(k, entries[x], text) then Existing(x)
    else Collision
  }

  /** The session's snapshot filed under `key`, if that entry has the given text. */
  function SnapshotUnder(k: Keys, s: Store, session: nat, key: Bytes, text: string): Option<nat> {
    if key in s.entries && (session, s.entries[key].id) in s.snapshots && Spells(k, s.entries[key], text)
    then Some(s.snapshots[(session, s.entries[key].id)].id) else None
  }

  function SnapshotIdForPath(k: Keys, s: Store, session: nat, path: Path): Option<nat> {
    match k.text(path)
    case None => None
    case Some(text) =>
      var first := SnapshotUnder(k, s, session, k.normalized(text), text);
      if first.Some? then first else SnapshotUnder(k, s, session, k.exact(text), text)
  }

  // ---------------------------------------------------------------- recording

  datatype Record = Record(path: Path, seen: Observation)

  /** The first of the longest-first roots that contains the path. */
  function RootOf(roots: seq<(nat, Path)>, path: Path): Option<nat> {
    if roots == [] then None
    else if roots[0].1 <= path then Some(roots[0].0)
    else RootOf(roots[1..], path)
  }

  function WriteSnapshot(s: Store, session: nat, entry: nat, seen: Observation): Store {
    var id := if (session, entry) in s.snapshots then s.snapshots[(session, entry)].id else s.next;
    s.(snapshots := s.snapshots[(session, entry) := SnapshotRow(id, seen)], next := s.next + 1)
  }

  /** Size and time fit the signed columns. */
  predicate Storable(o: Observation) {
    o.size <= I64_MAX && -0x8000_0000_0000_0000 <= o.modified <= I64_MAX
  }

  /** One record inside the flush transaction; None rolls the whole flush back. */
  function Upsert(k: Keys, roots: seq<(nat, Path)>, s: Store, session: nat, r: Record): Option<Store> {
    if RootOf(roots, r.path).None? || k.text(r.path).None? || !Storable(r.seen) then None
    else
      var root := RootOf(roots, r.path).value;
      match FindSlot(k, s.entries, k.text(r.path).value)
      case Collision => None
      case Existing(key) =>
        assert key in s.entries;
        var id := s.entries[key].id;
        Some(WriteSnapshot(s.(entries := s.entries[key := Entry(id, r.path, root)]), session, id, r.seen))
      case Free(key) =>
        Some(WriteSnapshot(s.(entries := s.entries[key := Entry(s.next, r.path, root)], next := s.next + 1),
                           session, s.next, r.seen))
  }

  function RecordPlainly(p: Plain, session: nat, text: string, seen: Observation, unused: nat): Plain {
    Plain(if text in p.ids then p.ids else p.ids[text := unused], p.seen[(session, text) := seen])
  }

  // ---------------------------------------------------------------- refinement

  /** The entry under `key` is the one of its own text, and sits under an exact key only because the
      normalized key was taken. */
  predicate EntryOk(k: Keys, entries: map<Bytes, Entry>, ids: map<string, nat>, key: Bytes)
    requires key in entries
  {
    && k.text(entries[key].original).Some?
    && var t := k.text(entries[key].original).value;
       t in ids && ids[t] == entries[key].id && Home(k, entries, t) == Some(key) && k.normalized(t) in entries
  }

  predicate TextOk(k: Keys, entries: map<Bytes, Entry>, ids: map<string, nat>, t: string)
    requires t in ids
  {
    Home(k, entries, t).Some? && entries[Home(k, entries, t).value].id == ids[t]
  }

  predicate Injective(ids: map<string, nat>) {
    forall t, u | t in ids && u in ids && ids[t] == ids[u] :: t == u
  }

  /** Entries and texts correspond one to one. */
  ghost predicate RefinesIds(k: Keys, entries: map<Bytes, Entry>, ids: map<string, nat>, next: nat) {
    && (forall key {:trigger EntryOk(k, entries, ids, key)} | key in entries :: EntryOk(k, entries, ids, key))
    && (forall t {:trigger TextOk(k, entries, ids, t)} | t in ids :: TextOk(k, entries, ids, t))
    && Injective(ids)
    && (forall t | t in ids :: ids[t] < next)
  }

  /** Snapshots and recorded texts correspond one to one, with equal observations. */
  ghost predicate RefinesSeen(snapshots: map<(nat, nat), SnapshotRow>, p: Plain) {
    && (forall session, t | (session, t) in p.seen ::
          t in p.ids && (session, p.ids[t]) in snapshots && snapshots[(session, p.ids[t])].seen == p.seen[(session, t)])
    && (forall session, t | t in p.ids && (session, p.ids[t]) in snapshots :: (session, t) in p.seen)
    && (forall session, id | (session, id) in snapshots :: Known(p.ids, id))
  }

  ghost predicate Known(ids: map<string, nat>, id: nat) {
    exists t :: t in ids && ids[t] == id
  }

  ghost predicate Refines(k: Keys, s: Store, p: Plain) {
    RefinesIds(k, s.entries, p.ids, s.next) && RefinesSeen(s.snapshots, p)
  }

  /** With collision-free keys the exact key of a text never belongs to another text. */
  lemma NoExactCollision(k: Keys, s: Store, p: Plain, text: string)
    requires CollisionFree(k) && Refines(k, s, p)
    ensures !FindSlot(k, s.entries, text).Collision?
  {
    hide RefinesSeen;
    if k.exact(text) in s.entries {
      assert EntryOk(k, s.entries, p.ids, k.exact(text));
    }
  }

  /** A text is filed exactly when the plain map knows it, and then under its slot. */
  lemma SlotIsHome(k: Keys, s: Store, p: Plain, text: string)
    requires CollisionFree(k) && Refines(k, s, p)
    ensures FindSlot(k, s.entries, text).Existing? <==> text in p.ids
    ensures text in p.ids ==>
              var key := FindSlot(k, s.entries, text).key;
              Home(k, s.entries, text) == Some(key) && key in s.entries && s.entries[key].id == p.ids[text]
  {
    hide RefinesSeen;
    NoExactCollision(k, s, p, text);
    var slot := FindSlot(k, s.entries, text);
    if slot.Existing? {
      assert EntryOk(k, s.entries, p.ids, slot.key);
    }
    if text in p.ids {
      assert TextOk(k, s.entries, p.ids, text);
      assert EntryOk(k, s.entries, p.ids, Home(k, s.entries, text).value);
    }
  }

  /** Refreshing an entry under the same text changes nothing the index is asked for. */
  lemma RefreshRefines(k: Keys, entries: map<Bytes, Entry>, ids: map<string, nat>, next: nat, key: Bytes, path: Path, root: nat)
    requires RefinesIds(k, entries, ids, next) && key in entries && k.text(path) == k.text(entries[key].original)
    ensures RefinesIds(k, entries[key := Entry(entries[key].id, path, root)], ids, next)
  {
    var entries' := entries[key := Entry(entries[key].id, path, root)];
    forall x | x in entries' ensures EntryOk(k, entries', ids, x) {
      assert EntryOk(k, entries, ids, x);
    }
    forall t | t in ids ensures TextOk(k, entries', ids, t) {
      assert TextOk(k, entries, ids, t);
    }
  }

  /** Filing a new text keeps the correspondence. */
  lemma InsertRefines(k: Keys, entries: map<Bytes, Entry>, ids: map<string, nat>, next: nat, key: Bytes, path: Path, root: nat)
    requires CollisionFree(k) && RefinesIds(k, entries, ids, next) && k.text(path).Some? && k.text(path).value !in ids
    requires FindSlot(k, entries, k.text(path).value) == Free(key)
    ensures RefinesIds(k, entries[key := Entry(next, path, root)], ids[k.text(path).value := next], next + 1)
  {
    var text := k.text(path).value;
    var entries', ids' := entries[key := Entry(next, path, root)], ids[text := next];
    forall x | x in entries' ensures EntryOk(k, entries', ids', x) {
      if x != key {
        assert EntryOk(k, entries, ids, x);
      }
    }
    forall t | t in ids' ensures TextOk(k, entries', ids', t) {
      if t != text {
        assert TextOk(k, entries, ids, t);
        assert EntryOk(k, entries, ids, Home(k, entries, t).value);
      }
    }
  }

  lemma TextIsKnown(ids: map<string, nat>, text: string)
    requires text in ids
    ensures Known(ids, ids[text])
  {
  }

  lemma SnapshotRefines(s: Store, p: Plain, session: nat, text: string, seen: Observation)
    requires RefinesSeen(s.snapshots, p) && text in p.ids
    requires Injective(p.ids)
    ensures RefinesSeen(WriteSnapshot(s, session, p.ids[text], seen).snapshots, Plain(p.ids, p.seen[(session, text) := seen]))
  {
    hide Known;
    TextIsKnown(p.ids, text);
  }

  /** A new text has no snapshot yet. */
  lemma NewTextRefines(s: Store, p: Plain, text: string, unused: nat)
    requires RefinesSeen(s.snapshots, p) && text !in p.ids && forall t | t in p.ids :: p.ids[t] < unused
    ensures RefinesSeen(s.snapshots, Plain(p.ids[text := unused], p.seen))
  {
    var p' := Plain(p.ids[text := unused], p.seen);
    forall id: nat | Known(p.ids, id) ensures Known(p'.ids, id) && id < unused {
      var t :| t in p.ids && p.ids[t] == id;
      assert t in p'.ids && p'.ids[t] == id;
    }
  }

  lemma IdsGrow(k: Keys, entries: map<Bytes, Entry>, ids: map<string, nat>, next: nat)
    requires RefinesIds(k, entries, ids, next)
    ensures RefinesIds(k, entries, ids, next + 1)
  {
  }

  /** `root` identifies the first of the roots that contain the path. */
  ghost predicate OwnRoot(roots: seq<(nat, Path)>, path: Path, root: nat) {
    exists i :: 0 <= i < |roots| && roots[i].0 == root && roots[i].1 <= path && forall j | 0 <= j < i :: !(roots[j].1 <= path)
  }

  lemma {:induction false} RootOfIsOwn(roots: seq<(nat, Path)>, path: Path)
    ensures RootOf(roots, path).None? <==> forall i | 0 <= i < |roots| :: !(roots[i].1 <= path)
    ensures RootOf(roots, path).Some? ==> OwnRoot(roots, path, RootOf(roots, path).value)
  {
    if roots != [] && !(roots[0].1 <= path) {
      RootOfIsOwn(roots[1..], path);
      if RootOf(roots[1..], path).Some? {
        var i :| 0 <= i < |roots[1..]| && roots[1..][i].0 == RootOf(roots[1..], path).value && roots[1..][i].1 <= path
                 && forall j | 0 <= j < i :: !(roots[1..][j].1 <= path);
        assert forall j | 0 <= j < i + 1 :: j > 0 ==> roots[j] == roots[1..][j - 1];
        assert roots[i + 1].0 == RootOf(roots, path).value;
      } else {
        assert forall i | 1 <= i < |roots| :: roots[i] == roots[1..][i - 1];
      }
    }
  }

  /** A root contains the path, the path has a text, and size and time fit signed 64-bit columns. */
  ghost predicate Fileable(k: Keys, roots: seq<(nat, Path)>, r: Record) {
    && (exists i :: 0 <= i < |roots| && roots[i].1 <= r.path) && k.text(r.path).Some?
    && r.seen.size < 0x8000_0000_0000_0000 && -0x8000_0000_0000_0000 <= r.seen.modified < 0x8000_0000_0000_0000
  }

  lemma FileableIff(k: Keys, roots: seq<(nat, Path)>, r: Record)
    ensures Fileable(k, roots, r) <==> RootOf(roots, r.path).Some? && k.text(r.path).Some? && Storable(r.seen)
  {
    RootOfIsOwn(roots, r.path);
  }

  /** One record files its path under its own root and text, as written, and touches no other entry. */
  lemma UpsertFiles(k: Keys, roots: seq<(nat, Path)>, s: Store, p: Plain, session: nat, r: Record)
    requires CollisionFree(k) && Refines(k, s, p) && Upsert(k, roots, s, session, r).Some?
    ensures var entries' := Upsert(k, roots, s, session, r).value.entries;
            exists key :: key in entries' && entries'.Keys == s.entries.Keys + {key}
              && entries'[key].original == r.path && OwnRoot(roots, r.path, entries'[key].root)
              && (forall other | other in s.entries && other != key :: entries'[other] == s.entries[other])
              && (key in s.entries ==> entries'[key].id == s.entries[key].id && k.text(s.entries[key].original) == k.text(r.path))
  {
    RootOfIsOwn(roots, r.path);
    var text := k.text(r.path).value;
    SlotIsHome(k, s, p, text);
    NoExactCollision(k, s, p, text);
    var slot := FindSlot(k, s.entries, text);
    if slot.Existing? {
      assert EntryOk(k, s.entries, p.ids, slot.key);
    }
    assert slot.key in Upsert(k, roots, s, session, r).value.entries;
  }

  /** No two snapshots share an identifier, and the next one is unused. */
  ghost predicate Numbered(s: Store) {
    && (forall x | x in s.snapshots :: s.snapshots[x].id < s.next)
    && (forall x, y | x in s.snapshots && y in s.snapshots && s.snapshots[x].id == s.snapshots[y].id :: x == y)
  }

  lemma WriteKeepsIds(s: Store, session: nat, entry: nat, seen: Observation)
    requires Numbered(s)
    ensures var s' := WriteSnapshot(s, session, entry, seen);
            && Numbered(s') && s'.entries == s.entries && (session, entry) in s'.snapshots
            && s'.snapshots[(session, entry)].seen == seen
            && ((session, entry) in s.snapshots ==> s'.snapshots[(session, entry)].id == s.snapshots[(session, entry)].id)
            && (forall x | x != (session, entry) :: x in s'.snapshots <==> x in s.snapshots)
            && (forall x | x in s.snapshots && x != (session, entry) :: s'.snapshots[x] == s.snapshots[x])
  {
  }

  /** A record leaves all snapshots but its own alone, and a snapshot keeps its identifier when it is
      recorded again. */
  lemma UpsertKeepsIds(k: Keys, roots: seq<(nat, Path)>, s: Store, session: nat, r: Record)
    requires Numbered(s) && Upsert(k, roots, s, session, r).Some?
    ensures var s' := Upsert(k, roots, s, session, r).value;
            && Numbered(s')
            && (forall x | x in s.snapshots :: x in s'.snapshots && s'.snapshots[x].id == s.snapshots[x].id)
            && exists own :: own in s'.snapshots && own.0 == session && s'.snapshots[own].seen == r.seen
                 && (forall x | x != own :: x in s'.snapshots <==> x in s.snapshots)
                 && (forall x | x in s.snapshots && x != own :: s'.snapshots[x] == s.snapshots[x])
  {
    hide RootOf, Storable, WriteSnapshot;
    var root := RootOf(roots, r.path).value;
    match FindSlot(k, s.entries, k.text(r.path).value)
    case Existing(key) =>
      WriteKeepsIds(s.(entries := s.entries[key := Entry(s.entries[key].id, r.path, root)]), session, s.entries[key].id, r.seen);
    case Free(key) =>
      WriteKeepsIds(s.(entries := s.entries[key := Entry(s.next, r.path, root)], next := s.next + 1), session, s.next, r.seen);
  }

  /** One record refines one update of the plain map, and fails exactly when the path has no root or no
      text or the observation cannot be stored. */
  lemma UpsertRefines(k: Keys, roots: seq<(nat, Path)>, s: Store, p: Plain, session: nat, r: Record)
    requires CollisionFree(k) && Refines(k, s, p)
    ensures Upsert(k, roots, s, session, r).Some? <==> Fileable(k, roots, r)
    ensures Upsert(k, roots, s, session, r).Some? ==>
              Refines(k, Upsert(k, roots, s, session, r).value,
                      RecordPlainly(p, session, k.text(r.path).value, r.seen, s.next))
  {
    hide RefinesSeen, Home, RootOf, CollisionFree, EntryOk, TextOk, Fileable, Storable;
    FileableIff(k, roots, r);
    if k.text(r.path).Some? {
      var text := k.text(r.path).value;
      SlotIsHome(k, s, p, text);
      NoExactCollision(k, s, p, text);
      if RootOf(roots, r.path).Some? && Storable(r.seen) {
        var root := RootOf(roots, r.path).value;
        match FindSlot(k, s.entries, text)
        case Existing(key) =>
          RefreshRefines(k, s.entries, p.ids, s.next, key, r.path, root);
          IdsGrow(k, s.entries[key := Entry(s.entries[key].id, r.path, root)], p.ids, s.next);
          SnapshotRefines(s, p, session, text, r.seen);
        case Free(key) =>
          InsertRefines(k, s.entries, p.ids, s.next, key, r.path, root);
          IdsGrow(k, s.entries[key := Entry(s.next, r.path, root)], p.ids[text := s.next], s.next + 1);
          NewTextRefines(s, p, text, s.next);
          var s' := s.(entries := s.entries[key := Entry(s.next, r.path, root)], next := s.next + 1);
          SnapshotRefines(s', Plain(p.ids[text := s.next], p.seen), session, text, r.seen);
      }
    }
  }

  /** A path's snapshot is found exactly when the session recorded that very path, and it is the last
      one recorded. */
  lemma LookupIsExact(k: Keys, s: Store, p: Plain, session: nat, path: Path)
    requires CollisionFree(k) && Refines(k, s, p) && k.text(path).Some?
    ensures var text := k.text(path).value;
            && (SnapshotIdForPath(k, s, session, path).Some? <==> (session, text) in p.seen)
            && ((session, text) in p.seen ==>
                  && (session, p.ids[text]) in s.snapshots
                  && SnapshotIdForPath(k, s, session, path) == Some(s.snapshots[(session, p.ids[text])].id)
                  && s.snapshots[(session, p.ids[text])].seen == p.seen[(session, text)])
  {
    var text := k.text(path).value;
    SlotIsHome(k, s, p, text);
    assert k.normalized(text) in s.entries ==> EntryOk(k, s.entries, p.ids, k.normalized(text));
    assert k.exact(text) in s.entries ==> EntryOk(k, s.entries, p.ids, k.exact(text));
    if text in p.ids {
      assert TextOk(k, s.entries, p.ids, text);
    }
  }

  /** Distinct texts never share an entry and no text has two. */
  lemma EntriesAreOneToOne(k: Keys, s: Store, p: Plain, a: Bytes, b: Bytes)
    requires Refines(k, s, p) && a in s.entries && b in s.entries
    ensures a == b <==> k.text(s.entries[a].original) == k.text(s.entries[b].original)
    ensures a == b <==> s.entries[a].id == s.entries[b].id
  {
    assert EntryOk(k, s.entries, p.ids, a) && EntryOk(k, s.entries, p.ids, b);
  }

  // ---------------------------------------------------------------- the buffered sink

  function RecordAll(k: Keys, p: Plain, session: nat, records: seq<Record>, ids: seq<nat>): Plain
    requires |ids| == |records|
  {
    if records == [] then p
    else
      var before := RecordAll(k, p, session, records[..|records| - 1], ids[..|records| - 1]);
      var r := records[|records| - 1];
      if k.text(r.path).None? then before
      else RecordPlainly(before, session, k.text(r.path).value, r.seen, ids[|records| - 1])
  }

  /** `p'` is `p` after recording everything in order, with some choice of new identifiers. */
  ghost predicate Recorded(k: Keys, p: Plain, session: nat, records: seq<Record>, p': Plain) {
    exists ids: seq<nat> :: |ids| == |records| && p' == RecordAll(k, p, session, records, ids)
  }

  /** On a reliable database every statement and every commit succeeds. */
  class Index {
    const keys: Keys
    const reliable: bool
    var store: Store
    ghost var plain: Plain

    ghost predicate Valid()
      reads this
    {
      CollisionFree(keys) && Refines(keys, store, plain) && Numbered(store)
    }

    constructor (keys: Keys, reliable: bool)
      requires CollisionFree(keys)
      ensures Valid() && this.keys == keys && this.reliable == reliable && plain == Plain(map[], map[])
    {
      this.keys, this.reliable := keys, reliable;
      store := Store(map[], map[], 0);
      plain := Plain(map[], map[]);
    }
  }

  class Sink {
    const index: Index
    const session: nat
    const roots: seq<(nat, Path)>
    const batchSize: nat
    var pending: seq<Record>

    constructor (index: Index, session: nat, roots: seq<(nat, Path)>)
      ensures this.index == index && this.session == session && this.roots == roots && pending == []
      ensures batchSize == 256
    {
      this.index, this.session, this.roots := index, session, roots;
      batchSize := 256;
      pending := [];
    }

    /** One transaction for the whole buffer: it commits every buffered record, in order, or none. The
        buffer is emptied in both cases. */
    method Flush() returns (ok: bool)
      requires index.Valid()
      modifies this`pending, index
      ensures index.Valid() && pending == []
      ensures !ok ==> index.store == old(index.store) && index.plain == old(index.plain)
      ensures ok || index.reliable ==>
                (ok <==> forall i | 0 <= i < |old(pending)| :: Fileable(index.keys, roots, old(pending)[i]))
      ensures ok ==> Recorded(index.keys, old(index.plain), session, old(pending), index.plain)
    {
      hide RefinesIds, RefinesSeen, CollisionFree, Upsert, Fileable, Numbered;
      var records := pending;
      var transaction := index.store;
      ghost var plain, ids: seq<nat> := index.plain, [];
      for i := 0 to |records|
        invariant Refines(index.keys, transaction, plain) && Numbered(transaction) && |ids| == i
        invariant index.store == old(index.store) && index.plain == old(index.plain) && CollisionFree(index.keys)
        invariant plain == RecordAll(index.keys, old(index.plain), session, records[..i], ids)
        invariant forall k | 0 <= k < i :: Fileable(index.keys, roots, records[k])
      {
        UpsertRefines(index.keys, roots, transaction, plain, session, records[i]);
        FileableIff(index.keys, roots, records[i]);
        var next := Upsert(index.keys, roots, transaction, session, records[i]);
        var failure := *;
        if next.None? || (failure && !index.reliable) {
          pending := [];
          return false;
        }
        UpsertKeepsIds(index.keys, roots, transaction, session, records[i]);
        assert records[..i + 1][..i] == records[..i];
        ghost var more := ids + [transaction.next];
        assert more[..i] == ids;
        plain := RecordPlainly(plain, session, index.keys.text(records[i].path).value, records[i].seen, transaction.next);
        transaction, ids := next.value, more;
      }
      assert records[..|records|] == records;
      pending := [];
      ok := *;
      ok := ok || index.reliable;
      if ok {
        index.store, index.plain := transaction, plain;
      }
    }

    method RecordSnapshot(r: Record) returns (ok: bool)
      requires index.Valid()
      modifies this`pending, index
      ensures index.Valid()
      ensures ok && |old(pending)| + 1 < batchSize ==>
                pending == old(pending) + [r] && index.store == old(index.store) && index.plain == old(index.plain)
      ensures |old(pending)| + 1 < batchSize ==> ok
      ensures |old(pending)| + 1 >= batchSize && index.reliable ==>
                (ok <==> forall i | 0 <= i < |old(pending) + [r]| :: Fileable(index.keys, roots, (old(pending) + [r])[i]))
      ensures |old(pending)| + 1 >= batchSize ==> pending == []
      ensures !ok ==> index.store == old(index.store) && index.plain == old(index.plain)
      ensures ok && |old(pending)| + 1 >= batchSize ==>
                Recorded(index.keys, old(index.plain), session, old(pending) + [r], index.plain)
    {
      pending := pending + [r];
      ok := true;
      if |pending| >= batchSize {
        ok := Flush();
      }
    }
  }
}
