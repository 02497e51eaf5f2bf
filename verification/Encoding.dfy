/** The byte strings that are hashed to bind a deletion selection and a metadata snapshot. */
module Encoding {
  import opened Domain

  const U64_LIMIT: nat := U64_MAX + 1
  const U128_LIMIT: nat := 0x1_0000_0000_0000_0000_0000_0000_0000_0000

  /** A 128-bit identifier; identifiers are ordered as numbers, that is, as big-endian bytes. */
  type Id = n: nat | n < U128_LIMIT

  datatype DeletionEntry = DeletionEntry(
    id: Id, project: Id, path: Path, identity: Identity, size: nat, blake3: Bytes, sha256: Bytes, retainUntil: int)

  /** `width` bytes, least significant first. */
  function LittleEndian(n: nat, width: nat): (r: Bytes)
    ensures |r| == width
    decreases width, n
  {
    if width == 0 then [] else [(n % 256) as byte] + LittleEndian(n / 256, width - 1)
  }

  function BigEndian(n: nat, width: nat): (r: Bytes)
    ensures |r| == width
    decreases width, n
  {
    if width == 0 then [] else BigEndian(n / 256, width - 1) + [(n % 256) as byte]
  }

  function Pow256(k: nat): (r: nat)
    ensures r > 0
  {
    if k == 0 then 1 else 256 * Pow256(k - 1)
  }

  lemma Widths()
    ensures Pow256(8) == U64_LIMIT && Pow256(16) == U128_LIMIT
  {
    assert Pow256(4) == 0x1_0000_0000;
    assert Pow256(8) == U64_LIMIT;
    assert Pow256(12) == 0x1_0000_0000 * U64_LIMIT;
  }

  lemma {:induction false} LittleEndianInjective(a: nat, b: nat, width: nat)
    requires a < Pow256(width) && b < Pow256(width) && LittleEndian(a, width) == LittleEndian(b, width)
    ensures a == b
    decreases width
  {
    if width > 0 {
      var x, y := LittleEndian(a, width), LittleEndian(b, width);
      assert x[0] == y[0] && x[1..] == y[1..];
      assert x[1..] == LittleEndian(a / 256, width - 1) && y[1..] == LittleEndian(b / 256, width - 1);
      LittleEndianInjective(a / 256, b / 256, width - 1);
    }
  }

  lemma {:induction false} BigEndianInjective(a: nat, b: nat, width: nat)
    requires a < Pow256(width) && b < Pow256(width) && BigEndian(a, width) == BigEndian(b, width)
    ensures a == b
    decreases width
  {
    if width > 0 {
      var x, y := BigEndian(a, width), BigEndian(b, width);
      assert x[width - 1] == y[width - 1] && x[..width - 1] == y[..width - 1];
      assert x[..width - 1] == BigEndian(a / 256, width - 1) && y[..width - 1] == BigEndian(b / 256, width - 1);
      BigEndianInjective(a / 256, b / 256, width - 1);
    }
  }

  /** Equal streams with heads of equal length have equal heads and equal tails. */
  lemma Cut(p: Bytes, x: Bytes, q: Bytes, y: Bytes)
    requires |p| == |q| && p + x == q + y
    ensures p == q && x == y
  {
    assert p == (p + x)[..|p|] && q == (q + y)[..|q|];
    assert x == (p + x)[|p|..] && y == (q + y)[|q|..];
  }

  // ---------------------------------------------------------------- selection digest

  /** A length-prefixed string. */
  function Counted(s: Bytes): Bytes {
    LittleEndian(|s|, 8) + s
  }

  lemma LengthPrefixInjective(s: Bytes, t: Bytes)
    requires |s| < U64_LIMIT && |t| < U64_LIMIT && LittleEndian(|s|, 8) == LittleEndian(|t|, 8)
    ensures |s| == |t|
  {
    Widths();
    LittleEndianInjective(|s|, |t|, 8);
  }

  lemma CutCounted(s: Bytes, x: Bytes, t: Bytes, y: Bytes)
    requires |s| < U64_LIMIT && |t| < U64_LIMIT && Counted(s) + x == Counted(t) + y
    ensures s == t && x == y
  {
    var p, q := LittleEndian(|s|, 8), LittleEndian(|t|, 8);
    assert (p + s) + x == p + (s + x) && (q + t) + y == q + (t + y);
    Cut(p, s + x, q, t + y);
    LengthPrefixInjective(s, t);
    Cut(s, x, t, y);
  }

  function EncodeHead(e: DeletionEntry): Bytes {
    BigEndian(e.project, 16) + BigEndian(e.id, 16)
  }

  function EncodeTail(e: DeletionEntry): Bytes {
    LittleEndian(e.size, 8) + e.blake3 + e.sha256
  }

  function EncodeEntry(e: DeletionEntry): Bytes {
    EncodeHead(e) + Counted(e.identity.volume) + Counted(e.identity.file) + EncodeTail(e)
  }

  function Encode(entries: seq<DeletionEntry>): Bytes {
    if entries == [] then [] else EncodeEntry(entries[0]) + Encode(entries[1..])
  }

  /** What the batch preparation accepts and what fits the length prefixes. */
  predicate Encodable(e: DeletionEntry) {
    && |e.blake3| == 32 && |e.sha256| == 32
    && e.size < U64_LIMIT && |e.identity.volume| < U64_LIMIT && |e.identity.file| < U64_LIMIT
  }

  /** Everything about an entry except its path and retention deadline. */
  predicate SameEvidence(a: DeletionEntry, b: DeletionEntry) {
    a.id == b.id && a.project == b.project && a.identity == b.identity && a.size == b.size
    && a.blake3 == b.blake3 && a.sha256 == b.sha256
  }

  lemma CutHead(a: DeletionEntry, x: Bytes, b: DeletionEntry, y: Bytes)
    requires EncodeHead(a) + x == EncodeHead(b) + y
    ensures a.id == b.id && a.project == b.project && x == y
  {
    Cut(EncodeHead(a), x, EncodeHead(b), y);
    Cut(BigEndian(a.project, 16), BigEndian(a.id, 16), BigEndian(b.project, 16), BigEndian(b.id, 16));
    Widths();
    BigEndianInjective(a.project, b.project, 16);
    BigEndianInjective(a.id, b.id, 16);
  }

  lemma CutTail(a: DeletionEntry, x: Bytes, b: DeletionEntry, y: Bytes)
    requires Encodable(a) && Encodable(b) && EncodeTail(a) + x == EncodeTail(b) + y
    ensures a.size == b.size && a.blake3 == b.blake3 && a.sha256 == b.sha256 && x == y
  {
    Cut(EncodeTail(a), x, EncodeTail(b), y);
    Cut(LittleEndian(a.size, 8) + a.blake3, a.sha256, LittleEndian(b.size, 8) + b.blake3, b.sha256);
    Cut(LittleEndian(a.size, 8), a.blake3, LittleEndian(b.size, 8), b.blake3);
    Widths();
    LittleEndianInjective(a.size, b.size, 8);
  }

  lemma Regroup(a: Bytes, b: Bytes, c: Bytes, d: Bytes, x: Bytes)
    ensures a + b + c + d + x == a + (b + (c + (d + x)))
  {
  }

  lemma CutEntry(a: DeletionEntry, x: Bytes, b: DeletionEntry, y: Bytes)
    requires Encodable(a) && Encodable(b) && EncodeEntry(a) + x == EncodeEntry(b) + y
    ensures SameEvidence(a, b) && x == y
  {
    var va, fa, ta := Counted(a.identity.volume), Counted(a.identity.file), EncodeTail(a) + x;
    var vb, fb, tb := Counted(b.identity.volume), Counted(b.identity.file), EncodeTail(b) + y;
    Regroup(EncodeHead(a), va, fa, EncodeTail(a), x);
    Regroup(EncodeHead(b), vb, fb, EncodeTail(b), y);
    CutHead(a, va + (fa + ta), b, vb + (fb + tb));
    CutCounted(a.identity.volume, fa + ta, b.identity.volume, fb + tb);
    CutCounted(a.identity.file, ta, b.identity.file, tb);
    CutTail(a, x, b, y);
  }

  lemma EncodeEmpty(s: seq<DeletionEntry>)
    ensures Encode(s) == [] <==> s == []
  {
    if s != [] {
      assert |EncodeEntry(s[0])| >= |EncodeHead(s[0])| == 32;
    }
  }

  predicate AllEncodable(s: seq<DeletionEntry>) {
    forall i | 0 <= i < |s| :: Encodable(s[i])
  }

  ghost predicate SameList(a: seq<DeletionEntry>, b: seq<DeletionEntry>) {
    |a| == |b| && forall i | 0 <= i < |a| :: SameEvidence(a[i], b[i])
  }

  lemma EncodeHeads(a: seq<DeletionEntry>, b: seq<DeletionEntry>)
    requires AllEncodable(a) && AllEncodable(b) && Encode(a) == Encode(b) && a != []
    ensures b != [] && SameEvidence(a[0], b[0]) && Encode(a[1..]) == Encode(b[1..])
  {
    EncodeEmpty(a);
    EncodeEmpty(b);
    CutEntry(a[0], Encode(a[1..]), b[0], Encode(b[1..]));
  }

  lemma SameListCons(a: seq<DeletionEntry>, b: seq<DeletionEntry>)
    requires a != [] && b != [] && SameEvidence(a[0], b[0]) && SameList(a[1..], b[1..])
    ensures SameList(a, b)
  {
    forall i | 0 < i < |a| ensures SameEvidence(a[i], b[i]) {
      assert a[i] == a[1..][i - 1] && b[i] == b[1..][i - 1];
    }
  }

  /** The digested bytes determine the whole list of evidence, including its length. */
  lemma {:induction false} EncodeInjective(a: seq<DeletionEntry>, b: seq<DeletionEntry>)
    requires AllEncodable(a) && AllEncodable(b) && Encode(a) == Encode(b)
    ensures SameList(a, b)
  {
    EncodeEmpty(a);
    EncodeEmpty(b);
    if a != [] {
      EncodeHeads(a, b);
      EncodeInjective(a[1..], b[1..]);
      SameListCons(a, b);
    }
  }

  // ---------------------------------------------------------------- order of the selection

  predicate DistinctIds(s: seq<DeletionEntry>) {
    forall i, j | 0 <= i < j < |s| :: s[i].id != s[j].id
  }

  predicate StrictById(s: seq<DeletionEntry>) {
    forall i, j | 0 <= i < j < |s| :: s[i].id < s[j].id
  }

  /** Insert after every entry with a smaller or equal id. */
  function Insert(e: DeletionEntry, s: seq<DeletionEntry>): (r: seq<DeletionEntry>)
    ensures |r| == |s| + 1
    ensures forall x :: x in r <==> x == e || x in s
    ensures StrictById(s) && (forall x | x in s :: x.id != e.id) ==> StrictById(r)
  {
    if s == [] || e.id < s[0].id then [e] + s
    else
      var rest := Insert(e, s[1..]);
      assert StrictById(s) && (forall x | x in s :: x.id != e.id) ==> forall x | x in rest :: s[0].id < x.id;
      [s[0]] + rest
  }

  /** A stable sort by id. */
  function SortById(s: seq<DeletionEntry>): (r: seq<DeletionEntry>)
    ensures |r| == |s|
    ensures forall x :: x in r <==> x in s
    ensures DistinctIds(s) ==> StrictById(r)
  {
    if s == [] then [] else Insert(s[|s| - 1], SortById(s[..|s| - 1]))
  }

  /** The entries with this id, in order. */
  function OfId(s: seq<DeletionEntry>, id: Id): seq<DeletionEntry> {
    if s == [] then [] else (if s[0].id == id then [s[0]] else []) + OfId(s[1..], id)
  }

  predicate SortedById(s: seq<DeletionEntry>) {
    forall i, j | 0 <= i < j < |s| :: s[i].id <= s[j].id
  }

  lemma {:induction false} OfIdSnoc(s: seq<DeletionEntry>, e: DeletionEntry, id: Id)
    ensures OfId(s + [e], id) == OfId(s, id) + if e.id == id then [e] else []
  {
    var t := s + [e];
    if s == [] {
      assert t == [e] && t[1..] == [];
    } else {
      assert t[0] == s[0] && t[1..] == s[1..] + [e];
      OfIdSnoc(s[1..], e, id);
      OfIdHead(t, id);
      OfIdHead(s, id);
    }
  }

  lemma OfIdHead(s: seq<DeletionEntry>, id: Id)
    requires s != []
    ensures OfId(s, id) == (if s[0].id == id then [s[0]] else []) + OfId(s[1..], id)
  {
  }

  lemma {:induction false} NoneOfId(s: seq<DeletionEntry>, id: Id)
    requires forall x | x in s :: x.id != id
    ensures OfId(s, id) == []
  {
    if s != [] {
      NoneOfId(s[1..], id);
    }
  }

  lemma {:induction false} InsertSorts(e: DeletionEntry, s: seq<DeletionEntry>)
    requires SortedById(s)
    ensures SortedById(Insert(e, s))
  {
    if s != [] && e.id >= s[0].id {
      InsertSorts(e, s[1..]);
      var rest := Insert(e, s[1..]);
      forall j | 0 <= j < |rest| ensures s[0].id <= rest[j].id {
        assert rest[j] in rest;
      }
    }
  }

  lemma {:induction false} InsertIsStable(e: DeletionEntry, s: seq<DeletionEntry>, id: Id)
    requires SortedById(s)
    ensures OfId(Insert(e, s), id) == OfId(s, id) + if e.id == id then [e] else []
  {
    if s == [] || e.id < s[0].id {
      assert ([e] + s)[1..] == s;
      if e.id == id {
        forall x | x in s ensures x.id != id {
          assert s[0].id <= x.id;
        }
        NoneOfId(s, id);
      }
    } else {
      InsertIsStable(e, s[1..], id);
      assert ([s[0]] + Insert(e, s[1..]))[1..] == Insert(e, s[1..]);
    }
  }

  lemma SortSnoc(init: seq<DeletionEntry>, last: DeletionEntry)
    ensures SortById(init + [last]) == Insert(last, SortById(init))
  {
    hide Insert;
    assert (init + [last])[..|init|] == init;
  }

  /** `sorted` climbs and has the entries of each id in the order of `s`. */
  predicate StableFor(sorted: seq<DeletionEntry>, s: seq<DeletionEntry>, id: Id) {
    SortedById(sorted) && OfId(sorted, id) == OfId(s, id)
  }

  lemma StableSnoc(sorted: seq<DeletionEntry>, init: seq<DeletionEntry>, last: DeletionEntry, id: Id)
    requires StableFor(sorted, init, id)
    ensures StableFor(Insert(last, sorted), init + [last], id)
  {
    hide Insert, OfId, SortedById;
    InsertSorts(last, sorted);
    InsertIsStable(last, sorted, id);
    OfIdSnoc(init, last, id);
  }

  lemma SortedEmpty(id: Id)
    ensures StableFor(SortById([]), [], id)
  {
  }

  /** The sorted selection climbs, and entries of one id keep their order. */
  lemma {:induction false} SortIsStable(s: seq<DeletionEntry>, id: Id)
    ensures StableFor(SortById(s), s, id)
  {
    hide StableFor, Insert, SortById;
    if s == [] {
      SortedEmpty(id);
    } else {
      var init, last := s[..|s| - 1], s[|s| - 1];
      assert s == init + [last];
      SortIsStable(init, id);
      StableSnoc(SortById(init), init, last, id);
      SortSnoc(init, last);
    }
  }

  /** Two strictly sorted lists with the same entries are the same list. */
  lemma {:induction false} SortedUnique(a: seq<DeletionEntry>, b: seq<DeletionEntry>)
    requires StrictById(a) && StrictById(b) && forall x :: x in a <==> x in b
    ensures a == b
  {
    if b != [] {
      assert b[0] in a;
    }
    if a != [] {
      assert a[0] in b;
      assert a[0] == b[0];
      forall x ensures x in a[1..] <==> x in b[1..] {
        assert x in a <==> x in b;
        assert x in a[1..] <==> x in a && x != a[0];
        assert x in b[1..] <==> x in b && x != b[0];
      }
      SortedUnique(a[1..], b[1..]);
    }
  }

  function SelectionPreimage(entries: seq<DeletionEntry>): Bytes {
    Encode(SortById(entries))
  }

  /** The order in which distinct entries were selected does not matter. */
  lemma SelectionOrderIrrelevant(a: seq<DeletionEntry>, b: seq<DeletionEntry>)
    requires DistinctIds(a) && DistinctIds(b) && forall x :: x in a <==> x in b
    ensures SelectionPreimage(a) == SelectionPreimage(b)
  {
    SortedUnique(SortById(a), SortById(b));
  }

  /** Equal pre-images mean the same selection: same evidence, entry for entry, in id order. */
  lemma SelectionBindsEvidence(a: seq<DeletionEntry>, b: seq<DeletionEntry>)
    requires (forall e | e in a :: Encodable(e)) && (forall e | e in b :: Encodable(e))
    requires SelectionPreimage(a) == SelectionPreimage(b)
    ensures SameList(SortById(a), SortById(b))
  {
    forall i | 0 <= i < |SortById(a)| ensures Encodable(SortById(a)[i]) {
      assert SortById(a)[i] in a;
    }
    forall i | 0 <= i < |SortById(b)| ensures Encodable(SortById(b)[i]) {
      assert SortById(b)[i] in b;
    }
    EncodeInjective(SortById(a), SortById(b));
  }

  // ---------------------------------------------------------------- snapshot token

  const I128_LIMIT: int := 0x8000_0000_0000_0000_0000_0000_0000_0000

  /** Two's complement, least significant byte first. */
  function Signed128(m: int): Bytes
    requires -I128_LIMIT <= m < I128_LIMIT
  {
    LittleEndian(if m < 0 then m + U128_LIMIT else m, 16)
  }

  function TokenPreimage(identity: Option<Identity>, size: nat, modified: int): Bytes
    requires -I128_LIMIT <= modified < I128_LIMIT
  {
    (if identity.Some? then identity.value.volume + [0] + identity.value.file else [])
    + LittleEndian(size, 8) + Signed128(modified)
  }

  predicate NulFree(identity: Option<Identity>) {
    identity.Some? ==> 0 !in identity.value.volume
  }

  lemma FirstNul(v: Bytes, f: Bytes)
    requires 0 !in v
    ensures var s := v + [0] + f; s[|v|] == 0 && forall k | 0 <= k < |v| :: s[k] != 0
  {
  }

  lemma CutAtNul(v: Bytes, f: Bytes, w: Bytes, g: Bytes)
    requires 0 !in v && 0 !in w && v + [0] + f == w + [0] + g
    ensures v == w && f == g
  {
    FirstNul(v, f);
    FirstNul(w, g);
    assert |v| == |w|;
    Cut(v + [0], f, w + [0], g);
    Cut(v, [0], w, [0]);
  }

  /** With NUL-free volume identifiers the token's pre-image determines identity, size and time. */
  lemma TokenBinds(i: Option<Identity>, s: nat, m: int, i': Option<Identity>, s': nat, m': int)
    requires NulFree(i) && NulFree(i') && s < U64_LIMIT && s' < U64_LIMIT
    requires -I128_LIMIT <= m < I128_LIMIT && -I128_LIMIT <= m' < I128_LIMIT
    requires TokenPreimage(i, s, m) == TokenPreimage(i', s', m')
    ensures i == i' && s == s' && m == m'
  {
    var h := if i.Some? then i.value.volume + [0] + i.value.file else [];
    var h' := if i'.Some? then i'.value.volume + [0] + i'.value.file else [];
    assert |h| == |h'|;
    Cut(h + LittleEndian(s, 8), Signed128(m), h' + LittleEndian(s', 8), Signed128(m'));
    Cut(h, LittleEndian(s, 8), h', LittleEndian(s', 8));
    Widths();
    LittleEndianInjective(s, s', 8);
    LittleEndianInjective(if m < 0 then m + U128_LIMIT else m, if m' < 0 then m' + U128_LIMIT else m', 16);
    if i.Some? && i'.Some? {
      CutAtNul(i.value.volume, i.value.file, i'.value.volume, i'.value.file);
    }
  }

  /** Without that restriction two different identities share a pre-image. */
  lemma TokenNeedsNulFree(a: Bytes, b: Bytes, c: Bytes, s: nat, m: int)
    requires -I128_LIMIT <= m < I128_LIMIT
    ensures TokenPreimage(Some(Identity(a + [0] + b, c)), s, m) == TokenPreimage(Some(Identity(a, b + [0] + c)), s, m)
    ensures Identity(a + [0] + b, c) != Identity(a, b + [0] + c)
  {
    assert (a + [0] + b) + [0] + c == a + [0] + (b + [0] + c);
    assert |a + [0] + b| != |a|;
  }
}
