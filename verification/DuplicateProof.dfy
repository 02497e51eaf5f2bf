/** The layered duplicate proof: a streamed group-by over the ordered rows of a session, then quick
    hash, BLAKE3, SHA-256 and identity de-duplication. */
module DuplicateProof {
  import opened Domain

  datatype Mode = Strict | Content

  datatype LinkKind = Regular | HardLink | Symlink | Junction | Other

  datatype Row = Row(path: Path, name: string, size: nat, identity: Option<Identity>, kind: LinkKind, links: Option<nat>)

  /** What one evidence stage yields for one file. */
  datatype Reading = Stable(digest: Bytes) | Unstable | Failed

  datatype Evidence = Evidence(quick: Row -> Reading, blake3: Row -> Reading, sha256: Row -> Reading)

  datatype Group = Group(size: nat, name: Option<string>, blake3: Bytes, sha256: Bytes, members: seq<Row>)

  // ---------------------------------------------------------------- picking rows

  /** The rows that satisfy `p`, in their order. */
  function Pick(rows: seq<Row>, p: Row -> bool): seq<Row> {
    if rows == [] then []
    else Pick(rows[..|rows| - 1], p) + if p(rows[|rows| - 1]) then [rows[|rows| - 1]] else []
  }

  lemma {:induction false} Picked(rows: seq<Row>, p: Row -> bool)
    ensures forall x :: x in Pick(rows, p) <==> x in rows && p(x)
  {
    if rows != [] {
      var init, last := rows[..|rows| - 1], rows[|rows| - 1];
      Picked(init, p);
      assert forall x :: x in rows <==> x in init || x == last;
    }
  }

  lemma PickSnoc(rows: seq<Row>, r: Row, p: Row -> bool)
    ensures Pick(rows + [r], p) == Pick(rows, p) + if p(r) then [r] else []
  {
    assert (rows + [r])[..|rows|] == rows;
  }

  lemma {:induction false} PickTwice(rows: seq<Row>, p: Row -> bool, q: Row -> bool, both: Row -> bool)
    requires forall x | x in rows :: both(x) <==> p(x) && q(x)
    ensures Pick(Pick(rows, p), q) == Pick(rows, both)
  {
    if rows != [] {
      var init, last := rows[..|rows| - 1], rows[|rows| - 1];
      assert rows == init + [last] && last in rows;
      PickTwice(init, p, q, both);
      PickSnoc(init, last, p);
      PickSnoc(init, last, both);
      if p(last) {
        PickSnoc(Pick(init, p), last, q);
      } else {
        assert Pick(rows, p) == Pick(init, p);
      }
    }
  }

  /** First row of every physical file; rows without an identity all stay. */
  function Independent(rows: seq<Row>): seq<Row> {
    if rows == [] then []
    else
      var init, last := rows[..|rows| - 1], rows[|rows| - 1];
      Independent(init) + if last.identity.None? || forall x | x in init :: x.identity != last.identity then [last] else []
  }

  predicate SameFile(x: Row, y: Row) {
    x == y || (x.identity.Some? && x.identity == y.identity)
  }

  ghost predicate Represented(x: Row, rows: seq<Row>) {
    exists y :: y in rows && SameFile(x, y)
  }

  lemma {:induction false} IndependentIsSubset(rows: seq<Row>)
    ensures forall x | x in Independent(rows) :: x in rows
  {
    if rows != [] {
      IndependentIsSubset(rows[..|rows| - 1]);
    }
  }

  /** No two independent members are one physical file ... */
  lemma {:induction false} IndependentIsDistinct(rows: seq<Row>)
    ensures forall i, j | 0 <= i < j < |Independent(rows)| ::
              Independent(rows)[i].identity.None? || Independent(rows)[i].identity != Independent(rows)[j].identity
  {
    if rows != [] {
      var init := rows[..|rows| - 1];
      IndependentIsDistinct(init);
      IndependentIsSubset(init);
      forall i | 0 <= i < |Independent(init)| ensures Independent(init)[i] in init {
        assert Independent(init)[i] in Independent(init);
      }
    }
  }

  /** ... and nobody is left without a representative. */
  lemma {:induction false} IndependentRepresents(rows: seq<Row>, x: Row)
    requires x in rows
    ensures Represented(x, Independent(rows))
  {
    var init, last := rows[..|rows| - 1], rows[|rows| - 1];
    assert x in init || x == last;
    if x in init {
      IndependentRepresents(init, x);
      var y :| y in Independent(init) && SameFile(x, y);
      assert y in Independent(rows);
    } else if last.identity.Some? && exists z :: z in init && z.identity == last.identity {
      var z :| z in init && z.identity == last.identity;
      IndependentRepresents(init, z);
      var y :| y in Independent(init) && SameFile(z, y);
      assert y in Independent(rows) && SameFile(x, y);
    } else {
      assert last in Independent(rows);
    }
  }

  method KeepIndependent(rows: seq<Row>) returns (r: seq<Row>)
    ensures r == Independent(rows)
  {
    var seen: set<Identity> := {};
    r := [];
    for i := 0 to |rows|
      invariant r == Independent(rows[..i])
      invariant forall id :: id in seen <==> exists k :: 0 <= k < i && rows[k].identity == Some(id)
    {
      assert rows[..i + 1][..i] == rows[..i];
      var row := rows[i];
      if row.identity.None? {
        r := r + [row];
      } else if row.identity.value !in seen {
        r := r + [row];
        seen := seen + {row.identity.value};
      }
    }
    assert rows[..|rows|] == rows;
  }

  // ---------------------------------------------------------------- one stage

  function Bearing(read: Row -> Reading, digest: Bytes): Row -> bool {
    r => read(r) == Stable(digest)
  }

  /** Group rows by the stable digest of one stage; failed and unstable rows are dropped. None stands
      for a cancellation, which aborts everything. */
  method GroupStable(rows: seq<Row>, read: Row -> Reading, cancellable: bool) returns (r: Option<map<Bytes, seq<Row>>>)
    ensures !cancellable ==> r.Some?
    ensures r.Some? ==> forall d :: d in r.value <==> Pick(rows, Bearing(read, d)) != []
    ensures r.Some? ==> forall d | d in r.value :: r.value[d] == Pick(rows, Bearing(read, d))
  {
    var groups: map<Bytes, seq<Row>> := map[];
    for i := 0 to |rows|
      invariant forall d :: d in groups <==> Pick(rows[..i], Bearing(read, d)) != []
      invariant forall d | d in groups :: groups[d] == Pick(rows[..i], Bearing(read, d))
    {
      var cancelled := *;
      if cancellable && cancelled {
        return None;
      }
      ghost var before := groups;
      assert rows[..i + 1] == rows[..i] + [rows[i]];
      forall d ensures Pick(rows[..i + 1], Bearing(read, d))
                       == Pick(rows[..i], Bearing(read, d)) + if read(rows[i]) == Stable(d) then [rows[i]] else []
      {
        PickSnoc(rows[..i], rows[i], Bearing(read, d));
      }
      if read(rows[i]).Stable? {
        var digest := read(rows[i]).digest;
        groups := groups[digest := (if digest in groups then groups[digest] else []) + [rows[i]]];
      }
    }
    assert rows[..|rows|] == rows;
    r := Some(groups);
  }

  // ---------------------------------------------------------------- the three stages

  datatype Key = Key(quick: Bytes, blake3: Bytes, sha256: Bytes)

  function BySha(e: Evidence, rows: seq<Row>, k: Key): seq<Row> {
    Pick(rows, Bearing(e.sha256, k.sha256))
  }

  function ByBlake(e: Evidence, rows: seq<Row>, k: Key): seq<Row> {
    BySha(e, Pick(rows, Bearing(e.blake3, k.blake3)), k)
  }

  function ByQuick(e: Evidence, rows: seq<Row>, k: Key): seq<Row> {
    ByBlake(e, Pick(rows, Bearing(e.quick, k.quick)), k)
  }

  /** The group proven for one key, from the rows that bear it. */
  function Built(mode: Mode, first: Row, k: Key, rows: seq<Row>): Group {
    Group(first.size, if mode.Strict? then Some(first.name) else None, k.blake3, k.sha256, Independent(rows))
  }

  predicate Distinct(keys: seq<Key>) {
    forall i, j | 0 <= i < j < |keys| :: keys[i] != keys[j]
  }

  lemma {:induction false} PickIsShorter(rows: seq<Row>, p: Row -> bool)
    ensures |Pick(rows, p)| <= |rows|
  {
    if rows != [] {
      PickIsShorter(rows[..|rows| - 1], p);
    }
  }

  lemma {:induction false} IndependentIsShorter(rows: seq<Row>)
    ensures |Independent(rows)| <= |rows|
  {
    if rows != [] {
      IndependentIsShorter(rows[..|rows| - 1]);
    }
  }

  /** The groups of one BLAKE3 class. */
  method ShaStage(e: Evidence, mode: Mode, first: Row, rows: seq<Row>, quick: Bytes, blake3: Bytes, cancellable: bool)
    returns (r: Option<seq<Group>>, ghost keys: seq<Key>)
    ensures !cancellable ==> r.Some?
    ensures r.Some? ==> |r.value| == |keys| && Distinct(keys)
    ensures r.Some? ==> forall i | 0 <= i < |keys| ::
              && keys[i].quick == quick && keys[i].blake3 == blake3
              && r.value[i] == Built(mode, first, keys[i], BySha(e, rows, keys[i])) && |r.value[i].members| >= 2
    ensures r.Some? ==> forall k: Key | k.quick == quick && k.blake3 == blake3 ::
              |Independent(BySha(e, rows, k))| >= 2 ==> k in keys
  {
    hide Pick, Bearing, Independent;
    keys := [];
    var groups: seq<Group> := [];
    var shas := GroupStable(rows, e.sha256, cancellable);
    if shas.None? {
      return None, keys;
    }
    var todo := shas.value.Keys;
    while todo != {}
      invariant todo <= shas.value.Keys
      invariant |groups| == |keys| && Distinct(keys)
      invariant forall i | 0 <= i < |keys| ::
                  && keys[i].quick == quick && keys[i].blake3 == blake3 && keys[i].sha256 !in todo
                  && groups[i] == Built(mode, first, keys[i], BySha(e, rows, keys[i])) && |groups[i].members| >= 2
      invariant forall k: Key | k.quick == quick && k.blake3 == blake3 && k.sha256 in shas.value && k.sha256 !in todo ::
                  |Independent(BySha(e, rows, k))| >= 2 ==> k in keys
      decreases todo
    {
      var sha256 :| sha256 in todo;
      todo := todo - {sha256};
      var files := shas.value[sha256];
      var independent := KeepIndependent(files);
      IndependentIsShorter(files);
      if |files| >= 2 && |independent| >= 2 {
        ghost var k := Key(quick, blake3, sha256);
        groups := groups + [Group(first.size, if mode.Strict? then Some(first.name) else None, blake3, sha256, independent)];
        keys := keys + [k];
      }
    }
    forall k: Key | k.quick == quick && k.blake3 == blake3 && |Independent(BySha(e, rows, k))| >= 2 ensures k in keys {
      IndependentIsShorter(BySha(e, rows, k));
    }
    r := Some(groups);
  }

  /** The groups of one quick class. */
  method BlakeStage(e: Evidence, mode: Mode, first: Row, rows: seq<Row>, quick: Bytes, cancellable: bool)
    returns (r: Option<seq<Group>>, ghost keys: seq<Key>)
    ensures !cancellable ==> r.Some?
    ensures r.Some? ==> |r.value| == |keys| && Distinct(keys)
    ensures r.Some? ==> forall i | 0 <= i < |keys| ::
              && keys[i].quick == quick
              && r.value[i] == Built(mode, first, keys[i], ByBlake(e, rows, keys[i])) && |r.value[i].members| >= 2
    ensures r.Some? ==> forall k: Key | k.quick == quick ::
              |Independent(ByBlake(e, rows, k))| >= 2 ==> k in keys
  {
    hide Independent, Pick, Bearing, BySha;
    keys := [];
    var groups: seq<Group> := [];
    var blakes := GroupStable(rows, e.blake3, cancellable);
    if blakes.None? {
      return None, keys;
    }
    var todo := blakes.value.Keys;
    while todo != {}
      invariant todo <= blakes.value.Keys
      invariant |groups| == |keys| && Distinct(keys)
      invariant forall i | 0 <= i < |keys| ::
                  && keys[i].quick == quick && keys[i].blake3 !in todo
                  && groups[i] == Built(mode, first, keys[i], ByBlake(e, rows, keys[i])) && |groups[i].members| >= 2
      invariant forall k: Key | k.quick == quick && k.blake3 in blakes.value && k.blake3 !in todo ::
                  |Independent(ByBlake(e, rows, k))| >= 2 ==> k in keys
      decreases todo
    {
      var blake3 :| blake3 in todo;
      todo := todo - {blake3};
      var group := blakes.value[blake3];
      if |group| >= 2 {
        var more, moreKeys := ShaStage(e, mode, first, group, quick, blake3, cancellable);
        if more.None? {
          return None, keys;
        }
        groups, keys := groups + more.value, keys + moreKeys;
      } else {
        TooFewForSha(e, group);
      }
    }
    forall k: Key | k.quick == quick && |Independent(ByBlake(e, rows, k))| >= 2 ensures k in keys {
      TooFewForSha(e, Pick(rows, Bearing(e.blake3, k.blake3)));
    }
    r := Some(groups);
  }

  lemma TooFewForSha(e: Evidence, rows: seq<Row>)
    ensures forall k: Key :: |Independent(BySha(e, rows, k))| <= |rows|
  {
    forall k: Key ensures |Independent(BySha(e, rows, k))| <= |rows| {
      PickIsShorter(rows, Bearing(e.sha256, k.sha256));
      IndependentIsShorter(BySha(e, rows, k));
    }
  }

  lemma TooFewForBlake(e: Evidence, rows: seq<Row>)
    ensures forall k: Key :: |Independent(ByBlake(e, rows, k))| <= |rows|
  {
    forall k: Key ensures |Independent(ByBlake(e, rows, k))| <= |rows| {
      PickIsShorter(rows, Bearing(e.blake3, k.blake3));
      TooFewForSha(e, Pick(rows, Bearing(e.blake3, k.blake3)));
    }
  }

  /** The groups of all eligible rows. */
  method QuickStage(e: Evidence, mode: Mode, first: Row, rows: seq<Row>, cancellable: bool)
    returns (r: Option<seq<Group>>, ghost keys: seq<Key>)
    ensures !cancellable ==> r.Some?
    ensures r.Some? ==> |r.value| == |keys| && Distinct(keys)
    ensures r.Some? ==> forall i | 0 <= i < |keys| ::
              r.value[i] == Built(mode, first, keys[i], ByQuick(e, rows, keys[i])) && |r.value[i].members| >= 2
    ensures r.Some? ==> forall k: Key :: |Independent(ByQuick(e, rows, k))| >= 2 ==> k in keys
  {
    hide Independent, Pick, Bearing, BySha, ByBlake;
    keys := [];
    var groups: seq<Group> := [];
    var quicks := GroupStable(rows, e.quick, cancellable);
    if quicks.None? {
      return None, keys;
    }
    var todo := quicks.value.Keys;
    while todo != {}
      invariant todo <= quicks.value.Keys
      invariant |groups| == |keys| && Distinct(keys)
      invariant forall i | 0 <= i < |keys| ::
                  && keys[i].quick !in todo
                  && groups[i] == Built(mode, first, keys[i], ByQuick(e, rows, keys[i])) && |groups[i].members| >= 2
      invariant forall k: Key | k.quick in quicks.value && k.quick !in todo ::
                  |Independent(ByQuick(e, rows, k))| >= 2 ==> k in keys
      decreases todo
    {
      var quick :| quick in todo;
      todo := todo - {quick};
      var group := quicks.value[quick];
      if |group| >= 2 {
        var more, moreKeys := BlakeStage(e, mode, first, group, quick, cancellable);
        if more.None? {
          return None, keys;
        }
        groups, keys := groups + more.value, keys + moreKeys;
      } else {
        TooFewForBlake(e, group);
      }
    }
    forall k: Key | |Independent(ByQuick(e, rows, k))| >= 2 ensures k in keys {
      TooFewForBlake(e, Pick(rows, Bearing(e.quick, k.quick)));
    }
    r := Some(groups);
  }

  // ---------------------------------------------------------------- one preliminary group

  /** Same preliminary group: same size and, in strict mode, same normalized name. */
  predicate Alike(mode: Mode, a: Row, b: Row) {
    a.size == b.size && (mode.Strict? ==> a.name == b.name)
  }

  function AlikeTo(mode: Mode, f: Row): Row -> bool {
    r => Alike(mode, f, r)
  }

  predicate Single(r: Row) {
    !r.kind.HardLink? && (r.links.None? || r.links.value == 1)
  }

  /** `r` may stand in one group with `f`: every stage was stable and gave the same digest. */
  predicate SameProof(e: Evidence, mode: Mode, f: Row, r: Row) {
    && Single(r) && Alike(mode, f, r)
    && e.quick(f).Stable? && e.quick(r) == e.quick(f)
    && e.blake3(f).Stable? && e.blake3(r) == e.blake3(f)
    && e.sha256(f).Stable? && e.sha256(r) == e.sha256(f)
  }

  /** The one-shot class of `f`: all rows with its full key at once. */
  function Class(e: Evidence, mode: Mode, rows: seq<Row>, f: Row): seq<Row> {
    Pick(rows, r => SameProof(e, mode, f, r))
  }

  /** A group is exactly the de-duplicated one-shot class of its first member. */
  predicate Proves(e: Evidence, mode: Mode, rows: seq<Row>, g: Group) {
    && |g.members| >= 2
    && g.members == Independent(Class(e, mode, rows, g.members[0]))
    && g.members[0] in rows && SameProof(e, mode, g.members[0], g.members[0])
    && g.size == g.members[0].size
    && g.name == (if mode.Strict? then Some(g.members[0].name) else None)
    && e.blake3(g.members[0]) == Stable(g.blake3) && e.sha256(g.members[0]) == Stable(g.sha256)
  }

  ghost predicate Found(e: Evidence, mode: Mode, rows: seq<Row>, groups: seq<Group>, f: Row) {
    exists i :: 0 <= i < |groups| && groups[i].members == Independent(Class(e, mode, rows, f))
  }

  /** The groups are the one-shot classes with two independent members, each exactly once. */
  ghost predicate Exact(e: Evidence, mode: Mode, rows: seq<Row>, groups: seq<Group>) {
    && (forall i | 0 <= i < |groups| :: Proves(e, mode, rows, groups[i]))
    && (forall i, j | 0 <= i < j < |groups| :: !SameProof(e, mode, groups[i].members[0], groups[j].members[0]))
    && (forall f | f in rows && |Independent(Class(e, mode, rows, f))| >= 2 :: Found(e, mode, rows, groups, f))
  }

  predicate HasKey(e: Evidence, f: Row, k: Key) {
    e.quick(f) == Stable(k.quick) && e.blake3(f) == Stable(k.blake3) && e.sha256(f) == Stable(k.sha256)
  }

  /** Three filters in a row are one filter by the full key. */
  lemma StagesAreClass(e: Evidence, mode: Mode, alike: seq<Row>, k: Key, f: Row)
    requires (forall x | x in alike :: Alike(mode, f, x)) && HasKey(e, f, k)
    ensures ByQuick(e, Pick(alike, Single), k) == Class(e, mode, alike, f)
  {
    hide Pick;
    var q: Row -> bool := x => Single(x) && e.quick(x) == Stable(k.quick);
    var b: Row -> bool := x => q(x) && e.blake3(x) == Stable(k.blake3);
    PickTwice(alike, Single, Bearing(e.quick, k.quick), q);
    PickTwice(alike, q, Bearing(e.blake3, k.blake3), b);
    PickTwice(alike, b, Bearing(e.sha256, k.sha256), r => SameProof(e, mode, f, r));
  }

  /** The first member of a non-empty stage result bears the whole key. */
  lemma MembersBearKey(e: Evidence, rows: seq<Row>, k: Key, x: Row)
    requires x in Independent(ByQuick(e, rows, k))
    ensures x in rows && HasKey(e, x, k)
  {
    hide Pick, Independent;
    var l1 := Pick(rows, Bearing(e.quick, k.quick));
    var l2 := Pick(l1, Bearing(e.blake3, k.blake3));
    IndependentIsSubset(ByQuick(e, rows, k));
    Picked(rows, Bearing(e.quick, k.quick));
    Picked(l1, Bearing(e.blake3, k.blake3));
    Picked(l2, Bearing(e.sha256, k.sha256));
  }

  lemma BuiltProves(e: Evidence, mode: Mode, first: Row, alike: seq<Row>, k: Key)
    requires forall x | x in alike :: Alike(mode, first, x)
    requires |Independent(ByQuick(e, Pick(alike, Single), k))| >= 2
    ensures var g := Built(mode, first, k, ByQuick(e, Pick(alike, Single), k));
            Proves(e, mode, alike, g) && HasKey(e, g.members[0], k)
  {
    hide Pick, Independent, ByQuick;
    var g := Built(mode, first, k, ByQuick(e, Pick(alike, Single), k));
    MembersBearKey(e, Pick(alike, Single), k, g.members[0]);
    Picked(alike, Single);
    StagesAreClass(e, mode, alike, k, g.members[0]);
  }

  /** A class with two members has a full key. */
  lemma ClassHasKey(e: Evidence, mode: Mode, rows: seq<Row>, f: Row) returns (k: Key)
    requires |Independent(Class(e, mode, rows, f))| >= 2
    ensures HasKey(e, f, k)
  {
    hide Pick, Independent;
    var x := Independent(Class(e, mode, rows, f))[0];
    IndependentIsSubset(Class(e, mode, rows, f));
    assert x in Class(e, mode, rows, f) by {
      assert x in Independent(Class(e, mode, rows, f));
    }
    Picked(rows, r => SameProof(e, mode, f, r));
    k := Key(e.quick(f).digest, e.blake3(f).digest, e.sha256(f).digest);
  }

  /** Confirm one preliminary group: among the candidates alike to the first, exactly the one-shot
      classes. */
  method ConfirmGroup(e: Evidence, mode: Mode, candidates: seq<Row>, cancellable: bool) returns (r: Option<seq<Group>>)
    ensures !cancellable ==> r.Some?
    ensures candidates == [] ==> r == Some([])
    ensures candidates != [] && r.Some? ==>
              && Exact(e, mode, Pick(candidates, AlikeTo(mode, candidates[0])), r.value)
              && ReportsOnly(e, mode, Pick(candidates, AlikeTo(mode, candidates[0])), r.value)
  {
    hide Pick, Independent, ByQuick, Proves, Class, ReportsOnly;
    if candidates == [] {
      return Some([]);
    }
    var first := candidates[0];
    ghost var alike := Pick(candidates, AlikeTo(mode, first));
    Picked(candidates, AlikeTo(mode, first));
    if |candidates| < 2 {
      forall f ensures |Independent(Class(e, mode, alike, f))| < 2 {
        ClassIsShorter(e, mode, candidates, first, f);
      }
      ProvesIsFit(e, mode, alike, []);
      return Some([]);
    }
    var eligible := Pick(candidates, x => Alike(mode, first, x) && Single(x));
    PickTwice(candidates, AlikeTo(mode, first), Single, x => Alike(mode, first, x) && Single(x));
    ghost var keys;
    r, keys := QuickStage(e, mode, first, eligible, cancellable);
    if r.None? {
      return;
    }
    forall i | 0 <= i < |keys|
      ensures Proves(e, mode, alike, r.value[i]) && |r.value[i].members| >= 2 && HasKey(e, r.value[i].members[0], keys[i])
    {
      BuiltProves(e, mode, first, alike, keys[i]);
    }
    forall f | f in alike && |Independent(Class(e, mode, alike, f))| >= 2 ensures Found(e, mode, alike, r.value, f) {
      var k := ClassHasKey(e, mode, alike, f);
      StagesAreClass(e, mode, alike, k, f);
      assert k in keys;
      var i :| 0 <= i < |keys| && keys[i] == k;
      assert r.value[i].members == Independent(Class(e, mode, alike, f));
    }
    ProvesIsFit(e, mode, alike, r.value);
  }

  lemma ClassIsShorter(e: Evidence, mode: Mode, candidates: seq<Row>, first: Row, f: Row)
    ensures |Independent(Class(e, mode, Pick(candidates, AlikeTo(mode, first)), f))| <= |candidates|
  {
    var alike := Pick(candidates, AlikeTo(mode, first));
    PickIsShorter(candidates, AlikeTo(mode, first));
    PickIsShorter(alike, r => SameProof(e, mode, f, r));
    IndependentIsShorter(Class(e, mode, alike, f));
  }

  // ---------------------------------------------------------------- streaming

  /** What an ORDER BY that starts with the preliminary key guarantees: alike rows are adjacent. */
  ghost predicate Adjacent(mode: Mode, rows: seq<Row>) {
    forall i, j, k | 0 <= i < j < k < |rows| && Alike(mode, rows[i], rows[k]) :: Alike(mode, rows[i], rows[j])
  }

  /** The whole preliminary group of `f`. */
  function AllAlike(mode: Mode, rows: seq<Row>, f: Row): seq<Row> {
    Pick(rows, AlikeTo(mode, f))
  }

  lemma AllAlikeSnoc(mode: Mode, rows: seq<Row>, i: nat, f: Row)
    requires i < |rows|
    ensures AllAlike(mode, rows[..i + 1], f) == AllAlike(mode, rows[..i], f) + if Alike(mode, f, rows[i]) then [rows[i]] else []
  {
    assert rows[..i + 1] == rows[..i] + [rows[i]];
    PickSnoc(rows[..i], rows[i], AlikeTo(mode, f));
  }

  lemma {:induction false} AllAlikeOfAlike(mode: Mode, rows: seq<Row>, f: Row, g: Row)
    requires Alike(mode, f, g)
    ensures AllAlike(mode, rows, f) == AllAlike(mode, rows, g)
  {
    if rows != [] {
      AllAlikeOfAlike(mode, rows[..|rows| - 1], f, g);
    }
  }

  lemma {:induction false} NoneAlike(mode: Mode, rows: seq<Row>, f: Row)
    requires forall x | x in rows :: !Alike(mode, f, x)
    ensures AllAlike(mode, rows, f) == []
  {
    if rows != [] {
      assert rows[|rows| - 1] in rows;
      NoneAlike(mode, rows[..|rows| - 1], f);
    }
  }

  predicate WholeGroup(mode: Mode, rows: seq<Row>, g: seq<Row>)
    requires g != []
  {
    g == AllAlike(mode, rows, g[0]) && g[0] in rows
  }

  ghost predicate Streamed(mode: Mode, rows: seq<Row>, groups: seq<seq<Row>>, f: Row) {
    exists i :: 0 <= i < |groups| && groups[i] == AllAlike(mode, rows, f)
  }

  /** The groups are whole, not alike to each other, and all those of two rows that satisfy `p`. */
  ghost predicate Groups(mode: Mode, rows: seq<Row>, groups: seq<seq<Row>>, p: Row -> bool) {
    && (forall i | 0 <= i < |groups| :: |groups[i]| >= 2 && WholeGroup(mode, rows, groups[i]) && p(groups[i][0]))
    && (forall i, j | 0 <= i < j < |groups| :: !Alike(mode, groups[i][0], groups[j][0]))
    && (forall f | f in rows && p(f) && |AllAlike(mode, rows, f)| >= 2 :: Streamed(mode, rows, groups, f))
  }

  function Unlike(mode: Mode, last: Row): Row -> bool {
    r => !Alike(mode, r, last)
  }

  lemma WholeRun(mode: Mode, rows: seq<Row>, last: Row)
    requires |AllAlike(mode, rows, last)| >= 2
    ensures WholeGroup(mode, rows, AllAlike(mode, rows, last)) && Alike(mode, AllAlike(mode, rows, last)[0], last)
  {
    hide Pick;
    var current := AllAlike(mode, rows, last);
    Picked(rows, AlikeTo(mode, last));
    assert current[0] in current;
    AllAlikeOfAlike(mode, rows, last, current[0]);
  }

  /** Close the current run. */
  lemma CloseRun(mode: Mode, rows: seq<Row>, groups: seq<seq<Row>>, last: Row)
    requires last in rows && Groups(mode, rows, groups, Unlike(mode, last))
    ensures Groups(mode, rows, if |AllAlike(mode, rows, last)| >= 2 then groups + [AllAlike(mode, rows, last)] else groups,
                   r => true)
  {
    hide AllAlike, WholeGroup, Streamed;
    var current := AllAlike(mode, rows, last);
    var groups' := if |current| >= 2 then groups + [current] else groups;
    if |current| >= 2 {
      WholeRun(mode, rows, last);
    }
    forall f | f in rows && |AllAlike(mode, rows, f)| >= 2 ensures Streamed(mode, rows, groups', f) {
      StillStreamed(mode, rows, groups, last, f);
    }
  }

  lemma StillStreamed(mode: Mode, rows: seq<Row>, groups: seq<seq<Row>>, last: Row, f: Row)
    requires Groups(mode, rows, groups, Unlike(mode, last)) && f in rows && |AllAlike(mode, rows, f)| >= 2
    ensures Streamed(mode, rows, if |AllAlike(mode, rows, last)| >= 2 then groups + [AllAlike(mode, rows, last)] else groups, f)
  {
    hide AllAlike, WholeGroup;
    var current := AllAlike(mode, rows, last);
    var groups' := if |current| >= 2 then groups + [current] else groups;
    if Alike(mode, f, last) {
      AllAlikeOfAlike(mode, rows, f, last);
      assert groups'[|groups|] == AllAlike(mode, rows, f);
    } else {
      assert Streamed(mode, rows, groups, f);
      var i :| 0 <= i < |groups| && groups[i] == AllAlike(mode, rows, f);
      assert groups'[i] == AllAlike(mode, rows, f);
    }
  }

  /** One more row does not touch the groups it is unlike. */
  lemma NextRow(mode: Mode, rows: seq<Row>, i: nat, groups: seq<seq<Row>>, p: Row -> bool)
    requires i < |rows| && Groups(mode, rows[..i], groups, p)
    requires forall f | f in rows[..i] :: p(f) <==> !Alike(mode, f, rows[i])
    ensures Groups(mode, rows[..i + 1], groups, Unlike(mode, rows[i]))
  {
    hide Pick;
    assert rows[..i + 1] == rows[..i] + [rows[i]];
    forall f ensures !Alike(mode, f, rows[i]) ==> AllAlike(mode, rows[..i + 1], f) == AllAlike(mode, rows[..i], f) {
      AllAlikeSnoc(mode, rows, i, f);
    }
    forall f | f in rows[..i + 1] && !Alike(mode, f, rows[i]) && |AllAlike(mode, rows[..i + 1], f)| >= 2
      ensures Streamed(mode, rows[..i + 1], groups, f)
    {
      assert f in rows[..i] && p(f);
      assert Streamed(mode, rows[..i], groups, f);
    }
  }

  /** Adjacent alike rows: a new run has no earlier row. */
  lemma NewRun(mode: Mode, rows: seq<Row>, i: nat)
    requires Adjacent(mode, rows) && 0 < i < |rows| && !Alike(mode, rows[i - 1], rows[i])
    ensures forall f | f in rows[..i] :: !Alike(mode, f, rows[i])
  {
    forall f | f in rows[..i] ensures !Alike(mode, f, rows[i]) {
      var k :| 0 <= k < i && rows[k] == f;
      assert k < i - 1 ==> Alike(mode, rows[k], rows[i]) ==> Alike(mode, rows[k], rows[i - 1]);
    }
  }

  function PreliminaryKey(mode: Mode, r: Row): (nat, Option<string>) {
    (r.size, if mode.Strict? then Some(r.name) else None)
  }

  /** Cut the ordered rows into runs and hand on every run of at least two: exactly the preliminary
      groups with two rows, each once and each complete. */
  method StreamGroups(mode: Mode, rows: seq<Row>) returns (groups: seq<seq<Row>>)
    requires Adjacent(mode, rows)
    ensures Groups(mode, rows, groups, r => true)
  {
    hide Pick, Groups, Adjacent;
    groups := [];
    var currentKey: Option<(nat, Option<string>)> := None;
    var currentGroup: seq<Row> := [];
    for i := 0 to |rows|
      invariant if i == 0 then currentKey.None? && currentGroup == [] && groups == []
                else currentKey == Some(PreliminaryKey(mode, rows[i - 1]))
                     && currentGroup == AllAlike(mode, rows[..i], rows[i - 1])
                     && Groups(mode, rows[..i], groups, Unlike(mode, rows[i - 1]))
    {
      var key := PreliminaryKey(mode, rows[i]);
      if i == 0 {
        FirstRow(mode, rows);
      } else {
        AllAlikeSnoc(mode, rows, i, rows[i]);
        if currentKey != Some(key) {
          CloseRun(mode, rows[..i], groups, rows[i - 1]);
          if |currentGroup| >= 2 {
            groups := groups + [currentGroup];
          }
          currentGroup := [];
          NewRun(mode, rows, i);
          NoneAlike(mode, rows[..i], rows[i]);
          NextRow(mode, rows, i, groups, r => true);
        } else {
          AllAlikeOfAlike(mode, rows[..i], rows[i - 1], rows[i]);
          NextRow(mode, rows, i, groups, Unlike(mode, rows[i - 1]));
        }
      }
      currentKey := Some(key);
      currentGroup := currentGroup + [rows[i]];
    }
    assert rows[..|rows|] == rows;
    if rows == [] {
      NoRows(mode);
    } else {
      CloseRun(mode, rows, groups, rows[|rows| - 1]);
    }
    if |currentGroup| >= 2 {
      groups := groups + [currentGroup];
    }
  }

  lemma FirstRow(mode: Mode, rows: seq<Row>)
    requires rows != []
    ensures Groups(mode, rows[..1], [], Unlike(mode, rows[0])) && AllAlike(mode, rows[..1], rows[0]) == [rows[0]]
  {
    assert rows[..1] == [rows[0]];
    PickSnoc([], rows[0], AlikeTo(mode, rows[0]));
    assert [] + [rows[0]] == [rows[0]];
  }

  lemma NoRows(mode: Mode)
    ensures Groups(mode, [], [], r => true)
  {
  }

  // ---------------------------------------------------------------- the whole session

  /** The class of a row is decided inside its preliminary group. */
  lemma ClassIsLocal(e: Evidence, mode: Mode, rows: seq<Row>, head: Row, f: Row)
    requires Alike(mode, head, f)
    ensures Class(e, mode, AllAlike(mode, rows, head), f) == Class(e, mode, rows, f)
  {
    PickTwice(rows, AlikeTo(mode, head), r => SameProof(e, mode, f, r), r => SameProof(e, mode, f, r));
  }

  lemma ProvesIsLocal(e: Evidence, mode: Mode, rows: seq<Row>, head: Row, g: Group)
    requires Proves(e, mode, AllAlike(mode, rows, head), g)
    ensures Proves(e, mode, rows, g) && Alike(mode, head, g.members[0])
  {
    hide Pick;
    Picked(rows, AlikeTo(mode, head));
    ClassIsLocal(e, mode, rows, head, g.members[0]);
  }

  /** What has been proved after some preliminary groups, `done` telling which rows those covered. */
  ghost predicate Partial(e: Evidence, mode: Mode, rows: seq<Row>, groups: seq<Group>, done: Row -> bool) {
    && (forall i | 0 <= i < |groups| :: Proves(e, mode, rows, groups[i]) && done(groups[i].members[0]))
    && (forall i, j | 0 <= i < j < |groups| :: !SameProof(e, mode, groups[i].members[0], groups[j].members[0]))
    && (forall f | f in rows && done(f) && |Independent(Class(e, mode, rows, f))| >= 2 :: Found(e, mode, rows, groups, f))
  }

  lemma FoundStays(e: Evidence, mode: Mode, rows: seq<Row>, groups: seq<Group>, more: seq<Group>, f: Row)
    requires Found(e, mode, rows, groups, f)
    ensures Found(e, mode, rows, groups + more, f) && Found(e, mode, rows, more + groups, f)
  {
    var i :| 0 <= i < |groups| && groups[i].members == Independent(Class(e, mode, rows, f));
    assert (groups + more)[i] == groups[i] && (more + groups)[|more| + i] == groups[i];
  }

  /** Add the groups of one more whole preliminary group. */
  lemma OneMoreGroup(e: Evidence, mode: Mode, rows: seq<Row>, head: Row, groups: seq<Group>, more: seq<Group>,
                     done: Row -> bool, done': Row -> bool)
    requires Partial(e, mode, rows, groups, done) && Exact(e, mode, AllAlike(mode, rows, head), more)
    requires forall f | f in rows :: done(f) ==> !Alike(mode, head, f)
    requires forall f | f in rows :: done'(f) <==> done(f) || Alike(mode, head, f)
    ensures Partial(e, mode, rows, groups + more, done')
  {
    hide Pick, AllAlike, Independent, Class, Found;
    forall i | 0 <= i < |more| ensures Proves(e, mode, rows, more[i]) && Alike(mode, head, more[i].members[0]) {
      ProvesIsLocal(e, mode, rows, head, more[i]);
    }
    forall f | f in rows && done'(f) && |Independent(Class(e, mode, rows, f))| >= 2
      ensures Found(e, mode, rows, groups + more, f)
    {
      if done(f) {
        FoundStays(e, mode, rows, groups, more, f);
      } else {
        FoundLocally(e, mode, rows, head, more, f);
        FoundStays(e, mode, rows, more, groups, f);
      }
    }
  }

  lemma FoundLocally(e: Evidence, mode: Mode, rows: seq<Row>, head: Row, more: seq<Group>, f: Row)
    requires Exact(e, mode, AllAlike(mode, rows, head), more) && f in rows && Alike(mode, head, f)
    requires |Independent(Class(e, mode, rows, f))| >= 2
    ensures Found(e, mode, rows, more, f)
  {
    hide Pick;
    ClassIsLocal(e, mode, rows, head, f);
    Picked(rows, AlikeTo(mode, head));
    assert Found(e, mode, AllAlike(mode, rows, head), more, f);
  }

  function CoveredBy(mode: Mode, heads: seq<Row>): Row -> bool {
    r => exists i :: 0 <= i < |heads| && Alike(mode, heads[i], r)
  }

  lemma AddHead(mode: Mode, heads: seq<Row>, head: Row)
    requires forall i | 0 <= i < |heads| :: !Alike(mode, heads[i], head)
    ensures forall f :: CoveredBy(mode, heads)(f) ==> !Alike(mode, head, f)
    ensures forall f :: CoveredBy(mode, heads + [head])(f) <==> CoveredBy(mode, heads)(f) || Alike(mode, head, f)
  {
    var more := heads + [head];
    forall f ensures CoveredBy(mode, more)(f) <==> CoveredBy(mode, heads)(f) || Alike(mode, head, f) {
      if CoveredBy(mode, heads)(f) {
        var i :| 0 <= i < |heads| && Alike(mode, heads[i], f);
        assert more[i] == heads[i];
      }
      if Alike(mode, head, f) {
        assert more[|heads|] == head;
      }
    }
  }

  /** Every class with two members lies in a preliminary group with two rows. */
  lemma ClassesAreStreamed(e: Evidence, mode: Mode, rows: seq<Row>, f: Row)
    ensures |Independent(Class(e, mode, rows, f))| <= |AllAlike(mode, rows, f)|
  {
    ClassIsLocal(e, mode, rows, f, f);
    PickIsShorter(AllAlike(mode, rows, f), r => SameProof(e, mode, f, r));
    IndependentIsShorter(Class(e, mode, rows, f));
  }

  lemma NothingDone(e: Evidence, mode: Mode, rows: seq<Row>)
    ensures Partial(e, mode, rows, [], CoveredBy(mode, []))
  {
  }

  lemma CoveredByHead(mode: Mode, heads: seq<Row>, i: nat, f: Row)
    requires i < |heads| && Alike(mode, heads[i], f)
    ensures CoveredBy(mode, heads)(f)
  {
  }

  lemma AllOfGroup(mode: Mode, rows: seq<Row>, head: Row)
    ensures Pick(AllAlike(mode, rows, head), AlikeTo(mode, head)) == AllAlike(mode, rows, head)
  {
    PickTwice(rows, AlikeTo(mode, head), AlikeTo(mode, head), AlikeTo(mode, head));
  }

  lemma HeadIsAlike(mode: Mode, rows: seq<Row>, f: Row)
    requires AllAlike(mode, rows, f) != []
    ensures Alike(mode, AllAlike(mode, rows, f)[0], f)
  {
    Picked(rows, AlikeTo(mode, f));
    assert AllAlike(mode, rows, f)[0] in AllAlike(mode, rows, f);
  }

  // ---------------------------------------------------------------- what the groups mean

  lemma MembersShareProof(e: Evidence, mode: Mode, rows: seq<Row>, g: Group, x: Row)
    requires Proves(e, mode, rows, g) && x in g.members
    ensures x in rows && SameProof(e, mode, g.members[0], x)
  {
    IndependentIsSubset(Class(e, mode, rows, g.members[0]));
    Picked(rows, r => SameProof(e, mode, g.members[0], r));
  }

  /** No row is reported in two groups. */
  lemma GroupsAreDisjoint(e: Evidence, mode: Mode, rows: seq<Row>, groups: seq<Group>, i: nat, j: nat, x: Row)
    requires Exact(e, mode, rows, groups) && i < |groups| && j < |groups|
    requires x in groups[i].members && x in groups[j].members
    ensures i == j
  {
    hide Proves, Class;
    assert Proves(e, mode, rows, groups[i]) && Proves(e, mode, rows, groups[j]);
    MembersShareProof(e, mode, rows, groups[i], x);
    MembersShareProof(e, mode, rows, groups[j], x);
    assert Proves(e, mode, rows, groups[i]) ==> SameProof(e, mode, groups[i].members[0], groups[i].members[0]) by {
      MembersShareProof(e, mode, rows, groups[i], groups[i].members[0]);
    }
    MembersShareProof(e, mode, rows, groups[j], groups[j].members[0]);
  }

  /** Not known to have a second link. */
  predicate Unlinked(r: Row) {
    r.kind != HardLink && r.links in {None, Some(1)}
  }

  /** The row has no second link, the group's size, name and digests. */
  predicate Fits(e: Evidence, mode: Mode, g: Group, x: Row) {
    && Unlinked(x) && x.size == g.size && g.name == (if mode == Strict then Some(x.name) else None)
    && e.quick(x).Stable? && e.blake3(x) == Stable(g.blake3) && e.sha256(x) == Stable(g.sha256)
  }

  predicate DistinctFiles(members: seq<Row>) {
    forall i, j | 0 <= i < j < |members| :: members[i].identity.None? || members[i].identity != members[j].identity
  }

  /** Every group has two members or more, all of them rows that fit it, no two one physical file. */
  ghost predicate ReportsOnly(e: Evidence, mode: Mode, rows: seq<Row>, groups: seq<Group>) {
    forall i | 0 <= i < |groups| ::
      && |groups[i].members| >= 2 && DistinctFiles(groups[i].members)
      && forall x | x in groups[i].members :: x in rows && Fits(e, mode, groups[i], x)
  }

  lemma ProvesIsFit(e: Evidence, mode: Mode, rows: seq<Row>, groups: seq<Group>)
    requires forall i | 0 <= i < |groups| :: Proves(e, mode, rows, groups[i])
    ensures ReportsOnly(e, mode, rows, groups)
  {
    hide Class, Independent;
    forall i | 0 <= i < |groups|
      ensures |groups[i].members| >= 2 && DistinctFiles(groups[i].members)
      ensures forall x | x in groups[i].members :: x in rows && Fits(e, mode, groups[i], x)
    {
      var g := groups[i];
      IndependentIsDistinct(Class(e, mode, rows, g.members[0]));
      forall x | x in g.members ensures x in rows && Fits(e, mode, g, x) {
        MembersShareProof(e, mode, rows, g, x);
        assert x.links == None || x.links == Some(1);
      }
    }
  }

  // ---------------------------------------------------------------- groups are equal contents

  /** The files behind the rows, and three unknown hash functions. */
  datatype Hashing = Hashing(content: Row -> Bytes, quick: Bytes -> Bytes, blake3: Bytes -> Bytes, sha256: Bytes -> Bytes)

  predicate Reads(reading: Reading, digest: Bytes) {
    reading.Stable? ==> reading.digest == digest
  }

  /** Stable readings are digests of the file's content. */
  predicate ReadFrom(e: Evidence, h: Hashing, r: Row) {
    && |h.content(r)| == r.size
    && Reads(e.quick(r), h.quick(h.content(r)))
    && Reads(e.blake3(r), h.blake3(h.content(r)))
    && Reads(e.sha256(r), h.sha256(h.content(r)))
  }

  /** All readings of a session are honest, and no two of its contents share both full digests. */
  ghost predicate Honest(e: Evidence, h: Hashing, rows: seq<Row>) {
    && (forall r | r in rows :: ReadFrom(e, h, r))
    && (forall a, b | a in rows && b in rows && h.blake3(h.content(a)) == h.blake3(h.content(b))
                      && h.sha256(h.content(a)) == h.sha256(h.content(b)) ::
          h.content(a) == h.content(b))
  }

  predicate AllStable(e: Evidence, r: Row) {
    e.quick(r).Stable? && e.blake3(r).Stable? && e.sha256(r).Stable?
  }

  /** `r` is fully read, has one link, and the content (and name, where names count) of `f`. */
  predicate SameContent(e: Evidence, h: Hashing, mode: Mode, f: Row, r: Row) {
    Single(r) && AllStable(e, r) && h.content(r) == h.content(f) && (mode.Strict? ==> r.name == f.name)
  }

  function ContentClass(e: Evidence, h: Hashing, mode: Mode, rows: seq<Row>, f: Row): seq<Row> {
    Pick(rows, r => SameContent(e, h, mode, f, r))
  }

  /** Two fully read files share a proof exactly when their contents (and names) are equal: equal
      contents cannot be separated by any stage, and equal full digests mean equal contents. */
  lemma ProofIsEqualContent(e: Evidence, h: Hashing, mode: Mode, rows: seq<Row>, f: Row, r: Row)
    requires Honest(e, h, rows) && f in rows && r in rows && AllStable(e, f)
    ensures SameProof(e, mode, f, r) <==> SameContent(e, h, mode, f, r)
  {
    assert ReadFrom(e, h, f) && ReadFrom(e, h, r);
    if AllStable(e, r) {
      assert e.quick(r) == Stable(h.quick(h.content(r))) && e.quick(f) == Stable(h.quick(h.content(f)));
      assert e.blake3(r) == Stable(h.blake3(h.content(r))) && e.blake3(f) == Stable(h.blake3(h.content(f)));
      assert e.sha256(r) == Stable(h.sha256(h.content(r))) && e.sha256(f) == Stable(h.sha256(h.content(f)));
    }
  }

  /** Filters that agree on the rows pick the same rows. */
  lemma PickSame(rows: seq<Row>, p: Row -> bool, q: Row -> bool)
    requires forall x | x in rows :: p(x) <==> q(x)
    ensures Pick(rows, p) == Pick(rows, q)
  {
    PickTwice(rows, r => true, p, q);
    PickTwice(rows, r => true, p, p);
  }

  /** The one-shot class of a fully read file is the class of its content, whatever the quick hash is. */
  lemma ClassIsEqualContent(e: Evidence, h: Hashing, mode: Mode, rows: seq<Row>, f: Row)
    requires Honest(e, h, rows) && f in rows && AllStable(e, f)
    ensures Class(e, mode, rows, f) == ContentClass(e, h, mode, rows, f)
  {
    hide Honest, SameProof, SameContent;
    forall r | r in rows ensures SameProof(e, mode, f, r) <==> SameContent(e, h, mode, f, r) {
      ProofIsEqualContent(e, h, mode, rows, f, r);
    }
    PickSame(rows, r => SameProof(e, mode, f, r), r => SameContent(e, h, mode, f, r));
  }

  /** Same size, name where names count, BLAKE3 and SHA-256; the quick digest is not compared. */
  predicate SameDigests(e: Evidence, mode: Mode, f: Row, r: Row) {
    Single(r) && Alike(mode, f, r) && AllStable(e, r) && e.blake3(r) == e.blake3(f) && e.sha256(r) == e.sha256(f)
  }

  /** The quick stage splits nothing: the class is that of size, name, BLAKE3 and SHA-256 alone. */
  lemma QuickStageSplitsNothing(e: Evidence, h: Hashing, mode: Mode, rows: seq<Row>, f: Row)
    requires Honest(e, h, rows) && f in rows && AllStable(e, f)
    ensures Class(e, mode, rows, f) == Pick(rows, r => SameDigests(e, mode, f, r))
  {
    forall r | r in rows ensures SameProof(e, mode, f, r) <==> SameDigests(e, mode, f, r) {
      ProofIsEqualContent(e, h, mode, rows, f, r);
      assert ReadFrom(e, h, f) && ReadFrom(e, h, r);
    }
    PickSame(rows, r => SameProof(e, mode, f, r), r => SameDigests(e, mode, f, r));
  }

  ghost predicate FoundByContent(e: Evidence, h: Hashing, mode: Mode, rows: seq<Row>, groups: seq<Group>, f: Row) {
    exists i :: 0 <= i < |groups| && groups[i].members == Independent(ContentClass(e, h, mode, rows, f))
  }

  /** A group is exactly the fully read, independent files with the content of its first member. */
  ghost predicate HoldsContent(e: Evidence, h: Hashing, mode: Mode, rows: seq<Row>, g: Group) {
    && |g.members| >= 2 && g.members[0] in rows && AllStable(e, g.members[0])
    && g.members == Independent(ContentClass(e, h, mode, rows, g.members[0]))
  }

  /** The groups are the classes of equal content with two independent members, each exactly once. */
  ghost predicate ExactByContent(e: Evidence, h: Hashing, mode: Mode, rows: seq<Row>, groups: seq<Group>) {
    && (forall i | 0 <= i < |groups| :: HoldsContent(e, h, mode, rows, groups[i]))
    && (forall i, j | 0 <= i < j < |groups| :: !SameContent(e, h, mode, groups[i].members[0], groups[j].members[0]))
    && (forall f | f in rows && AllStable(e, f) && |Independent(ContentClass(e, h, mode, rows, f))| >= 2 ::
          FoundByContent(e, h, mode, rows, groups, f))
  }

  lemma ExactMeansEqualContent(e: Evidence, h: Hashing, mode: Mode, rows: seq<Row>, groups: seq<Group>)
    requires Exact(e, mode, rows, groups) && Honest(e, h, rows)
    ensures ExactByContent(e, h, mode, rows, groups)
  {
    hide Honest, Class, ContentClass, Independent, SameContent;
    forall i | 0 <= i < |groups| ensures HoldsContent(e, h, mode, rows, groups[i]) {
      assert Proves(e, mode, rows, groups[i]);
      ClassIsEqualContent(e, h, mode, rows, groups[i].members[0]);
    }
    forall i, j | 0 <= i < j < |groups| ensures !SameContent(e, h, mode, groups[i].members[0], groups[j].members[0]) {
      assert HoldsContent(e, h, mode, rows, groups[i]) && HoldsContent(e, h, mode, rows, groups[j]);
      ProofIsEqualContent(e, h, mode, rows, groups[i].members[0], groups[j].members[0]);
    }
    forall f | f in rows && AllStable(e, f) && |Independent(ContentClass(e, h, mode, rows, f))| >= 2
      ensures FoundByContent(e, h, mode, rows, groups, f)
    {
      ClassIsEqualContent(e, h, mode, rows, f);
      assert Found(e, mode, rows, groups, f);
    }
  }

  /** Two fully read files without a second link, of equal content (and name, where names count). */
  predicate Duplicates(e: Evidence, h: Hashing, mode: Mode, x: Row, y: Row) {
    && Unlinked(x) && Unlinked(y) && AllStable(e, x) && AllStable(e, y)
    && h.content(x) == h.content(y) && (mode == Strict ==> x.name == y.name)
    && x != y && (x.identity.None? || x.identity != y.identity)
  }

  ghost predicate Together(groups: seq<Group>, x: Row, y: Row) {
    exists i :: 0 <= i < |groups| && Represented(x, groups[i].members) && Represented(y, groups[i].members)
  }

  /** Any two duplicates are reported in one group, each by itself or by another row of its file. */
  ghost predicate ReportsAll(e: Evidence, h: Hashing, mode: Mode, rows: seq<Row>, groups: seq<Group>) {
    forall x, y | x in rows && y in rows && Duplicates(e, h, mode, x, y) :: Together(groups, x, y)
  }

  /** And what is reported together has equal content. */
  ghost predicate ReportsEqual(h: Hashing, mode: Mode, groups: seq<Group>) {
    forall i, x, y | 0 <= i < |groups| && x in groups[i].members && y in groups[i].members ::
      h.content(x) == h.content(y) && (mode == Strict ==> x.name == y.name)
  }

  lemma DuplicatesAreReported(e: Evidence, h: Hashing, mode: Mode, rows: seq<Row>, groups: seq<Group>, x: Row, y: Row)
    requires ExactByContent(e, h, mode, rows, groups) && x in rows && y in rows && Duplicates(e, h, mode, x, y)
    ensures Together(groups, x, y)
  {
    hide Pick, Independent;
    var same := ContentClass(e, h, mode, rows, x);
    Picked(rows, r => SameContent(e, h, mode, x, r));
    assert x in same && y in same;
    IndependentRepresents(same, x);
    IndependentRepresents(same, y);
    var rx :| rx in Independent(same) && SameFile(x, rx);
    var ry :| ry in Independent(same) && SameFile(y, ry);
    assert rx != ry;
    assert |Independent(same)| >= 2;
    assert FoundByContent(e, h, mode, rows, groups, x);
    var i :| 0 <= i < |groups| && groups[i].members == Independent(same);
    assert Represented(x, groups[i].members) && Represented(y, groups[i].members);
  }

  lemma ReportedAreEqual(e: Evidence, h: Hashing, mode: Mode, rows: seq<Row>, groups: seq<Group>)
    requires ExactByContent(e, h, mode, rows, groups)
    ensures ReportsEqual(h, mode, groups)
  {
    hide Pick, Independent;
    forall i, x | 0 <= i < |groups| && x in groups[i].members
      ensures h.content(x) == h.content(groups[i].members[0]) && (mode == Strict ==> x.name == groups[i].members[0].name)
    {
      assert HoldsContent(e, h, mode, rows, groups[i]);
      var same := ContentClass(e, h, mode, rows, groups[i].members[0]);
      IndependentIsSubset(same);
      Picked(rows, r => SameContent(e, h, mode, groups[i].members[0], r));
    }
  }

  lemma ReportsEveryDuplicate(e: Evidence, h: Hashing, mode: Mode, rows: seq<Row>, groups: seq<Group>)
    requires ExactByContent(e, h, mode, rows, groups)
    ensures ReportsAll(e, h, mode, rows, groups) && ReportsEqual(h, mode, groups)
  {
    hide ExactByContent, Duplicates, Together;
    ReportedAreEqual(e, h, mode, rows, groups);
    forall x, y | x in rows && y in rows && Duplicates(e, h, mode, x, y) ensures Together(groups, x, y) {
      DuplicatesAreReported(e, h, mode, rows, groups, x, y);
    }
  }

  // ---------------------------------------------------------------- the command

  /** The whole detection over the ordered rows of a session: exactly the one-shot classes by the full
      key, although rows are streamed and hashed in layers; and, whatever the files `h` behind the rows
      are, exactly their classes of equal content. None stands for a cancellation. */
  method DetectSession(e: Evidence, mode: Mode, rows: seq<Row>, cancellable: bool, ghost h: Hashing)
    returns (r: Option<seq<Group>>)
    requires Adjacent(mode, rows)
    ensures !cancellable ==> r.Some?
    ensures r.Some? ==> Exact(e, mode, rows, r.value)
    ensures r.Some? ==> ReportsOnly(e, mode, rows, r.value)
    ensures r.Some? && Honest(e, h, rows) ==>
              && ExactByContent(e, h, mode, rows, r.value)
              && ReportsAll(e, h, mode, rows, r.value) && ReportsEqual(h, mode, r.value)
  {
    hide Honest, ExactByContent, ReportsOnly, ReportsAll, ReportsEqual;
    hide Pick, Independent, Class, Proves, SameProof, Found, Adjacent, CoveredBy, AllAlike;
    var preliminary := StreamGroups(mode, rows);
    var groups: seq<Group> := [];
    ghost var heads: seq<Row> := [];
    NothingDone(e, mode, rows);
    for i := 0 to |preliminary|
      invariant |heads| == i && forall k | 0 <= k < i :: heads[k] == preliminary[k][0]
      invariant Partial(e, mode, rows, groups, CoveredBy(mode, heads))
    {
      ghost var head := preliminary[i][0];
      assert WholeGroup(mode, rows, preliminary[i]);
      AllOfGroup(mode, rows, head);
      AddHead(mode, heads, head);
      var more := ConfirmGroup(e, mode, preliminary[i], cancellable);
      if more.None? {
        return None;
      }
      OneMoreGroup(e, mode, rows, head, groups, more.value, CoveredBy(mode, heads), CoveredBy(mode, heads + [head]));
      groups, heads := groups + more.value, heads + [head];
    }
    forall f | f in rows && |Independent(Class(e, mode, rows, f))| >= 2 ensures Found(e, mode, rows, groups, f) {
      ClassesAreStreamed(e, mode, rows, f);
      assert Streamed(mode, rows, preliminary, f);
      var i :| 0 <= i < |preliminary| && preliminary[i] == AllAlike(mode, rows, f);
      HeadIsAlike(mode, rows, f);
      CoveredByHead(mode, heads, i, f);
    }
    r := Some(groups);
    ProvesIsFit(e, mode, rows, groups);
    if Honest(e, h, rows) {
      ExactMeansEqualContent(e, h, mode, rows, groups);
      ReportsEveryDuplicate(e, h, mode, rows, groups);
    }
  }
}
