/** Validation of selected root folders: overlapping selections are reduced to their minimal roots. */
module RootSelection {
  import opened Domain

  /** A selected root: its path, its normalized key, and whether it lies in a quarantine area. */
  datatype Root = Root(path: string, key: string, quarantine: bool)

  datatype Status = Valid | Duplicate | CoveredBy(path: string) | QuarantineForbidden

  datatype ValidatedRoot = ValidatedRoot(root: Root, status: Status)

  // ---------------------------------------------------------------- covering

  const SEPARATOR: char := '\\'

  predicate IsSameOrChild(root: string, candidate: string) {
    candidate == root
    || (root <= candidate && candidate[|root|..] != [] && candidate[|root|] == SEPARATOR)
  }

  lemma CoversTransitive(a: string, b: string, c: string)
    requires IsSameOrChild(a, b) && IsSameOrChild(b, c)
    ensures IsSameOrChild(a, c)
  {
    if a != b && b != c {
      assert b == c[..|b|] && a == b[..|a|] == c[..|a|];
      assert c[|a|] == b[|a|];
    }
  }

  lemma CoversAntisymmetric(a: string, b: string)
    requires IsSameOrChild(a, b) && IsSameOrChild(b, a)
    ensures a == b
  {
  }

  /** The keys that cover one key form a chain. */
  lemma CoversChain(a: string, b: string, c: string)
    requires IsSameOrChild(a, c) && IsSameOrChild(b, c)
    ensures IsSameOrChild(a, b) || IsSameOrChild(b, a)
  {
    if |a| < |b| {
      assert a == c[..|a|] && b == c[..|b|] && a == b[..|a|];
      assert b[|a|] == c[|a|];
    } else if |b| < |a| {
      assert b == a[..|b|];
      assert a[|b|] == c[|b|];
    } else {
      assert a == c[..|a|] == b;
    }
  }

  /** Lexically below, reading a key that ends in a separator as the folder it names. */
  predicate IsInside(root: string, candidate: string) {
    root <= candidate && (root == candidate || (root != [] && root[|root| - 1] == SEPARATOR) || candidate[|root|] == SEPARATOR)
  }

  predicate NoDoubleSeparator(key: string) {
    forall i | 0 < i < |key| :: !(key[i - 1] == SEPARATOR && key[i] == SEPARATOR)
  }

  /** The covering test misses children exactly for keys that end in a separator, such as a drive root:
      those cover only themselves. */
  lemma CoversWhatIsInsideIff(root: string)
    requires root != [] && NoDoubleSeparator(root)
    ensures (forall c | NoDoubleSeparator(c) :: IsInside(root, c) <==> IsSameOrChild(root, c)) <==> root[|root| - 1] != SEPARATOR
    ensures root[|root| - 1] == SEPARATOR ==> forall c | NoDoubleSeparator(c) && IsSameOrChild(root, c) :: c == root
  {
    if root[|root| - 1] == SEPARATOR {
      forall c | NoDoubleSeparator(c) && IsSameOrChild(root, c) ensures c == root {
        assert root == c[..|root|] && c[|root| - 1] == SEPARATOR;
      }
      var child := root + "x";
      assert child[..|root|] == root;
      assert IsInside(root, child) && !IsSameOrChild(root, child);
      assert NoDoubleSeparator(child) by {
        forall i | 0 < i < |child| ensures !(child[i - 1] == SEPARATOR && child[i] == SEPARATOR) {
          if i < |root| {
            assert child[i] == root[i] && child[i - 1] == root[i - 1];
          }
        }
      }
    }
  }

  // ---------------------------------------------------------------- sorting

  /** Lexicographic order of equal-length keys, after length. */
  predicate NotAfter(a: string, b: string) {
    |a| < |b| || (|a| == |b| && LexNotAfter(a, b))
  }

  predicate LexNotAfter(a: string, b: string)
    requires |a| == |b|
  {
    a == [] || a[0] < b[0] || (a[0] == b[0] && LexNotAfter(a[1..], b[1..]))
  }

  predicate SortedByLength(s: seq<Root>) {
    forall i, j | 0 <= i < j < |s| :: |s[i].key| <= |s[j].key|
  }

  /** Insert behind everything that is not after. */
  function Insert(x: Root, s: seq<Root>): seq<Root> {
    if s == [] || !NotAfter(s[0].key, x.key) then [x] + s else [s[0]] + Insert(x, s[1..])
  }

  /** A stable sort by length, then text, of the keys. */
  function Sort(s: seq<Root>): seq<Root> {
    if s == [] then [] else Insert(s[|s| - 1], Sort(s[..|s| - 1]))
  }

  lemma {:induction false} InsertElements(x: Root, s: seq<Root>)
    ensures |Insert(x, s)| == |s| + 1 && multiset(Insert(x, s)) == multiset(s) + multiset{x}
  {
    if s != [] && NotAfter(s[0].key, x.key) {
      InsertElements(x, s[1..]);
      assert s == [s[0]] + s[1..];
    }
  }

  predicate AtLeast(s: seq<Root>, n: nat) {
    forall i | 0 <= i < |s| :: n <= |s[i].key|
  }

  lemma {:induction false} InsertSorted(x: Root, s: seq<Root>, n: nat)
    requires SortedByLength(s)
    ensures SortedByLength(Insert(x, s))
    ensures AtLeast(s, n) && n <= |x.key| ==> AtLeast(Insert(x, s), n)
  {
    if s != [] && NotAfter(s[0].key, x.key) {
      InsertSorted(x, s[1..], |s[0].key|);
      InsertSorted(x, s[1..], n);
    }
  }

  lemma {:induction false} SortIsSorted(s: seq<Root>)
    ensures |Sort(s)| == |s| && multiset(Sort(s)) == multiset(s) && SortedByLength(Sort(s))
  {
    if s != [] {
      var init, last := s[..|s| - 1], s[|s| - 1];
      SortIsSorted(init);
      InsertElements(last, Sort(init));
      InsertSorted(last, Sort(init), 0);
      assert s == init + [last];
    }
  }

  /** Shorter keys first, and equally long ones by the first character in which they differ. */
  ghost predicate Precedes(a: string, b: string) {
    |a| < |b| || (|a| == |b| && (a == b || exists k :: DiffersAt(a, b, k)))
  }

  predicate DiffersAt(a: string, b: string, k: nat)
    requires |a| == |b|
  {
    k < |a| && a[..k] == b[..k] && a[k] < b[k]
  }

  lemma {:induction false} LexNotAfterIs(a: string, b: string)
    requires |a| == |b|
    ensures LexNotAfter(a, b) <==> a == b || exists k :: DiffersAt(a, b, k)
  {
    if a != [] {
      LexNotAfterIs(a[1..], b[1..]);
      assert a == [a[0]] + a[1..] && b == [b[0]] + b[1..];
      if a[0] < b[0] {
        assert DiffersAt(a, b, 0);
      }
      if k: nat :| DiffersAt(a[1..], b[1..], k) && a[0] == b[0] {
        assert a[..k + 1] == [a[0]] + a[1..][..k] && b[..k + 1] == [b[0]] + b[1..][..k];
        assert DiffersAt(a, b, k + 1);
      }
      if k: nat :| DiffersAt(a, b, k) && k > 0 {
        assert a[..k][0] == b[..k][0] && a[1..][..k - 1] == a[..k][1..] && b[1..][..k - 1] == b[..k][1..];
        assert DiffersAt(a[1..], b[1..], k - 1);
      }
    }
  }

  lemma {:induction false} LexIsOrder(a: string, b: string, c: string)
    requires |a| == |b| == |c|
    ensures LexNotAfter(a, b) || LexNotAfter(b, a)
    ensures LexNotAfter(a, b) && LexNotAfter(b, a) ==> a == b
    ensures LexNotAfter(a, b) && LexNotAfter(b, c) ==> LexNotAfter(a, c)
  {
    if a != [] {
      LexIsOrder(a[1..], b[1..], c[1..]);
      assert a == [a[0]] + a[1..] && b == [b[0]] + b[1..];
    }
  }

  lemma NotAfterIsOrder(a: string, b: string, c: string)
    ensures NotAfter(a, b) || NotAfter(b, a)
    ensures NotAfter(a, b) && NotAfter(b, a) ==> a == b
    ensures NotAfter(a, b) && NotAfter(b, c) ==> NotAfter(a, c)
  {
    hide LexNotAfter;
    if |a| == |b| {
      LexIsOrder(a, b, if |c| == |b| then c else b);
    }
  }

  predicate SortedByKey(s: seq<Root>) {
    forall i, j | 0 <= i < j < |s| :: NotAfter(s[i].key, s[j].key)
  }

  /** The roots with this key, in order. */
  function OfKey(s: seq<Root>, key: string): seq<Root> {
    if s == [] then [] else (if s[0].key == key then [s[0]] else []) + OfKey(s[1..], key)
  }

  lemma {:induction false} OfKeySnoc(s: seq<Root>, x: Root, key: string)
    ensures OfKey(s + [x], key) == OfKey(s, key) + if x.key == key then [x] else []
  {
    if s == [] {
      assert (s + [x])[1..] == [];
    } else {
      OfKeySnoc(s[1..], x, key);
      assert (s + [x])[1..] == s[1..] + [x];
    }
  }

  lemma {:induction false} NoneOfKey(s: seq<Root>, key: string)
    requires forall x | x in s :: x.key != key
    ensures OfKey(s, key) == []
  {
    if s != [] {
      NoneOfKey(s[1..], key);
    }
  }

  lemma {:induction false} InsertSortsByKey(x: Root, s: seq<Root>)
    requires SortedByKey(s)
    ensures SortedByKey(Insert(x, s))
  {
    hide NotAfter;
    if s == [] || !NotAfter(s[0].key, x.key) {
      forall y | y in s ensures NotAfter(x.key, y.key) {
        NotAfterIsOrder(x.key, s[0].key, y.key);
      }
    } else {
      InsertSortsByKey(x, s[1..]);
      InsertElements(x, s[1..]);
      var rest := Insert(x, s[1..]);
      forall j | 0 <= j < |rest| ensures NotAfter(s[0].key, rest[j].key) {
        assert rest[j] in multiset(rest);
        assert rest[j] in s[1..] || rest[j] == x;
      }
    }
  }

  lemma {:induction false} InsertKeepsOrder(x: Root, s: seq<Root>, key: string)
    requires SortedByKey(s)
    ensures OfKey(Insert(x, s), key) == OfKey(s, key) + if x.key == key then [x] else []
  {
    hide NotAfter;
    if s == [] || !NotAfter(s[0].key, x.key) {
      assert ([x] + s)[1..] == s;
      if x.key == key {
        forall y | y in s ensures y.key != key {
          NotAfterIsOrder(s[0].key, x.key, y.key);
          NotAfterIsOrder(x.key, s[0].key, y.key);
        }
        NoneOfKey(s, key);
      }
    } else {
      InsertKeepsOrder(x, s[1..], key);
      assert ([s[0]] + Insert(x, s[1..]))[1..] == Insert(x, s[1..]);
    }
  }

  lemma {:induction false} SortIsByKey(s: seq<Root>, key: string)
    ensures SortedByKey(Sort(s)) && OfKey(Sort(s), key) == OfKey(s, key)
  {
    if s != [] {
      var init, last := s[..|s| - 1], s[|s| - 1];
      SortIsByKey(init, key);
      InsertSortsByKey(last, Sort(init));
      InsertKeepsOrder(last, Sort(init), key);
      OfKeySnoc(init, last, key);
      assert s == init + [last];
    }
  }

  /** Roots climb in the order of their keys, and roots with one key keep their order. */
  ghost predicate InOrder(s: seq<Root>, sorted: seq<Root>) {
    && (forall i, j | 0 <= i < j < |sorted| :: Precedes(sorted[i].key, sorted[j].key))
    && (forall key :: OfKey(sorted, key) == OfKey(s, key))
  }

  lemma SortIsInOrder(s: seq<Root>)
    ensures InOrder(s, Sort(s))
  {
    hide Sort, OfKey;
    var sorted := Sort(s);
    forall key ensures OfKey(sorted, key) == OfKey(s, key) {
      SortIsByKey(s, key);
    }
    SortIsByKey(s, []);
    forall i, j | 0 <= i < j < |sorted| ensures Precedes(sorted[i].key, sorted[j].key) {
      if |sorted[i].key| == |sorted[j].key| {
        LexNotAfterIs(sorted[i].key, sorted[j].key);
      }
    }
  }

  lemma SortKeepsElements(s: seq<Root>, x: Root)
    ensures x in Sort(s) <==> x in s
  {
    SortIsSorted(s);
    assert x in Sort(s) <==> x in multiset(Sort(s));
  }

  // ---------------------------------------------------------------- what is valid

  /** Some eligible root has this key. */
  ghost predicate Selected(roots: seq<Root>, key: string) {
    exists r :: r in roots && !r.quarantine && r.key == key
  }

  /** No other eligible root covers the key. */
  ghost predicate Minimal(roots: seq<Root>, key: string) {
    && Selected(roots, key)
    && (forall r | r in roots && !r.quarantine && IsSameOrChild(r.key, key) :: r.key == key)
  }

  /** No accepted key covers another. */
  predicate Antichain(accepted: seq<Root>) {
    forall i, j | 0 <= i < |accepted| && 0 <= j < |accepted| && IsSameOrChild(accepted[i].key, accepted[j].key) :: i == j
  }

  ghost predicate Covered(accepted: seq<Root>, r: Root) {
    exists a :: a in accepted && IsSameOrChild(a.key, r.key)
  }

  /** The accepted roots are an antichain of eligible roots that covers every eligible root. */
  ghost predicate Accepts(roots: seq<Root>, accepted: seq<Root>) {
    && Antichain(accepted)
    && (forall a | a in accepted :: a in roots && !a.quarantine)
    && (forall r | r in roots && !r.quarantine :: Covered(accepted, r))
  }

  /** Some accepted root has this key. */
  ghost predicate HasKey(accepted: seq<Root>, key: string) {
    exists a :: a in accepted && a.key == key
  }

  /** Such roots are exactly the minimal ones ... */
  lemma AcceptedIffMinimal(roots: seq<Root>, accepted: seq<Root>, key: string)
    requires Accepts(roots, accepted)
    ensures HasKey(accepted, key) <==> Minimal(roots, key)
  {
    hide IsSameOrChild, Antichain;
    if a :| a in accepted && a.key == key {
      forall r | r in roots && !r.quarantine && IsSameOrChild(r.key, key) ensures r.key == key {
        CoveredOnlyByItself(roots, accepted, a, r);
      }
      assert a in roots && !a.quarantine;
    }
    if Minimal(roots, key) {
      var r :| r in roots && !r.quarantine && r.key == key;
      assert Covered(accepted, r);
      var b :| b in accepted && IsSameOrChild(b.key, r.key);
      assert b in roots && !b.quarantine;
    }
  }

  lemma CoveredOnlyByItself(roots: seq<Root>, accepted: seq<Root>, a: Root, r: Root)
    requires Accepts(roots, accepted) && a in accepted && r in roots && !r.quarantine && IsSameOrChild(r.key, a.key)
    ensures r.key == a.key
  {
    hide IsSameOrChild, Antichain;
    assert Covered(accepted, r);
    var b :| b in accepted && IsSameOrChild(b.key, r.key);
    CoversTransitive(b.key, r.key, a.key);
    SameAccepted(accepted, b, a);
    CoversAntisymmetric(b.key, r.key);
  }

  lemma SameAccepted(accepted: seq<Root>, a: Root, b: Root)
    requires Antichain(accepted) && a in accepted && b in accepted && IsSameOrChild(a.key, b.key)
    ensures a == b
  {
    var i :| 0 <= i < |accepted| && accepted[i] == a;
    var j :| 0 <= j < |accepted| && accepted[j] == b;
    assert i == j;
  }

  /** ... and each eligible root has exactly one cover among them. */
  lemma UniqueCover(roots: seq<Root>, accepted: seq<Root>, r: Root, a: Root, b: Root)
    requires Accepts(roots, accepted) && r in roots && a in accepted && b in accepted
    requires IsSameOrChild(a.key, r.key) && IsSameOrChild(b.key, r.key)
    ensures a == b
  {
    CoversChain(a.key, b.key, r.key);
    if IsSameOrChild(a.key, b.key) {
      SameAccepted(accepted, a, b);
    } else {
      SameAccepted(accepted, b, a);
    }
  }

  /** Two validations accept the same keys if the same eligible keys were selected, in whatever order and
      however often. */
  lemma OrderDoesNotMatter(roots: seq<Root>, accepted: seq<Root>, others: seq<Root>, accepted': seq<Root>, key: string)
    requires Accepts(roots, accepted) && Accepts(others, accepted')
    requires forall k :: Selected(roots, k) <==> Selected(others, k)
    ensures HasKey(accepted, key) <==> HasKey(accepted', key)
  {
    hide Accepts;
    AcceptedIffMinimal(roots, accepted, key);
    AcceptedIffMinimal(others, accepted', key);
    if Minimal(roots, key) {
      MinimalCarriesOver(roots, others, key);
    }
    if Minimal(others, key) {
      MinimalCarriesOver(others, roots, key);
    }
  }

  lemma MinimalCarriesOver(roots: seq<Root>, others: seq<Root>, key: string)
    requires forall k :: Selected(roots, k) <==> Selected(others, k)
    requires Minimal(roots, key)
    ensures Minimal(others, key)
  {
    forall r | r in others && !r.quarantine && IsSameOrChild(r.key, key) ensures r.key == key {
      assert Selected(others, r.key);
      var q :| q in roots && !q.quarantine && q.key == r.key;
    }
  }

  // ---------------------------------------------------------------- paths enumerated twice

  /** Some path lies inside both. */
  ghost predicate SharesPath(a: string, b: string) {
    exists c :: IsInside(a, c) && IsInside(b, c)
  }

  /** `a` ends in a separator, and `b` continues it with a name: inside, but not covered. */
  predicate Overreaches(a: string, b: string) {
    a != [] && a[|a| - 1] == SEPARATOR && a < b && b[|a|] != SEPARATOR
  }

  lemma OverreachingIsInside(a: string, b: string)
    ensures Overreaches(a, b) ==> IsInside(a, b) && !IsSameOrChild(a, b)
    ensures IsSameOrChild(a, b) ==> IsInside(a, b)
  {
  }

  /** Two keys that do not cover each other share a path exactly if one ends in a separator and the other
      continues it. */
  lemma SharesPathIff(a: string, b: string)
    requires !IsSameOrChild(a, b) && !IsSameOrChild(b, a)
    ensures SharesPath(a, b) <==> Overreaches(a, b) || Overreaches(b, a)
  {
    OverreachingIsInside(a, b);
    OverreachingIsInside(b, a);
    assert IsInside(a, a) && IsInside(b, b);
    if c :| IsInside(a, c) && IsInside(b, c) {
      if |a| <= |b| {
        SharedPrefix(a, b, c);
      } else {
        SharedPrefix(b, a, c);
      }
    }
  }

  lemma SharedPrefix(a: string, b: string, c: string)
    requires IsInside(a, c) && IsInside(b, c) && !IsSameOrChild(a, b) && |a| <= |b|
    ensures Overreaches(a, b)
  {
    assert a == c[..|a|] && b == c[..|b|] && a == b[..|a|];
    assert |a| < |b|;
    assert b[|a|] == c[|a|];
  }

  /** Some path is enumerated under two of the roots. */
  ghost predicate EnumeratesTwice(accepted: seq<Root>) {
    exists i, j :: 0 <= i < |accepted| && 0 <= j < |accepted| && i != j && SharesPath(accepted[i].key, accepted[j].key)
  }

  /** A minimal selected key ends in a separator and another selected key continues it. */
  ghost predicate HasOverreach(roots: seq<Root>) {
    exists a, b :: Minimal(roots, a) && Selected(roots, b) && Overreaches(a, b)
  }

  /** Exactly when the accepted roots enumerate a path twice; the condition is about the selection. */
  lemma EnumeratesTwiceIff(roots: seq<Root>, accepted: seq<Root>)
    requires Accepts(roots, accepted)
    ensures EnumeratesTwice(accepted) <==> HasOverreach(roots)
  {
    if EnumeratesTwice(accepted) {
      var i, j :| 0 <= i < |accepted| && 0 <= j < |accepted| && i != j && SharesPath(accepted[i].key, accepted[j].key);
      SharesPathIff(accepted[i].key, accepted[j].key);
      if Overreaches(accepted[i].key, accepted[j].key) {
        AcceptedOverreaches(roots, accepted, accepted[i], accepted[j]);
      } else {
        AcceptedOverreaches(roots, accepted, accepted[j], accepted[i]);
      }
    }
    if HasOverreach(roots) {
      var a, b :| Minimal(roots, a) && Selected(roots, b) && Overreaches(a, b);
      OverreachIsEnumeratedTwice(roots, accepted, a, b);
    }
  }

  lemma AcceptedOverreaches(roots: seq<Root>, accepted: seq<Root>, x: Root, y: Root)
    requires Accepts(roots, accepted) && x in accepted && y in accepted && Overreaches(x.key, y.key)
    ensures HasOverreach(roots)
  {
    hide IsSameOrChild, Overreaches;
    AcceptedIffMinimal(roots, accepted, x.key);
    AcceptedIffMinimal(roots, accepted, y.key);
    assert HasKey(accepted, x.key) && HasKey(accepted, y.key);
    assert Minimal(roots, x.key) && Selected(roots, y.key);
  }

  lemma OverreachIsEnumeratedTwice(roots: seq<Root>, accepted: seq<Root>, a: string, b: string)
    requires Accepts(roots, accepted) && Minimal(roots, a) && Selected(roots, b) && Overreaches(a, b)
    ensures EnumeratesTwice(accepted)
  {
    hide IsSameOrChild, Overreaches, IsInside;
    AcceptedIffMinimal(roots, accepted, a);
    var i :| 0 <= i < |accepted| && accepted[i].key == a;
    var s :| s in roots && !s.quarantine && s.key == b;
    assert Covered(accepted, s);
    var j :| 0 <= j < |accepted| && IsSameOrChild(accepted[j].key, b);
    OverreachingIsInside(a, b);
    OverreachingIsInside(accepted[j].key, b);
    assert SharesPath(accepted[i].key, accepted[j].key);
  }

  /** The smallest such selection: a drive and a folder on it are both valid, and the folder is enumerated
      twice. */
  lemma DriveAndFolder(drive: Root, folder: Root, accepted: seq<Root>)
    requires drive == Root("C:\\", "c:\\", false) && folder == Root("C:\\books", "c:\\books", false)
    requires Accepts([drive, folder], accepted)
    ensures HasKey(accepted, drive.key) && HasKey(accepted, folder.key) && EnumeratesTwice(accepted)
  {
    assert Overreaches(drive.key, folder.key);
    OverreachingPair(drive, folder, accepted);
  }

  lemma OverreachingPair(x: Root, y: Root, accepted: seq<Root>)
    requires !x.quarantine && !y.quarantine && Overreaches(x.key, y.key) && Accepts([x, y], accepted)
    ensures HasKey(accepted, x.key) && HasKey(accepted, y.key) && EnumeratesTwice(accepted)
  {
    hide Accepts, IsSameOrChild, EnumeratesTwice;
    var roots := [x, y];
    OverreachingIsInside(x.key, y.key);
    CoversOnlyLonger(y.key, x.key);
    assert roots[0] == x && roots[1] == y;
    assert Minimal(roots, x.key) && Minimal(roots, y.key);
    AcceptedIffMinimal(roots, accepted, x.key);
    AcceptedIffMinimal(roots, accepted, y.key);
    EnumeratesTwiceIff(roots, accepted);
  }

  // ---------------------------------------------------------------- the method

  /** What the status of a root says. */
  ghost predicate Explained(accepted: seq<Root>, v: ValidatedRoot) {
    match v.status
    case QuarantineForbidden => v.root.quarantine
    case Valid => !v.root.quarantine && v.root in accepted
    case Duplicate => !v.root.quarantine && exists a :: a in accepted && a.key == v.root.key
    case CoveredBy(path) =>
      !v.root.quarantine && exists a :: a in accepted && a.path == path && a.key != v.root.key && IsSameOrChild(a.key, v.root.key)
  }

  function ValidRoots(result: seq<ValidatedRoot>): seq<Root> {
    if result == [] then []
    else ValidRoots(result[..|result| - 1]) + if result[|result| - 1].status.Valid? then [result[|result| - 1].root] else []
  }

  /** Index of the first accepted root that covers the key. */
  method FirstCover(accepted: seq<Root>, key: string) returns (r: Option<nat>)
    ensures r.Some? ==> r.value < |accepted| && IsSameOrChild(accepted[r.value].key, key)
    ensures r.None? ==> forall i | 0 <= i < |accepted| :: !IsSameOrChild(accepted[i].key, key)
  {
    for i := 0 to |accepted|
      invariant forall k | 0 <= k < i :: !IsSameOrChild(accepted[k].key, key)
    {
      if IsSameOrChild(accepted[i].key, key) {
        return Some(i);
      }
    }
    r := None;
  }

  function Roots(result: seq<ValidatedRoot>): (r: seq<Root>)
    ensures |r| == |result| && forall i | 0 <= i < |r| :: r[i] == result[i].root
  {
    seq(|result|, i requires 0 <= i < |result| => result[i].root)
  }

  /** The roots processed so far are accepted or explained. */
  ghost predicate Classified(processed: seq<Root>, result: seq<ValidatedRoot>, accepted: seq<Root>) {
    && Roots(result) == processed && ValidRoots(result) == accepted
    && Accepts(processed, accepted)
    && forall k | 0 <= k < |result| :: Explained(accepted, result[k])
  }

  /** Classify one root against the roots accepted so far. */
  method Classify(accepted: seq<Root>, root: Root) returns (status: Status)
    ensures status.QuarantineForbidden? <==> root.quarantine
    ensures status.Valid? ==> forall k | 0 <= k < |accepted| :: !IsSameOrChild(accepted[k].key, root.key)
    ensures !status.Valid? ==> Explained(accepted, ValidatedRoot(root, status))
    ensures !status.Valid? && !status.QuarantineForbidden? ==> Covered(accepted, root)
  {
    if root.quarantine {
      return QuarantineForbidden;
    }
    var cover := FirstCover(accepted, root.key);
    if cover.None? {
      return Valid;
    }
    var existing := accepted[cover.value];
    assert existing in accepted;
    status := if existing.key == root.key then Duplicate else CoveredBy(existing.path);
  }

  /** Classify every selected root. None stands for an empty selection or a path without a key. The
      valid roots cover every eligible root and none covers another; every other status is explained by
      a valid root. */
  method ValidateRoots(roots: seq<(string, Option<string>, bool)>) returns (r: Option<seq<ValidatedRoot>>)
    ensures r.None? <==> roots == [] || exists i | 0 <= i < |roots| :: roots[i].1.None?
    ensures r.Some? ==> (forall i | 0 <= i < |roots| :: roots[i].1.Some?) && multiset(Roots(r.value)) == multiset(Keyed(roots))
    ensures r.Some? ==> InOrder(Keyed(roots), Roots(r.value))
    ensures r.Some? ==> Accepts(Keyed(roots), ValidRoots(r.value))
    ensures r.Some? ==> (EnumeratesTwice(ValidRoots(r.value)) <==> HasOverreach(Keyed(roots)))
    ensures r.Some? ==> forall i | 0 <= i < |r.value| :: Explained(ValidRoots(r.value), r.value[i])
  {
    hide Accepts, Explained, Sort, ValidRoots, EnumeratesTwice, HasOverreach, InOrder;
    if roots == [] || exists i | 0 <= i < |roots| :: roots[i].1.None? {
      return None;
    }
    var normalized := Sort(Keyed(roots));
    SortIsSorted(Keyed(roots));
    SortIsInOrder(Keyed(roots));
    var accepted: seq<Root> := [];
    var result: seq<ValidatedRoot> := [];
    NothingClassified();
    for i := 0 to |normalized|
      invariant Classified(normalized[..i], result, accepted)
    {
      var status := Classify(accepted, normalized[i]);
      NextRoot(normalized, i, result, accepted, status);
      if status.Valid? {
        accepted := accepted + [normalized[i]];
      }
      result := result + [ValidatedRoot(normalized[i], status)];
    }
    assert normalized[..|normalized|] == normalized;
    SameAccepts(Keyed(roots), normalized, accepted);
    EnumeratesTwiceIff(Keyed(roots), accepted);
    assert Roots(result) == normalized;
    r := Some(result);
  }

  lemma NothingClassified()
    ensures Classified([], [], [])
  {
  }

  function Keyed(roots: seq<(string, Option<string>, bool)>): (r: seq<Root>)
    requires forall i | 0 <= i < |roots| :: roots[i].1.Some?
    ensures |r| == |roots| && forall i | 0 <= i < |r| :: r[i] == Root(roots[i].0, roots[i].1.value, roots[i].2)
  {
    seq(|roots|, i requires 0 <= i < |roots| => Root(roots[i].0, roots[i].1.value, roots[i].2))
  }

  lemma SameAccepts(roots: seq<Root>, sorted: seq<Root>, accepted: seq<Root>)
    requires sorted == Sort(roots) && Accepts(sorted, accepted)
    ensures Accepts(roots, accepted)
  {
    forall x ensures x in sorted <==> x in roots {
      SortKeepsElements(roots, x);
    }
  }

  lemma StillExplained(result: seq<ValidatedRoot>, accepted: seq<Root>, accepted': seq<Root>)
    requires accepted <= accepted' && forall k | 0 <= k < |result| :: Explained(accepted, result[k])
    ensures forall k | 0 <= k < |result| :: Explained(accepted', result[k])
  {
    assert forall a | a in accepted :: a in accepted';
  }

  lemma NextRoot(sorted: seq<Root>, i: nat, result: seq<ValidatedRoot>, accepted: seq<Root>, status: Status)
    requires SortedByLength(sorted) && i < |sorted| && Classified(sorted[..i], result, accepted)
    requires status.QuarantineForbidden? <==> sorted[i].quarantine
    requires status.Valid? ==> forall k | 0 <= k < |accepted| :: !IsSameOrChild(accepted[k].key, sorted[i].key)
    requires !status.Valid? ==> Explained(accepted, ValidatedRoot(sorted[i], status))
    requires !status.Valid? && !status.QuarantineForbidden? ==> Covered(accepted, sorted[i])
    ensures Classified(sorted[..i + 1], result + [ValidatedRoot(sorted[i], status)],
                       if status.Valid? then accepted + [sorted[i]] else accepted)
  {
    hide Accepts, Explained;
    var accepted' := if status.Valid? then accepted + [sorted[i]] else accepted;
    var v := ValidatedRoot(sorted[i], status);
    NextAccepts(sorted, i, accepted, accepted', status);
    StillExplained(result, accepted, accepted');
    assert sorted[..i + 1] == sorted[..i] + [sorted[i]];
    assert (result + [v])[..|result|] == result;
    assert Roots(result + [v]) == Roots(result) + [sorted[i]];
    NewExplained(accepted, accepted', v);
  }

  lemma NewExplained(accepted: seq<Root>, accepted': seq<Root>, v: ValidatedRoot)
    requires accepted' == if v.status.Valid? then accepted + [v.root] else accepted
    requires v.status.Valid? ==> !v.root.quarantine
    requires !v.status.Valid? ==> Explained(accepted, v)
    ensures Explained(accepted', v)
  {
    if v.status.Valid? {
      assert accepted'[|accepted|] == v.root;
    }
  }

  lemma NextAccepts(sorted: seq<Root>, i: nat, accepted: seq<Root>, accepted': seq<Root>, status: Status)
    requires SortedByLength(sorted) && i < |sorted| && Accepts(sorted[..i], accepted)
    requires status.QuarantineForbidden? <==> sorted[i].quarantine
    requires status.Valid? ==> forall k | 0 <= k < |accepted| :: !IsSameOrChild(accepted[k].key, sorted[i].key)
    requires !status.Valid? && !status.QuarantineForbidden? ==> Covered(accepted, sorted[i])
    requires accepted' == if status.Valid? then accepted + [sorted[i]] else accepted
    ensures Accepts(sorted[..i + 1], accepted')
  {
    hide LexNotAfter, IsSameOrChild, Antichain, Covered;
    var root := sorted[i];
    if status.Valid? {
      forall k | 0 <= k < |accepted| ensures |accepted[k].key| <= |root.key| {
        EarlierIsShorter(sorted, i, accepted, accepted[k]);
      }
      AntichainGrows(accepted, root);
    }
    forall r | r in sorted[..i + 1] && !r.quarantine ensures Covered(accepted', r) {
      var k :| 0 <= k <= i && sorted[k] == r;
      if k < i {
        assert sorted[..i][k] == r;
        CoverageGrows(accepted, accepted', r);
      } else if status.Valid? {
        CoversItself(accepted, root);
      }
    }
    forall a | a in accepted' ensures a in sorted[..i + 1] && !a.quarantine {
      if a in accepted {
        var k :| 0 <= k < i && sorted[k] == a;
        assert sorted[..i + 1][k] == a;
      } else {
        assert sorted[..i + 1][i] == a;
      }
    }
  }

  lemma EarlierIsShorter(sorted: seq<Root>, i: nat, accepted: seq<Root>, a: Root)
    requires SortedByLength(sorted) && i < |sorted| && a in accepted
    requires forall x | x in accepted :: x in sorted[..i]
    ensures |a.key| <= |sorted[i].key|
  {
    var k :| 0 <= k < i && sorted[k] == a;
  }

  /** A key that nobody covers joins; being as long as any other, it covers none of them. */
  lemma AntichainGrows(accepted: seq<Root>, root: Root)
    requires Antichain(accepted)
    requires forall k | 0 <= k < |accepted| :: !IsSameOrChild(accepted[k].key, root.key)
    requires forall k | 0 <= k < |accepted| :: |accepted[k].key| <= |root.key|
    ensures Antichain(accepted + [root])
  {
    hide IsSameOrChild;
    var accepted' := accepted + [root];
    forall i, j | 0 <= i < |accepted'| && 0 <= j < |accepted'| && IsSameOrChild(accepted'[i].key, accepted'[j].key)
      ensures i == j
    {
      if i == |accepted| && j < |accepted| {
        CoversOnlyLonger(root.key, accepted[j].key);
      } else if i < |accepted| && j < |accepted| {
        assert accepted'[i] == accepted[i] && accepted'[j] == accepted[j];
      }
    }
  }

  lemma CoversOnlyLonger(a: string, b: string)
    requires |b| <= |a|
    ensures IsSameOrChild(a, b) <==> a == b
    ensures a == b ==> IsSameOrChild(b, a)
  {
  }

  lemma CoverageGrows(accepted: seq<Root>, accepted': seq<Root>, r: Root)
    requires Covered(accepted, r) && accepted <= accepted'
    ensures Covered(accepted', r)
  {
    hide IsSameOrChild;
    var a :| a in accepted && IsSameOrChild(a.key, r.key);
    var k :| 0 <= k < |accepted| && accepted[k] == a;
    assert accepted'[k] == a;
  }

  lemma CoversItself(accepted: seq<Root>, root: Root)
    ensures Covered(accepted + [root], root)
  {
    assert (accepted + [root])[|accepted|] == root;
  }
}
