/** Values shared by the transaction protocols: the transaction state machine, file evidence,
    physical files, and subsequences. */
module Domain {
  datatype Option<+T> = None | Some(value: T)

  /** A path as its components; a prefix is an ancestor. */
  type Path = seq<string>
  type Uuid = string
  newtype byte = x: int | 0 <= x < 256
  type Bytes = seq<byte>

  datatype TransactionState =
    | Planned | PreflightValidated | Moving | MovedUnverified | Verified
    | PreflightFailed | MoveFailed | VerifyFailed | RecoveryRequired | Cancelled
    | ReconciledSourceOnly | ReconciledBoth | ReconciledMissing
  {
    predicate IsReconciled() {
      ReconciledSourceOnly? || ReconciledBoth? || ReconciledMissing?
    }

    predicate CanTransitionTo(next: TransactionState) {
      match this
      case Planned =>
        next.PreflightValidated? || next.PreflightFailed? || next.Cancelled? || next.IsReconciled()
      case PreflightValidated => next.Moving? || next.Cancelled? || next.IsReconciled()
      case Moving =>
        next.MovedUnverified? || next.MoveFailed? || next.RecoveryRequired? || next.IsReconciled()
      case MovedUnverified =>
        next.Verified? || next.VerifyFailed? || next.RecoveryRequired? || next.IsReconciled()
      case MoveFailed => next.RecoveryRequired? || next.IsReconciled()
      case VerifyFailed => next.RecoveryRequired? || next.IsReconciled()
      case RecoveryRequired => next.Verified? || next.IsReconciled()
      case _ => false
    }

    /** The statuses selected by the startup-recovery query. */
    predicate PendingRecovery() {
      Planned? || PreflightValidated? || Moving? || MovedUnverified? || MoveFailed?
      || VerifyFailed? || RecoveryRequired?
    }

    /** A strictly increasing measure along every legal transition. */
    function Rank(): (r: nat)
      ensures r <= 6
    {
      match this
      case Planned => 0
      case PreflightValidated => 1
      case Moving => 2
      case MovedUnverified => 3
      case MoveFailed => 4
      case VerifyFailed => 4
      case RecoveryRequired => 5
      case _ => 6
    }
  }

  /** The recovery list is exactly the set of states that still have a legal successor. */
  lemma PendingIffNotTerminal(s: TransactionState)
    ensures s.PendingRecovery() <==> exists n: TransactionState :: s.CanTransitionTo(n)
  {
    if s.PendingRecovery() {
      assert s.CanTransitionTo(ReconciledBoth);
    }
  }

  /** Where each state can come from: nothing precedes planning, a cancellation is possible only before the
      move, recovery only after it began, verification only after a move or out of recovery, and every
      open transaction can be reconciled. */
  lemma ComesFrom(s: TransactionState, n: TransactionState)
    ensures s.CanTransitionTo(n) <==>
              match n
              case Planned => false
              case PreflightValidated => s == Planned
              case PreflightFailed => s == Planned
              case Cancelled => s == Planned || s == PreflightValidated
              case Moving => s == PreflightValidated
              case MovedUnverified => s == Moving
              case MoveFailed => s == Moving
              case VerifyFailed => s == MovedUnverified
              case RecoveryRequired => s in {Moving, MovedUnverified, MoveFailed, VerifyFailed}
              case Verified => s == MovedUnverified || s == RecoveryRequired
              case _ => s !in {Verified, PreflightFailed, Cancelled, ReconciledSourceOnly, ReconciledBoth, ReconciledMissing}
  {
  }

  /** Volume and file identifiers as UTF-8 bytes. */
  datatype Identity = Identity(volume: Bytes, file: Bytes)

  /** A physical file. A rename changes its path and none of these fields. */
  datatype File = File(identity: Identity, content: Bytes, modified: int, links: nat)

  /** The digests, as unknown functions of what they hash, and which paths have a normalized key. */
  datatype Digests = Digests(
    blake3: Bytes -> Bytes,
    sha256: Bytes -> Bytes,
    token: (Identity, nat, int) -> Bytes,
    hasKey: Path -> bool)

  /** Metadata of one file at one moment. */
  datatype Snapshot = Snapshot(identity: Identity, size: nat, token: Bytes, links: nat)

  function SnapshotOf(d: Digests, file: File): Snapshot {
    Snapshot(file.identity, |file.content|, d.token(file.identity, |file.content|, file.modified), file.links)
  }

  /** What a deleter compares on the opened file; the link count is not part of it. */
  predicate SameMetadata(a: Snapshot, b: Snapshot) {
    a.identity == b.identity && a.size == b.size && a.token == b.token
  }

  const U64_MAX: nat := 0xFFFF_FFFF_FFFF_FFFF
  const I64_MAX: nat := 0x7FFF_FFFF_FFFF_FFFF

  function SaturatingAdd(a: nat, b: nat): (r: nat)
    ensures a <= U64_MAX ==> r <= U64_MAX
  {
    if a + b <= U64_MAX then a + b else U64_MAX
  }

  function SaturatingSub(a: nat, b: nat): (r: nat)
    ensures b <= a ==> r + b == a
  {
    if b <= a then a - b else 0
  }

  /** What is proposed for one member of a duplicate group. */
  datatype MemberAction = Keep | ToQuarantine | Manual

  datatype Kind = Quarantine | Restore

  /** The immutable part of a file transaction. */
  datatype Transaction = Transaction(
    id: Uuid, project: Uuid, planItem: Option<Uuid>, kind: Kind, source: Path, destination: Path,
    identity: Identity, size: nat, blake3: Bytes, sha256: Bytes, token: Bytes)

  /** The record fits its row: a signed 64-bit size and a key for both paths. */
  predicate Recordable(d: Digests, tx: Transaction) {
    tx.size <= I64_MAX && d.hasKey(tx.source) && d.hasKey(tx.destination)
  }

  /** Metadata evidence checked before a move. */
  predicate SourceMatches(d: Digests, file: File, tx: Transaction) {
    && file.identity == tx.identity
    && |file.content| == tx.size
    && d.token(file.identity, |file.content|, file.modified) == tx.token
  }

  /** Full evidence checked after a move. */
  predicate DestinationMatches(d: Digests, file: File, tx: Transaction) {
    && file.identity == tx.identity
    && |file.content| == tx.size
    && d.blake3(file.content) == tx.blake3
    && d.sha256(file.content) == tx.sha256
  }

  /** The contract of a rename that refuses to replace: what it needs and what it leaves. */
  predicate CanMove(d: Digests, files: map<Path, File>, tx: Transaction) {
    && tx.source in files
    && SourceMatches(d, files[tx.source], tx)
    && files[tx.source].links == 1
    && tx.destination !in files
  }

  function Moved(files: map<Path, File>, source: Path, destination: Path): map<Path, File>
    requires source in files
  {
    (files - {source})[destination := files[source]]
  }

  ghost predicate Embeds<T>(index: seq<nat>, a: seq<T>, b: seq<T>) {
    && |index| == |a|
    && (forall i | 0 <= i < |a| :: index[i] < |b| && a[i] == b[index[i]])
    && (forall i, j | 0 <= i < j < |a| :: index[i] < index[j])
  }

  /** `a` can be obtained from `b` by deleting elements. */
  ghost predicate IsSubsequence<T>(a: seq<T>, b: seq<T>) {
    exists index: seq<nat> :: Embeds(index, a, b)
  }

  lemma SubsequenceGrows<T>(a: seq<T>, b: seq<T>, c: seq<T>)
    requires IsSubsequence(a, b)
    ensures IsSubsequence(a, b + c)
  {
    var index: seq<nat> :| Embeds(index, a, b);
    assert Embeds(index, a, b + c);
  }

  lemma SubsequenceSnoc<T>(a: seq<T>, b: seq<T>, j: nat)
    requires j < |b|
    requires IsSubsequence(a, b[..j])
    ensures IsSubsequence(a + [b[j]], b)
  {
    var index: seq<nat> :| Embeds(index, a, b[..j]);
    assert Embeds(index + [j], a + [b[j]], b);
  }
}
