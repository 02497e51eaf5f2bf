/** Choosing the file to keep in a duplicate group, and the preview of what a plan reclaims. */
module KeepPolicy {
  import opened Domain

  datatype Member = Member(path: string, size: nat, modified: int, action: MemberAction)

  /** The order of paths of equal length, a total order. */
  ghost predicate TotalOrder(le: (string, string) -> bool) {
    && (forall a, b :: le(a, b) || le(b, a))
    && (forall a, b :: le(a, b) && le(b, a) ==> a == b)
    && (forall a, b, c :: le(a, b) && le(b, c) ==> le(a, c))
  }

  datatype Policy = Default(primary: string -> bool) | Oldest | Newest | ShortestPath | ManualPath(path: string)

  predicate PathNotAfter(le: (string, string) -> bool, a: string, b: string) {
    |a| < |b| || (|a| == |b| && le(a, b))
  }

  /** `a` is preferred to `b`, or as good. */
  predicate NotWorse(policy: Policy, le: (string, string) -> bool, a: Member, b: Member) {
    match policy
    case Oldest => a.modified < b.modified || (a.modified == b.modified && PathNotAfter(le, a.path, b.path))
    case Newest => a.modified > b.modified || (a.modified == b.modified && PathNotAfter(le, a.path, b.path))
    case ShortestPath => PathNotAfter(le, a.path, b.path)
    case Default(primary) =>
      if primary(a.path) != primary(b.path) then primary(a.path)
      else a.modified < b.modified || (a.modified == b.modified && PathNotAfter(le, a.path, b.path))
    case ManualPath(path) => a.path == path || b.path != path
  }

  lemma NotWorseIsOrder(policy: Policy, le: (string, string) -> bool, a: Member, b: Member, c: Member)
    requires TotalOrder(le)
    ensures NotWorse(policy, le, a, b) || NotWorse(policy, le, b, a)
    ensures NotWorse(policy, le, a, b) && NotWorse(policy, le, b, c) ==> NotWorse(policy, le, a, c)
    ensures !policy.ManualPath? && NotWorse(policy, le, a, b) && NotWorse(policy, le, b, a) ==> a.path == b.path
  {
  }

  /** The best member is at least as good as every other. */
  predicate IsBest(policy: Policy, le: (string, string) -> bool, members: seq<Member>, k: nat) {
    k < |members| && forall j | 0 <= j < |members| :: NotWorse(policy, le, members[k], members[j])
  }

  /** The first of the best members. */
  method SelectBy(policy: Policy, le: (string, string) -> bool, members: seq<Member>) returns (k: nat)
    requires TotalOrder(le) && members != []
    ensures IsBest(policy, le, members, k)
    ensures forall j | 0 <= j < k :: !NotWorse(policy, le, members[j], members[k])
  {
    k := 0;
    NotWorseIsOrder(policy, le, members[0], members[0], members[0]);
    for i := 1 to |members|
      invariant k < i
      invariant forall j | 0 <= j < i :: NotWorse(policy, le, members[k], members[j])
      invariant forall j | 0 <= j < k :: !NotWorse(policy, le, members[j], members[k])
    {
      NotWorseIsOrder(policy, le, members[k], members[i], members[i]);
      if !NotWorse(policy, le, members[k], members[i]) {
        forall j | 0 <= j < i
          ensures NotWorse(policy, le, members[i], members[j]) && !NotWorse(policy, le, members[j], members[i])
        {
          NotWorseIsOrder(policy, le, members[i], members[k], members[j]);
          NotWorseIsOrder(policy, le, members[k], members[j], members[i]);
        }
        k := i;
      }
    }
  }

  predicate OnlyKeeper(members: seq<Member>, k: nat) {
    k < |members| && members[k].action.Keep? && forall j | 0 <= j < |members| && j != k :: members[j].action.ToQuarantine?
  }

  predicate HasPath(members: seq<Member>, path: string) {
    exists k | 0 <= k < |members| :: members[k].path == path
  }

  predicate Applicable(policy: Policy, members: seq<Member>) {
    members != [] && (policy.ManualPath? ==> HasPath(members, policy.path))
  }

  predicate HasKeeper(members: seq<Member>) {
    exists k | 0 <= k < |members| :: members[k].action.Keep?
  }

  class DuplicateGroup {
    var members: seq<Member>

    /** Apply a policy: exactly one member is kept, the best one, and all others are quarantined. */
    method ApplyPolicy(policy: Policy, le: (string, string) -> bool) returns (keeper: Option<nat>)
      requires TotalOrder(le)
      modifies this
      ensures keeper.None? <==>
                old(members) == [] || (policy.ManualPath? && forall m | m in old(members) :: m.path != policy.path)
      ensures keeper.None? ==> members == old(members)
      ensures |members| == |old(members)|
      ensures forall j | 0 <= j < |members| :: members[j] == old(members)[j].(action := members[j].action)
      ensures keeper.Some? ==> OnlyKeeper(members, keeper.value) && IsBest(policy, le, old(members), keeper.value)
      ensures keeper.Some? ==> KeepsThe(policy, le, old(members), keeper.value)
      ensures keeper.Some? ==> HasKeeper(members)
    {
      if members == [] {
        return None;
      }
      if policy.ManualPath? && !HasPath(members, policy.path) {
        assert forall k | 0 <= k < |members| :: members[k].path != policy.path;
        return None;
      }
      var k := SelectBy(policy, le, members);
      BestIsKept(policy, le, members, k);
      members := seq(|members|, j requires 0 <= j < |members| reads this =>
                       members[j].(action := if j == k then Keep else ToQuarantine));
      assert members[k].action.Keep?;
      keeper := Some(k);
    }
  }

  /** Among equals the shorter path wins, and of equally long ones the first in the order of paths. */
  predicate Shorter(le: (string, string) -> bool, a: string, b: string) {
    |a| <= |b| && (|a| == |b| ==> le(a, b))
  }

  /** What each policy promises of the member it keeps: the oldest, the newest, the one with the shortest
      path, the one that was named, or the oldest of those in a primary folder, if there are any. */
  ghost predicate KeepsThe(policy: Policy, le: (string, string) -> bool, members: seq<Member>, k: nat) {
    k < |members| && forall j | 0 <= j < |members| ::
      var kept, other := members[k], members[j];
      match policy
      case Oldest => kept.modified <= other.modified && (kept.modified == other.modified ==> Shorter(le, kept.path, other.path))
      case Newest => kept.modified >= other.modified && (kept.modified == other.modified ==> Shorter(le, kept.path, other.path))
      case ShortestPath => Shorter(le, kept.path, other.path)
      case Default(primary) =>
        && (primary(other.path) ==> primary(kept.path))
        && (primary(kept.path) == primary(other.path) ==>
              kept.modified <= other.modified && (kept.modified == other.modified ==> Shorter(le, kept.path, other.path)))
      case ManualPath(path) => kept.path == path && (other.path == path ==> k <= j)
  }

  lemma BestIsKept(policy: Policy, le: (string, string) -> bool, members: seq<Member>, k: nat)
    requires TotalOrder(le) && Applicable(policy, members) && IsBest(policy, le, members, k)
    requires forall j | 0 <= j < k :: !NotWorse(policy, le, members[j], members[k])
    ensures KeepsThe(policy, le, members, k)
  {
    if policy.ManualPath? {
      var named :| 0 <= named < |members| && members[named].path == policy.path;
      assert NotWorse(policy, le, members[k], members[named]);
    }
  }

  /** The kept path does not depend on the order of the members. */
  lemma KeeperIsOrderIndependent(policy: Policy, le: (string, string) -> bool, a: seq<Member>, b: seq<Member>, i: nat, j: nat)
    requires TotalOrder(le) && Applicable(policy, a)
    requires (forall m :: m in a <==> m in b)
    requires IsBest(policy, le, a, i) && IsBest(policy, le, b, j)
    ensures a[i].path == b[j].path
  {
    assert a[i] in b && b[j] in a;
    var x :| 0 <= x < |b| && b[x] == a[i];
    var y :| 0 <= y < |a| && a[y] == b[j];
    assert NotWorse(policy, le, a[i], a[y]) && NotWorse(policy, le, b[j], b[x]);
    NotWorseIsOrder(policy, le, a[i], b[j], b[j]);
    if policy.ManualPath? {
      var k :| 0 <= k < |a| && a[k].path == policy.path;
      assert NotWorse(policy, le, a[i], a[k]);
    }
  }

  // ---------------------------------------------------------------- reclaimable bytes

  function Capped(n: nat): nat {
    if n <= U64_MAX then n else U64_MAX
  }

  /** Bytes reclaimable while keeping exactly one of `count` files, saturating at 64 bits. */
  function MaximumReclaimable(size: nat, count: nat): nat {
    Capped(size * SaturatingSub(count, 1))
  }

  function QuarantinedBytes(members: seq<Member>): nat {
    if members == [] then 0
    else QuarantinedBytes(members[..|members| - 1])
         + if members[|members| - 1].action.ToQuarantine? then members[|members| - 1].size else 0
  }

  function PlannedBytes(groups: seq<seq<Member>>): nat {
    if groups == [] then 0 else PlannedBytes(groups[..|groups| - 1]) + QuarantinedBytes(groups[|groups| - 1])
  }

  /** The saturating sum a caller would form from the groups' maxima. */
  function SumOfMaxima(groups: seq<seq<Member>>, sizes: seq<nat>): nat
    requires |sizes| == |groups|
  {
    if groups == [] then 0
    else SaturatingAdd(SumOfMaxima(groups[..|groups| - 1], sizes[..|groups| - 1]),
                       MaximumReclaimable(sizes[|groups| - 1], |groups[|groups| - 1]|))
  }

  /** The preview: refuses a group without keeper, otherwise the capped sum of all quarantined sizes. */
  method BuildDryRun(groups: seq<seq<Member>>) returns (bytes: Option<nat>)
    ensures bytes.Some? <==> forall group | group in groups :: exists m :: m in group && m.action == Keep
    ensures bytes.Some? ==> bytes.value == Capped(PlannedBytes(groups))
  {
    var total := 0;
    for g := 0 to |groups|
      invariant total == Capped(PlannedBytes(groups[..g]))
      invariant forall h | 0 <= h < g :: exists m :: m in groups[h] && m.action == Keep
    {
      assert HasKeeper(groups[g]) <==> exists m :: m in groups[g] && m.action == Keep;
      if !HasKeeper(groups[g]) {
        assert groups[g] in groups;
        return None;
      }
      for j := 0 to |groups[g]|
        invariant total == Capped(PlannedBytes(groups[..g]) + QuarantinedBytes(groups[g][..j]))
      {
        assert groups[g][..j + 1][..j] == groups[g][..j];
        if groups[g][j].action.ToQuarantine? {
          total := SaturatingAdd(total, groups[g][j].size);
        }
      }
      assert groups[g][..|groups[g]|] == groups[g];
      assert groups[..g + 1][..g] == groups[..g];
    }
    assert groups[..|groups|] == groups;
    bytes := Some(total);
  }

  lemma {:induction false} AllQuarantined(members: seq<Member>, size: nat)
    requires forall j | 0 <= j < |members| :: members[j].action.ToQuarantine? && members[j].size == size
    ensures QuarantinedBytes(members) == size * |members|
  {
    if members != [] {
      AllQuarantined(members[..|members| - 1], size);
      assert size * |members| == size * (|members| - 1) + size;
    }
  }

  lemma {:induction false} OneKept(members: seq<Member>, k: nat, size: nat)
    requires OnlyKeeper(members, k) && forall j | 0 <= j < |members| :: members[j].size == size
    ensures QuarantinedBytes(members) == size * (|members| - 1)
  {
    var init := members[..|members| - 1];
    if k == |init| {
      AllQuarantined(init, size);
    } else {
      OneKept(init, k, size);
      assert size * |init| == size * (|init| - 1) + size;
    }
  }

  /** Exactly one member is kept and all have the group's size. */
  ghost predicate Settled(members: seq<Member>, size: nat) {
    (exists k :: OnlyKeeper(members, k)) && forall j | 0 <= j < |members| :: members[j].size == size
  }

  /** For groups as the keep policy leaves them, the preview's bytes are the saturating sum of the
      groups' maximum reclaimable bytes. */
  lemma {:induction false} PreviewIsSumOfMaxima(groups: seq<seq<Member>>, sizes: seq<nat>)
    requires |sizes| == |groups| && forall g | 0 <= g < |groups| :: Settled(groups[g], sizes[g])
    ensures Capped(PlannedBytes(groups)) == SumOfMaxima(groups, sizes)
  {
    if groups != [] {
      var n := |groups| - 1;
      PreviewIsSumOfMaxima(groups[..n], sizes[..n]);
      assert Settled(groups[n], sizes[n]);
      var k :| OnlyKeeper(groups[n], k);
      OneKept(groups[n], k, sizes[n]);
    }
  }
}
