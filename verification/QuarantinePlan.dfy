/** Applying a sealed plan: one verified move per quarantine item, each behind a live keeper. */
module QuarantinePlan {
  import opened Domain
  import opened JournalProtocol
  import opened VerifiedMove
  import opened MoveCommands

  /** Digest evidence of one full pass. */
  datatype HashResult = HashResult(digest: Bytes, stable: bool)

  datatype ProvenFile = ProvenFile(
    path: Path, identity: Option<Identity>, size: nat, token: Bytes, blake3: HashResult, sha256: HashResult)

  datatype Member = Member(file: ProvenFile, action: MemberAction)
  datatype Group = Group(id: Uuid, blake3: Bytes, sha256: Bytes, members: seq<Member>)
  datatype PlanItem = PlanItem(id: Uuid, groupId: Uuid, file: ProvenFile)

  datatype PlanStatus = Sealed | Executing | Completed | Stale

  /** Where an item goes; None when the source is outside its root. */
  function Destination(quarantineRoot: Path, project: Uuid, session: Uuid, item: Uuid, sourceRoot: Path, source: Path)
    : Option<Path>
  {
    if sourceRoot <= source then Some(quarantineRoot + [project, session, item] + source[|sourceRoot|..]) else None
  }

  /** Under one quarantine root, two plan items never share a destination. */
  lemma DestinationInjective(q: Path, p: Uuid, s: Uuid, a: Uuid, b: Uuid, ra: Path, rb: Path, x: Path, y: Path)
    requires a != b
    requires Destination(q, p, s, a, ra, x).Some? && Destination(q, p, s, b, rb, y).Some?
    ensures Destination(q, p, s, a, ra, x) != Destination(q, p, s, b, rb, y)
  {
    var u, v := Destination(q, p, s, a, ra, x).value, Destination(q, p, s, b, rb, y).value;
    assert u[|q| + 2] == a && v[|q| + 2] == b;
  }

  /** The longest configured root containing `path`. */
  function BestRoot(roots: seq<Path>, path: Path): (r: Option<Path>)
    ensures r.Some? ==> r.value in roots && r.value <= path
    ensures forall root | root in roots && root <= path :: r.Some? && |root| <= |r.value|
  {
    if roots == [] then None
    else
      var best, last := BestRoot(roots[..|roots| - 1], path), roots[|roots| - 1];
      assert forall root :: root in roots ==> root in roots[..|roots| - 1] || root == last;
      if last <= path && (best.None? || |best.value| <= |last|) then Some(last) else best
  }

  const QUARANTINE_DIRECTORY := ".safe-duplicate-finder-quarantine"

  datatype Plan = Plan(
    project: Uuid, session: Uuid, roots: seq<Path>, explicitRoot: Option<Path>,
    groups: seq<Group>, items: seq<PlanItem>)
  {
    function DestinationOf(item: PlanItem): Option<Path> {
      match BestRoot(roots, item.file.path)
      case None => None
      case Some(root) =>
        var quarantineRoot := if explicitRoot.Some? then explicitRoot.value else root + [QUARANTINE_DIRECTORY];
        Destination(quarantineRoot, project, session, item.id, root, item.file.path)
    }
  }

  /** `root` is the longest of the plan's roots that contain `path`. */
  ghost predicate OwnRoot(plan: Plan, root: Path, path: Path) {
    root in plan.roots && root <= path && forall other | other in plan.roots && other <= path :: |other| <= |root|
  }

  /** Below the quarantine root, one directory for the project, one for the session, one for the item, and
      then the item's path inside its own root. An item outside all roots has no destination. */
  lemma DestinationIs(plan: Plan, item: PlanItem, root: Path)
    ensures plan.DestinationOf(item).None? <==> forall other | other in plan.roots :: !(other <= item.file.path)
    ensures OwnRoot(plan, root, item.file.path) ==>
              && root + item.file.path[|root|..] == item.file.path
              && plan.DestinationOf(item) ==
                 Some((if plan.explicitRoot == None then root + [".safe-duplicate-finder-quarantine"]
                       else plan.explicitRoot.value)
                      + [plan.project, plan.session, item.id] + item.file.path[|root|..])
  {
    if OwnRoot(plan, root, item.file.path) {
      OwnRootIsBest(plan, root, item.file.path);
    }
  }

  lemma OwnRootIsBest(plan: Plan, root: Path, path: Path)
    requires OwnRoot(plan, root, path)
    ensures BestRoot(plan.roots, path) == Some(root)
  {
    var best := BestRoot(plan.roots, path).value;
    assert |best| == |root| && best == path[..|best|] && root == path[..|root|];
  }

  /** Two plan items never share a destination: with one quarantine root for all, and with one inside each
      source root as long as no source root lies in a quarantine directory itself. */
  lemma DestinationsDiffer(plan: Plan, x: PlanItem, y: PlanItem)
    requires WellRooted(plan) && x.id != y.id
    ensures plan.DestinationOf(x).Some? ==> plan.DestinationOf(x) != plan.DestinationOf(y)
  {
    if plan.DestinationOf(x).Some? && plan.DestinationOf(y).Some? {
      var rx, ry := BestRoot(plan.roots, x.file.path).value, BestRoot(plan.roots, y.file.path).value;
      if plan.explicitRoot.Some? {
        DestinationInjective(plan.explicitRoot.value, plan.project, plan.session, x.id, y.id, rx, ry, x.file.path, y.file.path);
      } else if |rx| <= |ry| {
        NestedRootsDiffer(plan, x, y, rx, ry);
      } else {
        NestedRootsDiffer(plan, y, x, ry, rx);
      }
    }
  }

  /** No source root lies in a quarantine directory; root validation refuses such a root. */
  ghost predicate WellRooted(plan: Plan) {
    plan.explicitRoot.None? ==> forall root | root in plan.roots :: QUARANTINE_DIRECTORY !in root
  }

  lemma NestedRootsDiffer(plan: Plan, x: PlanItem, y: PlanItem, rx: Path, ry: Path)
    requires WellRooted(plan) && plan.explicitRoot.None? && x.id != y.id && |rx| <= |ry|
    requires BestRoot(plan.roots, x.file.path) == Some(rx) && BestRoot(plan.roots, y.file.path) == Some(ry)
    requires plan.DestinationOf(x).Some? && plan.DestinationOf(y).Some?
    ensures plan.DestinationOf(x) != plan.DestinationOf(y)
  {
    hide BestRoot;
    assert ry in plan.roots;
    assert rx + [QUARANTINE_DIRECTORY] + [plan.project, plan.session, x.id]
        == rx + [QUARANTINE_DIRECTORY, plan.project, plan.session, x.id];
    assert ry + [QUARANTINE_DIRECTORY] + [plan.project, plan.session, y.id]
        == ry + [QUARANTINE_DIRECTORY, plan.project, plan.session, y.id];
    NestedPathsDiffer(rx, ry, QUARANTINE_DIRECTORY, plan.project, plan.session, x.id, y.id,
                      x.file.path[|rx|..], y.file.path[|ry|..]);
  }

  lemma NestedPathsDiffer(rx: Path, ry: Path, q: string, p: Uuid, s: Uuid, a: Uuid, b: Uuid, t: Path, u: Path)
    requires |rx| <= |ry| && q !in ry && a != b
    ensures rx + [q, p, s, a] + t != ry + [q, p, s, b] + u
  {
    var x, y := rx + [q, p, s, a] + t, ry + [q, p, s, b] + u;
    assert x[|rx|] == q && x[|rx| + 3] == a && y[|ry| + 3] == b;
    if |rx| < |ry| {
      assert y[|rx|] == ry[|rx|] && ry[|rx|] in ry;
    }
  }

  /** Items are the quarantine members of the plan's groups; no path occurs twice among members,
      and no item lives where the plan is going to put one. */
  ghost predicate MatchesGroups(plan: Plan) {
    && (forall i | 0 <= i < |plan.items| :: IsListed(plan, i))
    && (forall g, j, g', j' |
          0 <= g < |plan.groups| && 0 <= j < |plan.groups[g].members|
          && 0 <= g' < |plan.groups| && 0 <= j' < |plan.groups[g'].members|
          && plan.groups[g].members[j].file.path == plan.groups[g'].members[j'].file.path ::
          g == g' && j == j')
    && (forall i, j | 0 <= i < j < |plan.items| :: plan.items[i].file.path != plan.items[j].file.path)
    && (forall i, j | 0 <= i < |plan.items| && 0 <= j < |plan.items| ::
          plan.DestinationOf(plan.items[i]) != Some(plan.items[j].file.path))
  }

  ghost predicate IsListed(plan: Plan, i: nat)
    requires i < |plan.items|
  {
    exists g, j :: IsMember(plan, i, g, j)
  }

  ghost predicate IsMember(plan: Plan, i: nat, g: nat, j: nat)
    requires i < |plan.items|
  {
    && g < |plan.groups| && j < |plan.groups[g].members|
    && plan.groups[g].members[j].file.path == plan.items[i].file.path
    && plan.groups[g].members[j].action.ToQuarantine?
  }

  ghost predicate IsKeeper(plan: Plan, path: Path) {
    exists g, j :: KeeperAt(plan, path, g, j)
  }

  ghost predicate KeeperAt(plan: Plan, path: Path, g: nat, j: nat) {
    && g < |plan.groups| && j < |plan.groups[g].members|
    && plan.groups[g].members[j].file.path == path
    && plan.groups[g].members[j].action.Keep?
  }

  lemma KeeperIsNoItem(plan: Plan, path: Path, i: nat)
    requires MatchesGroups(plan) && IsKeeper(plan, path) && i < |plan.items|
    ensures plan.items[i].file.path != path
  {
    var g, j :| KeeperAt(plan, path, g, j);
    assert IsListed(plan, i);
    var g', j' :| IsMember(plan, i, g', j');
  }

  ghost predicate IsItemPath(plan: Plan, path: Path) {
    exists i :: 0 <= i < |plan.items| && plan.items[i].file.path == path
  }

  /** A file that came to `path` is an item's, at that item's own destination. */
  ghost predicate Arrived(plan: Plan, path: Path, before: map<Path, File>, after: map<Path, File>)
    requires path in after
  {
    exists i :: 0 <= i < |plan.items| && plan.DestinationOf(plan.items[i]) == Some(path)
                && plan.items[i].file.path in before && after[path] == before[plan.items[i].file.path]
  }

  /** Every item's file is where it was or at its own destination; every other file, a keeper's among
      them, is untouched; and nothing else came to be. */
  ghost predicate Safe(plan: Plan, before: map<Path, File>, after: map<Path, File>) {
    && (forall i | 0 <= i < |plan.items| :: ItemSafe(plan, plan.items[i], before, after))
    && (forall path | path in before && !IsItemPath(plan, path) :: path in after && after[path] == before[path])
    && (forall path | path in after :: (path in before && after[path] == before[path]) || Arrived(plan, path, before, after))
  }

  /** In particular every keeper is untouched. */
  lemma KeepersStay(plan: Plan, before: map<Path, File>, after: map<Path, File>, path: Path)
    requires MatchesGroups(plan) && Safe(plan, before, after) && IsKeeper(plan, path) && path in before
    ensures path in after && after[path] == before[path]
  {
    if i :| 0 <= i < |plan.items| && plan.items[i].file.path == path {
      KeeperIsNoItem(plan, path, i);
    }
  }

  predicate ItemSafe(plan: Plan, item: PlanItem, before: map<Path, File>, after: map<Path, File>) {
    item.file.path in before ==>
      || (item.file.path in after && after[item.file.path] == before[item.file.path])
      || ItemMoved(plan, item, before, after)
  }

  predicate ItemMoved(plan: Plan, item: PlanItem, before: map<Path, File>, after: map<Path, File>)
  {
    && plan.DestinationOf(item).Some?
    && plan.DestinationOf(item).value in after
    && item.file.path in before
    && after[plan.DestinationOf(item).value] == before[item.file.path]
  }

  lemma MoveKeepsItem(d: Digests, plan: Plan, i: nat, k: nat, tx: Transaction,
                      before: map<Path, File>, now: map<Path, File>)
    requires MatchesGroups(plan) && i < |plan.items| && k < |plan.items| && CanMove(d, now, tx)
    requires tx.source == plan.items[i].file.path && plan.DestinationOf(plan.items[i]) == Some(tx.destination)
    requires ItemSafe(plan, plan.items[k], before, now) && ItemSafe(plan, plan.items[i], before, now)
    ensures ItemSafe(plan, plan.items[k], before, Moved(now, tx.source, tx.destination))
  {
    if k != i {
      assert plan.items[k].file.path != plan.items[i].file.path;
    }
    assert plan.DestinationOf(plan.items[k]) != Some(plan.items[i].file.path);
    assert plan.DestinationOf(plan.items[i]) != Some(plan.items[i].file.path);
  }

  /** An item's file has not been replaced: no destination is an item's path. */
  lemma SourceIsOriginal(plan: Plan, i: nat, before: map<Path, File>, now: map<Path, File>)
    requires MatchesGroups(plan) && i < |plan.items| && Safe(plan, before, now) && plan.items[i].file.path in now
    ensures plan.items[i].file.path in before && now[plan.items[i].file.path] == before[plan.items[i].file.path]
  {
    var path := plan.items[i].file.path;
    assert forall j | 0 <= j < |plan.items| :: plan.DestinationOf(plan.items[j]) != Some(path);
  }

  lemma MoveKeepsArrivals(d: Digests, plan: Plan, i: nat, tx: Transaction,
                          before: map<Path, File>, now: map<Path, File>, path: Path)
    requires MatchesGroups(plan) && i < |plan.items| && Safe(plan, before, now) && CanMove(d, now, tx)
    requires tx.source == plan.items[i].file.path && plan.DestinationOf(plan.items[i]) == Some(tx.destination)
    requires path in Moved(now, tx.source, tx.destination)
    ensures var after := Moved(now, tx.source, tx.destination);
            (path in before && after[path] == before[path]) || Arrived(plan, path, before, after)
  {
    hide MatchesGroups, ItemSafe;
    if path == tx.destination {
      SourceIsOriginal(plan, i, before, now);
    } else if Arrived(plan, path, before, now) {
      var j :| 0 <= j < |plan.items| && plan.DestinationOf(plan.items[j]) == Some(path)
               && plan.items[j].file.path in before && now[path] == before[plan.items[j].file.path];
    }
  }

  /** One more item's move keeps every file of the plan safe. */
  lemma MoveKeepsSafe(d: Digests, plan: Plan, i: nat, tx: Transaction,
                      before: map<Path, File>, now: map<Path, File>, after: map<Path, File>)
    requires MatchesGroups(plan) && i < |plan.items| && Safe(plan, before, now)
    requires tx.source == plan.items[i].file.path && plan.DestinationOf(plan.items[i]) == Some(tx.destination)
    requires HasMoved(d, now, after, tx)
    ensures Safe(plan, before, after)
  {
    hide MatchesGroups, ItemSafe, Arrived;
    forall k | 0 <= k < |plan.items| ensures ItemSafe(plan, plan.items[k], before, after) {
      MoveKeepsItem(d, plan, i, k, tx, before, now);
    }
    forall path | path in after ensures (path in before && after[path] == before[path]) || Arrived(plan, path, before, after) {
      MoveKeepsArrivals(d, plan, i, tx, before, now, path);
    }
  }

  predicate HasVerifiedMove(rows: map<Uuid, Row>, item: Uuid) {
    exists id :: id in rows && rows[id].tx.planItem == Some(item) && rows[id].tx.kind.Quarantine? && rows[id].status.Verified?
  }

  /** The plan table row. An unreliable database may fail any statement, and then changes nothing. */
  class PlanStore {
    const reliable: bool
    var status: PlanStatus

    method MarkExecuting() returns (ok: bool)
      modifies this
      ensures ok ==> old(status) == Sealed
      ensures reliable ==> (ok <==> old(status) == Sealed)
      ensures status == if ok then Executing else old(status)
    {
      ok := *;
      ok := (ok || reliable) && status == Sealed;
      if ok {
        status := Executing;
      }
    }

    method MarkCompletedIfVerified(m: Machine, plan: Plan) returns (ok: bool)
      modifies this
      ensures ok ==> forall i | 0 <= i < |plan.items| :: HasVerifiedMove(m.rows, plan.items[i].id)
      ensures reliable ==> (ok <==> forall i | 0 <= i < |plan.items| :: HasVerifiedMove(m.rows, plan.items[i].id))
      ensures status == if ok && old(status) == Executing then Completed else old(status)
    {
      ok := *;
      ok := (ok || reliable) && forall i | 0 <= i < |plan.items| :: HasVerifiedMove(m.rows, plan.items[i].id);
      if ok && status == Executing {
        status := Completed;
      }
    }
  }

  predicate LiveKeeper(d: Digests, files: map<Path, File>, group: Group, member: Member) {
    && member.action.Keep?
    && member.file.path in files
    && Some(files[member.file.path].identity) == member.file.identity
    && |files[member.file.path].content| == member.file.size
    && SnapshotOf(d, files[member.file.path]).token == member.file.token
    && d.blake3(files[member.file.path].content) == group.blake3
    && d.sha256(files[member.file.path].content) == group.sha256
  }

  /** Index of the first member to keep, or the number of members. */
  function FirstKeep(members: seq<Member>): (j: nat)
    ensures j <= |members| && (j < |members| ==> members[j].action.Keep?)
  {
    if members == [] || members[0].action.Keep? then 0 else 1 + FirstKeep(members[1..])
  }

  /** The first member marked to keep is still there with all of its sealed evidence. */
  predicate KeeperLives(d: Digests, files: map<Path, File>, group: Group) {
    FirstKeep(group.members) < |group.members| && LiveKeeper(d, files, group, group.members[FirstKeep(group.members)])
  }

  method VerifyLiveKeeper(m: Machine, group: Group) returns (ok: bool)
    ensures ok ==> KeeperLives(m.digests, m.files, group)
    ensures m.reliable && m.alive ==> (ok <==> KeeperLives(m.digests, m.files, group))
  {
    var j := 0;
    while j < |group.members| && !group.members[j].action.Keep?
      invariant j <= |group.members| && FirstKeep(group.members) == j + FirstKeep(group.members[j..])
    {
      assert group.members[j..][1..] == group.members[j + 1..];
      j := j + 1;
    }
    if j == |group.members| {
      return false;
    }
    var expected := group.members[j].file;
    var current := m.SnapshotPath(expected.path);
    if current.None? || Some(current.value.identity) != expected.identity || current.value.size != expected.size
       || current.value.token != expected.token
    {
      return false;
    }
    var blake3 := m.HashPath(expected.path, m.digests.blake3);
    var sha256 := m.HashPath(expected.path, m.digests.sha256);
    ok := blake3 == Some(group.blake3) && sha256 == Some(group.sha256);
  }

  method VerifyAllKeepers(m: Machine, groups: seq<Group>) returns (ok: bool)
    ensures ok ==> forall g | 0 <= g < |groups| :: KeeperLives(m.digests, m.files, groups[g])
    ensures m.reliable && m.alive ==> (ok <==> forall g | 0 <= g < |groups| :: KeeperLives(m.digests, m.files, groups[g]))
  {
    for g := 0 to |groups|
      invariant forall h | 0 <= h < g :: KeeperLives(m.digests, m.files, groups[h])
    {
      var live := VerifyLiveKeeper(m, groups[g]);
      if !live {
        return false;
      }
    }
    ok := true;
  }

  /** Index of the first group with this id, or the number of groups. */
  function FirstGroup(groups: seq<Group>, id: Uuid): (g: nat)
    ensures g <= |groups| && (g < |groups| ==> groups[g].id == id)
  {
    if groups == [] || groups[0].id == id then 0 else 1 + FirstGroup(groups[1..], id)
  }

  predicate GroupLives(d: Digests, files: map<Path, File>, groups: seq<Group>, id: Uuid) {
    FirstGroup(groups, id) < |groups| && KeeperLives(d, files, groups[FirstGroup(groups, id)])
  }

  /** The group an item belongs to is found by id and its keeper is proved alive again. */
  method VerifyGroupOf(m: Machine, groups: seq<Group>, groupId: Uuid) returns (ok: bool)
    ensures ok ==> GroupLives(m.digests, m.files, groups, groupId)
    ensures m.reliable && m.alive ==> (ok <==> GroupLives(m.digests, m.files, groups, groupId))
  {
    var g := 0;
    while g < |groups| && groups[g].id != groupId
      invariant g <= |groups| && FirstGroup(groups, groupId) == g + FirstGroup(groups[g..], groupId)
    {
      assert groups[g..][1..] == groups[g + 1..];
      g := g + 1;
    }
    if g == |groups| {
      return false;
    }
    ok := VerifyLiveKeeper(m, groups[g]);
  }

  /** One planned transaction for one item, or None when the evidence is not usable. */
  function PlannedTransaction(plan: Plan, id: Uuid, item: PlanItem, destination: Path): Option<Transaction> {
    if item.file.identity.None? || !item.file.blake3.stable || !item.file.sha256.stable then None
    else Some(Transaction(id, plan.project, Some(item.id), Kind.Quarantine, item.file.path, destination,
                          item.file.identity.value, item.file.size, item.file.blake3.digest,
                          item.file.sha256.digest, item.file.token))
  }

  /** The file carries all the evidence of the scan, stable and complete, and has one link. */
  predicate HasEvidence(d: Digests, file: File, evidence: ProvenFile) {
    && evidence.identity == Some(file.identity) && evidence.size == |file.content| && file.links == 1
    && evidence.token == d.token(file.identity, |file.content|, file.modified)
    && evidence.blake3 == HashResult(d.blake3(file.content), true)
    && evidence.sha256 == HashResult(d.sha256(file.content), true)
  }

  /** The item's file is where the plan expects it, with all its evidence, its destination is free, and the
      record of its move fits the table. */
  predicate Movable(d: Digests, files: map<Path, File>, rows: map<Uuid, Row>, plan: Plan, item: PlanItem, id: Uuid) {
    && id !in rows && plan.DestinationOf(item).Some? && plan.DestinationOf(item).value !in files
    && item.file.path in files && HasEvidence(d, files[item.file.path], item.file)
    && item.file.size <= I64_MAX && d.hasKey(item.file.path) && d.hasKey(plan.DestinationOf(item).value)
  }

  /** The item's move is on record as verified, with the item's own evidence. */
  predicate Recorded(rows: map<Uuid, Row>, plan: Plan, item: PlanItem, id: Uuid) {
    && id in rows && rows[id].status == TransactionState.Verified
    && var tx := rows[id].tx;
       && tx.kind == Kind.Quarantine && tx.planItem == Some(item.id) && tx.project == plan.project
       && tx.source == item.file.path && Some(tx.destination) == plan.DestinationOf(item)
       && Some(tx.identity) == item.file.identity && tx.size == item.file.size && tx.token == item.file.token
       && item.file.blake3 == HashResult(tx.blake3, true) && item.file.sha256 == HashResult(tx.sha256, true)
  }

  /** A planned transaction carries the item's evidence, so its move can succeed exactly if the item is movable. */
  lemma MovableIff(d: Digests, files: map<Path, File>, rows: map<Uuid, Row>, plan: Plan, item: PlanItem, id: Uuid)
    ensures plan.DestinationOf(item).None? ==> !Movable(d, files, rows, plan, item, id)
    ensures plan.DestinationOf(item).Some? ==>
              var tx := PlannedTransaction(plan, id, item, plan.DestinationOf(item).value);
              && (tx.Some? ==> tx.value.id == id && tx.value.source == item.file.path
                               && tx.value.destination == plan.DestinationOf(item).value)
              && (Movable(d, files, rows, plan, item, id) <==>
                    && id !in rows && tx.Some? && Recordable(d, tx.value) && CanMove(d, files, tx.value)
                    && DestinationMatches(d, files[tx.value.source], tx.value))
  {
  }

  lemma PlannedIsRecorded(rows: map<Uuid, Row>, plan: Plan, item: PlanItem, id: Uuid)
    requires plan.DestinationOf(item).Some? && id in rows && rows[id].status.Verified?
    requires PlannedTransaction(plan, id, item, plan.DestinationOf(item).value) == Some(rows[id].tx)
    ensures Recorded(rows, plan, item, id)
  {
  }

  lemma VerifiedHasMoved(d: Digests, before: map<Path, File>, after: map<Path, File>, tx: Transaction)
    requires Tells(d, Some(Verified), before, after, tx)
    ensures HasMoved(d, before, after, tx)
  {
  }

  method MoveItem(m: Machine, plan: Plan, i: nat, id: Uuid, ghost before: map<Path, File>) returns (ok: bool)
    requires MatchesGroups(plan) && i < |plan.items| && Safe(plan, before, m.files)
    modifies m
    ensures Safe(plan, before, m.files)
    ensures m.rows.Keys <= old(m.rows).Keys + {id}
    ensures forall k | k in old(m.rows) :: k in m.rows && m.rows[k].tx == old(m.rows[k].tx)
    ensures forall k | k in old(m.rows) && old(m.rows[k].status.Verified?) :: k in m.rows && m.rows[k].status.Verified?
    ensures ok ==> m.alive && Recorded(m.rows, plan, plan.items[i], id)
    ensures plan.DestinationOf(plan.items[i]).None? ==> m.files == old(m.files)
    ensures m.files == old(m.files)
            || (plan.DestinationOf(plan.items[i]).Some? && plan.items[i].file.path in old(m.files)
                && m.files == Moved(old(m.files), plan.items[i].file.path, plan.DestinationOf(plan.items[i]).value))
    ensures ok ==> plan.DestinationOf(plan.items[i]).Some? && plan.items[i].file.path in old(m.files)
                   && m.files == Moved(old(m.files), plan.items[i].file.path, plan.DestinationOf(plan.items[i]).value)
    ensures m.reliable && old(m.alive) && Movable(m.digests, old(m.files), old(m.rows), plan, plan.items[i], id) ==> ok
  {
    hide MatchesGroups, Safe, Reaches, Tells, SourceMatches, DestinationMatches, EntriesFollow, Movable, Recorded,
         PlannedTransaction, Recordable;
    var item := plan.items[i];
    MovableIff(m.digests, m.files, m.rows, plan, item, id);
    var destination := plan.DestinationOf(item);
    if destination.None? {
      return false;
    }
    var tx := PlannedTransaction(plan, id, item, destination.value);
    if tx.None? {
      return false;
    }
    var t := new FileTransaction.Planned(tx.value);
    ok := ExecuteVerifiedMove(m, t);
    if m.files != old(m.files) {
      MoveKeepsSafe(m.digests, plan, i, tx.value, before, old(m.files), m.files);
    }
    if ok {
      VerifiedHasMoved(m.digests, old(m.files), m.files, tx.value);
      assert m.rows[id].tx == tx.value;
      PlannedIsRecorded(m.rows, plan, item, id);
    }
  }

  /** Everything the plan needs is in place: live keepers, movable items, distinct item and transaction
      ids, and no source root inside a quarantine directory. */
  ghost predicate Ready(d: Digests, files: map<Path, File>, rows: map<Uuid, Row>, plan: Plan, ids: seq<Uuid>, from: nat)
    requires |ids| == |plan.items|
  {
    && (forall k | from <= k < |ids| :: ReadyItem(d, files, rows, plan, ids, k))
    && WellRooted(plan)
    && (forall k, l | from <= k < l < |ids| :: ids[k] != ids[l] && plan.items[k].id != plan.items[l].id)
  }

  predicate ReadyItem(d: Digests, files: map<Path, File>, rows: map<Uuid, Row>, plan: Plan, ids: seq<Uuid>, k: nat)
    requires |ids| == |plan.items| && k < |ids|
  {
    Movable(d, files, rows, plan, plan.items[k], ids[k]) && GroupLives(d, files, plan.groups, plan.items[k].groupId)
  }

  lemma GroupStaysAlive(d: Digests, files: map<Path, File>, plan: Plan, i: nat, destination: Path, id: Uuid)
    requires MatchesGroups(plan) && i < |plan.items| && plan.items[i].file.path in files && destination !in files
    requires GroupLives(d, files, plan.groups, id)
    ensures GroupLives(d, Moved(files, plan.items[i].file.path, destination), plan.groups, id)
  {
    hide MatchesGroups;
    var g := FirstGroup(plan.groups, id);
    var j := FirstKeep(plan.groups[g].members);
    var path := plan.groups[g].members[j].file.path;
    assert KeeperAt(plan, path, g, j);
    KeeperIsNoItem(plan, path, i);
  }

  lemma ItemStaysMovable(d: Digests, files: map<Path, File>, rows: map<Uuid, Row>, rows': map<Uuid, Row>, plan: Plan,
                         ids: seq<Uuid>, i: nat, k: nat)
    requires MatchesGroups(plan) && |ids| == |plan.items| && i < k < |ids|
    requires plan.DestinationOf(plan.items[i]).Some? && plan.items[i].file.path in files
    requires Movable(d, files, rows, plan, plan.items[k], ids[k])
    requires ids[i] != ids[k] && plan.DestinationOf(plan.items[i]) != plan.DestinationOf(plan.items[k])
    requires rows'.Keys <= rows.Keys + {ids[i]}
    ensures var files' := Moved(files, plan.items[i].file.path, plan.DestinationOf(plan.items[i]).value);
            Movable(d, files', rows', plan, plan.items[k], ids[k])
  {
    assert plan.items[i].file.path != plan.items[k].file.path;
    assert plan.DestinationOf(plan.items[i]) != Some(plan.items[k].file.path);
  }

  lemma StaysReady(d: Digests, files: map<Path, File>, rows: map<Uuid, Row>, rows': map<Uuid, Row>, plan: Plan,
                   ids: seq<Uuid>, i: nat)
    requires MatchesGroups(plan) && |ids| == |plan.items| && i < |ids| && Ready(d, files, rows, plan, ids, i)
    requires rows'.Keys <= rows.Keys + {ids[i]}
    ensures plan.DestinationOf(plan.items[i]).Some? && plan.items[i].file.path in files
    ensures Ready(d, Moved(files, plan.items[i].file.path, plan.DestinationOf(plan.items[i]).value), rows', plan, ids, i + 1)
  {
    hide MatchesGroups, GroupLives, WellRooted;
    assert ReadyItem(d, files, rows, plan, ids, i);
    var destination := plan.DestinationOf(plan.items[i]).value;
    forall k | i + 1 <= k < |ids| ensures ReadyItem(d, Moved(files, plan.items[i].file.path, destination), rows', plan, ids, k) {
      assert ReadyItem(d, files, rows, plan, ids, k);
      DestinationsDiffer(plan, plan.items[i], plan.items[k]);
      ItemStaysMovable(d, files, rows, rows', plan, ids, i, k);
      GroupStaysAlive(d, files, plan, i, destination, plan.items[k].groupId);
    }
  }

  lemma TotalSizeSnoc(items: seq<PlanItem>, i: nat)
    requires i < |items|
    ensures Capped(TotalSize(items[..i + 1])) == SaturatingAdd(Capped(TotalSize(items[..i])), items[i].file.size)
  {
    assert items[..i + 1][..i] == items[..i];
  }

  /** The moves of the first `n` items are on record as verified, and their files are gone from their sources. */
  ghost predicate AllMoved(rows: map<Uuid, Row>, files: map<Path, File>, plan: Plan, ids: seq<Uuid>, n: nat)
    requires n <= |plan.items| == |ids|
  {
    forall k | 0 <= k < n :: Recorded(rows, plan, plan.items[k], ids[k]) && plan.items[k].file.path !in files
  }

  /** One turn of the loop: prove the keeper alive, move the item. */
  method MoveNext(m: Machine, plan: Plan, ids: seq<Uuid>, i: nat, ghost before: map<Path, File>) returns (ok: bool)
    requires MatchesGroups(plan) && |ids| == |plan.items| && i < |ids|
    requires Safe(plan, before, m.files) && AllMoved(m.rows, m.files, plan, ids, i)
    modifies m
    ensures Safe(plan, before, m.files)
    ensures ok ==> AllMoved(m.rows, m.files, plan, ids, i + 1)
    ensures m.files != old(m.files) || ok ==> GroupLives(m.digests, old(m.files), plan.groups, plan.items[i].groupId)
    ensures forall k | 0 <= k < |plan.items| && k != i && plan.items[k].file.path in old(m.files) ::
              plan.items[k].file.path in m.files
    ensures m.reliable && old(m.alive) && Ready(m.digests, old(m.files), old(m.rows), plan, ids, i) ==>
              ok && m.alive && Ready(m.digests, m.files, m.rows, plan, ids, i + 1)
  {
    hide MatchesGroups, Safe, Ready, GroupLives, Recorded, Movable, AllMoved;
    ghost var ready := m.reliable && m.alive && Ready(m.digests, m.files, m.rows, plan, ids, i);
    if ready {
      FirstIsReady(m.digests, m.files, m.rows, plan, ids, i);
    }
    ok := VerifyGroupOf(m, plan.groups, plan.items[i].groupId);
    if !ok {
      return;
    }
    ghost var files, rows := m.files, m.rows;
    ok := MoveItem(m, plan, i, ids[i], before);
    OnlyItsOwnSource(plan, i);
    if ok {
      OneMoreMoved(rows, m.rows, files, m.files, plan, ids, i);
      if ready {
        StaysReady(m.digests, files, rows, m.rows, plan, ids, i);
      }
    }
  }

  /** Move the items one after the other, stopping at the first that does not end verified. */
  method MoveItems(m: Machine, plan: Plan, ids: seq<Uuid>) returns (bytes: Option<nat>)
    requires MatchesGroups(plan) && |ids| == |plan.items|
    modifies m
    ensures Safe(plan, old(m.files), m.files)
    ensures bytes.Some? ==> bytes.value == Capped(TotalSize(plan.items)) && AllMoved(m.rows, m.files, plan, ids, |ids|)
    ensures MovedFromGroups(plan, old(m.files), m.files)
    ensures m.reliable && old(m.alive) && Ready(m.digests, old(m.files), old(m.rows), plan, ids, 0) ==> bytes.Some? && m.alive
  {
    hide MatchesGroups, Safe, Ready, AllMoved, TotalSize;
    var total := 0;
    StartsSafe(plan, m.files, m.rows, ids);
    for i := 0 to |plan.items|
      invariant Safe(plan, old(m.files), m.files) && AllMoved(m.rows, m.files, plan, ids, i)
      invariant MovedFromGroups(plan, old(m.files), m.files)
      invariant total == Capped(TotalSize(plan.items[..i]))
      invariant m.reliable && old(m.alive) && Ready(m.digests, old(m.files), old(m.rows), plan, ids, 0) ==>
                  m.alive && Ready(m.digests, m.files, m.rows, plan, ids, i)
    {
      var ok := MoveNext(m, plan, ids, i, old(m.files));
      if !ok {
        return None;
      }
      TotalSizeSnoc(plan.items, i);
      total := SaturatingAdd(total, plan.items[i].file.size);
    }
    assert plan.items[..|plan.items|] == plan.items;
    bytes := Some(total);
  }

  lemma StartsSafe(plan: Plan, files: map<Path, File>, rows: map<Uuid, Row>, ids: seq<Uuid>)
    requires |ids| == |plan.items|
    ensures Safe(plan, files, files) && TotalSize([]) == 0 && AllMoved(rows, files, plan, ids, 0)
  {
  }

  lemma FirstIsReady(d: Digests, files: map<Path, File>, rows: map<Uuid, Row>, plan: Plan, ids: seq<Uuid>, i: nat)
    requires |ids| == |plan.items| && i < |ids| && Ready(d, files, rows, plan, ids, i)
    ensures Movable(d, files, rows, plan, plan.items[i], ids[i]) && GroupLives(d, files, plan.groups, plan.items[i].groupId)
  {
    assert ReadyItem(d, files, rows, plan, ids, i);
  }

  lemma NoItemIsOverwritten(plan: Plan, i: nat, k: nat)
    requires MatchesGroups(plan) && i < |plan.items| && k < |plan.items|
    ensures plan.DestinationOf(plan.items[i]) != Some(plan.items[k].file.path)
  {
  }

  lemma RecordStays(rows: map<Uuid, Row>, rows': map<Uuid, Row>, plan: Plan, item: PlanItem, id: Uuid)
    requires Recorded(rows, plan, item, id)
    requires forall k | k in rows :: k in rows' && rows'[k].tx == rows[k].tx
    requires forall k | k in rows && rows[k].status.Verified? :: k in rows' && rows'[k].status.Verified?
    ensures Recorded(rows', plan, item, id)
  {
  }

  lemma OnlyItsOwnSource(plan: Plan, i: nat)
    requires MatchesGroups(plan) && i < |plan.items|
    ensures forall k | 0 <= k < |plan.items| && k != i :: plan.items[k].file.path != plan.items[i].file.path
  {
  }

  predicate GroupExists(plan: Plan, k: nat)
    requires k < |plan.items|
  {
    FirstGroup(plan.groups, plan.items[k].groupId) < |plan.groups|
  }

  /** Every item whose file has left its source belongs to a group of the plan. */
  ghost predicate MovedFromGroups(plan: Plan, before: map<Path, File>, after: map<Path, File>) {
    forall k | 0 <= k < |plan.items| && plan.items[k].file.path in before && plan.items[k].file.path !in after ::
      GroupExists(plan, k)
  }

  /** Nothing is moved unless every group has a live keeper before the plan begins, and then only the items
      of its groups are. */
  ghost predicate MovedBehindKeepers(d: Digests, plan: Plan, before: map<Path, File>, after: map<Path, File>) {
    after != before ==>
      && (forall g | 0 <= g < |plan.groups| :: KeeperLives(d, before, plan.groups[g]))
      && MovedFromGroups(plan, before, after)
  }

  /** Verified moves stay on record, and nothing is ever moved to an item's source. */
  lemma OneMoreMoved(rows: map<Uuid, Row>, rows': map<Uuid, Row>, files: map<Path, File>, files': map<Path, File>,
                     plan: Plan, ids: seq<Uuid>, i: nat)
    requires MatchesGroups(plan) && i < |plan.items| == |ids| && AllMoved(rows, files, plan, ids, i)
    requires forall k | k in rows :: k in rows' && rows'[k].tx == rows[k].tx
    requires forall k | k in rows && rows[k].status.Verified? :: k in rows' && rows'[k].status.Verified?
    requires Recorded(rows', plan, plan.items[i], ids[i])
    requires plan.DestinationOf(plan.items[i]).Some? && plan.items[i].file.path in files
    requires files' == Moved(files, plan.items[i].file.path, plan.DestinationOf(plan.items[i]).value)
    ensures AllMoved(rows', files', plan, ids, i + 1)
  {
    hide MatchesGroups, Recorded;
    forall k | 0 <= k < i + 1 ensures Recorded(rows', plan, plan.items[k], ids[k]) && plan.items[k].file.path !in files' {
      NoItemIsOverwritten(plan, i, k);
      if k < i {
        RecordStays(rows, rows', plan, plan.items[k], ids[k]);
      }
    }
  }

  /** What is moved and recorded counts as a verified move. */
  lemma RecordedIsVerified(rows: map<Uuid, Row>, files: map<Path, File>, plan: Plan, ids: seq<Uuid>)
    requires |ids| == |plan.items| && AllMoved(rows, files, plan, ids, |ids|)
    ensures forall k | 0 <= k < |ids| :: HasVerifiedMove(rows, plan.items[k].id)
  {
    forall k | 0 <= k < |ids| ensures HasVerifiedMove(rows, plan.items[k].id) {
      assert Recorded(rows, plan, plan.items[k], ids[k]);
    }
  }

  /** The command's steps, in order. */
  method ApplySealed(m: Machine, store: PlanStore, plan: Plan, ids: seq<Uuid>)
    returns (verifiedBytes: Option<nat>)
    requires MatchesGroups(plan) && |ids| == |plan.items|
    modifies m, store
    ensures Safe(plan, old(m.files), m.files)
    ensures store.status == Completed && old(store.status) != Completed ==> AllMoved(m.rows, m.files, plan, ids, |ids|)
    ensures store.status != old(store.status) ==> old(store.status) == Sealed && store.status in {Executing, Completed}
    ensures MovedBehindKeepers(m.digests, plan, old(m.files), m.files)
    ensures old(store.status) != Sealed ==> m.files == old(m.files) && m.rows == old(m.rows)
    ensures verifiedBytes.Some? ==> store.status == Completed && verifiedBytes.value == Capped(TotalSize(plan.items))
                                    && AllMoved(m.rows, m.files, plan, ids, |ids|)
    ensures (m.reliable && store.reliable && old(m.alive) && old(store.status) == Sealed
             && (forall g | 0 <= g < |plan.groups| :: KeeperLives(m.digests, old(m.files), plan.groups[g]))
             && Ready(m.digests, old(m.files), old(m.rows), plan, ids, 0)) ==> verifiedBytes.Some?
  {
    hide MatchesGroups, Safe, Ready, KeeperLives, HasVerifiedMove, TotalSize, AllMoved, MovedFromGroups;
    StartsSafe(plan, m.files, m.rows, ids);
    verifiedBytes := None;
    if store.status != Sealed && store.status != Executing {
      return;
    }
    var ok := VerifyAllKeepers(m, plan.groups);
    if ok {
      ok := store.MarkExecuting();
    }
    if !ok {
      return;
    }
    var bytes := MoveItems(m, plan, ids);
    if bytes.None? {
      return;
    }
    RecordedIsVerified(m.rows, m.files, plan, ids);
    ok := store.MarkCompletedIfVerified(m, plan);
    if ok {
      verifiedBytes := bytes;
    }
  }

  /** Apply a plan. Wherever it stops, every item's file is at its source or at its own destination and
      every other file, keepers and files the plan does not name, is untouched; the plan completes only when every item has a
      verified transaction, and success reports the exact (saturating) byte count. */
  method ApplyQuarantinePlan(m: Machine, store: PlanStore, plan: Plan, ids: seq<Uuid>)
    returns (verifiedBytes: Option<nat>)
    requires MatchesGroups(plan) && |ids| == |plan.items|
    modifies m, store
    ensures Safe(plan, old(m.files), m.files)
    ensures store.status == Completed && old(store.status) != Completed ==> AllMoved(m.rows, m.files, plan, ids, |ids|)
    ensures store.status != old(store.status) ==> old(store.status) == Sealed && store.status in {Executing, Completed}
    ensures MovedBehindKeepers(m.digests, plan, old(m.files), m.files)
    ensures old(store.status) != Sealed ==> m.files == old(m.files) && m.rows == old(m.rows)
    ensures verifiedBytes.Some? ==> store.status == Completed && verifiedBytes.value == Capped(TotalSize(plan.items))
                                    && AllMoved(m.rows, m.files, plan, ids, |ids|)
    ensures forall path | IsKeeper(plan, path) && path in old(m.files) :: path in m.files && m.files[path] == old(m.files)[path]
    ensures (m.reliable && store.reliable && old(m.alive) && old(store.status) == Sealed
             && (forall g | 0 <= g < |plan.groups| :: KeeperLives(m.digests, old(m.files), plan.groups[g]))
             && Ready(m.digests, old(m.files), old(m.rows), plan, ids, 0)) ==> verifiedBytes.Some?
  {
    hide MatchesGroups, Safe, Ready, KeeperLives, AllMoved, TotalSize, IsKeeper, MovedFromGroups;
    verifiedBytes := ApplySealed(m, store, plan, ids);
    forall path | IsKeeper(plan, path) && path in old(m.files) ensures path in m.files && m.files[path] == old(m.files)[path] {
      KeepersStay(plan, old(m.files), m.files, path);
    }
  }

  function TotalSize(items: seq<PlanItem>): nat {
    if items == [] then 0 else TotalSize(items[..|items| - 1]) + items[|items| - 1].file.size
  }

  /** What 64 bits can show of a sum. */
  function Capped(n: nat): nat {
    if n > U64_MAX then U64_MAX else n
  }
}
