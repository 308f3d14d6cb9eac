/**
 * The legacy group endpoints: creating a group with an invite code cut from a random
 * identifier, joining by code (a repeated join changes nothing), and the two membership
 * listings. The random identifier is a parameter.
 */
module GroupApi {
  import opened Wrappers
  import opened Tables
  import opened Query

  /** `str(uuid4())[:8]`: at most the first 8 characters of the identifier's text. */
  function InviteCode(uuid: string): (code: string)
    ensures |code| == if |uuid| < 8 then |uuid| else 8
    ensures code <= uuid
  {
    if |uuid| <= 8 then uuid else uuid[..8]
  }

  /**
   * `POST /groups/`: a new group whose invite code is cut from `uuid` (nothing checks that the
   * code is unused) and the creator's membership.
   */
  method CreateGroup(db: Db, userId: int, name: string, uuid: string) returns (group: Group)
    requires db.Valid()
    modifies db`groups, db`groupMembers, db`nextId
    ensures db.Valid()
    ensures group == Group(old(db.nextId), name, InviteCode(uuid), userId)
    ensures db.groups == old(db.groups) + [group]
    ensures db.groupMembers == old(db.groupMembers) + [GroupMember(group.id, userId)]
    ensures db.nextId == old(db.nextId) + 1
  {
    group := Group(db.nextId, name, InviteCode(uuid), userId);
    DistinctAppend(db.groups, group, (g: Group) => g.id);
    db.groups := db.groups + [group];
    db.nextId := db.nextId + 1;
    var membership := GroupMember(group.id, userId);
    assert forall j :: 0 <= j < |db.groupMembers| ==> db.groupMembers[j].groupId < group.id;
    DistinctAppend(db.groupMembers, membership, (m: GroupMember) => m);
    db.groupMembers := db.groupMembers + [membership];
  }

  /** The answers of `POST /groups/join/`. */
  datatype JoinOutcome = InvalidCode | AlreadyMember | Joined(groupId: int)

  /** What a join does: its answer and the membership table afterwards. */
  function JoinEffect(groups: seq<Group>, members: seq<GroupMember>, userId: int, code: string)
    : (JoinOutcome, seq<GroupMember>)
  {
    match FirstIndex(groups, (g: Group) => g.inviteCode == code)
    case None => (InvalidCode, members)
    case Some(k) =>
      var m := GroupMember(groups[k].id, userId);
      if m in members then (AlreadyMember, members) else (Joined(groups[k].id), members + [m])
  }

  /**
   * An unknown code changes nothing; otherwise the caller ends up a member of the first group
   * with that code, and the table grows by exactly that one row only when it was missing.
   */
  lemma JoinEffectFacts(groups: seq<Group>, members: seq<GroupMember>, userId: int, code: string)
    ensures var (outcome, after) := JoinEffect(groups, members, userId, code);
      && (outcome == InvalidCode <==> forall i :: 0 <= i < |groups| ==> groups[i].inviteCode != code)
      && (outcome.Joined? ==> exists i :: 0 <= i < |groups| && groups[i].inviteCode == code
                                          && groups[i].id == outcome.groupId)
      && (outcome.Joined? ==> GroupMember(outcome.groupId, userId) !in members
                              && after == members + [GroupMember(outcome.groupId, userId)])
      && (!outcome.Joined? ==> after == members)
      && (outcome != InvalidCode ==> exists i :: 0 <= i < |groups| && groups[i].inviteCode == code
                                                && GroupMember(groups[i].id, userId) in after)
  {
    match FirstIndex(groups, (g: Group) => g.inviteCode == code)
    case None =>
    case Some(k) =>
      var after := JoinEffect(groups, members, userId, code).1;
      assert GroupMember(groups[k].id, userId) in after;
  }

  /** Joining twice with the same code leaves the table as one join did, and the second answer is not a join. */
  lemma {:induction false} JoinIdempotent(groups: seq<Group>, members: seq<GroupMember>, userId: int, code: string)
    ensures var (first, after) := JoinEffect(groups, members, userId, code);
            var (second, again) := JoinEffect(groups, after, userId, code);
            again == after && !second.Joined? && (second == InvalidCode <==> first == InvalidCode)
  {
    match FirstIndex(groups, (g: Group) => g.inviteCode == code)
    case None =>
    case Some(k) =>
      var m := GroupMember(groups[k].id, userId);
      var after := JoinEffect(groups, members, userId, code).1;
      assert m in after by {
        if m !in members {
          assert after[|members|] == m;
        }
      }
  }

  /** `POST /groups/join/`: the join effect, applied to the membership table. */
  method JoinGroup(db: Db, userId: int, code: string) returns (outcome: JoinOutcome)
    requires db.Valid()
    modifies db`groupMembers
    ensures db.Valid()
    ensures (outcome, db.groupMembers) == JoinEffect(db.groups, old(db.groupMembers), userId, code)
  {
    var k := FirstIndex(db.groups, (g: Group) => g.inviteCode == code);
    if k.None? {
      return InvalidCode;
    }
    var group := db.groups[k.value];
    var already := FirstIndex(db.groupMembers,
      (m: GroupMember) => m.groupId == group.id && m.userId == userId);
    if already.Some? {
      return AlreadyMember;
    }
    var membership := GroupMember(group.id, userId);
    DistinctAppend(db.groupMembers, membership, (m: GroupMember) => m);
    db.groupMembers := db.groupMembers + [membership];
    return Joined(group.id);
  }

  /** `GET /groups/`: the groups the caller holds a membership in, in table order. */
  function MyGroups(groups: seq<Group>, members: seq<GroupMember>, userId: int): (r: seq<Group>)
    ensures forall i :: 0 <= i < |r| ==> r[i] in groups && GroupMember(r[i].id, userId) in members
    ensures forall i :: 0 <= i < |groups| && GroupMember(groups[i].id, userId) in members ==> groups[i] in r
  {
    Filter(groups, (g: Group) => GroupMember(g.id, userId) in members)
  }

  /** `GET /groups/{id}/members`: the users holding a membership in the group, in table order. */
  function GroupMembers(users: seq<User>, members: seq<GroupMember>, groupId: int): (r: seq<User>)
    ensures forall i :: 0 <= i < |r| ==> r[i] in users && GroupMember(groupId, r[i].id) in members
    ensures forall i :: 0 <= i < |users| && GroupMember(groupId, users[i].id) in members ==> users[i] in r
  {
    Filter(users, (u: User) => GroupMember(groupId, u.id) in members)
  }

  /** The creator finds a new group among their groups, and among its members. */
  lemma CreatorSeesGroup(groups: seq<Group>, members: seq<GroupMember>, users: seq<User>, g: Group, creator: User)
    requires creator in users && g.creatorId == creator.id
    ensures g in MyGroups(groups + [g], members + [GroupMember(g.id, g.creatorId)], g.creatorId)
    ensures creator in GroupMembers(users, members + [GroupMember(g.id, g.creatorId)], g.id)
  {
    var gs := groups + [g];
    var ms := members + [GroupMember(g.id, g.creatorId)];
    assert gs[|groups|] == g && ms[|members|] == GroupMember(g.id, g.creatorId);
    var j :| 0 <= j < |users| && users[j] == creator;
  }
}
