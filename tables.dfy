/**
 * The backend's database: one record type per table and one object holding every table
 * as a sequence in insertion order. Instants are whole seconds since the epoch (UTC).
 */
module Tables {
  import opened Wrappers
  import opened Query

  type Instant = int

  datatype User = User(id: int, name: string, email: string, passwordHash: string)

  /** `leagueId`, `leagueSeason` and `leagueRound` are NULL for rows the fixture importer inserts. */
  datatype Match = Match(
    id: int, homeTeam: string, awayTeam: string, matchDate: Instant,
    scoreHome: Option<int>, scoreAway: Option<int>,
    leagueId: Option<int>, leagueSeason: Option<int>, leagueRound: Option<string>)

  datatype Prediction = Prediction(
    id: int, userId: int, matchId: int, predHome: int, predAway: int, points: int)

  datatype Competition = Competition(
    id: int, name: string, code: string, isPublic: bool, creatorId: int)

  datatype CompetitionLeague = CompetitionLeague(
    competitionId: int, leagueId: int, leagueName: string, leagueLogo: Option<string>, leagueSeason: int)

  datatype CompetitionMember = CompetitionMember(userId: int, competitionId: int)

  datatype Group = Group(id: int, name: string, inviteCode: string, creatorId: int)

  datatype GroupMember = GroupMember(groupId: int, userId: int)

  datatype ResetToken = ResetToken(userId: int, token: string, used: bool)

  datatype PushSubscription = PushSubscription(
    userId: int, endpoint: string, p256dhKey: string, authKey: string)

  /** Every row's `id` was handed out before `next`. */
  predicate IdsBelow<T>(s: seq<T>, id: T -> int, next: int) {
    forall i :: 0 <= i < |s| ==> id(s[i]) < next
  }

  class Db {
    var users: seq<User>
    var matches: seq<Match>
    var predictions: seq<Prediction>
    var competitions: seq<Competition>
    var competitionLeagues: seq<CompetitionLeague>
    var competitionMembers: seq<CompetitionMember>
    var groups: seq<Group>
    var groupMembers: seq<GroupMember>
    var resetTokens: seq<ResetToken>
    var subscriptions: seq<PushSubscription>
    /** The next value of the id sequence shared by the auto-numbered tables. */
    var nextId: int

    /**
     * Primary keys, the unique email column and membership rows that point at ids already
     * handed out, plus what the endpoints maintain themselves: one prediction per (user, match)
     * with points 0, 1 or 3, one competition per invite code, one membership per
     * (user, competition) and per (group, user), and one push subscription per (user, endpoint).
     */
    ghost predicate Valid()
      reads this
    {
      && IdsBelow(users, (u: User) => u.id, nextId)
      && Distinct(users, (u: User) => u.id)
      && Distinct(users, (u: User) => u.email)
      && Distinct(matches, (m: Match) => m.id)
      && IdsBelow(predictions, (p: Prediction) => p.id, nextId)
      && Distinct(predictions, (p: Prediction) => p.id)
      && Distinct(predictions, (p: Prediction) => (p.userId, p.matchId))
      && (forall i :: 0 <= i < |predictions| ==> predictions[i].points in {0, 1, 3})
      && IdsBelow(competitions, (c: Competition) => c.id, nextId)
      && Distinct(competitions, (c: Competition) => c.id)
      && Distinct(competitions, (c: Competition) => c.code)
      && Distinct(competitionMembers, (m: CompetitionMember) => m)
      && IdsBelow(competitionMembers, (m: CompetitionMember) => m.competitionId, nextId)
      && IdsBelow(groups, (g: Group) => g.id, nextId)
      && Distinct(groups, (g: Group) => g.id)
      && Distinct(groupMembers, (m: GroupMember) => m)
      && IdsBelow(groupMembers, (m: GroupMember) => m.groupId, nextId)
      && Distinct(subscriptions, (s: PushSubscription) => (s.userId, s.endpoint))
    }

    constructor ()
      ensures Valid()
      ensures users == [] && matches == [] && predictions == [] && competitions == []
      ensures competitionLeagues == [] && competitionMembers == [] && groups == []
      ensures groupMembers == [] && resetTokens == [] && subscriptions == []
    {
      users, matches, predictions, competitions := [], [], [], [];
      competitionLeagues, competitionMembers, groups, groupMembers := [], [], [], [];
      resetTokens, subscriptions := [], [];
      nextId := 1;
    }
  }
}
