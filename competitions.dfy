/**
 * The competition endpoints: creating a competition with a fresh invite code, joining by
 * code, deleting, the public listing and the caller's competitions with their standings.
 * Randomness is a parameter: `draws` are the codes the generator would produce in turn.
 */
module CompetitionApi {
  import opened Wrappers
  import opened Tables
  import opened Query
  import opened Sorting

  /** The characters invite codes are drawn from: lower-case ASCII letters and digits. */
  predicate CodeChar(c: char) {
    'a' <= c <= 'z' || '0' <= c <= '9'
  }

  /** The invite code length `create_competition` asks for. */
  const CodeLength: nat := 8

  predicate CodeShaped(code: string, length: nat) {
    |code| == length && forall i :: 0 <= i < |code| ==> CodeChar(code[i])
  }

  /** Some competition already uses `code`. */
  predicate CodeTaken(competitions: seq<Competition>, code: string) {
    exists i :: 0 <= i < |competitions| && competitions[i].code == code
  }

  /**
   * The generator's loop: try the draws in turn, return the first one no competition uses.
   * None when every draw is taken (the source would keep drawing).
   */
  method GenerateUniqueCode(competitions: seq<Competition>, draws: seq<string>, length: nat)
    returns (code: Option<string>)
    requires forall i :: 0 <= i < |draws| ==> CodeShaped(draws[i], length)
    ensures code.Some? ==> CodeShaped(code.value, length) && !CodeTaken(competitions, code.value)
    ensures code.Some? ==> exists i :: 0 <= i < |draws| && draws[i] == code.value &&
                                       forall j :: 0 <= j < i ==> CodeTaken(competitions, draws[j])
    ensures code.None? <==> forall i :: 0 <= i < |draws| ==> CodeTaken(competitions, draws[i])
  {
    var i := 0;
    while i < |draws|
      invariant 0 <= i <= |draws|
      invariant forall j :: 0 <= j < i ==> CodeTaken(competitions, draws[j])
    {
      var existing := FirstIndex(competitions, (c: Competition) => c.code == draws[i]);
      if existing.None? {
        assert !CodeTaken(competitions, draws[i]);
        return Some(draws[i]);
      }
      assert competitions[existing.value].code == draws[i];
      i := i + 1;
    }
    return None;
  }

  /** One league of a creation request. */
  datatype LeagueRequest = LeagueRequest(leagueId: int, leagueName: string, leagueLogo: Option<string>, leagueSeason: int)

  /** The league rows a creation request adds, one per requested league, in request order. */
  function LeagueRows(competitionId: int, leagues: seq<LeagueRequest>): (rows: seq<CompetitionLeague>)
    ensures |rows| == |leagues|
    ensures forall i :: 0 <= i < |rows| ==>
      rows[i] == CompetitionLeague(competitionId, leagues[i].leagueId, leagues[i].leagueName,
                                   leagues[i].leagueLogo, leagues[i].leagueSeason)
  {
    if leagues == [] then []
    else
      var l := leagues[|leagues| - 1];
      LeagueRows(competitionId, leagues[..|leagues| - 1])
        + [CompetitionLeague(competitionId, l.leagueId, l.leagueName, l.leagueLogo, l.leagueSeason)]
  }

  /** The league loop of `POST /competitions/`: one row per requested league, in request order. */
  method AddLeagueRows(db: Db, competitionId: int, leagues: seq<LeagueRequest>)
    requires db.Valid()
    modifies db`competitionLeagues
    ensures db.Valid()
    ensures db.competitionLeagues == old(db.competitionLeagues) + LeagueRows(competitionId, leagues)
  {
    var i := 0;
    while i < |leagues|
      invariant 0 <= i <= |leagues|
      invariant db.competitionLeagues == old(db.competitionLeagues) + LeagueRows(competitionId, leagues[..i])
    {
      var l := leagues[i];
      assert leagues[..i + 1][..i] == leagues[..i];
      db.competitionLeagues := db.competitionLeagues
        + [CompetitionLeague(competitionId, l.leagueId, l.leagueName, l.leagueLogo, l.leagueSeason)];
      i := i + 1;
    }
    assert leagues[..i] == leagues;
  }

  /**
   * `POST /competitions/`: a competition with an unused invite code and the caller as creator,
   * one league row per requested league and the creator's own membership.
   */
  method CreateCompetition(db: Db, userId: int, name: string, isPublic: bool, leagues: seq<LeagueRequest>,
                           draws: seq<string>)
    returns (comp: Competition)
    requires db.Valid()
    requires forall i :: 0 <= i < |draws| ==> CodeShaped(draws[i], CodeLength)
    requires exists i :: 0 <= i < |draws| && !CodeTaken(db.competitions, draws[i])
    modifies db`competitions, db`competitionLeagues, db`competitionMembers, db`nextId
    ensures db.Valid()
    ensures CodeShaped(comp.code, CodeLength) && !CodeTaken(old(db.competitions), comp.code)
    ensures comp == Competition(old(db.nextId), name, comp.code, isPublic, userId)
    ensures db.competitions == old(db.competitions) + [comp]
    ensures db.competitionLeagues == old(db.competitionLeagues) + LeagueRows(comp.id, leagues)
    ensures db.competitionMembers == old(db.competitionMembers) + [CompetitionMember(userId, comp.id)]
    ensures db.nextId == old(db.nextId) + 1
  {
    var code := GenerateUniqueCode(db.competitions, draws, CodeLength);
    comp := Competition(db.nextId, name, code.value, isPublic, userId);
    var member := CompetitionMember(userId, comp.id);
    var comps, members := db.competitions, db.competitionMembers;
    DistinctAppend(comps, comp, (c: Competition) => c.id);
    DistinctAppend(comps, comp, (c: Competition) => c.code);
    DistinctAppend(members, member, (m: CompetitionMember) => m);
    db.competitions, db.competitionMembers, db.nextId := comps + [comp], members + [member], db.nextId + 1;
    AddLeagueRows(db, comp.id, leagues);
  }

  predicate IsMember(members: seq<CompetitionMember>, userId: int, competitionId: int) {
    CompetitionMember(userId, competitionId) in members
  }

  /** The answer to a join by `code` and the membership table after it. */
  function JoinEffect(comps: seq<Competition>, members: seq<CompetitionMember>, userId: int, code: string)
    : (int, seq<CompetitionMember>)
  {
    match FirstIndex(comps, (c: Competition) => c.code == code)
    case None => (404, members)
    case Some(k) =>
      if IsMember(members, userId, comps[k].id) then (400, members)
      else (200, members + [CompetitionMember(userId, comps[k].id)])
  }

  /**
   * `POST /competitions/join/{code}`: 404 when no competition has the code, 400 when the caller
   * is already a member of the first one that does; otherwise exactly one new membership.
   */
  method JoinCompetition(db: Db, userId: int, code: string) returns (status: int)
    requires db.Valid()
    modifies db`competitionMembers
    ensures db.Valid()
    ensures var comps := old(db.competitions);
            match FirstIndex(comps, (c: Competition) => c.code == code)
            case None => status == 404
            case Some(k) =>
              if IsMember(old(db.competitionMembers), userId, comps[k].id) then status == 400
              else status == 200 &&
                   db.competitionMembers == old(db.competitionMembers) + [CompetitionMember(userId, comps[k].id)]
    ensures status != 200 ==> db.competitionMembers == old(db.competitionMembers)
    ensures status == 200 || status == 400 ==> CodeTaken(db.competitions, code)
    ensures (status, db.competitionMembers) == JoinEffect(old(db.competitions), old(db.competitionMembers), userId, code)
  {
    var k := FirstIndex(db.competitions, (c: Competition) => c.code == code);
    if k.None? {
      return 404;
    }
    var comp := db.competitions[k.value];
    var already := FirstIndex(db.competitionMembers,
      (m: CompetitionMember) => m.userId == userId && m.competitionId == comp.id);
    if already.Some? {
      return 400;
    }
    var member := CompetitionMember(userId, comp.id);
    DistinctAppend(db.competitionMembers, member, (m: CompetitionMember) => m);
    db.competitionMembers := db.competitionMembers + [member];
    return 200;
  }

  /**
   * Joining twice by the same code: an unknown code answers 404 both times; otherwise the
   * second join answers 400, because the first made the caller a member, and leaves the table
   * as the first join did.
   */
  lemma {:induction false} JoinTwice(comps: seq<Competition>, members: seq<CompetitionMember>, userId: int, code: string)
    ensures var (first, after) := JoinEffect(comps, members, userId, code);
            var (second, again) := JoinEffect(comps, after, userId, code);
      && again == after
      && (first == 404 <==> second == 404)
      && (first != 404 ==> second == 400)
  {
    match FirstIndex(comps, (c: Competition) => c.code == code)
    case None =>
    case Some(k) =>
      var member := CompetitionMember(userId, comps[k].id);
      var after := JoinEffect(comps, members, userId, code).1;
      assert member in after by {
        if member !in members {
          assert after[|members|] == member;
        }
      }
  }

  /**
   * `DELETE /competitions/{id}`: 404 when there is no such competition, 403 when the caller did
   * not create it; otherwise its row is removed and no competition with that id remains.
   */
  method DeleteCompetition(db: Db, userId: int, competitionId: int) returns (status: int)
    requires db.Valid()
    modifies db`competitions
    ensures db.Valid()
    ensures var comps := old(db.competitions);
            match FirstIndex(comps, (c: Competition) => c.id == competitionId)
            case None => status == 404
            case Some(k) =>
              if comps[k].creatorId != userId then status == 403
              else status == 200 && db.competitions == comps[..k] + comps[k + 1..]
    ensures status != 200 ==> db.competitions == old(db.competitions)
    ensures status == 200 ==> forall i :: 0 <= i < |db.competitions| ==> db.competitions[i].id != competitionId
  {
    var k := FirstIndex(db.competitions, (c: Competition) => c.id == competitionId);
    if k.None? {
      return 404;
    }
    if db.competitions[k.value].creatorId != userId {
      return 403;
    }
    var comps := db.competitions;
    var rest := comps[..k.value] + comps[k.value + 1..];
    DistinctRemove(comps, k.value, (c: Competition) => c.id);
    DistinctRemove(comps, k.value, (c: Competition) => c.code);
    forall i | 0 <= i < |rest| ensures rest[i].id != competitionId && rest[i] in comps {
      var j := if i < k.value then i else i + 1;
      assert rest[i] == comps[j];
    }
    db.competitions := rest;
    return 200;
  }

  /** The league rows of one competition, in table order. */
  function LeaguesOf(leagues: seq<CompetitionLeague>, competitionId: int): (r: seq<CompetitionLeague>)
    ensures forall i :: 0 <= i < |r| ==> r[i].competitionId == competitionId && r[i] in leagues
    ensures forall i :: 0 <= i < |leagues| && leagues[i].competitionId == competitionId ==> leagues[i] in r
  {
    Filter(leagues, (l: CompetitionLeague) => l.competitionId == competitionId)
  }

  /** One entry of the public listing: the competition and its leagues. */
  datatype Listing = Listing(competition: Competition, leagues: seq<CompetitionLeague>)

  /** `GET /competitions/public`: the public competitions in table order, each with its leagues. */
  function PublicCompetitions(comps: seq<Competition>, leagues: seq<CompetitionLeague>): (r: seq<Listing>)
    ensures forall i :: 0 <= i < |r| ==>
      r[i].competition.isPublic && r[i].competition in comps &&
      r[i].leagues == LeaguesOf(leagues, r[i].competition.id)
    ensures forall j :: 0 <= j < |comps| && comps[j].isPublic ==>
      exists i :: 0 <= i < |r| && r[i].competition == comps[j]
  {
    var pub := Filter(comps, (c: Competition) => c.isPublic);
    var r := seq(|pub|, i requires 0 <= i < |pub| => Listing(pub[i], LeaguesOf(leagues, pub[i].id)));
    forall j | 0 <= j < |comps| && comps[j].isPublic
      ensures exists i :: 0 <= i < |r| && r[i].competition == comps[j]
    {
      var i :| 0 <= i < |pub| && pub[i] == comps[j];
      assert r[i].competition == pub[i];
    }
    r
  }

  /** One line of a competition's standings. */
  datatype Standing = Standing(userId: int, name: string, totalPoints: int)

  /** How many league rows of the competition a match belongs to (its league and season). */
  function LeagueHits(leagues: seq<CompetitionLeague>, competitionId: int, m: Match): nat {
    Count(leagues, (l: CompetitionLeague) =>
      l.competitionId == competitionId && m.leagueId == Some(l.leagueId) && m.leagueSeason == Some(l.leagueSeason))
  }

  /** How many times a prediction is counted for the competition: once per league row its match joins. */
  function Weight(matches: seq<Match>, leagues: seq<CompetitionLeague>, competitionId: int, p: Prediction): nat {
    match FirstIndex(matches, (m: Match) => m.id == p.matchId)
    case None => 0
    case Some(k) => LeagueHits(leagues, competitionId, matches[k])
  }

  /** A user's points in a competition: each prediction's points times its weight. */
  function CompetitionPoints(matches: seq<Match>, leagues: seq<CompetitionLeague>, competitionId: int,
                             preds: seq<Prediction>, userId: int): int
  {
    if preds == [] then 0
    else
      var p := preds[0];
      (if p.userId == userId then p.points * Weight(matches, leagues, competitionId, p) else 0)
        + CompetitionPoints(matches, leagues, competitionId, preds[1..], userId)
  }

  /** The user has a prediction on a match of one of the competition's leagues. */
  ghost predicate Plays(matches: seq<Match>, leagues: seq<CompetitionLeague>, competitionId: int,
                        preds: seq<Prediction>, userId: int)
  {
    exists k :: 0 <= k < |preds| && preds[k].userId == userId && Weight(matches, leagues, competitionId, preds[k]) > 0
  }

  /**
   * The members the standings query returns, in user-table order: the inner join with the
   * league rows drops members without a prediction on one of the competition's leagues.
   */
  function StandingRows(users: seq<User>, members: seq<CompetitionMember>, matches: seq<Match>,
                        leagues: seq<CompetitionLeague>, preds: seq<Prediction>, competitionId: int)
    : (rows: seq<Standing>)
  {
    if users == [] then []
    else
      var u := users[0];
      var rest := StandingRows(users[1..], members, matches, leagues, preds, competitionId);
      if IsMember(members, u.id, competitionId) && HasCountedPrediction(matches, leagues, competitionId, preds, u.id)
      then [Standing(u.id, u.name, CompetitionPoints(matches, leagues, competitionId, preds, u.id))] + rest
      else rest
  }

  /** Whether some prediction of the user joins a league row of the competition. */
  function HasCountedPrediction(matches: seq<Match>, leagues: seq<CompetitionLeague>, competitionId: int,
                                preds: seq<Prediction>, userId: int): (b: bool)
    ensures b <==> Plays(matches, leagues, competitionId, preds, userId)
  {
    FirstIndex(preds, (p: Prediction) =>
      p.userId == userId && Weight(matches, leagues, competitionId, p) > 0).Some?
  }

  /** Some user row carries this id and name. */
  ghost predicate NamedIn(users: seq<User>, userId: int, name: string) {
    exists j :: 0 <= j < |users| && users[j].id == userId && users[j].name == name
  }

  /** A standing belongs to a member who plays, and carries that member's points. */
  ghost predicate SoundStanding(members: seq<CompetitionMember>, matches: seq<Match>, leagues: seq<CompetitionLeague>,
                                preds: seq<Prediction>, competitionId: int, s: Standing)
  {
    && IsMember(members, s.userId, competitionId)
    && Plays(matches, leagues, competitionId, preds, s.userId)
    && s.totalPoints == CompetitionPoints(matches, leagues, competitionId, preds, s.userId)
  }

  /** Each standing belongs to a member who plays, with that member's name and points. */
  lemma {:induction false} StandingRowsSound(users: seq<User>, members: seq<CompetitionMember>, matches: seq<Match>,
                                             leagues: seq<CompetitionLeague>, preds: seq<Prediction>, competitionId: int)
    ensures forall s :: s in StandingRows(users, members, matches, leagues, preds, competitionId) ==>
      SoundStanding(members, matches, leagues, preds, competitionId, s) && NamedIn(users, s.userId, s.name)
  {
    if users != [] {
      StandingRowsSound(users[1..], members, matches, leagues, preds, competitionId);
      forall s: Standing | NamedIn(users[1..], s.userId, s.name) ensures NamedIn(users, s.userId, s.name) {
        var j :| 0 <= j < |users[1..]| && users[1..][j].id == s.userId && users[1..][j].name == s.name;
        assert users[j + 1] == users[1..][j];
      }
      assert users[0].id == users[0].id && users[0].name == users[0].name;
      assert NamedIn(users, users[0].id, users[0].name);
    }
  }

  /** Some standing belongs to `userId`. */
  ghost predicate Listed(rows: seq<Standing>, userId: int) {
    exists i :: 0 <= i < |rows| && rows[i].userId == userId
  }

  /** Every member who plays, and has a user row, gets a standing. */
  lemma {:induction false} StandingRowsComplete(users: seq<User>, members: seq<CompetitionMember>, matches: seq<Match>,
                                                leagues: seq<CompetitionLeague>, preds: seq<Prediction>, competitionId: int)
    ensures forall u :: u in users && IsMember(members, u.id, competitionId)
                        && Plays(matches, leagues, competitionId, preds, u.id) ==>
      Listed(StandingRows(users, members, matches, leagues, preds, competitionId), u.id)
  {
    if users != [] {
      StandingRowsComplete(users[1..], members, matches, leagues, preds, competitionId);
      var rows := StandingRows(users, members, matches, leagues, preds, competitionId);
      var rest := StandingRows(users[1..], members, matches, leagues, preds, competitionId);
      var shift := |rows| - |rest|;
      assert forall i :: 0 <= i < |rest| ==> rows[i + shift] == rest[i];
      forall x | Listed(rest, x) ensures Listed(rows, x) {
        var i :| 0 <= i < |rest| && rest[i].userId == x;
        assert rows[i + shift].userId == x;
      }
      if IsMember(members, users[0].id, competitionId)
         && Plays(matches, leagues, competitionId, preds, users[0].id) {
        assert rows[0].userId == users[0].id;
      }
      assert forall u :: u in users ==> u == users[0] || u in users[1..];
    }
  }

  predicate ByPointsDesc(a: Standing, b: Standing) {
    a.totalPoints >= b.totalPoints
  }

  /** The standings ordered by points, highest first; equal points keep user-table order. */
  function Standings(users: seq<User>, members: seq<CompetitionMember>, matches: seq<Match>,
                     leagues: seq<CompetitionLeague>, preds: seq<Prediction>, competitionId: int)
    : (r: seq<Standing>)
    ensures Sorted(r, ByPointsDesc)
    ensures multiset(r) == multiset(StandingRows(users, members, matches, leagues, preds, competitionId))
  {
    var rows := StandingRows(users, members, matches, leagues, preds, competitionId);
    assert TotalPreorder(ByPointsDesc);
    SortBySorted(rows, ByPointsDesc);
    SortBy(rows, ByPointsDesc)
  }

  /** The caller's 1-based place in the standings, or None when the caller is not listed. */
  function MyRanking(standings: seq<Standing>, userId: int): (r: Option<nat>)
    ensures r.Some? ==> 1 <= r.value <= |standings| && standings[r.value - 1].userId == userId
    ensures r.Some? ==> forall j :: 0 <= j < r.value - 1 ==> standings[j].userId != userId
    ensures r.None? <==> forall j :: 0 <= j < |standings| ==> standings[j].userId != userId
  {
    match FirstIndex(standings, (s: Standing) => s.userId == userId)
    case None => None
    case Some(k) => Some(k + 1)
  }

  /** The caller's points in the standings, 0 when the caller is not listed. */
  function MyPoints(standings: seq<Standing>, userId: int): int {
    match FirstIndex(standings, (s: Standing) => s.userId == userId)
    case None => 0
    case Some(k) => standings[k].totalPoints
  }

  /**
   * The place and the points describe the same line, and on ordered standings everybody
   * ahead of the caller has at least the caller's points.
   */
  lemma MyRankingAndPoints(standings: seq<Standing>, userId: int)
    requires Sorted(standings, ByPointsDesc)
    ensures MyRanking(standings, userId).None? ==> MyPoints(standings, userId) == 0
    ensures MyRanking(standings, userId).Some? ==>
      var k := MyRanking(standings, userId).value;
      && MyPoints(standings, userId) == standings[k - 1].totalPoints
      && forall j :: 0 <= j < k - 1 ==> standings[j].totalPoints >= MyPoints(standings, userId)
  {
  }

  /** One entry of `GET /my-competitions-with-stats`. */
  datatype CompetitionStats = CompetitionStats(
    id: int, name: string, isPublic: bool, inviteCode: string, memberCount: nat,
    myRanking: Option<nat>, myPoints: int, leagues: seq<(string, Option<string>)>, isCreator: bool)

  /** Name and logo of each league row. */
  function LeagueLabels(rows: seq<CompetitionLeague>): (r: seq<(string, Option<string>)>)
    ensures |r| == |rows|
    ensures forall i :: 0 <= i < |r| ==> r[i] == (rows[i].leagueName, rows[i].leagueLogo)
  {
    seq(|rows|, i requires 0 <= i < |rows| => (rows[i].leagueName, rows[i].leagueLogo))
  }

  /** The stats entry of one competition for the caller. */
  function StatsOf(users: seq<User>, members: seq<CompetitionMember>, matches: seq<Match>,
                   leagues: seq<CompetitionLeague>, preds: seq<Prediction>, userId: int, c: Competition)
    : CompetitionStats
  {
    var standings := Standings(users, members, matches, leagues, preds, c.id);
    CompetitionStats(
      c.id, c.name, c.isPublic, c.code,
      Count(members, (m: CompetitionMember) => m.competitionId == c.id),
      MyRanking(standings, userId), MyPoints(standings, userId),
      LeagueLabels(LeaguesOf(leagues, c.id)),
      c.creatorId == userId)
  }

  /** The caller's competitions: those the caller holds a membership in, in table order. */
  function MyCompetitions(comps: seq<Competition>, members: seq<CompetitionMember>, userId: int)
    : (r: seq<Competition>)
    ensures forall i :: 0 <= i < |r| ==> r[i] in comps && IsMember(members, userId, r[i].id)
    ensures forall i :: 0 <= i < |comps| && IsMember(members, userId, comps[i].id) ==> comps[i] in r
  {
    Filter(comps, (c: Competition) => IsMember(members, userId, c.id))
  }

  /** `GET /my-competitions-with-stats`: one stats entry per competition of the caller, in order. */
  method MyCompetitionsWithStats(comps: seq<Competition>, users: seq<User>, members: seq<CompetitionMember>,
                                 matches: seq<Match>, leagues: seq<CompetitionLeague>, preds: seq<Prediction>,
                                 userId: int)
    returns (result: seq<CompetitionStats>)
    ensures var mine := MyCompetitions(comps, members, userId);
      && |result| == |mine|
      && forall i :: 0 <= i < |result| ==>
           result[i] == StatsOf(users, members, matches, leagues, preds, userId, mine[i])
  {
    var mine := MyCompetitions(comps, members, userId);
    result := StatsEach(mine, c => StatsOf(users, members, matches, leagues, preds, userId, c));
  }

  /** The loop of `GET /my-competitions-with-stats`: one entry per competition, in order. */
  method StatsEach(mine: seq<Competition>, stats: Competition -> CompetitionStats)
    returns (result: seq<CompetitionStats>)
    ensures |result| == |mine|
    ensures forall i :: 0 <= i < |result| ==> result[i] == stats(mine[i])
  {
    result := [];
    var i := 0;
    while i < |mine|
      invariant 0 <= i <= |mine|
      invariant |result| == i
      invariant forall j :: 0 <= j < i ==> result[j] == stats(mine[j])
    {
      result := result + [stats(mine[i])];
      i := i + 1;
    }
  }

  /** Every stats entry is for a competition the caller belongs to; the creator flag and counts mean what they say. */
  lemma StatsFacts(users: seq<User>, members: seq<CompetitionMember>, matches: seq<Match>,
                   leagues: seq<CompetitionLeague>, preds: seq<Prediction>, userId: int, c: Competition)
    requires IsMember(members, userId, c.id)
    ensures var s := StatsOf(users, members, matches, leagues, preds, userId, c);
      && s.memberCount >= 1
      && (s.isCreator <==> c.creatorId == userId)
      && (s.myRanking.None? ==> s.myPoints == 0)
      && |s.leagues| == |LeaguesOf(leagues, c.id)|
  {
    var i :| 0 <= i < |members| && members[i] == CompetitionMember(userId, c.id);
    var standings := Standings(users, members, matches, leagues, preds, c.id);
    assert TotalPreorder(ByPointsDesc);
    MyRankingAndPoints(standings, userId);
  }
}
