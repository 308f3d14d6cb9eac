/**
 * `GET /ranking/`: the global table. The active rounds are the distinct non-null rounds of
 * matches somebody predicted, in ascending order; each ranked user carries a per-round
 * point map over exactly those rounds and the total of that map; users are listed by
 * total, highest first, ties kept in the order the users first appear.
 *
 * Round labels are compared by character code, which stands in for the database collation.
 */
module RankingApi {
  import opened Wrappers
  import opened Tables
  import opened Query
  import opened Sorting

  /** Lexicographic order on round labels, by character code. */
  predicate StrLe(a: string, b: string) {
    if a == [] then true
    else if b == [] then false
    else if a[0] != b[0] then a[0] < b[0]
    else StrLe(a[1..], b[1..])
  }

  lemma {:induction false} StrLeTotal(a: string, b: string)
    ensures StrLe(a, b) || StrLe(b, a)
  {
    if a != [] && b != [] && a[0] == b[0] {
      StrLeTotal(a[1..], b[1..]);
    }
  }

  lemma {:induction false} StrLeTrans(a: string, b: string, c: string)
    requires StrLe(a, b) && StrLe(b, c)
    ensures StrLe(a, c)
  {
    if a != [] && b != [] && c != [] && a[0] == b[0] && b[0] == c[0] {
      StrLeTrans(a[1..], b[1..], c[1..]);
    }
  }

  /** Two labels each `StrLe` the other are the same label, so the round order has no ties. */
  lemma {:induction false} StrLeAntisym(a: string, b: string)
    requires StrLe(a, b) && StrLe(b, a)
    ensures a == b
  {
    if a != [] && b != [] {
      StrLeAntisym(a[1..], b[1..]);
      assert a == [a[0]] + a[1..] && b == [b[0]] + b[1..];
    }
  }

  lemma StrLeTotalPreorder()
    ensures TotalPreorder(StrLe)
  {
    forall a: string, b: string ensures StrLe(a, b) || StrLe(b, a) {
      StrLeTotal(a, b);
    }
    forall a: string, b: string, c: string | StrLe(a, b) && StrLe(b, c) ensures StrLe(a, c) {
      StrLeTrans(a, b, c);
    }
  }

  /** The user row a prediction joins (`User.id == Prediction.user_id`). */
  function UserOf(users: seq<User>, userId: int): (r: Option<User>)
    ensures r.Some? ==> r.value in users && r.value.id == userId
    ensures r.None? <==> forall i :: 0 <= i < |users| ==> users[i].id != userId
  {
    match FirstIndex(users, (u: User) => u.id == userId)
    case None => None
    case Some(k) => Some(users[k])
  }

  /** The round of the match a prediction is on, when that match exists and has a round. */
  function RoundOf(matches: seq<Match>, p: Prediction): Option<string> {
    match FirstIndex(matches, (m: Match) => m.id == p.matchId)
    case None => None
    case Some(k) => matches[k].leagueRound
  }

  /** Some prediction is on a match of round `r`. */
  ghost predicate IsActiveRound(matches: seq<Match>, preds: seq<Prediction>, r: string) {
    exists i :: 0 <= i < |preds| && RoundOf(matches, preds[i]) == Some(r)
  }

  /** The rounds of `preds` without repeats, in order of first appearance. */
  function DistinctRounds(matches: seq<Match>, preds: seq<Prediction>): (rs: seq<string>)
    ensures NoDup(rs)
    ensures forall r :: r in rs <==> IsActiveRound(matches, preds, r)
  {
    if preds == [] then []
    else
      var front := preds[..|preds| - 1];
      var rs := DistinctRounds(matches, front);
      assert forall i :: 0 <= i < |front| ==> front[i] == preds[i];
      assert forall r :: IsActiveRound(matches, preds, r) <==>
        IsActiveRound(matches, front, r) || RoundOf(matches, preds[|preds| - 1]) == Some(r);
      match RoundOf(matches, preds[|preds| - 1])
      case None => rs
      case Some(r) => if r in rs then rs else rs + [r]
  }

  /** The active rounds, ascending and without repeats. */
  function ActiveRounds(matches: seq<Match>, preds: seq<Prediction>): (rounds: seq<string>)
    ensures NoDup(rounds)
    ensures Sorted(rounds, StrLe)
    ensures forall r :: r in rounds <==> IsActiveRound(matches, preds, r)
  {
    var rs := DistinctRounds(matches, preds);
    StrLeTotalPreorder();
    SortBySorted(rs, StrLe);
    SortByNoDup(rs, StrLe);
    SortByMembers(rs, StrLe);
    SortBy(rs, StrLe)
  }

  /** One ranking entry; `rounds` maps each active round to the user's points in it. */
  datatype RankRow = RankRow(
    userId: int, name: string, email: string, totalPoints: int, rounds: map<string, int>)

  /** The entry a user gets before any row is added: every active round at 0. */
  function DefaultRow(rounds: seq<string>): (row: RankRow)
    ensures forall r :: r in row.rounds <==> r in rounds
    ensures forall r :: r in row.rounds ==> row.rounds[r] == 0
    ensures row.totalPoints == 0
  {
    RankRow(0, "", "", 0, map r | r in rounds :: 0)
  }

  /** The user and round a prediction counts for: it joins a user and a match of an active round. */
  function Join(users: seq<User>, matches: seq<Match>, rounds: seq<string>, p: Prediction)
    : Option<(User, string)>
  {
    match UserOf(users, p.userId)
    case None => None
    case Some(u) =>
      match RoundOf(matches, p)
      case None => None
      case Some(r) => if r in rounds then Some((u, r)) else None
  }

  /** Adds `points` to round `r` and to the total, and records the user's id, name and email. */
  function Credit(row: RankRow, u: User, r: string, points: int): RankRow
    requires r in row.rounds
  {
    row.(userId := u.id, name := u.name, email := u.email,
         rounds := row.rounds[r := row.rounds[r] + points],
         totalPoints := row.totalPoints + points)
  }

  /** The position of `userId`'s entry, if it has one. */
  function RowOf(rows: seq<RankRow>, userId: int): (r: Option<nat>)
    ensures r.Some? ==> r.value < |rows| && rows[r.value].userId == userId
    ensures r.None? <==> forall i :: 0 <= i < |rows| ==> rows[i].userId != userId
  {
    FirstIndex(rows, (row: RankRow) => row.userId == userId)
  }

  /** The entries after one more prediction row: credit its user's entry, creating it if new. */
  function AddRow(users: seq<User>, matches: seq<Match>, rounds: seq<string>, rows: seq<RankRow>, p: Prediction)
    : (rows': seq<RankRow>)
    requires forall i :: 0 <= i < |rows| ==> forall r :: r in rows[i].rounds <==> r in rounds
    ensures forall i :: 0 <= i < |rows'| ==> forall r :: r in rows'[i].rounds <==> r in rounds
  {
    match Join(users, matches, rounds, p)
    case None => rows
    case Some((u, r)) =>
      match RowOf(rows, p.userId)
      case None => rows + [Credit(DefaultRow(rounds), u, r, p.points)]
      case Some(k) => rows[k := Credit(rows[k], u, r, p.points)]
  }

  /** The entries after `preds` have been added one by one; users in order of first appearance. */
  function Accumulate(users: seq<User>, matches: seq<Match>, rounds: seq<string>, preds: seq<Prediction>)
    : (rows: seq<RankRow>)
    ensures forall i :: 0 <= i < |rows| ==> forall r :: r in rows[i].rounds <==> r in rounds
  {
    if preds == [] then []
    else AddRow(users, matches, rounds, Accumulate(users, matches, rounds, preds[..|preds| - 1]), preds[|preds| - 1])
  }

  /** What a prediction adds to `userId`'s points in round `r`. */
  function Share(users: seq<User>, matches: seq<Match>, rounds: seq<string>, p: Prediction, userId: int, r: string): int {
    match Join(users, matches, rounds, p)
    case None => 0
    case Some((_, r')) => if p.userId == userId && r' == r then p.points else 0
  }

  /** The sum of `userId`'s points over the predictions on matches of round `r`. */
  function RoundPoints(users: seq<User>, matches: seq<Match>, rounds: seq<string>, preds: seq<Prediction>,
                       userId: int, r: string): int
  {
    if preds == [] then 0
    else RoundPoints(users, matches, rounds, preds[..|preds| - 1], userId, r)
         + Share(users, matches, rounds, preds[|preds| - 1], userId, r)
  }

  /** `userId` has a prediction that joins a user and an active round. */
  ghost predicate Ranked(users: seq<User>, matches: seq<Match>, rounds: seq<string>, preds: seq<Prediction>, userId: int) {
    exists k :: 0 <= k < |preds| && preds[k].userId == userId && Join(users, matches, rounds, preds[k]).Some?
  }

  /** The sum of `m` over `rounds`. */
  function SumOver(rounds: seq<string>, m: map<string, int>): int
    requires forall r :: r in rounds ==> r in m
  {
    if rounds == [] then 0 else m[rounds[0]] + SumOver(rounds[1..], m)
  }

  lemma {:induction false} SumOverZero(rounds: seq<string>, m: map<string, int>)
    requires forall r :: r in rounds ==> r in m && m[r] == 0
    ensures SumOver(rounds, m) == 0
  {
    if rounds != [] {
      SumOverZero(rounds[1..], m);
    }
  }

  lemma {:induction false} SumOverSame(rounds: seq<string>, m: map<string, int>, m': map<string, int>)
    requires forall r :: r in rounds ==> r in m && r in m' && m[r] == m'[r]
    ensures SumOver(rounds, m) == SumOver(rounds, m')
  {
    if rounds != [] {
      SumOverSame(rounds[1..], m, m');
    }
  }

  /** Adding `x` to one round adds `x` to the sum over the rounds. */
  lemma {:induction false} SumOverCredit(rounds: seq<string>, m: map<string, int>, r0: string, x: int)
    requires NoDup(rounds) && r0 in rounds
    requires forall r :: r in rounds ==> r in m
    ensures SumOver(rounds, m[r0 := m[r0] + x]) == SumOver(rounds, m) + x
  {
    var m' := m[r0 := m[r0] + x];
    if rounds[0] == r0 {
      assert r0 !in rounds[1..];
      SumOverSame(rounds[1..], m, m');
    } else {
      assert r0 in rounds[1..];
      SumOverCredit(rounds[1..], m, r0, x);
    }
  }

  /** `userId`'s points in every active round. */
  function RoundMap(users: seq<User>, matches: seq<Match>, rounds: seq<string>, preds: seq<Prediction>, userId: int)
    : (m: map<string, int>)
    ensures forall r :: r in m <==> r in rounds
  {
    map r | r in rounds :: RoundPoints(users, matches, rounds, preds, userId, r)
  }

  /**
   * The entry `userId` should have: the user's name and email, the points per active round
   * and their sum.
   */
  function Entry(users: seq<User>, matches: seq<Match>, rounds: seq<string>, preds: seq<Prediction>, userId: int)
    : RankRow
  {
    var m := RoundMap(users, matches, rounds, preds, userId);
    match UserOf(users, userId)
    case None => RankRow(userId, "", "", SumOver(rounds, m), m)
    case Some(u) => RankRow(userId, u.name, u.email, SumOver(rounds, m), m)
  }

  /**
   * `rows` holds one entry per ranked user and no other, each equal to the entry the
   * predictions call for.
   */
  ghost predicate Faithful(users: seq<User>, matches: seq<Match>, rounds: seq<string>, preds: seq<Prediction>,
                           rows: seq<RankRow>)
  {
    && Distinct(rows, (row: RankRow) => row.userId)
    && (forall i :: 0 <= i < |rows| ==> rows[i] == Entry(users, matches, rounds, preds, rows[i].userId))
    && (forall uid :: Ranked(users, matches, rounds, preds, uid) <==> Lists(rows, uid))
  }

  /** Some entry of `rows` belongs to `userId`. */
  ghost predicate Lists(rows: seq<RankRow>, userId: int) {
    exists i :: 0 <= i < |rows| && rows[i].userId == userId
  }

  /** One more prediction row ranks its user when it joins, and nobody else. */
  lemma RankedSnoc(users: seq<User>, matches: seq<Match>, rounds: seq<string>, preds: seq<Prediction>)
    requires preds != []
    ensures forall uid :: Ranked(users, matches, rounds, preds, uid) <==>
      || Ranked(users, matches, rounds, preds[..|preds| - 1], uid)
      || (preds[|preds| - 1].userId == uid && Join(users, matches, rounds, preds[|preds| - 1]).Some?)
  {
    var front := preds[..|preds| - 1];
    assert forall k :: 0 <= k < |front| ==> front[k] == preds[k];
  }

  /** A user nobody has ranked yet has no points in any round. */
  lemma {:induction false} RoundPointsUnranked(users: seq<User>, matches: seq<Match>, rounds: seq<string>,
                                               preds: seq<Prediction>, userId: int, r: string)
    requires !Ranked(users, matches, rounds, preds, userId)
    ensures RoundPoints(users, matches, rounds, preds, userId, r) == 0
  {
    if preds != [] {
      RankedSnoc(users, matches, rounds, preds);
      RoundPointsUnranked(users, matches, rounds, preds[..|preds| - 1], userId, r);
    }
  }

  /** A prediction row that does not count for `userId` leaves that user's entry as it was. */
  lemma EntryUnchanged(users: seq<User>, matches: seq<Match>, rounds: seq<string>, preds: seq<Prediction>, userId: int)
    requires preds != []
    requires var p := preds[|preds| - 1]; p.userId != userId || Join(users, matches, rounds, p).None?
    ensures Entry(users, matches, rounds, preds, userId) == Entry(users, matches, rounds, preds[..|preds| - 1], userId)
  {
    var m := RoundMap(users, matches, rounds, preds, userId);
    var m' := RoundMap(users, matches, rounds, preds[..|preds| - 1], userId);
    assert m == m';
  }

  /** A prediction row that counts for `userId` credits that user's entry with its points. */
  lemma {:induction false} EntryCredited(users: seq<User>, matches: seq<Match>, rounds: seq<string>, preds: seq<Prediction>,
                      u: User, r0: string)
    requires NoDup(rounds) && preds != []
    requires Join(users, matches, rounds, preds[|preds| - 1]) == Some((u, r0))
    ensures var p := preds[|preds| - 1];
            var before := Entry(users, matches, rounds, preds[..|preds| - 1], p.userId);
            r0 in before.rounds &&
            Entry(users, matches, rounds, preds, p.userId) == Credit(before, u, r0, p.points)
  {
    var p := preds[|preds| - 1];
    var front := preds[..|preds| - 1];
    var m := RoundMap(users, matches, rounds, front, p.userId);
    RoundMapCredited(users, matches, rounds, preds, u, r0);
    SumOverCredit(rounds, m, r0, p.points);
    assert UserOf(users, p.userId) == Some(u);
    EntryOfUser(users, matches, rounds, front, u);
    EntryOfUser(users, matches, rounds, preds, u);
  }

  /** The entry of a user with a user row carries that row's name and email. */
  lemma {:induction false} EntryOfUser(users: seq<User>, matches: seq<Match>, rounds: seq<string>,
                                       preds: seq<Prediction>, u: User)
    requires UserOf(users, u.id) == Some(u)
    ensures var m := RoundMap(users, matches, rounds, preds, u.id);
      Entry(users, matches, rounds, preds, u.id) == RankRow(u.id, u.name, u.email, SumOver(rounds, m), m)
  {
  }

  /** A counted prediction adds its points to its own round of its user's round map, and to no other. */
  lemma {:induction false} RoundMapCredited(users: seq<User>, matches: seq<Match>, rounds: seq<string>, preds: seq<Prediction>,
                         u: User, r0: string)
    requires preds != []
    requires Join(users, matches, rounds, preds[|preds| - 1]) == Some((u, r0))
    ensures var p := preds[|preds| - 1];
            var m := RoundMap(users, matches, rounds, preds[..|preds| - 1], p.userId);
            r0 in m && RoundMap(users, matches, rounds, preds, p.userId) == m[r0 := m[r0] + p.points]
  {
    var p := preds[|preds| - 1];
    var front := preds[..|preds| - 1];
    var m := RoundMap(users, matches, rounds, front, p.userId);
    var m' := RoundMap(users, matches, rounds, preds, p.userId);
    forall r | r in rounds
      ensures m'[r] == if r == r0 then m[r0] + p.points else m[r]
    {
      assert RoundPoints(users, matches, rounds, preds, p.userId, r)
          == RoundPoints(users, matches, rounds, front, p.userId, r) + Share(users, matches, rounds, p, p.userId, r);
    }
    assert m' == m[r0 := m[r0] + p.points];
  }

  lemma {:induction false} AccumulateFaithful(users: seq<User>, matches: seq<Match>, rounds: seq<string>,
                                              preds: seq<Prediction>)
    requires NoDup(rounds)
    ensures Faithful(users, matches, rounds, preds, Accumulate(users, matches, rounds, preds))
  {
    if preds != [] {
      AccumulateFaithful(users, matches, rounds, preds[..|preds| - 1]);
      AddRowFaithful(users, matches, rounds, preds);
    }
  }

  /** `AddRow` turns faithful entries for the earlier rows into faithful entries for one more. */
  lemma AddRowFaithful(users: seq<User>, matches: seq<Match>, rounds: seq<string>, preds: seq<Prediction>)
    requires NoDup(rounds) && preds != []
    requires Faithful(users, matches, rounds, preds[..|preds| - 1],
                      Accumulate(users, matches, rounds, preds[..|preds| - 1]))
    ensures Faithful(users, matches, rounds, preds, Accumulate(users, matches, rounds, preds))
  {
    var front := preds[..|preds| - 1];
    var p := preds[|preds| - 1];
    RankedSnoc(users, matches, rounds, preds);
    var before := Accumulate(users, matches, rounds, front);
    forall uid | uid != p.userId || Join(users, matches, rounds, p).None?
      ensures Entry(users, matches, rounds, preds, uid) == Entry(users, matches, rounds, front, uid)
    {
      EntryUnchanged(users, matches, rounds, preds, uid);
    }
    match Join(users, matches, rounds, p)
    case None =>
    case Some((u, r0)) =>
      EntryCredited(users, matches, rounds, preds, u, r0);
      match RowOf(before, p.userId)
      case None =>
        NewEntry(users, matches, rounds, preds, u, r0);
        AppendFaithful(users, matches, rounds, preds, before, Accumulate(users, matches, rounds, preds));
      case Some(k) =>
        UpdateFaithful(users, matches, rounds, preds, before, Accumulate(users, matches, rounds, preds), k);
  }

  /** A user's first counted row gives the entry the loop creates from the default one. */
  lemma NewEntry(users: seq<User>, matches: seq<Match>, rounds: seq<string>, preds: seq<Prediction>,
                 u: User, r0: string)
    requires NoDup(rounds) && preds != []
    requires Join(users, matches, rounds, preds[|preds| - 1]) == Some((u, r0))
    requires !Ranked(users, matches, rounds, preds[..|preds| - 1], preds[|preds| - 1].userId)
    ensures Credit(DefaultRow(rounds), u, r0, preds[|preds| - 1].points)
            == Entry(users, matches, rounds, preds, preds[|preds| - 1].userId)
  {
    var front := preds[..|preds| - 1];
    var p := preds[|preds| - 1];
    forall r | r in rounds ensures RoundPoints(users, matches, rounds, front, p.userId, r) == 0 {
      RoundPointsUnranked(users, matches, rounds, front, p.userId, r);
    }
    var e := Entry(users, matches, rounds, front, p.userId);
    SumOverZero(rounds, e.rounds);
    assert e.rounds == DefaultRow(rounds).rounds;
    EntryCredited(users, matches, rounds, preds, u, r0);
  }

  lemma AppendFaithful(users: seq<User>, matches: seq<Match>, rounds: seq<string>, preds: seq<Prediction>,
                       before: seq<RankRow>, after: seq<RankRow>)
    requires preds != []
    requires Faithful(users, matches, rounds, preds[..|preds| - 1], before)
    requires forall i :: 0 <= i < |before| ==> before[i].userId != preds[|preds| - 1].userId
    requires after == before + [Entry(users, matches, rounds, preds, preds[|preds| - 1].userId)]
    requires forall uid :: uid != preds[|preds| - 1].userId ==>
      Entry(users, matches, rounds, preds, uid) == Entry(users, matches, rounds, preds[..|preds| - 1], uid)
    requires forall uid :: Ranked(users, matches, rounds, preds, uid) <==>
      || Ranked(users, matches, rounds, preds[..|preds| - 1], uid)
      || preds[|preds| - 1].userId == uid
    ensures Faithful(users, matches, rounds, preds, after)
  {
    var uid := preds[|preds| - 1].userId;
    assert forall i :: 0 <= i < |before| ==> after[i] == before[i];
    assert after[|before|].userId == uid;
    forall x ensures Lists(after, x) <==> Lists(before, x) || x == uid {
      if Lists(after, x) && x != uid {
        var i :| 0 <= i < |after| && after[i].userId == x;
        assert i < |before|;
      }
    }
  }

  lemma UpdateFaithful(users: seq<User>, matches: seq<Match>, rounds: seq<string>, preds: seq<Prediction>,
                       before: seq<RankRow>, after: seq<RankRow>, k: nat)
    requires preds != [] && k < |before|
    requires Faithful(users, matches, rounds, preds[..|preds| - 1], before)
    requires before[k].userId == preds[|preds| - 1].userId
    requires after == before[k := Entry(users, matches, rounds, preds, preds[|preds| - 1].userId)]
    requires forall uid :: uid != preds[|preds| - 1].userId ==>
      Entry(users, matches, rounds, preds, uid) == Entry(users, matches, rounds, preds[..|preds| - 1], uid)
    requires forall uid :: Ranked(users, matches, rounds, preds, uid) <==>
      || Ranked(users, matches, rounds, preds[..|preds| - 1], uid)
      || preds[|preds| - 1].userId == uid
    ensures Faithful(users, matches, rounds, preds, after)
  {
    assert forall i :: 0 <= i < |before| ==> after[i].userId == before[i].userId;
    forall i | 0 <= i < |after| && i != k ensures after[i] == Entry(users, matches, rounds, preds, after[i].userId) {
      assert before[i].userId != before[k].userId;
    }
    forall x ensures Lists(after, x) <==> Lists(before, x) {
      if Lists(before, x) {
        var i :| 0 <= i < |before| && before[i].userId == x;
        assert after[i].userId == x;
      }
    }
  }

  /** The ranking order: higher totals first. */
  predicate ByTotalDesc(a: RankRow, b: RankRow) {
    a.totalPoints >= b.totalPoints
  }

  /**
   * The accumulation loop of `GET /ranking/`: the entries are built one joined prediction row
   * at a time, in table order; summing per (user, round) first, as the database does, gives
   * the same sums.
   */
  method AccumulateRows(users: seq<User>, matches: seq<Match>, rounds: seq<string>, preds: seq<Prediction>)
    returns (rows: seq<RankRow>)
    ensures rows == Accumulate(users, matches, rounds, preds)
  {
    rows := [];
    var i := 0;
    while i < |preds|
      invariant 0 <= i <= |preds|
      invariant rows == Accumulate(users, matches, rounds, preds[..i])
    {
      var p := preds[i];
      assert preds[..i + 1][..i] == preds[..i] && preds[..i + 1][i] == p;
      ghost var before := rows;
      var joined := Join(users, matches, rounds, p);
      if joined.Some? {
        var (u, r) := joined.value;
        var k := RowOf(rows, p.userId);
        if k.None? {
          rows := rows + [DefaultRow(rounds)];
          k := Some(|rows| - 1);
        }
        var entry := rows[k.value];
        rows := rows[k.value := Credit(entry, u, r, p.points)];
      }
      assert rows == AddRow(users, matches, rounds, before, p);
      assert Accumulate(users, matches, rounds, preds[..i + 1])
          == AddRow(users, matches, rounds, Accumulate(users, matches, rounds, preds[..i]), p);
      i := i + 1;
    }
    assert preds[..i] == preds;
  }

  /** `GET /ranking/`: the active rounds and the entries, higher totals first. */
  method GetRanking(users: seq<User>, matches: seq<Match>, preds: seq<Prediction>)
    returns (rounds: seq<string>, ranking: seq<RankRow>)
    ensures rounds == ActiveRounds(matches, preds)
    ensures ranking == SortBy(Accumulate(users, matches, rounds, preds), ByTotalDesc)
    ensures Sorted(ranking, ByTotalDesc)
    ensures Faithful(users, matches, rounds, preds, ranking)
  {
    rounds := ActiveRounds(matches, preds);
    var rows := AccumulateRows(users, matches, rounds, preds);
    AccumulateFaithful(users, matches, rounds, preds);
    ranking := SortBy(rows, ByTotalDesc);
    RankingFaithful(users, matches, rounds, preds, rows);
    assert TotalPreorder(ByTotalDesc);
    SortBySorted(rows, ByTotalDesc);
  }

  /** Reordering the entries keeps every fact `Faithful` states. */
  lemma RankingFaithful(users: seq<User>, matches: seq<Match>, rounds: seq<string>, preds: seq<Prediction>,
                        rows: seq<RankRow>)
    requires Faithful(users, matches, rounds, preds, rows)
    ensures Faithful(users, matches, rounds, preds, SortBy(rows, ByTotalDesc))
  {
    var ranking := SortBy(rows, ByTotalDesc);
    SortByMembers(rows, ByTotalDesc);
    SortByDistinctKeys(rows, ByTotalDesc, (row: RankRow) => row.userId);
    forall i | 0 <= i < |ranking| ensures ranking[i] == Entry(users, matches, rounds, preds, ranking[i].userId) {
      assert ranking[i] in rows;
    }
    forall x ensures Lists(ranking, x) <==> Lists(rows, x) {
      if Lists(rows, x) {
        var j :| 0 <= j < |rows| && rows[j].userId == x;
        assert rows[j] in ranking;
      }
      if Lists(ranking, x) {
        var i :| 0 <= i < |ranking| && ranking[i].userId == x;
        assert ranking[i] in rows;
      }
    }
  }

  /** Entries with equal totals keep the order in which their users first appear. */
  lemma RankingStable(users: seq<User>, matches: seq<Match>, preds: seq<Prediction>, x: RankRow)
    ensures var rounds := ActiveRounds(matches, preds);
            var rows := Accumulate(users, matches, rounds, preds);
            Ties(SortBy(rows, ByTotalDesc), ByTotalDesc, x) == Ties(rows, ByTotalDesc, x)
  {
    var rounds := ActiveRounds(matches, preds);
    assert TotalPreorder(ByTotalDesc);
    SortByStable(Accumulate(users, matches, rounds, preds), ByTotalDesc, x);
  }
}
