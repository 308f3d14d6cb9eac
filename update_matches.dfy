/**
 * The fixture importer: each fixture from the football data feed overwrites the match with its
 * id or inserts a new one, and every fixture that carries both goals asks the backend to
 * recalculate that match's points. The session does not flush before its queries, so a
 * fixture does not find a match an earlier fixture inserted in the same run; two inserts with
 * one id make the commit fail. The feed, the date parser and the recalculation request are
 * outside the model: fixtures are an input, the parser a parameter, and each request an event
 * in the returned sequence.
 */
module FixtureImport {
  import opened Wrappers
  import opened Tables
  import opened Query

  /** The fields of one feed entry the importer reads; a missing goal is None. */
  datatype Fixture = Fixture(
    id: int, homeTeam: string, awayTeam: string, date: string, goalsHome: Option<int>, goalsAway: Option<int>)

  /** One `PUT /matches/{id}/result` request. */
  datatype Recalculation = Recalculation(matchId: int, scoreHome: int, scoreAway: int)

  const Utc: string := "+00:00"

  /** `date.replace("Z", "+00:00")`. */
  function ReplaceZ(s: string): (r: string)
    ensures 'Z' !in r
  {
    if s == [] then []
    else
      assert s == [s[0]] + s[1..];
      (if s[0] == 'Z' then Utc else [s[0]]) + ReplaceZ(s[1..])
  }

  /** Each `Z` grows the text by five characters, "+00:00" standing for it. */
  lemma {:induction false} ReplaceZLength(s: string)
    ensures |ReplaceZ(s)| == |s| + 5 * multiset(s)['Z']
  {
    if s != [] {
      ReplaceZLength(s[1..]);
      assert s == [s[0]] + s[1..];
    }
  }

  /** A date without a `Z` is left alone. */
  lemma {:induction false} ReplaceZNone(s: string)
    requires 'Z' !in s
    ensures ReplaceZ(s) == s
  {
    if s != [] {
      assert s[0] != 'Z' && 'Z' !in s[1..];
      ReplaceZNone(s[1..]);
      assert s == [s[0]] + s[1..];
    }
  }

  /** A trailing `Z` becomes the UTC offset. */
  lemma {:induction false} ReplaceZTrailing(s: string)
    ensures ReplaceZ(s + "Z") == ReplaceZ(s) + Utc
  {
    if s == [] {
      assert s + "Z" == "Z" && "Z"[1..] == [];
    } else {
      var t := s + "Z";
      var head := if s[0] == 'Z' then Utc else [s[0]];
      assert t[0] == s[0] && t[1..] == s[1..] + "Z";
      ReplaceZTrailing(s[1..]);
      calc {
        ReplaceZ(t);
        head + ReplaceZ(s[1..] + "Z");
        head + (ReplaceZ(s[1..]) + Utc);
        (head + ReplaceZ(s[1..])) + Utc;
        ReplaceZ(s) + Utc;
      }
    }
  }

  /** The stored kickoff of a fixture. */
  function Kickoff(f: Fixture, parse: string -> Instant): Instant {
    parse(ReplaceZ(f.date))
  }

  /** The match row holds what the fixture says. */
  predicate Carries(m: Match, f: Fixture, parse: string -> Instant) {
    && m.id == f.id && m.homeTeam == f.homeTeam && m.awayTeam == f.awayTeam
    && m.matchDate == Kickoff(f, parse) && m.scoreHome == f.goalsHome && m.scoreAway == f.goalsAway
  }

  /** The table after one fixture: overwrite the five fields of its match, or insert it without league data. */
  function Upserted(matches: seq<Match>, f: Fixture, parse: string -> Instant): seq<Match> {
    match FirstIndex(matches, (m: Match) => m.id == f.id)
    case Some(k) =>
      matches[k := matches[k].(homeTeam := f.homeTeam, awayTeam := f.awayTeam, matchDate := Kickoff(f, parse),
                               scoreHome := f.goalsHome, scoreAway := f.goalsAway)]
    case None =>
      matches + [Match(f.id, f.homeTeam, f.awayTeam, Kickoff(f, parse), f.goalsHome, f.goalsAway, None, None, None)]
  }

  /**
   * One fixture leaves every other match as it was, in place. A stored match with its id is
   * overwritten where it stands and keeps its league data; otherwise one row carrying the
   * fixture is appended, with no league data.
   */
  lemma UpsertedFacts(matches: seq<Match>, f: Fixture, parse: string -> Instant)
    requires Distinct(matches, (m: Match) => m.id)
    ensures var r := Upserted(matches, f, parse);
      && Distinct(r, (m: Match) => m.id)
      && |matches| <= |r| <= |matches| + 1
      && (forall i :: 0 <= i < |matches| && matches[i].id != f.id ==> r[i] == matches[i])
      && (exists k :: 0 <= k < |r| && Carries(r[k], f, parse))
      && (|r| == |matches| + 1 ==> r[|matches|].id == f.id)
      && (forall j :: 0 <= j < |matches| && matches[j].id == f.id ==>
            && |r| == |matches| && Carries(r[j], f, parse)
            && r[j].leagueId == matches[j].leagueId && r[j].leagueSeason == matches[j].leagueSeason
            && r[j].leagueRound == matches[j].leagueRound)
      && ((forall j :: 0 <= j < |matches| ==> matches[j].id != f.id) ==>
            && |r| == |matches| + 1 && Carries(r[|matches|], f, parse)
            && r[|matches|].leagueId.None? && r[|matches|].leagueSeason.None? && r[|matches|].leagueRound.None?)
  {
    var r := Upserted(matches, f, parse);
    match FirstIndex(matches, (m: Match) => m.id == f.id)
    case Some(k) =>
      assert Carries(r[k], f, parse);
      forall j | 0 <= j < |matches| && matches[j].id == f.id ensures j == k {
        assert matches[j].id == matches[k].id;
      }
    case None =>
      assert Carries(r[|matches|], f, parse);
  }

  /** The table after the fixtures, taken in feed order. */
  function UpsertAll(matches: seq<Match>, fixtures: seq<Fixture>, parse: string -> Instant): seq<Match> {
    if fixtures == [] then matches
    else Upserted(UpsertAll(matches, fixtures[..|fixtures| - 1], parse), fixtures[|fixtures| - 1], parse)
  }

  /** The recalculation a fixture asks for: one exactly when both goals are known. */
  function RecalcOf(f: Fixture): seq<Recalculation> {
    if f.goalsHome.Some? && f.goalsAway.Some? then [Recalculation(f.id, f.goalsHome.value, f.goalsAway.value)]
    else []
  }

  /** The recalculations the fixtures ask for, in feed order. */
  function RecalcEvents(fixtures: seq<Fixture>): seq<Recalculation> {
    if fixtures == [] then [] else RecalcEvents(fixtures[..|fixtures| - 1]) + RecalcOf(fixtures[|fixtures| - 1])
  }

  /**
   * A recalculation is asked for a fixture exactly when it carries both goals, already
   * finished matches included, and with those goals.
   */
  lemma {:induction false} RecalcEventsExact(fixtures: seq<Fixture>)
    ensures forall e :: e in RecalcEvents(fixtures) <==>
      exists i :: 0 <= i < |fixtures| && fixtures[i].id == e.matchId
                  && fixtures[i].goalsHome == Some(e.scoreHome) && fixtures[i].goalsAway == Some(e.scoreAway)
    ensures |RecalcEvents(fixtures)| == Count(fixtures, (f: Fixture) => f.goalsHome.Some? && f.goalsAway.Some?)
  {
    RecalcEventsMembers(fixtures);
    RecalcEventsCount(fixtures);
  }

  /** The events are exactly the recalculations of the fixtures that carry both goals. */
  lemma {:induction false} RecalcEventsMembers(fixtures: seq<Fixture>)
    ensures forall e :: e in RecalcEvents(fixtures) <==>
      exists i :: 0 <= i < |fixtures| && fixtures[i].id == e.matchId
                  && fixtures[i].goalsHome == Some(e.scoreHome) && fixtures[i].goalsAway == Some(e.scoreAway)
  {
    if fixtures != [] {
      var front := fixtures[..|fixtures| - 1];
      var last := fixtures[|fixtures| - 1];
      RecalcEventsMembers(front);
      assert forall i :: 0 <= i < |front| ==> front[i] == fixtures[i];
      assert RecalcEvents(fixtures) == RecalcEvents(front) + RecalcOf(last);
    }
  }

  /** One event per fixture that carries both goals. */
  lemma {:induction false} RecalcEventsCount(fixtures: seq<Fixture>)
    ensures |RecalcEvents(fixtures)| == Count(fixtures, (f: Fixture) => f.goalsHome.Some? && f.goalsAway.Some?)
  {
    if fixtures != [] {
      RecalcEventsCount(fixtures[..|fixtures| - 1]);
      CountSnocFixture(fixtures);
    }
  }

  lemma CountSnocFixture(fixtures: seq<Fixture>)
    requires fixtures != []
    ensures var p := (f: Fixture) => f.goalsHome.Some? && f.goalsAway.Some?;
            Count(fixtures, p) == Count(fixtures[..|fixtures| - 1], p) + |RecalcOf(fixtures[|fixtures| - 1])|
  {
    var p := (f: Fixture) => f.goalsHome.Some? && f.goalsAway.Some?;
    var front := fixtures[..|fixtures| - 1];
    CountSnoc(front, fixtures[|fixtures| - 1], p);
    assert front + [fixtures[|fixtures| - 1]] == fixtures;
  }

  /** A match no fixture names keeps its row and its place. */
  lemma {:induction false} UpsertAllKeepsAbsent(matches: seq<Match>, fixtures: seq<Fixture>, parse: string -> Instant)
    requires Distinct(matches, (m: Match) => m.id)
    ensures var r := UpsertAll(matches, fixtures, parse);
      && Distinct(r, (m: Match) => m.id)
      && |matches| <= |r|
      && forall i :: 0 <= i < |matches| && (forall j :: 0 <= j < |fixtures| ==> fixtures[j].id != matches[i].id) ==>
           r[i] == matches[i]
  {
    if fixtures != [] {
      var front := fixtures[..|fixtures| - 1];
      UpsertAllKeepsAbsent(matches, front, parse);
      UpsertedFacts(UpsertAll(matches, front, parse), fixtures[|fixtures| - 1], parse);
      assert forall j :: 0 <= j < |front| ==> front[j] == fixtures[j];
    }
  }

  /** One fixture leaves a match with another id in place. */
  lemma UpsertedKeeps(matches: seq<Match>, f: Fixture, parse: string -> Instant, k: nat)
    requires k < |matches| && matches[k].id != f.id
    ensures k < |Upserted(matches, f, parse)| && Upserted(matches, f, parse)[k] == matches[k]
  {
  }

  /** Some row of the table carries the fixture. */
  ghost predicate Holds(matches: seq<Match>, f: Fixture, parse: string -> Instant) {
    exists k :: 0 <= k < |matches| && Carries(matches[k], f, parse)
  }

  /** No later fixture has the same id as fixture `i`. */
  predicate LastFor(fixtures: seq<Fixture>, i: nat) {
    i < |fixtures| && forall j :: i < j < |fixtures| ==> fixtures[j].id != fixtures[i].id
  }

  /** The last fixture for an id wins: the table ends up holding what it says. */
  lemma {:induction false} UpsertAllLastWins(matches: seq<Match>, fixtures: seq<Fixture>, parse: string -> Instant, i: nat)
    requires LastFor(fixtures, i)
    ensures Holds(UpsertAll(matches, fixtures, parse), fixtures[i], parse)
  {
    var front := fixtures[..|fixtures| - 1];
    var last := fixtures[|fixtures| - 1];
    var before := UpsertAll(matches, front, parse);
    var r := UpsertAll(matches, fixtures, parse);
    assert r == Upserted(before, last, parse);
    if i < |fixtures| - 1 {
      var f := fixtures[i];
      assert front[i] == f;
      forall j | i < j < |front| ensures front[j].id != f.id {
        assert front[j] == fixtures[j];
      }
      UpsertAllLastWins(matches, front, parse, i);
      var k :| 0 <= k < |before| && Carries(before[k], f, parse);
      UpsertedKeeps(before, last, parse, k);
      assert Carries(r[k], f, parse);
    } else {
      match FirstIndex(before, (m: Match) => m.id == last.id)
      case Some(k) =>
        assert Carries(r[k], last, parse);
      case None =>
        assert Carries(r[|before|], last, parse);
    }
  }

  /** The database holds no match with this id, so the importer's lookup comes back empty. */
  predicate IsNew(stored: seq<Match>, id: int) {
    forall k :: 0 <= k < |stored| ==> stored[k].id != id
  }

  /**
   * The ids of the matches the fixtures insert. The session does not flush before a query,
   * so these rows wait unseen until the commit.
   */
  function PendingIds(stored: seq<Match>, fixtures: seq<Fixture>): set<int> {
    if fixtures == [] then {}
    else
      var last := fixtures[|fixtures| - 1];
      PendingIds(stored, fixtures[..|fixtures| - 1]) + (if IsNew(stored, last.id) then {last.id} else {})
  }

  /**
   * Some fixture finds no stored match for an id that an earlier fixture already inserted,
   * so the session holds two new rows with one primary key and the commit fails.
   */
  function Clashes(stored: seq<Match>, fixtures: seq<Fixture>): bool {
    if fixtures == [] then false
    else
      var front := fixtures[..|fixtures| - 1];
      var last := fixtures[|fixtures| - 1];
      Clashes(stored, front) || (IsNew(stored, last.id) && last.id in PendingIds(stored, front))
  }

  /** The pending ids are exactly the new ids some fixture names. */
  lemma {:induction false} PendingIdsExact(stored: seq<Match>, fixtures: seq<Fixture>, id: int)
    ensures id in PendingIds(stored, fixtures) <==>
      IsNew(stored, id) && exists i :: 0 <= i < |fixtures| && fixtures[i].id == id
  {
    if fixtures != [] {
      var front := fixtures[..|fixtures| - 1];
      PendingIdsExact(stored, front, id);
      assert forall i :: 0 <= i < |front| ==> front[i] == fixtures[i];
    }
  }

  /** The commit fails exactly when two fixtures name the same id and the database has no match with it. */
  lemma {:induction false} ClashesExact(stored: seq<Match>, fixtures: seq<Fixture>)
    ensures Clashes(stored, fixtures) <==>
      exists i, j :: 0 <= i < j < |fixtures| && fixtures[i].id == fixtures[j].id && IsNew(stored, fixtures[j].id)
  {
    if fixtures != [] {
      var front := fixtures[..|fixtures| - 1];
      var n := |fixtures| - 1;
      ClashesExact(stored, front);
      PendingIdsExact(stored, front, fixtures[n].id);
      assert forall i :: 0 <= i < |front| ==> front[i] == fixtures[i];
      if Clashes(stored, fixtures) {
        if Clashes(stored, front) {
          var i, j :| 0 <= i < j < |front| && front[i].id == front[j].id && IsNew(stored, front[j].id);
          assert fixtures[i].id == fixtures[j].id;
        } else {
          var i :| 0 <= i < |front| && front[i].id == fixtures[n].id;
          assert fixtures[i].id == fixtures[n].id;
        }
      } else {
        forall i, j | 0 <= i < j < |fixtures| && fixtures[i].id == fixtures[j].id
          ensures !IsNew(stored, fixtures[j].id)
        {
          if j < n {
            assert front[i].id == front[j].id;
          } else {
            assert front[i].id == fixtures[n].id;
          }
        }
      }
    }
  }

  /** A feed that repeats an id the database lacks makes the import fail, however the fixtures read. */
  lemma RepeatedNewIdClashes(f: Fixture, g: Fixture)
    requires f.id == g.id
    ensures Clashes([], [f, g])
  {
    assert [f, g][..1] == [f] && [f][..0] == [];
    assert PendingIds([], [f]) == {f.id};
  }

  /**
   * `upsert_matches_to_db`: the fixtures in feed order, each overwriting or inserting its match
   * and, when both goals are known, asking for a recalculation. The lookup reads the database,
   * which does not see rows inserted earlier in the same run; when two such rows share an id the
   * commit fails and nothing is stored, though the recalculations have already been asked for.
   */
  method UpsertMatches(db: Db, fixtures: seq<Fixture>, parse: string -> Instant)
    returns (events: seq<Recalculation>, committed: bool)
    requires db.Valid()
    modifies db`matches
    ensures db.Valid()
    ensures committed == !Clashes(old(db.matches), fixtures)
    ensures db.matches == if committed then UpsertAll(old(db.matches), fixtures, parse) else old(db.matches)
    ensures events == RecalcEvents(fixtures)
  {
    var staged, clash;
    staged, events, clash := StageFixtures(db.matches, fixtures, parse);
    committed := !clash;
    if committed {
      UpsertAllKeepsAbsent(db.matches, fixtures, parse);
      db.matches := staged;
    }
  }

  /**
   * The loop of `upsert_matches_to_db` before the commit: the session's rows, the recalculations
   * asked for, and whether two inserted rows share an id. Without such a clash the session holds
   * `UpsertAll` of the stored table.
   */
  method StageFixtures(stored: seq<Match>, fixtures: seq<Fixture>, parse: string -> Instant)
    returns (matches: seq<Match>, events: seq<Recalculation>, clash: bool)
    ensures clash == Clashes(stored, fixtures)
    ensures !clash ==> matches == UpsertAll(stored, fixtures, parse)
    ensures events == RecalcEvents(fixtures)
  {
    matches := stored;
    var pending: set<int> := {};
    clash := false;
    events := [];
    ghost var done: seq<Fixture> := [];
    var i := 0;
    while i < |fixtures|
      invariant 0 <= i <= |fixtures| && done == fixtures[..i]
      invariant Aligned(stored, matches, pending)
      invariant pending == PendingIds(stored, done)
      invariant clash == Clashes(stored, done)
      invariant !clash ==> matches == UpsertAll(stored, done, parse)
      invariant events == RecalcEvents(done)
    {
      StepFacts(stored, done, fixtures[i], parse);
      matches, pending, clash, events := StageOne(stored, matches, pending, clash, events, fixtures[i], parse);
      assert fixtures[..i + 1] == done + [fixtures[i]];
      done := done + [fixtures[i]];
      i := i + 1;
    }
    assert done == fixtures;
  }

  /**
   * One turn of the loop: the database lookup, then the overwrite or the insert (which clashes
   * when its id is already pending), then the recalculation when both goals are known.
   */
  method StageOne(stored: seq<Match>, matches: seq<Match>, pending: set<int>, clash: bool,
                  events: seq<Recalculation>, f: Fixture, parse: string -> Instant)
    returns (matches': seq<Match>, pending': set<int>, clash': bool, events': seq<Recalculation>)
    requires Aligned(stored, matches, pending)
    ensures Aligned(stored, matches', pending')
    ensures pending' == pending + (if IsNew(stored, f.id) then {f.id} else {})
    ensures clash' == (clash || (IsNew(stored, f.id) && f.id in pending))
    ensures !clash' ==> matches' == Upserted(matches, f, parse)
    ensures events' == events + RecalcOf(f)
  {
    var date := Kickoff(f, parse);
    var existing := FirstIndex(stored, (m: Match) => m.id == f.id);
    pending', clash' := pending, clash;
    if existing.Some? {
      var k := existing.value;
      StoredUpsert(stored, matches, pending, f, parse, k);
      matches' := matches[k := matches[k].(homeTeam := f.homeTeam, awayTeam := f.awayTeam,
                                          matchDate := date, scoreHome := f.goalsHome,
                                          scoreAway := f.goalsAway)];
    } else {
      if !clash && f.id !in pending {
        NewUpsert(stored, matches, pending, f, parse);
      }
      var row := Match(f.id, f.homeTeam, f.awayTeam, date, f.goalsHome, f.goalsAway, None, None, None);
      AlignedAppend(stored, matches, pending, row);
      clash' := clash || f.id in pending;
      pending' := pending + {f.id};
      matches' := matches + [row];
    }
    events' := events;
    if f.goalsHome.Some? && f.goalsAway.Some? {
      events' := events + [Recalculation(f.id, f.goalsHome.value, f.goalsAway.value)];
    }
  }

  /** One more fixture, as each running value sees it. */
  lemma StepFacts(stored: seq<Match>, front: seq<Fixture>, f: Fixture, parse: string -> Instant)
    ensures PendingIds(stored, front + [f]) == PendingIds(stored, front) + (if IsNew(stored, f.id) then {f.id} else {})
    ensures Clashes(stored, front + [f]) == (Clashes(stored, front) || (IsNew(stored, f.id) && f.id in PendingIds(stored, front)))
    ensures UpsertAll(stored, front + [f], parse) == Upserted(UpsertAll(stored, front, parse), f, parse)
    ensures RecalcEvents(front + [f]) == RecalcEvents(front) + RecalcOf(f)
  {
    assert (front + [f])[..|front|] == front;
  }

  /**
   * The session's rows: the stored matches in their places, with their ids, followed by the
   * inserted rows, whose ids are pending.
   */
  predicate Aligned(stored: seq<Match>, matches: seq<Match>, pending: set<int>) {
    && |stored| <= |matches|
    && (forall j :: 0 <= j < |stored| ==> matches[j].id == stored[j].id)
    && (forall j :: |stored| <= j < |matches| ==> matches[j].id in pending)
  }

  /** Inserting a row keeps the session aligned. */
  lemma AlignedAppend(stored: seq<Match>, matches: seq<Match>, pending: set<int>, row: Match)
    requires Aligned(stored, matches, pending)
    ensures Aligned(stored, matches + [row], pending + {row.id})
  {
  }

  /** A stored match keeps its place in the session, so the fixture overwrites it there. */
  lemma StoredUpsert(stored: seq<Match>, matches: seq<Match>, pending: set<int>, f: Fixture, parse: string -> Instant, k: nat)
    requires Aligned(stored, matches, pending)
    requires FirstIndex(stored, (m: Match) => m.id == f.id) == Some(k)
    ensures Upserted(matches, f, parse) ==
      matches[k := matches[k].(homeTeam := f.homeTeam, awayTeam := f.awayTeam, matchDate := Kickoff(f, parse),
                               scoreHome := f.goalsHome, scoreAway := f.goalsAway)]
    ensures Aligned(stored, Upserted(matches, f, parse), pending)
  {
    forall j | 0 <= j < k ensures matches[j].id != f.id {
      assert stored[j].id != f.id;
    }
    FirstIndexAt(matches, (m: Match) => m.id == f.id, k);
  }

  /** An id neither stored nor pending has no row in the session, so the fixture is appended. */
  lemma NewUpsert(stored: seq<Match>, matches: seq<Match>, pending: set<int>, f: Fixture, parse: string -> Instant)
    requires Aligned(stored, matches, pending)
    requires FirstIndex(stored, (m: Match) => m.id == f.id).None? && f.id !in pending
    ensures Upserted(matches, f, parse) ==
      matches + [Match(f.id, f.homeTeam, f.awayTeam, Kickoff(f, parse), f.goalsHome, f.goalsAway, None, None, None)]
  {
    forall j | 0 <= j < |matches| ensures matches[j].id != f.id {
      if j < |stored| {
        assert stored[j].id != f.id;
      }
    }
  }
}
