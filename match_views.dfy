/**
 * The pure view logic the prediction screens share: timestamp normalisation, the
 * "still editable" test, the eight-day window, the kickoff order of the caller's
 * predictions, the list updates after a submit or an edit, and the grouping of matches by
 * round. Dates arrive as the server's ISO text; the browser's `new Date(text)` is the
 * parameter `instant` (milliseconds since the epoch) and the clock the parameter `now`.
 */
module MatchViews {
  import opened Wrappers
  import opened JsValues
  import opened Query
  import opened Sorting

  /** One entry of `GET /available-matches/` as the client keeps it. */
  datatype MatchCard = MatchCard(
    matchId: int, homeTeam: string, awayTeam: string, matchDate: string, leagueRound: Option<string>)

  /**
   * One entry of `GET /my-predictions/`; the two guesses are JavaScript values because an
   * edit copies the text of the input fields into them.
   */
  datatype PredictionCard = PredictionCard(
    predictionId: int, matchId: int, homeTeam: string, awayTeam: string, matchDate: string,
    predHome: JsValue, predAway: JsValue)

  predicate EndsInZ(s: string) {
    |s| > 0 && s[|s| - 1] == 'Z'
  }

  /** `normalizeISOString`: marks a server timestamp as UTC by appending `Z` when it is missing. */
  function NormalizeIso(s: string): (r: string)
    ensures EndsInZ(r)
    ensures EndsInZ(s) ==> r == s
    ensures !EndsInZ(s) ==> r == s + "Z"
  {
    if EndsInZ(s) then s else s + "Z"
  }

  /** Normalising twice is normalising once. */
  lemma NormalizeIdempotent(s: string)
    ensures NormalizeIso(NormalizeIso(s)) == NormalizeIso(s)
  {
  }

  /** `isEditable`: the kickoff, read as UTC, is strictly after now. */
  predicate IsEditable(matchDate: string, now: int, instant: string -> int) {
    instant(NormalizeIso(matchDate)) > now
  }

  /**
   * A prediction stops being editable at its kickoff and stays so afterwards, and a date
   * that already carries its `Z` is judged the same either way.
   */
  lemma EditableUntilKickoff(matchDate: string, now: int, later: int, instant: string -> int)
    requires now <= later
    ensures !IsEditable(matchDate, instant(NormalizeIso(matchDate)), instant)
    ensures IsEditable(matchDate, later, instant) ==> IsEditable(matchDate, now, instant)
    ensures IsEditable(NormalizeIso(matchDate), now, instant) == IsEditable(matchDate, now, instant)
  {
    NormalizeIdempotent(matchDate);
  }

  const DayMs: int := 24 * 3600 * 1000

  /** The end of the window: eight days after now. */
  function WindowEnd(now: int): int {
    now + 8 * DayMs
  }

  /** The fetched matches that kick off no later than `limit`, in the order received. */
  function WithinWindow(matches: seq<MatchCard>, limit: int, instant: string -> int): (r: seq<MatchCard>)
    ensures forall i :: 0 <= i < |r| ==> r[i] in matches && instant(r[i].matchDate) <= limit
    ensures forall i :: 0 <= i < |matches| && instant(matches[i].matchDate) <= limit ==> matches[i] in r
  {
    Filter(matches, (m: MatchCard) => instant(m.matchDate) <= limit)
  }

  /** The window keeps the received order: filtering two batches is filtering each in turn. */
  lemma WithinWindowOrder(a: seq<MatchCard>, b: seq<MatchCard>, limit: int, instant: string -> int)
    ensures WithinWindow(a + b, limit, instant) == WithinWindow(a, limit, instant) + WithinWindow(b, limit, instant)
    ensures |WithinWindow(a, limit, instant)| == |a| <==> forall i :: 0 <= i < |a| ==> instant(a[i].matchDate) <= limit
  {
    FilterAppend(a, b, (m: MatchCard) => instant(m.matchDate) <= limit);
    var p := (m: MatchCard) => instant(m.matchDate) <= limit;
    if forall i :: 0 <= i < |a| ==> p(a[i]) {
      FilterAll(a, p);
    } else {
      var i :| 0 <= i < |a| && !p(a[i]);
      FilterDrops(a, p, i);
    }
  }

  /** A row that fails the test makes the filtered list shorter than the input. */
  lemma {:induction false} FilterDrops<T>(s: seq<T>, p: T -> bool, i: nat)
    requires i < |s| && !p(s[i])
    ensures |Filter(s, p)| < |s|
  {
    if i > 0 {
      FilterDrops(s[1..], p, i - 1);
    }
  }

  /** The kickoff order of the prediction list. */
  predicate ByKickoff(instant: string -> int, a: PredictionCard, b: PredictionCard) {
    instant(a.matchDate) <= instant(b.matchDate)
  }

  /** `[...data].sort((a, b) => new Date(a.match_date) - new Date(b.match_date))`. */
  function SortByKickoff(preds: seq<PredictionCard>, instant: string -> int): (r: seq<PredictionCard>)
    ensures multiset(r) == multiset(preds)
    ensures forall i, j :: 0 <= i < j < |r| ==> instant(r[i].matchDate) <= instant(r[j].matchDate)
  {
    var le := (a: PredictionCard, b: PredictionCard) => ByKickoff(instant, a, b);
    assert TotalPreorder(le);
    SortBySorted(preds, le);
    SortBy(preds, le)
  }

  /** Predictions for matches with the same kickoff keep the order the server sent them in. */
  lemma SortByKickoffStable(preds: seq<PredictionCard>, instant: string -> int, x: PredictionCard)
    ensures var le := (a: PredictionCard, b: PredictionCard) => ByKickoff(instant, a, b);
            Ties(SortByKickoff(preds, instant), le, x) == Ties(preds, le, x)
  {
    var le := (a: PredictionCard, b: PredictionCard) => ByKickoff(instant, a, b);
    assert TotalPreorder(le);
    SortByStable(preds, le, x);
  }

  /** The list after a successful submit: every card for that match goes, the rest stay in order (`RemoveMatchOrder`). */
  function RemoveMatch(matches: seq<MatchCard>, matchId: int): (r: seq<MatchCard>)
    ensures forall m :: m in r <==> m in matches && m.matchId != matchId
  {
    Filter(matches, (m: MatchCard) => m.matchId != matchId)
  }

  /**
   * The remaining cards keep their order: removing from two batches is removing from each in
   * turn, and a single card stays exactly when it is for another match.
   */
  lemma RemoveMatchOrder(a: seq<MatchCard>, b: seq<MatchCard>, matchId: int)
    ensures RemoveMatch(a + b, matchId) == RemoveMatch(a, matchId) + RemoveMatch(b, matchId)
    ensures forall m :: RemoveMatch([m], matchId) == if m.matchId != matchId then [m] else []
  {
    var p := (m: MatchCard) => m.matchId != matchId;
    FilterAppend(a, b, p);
    forall m ensures Filter([m], p) == if p(m) then [m] else [] {
      assert [m][1..] == [];
    }
  }

  /** Removing a match that is not listed changes nothing, and removing it twice is removing it once. */
  lemma RemoveMatchFacts(matches: seq<MatchCard>, matchId: int)
    ensures (forall i :: 0 <= i < |matches| ==> matches[i].matchId != matchId) ==> RemoveMatch(matches, matchId) == matches
    ensures RemoveMatch(RemoveMatch(matches, matchId), matchId) == RemoveMatch(matches, matchId)
  {
    var p := (m: MatchCard) => m.matchId != matchId;
    if forall i :: 0 <= i < |matches| ==> matches[i].matchId != matchId {
      FilterAll(matches, p);
    }
    var once := RemoveMatch(matches, matchId);
    FilterAll(once, p);
  }

  /**
   * The list after a successful edit: the card with that id takes both edited values and keeps
   * every other field; every other card, and the order, stay as they were.
   */
  function ApplyEdit(preds: seq<PredictionCard>, predictionId: int, home: JsValue, away: JsValue)
    : (r: seq<PredictionCard>)
    ensures |r| == |preds|
    ensures forall i :: 0 <= i < |r| && preds[i].predictionId != predictionId ==> r[i] == preds[i]
    ensures forall i :: 0 <= i < |r| && preds[i].predictionId == predictionId ==>
      r[i] == preds[i].(predHome := home, predAway := away)
    ensures forall i :: 0 <= i < |r| ==>
      r[i].predictionId == preds[i].predictionId && r[i].matchId == preds[i].matchId && r[i].matchDate == preds[i].matchDate
  {
    seq(|preds|, i requires 0 <= i < |preds| =>
      if preds[i].predictionId == predictionId then preds[i].(predHome := home, predAway := away) else preds[i])
  }

  /** Applying the same edit again changes nothing, and the kickoff order survives an edit. */
  lemma ApplyEditFacts(preds: seq<PredictionCard>, predictionId: int, home: JsValue, away: JsValue,
                       instant: string -> int)
    ensures var once := ApplyEdit(preds, predictionId, home, away);
            ApplyEdit(once, predictionId, home, away) == once
    ensures (forall i, j :: 0 <= i < j < |preds| ==> instant(preds[i].matchDate) <= instant(preds[j].matchDate)) ==>
            var r := ApplyEdit(preds, predictionId, home, away);
            forall i, j :: 0 <= i < j < |r| ==> instant(r[i].matchDate) <= instant(r[j].matchDate)
  {
  }

  /** `match.league_round || "Otros"`: a missing or empty round files the match under "Otros". */
  function RoundKey(round: Option<string>): (key: string)
    ensures key != ""
    ensures round.Some? && round.value != "" ==> key == round.value
    ensures round.None? || round.value == "" ==> key == "Otros"
  {
    if round.Some? && round.value != "" then round.value else "Otros"
  }

  /** The buckets after one more match: appended to its round's bucket, or in a new bucket at the end. */
  function AddToBucket(groups: seq<(string, seq<MatchCard>)>, m: MatchCard): seq<(string, seq<MatchCard>)> {
    var key := RoundKey(m.leagueRound);
    match FirstIndex(groups, (g: (string, seq<MatchCard>)) => g.0 == key)
    case Some(k) => groups[k := (key, groups[k].1 + [m])]
    case None => groups + [(key, [m])]
  }

  /** `groupedMatches`: the matches bucketed by round key, buckets in order of first appearance. */
  function GroupByRound(matches: seq<MatchCard>): seq<(string, seq<MatchCard>)> {
    if matches == [] then []
    else AddToBucket(GroupByRound(matches[..|matches| - 1]), matches[|matches| - 1])
  }

  /** The matches of one round key, in input order. */
  function InRound(matches: seq<MatchCard>, key: string): seq<MatchCard> {
    if matches == [] then []
    else
      var m := matches[|matches| - 1];
      InRound(matches[..|matches| - 1], key) + (if RoundKey(m.leagueRound) == key then [m] else [])
  }

  /** A round's bucket holds the matches with that key, in input order: a filter of the input. */
  lemma {:induction false} InRoundIsFilter(matches: seq<MatchCard>, key: string)
    ensures InRound(matches, key) == Filter(matches, (m: MatchCard) => RoundKey(m.leagueRound) == key)
  {
    if matches != [] {
      var front := matches[..|matches| - 1];
      InRoundIsFilter(front, key);
      FilterSnoc(matches, (c: MatchCard) => RoundKey(c.leagueRound) == key);
    }
  }

  /** The bucket contents, one after the other. */
  function Flatten(groups: seq<(string, seq<MatchCard>)>): seq<MatchCard> {
    if groups == [] then [] else Flatten(groups[..|groups| - 1]) + groups[|groups| - 1].1
  }

  /** Some bucket has the key. */
  predicate HasBucket(groups: seq<(string, seq<MatchCard>)>, key: string) {
    exists i :: 0 <= i < |groups| && groups[i].0 == key
  }

  /** Each bucket holds exactly its round's matches, in input order, and is not empty. */
  predicate BucketsExact(matches: seq<MatchCard>, groups: seq<(string, seq<MatchCard>)>) {
    forall i :: 0 <= i < |groups| ==> groups[i].1 == InRound(matches, groups[i].0) && groups[i].1 != []
  }

  /** The buckets have distinct keys, each holds exactly its round's matches, and every match has a bucket. */
  predicate Bucketed(matches: seq<MatchCard>, groups: seq<(string, seq<MatchCard>)>) {
    && Distinct(groups, (g: (string, seq<MatchCard>)) => g.0)
    && BucketsExact(matches, groups)
    && (forall j :: 0 <= j < |matches| ==> HasBucket(groups, RoundKey(matches[j].leagueRound)))
  }

  /** A key without a bucket has no matches. */
  lemma {:induction false} NoBucketNoMatches(matches: seq<MatchCard>, groups: seq<(string, seq<MatchCard>)>, key: string)
    requires forall j :: 0 <= j < |matches| ==> HasBucket(groups, RoundKey(matches[j].leagueRound))
    requires !HasBucket(groups, key)
    ensures InRound(matches, key) == []
  {
    if matches != [] {
      var front := matches[..|matches| - 1];
      assert forall j :: 0 <= j < |front| ==> front[j] == matches[j];
      NoBucketNoMatches(front, groups, key);
      assert HasBucket(groups, RoundKey(matches[|matches| - 1].leagueRound));
    }
  }

  /** Adding a match keeps the keys distinct and every bucket there was. */
  lemma AddToBucketKeys(groups: seq<(string, seq<MatchCard>)>, m: MatchCard)
    requires Distinct(groups, (g: (string, seq<MatchCard>)) => g.0)
    ensures var after := AddToBucket(groups, m);
      && Distinct(after, (g: (string, seq<MatchCard>)) => g.0)
      && |groups| <= |after|
      && (forall i :: 0 <= i < |groups| ==> after[i].0 == groups[i].0)
      && HasBucket(after, RoundKey(m.leagueRound))
  {
    var key := RoundKey(m.leagueRound);
    var after := AddToBucket(groups, m);
    match FirstIndex(groups, (g: (string, seq<MatchCard>)) => g.0 == key)
    case Some(k) =>
      DistinctUpdate(groups, k, (key, groups[k].1 + [m]), (g: (string, seq<MatchCard>)) => g.0);
      assert after[k].0 == key;
    case None =>
      DistinctAppend(groups, (key, [m]), (g: (string, seq<MatchCard>)) => g.0);
      assert after[|groups|].0 == key;
  }

  /** A bucket whose key is not the last match's is exact for the shorter list exactly when for the longer. */
  lemma OtherBucketExact(matches: seq<MatchCard>, g: (string, seq<MatchCard>))
    requires matches != [] && g.0 != RoundKey(matches[|matches| - 1].leagueRound)
    requires g.1 == InRound(matches[..|matches| - 1], g.0) && g.1 != []
    ensures g.1 == InRound(matches, g.0) && g.1 != []
  {
  }

  /** Adding the last match to its bucket keeps every bucket exact. */
  lemma AddToBucketExact(matches: seq<MatchCard>, groups: seq<(string, seq<MatchCard>)>)
    requires matches != [] && Bucketed(matches[..|matches| - 1], groups)
    ensures BucketsExact(matches, AddToBucket(groups, matches[|matches| - 1]))
  {
    var front := matches[..|matches| - 1];
    var m := matches[|matches| - 1];
    var key := RoundKey(m.leagueRound);
    var after := AddToBucket(groups, m);
    match FirstIndex(groups, (g: (string, seq<MatchCard>)) => g.0 == key)
    case Some(k) =>
      forall c | 0 <= c < |after| ensures after[c].1 == InRound(matches, after[c].0) && after[c].1 != [] {
        if c != k {
          assert groups[c].0 != groups[k].0;
          OtherBucketExact(matches, groups[c]);
        }
      }
    case None =>
      NoBucketNoMatches(front, groups, key);
      forall c | 0 <= c < |after| ensures after[c].1 == InRound(matches, after[c].0) && after[c].1 != [] {
        if c < |groups| {
          OtherBucketExact(matches, groups[c]);
        }
      }
  }

  /** Adding the last match keeps every bucketing fact. */
  lemma AddToBucketKeeps(matches: seq<MatchCard>, groups: seq<(string, seq<MatchCard>)>)
    requires matches != [] && Bucketed(matches[..|matches| - 1], groups)
    ensures Bucketed(matches, AddToBucket(groups, matches[|matches| - 1]))
  {
    var front := matches[..|matches| - 1];
    var m := matches[|matches| - 1];
    var after := AddToBucket(groups, m);
    AddToBucketKeys(groups, m);
    AddToBucketExact(matches, groups);
    forall j | 0 <= j < |matches| ensures HasBucket(after, RoundKey(matches[j].leagueRound)) {
      if j < |front| {
        assert front[j] == matches[j];
        var i :| 0 <= i < |groups| && groups[i].0 == RoundKey(front[j].leagueRound);
        assert after[i].0 == groups[i].0;
      }
    }
  }

  /**
   * Grouping puts every match in the bucket of its round key and in no other: the keys are
   * distinct, each bucket is that round's matches in input order, and no match lacks a bucket.
   */
  lemma {:induction false} GroupByRoundBucketed(matches: seq<MatchCard>)
    ensures Bucketed(matches, GroupByRound(matches))
  {
    if matches != [] {
      GroupByRoundBucketed(matches[..|matches| - 1]);
      AddToBucketKeeps(matches, GroupByRound(matches[..|matches| - 1]));
    }
  }

  /** The buckets' contents, laid end to end, hold each match once. */
  lemma {:induction false} FlattenUpdate(groups: seq<(string, seq<MatchCard>)>, k: nat, g: (string, seq<MatchCard>))
    requires k < |groups|
    ensures multiset(Flatten(groups[k := g])) == multiset(Flatten(groups)) - multiset(groups[k].1) + multiset(g.1)
  {
    var n := |groups| - 1;
    var after := groups[k := g];
    assert Flatten(groups) == Flatten(groups[..n]) + groups[n].1;
    assert Flatten(after) == Flatten(after[..n]) + after[n].1;
    if k == n {
      assert after[..n] == groups[..n];
    } else {
      assert after[..n] == groups[..n][k := g];
      assert after[n] == groups[n];
      FlattenUpdate(groups[..n], k, g);
      assert multiset(groups[k].1) <= multiset(Flatten(groups[..n])) by {
        assert groups[..n][k] == groups[k];
        FlattenHolds(groups[..n], k);
      }
    }
  }

  /** Each bucket's contents are part of the flattened contents. */
  lemma {:induction false} FlattenHolds(groups: seq<(string, seq<MatchCard>)>, k: nat)
    requires k < |groups|
    ensures multiset(groups[k].1) <= multiset(Flatten(groups))
  {
    var n := |groups| - 1;
    if k < n {
      FlattenHolds(groups[..n], k);
    }
  }

  /** The bucket contents concatenate to a rearrangement of the input. */
  lemma {:induction false} GroupByRoundPermutation(matches: seq<MatchCard>)
    ensures multiset(Flatten(GroupByRound(matches))) == multiset(matches)
  {
    if matches != [] {
      var front := matches[..|matches| - 1];
      var m := matches[|matches| - 1];
      assert matches == front + [m];
      assert GroupByRound(matches) == AddToBucket(GroupByRound(front), m);
      GroupByRoundPermutation(front);
      GroupPermStep(front, m, GroupByRound(front));
    }
  }

  /** One more match keeps the flattened buckets a rearrangement of the input. */
  lemma GroupPermStep(front: seq<MatchCard>, m: MatchCard, groups: seq<(string, seq<MatchCard>)>)
    requires multiset(Flatten(groups)) == multiset(front)
    ensures multiset(Flatten(AddToBucket(groups, m))) == multiset(front + [m])
  {
    AddToBucketFlatten(groups, m);
  }

  /** Adding a match adds it once to the flattened contents. */
  lemma AddToBucketFlatten(groups: seq<(string, seq<MatchCard>)>, m: MatchCard)
    ensures multiset(Flatten(AddToBucket(groups, m))) == multiset(Flatten(groups)) + multiset{m}
  {
    var key := RoundKey(m.leagueRound);
    match FirstIndex(groups, (g: (string, seq<MatchCard>)) => g.0 == key)
    case Some(k) =>
      FlattenHolds(groups, k);
      FlattenUpdate(groups, k, (key, groups[k].1 + [m]));
      assert multiset(groups[k].1 + [m]) == multiset(groups[k].1) + multiset{m};
    case None =>
      var after := groups + [(key, [m])];
      assert after[..|groups|] == groups;
      assert Flatten(after) == Flatten(groups) + [m];
  }

  /** The edit button of a card shows when it is still editable and not the card being edited. */
  predicate ShowsEditButton(p: PredictionCard, editing: Option<int>, now: int, instant: string -> int) {
    IsEditable(p.matchDate, now, instant) && editing != Some(p.predictionId)
  }
}
