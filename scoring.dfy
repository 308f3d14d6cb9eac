/**
 * Scoring of predictions once a match result is known (the backend's
 * `PUT /matches/{match_id}/result`): 3 points for the exact score, 1 for the right
 * outcome, 0 otherwise, applied to every prediction of that match.
 */
module Scoring {
  import opened Wrappers
  import opened Tables
  import opened Query

  datatype Outcome = HomeWin | AwayWin | Draw

  function OutcomeOf(home: int, away: int): Outcome {
    if home > away then HomeWin else if home < away then AwayWin else Draw
  }

  /** The points a prediction earns against a final score. */
  function Points(predHome: int, predAway: int, scoreHome: int, scoreAway: int): (p: int)
    ensures p in {0, 1, 3}
    ensures p == 3 <==> predHome == scoreHome && predAway == scoreAway
    ensures p == 1 <==> !(predHome == scoreHome && predAway == scoreAway)
                        && OutcomeOf(predHome, predAway) == OutcomeOf(scoreHome, scoreAway)
    ensures p == 0 <==> OutcomeOf(predHome, predAway) != OutcomeOf(scoreHome, scoreAway)
  {
    if predHome == scoreHome && predAway == scoreAway then 3
    else if (predHome > predAway && scoreHome > scoreAway)
         || (predHome < predAway && scoreHome < scoreAway)
         || (predHome == predAway && scoreHome == scoreAway) then 1
    else 0
  }

  /** The prediction table after scoring every prediction of `matchId`. */
  function Rescore(preds: seq<Prediction>, matchId: int, scoreHome: int, scoreAway: int)
    : (r: seq<Prediction>)
    ensures |r| == |preds|
    ensures forall i :: 0 <= i < |r| ==> r[i].(points := preds[i].points) == preds[i]
    ensures forall i :: 0 <= i < |r| && preds[i].matchId != matchId ==> r[i] == preds[i]
    ensures forall i :: 0 <= i < |r| && preds[i].matchId == matchId ==>
              r[i].points == Points(preds[i].predHome, preds[i].predAway, scoreHome, scoreAway)
  {
    if preds == [] then []
    else Rescore(preds[..|preds| - 1], matchId, scoreHome, scoreAway)
         + [ScoreOne(preds[|preds| - 1], matchId, scoreHome, scoreAway)]
  }

  function ScoreOne(p: Prediction, matchId: int, scoreHome: int, scoreAway: int): Prediction {
    if p.matchId == matchId then p.(points := Points(p.predHome, p.predAway, scoreHome, scoreAway))
    else p
  }

  /** Posting the same result twice scores like posting it once. */
  lemma RescoreIdempotent(preds: seq<Prediction>, matchId: int, scoreHome: int, scoreAway: int)
    ensures Rescore(Rescore(preds, matchId, scoreHome, scoreAway), matchId, scoreHome, scoreAway)
         == Rescore(preds, matchId, scoreHome, scoreAway)
  {
  }

  /** A corrected result replaces the earlier scoring entirely. */
  lemma RescoreLastWins(preds: seq<Prediction>, matchId: int, h1: int, a1: int, h2: int, a2: int)
    ensures Rescore(Rescore(preds, matchId, h1, a1), matchId, h2, a2) == Rescore(preds, matchId, h2, a2)
  {
  }

  lemma RescoreKeepsValid(preds: seq<Prediction>, matchId: int, h: int, a: int, next: int)
    requires IdsBelow(preds, (p: Prediction) => p.id, next)
    requires Distinct(preds, (p: Prediction) => p.id)
    requires Distinct(preds, (p: Prediction) => (p.userId, p.matchId))
    requires forall i :: 0 <= i < |preds| ==> preds[i].points in {0, 1, 3}
    ensures var r := Rescore(preds, matchId, h, a);
      && IdsBelow(r, (p: Prediction) => p.id, next)
      && Distinct(r, (p: Prediction) => p.id)
      && Distinct(r, (p: Prediction) => (p.userId, p.matchId))
      && (forall i :: 0 <= i < |r| ==> r[i].points in {0, 1, 3})
  {
    var r := Rescore(preds, matchId, h, a);
    assert forall i :: 0 <= i < |r| ==> r[i].id == preds[i].id && r[i].userId == preds[i].userId
                                        && r[i].matchId == preds[i].matchId;
  }

  /** The points the scoring loop gives one prediction, computed as the endpoint does. */
  method PointsFor(pred: Prediction, scoreHome: int, scoreAway: int) returns (points: int)
    ensures points == Points(pred.predHome, pred.predAway, scoreHome, scoreAway)
  {
    points := 0;
    if pred.predHome == scoreHome && pred.predAway == scoreAway {
      points := 3;
    } else if (pred.predHome > pred.predAway && scoreHome > scoreAway)
           || (pred.predHome < pred.predAway && scoreHome < scoreAway)
           || (pred.predHome == pred.predAway && scoreHome == scoreAway) {
      points := 1;
    }
  }

  /**
   * The scoring loop of `update_match_result`: walks the prediction rows, giving each
   * prediction of `matchId` its points, and counts them.
   */
  method ScorePredictions(preds: seq<Prediction>, matchId: int, scoreHome: int, scoreAway: int)
    returns (scored: seq<Prediction>, rescored: nat)
    ensures scored == Rescore(preds, matchId, scoreHome, scoreAway)
    ensures rescored == Count(preds, (p: Prediction) => p.matchId == matchId)
  {
    scored := preds;
    rescored := 0;
    var i := 0;
    while i < |scored|
      invariant |scored| == |preds| && 0 <= i <= |preds|
      invariant forall j :: 0 <= j < i ==> scored[j] == ScoreOne(preds[j], matchId, scoreHome, scoreAway)
      invariant forall j :: i <= j < |preds| ==> scored[j] == preds[j]
      invariant rescored == Count(preds[..i], (p: Prediction) => p.matchId == matchId)
    {
      var pred := scored[i];
      if pred.matchId == matchId {
        var points := PointsFor(pred, scoreHome, scoreAway);
        scored := scored[i := pred.(points := points)];
        rescored := rescored + 1;
      }
      assert preds[..i + 1] == preds[..i] + [preds[i]];
      CountSnoc(preds[..i], preds[i], (p: Prediction) => p.matchId == matchId);
      i := i + 1;
    }
    assert preds[..i] == preds;
    var r := Rescore(preds, matchId, scoreHome, scoreAway);
    assert forall j :: 0 <= j < |r| ==> r[j] == ScoreOne(preds[j], matchId, scoreHome, scoreAway);
  }

  /**
   * `update_match_result`: 404 for an unknown match; otherwise stores the score on the
   * match and rescores every prediction of that match, reporting how many.
   */
  method UpdateMatchResult(db: Db, matchId: int, scoreHome: int, scoreAway: int)
    returns (status: int, rescored: nat)
    requires db.Valid()
    modifies db`matches, db`predictions
    ensures db.Valid()
    ensures FirstIndex(old(db.matches), (m: Match) => m.id == matchId).None? ==>
      status == 404 && db.matches == old(db.matches) && db.predictions == old(db.predictions)
    ensures FirstIndex(old(db.matches), (m: Match) => m.id == matchId).Some? ==>
      var k := FirstIndex(old(db.matches), (m: Match) => m.id == matchId).value;
      && status == 200
      && db.matches == old(db.matches)[k := old(db.matches)[k].(scoreHome := Some(scoreHome),
                                                              scoreAway := Some(scoreAway))]
      && db.predictions == Rescore(old(db.predictions), matchId, scoreHome, scoreAway)
      && rescored == Count(old(db.predictions), (p: Prediction) => p.matchId == matchId)
  {
    var found := FirstIndex(db.matches, (m: Match) => m.id == matchId);
    if found.None? {
      return 404, 0;
    }
    var k := found.value;
    var updated := db.matches[k].(scoreHome := Some(scoreHome), scoreAway := Some(scoreAway));
    DistinctUpdate(db.matches, k, updated, (m: Match) => m.id);
    RescoreKeepsValid(db.predictions, matchId, scoreHome, scoreAway, db.nextId);
    var scored;
    scored, rescored := ScorePredictions(db.predictions, matchId, scoreHome, scoreAway);
    db.matches, db.predictions := db.matches[k := updated], scored;
    status := 200;
  }
}
