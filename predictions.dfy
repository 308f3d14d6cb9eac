/**
 * The user and prediction endpoints of the backend: registration, creating and editing a
 * prediction, the list of matches still open to the caller and the caller's point total.
 * The caller's identity comes from the bearer token and is a parameter here.
 */
module PredictionApi {
  import opened Wrappers
  import opened Tables
  import opened Query
  import opened Sorting

  /** `POST /users/`: 400 when the email is taken; otherwise one user row with the hashed password. */
  method CreateUser(db: Db, name: string, email: string, password: string, hash: string -> string)
    returns (status: int, user: Option<User>)
    requires db.Valid()
    modifies db`users, db`nextId
    ensures db.Valid()
    ensures (exists i :: 0 <= i < |old(db.users)| && old(db.users)[i].email == email) ==>
      status == 400 && user == None && db.users == old(db.users)
    ensures (forall i :: 0 <= i < |old(db.users)| ==> old(db.users)[i].email != email) ==>
      && status == 200
      && user == Some(User(old(db.nextId), name, email, hash(password)))
      && db.users == old(db.users) + [user.value]
  {
    var existing := FirstIndex(db.users, (u: User) => u.email == email);
    if existing.Some? {
      return 400, None;
    }
    var u := User(db.nextId, name, email, hash(password));
    DistinctAppend(db.users, u, (u: User) => u.id);
    DistinctAppend(db.users, u, (u: User) => u.email);
    db.users := db.users + [u];
    db.nextId := db.nextId + 1;
    status, user := 200, Some(u);
  }

  /**
   * `POST /predictions/`: 404 for an unknown match, 400 when the caller already predicted
   * it; otherwise one new prediction with 0 points. The kickoff time is not consulted.
   */
  method CreatePrediction(db: Db, userId: int, matchId: int, predHome: int, predAway: int)
    returns (status: int, created: Option<Prediction>)
    requires db.Valid()
    modifies db`predictions, db`nextId
    ensures db.Valid()
    ensures status == 200 <==>
      && (exists i :: 0 <= i < |db.matches| && db.matches[i].id == matchId)
      && (forall i :: 0 <= i < |old(db.predictions)| ==>
            (old(db.predictions)[i].userId, old(db.predictions)[i].matchId) != (userId, matchId))
    ensures status != 200 ==> created == None && db.predictions == old(db.predictions)
    ensures status == 404 <==> forall i :: 0 <= i < |db.matches| ==> db.matches[i].id != matchId
    ensures status in {200, 400, 404}
    ensures status == 200 ==>
      && created == Some(Prediction(old(db.nextId), userId, matchId, predHome, predAway, 0))
      && db.predictions == old(db.predictions) + [created.value]
  {
    var m := FirstIndex(db.matches, (m: Match) => m.id == matchId);
    if m.None? {
      return 404, None;
    }
    var existing := FirstIndex(db.predictions, (p: Prediction) => p.userId == userId && p.matchId == matchId);
    if existing.Some? {
      return 400, None;
    }
    var p := Prediction(db.nextId, userId, matchId, predHome, predAway, 0);
    DistinctAppend(db.predictions, p, (p: Prediction) => p.id);
    DistinctAppend(db.predictions, p, (p: Prediction) => (p.userId, p.matchId));
    db.predictions := db.predictions + [p];
    db.nextId := db.nextId + 1;
    status, created := 200, Some(p);
  }

  /**
   * `PUT /predictions/{id}`: 404 for an unknown prediction, 403 when it is someone else's,
   * 404 when its match is gone, 400 once the match has started (`match_date <= now`);
   * otherwise replaces the two predicted goals and resets the points to 0.
   */
  method UpdatePrediction(db: Db, userId: int, predictionId: int, predHome: int, predAway: int, now: Instant)
    returns (status: int)
    requires db.Valid()
    modifies db`predictions
    ensures db.Valid()
    ensures status != 200 ==> db.predictions == old(db.predictions)
    ensures var preds := old(db.predictions);
      var k := FirstIndex(preds, (p: Prediction) => p.id == predictionId);
      && (k.None? ==> status == 404)
      && (k.Some? && preds[k.value].userId != userId ==> status == 403)
      && (k.Some? && preds[k.value].userId == userId ==>
            var matchId := preds[k.value].matchId;
            var m := FirstIndex(db.matches, (m: Match) => m.id == matchId);
            && (m.None? ==> status == 404)
            && (m.Some? && db.matches[m.value].matchDate <= now ==> status == 400)
            && (m.Some? && db.matches[m.value].matchDate > now ==>
                  && status == 200
                  && db.predictions == preds[k.value := preds[k.value].(
                       predHome := predHome, predAway := predAway, points := 0)]))
  {
    var k := FirstIndex(db.predictions, (p: Prediction) => p.id == predictionId);
    if k.None? {
      return 404;
    }
    var pred := db.predictions[k.value];
    if pred.userId != userId {
      return 403;
    }
    var m := FirstIndex(db.matches, (m: Match) => m.id == pred.matchId);
    if m.None? {
      return 404;
    }
    if db.matches[m.value].matchDate <= now {
      return 400;
    }
    var edited := pred.(predHome := predHome, predAway := predAway, points := 0);
    DistinctUpdate(db.predictions, k.value, edited, (p: Prediction) => p.id);
    DistinctUpdate(db.predictions, k.value, edited, (p: Prediction) => (p.userId, p.matchId));
    db.predictions := db.predictions[k.value := edited];
    status := 200;
  }

  predicate HasPredicted(preds: seq<Prediction>, userId: int, matchId: int) {
    exists i :: 0 <= i < |preds| && preds[i].userId == userId && preds[i].matchId == matchId
  }

  predicate Open(m: Match, preds: seq<Prediction>, userId: int, now: Instant) {
    m.matchDate > now && !HasPredicted(preds, userId, m.id)
  }

  /**
   * `GET /available-matches/`: the matches that have not started and that the caller has
   * not predicted, earliest first (rows with the same kickoff stay in table order).
   */
  function AvailableMatches(matches: seq<Match>, preds: seq<Prediction>, userId: int, now: Instant)
    : (r: seq<Match>)
    ensures forall i :: 0 <= i < |r| ==> r[i] in matches && Open(r[i], preds, userId, now)
    ensures forall i :: 0 <= i < |matches| && Open(matches[i], preds, userId, now) ==> matches[i] in r
    ensures multiset(r) == multiset(Filter(matches, (m: Match) => Open(m, preds, userId, now)))
    ensures forall i, j :: 0 <= i < j < |r| ==> r[i].matchDate <= r[j].matchDate
  {
    var open := Filter(matches, (m: Match) => Open(m, preds, userId, now));
    var byDate := (a: Match, b: Match) => a.matchDate <= b.matchDate;
    SortBySorted(open, byDate);
    SortByMembers(open, byDate);
    SortBy(open, byDate)
  }

  /** `GET /me`: the sum of the caller's prediction points (0 when there are none). */
  function ProfileTotal(preds: seq<Prediction>, userId: int): int {
    if preds == [] then 0
    else (if preds[0].userId == userId then preds[0].points else 0) + ProfileTotal(preds[1..], userId)
  }

  /** With points 0, 1 or 3 per prediction, the total lies between 0 and 3 per prediction made. */
  lemma {:induction false} ProfileTotalBounds(preds: seq<Prediction>, userId: int)
    requires forall i :: 0 <= i < |preds| ==> preds[i].points in {0, 1, 3}
    ensures 0 <= ProfileTotal(preds, userId) <= 3 * Count(preds, (p: Prediction) => p.userId == userId)
  {
    if preds != [] {
      ProfileTotalBounds(preds[1..], userId);
    }
  }

  lemma {:induction false} ProfileTotalAppend(a: seq<Prediction>, b: seq<Prediction>, userId: int)
    ensures ProfileTotal(a + b, userId) == ProfileTotal(a, userId) + ProfileTotal(b, userId)
  {
    if a == [] {
      assert a + b == b;
    } else {
      assert (a + b)[1..] == a[1..] + b;
      ProfileTotalAppend(a[1..], b, userId);
    }
  }

  /** A new prediction starts at 0 points, so creating one leaves every user's total as it was. */
  lemma NewPredictionKeepsTotals(preds: seq<Prediction>, p: Prediction, userId: int)
    requires p.points == 0
    ensures ProfileTotal(preds + [p], userId) == ProfileTotal(preds, userId)
  {
    ProfileTotalAppend(preds, [p], userId);
  }
}
