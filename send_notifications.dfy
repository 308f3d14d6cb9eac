/**
 * The reminder job: for every match that kicks off within the next 24 hours, every user who
 * has not predicted it gets one push per stored subscription. The clock is the parameter
 * `now`, and each push is an element of the returned sequence instead of a network call.
 */
module Reminders {
  import opened Tables
  import opened Query
  import opened PredictionApi

  /** One `send_push_message(subscription, title, body)` call. */
  datatype Push = Push(endpoint: string, p256dh: string, auth: string, title: string, body: string)

  const Day: int := 24 * 3600

  /** `match_date BETWEEN now AND now + 24h`: both ends included. */
  predicate InWindow(m: Match, now: Instant) {
    now <= m.matchDate <= now + Day
  }

  /** The push title: a football, then the two teams. */
  function Title(m: Match): string {
    "\U{26BD} " + m.homeTeam + " vs " + m.awayTeam
  }

  const Body: string := "\U{A1}Haz tu pron\U{F3}stico antes de que comience el partido ma\U{F1}ana!"

  /** The push a subscription receives for a match. */
  function PushOf(s: PushSubscription, m: Match): Push {
    Push(s.endpoint, s.p256dhKey, s.authKey, Title(m), Body)
  }

  /** The users that have no prediction for the match, in table order. */
  function Unpredicted(users: seq<User>, preds: seq<Prediction>, matchId: int): seq<User> {
    Filter(users, (u: User) => !HasPredicted(preds, u.id, matchId))
  }

  /** The subscriptions of one user, in table order. */
  function SubscriptionsOf(subs: seq<PushSubscription>, userId: int): seq<PushSubscription> {
    Filter(subs, (s: PushSubscription) => s.userId == userId)
  }

  /** The pushes for one match to each of the given subscriptions, in order. */
  function SubPushes(subs: seq<PushSubscription>, m: Match): seq<Push> {
    if subs == [] then [] else SubPushes(subs[..|subs| - 1], m) + [PushOf(subs[|subs| - 1], m)]
  }

  /** The pushes for one match to each of the given users, user by user. */
  function UserPushes(users: seq<User>, subs: seq<PushSubscription>, m: Match): seq<Push> {
    if users == [] then []
    else UserPushes(users[..|users| - 1], subs, m) + SubPushes(SubscriptionsOf(subs, users[|users| - 1].id), m)
  }

  /** The pushes for the given matches, match by match. */
  function MatchPushes(ms: seq<Match>, users: seq<User>, preds: seq<Prediction>, subs: seq<PushSubscription>)
    : seq<Push>
  {
    if ms == [] then []
    else
      var m := ms[|ms| - 1];
      MatchPushes(ms[..|ms| - 1], users, preds, subs) + UserPushes(Unpredicted(users, preds, m.id), subs, m)
  }

  /** Everything one run of the job sends, in the order it sends it. */
  function Sends(matches: seq<Match>, users: seq<User>, preds: seq<Prediction>, subs: seq<PushSubscription>,
                 now: Instant): seq<Push>
  {
    MatchPushes(Filter(matches, (m: Match) => InWindow(m, now)), users, preds, subs)
  }

  /** The push is the one a subscription of `u` receives for `m`. */
  ghost predicate ForUser(p: Push, u: User, subs: seq<PushSubscription>, m: Match) {
    exists s :: s in subs && s.userId == u.id && p == PushOf(s, m)
  }

  /** The push is the one some user without a prediction for `m` receives for it. */
  ghost predicate ForMatch(p: Push, users: seq<User>, preds: seq<Prediction>, subs: seq<PushSubscription>, m: Match) {
    exists u :: u in users && !HasPredicted(preds, u.id, m.id) && ForUser(p, u, subs, m)
  }

  /**
   * A subscription list gets exactly one push per subscription, in list order: push i is the
   * one subscription i receives, so each of the pushes goes to one of the subscriptions and
   * each subscription gets its push.
   */
  lemma {:induction false} SubPushesExact(subs: seq<PushSubscription>, m: Match)
    ensures |SubPushes(subs, m)| == |subs|
    ensures forall i :: 0 <= i < |subs| ==> SubPushes(subs, m)[i] == PushOf(subs[i], m)
    ensures forall p :: p in SubPushes(subs, m) <==> exists s :: s in subs && p == PushOf(s, m)
  {
    if subs != [] {
      var front := subs[..|subs| - 1];
      var last := subs[|subs| - 1];
      SubPushesExact(front, m);
      var r := SubPushes(subs, m);
      assert r == SubPushes(front, m) + [PushOf(last, m)];
      forall i | 0 <= i < |subs| ensures r[i] == PushOf(subs[i], m) {
        if i < |front| {
          assert r[i] == SubPushes(front, m)[i] && subs[i] == front[i];
        }
      }
      forall p | p in r ensures exists s :: s in subs && p == PushOf(s, m) {
        var i :| 0 <= i < |r| && r[i] == p;
        assert subs[i] in subs;
      }
      forall s | s in subs ensures PushOf(s, m) in r {
        var i :| 0 <= i < |subs| && subs[i] == s;
        assert r[i] == PushOf(s, m);
      }
    }
  }

  /** The number of subscriptions the given users hold, user by user. */
  function SubscriptionCount(users: seq<User>, subs: seq<PushSubscription>): nat {
    if users == [] then 0
    else SubscriptionCount(users[..|users| - 1], subs) + |SubscriptionsOf(subs, users[|users| - 1].id)|
  }

  /** For each of the given matches, the number of subscriptions of the users without a prediction for it, summed. */
  function ReminderCount(ms: seq<Match>, users: seq<User>, preds: seq<Prediction>, subs: seq<PushSubscription>): nat {
    if ms == [] then 0
    else
      var m := ms[|ms| - 1];
      ReminderCount(ms[..|ms| - 1], users, preds, subs) + SubscriptionCount(Unpredicted(users, preds, m.id), subs)
  }

  /** A user sweep sends one push per subscription of the swept users, and no more. */
  lemma {:induction false} UserPushesCount(users: seq<User>, subs: seq<PushSubscription>, m: Match)
    ensures |UserPushes(users, subs, m)| == SubscriptionCount(users, subs)
  {
    if users != [] {
      UserPushesCount(users[..|users| - 1], subs, m);
      SubPushesExact(SubscriptionsOf(subs, users[|users| - 1].id), m);
    }
  }

  /** A match sweep sends, per match, one push per subscription of each user without a prediction. */
  lemma {:induction false} MatchPushesCount(ms: seq<Match>, users: seq<User>, preds: seq<Prediction>,
                                            subs: seq<PushSubscription>)
    ensures |MatchPushes(ms, users, preds, subs)| == ReminderCount(ms, users, preds, subs)
  {
    if ms != [] {
      var m := ms[|ms| - 1];
      MatchPushesCount(ms[..|ms| - 1], users, preds, subs);
      UserPushesCount(Unpredicted(users, preds, m.id), subs, m);
    }
  }

  /**
   * A run sends exactly one push per (match kicking off within 24 hours, user without a
   * prediction for it, subscription of that user): no duplicates on top of `SendsExact`.
   */
  lemma SendsCount(matches: seq<Match>, users: seq<User>, preds: seq<Prediction>, subs: seq<PushSubscription>,
                   now: Instant)
    ensures |Sends(matches, users, preds, subs, now)|
         == ReminderCount(Filter(matches, (m: Match) => InWindow(m, now)), users, preds, subs)
  {
    MatchPushesCount(Filter(matches, (m: Match) => InWindow(m, now)), users, preds, subs);
  }

  /** A push to one user's subscriptions goes to a subscription of that user. */
  lemma SubPushOwner(subs: seq<PushSubscription>, u: User, m: Match, p: Push)
    requires p in SubPushes(SubscriptionsOf(subs, u.id), m)
    ensures ForUser(p, u, subs, m)
  {
    var mine := SubscriptionsOf(subs, u.id);
    SubPushesExact(mine, m);
    var s :| s in mine && p == PushOf(s, m);
    var j :| 0 <= j < |mine| && mine[j] == s;
  }

  /** A push in a user sweep goes to one of those users' own subscriptions. */
  lemma {:induction false} UserPushesSound(users: seq<User>, subs: seq<PushSubscription>, m: Match, p: Push)
    requires p in UserPushes(users, subs, m)
    ensures exists u :: u in users && ForUser(p, u, subs, m)
  {
    var front := users[..|users| - 1];
    var u := users[|users| - 1];
    if p in UserPushes(front, subs, m) {
      UserPushesSound(front, subs, m, p);
      var v :| v in front && ForUser(p, v, subs, m);
      assert v in users by { assert users == front + [u]; }
    } else {
      SubPushOwner(subs, u, m, p);
    }
  }

  /** Every subscription of every swept user gets its push. */
  lemma {:induction false} UserPushesComplete(users: seq<User>, subs: seq<PushSubscription>, m: Match,
                                              u: User, s: PushSubscription)
    requires u in users && s in subs && s.userId == u.id
    ensures PushOf(s, m) in UserPushes(users, subs, m)
  {
    var front := users[..|users| - 1];
    var last := users[|users| - 1];
    assert users == front + [last];
    if u == last {
      assert s in SubscriptionsOf(subs, u.id);
      SubPushesExact(SubscriptionsOf(subs, u.id), m);
    } else {
      assert u in front;
      UserPushesComplete(front, subs, m, u, s);
    }
  }

  /** A push in a match sweep is for one of those matches and a user who has not predicted it. */
  lemma {:induction false} MatchPushesSound(ms: seq<Match>, users: seq<User>, preds: seq<Prediction>,
                                            subs: seq<PushSubscription>, p: Push)
    requires p in MatchPushes(ms, users, preds, subs)
    ensures exists m :: m in ms && ForMatch(p, users, preds, subs, m)
  {
    var front := ms[..|ms| - 1];
    var m := ms[|ms| - 1];
    assert ms == front + [m];
    if p in MatchPushes(front, users, preds, subs) {
      MatchPushesSound(front, users, preds, subs, p);
      var n :| n in front && ForMatch(p, users, preds, subs, n);
      assert n in ms;
    } else {
      var open := Unpredicted(users, preds, m.id);
      UserPushesSound(open, subs, m, p);
      var u :| u in open && ForUser(p, u, subs, m);
      assert ForMatch(p, users, preds, subs, m);
    }
  }

  /** Every subscription of every user without a prediction for a swept match gets its push. */
  lemma {:induction false} MatchPushesComplete(ms: seq<Match>, users: seq<User>, preds: seq<Prediction>,
                                               subs: seq<PushSubscription>, m: Match, u: User, s: PushSubscription)
    requires m in ms && u in users && !HasPredicted(preds, u.id, m.id) && s in subs && s.userId == u.id
    ensures PushOf(s, m) in MatchPushes(ms, users, preds, subs)
  {
    var front := ms[..|ms| - 1];
    var last := ms[|ms| - 1];
    assert ms == front + [last];
    if m == last {
      assert u in Unpredicted(users, preds, m.id);
      UserPushesComplete(Unpredicted(users, preds, m.id), subs, m, u, s);
    } else {
      assert m in front;
      MatchPushesComplete(front, users, preds, subs, m, u, s);
    }
  }

  /**
   * A run sends a push exactly for each (match kicking off within 24 hours, user without a
   * prediction for it, subscription of that user): nothing else, and none of those is missed.
   */
  lemma SendsExact(matches: seq<Match>, users: seq<User>, preds: seq<Prediction>, subs: seq<PushSubscription>,
                   now: Instant)
    ensures forall p :: p in Sends(matches, users, preds, subs, now) ==>
      exists m :: m in matches && InWindow(m, now) && ForMatch(p, users, preds, subs, m)
    ensures forall m, u, s ::
      m in matches && InWindow(m, now) && u in users && !HasPredicted(preds, u.id, m.id) && s in subs && s.userId == u.id
      ==> PushOf(s, m) in Sends(matches, users, preds, subs, now)
  {
    var window := Filter(matches, (m: Match) => InWindow(m, now));
    forall p | p in Sends(matches, users, preds, subs, now)
      ensures exists m :: m in matches && InWindow(m, now) && ForMatch(p, users, preds, subs, m)
    {
      MatchPushesSound(window, users, preds, subs, p);
      var m :| m in window && ForMatch(p, users, preds, subs, m);
    }
    forall m, u, s | m in matches && InWindow(m, now) && u in users && !HasPredicted(preds, u.id, m.id)
                     && s in subs && s.userId == u.id
      ensures PushOf(s, m) in Sends(matches, users, preds, subs, now)
    {
      MatchPushesComplete(window, users, preds, subs, m, u, s);
    }
  }

  /** Every push carries the reminder text and the title of a match in the window. */
  lemma SendsText(matches: seq<Match>, users: seq<User>, preds: seq<Prediction>, subs: seq<PushSubscription>,
                  now: Instant, p: Push)
    requires p in Sends(matches, users, preds, subs, now)
    ensures p.body == Body
    ensures exists m :: m in matches && InWindow(m, now) && p.title == Title(m)
  {
    SendsExact(matches, users, preds, subs, now);
    var m :| m in matches && InWindow(m, now) && ForMatch(p, users, preds, subs, m);
  }

  /** The innermost loop: one push per subscription of the user. */
  method PushSubscriptions(subs: seq<PushSubscription>, m: Match) returns (sent: seq<Push>)
    ensures sent == SubPushes(subs, m)
    ensures |sent| == |subs| && forall i :: 0 <= i < |subs| ==> sent[i] == PushOf(subs[i], m)
  {
    sent := [];
    var k := 0;
    while k < |subs|
      invariant 0 <= k <= |subs|
      invariant sent == SubPushes(subs[..k], m)
    {
      assert subs[..k + 1][..k] == subs[..k];
      sent := sent + [PushOf(subs[k], m)];
      k := k + 1;
    }
    assert subs[..k] == subs;
    SubPushesExact(subs, m);
  }

  /** The middle loop: the subscriptions of each user without a prediction, user by user. */
  method PushUsers(users: seq<User>, subscriptions: seq<PushSubscription>, m: Match) returns (sent: seq<Push>)
    ensures sent == UserPushes(users, subscriptions, m)
  {
    sent := [];
    var j := 0;
    while j < |users|
      invariant 0 <= j <= |users|
      invariant sent == UserPushes(users[..j], subscriptions, m)
    {
      assert users[..j + 1][..j] == users[..j];
      var pushes := PushSubscriptions(SubscriptionsOf(subscriptions, users[j].id), m);
      sent := sent + pushes;
      j := j + 1;
    }
    assert users[..j] == users;
  }

  /** The outer loop: the users without a prediction for each match, match by match. */
  method PushMatches(matches: seq<Match>, users: seq<User>, preds: seq<Prediction>, subs: seq<PushSubscription>)
    returns (sent: seq<Push>)
    ensures sent == MatchPushes(matches, users, preds, subs)
  {
    sent := [];
    var i := 0;
    while i < |matches|
      invariant 0 <= i <= |matches|
      invariant sent == MatchPushes(matches[..i], users, preds, subs)
    {
      var m := matches[i];
      assert matches[..i + 1][..i] == matches[..i] && matches[..i + 1][i] == m;
      var pushes := PushUsers(Unpredicted(users, preds, m.id), subs, m);
      sent := sent + pushes;
      i := i + 1;
    }
    assert matches[..i] == matches;
  }

  /**
   * `notify_upcoming_matches`: one sweep over the window's matches, their users and their
   * subscriptions. The pushes are the ones the script would send; the push sender it imports is
   * not defined in the repository's push module.
   */
  method NotifyUpcomingMatches(db: Db, now: Instant) returns (sent: seq<Push>)
    ensures sent == Sends(db.matches, db.users, db.predictions, db.subscriptions, now)
  {
    var matches := Filter(db.matches, (m: Match) => InWindow(m, now));
    sent := PushMatches(matches, db.users, db.predictions, db.subscriptions);
  }
}
