/**
 * `POST /subscribe`: stores a browser push subscription for the caller, keyed by
 * (user, endpoint). A known key has its two keys replaced; a new key gets one new row.
 */
module PushApi {
  import opened Wrappers
  import opened Tables
  import opened Query

  /** The position of the caller's subscription for `endpoint`, if any. */
  function SubscriptionOf(subs: seq<PushSubscription>, userId: int, endpoint: string): Option<nat> {
    FirstIndex(subs, (s: PushSubscription) => s.userId == userId && s.endpoint == endpoint)
  }

  /** The subscription table after one subscribe call. */
  function Upsert(subs: seq<PushSubscription>, userId: int, endpoint: string, p256dh: string, auth: string)
    : seq<PushSubscription>
  {
    match SubscriptionOf(subs, userId, endpoint)
    case Some(k) => subs[k := subs[k].(p256dhKey := p256dh, authKey := auth)]
    case None => subs + [PushSubscription(userId, endpoint, p256dh, auth)]
  }

  /**
   * After a subscribe the table holds the payload for the caller's endpoint; with one row per
   * (user, endpoint) before, there is still one after; every other row is unchanged and in place.
   */
  lemma UpsertFacts(subs: seq<PushSubscription>, userId: int, endpoint: string, p256dh: string, auth: string)
    requires Distinct(subs, (s: PushSubscription) => (s.userId, s.endpoint))
    ensures var r := Upsert(subs, userId, endpoint, p256dh, auth);
      && PushSubscription(userId, endpoint, p256dh, auth) in r
      && Distinct(r, (s: PushSubscription) => (s.userId, s.endpoint))
      && |r| == (if SubscriptionOf(subs, userId, endpoint).Some? then |subs| else |subs| + 1)
      && forall i :: 0 <= i < |subs| && (subs[i].userId, subs[i].endpoint) != (userId, endpoint) ==> r[i] == subs[i]
  {
    var r := Upsert(subs, userId, endpoint, p256dh, auth);
    match SubscriptionOf(subs, userId, endpoint)
    case Some(k) =>
      assert r[k] == PushSubscription(userId, endpoint, p256dh, auth);
      assert forall i :: 0 <= i < |subs| && i != k ==> r[i] == subs[i];
    case None =>
      assert r[|subs|] == PushSubscription(userId, endpoint, p256dh, auth);
  }

  /** Subscribing twice with the same payload leaves the table as subscribing once. */
  lemma UpsertIdempotent(subs: seq<PushSubscription>, userId: int, endpoint: string, p256dh: string, auth: string)
    ensures var once := Upsert(subs, userId, endpoint, p256dh, auth);
            Upsert(once, userId, endpoint, p256dh, auth) == once
  {
    var once := Upsert(subs, userId, endpoint, p256dh, auth);
    match SubscriptionOf(subs, userId, endpoint)
    case Some(k) =>
      assert forall i :: 0 <= i < |once| ==> (once[i].userId == userId && once[i].endpoint == endpoint
                                              <==> subs[i].userId == userId && subs[i].endpoint == endpoint);
      assert SubscriptionOf(once, userId, endpoint) == Some(k);
    case None =>
      assert once[|subs|].userId == userId && once[|subs|].endpoint == endpoint;
      assert SubscriptionOf(once, userId, endpoint) == Some(|subs|);
  }

  /** `POST /subscribe`: update the caller's row for the endpoint in place, or add one. */
  method Subscribe(db: Db, userId: int, endpoint: string, p256dh: string, auth: string)
    requires db.Valid()
    modifies db`subscriptions
    ensures db.Valid()
    ensures db.subscriptions == Upsert(old(db.subscriptions), userId, endpoint, p256dh, auth)
  {
    UpsertFacts(db.subscriptions, userId, endpoint, p256dh, auth);
    var existing := SubscriptionOf(db.subscriptions, userId, endpoint);
    if existing.Some? {
      var k := existing.value;
      db.subscriptions := db.subscriptions[k := db.subscriptions[k].(p256dhKey := p256dh, authKey := auth)];
    } else {
      db.subscriptions := db.subscriptions + [PushSubscription(userId, endpoint, p256dh, auth)];
    }
  }
}
