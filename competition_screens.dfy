/**
 * The two competition screens of the client: the dashboard's list of the caller's
 * competitions (with deletion) and the join page (public competitions not yet joined, and
 * joining by invite code or directly). A request's outcome and the confirmation dialog's
 * answer are parameters; alerts, navigation and the timer are left out.
 */
module CompetitionScreens {
  import opened Wrappers
  import opened JsValues
  import opened Query
  import opened Tables
  import opened CompetitionApi

  /** The invite code is shown on a card exactly when the competition is private. */
  predicate ShowsInviteCode(c: CompetitionStats) {
    !c.isPublic
  }

  /** The delete button is shown on a card exactly when the caller created the competition. */
  predicate ShowsDeleteButton(c: CompetitionStats) {
    c.isCreator
  }

  /** The dashboard's cards after a successful delete: every card with that id goes, the rest stay in order (`WithoutCompetitionOrder`). */
  function WithoutCompetition(cards: seq<CompetitionStats>, competitionId: int): (r: seq<CompetitionStats>)
    ensures forall c :: c in r <==> c in cards && c.id != competitionId
    ensures multiset(r) <= multiset(cards)
  {
    FilterSubMultiset(cards, (c: CompetitionStats) => c.id != competitionId);
    Filter(cards, (c: CompetitionStats) => c.id != competitionId)
  }

  /**
   * The remaining cards keep their order: removing from two batches is removing from each in
   * turn, and a single card stays exactly when its id differs.
   */
  lemma WithoutCompetitionOrder(a: seq<CompetitionStats>, b: seq<CompetitionStats>, competitionId: int)
    ensures WithoutCompetition(a + b, competitionId)
         == WithoutCompetition(a, competitionId) + WithoutCompetition(b, competitionId)
    ensures forall c :: WithoutCompetition([c], competitionId) == if c.id != competitionId then [c] else []
  {
    var p := (c: CompetitionStats) => c.id != competitionId;
    FilterAppend(a, b, p);
    forall c ensures Filter([c], p) == if p(c) then [c] else [] {
      assert [c][1..] == [];
    }
  }

  /**
   * A card built by the server shows its private code and its delete button exactly as the
   * competition says; and pressing a shown delete button gets past both of the server's
   * refusals (no such competition, not its creator).
   */
  lemma CardsAgreeWithServer(comps: seq<Competition>, users: seq<User>, members: seq<CompetitionMember>,
                             matches: seq<Match>, leagues: seq<CompetitionLeague>, preds: seq<Prediction>,
                             userId: int, c: Competition)
    requires Distinct(comps, (x: Competition) => x.id) && c in comps
    ensures var card := StatsOf(users, members, matches, leagues, preds, userId, c);
      && (ShowsInviteCode(card) <==> !c.isPublic)
      && (ShowsInviteCode(card) ==> card.inviteCode == c.code)
      && (ShowsDeleteButton(card) <==> c.creatorId == userId)
    ensures var card := StatsOf(users, members, matches, leagues, preds, userId, c);
      var k := FirstIndex(comps, (x: Competition) => x.id == card.id);
      ShowsDeleteButton(card) ==> k.Some? && comps[k.value].creatorId == userId
  {
    var k := FirstIndex(comps, (x: Competition) => x.id == c.id);
    var j :| 0 <= j < |comps| && comps[j] == c;
    assert k.Some?;
    assert comps[k.value] == c by {
      assert comps[k.value].id == comps[j].id;
    }
  }

  /** The dashboard's list of the caller's competitions. */
  class Dashboard {
    var cards: seq<CompetitionStats>

    constructor ()
      ensures cards == []
    {
      cards := [];
    }

    /**
     * `handleDeleteCompetition`: a declined confirmation sends nothing; otherwise the request
     * goes out, and once it succeeds every card with that id leaves the list.
     */
    method Delete(competitionId: int, confirmed: bool, ok: bool) returns (requested: bool)
      modifies this`cards
      ensures requested == confirmed
      ensures cards == if confirmed && ok then WithoutCompetition(old(cards), competitionId) else old(cards)
    {
      if !confirmed {
        return false;
      }
      requested := true;
      if ok {
        cards := WithoutCompetition(cards, competitionId);
      }
    }
  }

  /** `xs.includes(v)`: the ids and codes compared here are numbers and strings, compared by value and type. */
  predicate Includes(xs: seq<JsValue>, v: JsValue) {
    exists i :: 0 <= i < |xs| && xs[i] == v
  }

  /** `inscritas.data.map((c) => c.id)`: the enrolled ids, as JavaScript numbers. */
  function EnrolledIds(enrolled: seq<CompetitionStats>): (ids: seq<JsValue>)
    ensures |ids| == |enrolled|
    ensures forall i :: 0 <= i < |ids| ==> ids[i] == Num(enrolled[i].id)
  {
    seq(|enrolled|, i requires 0 <= i < |enrolled| => Num(enrolled[i].id))
  }

  /** The public competitions whose id is not among the enrolled ones, in the order received. */
  function NotEnrolled(publics: seq<Listing>, enrolled: seq<CompetitionStats>): (r: seq<Listing>)
    ensures forall l :: l in r <==> l in publics && forall i :: 0 <= i < |enrolled| ==> enrolled[i].id != l.competition.id
  {
    var ids := EnrolledIds(enrolled);
    var p := (l: Listing) => !Includes(ids, Num(l.competition.id));
    assert forall l: Listing :: p(l) <==> forall i :: 0 <= i < |enrolled| ==> enrolled[i].id != l.competition.id by {
      forall l: Listing ensures p(l) <==> forall i :: 0 <= i < |enrolled| ==> enrolled[i].id != l.competition.id {
        if !p(l) {
          var i :| 0 <= i < |ids| && ids[i] == Num(l.competition.id);
          assert enrolled[i].id == l.competition.id;
        }
      }
    }
    Filter(publics, p)
  }

  /**
   * The remaining public competitions keep the order received: the list is cut batch by batch,
   * and a single entry stays exactly when no enrolled competition has its id.
   */
  lemma NotEnrolledOrder(a: seq<Listing>, b: seq<Listing>, enrolled: seq<CompetitionStats>)
    ensures NotEnrolled(a + b, enrolled) == NotEnrolled(a, enrolled) + NotEnrolled(b, enrolled)
    ensures forall l :: (NotEnrolled([l], enrolled)
                         == if forall i :: 0 <= i < |enrolled| ==> enrolled[i].id != l.competition.id then [l] else [])
  {
    var ids := EnrolledIds(enrolled);
    var p := (l: Listing) => !Includes(ids, Num(l.competition.id));
    FilterAppend(a, b, p);
    forall l ensures (NotEnrolled([l], enrolled)
                      == if forall i :: 0 <= i < |enrolled| ==> enrolled[i].id != l.competition.id then [l] else [])
    {
      assert [l][1..] == [];
      assert Filter([l], p) == if p(l) then [l] else [];
    }
  }

  /** The outcomes of a join attempt on the page. */
  datatype JoinAttempt =
    | NoRequest          // nothing typed
    | AlreadyEnrolled    // refused locally
    | Joined(path: string)  // request sent and accepted; the success callback is scheduled
    | Failed(path: string)  // request sent and refused

  const JoinPath: string := "/competitions/join/"

  /** What a request to join by `code` ends in. */
  function Sent(code: string, ok: bool): (a: JoinAttempt)
    ensures a.Joined? || a.Failed?
    ensures a.Joined? <==> ok
    ensures |a.path| == |JoinPath| + |code|
    ensures a.path[|JoinPath|..] == code && a.path[..|JoinPath|] == JoinPath
  {
    if ok then Joined(JoinPath + code) else Failed(JoinPath + code)
  }

  /** The join page: public competitions still open to the caller, the enrolled ids and the typed code. */
  class JoinPage {
    var publicList: seq<Listing>
    var enrolledIds: seq<JsValue>
    var enrolledCodes: seq<string>
    var typedCode: string

    constructor ()
      ensures publicList == [] && enrolledIds == [] && enrolledCodes == [] && typedCode == ""
    {
      publicList := [];
      enrolledIds := [];
      enrolledCodes := [];
      typedCode := "";
    }

    /**
     * The page's two fetches: the caller's competitions (their ids, and their codes for the
     * corrected guard), then the public ones minus those; a failed fetch stops there.
     */
    method Load(enrolled: Option<seq<CompetitionStats>>, publics: Option<seq<Listing>>)
      modifies this`publicList, this`enrolledIds, this`enrolledCodes
      ensures enrolled.None? ==> publicList == old(publicList) && enrolledIds == old(enrolledIds)
                                 && enrolledCodes == old(enrolledCodes)
      ensures enrolled.Some? ==> enrolledIds == EnrolledIds(enrolled.value)
      ensures enrolled.Some? ==> (|enrolledCodes| == |enrolled.value|
        && forall i :: 0 <= i < |enrolledCodes| ==> enrolledCodes[i] == enrolled.value[i].inviteCode)
      ensures enrolled.Some? && publics.Some? ==> publicList == NotEnrolled(publics.value, enrolled.value)
      ensures enrolled.Some? && publics.None? ==> publicList == old(publicList)
    {
      if enrolled.None? {
        return;
      }
      var mine := enrolled.value;
      enrolledIds := EnrolledIds(mine);
      enrolledCodes := seq(|mine|, i requires 0 <= i < |mine| => mine[i].inviteCode);
      if publics.Some? {
        publicList := NotEnrolled(publics.value, mine);
      }
    }

    /** Typing into the code field. */
    method Type(text: string)
      modifies this`typedCode
      ensures typedCode == text
    {
      typedCode := text;
    }

    /**
     * `unirsePorCodigo`, as written: nothing for an empty code; a refusal when the typed code
     * is among the enrolled ids; otherwise the request for that code.
     */
    method JoinByCode(ok: bool) returns (attempt: JoinAttempt)
      ensures typedCode == "" ==> attempt == NoRequest
      ensures typedCode != "" && Includes(enrolledIds, Str(typedCode)) ==> attempt == AlreadyEnrolled
      ensures typedCode != "" && !Includes(enrolledIds, Str(typedCode)) ==> attempt == Sent(typedCode, ok)
    {
      if typedCode == "" {
        return NoRequest;
      }
      if Includes(enrolledIds, Str(typedCode)) {
        return AlreadyEnrolled;
      }
      return Sent(typedCode, ok);
    }

    /** `unirsePorCodigo` with the guard it evidently intends: the typed code against the enrolled codes. */
    method JoinByCodeIntended(ok: bool) returns (attempt: JoinAttempt)
      ensures typedCode == "" ==> attempt == NoRequest
      ensures typedCode != "" && typedCode in enrolledCodes ==> attempt == AlreadyEnrolled
      ensures typedCode != "" && typedCode !in enrolledCodes ==> attempt == Sent(typedCode, ok)
    {
      if typedCode == "" {
        return NoRequest;
      }
      if typedCode in enrolledCodes {
        return AlreadyEnrolled;
      }
      return Sent(typedCode, ok);
    }

    /** `unirseDirecto`: a refusal when the competition's id is enrolled; otherwise the request for its code. */
    method JoinDirect(code: string, competitionId: int, ok: bool) returns (attempt: JoinAttempt)
      ensures Includes(enrolledIds, Num(competitionId)) ==> attempt == AlreadyEnrolled
      ensures !Includes(enrolledIds, Num(competitionId)) ==> attempt == Sent(code, ok)
    {
      if Includes(enrolledIds, Num(competitionId)) {
        return AlreadyEnrolled;
      }
      return Sent(code, ok);
    }
  }

  /** The ids the page loads are numbers, so the as-written code guard never matches a typed code. */
  lemma CodeGuardNeverFires(enrolled: seq<CompetitionStats>, code: string)
    ensures !Includes(EnrolledIds(enrolled), Str(code))
  {
  }

  /**
   * User 1, a member of private competition 7 with code "abcd1234", types that code: the
   * as-written guard lets it through although the server answers 400 for it (the code is
   * found and the caller is already a member), while the intended guard refuses it.
   */
  lemma CodeGuardCounterexample()
    ensures var comp := Competition(7, "Amigos", "abcd1234", false, 2);
            var members := [CompetitionMember(1, 7)];
            var card := CompetitionStats(7, "Amigos", false, "abcd1234", 1, Some(1), 0, [], false);
      && !Includes(EnrolledIds([card]), Str("abcd1234"))
      && "abcd1234" in [card.inviteCode]
      && FirstIndex([comp], (c: Competition) => c.code == "abcd1234") == Some(0)
      && IsMember(members, 1, comp.id)
  {
    var comp := Competition(7, "Amigos", "abcd1234", false, 2);
    var card := CompetitionStats(7, "Amigos", false, "abcd1234", 1, Some(1), 0, [], false);
    CodeGuardNeverFires([card], "abcd1234");
    assert [comp][0].code == "abcd1234";
  }

  /**
   * With the caller's competitions loaded, the intended guard refuses a code exactly when the
   * server would answer 400 for it: the code belongs to a competition the caller is a member of.
   */
  lemma IntendedGuardAgreesWithServer(comps: seq<Competition>, members: seq<CompetitionMember>, userId: int,
                                      codes: seq<string>, code: string)
    requires Distinct(comps, (c: Competition) => c.code)
    requires var mine := MyCompetitions(comps, members, userId);
             |codes| == |mine| && forall i :: 0 <= i < |codes| ==> codes[i] == mine[i].code
    ensures code in codes <==>
      match FirstIndex(comps, (c: Competition) => c.code == code)
      case None => false
      case Some(k) => IsMember(members, userId, comps[k].id)
  {
    var found := FirstIndex(comps, (c: Competition) => c.code == code);
    if code in codes {
      TypedCodeIsMine(comps, members, userId, codes, code);
    }
    if found.Some? && IsMember(members, userId, comps[found.value].id) {
      MyCodeIsTyped(comps, members, userId, codes, found.value);
    }
  }

  /** A loaded code belongs to the first competition with that code, which is the caller's. */
  lemma TypedCodeIsMine(comps: seq<Competition>, members: seq<CompetitionMember>, userId: int,
                        codes: seq<string>, code: string)
    requires Distinct(comps, (c: Competition) => c.code)
    requires var mine := MyCompetitions(comps, members, userId);
             |codes| == |mine| && forall i :: 0 <= i < |codes| ==> codes[i] == mine[i].code
    requires code in codes
    ensures var found := FirstIndex(comps, (c: Competition) => c.code == code);
      found.Some? && IsMember(members, userId, comps[found.value].id)
  {
    var mine := MyCompetitions(comps, members, userId);
    var i :| 0 <= i < |codes| && codes[i] == code;
    assert mine[i] in comps && IsMember(members, userId, mine[i].id);
    var j :| 0 <= j < |comps| && comps[j] == mine[i];
    assert comps[j].code == code;
    var found := FirstIndex(comps, (c: Competition) => c.code == code);
    assert found.Some?;
    var k := found.value;
    assert comps[j].code == comps[k].code;
    assert j == k;
    assert IsMember(members, userId, comps[k].id);
  }

  /** The code of a competition the caller belongs to is among the loaded codes. */
  lemma MyCodeIsTyped(comps: seq<Competition>, members: seq<CompetitionMember>, userId: int,
                      codes: seq<string>, k: nat)
    requires var mine := MyCompetitions(comps, members, userId);
             |codes| == |mine| && forall i :: 0 <= i < |codes| ==> codes[i] == mine[i].code
    requires k < |comps| && IsMember(members, userId, comps[k].id)
    ensures comps[k].code in codes
  {
    var mine := MyCompetitions(comps, members, userId);
    assert comps[k] in mine;
    var i :| 0 <= i < |mine| && mine[i] == comps[k];
    assert codes[i] == comps[k].code;
  }
}
