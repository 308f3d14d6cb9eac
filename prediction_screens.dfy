/**
 * The state the prediction screens keep and the handlers that update it. The match list
 * (the prediction centre and the available-matches page) shrinks as predictions are sent;
 * the prediction list (the prediction centre and the my-predictions page) is edited in
 * place. A request's outcome is the parameter `ok`; alerts and console output are left out.
 */
module PredictionScreens {
  import opened Wrappers
  import opened JsValues
  import opened Sorting
  import opened MatchViews

  const AllMatches: string := "/available-matches/"
  const EveryCompetition: string := "todas"

  /** The address the match list is fetched from: every match, or one competition's. */
  function Endpoint(selection: string): (path: string)
    ensures |path| >= |AllMatches| && path[..|AllMatches|] == AllMatches
    ensures selection == EveryCompetition ==> path == AllMatches
    ensures selection != EveryCompetition ==> path[|AllMatches|..] == selection
  {
    if selection == EveryCompetition then AllMatches else AllMatches + selection
  }

  /** The list of matches still to predict, and the competition it is fetched for. */
  class MatchBoard {
    var matches: seq<MatchCard>
    var selection: string

    /** Every listed match kicks off no later than `limit`. */
    ghost predicate InWindow(limit: int, instant: string -> int)
      reads this
    {
      forall i :: 0 <= i < |matches| ==> instant(matches[i].matchDate) <= limit
    }

    /** An empty list for every competition. */
    constructor ()
      ensures matches == [] && selection == EveryCompetition
    {
      matches := [];
      selection := EveryCompetition;
    }

    /** Picking a competition in the selector; the next fetch uses its address. */
    method Select(value: string)
      modifies this`selection
      ensures selection == value
    {
      selection := value;
    }

    /** A fetched list is cut to the matches of the next eight days, in the order received. */
    method Load(fetched: seq<MatchCard>, now: int, instant: string -> int)
      modifies this`matches
      ensures matches == WithinWindow(fetched, WindowEnd(now), instant)
      ensures InWindow(WindowEnd(now), instant)
    {
      matches := WithinWindow(fetched, WindowEnd(now), instant);
    }

    /**
     * `handleSubmit`: after the prediction is accepted the match leaves the list; after a
     * failure the list stays. Either way the list stays inside the window.
     */
    method Submit(matchId: int, ok: bool, ghost limit: int, ghost instant: string -> int)
      modifies this`matches
      ensures matches == if ok then RemoveMatch(old(matches), matchId) else old(matches)
      ensures old(InWindow(limit, instant)) ==> InWindow(limit, instant)
      ensures forall m :: m in matches ==> m.matchId != matchId || !ok
    {
      if ok {
        matches := RemoveMatch(matches, matchId);
      }
    }
  }

  /** The caller's predictions, the one being edited and the two input fields. */
  class PredictionEditor {
    var predictions: seq<PredictionCard>
    var editing: Option<int>
    var editHome: JsValue
    var editAway: JsValue

    /** The list is in kickoff order. */
    ghost predicate InKickoffOrder(instant: string -> int)
      reads this
    {
      forall i, j :: 0 <= i < j < |predictions| ==> instant(predictions[i].matchDate) <= instant(predictions[j].matchDate)
    }

    /** No prediction listed, none being edited, empty fields. */
    constructor ()
      ensures predictions == [] && editing == None && editHome == Str("") && editAway == Str("")
    {
      predictions := [];
      editing := None;
      editHome := Str("");
      editAway := Str("");
    }

    /** The fetched predictions, earliest kickoff first. */
    method Load(fetched: seq<PredictionCard>, instant: string -> int)
      modifies this`predictions
      ensures predictions == SortByKickoff(fetched, instant)
      ensures multiset(predictions) == multiset(fetched) && InKickoffOrder(instant)
    {
      predictions := SortByKickoff(fetched, instant);
    }

    /** `handleEditClick`: that prediction is being edited, its guesses copied into the fields. */
    method EditClick(p: PredictionCard)
      modifies this`editing, this`editHome, this`editAway
      ensures editing == Some(p.predictionId) && editHome == p.predHome && editAway == p.predAway
    {
      editing := Some(p.predictionId);
      editHome := p.predHome;
      editAway := p.predAway;
    }

    /** Typing into the home field stores the text as typed. */
    method TypeHome(text: string)
      modifies this`editHome
      ensures editHome == Str(text)
    {
      editHome := Str(text);
    }

    /** Typing into the away field stores the text as typed. */
    method TypeAway(text: string)
      modifies this`editAway
      ensures editAway == Str(text)
    {
      editAway := Str(text);
    }

    /**
     * `handleEditSubmit`: once the server accepts, the prediction with that id takes the
     * field values and editing ends; on failure nothing changes. The kickoff order survives.
     */
    method EditSubmit(predictionId: int, ok: bool, ghost instant: string -> int)
      modifies this`predictions, this`editing
      ensures ok ==> predictions == ApplyEdit(old(predictions), predictionId, editHome, editAway) && editing == None
      ensures !ok ==> predictions == old(predictions) && editing == old(editing)
      ensures old(InKickoffOrder(instant)) ==> InKickoffOrder(instant)
    {
      if ok {
        ApplyEditFacts(predictions, predictionId, editHome, editAway, instant);
        predictions := ApplyEdit(predictions, predictionId, editHome, editAway);
        editing := None;
      }
    }
  }

  /** The card being edited shows its form instead of its edit button; once editing ends the button is back if the match has not started. */
  lemma EditButtonFollowsEditing(p: PredictionCard, now: int, instant: string -> int)
    ensures !ShowsEditButton(p, Some(p.predictionId), now, instant)
    ensures ShowsEditButton(p, None, now, instant) <==> IsEditable(p.matchDate, now, instant)
  {
  }
}
