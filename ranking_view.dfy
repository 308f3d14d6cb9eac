/**
 * The client's global ranking page: it asks for the caller's id (when signed in) and for
 * the ranking, then draws one table row per ranked user with a position, the name, one cell
 * per active round and the total, the caller's own row highlighted.
 *
 * A ranked user arrives as the object `{user_id, name, email, total_points, rounds}`, the
 * per-round points nested under `rounds`; the page reads a round's cell as a property of the
 * user object itself, which is modelled here as written next to the evidently intended read.
 */
module RankingView {
  import opened Wrappers
  import opened JsValues
  import opened Query
  import opened Tables
  import opened RankingApi

  /**
   * `user[key]` on a ranked user's object; a property the object does not have is `Null`
   * (undefined). Keys inherited from `Object.prototype` (such as "constructor") are not
   * undefined in JavaScript; this model maps them to `Null` too, which changes nothing for the
   * round labels the page reads.
   */
  function Property(row: RankRow, key: string): (v: JsValue)
    ensures key == "user_id" ==> v == Num(row.userId)
    ensures key == "total_points" ==> v == Num(row.totalPoints)
    ensures key == "name" ==> v == Str(row.name)
    ensures key == "email" ==> v == Str(row.email)
    ensures v.Null? <==> key !in {"user_id", "name", "email", "total_points", "rounds"}
  {
    if key == "user_id" then Num(row.userId)
    else if key == "name" then Str(row.name)
    else if key == "email" then Str(row.email)
    else if key == "total_points" then Num(row.totalPoints)
    else if key == "rounds" then Other
    else Null
  }

  /** `a ?? b`: `b` when `a` is null or undefined. */
  function Coalesce(a: JsValue, b: JsValue): (v: JsValue)
    ensures a.Null? ==> v == b
    ensures !a.Null? ==> v == a
  {
    if a.Null? then b else a
  }

  /** The round cell as written: `user[r] ?? 0`. */
  function CellAsWritten(row: RankRow, r: string): JsValue {
    Coalesce(Property(row, r), Num(0))
  }

  /** The round cell as intended: `user.rounds[r] ?? 0`. */
  function Cell(row: RankRow, r: string): JsValue {
    Num(if r in row.rounds then row.rounds[r] else 0)
  }

  /** One drawn table row. */
  datatype DisplayRow = DisplayRow(position: nat, name: string, cells: seq<JsValue>, total: JsValue, highlighted: bool)

  /** `authToken && userId === user.user_id`. */
  predicate Highlighted(authToken: JsValue, me: JsValue, row: RankRow) {
    Truthy(authToken) && StrictEquals(me, Num(row.userId))
  }

  /** The table body, with the round cells read by `cell`. */
  function Rows(ranking: seq<RankRow>, rounds: seq<string>, authToken: JsValue, me: JsValue,
                cell: (RankRow, string) -> JsValue): (rows: seq<DisplayRow>)
    ensures |rows| == |ranking|
    ensures forall i :: 0 <= i < |rows| ==>
      && rows[i].position == i + 1
      && rows[i].name == ranking[i].name
      && rows[i].total == Num(ranking[i].totalPoints)
      && |rows[i].cells| == |rounds|
      && (forall j :: 0 <= j < |rounds| ==> rows[i].cells[j] == cell(ranking[i], rounds[j]))
      && rows[i].highlighted == Highlighted(authToken, me, ranking[i])
  {
    seq(|ranking|, i requires 0 <= i < |ranking| =>
      DisplayRow(i + 1, ranking[i].name,
                 seq(|rounds|, j requires 0 <= j < |rounds| => cell(ranking[i], rounds[j])),
                 Num(ranking[i].totalPoints), Highlighted(authToken, me, ranking[i])))
  }

  /** The table the page draws. */
  function TableAsWritten(ranking: seq<RankRow>, rounds: seq<string>, authToken: JsValue, me: JsValue): seq<DisplayRow> {
    Rows(ranking, rounds, authToken, me, CellAsWritten)
  }

  /** The table the page evidently means to draw. */
  function Table(ranking: seq<RankRow>, rounds: seq<string>, authToken: JsValue, me: JsValue): seq<DisplayRow> {
    Rows(ranking, rounds, authToken, me, Cell)
  }

  /**
   * As written, a round whose label is not one of the five property names of a ranked
   * user shows 0 in every row, whatever the user scored in it.
   */
  lemma RoundCellsAsWrittenZero(ranking: seq<RankRow>, rounds: seq<string>, authToken: JsValue, me: JsValue,
                                i: nat, j: nat)
    requires i < |ranking| && j < |rounds|
    requires rounds[j] !in {"user_id", "name", "email", "total_points", "rounds"}
    ensures TableAsWritten(ranking, rounds, authToken, me)[i].cells[j] == Num(0)
  {
  }

  /** A user with 3 points in "Regular Season - 1" is drawn with 0 in that round's column. */
  lemma RoundCellCounterexample()
    ensures var row := RankRow(5, "Ana", "ana@example.com", 3, map["Regular Season - 1" := 3]);
      && Table([row], ["Regular Season - 1"], Str("t"), Num(5))[0].cells[0] == Num(3)
      && TableAsWritten([row], ["Regular Season - 1"], Str("t"), Num(5))[0].cells[0] == Num(0)
  {
    var row := RankRow(5, "Ana", "ana@example.com", 3, map["Regular Season - 1" := 3]);
    RoundCellsAsWrittenZero([row], ["Regular Season - 1"], Str("t"), Num(5), 0, 0);
  }

  /** The sum of the numbers in `cells` (a non-number counts as 0). */
  function CellSum(cells: seq<JsValue>): int {
    if cells == [] then 0 else (if cells[0].Num? then cells[0].n else 0) + CellSum(cells[1..])
  }

  lemma {:induction false} CellSumIsSumOver(rounds: seq<string>, m: map<string, int>, cells: seq<JsValue>)
    requires forall r :: r in rounds ==> r in m
    requires |cells| == |rounds| && forall j :: 0 <= j < |rounds| ==> cells[j] == Num(m[rounds[j]])
    ensures CellSum(cells) == SumOver(rounds, m)
  {
    if rounds != [] {
      CellSumIsSumOver(rounds[1..], m, cells[1..]);
    }
  }

  /**
   * Drawn from the server's ranking, the intended table shows in each round cell the user's
   * points in that round, the round cells of a row add up to its total, and the caller's row
   * is the only highlighted one.
   */
  lemma TableShowsRanking(users: seq<User>, matches: seq<Match>, preds: seq<Prediction>, ranking: seq<RankRow>,
                          authToken: JsValue, me: JsValue, i: nat)
    requires var rounds := ActiveRounds(matches, preds); Faithful(users, matches, rounds, preds, ranking)
    requires i < |ranking|
    ensures var rounds := ActiveRounds(matches, preds);
            var row := Table(ranking, rounds, authToken, me)[i];
      && (forall j :: 0 <= j < |rounds| ==>
            row.cells[j] == Num(RoundPoints(users, matches, rounds, preds, ranking[i].userId, rounds[j])))
      && Num(CellSum(row.cells)) == row.total
      && (row.highlighted <==> Truthy(authToken) && me == Num(ranking[i].userId))
      && (row.highlighted ==> forall k :: 0 <= k < |ranking| && k != i ==> !Table(ranking, rounds, authToken, me)[k].highlighted)
  {
    var rounds := ActiveRounds(matches, preds);
    RowShowsEntry(users, matches, rounds, preds, ranking, authToken, me, i);
    OnlyOneHighlighted(users, matches, rounds, preds, ranking, authToken, me, i);
  }

  /** A faithful entry's row shows its round points, which add up to its total. */
  lemma RowShowsEntry(users: seq<User>, matches: seq<Match>, rounds: seq<string>, preds: seq<Prediction>,
                      ranking: seq<RankRow>, authToken: JsValue, me: JsValue, i: nat)
    requires Faithful(users, matches, rounds, preds, ranking)
    requires i < |ranking|
    ensures var row := Table(ranking, rounds, authToken, me)[i];
      && (forall j :: 0 <= j < |rounds| ==>
            row.cells[j] == Num(RoundPoints(users, matches, rounds, preds, ranking[i].userId, rounds[j])))
      && Num(CellSum(row.cells)) == row.total
  {
    var row := Table(ranking, rounds, authToken, me)[i];
    var entry := ranking[i];
    assert entry == Entry(users, matches, rounds, preds, entry.userId);
    var m := RoundMap(users, matches, rounds, preds, entry.userId);
    assert entry.rounds == m && entry.totalPoints == SumOver(rounds, m);
    CellSumIsSumOver(rounds, m, row.cells);
  }

  /** Entries have distinct users, so at most one row is the caller's. */
  lemma OnlyOneHighlighted(users: seq<User>, matches: seq<Match>, rounds: seq<string>, preds: seq<Prediction>,
                           ranking: seq<RankRow>, authToken: JsValue, me: JsValue, i: nat)
    requires Faithful(users, matches, rounds, preds, ranking)
    requires i < |ranking|
    ensures var table := Table(ranking, rounds, authToken, me);
      && (table[i].highlighted <==> Truthy(authToken) && me == Num(ranking[i].userId))
      && (table[i].highlighted ==> forall k :: 0 <= k < |ranking| && k != i ==> !table[k].highlighted)
  {
    var table := Table(ranking, rounds, authToken, me);
    forall k | 0 <= k < |ranking| && k != i
      ensures ranking[k].userId != ranking[i].userId
    {
    }
  }

  /** The ranking page's state. */
  class RankingPage {
    var rounds: seq<string>
    var ranking: seq<RankRow>
    var me: JsValue
    var loading: bool

    /** Nothing loaded yet, and the spinner shown. */
    constructor ()
      ensures rounds == [] && ranking == [] && me == Null && loading
    {
      rounds := [];
      ranking := [];
      me := Null;
      loading := true;
    }

    /**
     * `fetchAll`: when signed in, the caller's id first; then the ranking. A failed request
     * skips everything after it; the spinner goes away either way.
     */
    method Load(authToken: JsValue, profile: Option<int>, response: Option<(seq<string>, seq<RankRow>)>)
      modifies this
      ensures !loading
      ensures Truthy(authToken) && profile.None? ==>
        rounds == old(rounds) && ranking == old(ranking) && me == old(me)
      ensures me == if Truthy(authToken) && profile.Some? then Num(profile.value) else old(me)
      ensures (!Truthy(authToken) || profile.Some?) && response.Some? ==>
        rounds == response.value.0 && ranking == response.value.1
      ensures response.None? ==> rounds == old(rounds) && ranking == old(ranking)
    {
      if Truthy(authToken) {
        if profile.None? {
          loading := false;
          return;
        }
        me := Num(profile.value);
      }
      if response.Some? {
        rounds := response.value.0;
        ranking := response.value.1;
      }
      loading := false;
    }
  }
}
