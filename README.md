# Quiniela: a verified model of the prediction pool's rules

This project models the rules of a football prediction pool ("quiniela") in Dafny. The system
has two halves:

- a backend that keeps the tables (users, matches, predictions, competitions, legacy groups,
  password-reset tokens, push subscriptions), scores predictions 3/1/0, builds the rankings,
  imports fixtures and sends reminders;
- a browser client that derives its views from those tables. The client normalises timestamps,
  decides what is still editable, applies the eight-day window, groups matches by round, draws
  the ranking table, updates its lists after submit, edit and delete, keeps the session, and
  converts the push key.

Each source file is one module. Backend tables are `seq` fields of one `Tables.Db` object. Every
endpoint that writes is a method with `modifies` on the fields it touches, and every one keeps
`Db.Valid()`: primary keys, the unique email, one prediction per (user, match) with points in
{0, 1, 3}, one membership per pair, and one subscription per (user, endpoint). Read-only endpoints
and client derivations are functions. The loops of the source (scoring, ranking accumulation, code
generation, fixture import, reminder selection, byte extraction) are methods with loop invariants,
and each is proved equal to a specification function. Stateful client components are classes
whose fields are the React state cells.

The clock (`now`), randomness (`draws`, `uuid`, `token`), password hashing (`hash`), date parsing
(`parse`, `instant`), `atob` and the outcome of each HTTP request (`ok`) are parameters. Server
instants are whole seconds; client instants are milliseconds.

The client components group matches by `league_round || "Otros"` in order of first appearance,
and they draw the ranking in server order.

## Model

| member | source | states |
|---|---|---|
| `Scoring.Points` | quiniela-backend/main.py:116-126 | exact score gives 3; same outcome (home win, away win or draw) without the exact score gives 1; a different outcome gives 0; the result is always in {0,1,3} |
| `Scoring.PointsFor` | quiniela-backend/main.py:116-126 | the scoring branches compute exactly `Points`, so a rescored prediction gets 3, 1 or 0 as stated there |
| `Scoring.Rescore` | quiniela-backend/main.py:110-126 | only predictions of the updated match get new points, each equal to `Points`; every other field and every other prediction is unchanged |
| `Scoring.RescoreIdempotent` | quiniela-backend/main.py:93-130 | posting the same result twice scores like posting it once |
| `Scoring.RescoreLastWins` | quiniela-backend/main.py:93-130 | a corrected result fully replaces the earlier scoring |
| `Scoring.RescoreKeepsValid` | quiniela-backend/main.py:116-126 | rescoring keeps ids, (user, match) uniqueness and points in {0,1,3} |
| `Scoring.ScorePredictions` | quiniela-backend/main.py:110-130 | the scoring loop produces `Rescore` of the table and counts the predictions of that match |
| `Scoring.UpdateMatchResult` | quiniela-backend/main.py:93-130 | 404 and nothing changes for an unknown match; otherwise the score is stored on that match and its predictions are rescored |
| `PredictionApi.CreateUser` | quiniela-backend/main.py:38-54 | 400 and no new user for a registered email; otherwise exactly one user with the hashed password is appended |
| `PredictionApi.CreatePrediction` | quiniela-backend/main.py:58-91 | 404 for an unknown match, 400 for a second prediction of the same (user, match), otherwise one new prediction with 0 points; succeeds exactly when neither refusal applies; no kickoff check |
| `PredictionApi.UpdatePrediction` | quiniela-backend/main.py:194-229 | 404 missing prediction, 403 not the owner, 404 missing match, 400 when `match_date <= now`; on success only the two guesses change and points reset to 0 |
| `PredictionApi.AvailableMatches` | quiniela-backend/main.py:233-255 | exactly the matches with `match_date > now` that the caller has not predicted, ascending by date |
| `PredictionApi.ProfileTotalBounds` | quiniela-backend/main.py:326-343 | the `/me` total lies between 0 and 3 times the caller's number of predictions |
| `PredictionApi.NewPredictionKeepsTotals` | quiniela-backend/main.py:75-81 | a new prediction starts at 0 points, so no user's total changes |
| `RankingApi.ActiveRounds` | quiniela-backend/main.py:139-148 | the active rounds are the distinct non-null rounds of predicted matches, ascending, without repeats |
| `RankingApi.StrLeTotalPreorder` | quiniela-backend/main.py:145 | the round order is total and transitive |
| `RankingApi.StrLeAntisym` | quiniela-backend/main.py:145 | the round order has no ties between different labels |
| `RankingApi.DefaultRow` | quiniela-backend/main.py:167-173 | a fresh entry has every active round at 0 and a total of 0 |
| `RankingApi.AccumulateFaithful` | quiniela-backend/main.py:175-181 | the accumulation gives one entry per ranked user and no other; each entry has the user's points in every active round and their sum as total |
| `RankingApi.AccumulateRows` | quiniela-backend/main.py:175-181 | the accumulation loop builds exactly `Accumulate` of the prediction rows, one joined row at a time |
| `RankingApi.GetRanking` | quiniela-backend/main.py:137-189 | returns the active rounds and entries sorted by total descending; the entries are faithful to the predictions as above |
| `RankingApi.RankingStable` | quiniela-backend/main.py:184 | the sort is stable: entries with equal totals keep the accumulated order, which is the order in which their users first appear among the joined prediction rows |
| `CompetitionApi.GenerateUniqueCode` | quiniela-backend/competitions.py:39-44 | returns the first drawn code that no competition uses, of the requested length over a-z and 0-9; None only if every draw is taken |
| `CompetitionApi.CreateCompetition` | quiniela-backend/competitions.py:48-76 | one competition with an unused 8-character code and the caller as creator, one league row per requested league, and the creator's membership |
| `CompetitionApi.LeagueRows` | quiniela-backend/competitions.py:61-69 | one league row per requested league, in request order, carrying its fields |
| `CompetitionApi.AddLeagueRows` | quiniela-backend/competitions.py:61-69 | the league loop appends exactly `LeagueRows` to the league table and keeps the table invariant |
| `CompetitionApi.JoinCompetition` | quiniela-backend/competitions.py:78-94 | 404 for an unknown code, 400 for an existing member, otherwise exactly one new membership; the answer and the new table are `JoinEffect` of the old table |
| `CompetitionApi.JoinTwice` | quiniela-backend/competitions.py:78-94 | joining twice by one code: an unknown code answers 404 both times; otherwise the second join answers 400 and leaves the membership table as the first join did |
| `CompetitionApi.DeleteCompetition` | quiniela-backend/competitions.py:163-180 | 404 when missing, 403 when the caller is not the creator; only the creator's request removes the row |
| `CompetitionApi.PublicCompetitions` | quiniela-backend/competitions.py:204-226 | exactly the competitions with `is_public` true, each with its own league rows |
| `CompetitionApi.LeaguesOf` | quiniela-backend/competitions.py:144 | exactly the league rows of that competition |
| `CompetitionApi.StandingRowsSound` | quiniela-backend/competitions.py:121-137 | each standing belongs to a member with a prediction on one of the competition's leagues, with that member's name and points |
| `CompetitionApi.StandingRowsComplete` | quiniela-backend/competitions.py:121-137 | every such member gets a standing |
| `CompetitionApi.Standings` | quiniela-backend/competitions.py:135 | the standings are ordered by points descending and are a permutation of the member rows |
| `CompetitionApi.MyRanking` | quiniela-backend/competitions.py:139-142 | the 1-based index of the caller's first line, or None when the caller is absent |
| `CompetitionApi.MyRankingAndPoints` | quiniela-backend/competitions.py:139-155 | my_points is 0 when my_ranking is None; otherwise it is the points of that line, and everyone ahead has at least as many |
| `CompetitionApi.MyCompetitions` | quiniela-backend/competitions.py:111-116 | exactly the competitions the caller holds a membership in |
| `CompetitionApi.MyCompetitionsWithStats` | quiniela-backend/competitions.py:106-160 | one stats entry per competition of the caller, in order |
| `CompetitionApi.StatsEach` | quiniela-backend/competitions.py:121-158 | the per-competition loop yields one entry per competition, in order, each the entry computed for that competition |
| `CompetitionApi.StatsFacts` | quiniela-backend/competitions.py:146-157 | member_count is at least 1, is_creator holds exactly when the caller created it, my_points is 0 when my_ranking is None, and leagues has one entry per league row of that competition |
| `GroupApi.InviteCode` | quiniela-backend/groups.py:27 | the invite code is a prefix of the identifier, 8 characters long (or the whole identifier if shorter) |
| `GroupApi.CreateGroup` | quiniela-backend/groups.py:21-49 | one group with that code (uniqueness not checked) and the creator's membership |
| `GroupApi.JoinEffectFacts` | quiniela-backend/groups.py:52-72 | an unknown code changes nothing; an existing member adds nothing; a successful join adds exactly one (group, user) row |
| `GroupApi.JoinIdempotent` | quiniela-backend/groups.py:58-72 | joining twice leaves the table as one join did, and the second answer is not a join |
| `GroupApi.JoinGroup` | quiniela-backend/groups.py:52-72 | the join applies `JoinEffect` to the membership table |
| `GroupApi.MyGroups` | quiniela-backend/groups.py:75-94 | exactly the groups the caller holds a membership in |
| `GroupApi.GroupMembers` | quiniela-backend/groups.py:97-116 | exactly the users holding a membership in the group |
| `GroupApi.CreatorSeesGroup` | quiniela-backend/groups.py:38-40 | after creation the group is among the creator's groups and the creator is among its members |
| `PasswordReset.GenerateResetLink` | quiniela-backend/password_reset.py:18-45 | 403 with no token for a wrong secret, 404 with no token for an unknown email, otherwise one unused (user, token) row and the link FRONTEND_URL + "/reset-password/" + token |
| `PasswordReset.LinkCarriesToken` | quiniela-backend/password_reset.py:44 | the link begins with the frontend address and ends with the token |
| `PasswordReset.MarkUsed` | quiniela-backend/password_reset.py:80-86 | exactly the rows carrying the token become used; nothing else changes |
| `PasswordReset.SecondResetFails` | quiniela-backend/password_reset.py:65-86 | once a token has been redeemed, a second use answers 400 |
| `PasswordReset.ResetPassword` | quiniela-backend/password_reset.py:51-88 | 400 for an unknown or used token, 404 for a missing user; on success only that user's hash changes and the token is marked used |
| `PushApi.UpsertFacts` | quiniela-backend/push_notifications.py:24-40 | the payload ends up stored; one row per (user, endpoint) is kept; an existing key changes only its keys; a new key adds exactly one row; other rows are untouched |
| `PushApi.UpsertIdempotent` | quiniela-backend/push_notifications.py:24-42 | subscribing twice with the same payload equals subscribing once |
| `PushApi.Subscribe` | quiniela-backend/push_notifications.py:17-42 | the endpoint applies the upsert to the subscription table |
| `FixtureImport.ReplaceZ` | quiniela-backend/update_matches.py:54 | every "Z" becomes "+00:00", so no "Z" remains |
| `FixtureImport.ReplaceZNone` | quiniela-backend/update_matches.py:54 | a date without "Z" is left alone |
| `FixtureImport.ReplaceZTrailing` | quiniela-backend/update_matches.py:54 | a trailing "Z" becomes the UTC offset |
| `FixtureImport.ReplaceZLength` | quiniela-backend/update_matches.py:54 | each "Z" grows the date by five characters, and nothing else changes its length |
| `FixtureImport.UpsertedFacts` | quiniela-backend/update_matches.py:58-75 | a stored match with the fixture's id is overwritten in its place, carries the fixture's five fields and keeps its league id, season and round, and the table keeps its length; an unknown id gets exactly one appended row carrying the fixture with no league data; other matches are unchanged and ids stay unique |
| `FixtureImport.UpsertAllKeepsAbsent` | quiniela-backend/update_matches.py:45-81 | matches absent from the fixture list are unchanged |
| `FixtureImport.UpsertAllLastWins` | quiniela-backend/update_matches.py:45-81 | the last fixture for an id decides what the table holds |
| `FixtureImport.RecalcEventsExact` | quiniela-backend/update_matches.py:78-79 | a recalculation is emitted for a fixture exactly when both goals are non-null, including already-scored matches, once per such fixture |
| `FixtureImport.UpsertMatches` | quiniela-backend/update_matches.py:45-81 | the recalculations are asked for in every case; the commit succeeds exactly when no two fixtures insert the same unknown id, and then the table becomes `UpsertAll` of the old one; otherwise it is left unchanged |
| `FixtureImport.StageFixtures` | quiniela-backend/update_matches.py:46-79 | the loop reports a clash exactly when `Clashes` holds; without one the session holds `UpsertAll` of the stored table; the events are `RecalcEvents` |
| `FixtureImport.StageOne` | quiniela-backend/update_matches.py:58-79 | one fixture: the lookup reads the stored table; an insert whose id is already pending clashes; without a clash the rows become `Upserted`; the event is `RecalcOf` |
| `FixtureImport.PendingIdsExact` | quiniela-backend/update_matches.py:58-75 | the ids waiting for the commit are exactly the ids some fixture names that the database lacks |
| `FixtureImport.ClashesExact` | quiniela-backend/update_matches.py:58-81 | the commit fails exactly when two fixtures name the same id and the database has no match with it |
| `FixtureImport.RepeatedNewIdClashes` | quiniela-backend/update_matches.py:58-81 | on an empty table, any two fixtures with one id make the commit fail |
| `Reminders.SendsExact` | quiniela-backend/send_notifications.py:12-47 | a push is sent exactly for each (match with now <= date <= now+24h, user without a prediction for it, subscription of that user) |
| `Reminders.SendsCount` | quiniela-backend/send_notifications.py:12-47 | a run sends as many pushes as there are (in-window match, user without a prediction for it, subscription of that user) triples, so no triple is served twice |
| `Reminders.SendsText` | quiniela-backend/send_notifications.py:43-47 | every push has the title "⚽ home vs away" of a match in the window and the fixed reminder body |
| `Reminders.SubPushesExact` | quiniela-backend/send_notifications.py:34-47 | a subscription list gets exactly as many pushes as it has subscriptions, push i being the one subscription i receives; so every listed subscription gets its push and no other push is sent |
| `Reminders.UserPushesCount` | quiniela-backend/send_notifications.py:27-47 | a user sweep sends one push per subscription of the swept users, and no more |
| `Reminders.MatchPushesCount` | quiniela-backend/send_notifications.py:20-47 | a match sweep sends, for each match, one push per subscription of each user without a prediction for it |
| `Reminders.NotifyUpcomingMatches` | quiniela-backend/send_notifications.py:8-50 | the three nested loops emit exactly `Sends`, in loop order |
| `Reminders.PushUsers` | quiniela-backend/send_notifications.py:27-47 | the user loop emits, user after user, the pushes to each user's subscriptions |
| `Reminders.PushMatches` | quiniela-backend/send_notifications.py:20-47 | the match loop emits, match after match, the pushes for that match's users without a prediction |
| `Reminders.PushSubscriptions` | quiniela-backend/send_notifications.py:34-47 | the subscription loop emits `SubPushes`: exactly one push per subscription, push i for subscription i |
| `MatchViews.NormalizeIso` | quiniela-frontend/src/components/PredictionsCenter.jsx:109 | the result ends in "Z"; "Z" is appended exactly when it is missing |
| `MatchViews.NormalizeIdempotent` | quiniela-frontend/src/components/UserPredictions.jsx:65 | normalising twice equals normalising once |
| `MatchViews.EditableUntilKickoff` | quiniela-frontend/src/components/UserPredictions.jsx:67-71 | not editable at the kickoff instant itself (strict inequality); once not editable, never editable again; a date already ending in "Z" is judged the same |
| `MatchViews.WithinWindow` | quiniela-frontend/src/components/PredictionsCenter.jsx:25-32 | keeps exactly the matches dated no later than the limit |
| `MatchViews.WithinWindowOrder` | quiniela-frontend/src/components/AvailableMatches.jsx:51-58 | filtering a concatenation gives the filtered parts concatenated, so input order is kept; nothing is dropped exactly when every match is inside the window |
| `MatchViews.SortByKickoff` | quiniela-frontend/src/components/PredictionsCenter.jsx:47-49 | the prediction list is a permutation of the input, ascending by match date |
| `MatchViews.SortByKickoffStable` | quiniela-frontend/src/components/UserPredictions.jsx:23-25 | predictions with equal kickoff keep server order |
| `MatchViews.RemoveMatch` | quiniela-frontend/src/components/PredictionsCenter.jsx:74 | exactly the cards of the submitted match_id leave the list |
| `MatchViews.RemoveMatchOrder` | quiniela-frontend/src/components/AvailableMatches.jsx:84 | the remaining cards keep their order: removing from two batches is removing from each in turn, and one card stays exactly when it is for another match |
| `MatchViews.RemoveMatchFacts` | quiniela-frontend/src/components/AvailableMatches.jsx:84 | removing an unlisted match changes nothing; removing twice equals removing once |
| `MatchViews.ApplyEdit` | quiniela-frontend/src/components/PredictionsCenter.jsx:98-100 | the card with that id takes both edited values and keeps every other field (teams, ids, kickoff); every other card and the order are unchanged |
| `MatchViews.ApplyEditFacts` | quiniela-frontend/src/components/UserPredictions.jsx:54-56 | applying the same edit twice changes nothing more, and kickoff order survives an edit |
| `MatchViews.RoundKey` | quiniela-frontend/src/components/PredictionsCenter.jsx:130 | a missing or empty round becomes "Otros"; any other round is its own key |
| `MatchViews.GroupByRoundBucketed` | quiniela-frontend/src/components/PredictionsCenter.jsx:129-134 | bucket keys are distinct; each bucket holds exactly its round's matches in input order; every match has a bucket |
| `MatchViews.InRoundIsFilter` | quiniela-frontend/src/components/AvailableMatches.jsx:105-110 | a bucket's contents are the input filtered by round key |
| `MatchViews.GroupByRoundPermutation` | quiniela-frontend/src/components/AvailableMatches.jsx:105-110 | the buckets concatenated are a permutation of the input |
| `PredictionScreens.Endpoint` | quiniela-frontend/src/components/AvailableMatches.jsx:37-49 | "todas" fetches /available-matches/; any other value v fetches /available-matches/v |
| `PredictionScreens.MatchBoard.constructor` | quiniela-frontend/src/components/AvailableMatches.jsx:10-14 | the list starts empty and the selection starts as "todas" |
| `PredictionScreens.MatchBoard.Select` | quiniela-frontend/src/components/AvailableMatches.jsx:14 | choosing a competition sets the selection |
| `PredictionScreens.MatchBoard.Load` | quiniela-frontend/src/components/AvailableMatches.jsx:51-60 | the stored list is the fetched list cut to the next eight days |
| `PredictionScreens.MatchBoard.Submit` | quiniela-frontend/src/components/AvailableMatches.jsx:72-89 | success removes only that match_id; failure leaves the list unchanged; the window invariant is kept |
| `PredictionScreens.PredictionEditor.constructor` | quiniela-frontend/src/components/UserPredictions.jsx:11-13 | the list starts empty, nothing is being edited and both edit fields hold empty text |
| `PredictionScreens.PredictionEditor.Load` | quiniela-frontend/src/components/UserPredictions.jsx:15-30 | the stored list is the fetched list sorted by kickoff |
| `PredictionScreens.PredictionEditor.EditClick` | quiniela-frontend/src/components/UserPredictions.jsx:37-40 | sets the edited id and copies that prediction's two guesses into the edit buffer |
| `PredictionScreens.PredictionEditor.TypeHome` | quiniela-frontend/src/components/UserPredictions.jsx:124 | typing stores the field text as typed |
| `PredictionScreens.PredictionEditor.TypeAway` | quiniela-frontend/src/components/UserPredictions.jsx:133 | typing stores the field text as typed |
| `PredictionScreens.PredictionEditor.EditSubmit` | quiniela-frontend/src/components/UserPredictions.jsx:42-63 | success updates only the matching prediction_id and clears the edited id; failure leaves list and edited id unchanged; kickoff order is kept |
| `PredictionScreens.EditButtonFollowsEditing` | quiniela-frontend/src/components/PredictionsCenter.jsx:263 | the edit button shows exactly when the prediction is editable and is not the one being edited |
| `CompetitionScreens.CardsAgreeWithServer` | quiniela-frontend/src/components/Dashboard.jsx:127-143 | the invite code shows exactly when the competition is private, and it is the competition's code; the delete button shows exactly when the caller created it, so the server's 404 and 403 do not apply |
| `CompetitionScreens.Dashboard.constructor` | quiniela-frontend/src/components/Dashboard.jsx:14 | the card list starts empty |
| `CompetitionScreens.Dashboard.Delete` | quiniela-frontend/src/components/Dashboard.jsx:29-46 | a request is sent exactly when the user confirms; success removes exactly the cards with that id; failure leaves the list unchanged |
| `CompetitionScreens.WithoutCompetition` | quiniela-frontend/src/components/Dashboard.jsx:40 | exactly the cards with that id are removed (the order of the rest: `WithoutCompetitionOrder`) |
| `CompetitionScreens.WithoutCompetitionOrder` | quiniela-frontend/src/components/Dashboard.jsx:40 | the remaining cards keep their order: removing from two batches is removing from each in turn, and one card stays exactly when its id differs |
| `CompetitionScreens.NotEnrolled` | quiniela-frontend/src/pages/UnirseCompetencia.jsx:24-28 | exactly the public entries whose id is not enrolled (their order: `NotEnrolledOrder`) |
| `CompetitionScreens.NotEnrolledOrder` | quiniela-frontend/src/pages/UnirseCompetencia.jsx:24-28 | the kept entries are in received order: the list is cut batch by batch, and one entry stays exactly when no enrolled competition has its id |
| `CompetitionScreens.EnrolledIds` | quiniela-frontend/src/pages/UnirseCompetencia.jsx:24 | one entry per enrolled competition, in order, holding its numeric id |
| `CompetitionScreens.JoinPage.constructor` | quiniela-frontend/src/pages/UnirseCompetencia.jsx:14-15 | the typed code is empty and nothing is loaded |
| `CompetitionScreens.JoinPage.Load` | quiniela-frontend/src/pages/UnirseCompetencia.jsx:17-35 | stores the enrolled ids and the public list minus the enrolled; a failed fetch stops there |
| `CompetitionScreens.JoinPage.Type` | quiniela-frontend/src/pages/UnirseCompetencia.jsx:14 | typing stores the code as typed |
| `CompetitionScreens.JoinPage.JoinByCode` | quiniela-frontend/src/pages/UnirseCompetencia.jsx:37-58 | an empty code sends nothing; a code found among the enrolled ids is refused; otherwise the join request is sent, and only success schedules onSuccess |
| `CompetitionScreens.JoinPage.JoinByCodeIntended` | quiniela-frontend/src/pages/UnirseCompetencia.jsx:37-58 | same, with the enrolled check made against the enrolled codes |
| `CompetitionScreens.JoinPage.JoinDirect` | quiniela-frontend/src/pages/UnirseCompetencia.jsx:60-79 | refused locally when the id is enrolled; otherwise the request is sent, and only success schedules onSuccess |
| `CompetitionScreens.Sent` | quiniela-frontend/src/pages/UnirseCompetencia.jsx:47-53 | the request goes to /competitions/join/ + code, and it counts as joined exactly when it succeeds |
| `CompetitionScreens.CodeGuardNeverFires` | quiniela-frontend/src/pages/UnirseCompetencia.jsx:40 | a typed code (a string) is never among the enrolled ids (numbers) |
| `CompetitionScreens.CodeGuardCounterexample` | quiniela-frontend/src/pages/UnirseCompetencia.jsx:40 | a member of competition 7 typing its code "abcd1234" gets past the local guard, although the server finds that competition and the caller is already a member (400) |
| `CompetitionScreens.IntendedGuardAgreesWithServer` | quiniela-frontend/src/pages/UnirseCompetencia.jsx:40 | the code check refuses exactly the codes for which the server answers 400 (already a member) |
| `RankingView.Rows` | quiniela-frontend/src/components/Ranking.jsx:58-76 | one row per ranked user in server order; position is index + 1; one cell per round in server round order; total is total_points unchanged; highlighted exactly when a token is present and userId === user_id |
| `RankingView.Property` | quiniela-frontend/src/components/Ranking.jsx:71 | reading `user[r]` gives undefined for every key except the five fields of a ranked user |
| `RankingView.Coalesce` | quiniela-frontend/src/components/Ranking.jsx:71 | `?? 0` replaces null or undefined with 0 and keeps every other value |
| `RankingView.RoundCellsAsWrittenZero` | quiniela-frontend/src/components/Ranking.jsx:69-72 | as written, a round column whose label is not one of the row's own keys (user_id, name, email, total_points, rounds) shows 0 |
| `RankingView.RoundCellCounterexample` | quiniela-frontend/src/components/Ranking.jsx:71 | a user with 3 points in a round is drawn with 0 there |
| `RankingView.TableShowsRanking` | quiniela-frontend/src/components/Ranking.jsx:51-76 | with the corrected read, each cell is the user's points in that round; the cells sum to the total; only the caller's row is highlighted |
| `RankingView.RankingPage.constructor` | quiniela-frontend/src/components/Ranking.jsx:10-13 | no rounds, no ranking, no caller id, and loading |
| `RankingView.RankingPage.Load` | quiniela-frontend/src/components/Ranking.jsx:15-36 | when signed in, the caller's id comes from the profile and a failed profile request leaves rounds and ranking as they were; a received ranking replaces rounds and ranking; a failed one leaves them; loading ends either way |
| `Session.AuthSession.constructor` | quiniela-frontend/src/context/AuthContext.jsx:6-7 | both state cells start from the storage keys "token" and "user_id" |
| `Session.AuthSession.Login` | quiniela-frontend/src/context/AuthContext.jsx:9-14 | writes the token and String(user_id) to storage and sets both cells, keeping the raw user_id |
| `Session.AuthSession.Logout` | quiniela-frontend/src/context/AuthContext.jsx:16-21 | removes both storage keys and sets both cells to null |
| `Session.AfterLogin` | quiniela-frontend/src/context/AuthContext.jsx:10-11 | exactly the two session keys are written; every other key is kept |
| `Session.AfterLogout` | quiniela-frontend/src/context/AuthContext.jsx:17-18 | exactly the two session keys are removed; every other key is kept |
| `Session.LogoutIdempotent` | quiniela-frontend/src/context/AuthContext.jsx:16-21 | logging out twice equals logging out once |
| `Session.LoginThenLogout` | quiniela-frontend/src/context/AuthContext.jsx:9-21 | login then logout leaves no auth key, and storage is as a bare logout leaves it |
| `Session.ReloadAfterLogin` | quiniela-frontend/src/context/AuthContext.jsx:7-11 | after a reload the id comes back as text that reads as the number, not as the number itself |
| `Session.IntTextValue` | quiniela-frontend/src/context/AuthContext.jsx:11 | `String(n)` of an integer reads back as n |
| `VapidKey.Padding` | quiniela-frontend/src/utils/notifications.js:51 | between 0 and 3 "=" characters, making the padded length a multiple of 4 |
| `VapidKey.ToStandard` | quiniela-frontend/src/utils/subscribeToNotifications.js:41-43 | "-" becomes "+", "_" becomes "/", nothing else changes, and no "-" or "_" remains |
| `VapidKey.ToStandardRoundTrip` | quiniela-frontend/src/utils/notifications.js:52 | on text without "+" or "/", mapping to the standard base64 alphabet and back gives the text back |
| `VapidKey.Standardise` | quiniela-frontend/src/utils/notifications.js:51-52 | the text handed to atob has length a multiple of 4, keeps each key character mapped, and ends in "=" padding |
| `VapidKey.CharCodes` | quiniela-frontend/src/utils/notifications.js:54 | output byte i is the char code of decoded character i; the lengths are equal |
| `VapidKey.KeyBytes` | quiniela-frontend/src/utils/notifications.js:50-55 | fails exactly when atob fails; otherwise the output is as long as the decoded text |
| `VapidKey.KeyArray` | quiniela-frontend/src/utils/subscribeToNotifications.js:39-52 | the loop fills a fresh array as long as the decoded text with the char code of each character, equal to the chain version |
| `Sorting.SortBySorted` | quiniela-backend/main.py:184 | the sort's output is ordered by the key |
| `Sorting.SortByStable` | quiniela-backend/main.py:184 | the sort is stable: elements with equal keys keep input order |

## Left out

- HTTP routing, CORS, dependency injection, sessions and the database connection retry loop. Tables are in-memory sequences, and the caller's id is a parameter.
- JWT and bcrypt. Hashing is the parameter `hash`. The login endpoint, which checks credentials through bcrypt, is left out.
- The clock, `random.choices`, `uuid4`, `datetime.fromisoformat`, JavaScript `Date` parsing and `toLocaleString` formatting. They are parameters or left out. `Date.setDate(getDate() + 8)` is local-calendar arithmetic and is modelled as now + 8 × 24 h, so daylight-saving shifts are not modelled. A date that parses to NaN is not modelled either, since `instant` always gives a number.
- Fetching fixtures from the football data feed, the recalculation HTTP PUT and `send_push_message`. Fixtures are an input; the PUTs and pushes are returned event sequences. Their delivery, failures and retries are not modelled.
- Reminders.NotifyUpcomingMatches: quiniela-backend/send_notifications.py:6 imports `send_push_message` from quiniela-backend/push_notifications.py, which does not define it. As the files stand, the reminder script fails at that import and sends nothing. The model describes the pushes the script would send if that function existed.
- `atob`, the service worker, Notification permission, `pushManager` and the subscribe `fetch`, which are browser APIs. `atob` is a parameter that returns None where the browser throws.
- The 401 interceptor, alerts, console output, navigation and the `setTimeout` scheduling. Only whether onSuccess would be scheduled is modelled.
- The form-only and static components, and the request schemas in quiniela-backend/schemas.py. Apart from `EmailStr` (see CreateUser below), they only declare field types.
- Concurrency: the order of concurrent fetches and React re-renders. Each handler is modelled as one atomic step.
- CompetitionApi.GenerateUniqueCode: randomness is a finite sequence of draws, so the source's unbounded `while True` becomes "the first unused draw, or None".
- CompetitionApi.CreateCompetition: requires some draw to be unused. The source's loop returns only once it draws an unused code.
- CompetitionApi.DeleteCompetition: removes only the competition row. The cascade onto league and membership rows is a database setting outside the modelled files.
- CompetitionApi.Standings: the database does not specify an order among equal totals. The model takes user-table order.
- RankingApi.GetRanking: accumulates one joined prediction row at a time instead of per (user, round) groups. The sums are the same. The order among equal totals is the order of first appearance among the joined rows; the source keeps the order of the grouped query result through its stable sort, and the database does not specify that order. Rounds are ordered by character code, which stands in for the database collation.
- PredictionApi.AvailableMatches: matches with equal kickoff keep table order. The database does not specify that order.
- MatchViews.GroupByRound: buckets are in order of first appearance. JavaScript lists integer-like object keys (a round named "3", say) first, in numeric order, and that is not modelled. The accumulator is a `{}` literal, so a round named after an inherited property ("constructor", "toString") finds a function there and `.push` throws; the model gives such a round its own bucket like any other.
- Tables.Db: users, predictions, competitions and groups draw their ids from one shared counter, where the database gives each table its own sequence. Ids are only compared within one table, so no modelled behaviour depends on this.
- PredictionApi.CreateUser: receives an email address already validated and normalised by the request schema (`EmailStr`, quiniela-backend/schemas.py:3-5). A malformed address is refused with 422 before the endpoint runs, and that answer is not modelled; the model compares addresses exactly.
- Integers are unbounded. The source's integer columns and JavaScript numbers are not modelled with overflow or floating-point precision.

## Findings

| source | as written | input that shows it | evidently intended | confidence | as-written member | corrected member |
|---|---|---|---|---|---|---|
| quiniela-frontend/src/components/Ranking.jsx:71 | a round cell reads `user[r] ?? 0`, but the server nests round points under `user.rounds` | a ranked user with 3 points in "Regular Season - 1": that column shows 0 | read `user.rounds[r] ?? 0` | high; not executed | `RankingView.RoundCellCounterexample` | `RankingView.TableShowsRanking` |
| quiniela-frontend/src/pages/UnirseCompetencia.jsx:40 | the enrolled check tests the typed invite code (a string) against enrolled competition ids (numbers) | a member of private competition 7 with code "abcd1234" types "abcd1234": the request is sent and the server answers 400 | test the typed code against the enrolled competitions' invite codes | high; not executed | `CompetitionScreens.CodeGuardCounterexample` | `CompetitionScreens.JoinPage.JoinByCodeIntended` |
