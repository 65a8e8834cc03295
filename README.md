# TOPFC league and knockout engine

TOPFC runs an online football league (a season of divisions played as round robins, week by
week) and knockout playoffs (brackets of one- or two-legged ties). The logic lives inside React
components that read and write a Supabase database. This project models that logic in Dafny.
The database tables are sequences of records (`matches`, `playoff_matches`, `weeks_schedule`).
Each `update().eq()` call is a rewrite of the rows it selects. The things the components compute
are functions of those sequences.

The model follows the components file by file:

- **League administration** (`src/AdminPanel.jsx`):
  - the circle-method fixture generator `generarCalendario` (modules `Fixtures`, `FixtureProperties`);
  - the week-window cascade of `handleDateChange`, `toggleLink` and `resetCalendarioSemanas`, as
    in-place walks over an `array` of windows (`WeekWindows`);
  - `handleAssign`, the result editor `handleUpdateMatch`, and season creation in
    `confirmarCreacionTemporada` (`Season`).
- **Playoff administration** (`src/AdminPlayoffs.jsx`):
  - bracket generation in `generarPlayoff` (`Playoffs`, `PlayoffProperties`);
  - the row-rewriting operations `checkAndPromoteBye`, `saveBracketScore` and `updateMatchPlayer`,
    as methods of a `Table` class whose `rows` field they reassign (`PlayoffTable`);
  - the read-only views `groupedForBracket`, `sortedRoundKeys`, `getAvailablePlayers` and the
    calendar rows of `fetchMatches` (`PlayoffViews`).
- **Player result entry** (`src/Partido.jsx`):
  - `TarjetaResultado.guardar`: validation, the winner of a single leg or of a two-legged tie,
    and promotion into the next round;
  - the playoff part of `ProximoPartido.cargar`, which selects the cards of the current round
    (`ResultEntry`).
- **Public bracket** (`src/Clasificacion.jsx`): `getBaseRound`, the pairing of legs into ties,
  and the bye / finished / aggregate / winner flags of each card (`BracketView`).
- **Dashboard** (`src/App.jsx`): the grouping of equal week windows in `CalendarioFechas`, and
  the division selector (`CalendarView`).
- **Player directory** (`src/Jugadores.jsx`): participant ids, the nick search, and the Telegram
  link of `abrirTelegram` (`Directory`).

Shared modules:

| module | what it holds |
|---|---|
| `Common` | ids (`UserId`), `Option` and the week length |
| `Text` | the JavaScript string operations the components use: `split(...)[0]`, `trim`, `toLowerCase` on ASCII, `includes`, a one-character `replace` |
| `Scores` | `parseInt`, and `NaN` read as "no number" |
| `Sorting` | `new Set`, `indexOf`, `filter` and the stable comparator sorts |

Conventions:
- Timestamps are integer minutes: a week is `7 * 24 * 60`, the Vuelta gap is one minute and the
  gap between playoff rounds is one hour.
- Player ids are opaque naturals. A JavaScript `null` is `None`.
- Both random shuffles are inputs: the roster or player list arrives already permuted.

Behaviour of the code worth knowing, each shown by a lemma:
- **Draws in the player path.** The administrator path (`saveBracketScore`) clears the
  next-round slot when a tie ends in a draw. The player path (`guardar`) promotes only when there
  is a winner, so a draw leaves an earlier promotion in place (`ResultEntry.GuardarDrawKeepsSlot`).
- **Available opponents.** The first-round selector excludes players by comparing row labels
  exactly. In a two-legged round every label carries ` (Ida)` or ` (Vuelta)`, so no label equals
  the bare round name and every player is offered (`PlayoffViews.TwoLeggedOffersEveryone`).
- **Round names.** The fixed round table names the size-4 round "Semifinales"; the model uses the
  table's names for all rounds.
- **Too few players.** `generarCalendario` does not reject small rosters: one player gives no
  fixtures. Season creation skips divisions with fewer than two ids.

## Model

| member | source | states |
|---|---|---|
| Text.SplitHead | src/AdminPlayoffs.jsx:370 | `round.split(' (')[0]` is a prefix of the label; the whole label when the separator does not occur, and otherwise the separator follows it |
| Text.SplitHeadAt | src/Partido.jsx:60 | splitting `name + " (" + rest` gives back `name` when the separator cannot start inside `name` |
| Text.Trim | src/AdminPlayoffs.jsx:461 | the result is the text between a leading and a trailing run of white space, and neither of its ends is white space |
| Text.RemoveFirst | src/Jugadores.jsx:75 | `replace('@', '')` removes exactly the first `@`: the text before it followed by the text after it, or the text unchanged when there is none |
| Text.DigitsOnly | src/Jugadores.jsx:79 | `replace(/\D/g, '')` equals filtering the text by `IsDigit`: the digits, in order; an all-digit text unchanged |
| Scores.ParseShow | src/AdminPanel.jsx:150-151 | `parseInt` of the decimal text of a stored integer gives that integer back |
| Scores.NormalizeScore | src/AdminPanel.jsx:150-151 | an empty score field is stored as `null` |
| Scores.NormalizeShown | src/AdminPanel.jsx:150-151 | a field holding a number's decimal text is stored as that number |
| Scores.BeatsAsymmetric | src/Partido.jsx:73-74 | `>` on scores that may be `NaN`: never both ways, and between two numbers exactly one wins unless they are equal |
| Sorting.Unique | src/App.jsx:69 | `[...new Set(s)]` has no repeats, holds exactly the values of `s`, and lists them in the order of their first appearance in `s` |
| Sorting.IndexOf | src/AdminPlayoffs.jsx:378 | `indexOf` is the first position holding the value, or -1 exactly when it is absent |
| Sorting.Filter | src/AdminPlayoffs.jsx:410-411 | `filter` keeps exactly the accepted elements |
| Sorting.SortByCorrect | src/AdminPlayoffs.jsx:121 | the comparator sort `(a, b) => key(a) - key(b)` returns a permutation of its input, ordered by key |
| Sorting.UniqueSorted | src/AdminPlayoffs.jsx:77-79 | the distinct values, sorted by key: each value of the input once, in key order |
| Sorting.FlatMapHas | src/Partido.jsx:268 | the concatenation of the pieces holds exactly what some piece holds |
| Fixtures.Padded | src/AdminPanel.jsx:528 | an odd roster gets one bye slot at its end, so the padded roster has even length |
| Fixtures.PaddedAt | src/AdminPanel.jsx:528 | slot `i` holds player `i`, or the bye past the end of the roster |
| Fixtures.RotateAt | src/AdminPanel.jsx:550 | `temp.splice(1, 0, temp.pop())` keeps slot 0, moves the last slot to position 1 and shifts the rest up one |
| Fixtures.PopSplice | src/AdminPanel.jsx:550 | the pop and splice on the slot list give the rotation |
| Fixtures.MirroredAt | src/AdminPanel.jsx:557-563 | fixture `k` of the second half is fixture `k` of the first with home and away swapped, `n - 1` weeks later |
| Fixtures.PlayWeek | src/AdminPanel.jsx:536-548 | the inner loop yields the week's fixtures, table by table, dropping the bye and alternating home with the week's parity |
| Fixtures.FirstHalfLoop | src/AdminPanel.jsx:535-551 | the week loop yields `n - 1` weeks of the rotating arrangement |
| Fixtures.GenerateFixtures | src/AdminPanel.jsx:523-566 | `generarCalendario` returns the first half, followed by its mirror image when home-and-away is asked for |
| FixtureProperties.ArrangementAt | src/AdminPanel.jsx:535-551 | closed form of the rotation: week `j` seats slot `Src(n, k, j)` at position `k` |
| FixtureProperties.MeetWeekUnique | src/AdminPanel.jsx:536-538 | two different slots face each other in exactly one week of the first half |
| FixtureProperties.WholeWeekMeetings | src/AdminPanel.jsx:536-547 | a week holds the meeting of two players exactly when it is their week |
| FixtureProperties.EveryPairMeetsOnce | src/AdminPanel.jsx:535-554 | in a single round robin any two different players of the roster meet exactly once |
| FixtureProperties.HomeAndAwayOnce | src/AdminPanel.jsx:553-565 | home and away: any two players meet exactly twice, once at each one's home |
| FixtureProperties.MirroredMeetings | src/AdminPanel.jsx:557-565 | appending the mirror doubles every meeting and gives each side one home game per first-half meeting |
| FixtureProperties.ScheduleShape | src/AdminPanel.jsx:535-565 | every fixture is between two different roster players, and weeks run from 1 to the last without going back |
| FixtureProperties.WholeWeekSize | src/AdminPanel.jsx:536-547 | each week holds `r / 2` fixtures for `r` players: with an odd roster one player rests |
| FixtureProperties.ScheduleSize | src/AdminPanel.jsx:535-565 | the schedule holds `n - 1` weeks of `r / 2` fixtures per half, `n` being `r` rounded up to even |
| FixtureProperties.LastFixtureWeek | src/AdminPanel.jsx:543-562 | with two or more players the last fixture is played in the schedule's last week (`n - 1`, or `2(n - 1)`) |
| FixtureProperties.SlotOf | src/AdminPanel.jsx:528-540 | the occupied slots are exactly the roster, so only the bye's pairings are dropped |
| WeekWindows.Follow | src/AdminPanel.jsx:166-175 | a linked week copies its predecessor; an unlinked one starts at the predecessor's end and keeps its own length (or seven days when reset) |
| WeekWindows.Cascade | src/AdminPanel.jsx:162-177 | the forward walk keeps every week's number and link flag |
| WeekWindows.CascadeShape | src/AdminPanel.jsx:162-177 | weeks up to the edited one are left alone; each later week is rebuilt from its rebuilt predecessor |
| WeekWindows.Toggled | src/AdminPanel.jsx:184-193 | the toggle flips the flag and keeps the week number |
| WeekWindows.HandleDateChange | src/AdminPanel.jsx:159-180 | the array after the edit is the edited schedule, walked forward from the edit |
| WeekWindows.ToggleLink | src/AdminPanel.jsx:182-208 | the array after the toggle is the toggled schedule, walked forward from the toggle |
| WeekWindows.ResetWeeks | src/AdminPanel.jsx:210-228 | the array after the reset is every week after the first rebuilt from its predecessor |
| WeekWindows.DateChangeRule | src/AdminPanel.jsx:159-177 | after an edit: earlier weeks untouched, the field set, and every later week a copy (linked) or starting at its predecessor's end with its old length |
| WeekWindows.ToggleRule | src/AdminPanel.jsx:182-205 | after a toggle: newly linked copies its predecessor, newly unlinked takes the seven days from its end, later weeks follow |
| WeekWindows.ResetRule | src/AdminPanel.jsx:213-225 | after a reset: the first week untouched, every later week a copy (linked) or seven days from its predecessor's end |
| WeekWindows.CascadeIdempotent | src/AdminPanel.jsx:162-177 | walking twice from the same week is walking once |
| WeekWindows.ResetIdempotent | src/AdminPanel.jsx:210-228 | resetting twice is resetting once |
| WeekWindows.InitialWindows | src/AdminPanel.jsx:279-289 | weeks `1..maxJ`, seven days each, back to back, none linked |
| WeekWindows.BuildWindows | src/AdminPanel.jsx:279-289 | the schedule loop of season creation builds those windows |
| WeekWindows.InitialIsReset | src/AdminPanel.jsx:279-289 | the schedule a new season starts with is already in one-week intervals: `resetCalendarioSemanas` would leave it as it is |
| Season.HandleAssign | src/AdminPanel.jsx:249-256 | the assignment loop gives the filtered divisions plus the push |
| Season.AssignedSpec | src/AdminPanel.jsx:250-254 | the user ends up once in division `div` when `div > 0` and in no other division; every other id keeps its count everywhere |
| Season.AssignedKeepsOrder | src/AdminPanel.jsx:252 | the other ids of a division keep their order |
| Season.UpdateResultSpec | src/AdminPanel.jsx:149-153 | only the rows with that id change, and only in their score and played columns |
| Season.LeagueTable.UpdateMatch | src/AdminPanel.jsx:148-156 | `handleUpdateMatch` stores the normalised scores and the played flag on the row with that id |
| Season.LeagueTable.SubmitResult | src/Partido.jsx:43-51 | a league card stores both scores on its row, marked played |
| Season.UpdateMatchRoundTrip | src/AdminPanel.jsx:150-151 | typing back a stored score, or clearing the field, stores the same result again |
| Season.MaxWeek | src/AdminPanel.jsx:275 | the running `Math.max` is at least its start, bounds every week, and is the start or some fixture's week |
| Season.CreateSeason | src/AdminPanel.jsx:263-295 | every division with two or more ids gets its fixtures stamped with season and division, then weeks `1..maxJ` are laid out from the start |
| Season.RosterPicked | src/AdminPanel.jsx:273 | every shuffled player is a user assigned to the division |
| Season.DraftSpec | src/AdminPanel.jsx:270-277 | every new match belongs to a division with two or more ids, is between two different players of it, and falls in a week from 1 to `maxJ` |
| Season.MatchHasWeek | src/AdminPanel.jsx:275-289 | every new match's week has a seven-day window in the new schedule |
| Season.DraftMaxJ | src/AdminPanel.jsx:275 | `maxJ` is at least the length of every division's schedule |
| Playoffs.BracketSize | src/AdminPlayoffs.jsx:194 | the bracket is a power of two that holds all entrants and is less than twice their number |
| PlayoffProperties.BracketSizeSmallest | src/AdminPlayoffs.jsx:194 | no smaller power of two holds them |
| Playoffs.RealTiesRange | src/AdminPlayoffs.jsx:196 | with two or more entrants the number of real first-round ties lies in `1..bracketSize/2` |
| Playoffs.RealTieSides | src/AdminPlayoffs.jsx:246-248 | a real tie takes the next two shuffled entrants |
| Playoffs.ByeSides | src/AdminPlayoffs.jsx:249-252 | a bye tie takes the next entrant and leaves the away side empty |
| Playoffs.GenerateRound | src/AdminPlayoffs.jsx:218-288 | one pass of the round loop: the round's windows, then its ties in order; the entrant index ends at the end of the list |
| Playoffs.GeneratePlayoff | src/AdminPlayoffs.jsx:186-288 | fewer than two entrants is refused; otherwise the rounds from the first to the Final are planned |
| Playoffs.FindFromFirst | src/AdminPlayoffs.jsx:389 | `findIndex` returns the first matching position, or -1 when none matches |
| PlayoffProperties.FindOwnName | src/AdminPlayoffs.jsx:389 | each round name is found at its own position, whatever its case |
| PlayoffProperties.NextOfOwnName | src/AdminPlayoffs.jsx:389-390 | the round after `orderRondas[k]` is `orderRondas[k + 1]`, and nothing follows the Final |
| PlayoffProperties.NextRoundHalves | src/AdminPlayoffs.jsx:22-23 | the round after the one for `size` entrants is the one for `size / 2` |
| PlayoffProperties.NextRoundOfUnknown | src/AdminPlayoffs.jsx:389-390 | a name that is no round has index -1, so `orderRondas[0]` is taken as its next round |
| PlayoffProperties.RoundsAt | src/AdminPlayoffs.jsx:218-288 | one round per halving of the size, round `j` being the round of `size / 2^j` entrants |
| PlayoffProperties.LastRoundIsFinal | src/AdminPlayoffs.jsx:218 | starting from a power of two, the last round has two entrants |
| PlayoffProperties.TieShape | src/AdminPlayoffs.jsx:256-281 | a tie is its first leg, then its mirror when a second leg is due; the first leg is labelled `X (Ida)` or `X` |
| PlayoffProperties.FirstRoundBye | src/AdminPlayoffs.jsx:245-269 | a first-round tie always has a home entrant; its away side is empty exactly for the byes; byes get no second leg |
| PlayoffProperties.FirstRoundSeatsEveryone | src/AdminPlayoffs.jsx:242-253 | the first legs of the first round seat every shuffled entrant exactly once |
| PlayoffProperties.LaterRoundsEmpty | src/AdminPlayoffs.jsx:243-245 | every round after the first starts with both sides empty |
| PlayoffProperties.FirstLegsInOrder | src/AdminPlayoffs.jsx:240-260 | a round has `size / 2` first legs with orders `0..size/2-1`, all labelled alike |
| PlayoffProperties.SecondLegsMirror | src/AdminPlayoffs.jsx:268-279 | every second leg swaps home and away, is labelled `X (Vuelta)` and opens one minute after its first leg closes |
| PlayoffProperties.RoundRowCount | src/AdminPlayoffs.jsx:242-281 | a round has one row per tie plus one per second leg; first-round byes have none |
| PlayoffProperties.SecondLegsOrdered | src/AdminPlayoffs.jsx:242-281 | second legs come in tie order, so no tie has two |
| PlayoffProperties.RoundWithin | src/AdminPlayoffs.jsx:224-287 | every row of a round opens at or after its start and closes before the next round starts |
| PlayoffProperties.RoundsDisjoint | src/AdminPlayoffs.jsx:224-287 | every row of an earlier round closes before any row of a later round opens |
| PlayoffTable.Rewrite | src/AdminPlayoffs.jsx:451-454 | an `update().eq()` rewrites exactly the selected rows |
| PlayoffTable.ByeEntrant | src/AdminPlayoffs.jsx:382-388 | there is a bye entrant exactly when one side is present, and it is that side |
| PlayoffTable.PromoteByeFrame | src/AdminPlayoffs.jsx:393-400 | bye promotion writes only the winner's column (home for an even order), and only on the next round's tie `order / 2` |
| PlayoffTable.PromoteByeSeats | src/AdminPlayoffs.jsx:386-400 | with exactly one side present and a next round, that player is seated in the winner's column; otherwise nothing changes |
| PlayoffTable.NoPromotionFromFinal | src/AdminPlayoffs.jsx:390-392 | a bye in the Final promotes nobody |
| PlayoffTable.Table.CheckAndPromoteBye | src/AdminPlayoffs.jsx:380-402 | the table after `checkAndPromoteBye` is the bye promotion decided on the group's first row |
| PlayoffTable.FirstWith | src/AdminPlayoffs.jsx:480-481 | `find` returns the first leg of the tie whose label has the mark, and nothing exactly when no leg has it |
| PlayoffTable.SaveScoreBlank | src/AdminPlayoffs.jsx:444 | an empty score field saves nothing |
| PlayoffTable.SaveScoreStores | src/AdminPlayoffs.jsx:447-454 | otherwise the match's row holds both parsed scores and is played |
| PlayoffTable.SaveScorePromotes | src/AdminPlayoffs.jsx:497-512 | the next round's tie `order / 2` is always overwritten in the winner's column with the winner, which may be none |
| PlayoffTable.SaveScoreFrame | src/AdminPlayoffs.jsx:451-512 | no other row changes |
| PlayoffTable.BracketWinnerSpec | src/AdminPlayoffs.jsx:466-493 | single leg: the strictly higher score wins, else none; two legs: a winner only when both legs are played, and on mirrored legs the higher aggregate wins |
| PlayoffTable.Table.SaveBracketScore | src/AdminPlayoffs.jsx:443-519 | the table after `saveBracketScore` is the saved score followed by the promote-or-clear |
| PlayoffTable.AssignTwoRows | src/AdminPlayoffs.jsx:169-181 | with two legs the first gets the field and the second the opposite column, then the bye check runs |
| PlayoffTable.AssignKeepsMirror | src/AdminPlayoffs.jsx:162-175 | the choice goes into the field on the first leg and into the other column on the second, so mirrored legs stay mirrored |
| PlayoffTable.Table.UpdateMatchPlayer | src/AdminPlayoffs.jsx:161-184 | the table after `updateMatchPlayer` is the assignment followed by the bye check |
| PlayoffTable.SweepKeepsShape | src/AdminPlayoffs.jsx:300-307 | the bye sweep after generation writes only player columns |
| PlayoffTable.Table.InsertAndPromoteByes | src/AdminPlayoffs.jsx:290-307 | the planned rows are inserted, then the bye check runs on each first-round tie; afterwards every first-round tie with exactly one player has that player in its column on each row of its next-round tie (through `SweepSeatsByes`) |
| PlayoffTable.SweepSeatsByes | src/AdminPlayoffs.jsx:300-307 | after the sweep over the distinct first-round orders, each tie's bye entrant sits in its column (home for an even order, away for an odd one) on every row of next-round tie `order / 2`; no later tie overwrites it |
| PlayoffTable.PromotionBreaksMirror | src/AdminPlayoffs.jsx:396-400 | as written, promotion into a two-legged round writes the same column on both legs, so a fresh tie's legs are no longer mirrored |
| PlayoffTable.PromoteByeMirroredSpec | src/AdminPlayoffs.jsx:393-400 | corrected: the first leg gets the entrant in its column, the second leg in the other, and mirrored legs stay mirrored |
| PlayoffViews.SortedRoundKeysSpec | src/AdminPlayoffs.jsx:368-378 | every base round present gets one column, with no repeats, in round order |
| PlayoffViews.BracketGroupsCover | src/AdminPlayoffs.jsx:368-376 | every row of a round lands in the group of its own match order |
| PlayoffViews.BracketGroupShape | src/AdminPlayoffs.jsx:368-376 | groups are non-empty, hold only rows of the round with the group's order, and come in ascending order |
| PlayoffViews.FirstRoundChoicesSpec | src/AdminPlayoffs.jsx:409-417 | in the first round a player is offered exactly when not seated in a row with that exact label, or when they are the slot's own occupant |
| PlayoffViews.FeederChoicesSpec | src/AdminPlayoffs.jsx:421-440 | later rounds offer the players seated in the two feeding ties, or everyone when those are empty |
| PlayoffViews.PrevRoundSpec | src/AdminPlayoffs.jsx:421 | the previous round is the one whose next round is this one |
| PlayoffViews.TwoLeggedOffersEveryone | src/AdminPlayoffs.jsx:409-440 | labels are compared exactly, so in a two-legged bracket every player is offered |
| PlayoffViews.CalendarRows | src/AdminPlayoffs.jsx:74-121 | the calendar loop pushes each label's rows and then sorts by start date |
| PlayoffViews.EntriesForLegs | src/AdminPlayoffs.jsx:84-106 | a two-legged label gives an Ida and a Vuelta row, the Ida window being the earliest and no later than the Vuelta |
| PlayoffViews.EntriesForSingle | src/AdminPlayoffs.jsx:107-115 | a single-leg label gives one row with the window of its first row |
| PlayoffViews.CalendarFromData | src/AdminPlayoffs.jsx:74-121 | the calendar is in start order and every row shows the window of a row of the playoff with the same label |
| PlayoffViews.CalendarCovers | src/AdminPlayoffs.jsx:77-117 | every label of the playoff has a calendar row |
| ResultEntry.SubmitSpec | src/Partido.jsx:27-60 | an empty score is refused; then a card missing a player id; a playoff row without a round label fails after saving; any other card is saved |
| ResultEntry.SingleLegWinnerSpec | src/Partido.jsx:72-74 | a single leg is won by the strictly higher score; equal scores or `NaN` give no winner |
| ResultEntry.IdaWinnerSpec | src/Partido.jsx:78-84 | on a first leg against a mirrored partner, the player with more goals over both legs wins |
| ResultEntry.VueltaSumMixesPlayers | src/Partido.jsx:85-91 | as written, a second-leg card can promote the player with fewer goals over both legs |
| ResultEntry.VueltaWinnerSpec | src/Partido.jsx:85-91 | corrected: on a second leg the player with more goals over both legs wins |
| ResultEntry.PartnerSpec | src/Partido.jsx:63-76 | the other leg is the first other row with the same playoff and order, whatever its label, and there is one exactly when such a row exists |
| ResultEntry.PromoteShape | src/Partido.jsx:96-111 | promotion writes the winner in the winner's column of tie `order / 2` and nothing else |
| ResultEntry.Guardar | src/Partido.jsx:26-117 | `guardar` reports the outcome, writes the score to the league or playoff table, and promotes the winner |
| ResultEntry.PostPlayoffCard | src/Partido.jsx:43-117 | the playoff path, once the card is accepted |
| ResultEntry.GuardarTouchesOneTable | src/Partido.jsx:23-56 | a refused card writes nothing; a league card touches only `matches`, a playoff card only `playoff_matches` |
| ResultEntry.GuardarStores | src/Partido.jsx:43-51 | an accepted playoff card stores both parsed scores on its row, marked played |
| ResultEntry.GuardarPromotes | src/Partido.jsx:96-111 | with a winner and a next round, every row of tie `order / 2` gets the winner in its column |
| ResultEntry.GuardarDrawKeepsSlot | src/Partido.jsx:96 | without a winner only the card's row changes, so an earlier promotion stays |
| ResultEntry.GuardarFrame | src/Partido.jsx:48-111 | only the card's row and the next-round slot are written |
| ResultEntry.NoPromotionPastFinal | src/Partido.jsx:97-101 | a Final card only saves its own row |
| ResultEntry.Reference | src/Partido.jsx:248-250 | the reference row is the player's first row of that playoff in its current round |
| ResultEntry.ReferenceSpec | src/Partido.jsx:248-252 | a reference exists exactly when the player has such a row |
| ResultEntry.CardsOfHas | src/Partido.jsx:252-266 | one playoff's cards are exactly the player's rows in the reference window with both sides known, tagged with the playoff's name |
| ResultEntry.LoadPlayoffCards | src/Partido.jsx:233-270 | each active playoff appends its cards in turn |
| ResultEntry.PlayoffCardsSound | src/Partido.jsx:226-268 | every listed card comes from an active playoff |
| ResultEntry.PlayoffCardsComplete | src/Partido.jsx:226-268 | every card of every active playoff is listed |
| BracketView.StripMark | src/Clasificacion.jsx:89 | `replace(/\(.*\)/g, '')` removes a parenthesised mark after a name without parentheses |
| BracketView.RemoveLegWordsSpace | src/Clasificacion.jsx:89 | the leg-word removal cannot span a trailing space |
| BracketView.BaseOfLegLabel | src/Clasificacion.jsx:89 | `X (Ida)` and `X (Vuelta)` have the base round of `X`, for any name without a parenthesis |
| BracketView.BaseOfLabels | src/Clasificacion.jsx:89 | every label the generator writes has the base round of the round's own name |
| BracketView.RoundColumnsSpec | src/Clasificacion.jsx:91-92 | every base round present gets one column, with no repeats, in bracket order |
| BracketView.RowsOfRound | src/Clasificacion.jsx:97 | a round's rows are exactly those with its base round |
| BracketView.NickKey | src/Clasificacion.jsx:103-104 | a nick key is never empty: a missing or blank nick reads `tbd` |
| BracketView.Partner | src/Clasificacion.jsx:107-115 | `pareja` holds exactly the unprocessed rows that join the row's tie |
| BracketView.PairLegs | src/Clasificacion.jsx:99-119 | the pairing loop gives the ties of the pairing fold |
| BracketView.PairLegsExact | src/Clasificacion.jsx:99-119 | every row of a round lands in exactly one tie, and each row of a tie joins the row that opened it |
| BracketView.OutcomeWinners | src/Clasificacion.jsx:150-174 | at most one side wins, only on a finished tie; a bye is exactly a first-round tie with a TBD side, it is finished and its present side wins; any other tie is finished exactly when each of its legs is played, and the higher aggregate wins |
| BracketView.AggregateIsGoals | src/Clasificacion.jsx:162-170 | the aggregate gives each player their goals over both legs, whether the second leg swaps the sides or not, counting every goal once |
| CalendarView.GroupWeeks | src/App.jsx:354-362 | the grouping loop gives the grouping of the schedule |
| CalendarView.GroupedExact | src/App.jsx:355-361 | reading the groups back gives every week in order with its own window; groups are non-empty and neighbours differ in their window |
| CalendarView.HighlightExact | src/App.jsx:388 | some row is highlighted exactly when the current week is in the schedule |
| CalendarView.DivisionListSpec | src/App.jsx:69 | the division list holds every division once, in ascending order |
| CalendarView.SelectedDivisionSpec | src/App.jsx:71-72 | the current division stays when listed; otherwise the lowest division is chosen |
| Directory.ParticipantsExact | src/Jugadores.jsx:51 | participant ids are distinct, and an id is listed exactly when it plays some match |
| Directory.FilterByNick | src/Jugadores.jsx:68-70 | the search keeps exactly the users whose nick contains the filter, ignoring case |
| Directory.FilterByNickAppend | src/Jugadores.jsx:68-70 | the search keeps list order |
| Directory.EmptyFilterKeepsNicked | src/Jugadores.jsx:68-70 | an empty search lists every user who has a nick, and no user without one |
| Directory.ContactUrl | src/Jugadores.jsx:72-84 | a handle gives the prefix and the handle with its first `@` cut out; without a handle, a phone gives `+` and the phone filtered to its digits; neither gives no link |
| Directory.ContactUrlSpec | src/Jugadores.jsx:72-114 | the button is shown exactly when a link can be built; the handle loses only its first `@`; a phone link is exactly `https://t.me/+` and the phone's digits, and carries only digits |

## Left out

- Persistence: every Supabase call, React state and effects, `alert`, `prompt`, `confirm` and
  rendering are outside the model. A table is a sequence of rows and a write is a rewrite of it.
  Sequential writes are not transactional in the source, and that is not modelled either.
  Errors returned by the database are not modelled: every write succeeds.
- The random shuffles (`src/AdminPanel.jsx:526`, `src/AdminPlayoffs.jsx:195`) are inputs. The
  model takes the already permuted roster.
- `Math.log2` and `Math.pow` (`src/AdminPlayoffs.jsx:194`) are floating point. The model uses
  the smallest power of two that holds the entrants, which is what they give for 2 to 32
  entrants. The round checkboxes at `src/AdminPlayoffs.jsx:829` are rendering.
- Dates are integer minutes:
  - `setDate(+7)` in local time is seven days of minutes, with no daylight-saving shift;
  - ISO and locale formatting (`formatToInput`, `formatDateSimple`, `toLocalISO`, `format`) is
    not modelled;
  - invalid dates (`NaN` in the bracket column header, `src/AdminPlayoffs.jsx:704-710`) are not
    modelled.
- Comparator sorts whose result depends on the engine are not modelled:
  - `pareja.sort` (`src/Clasificacion.jsx:116`): the legs of a tie keep fetch order, and
    `BracketView.AggregateIsGoals` holds for either order;
  - the sort by position in the previous round (`src/Clasificacion.jsx:124-132`);
  - the `(Vuelta)`-last comparator (`src/AdminPlayoffs.jsx:172`) is modelled only for two rows,
    where the engine compares the second row with the first (`PlayoffTable.LegOrder`);
  - the `localeCompare` sort of the player's cards by round (`src/Partido.jsx:273`): the cards
    keep the order in which they are collected.
- `toLowerCase` and `toUpperCase` map ASCII letters only. `localeCompare` (the profile order,
  `src/AdminPlayoffs.jsx:46`) is not modelled.
- Row ids and player ids are assumed truthy, and a playoff id of 0 is treated as present.
- The database's row order (the `find` at `src/Partido.jsx:248` and the `.order(...)` calls) is an
  input: the rows arrive in the order the query returns.
- `updateCalendarDates` and `juntarFechas` (`src/AdminPlayoffs.jsx:320-366`) are not modelled. They
  write a date typed in the calendar table to the rows of one label and copy the previous
  row's dates.
- `updateCurrentRound`, `crearTorneo`, `eliminarTorneo`, `checkExistingMatches`, `fetchSeasons`
  and `fetchPlayoffs` (`src/AdminPlayoffs.jsx:36-62, 127-159`) are single database calls with no
  logic to model.
- The round settings saved with a playoff (`src/AdminPlayoffs.jsx:202-210`) are not modelled.
  Generation reads the settings map directly.
- The league part of `cargar` (`src/Partido.jsx:199-224`) is a database query for the player's
  matches of the current week, with nothing computed.
- Season.HandleAssign: `Object.keys` is given as the `keys` argument. The target division must
  exist, since the code would push onto `undefined` otherwise.
- Season.CreateSeason: each division's shuffle is given as an input, and the season number is
  given already parsed.
- Playoffs.GeneratePlayoff: a bracket for more than 32 entrants has no name for its first round.
  Its rows are stored without a label, as the source would store `undefined`.
- The tie `order / 2` written by promotion is `Math.floor(parseInt(order) / 2)`. Orders are
  naturals in the model, so string orders are not modelled.
- ResultEntry.Guardar: models the source as written, including the second-leg sum of
  `src/Partido.jsx:86-90` (see the findings). The corrected winner, `IntendedCardWinner`, is
  proved separately and is not wired into `Guardar`, because the player path is modelled as it
  behaves.
- PlayoffTable.Table.SaveBracketScore and PlayoffTable.Table.CheckAndPromoteBye: the
  promotion writes the same column on both legs of a two-legged next round, as the source does.
  The corrected promotion `PromoteByeMirrored` is proved separately.
- The played flags of a row are one boolean. `BracketView.CheckPlayed` does not tell `played`,
  `is_played` and the string `'true'` apart (`src/Clasificacion.jsx:150`), and neither does the
  partner check of `src/Partido.jsx:77`.

## Findings

| source | as written | input that shows it | evidently intended | confidence | as-written member | corrected member |
|---|---|---|---|---|---|---|
| src/Partido.jsx:85-91 | on a second-leg card the code adds the first leg's home goals to the card's home goals, and the first leg's away goals to the card's away goals; with mirrored legs those belong to different players | first leg A 1-0 B, played; then the second-leg card B 2-0 A; A is promoted although B leads 2-1 on aggregate | each player's goals over both legs: first-leg home plus second-leg away for A, and the reverse for B | not executed | ResultEntry.VueltaSumMixesPlayers | ResultEntry.VueltaWinnerSpec |
| src/AdminPlayoffs.jsx:396-400 | bye promotion into a two-legged next round writes the same column (home for an even order) on both legs, since `ilike('round', 'X%')` selects both | a bye in tie 0 of a bracket whose next round is two-legged: the entrant becomes home in both the Ida and the Vuelta, so the legs are no longer mirrored | the first leg gets the entrant in its column and the second leg in the opposite one, as `updateMatchPlayer` does | not executed | PlayoffTable.PromotionBreaksMirror | PlayoffTable.PromoteByeMirroredSpec |
