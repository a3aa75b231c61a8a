# Darts club Elo ranking — a Dafny model

`dart1.py` runs a small darts league. It keeps a player file (rating
"Elo" and game count "Spiele" per player) and a match log. Each log row
holds:

- the match day ("Datum") and the two players ("Spieler A", "Spieler B");
- the legs and averages of each side;
- the two rating deltas of the last replay ("Elo A", "Elo B").

The ratings are never updated one match at a time. Every change to the log
ends in `berechne_elo_aus_log`, which does the following:

- it adds every name the log mentions to the player file;
- it resets every player to 1000 with no games;
- it replays the log in stored order;
- for each row it rounds the new ratings and writes them, caches the
  rounded deltas in the row, and counts one game per side.

The app also draws a match-day schedule (`auslosen`). Each present player
gets `gegner` opponents, with up to 5000 random attempts.

This project models the following parts, and proves what they promise:

- the recompute;
- the three log edits: a new match, a changed row and a deleted row;
- the score rule;
- the player statistics: games, wins, losses, leg difference and Elo-Punkte;
- the three-game form;
- the draw.

Modules:

- `records.dfy`, module `Records`: players, match rows, `START_ELO` and
  helpers over the log.
- `elo.dfy`, module `Elo`: the score rule, Python's rounding, and one replay
  step as a function. Also the replay and the recompute as functions, with
  their laws.
- `league.dfy`, module `League`: class `Club`, which holds the player
  table and the log as fields. Its methods are the recompute (the replay
  loop is a `while` loop over the rows) and the three log edits. Each edit
  is proved against the functions of `Elo`.
- `stats.dfy`, module `Stats`: the player view's figures and the form, as
  folds over the rows that name a player, with their link to the replayed
  rating.
- `draw.dfy`, module `Draw`: the draw as three nested loops (attempts,
  players, candidates) over a map from player to set of opponents.

The floating-point rating formula is a parameter `rule: EloInput -> RawDelta`.
It covers the expected score, the G, D and M factors and the K factor, and
returns the two unrounded deltas. Everything around the formula is modelled
exactly:

- which ratings are read;
- the score `sa`;
- Python's `round`, which rounds a tie to the even neighbour;
- what is written where and in which order;
- what is counted.

`random.shuffle` is a parameter too. Any function that returns a
rearrangement of its input is accepted.

One might expect the rounded delta to be added to the rating. The code
instead rounds `ea + delta_a` for the rating (`dart1.py:82`) and rounds
`delta_a` alone for the cached delta (`dart1.py:84`), and the model follows
the code. These two can
differ by one point when the delta is exactly halfway between two integers.
`Elo.RoundShift` bounds the difference and `Elo.RoundShiftCanDiffer`
exhibits it. `Stats.ReplayRatingTracksDeltas` carries the bound through a
whole replay.

## Model

| member | source | states |
|---|---|---|
| Records.Involving | dart1.py:374 | the rows of a player are exactly the log rows naming them on either side, and there are no more of them than rows in the log |
| Records.NameSet | dart1.py:44 | a name is in the set exactly when some row names it on side A or side B |
| Records.NamesCoverNameSet | dart1.py:44-47 | the names met column by column (all of column A, then all of column B) are exactly the names of the log |
| Elo.ScoreA | dart1.py:59-60 | A scores 1 exactly when A took strictly more legs, and 0 otherwise |
| Elo.ScoresOfSwappedSides | dart1.py:59-60 | with different leg counts, exactly one orientation of a row scores 1; with equal legs, both orientations give the first-listed side a loss |
| Elo.RoundHalfEven | dart1.py:82-85 | Python's `round`: the result is within one half of the argument, and a tie goes to the even neighbour |
| Elo.RoundShift | dart1.py:82-84 | rounding rating plus delta differs from rating plus rounded delta by at most one, and not at all unless the delta is a tie and the rating is odd |
| Elo.RoundShiftCanDiffer | dart1.py:82-84 | concrete case: rating 1001 and delta 0.5 move the rating to 1002 but cache a delta of 0 |
| Elo.Step | dart1.py:52-88 | one replayed row: the formula receives both current ratings, the row's legs and averages, A's score and B's score 1 − A's; B's rating becomes the rounded sum of its old rating and delta, and so does A's unless A is B; the row caches both rounded deltas; it keeps the table's keys, records the same game, adds one game per side (two for a self-match) and leaves players it does not name untouched |
| Elo.Fresh | dart1.py:48-49 | every player of the table, at START_ELO with no games |
| Elo.Sides | dart1.py:87-88 | the games one row adds to a player: none exactly when the row does not name them, at most two |
| Elo.Plays | dart1.py:87-88 | the games the whole log adds to a player: at most two per row |
| Elo.Replay | dart1.py:51-88 | the replay keeps the table's keys and returns a log recording the same games as its input |
| Elo.Recomputed | dart1.py:42-92 | the recomputed table holds the registered players plus every name in the log; the returned log records the same games |
| Elo.ReplayCountsGames | dart1.py:87-88 | after a replay, a player's game count has grown by the number of sides they took in the rows |
| Elo.ReplayLeavesBystanders | dart1.py:51-88 | a player the replayed rows never name keeps rating and game count |
| Elo.PlaysCountsRows | dart1.py:87-88 | the sides a player takes are at least the rows naming them, and equal to them in a log without self-matches |
| Elo.RecomputeResetsAndCounts | dart1.py:44-49 | after a recompute of a log without self-matches, every player's game count is the number of rows naming them, and a player without rows stands at START_ELO with no games |
| Elo.StepIgnoresCachedDeltas | dart1.py:52-85 | a step gives the same result for two rows that differ only in their cached deltas |
| Elo.ReplayIgnoresCachedDeltas | dart1.py:51-88 | a replay gives the same table and log for two logs that differ only in their cached deltas |
| Elo.RecomputeIdempotent | dart1.py:42-92 | recomputing the output of a recompute gives back the same table and log |
| Elo.ReplayAppend | dart1.py:51-88 | replaying a log with one more row is replaying the log and then taking one step on the last row |
| Elo.ReplayPrefix | dart1.py:51-88 | the cached deltas of the first rows of a replay depend on those rows alone |
| League.AppendIsOneStep | dart1.py:95-109 | on a log whose table is in sync with it, appending a row and recomputing takes exactly one step from the current table |
| League.DeleteUndoesAppend | dart1.py:354-356 | deleting the row just appended and recomputing restores the ratings, game counts and cached deltas from before |
| League.ChangeKeepsEarlierRows | dart1.py:338-356 | editing or deleting rows of an in-sync log keeps the cached deltas of every row before the change |
| League.SelfMatchCountsTwice | dart1.py:338-347 | concrete case: a row "X vs X", which the edit form accepts, counts as two games for X although one row names X |
| League.Club.Recompute | dart1.py:42-92 | the new table and log are the recompute of the old ones, and the club is then in sync |
| League.Club.AddLogNames | dart1.py:44-47 | the table gains every name in the log, new names at START_ELO with no games; existing entries and the log are unchanged |
| League.Club.ReplayLog | dart1.py:51-88 | the replay loop leaves the table and log equal to the replay of the old ones |
| League.Club.ReplayRow | dart1.py:52-88 | the imperative row body gives the table and the row of one replay step, writing the row back in place and no other |
| League.Club.LogMatch | dart1.py:95-109 | the log becomes the old log plus the new row with zero cached deltas, recomputed; on an in-sync club with both players registered, this is one step from the old table |
| League.Club.EnterMatch | dart1.py:254-266 | the match is entered exactly when the two players differ; otherwise nothing changes; a log without self-matches stays so |
| League.Club.EditMatch | dart1.py:338-347 | the club becomes the recompute of the log whose row idx has the new day, players, legs and averages; on an in-sync club with both players registered, earlier rows keep their cached deltas |
| League.Club.EditMatchChecked | dart1.py:338-347 | the edit is applied exactly when the two players differ, as entry demands: then the club becomes the recompute of the log with row idx's fields replaced, and earlier rows keep their cached deltas; otherwise nothing changes; a log without self-matches stays so |
| League.Club.DeleteMatch | dart1.py:354-356 | the club becomes the recompute of the log without row idx: one row fewer, earlier rows keep their deltas, no self-match appears |
| Stats.Wins | dart1.py:376-379 | the wins are a count between 0 and the number of games |
| Stats.Losses | dart1.py:381 | the losses are a count between 0 and the number of games |
| Stats.WinsAreRowsWonByLegs | dart1.py:376-381 | for the rows of a player, without self-matches, the wins are exactly the rows with more own legs, and the losses are exactly the rest, leg ties included |
| Stats.IsWin | dart1.py:377-378 | a win names the player; on a row without self-match it is a win exactly when the player took more legs; on a self-match any leg difference is a win |
| Stats.LegDiff | dart1.py:383-388 | the leg difference equals the legs won minus the legs conceded |
| Stats.DeltaSum | dart1.py:396 | the delta sum summed from the front equals the sum of all rows but the last plus the last row's own delta |
| Stats.FoldsAppend | dart1.py:376-398 | the delta sum, the wins and the leg difference of two stretches of rows add up |
| Stats.EloPoints | dart1.py:395-398 | Elo-Punkte as written: START_ELO for a player without rows, otherwise the bare sum of the cached deltas |
| Stats.EloPointsFromStart | dart1.py:395-398 | corrected Elo-Punkte: START_ELO plus the delta sum, which is START_ELO for a player without rows |
| Stats.EloPointsJumpsOnFirstGame | dart1.py:395-398 | concrete case: Elo-Punkte as written shows 1000 with no games and 0 after one game with a zero delta, where the corrected figure shows 1000 |
| Stats.EloPointsFromStartTracksRating | dart1.py:395-398 | after a recompute without self-matches, the corrected Elo-Punkte is within one point per game of the rating, and equal to it when no delta is a rounding tie |
| Stats.Last | dart1.py:184 | the last n rows (all rows if fewer) form a suffix of the player's rows of length min(n, count) |
| Stats.Form | dart1.py:184-185 | the form is the player's whole delta sum less the sum over the rows before their last three |
| Stats.FormIsRecentPart | dart1.py:184-185 | with at most three games the form is the whole delta sum, and with one to three games it equals Elo-Punkte as written |
| Stats.StepMovesByOwnDelta | dart1.py:82-85 | one step moves a named player's rating by the delta cached for them, give or take one point, and exactly so without ties |
| Stats.ReplayRatingTracksDeltas | dart1.py:51-88 | after a replay without self-matches, a player's rating is the start rating plus their cached deltas, within one point per row naming them, and exactly so without ties |
| Draw.Candidates | dart1.py:454 | the candidates for s are exactly the listed players other than s that s has not yet drawn, taken from the list without adding any |
| Draw.Empty | dart1.py:451 | the fresh pairing has one empty entry per present player and satisfies the draw invariant for any bound |
| Draw.PairAll | dart1.py:457-460 | the inner loop as a function: each candidate in list order is offered to s, and the players stay the same |
| Draw.Attempt | dart1.py:451-460 | one attempt as a function: from empty sets, each listed player in turn gets the shuffled list of players still open to them offered; the players of the result are exactly the present players |
| Draw.PairWith | dart1.py:457-460 | the loop computes PairAll; going through s's shuffled candidates keeps the pairing symmetric, free of self-pairs and within the bound; nothing is removed; other players gain at most s; s gains only candidates, and a candidate left out has s or itself at gegner opponents; with exactly gegner + 1 players every candidate is taken |
| Draw.DrawAttempt | dart1.py:451-460 | the loops compute Attempt for this attempt number; an attempt yields a valid pairing over the present players; it is greedy: two different players left unpaired never both have fewer than gegner opponents; with exactly gegner + 1 players it pairs everyone with everyone |
| Draw.Auslosen | dart1.py:446-465 | too few players give None before any attempt; otherwise the result is the first of the 5000 attempts in which everyone has exactly gegner opponents, every earlier attempt failing that test, and None means all 5000 failed; a returned schedule is symmetric and free of self-pairs; with exactly gegner + 1 players the first attempt succeeds; an odd players times gegner gives None, and with at least gegner + 1 players only after all 5000 attempts |
| Draw.FilledIsRegular | dart1.py:462 | the success test over the player list holds exactly when every player has gegner opponents |
| Draw.RegularNeedsEnoughPlayers | dart1.py:447-448 | a non-empty schedule giving everyone gegner opponents needs at least gegner + 1 players |
| Draw.RegularNeedsEvenProduct | dart1.py:462-465 | a symmetric schedule without self-pairs giving everyone gegner opponents has an even players times gegner |

## Left out

- The Streamlit pages, HTML and the number formatting (`fmt`, `fmt_elo`) are
  not modelled. Neither are the ranking sort, the ranking view's places and
  the player pickers. These present results and do not compute them.
- CSV reading and writing (`lade_*`, `speichere_*`) is not modelled. The
  club's fields stand for the two files.
- The rating formula (`erwartung`, the G, D and M factors, `K_FAKTOR`) is
  the `rule` parameter, not a definition. It is floating point.
- Float representation error is not modelled. The rounding works on exact
  reals, and the sum `ea + delta_a` is exact.
- The season multiplier in the admin page is not modelled. It is a separate
  one-off rescale. The admin password check is not modelled either.
- The average (`gesamt_avg`) is not modelled. It is a floating-point
  division used only for display.
- Player registration (`dart1.py:419-421`) is not modelled: it only adds a
  name at 1000 with no games. The club's constructor takes any starting
  table instead.
- `dropna` in the name collection is not modelled. NaN names cannot occur in
  the model.
- The player table is a map, so the DataFrame's index order is not
  represented. The recompute does not depend on it.
- The edit and delete index `idx` is a DataFrame label. It is modelled as a
  position. The two agree because the log is written without its index
  (`dart1.py:34`) and every read gives it a fresh 0..n-1 index
  (`dart1.py:30`); the page of past games reads it anew (`dart1.py:274`).
- Stats.LegDiff: a player without rows gets 0. What pandas returns for
  `sum` over an `apply` on an empty frame is not modelled.
- `random.shuffle` is the `shuffle` parameter. The model proves the draw
  correct for every rearrangement, not for a random distribution.
- Draw.Auslosen: `tries` is a ghost counter of attempts. It is not part of
  the source's result.
- Draw.Auslosen: it does not state which schedule is found when several
  exist, nor that a schedule is found whenever one exists. The source's
  random search promises neither.
- The caller's rule that the draw needs at least four present players
  (`dart1.py:467-468`) is outside `auslosen` and is not modelled.

## Findings

| source | as written | input that shows it | evidently intended | confidence | as-written member | corrected member |
|---|---|---|---|---|---|---|
| dart1.py:338-347 | the edit form writes both players without checking that they differ | edit a row to "X" vs "X" with legs 3:1; the recompute gives X two games for one row | refuse a self-match, as match entry does at dart1.py:255 | high; not executed | League.SelfMatchCountsTwice | League.Club.EditMatchChecked |
| dart1.py:395-398 | Elo-Punkte is the bare sum of the cached deltas when the player has games, but START_ELO when they have none | a player with no games shows 1000; after one game with a zero delta they show 0 | START_ELO plus the delta sum in both cases, which tracks the rating | medium; not executed | Stats.EloPointsJumpsOnFirstGame | Stats.EloPointsFromStartTracksRating |
