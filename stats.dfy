/**
 * The per-player figures computed from the match log: games, wins, losses
 * and leg difference (player view), the Elo-Punkte figure (player view) and
 * the form of the last three games (ranking view). Each is a fold over the
 * rows that name the player, in log order.
 */
module Stats {
  import opened Records
  import opened Elo

  /**
   * The row is a win for `p`: `p` is side A with more legs, or side B with
   * more legs. On a self-match both tests apply, so any leg difference wins.
   */
  predicate IsWin(m: Match, p: Player)
    ensures IsWin(m, p) ==> Involves(m, p)
    ensures Involves(m, p) && m.a != m.b ==> (IsWin(m, p) <==> OwnLegs(m, p) > OppLegs(m, p))
    ensures m.a == p && m.b == p ==> (IsWin(m, p) <==> m.legsA != m.legsB)
  {
    (m.a == p && m.legsA > m.legsB) || (m.b == p && m.legsB > m.legsA)
  }

  /** The legs `p` took in the row, read from side A when `p` is side A. */
  function OwnLegs(m: Match, p: Player): int {
    if m.a == p then m.legsA else m.legsB
  }

  /** The legs the other side took. */
  function OppLegs(m: Match, p: Player): int {
    if m.a == p then m.legsB else m.legsA
  }

  /** The signed leg margin of the row from `p`'s side. */
  function Margin(m: Match, p: Player): (d: int)
    ensures d == OwnLegs(m, p) - OppLegs(m, p)
  {
    if m.a == p then m.legsA - m.legsB else m.legsB - m.legsA
  }

  /** The cached delta of `p`'s side of the row. */
  function OwnDelta(m: Match, p: Player): int {
    if m.a == p then m.eloA else m.eloB
  }

  /** Siege: the number of rows that are a win for `p`. */
  function Wins(games: seq<Match>, p: Player): (w: nat)
    ensures w <= |games|
  {
    if games == [] then 0 else (if IsWin(games[0], p) then 1 else 0) + Wins(games[1..], p)
  }

  /** Niederlagen: every game that is not a win, so a drawn leg count is a loss. */
  function Losses(games: seq<Match>, p: Player): (l: nat)
    ensures l <= |games|
  {
    |games| - Wins(games, p)
  }

  /** Leg-Differenz: the sum of `p`'s signed leg margins, which is the legs won minus the legs conceded. */
  function LegDiff(games: seq<Match>, p: Player): (d: int)
    ensures d == LegsFor(games, p) - LegsAgainst(games, p)
  {
    if games == [] then 0 else Margin(games[0], p) + LegDiff(games[1..], p)
  }

  /** The legs `p` won over the rows. */
  function LegsFor(games: seq<Match>, p: Player): int {
    if games == [] then 0 else OwnLegs(games[0], p) + LegsFor(games[1..], p)
  }

  /** The legs `p` conceded over the rows. */
  function LegsAgainst(games: seq<Match>, p: Player): int {
    if games == [] then 0 else OppLegs(games[0], p) + LegsAgainst(games[1..], p)
  }

  /**
   * The sum of `p`'s cached deltas over the rows. Summing from the front, as
   * defined, equals summing from the back, which is how the most recent rows
   * split off.
   */
  function DeltaSum(games: seq<Match>, p: Player): (sum: int)
    ensures games != [] ==> sum == DeltaSum(games[..|games| - 1], p) + OwnDelta(games[|games| - 1], p)
  {
    if games == [] then 0
    else
      assert games[1..] != [] ==> games[..|games| - 1][1..] == games[1..][..|games| - 2];
      OwnDelta(games[0], p) + DeltaSum(games[1..], p)
  }

  /** Elo-Punkte as the player view computes it: the delta sum, or START_ELO for a player without games. */
  function EloPoints(games: seq<Match>, p: Player): (e: int)
    ensures games == [] ==> e == START_ELO
    ensures games != [] ==> e == DeltaSum(games, p)
  {
    if |games| > 0 then DeltaSum(games, p) else START_ELO
  }

  /** Elo-Punkte measured from the start rating in both cases. */
  function EloPointsFromStart(games: seq<Match>, p: Player): (e: int)
    ensures games == [] ==> e == START_ELO
  {
    START_ELO + DeltaSum(games, p)
  }

  /** The last `n` rows, or all of them when there are fewer. */
  function Last(games: seq<Match>, n: nat): (r: seq<Match>)
    ensures |r| == if |games| < n then |games| else n
    ensures games == games[..|games| - |r|] + r
  {
    if |games| <= n then games else games[|games| - n..]
  }

  /**
   * The form shown next to the rating: the sum of `p`'s deltas over their
   * last three rows, which is the whole delta sum less that of the older rows.
   */
  function Form(log: seq<Match>, p: Player): (f: int)
    ensures var games := Involving(log, p);
            f == DeltaSum(games, p) - DeltaSum(games[..|games| - |Last(games, 3)|], p)
  {
    var games := Involving(log, p);
    var recent := Last(games, 3);
    FoldsAppend(games[..|games| - |recent|], recent, p);
    DeltaSum(recent, p)
  }

  /** The rows `p` won by legs. */
  function Won(games: seq<Match>, p: Player): (r: seq<Match>)
    ensures forall m :: m in r <==> m in games && OwnLegs(m, p) > OppLegs(m, p)
  {
    if games == [] then []
    else (if OwnLegs(games[0], p) > OppLegs(games[0], p) then [games[0]] else []) + Won(games[1..], p)
  }

  /** The rows `p` did not win by legs: fewer legs or as many. */
  function NotWon(games: seq<Match>, p: Player): (r: seq<Match>)
    ensures forall m :: m in r <==> m in games && OwnLegs(m, p) <= OppLegs(m, p)
  {
    if games == [] then []
    else (if OwnLegs(games[0], p) <= OppLegs(games[0], p) then [games[0]] else []) + NotWon(games[1..], p)
  }

  /** Every row names `p`. */
  predicate AllInvolve(games: seq<Match>, p: Player) {
    forall m :: m in games ==> Involves(m, p)
  }

  /**
   * In a log without self-matches, a row counts as a win exactly when the
   * player took more legs than the opponent, and every other row, a leg tie
   * included, counts as a loss.
   */
  lemma {:induction false} WinsAreRowsWonByLegs(games: seq<Match>, p: Player)
    requires AllInvolve(games, p) && NoSelfMatch(games)
    ensures Wins(games, p) == |Won(games, p)|
    ensures Losses(games, p) == |NotWon(games, p)|
  {
    if games != [] {
      assert games[0] in games;
      assert forall m :: m in games[1..] ==> m in games;
      WinsAreRowsWonByLegs(games[1..], p);
    }
  }

  /** The wins and the delta sum of two stretches of rows add up. */
  lemma {:induction false} FoldsAppend(xs: seq<Match>, ys: seq<Match>, p: Player)
    ensures DeltaSum(xs + ys, p) == DeltaSum(xs, p) + DeltaSum(ys, p)
    ensures Wins(xs + ys, p) == Wins(xs, p) + Wins(ys, p)
    ensures LegDiff(xs + ys, p) == LegDiff(xs, p) + LegDiff(ys, p)
  {
    if xs == [] {
      assert xs + ys == ys;
    } else {
      assert (xs + ys)[0] == xs[0] && (xs + ys)[1..] == xs[1..] + ys;
      FoldsAppend(xs[1..], ys, p);
    }
  }

  /**
   * With three games or fewer the form is the whole delta sum, which is then
   * Elo-Punkte as displayed.
   */
  lemma FormIsRecentPart(log: seq<Match>, p: Player)
    ensures var games := Involving(log, p);
            |games| <= 3 ==> Form(log, p) == DeltaSum(games, p)
    ensures var games := Involving(log, p);
            0 < |games| <= 3 ==> Form(log, p) == EloPoints(games, p)
  {
    var games := Involving(log, p);
    assert |games| <= 3 ==> games[..0] == [];
  }

  /** The rows of `[x] + ys` that name `p`. */
  lemma InvolvingCons(x: Match, ys: seq<Match>, p: Player)
    ensures Involving([x] + ys, p) == (if Involves(x, p) then [x] else []) + Involving(ys, p)
  {
    assert ([x] + ys)[0] == x && ([x] + ys)[1..] == ys;
  }

  /** The formula never yields a delta that lies exactly halfway between two integers. */
  ghost predicate NoHalfDeltas(rule: EloRule) {
    forall e :: !IsHalf(rule(e).a) && !IsHalf(rule(e).b)
  }

  /**
   * One step moves the rating of a player it names by the rounded delta it
   * caches for that player, give or take the one point that the two roundings
   * can disagree by, and exactly when no delta is a tie.
   */
  lemma StepMovesByOwnDelta(rule: EloRule, t: Table, m: Match, p: Player)
    requires m.a in t && m.b in t && m.a != m.b && Involves(m, p)
    ensures var s := Step(rule, t, m);
            -1 <= s.0[p].elo - t[p].elo - OwnDelta(s.1, p) <= 1
    ensures var s := Step(rule, t, m);
            NoHalfDeltas(rule) ==> s.0[p].elo == t[p].elo + OwnDelta(s.1, p)
  {
    var ea, eb := t[m.a].elo, t[m.b].elo;
    var sa := ScoreA(m.legsA, m.legsB);
    var e := EloInput(ea, eb, m.legsA, m.legsB, m.avgA, m.avgB, sa, 1 - sa);
    var d := rule(e);
    RoundShift(ea, d.a);
    RoundShift(eb, d.b);
  }

  /**
   * After a replay without self-matches, a player's rating is where they
   * started plus the deltas cached in their rows, off by at most one point per
   * game from rounding, and exactly when no delta is a tie.
   */
  lemma {:induction false} ReplayRatingTracksDeltas(rule: EloRule, t: Table, rows: seq<Match>, p: Player)
    requires NamesIn(rows, t.Keys) && NoSelfMatch(rows) && p in t
    ensures var r := Replay(rule, t, rows);
            var drift := r.table[p].elo - t[p].elo - DeltaSum(Involving(r.log, p), p);
            -|Involving(rows, p)| <= drift <= |Involving(rows, p)|
    ensures var r := Replay(rule, t, rows);
            NoHalfDeltas(rule) ==> r.table[p].elo == t[p].elo + DeltaSum(Involving(r.log, p), p)
  {
    if rows != [] {
      ReplayCons(rule, t, rows);
      var s := Step(rule, t, rows[0]);
      var rest := Replay(rule, s.0, rows[1..]);
      assert rows[0] in rows;
      assert NoSelfMatch(rows[1..]) by {
        forall m | m in rows[1..] ensures m.a != m.b {
          assert m in rows;
        }
      }
      ReplayRatingTracksDeltas(rule, s.0, rows[1..], p);
      InvolvingCons(s.1, rest.log, p);
      InvolvingCons(rows[0], rows[1..], p);
      assert rows == [rows[0]] + rows[1..];
      var mine := if Involves(s.1, p) then [s.1] else [];
      FoldsAppend(mine, Involving(rest.log, p), p);
      if Involves(rows[0], p) {
        StepMovesByOwnDelta(rule, t, rows[0], p);
        assert DeltaSum(mine, p) == OwnDelta(s.1, p);
      } else {
        assert s.0[p] == t[p];
      }
    }
  }

  /**
   * The corrected Elo-Punkte tracks the rating the recompute gives: equal to
   * START_ELO for a player without games, within one point per game in
   * general, and equal when no delta is a tie.
   */
  lemma EloPointsFromStartTracksRating(rule: EloRule, table: Table, log: seq<Match>, p: Player)
    requires NoSelfMatch(log)
    requires p in table || p in NameSet(log)
    ensures var r := Recomputed(rule, table, log);
            p in r.table
            && -|Involving(log, p)| <= r.table[p].elo - EloPointsFromStart(Involving(r.log, p), p) <= |Involving(log, p)|
    ensures var r := Recomputed(rule, table, log);
            NoHalfDeltas(rule) ==> r.table[p].elo == EloPointsFromStart(Involving(r.log, p), p)
  {
    var keys := table.Keys + NameSet(log);
    NamesInNameSet(log, keys);
    ReplayRatingTracksDeltas(rule, Fresh(keys), log, p);
  }

  /**
   * Elo-Punkte as written jumps on a player's first game: with no games it
   * shows 1000, after one game with a zero delta it shows 0, though the
   * rating has not moved.
   */
  lemma EloPointsJumpsOnFirstGame()
    ensures EloPoints([], "X") == 1000
    ensures EloPoints([Match("1", "X", "Y", 3, 2, 50.0, 50.0, 0, 0)], "X") == 0
    ensures EloPointsFromStart([Match("1", "X", "Y", 3, 2, 50.0, 50.0, 0, 0)], "X") == 1000
  {
    var one := [Match("1", "X", "Y", 3, 2, 50.0, 50.0, 0, 0)];
    assert one[1..] == [];
  }
}
