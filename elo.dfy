/**
 * Rating bookkeeping: the score rule, Python's rounding, and the replay of the
 * match log that rebuilds every rating from START_ELO.
 *
 * The floating-point formula itself (expected score, the G, D and M
 * multipliers and the K factor) is an `EloRule` supplied by the caller: it
 * maps what one row sees to the two unrounded deltas. Everything around it
 * (who is read, what is rounded, what is written where, what is counted) is
 * modelled exactly.
 */
module Elo {
  import opened Records

  /** What the rating formula sees for one row: both current ratings, the legs, the averages and the scores. */
  datatype EloInput = EloInput(ea: int, eb: int, la: int, lb: int, avgA: real, avgB: real, sa: int, sb: int)

  /** `delta_a` and `delta_b` as the formula computes them, before rounding. */
  datatype RawDelta = RawDelta(a: real, b: real)

  type EloRule = EloInput -> RawDelta

  /** One row of the player table: the rating column and the games column. */
  datatype Standing = Standing(elo: int, spiele: nat)

  type Table = map<Player, Standing>

  /** What a replay produces: the rebuilt player table and the log with fresh cached deltas. */
  datatype Replayed = Replayed(table: Table, log: seq<Match>)

  /** A's score: a win needs strictly more legs, so equal legs are a loss for A. */
  function ScoreA(la: int, lb: int): (sa: int)
    ensures sa == 0 || sa == 1
    ensures sa == 1 <==> la > lb
  {
    if la > lb then 1 else 0
  }

  /**
   * Swapping the sides swaps the scores when the legs differ; with equal legs
   * both orientations give the side listed first a loss.
   */
  lemma ScoresOfSwappedSides(la: int, lb: int)
    ensures la != lb ==> ScoreA(la, lb) + ScoreA(lb, la) == 1
    ensures la == lb ==> ScoreA(la, lb) == 0 && ScoreA(lb, la) == 0
  {
  }

  /** `x` lies exactly halfway between two integers. */
  predicate IsHalf(x: real) {
    x - x.Floor as real == 0.5
  }

  /** Python's `round` on a number: nearest integer, ties to the even one. */
  function RoundHalfEven(x: real): (r: int)
    ensures x - 0.5 <= r as real <= x + 0.5
    ensures (r as real - x == 0.5 || x - r as real == 0.5) ==> r % 2 == 0
  {
    var f := x.Floor;
    var frac := x - f as real;
    if frac < 0.5 then f
    else if frac > 0.5 then f + 1
    else if f % 2 == 0 then f
    else f + 1
  }

  /**
   * Rounding a rating plus a delta differs from the rating plus the rounded
   * delta by at most one, and not at all unless the delta is a tie and the
   * rating is odd.
   */
  lemma RoundShift(n: int, x: real)
    ensures -1 <= RoundHalfEven(n as real + x) - n - RoundHalfEven(x) <= 1
    ensures !IsHalf(x) || n % 2 == 0 ==> RoundHalfEven(n as real + x) == n + RoundHalfEven(x)
  {
    var f := x.Floor;
    assert (n as real + x).Floor == n + f;
  }

  /** The two roundings do differ: a rating of 1001 and a delta of one half. */
  lemma RoundShiftCanDiffer()
    ensures RoundHalfEven(1001 as real + 0.5) == 1002
    ensures 1001 + RoundHalfEven(0.5) == 1001
  {
  }

  /** How many sides of row `m` player `p` plays: 2 only in a self-match. */
  function Sides(m: Match, p: Player): (k: nat)
    ensures k <= 2
    ensures k == 0 <==> !Involves(m, p)
  {
    (if m.a == p then 1 else 0) + (if m.b == p then 1 else 0)
  }

  /** The number of sides `p` plays over the whole log. */
  function Plays(log: seq<Match>, p: Player): (k: nat)
    ensures k <= 2 * |log|
  {
    if log == [] then 0 else Sides(log[0], p) + Plays(log[1..], p)
  }

  /**
   * One row of the replay: read both ratings, score the row, write both new
   * ratings (B's write wins when A and B are the same player), cache the
   * rounded deltas in the row and count one game per side.
   */
  function Step(rule: EloRule, t: Table, m: Match): (r: (Table, Match))
    requires m.a in t && m.b in t
    ensures r.0.Keys == t.Keys
    ensures SameGame(r.1, m)
    ensures forall p :: p in t ==> r.0[p].spiele == t[p].spiele + Sides(m, p)
    ensures forall p :: p in t && !Involves(m, p) ==> r.0[p] == t[p]
    ensures var sa := ScoreA(m.legsA, m.legsB);
            var d := rule(EloInput(t[m.a].elo, t[m.b].elo, m.legsA, m.legsB, m.avgA, m.avgB, sa, 1 - sa));
            && r.1.eloA == RoundHalfEven(d.a)
            && r.1.eloB == RoundHalfEven(d.b)
            && r.0[m.b].elo == RoundHalfEven(t[m.b].elo as real + d.b)
            && (m.a != m.b ==> r.0[m.a].elo == RoundHalfEven(t[m.a].elo as real + d.a))
  {
    var ea := t[m.a].elo;
    var eb := t[m.b].elo;
    var sa := ScoreA(m.legsA, m.legsB);
    var sb := 1 - sa;
    var d := rule(EloInput(ea, eb, m.legsA, m.legsB, m.avgA, m.avgB, sa, sb));
    var t1 := t[m.a := t[m.a].(elo := RoundHalfEven(ea as real + d.a))];
    var t2 := t1[m.b := t1[m.b].(elo := RoundHalfEven(eb as real + d.b))];
    var t3 := t2[m.a := t2[m.a].(spiele := t2[m.a].spiele + 1)];
    var t4 := t3[m.b := t3[m.b].(spiele := t3[m.b].spiele + 1)];
    (t4, m.(eloA := RoundHalfEven(d.a), eloB := RoundHalfEven(d.b)))
  }

  /** The replay of `rows`, in stored order, starting from table `t`. */
  function Replay(rule: EloRule, t: Table, rows: seq<Match>): (r: Replayed)
    requires NamesIn(rows, t.Keys)
    ensures r.table.Keys == t.Keys
    ensures SameGames(r.log, rows)
    decreases |rows|
  {
    if rows == [] then Replayed(t, [])
    else
      var s := Step(rule, t, rows[0]);
      var rest := Replay(rule, s.0, rows[1..]);
      Replayed(rest.table, [s.1] + rest.log)
  }

  /** Every name in `keys`, at START_ELO with no games. */
  function Fresh(keys: set<Player>): (t: Table)
    ensures t.Keys == keys
    ensures forall p :: p in t ==> t[p] == Standing(START_ELO, 0)
  {
    map p | p in keys :: Standing(START_ELO, 0)
  }

  /**
   * The whole recompute: every registered player and every player the log
   * names is reset to START_ELO with no games, then the log is replayed.
   */
  function Recomputed(rule: EloRule, table: Table, log: seq<Match>): (r: Replayed)
    ensures r.table.Keys == table.Keys + NameSet(log)
    ensures SameGames(r.log, log)
  {
    Replay(rule, Fresh(table.Keys + NameSet(log)), log)
  }

  /** Rows that record the same games name the same players. */
  lemma SameGamesNameSet(log: seq<Match>, other: seq<Match>)
    requires SameGames(log, other)
    ensures NameSet(log) == NameSet(other)
  {
    forall p | p in NameSet(log) ensures p in NameSet(other) {
      var i :| 0 <= i < |log| && Involves(log[i], p);
      assert Involves(other[i], p);
    }
    forall p | p in NameSet(other) ensures p in NameSet(log) {
      var i :| 0 <= i < |other| && Involves(other[i], p);
      assert Involves(log[i], p);
    }
  }

  /** After a replay each player has played one game per side they took in the log. */
  lemma {:induction false} ReplayCountsGames(rule: EloRule, t: Table, rows: seq<Match>, p: Player)
    requires NamesIn(rows, t.Keys)
    requires p in t
    ensures Replay(rule, t, rows).table[p].spiele == t[p].spiele + Plays(rows, p)
  {
    if rows != [] {
      var s := Step(rule, t, rows[0]);
      ReplayCountsGames(rule, s.0, rows[1..], p);
    }
  }

  /** A player the log never names comes out of the replay as they went in. */
  lemma {:induction false} ReplayLeavesBystanders(rule: EloRule, t: Table, rows: seq<Match>, p: Player)
    requires NamesIn(rows, t.Keys)
    requires p in t && p !in NameSet(rows)
    ensures Replay(rule, t, rows).table[p] == t[p]
  {
    if rows != [] {
      var s := Step(rule, t, rows[0]);
      assert !Involves(rows[0], p);
      ReplayLeavesBystanders(rule, s.0, rows[1..], p);
    }
  }

  /** Without self-matches, the sides a player takes are the rows that name them. */
  lemma {:induction false} PlaysCountsRows(log: seq<Match>, p: Player)
    ensures Plays(log, p) >= |Involving(log, p)|
    ensures NoSelfMatch(log) ==> Plays(log, p) == |Involving(log, p)|
  {
    if log != [] {
      PlaysCountsRows(log[1..], p);
    }
  }

  /**
   * Reset then fold: the recompute covers every registered and every logged
   * player, a player's game count is the number of log rows naming them, and
   * a player without games is at START_ELO whatever the table held before.
   */
  lemma RecomputeResetsAndCounts(rule: EloRule, table: Table, log: seq<Match>, p: Player)
    requires NoSelfMatch(log)
    requires p in table || p in NameSet(log)
    ensures p in Recomputed(rule, table, log).table
    ensures Recomputed(rule, table, log).table[p].spiele == |Involving(log, p)|
    ensures p !in NameSet(log) ==> Recomputed(rule, table, log).table[p] == Standing(START_ELO, 0)
  {
    var t := Fresh(table.Keys + NameSet(log));
    ReplayCountsGames(rule, t, log, p);
    PlaysCountsRows(log, p);
    if p !in NameSet(log) {
      ReplayLeavesBystanders(rule, t, log, p);
    }
  }

  /** A step reads the game a row records, not the deltas cached in it. */
  lemma StepIgnoresCachedDeltas(rule: EloRule, t: Table, m: Match, n: Match)
    requires m.a in t && m.b in t
    requires SameGame(m, n)
    ensures Step(rule, t, m) == Step(rule, t, n)
  {
    assert m.a == n.a && m.b == n.b && m.legsA == n.legsA && m.legsB == n.legsB;
    assert m.avgA == n.avgA && m.avgB == n.avgB && m.datum == n.datum;
  }

  /** The replay reads only the games of the log, never the deltas it cached last time. */
  lemma {:induction false} ReplayIgnoresCachedDeltas(rule: EloRule, t: Table, rows: seq<Match>, other: seq<Match>)
    requires NamesIn(rows, t.Keys)
    requires SameGames(rows, other)
    ensures NamesIn(other, t.Keys)
    ensures Replay(rule, t, rows) == Replay(rule, t, other)
  {
    SameGamesNameSet(rows, other);
    if rows != [] {
      assert SameGame(rows[0], other[0]);
      StepIgnoresCachedDeltas(rule, t, rows[0], other[0]);
      var s := Step(rule, t, rows[0]);
      assert SameGames(rows[1..], other[1..]) by {
        forall i | 0 <= i < |rows| - 1 ensures SameGame(rows[1..][i], other[1..][i]) {
          assert SameGame(rows[i + 1], other[i + 1]);
        }
      }
      ReplayIgnoresCachedDeltas(rule, s.0, rows[1..], other[1..]);
    }
  }

  /**
   * Recomputing is idempotent: recomputing the table and log that a recompute
   * produced gives back the same ratings, game counts and cached deltas.
   */
  lemma RecomputeIdempotent(rule: EloRule, table: Table, log: seq<Match>)
    ensures Recomputed(rule, Recomputed(rule, table, log).table, Recomputed(rule, table, log).log)
         == Recomputed(rule, table, log)
  {
    var r := Recomputed(rule, table, log);
    SameGamesNameSet(r.log, log);
    var keys := table.Keys + NameSet(log);
    assert r.table.Keys + NameSet(r.log) == keys;
    ReplayIgnoresCachedDeltas(rule, Fresh(keys), log, r.log);
  }

  lemma ConcatAssoc(x: seq<Match>, y: seq<Match>, z: seq<Match>)
    ensures x + (y + z) == (x + y) + z
  {
  }

  lemma ConsTake(x: Match, ys: seq<Match>, n: nat)
    requires n <= |ys|
    ensures ([x] + ys)[..n + 1] == [x] + ys[..n]
  {
  }

  /** One unfolding of the replay, stated once so that longer proofs need not redo it. */
  lemma ReplayCons(rule: EloRule, t: Table, rows: seq<Match>)
    requires NamesIn(rows, t.Keys) && rows != []
    ensures rows[0].a in t && rows[0].b in t
    ensures NamesIn(rows[1..], t.Keys)
    ensures var s := Step(rule, t, rows[0]);
            var rest := Replay(rule, s.0, rows[1..]);
            Replay(rule, t, rows) == Replayed(rest.table, [s.1] + rest.log)
  {
    assert rows[0] in rows;
  }

  /**
   * Replaying one more row is one more step after the replay of the rest: the
   * earlier rows keep their cached deltas and the table moves by one `Step`.
   */
  lemma {:induction false} ReplayAppend(rule: EloRule, t: Table, rows: seq<Match>, m: Match)
    requires NamesIn(rows + [m], t.Keys)
    ensures NamesIn(rows, t.Keys) && m.a in t && m.b in t
    ensures var before := Replay(rule, t, rows);
            var s := Step(rule, before.table, m);
            Replay(rule, t, rows + [m]) == Replayed(s.0, before.log + [s.1])
  {
    assert forall x :: x in rows ==> x in rows + [m];
    assert m in rows + [m];
    if rows == [] {
      assert rows + [m] == [m];
    } else {
      var s0 := Step(rule, t, rows[0]);
      assert (rows + [m])[0] == rows[0] && (rows + [m])[1..] == rows[1..] + [m];
      ReplayCons(rule, t, rows + [m]);
      ReplayCons(rule, t, rows);
      ReplayAppend(rule, s0.0, rows[1..], m);
      var inner := Replay(rule, s0.0, rows[1..]);
      var s := Step(rule, inner.table, m);
      ConcatAssoc([s0.1], inner.log, [s.1]);
    }
  }

  /** The cached deltas of the first rows depend on those rows alone. */
  lemma {:induction false} ReplayPrefix(rule: EloRule, t: Table, pre: seq<Match>, post: seq<Match>)
    requires NamesIn(pre + post, t.Keys)
    ensures NamesIn(pre, t.Keys)
    ensures Replay(rule, t, pre + post).log[..|pre|] == Replay(rule, t, pre).log
  {
    assert forall x :: x in pre ==> x in pre + post;
    if pre != [] {
      var s := Step(rule, t, pre[0]);
      assert (pre + post)[0] == pre[0];
      assert (pre + post)[1..] == pre[1..] + post;
      ReplayPrefix(rule, s.0, pre[1..], post);
      var whole := Replay(rule, s.0, pre[1..] + post);
      assert Replay(rule, t, pre + post).log == [s.1] + whole.log;
      ConsTake(s.1, whole.log, |pre| - 1);
    }
  }
}
