/**
 * The player file and the match log as one object, with the operations that
 * change them: the recompute that rebuilds the player table from the log, and
 * the three log edits that each end in a recompute (a new match, a changed
 * row, a deleted row).
 */
module League {
  import opened Records
  import opened Elo

  /** Appending one row to a synchronised log moves the table by exactly one step. */
  lemma AppendIsOneStep(rule: EloRule, table: Table, log: seq<Match>, row: Match)
    requires NamesIn(log, table.Keys)
    requires Recomputed(rule, table, log) == Replayed(table, log)
    requires row.a in table && row.b in table
    ensures var s := Step(rule, table, row);
            Recomputed(rule, table, log + [row]) == Replayed(s.0, log + [s.1])
  {
    NamesInNameSet(log, table.Keys);
    NamesInNameSet(log + [row], table.Keys);
    assert table.Keys + NameSet(log + [row]) == table.Keys + NameSet(log);
    ReplayAppend(rule, Fresh(table.Keys), log, row);
  }

  /**
   * Deleting the row that was just appended, and recomputing, restores the
   * ratings, game counts and cached deltas from before the append.
   */
  lemma DeleteUndoesAppend(rule: EloRule, table: Table, log: seq<Match>, row: Match)
    requires NamesIn(log, table.Keys)
    requires Recomputed(rule, table, log) == Replayed(table, log)
    requires row.a in table && row.b in table
    ensures var after := Recomputed(rule, table, log + [row]);
            |after.log| == |log| + 1 && Recomputed(rule, after.table, after.log[..|log|]) == Replayed(table, log)
  {
    AppendIsOneStep(rule, table, log, row);
    var s := Step(rule, table, row);
    assert (log + [s.1])[..|log|] == log;
    NamesInNameSet(log, table.Keys);
    assert s.0.Keys + NameSet(log) == table.Keys + NameSet(log);
  }

  /** The cached deltas of the first `k` rows of a recompute depend on those rows alone. */
  lemma RecomputedPrefix(rule: EloRule, table: Table, log: seq<Match>, k: nat)
    requires NamesIn(log, table.Keys) && k <= |log|
    ensures NamesIn(log[..k], table.Keys)
    ensures Recomputed(rule, table, log).log[..k] == Replay(rule, Fresh(table.Keys), log[..k]).log
  {
    NamesInNameSet(log, table.Keys);
    assert table.Keys + NameSet(log) == table.Keys;
    assert log == log[..k] + log[k..];
    ReplayPrefix(rule, Fresh(table.Keys), log[..k], log[k..]);
  }

  /**
   * Changing or deleting rows of a synchronised log, with every name still
   * registered, leaves the cached deltas of the rows before the change alone.
   */
  lemma ChangeKeepsEarlierRows(rule: EloRule, table: Table, log: seq<Match>, changed: seq<Match>, k: nat)
    requires NamesIn(log, table.Keys) && NamesIn(changed, table.Keys)
    requires Recomputed(rule, table, log) == Replayed(table, log)
    requires k <= |log| && k <= |changed| && changed[..k] == log[..k]
    ensures Recomputed(rule, table, changed).log[..k] == log[..k]
  {
    RecomputedPrefix(rule, table, log, k);
    RecomputedPrefix(rule, table, changed, k);
  }

  /**
   * As the edit form is written, nothing stops a row from naming the same
   * player on both sides; the replay then counts that one row as two games.
   */
  lemma SelfMatchCountsTwice(rule: EloRule)
    ensures var log := [Match("1", "X", "X", 3, 1, 50.0, 50.0, 0, 0)];
            var none: Table := map[];
            "X" in Recomputed(rule, none, log).table
            && Recomputed(rule, none, log).table["X"].spiele == 2
            && |Involving(log, "X")| == 1
  {
    var log := [Match("1", "X", "X", 3, 1, 50.0, 50.0, 0, 0)];
    var none: Table := map[];
    assert log[0] in log;
    var keys := none.Keys + NameSet(log);
    assert "X" in keys;
    NamesInNameSet(log, keys);
    ReplayCountsGames(rule, Fresh(keys), log, "X");
    assert log[1..] == [];
  }

  /** Overwriting row `i` splits the log into the rows before it, the new row and the untouched rest. */
  lemma UpdateSlices(rows: seq<Match>, i: nat, x: Match)
    requires i < |rows|
    ensures rows[i := x][i + 1..] == rows[i..][1..]
    ensures rows[i := x][..i + 1] == rows[..i] + [x]
  {
  }

  /**
   * The replay loop after `i` rows: rows from `i` on are untouched, and
   * replaying them from the current table finishes the whole replay `goal`.
   */
  ghost predicate ReplayedUpTo(rule: EloRule, t: Table, rows: seq<Match>, i: nat, orig: seq<Match>, goal: Replayed)
  {
    |rows| == |orig| && i <= |rows| && rows[i..] == orig[i..] && NamesIn(orig[i..], t.Keys)
    && Replay(rule, t, orig[i..]).table == goal.table
    && rows[..i] + Replay(rule, t, orig[i..]).log == goal.log
  }

  /** One turn of the replay loop keeps `ReplayedUpTo`. */
  lemma ReplayLoopStep(rule: EloRule, t: Table, rows: seq<Match>, i: nat, orig: seq<Match>, goal: Replayed)
    requires ReplayedUpTo(rule, t, rows, i, orig, goal) && i < |rows|
    ensures rows[i] == orig[i] && rows[i].a in t && rows[i].b in t
    ensures var s := Step(rule, t, rows[i]);
            ReplayedUpTo(rule, s.0, rows[i := s.1], i + 1, orig, goal)
  {
    assert orig[i..][0] == orig[i] && orig[i..][1..] == orig[i + 1..];
    ReplayCons(rule, t, orig[i..]);
    var s := Step(rule, t, rows[i]);
    UpdateSlices(rows, i, s.1);
    assert rows[i := s.1][i + 1..] == orig[i + 1..];
    ConcatAssoc(rows[..i], [s.1], Replay(rule, s.0, orig[i + 1..]).log);
  }

  /** When the loop has passed every row, the table and the log are the replay. */
  lemma ReplayLoopDone(rule: EloRule, t: Table, rows: seq<Match>, orig: seq<Match>, goal: Replayed)
    requires ReplayedUpTo(rule, t, rows, |orig|, orig, goal)
    ensures Replayed(t, rows) == goal
  {
    assert orig[|orig|..] == [] && rows[..|orig|] == rows;
  }

  class Club {
    /** The player file: rating and number of games per registered player. */
    var table: Table
    /** The match log, oldest row first. */
    var log: seq<Match>

    /** The table and the log are what a recompute of them gives back. */
    ghost predicate Synced(rule: EloRule)
      reads this
    {
      NamesIn(log, table.Keys) && Recomputed(rule, table, log) == Replayed(table, log)
    }

    /** The two files as they are loaded. */
    constructor (table: Table, log: seq<Match>)
      ensures this.table == table && this.log == log
    {
      this.table := table;
      this.log := log;
    }

    /**
     * Rebuilds the table from the log: adds every player the log names,
     * resets everybody to START_ELO with no games, then replays the rows in
     * stored order, overwriting each row's cached deltas.
     */
    method Recompute(rule: EloRule)
      modifies this
      ensures Replayed(table, log) == Recomputed(rule, old(table), old(log))
      ensures Synced(rule)
    {
      AddLogNames();
      table := map p | p in table :: Standing(START_ELO, 0);
      assert table == Fresh(old(table).Keys + NameSet(old(log)));
      NamesInNameSet(log, table.Keys);
      ReplayLog(rule);
      RecomputeIdempotent(rule, old(table), old(log));
      SameGamesNameSet(log, old(log));
      NamesInNameSet(log, table.Keys);
    }

    /** Registers, at START_ELO with no games, every player the log names who is not in the table yet. */
    method AddLogNames()
      modifies this
      ensures table.Keys == old(table).Keys + NameSet(log)
      ensures forall p :: p in old(table) ==> table[p] == old(table)[p]
      ensures forall p :: p in table && p !in old(table) ==> table[p] == Standing(START_ELO, 0)
      ensures log == old(log)
    {
      // Every registered name is already in the table, so only the names of
      // the log can be new.
      var names := Names(log);
      for i := 0 to |names|
        invariant table.Keys == old(table).Keys + Set(names[..i])
        invariant forall p :: p in old(table) ==> table[p] == old(table)[p]
        invariant forall p :: p in table && p !in old(table) ==> table[p] == Standing(START_ELO, 0)
        invariant log == old(log)
      {
        var s := names[i];
        if s !in table {
          table := table[s := Standing(START_ELO, 0)];
        }
        assert names[..i + 1] == names[..i] + [s];
      }
      assert names[..|names|] == names;
      NamesCoverNameSet(log);
    }

    /** Replays the rows in stored order from the current table, caching each row's rounded deltas. */
    method ReplayLog(rule: EloRule)
      requires NamesIn(log, table.Keys)
      modifies this
      ensures Replayed(table, log) == Replay(rule, old(table), old(log))
    {
      var t, rows := table, log;
      ghost var goal := Replay(rule, t, rows);
      ghost var orig := rows;
      for i := 0 to |rows|
        invariant ReplayedUpTo(rule, t, rows, i, orig, goal)
      {
        ghost var before, prev := t, rows;
        ReplayCons(rule, t, orig[i..]);
        t, rows := ReplayRow(rule, t, rows, i);
        ReplayLoopStep(rule, before, prev, i, orig, goal);
      }
      ReplayLoopDone(rule, t, rows, orig, goal);
      table, log := t, rows;
    }

    /**
     * The body of the replay loop for row `i`: read both ratings, score the
     * row, write the two new ratings, cache the rounded deltas in the row and
     * count one game for each side.
     */
    static method ReplayRow(rule: EloRule, t: Table, rows: seq<Match>, i: nat) returns (t': Table, rows': seq<Match>)
      requires i < |rows| && rows[i].a in t && rows[i].b in t
      ensures var s := Step(rule, t, rows[i]);
              t' == s.0 && rows' == rows[i := s.1]
    {
      var m := rows[i];
      var a, b := m.a, m.b;
      var ea, eb := t[a].elo, t[b].elo;
      var sa := ScoreA(m.legsA, m.legsB);
      var sb := 1 - sa;
      var delta := rule(EloInput(ea, eb, m.legsA, m.legsB, m.avgA, m.avgB, sa, sb));
      t' := t[a := t[a].(elo := RoundHalfEven(ea as real + delta.a))];
      t' := t'[b := t'[b].(elo := RoundHalfEven(eb as real + delta.b))];
      rows' := rows[i := m.(eloA := RoundHalfEven(delta.a), eloB := RoundHalfEven(delta.b))];
      t' := t'[a := t'[a].(spiele := t'[a].spiele + 1)];
      t' := t'[b := t'[b].(spiele := t'[b].spiele + 1)];
    }

    /**
     * Appends a new row with zero cached deltas and recomputes. When the club
     * was synchronised and both players are registered, the earlier rows keep
     * their deltas and the table moves by one step of the new row.
     */
    method LogMatch(rule: EloRule, a: Player, b: Player, la: int, lb: int, avga: real, avgb: real, spieltag: string)
      modifies this
      ensures var row := Match(spieltag, a, b, la, lb, avga, avgb, 0, 0);
              Replayed(table, log) == Recomputed(rule, old(table), old(log) + [row])
      ensures Synced(rule)
      ensures old(Synced(rule)) && a in old(table) && b in old(table) ==>
                var s := Step(rule, old(table), Match(spieltag, a, b, la, lb, avga, avgb, 0, 0));
                table == s.0 && log == old(log) + [s.1]
    {
      ghost var wasSynced := Synced(rule);
      var row := Match(spieltag, a, b, la, lb, avga, avgb, 0, 0);
      log := log + [row];
      Recompute(rule);
      if wasSynced && a in old(table) && b in old(table) {
        AppendIsOneStep(rule, old(table), old(log), row);
      }
    }

    /** The entry form: a match of a player against themself is refused and changes nothing. */
    method EnterMatch(rule: EloRule, a: Player, b: Player, la: int, lb: int, avga: real, avgb: real, spieltag: string)
      returns (ok: bool)
      modifies this
      ensures ok == (a != b)
      ensures !ok ==> table == old(table) && log == old(log)
      ensures ok ==> Replayed(table, log)
                     == Recomputed(rule, old(table), old(log) + [Match(spieltag, a, b, la, lb, avga, avgb, 0, 0)])
      ensures ok ==> Synced(rule)
      ensures old(NoSelfMatch(log)) ==> NoSelfMatch(log)
    {
      ok := a != b;
      if ok {
        ghost var appended := log + [Match(spieltag, a, b, la, lb, avga, avgb, 0, 0)];
        ghost var before := table;
        LogMatch(rule, a, b, la, lb, avga, avgb, spieltag);
        assert log == Recomputed(rule, before, appended).log;
        if old(NoSelfMatch(log)) {
          assert NoSelfMatch(appended);
          SameGamesNoSelfMatch(appended, log);
        }
      }
    }

    /**
     * The edit form as written: overwrites the game fields of row `idx` and
     * recomputes, without checking that the two players differ.
     */
    method EditMatch(rule: EloRule, idx: nat, spieltag: string, a: Player, b: Player, la: int, lb: int, avga: real, avgb: real)
      requires idx < |log|
      modifies this
      ensures var row := old(log)[idx].(datum := spieltag, a := a, b := b, legsA := la, legsB := lb, avgA := avga, avgB := avgb);
              Replayed(table, log) == Recomputed(rule, old(table), old(log)[idx := row])
      ensures Synced(rule)
      ensures old(Synced(rule)) && a in old(table) && b in old(table) ==> log[..idx] == old(log)[..idx]
    {
      ghost var wasSynced := Synced(rule);
      log := log[idx := log[idx].(datum := spieltag, a := a, b := b, legsA := la, legsB := lb, avgA := avga, avgB := avgb)];
      ghost var changed := log;
      Recompute(rule);
      if wasSynced && a in old(table) && b in old(table) {
        assert NamesIn(changed, old(table).Keys) by {
          forall j | 0 <= j < |changed| ensures changed[j].a in old(table) && changed[j].b in old(table) {
            if j != idx {
              assert changed[j] == old(log)[j] && old(log)[j] in old(log);
            }
          }
        }
        assert changed[..idx] == old(log)[..idx];
        ChangeKeepsEarlierRows(rule, old(table), old(log), changed, idx);
      }
    }

    /** The edit form with the entry form's check: a self-match is refused and changes nothing. */
    method EditMatchChecked(rule: EloRule, idx: nat, spieltag: string, a: Player, b: Player, la: int, lb: int, avga: real, avgb: real)
      returns (ok: bool)
      requires idx < |log|
      modifies this
      ensures ok == (a != b)
      ensures !ok ==> table == old(table) && log == old(log)
      ensures ok ==> var row := old(log)[idx].(datum := spieltag, a := a, b := b, legsA := la, legsB := lb, avgA := avga, avgB := avgb);
                     Replayed(table, log) == Recomputed(rule, old(table), old(log)[idx := row])
      ensures ok ==> Synced(rule)
      ensures ok && old(Synced(rule)) && a in old(table) && b in old(table) ==> log[..idx] == old(log)[..idx]
      ensures old(NoSelfMatch(log)) ==> NoSelfMatch(log)
    {
      ok := a != b;
      if ok {
        ghost var changed := log[idx := log[idx].(datum := spieltag, a := a, b := b, legsA := la, legsB := lb, avgA := avga, avgB := avgb)];
        EditMatch(rule, idx, spieltag, a, b, la, lb, avga, avgb);
        if old(NoSelfMatch(log)) {
          assert NoSelfMatch(changed) by {
            forall m | m in changed ensures m.a != m.b {
              var j :| 0 <= j < |changed| && changed[j] == m;
              if j != idx {
                assert old(log)[j] in old(log);
              }
            }
          }
          SameGamesNoSelfMatch(changed, log);
        }
      }
    }

    /** Removes row `idx`, closes the gap in the numbering, and recomputes. */
    method DeleteMatch(rule: EloRule, idx: nat)
      requires idx < |log|
      modifies this
      ensures Replayed(table, log) == Recomputed(rule, old(table), old(log)[..idx] + old(log)[idx + 1..])
      ensures Synced(rule)
      ensures |log| == |old(log)| - 1
      ensures old(Synced(rule)) ==> log[..idx] == old(log)[..idx]
      ensures old(NoSelfMatch(log)) ==> NoSelfMatch(log)
    {
      ghost var wasSynced := Synced(rule);
      log := log[..idx] + log[idx + 1..];
      ghost var changed := log;
      assert forall m :: m in changed ==> m in old(log);
      Recompute(rule);
      if wasSynced {
        assert NamesIn(changed, old(table).Keys);
        assert changed[..idx] == old(log)[..idx];
        ChangeKeepsEarlierRows(rule, old(table), old(log), changed, idx);
      }
      if old(NoSelfMatch(log)) {
        SameGamesNoSelfMatch(changed, log);
      }
    }
  }
}
