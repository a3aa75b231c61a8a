/**
 * The data model of the darts club ranking: players, match records and the
 * helpers over the match log that every other module shares.
 */
module Records {

  /** A player is identified by the display name that keys the player table. */
  type Player = string

  /** Every rating is reset to this value before the log is replayed. */
  const START_ELO: int := 1000

  datatype Option<T> = None | Some(value: T)

  /**
   * One row of the match log. `eloA` and `eloB` cache the rating deltas that
   * the last replay applied to A and B; every replay overwrites them.
   */
  datatype Match = Match(
    datum: string,
    a: Player,
    b: Player,
    legsA: int,
    legsB: int,
    avgA: real,
    avgB: real,
    eloA: int,
    eloB: int)

  /** A row names a player when the player is on either side of it. */
  predicate Involves(m: Match, p: Player) {
    m.a == p || m.b == p
  }

  /** The rows that name `p`, in log order. */
  function Involving(log: seq<Match>, p: Player): (r: seq<Match>)
    ensures |r| <= |log|
    ensures forall m :: m in r <==> m in log && Involves(m, p)
  {
    if log == [] then []
    else (if Involves(log[0], p) then [log[0]] else []) + Involving(log[1..], p)
  }

  /** Every player that appears on either side of some row. */
  function NameSet(log: seq<Match>): (names: set<Player>)
    ensures forall p :: p in names <==> exists m :: m in log && Involves(m, p)
  {
    (set m | m in log :: m.a) + (set m | m in log :: m.b)
  }

  /** Both sides of every row are among `keys`. */
  predicate NamesIn(log: seq<Match>, keys: set<Player>) {
    forall m :: m in log ==> m.a in keys && m.b in keys
  }

  /** The order in which the replay meets new names: column A, then column B. */
  function Names(log: seq<Match>): (r: seq<Player>)
    ensures |r| == 2 * |log|
  {
    seq(|log|, i requires 0 <= i < |log| => log[i].a) + seq(|log|, i requires 0 <= i < |log| => log[i].b)
  }

  /** Nobody plays against themself. */
  predicate NoSelfMatch(log: seq<Match>) {
    forall m :: m in log ==> m.a != m.b
  }

  /** Two rows record the same game; their cached deltas may differ. */
  predicate SameGame(m: Match, n: Match) {
    m.(eloA := 0, eloB := 0) == n.(eloA := 0, eloB := 0)
  }

  predicate SameGames(log: seq<Match>, other: seq<Match>) {
    |log| == |other| && forall i :: 0 <= i < |log| ==> SameGame(log[i], other[i])
  }

  /** The elements of a sequence. */
  function Set(xs: seq<Player>): set<Player> {
    set x | x in xs
  }

  /** The names met column by column are exactly the names of the log. */
  lemma NamesCoverNameSet(log: seq<Match>)
    ensures Set(Names(log)) == NameSet(log)
  {
    var names := Names(log);
    forall p | p in NameSet(log) ensures p in Set(names) {
      var i :| 0 <= i < |log| && Involves(log[i], p);
      if log[i].a == p {
        assert names[i] == p;
      } else {
        assert names[|log| + i] == p;
      }
    }
  }

  /** Rewriting cached deltas cannot create a self-match. */
  lemma SameGamesNoSelfMatch(log: seq<Match>, other: seq<Match>)
    requires SameGames(other, log)
    requires NoSelfMatch(log)
    ensures NoSelfMatch(other)
  {
    forall m | m in other ensures m.a != m.b {
      var i :| 0 <= i < |other| && other[i] == m;
      assert SameGame(m, log[i]);
      assert log[i] in log;
    }
  }

  /** A log's names lie in `keys` exactly when its name set does. */
  lemma NamesInNameSet(log: seq<Match>, keys: set<Player>)
    ensures NamesIn(log, keys) <==> NameSet(log) <= keys
  {
    if NameSet(log) <= keys {
      forall m | m in log ensures m.a in keys && m.b in keys {
        assert Involves(m, m.a) && Involves(m, m.b);
      }
    }
  }
}
