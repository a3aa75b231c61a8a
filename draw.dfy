/**
 * The match-day draw: every present player is to get exactly `gegner`
 * different opponents. An attempt walks the players in order, shuffles the
 * players still open to the current one and pairs greedily while both sides
 * have room; the draw repeats attempts until one fills every schedule or the
 * budget of tries is spent.
 *
 * The random shuffle is a caller-supplied `Shuffler`: for the attempt number
 * and the position of the current player it may return any rearrangement of
 * the list it is given. Every property below holds whichever rearrangements
 * it picks.
 */
module Draw {
  import opened Records

  /** How many attempts the draw makes before giving up. */
  const MAX_TRIES: nat := 5000

  /** The opponents drawn for each player. */
  type Pairing = map<Player, set<Player>>

  type Shuffler = (nat, nat, seq<Player>) -> seq<Player>

  /** The shuffle only rearranges: it keeps every element with its multiplicity. */
  ghost predicate IsShuffler(shuffle: Shuffler) {
    forall attempt, pos, xs :: multiset(shuffle(attempt, pos, xs)) == multiset(xs)
  }

  /** Whenever `g` is drawn for `s`, `s` is drawn for `g`. */
  predicate Symmetric(m: Pairing) {
    forall s, g :: s in m && g in m[s] ==> g in m && s in m[g]
  }

  /** Nobody is drawn against themself. */
  predicate NoSelfPairs(m: Pairing) {
    forall s :: s in m ==> s !in m[s]
  }

  /** No player has more than `gegner` opponents. */
  predicate DegreesAtMost(m: Pairing, gegner: nat) {
    forall s :: s in m ==> |m[s]| <= gegner
  }

  /** What holds of the pairing at every point of an attempt. */
  predicate Valid(m: Pairing, keys: set<Player>, gegner: nat) {
    m.Keys == keys && Symmetric(m) && NoSelfPairs(m) && DegreesAtMost(m, gegner)
  }

  /** Everybody is paired with everybody else. */
  predicate Complete(m: Pairing) {
    forall s :: s in m ==> m[s] == m.Keys - {s}
  }

  /** Every player has exactly `gegner` opponents. */
  predicate Regular(m: Pairing, gegner: nat) {
    forall s :: s in m ==> |m[s]| == gegner
  }

  /** The players still open to `s`: everyone listed except `s` and the opponents `s` already has, in list order. */
  function Candidates(spieler: seq<Player>, s: Player, taken: set<Player>): (r: seq<Player>)
    ensures forall x :: x in r <==> x in spieler && x != s && x !in taken
    ensures multiset(r) <= multiset(spieler)
  {
    if spieler == [] then []
    else
      assert spieler == [spieler[0]] + spieler[1..];
      (if spieler[0] != s && spieler[0] !in taken then [spieler[0]] else []) + Candidates(spieler[1..], s, taken)
  }

  /** A subset is no larger than its superset. */
  lemma {:induction false} SubsetCard(a: set<Player>, b: set<Player>)
    requires a <= b
    ensures |a| <= |b|
    decreases |a|
  {
    if a != {} {
      var x :| x in a;
      SubsetCard(a - {x}, b - {x});
    }
  }

  /** A list has at least as many entries as different elements. */
  lemma {:induction false} SetCardAtMost(xs: seq<Player>)
    ensures |Set(xs)| <= |xs|
  {
    if xs != [] {
      SetCardAtMost(xs[1..]);
      assert xs == [xs[0]] + xs[1..];
      assert Set(xs) == {xs[0]} + Set(xs[1..]);
    }
  }

  /** A rearrangement has the same elements. */
  lemma ShufflePreserves(xs: seq<Player>, ys: seq<Player>)
    requires multiset(xs) == multiset(ys)
    ensures forall x :: x in xs <==> x in ys
  {
    forall x ensures x in xs <==> x in ys {
      assert x in xs <==> x in multiset(xs);
      assert x in ys <==> x in multiset(ys);
    }
  }

  /** A symmetric pairing without self-pairs draws each player's opponents from the other players. */
  lemma OpponentsAreOthers(m: Pairing, s: Player)
    requires Symmetric(m) && NoSelfPairs(m) && s in m
    ensures m[s] <= m.Keys - {s}
  {
  }

  /** Adding every other player that `s` does not have yet leaves `s` with all other players. */
  lemma FillsRow(taken: set<Player>, cands: seq<Player>, keys: set<Player>, s: Player)
    requires taken <= keys - {s}
    requires forall x :: x in cands <==> x in keys && x != s && x !in taken
    ensures taken + Set(cands) == keys - {s}
  {
  }

  /** A player who already has every other player keeps exactly them. */
  lemma StaysFull(before: Pairing, m: Pairing, x: Player)
    requires x in before && x in m && before.Keys == m.Keys
    requires before[x] == m.Keys - {x} && before[x] <= m[x]
    requires Symmetric(m) && NoSelfPairs(m)
    ensures m[x] == m.Keys - {x}
  {
    OpponentsAreOthers(m, x);
  }

  /** In a draw of `gegner + 1` players, a player missing some other player still has room. */
  lemma RoomLeft(m: Pairing, gegner: nat, s: Player, g: Player)
    requires Valid(m, m.Keys, gegner) && |m.Keys| == gegner + 1
    requires s in m && g in m && s != g && g !in m[s]
    ensures |m[s]| < gegner && |m[g]| < gegner
  {
    var rest := m.Keys - {s, g};
    assert |rest| == gegner - 1;
    assert s !in m[g];
    OpponentsAreOthers(m, s);
    OpponentsAreOthers(m, g);
    SubsetCard(m[s], rest);
    SubsetCard(m[g], rest);
  }

  /** The two sets of a new pair, `s` and `g`, grow by each other. */
  lemma AddPairKeepsValid(m: Pairing, gegner: nat, s: Player, g: Player)
    requires Valid(m, m.Keys, gegner) && s in m && g in m && s != g
    requires |m[s]| < gegner && |m[g]| < gegner
    ensures var m1 := m[s := m[s] + {g}];
            var m2 := m1[g := m1[g] + {s}];
            Valid(m2, m.Keys, gegner) && m2[s] == m[s] + {g}
            && forall x :: x in m ==> m[x] <= m2[x]
  {
    var m1 := m[s := m[s] + {g}];
    var m2 := m1[g := m1[g] + {s}];
    assert m2[s] == m[s] + {g} && m2[g] == m[g] + {s};
    assert forall x :: x in m && x != s && x != g ==> m2[x] == m[x];
    SubsetCard(m[s] + {g}, m[s] + {g});
  }

  /** The elements of a list's first `j + 1` entries. */
  lemma SetSnoc(xs: seq<Player>, j: nat)
    requires j < |xs|
    ensures Set(xs[..j + 1]) == Set(xs[..j]) + {xs[j]}
  {
    assert xs[..j + 1] == xs[..j] + [xs[j]];
  }

  /** What holds after the inner loop has gone through the first `j` candidates. */
  ghost predicate PairInv(m0: Pairing, m: Pairing, s: Player, kandidaten: seq<Player>, j: nat, gegner: nat, full: bool)
  {
    j <= |kandidaten| && s in m0
    && Valid(m, m0.Keys, gegner)
    && (forall x :: x in m0 ==> m0[x] <= m[x])
    && m[s] <= m0[s] + Set(kandidaten[..j])
    && (full ==> m[s] == m0[s] + Set(kandidaten[..j]))
    && OnlyWith(m0, m, s)
    && (forall k :: 0 <= k < j && kandidaten[k] !in m[s] ==> Blocked(m, s, kandidaten[k], gegner))
  }

  /** Between `m0` and `m` only pairs with `s` were added. */
  predicate OnlyWith(m0: Pairing, m: Pairing, s: Player) {
    forall x :: x in m0 && x != s ==> x in m && m[x] <= m0[x] + {s}
  }

  /** `s` and `g` cannot be paired any more: one of them already has `gegner` opponents. */
  predicate Blocked(m: Pairing, s: Player, g: Player, gegner: nat) {
    (s in m && |m[s]| == gegner) || (g in m && |m[g]| == gegner)
  }

  /** A turn of the inner loop that pairs `s` with candidate `j` keeps `PairInv`. */
  lemma PairAdd(m0: Pairing, m: Pairing, s: Player, kandidaten: seq<Player>, j: nat, gegner: nat, full: bool)
    requires PairInv(m0, m, s, kandidaten, j, gegner, full) && j < |kandidaten|
    requires forall g :: g in kandidaten ==> g in m0 && g != s
    requires kandidaten[j] in m && |m[s]| < gegner && |m[kandidaten[j]]| < gegner
    ensures var g := kandidaten[j];
            var m1 := m[s := m[s] + {g}];
            PairInv(m0, m1[g := m1[g] + {s}], s, kandidaten, j + 1, gegner, full)
  {
    var g := kandidaten[j];
    assert g in kandidaten;
    SetSnoc(kandidaten, j);
    AddPairKeepsValid(m, gegner, s, g);
    var m1 := m[s := m[s] + {g}];
    var m2 := m1[g := m1[g] + {s}];
    assert m2[s] <= m0[s] + Set(kandidaten[..j + 1]);
    AddKeepsOnlyWith(m0, m, s, g);
    AddKeepsBlocked(m, s, kandidaten, j, gegner);
  }

  /** Adding the pair of `s` and `g` adds only `s` to players other than `s`. */
  lemma AddKeepsOnlyWith(m0: Pairing, m: Pairing, s: Player, g: Player)
    requires OnlyWith(m0, m, s) && s in m && g in m && s != g
    ensures var m1 := m[s := m[s] + {g}];
            OnlyWith(m0, m1[g := m1[g] + {s}], s)
  {
  }

  /** Adding the pair of `s` and candidate `j` keeps the earlier candidates blocked. */
  lemma AddKeepsBlocked(m: Pairing, s: Player, kandidaten: seq<Player>, j: nat, gegner: nat)
    requires j < |kandidaten| && s in m && kandidaten[j] in m && kandidaten[j] != s
    requires |m[s]| < gegner && |m[kandidaten[j]]| < gegner
    requires forall k :: 0 <= k < j && kandidaten[k] !in m[s] ==> Blocked(m, s, kandidaten[k], gegner)
    ensures var g := kandidaten[j];
            var m1 := m[s := m[s] + {g}];
            var m2 := m1[g := m1[g] + {s}];
            forall k :: 0 <= k < j + 1 && kandidaten[k] !in m2[s] ==> Blocked(m2, s, kandidaten[k], gegner)
  {
    var g := kandidaten[j];
    var m1 := m[s := m[s] + {g}];
    var m2 := m1[g := m1[g] + {s}];
    assert m2[s] == m[s] + {g};
    forall k | 0 <= k < j + 1 && kandidaten[k] !in m2[s] ensures Blocked(m2, s, kandidaten[k], gegner) {
      assert Blocked(m, s, kandidaten[k], gegner);
    }
  }

  /** A turn of the inner loop that skips candidate `j` keeps `PairInv`. */
  lemma PairSkip(m0: Pairing, m: Pairing, s: Player, kandidaten: seq<Player>, j: nat, gegner: nat, full: bool)
    requires PairInv(m0, m, s, kandidaten, j, gegner, full) && j < |kandidaten|
    requires forall g :: g in kandidaten ==> g in m0 && g != s
    requires full ==> |m0.Keys| == gegner + 1
    requires kandidaten[j] in m && !(|m[s]| < gegner && |m[kandidaten[j]]| < gegner)
    ensures PairInv(m0, m, s, kandidaten, j + 1, gegner, full)
  {
    var g := kandidaten[j];
    assert g in kandidaten;
    SetSnoc(kandidaten, j);
    if full && g !in m[s] {
      RoomLeft(m, gegner, s, g);
    }
    assert Blocked(m, s, g, gegner);
  }

  /** One turn of the inner loop: pair `s` with `g` when both have fewer than `gegner` opponents. */
  function Offer(m: Pairing, s: Player, g: Player, gegner: nat): (r: Pairing)
    requires s in m && g in m
    ensures r.Keys == m.Keys
  {
    if |m[s]| < gegner && |m[g]| < gegner then
      var m1 := m[s := m[s] + {g}];
      m1[g := m1[g] + {s}]
    else m
  }

  /** The inner loop as a function: the candidates offered to `s` in list order. */
  function PairAll(m: Pairing, s: Player, kandidaten: seq<Player>, gegner: nat): (r: Pairing)
    requires s in m && forall g :: g in kandidaten ==> g in m
    ensures r.Keys == m.Keys
    decreases |kandidaten|
  {
    if kandidaten == [] then m
    else
      assert kandidaten[0] in kandidaten && forall g :: g in kandidaten[1..] ==> g in kandidaten;
      PairAll(Offer(m, s, kandidaten[0], gegner), s, kandidaten[1..], gegner)
  }

  /** The players from position `i` on, each served in list order: candidates listed, shuffled and offered. */
  function Serve(spieler: seq<Player>, m: Pairing, i: nat, gegner: nat, shuffle: Shuffler, attempt: nat): (r: Pairing)
    requires IsShuffler(shuffle) && i <= |spieler| && m.Keys == Set(spieler)
    ensures r.Keys == m.Keys
    decreases |spieler| - i
  {
    if i == |spieler| then m
    else
      var s := spieler[i];
      assert s in Set(spieler);
      var moeglich := Candidates(spieler, s, m[s]);
      var shuffled := shuffle(attempt, i, moeglich);
      ShufflePreserves(moeglich, shuffled);
      Serve(spieler, PairAll(m, s, shuffled, gegner), i + 1, gegner, shuffle, attempt)
  }

  /** Attempt number `attempt` of the draw, from empty opponent sets. */
  function Attempt(spieler: seq<Player>, gegner: nat, shuffle: Shuffler, attempt: nat): (m: Pairing)
    requires IsShuffler(shuffle)
    ensures m.Keys == Set(spieler)
  {
    Serve(spieler, Empty(spieler), 0, gegner, shuffle, attempt)
  }

  /** The rest of the inner loop from candidate `j` is one offer followed by the rest from `j + 1`. */
  lemma PairAllUnfold(m: Pairing, s: Player, kandidaten: seq<Player>, j: nat, gegner: nat)
    requires j < |kandidaten| && s in m && forall g :: g in kandidaten ==> g in m
    ensures kandidaten[j] in m && forall g :: g in kandidaten[j..] ==> g in m
    ensures PairAll(m, s, kandidaten[j..], gegner)
            == PairAll(Offer(m, s, kandidaten[j], gegner), s, kandidaten[j + 1..], gegner)
  {
    assert kandidaten[j] in kandidaten;
    assert kandidaten[j..][0] == kandidaten[j] && kandidaten[j..][1..] == kandidaten[j + 1..];
  }

  /**
   * The inner loop: goes through the shuffled candidates of `s` and pairs `s`
   * with each one while both still have fewer than `gegner` opponents. Only
   * pairs with `s` are added, and a candidate is left out only when `s` or
   * the candidate is full. With `gegner + 1` players every candidate is taken.
   */
  method PairWith(m0: Pairing, s: Player, kandidaten: seq<Player>, gegner: nat) returns (m: Pairing)
    requires Valid(m0, m0.Keys, gegner) && s in m0
    requires forall g :: g in kandidaten ==> g in m0 && g != s
    ensures Valid(m, m0.Keys, gegner)
    ensures forall x :: x in m0 ==> m0[x] <= m[x]
    ensures m[s] <= m0[s] + Set(kandidaten)
    ensures |m0.Keys| == gegner + 1 ==> m[s] == m0[s] + Set(kandidaten)
    ensures forall x :: x in m0 && x != s ==> m[x] <= m0[x] + {s}
    ensures forall g :: g in kandidaten && g !in m[s] ==> |m[s]| == gegner || |m[g]| == gegner
    ensures m == PairAll(m0, s, kandidaten, gegner)
  {
    ghost var full := |m0.Keys| == gegner + 1;
    m := m0;
    PairStart(m0, s, kandidaten, gegner, full);
    assert kandidaten[0..] == kandidaten;
    for j := 0 to |kandidaten|
      invariant PairInv(m0, m, s, kandidaten, j, gegner, full)
      invariant m.Keys == m0.Keys
      invariant PairAll(m, s, kandidaten[j..], gegner) == PairAll(m0, s, kandidaten, gegner)
    {
      var g := kandidaten[j];
      assert g in kandidaten;
      PairAllUnfold(m, s, kandidaten, j, gegner);
      if |m[s]| < gegner && |m[g]| < gegner {
        PairAdd(m0, m, s, kandidaten, j, gegner, full);
        m := m[s := m[s] + {g}];
        m := m[g := m[g] + {s}];
      } else {
        PairSkip(m0, m, s, kandidaten, j, gegner, full);
      }
    }
    PairDone(m0, m, s, kandidaten, gegner, full);
    assert kandidaten[|kandidaten|..] == [];
  }

  /** Before the inner loop nothing has changed. */
  lemma PairStart(m0: Pairing, s: Player, kandidaten: seq<Player>, gegner: nat, full: bool)
    requires Valid(m0, m0.Keys, gegner) && s in m0
    ensures PairInv(m0, m0, s, kandidaten, 0, gegner, full)
  {
    assert kandidaten[..0] == [];
  }

  /** After the inner loop every candidate has been considered. */
  lemma PairDone(m0: Pairing, m: Pairing, s: Player, kandidaten: seq<Player>, gegner: nat, full: bool)
    requires PairInv(m0, m, s, kandidaten, |kandidaten|, gegner, full)
    requires forall g :: g in kandidaten ==> g in m0 && g != s
    ensures Valid(m, m0.Keys, gegner)
    ensures forall x :: x in m0 ==> m0[x] <= m[x]
    ensures m[s] <= m0[s] + Set(kandidaten)
    ensures full ==> m[s] == m0[s] + Set(kandidaten)
    ensures forall x :: x in m0 && x != s ==> m[x] <= m0[x] + {s}
    ensures forall g :: g in kandidaten && g !in m[s] ==> |m[s]| == gegner || |m[g]| == gegner
  {
    assert kandidaten[..|kandidaten|] == kandidaten;
    forall g | g in kandidaten && g !in m[s] ensures |m[s]| == gegner || |m[g]| == gegner {
      var k :| 0 <= k < |kandidaten| && kandidaten[k] == g;
      assert Blocked(m, s, kandidaten[k], gegner);
    }
  }

  /** Every player listed, with no opponents yet. */
  function Empty(spieler: seq<Player>): (m: Pairing)
    ensures Valid(m, Set(spieler), 0)
  {
    map s | s in Set(spieler) :: {}
  }

  /**
   * One attempt: start from empty opponent sets, then for each listed player
   * in turn shuffle the players still open to them and pair greedily.
   * Whatever the shuffles, the result is symmetric, free of self-pairs and
   * gives nobody more than `gegner` opponents, and it is greedy: two players
   * left unpaired are never both below `gegner`. With exactly `gegner + 1`
   * different players, repeats in the list or not, it pairs everybody with
   * everybody.
   */
  method DrawAttempt(spieler: seq<Player>, gegner: nat, shuffle: Shuffler, attempt: nat) returns (m: Pairing)
    requires IsShuffler(shuffle)
    ensures Valid(m, Set(spieler), gegner)
    ensures |Set(spieler)| == gegner + 1 ==> Complete(m)
    ensures forall s, g :: s in m && g in m && s != g && g !in m[s] ==> |m[s]| == gegner || |m[g]| == gegner
    ensures m == Attempt(spieler, gegner, shuffle, attempt)
  {
    m := Empty(spieler);
    for i := 0 to |spieler|
      invariant AttemptInv(spieler, m, i, gegner)
      invariant m.Keys == Set(spieler)
      invariant Serve(spieler, m, i, gegner, shuffle, attempt) == Attempt(spieler, gegner, shuffle, attempt)
    {
      var s := spieler[i];
      var moeglich := Candidates(spieler, s, m[s]);
      var shuffled := shuffle(attempt, i, moeglich);
      ShufflePreserves(moeglich, shuffled);
      ghost var before := m;
      m := PairWith(m, s, shuffled, gegner);
      AttemptStep(spieler, before, m, i, shuffled, gegner);
    }
    AttemptDone(spieler, m, gegner);
  }

  /** What holds after an attempt has served the first `i` players of the list. */
  ghost predicate AttemptInv(spieler: seq<Player>, m: Pairing, i: nat, gegner: nat) {
    i <= |spieler| && Valid(m, Set(spieler), gegner)
    && (|Set(spieler)| == gegner + 1 ==> forall k :: 0 <= k < i ==> m[spieler[k]] == m.Keys - {spieler[k]})
    && (forall k :: 0 <= k < i ==> Saturated(m, spieler[k], gegner))
  }

  /** Every other player `s` lacks is blocked: `s` or they already have `gegner` opponents. */
  predicate Saturated(m: Pairing, s: Player, gegner: nat) {
    forall g :: g in m && g != s && s in m && g !in m[s] ==> Blocked(m, s, g, gegner)
  }

  /** A blocked pair stays blocked while the sets only grow and stay within the bound. */
  lemma SaturatedStays(before: Pairing, m: Pairing, s: Player, gegner: nat)
    requires Saturated(before, s, gegner) && s in before
    requires before.Keys == m.Keys && DegreesAtMost(m, gegner)
    requires forall x :: x in before ==> before[x] <= m[x]
    ensures Saturated(m, s, gegner)
  {
    forall g | g in m && g != s && s in m && g !in m[s] ensures Blocked(m, s, g, gegner) {
      assert Blocked(before, s, g, gegner);
      SubsetCard(before[s], m[s]);
      SubsetCard(before[g], m[g]);
    }
  }

  /** Serving player `i` keeps `AttemptInv`. */
  lemma AttemptStep(spieler: seq<Player>, before: Pairing, m: Pairing, i: nat, shuffled: seq<Player>, gegner: nat)
    requires AttemptInv(spieler, before, i, gegner) && i < |spieler|
    requires forall x :: x in shuffled <==> x in spieler && x != spieler[i] && x !in before[spieler[i]]
    requires Valid(m, Set(spieler), gegner) && forall x :: x in before ==> before[x] <= m[x]
    requires |Set(spieler)| == gegner + 1 ==> m[spieler[i]] == before[spieler[i]] + Set(shuffled)
    requires forall g :: g in shuffled && g !in m[spieler[i]] ==> |m[spieler[i]]| == gegner || |m[g]| == gegner
    ensures AttemptInv(spieler, m, i + 1, gegner)
  {
    CompleteStep(spieler, before, m, i, shuffled, gegner);
    SaturatedStep(spieler, before, m, i, shuffled, gegner);
  }

  /** With `gegner + 1` players, the players served so far, and player `i`, have everybody else. */
  lemma CompleteStep(spieler: seq<Player>, before: Pairing, m: Pairing, i: nat, shuffled: seq<Player>, gegner: nat)
    requires AttemptInv(spieler, before, i, gegner) && i < |spieler|
    requires forall x :: x in shuffled <==> x in spieler && x != spieler[i] && x !in before[spieler[i]]
    requires Valid(m, Set(spieler), gegner) && forall x :: x in before ==> before[x] <= m[x]
    requires |Set(spieler)| == gegner + 1 ==> m[spieler[i]] == before[spieler[i]] + Set(shuffled)
    ensures |Set(spieler)| == gegner + 1 ==> forall k :: 0 <= k < i + 1 ==> m[spieler[k]] == m.Keys - {spieler[k]}
  {
    var keys := Set(spieler);
    if |keys| == gegner + 1 {
      var s := spieler[i];
      OpponentsAreOthers(before, s);
      FillsRow(before[s], shuffled, keys, s);
      forall k | 0 <= k < i + 1 ensures m[spieler[k]] == keys - {spieler[k]} {
        if k < i {
          StaysFull(before, m, spieler[k]);
        }
      }
    }
  }

  /** The players served so far, and player `i`, stay saturated. */
  lemma SaturatedStep(spieler: seq<Player>, before: Pairing, m: Pairing, i: nat, shuffled: seq<Player>, gegner: nat)
    requires AttemptInv(spieler, before, i, gegner) && i < |spieler|
    requires forall x :: x in shuffled <==> x in spieler && x != spieler[i] && x !in before[spieler[i]]
    requires Valid(m, Set(spieler), gegner) && forall x :: x in before ==> before[x] <= m[x]
    requires forall g :: g in shuffled && g !in m[spieler[i]] ==> |m[spieler[i]]| == gegner || |m[g]| == gegner
    ensures forall k :: 0 <= k < i + 1 ==> Saturated(m, spieler[k], gegner)
  {
    ServedIsSaturated(spieler, before, m, i, shuffled, gegner);
    forall k | 0 <= k < i ensures Saturated(m, spieler[k], gegner) {
      SaturatedStays(before, m, spieler[k], gegner);
    }
  }

  /** After serving player `i`, every other player they lack is blocked. */
  lemma ServedIsSaturated(spieler: seq<Player>, before: Pairing, m: Pairing, i: nat, shuffled: seq<Player>, gegner: nat)
    requires i < |spieler| && spieler[i] in before && spieler[i] in m && m.Keys == Set(spieler)
    requires forall x :: x in shuffled <==> x in spieler && x != spieler[i] && x !in before[spieler[i]]
    requires before[spieler[i]] <= m[spieler[i]]
    requires forall g :: g in shuffled && g !in m[spieler[i]] ==> |m[spieler[i]]| == gegner || |m[g]| == gegner
    ensures Saturated(m, spieler[i], gegner)
  {
    var s := spieler[i];
    forall g | g in m && g != s && g !in m[s] ensures Blocked(m, s, g, gegner) {
      assert g in shuffled;
    }
  }

  /** After the last player, a draw of `gegner + 1` different players is complete. */
  lemma AttemptDone(spieler: seq<Player>, m: Pairing, gegner: nat)
    requires AttemptInv(spieler, m, |spieler|, gegner)
    ensures |Set(spieler)| == gegner + 1 ==> Complete(m)
    ensures forall s, g :: s in m && g in m && s != g && g !in m[s] ==> |m[s]| == gegner || |m[g]| == gegner
  {
    forall s, g | s in m && g in m && s != g && g !in m[s] ensures |m[s]| == gegner || |m[g]| == gegner {
      var k :| 0 <= k < |spieler| && spieler[k] == s;
      assert Saturated(m, spieler[k], gegner);
    }
    if |Set(spieler)| == gegner + 1 {
      forall s | s in m ensures m[s] == m.Keys - {s} {
        var k :| 0 <= k < |spieler| && spieler[k] == s;
      }
    }
  }

  /**
   * The draw: no schedule at all with fewer than `gegner + 1` players;
   * otherwise up to MAX_TRIES attempts, the first whose every player has
   * exactly `gegner` opponents is returned, and None when none has. `tries`
   * counts the attempts made: the result is `Attempt` number `tries - 1`, and
   * every attempt before it failed.
   */
  method Auslosen(spieler: seq<Player>, gegner: nat, shuffle: Shuffler) returns (r: Option<Pairing>, ghost tries: nat)
    requires IsShuffler(shuffle)
    ensures |spieler| < gegner + 1 ==> r == None && tries == 0
    ensures tries <= MAX_TRIES
    ensures r == None && |spieler| >= gegner + 1 ==> tries == MAX_TRIES
    ensures r.Some? ==> Valid(r.value, Set(spieler), gegner) && Regular(r.value, gegner)
    ensures |Set(spieler)| == gegner + 1 ==> r.Some? && tries == 1 && Complete(r.value)
    ensures (|Set(spieler)| * gegner) % 2 == 1 ==> r == None
    ensures r.Some? ==> tries >= 1 && r.value == Attempt(spieler, gegner, shuffle, tries - 1)
    ensures AllFailed(spieler, gegner, shuffle, if r.Some? then tries - 1 else tries)
  {
    SetCardAtMost(spieler);
    if |spieler| < gegner + 1 {
      return None, 0;
    }
    ghost var full := |Set(spieler)| == gegner + 1;
    tries := 0;
    for attempt := 0 to MAX_TRIES
      invariant tries == attempt
      invariant full ==> attempt == 0
      invariant AllFailed(spieler, gegner, shuffle, attempt)
    {
      var paarungen := DrawAttempt(spieler, gegner, shuffle, attempt);
      tries := tries + 1;
      if full {
        CompleteIsRegular(paarungen, gegner);
        FilledIsRegular(paarungen, spieler, gegner);
      }
      if forall s :: s in spieler ==> |paarungen[s]| == gegner {
        FilledIsRegular(paarungen, spieler, gegner);
        RegularNeedsEvenProduct(paarungen, gegner);
        return Some(paarungen), tries;
      }
      NotFilledNotRegular(paarungen, spieler, gegner);
      AllFailedStep(spieler, gegner, shuffle, attempt);
    }
    return None, tries;
  }

  /** Attempts `0` to `n - 1` all fail: none gives every player exactly `gegner` opponents. */
  ghost predicate AllFailed(spieler: seq<Player>, gegner: nat, shuffle: Shuffler, n: nat)
    requires IsShuffler(shuffle)
  {
    forall k :: 0 <= k < n ==> !Regular(Attempt(spieler, gegner, shuffle, k), gegner)
  }

  /** One more failed attempt extends the run of failed attempts. */
  lemma AllFailedStep(spieler: seq<Player>, gegner: nat, shuffle: Shuffler, n: nat)
    requires IsShuffler(shuffle) && AllFailed(spieler, gegner, shuffle, n)
    requires !Regular(Attempt(spieler, gegner, shuffle, n), gegner)
    ensures AllFailed(spieler, gegner, shuffle, n + 1)
  {
  }

  /** An attempt that fails the success test is not regular. */
  lemma NotFilledNotRegular(m: Pairing, spieler: seq<Player>, gegner: nat)
    requires m.Keys == Set(spieler)
    requires !(forall s :: s in spieler ==> |m[s]| == gegner)
    ensures !Regular(m, gegner)
  {
    var s :| s in spieler && |m[s]| != gegner;
    assert s in m;
  }

  /** The success test over the list is regularity of the pairing. */
  lemma FilledIsRegular(m: Pairing, spieler: seq<Player>, gegner: nat)
    requires m.Keys == Set(spieler)
    ensures (forall s :: s in spieler ==> s in m && |m[s]| == gegner) <==> Regular(m, gegner)
  {
  }

  /** Everybody paired with everybody else, among `gegner + 1` players, is `gegner`-regular. */
  lemma CompleteIsRegular(m: Pairing, gegner: nat)
    requires |m.Keys| == gegner + 1 && Complete(m)
    ensures Regular(m, gegner)
  {
  }

  /** The ordered pairs (s, g) with g drawn for s, for the players s in `from`. */
  function PairsFrom(m: Pairing, from: set<Player>): set<(Player, Player)>
    requires from <= m.Keys
  {
    set s, g | s in from && g in m[s] :: (s, g)
  }

  /** The ordered pairs of one player's row. */
  function Row(x: Player, opponents: set<Player>): (r: set<(Player, Player)>)
    ensures forall p :: p in r <==> p.0 == x && p.1 in opponents
  {
    set g | g in opponents :: (x, g)
  }

  /** A row has one pair per opponent. */
  lemma {:induction false} RowCard(x: Player, opponents: set<Player>)
    ensures |Row(x, opponents)| == |opponents|
    decreases |opponents|
  {
    if opponents != {} {
      var g :| g in opponents;
      RowCard(x, opponents - {g});
      assert Row(x, opponents) == Row(x, opponents - {g}) + {(x, g)};
    }
  }

  /** In a `gegner`-regular pairing the players of `from` own `|from| * gegner` ordered pairs. */
  lemma {:induction false} PairsFromCard(m: Pairing, from: set<Player>, gegner: nat)
    requires from <= m.Keys && Regular(m, gegner)
    ensures |PairsFrom(m, from)| == |from| * gegner
    decreases |from|
  {
    if from != {} {
      var x :| x in from;
      var rest := from - {x};
      PairsFromCard(m, rest, gegner);
      RowCard(x, m[x]);
      var older, row := PairsFrom(m, rest), Row(x, m[x]);
      assert PairsFrom(m, from) == older + row;
      assert older * row == {};
      assert |older + row| == |older| + |row|;
      assert |from| == |rest| + 1;
      assert |m[x]| == gegner;
      MulSucc(|rest|, |from|, gegner);
    }
  }

  lemma MulSucc(a: nat, n: nat, b: nat)
    requires n == a + 1
    ensures n * b == a * b + b
  {
  }

  /** A set of ordered pairs that holds every pair together with its reverse, and no pair (x, x), has even size. */
  lemma {:induction false} SymmetricPairsEven(ps: set<(Player, Player)>)
    requires forall p :: p in ps ==> (p.1, p.0) in ps && p.0 != p.1
    ensures |ps| % 2 == 0
    decreases |ps|
  {
    if ps != {} {
      var p :| p in ps;
      var rest := ps - {p, (p.1, p.0)};
      forall q | q in rest ensures (q.1, q.0) in rest && q.0 != q.1 {
        assert q in ps;
      }
      SymmetricPairsEven(rest);
    }
  }

  /**
   * Every schedule has an even number of ordered pairs, so a schedule giving
   * each of an odd number of players an odd number of opponents does not
   * exist.
   */
  lemma RegularNeedsEvenProduct(m: Pairing, gegner: nat)
    requires Valid(m, m.Keys, gegner) && Regular(m, gegner)
    ensures (|m.Keys| * gegner) % 2 == 0
  {
    PairsFromCard(m, m.Keys, gegner);
    var ps := PairsFrom(m, m.Keys);
    forall p | p in ps ensures (p.1, p.0) in ps && p.0 != p.1 {
      var s, g :| s in m.Keys && g in m[s] && p == (s, g);
    }
    SymmetricPairsEven(ps);
  }

  /** A schedule that gives everybody `gegner` opponents needs at least `gegner + 1` players. */
  lemma RegularNeedsEnoughPlayers(m: Pairing, gegner: nat)
    requires Valid(m, m.Keys, gegner) && Regular(m, gegner) && m != map[]
    ensures |m.Keys| >= gegner + 1
  {
    var s :| s in m;
    OpponentsAreOthers(m, s);
    SubsetCard(m[s], m.Keys - {s});
  }
}
