/**
 * The frags table of the heads-up display: HU_FragsUpdate recomputes every
 * in-game player's frag total and lists those players in `sortedplayers`,
 * best total first, by a bubble sort over player pointers.  A player
 * pointer is modelled as the player's number, and the `totalfrags` field
 * of `players[]` as one array indexed by player number.
 */
module Frags {

  // ---------------------------------------------------------------------
  // The specification: who is listed, and with what total
  // ---------------------------------------------------------------------

  /** The numbers of the in-game players, in ascending order. */
  function Roster(ingame: seq<bool>): seq<nat>
    decreases |ingame|
  {
    if |ingame| == 0 then []
    else
      var n := |ingame| - 1;
      Roster(ingame[..n]) + (if ingame[n] then [n] else [])
  }

  /** The roster lists exactly the in-game players, each once, in
      ascending order. */
  lemma {:induction false} RosterSpec(ingame: seq<bool>)
    ensures forall k :: 0 <= k < |Roster(ingame)| ==> Roster(ingame)[k] < |ingame| && ingame[Roster(ingame)[k]]
    ensures forall a, b :: 0 <= a < b < |Roster(ingame)| ==> Roster(ingame)[a] < Roster(ingame)[b]
    ensures forall p :: 0 <= p < |ingame| && ingame[p] ==> p in Roster(ingame)
    decreases |ingame|
  {
    if |ingame| > 0 {
      var n := |ingame| - 1;
      var g0 := ingame[..n];
      RosterSpec(g0);
      var r0 := Roster(g0);
      var r := Roster(ingame);
      assert r == r0 + (if ingame[n] then [n] else []);
      forall k | 0 <= k < |r|
        ensures r[k] < |ingame| && ingame[r[k]]
      {
        if k < |r0| {
          assert r[k] == r0[k] && g0[r0[k]] == ingame[r0[k]];
        }
      }
      forall a, b | 0 <= a < b < |r|
        ensures r[a] < r[b]
      {
        assert r[a] == r0[a] && r0[a] < n;
        if b < |r0| {
          assert r[b] == r0[b];
        }
      }
      forall p | 0 <= p < |ingame| && ingame[p]
        ensures p in r
      {
        if p < n {
          assert g0[p] && p in r0;
        } else {
          assert r[|r0|] == p;
        }
      }
    }
  }

  /** What frag count j adds to player i's total: a frag of another
      in-game player adds, a suicide (j == i) subtracts, and frags of a
      player not in the game do not count. */
  function Term(ingame: seq<bool>, row: seq<int>, i: nat, j: nat): int
    requires j < |ingame| && j < |row|
  {
    if !ingame[j] then 0 else if i == j then -row[j] else row[j]
  }

  /** Player i's total over the first n columns of its frag row. */
  function Tally(ingame: seq<bool>, row: seq<int>, i: nat, n: nat): int
    requires n <= |ingame| && n <= |row|
  {
    if n == 0 then 0 else Tally(ingame, row, i, n - 1) + Term(ingame, row, i, n - 1)
  }

  /** One more frag of player j changes player i's total by one: up for
      another in-game player, down for a suicide, not at all for a player
      not in the game. */
  lemma {:induction false} OneMoreFrag(ingame: seq<bool>, row: seq<int>, i: nat, j: nat, n: nat)
    requires n <= |ingame| && n <= |row| && j < |row|
    ensures Tally(ingame, row[j := row[j] + 1], i, n) ==
            Tally(ingame, row, i, n) + (if j >= n || !ingame[j] then 0 else if i == j then -1 else 1)
  {
    if n > 0 {
      OneMoreFrag(ingame, row, i, j, n - 1);
    }
  }

  /** Only the columns of in-game players count: two rows that agree on
      them give the same total. */
  lemma {:induction false} AbsentColumnsIgnored(ingame: seq<bool>, row1: seq<int>, row2: seq<int>, i: nat, n: nat)
    requires n <= |ingame| && n <= |row1| && n <= |row2|
    requires forall j :: 0 <= j < n && ingame[j] ==> row1[j] == row2[j]
    ensures Tally(ingame, row1, i, n) == Tally(ingame, row2, i, n)
  {
    if n > 0 {
      AbsentColumnsIgnored(ingame, row1, row2, i, n - 1);
    }
  }

  // ---------------------------------------------------------------------
  // The order of the listing
  // ---------------------------------------------------------------------

  /** A player's total, 0 for a number outside the table. */
  function KeyOf(tot: seq<int>, p: nat): int {
    if p < |tot| then tot[p] else 0
  }

  /** p is listed before q: a higher total, or the same total and a lower
      player number. */
  predicate Ahead(tot: seq<int>, p: nat, q: nat) {
    KeyOf(tot, p) > KeyOf(tot, q) || (KeyOf(tot, p) == KeyOf(tot, q) && p < q)
  }

  /** Every pair is in Ahead order. */
  ghost predicate Ranked(tot: seq<int>, s: seq<nat>) {
    forall a, b :: 0 <= a < b < |s| ==> Ahead(tot, s[a], s[b])
  }

  /** Every pair whose later member is at position m or beyond is in
      non-increasing order of total. */
  ghost predicate Settled(tot: seq<int>, s: seq<nat>, m: int) {
    forall a, b :: 0 <= a < b < |s| && b >= m ==> KeyOf(tot, s[a]) >= KeyOf(tot, s[b])
  }

  /** Players with equal totals are in ascending number order. */
  ghost predicate Stable(tot: seq<int>, s: seq<nat>) {
    forall a, b :: 0 <= a < b < |s| && KeyOf(tot, s[a]) == KeyOf(tot, s[b]) ==> s[a] < s[b]
  }

  ghost predicate InRange(s: seq<nat>, n: nat) {
    forall k :: 0 <= k < |s| ==> s[k] < n
  }

  /** Sorted by total and stable is Ahead order throughout. */
  lemma RankedBySortAndStability(tot: seq<int>, s: seq<nat>)
    requires Settled(tot, s, 0) && Stable(tot, s)
    ensures Ranked(tot, s)
  {
    forall a, b | 0 <= a < b < |s|
      ensures Ahead(tot, s[a], s[b])
    {
      assert KeyOf(tot, s[a]) >= KeyOf(tot, s[b]);
    }
  }

  /** An ascending listing is stable whatever the totals. */
  lemma AscendingIsStable(tot: seq<int>, s: seq<nat>)
    requires forall a, b :: 0 <= a < b < |s| ==> s[a] < s[b]
    ensures Stable(tot, s)
  {
  }

  /** The listing with positions i and i + 1 exchanged. */
  function Swapped(s: seq<nat>, i: nat): (r: seq<nat>)
    requires i + 1 < |s|
    ensures |r| == |s| && r[i] == s[i + 1] && r[i + 1] == s[i]
    ensures forall k :: 0 <= k < |s| && k != i && k != i + 1 ==> r[k] == s[k]
  {
    s[i := s[i + 1]][i + 1 := s[i]]
  }

  /** An exchange rearranges the listing. */
  lemma SwapPermutes(s: seq<nat>, i: nat)
    requires i + 1 < |s|
    ensures multiset(Swapped(s, i)) == multiset(s)
  {
  }

  /** Exchanging two neighbours of different totals keeps equal totals in
      ascending number order. */
  lemma SwapKeepsStable(tot: seq<int>, s: seq<nat>, i: nat)
    requires i + 1 < |s| && Stable(tot, s) && KeyOf(tot, s[i]) != KeyOf(tot, s[i + 1])
    ensures Stable(tot, Swapped(s, i))
  {
    var r := Swapped(s, i);
    forall a, b | 0 <= a < b < |r| && KeyOf(tot, r[a]) == KeyOf(tot, r[b])
      ensures r[a] < r[b]
    {
      var a' := if a == i then i + 1 else if a == i + 1 then i else a;
      var b' := if b == i then i + 1 else if b == i + 1 then i else b;
      assert r[a] == s[a'] && r[b] == s[b'];
    }
  }

  /** Exchanging two neighbours before position m keeps the pairs ending
      at or beyond m in order. */
  lemma SwapKeepsSettled(tot: seq<int>, s: seq<nat>, i: nat, m: int)
    requires i + 1 < |s| && i + 1 < m && Settled(tot, s, m)
    ensures Settled(tot, Swapped(s, i), m)
  {
    var r := Swapped(s, i);
    forall a, b | 0 <= a < b < |r| && b >= m
      ensures KeyOf(tot, r[a]) >= KeyOf(tot, r[b])
    {
      var a' := if a == i then i + 1 else if a == i + 1 then i else a;
      assert r[a] == s[a'] && r[b] == s[b];
    }
  }

  /** What holds at position i of a pass that started with the pairs
      ending at m or beyond in order: those pairs still are, and so are
      the ones ending at m - 1 once the pass has reached it; entry i has
      the lowest total of the entries up to it; and, while nothing was
      exchanged (`clean`), the entries up to i are sorted. */
  ghost predicate Bubbling(tot: seq<int>, s: seq<nat>, i: int, m: int, clean: bool) {
    Stable(tot, s) && Settled(tot, s, m) && (i >= m - 1 ==> Settled(tot, s, m - 1)) &&
    (forall a :: 0 <= a < i < |s| ==> KeyOf(tot, s[a]) >= KeyOf(tot, s[i])) &&
    (clean ==> forall a, b :: 0 <= a < b <= i && b < |s| ==> KeyOf(tot, s[a]) >= KeyOf(tot, s[b]))
  }

  /** One comparison of a pass keeps Bubbling; an exchange only happens
      before position m - 1. */
  lemma BubbleStep(tot: seq<int>, s: seq<nat>, i: nat, m: int, clean: bool, exch: bool)
    requires i + 1 < |s| && Bubbling(tot, s, i, m, clean)
    requires exch == (KeyOf(tot, s[i]) < KeyOf(tot, s[i + 1]))
    ensures exch ==> i + 1 < m && Bubbling(tot, Swapped(s, i), i + 1, m, false)
    ensures !exch ==> Bubbling(tot, s, i + 1, m, clean)
  {
    if exch {
      SwapKeepsStable(tot, s, i);
      SwapKeepsSettled(tot, s, i, m);
    }
  }

  /** The rest of a bubble-sort pass from position i: the listing it
      leaves and whether it exchanged anything. */
  function Bubble(tot: seq<int>, s: seq<nat>, i: nat): (seq<nat>, bool)
    decreases |s| - i
  {
    if i + 1 >= |s| then (s, false)
    else if KeyOf(tot, s[i]) < KeyOf(tot, s[i + 1]) then (Bubble(tot, Swapped(s, i), i + 1).0, true)
    else Bubble(tot, s, i + 1)
  }

  /** A pass rearranges the listing. */
  lemma {:induction false} BubblePermutes(tot: seq<int>, s: seq<nat>, i: nat)
    ensures multiset(Bubble(tot, s, i).0) == multiset(s)
    decreases |s| - i
  {
    if i + 1 < |s| {
      if KeyOf(tot, s[i]) < KeyOf(tot, s[i + 1]) {
        SwapPermutes(s, i);
        BubblePermutes(tot, Swapped(s, i), i + 1);
      } else {
        BubblePermutes(tot, s, i + 1);
      }
    }
  }

  /** A pass that starts with the pairs ending at m or beyond in order
      leaves those ending at m - 1 or beyond in order and equal totals in
      ascending number order; it exchanges something only when m > 1, and
      a pass from a clean start that exchanges nothing leaves the listing
      sorted. */
  lemma {:induction false} BubbleSpec(tot: seq<int>, s: seq<nat>, i: nat, m: int, clean: bool)
    requires m <= |s| && (|s| == 0 || i < |s|) && Bubbling(tot, s, i, m, clean)
    ensures Settled(tot, Bubble(tot, s, i).0, m - 1) && Stable(tot, Bubble(tot, s, i).0)
    ensures Bubble(tot, s, i).1 ==> 1 < m
    ensures clean && !Bubble(tot, s, i).1 ==> Settled(tot, Bubble(tot, s, i).0, 0)
    decreases |s| - i
  {
    if i + 1 < |s| {
      var exch := KeyOf(tot, s[i]) < KeyOf(tot, s[i + 1]);
      BubbleStep(tot, s, i, m, clean, exch);
      if exch {
        var s' := Swapped(s, i);
        assert Bubble(tot, s, i) == (Bubble(tot, s', i + 1).0, true);
        BubbleSpec(tot, s', i + 1, m, false);
      } else {
        assert Bubble(tot, s, i) == Bubble(tot, s, i + 1);
        BubbleSpec(tot, s, i + 1, m, clean);
      }
    } else {
      assert Bubble(tot, s, i) == (s, false);
      if clean {
        forall a, b | 0 <= a < b < |s|
          ensures KeyOf(tot, s[a]) >= KeyOf(tot, s[b])
        {
          assert b <= i;
        }
      }
    }
  }

  /** A sort pass starts in the Bubbling state. */
  lemma StartPass(tot: seq<int>, s: seq<nat>, m: int)
    requires Settled(tot, s, m) && Stable(tot, s)
    ensures Bubbling(tot, s, 0, m, true)
  {
    forall a, b | 0 <= a < b < |s| && b >= m - 1 && m <= 1
      ensures KeyOf(tot, s[a]) >= KeyOf(tot, s[b])
    {
      assert b >= m;
    }
  }

  /** A rearrangement keeps every entry below n. */
  lemma SameElements(a: seq<nat>, b: seq<nat>, n: nat)
    requires multiset(a) == multiset(b) && InRange(b, n)
    ensures InRange(a, n)
  {
    forall k | 0 <= k < |a|
      ensures a[k] < n
    {
      assert a[k] in multiset(b);
    }
  }

  // ---------------------------------------------------------------------
  // HU_FragsUpdate
  // ---------------------------------------------------------------------

  /** `players[].totalfrags`, `sortedplayers[]` and `num_players`, for a
      game of `maxPlayers` slots. */
  class Scoreboard {
    const maxPlayers: nat
    const totalfrags: array<int>
    const sortedplayers: array<nat>
    var numPlayers: nat

    ghost predicate Valid()
      reads this
    {
      totalfrags.Length == maxPlayers && sortedplayers.Length == maxPlayers && numPlayers <= maxPlayers
    }

    constructor (slots: nat)
      ensures Valid() && maxPlayers == slots && numPlayers == 0
      ensures fresh(totalfrags) && fresh(sortedplayers)
    {
      maxPlayers := slots;
      totalfrags := new int[slots](_ => 0);
      sortedplayers := new nat[slots](_ => 0);
      numPlayers := 0;
    }

    /** The first loop of HU_FragsUpdate: list the in-game players in
        ascending order and recompute their totals; the totals of the
        other players are left as they were. */
    method Collect(ingame: seq<bool>, frags: seq<seq<int>>)
      requires Valid() && |ingame| == maxPlayers && |frags| == maxPlayers
      requires forall i :: 0 <= i < |frags| ==> |frags[i]| == maxPlayers
      modifies this`numPlayers, sortedplayers, totalfrags
      ensures Valid() && sortedplayers[..numPlayers] == Roster(ingame)
      ensures sortedplayers[numPlayers..] == old(sortedplayers[..])[numPlayers..]
      ensures forall p :: 0 <= p < maxPlayers ==>
                totalfrags[p] == (if ingame[p] then Tally(ingame, frags[p], p, maxPlayers) else old(totalfrags[p]))
    {
      numPlayers := 0;
      var i := 0;
      while i < maxPlayers
        invariant 0 <= i <= maxPlayers && numPlayers <= i && Valid()
        invariant sortedplayers[..numPlayers] == Roster(ingame[..i])
        invariant sortedplayers[numPlayers..] == old(sortedplayers[..])[numPlayers..]
        invariant forall p :: 0 <= p < maxPlayers ==>
                    totalfrags[p] == (if p < i && ingame[p] then Tally(ingame, frags[p], p, maxPlayers) else old(totalfrags[p]))
      {
        assert ingame[..i + 1][..i] == ingame[..i];
        if ingame[i] {
          ghost var before := sortedplayers[..];
          sortedplayers[numPlayers] := i;
          assert sortedplayers[..numPlayers] == before[..numPlayers];
          numPlayers := numPlayers + 1;
          AddUpFrags(ingame, frags[i], i);
        }
        i := i + 1;
      }
      assert ingame[..maxPlayers] == ingame;
    }

    /** The inner loop of the first pass: player i's total, reset to 0,
        then each in-game player's frag count added, its own subtracted. */
    method AddUpFrags(ingame: seq<bool>, row: seq<int>, i: nat)
      requires Valid() && |ingame| == maxPlayers && |row| == maxPlayers && i < maxPlayers
      modifies totalfrags
      ensures totalfrags[..] == old(totalfrags[..])[i := Tally(ingame, row, i, maxPlayers)]
    {
      totalfrags[i] := 0;
      var j := 0;
      while j < maxPlayers
        invariant 0 <= j <= maxPlayers
        invariant totalfrags[..] == old(totalfrags[..])[i := Tally(ingame, row, i, j)]
      {
        if ingame[j] {
          if i == j {
            totalfrags[i] := totalfrags[i] - row[j];
          } else {
            totalfrags[i] := totalfrags[i] + row[j];
          }
        }
        j := j + 1;
      }
    }

    /** Exchange the listing's entries i and i + 1. */
    method Swap(i: nat)
      requires Valid() && i + 1 < numPlayers
      modifies sortedplayers
      ensures sortedplayers[..numPlayers] == Swapped(old(sortedplayers[..numPlayers]), i)
      ensures sortedplayers[numPlayers..] == old(sortedplayers[numPlayers..])
    {
      var temp := sortedplayers[i];
      sortedplayers[i] := sortedplayers[i + 1];
      sortedplayers[i + 1] := temp;
    }

    /** One comparison of the bubble sort: entries i and i + 1 are
        exchanged when the first has the lower total. */
    method CompareAt(i: nat, ghost tot: seq<int>) returns (exch: bool)
      requires Valid() && i + 1 < numPlayers && InRange(sortedplayers[..numPlayers], maxPlayers)
      requires tot == totalfrags[..]
      modifies sortedplayers
      ensures var s := old(sortedplayers[..numPlayers]);
              exch == (KeyOf(tot, s[i]) < KeyOf(tot, s[i + 1]))
      ensures sortedplayers[..numPlayers] == (if exch then Swapped(old(sortedplayers[..numPlayers]), i) else old(sortedplayers[..numPlayers]))
      ensures sortedplayers[numPlayers..] == old(sortedplayers[numPlayers..])
      ensures InRange(sortedplayers[..numPlayers], maxPlayers)
    {
      assert sortedplayers[..numPlayers][i] == sortedplayers[i] && sortedplayers[..numPlayers][i + 1] == sortedplayers[i + 1];
      exch := totalfrags[sortedplayers[i]] < totalfrags[sortedplayers[i + 1]];
      if exch {
        Swap(i);
      }
    }

    /** One pass of the bubble sort: neighbours are exchanged wherever the
        first has the lower total. */
    method Pass(ghost tot: seq<int>) returns (change: bool)
      requires Valid() && InRange(sortedplayers[..numPlayers], maxPlayers) && tot == totalfrags[..]
      modifies sortedplayers
      ensures (sortedplayers[..numPlayers], change) == Bubble(tot, old(sortedplayers[..numPlayers]), 0)
      ensures sortedplayers[numPlayers..] == old(sortedplayers[numPlayers..])
    {
      ghost var goal := Bubble(tot, sortedplayers[..numPlayers], 0);
      ghost var rest := sortedplayers[numPlayers..];
      change := false;
      var i := 0;
      while i < numPlayers - 1
        invariant 0 <= i && (numPlayers == 0 || i < numPlayers)
        invariant InRange(sortedplayers[..numPlayers], maxPlayers)
        invariant sortedplayers[numPlayers..] == rest
        invariant Bubble(tot, sortedplayers[..numPlayers], i).0 == goal.0
        invariant (change || Bubble(tot, sortedplayers[..numPlayers], i).1) == goal.1
      {
        ghost var s := sortedplayers[..numPlayers];
        var exch := CompareAt(i, tot);
        assert Bubble(tot, s, i) ==
               if exch then (Bubble(tot, sortedplayers[..numPlayers], i + 1).0, true)
               else Bubble(tot, sortedplayers[..numPlayers], i + 1);
        if exch {
          change := true;
        }
        i := i + 1;
      }
    }

    /** The bubble sort of HU_FragsUpdate: passes repeat while the last one
        exchanged something. */
    method Sort()
      requires Valid() && InRange(sortedplayers[..numPlayers], maxPlayers)
      requires Stable(totalfrags[..], sortedplayers[..numPlayers])
      modifies sortedplayers
      ensures multiset(sortedplayers[..numPlayers]) == old(multiset(sortedplayers[..numPlayers]))
      ensures sortedplayers[numPlayers..] == old(sortedplayers[numPlayers..])
      ensures Ranked(totalfrags[..], sortedplayers[..numPlayers])
    {
      ghost var tot := totalfrags[..];
      var change := true;
      ghost var passes := 0;
      while change
        invariant InRange(sortedplayers[..numPlayers], maxPlayers)
        invariant multiset(sortedplayers[..numPlayers]) == old(multiset(sortedplayers[..numPlayers]))
        invariant sortedplayers[numPlayers..] == old(sortedplayers[numPlayers..])
        invariant Stable(tot, sortedplayers[..numPlayers])
        invariant Settled(tot, sortedplayers[..numPlayers], numPlayers - passes)
        invariant !change ==> Settled(tot, sortedplayers[..numPlayers], 0)
        invariant change ==> passes <= numPlayers
        decreases if change then numPlayers + 1 - passes else 0
      {
        ghost var s := sortedplayers[..numPlayers];
        StartPass(tot, s, numPlayers - passes);
        BubblePermutes(tot, s, 0);
        BubbleSpec(tot, s, 0, numPlayers - passes, true);
        change := Pass(tot);
        SameElements(sortedplayers[..numPlayers], s, maxPlayers);
        passes := passes + 1;
      }
      RankedBySortAndStability(tot, sortedplayers[..numPlayers]);
    }

    /** HU_FragsUpdate: afterwards the listing holds each in-game player
        once, best total first and equal totals in ascending number
        order; each in-game player's total is its frags of the other
        in-game players less its own suicides, and everything else is
        left as it was. */
    method Update(ingame: seq<bool>, frags: seq<seq<int>>)
      requires Valid() && |ingame| == maxPlayers && |frags| == maxPlayers
      requires forall i :: 0 <= i < |frags| ==> |frags[i]| == maxPlayers
      modifies this`numPlayers, sortedplayers, totalfrags
      ensures Valid() && numPlayers == |Roster(ingame)|
      ensures multiset(sortedplayers[..numPlayers]) == multiset(Roster(ingame))
      ensures Ranked(totalfrags[..], sortedplayers[..numPlayers])
      ensures sortedplayers[numPlayers..] == old(sortedplayers[..])[numPlayers..]
      ensures forall p :: 0 <= p < maxPlayers ==>
                totalfrags[p] == (if ingame[p] then Tally(ingame, frags[p], p, maxPlayers) else old(totalfrags[p]))
    {
      Collect(ingame, frags);
      RosterSpec(ingame);
      AscendingIsStable(totalfrags[..], sortedplayers[..numPlayers]);
      Sort();
    }
  }
}
