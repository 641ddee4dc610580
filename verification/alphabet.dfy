/**
 * The fixed tables behind geohash navigation: the 32-symbol alphabet, and for
 * every compass direction and cell-length parity a neighbour string and an
 * edge-case string.  A cell id's last symbol `c` has, in direction `d`, the
 * neighbour symbol `Base[i]` where `i` is the position of `c` in the neighbour
 * string; `c` is an edge case when its neighbour lies in another parent cell.
 */
module Alphabet {
  import opened Wrappers

  /** The geohash alphabet: digits and lower-case letters without a, i, l and o. */
  const Base: string := "01234567" + "89bcdefg" + "hjkmnpqr" + "stuvwxyz"

  datatype Direction = North | South | East | West

  function Opposite(d: Direction): Direction
  {
    match d
    case North => South
    case South => North
    case East => West
    case West => East
  }

  /** The neighbour strings of a direction, for an even (index 0) and an odd (index 1) length. */
  function Neighbours(d: Direction): seq<string>
  {
    match d
    case North => ["p0r21436" + "x8zb9dcf" + "5h7kjnmq" + "esgutwvy", "bc01fg45" + "238967de" + "uvhjyznp" + "kmstqrwx"]
    case South => ["14365h7k" + "9dcfesgu" + "jnmqp0r2" + "twvyx8zb", "238967de" + "bc01fg45" + "kmstqrwx" + "uvhjyznp"]
    case East => ["bc01fg45" + "238967de" + "uvhjyznp" + "kmstqrwx", "p0r21436" + "x8zb9dcf" + "5h7kjnmq" + "esgutwvy"]
    case West => ["238967de" + "bc01fg45" + "kmstqrwx" + "uvhjyznp", "14365h7k" + "9dcfesgu" + "jnmqp0r2" + "twvyx8zb"]
  }

  /** The symbols on the border of their parent cell in a direction, per parity. */
  function EdgeCases(d: Direction): seq<string>
  {
    match d
    case North => ["prxz", "bcfguvyz"]
    case South => ["028b", "0145hjnp"]
    case East => ["bcfguvyz", "prxz"]
    case West => ["0145hjnp", "028b"]
  }

  predicate AllBase(s: string)
  {
    forall i :: 0 <= i < |s| ==> s[i] in Base
  }

  predicate Distinct(s: string)
  {
    forall i, j :: 0 <= i < j < |s| ==> s[i] != s[j]
  }

  /** `s` holds every symbol of the alphabet exactly once. */
  predicate PermutationOfBase(s: string)
  {
    |s| == |Base| && Distinct(s) && (forall c :: c in s <==> c in Base)
  }

  /** Position of the first occurrence of `c` in `s`, or None where Python's `str.index` raises. */
  function IndexOf(s: string, c: char): (r: Option<nat>)
    ensures r.None? <==> c !in s
    ensures r.Some? ==> r.value < |s| && s[r.value] == c && forall j :: 0 <= j < r.value ==> s[j] != c
  {
    if |s| == 0 then None
    else if s[0] == c then Some(0)
    else
      match IndexOf(s[1..], c)
      case None => None
      case Some(i) => Some(i + 1)
  }

  lemma IndexOfFirst(s: string, c: char, i: nat)
    requires i < |s| && s[i] == c
    requires forall j :: 0 <= j < i ==> s[j] != c
    ensures IndexOf(s, c) == Some(i)
  {
  }

  /** The symbol `Base[s.index(c)]`, or None where the lookup raises. */
  function Lookup(table: string, c: char): (r: Option<char>)
    requires |table| == |Base|
  {
    match IndexOf(table, c)
    case None => None
    case Some(i) => Some(Base[i])
  }

  /** The neighbour symbol of a last symbol `c` in direction `d` at the given parity. */
  function Shift(d: Direction, parity: nat, c: char): (r: Option<char>)
    requires parity < 2
  {
    Lookup(Neighbours(d)[parity], c)
  }

  /** `c` sits on the border of its parent cell towards `d`. */
  predicate IsEdge(d: Direction, parity: nat, c: char)
    requires parity < 2
  {
    c in EdgeCases(d)[parity]
  }

  /** Every symbol outside the alphabet has no neighbour symbol (the lookup raises). */
  ghost predicate RejectsOutsideBase(t: string)
    requires |t| == |Base|
  {
    forall c :: c !in Base ==> Lookup(t, c) == None
  }

  /**
   * Every alphabet symbol has a neighbour symbol in the alphabet, different from itself,
   * and looking that one up in the opposite table `t2` returns the symbol.
   */
  ghost predicate InverseTables(t1: string, t2: string)
    requires |t1| == |Base| && |t2| == |Base|
  {
    forall c :: c in Base ==>
      && Lookup(t1, c).Some?
      && Lookup(t1, c).value in Base
      && Lookup(t1, c).value != c
      && Lookup(t2, Lookup(t1, c).value) == Some(c)
  }

  /** A symbol is an edge case exactly when its neighbour symbol is an opposite edge case. */
  ghost predicate EdgesCorrespond(t1: string, e1: string, e2: string)
    requires |t1| == |Base|
  {
    forall c :: c in Base ==> Lookup(t1, c).Some? && (c in e1 <==> Lookup(t1, c).value in e2)
  }

  /** What a table with its edge cases must satisfy against the opposite direction's pair. */
  ghost predicate Paired(t1: string, t2: string, e1: string, e2: string)
  {
    && |t1| == |Base| && |t2| == |Base|
    && PermutationOfBase(t1)
    && (forall c :: c in e1 ==> c in Base)
    && RejectsOutsideBase(t1)
    && InverseTables(t1, t2)
    && EdgesCorrespond(t1, e1, e2)
  }

  /** Each symbol of `s` comes before the next in character order. */
  predicate Ascending(s: string)
  {
    forall i :: 0 <= i < |s| - 1 ==> s[i] < s[i + 1]
  }

  lemma {:induction false} AscendingBetween(s: string, i: int, j: int)
    requires Ascending(s) && 0 <= i < j < |s|
    ensures s[i] < s[j]
    decreases j - i
  {
    if i + 1 < j {
      AscendingBetween(s, i, j - 1);
    }
  }

  /** No symbol occurs twice in the alphabet: it is listed in ascending character order. */
  lemma BaseDistinct()
    ensures Distinct(Base)
  {
    assert Ascending(Base);
    forall i, j | 0 <= i < j < |Base|
      ensures Base[i] != Base[j]
    {
      AscendingBetween(Base, i, j);
    }
  }

  /** Position witnesses `p` (`t[i] == Base[p[i]]`) with an inverse `q`. */
  ghost predicate Witnessed(t: string, p: seq<int>, q: seq<int>)
  {
    && |t| == |Base| && |p| == |Base| && |q| == |Base|
    && (forall i :: 0 <= i < |Base| ==> 0 <= p[i] < |Base| && 0 <= q[i] < |Base|)
    && (forall i :: 0 <= i < |Base| ==> t[i] == Base[p[i]])
    && (forall i :: 0 <= i < |Base| ==> p[q[i]] == i && q[p[i]] == i)
  }

  /** Every position of `t` holds the alphabet symbol at the position `p` names. */
  ghost predicate Spells(t: string, p: seq<int>)
  {
    |t| == |Base| && |p| == |Base| && forall i :: 0 <= i < |Base| ==> 0 <= p[i] < |Base| && t[i] == Base[p[i]]
  }

  /** `q` undoes `p` on every position: `p[q[i]] == i`. */
  ghost predicate Undoes(p: seq<int>, q: seq<int>)
  {
    |p| == |Base| && |q| == |Base| && forall i :: 0 <= i < |Base| ==> 0 <= q[i] < |Base| && p[q[i]] == i
  }

  lemma WitnessedParts(t: string, p: seq<int>, q: seq<int>)
    requires Spells(t, p)
    requires Undoes(p, q) && Undoes(q, p)
    ensures Witnessed(t, p, q)
  {
  }

  /** Equal symbols of the alphabet sit at equal positions. */
  lemma BaseInjective(i: int, j: int)
    requires 0 <= i < |Base| && 0 <= j < |Base|
    ensures Base[i] == Base[j] <==> i == j
  {
    BaseDistinct();
  }

  lemma WitnessedPermutation(t: string, p: seq<int>, q: seq<int>)
    requires Witnessed(t, p, q)
    ensures PermutationOfBase(t)
  {
    forall i, j | 0 <= i < j < |t|
      ensures t[i] != t[j]
    {
      BaseInjective(p[i], p[j]);
      assert q[p[i]] == i && q[p[j]] == j;
    }
    forall c | c in t
      ensures c in Base
    {
      var i :| 0 <= i < |t| && t[i] == c;
    }
    forall c | c in Base
      ensures c in t
    {
      var k :| 0 <= k < |Base| && Base[k] == c;
      assert t[q[k]] == c;
    }
  }

  /** Through the witnesses, the symbol `Base[k]` sits at position `q[k]` of `t` and nowhere before. */
  lemma WitnessedIndex(t: string, p: seq<int>, q: seq<int>, k: int)
    requires Witnessed(t, p, q) && 0 <= k < |Base|
    ensures Lookup(t, Base[k]) == Some(Base[q[k]])
  {
    WitnessedPermutation(t, p, q);
    assert t[q[k]] == Base[k];
    IndexOfFirst(t, Base[k], q[k]);
  }

  lemma WitnessedRejects(t: string, p: seq<int>, q: seq<int>)
    requires Witnessed(t, p, q)
    ensures RejectsOutsideBase(t)
  {
    WitnessedPermutation(t, p, q);
  }

  lemma WitnessedInverse(t1: string, t2: string, p1: seq<int>, p2: seq<int>)
    requires Witnessed(t1, p1, p2) && Witnessed(t2, p2, p1)
    requires forall i :: 0 <= i < |Base| ==> p2[i] != i
    ensures InverseTables(t1, t2)
  {
    forall c | c in Base
      ensures Lookup(t1, c).Some? && Lookup(t1, c).value in Base && Lookup(t1, c).value != c
      ensures Lookup(t2, Lookup(t1, c).value) == Some(c)
    {
      var k :| 0 <= k < |Base| && Base[k] == c;
      BaseInjective(k, p2[k]);
      WitnessedIndex(t1, p1, p2, k);
      WitnessedIndex(t2, p2, p1, p2[k]);
    }
  }

  /** The symbols of an edge-case string `e` are exactly those at the Base positions `es`. */
  ghost predicate EdgeSpots(e: string, es: set<int>)
  {
    && (forall j :: j in es ==> 0 <= j < |Base| && Base[j] in e)
    && (forall c :: c in e ==> c in Base && forall j :: 0 <= j < |Base| && Base[j] == c ==> j in es)
  }

  lemma WitnessedEdges(t1: string, e1: string, e2: string, p1: seq<int>, p2: seq<int>, es1: set<int>, es2: set<int>)
    requires Witnessed(t1, p1, p2) && EdgeSpots(e1, es1) && EdgeSpots(e2, es2)
    requires forall i :: 0 <= i < |Base| ==> (p1[i] in es1 <==> i in es2)
    ensures EdgesCorrespond(t1, e1, e2)
  {
    forall c | c in Base
      ensures Lookup(t1, c).Some? && (c in e1 <==> Lookup(t1, c).value in e2)
    {
      var k :| 0 <= k < |Base| && Base[k] == c;
      WitnessedIndex(t1, p1, p2, k);
      var i := p2[k];
      assert t1[i] == c && p1[i] == k;
    }
  }

  /** No position is sent to itself. */
  ghost predicate NoFixedPoint(p: seq<int>)
  {
    |p| == |Base| && forall i :: 0 <= i < |Base| ==> p[i] != i
  }

  /** Position `i` is in `es2` exactly when `p[i]` is in `es1`. */
  ghost predicate EdgesMatch(p: seq<int>, es1: set<int>, es2: set<int>)
  {
    |p| == |Base| && forall i :: 0 <= i < |Base| ==> (p[i] in es1 <==> i in es2)
  }

  /**
   * Two tables whose position witnesses are mutually inverse, fixed-point free and
   * agree on edge cases are paired.
   */
  lemma PairedTables(t1: string, t2: string, e1: string, e2: string, p1: seq<int>, p2: seq<int>, es1: set<int>, es2: set<int>)
    requires Witnessed(t1, p1, p2) && Witnessed(t2, p2, p1)
    requires NoFixedPoint(p2)
    requires EdgeSpots(e1, es1) && EdgeSpots(e2, es2)
    requires EdgesMatch(p1, es1, es2)
    ensures Paired(t1, t2, e1, e2)
  {
    WitnessedPermutation(t1, p1, p2);
    WitnessedRejects(t1, p1, p2);
    WitnessedInverse(t1, t2, p1, p2);
    WitnessedEdges(t1, e1, e2, p1, p2, es1, es2);
  }

  // Positions in Base of the symbols of the north and south strings for even lengths ...
  const NorthEvenPositions: seq<int> := [21, 0, 23, 2, 1, 4, 3, 6] + [29, 8, 31, 10, 9, 12, 11, 14] + [5, 16, 7, 18, 17, 20, 19, 22] + [13, 24, 15, 26, 25, 28, 27, 30]
  const SouthEvenPositions: seq<int> := [1, 4, 3, 6, 5, 16, 7, 18] + [9, 12, 11, 14, 13, 24, 15, 26] + [17, 20, 19, 22, 21, 0, 23, 2] + [25, 28, 27, 30, 29, 8, 31, 10]
  // ... and for odd lengths; east and west reuse them with the parities crossed.
  const NorthOddPositions: seq<int> := [10, 11, 0, 1, 14, 15, 4, 5] + [2, 3, 8, 9, 6, 7, 12, 13] + [26, 27, 16, 17, 30, 31, 20, 21] + [18, 19, 24, 25, 22, 23, 28, 29]
  const SouthOddPositions: seq<int> := [2, 3, 8, 9, 6, 7, 12, 13] + [10, 11, 0, 1, 14, 15, 4, 5] + [18, 19, 24, 25, 22, 23, 28, 29] + [26, 27, 16, 17, 30, 31, 20, 21]

  /** Every position of a 32-symbol table is one of the 32 literals (lets the solver split cases). */
  lemma Enumerate(i: int)
    requires 0 <= i < |Base|
    ensures i == 0 || i == 1 || i == 2 || i == 3 || i == 4 || i == 5 || i == 6 || i == 7 || i == 8 || i == 9 || i == 10 || i == 11 || i == 12 || i == 13 || i == 14 || i == 15 || i == 16 || i == 17 || i == 18 || i == 19 || i == 20 || i == 21 || i == 22 || i == 23 || i == 24 || i == 25 || i == 26 || i == 27 || i == 28 || i == 29 || i == 30 || i == 31
  {
  }

  lemma NorthEvenSpelled()
    ensures Spells(Neighbours(North)[0], NorthEvenPositions)
  {
    var t, p := Neighbours(North)[0], NorthEvenPositions;
    forall i | 0 <= i < |Base|
      ensures 0 <= p[i] < |Base| && t[i] == Base[p[i]]
    {
      Enumerate(i);
    }
  }

  lemma NorthEvenUndone()
    ensures Undoes(SouthEvenPositions, NorthEvenPositions)
  {
    var p, q := SouthEvenPositions, NorthEvenPositions;
    forall i | 0 <= i < |Base|
      ensures 0 <= q[i] < |Base| && p[q[i]] == i
    {
      Enumerate(i);
    }
  }

  lemma NorthEvenWitnessed()
    ensures Witnessed(Neighbours(North)[0], NorthEvenPositions, SouthEvenPositions)
  {
    NorthEvenSpelled();
    NorthEvenUndone();
    SouthEvenUndone();
    WitnessedParts(Neighbours(North)[0], NorthEvenPositions, SouthEvenPositions);
  }

  lemma SouthEvenSpelled()
    ensures Spells(Neighbours(South)[0], SouthEvenPositions)
  {
    var t, p := Neighbours(South)[0], SouthEvenPositions;
    forall i | 0 <= i < |Base|
      ensures 0 <= p[i] < |Base| && t[i] == Base[p[i]]
    {
      Enumerate(i);
    }
  }

  lemma SouthEvenUndone()
    ensures Undoes(NorthEvenPositions, SouthEvenPositions)
  {
    var p, q := NorthEvenPositions, SouthEvenPositions;
    forall i | 0 <= i < |Base|
      ensures 0 <= q[i] < |Base| && p[q[i]] == i
    {
      Enumerate(i);
    }
  }

  lemma SouthEvenWitnessed()
    ensures Witnessed(Neighbours(South)[0], SouthEvenPositions, NorthEvenPositions)
  {
    SouthEvenSpelled();
    SouthEvenUndone();
    NorthEvenUndone();
    WitnessedParts(Neighbours(South)[0], SouthEvenPositions, NorthEvenPositions);
  }

  lemma NorthOddSpelled()
    ensures Spells(Neighbours(North)[1], NorthOddPositions)
  {
    var t, p := Neighbours(North)[1], NorthOddPositions;
    forall i | 0 <= i < |Base|
      ensures 0 <= p[i] < |Base| && t[i] == Base[p[i]]
    {
      Enumerate(i);
    }
  }

  lemma NorthOddUndone()
    ensures Undoes(SouthOddPositions, NorthOddPositions)
  {
    var p, q := SouthOddPositions, NorthOddPositions;
    forall i | 0 <= i < |Base|
      ensures 0 <= q[i] < |Base| && p[q[i]] == i
    {
      Enumerate(i);
    }
  }

  lemma NorthOddWitnessed()
    ensures Witnessed(Neighbours(North)[1], NorthOddPositions, SouthOddPositions)
  {
    NorthOddSpelled();
    NorthOddUndone();
    SouthOddUndone();
    WitnessedParts(Neighbours(North)[1], NorthOddPositions, SouthOddPositions);
  }

  lemma SouthOddSpelled()
    ensures Spells(Neighbours(South)[1], SouthOddPositions)
  {
    var t, p := Neighbours(South)[1], SouthOddPositions;
    forall i | 0 <= i < |Base|
      ensures 0 <= p[i] < |Base| && t[i] == Base[p[i]]
    {
      Enumerate(i);
    }
  }

  lemma SouthOddUndone()
    ensures Undoes(NorthOddPositions, SouthOddPositions)
  {
    var p, q := NorthOddPositions, SouthOddPositions;
    forall i | 0 <= i < |Base|
      ensures 0 <= q[i] < |Base| && p[q[i]] == i
    {
      Enumerate(i);
    }
  }

  lemma SouthOddWitnessed()
    ensures Witnessed(Neighbours(South)[1], SouthOddPositions, NorthOddPositions)
  {
    SouthOddSpelled();
    SouthOddUndone();
    NorthOddUndone();
    WitnessedParts(Neighbours(South)[1], SouthOddPositions, NorthOddPositions);
  }

  // Base positions of the edge-case symbols of the north and south tables, per parity.
  const NorthEvenEdges: set<int> := {21, 23, 29, 31}
  const SouthEvenEdges: set<int> := {0, 2, 8, 10}
  const NorthOddEdges: set<int> := {10, 11, 14, 15, 26, 27, 30, 31}
  const SouthOddEdges: set<int> := {0, 1, 4, 5, 16, 17, 20, 21}

  lemma NorthEvenSpots()
    ensures EdgeSpots(EdgeCases(North)[0], NorthEvenEdges)
  {
    var e, ks := EdgeCases(North)[0], [21, 23, 29, 31];
    assert e == [Base[21], Base[23], Base[29], Base[31]];
    forall c, j | c in e && 0 <= j < |Base| && Base[j] == c
      ensures j in NorthEvenEdges
    {
      var m :| 0 <= m < |e| && e[m] == c;
      assert e[m] == Base[ks[m]];
      BaseInjective(j, ks[m]);
    }
  }

  lemma SouthEvenSpots()
    ensures EdgeSpots(EdgeCases(South)[0], SouthEvenEdges)
  {
    var e, ks := EdgeCases(South)[0], [0, 2, 8, 10];
    assert e == [Base[0], Base[2], Base[8], Base[10]];
    forall c, j | c in e && 0 <= j < |Base| && Base[j] == c
      ensures j in SouthEvenEdges
    {
      var m :| 0 <= m < |e| && e[m] == c;
      assert e[m] == Base[ks[m]];
      BaseInjective(j, ks[m]);
    }
  }

  lemma NorthOddSpots()
    ensures EdgeSpots(EdgeCases(North)[1], NorthOddEdges)
  {
    var e, ks := EdgeCases(North)[1], [10, 11, 14, 15, 26, 27, 30, 31];
    assert e == [Base[10], Base[11], Base[14], Base[15], Base[26], Base[27], Base[30], Base[31]];
    forall c, j | c in e && 0 <= j < |Base| && Base[j] == c
      ensures j in NorthOddEdges
    {
      var m :| 0 <= m < |e| && e[m] == c;
      assert e[m] == Base[ks[m]];
      BaseInjective(j, ks[m]);
    }
  }

  lemma SouthOddSpots()
    ensures EdgeSpots(EdgeCases(South)[1], SouthOddEdges)
  {
    var e, ks := EdgeCases(South)[1], [0, 1, 4, 5, 16, 17, 20, 21];
    assert e == [Base[0], Base[1], Base[4], Base[5], Base[16], Base[17], Base[20], Base[21]];
    forall c, j | c in e && 0 <= j < |Base| && Base[j] == c
      ensures j in SouthOddEdges
    {
      var m :| 0 <= m < |e| && e[m] == c;
      assert e[m] == Base[ks[m]];
      BaseInjective(j, ks[m]);
    }
  }

  lemma NorthEvenMoves()
    ensures NoFixedPoint(NorthEvenPositions)
  {
    forall i | 0 <= i < |Base|
      ensures NorthEvenPositions[i] != i
    {
      Enumerate(i);
    }
  }

  lemma NorthEvenEdgesMatch()
    ensures EdgesMatch(NorthEvenPositions, NorthEvenEdges, SouthEvenEdges)
  {
    forall i | 0 <= i < |Base|
      ensures NorthEvenPositions[i] in NorthEvenEdges <==> i in SouthEvenEdges
    {
      Enumerate(i);
    }
  }

  lemma SouthEvenMoves()
    ensures NoFixedPoint(SouthEvenPositions)
  {
    forall i | 0 <= i < |Base|
      ensures SouthEvenPositions[i] != i
    {
      Enumerate(i);
    }
  }

  lemma SouthEvenEdgesMatch()
    ensures EdgesMatch(SouthEvenPositions, SouthEvenEdges, NorthEvenEdges)
  {
    forall i | 0 <= i < |Base|
      ensures SouthEvenPositions[i] in SouthEvenEdges <==> i in NorthEvenEdges
    {
      Enumerate(i);
    }
  }

  lemma NorthOddMoves()
    ensures NoFixedPoint(NorthOddPositions)
  {
    forall i | 0 <= i < |Base|
      ensures NorthOddPositions[i] != i
    {
      Enumerate(i);
    }
  }

  lemma NorthOddEdgesMatch()
    ensures EdgesMatch(NorthOddPositions, NorthOddEdges, SouthOddEdges)
  {
    forall i | 0 <= i < |Base|
      ensures NorthOddPositions[i] in NorthOddEdges <==> i in SouthOddEdges
    {
      Enumerate(i);
    }
  }

  lemma SouthOddMoves()
    ensures NoFixedPoint(SouthOddPositions)
  {
    forall i | 0 <= i < |Base|
      ensures SouthOddPositions[i] != i
    {
      Enumerate(i);
    }
  }

  lemma SouthOddEdgesMatch()
    ensures EdgesMatch(SouthOddPositions, SouthOddEdges, NorthOddEdges)
  {
    forall i | 0 <= i < |Base|
      ensures SouthOddPositions[i] in SouthOddEdges <==> i in NorthOddEdges
    {
      Enumerate(i);
    }
  }

  lemma NorthEvenPaired()
    ensures Paired(Neighbours(North)[0], Neighbours(South)[0], EdgeCases(North)[0], EdgeCases(South)[0])
  {
    NorthEvenWitnessed();
    SouthEvenWitnessed();
    NorthEvenSpots();
    SouthEvenSpots();
    SouthEvenMoves();
    NorthEvenEdgesMatch();
    PairedTables(Neighbours(North)[0], Neighbours(South)[0], EdgeCases(North)[0], EdgeCases(South)[0],
                 NorthEvenPositions, SouthEvenPositions, NorthEvenEdges, SouthEvenEdges);
  }

  lemma SouthEvenPaired()
    ensures Paired(Neighbours(South)[0], Neighbours(North)[0], EdgeCases(South)[0], EdgeCases(North)[0])
  {
    SouthEvenWitnessed();
    NorthEvenWitnessed();
    SouthEvenSpots();
    NorthEvenSpots();
    NorthEvenMoves();
    SouthEvenEdgesMatch();
    PairedTables(Neighbours(South)[0], Neighbours(North)[0], EdgeCases(South)[0], EdgeCases(North)[0],
                 SouthEvenPositions, NorthEvenPositions, SouthEvenEdges, NorthEvenEdges);
  }

  lemma NorthOddPaired()
    ensures Paired(Neighbours(North)[1], Neighbours(South)[1], EdgeCases(North)[1], EdgeCases(South)[1])
  {
    NorthOddWitnessed();
    SouthOddWitnessed();
    NorthOddSpots();
    SouthOddSpots();
    SouthOddMoves();
    NorthOddEdgesMatch();
    PairedTables(Neighbours(North)[1], Neighbours(South)[1], EdgeCases(North)[1], EdgeCases(South)[1],
                 NorthOddPositions, SouthOddPositions, NorthOddEdges, SouthOddEdges);
  }

  lemma SouthOddPaired()
    ensures Paired(Neighbours(South)[1], Neighbours(North)[1], EdgeCases(South)[1], EdgeCases(North)[1])
  {
    SouthOddWitnessed();
    NorthOddWitnessed();
    SouthOddSpots();
    NorthOddSpots();
    NorthOddMoves();
    SouthOddEdgesMatch();
    PairedTables(Neighbours(South)[1], Neighbours(North)[1], EdgeCases(South)[1], EdgeCases(North)[1],
                 SouthOddPositions, NorthOddPositions, SouthOddEdges, NorthOddEdges);
  }

  /** Base positions of the symbols of the neighbour string of `d` at `parity`. */
  function Positions(d: Direction, parity: nat): seq<int>
    requires parity < 2
  {
    match d
    case North => if parity == 0 then NorthEvenPositions else NorthOddPositions
    case South => if parity == 0 then SouthEvenPositions else SouthOddPositions
    case East => if parity == 0 then NorthOddPositions else NorthEvenPositions
    case West => if parity == 0 then SouthOddPositions else SouthEvenPositions
  }

  /** The neighbour of the alphabet symbol at position `k`, read off the opposite table's positions. */
  lemma ShiftAt(d: Direction, parity: nat, k: int)
    requires parity < 2 && 0 <= k < |Base|
    ensures 0 <= Positions(Opposite(d), parity)[k] < |Base|
    ensures Shift(d, parity, Base[k]) == Some(Base[Positions(Opposite(d), parity)[k]])
  {
    var t, p, q := Neighbours(d)[parity], Positions(d, parity), Positions(Opposite(d), parity);
    assert Witnessed(t, p, q) by {
      match d
      case North => if parity == 0 { NorthEvenWitnessed(); } else { NorthOddWitnessed(); }
      case South => if parity == 0 { SouthEvenWitnessed(); } else { SouthOddWitnessed(); }
      case East => if parity == 0 { NorthOddWitnessed(); } else { NorthEvenWitnessed(); }
      case West => if parity == 0 { SouthOddWitnessed(); } else { SouthEvenWitnessed(); }
    }
    WitnessedIndex(t, p, q, k);
  }

  /** The tables of every direction and parity are paired with those of the opposite direction. */
  lemma TablesConsistent(d: Direction, parity: nat)
    requires parity < 2
    ensures Paired(Neighbours(d)[parity], Neighbours(Opposite(d))[parity], EdgeCases(d)[parity], EdgeCases(Opposite(d))[parity])
  {
    // East and west reuse the north and south strings with the parities crossed.
    match d
    case North => if parity == 0 { NorthEvenPaired(); } else { NorthOddPaired(); }
    case South => if parity == 0 { SouthEvenPaired(); } else { SouthOddPaired(); }
    case East => if parity == 0 { NorthOddPaired(); } else { NorthEvenPaired(); }
    case West => if parity == 0 { SouthOddPaired(); } else { SouthEvenPaired(); }
  }
  /** The table facts for one symbol, in terms of `Shift` and `IsEdge`. */
  lemma ShiftFacts(d: Direction, parity: nat, c: char)
    requires parity < 2
    ensures c !in Base ==> Shift(d, parity, c) == None && !IsEdge(d, parity, c)
    ensures c in Base ==>
      && Shift(d, parity, c).Some?
      && Shift(d, parity, c).value in Base
      && Shift(d, parity, c).value != c
      && Shift(Opposite(d), parity, Shift(d, parity, c).value) == Some(c)
      && (IsEdge(d, parity, c) <==> IsEdge(Opposite(d), parity, Shift(d, parity, c).value))
  {
    TablesConsistent(d, parity);
    assert Opposite(Opposite(d)) == d;
  }

}
