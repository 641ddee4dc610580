/**
 * Navigation between geohash cells: the neighbour of a cell in a compass
 * direction, and the 32 children of a cell.
 */
module Navigation {
  import opened Wrappers
  import opened Alphabet

  /** The errors `adjacent` raises: an empty cell id, a direction that fails the
      substring test, a direction that passes it but is no table key, a symbol
      missing from the neighbour string. */
  datatype NavError =
    | InvalidGeohash
    | InvalidDirection
    | UnknownDirection(key: string)
    | NotInAlphabet(symbol: char)

  /**
   * The neighbour of cell `h` towards `d`: Success(None) past the north or south
   * border of the grid, otherwise a cell of the same length.  A last symbol that
   * is an edge case takes the parent's neighbour as new parent; at the coarsest
   * level east and west wrap around.
   */
  function Adjacent(h: string, d: Direction): (r: Result<Option<string>, NavError>)
    ensures r == Failure(InvalidGeohash) <==> |h| == 0
    ensures r.Success? && r.value.Some? ==> |r.value.value| == |h| && r.value.value[|h| - 1] in Base
    ensures AllBase(h) && |h| > 0 ==> r.Success?
    decreases |h|, 1
  {
    if |h| == 0 then Failure(InvalidGeohash)
    else Extend(Parent(h, d), d, |h| % 2, h[|h| - 1])
  }

  /**
   * The parent the neighbour is built on: the cell's own parent, or for an edge
   * case the parent's neighbour (None past the north or south border, the empty
   * id when east or west wraps at the coarsest level).
   */
  function Parent(h: string, d: Direction): (r: Result<Option<string>, NavError>)
    requires |h| > 0
    ensures r.Success? && r.value.Some? ==> |r.value.value| == |h| - 1
    ensures AllBase(h) ==> r.Success?
    decreases |h|, 0
  {
    var r, c := h[..|h| - 1], h[|h| - 1];
    if !IsEdge(d, |h| % 2, c) then Success(Some(r))
    else if |r| > 0 then Adjacent(r, d)
    else if d.North? || d.South? then Success(None)
    else Success(Some(""))
  }

  /** Appends the neighbour symbol of `c` to the parent, raising when `c` is not in the alphabet. */
  function Extend(parent: Result<Option<string>, NavError>, d: Direction, odd: nat, c: char): (r: Result<Option<string>, NavError>)
    requires odd < 2
    ensures parent.Success? && c in Base ==> r.Success?
    ensures r.Success? && r.value.Some? ==>
      && parent.Success? && parent.value.Some?
      && |r.value.value| == |parent.value.value| + 1
      && r.value.value[|parent.value.value|] in Base
  {
    ShiftFacts(d, odd, c);
    match parent
    case Failure(e) => Failure(e)
    case Success(None) => Success(None)
    case Success(Some(p)) =>
      match Shift(d, odd, c)
      case None => Failure(NotInAlphabet(c))
      case Some(n) => Success(Some(p + [n]))
  }

  function NorthOf(h: string): Result<Option<string>, NavError> { Adjacent(h, North) }
  function SouthOf(h: string): Result<Option<string>, NavError> { Adjacent(h, South) }
  function EastOf(h: string): Result<Option<string>, NavError> { Adjacent(h, East) }
  function WestOf(h: string): Result<Option<string>, NavError> { Adjacent(h, West) }

  /** Python's `key in s` on two strings: `key` occurs contiguously in `s`. */
  predicate IsSubstring(key: string, s: string)
  {
    exists i, j :: 0 <= i <= j <= |s| && s[i..j] == key
  }

  /** The keys of the direction tables. */
  function DirectionKey(key: string): Option<Direction>
  {
    if key == "n" then Some(North)
    else if key == "s" then Some(South)
    else if key == "e" then Some(East)
    else if key == "w" then Some(West)
    else None
  }

  /** The substrings of "nsew" that name no direction: they pass the guard and then miss the tables. */
  const UnknownKeys: set<string> := {"", "ns", "se", "ew", "nse", "sew", "nsew"}

  lemma SubstringsOfNsew(key: string)
    ensures IsSubstring(key, "nsew") <==> DirectionKey(key).Some? || key in UnknownKeys
  {
    var s := "nsew";
    assert s[0..0] == "" && s[0..1] == "n" && s[1..2] == "s" && s[2..3] == "e" && s[3..4] == "w";
    assert s[0..2] == "ns" && s[1..3] == "se" && s[2..4] == "ew";
    assert s[0..3] == "nse" && s[1..4] == "sew" && s[0..4] == "nsew";
    if IsSubstring(key, s) {
      var i, j :| 0 <= i <= j <= |s| && s[i..j] == key;
      assert |key| == 0 ==> key == s[0..0];
      assert i == j || (i, j) in {(0, 1), (1, 2), (2, 3), (3, 4), (0, 2), (1, 3), (2, 4), (0, 3), (1, 4), (0, 4)};
    }
  }

  /**
   * `adjacent` called with a direction string: the cell id is checked first, then the
   * substring guard, then the table lookup.
   */
  function AdjacentNamed(h: string, key: string): (r: Result<Option<string>, NavError>)
    ensures |h| == 0 ==> r == Failure(InvalidGeohash)
    ensures |h| > 0 && key in UnknownKeys ==> r == Failure(UnknownDirection(key))
    ensures |h| > 0 && DirectionKey(key).None? && key !in UnknownKeys ==> r == Failure(InvalidDirection)
    ensures |h| > 0 && DirectionKey(key).Some? ==> r == Adjacent(h, DirectionKey(key).value)
  {
    SubstringsOfNsew(key);
    assert key in UnknownKeys ==> |key| != 1;
    if |h| == 0 then Failure(InvalidGeohash)
    else if !IsSubstring(key, "nsew") then Failure(InvalidDirection)
    else
      match DirectionKey(key)
      case None => Failure(UnknownDirection(key))
      case Some(d) => Adjacent(h, d)
  }

  /** A neighbour of a cell spelled in the alphabet is spelled in the alphabet. */
  lemma {:induction false} AdjacentInBase(h: string, d: Direction)
    requires AllBase(h) && Adjacent(h, d).Success? && Adjacent(h, d).value.Some?
    ensures AllBase(Adjacent(h, d).value.value)
    decreases |h|
  {
    var r, c := h[..|h| - 1], h[|h| - 1];
    assert AllBase(r);
    var h' := Adjacent(h, d).value.value;
    if IsEdge(d, |h| % 2, c) && |r| > 0 {
      AdjacentInBase(r, d);
    }
    LastSplit(h');
  }

  /** A last symbol that is not an edge case moves to a sibling: the parent is kept, the symbol changes. */
  lemma SiblingStep(h: string, d: Direction)
    requires |h| > 0 && h[|h| - 1] in Base && !IsEdge(d, |h| % 2, h[|h| - 1])
    ensures Adjacent(h, d).Success? && Adjacent(h, d).value.Some?
    ensures Adjacent(h, d).value.value[..|h| - 1] == h[..|h| - 1]
    ensures Adjacent(h, d).value.value[|h| - 1] != h[|h| - 1]
  {
    ShiftFacts(d, |h| % 2, h[|h| - 1]);
  }

  /** Longitude is cyclic: east and west always have a neighbour. */
  lemma {:induction false} EastWestTotal(h: string, d: Direction)
    requires d == East || d == West
    requires |h| > 0 && AllBase(h)
    ensures Adjacent(h, d).Success? && Adjacent(h, d).value.Some?
  {
    var r := h[..|h| - 1];
    if |r| > 0 {
      assert AllBase(r);
      EastWestTotal(r, d);
    }
  }

  /** Every symbol of `h` lies on its parent's border towards `d`: `h` is in the outermost row. */
  predicate OnBorder(h: string, d: Direction)
  {
    forall i :: 0 <= i < |h| ==> IsEdge(d, (i + 1) % 2, h[i])
  }

  lemma OnBorderSnoc(r: string, c: char, d: Direction)
    ensures OnBorder(r + [c], d) <==> OnBorder(r, d) && IsEdge(d, (|r| + 1) % 2, c)
  {
    var h := r + [c];
    if OnBorder(h, d) {
      forall i | 0 <= i < |r| ensures IsEdge(d, (i + 1) % 2, r[i]) {
        assert h[i] == r[i];
      }
      assert h[|r|] == c;
    }
    if OnBorder(r, d) && IsEdge(d, (|r| + 1) % 2, c) {
      forall i | 0 <= i < |h| ensures IsEdge(d, (i + 1) % 2, h[i]) {
        if i < |r| { assert h[i] == r[i]; }
      }
    }
  }

  /** North and south have no neighbour exactly in the top and bottom row of the grid. */
  lemma {:induction false} PolarBorder(h: string, d: Direction)
    requires d == North || d == South
    requires |h| > 0 && AllBase(h)
    ensures Adjacent(h, d) == Success(None) <==> OnBorder(h, d)
  {
    if |h| > 1 {
      assert AllBase(h[..|h| - 1]);
      PolarBorder(h[..|h| - 1], d);
    }
    PolarStep(h, d);
  }

  /** One level of `PolarBorder`, given the property for the cell's parent. */
  lemma PolarStep(h: string, d: Direction)
    requires d == North || d == South
    requires |h| > 0 && AllBase(h)
    requires |h| > 1 ==> (Adjacent(h[..|h| - 1], d) == Success(None) <==> OnBorder(h[..|h| - 1], d))
    ensures Adjacent(h, d) == Success(None) <==> OnBorder(h, d)
  {
    var r, c := h[..|h| - 1], h[|h| - 1];
    LastSplit(h);
    AdjacentNone(h, d);
    OnBorderSnoc(r, c, d);
    assert |r| + 1 == |h|;
    if |r| == 0 {
      assert OnBorder(r, d);
    }
  }

  /**
   * Towards north or south, a cell spelled in the alphabet has no neighbour exactly
   * when its last symbol is an edge case and its parent, if any, has none either.
   */
  lemma AdjacentNone(h: string, d: Direction)
    requires d == North || d == South
    requires |h| > 0 && h[|h| - 1] in Base
    ensures Adjacent(h, d) == Success(None) <==>
      IsEdge(d, |h| % 2, h[|h| - 1]) && (|h| == 1 || Adjacent(h[..|h| - 1], d) == Success(None))
  {
    ShiftFacts(d, |h| % 2, h[|h| - 1]);
  }

  /** Stepping to a neighbour and back in the opposite direction returns the cell. */
  lemma {:induction false} RoundTrip(h: string, h': string, d: Direction)
    requires Adjacent(h, d) == Success(Some(h'))
    ensures Adjacent(h', Opposite(d)) == Success(Some(h))
    decreases |h|, 1
  {
    RoundTripParent(h, h', d);
    ReturnStep(h, h', d);
  }

  /** On the way back, the neighbour's parent in the opposite direction is the cell's own parent. */
  lemma {:induction false} RoundTripParent(h: string, h': string, d: Direction)
    requires Adjacent(h, d) == Success(Some(h'))
    ensures |h| > 0 && Parent(h', Opposite(d)) == Success(Some(h[..|h| - 1]))
    decreases |h|, 0
  {
    var n, e := |h|, Opposite(d);
    var r, c := h[..n - 1], h[n - 1];
    AdjacentParts(h, d, h');
    var r', c' := h'[..n - 1], h'[n - 1];
    assert IsEdge(d, n % 2, c) <==> IsEdge(e, n % 2, c') by {
      ShiftFacts(d, n % 2, c);
    }
    if IsEdge(d, n % 2, c) && |r| > 0 {
      RoundTrip(r, r', d);
    }
  }

  /** The last step of the round trip: once the parent comes back, so does the last symbol. */
  lemma ReturnStep(h: string, h': string, d: Direction)
    requires |h| > 0 && Adjacent(h, d) == Success(Some(h'))
    requires Parent(h', Opposite(d)) == Success(Some(h[..|h| - 1]))
    ensures Adjacent(h', Opposite(d)) == Success(Some(h))
  {
    var n, e := |h|, Opposite(d);
    var c, c' := h[n - 1], h'[n - 1];
    AdjacentParts(h, d, h');
    assert Shift(e, n % 2, c') == Some(c) by {
      ShiftFacts(d, n % 2, c);
    }
    AdjacentFromParts(h', e, h[..n - 1], c);
    LastSplit(h);
  }

  /** A neighbour is its parent's cell followed by the shifted last symbol. */
  lemma AdjacentParts(h: string, d: Direction, h': string)
    requires |h| > 0 && Adjacent(h, d) == Success(Some(h'))
    ensures |h'| == |h|
    ensures Parent(h, d) == Success(Some(h'[..|h| - 1]))
    ensures Shift(d, |h| % 2, h[|h| - 1]) == Some(h'[|h| - 1])
  {
    match Parent(h, d)
    case Success(Some(p)) =>
      assert h' == p + [Shift(d, |h| % 2, h[|h| - 1]).value];
  }

  /** Conversely, a parent cell and a shifted last symbol make the neighbour. */
  lemma AdjacentFromParts(h: string, d: Direction, p: string, c': char)
    requires |h| > 0 && Parent(h, d) == Success(Some(p)) && Shift(d, |h| % 2, h[|h| - 1]) == Some(c')
    ensures Adjacent(h, d) == Success(Some(p + [c']))
  {
  }

  /** A non-empty sequence is its prefix followed by its last element. */
  lemma LastSplit<T>(s: seq<T>)
    requires |s| > 0
    ensures s[..|s| - 1] + [s[|s| - 1]] == s
  {
  }

  /** A last symbol that is not an edge case: the parent stays and the symbol is replaced. */
  lemma StepWithin(h: string, d: Direction, c': char)
    requires |h| > 0 && !IsEdge(d, |h| % 2, h[|h| - 1]) && Shift(d, |h| % 2, h[|h| - 1]) == Some(c')
    ensures Adjacent(h, d) == Success(Some(h[..|h| - 1] + [c']))
  {
  }

  /** An edge case below the top level: the parent's neighbour, if any, takes the new symbol. */
  lemma StepAcross(h: string, d: Direction, c': char, p: Option<string>)
    requires |h| > 1 && IsEdge(d, |h| % 2, h[|h| - 1]) && Shift(d, |h| % 2, h[|h| - 1]) == Some(c')
    requires Adjacent(h[..|h| - 1], d) == Success(p)
    ensures Adjacent(h, d) == Success(if p.Some? then Some(p.value + [c']) else None)
  {
  }

  /** An edge case at the top level: nothing past the poles, a wrap-around east and west. */
  lemma StepFromTop(c: char, d: Direction, c': char)
    requires IsEdge(d, 1, c) && Shift(d, 1, c) == Some(c')
    ensures Adjacent([c], d) == Success(if d == North || d == South then None else Some([c']))
  {
    var h := [c];
    assert h[..0] == "" && h[0] == c && |h| % 2 == 1;
    if d == North || d == South {
      assert Parent(h, d) == Success(None);
    } else {
      assert Parent(h, d) == Success(Some(""));
      assert "" + [c'] == [c'];
    }
  }

  /** The 32 children of a cell, in alphabet order. */
  function SubHashcodes(h: string): (r: seq<string>)
    ensures |r| == |Base|
  {
    seq(|Base|, i requires 0 <= i < |Base| => h + [Base[i]])
  }

  /** Every child extends its parent by one symbol. */
  lemma SubHashcodesLength(h: string)
    ensures forall k :: k in SubHashcodes(h) ==> |k| == |h| + 1 && k[..|h|] == h
  {
    forall k | k in SubHashcodes(h) ensures |k| == |h| + 1 && k[..|h|] == h {
      var i :| 0 <= i < |Base| && SubHashcodes(h)[i] == k;
    }
  }

  /**
   * The children of `h` are distinct, and a string is among them exactly when it
   * extends `h` by one alphabet symbol.
   */
  lemma SubHashcodesExact(h: string)
    ensures forall i, j :: 0 <= i < j < |SubHashcodes(h)| ==> SubHashcodes(h)[i] != SubHashcodes(h)[j]
    ensures forall k :: k in SubHashcodes(h) <==> |k| == |h| + 1 && k[..|h|] == h && k[|h|] in Base
  {
    var r := SubHashcodes(h);
    BaseDistinct();
    forall i, j | 0 <= i < j < |r| ensures r[i] != r[j] {
      assert r[i][|h|] == Base[i] && r[j][|h|] == Base[j];
    }
    forall k ensures k in r <==> |k| == |h| + 1 && k[..|h|] == h && k[|h|] in Base {
      if |k| == |h| + 1 && k[..|h|] == h && k[|h|] in Base {
        var i :| 0 <= i < |Base| && Base[i] == k[|h|];
        assert k == r[i];
      }
    }
  }

  /** A cell of the top row has no northern neighbour, one of the bottom row no southern one. */
  lemma PolarExamples()
    ensures Adjacent("gz", North) == Success(None)
    ensures Adjacent("58", South) == Success(None)
  {
    assert 'g' in Base && 'z' in Base && IsEdge(North, 1, 'g') && IsEdge(North, 0, 'z');
    TwoInBase('g', 'z');
    TwoOnBorder('g', 'z', North);
    PolarBorder("gz", North);
    assert '5' in Base && '8' in Base && IsEdge(South, 1, '5') && IsEdge(South, 0, '8');
    TwoInBase('5', '8');
    TwoOnBorder('5', '8', South);
    PolarBorder("58", South);
  }

  /** A two-symbol cell lies on the border when its first symbol is an odd-level edge and its second an even-level one. */
  lemma TwoOnBorder(c1: char, c2: char, d: Direction)
    ensures OnBorder([c1, c2], d) <==> IsEdge(d, 1, c1) && IsEdge(d, 0, c2)
  {
    assert [c1, c2] == [c1] + [c2] && [c1] == [] + [c1];
    OnBorderSnoc([], c1, d);
    OnBorderSnoc([c1], c2, d);
  }

  /** A two-symbol cell is spelled in the alphabet when each of its symbols is. */
  lemma TwoInBase(c1: char, c2: char)
    requires c1 in Base && c2 in Base
    ensures AllBase([c1, c2])
  {
    var h := [c1, c2];
    forall i | 0 <= i < |h|
      ensures h[i] in Base
    {
      if i == 0 { assert h[i] == c1; } else { assert h[i] == c2; }
    }
  }

}
