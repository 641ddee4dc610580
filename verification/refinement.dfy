/**
 * The refinement loop of `hashcodes`, over any classification of cells: one
 * level keeps the inside cells and splits the boundary cells into their 32
 * children; the last level keeps or drops the boundary cells instead.
 */
module Refinement {
  import opened Alphabet
  import opened Navigation

  /** Precision beyond which the refinement never goes. */
  const DefaultPrecision: nat := 9

  /** Precision the refinement starts from when the caller gives none. */
  const DefaultMinPrecision: nat := 2

  datatype Verdict = Inside | Outside | Boundary

  /** The cells kept at one level, and the children left to examine at the next. */
  datatype Filtered = Filtered(accepted: seq<string>, partial: seq<string>)

  /** A cell is kept at this level: it is inside, or on the boundary when covering at the last level. */
  predicate Keeps(v: Verdict, split: bool, cover: bool)
  {
    v == Inside || (v == Boundary && !split && cover)
  }

  /** What happens to a boundary cell: split into its children, kept when covering, dropped otherwise. */
  function Divide(h: string, split: bool, cover: bool): (r: Filtered)
  {
    if split then Filtered([], SubHashcodes(h))
    else if cover then Filtered([h], [])
    else Filtered([], [])
  }

  /** What happens to a cell of the given verdict. */
  function Act(v: Verdict, h: string, split: bool, cover: bool): (r: Filtered)
    ensures r.accepted == (if Keeps(v, split, cover) then [h] else [])
    ensures r.partial == (if v == Boundary && split then SubHashcodes(h) else [])
  {
    match v
    case Inside => Filtered([h], [])
    case Outside => Filtered([], [])
    case Boundary => Divide(h, split, cover)
  }

  /** `a` is `b` with some elements dropped, the order kept. */
  predicate Subseq<T(==)>(a: seq<T>, b: seq<T>)
    decreases |b|
  {
    |a| == 0 || (|b| > 0 && ((a[0] == b[0] && Subseq(a[1..], b[1..])) || Subseq(a, b[1..])))
  }

  lemma {:induction false} SubseqPrepend<T>(a: seq<T>, b: seq<T>, c: seq<T>)
    requires Subseq(a, b)
    ensures Subseq(a, c + b)
    decreases |c|
  {
    if |c| > 0 {
      SubseqPrepend(a, b, c[1..]);
      assert (c + b)[1..] == c[1..] + b;
      assert Subseq(a, (c + b)[1..]);
    } else {
      assert c + b == b;
    }
  }

  /** Subsequences concatenate. */
  lemma {:induction false} SubseqConcat<T>(a1: seq<T>, b1: seq<T>, a2: seq<T>, b2: seq<T>)
    requires Subseq(a1, b1) && Subseq(a2, b2)
    ensures Subseq(a1 + a2, b1 + b2)
    decreases |b1|
  {
    if |a1| == 0 {
      assert a1 + a2 == a2;
      SubseqPrepend(a2, b2, b1);
    } else {
      assert (b1 + b2)[1..] == b1[1..] + b2;
      if a1[0] == b1[0] && Subseq(a1[1..], b1[1..]) {
        SubseqConcat(a1[1..], b1[1..], a2, b2);
        assert (a1 + a2)[1..] == a1[1..] + a2;
      } else {
        SubseqConcat(a1, b1[1..], a2, b2);
      }
    }
  }

  lemma {:induction false} SubseqRefl<T>(a: seq<T>)
    ensures Subseq(a, a)
    decreases |a|
  {
    if |a| > 0 {
      SubseqRefl(a[1..]);
    }
  }

  /** The number of cells of `hs` on the boundary. */
  function BoundaryCount(classify: string -> Verdict, hs: seq<string>): (n: nat)
    ensures n <= |hs|
  {
    if |hs| == 0 then 0
    else (if classify(hs[0]) == Boundary then 1 else 0) + BoundaryCount(classify, hs[1..])
  }

  /**
   * One level of refinement over a list of cells (`_filter` or `_quick_filter`):
   * the accepted cells and, when splitting, the children of the boundary cells.
   */
  function Filter(classify: string -> Verdict, hs: seq<string>, split: bool, cover: bool): (r: Filtered)
    ensures !split ==> r.partial == []
    decreases |hs|
  {
    if |hs| == 0 then Filtered([], [])
    else
      var s := Act(classify(hs[0]), hs[0], split, cover);
      var rest := Filter(classify, hs[1..], split, cover);
      Filtered(s.accepted + rest.accepted, s.partial + rest.partial)
  }

  /** The accepted cells are kept in input order. */
  lemma {:induction false} FilterOrdered(classify: string -> Verdict, hs: seq<string>, split: bool, cover: bool)
    ensures Subseq(Filter(classify, hs, split, cover).accepted, hs)
    decreases |hs|
  {
    if |hs| > 0 {
      var acc := Filter(classify, hs, split, cover).accepted;
      var rest := Filter(classify, hs[1..], split, cover).accepted;
      FilterOrdered(classify, hs[1..], split, cover);
      if Keeps(classify(hs[0]), split, cover) {
        assert acc[0] == hs[0] && acc[1..] == rest;
      } else {
        assert acc == rest;
      }
    }
  }

  /** When splitting, the partial list holds 32 children per boundary cell. */
  lemma {:induction false} FilterPartialCount(classify: string -> Verdict, hs: seq<string>, cover: bool)
    ensures |Filter(classify, hs, true, cover).partial| == |Base| * BoundaryCount(classify, hs)
    decreases |hs|
  {
    if |hs| > 0 {
      FilterPartialCount(classify, hs[1..], cover);
    }
  }

  /** A cell is accepted exactly when it is an input cell its verdict keeps. */
  lemma {:induction false} FilterAccepted(classify: string -> Verdict, hs: seq<string>, split: bool, cover: bool)
    ensures forall h :: h in Filter(classify, hs, split, cover).accepted <==> h in hs && Keeps(classify(h), split, cover)
    decreases |hs|
  {
    if |hs| > 0 {
      FilterAccepted(classify, hs[1..], split, cover);
      assert forall h :: h in hs <==> h == hs[0] || h in hs[1..];
    }
  }

  /** The partial list holds exactly the children of the boundary input cells, when splitting. */
  lemma {:induction false} FilterPartial(classify: string -> Verdict, hs: seq<string>, split: bool, cover: bool)
    ensures forall k :: k in Filter(classify, hs, split, cover).partial <==>
      split && exists h :: h in hs && classify(h) == Boundary && k in SubHashcodes(h)
    decreases |hs|
  {
    if |hs| > 0 {
      FilterPartial(classify, hs[1..], split, cover);
      assert forall h :: h in hs <==> h == hs[0] || h in hs[1..];
    }
  }

  /** When splitting, covering makes no difference. */
  lemma {:induction false} FilterSplitIgnoresCover(classify: string -> Verdict, hs: seq<string>)
    ensures Filter(classify, hs, true, false) == Filter(classify, hs, true, true)
    decreases |hs|
  {
    if |hs| > 0 {
      FilterSplitIgnoresCover(classify, hs[1..]);
    }
  }

  /** Without covering, splitting changes only the partial list. */
  lemma {:induction false} FilterFillIgnoresSplit(classify: string -> Verdict, hs: seq<string>)
    ensures Filter(classify, hs, true, false).accepted == Filter(classify, hs, false, false).accepted
    decreases |hs|
  {
    if |hs| > 0 {
      FilterFillIgnoresSplit(classify, hs[1..]);
    }
  }

  /** Covering keeps every cell filling keeps, in the same order. */
  lemma {:induction false} FilterFillWithinCover(classify: string -> Verdict, hs: seq<string>, split: bool)
    ensures Subseq(Filter(classify, hs, split, false).accepted, Filter(classify, hs, split, true).accepted)
    decreases |hs|
  {
    if |hs| > 0 {
      var v := classify(hs[0]);
      var a1 := Act(v, hs[0], split, false).accepted;
      var a2 := Act(v, hs[0], split, true).accepted;
      FilterFillWithinCover(classify, hs[1..], split);
      if a1 == a2 {
        SubseqRefl(a1);
      }
      SubseqConcat(a1, a2, Filter(classify, hs[1..], split, false).accepted, Filter(classify, hs[1..], split, true).accepted);
    }
  }

  /**
   * The refine loop from precision `level` to `top`: every level but the last
   * splits its boundary cells; the accepted cells of all levels are
   * concatenated.  Filling keeps only inside cells, covering never an outside one.
   */
  function Refine(classify: string -> Verdict, cands: seq<string>, level: nat, top: nat, cover: bool): (r: seq<string>)
    ensures forall h :: h in r ==> if cover then classify(h) != Outside else classify(h) == Inside
    decreases top + 1 - level
  {
    if level > top then []
    else
      var f := Filter(classify, cands, level < top, cover);
      FilterAccepted(classify, cands, level < top, cover);
      f.accepted + Refine(classify, f.partial, level + 1, top, cover)
  }

  /** From input cells of length `level`, the accepted cells have that length and their children one more. */
  lemma FilterLengths(classify: string -> Verdict, cands: seq<string>, level: nat, split: bool, cover: bool)
    requires forall h :: h in cands ==> |h| == level
    ensures forall h :: h in Filter(classify, cands, split, cover).accepted ==> |h| == level
    ensures forall k :: k in Filter(classify, cands, split, cover).partial ==> |k| == level + 1
  {
    FilterAccepted(classify, cands, split, cover);
    FilterPartial(classify, cands, split, cover);
    forall k | k in Filter(classify, cands, split, cover).partial
      ensures |k| == level + 1
    {
      var h :| h in cands && k in SubHashcodes(h);
      SubHashcodesLength(h);
    }
  }

  /** Starting from cells of length `level`, every cell returned has a length between `level` and `top`. */
  lemma {:induction false} RefineLengths(classify: string -> Verdict, cands: seq<string>, level: nat, top: nat, cover: bool)
    requires forall h :: h in cands ==> |h| == level
    ensures forall h :: h in Refine(classify, cands, level, top, cover) ==> level <= |h| <= top
    decreases top + 1 - level, 1
  {
    if level <= top {
      RefineLengthsDeeper(classify, cands, level, top, cover);
      RefineLengthsStep(classify, cands, level, top, cover);
    }
  }

  /** The children left after one level satisfy `RefineLengths` one level down. */
  lemma {:induction false} RefineLengthsDeeper(classify: string -> Verdict, cands: seq<string>, level: nat, top: nat, cover: bool)
    requires level <= top
    requires forall h :: h in cands ==> |h| == level
    ensures forall h :: h in Refine(classify, Filter(classify, cands, level < top, cover).partial, level + 1, top, cover) ==> level + 1 <= |h| <= top
    decreases top + 1 - level, 0
  {
    FilterLengths(classify, cands, level, level < top, cover);
    RefineLengths(classify, Filter(classify, cands, level < top, cover).partial, level + 1, top, cover);
  }

  /** The inductive step of `RefineLengths`: one level's cells, then the deeper ones. */
  lemma RefineLengthsStep(classify: string -> Verdict, cands: seq<string>, level: nat, top: nat, cover: bool)
    requires level <= top
    requires forall h :: h in cands ==> |h| == level
    requires forall h :: h in Refine(classify, Filter(classify, cands, level < top, cover).partial, level + 1, top, cover) ==> level + 1 <= |h| <= top
    ensures forall h :: h in Refine(classify, cands, level, top, cover) ==> level <= |h| <= top
  {
    FilterLengths(classify, cands, level, level < top, cover);
    RefineStep(classify, cands, level, top, cover);
  }

  /** The fill result is a subsequence of the cover result over the same levels. */
  lemma {:induction false} RefineFillWithinCover(classify: string -> Verdict, cands: seq<string>, level: nat, top: nat)
    ensures Subseq(Refine(classify, cands, level, top, false), Refine(classify, cands, level, top, true))
    decreases top + 1 - level, 1
  {
    if level <= top {
      RefineFillWithinCoverDeeper(classify, cands, level, top);
      RefineFillWithinCoverStep(classify, cands, level, top);
    }
  }

  /** Filling and covering leave the same children, and from them the fill stays within the cover. */
  lemma {:induction false} RefineFillWithinCoverDeeper(classify: string -> Verdict, cands: seq<string>, level: nat, top: nat)
    requires level <= top
    ensures Filter(classify, cands, level < top, false).partial == Filter(classify, cands, level < top, true).partial
    ensures var p := Filter(classify, cands, level < top, false).partial;
      Subseq(Refine(classify, p, level + 1, top, false), Refine(classify, p, level + 1, top, true))
    decreases top + 1 - level, 0
  {
    if level < top {
      FilterSplitIgnoresCover(classify, cands);
    }
    RefineFillWithinCover(classify, Filter(classify, cands, level < top, false).partial, level + 1, top);
  }

  /** The inductive step of `RefineFillWithinCover`: one level's cells, then the deeper ones. */
  lemma RefineFillWithinCoverStep(classify: string -> Verdict, cands: seq<string>, level: nat, top: nat)
    requires level <= top
    requires Filter(classify, cands, level < top, false).partial == Filter(classify, cands, level < top, true).partial
    requires var p := Filter(classify, cands, level < top, false).partial;
      Subseq(Refine(classify, p, level + 1, top, false), Refine(classify, p, level + 1, top, true))
    ensures Subseq(Refine(classify, cands, level, top, false), Refine(classify, cands, level, top, true))
  {
    var f0, f1 := Filter(classify, cands, level < top, false), Filter(classify, cands, level < top, true);
    FilterFillWithinCover(classify, cands, level < top);
    RefineStep(classify, cands, level, top, false);
    RefineStep(classify, cands, level, top, true);
    SubseqConcat(f0.accepted, f1.accepted,
                 Refine(classify, f0.partial, level + 1, top, false), Refine(classify, f1.partial, level + 1, top, true));
  }

  /** Filling to a finer precision only appends cells: the coarser result is a prefix. */
  lemma {:induction false} RefineFillDeeper(classify: string -> Verdict, cands: seq<string>, level: nat, top: nat, top': nat)
    requires top <= top'
    ensures var r, r' := Refine(classify, cands, level, top, false), Refine(classify, cands, level, top', false);
      |r| <= |r'| && r == r'[..|r|]
    decreases top + 1 - level
  {
    if level < top {
      var f := Filter(classify, cands, true, false);
      RefineFillDeeper(classify, f.partial, level + 1, top, top');
      RefineStep(classify, cands, level, top, false);
      RefineStep(classify, cands, level, top', false);
      PrefixPrepend(f.accepted, Refine(classify, f.partial, level + 1, top, false), Refine(classify, f.partial, level + 1, top', false));
    } else if level == top && top < top' {
      RefineLastLevel(classify, cands, level, top');
    }
  }

  /** Below the top precision, one level splits its boundary cells and the refinement goes on with their children. */
  lemma RefineStep(classify: string -> Verdict, cands: seq<string>, level: nat, top: nat, cover: bool)
    requires level <= top
    ensures var f := Filter(classify, cands, level < top, cover);
      Refine(classify, cands, level, top, cover) == f.accepted + Refine(classify, f.partial, level + 1, top, cover)
  {
  }

  /** The cells a fill accepts at its last level open any deeper fill from the same level. */
  lemma RefineLastLevel(classify: string -> Verdict, cands: seq<string>, level: nat, top': nat)
    requires level < top'
    ensures var r, r' := Refine(classify, cands, level, level, false), Refine(classify, cands, level, top', false);
      |r| <= |r'| && r == r'[..|r|]
  {
    var f0, f1 := Filter(classify, cands, false, false), Filter(classify, cands, true, false);
    FilterFillIgnoresSplit(classify, cands);
    RefineStep(classify, cands, level, level, false);
    RefineStep(classify, cands, level, top', false);
    assert Refine(classify, f0.partial, level + 1, level, false) == [];
    PrefixPrepend(f0.accepted, [], Refine(classify, f1.partial, level + 1, top', false));
  }

  lemma PrefixPrepend<T>(x: seq<T>, a: seq<T>, b: seq<T>)
    requires |a| <= |b| && a == b[..|a|]
    ensures |x + a| <= |x + b| && x + a == (x + b)[..|x + a|]
  {
  }

  function MinNat(x: nat, y: nat): nat { if x <= y then x else y }

  /**
   * `hashcodes` from the candidate cells of the initial scan at `minPrecision`:
   * the top precision is capped at the default, so every cell returned has a
   * precision between `minPrecision` and the capped maximum.
   */
  function Hashcodes(classify: string -> Verdict, cands: seq<string>, minPrecision: nat, maxPrecision: nat, cover: bool): (r: seq<string>)
    ensures (forall h :: h in cands ==> |h| == minPrecision) ==>
      forall h :: h in r ==> minPrecision <= |h| <= maxPrecision && |h| <= DefaultPrecision
    ensures minPrecision > DefaultPrecision || minPrecision > maxPrecision ==> r == []
    ensures forall h :: h in r ==> if cover then classify(h) != Outside else classify(h) == Inside
  {
    var top := MinNat(maxPrecision, DefaultPrecision);
    assert (forall h :: h in cands ==> |h| == minPrecision) ==>
      forall h :: h in Refine(classify, cands, minPrecision, top, cover) ==> minPrecision <= |h| <= top by {
      if forall h :: h in cands ==> |h| == minPrecision {
        RefineLengths(classify, cands, minPrecision, top, cover);
      }
    }
    Refine(classify, cands, minPrecision, top, cover)
  }

  /** The maximum is capped: any maximum of the default precision or more gives the same cells as the default. */
  lemma HashcodesCapped(classify: string -> Verdict, cands: seq<string>, minPrecision: nat, maxPrecision: nat)
    requires maxPrecision >= DefaultPrecision
    ensures forall cover :: Hashcodes(classify, cands, minPrecision, maxPrecision, cover) == Hashcodes(classify, cands, minPrecision, DefaultPrecision, cover)
  {
  }
}
