/** Generic one-dimensional bracket searches and the coordinate-wise sweep
    built on them. */
module BaseOpt {

  // ---------------------------------------------------------------------
  // dichotomy_int

  /** The integer bracket search: while the bracket is wider than 2, compare
      the two middle points and keep the half on the side of the smaller. */
  function DichotomyIntOf(lo: int, hi: int, f: int -> real): (r: int)
    ensures lo <= hi ==> lo <= r <= hi
    decreases hi - lo
  {
    if hi - lo <= 2 then (lo + hi) / 2
    else
      var x1 := (lo + hi - 1) / 2;
      var x2 := (lo + hi + 1) / 2;
      if f(x1) < f(x2) then DichotomyIntOf(lo, x2, f) else DichotomyIntOf(x1, hi, f)
  }

  /** `dichotomy_int`. Python's `>> 1` floors, as does `/ 2` here. */
  method DichotomyInt(lo0: int, hi0: int, f: int -> real) returns (r: int)
    ensures r == DichotomyIntOf(lo0, hi0, f)
    ensures lo0 <= hi0 ==> lo0 <= r <= hi0
  {
    var lo, hi := lo0, hi0;
    while hi - lo > 2
      invariant DichotomyIntOf(lo, hi, f) == DichotomyIntOf(lo0, hi0, f)
      decreases hi - lo
    {
      var x1 := (lo + hi - 1) / 2;
      var x2 := (lo + hi + 1) / 2;
      // The source returns x1 early when x1 == x2; the two middle points are
      // always adjacent, so that branch never runs.
      assert x2 == x1 + 1;
      if f(x1) < f(x2) {
        hi := x2;
      } else {
        lo := x1;
      }
    }
    r := (hi + lo) / 2;
  }

  /** The two middle points are adjacent and strictly inside a bracket wider
      than 2, and either new bracket is about half as wide, so the search
      takes logarithmically many rounds. */
  lemma MiddlePointsAdjacent(lo: int, hi: int)
    requires hi - lo > 2
    ensures (lo + hi + 1) / 2 == (lo + hi - 1) / 2 + 1
    ensures lo < (lo + hi - 1) / 2 && (lo + hi + 1) / 2 < hi
    ensures (lo + hi + 1) / 2 - lo <= (hi - lo + 2) / 2
    ensures hi - (lo + hi - 1) / 2 <= (hi - lo + 2) / 2
  {
  }

  /** A bracket of width at most 2 is answered without consulting `func`. */
  lemma ShortBracketIgnoresFunction(lo: int, hi: int, f: int -> real, g: int -> real)
    requires hi - lo <= 2
    ensures DichotomyIntOf(lo, hi, f) == DichotomyIntOf(lo, hi, g) == (lo + hi) / 2
  {
  }

  /** f falls strictly up to p and rises strictly from p on, within [lo, hi]. */
  ghost predicate UnimodalInt(f: int -> real, lo: int, hi: int, p: int) {
    && lo <= p <= hi
    && (forall x :: lo <= x < p ==> f(x) > f(x + 1))
    && (forall x :: p <= x < hi ==> f(x) < f(x + 1))
  }

  /** On a unimodal function the search ends next to the minimum. */
  lemma {:induction false} DichotomyIntNearMinimum(lo: int, hi: int, f: int -> real, p: int)
    requires UnimodalInt(f, lo, hi, p)
    ensures p - 1 <= DichotomyIntOf(lo, hi, f) <= p + 1
    decreases hi - lo
  {
    if hi - lo > 2 {
      var x1 := (lo + hi - 1) / 2;
      var x2 := (lo + hi + 1) / 2;
      assert x2 == x1 + 1;
      if f(x1) < f(x2) {
        assert p <= x1;
        DichotomyIntNearMinimum(lo, x2, f, p);
      } else {
        assert x1 < p;
        DichotomyIntNearMinimum(x1, hi, f, p);
      }
    }
  }

  /** Next to, not at: with f(x) = x on [0, 2] the minimum is 0 but the
      search answers the midpoint 1. */
  lemma DichotomyIntMayMissMinimum()
    ensures UnimodalInt(x => x as real, 0, 2, 0)
    ensures DichotomyIntOf(0, 2, x => x as real) == 1
  {
  }

  // ---------------------------------------------------------------------
  // dichotomy_float

  /** The two probe points of a round, `delta = eps / 5` either side of
      twice the midpoint, halved. */
  function Probe1(lo: real, hi: real, eps: real): real {
    (lo + hi - eps / 5.0) / 2.0
  }

  function Probe2(lo: real, hi: real, eps: real): real {
    (lo + hi + eps / 5.0) / 2.0
  }

  /** The whole number of `eps/5` widths in the bracket while it is wider
      than eps; it bounds the rounds left. */
  function Rounds(lo: real, hi: real, eps: real): nat
    requires eps > 0.0
  {
    if hi - lo > eps then
      RatioAboveFive(hi - lo, eps / 5.0);
      ((hi - lo) / (eps / 5.0)).Floor
    else 0
  }

  lemma PositiveFactor(x: real, d: real)
    requires d > 0.0 && x * d > 0.0
    ensures x > 0.0
  {
  }

  lemma RatioAboveFive(w: real, d: real)
    requires d > 0.0 && w > 5.0 * d
    ensures w / d > 5.0
  {
    assert (w / d - 5.0) * d == w - 5.0 * d;
    PositiveFactor(w / d - 5.0, d);
  }

  lemma DivideHalf(w: real, d: real)
    requires d > 0.0
    ensures (w + d) / 2.0 / d == (w / d + 1.0) / 2.0
  {
    assert (w + d) / 2.0 / d == (w + d) / d / 2.0;
    assert (w + d) / d == w / d + d / d;
  }

  /** A round replaces width w by (w + d) / 2, which holds fewer whole d's
      while w > 5d. */
  lemma ShrinkStep(w: real, d: real)
    requires d > 0.0 && w > 5.0 * d
    ensures ((w + d) / 2.0 / d).Floor < (w / d).Floor
  {
    RatioAboveFive(w, d);
    DivideHalf(w, d);
    var u := w / d;
    assert (u + 1.0) / 2.0 <= u - 1.0;
  }

  /** One round of the real-valued search: both probes lie inside the
      bracket, each candidate bracket is (w + eps/5) / 2 wide, and the
      measure drops. */
  lemma RoundShrinks(lo: real, hi: real, eps: real)
    requires eps > 0.0 && hi - lo > eps
    ensures lo < Probe1(lo, hi, eps) < Probe2(lo, hi, eps) < hi
    ensures Probe2(lo, hi, eps) - lo == hi - Probe1(lo, hi, eps) == (hi - lo + eps / 5.0) / 2.0
    ensures Rounds(lo, Probe2(lo, hi, eps), eps) < Rounds(lo, hi, eps)
    ensures Rounds(Probe1(lo, hi, eps), hi, eps) < Rounds(lo, hi, eps)
  {
    var x1, x2 := Probe1(lo, hi, eps), Probe2(lo, hi, eps);
    ShrinkStep(hi - lo, eps / 5.0);
    assert x2 - lo == hi - x1 == (hi - lo + eps / 5.0) / 2.0;
  }

  /** The bracket the real-valued search stops at. */
  function FinalBracket(lo: real, hi: real, f: real -> real, eps: real): (b: (real, real))
    requires eps > 0.0
    ensures b.1 - b.0 <= eps
    ensures lo <= hi ==> lo <= b.0 <= b.1 <= hi
    ensures hi - lo <= eps ==> b == (lo, hi)
    decreases Rounds(lo, hi, eps)
  {
    if hi - lo <= eps then (lo, hi)
    else
      var x1, x2 := Probe1(lo, hi, eps), Probe2(lo, hi, eps);
      RoundShrinks(lo, hi, eps);
      if f(x1) < f(x2) then FinalBracket(lo, x2, f, eps) else FinalBracket(x1, hi, f, eps)
  }

  /** `dichotomy_float`: the lower end of the final bracket. */
  method DichotomyFloat(lo0: real, hi0: real, f: real -> real, eps: real := 0.000001) returns (r: real)
    requires eps > 0.0
    ensures r == FinalBracket(lo0, hi0, f, eps).0
    ensures lo0 <= hi0 ==> lo0 <= r <= hi0
  {
    var delta := eps / 5.0;
    var lo, hi := lo0, hi0;
    while hi - lo > eps
      invariant FinalBracket(lo, hi, f, eps) == FinalBracket(lo0, hi0, f, eps)
      decreases Rounds(lo, hi, eps)
    {
      var x1 := (lo + hi - delta) / 2.0;
      var x2 := (lo + hi + delta) / 2.0;
      assert x1 == Probe1(lo, hi, eps) && x2 == Probe2(lo, hi, eps);
      RoundShrinks(lo, hi, eps);
      if f(x1) < f(x2) {
        hi := x2;
      } else {
        lo := x1;
      }
    }
    r := lo;
  }

  /** f falls strictly up to p and rises strictly from p on, within [lo, hi]. */
  ghost predicate UnimodalReal(f: real -> real, lo: real, hi: real, p: real) {
    && lo <= p <= hi
    && (forall x, y :: lo <= x < y <= p ==> f(x) > f(y))
    && (forall x, y :: p <= x < y <= hi ==> f(x) < f(y))
  }

  /** On a unimodal function the final bracket holds the minimum, so the
      answer is at most eps below it. */
  lemma {:induction false} FinalBracketHoldsMinimum(lo: real, hi: real, f: real -> real, eps: real, p: real)
    requires eps > 0.0 && UnimodalReal(f, lo, hi, p)
    ensures FinalBracket(lo, hi, f, eps).0 <= p <= FinalBracket(lo, hi, f, eps).1
    ensures FinalBracket(lo, hi, f, eps).0 <= p <= FinalBracket(lo, hi, f, eps).0 + eps
    decreases Rounds(lo, hi, eps)
  {
    if hi - lo > eps {
      var x1, x2 := Probe1(lo, hi, eps), Probe2(lo, hi, eps);
      RoundShrinks(lo, hi, eps);
      if f(x1) < f(x2) {
        assert p < x2;
        FinalBracketHoldsMinimum(lo, x2, f, eps, p);
      } else {
        assert x1 < p;
        FinalBracketHoldsMinimum(x1, hi, f, eps, p);
      }
    }
  }

  // ---------------------------------------------------------------------
  // coordinate_descent

  /** `part` for coordinate i: the objective with only coordinate i varied. */
  function Part<T>(cur: seq<T>, i: nat, f: seq<T> -> real): (r: T -> real)
    requires i < |cur|
    ensures r(cur[i]) == f(cur)
  {
    assert cur[i := cur[i]] == cur;
    x => f(cur[i := x])
  }

  /** The sweep from coordinate i on: coordinate i is set to the scalar
      search over [lo[i], hi[i]] of `part`, then the sweep moves right. */
  function SweepFrom<T>(lo: seq<T>, hi: seq<T>, cur: seq<T>, i: nat,
                        search: (T, T, T -> real) -> T, f: seq<T> -> real): (r: seq<T>)
    requires |cur| == |lo| <= |hi| && i <= |lo|
    ensures |r| == |lo|
    decreases |lo| - i
  {
    if i == |lo| then cur
    else SweepFrom(lo, hi, cur[i := search(lo[i], hi[i], Part(cur, i, f))], i + 1, search, f)
  }

  /** What `coordinate_descent` returns. */
  function CoordinateDescentOf<T>(lo: seq<T>, hi: seq<T>, search: (T, T, T -> real) -> T,
                                  f: seq<T> -> real): (r: seq<T>)
    requires |lo| <= |hi|
  {
    SweepFrom(lo, hi, lo, 0, search, f)
  }

  /** `coordinate_descent`: copy `lo`, then set each coordinate in turn. */
  method CoordinateDescent<T>(lo: array<T>, hi: array<T>, search: (T, T, T -> real) -> T,
                              f: seq<T> -> real) returns (cur: array<T>)
    requires lo.Length <= hi.Length
    ensures fresh(cur)
    ensures cur[..] == CoordinateDescentOf(lo[..], hi[..], search, f)
  {
    cur := new T[lo.Length](j reads lo requires 0 <= j < lo.Length => lo[j]);
    assert cur[..] == lo[..];
    for i := 0 to lo.Length
      invariant SweepFrom(lo[..], hi[..], cur[..], i, search, f) == CoordinateDescentOf(lo[..], hi[..], search, f)
    {
      cur[i] := search(lo[i], hi[i], Part(cur[..], i, f));
    }
  }

  /** Coordinate i is set once, in index order, by a search in which the
      coordinates before i hold their chosen values and those after i still
      hold `lo`'s. */
  lemma {:induction false} SweepSetsEachCoordinate<T>(lo: seq<T>, hi: seq<T>, cur: seq<T>, i: nat,
                                                      search: (T, T, T -> real) -> T, f: seq<T> -> real)
    requires |cur| == |lo| <= |hi| && i <= |lo|
    requires cur[i..] == lo[i..]
    ensures SweepFrom(lo, hi, cur, i, search, f)[..i] == cur[..i]
    ensures forall j :: i <= j < |lo| ==>
              SweepFrom(lo, hi, cur, i, search, f)[j] ==
              search(lo[j], hi[j], Part(SweepFrom(lo, hi, cur, i, search, f)[..j] + lo[j..], j, f))
    decreases |lo| - i
  {
    if i < |lo| {
      var next := cur[i := search(lo[i], hi[i], Part(cur, i, f))];
      assert next[i + 1..] == lo[i + 1..] by {
        forall j | i + 1 <= j < |lo| ensures next[j] == lo[j] {
          assert cur[j] == cur[i..][j - i] == lo[i..][j - i];
        }
      }
      SweepSetsEachCoordinate(lo, hi, next, i + 1, search, f);
      var r := SweepFrom(lo, hi, cur, i, search, f);
      assert r[..i] == cur[..i] by {
        assert r[..i + 1][..i] == r[..i];
      }
      assert r[i] == next[i];
      assert cur == cur[..i] + lo[i..] by {
        assert cur == cur[..i] + cur[i..];
      }
      assert r[..i] + lo[i..] == cur;
    }
  }

  lemma CoordinateDescentSetsEachCoordinate<T>(lo: seq<T>, hi: seq<T>, search: (T, T, T -> real) -> T,
                                               f: seq<T> -> real)
    requires |lo| <= |hi|
    ensures |CoordinateDescentOf(lo, hi, search, f)| == |lo|
    ensures forall j :: 0 <= j < |lo| ==>
              CoordinateDescentOf(lo, hi, search, f)[j] ==
              search(lo[j], hi[j], Part(CoordinateDescentOf(lo, hi, search, f)[..j] + lo[j..], j, f))
  {
    SweepSetsEachCoordinate(lo, hi, lo, 0, search, f);
  }

  /** A search that answers within its bounds keeps every coordinate within
      [lo[i], hi[i]]. */
  lemma CoordinateDescentWithinBounds(lo: seq<int>, hi: seq<int>, search: (int, int, int -> real) -> int,
                                      f: seq<int> -> real)
    requires |lo| <= |hi|
    requires forall i :: 0 <= i < |lo| ==> lo[i] <= hi[i]
    requires forall l, h, g :: l <= h ==> l <= search(l, h, g) <= h
    ensures forall i :: 0 <= i < |lo| ==>
              lo[i] <= CoordinateDescentOf(lo, hi, search, f)[i] <= hi[i]
  {
    CoordinateDescentSetsEachCoordinate(lo, hi, search, f);
  }

  /** Coordinate descent with `dichotomy_int` as the scalar search. */
  lemma DichotomyDescentWithinBounds(lo: seq<int>, hi: seq<int>, f: seq<int> -> real)
    requires |lo| <= |hi|
    requires forall i :: 0 <= i < |lo| ==> lo[i] <= hi[i]
    ensures forall i :: 0 <= i < |lo| ==>
              lo[i] <= CoordinateDescentOf(lo, hi, DichotomyIntOf, f)[i] <= hi[i]
  {
    CoordinateDescentWithinBounds(lo, hi, DichotomyIntOf, f);
  }

  /** `dichotomy_float` with its default eps, as a scalar search. */
  function DichotomyFloatOf(lo: real, hi: real, f: real -> real): real {
    FinalBracket(lo, hi, f, 0.000001).0
  }

  /** Coordinate descent with `dichotomy_float` as the scalar search. */
  lemma FloatDescentWithinBounds(lo: seq<real>, hi: seq<real>, f: seq<real> -> real)
    requires |lo| <= |hi|
    requires forall i :: 0 <= i < |lo| ==> lo[i] <= hi[i]
    ensures forall i :: 0 <= i < |lo| ==>
              lo[i] <= CoordinateDescentOf(lo, hi, DichotomyFloatOf, f)[i] <= hi[i]
  {
    CoordinateDescentSetsEachCoordinate(lo, hi, DichotomyFloatOf, f);
  }

  /** A search that never answers worse than its lower bound makes a sweep
      that never ends worse than `lo`. */
  lemma {:induction false} SweepNeverWorsens<T>(lo: seq<T>, hi: seq<T>, cur: seq<T>, i: nat,
                                                search: (T, T, T -> real) -> T, f: seq<T> -> real)
    requires |cur| == |lo| <= |hi| && i <= |lo|
    requires cur[i..] == lo[i..]
    requires forall l: T, h: T, g: T -> real :: g(search(l, h, g)) <= g(l)
    ensures f(SweepFrom(lo, hi, cur, i, search, f)) <= f(cur)
    decreases |lo| - i
  {
    if i < |lo| {
      var part := Part(cur, i, f);
      var next := cur[i := search(lo[i], hi[i], part)];
      assert next[i + 1..] == lo[i + 1..] by {
        forall j | i + 1 <= j < |lo| ensures next[j] == lo[j] {
          assert cur[j] == cur[i..][j - i] == lo[i..][j - i];
        }
      }
      SweepNeverWorsens(lo, hi, next, i + 1, search, f);
      assert cur[i] == lo[i] by {
        assert cur[i] == cur[i..][0];
      }
      assert cur[i := lo[i]] == cur;
      assert f(next) == part(search(lo[i], hi[i], part)) <= part(lo[i]) == f(cur);
    }
  }

  lemma CoordinateDescentNeverWorsens<T>(lo: seq<T>, hi: seq<T>, search: (T, T, T -> real) -> T,
                                         f: seq<T> -> real)
    requires |lo| <= |hi|
    requires forall l: T, h: T, g: T -> real :: g(search(l, h, g)) <= g(l)
    ensures f(CoordinateDescentOf(lo, hi, search, f)) <= f(lo)
  {
    SweepNeverWorsens(lo, hi, lo, 0, search, f);
  }
}
