/** The value area over the volumes of a profile's levels, in price order: a window
    that grows from the point of control towards the heavier neighbour, or on both
    sides at once when the neighbours tie, until it holds a target volume. */
module ValueArea {
  import Sets

  datatype Window = Window(lo: nat, hi: nat)

  function Sum(v: seq<real>): real {
    if v == [] then 0.0 else Sum(v[..|v| - 1]) + v[|v| - 1]
  }

  function SumOf(v: seq<real>, a: Window): real
    requires a.lo <= a.hi < |v|
  {
    Sum(v[a.lo..a.hi + 1])
  }

  /** `i` is the first index of the largest volume. */
  ghost predicate IsPoc(v: seq<real>, i: nat) {
    && i < |v|
    && (forall j | 0 <= j < |v| :: v[j] <= v[i])
    && (forall j | 0 <= j < i :: v[j] < v[i])
  }

  predicate Whole(v: seq<real>, a: Window) {
    a.lo == 0 && a.hi + 1 == |v|
  }

  /** One step of the expansion. */
  function Grow(v: seq<real>, a: Window): (b: Window)
    requires a.lo <= a.hi < |v| && !Whole(v, a)
    ensures b.lo <= a.lo && a.hi <= b.hi < |v| && b != a
  {
    if a.lo == 0 then Window(a.lo, a.hi + 1)
    else if a.hi + 1 == |v| then Window(a.lo - 1, a.hi)
    else if v[a.lo - 1] > v[a.hi + 1] then Window(a.lo - 1, a.hi)
    else if v[a.hi + 1] > v[a.lo - 1] then Window(a.lo, a.hi + 1)
    else Window(a.lo - 1, a.hi + 1)
  }

  function Expand(v: seq<real>, a: Window, target: real): (b: Window)
    requires a.lo <= a.hi < |v|
    ensures b.lo <= a.lo && a.hi <= b.hi < |v|
    decreases |v| - (a.hi - a.lo)
  {
    if SumOf(v, a) >= target || Whole(v, a) then a else Expand(v, Grow(v, a), target)
  }

  ghost predicate NonNegative(v: seq<real>) {
    forall i | 0 <= i < |v| :: v[i] >= 0.0
  }

  lemma {:induction false} SumAppend(v: seq<real>, w: seq<real>)
    ensures Sum(v + w) == Sum(v) + Sum(w)
  {
    if w == [] {
      assert v + w == v;
    } else {
      assert (v + w)[..|v + w| - 1] == v + w[..|w| - 1];
      SumAppend(v, w[..|w| - 1]);
    }
  }

  lemma {:induction false} SumNonNegative(v: seq<real>)
    requires NonNegative(v)
    ensures Sum(v) >= 0.0
  {
    if v == [] {
    } else {
      SumNonNegative(v[..|v| - 1]);
    }
  }

  lemma SumOne(x: real)
    ensures Sum([x]) == x
  {
    assert [x][..0] == [];
  }

  /** The volume a step takes in. */
  lemma SumGrow(v: seq<real>, a: Window)
    requires a.lo <= a.hi < |v|
    ensures a.lo > 0 ==> SumOf(v, Window(a.lo - 1, a.hi)) == SumOf(v, a) + v[a.lo - 1]
    ensures a.hi + 1 < |v| ==> SumOf(v, Window(a.lo, a.hi + 1)) == SumOf(v, a) + v[a.hi + 1]
  {
    var mid := v[a.lo..a.hi + 1];
    if a.lo > 0 {
      assert v[a.lo - 1..a.hi + 1] == [v[a.lo - 1]] + mid;
      SumAppend([v[a.lo - 1]], mid);
      SumOne(v[a.lo - 1]);
    }
    if a.hi + 1 < |v| {
      assert v[a.lo..a.hi + 2] == mid + [v[a.hi + 1]];
      SumAppend(mid, [v[a.hi + 1]]);
      SumOne(v[a.hi + 1]);
    }
  }

  lemma WindowWithinTotal(v: seq<real>, a: Window)
    requires a.lo <= a.hi < |v| && NonNegative(v)
    ensures SumOf(v, a) <= Sum(v)
  {
    assert v == v[..a.lo] + v[a.lo..a.hi + 1] + v[a.hi + 1..];
    SumAppend(v[..a.lo] + v[a.lo..a.hi + 1], v[a.hi + 1..]);
    SumAppend(v[..a.lo], v[a.lo..a.hi + 1]);
    SumNonNegative(v[..a.lo]);
    SumNonNegative(v[a.hi + 1..]);
  }

  /** Coverage: the area holds the target volume exactly when the profile does. */
  lemma {:induction false} Coverage(v: seq<real>, a: Window, target: real)
    requires a.lo <= a.hi < |v| && NonNegative(v)
    ensures SumOf(v, Expand(v, a, target)) >= target <==> Sum(v) >= target
    decreases |v| - (a.hi - a.lo)
  {
    WindowWithinTotal(v, a);
    if SumOf(v, a) >= target {
    } else if Whole(v, a) {
      assert v[a.lo..a.hi + 1] == v;
    } else {
      Coverage(v, Grow(v, a), target);
    }
  }

  /** Nesting: a larger target gives an area that contains the smaller one's. */
  lemma {:induction false} Nesting(v: seq<real>, a: Window, small: real, large: real)
    requires a.lo <= a.hi < |v| && small <= large
    ensures var s, l := Expand(v, a, small), Expand(v, a, large); l.lo <= s.lo && s.hi <= l.hi
    decreases |v| - (a.hi - a.lo)
  {
    if SumOf(v, a) >= small || Whole(v, a) {
    } else {
      Nesting(v, Grow(v, a), small, large);
    }
  }

  lemma ScaleMonotone(x: real, r1: real, r2: real)
    requires x >= 0.0 && r1 <= r2
    ensures x * r1 <= x * r2
  {
    assert x * (r2 - r1) >= 0.0;
  }

  /** For a larger ratio of a non-negative total, the area contains the smaller one. */
  lemma RatioNesting(v: seq<real>, poc: nat, total: real, r1: real, r2: real)
    requires poc < |v| && NonNegative(v) && total == Sum(v) && r1 <= r2
    ensures var s, l := Expand(v, Window(poc, poc), total * r1), Expand(v, Window(poc, poc), total * r2);
            l.lo <= s.lo && s.hi <= l.hi
  {
    SumNonNegative(v);
    ScaleMonotone(total, r1, r2);
    Nesting(v, Window(poc, poc), total * r1, total * r2);
  }

  /** Volumes never increase moving away from the point of control. */
  ghost predicate Unimodal(v: seq<real>, poc: nat)
    requires poc < |v|
  {
    && (forall i, j | 0 <= i <= j <= poc :: v[i] <= v[j])
    && (forall i, j | poc <= i <= j < |v| :: v[i] >= v[j])
  }

  /** Every level inside has at least the volume of every level outside. */
  ghost predicate Heaviest(v: seq<real>, a: Window)
    requires a.lo <= a.hi < |v|
  {
    forall i, j | a.lo <= i <= a.hi && 0 <= j < |v| && !(a.lo <= j <= a.hi) :: v[i] >= v[j]
  }

  lemma GrowHeaviest(v: seq<real>, poc: nat, a: Window)
    requires a.lo <= poc <= a.hi < |v| && Unimodal(v, poc) && Heaviest(v, a) && !Whole(v, a)
    ensures Heaviest(v, Grow(v, a))
  {
    var b := Grow(v, a);
    forall i, j | b.lo <= i <= b.hi && 0 <= j < |v| && !(b.lo <= j <= b.hi) ensures v[i] >= v[j] {
      if i < a.lo && j > b.hi {
        assert v[i] >= v[a.hi + 1] >= v[j];
      } else if i > a.hi && j < b.lo {
        assert v[i] >= v[a.lo - 1] >= v[j];
      }
    }
  }

  /** On a profile that falls off on both sides of its peak, the area consists of the
      heaviest levels. */
  lemma {:induction false} ExpandHeaviest(v: seq<real>, poc: nat, a: Window, target: real)
    requires a.lo <= poc <= a.hi < |v| && Unimodal(v, poc) && Heaviest(v, a)
    ensures Heaviest(v, Expand(v, a, target))
    decreases |v| - (a.hi - a.lo)
  {
    if SumOf(v, a) >= target || Whole(v, a) {
    } else {
      GrowHeaviest(v, poc, a);
      ExpandHeaviest(v, poc, Grow(v, a), target);
    }
  }

  /** Thrift: an area larger than its start was still below the target one step
      earlier; on a profile that falls off on both sides of its peak, that smaller
      window too consists of the heaviest levels. */
  lemma {:induction false} Thrift(v: seq<real>, poc: nat, a: Window, target: real) returns (b: Window)
    requires a.lo <= poc <= a.hi < |v| && Expand(v, a, target) != a
    ensures b.lo <= a.lo && a.hi <= b.hi < |v| && !Whole(v, b)
    ensures Grow(v, b) == Expand(v, a, target) && SumOf(v, b) < target
    ensures Unimodal(v, poc) && Heaviest(v, a) ==> Heaviest(v, b)
    decreases |v| - (a.hi - a.lo)
  {
    if Expand(v, Grow(v, a), target) == Grow(v, a) {
      b := a;
    } else {
      if Unimodal(v, poc) && Heaviest(v, a) {
        GrowHeaviest(v, poc, a);
      }
      b := Thrift(v, poc, Grow(v, a), target);
    }
  }

  /** The volume of any set of levels. */
  ghost function SetSum(v: seq<real>, s: set<nat>): real {
    if v == [] then 0.0
    else SetSum(v[..|v| - 1], s) + if |v| - 1 in s then v[|v| - 1] else 0.0
  }

  predicate Inside(a: Window, i: nat) {
    a.lo <= i <= a.hi
  }

  ghost function Levels(a: Window): set<nat> {
    set i: nat | i <= a.hi && Inside(a, i)
  }

  lemma {:induction false} SetSumAdd(v: seq<real>, s: set<nat>, x: nat)
    requires x < |v| && x !in s
    ensures SetSum(v, s + {x}) == SetSum(v, s) + v[x]
  {
    if x == |v| - 1 {
      SetSumAgree(v[..|v| - 1], s + {x}, s);
    } else {
      SetSumAdd(v[..|v| - 1], s, x);
    }
  }

  lemma {:induction false} SetSumAgree(v: seq<real>, s: set<nat>, t: set<nat>)
    requires forall i | 0 <= i < |v| :: i in s <==> i in t
    ensures SetSum(v, s) == SetSum(v, t)
  {
    if v == [] {
    } else {
      SetSumAgree(v[..|v| - 1], s, t);
    }
  }

  lemma {:induction false} SetSumMonotone(v: seq<real>, s: set<nat>, t: set<nat>)
    requires NonNegative(v) && s <= t
    ensures SetSum(v, s) <= SetSum(v, t)
  {
    if v == [] {
    } else {
      SetSumMonotone(v[..|v| - 1], s, t);
    }
  }

  lemma {:induction false} WindowSetSum(v: seq<real>, a: Window)
    requires a.lo <= a.hi < |v|
    ensures SetSum(v, Levels(a)) == SumOf(v, a)
    decreases a.hi - a.lo
  {
    if a.lo == a.hi {
      assert Levels(a) == {} + {a.lo};
      SetSumAdd(v, {}, a.lo);
      EmptySetSum(v);
      assert v[a.lo..a.hi + 1] == [v[a.lo]];
      SumOne(v[a.lo]);
    } else {
      var b := Window(a.lo, a.hi - 1);
      WindowSetSum(v, b);
      assert Levels(a) == Levels(b) + {a.hi};
      SetSumAdd(v, Levels(b), a.hi);
      SumGrow(v, b);
    }
  }

  lemma {:induction false} EmptySetSum(v: seq<real>)
    ensures SetSum(v, {}) == 0.0
  {
    if v == [] {
    } else {
      EmptySetSum(v[..|v| - 1]);
    }
  }

  lemma {:induction false} LevelCount(a: Window)
    requires a.lo <= a.hi
    ensures |Levels(a)| == a.hi - a.lo + 1
    decreases a.hi - a.lo
  {
    if a.lo == a.hi {
      assert Levels(a) == {a.lo};
    } else {
      LevelCount(Window(a.lo, a.hi - 1));
      assert Levels(a) == Levels(Window(a.lo, a.hi - 1)) + {a.hi};
    }
  }

  /** Exchange: no set with as few levels holds more than a heaviest window. */
  lemma {:induction false} Exchange(v: seq<real>, a: Window, s: set<nat>)
    requires a.lo <= a.hi < |v| && NonNegative(v) && Heaviest(v, a)
    requires (forall x | x in s :: x < |v|) && |s| <= |Levels(a)|
    ensures SetSum(v, s) <= SumOf(v, a)
    decreases s - Levels(a)
  {
    WindowSetSum(v, a);
    if s <= Levels(a) {
      SetSumMonotone(v, s, Levels(a));
    } else {
      var x :| x in s && x !in Levels(a);
      if Levels(a) <= s {
        Sets.FewerElements(Levels(a) + {x}, s);
      }
      var y :| y in Levels(a) && y !in s;
      var rest := s - {x};
      var t := rest + {y};
      SetSumAdd(v, rest, x);
      SetSumAdd(v, rest, y);
      assert rest + {x} == s;
      assert t - Levels(a) == (s - Levels(a)) - {x};
      Exchange(v, a, t);
    }
  }

  /** The last step to the window took in both neighbours, which tie. */
  ghost predicate TwoSided(v: seq<real>, a: Window)
    requires a.lo <= a.hi < |v|
  {
    && a.hi - a.lo >= 2
    && Grow(v, Window(a.lo + 1, a.hi - 1)) == a
    && v[a.lo] == v[a.hi]
  }

  /** A step takes in one level, or two that tie. */
  lemma GrowSize(v: seq<real>, a: Window)
    requires a.lo <= a.hi < |v| && !Whole(v, a)
    ensures var b := Grow(v, a);
            b.hi - b.lo == a.hi - a.lo + 1 ||
            (b.hi - b.lo == a.hi - a.lo + 2 && b.lo == a.lo - 1 && b.hi == a.hi + 1 && v[b.lo] == v[b.hi])
  {}

  /** Near-optimality: on a profile that falls off on both sides of its peak, the area
      has at most one level more than any set of levels that reaches the target; and it
      has one more only after a two-sided last step, or when no level is needed at all. */
  lemma NearlyFewestLevels(v: seq<real>, poc: nat, target: real, s: set<nat>)
    requires poc < |v| && NonNegative(v) && Unimodal(v, poc)
    requires (forall x | x in s :: x < |v|) && SetSum(v, s) >= target
    ensures var a := Expand(v, Window(poc, poc), target);
            && a.hi - a.lo + 1 <= |s| + 1
            && (a.hi - a.lo + 1 == |s| + 1 ==> TwoSided(v, a) || (s == {} && a == Window(poc, poc)))
  {
    var start := Window(poc, poc);
    if Expand(v, start, target) != start {
      var b := Thrift(v, poc, start, target);
      if |s| <= |Levels(b)| {
        Exchange(v, b, s);
      }
      LevelCount(b);
      GrowSize(v, b);
    }
  }

  /** The extra level is sometimes there: a tie takes in two levels where one would do. */
  lemma TieTakesOneMore()
    ensures var v := [1.0, 2.0, 1.0];
            && Expand(v, Window(1, 1), 3.0) == Window(0, 2)
            && SetSum(v, {0, 1}) == 3.0
  {
    var v := [1.0, 2.0, 1.0];
    SumGrow(v, Window(1, 1));
    SumGrow(v, Window(0, 1));
    assert v[1..2] == [2.0] && [2.0][..0] == [];
    assert v[..2] == [1.0, 2.0] && v[..2][..1] == [1.0] && [1.0][..0] == [];
  }
}
