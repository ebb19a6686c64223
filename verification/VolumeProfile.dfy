/** The volume profile: volume per price, its point of control and its value area.
    The ordered map from price to volume is the list of its entries in ascending
    price, the order in which it is traversed. */
module VolumeProfile {
  import opened ValueArea

  datatype Level = Level(price: real, volume: real)

  datatype VolumeProfileSnapshot = VolumeProfileSnapshot(
    pocPrice: real, valueAreaLow: real, valueAreaHigh: real, totalVolume: real, pocVolume: real)

  ghost predicate Ascending(levels: seq<Level>) {
    forall i, j | 0 <= i < j < |levels| :: levels[i].price < levels[j].price
  }

  /** `map[price] += volume`, where a missing entry starts at zero. */
  function AddTo(levels: seq<Level>, price: real, volume: real): (r: seq<Level>)
    ensures |r| >= 1
  {
    if levels == [] || price < levels[0].price then [Level(price, 0.0 + volume)] + levels
    else if price == levels[0].price then [Level(price, levels[0].volume + volume)] + levels[1..]
    else [levels[0]] + AddTo(levels[1..], price, volume)
  }

  /** The prices that have an entry, and the volume recorded for one of them. */
  predicate HasPrice(levels: seq<Level>, p: real) {
    exists i :: 0 <= i < |levels| && levels[i].price == p
  }

  function VolumeAt(levels: seq<Level>, p: real): real {
    if levels == [] then 0.0
    else (if levels[0].price == p then levels[0].volume else 0.0) + VolumeAt(levels[1..], p)
  }

  /** The volume of the levels priced from `low` to `high`. */
  function VolumeBetween(levels: seq<Level>, low: real, high: real): real {
    if levels == [] then 0.0
    else (if low <= levels[0].price <= high then levels[0].volume else 0.0) + VolumeBetween(levels[1..], low, high)
  }

  /** `p` and `q` are the prices of two levels with none in between. */
  ghost predicate Adjacent(levels: seq<Level>, p: real, q: real) {
    HasPrice(levels, p) && HasPrice(levels, q) && p < q && forall x | p < x < q :: !HasPrice(levels, x)
  }

  /** The area from `low` to `high` is the smaller one after one more step: a neighbour of the
      smaller area is taken in exactly when the other neighbour, if any, is not heavier. */
  ghost predicate OneStep(levels: seq<Level>, low: real, high: real, smallLow: real, smallHigh: real) {
    && (low != smallLow || high != smallHigh)
    && (low == smallLow || Adjacent(levels, low, smallLow))
    && (high == smallHigh || Adjacent(levels, smallHigh, high))
    && (forall p | Adjacent(levels, p, smallLow) ::
          low == p <==> forall q | Adjacent(levels, smallHigh, q) :: VolumeAt(levels, q) <= VolumeAt(levels, p))
    && (forall q | Adjacent(levels, smallHigh, q) ::
          high == q <==> forall p | Adjacent(levels, p, smallLow) :: VolumeAt(levels, p) <= VolumeAt(levels, q))
  }

  function Volumes(levels: seq<Level>): (v: seq<real>)
    ensures |v| == |levels|
    ensures forall i | 0 <= i < |v| :: v[i] == levels[i].volume
  {
    seq(|levels|, i requires 0 <= i < |levels| => levels[i].volume)
  }

  function Total(levels: seq<Level>): real {
    Sum(Volumes(levels))
  }

  /** The profile that a list of adds builds. */
  function Replay(adds: seq<Level>): seq<Level> {
    if adds == [] then []
    else AddTo(Replay(adds[..|adds| - 1]), adds[|adds| - 1].price, adds[|adds| - 1].volume)
  }

  /** The target volume of the value area. */
  function Target(total: real, ratio: real): real {
    total * ratio
  }

  /** What a snapshot reports when the point of control is level `poc`. */
  function Report(levels: seq<Level>, poc: nat, total: real, ratio: real): VolumeProfileSnapshot
    requires poc < |levels|
  {
    var a := Expand(Volumes(levels), Window(poc, poc), Target(total, ratio));
    VolumeProfileSnapshot(levels[poc].price, levels[a.lo].price, levels[a.hi].price,
                          total, levels[poc].volume)
  }

  class VolumeProfileEngine {
    var volumeByPrice: seq<Level>

    ghost predicate Valid()
      reads this
    {
      Ascending(volumeByPrice)
    }

    constructor ()
      ensures Valid() && volumeByPrice == []
    {
      volumeByPrice := [];
    }

    method Reset()
      modifies this
      ensures Valid() && volumeByPrice == []
    {
      volumeByPrice := [];
    }

    /** The entry at `price` grows by `volume`, every other entry stays. */
    method Add(price: real, volume: real)
      requires Valid()
      modifies this
      ensures Valid()
      ensures volumeByPrice == AddTo(old(volumeByPrice), price, volume)
      ensures forall p :: HasPrice(volumeByPrice, p) <==> HasPrice(old(volumeByPrice), p) || p == price
      ensures forall p :: VolumeAt(volumeByPrice, p) ==
                          VolumeAt(old(volumeByPrice), p) + if p == price then volume else 0.0
      ensures Total(volumeByPrice) == Total(old(volumeByPrice)) + volume
    {
      ghost var before := volumeByPrice;
      volumeByPrice := AddTo(volumeByPrice, price, volume);
      AddAscending(before, price, volume);
      AddRaisesTotal(before, price, volume);
      forall p
        ensures HasPrice(volumeByPrice, p) <==> HasPrice(before, p) || p == price
        ensures VolumeAt(volumeByPrice, p) == VolumeAt(before, p) + if p == price then volume else 0.0
      {
        AddMeaning(before, price, volume, p);
      }
    }

    /** All zero for an empty profile. Otherwise the point of control is the lowest
        price of maximal volume and the area is the expansion from it. */
    method Snapshot(ratio: real) returns (result: VolumeProfileSnapshot)
      requires Valid()
      ensures volumeByPrice == [] ==> result == VolumeProfileSnapshot(0.0, 0.0, 0.0, 0.0, 0.0)
      ensures volumeByPrice != [] ==>
                && HasPrice(volumeByPrice, result.pocPrice) && result.pocVolume == VolumeAt(volumeByPrice, result.pocPrice)
                && (forall p | HasPrice(volumeByPrice, p) ::
                      && VolumeAt(volumeByPrice, p) <= result.pocVolume
                      && (p < result.pocPrice ==> VolumeAt(volumeByPrice, p) < result.pocVolume))
                && result.totalVolume == Total(volumeByPrice)
                && HasPrice(volumeByPrice, result.valueAreaLow) && HasPrice(volumeByPrice, result.valueAreaHigh)
                && result.valueAreaLow <= result.pocPrice <= result.valueAreaHigh
      ensures volumeByPrice != [] && NonNegative(Volumes(volumeByPrice)) && ratio <= 1.0 ==>
                VolumeBetween(volumeByPrice, result.valueAreaLow, result.valueAreaHigh) >= result.totalVolume * ratio
      ensures volumeByPrice != [] && !(result.valueAreaLow == result.pocPrice == result.valueAreaHigh) ==>
                exists low, high ::
                  && result.valueAreaLow <= low <= result.pocPrice <= high <= result.valueAreaHigh
                  && OneStep(volumeByPrice, result.valueAreaLow, result.valueAreaHigh, low, high)
                  && VolumeBetween(volumeByPrice, low, high) < result.totalVolume * ratio
      ensures volumeByPrice != [] ==> exists poc :: IsPoc(Volumes(volumeByPrice), poc)
      ensures forall poc, total | IsPoc(Volumes(volumeByPrice), poc) && total == Total(volumeByPrice) ::
                result == Report(volumeByPrice, poc, total, ratio)
    {
      hide VolumeAt, HasPrice, OneStep, VolumeBetween, Total, NonNegative, Expand, Target;
      if volumeByPrice == [] {
        return VolumeProfileSnapshot(0.0, 0.0, 0.0, 0.0, 0.0);
      }
      var poc := MaxElement(volumeByPrice);
      var total := TotalVolume(volumeByPrice);
      var left, right := ExpandValueArea(Volumes(volumeByPrice), poc, Target(total, ratio));
      result := VolumeProfileSnapshot(volumeByPrice[poc].price, volumeByPrice[left].price,
                                      volumeByPrice[right].price, total, volumeByPrice[poc].volume);
      assert Ascending(volumeByPrice) && result == Report(volumeByPrice, poc, total, ratio);
      hide *;
      PocOfReport(volumeByPrice, poc, ratio, result);
      AreaOfReport(volumeByPrice, poc, ratio, result);
      OnlyReport(volumeByPrice, poc, ratio, result);
    }
  }

  /** The order that the maximum is taken in: by volume, and at equal volume the lower
      price counts as the larger entry. */
  predicate Less(left: Level, right: Level) {
    if left.volume != right.volume then left.volume < right.volume else left.price > right.price
  }

  /** In ascending price the tie-break never decides: a later entry is larger exactly when
      its volume is. */
  lemma TieBreakIdle(levels: seq<Level>, i: nat, j: nat)
    requires Ascending(levels) && i < j < |levels|
    ensures Less(levels[i], levels[j]) <==> levels[i].volume < levels[j].volume
  {}

  /** The first largest entry is the first one of the largest volume. */
  method MaxElement(levels: seq<Level>) returns (poc: nat)
    requires levels != [] && Ascending(levels)
    ensures IsPoc(Volumes(levels), poc)
    ensures forall i | 0 <= i < |levels| :: !Less(levels[poc], levels[i])
  {
    poc := 0;
    for i := 1 to |levels|
      invariant poc < i
      invariant forall j | 0 <= j < i :: levels[j].volume <= levels[poc].volume
      invariant forall j | 0 <= j < poc :: levels[j].volume < levels[poc].volume
    {
      TieBreakIdle(levels, poc, i);
      if Less(levels[poc], levels[i]) {
        poc := i;
      }
    }
  }

  method TotalVolume(levels: seq<Level>) returns (total: real)
    ensures total == Total(levels)
  {
    total := 0.0;
    ghost var v := Volumes(levels);
    for i := 0 to |levels|
      invariant total == Sum(v[..i])
    {
      assert v[..i + 1][..i] == v[..i];
      total := total + levels[i].volume;
    }
    assert v[..|levels|] == v;
  }

  method ExpandValueArea(v: seq<real>, poc: nat, target: real) returns (left: nat, right: nat)
    requires poc < |v|
    ensures Window(left, right) == Expand(v, Window(poc, poc), target)
  {
    var accumulated := v[poc];
    left, right := poc, poc;
    assert v[poc..poc + 1] == [v[poc]];
    SumOne(v[poc]);
    while accumulated < target && (left != 0 || right + 1 != |v|)
      invariant left <= right < |v|
      invariant accumulated == SumOf(v, Window(left, right))
      invariant Expand(v, Window(left, right), target) == Expand(v, Window(poc, poc), target)
      decreases left + |v| - right
    {
      left, right, accumulated := Advance(v, left, right, accumulated);
    }
  }

  /** The body of the expansion loop. */
  method Advance(v: seq<real>, l: nat, r: nat, a: real) returns (left: nat, right: nat, accumulated: real)
    requires l <= r < |v| && (l != 0 || r + 1 != |v|)
    requires a == SumOf(v, Window(l, r))
    ensures Window(left, right) == Grow(v, Window(l, r))
    ensures accumulated == SumOf(v, Window(left, right))
  {
    left, right, accumulated := l, r, a;
    SumGrow(v, Window(l, r));
    var canMoveLeft, canMoveRight := left != 0, right + 1 != |v|;
    var leftVolume := if canMoveLeft then v[left - 1] else -1.0;
    var rightVolume := if canMoveRight then v[right + 1] else -1.0;
    if canMoveLeft && (!canMoveRight || leftVolume > rightVolume) {
      left := left - 1;
      accumulated := accumulated + v[left];
    } else if canMoveRight && (!canMoveLeft || rightVolume > leftVolume) {
      right := right + 1;
      accumulated := accumulated + v[right];
    } else {
      if canMoveLeft {
        left := left - 1;
        accumulated := accumulated + v[left];
      }
      SumGrow(v, Window(left, right));
      if canMoveRight {
        right := right + 1;
        accumulated := accumulated + v[right];
      }
    }
  }

  lemma TargetIs(total: real, ratio: real)
    ensures Target(total, ratio) == total * ratio
  {}

  lemma ShareOfTotal(total: real, ratio: real)
    requires total >= 0.0 && ratio <= 1.0
    ensures Target(total, ratio) <= total
  {
    ScaleMonotone(total, ratio, 1.0);
  }

  /** For a ratio of at most one, the area holds at least that share of the total. */
  lemma RatioCovered(v: seq<real>, poc: nat, total: real, ratio: real)
    requires poc < |v| && NonNegative(v) && total == Sum(v) && ratio <= 1.0
    ensures SumOf(v, Expand(v, Window(poc, poc), Target(total, ratio))) >= total * ratio
  {
    hide *;
    SumNonNegative(v);
    ShareOfTotal(total, ratio);
    TargetIs(total, ratio);
    Coverage(v, Window(poc, poc), Target(total, ratio));
  }

  // ---------------------------------------------------------------------------
  // A snapshot in terms of prices

  lemma {:induction false} PriceIndex(levels: seq<Level>, i: nat)
    requires Ascending(levels) && i < |levels|
    ensures HasPrice(levels, levels[i].price) && VolumeAt(levels, levels[i].price) == levels[i].volume
  {
    if i == 0 {
      NoVolume(levels[1..], levels[0].price);
    } else {
      PriceIndex(levels[1..], i - 1);
      assert levels[0].price < levels[i].price;
    }
  }

  lemma {:induction false} NoVolume(levels: seq<Level>, p: real)
    requires forall i | 0 <= i < |levels| :: levels[i].price != p
    ensures VolumeAt(levels, p) == 0.0
  {
    if levels == [] {
    } else {
      NoVolume(levels[1..], p);
    }
  }

  lemma {:induction false} NothingBetween(levels: seq<Level>, low: real, high: real)
    requires forall i | 0 <= i < |levels| :: !(low <= levels[i].price <= high)
    ensures VolumeBetween(levels, low, high) == 0.0
  {
    if levels == [] {
    } else {
      NothingBetween(levels[1..], low, high);
    }
  }

  /** The levels between two prices are those of a window. */
  lemma {:induction false} WindowBetween(levels: seq<Level>, a: Window)
    requires Ascending(levels) && a.lo <= a.hi < |levels|
    ensures VolumeBetween(levels, levels[a.lo].price, levels[a.hi].price) == SumOf(Volumes(levels), a)
    decreases |levels|
  {
    var v, rest := Volumes(levels), levels[1..];
    var low, high := levels[a.lo].price, levels[a.hi].price;
    assert Volumes(rest) == v[1..];
    BetweenCons(levels, low, high);
    hide Volumes, Sum, VolumeBetween;
    if a.lo > 0 {
      WindowBetween(rest, Window(a.lo - 1, a.hi - 1));
      assert v[1..][a.lo - 1..a.hi] == v[a.lo..a.hi + 1];
    } else if a.hi == 0 {
      NothingBetween(rest, low, high);
      assert v[0..1] == [v[0]];
      SumOne(v[0]);
    } else {
      WindowBetween(rest, Window(0, a.hi - 1));
      FirstBetween(rest, low, rest[0].price, high);
      SumCons(v, a.hi);
    }
  }

  lemma BetweenCons(levels: seq<Level>, low: real, high: real)
    requires levels != []
    ensures VolumeBetween(levels, low, high) ==
            (if low <= levels[0].price <= high then levels[0].volume else 0.0) + VolumeBetween(levels[1..], low, high)
    ensures Volumes(levels)[0] == levels[0].volume
  {}

  lemma SumCons(v: seq<real>, hi: nat)
    requires 0 < hi < |v|
    ensures SumOf(v, Window(0, hi)) == v[0] + SumOf(v[1..], Window(0, hi - 1))
  {
    assert v[0..hi + 1] == [v[0]] + v[1..][0..hi];
    SumAppend([v[0]], v[1..][0..hi]);
    SumOne(v[0]);
  }

  /** A lower bound below all prices may be raised to the first of them. */
  lemma {:induction false} FirstBetween(levels: seq<Level>, low: real, first: real, high: real)
    requires low <= first && forall i | 0 <= i < |levels| :: first <= levels[i].price
    ensures VolumeBetween(levels, low, high) == VolumeBetween(levels, first, high)
  {
    if levels == [] {
    } else {
      FirstBetween(levels[1..], low, first, high);
    }
  }

  lemma PocOfReport(levels: seq<Level>, poc: nat, ratio: real, r: VolumeProfileSnapshot)
    requires Ascending(levels) && IsPoc(Volumes(levels), poc) && r == Report(levels, poc, Total(levels), ratio)
    ensures HasPrice(levels, r.pocPrice) && r.pocVolume == VolumeAt(levels, r.pocPrice)
    ensures forall p | HasPrice(levels, p) ::
              && VolumeAt(levels, p) <= r.pocVolume
              && (p < r.pocPrice ==> VolumeAt(levels, p) < r.pocVolume)
    ensures r.totalVolume == Total(levels)
    ensures HasPrice(levels, r.valueAreaLow) && HasPrice(levels, r.valueAreaHigh)
    ensures r.valueAreaLow <= r.pocPrice <= r.valueAreaHigh
  {
    hide Expand, Target, Total, VolumeAt;
    PriceIndex(levels, poc);
    forall p | HasPrice(levels, p)
      ensures VolumeAt(levels, p) <= r.pocVolume
      ensures p < r.pocPrice ==> VolumeAt(levels, p) < r.pocVolume
    {
      var i :| 0 <= i < |levels| && levels[i].price == p;
      PriceIndex(levels, i);
      assert Volumes(levels)[i] <= Volumes(levels)[poc];
    }
  }

  lemma CoverageOfReport(levels: seq<Level>, poc: nat, ratio: real, r: VolumeProfileSnapshot)
    requires Ascending(levels) && poc < |levels|
    requires r.totalVolume == Total(levels) && r == Report(levels, poc, r.totalVolume, ratio)
    ensures NonNegative(Volumes(levels)) && ratio <= 1.0 ==>
              VolumeBetween(levels, r.valueAreaLow, r.valueAreaHigh) >= Target(r.totalVolume, ratio)
  {
    var v, target := Volumes(levels), Target(r.totalVolume, ratio);
    hide Target, Expand, Sum, SumOf, VolumeBetween;
    WindowBetween(levels, Expand(v, Window(poc, poc), target));
    if NonNegative(v) && ratio <= 1.0 {
      SumNonNegative(v);
      ShareOfTotal(r.totalVolume, ratio);
      Coverage(v, Window(poc, poc), target);
    }
  }

  lemma AdjacentLevels(levels: seq<Level>, i: nat)
    requires Ascending(levels) && i < |levels|
    ensures forall q :: Adjacent(levels, levels[i].price, q) <==> i + 1 < |levels| && q == levels[i + 1].price
    ensures forall p :: Adjacent(levels, p, levels[i].price) <==> i > 0 && p == levels[i - 1].price
  {
    forall q ensures Adjacent(levels, levels[i].price, q) <==> i + 1 < |levels| && q == levels[i + 1].price {
      if Adjacent(levels, levels[i].price, q) {
        var j :| 0 <= j < |levels| && levels[j].price == q;
        assert HasPrice(levels, levels[i + 1].price);
      }
    }
    forall p ensures Adjacent(levels, p, levels[i].price) <==> i > 0 && p == levels[i - 1].price {
      if Adjacent(levels, p, levels[i].price) {
        var j :| 0 <= j < |levels| && levels[j].price == p;
        assert HasPrice(levels, levels[i - 1].price);
      }
    }
  }

  lemma GrowIsOneStep(levels: seq<Level>, a: Window)
    requires Ascending(levels) && a.lo <= a.hi < |levels| && !Whole(Volumes(levels), a)
    ensures var b := Grow(Volumes(levels), a);
            OneStep(levels, levels[b.lo].price, levels[b.hi].price, levels[a.lo].price, levels[a.hi].price)
  {
    hide Adjacent, VolumeAt, HasPrice;
    AdjacentLevels(levels, a.lo);
    AdjacentLevels(levels, a.hi);
    if a.lo > 0 {
      PriceIndex(levels, a.lo - 1);
    }
    if a.hi + 1 < |levels| {
      PriceIndex(levels, a.hi + 1);
    }
  }

  lemma ThriftOfReport(levels: seq<Level>, poc: nat, ratio: real, r: VolumeProfileSnapshot)
    requires Ascending(levels) && poc < |levels| && r == Report(levels, poc, r.totalVolume, ratio)
    ensures !(r.valueAreaLow == r.pocPrice == r.valueAreaHigh) ==>
              exists low, high ::
                && r.valueAreaLow <= low <= r.pocPrice <= high <= r.valueAreaHigh
                && OneStep(levels, r.valueAreaLow, r.valueAreaHigh, low, high)
                && VolumeBetween(levels, low, high) < Target(r.totalVolume, ratio)
  {
    var v, target := Volumes(levels), Target(r.totalVolume, ratio);
    hide Target, Expand, Sum, SumOf, VolumeBetween, OneStep, Grow;
    if !(r.valueAreaLow == r.pocPrice == r.valueAreaHigh) {
      var b := Thrift(v, poc, Window(poc, poc), target);
      WindowBetween(levels, b);
      GrowIsOneStep(levels, b);
    }
  }

  /** The area in terms of the ratio. */
  lemma AreaOfReport(levels: seq<Level>, poc: nat, ratio: real, r: VolumeProfileSnapshot)
    requires Ascending(levels) && poc < |levels|
    requires r.totalVolume == Total(levels) && r == Report(levels, poc, r.totalVolume, ratio)
    ensures NonNegative(Volumes(levels)) && ratio <= 1.0 ==>
              VolumeBetween(levels, r.valueAreaLow, r.valueAreaHigh) >= r.totalVolume * ratio
    ensures !(r.valueAreaLow == r.pocPrice == r.valueAreaHigh) ==>
              exists low, high ::
                && r.valueAreaLow <= low <= r.pocPrice <= high <= r.valueAreaHigh
                && OneStep(levels, r.valueAreaLow, r.valueAreaHigh, low, high)
                && VolumeBetween(levels, low, high) < r.totalVolume * ratio
  {
    hide *;
    CoverageOfReport(levels, poc, ratio, r);
    ThriftOfReport(levels, poc, ratio, r);
    TargetIs(r.totalVolume, ratio);
  }

  /** A profile has one point of control. */
  lemma PocUnique(v: seq<real>, i: nat, j: nat)
    requires IsPoc(v, i) && IsPoc(v, j)
    ensures i == j
  {
    assert v[i] <= v[j] && v[j] <= v[i];
  }

  lemma OnlyReport(levels: seq<Level>, poc: nat, ratio: real, r: VolumeProfileSnapshot)
    requires IsPoc(Volumes(levels), poc) && r == Report(levels, poc, Total(levels), ratio)
    ensures forall other, total | IsPoc(Volumes(levels), other) && total == Total(levels) ::
              r == Report(levels, other, total, ratio)
  {
    hide Report;
    forall other | IsPoc(Volumes(levels), other) ensures other == poc {
      PocUnique(Volumes(levels), other, poc);
    }
  }

  lemma {:induction false} AddAscending(levels: seq<Level>, price: real, volume: real)
    requires Ascending(levels)
    ensures var r := AddTo(levels, price, volume);
            Ascending(r) && r[0].price == if levels == [] || price < levels[0].price then price else levels[0].price
  {
    if levels == [] || price <= levels[0].price {
    } else {
      AddAscending(levels[1..], price, volume);
    }
  }

  lemma {:induction false} AddMeaning(levels: seq<Level>, price: real, volume: real, p: real)
    requires Ascending(levels)
    ensures var r := AddTo(levels, price, volume);
            && (HasPrice(r, p) <==> HasPrice(levels, p) || p == price)
            && VolumeAt(r, p) == VolumeAt(levels, p) + if p == price then volume else 0.0
  {
    var r := AddTo(levels, price, volume);
    HasPriceCons(r, p);
    HasPriceCons(levels, p);
    if levels == [] || price < levels[0].price {
      assert r[1..] == levels;
    } else if price == levels[0].price {
      assert r[1..] == levels[1..];
    } else {
      AddMeaning(levels[1..], price, volume, p);
      assert r[1..] == AddTo(levels[1..], price, volume);
    }
  }

  lemma HasPriceCons(levels: seq<Level>, p: real)
    ensures HasPrice(levels, p) <==> levels != [] && (levels[0].price == p || HasPrice(levels[1..], p))
  {
    if i :| 0 <= i < |levels| && levels[i].price == p && i > 0 {
      assert levels[1..][i - 1].price == p;
    }
  }

  lemma TotalCons(levels: seq<Level>)
    requires levels != []
    ensures Total(levels) == levels[0].volume + Total(levels[1..])
  {
    assert Volumes(levels) == [levels[0].volume] + Volumes(levels[1..]);
    SumAppend([levels[0].volume], Volumes(levels[1..]));
    SumOne(levels[0].volume);
  }

  lemma {:induction false} AddRaisesTotal(levels: seq<Level>, price: real, volume: real)
    ensures Total(AddTo(levels, price, volume)) == Total(levels) + volume
  {
    var r := AddTo(levels, price, volume);
    TotalCons(r);
    if levels == [] || price < levels[0].price {
      assert r[1..] == levels;
    } else {
      TotalCons(levels);
      if price > levels[0].price {
        AddRaisesTotal(levels[1..], price, volume);
        assert r[1..] == AddTo(levels[1..], price, volume);
      } else {
        assert r[1..] == levels[1..];
      }
    }
  }

  /** Over any list of adds: the levels are in strictly ascending price, and the total
      is the volume of all adds. */
  lemma {:induction false} ReplayConserves(adds: seq<Level>)
    ensures Ascending(Replay(adds)) && Total(Replay(adds)) == Total(adds)
  {
    if adds == [] {
    } else {
      var n := |adds| - 1;
      ReplayConserves(adds[..n]);
      AddAscending(Replay(adds[..n]), adds[n].price, adds[n].volume);
      AddRaisesTotal(Replay(adds[..n]), adds[n].price, adds[n].volume);
      TotalOfLast(adds);
    }
  }

  lemma TotalOfLast(adds: seq<Level>)
    requires adds != []
    ensures Total(adds) == Total(adds[..|adds| - 1]) + adds[|adds| - 1].volume
  {
    assert Volumes(adds)[..|adds| - 1] == Volumes(adds[..|adds| - 1]);
  }

  /** Two adds commute. */
  lemma {:induction false} AddsCommute(levels: seq<Level>, a: Level, b: Level)
    ensures AddTo(AddTo(levels, a.price, a.volume), b.price, b.volume) ==
            AddTo(AddTo(levels, b.price, b.volume), a.price, a.volume)
  {
    if levels == [] || a.price <= levels[0].price || b.price <= levels[0].price {
    } else {
      AddsCommute(levels[1..], a, b);
    }
  }

  function AddAll(levels: seq<Level>, adds: seq<Level>): seq<Level> {
    if adds == [] then levels
    else AddTo(AddAll(levels, adds[..|adds| - 1]), adds[|adds| - 1].price, adds[|adds| - 1].volume)
  }

  /** An add may move past any number of later ones. */
  lemma {:induction false} AddLast(levels: seq<Level>, x: Level, adds: seq<Level>)
    ensures AddAll(AddTo(levels, x.price, x.volume), adds) ==
            AddTo(AddAll(levels, adds), x.price, x.volume)
  {
    if adds == [] {
    } else {
      AddLast(levels, x, adds[..|adds| - 1]);
      AddsCommute(AddAll(levels, adds[..|adds| - 1]), x, adds[|adds| - 1]);
    }
  }

  lemma {:induction false} ReplayAppend(a: seq<Level>, b: seq<Level>)
    ensures Replay(a + b) == AddAll(Replay(a), b)
  {
    if b == [] {
      assert a + b == a;
    } else {
      assert (a + b)[..|a + b| - 1] == a + b[..|b| - 1];
      ReplayAppend(a, b[..|b| - 1]);
    }
  }

  lemma WithoutOne(a: seq<Level>, i: nat)
    requires i < |a|
    ensures multiset(a[..i] + a[i + 1..]) == multiset(a) - multiset{a[i]}
  {
    assert a == a[..i] + [a[i]] + a[i + 1..];
  }

  /** Order independence: the same adds in any order build the same profile, hence the
      same snapshot. */
  lemma {:induction false} OrderIrrelevant(a: seq<Level>, b: seq<Level>)
    requires multiset(a) == multiset(b)
    ensures Replay(a) == Replay(b)
  {
    assert |a| == |multiset(a)| == |multiset(b)| == |b|;
    if a == [] {
    } else {
      var n, x := |a| - 1, a[|a| - 1];
      assert a[n] in multiset(a);
      var i :| 0 <= i < |b| && b[i] == x;
      var front, back := b[..i], b[i + 1..];
      WithoutOne(a, n);
      WithoutOne(b, i);
      assert a[..n] + a[n + 1..] == a[..n] && b == (front + [x]) + back;
      OrderIrrelevant(a[..n], front + back);
      ReplayAppend(front + [x], back);
      ReplayAppend(front, back);
      assert (front + [x])[..i] == front;
      AddLast(Replay(front), x, back);
    }
  }
}
