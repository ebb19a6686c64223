/** Diagonal imbalances between the price levels of a bar. Prices are counted in ticks,
    so "one tick below" is `price - 1` and the matching tolerance is equality. */
module Footprint {
  import opened Wrappers

  datatype Direction = Long | Short

  datatype Level = Level(price: int, bidVol: int, askVol: int, isBuy: bool, isSell: bool)

  ghost predicate Ascending(levels: seq<Level>) {
    forall i, j | 0 <= i < j < |levels| :: levels[i].price < levels[j].price
  }

  ghost predicate Distinct(levels: seq<Level>) {
    forall i, j | 0 <= i < j < |levels| :: levels[i].price != levels[j].price
  }

  /** The same prices and volumes, whatever the flags. */
  ghost predicate SameVolumes(a: seq<Level>, b: seq<Level>) {
    |a| == |b| && forall i | 0 <= i < |a| ::
      a[i].price == b[i].price && a[i].bidVol == b[i].bidVol && a[i].askVol == b[i].askVol
  }

  function Flag(level: Level, d: Direction): bool {
    if d.Long? then level.isBuy else level.isSell
  }

  function Flags(levels: seq<Level>, d: Direction): (f: seq<bool>)
    ensures |f| == |levels|
    ensures forall i | 0 <= i < |f| :: f[i] == Flag(levels[i], d)
  {
    seq(|levels|, i requires 0 <= i < |levels| => Flag(levels[i], d))
  }

  /** The test that the scan makes: does the volume `strong` reach `ratio` times the opposing
      volume `weak`? */
  predicate Dominates(strong: int, weak: int, ratio: real) {
    weak > 0 && strong > 0 && strong as real >= ratio * weak as real
  }

  /** The first level at a price. */
  ghost predicate FirstAt(levels: seq<Level>, price: int, j: int) {
    && 0 <= j < |levels| && levels[j].price == price
    && forall i | 0 <= i < j :: levels[i].price != price
  }

  /** Buying: both sides of the diagonal traded, this level's ask volume and the bid volume one
      tick below, and the former is at least `ratio` times the latter. */
  ghost predicate BuyImbalance(levels: seq<Level>, i: nat, ratio: real)
    requires i < |levels|
  {
    exists j ::
      && FirstAt(levels, levels[i].price - 1, j) && levels[j].bidVol > 0 && levels[i].askVol > 0
      && levels[i].askVol as real >= ratio * levels[j].bidVol as real
  }

  /** Selling: the same of this level's bid volume and the ask volume one tick above. */
  ghost predicate SellImbalance(levels: seq<Level>, i: nat, ratio: real)
    requires i < |levels|
  {
    exists j ::
      && FirstAt(levels, levels[i].price + 1, j) && levels[j].askVol > 0 && levels[i].bidVol > 0
      && levels[i].bidVol as real >= ratio * levels[j].askVol as real
  }

  /** The imbalances by the test of the scan. */
  lemma ImbalanceTests(levels: seq<Level>, i: nat, ratio: real)
    requires i < |levels|
    ensures BuyImbalance(levels, i, ratio) <==> exists j ::
              FirstAt(levels, levels[i].price - 1, j) && Dominates(levels[i].askVol, levels[j].bidVol, ratio)
    ensures SellImbalance(levels, i, ratio) <==> exists j ::
              FirstAt(levels, levels[i].price + 1, j) && Dominates(levels[i].bidVol, levels[j].askVol, ratio)
  {
    hide FirstAt;
  }

  ghost predicate FlaggedBy(levels: seq<Level>, ratio: real) {
    forall i | 0 <= i < |levels| ::
      (levels[i].isBuy <==> BuyImbalance(levels, i, ratio)) &&
      (levels[i].isSell <==> SellImbalance(levels, i, ratio))
  }

  lemma SameImbalances(a: seq<Level>, b: seq<Level>, i: nat, ratio: real)
    requires SameVolumes(a, b) && i < |a|
    ensures BuyImbalance(a, i, ratio) == BuyImbalance(b, i, ratio)
    ensures SellImbalance(a, i, ratio) == SellImbalance(b, i, ratio)
  {
    ImbalanceTests(a, i, ratio);
    ImbalanceTests(b, i, ratio);
    hide Dominates, BuyImbalance, SellImbalance;
    forall p, j ensures FirstAt(a, p, j) == FirstAt(b, p, j) {
    }
  }

  /** The indices flagged in one direction. */
  ghost function Flagged(levels: seq<Level>, d: Direction, upto: nat): set<nat>
    requires upto <= |levels|
  {
    set i: nat | i < upto && Flag(levels[i], d)
  }

  /** `find_level` */
  method FindLevel(levels: array<Level>, price: int) returns (found: Option<nat>)
    ensures found.None? ==> forall i | 0 <= i < levels.Length :: levels[i].price != price
    ensures found.Some? ==> FirstAt(levels[..], price, found.value)
  {
    for i := 0 to levels.Length
      invariant forall j | 0 <= j < i :: levels[j].price != price
    {
      if levels[i].price == price {
        return Some(i);
      }
    }
    found := None;
  }

  /** The levels below `i` carry the right flags, and the volumes are those of `was`. */
  ghost predicate FlaggedUpTo(levels: seq<Level>, was: seq<Level>, i: nat, ratio: real)
    requires i <= |levels|
  {
    && SameVolumes(levels, was)
    && forall j | 0 <= j < i ::
         (levels[j].isBuy <==> BuyImbalance(was, j, ratio)) && (levels[j].isSell <==> SellImbalance(was, j, ratio))
  }

  /** No level is flagged against a diagonal whose other side traded nothing, or when it traded
      nothing itself on the side that is tested. */
  lemma OneSidedUnflagged(levels: seq<Level>, ratio: real, i: nat, j: nat)
    requires FlaggedBy(levels, ratio) && i < |levels| && j < |levels|
    requires Distinct(levels)
    ensures levels[j].price == levels[i].price - 1 && (levels[j].bidVol <= 0 || levels[i].askVol <= 0) ==> !levels[i].isBuy
    ensures levels[j].price == levels[i].price + 1 && (levels[j].askVol <= 0 || levels[i].bidVol <= 0) ==> !levels[i].isSell
  {
  }

  /** Sets the flags of every level and counts them; prices and volumes stay. */
  method DetectSingleImbalances(levels: array<Level>, ratio: real) returns (buyCount: nat, sellCount: nat)
    modifies levels
    ensures SameVolumes(levels[..], old(levels[..])) && FlaggedBy(levels[..], ratio)
    ensures buyCount == |Flagged(levels[..], Long, levels.Length)|
    ensures sellCount == |Flagged(levels[..], Short, levels.Length)|
  {
    buyCount, sellCount := 0, 0;
    ghost var was := levels[..];
    for i := 0 to levels.Length
      invariant Counted(levels[..], was, i, ratio, buyCount, sellCount)
    {
      buyCount, sellCount := FlagAndCount(levels, i, ratio, was, buyCount, sellCount);
    }
    AllFlagged(levels[..], was, ratio);
  }

  ghost predicate Counted(levels: seq<Level>, was: seq<Level>, i: nat, ratio: real, buys: nat, sells: nat) {
    && i <= |levels|
    && FlaggedUpTo(levels, was, i, ratio)
    && buys == |Flagged(levels, Long, i)|
    && sells == |Flagged(levels, Short, i)|
  }

  /** The body of the scan over the levels. */
  method FlagAndCount(levels: array<Level>, i: nat, ratio: real, ghost was: seq<Level>, buys: nat, sells: nat)
    returns (buyCount: nat, sellCount: nat)
    requires i < levels.Length && Counted(levels[..], was, i, ratio, buys, sells)
    modifies levels
    ensures Counted(levels[..], was, i + 1, ratio, buyCount, sellCount)
  {
    ghost var before := levels[..];
    var isBuy, isSell := FlagOne(levels, i, ratio);
    FlagOneMore(before, levels[..], was, i, isBuy, isSell, ratio);
    buyCount := if isBuy then buys + 1 else buys;
    sellCount := if isSell then sells + 1 else sells;
  }

  /** Resets and sets the two flags of one level. */
  method FlagOne(levels: array<Level>, i: nat, ratio: real) returns (isBuy: bool, isSell: bool)
    requires i < levels.Length
    modifies levels
    ensures levels[..] == old(levels[..])[i := old(levels[i]).(isBuy := isBuy, isSell := isSell)]
    ensures isBuy == BuyImbalance(old(levels[..]), i, ratio)
    ensures isSell == SellImbalance(old(levels[..]), i, ratio)
  {
    isBuy := DetectBuy(levels, i, ratio);
    isSell := DetectSell(levels, i, ratio);
    levels[i] := levels[i].(isBuy := isBuy, isSell := isSell);
  }

  lemma FlagOneMore(before: seq<Level>, after: seq<Level>, was: seq<Level>, i: nat,
                    isBuy: bool, isSell: bool, ratio: real)
    requires i < |before| && FlaggedUpTo(before, was, i, ratio)
    requires after == before[i := before[i].(isBuy := isBuy, isSell := isSell)]
    requires isBuy == BuyImbalance(before, i, ratio) && isSell == SellImbalance(before, i, ratio)
    ensures FlaggedUpTo(after, was, i + 1, ratio)
    ensures |Flagged(after, Long, i + 1)| == |Flagged(before, Long, i)| + if isBuy then 1 else 0
    ensures |Flagged(after, Short, i + 1)| == |Flagged(before, Short, i)| + if isSell then 1 else 0
  {
    SameImbalances(before, was, i, ratio);
    CountOne(before, after, Long, i);
    CountOne(before, after, Short, i);
  }

  lemma AllFlagged(levels: seq<Level>, was: seq<Level>, ratio: real)
    requires FlaggedUpTo(levels, was, |levels|, ratio)
    ensures FlaggedBy(levels, ratio)
  {
    forall j | 0 <= j < |levels|
      ensures levels[j].isBuy == BuyImbalance(levels, j, ratio)
      ensures levels[j].isSell == SellImbalance(levels, j, ratio)
    {
      SameImbalances(levels, was, j, ratio);
    }
  }

  lemma CountOne(before: seq<Level>, after: seq<Level>, d: Direction, i: nat)
    requires |before| == |after| && i < |after|
    requires forall j | 0 <= j < i :: after[j] == before[j]
    ensures |Flagged(after, d, i + 1)| == |Flagged(before, d, i)| + if Flag(after[i], d) then 1 else 0
  {
    assert Flagged(after, d, i + 1) ==
           Flagged(before, d, i) + (if Flag(after[i], d) then {i} else {});
  }

  method DetectBuy(levels: array<Level>, i: nat, ratio: real) returns (flag: bool)
    requires i < levels.Length
    ensures flag == BuyImbalance(levels[..], i, ratio)
  {
    ImbalanceTests(levels[..], i, ratio);
    hide Dominates, BuyImbalance;
    var below := FindLevel(levels, levels[i].price - 1);
    flag := below.Some? && Dominates(levels[i].askVol, levels[below.value].bidVol, ratio);
    if below.Some? {
      FirstUnique(levels[..], levels[i].price - 1, below.value);
    }
  }

  method DetectSell(levels: array<Level>, i: nat, ratio: real) returns (flag: bool)
    requires i < levels.Length
    ensures flag == SellImbalance(levels[..], i, ratio)
  {
    ImbalanceTests(levels[..], i, ratio);
    hide Dominates, SellImbalance;
    var above := FindLevel(levels, levels[i].price + 1);
    flag := above.Some? && Dominates(levels[i].bidVol, levels[above.value].askVol, ratio);
    if above.Some? {
      FirstUnique(levels[..], levels[i].price + 1, above.value);
    }
  }

  lemma FirstUnique(levels: seq<Level>, price: int, j: int)
    requires FirstAt(levels, price, j)
    ensures forall i | FirstAt(levels, price, i) :: i == j
  {
  }

  /** The two sides of one diagonal cannot both dominate when the ratio exceeds one. */
  lemma OneSideDominates(a: int, b: int, ratio: real)
    requires ratio > 1.0 && Dominates(a, b, ratio)
    ensures !Dominates(b, a, ratio)
  {
    NotBoth(a as real, b as real, ratio);
  }

  lemma NotBoth(x: real, y: real, ratio: real)
    requires ratio > 1.0 && x > 0.0 && y > 0.0 && x >= ratio * y
    ensures y < ratio * x
  {
    var ry, rx := ratio * y, ratio * x;
    Amplifies(y, ratio);
    Amplifies(x, ratio);
    assert y < ry <= x < rx;
  }

  lemma Amplifies(x: real, ratio: real)
    requires x > 0.0 && ratio > 1.0
    ensures ratio * x > x
  {
    assert (ratio - 1.0) * x > 0.0;
  }

  /** The level one tick above a selling flag, which dominates it. */
  ghost function Above(levels: seq<Level>, i: nat, ratio: real): (j: nat)
    requires i < |levels| && SellImbalance(levels, i, ratio)
    ensures j < |levels| && levels[j].price == levels[i].price + 1
    ensures Dominates(levels[i].bidVol, levels[j].askVol, ratio)
  {
    ImbalanceTests(levels, i, ratio);
    var j :| FirstAt(levels, levels[i].price + 1, j) && Dominates(levels[i].bidVol, levels[j].askVol, ratio);
    j
  }

  /** `f` sends each selling flag to the level above it, where its diagonal starts. */
  ghost predicate Targets(levels: seq<Level>, ratio: real, f: map<nat, nat>) {
    && f.Keys == Flagged(levels, Short, |levels|)
    && forall i | i in f ::
         && f[i] < |levels| && levels[f[i]].price == levels[i].price + 1
         && Dominates(levels[i].bidVol, levels[f[i]].askVol, ratio)
  }

  lemma SellTargets(levels: seq<Level>, ratio: real) returns (f: map<nat, nat>)
    requires FlaggedBy(levels, ratio)
    ensures Targets(levels, ratio, f)
  {
    f := map i | i in Flagged(levels, Short, |levels|) :: Above(levels, i, ratio);
  }

  lemma {:induction false} InjectiveImage(s: set<nat>, f: map<nat, nat>, t: set<nat>)
    requires s <= f.Keys && (forall i | i in s :: f[i] in t)
    requires forall i, j | i in s && j in s && f[i] == f[j] :: i == j
    ensures |s| <= |t|
  {
    if s == {} {
    } else {
      var x :| x in s;
      InjectiveImage(s - {x}, f, t - {f[x]});
    }
  }

  /** The lowest level compares with nothing below it. */
  lemma {:induction false} LowestIndex(levels: seq<Level>) returns (m: nat)
    requires levels != []
    ensures m < |levels| && forall i | 0 <= i < |levels| :: levels[m].price <= levels[i].price
  {
    if |levels| == 1 {
      m := 0;
    } else {
      var n := LowestIndex(levels[..|levels| - 1]);
      m := if levels[n].price <= levels[|levels| - 1].price then n else |levels| - 1;
    }
  }

  /** Buying and selling flags that compare the same diagonal exclude each other. */
  lemma DiagonalsDisjoint(levels: seq<Level>, ratio: real, i: nat, j: nat)
    requires ratio > 1.0 && Distinct(levels) && FlaggedBy(levels, ratio)
    requires i < |levels| && j < |levels| && levels[i].isBuy && levels[j].isSell
    ensures levels[i].price != levels[j].price + 1
  {
    ImbalanceTests(levels, i, ratio);
    ImbalanceTests(levels, j, ratio);
    hide Dominates, BuyImbalance, SellImbalance;
    if levels[i].price == levels[j].price + 1 {
      var l :| FirstAt(levels, levels[i].price - 1, l) && Dominates(levels[i].askVol, levels[l].bidVol, ratio);
      var h :| FirstAt(levels, levels[j].price + 1, h) && Dominates(levels[j].bidVol, levels[h].askVol, ratio);
      assert l == j && h == i;
      OneSideDominates(levels[i].askVol, levels[j].bidVol, ratio);
    }
  }

  ghost function Range(n: nat): (r: set<nat>)
    ensures |r| == n && forall i: nat :: i in r <==> i < n
  {
    if n == 0 then {} else Range(n - 1) + {n - 1}
  }

  lemma DisjointCount(a: set<nat>, b: set<nat>, t: set<nat>)
    requires a !! b && a + b <= t
    ensures |a| + |b| <= |t|
  {
    assert |a + b| == |a| + |b|;
    InjectiveImage(a + b, map i | i in a + b :: i, t);
  }

  /** Each selling flag has a diagonal of its own. */
  lemma TargetsCount(levels: seq<Level>, ratio: real, f: map<nat, nat>)
    requires Distinct(levels) && Targets(levels, ratio, f)
    ensures |f.Keys| <= |f.Values|
  {
    forall i, j | i in f && j in f && f[i] == f[j] ensures i == j {
      assert levels[i].price == levels[f[i]].price - 1 == levels[j].price;
    }
    InjectiveImage(f.Keys, f, f.Values);
  }

  lemma FlagsUseDistinctDiagonals(levels: seq<Level>, ratio: real, f: map<nat, nat>)
    requires ratio > 1.0 && Distinct(levels) && FlaggedBy(levels, ratio) && Targets(levels, ratio, f)
    ensures Flagged(levels, Long, |levels|) !! f.Values
  {
    forall i | i in Flagged(levels, Long, |levels|) ensures i !in f.Values {
      if i in f.Values {
        var j :| j in f && f[j] == i;
        DiagonalsDisjoint(levels, ratio, i, j);
      }
    }
  }

  /** No diagonal starts at the lowest level. */
  lemma NoDiagonalAtLowest(levels: seq<Level>, ratio: real, f: map<nat, nat>, m: nat)
    requires FlaggedBy(levels, ratio) && Targets(levels, ratio, f)
    requires m < |levels| && forall l | 0 <= l < |levels| :: levels[m].price <= levels[l].price
    ensures Flagged(levels, Long, |levels|) + f.Values <= Range(|levels|) - {m}
  {
    hide Dominates, BuyImbalance, SellImbalance;
    forall i | i in Flagged(levels, Long, |levels|) ensures i != m {
      ImbalanceTests(levels, i, ratio);
      var l :| FirstAt(levels, levels[i].price - 1, l) && Dominates(levels[i].askVol, levels[l].bidVol, ratio);
      assert levels[m].price <= levels[l].price;
    }
    forall j | j in f.Values ensures j < |levels| && j != m {
      var i :| i in f && f[i] == j;
      assert levels[m].price <= levels[i].price;
    }
  }

  /** At most one imbalance per diagonal: for a ratio above one and distinct prices the
      flags number less than the levels. */
  lemma FewerFlagsThanLevels(levels: seq<Level>, ratio: real)
    requires ratio > 1.0 && Distinct(levels) && FlaggedBy(levels, ratio)
    ensures |Flagged(levels, Long, |levels|)| + |Flagged(levels, Short, |levels|)| <=
            if levels == [] then 0 else |levels| - 1
  {
    hide Dominates, BuyImbalance, SellImbalance;
    if levels == [] {
      return;
    }
    var f := SellTargets(levels, ratio);
    var buys, moved := Flagged(levels, Long, |levels|), f.Values;
    TargetsCount(levels, ratio, f);
    FlagsUseDistinctDiagonals(levels, ratio, f);
    var m := LowestIndex(levels);
    NoDiagonalAtLowest(levels, ratio, f, m);
    DisjointCount(buys, moved, Range(|levels|) - {m});
  }
}
