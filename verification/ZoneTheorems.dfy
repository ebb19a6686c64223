/** What handling the stacks of a bar, resolving zones, and any sequence of the two does
    to the registry. */
module ZoneTheorems {
  import opened Footprint
  import opened Runs
  import opened Zones

  // ---------------------------------------------------------------------------
  // The stacks of a bar

  /** A stack comes from a run of flags that is maximal and long enough. */
  lemma StacksAreRuns(levels: seq<Level>, min: nat, s: Stack)
    requires 1 <= min
    ensures s in Stacks(levels, min) <==>
            exists r :: IsMaximal(Flags(levels, s.direction), r) && r.end - r.start >= min
                        && s == StackOf(levels, s.direction, r)
  {
    StacksInExact(levels, min, Long, s);
    StacksInExact(levels, min, Short, s);
  }

  /** The stack `s` is what the levels from `first` to `last` show: all of them bear the flag of
      its direction, the next ones below and above do not, and there are at least `min`. */
  ghost predicate StackAt(levels: seq<Level>, min: nat, s: Stack, first: nat, last: nat) {
    && first <= last < |levels| && s.low == levels[first].price && s.high == levels[last].price
    && s.count == last - first + 1 >= min
    && (s.direction.Long? ==>
          && (forall k | first <= k <= last :: levels[k].isBuy)
          && (first == 0 || !levels[first - 1].isBuy) && (last + 1 == |levels| || !levels[last + 1].isBuy))
    && (s.direction.Short? ==>
          && (forall k | first <= k <= last :: levels[k].isSell)
          && (first == 0 || !levels[first - 1].isSell) && (last + 1 == |levels| || !levels[last + 1].isSell))
  }

  lemma RunIsStack(levels: seq<Level>, min: nat, s: Stack, r: Run)
    requires 1 <= min && r.start < r.end
    ensures IsMaximal(Flags(levels, s.direction), r) && r.end - r.start >= min && s == StackOf(levels, s.direction, r)
            <==> StackAt(levels, min, s, r.start, r.end - 1)
  {
    var flags := Flags(levels, s.direction);
    if r.end <= |levels| {
      assert forall k | r.start <= k < r.end :: flags[k] == Flag(levels[k], s.direction);
    }
  }

  lemma StackIsAt(levels: seq<Level>, min: nat, s: Stack) returns (first: nat, last: nat)
    requires 1 <= min && s in Stacks(levels, min)
    ensures StackAt(levels, min, s, first, last)
  {
    hide Stacks, Flags, StackAt, StackOf;
    StacksAreRuns(levels, min, s);
    var r :| IsMaximal(Flags(levels, s.direction), r) && r.end - r.start >= min && s == StackOf(levels, s.direction, r);
    RunIsStack(levels, min, s, r);
    first, last := r.start, r.end - 1;
  }

  lemma AtIsStack(levels: seq<Level>, min: nat, s: Stack, first: nat, last: nat)
    requires 1 <= min && StackAt(levels, min, s, first, last)
    ensures s in Stacks(levels, min)
  {
    hide *;
    FirstToLast(levels, min, s, first, last);
    RunIsStack(levels, min, s, Run(first, last + 1));
    StacksAreRuns(levels, min, s);
  }

  /** The stacks that are handled are exactly the maximal runs of at least `min` flags. */
  lemma StacksExact(levels: seq<Level>, min: nat, s: Stack)
    requires 1 <= min
    ensures s in Stacks(levels, min) <==> exists first: nat, last: nat :: StackAt(levels, min, s, first, last)
  {
    hide *;
    if s in Stacks(levels, min) {
      var first, last := StackIsAt(levels, min, s);
    }
    if first: nat, last: nat :| StackAt(levels, min, s, first, last) {
      AtIsStack(levels, min, s, first, last);
    }
  }

  lemma FirstToLast(levels: seq<Level>, min: nat, s: Stack, first: nat, last: nat)
    requires StackAt(levels, min, s, first, last)
    ensures first <= last < |levels|
  {}

  lemma StacksInExact(levels: seq<Level>, min: nat, d: Direction, s: Stack)
    requires 1 <= min
    ensures s in StacksIn(levels, min, d) <==>
            s.direction == d &&
            exists r :: IsMaximal(Flags(levels, d), r) && r.end - r.start >= min && s == StackOf(levels, d, r)
  {
    hide Flags, All;
    var runs := All(Flags(levels, d), min);
    ScanExact(Flags(levels, d), min);
    if s in StacksIn(levels, min, d) {
      var k :| 0 <= k < |runs| && StacksIn(levels, min, d)[k] == s;
      assert runs[k] in runs;
    }
    forall r | IsMaximal(Flags(levels, d), r) && r.end - r.start >= min && s == StackOf(levels, d, r)
      ensures s in StacksIn(levels, min, d)
    {
      var k :| 0 <= k < |runs| && runs[k] == r;
      assert StacksIn(levels, min, d)[k] == s;
    }
  }

  /** On ascending levels no two stacks of a bar share a direction and a key. */
  lemma StacksDistinct(levels: seq<Level>, min: nat)
    requires 1 <= min && Ascending(levels)
    ensures DistinctStacks(Stacks(levels, min))
  {
    StacksInDistinct(levels, min, Long);
    StacksInDistinct(levels, min, Short);
    var a, b := StacksIn(levels, min, Long), StacksIn(levels, min, Short);
    forall k | 0 <= k < |a| ensures a[k].direction == Long {
      StacksInExact(levels, min, Long, a[k]);
    }
    forall k | 0 <= k < |b| ensures b[k].direction == Short {
      StacksInExact(levels, min, Short, b[k]);
    }
  }

  lemma StacksInDistinct(levels: seq<Level>, min: nat, d: Direction)
    requires 1 <= min && Ascending(levels)
    ensures DistinctStacks(StacksIn(levels, min, d))
  {
    var flags := Flags(levels, d);
    var runs, stacks := All(flags, min), StacksIn(levels, min, d);
    ScanExact(flags, min);
    forall k, l | 0 <= k < l < |stacks|
      ensures Key(d, stacks[k].low, stacks[k].high) < Key(d, stacks[l].low, stacks[l].high)
    {
      assert IsMaximal(flags, runs[k]) && IsMaximal(flags, runs[l]) by {
        assert runs[k] in runs && runs[l] in runs;
      }
      assert runs[k].end < runs[l].start;
    }
  }

  /** Buying stacks come before selling ones, and each kind in ascending price. */
  ghost predicate Before(s: Stack, t: Stack) {
    if s.direction == t.direction then s.low < t.low && s.high < t.high else s.direction.Long?
  }

  ghost predicate InOrder(stacks: seq<Stack>) {
    forall k, l | 0 <= k < l < |stacks| :: Before(stacks[k], stacks[l])
  }

  lemma StacksInInOrder(levels: seq<Level>, min: nat, d: Direction)
    requires 1 <= min && Ascending(levels)
    ensures InOrder(StacksIn(levels, min, d))
    ensures forall k | 0 <= k < |StacksIn(levels, min, d)| :: StacksIn(levels, min, d)[k].direction == d
  {
    var flags := Flags(levels, d);
    var runs, stacks := All(flags, min), StacksIn(levels, min, d);
    ScanExact(flags, min);
    forall k, l | 0 <= k < l < |stacks| ensures Before(stacks[k], stacks[l]) {
      assert runs[k] in runs && runs[l] in runs && runs[k].end < runs[l].start;
    }
  }

  lemma StacksInOrder(levels: seq<Level>, min: nat)
    requires 1 <= min && Ascending(levels)
    ensures InOrder(Stacks(levels, min))
  {
    StacksInInOrder(levels, min, Long);
    StacksInInOrder(levels, min, Short);
    hide StacksIn;
  }

  lemma {:induction false} FreshInOrder(zones: seq<Zone>, stacks: seq<Stack>)
    requires InOrder(stacks)
    ensures InOrder(Fresh(zones, stacks))
  {
    if stacks == [] {
    } else {
      var n := |stacks| - 1;
      var unseen := Fresh(zones, stacks[..n]);
      FreshInOrder(zones, stacks[..n]);
      FreshAmong(zones, stacks[..n]);
      forall k | 0 <= k < |unseen| ensures Before(unseen[k], stacks[n]) {
        assert unseen[k] in stacks[..n];
      }
    }
  }

  /** The level a flag compares with is its neighbour in the list. */
  ghost predicate Neighbours(levels: seq<Level>) {
    && (forall i | 0 <= i < |levels| && levels[i].isBuy :: i > 0 && levels[i - 1].price == levels[i].price - 1)
    && (forall i | 0 <= i < |levels| && levels[i].isSell ::
          i + 1 < |levels| && levels[i + 1].price == levels[i].price + 1)
  }

  lemma FlagsHaveNeighbours(levels: seq<Level>, ratio: real)
    requires Ascending(levels) && FlaggedBy(levels, ratio)
    ensures Neighbours(levels)
  {
    hide Dominates, BuyImbalance, SellImbalance;
    forall i | 0 <= i < |levels| && levels[i].isBuy
      ensures i > 0 && levels[i - 1].price == levels[i].price - 1
    {
      ImbalanceTests(levels, i, ratio);
      var j :| FirstAt(levels, levels[i].price - 1, j) && Dominates(levels[i].askVol, levels[j].bidVol, ratio);
      assert j < i;
    }
    forall i | 0 <= i < |levels| && levels[i].isSell
      ensures i + 1 < |levels| && levels[i + 1].price == levels[i].price + 1
    {
      ImbalanceTests(levels, i, ratio);
      var j :| FirstAt(levels, levels[i].price + 1, j) && Dominates(levels[i].bidVol, levels[j].askVol, ratio);
      assert i < j;
    }
  }

  /** A run of flags covers consecutive prices. */
  lemma {:induction false} RunContiguous(levels: seq<Level>, d: Direction, i: nat, j: nat)
    requires Neighbours(levels) && i <= j < |levels|
    requires forall k | i <= k <= j :: Flag(levels[k], d)
    ensures levels[j].price - levels[i].price == j - i
    decreases j - i
  {
    if i == j {
    } else {
      RunContiguous(levels, d, i, j - 1);
      assert Flag(levels[j], d) && Flag(levels[j - 1], d);
    }
  }

  /** The width of a zone is its number of imbalances less one. */
  ghost predicate Spans(low: int, high: int, count: int) {
    high - low == count - 1
  }

  lemma StackRun(levels: seq<Level>, min: nat, s: Stack) returns (r: Run)
    requires 1 <= min && s in Stacks(levels, min)
    ensures r.start < r.end <= |levels| && s == StackOf(levels, s.direction, r)
    ensures forall k | r.start <= k < r.end :: Flag(levels[k], s.direction)
  {
    StacksAreRuns(levels, min, s);
    var flags := Flags(levels, s.direction);
    r :| IsMaximal(flags, r) && r.end - r.start >= min && s == StackOf(levels, s.direction, r);
    forall k | r.start <= k < r.end ensures Flag(levels[k], s.direction) {
      assert flags[k];
    }
  }

  lemma StackSpans(levels: seq<Level>, min: nat, s: Stack)
    requires 1 <= min && Neighbours(levels) && s in Stacks(levels, min)
    ensures Spans(s.low, s.high, s.count)
  {
    var r := StackRun(levels, min, s);
    RunContiguous(levels, s.direction, r.start, r.end - 1);
  }

  // ---------------------------------------------------------------------------
  // One call of the stacked detection

  lemma {:induction false} MergeMatched(z: Zone, stacks: seq<Stack>, k: nat, ts: int)
    requires k < |stacks| && Matches(z, stacks[k]) && DistinctStacks(stacks)
    ensures Merge(z, stacks, ts) == Extend(z, stacks[k], ts)
  {
    var n := |stacks| - 1;
    if k == n {
      MergeKeepsKey(z, stacks[..n], ts);
    } else {
      MergeMatched(z, stacks[..n], k, ts);
    }
  }

  lemma {:induction false} FreshDistinct(zones: seq<Zone>, stacks: seq<Stack>)
    requires DistinctStacks(stacks)
    ensures DistinctStacks(Fresh(zones, stacks))
  {
    if stacks == [] {
    } else {
      var n := |stacks| - 1;
      var unseen := Fresh(zones, stacks[..n]);
      FreshDistinct(zones, stacks[..n]);
      FreshAmong(zones, stacks[..n]);
      forall k | 0 <= k < |unseen| && unseen[k].direction == stacks[n].direction
        ensures Key(unseen[k].direction, unseen[k].low, unseen[k].high) !=
                Key(stacks[n].direction, stacks[n].low, stacks[n].high)
      {
        assert unseen[k] in stacks[..n];
      }
    }
  }

  /** Handling stacks keeps the active zones apart. */
  lemma ClosedUnique(zones: seq<Zone>, stacks: seq<Stack>, ts: int)
    requires DistinctStacks(stacks) && UniqueActive(zones)
    ensures UniqueActive(Closed(zones, stacks, ts))
  {
    var c, unseen, n := Closed(zones, stacks, ts), Fresh(zones, stacks), |zones|;
    FreshDistinct(zones, stacks);
    FreshAmong(zones, stacks);
    forall i | 0 <= i < n
      ensures c[i].active == zones[i].active && c[i].direction == zones[i].direction
      ensures Key(c[i].direction, c[i].low, c[i].high) == Key(zones[i].direction, zones[i].low, zones[i].high)
    {
      MergeKeepsKey(zones[i], stacks, ts);
    }
    forall i, j | 0 <= i < n <= j < |c| && c[i].active && c[i].direction == c[j].direction
      ensures Key(c[i].direction, c[i].low, c[i].high) != Key(c[j].direction, c[j].low, c[j].high)
    {
      var s := unseen[j - n];
      assert s in unseen;
      assert !Matches(zones[i], s);
    }
    forall i, j | n <= i < j < |c| && c[i].direction == c[j].direction
      ensures Key(c[i].direction, c[i].low, c[i].high) != Key(c[j].direction, c[j].low, c[j].high)
    {
      assert c[i] == NewZone(unseen[i - n], ts) && c[j] == NewZone(unseen[j - n], ts);
    }
  }

  ghost predicate Shows(z: Zone, s: Stack) {
    z.active && z.direction == s.direction && z.low == s.low && z.high == s.high && z.count == s.count
  }

  /** Every stack ends up shown by a zone of the registry. */
  lemma StackShown(zones: seq<Zone>, stacks: seq<Stack>, ts: int, s: Stack) returns (i: nat)
    requires DistinctStacks(stacks) && UniqueActive(zones) && s in stacks
    ensures i < |Closed(zones, stacks, ts)| && Shows(Closed(zones, stacks, ts)[i], s)
    ensures Closed(zones, stacks, ts)[i].updatedTs == ts
    ensures i >= |zones| <==> FindMatch(zones, s, 0) == |zones|
  {
    i := FindMatch(zones, s, 0);
    if i < |zones| {
      var k :| 0 <= k < |stacks| && stacks[k] == s;
      MergeMatched(zones[i], stacks, k, ts);
    } else {
      FreshAmong(zones, stacks);
      var k :| 0 <= k < |Fresh(zones, stacks)| && Fresh(zones, stacks)[k] == s;
      i := |zones| + k;
    }
  }

  /** Exactly one zone shows the stack, and it bears the stamp. */
  ghost predicate ShownOnce(zones: seq<Zone>, s: Stack, ts: int) {
    exists i ::
      && 0 <= i < |zones| && Shows(zones[i], s) && zones[i].updatedTs == ts
      && forall j | 0 <= j < |zones| && Shows(zones[j], s) :: j == i
  }

  ghost predicate Untouched(z: Zone, stacks: seq<Stack>) {
    forall s | s in stacks :: !Matches(z, s)
  }

  /** The active zone `z` is the one that the stack `s` continues: of the same direction, with
      the same low for a buying and the same high for a selling stack. */
  ghost predicate Continued(z: Zone, s: Stack) {
    && z.active && z.direction == s.direction
    && (s.direction.Long? ==> z.low == s.low) && (s.direction.Short? ==> z.high == s.high)
  }

  lemma MatchesIsContinued(z: Zone, s: Stack)
    ensures Matches(z, s) <==> Continued(z, s)
  {}

  /** One stacked detection on ascending levels, exactly: a zone that no stack continues is
      unchanged; a zone that a stack continues takes over its prices, its count and the
      stamp, and keeps the stamp of its creation; each stack that continues no zone is
      signalled and becomes a new zone at the end, buying before selling ones and each
      kind in ascending price; and afterwards each stack is shown by exactly one zone. */
  lemma DetectStackedExact(zones: seq<Zone>, levels: seq<Level>, min: nat, ts: int)
    requires 1 <= min && Ascending(levels) && UniqueActive(zones)
    ensures var stacks := Stacks(levels, min);
            var (after, signals) := ApplyAll(zones, stacks, ts);
            && UniqueActive(after)
            && (forall s | s in stacks :: ShownOnce(after, s, ts))
            && |after| == |zones| + |signals|
            && (forall i | 0 <= i < |zones| && (forall s | s in stacks :: !Continued(zones[i], s)) :: after[i] == zones[i])
            && (forall i, s | 0 <= i < |zones| && s in stacks && Continued(zones[i], s) ::
                  after[i] == Zone(s.direction, s.low, s.high, s.count, zones[i].createdTs, ts, zones[i].resolvedTs, true))
            && (forall i | 0 <= i < |signals| ::
                  var s := signals[i];
                  after[|zones| + i] == Zone(s.direction, s.low, s.high, s.count, ts, ts, 0, true))
            && (forall s :: s in signals <==> s in stacks && forall i | 0 <= i < |zones| :: !Continued(zones[i], s))
            && InOrder(signals)
  {
    var stacks := Stacks(levels, min);
    var (after, signals) := ApplyAll(zones, stacks, ts);
    StacksDistinct(levels, min);
    StacksInOrder(levels, min);
    ApplyAllClosed(zones, stacks, ts);
    ClosedUnique(zones, stacks, ts);
    FreshInOrder(zones, stacks);
    hide Stacks, ApplyAll, Fresh, Merge, Extend, UniqueActive, DistinctStacks, InOrder, FindMatch, Shows;
    forall s | s in stacks ensures ShownOnce(after, s, ts) {
      ShownByOne(zones, stacks, ts, s);
    }
    forall i | 0 <= i < |zones| && forall s | s in stacks :: !Continued(zones[i], s) ensures after[i] == zones[i] {
      forall s | s in stacks ensures !Matches(zones[i], s) {
        MatchesIsContinued(zones[i], s);
      }
      MergeKeepsKey(zones[i], stacks, ts);
    }
    forall i, s | 0 <= i < |zones| && s in stacks && Continued(zones[i], s)
      ensures after[i] == Zone(s.direction, s.low, s.high, s.count, zones[i].createdTs, ts, zones[i].resolvedTs, true)
    {
      ContinuedBy(zones[i], stacks, s, ts);
    }
    forall s ensures s in signals <==> s in stacks && forall i | 0 <= i < |zones| :: !Continued(zones[i], s) {
      Signalled(zones, stacks, s);
    }
    NewZonesOf(zones, stacks, ts);
  }

  lemma ShownByOne(zones: seq<Zone>, stacks: seq<Stack>, ts: int, s: Stack)
    requires DistinctStacks(stacks) && UniqueActive(zones) && s in stacks
    requires UniqueActive(Closed(zones, stacks, ts))
    ensures ShownOnce(Closed(zones, stacks, ts), s, ts)
  {
    var after := Closed(zones, stacks, ts);
    var i := StackShown(zones, stacks, ts, s);
    assert Shows(after[i], s);
  }

  lemma ContinuedBy(z: Zone, stacks: seq<Stack>, s: Stack, ts: int)
    requires DistinctStacks(stacks) && s in stacks && Continued(z, s)
    ensures Merge(z, stacks, ts) == Zone(s.direction, s.low, s.high, s.count, z.createdTs, ts, z.resolvedTs, true)
  {
    var k :| 0 <= k < |stacks| && stacks[k] == s;
    MatchesIsContinued(z, s);
    MergeMatched(z, stacks, k, ts);
  }

  lemma Signalled(zones: seq<Zone>, stacks: seq<Stack>, s: Stack)
    ensures s in Fresh(zones, stacks) <==> s in stacks && forall i | 0 <= i < |zones| :: !Continued(zones[i], s)
  {
    FreshAmong(zones, stacks);
    forall i | 0 <= i < |zones| ensures Matches(zones[i], s) <==> Continued(zones[i], s) {
      MatchesIsContinued(zones[i], s);
    }
    hide Matches, Continued;
    assert FindMatch(zones, s, 0) == |zones| <==> forall i | 0 <= i < |zones| :: !Matches(zones[i], s);
  }

  lemma NewZonesOf(zones: seq<Zone>, stacks: seq<Stack>, ts: int)
    ensures var after, signals := Closed(zones, stacks, ts), Fresh(zones, stacks);
            && |after| == |zones| + |signals|
            && forall i | 0 <= i < |signals| ::
                 var s := signals[i];
                 after[|zones| + i] == Zone(s.direction, s.low, s.high, s.count, ts, ts, 0, true)
  {}

  // ---------------------------------------------------------------------------
  // Any sequence of calls

  /** A minimum count. */
  type Positive = n: nat | 1 <= n witness 1

  /** One call on the registry: the stacked detection on the levels of a bar, with the ratio
      and the minimum count configured at that moment, or the resolution of zones by a
      bar. */
  datatype Call =
    | DetectStacks(levels: seq<Level>, ratio: real, min: Positive, ts: int)
    | ResolveZones(bar: Bar)

  /** The levels of each detection were sorted and flagged. */
  ghost predicate Sane(calls: seq<Call>) {
    forall i | 0 <= i < |calls| && calls[i].DetectStacks? ::
      Ascending(calls[i].levels) && FlaggedBy(calls[i].levels, calls[i].ratio)
  }

  function Step(zones: seq<Zone>, c: Call): seq<Zone> {
    match c
    case DetectStacks(levels, _, min, ts) => ApplyAll(zones, Stacks(levels, min), ts).0
    case ResolveZones(bar) => ResolveAll(zones, bar)
  }

  function Replay(calls: seq<Call>): seq<Zone> {
    if calls == [] then [] else Step(Replay(calls[..|calls| - 1]), calls[|calls| - 1])
  }

  ghost predicate AllSpan(zones: seq<Zone>) {
    forall i | 0 <= i < |zones| :: Spans(zones[i].low, zones[i].high, zones[i].count)
  }

  lemma {:induction false} MergeSpans(z: Zone, stacks: seq<Stack>, ts: int)
    requires DistinctStacks(stacks) && Spans(z.low, z.high, z.count)
    requires forall s | s in stacks :: Spans(s.low, s.high, s.count)
    ensures var m := Merge(z, stacks, ts); Spans(m.low, m.high, m.count)
  {
    if k :| 0 <= k < |stacks| && Matches(z, stacks[k]) {
      MergeMatched(z, stacks, k, ts);
      assert stacks[k] in stacks;
    } else {
      MergeKeepsKey(z, stacks, ts);
    }
  }

  lemma StepKeeps(zones: seq<Zone>, c: Call)
    requires UniqueActive(zones) && AllSpan(zones)
    requires c.DetectStacks? ==> Ascending(c.levels) && FlaggedBy(c.levels, c.ratio)
    ensures UniqueActive(Step(zones, c)) && AllSpan(Step(zones, c))
  {
    match c
    case ResolveZones(bar) =>
    case DetectStacks(levels, ratio, min, ts) =>
      var stacks := Stacks(levels, min);
      StacksDistinct(levels, min);
      FlagsHaveNeighbours(levels, ratio);
      ApplyAllClosed(zones, stacks, ts);
      ClosedUnique(zones, stacks, ts);
      FreshAmong(zones, stacks);
      forall s | s in stacks ensures Spans(s.low, s.high, s.count) {
        StackSpans(levels, min, s);
      }
      var after := Step(zones, c);
      forall i | 0 <= i < |after| ensures Spans(after[i].low, after[i].high, after[i].count) {
        if i < |zones| {
          MergeSpans(zones[i], stacks, ts);
        } else {
          assert Fresh(zones, stacks)[i - |zones|] in stacks;
        }
      }
  }

  /** Over any sequence of calls, reconfigured in between or not: active buying zones differ
      in their low, active selling zones in their high, and every zone spans its number
      of imbalances. */
  lemma {:induction false} RegistryInvariant(calls: seq<Call>)
    requires Sane(calls)
    ensures var zones := Replay(calls);
            && (forall i, j | 0 <= i < j < |zones| && zones[i].active && zones[j].active ::
                  && (zones[i].direction.Long? && zones[j].direction.Long? ==> zones[i].low != zones[j].low)
                  && (zones[i].direction.Short? && zones[j].direction.Short? ==> zones[i].high != zones[j].high))
            && (forall i | 0 <= i < |zones| :: zones[i].high - zones[i].low == zones[i].count - 1)
    ensures UniqueActive(Replay(calls)) && AllSpan(Replay(calls))
  {
    if calls == [] {
    } else {
      var n := |calls| - 1;
      RegistryInvariant(calls[..n]);
      StepKeeps(Replay(calls[..n]), calls[n]);
    }
  }

  /** `later` continues `earlier`: zones keep their place, direction and creation time,
      and a resolved zone is final. */
  ghost predicate Continues(earlier: seq<Zone>, later: seq<Zone>) {
    |earlier| <= |later| && forall i | 0 <= i < |earlier| ::
      && (!earlier[i].active ==> later[i] == earlier[i])
      && later[i].direction == earlier[i].direction && later[i].createdTs == earlier[i].createdTs
  }

  lemma {:induction false} ApplyAllContinues(zones: seq<Zone>, stacks: seq<Stack>, ts: int)
    ensures Continues(zones, ApplyAll(zones, stacks, ts).0)
  {
    if stacks == [] {
    } else {
      ApplyAllContinues(zones, stacks[..|stacks| - 1], ts);
    }
  }

  /** A resolved zone never becomes active again and never changes, whatever is called
      and whatever the levels are. */
  lemma {:induction false} ResolvedIsFinal(calls: seq<Call>, k: nat)
    requires k <= |calls|
    ensures Continues(Replay(calls[..k]), Replay(calls))
    decreases |calls|
  {
    var n := |calls| - 1;
    if k == |calls| {
      assert calls[..k] == calls;
    } else {
      ResolvedIsFinal(calls[..n], k);
      assert calls[..n][..k] == calls[..k];
      if calls[n].DetectStacks? {
        ApplyAllContinues(Replay(calls[..n]), Stacks(calls[n].levels, calls[n].min), calls[n].ts);
      }
    }
  }

  /** An active zone bears no stamp of resolution; a resolved one bears the stamp of a
      bar that was given to the registry and traded through it. */
  ghost predicate Explained(z: Zone, calls: seq<Call>) {
    if z.active then z.resolvedTs == 0
    else exists k :: 0 <= k < |calls| && ResolvedBy(z, calls[k])
  }

  ghost predicate ResolvedBy(z: Zone, c: Call) {
    c.ResolveZones? && Through(c.bar, z) && z.resolvedTs == c.bar.closeTs
  }

  ghost predicate AllExplained(zones: seq<Zone>, calls: seq<Call>) {
    forall i | 0 <= i < |zones| :: Explained(zones[i], calls)
  }

  lemma ExplainedLater(z: Zone, calls: seq<Call>, c: Call)
    requires Explained(z, calls)
    ensures Explained(z, calls + [c])
  {
    if !z.active {
      var k :| 0 <= k < |calls| && ResolvedBy(z, calls[k]);
      assert ResolvedBy(z, (calls + [c])[k]);
    }
  }

  lemma StackExplained(zones: seq<Zone>, s: Stack, ts: int, calls: seq<Call>)
    requires AllExplained(zones, calls)
    ensures AllExplained(Apply(zones, s, ts).0, calls)
  {
    var j, after := FindMatch(zones, s, 0), Apply(zones, s, ts).0;
    assert j < |zones| ==> zones[j].active && after[j].active && after[j].resolvedTs == zones[j].resolvedTs;
    forall i | 0 <= i < |after| ensures Explained(after[i], calls) {
      if i < |zones| && i != j {
        assert after[i] == zones[i];
      }
    }
  }

  lemma {:induction false} StacksExplained(zones: seq<Zone>, stacks: seq<Stack>, ts: int, calls: seq<Call>)
    requires AllExplained(zones, calls)
    ensures AllExplained(ApplyAll(zones, stacks, ts).0, calls)
  {
    if stacks == [] {
    } else {
      var n := |stacks| - 1;
      StacksExplained(zones, stacks[..n], ts, calls);
      StackExplained(ApplyAll(zones, stacks[..n], ts).0, stacks[n], ts, calls);
    }
  }

  /** Over any sequence of calls, zones are resolved by bars that traded through them,
      and by nothing else. */
  lemma {:induction false} ResolvedByBars(calls: seq<Call>)
    ensures AllExplained(Replay(calls), calls)
  {
    if calls == [] {
    } else {
      var n := |calls| - 1;
      var before, c := Replay(calls[..n]), calls[n];
      ResolvedByBars(calls[..n]);
      assert calls == calls[..n] + [c];
      forall i | 0 <= i < |before| ensures Explained(before[i], calls) {
        ExplainedLater(before[i], calls[..n], c);
      }
      match c
      case DetectStacks(levels, _, min, ts) =>
        StacksExplained(before, Stacks(levels, min), ts, calls);
        assert Replay(calls) == ApplyAll(before, Stacks(levels, min), ts).0;
      case ResolveZones(bar) =>
        forall i | 0 <= i < |before| ensures Explained(Resolve(before[i], bar), calls) {
          assert Through(bar, before[i]) ==> ResolvedBy(Resolve(before[i], bar), calls[n]) || !before[i].active;
        }
    }
  }

  // ---------------------------------------------------------------------------
  // Detection followed by resolution on the same bar

  /** The levels of the bar lie between its low and its high. */
  ghost predicate WithinBar(levels: seq<Level>, bar: Bar) {
    forall i | 0 <= i < |levels| :: bar.low <= levels[i].price as real <= bar.high
  }

  /** The levels lie at most half a tick outside, where rounding may have put them. */
  ghost predicate NearBar(levels: seq<Level>, bar: Bar) {
    forall i | 0 <= i < |levels| :: bar.low - 0.5 <= levels[i].price as real <= bar.high + 0.5
  }

  /** The extreme of the bar lies exactly half a tick beyond the edge of a zone, where the
      test for trading through it just fails. */
  predicate HalfBeyond(bar: Bar, d: Direction, low: int, high: int) {
    if d.Long? then bar.low == low as real - 0.5 else bar.high == high as real + 0.5
  }

  ghost predicate ThroughStack(bar: Bar, s: Stack) {
    if s.direction.Long? then bar.low < s.low as real - 0.5 else bar.high > s.high as real + 0.5
  }

  /** What `detect_all` does to the registry. */
  function DetectAll(zones: seq<Zone>, levels: seq<Level>, min: nat, bar: Bar): seq<Zone>
    requires 1 <= min
  {
    ResolveAll(ApplyAll(zones, Stacks(levels, min), bar.closeTs).0, bar)
  }

  /** Beyond each end of a run of flags, on the side where the zone is resolved, the bar
      has one more level. */
  lemma RunHasNeighbour(levels: seq<Level>, d: Direction, r: Run) returns (i: nat)
    requires Neighbours(levels) && r.start < r.end <= |levels|
    requires Flag(levels[r.start], d) && Flag(levels[r.end - 1], d)
    ensures i < |levels|
    ensures levels[i].price == if d.Long? then levels[r.start].price - 1 else levels[r.end - 1].price + 1
  {
    if d.Long? {
      assert levels[r.start].isBuy;
      i := r.start - 1;
    } else {
      assert levels[r.end - 1].isSell;
      i := r.end;
    }
  }

  lemma StackHasNeighbour(levels: seq<Level>, min: nat, s: Stack) returns (i: nat)
    requires 1 <= min && Neighbours(levels) && s in Stacks(levels, min)
    ensures i < |levels| && levels[i].price == if s.direction.Long? then s.low - 1 else s.high + 1
  {
    var r := StackRun(levels, min, s);
    i := RunHasNeighbour(levels, s.direction, r);
  }

  /** A bar whose levels lie within it trades through every stack it shows. */
  lemma OwnBarTradesThrough(levels: seq<Level>, min: nat, bar: Bar, s: Stack)
    requires 1 <= min && Neighbours(levels) && WithinBar(levels, bar) && s in Stacks(levels, min)
    ensures ThroughStack(bar, s)
  {
    var i := StackHasNeighbour(levels, min, s);
  }

  /** A bar whose levels were rounded trades through a stack it shows exactly when its
      extreme is not half a tick beyond the stack. */
  lemma OwnBarUnlessHalf(levels: seq<Level>, min: nat, bar: Bar, s: Stack)
    requires 1 <= min && Neighbours(levels) && NearBar(levels, bar) && s in Stacks(levels, min)
    ensures ThroughStack(bar, s) <==> !HalfBeyond(bar, s.direction, s.low, s.high)
  {
    var i := StackHasNeighbour(levels, min, s);
  }

  /** The zones of the registry that a call creates or extends. */
  ghost predicate Touched(zones: seq<Zone>, stacks: seq<Stack>, i: nat) {
    i >= |zones| || !Untouched(zones[i], stacks)
  }

  /** A zone that the call has touched shows one of its stacks. */
  lemma TouchedShows(zones: seq<Zone>, stacks: seq<Stack>, ts: int, i: nat) returns (s: Stack)
    requires DistinctStacks(stacks) && i < |Closed(zones, stacks, ts)| && Touched(zones, stacks, i)
    ensures s in stacks && Shows(Closed(zones, stacks, ts)[i], s)
  {
    if i < |zones| {
      s :| s in stacks && Matches(zones[i], s);
      var k :| 0 <= k < |stacks| && stacks[k] == s;
      MergeMatched(zones[i], stacks, k, ts);
    } else {
      FreshAmong(zones, stacks);
      s := Fresh(zones, stacks)[i - |zones|];
    }
  }

  /** What one call leaves of the zones. A zone that it created or extended stays active
      exactly when the extreme of the bar lies half a tick beyond the edge of the zone;
      every other zone is resolved if the bar traded through it and unchanged if not. */
  lemma DetectAllSurvivors(zones: seq<Zone>, levels: seq<Level>, min: nat, ratio: real, bar: Bar)
    requires 1 <= min && Ascending(levels) && FlaggedBy(levels, ratio) && NearBar(levels, bar)
    requires UniqueActive(zones)
    ensures var after, stacks := DetectAll(zones, levels, min, bar), Stacks(levels, min);
            && |after| >= |zones|
            && forall i | 0 <= i < |after| ::
                 if Touched(zones, stacks, i)
                 then after[i].active <==> HalfBeyond(bar, after[i].direction, after[i].low, after[i].high)
                 else after[i] == Resolve(zones[i], bar)
  {
    var stacks := Stacks(levels, min);
    var c := Closed(zones, stacks, bar.closeTs);
    StacksDistinct(levels, min);
    FlagsHaveNeighbours(levels, ratio);
    ApplyAllClosed(zones, stacks, bar.closeTs);
    forall i | 0 <= i < |c|
      ensures if Touched(zones, stacks, i)
              then Resolve(c[i], bar).active <==> HalfBeyond(bar, c[i].direction, c[i].low, c[i].high)
              else c[i] == zones[i]
    {
      if Touched(zones, stacks, i) {
        var s := TouchedShows(zones, stacks, bar.closeTs, i);
        OwnBarUnlessHalf(levels, min, bar, s);
      } else {
        MergeKeepsKey(zones[i], stacks, bar.closeTs);
      }
    }
  }

  /** The stamps of one call: what it creates or extends bears the close of the bar, and so
      does every zone that it resolves. */
  lemma DetectAllStamps(zones: seq<Zone>, levels: seq<Level>, min: nat, bar: Bar)
    requires 1 <= min && Ascending(levels) && UniqueActive(zones)
    ensures var after := DetectAll(zones, levels, min, bar);
            && |after| >= |zones|
            && (forall i | |zones| <= i < |after| :: after[i].createdTs == after[i].updatedTs == bar.closeTs)
            && (forall i | 0 <= i < |zones| && Touched(zones, Stacks(levels, min), i) :: after[i].updatedTs == bar.closeTs)
            && (forall i | 0 <= i < |after| && !after[i].active && (i >= |zones| || zones[i].active) ::
                  after[i].resolvedTs == bar.closeTs)
  {
    var stacks := Stacks(levels, min);
    StacksDistinct(levels, min);
    ApplyAllClosed(zones, stacks, bar.closeTs);
    NewZonesOf(zones, stacks, bar.closeTs);
    var c := Closed(zones, stacks, bar.closeTs);
    assert DetectAll(zones, levels, min, bar) == ResolveAll(c, bar);
    assert forall i | 0 <= i < |zones| :: c[i] == Merge(zones[i], stacks, bar.closeTs);
    hide *;
    forall i | 0 <= i < |c|
      ensures i < |zones| ==> c[i].active == zones[i].active
      ensures i < |zones| && Touched(zones, stacks, i) ==> c[i].updatedTs == bar.closeTs
      ensures ResolveAll(c, bar)[i].createdTs == c[i].createdTs && ResolveAll(c, bar)[i].updatedTs == c[i].updatedTs
      ensures !ResolveAll(c, bar)[i].active && c[i].active ==> ResolveAll(c, bar)[i].resolvedTs == bar.closeTs
    {
      ResolvedStamps(c[i], bar);
      if i < |zones| {
        MergeKeepsKey(zones[i], stacks, bar.closeTs);
        TouchedStamp(zones, stacks, bar.closeTs, i);
      }
    }
  }

  lemma ResolvedStamps(z: Zone, bar: Bar)
    ensures var r := Resolve(z, bar);
            && r.createdTs == z.createdTs && r.updatedTs == z.updatedTs
            && (!r.active && z.active ==> r.resolvedTs == bar.closeTs)
  {}

  lemma TouchedStamp(zones: seq<Zone>, stacks: seq<Stack>, ts: int, i: nat)
    requires DistinctStacks(stacks) && i < |zones|
    ensures Touched(zones, stacks, i) ==> Merge(zones[i], stacks, ts).updatedTs == ts
  {
    if s :| s in stacks && Matches(zones[i], s) {
      MatchesIsContinued(zones[i], s);
      ContinuedBy(zones[i], stacks, s, ts);
    }
  }

  /** On a bar whose levels lie within it every zone that the call creates or extends is
      resolved by that same call: a zone is active afterwards exactly when it was active
      before and the bar did not trade through it, and then it is untouched. */
  lemma DetectAllResolvesItsOwn(zones: seq<Zone>, levels: seq<Level>, min: nat, ratio: real, bar: Bar)
    requires 1 <= min && Ascending(levels) && FlaggedBy(levels, ratio) && WithinBar(levels, bar)
    requires UniqueActive(zones)
    ensures var after := DetectAll(zones, levels, min, bar);
            && |after| >= |zones|
            && forall i | 0 <= i < |after| ::
                 (after[i].active <==> i < |zones| && zones[i].active && !Through(bar, zones[i])) &&
                 (after[i].active ==> after[i] == zones[i])
  {
    var stacks := Stacks(levels, min);
    var after := DetectAll(zones, levels, min, bar);
    FlagsHaveNeighbours(levels, ratio);
    DetectAllSurvivors(zones, levels, min, ratio, bar);
    forall i | 0 <= i < |after|
      ensures after[i].active <==> i < |zones| && zones[i].active && !Through(bar, zones[i])
      ensures after[i].active ==> after[i] == zones[i]
    {
      if Touched(zones, stacks, i) {
        TouchedTradedThrough(zones, levels, min, bar, ratio, i);
      }
    }
  }

  lemma TouchedTradedThrough(zones: seq<Zone>, levels: seq<Level>, min: nat, bar: Bar, ratio: real, i: nat)
    requires 1 <= min && Ascending(levels) && FlaggedBy(levels, ratio) && WithinBar(levels, bar)
    requires UniqueActive(zones) && Touched(zones, Stacks(levels, min), i)
    requires i < |DetectAll(zones, levels, min, bar)|
    ensures !DetectAll(zones, levels, min, bar)[i].active
    ensures i < |zones| ==> Through(bar, zones[i])
  {
    var stacks := Stacks(levels, min);
    StacksDistinct(levels, min);
    FlagsHaveNeighbours(levels, ratio);
    ApplyAllClosed(zones, stacks, bar.closeTs);
    var s := TouchedShows(zones, stacks, bar.closeTs, i);
    OwnBarTradesThrough(levels, min, bar, s);
    if i < |zones| {
      MergeKeepsKey(zones[i], stacks, bar.closeTs);
    }
  }

  /** A bar with its flagged levels, and the ratio and the minimum count configured when
      it is looked at. */
  datatype BarInput = BarInput(levels: seq<Level>, bar: Bar, ratio: real, min: Positive)

  function DetectBar(zones: seq<Zone>, b: BarInput): seq<Zone> {
    DetectAll(zones, b.levels, b.min, b.bar)
  }

  function DetectBars(bars: seq<BarInput>): seq<Zone> {
    if bars == [] then [] else DetectBar(DetectBars(bars[..|bars| - 1]), bars[|bars| - 1])
  }

  ghost predicate NoneActive(zones: seq<Zone>) {
    forall i | 0 <= i < |zones| :: !zones[i].active
  }

  ghost predicate WellFlagged(b: BarInput) {
    Ascending(b.levels) && FlaggedBy(b.levels, b.ratio)
  }

  /** Starting from an empty registry, no zone is ever active between two calls of
      `detect_all` on bars whose levels lie within them. */
  lemma {:induction false} NoZoneSurvives(bars: seq<BarInput>)
    requires forall b | b in bars :: WellFlagged(b) && WithinBar(b.levels, b.bar)
    ensures NoneActive(DetectBars(bars))
  {
    if bars == [] {
    } else {
      var n := |bars| - 1;
      NoZoneSurvives(bars[..n]);
      var zones := DetectBars(bars[..n]);
      assert bars[n] in bars;
      DetectAllResolvesItsOwn(zones, bars[n].levels, bars[n].min, bars[n].ratio, bars[n].bar);
    }
  }

  /** No stack of the bar has the bar's extreme half a tick beyond it. */
  ghost predicate AllResolved(b: BarInput) {
    forall s | s in Stacks(b.levels, b.min) :: !HalfBeyond(b.bar, s.direction, s.low, s.high)
  }

  /** From a registry without active zones, one call leaves none active exactly when no
      stack of the bar lies half a tick within its extreme. */
  lemma NoneSurvivesCall(zones: seq<Zone>, b: BarInput)
    requires WellFlagged(b) && NearBar(b.levels, b.bar) && NoneActive(zones)
    ensures NoneActive(DetectBar(zones, b)) <==> AllResolved(b)
  {
    var stacks, after := Stacks(b.levels, b.min), DetectBar(zones, b);
    StacksDistinct(b.levels, b.min);
    ApplyAllClosed(zones, stacks, b.bar.closeTs);
    DetectAllSurvivors(zones, b.levels, b.min, b.ratio, b.bar);
    if AllResolved(b) {
      forall i | 0 <= i < |after| ensures !after[i].active {
        if Touched(zones, stacks, i) {
          var s := TouchedShows(zones, stacks, b.bar.closeTs, i);
        }
      }
    } else {
      var s :| s in stacks && HalfBeyond(b.bar, s.direction, s.low, s.high);
      var i := StackShown(zones, stacks, b.bar.closeTs, s);
      assert after[i].active;
    }
  }

  /** No zone is active after the first `k` calls, and after any number of calls. */
  ghost predicate QuietAfter(bars: seq<BarInput>, k: nat)
    requires k <= |bars|
  {
    NoneActive(DetectBars(bars[..k]))
  }

  ghost predicate NeverActive(bars: seq<BarInput>) {
    forall k: nat | k <= |bars| :: QuietAfter(bars, k)
  }

  lemma QuietPrefix(bars: seq<BarInput>, k: nat)
    requires k < |bars|
    ensures QuietAfter(bars[..|bars| - 1], k) <==> QuietAfter(bars, k)
  {
    assert bars[..|bars| - 1][..k] == bars[..k];
  }

  lemma NeverActiveLast(bars: seq<BarInput>)
    requires bars != []
    ensures NeverActive(bars) <==>
            NeverActive(bars[..|bars| - 1]) && NoneActive(DetectBars(bars))
    ensures NeverActive(bars[..|bars| - 1]) ==> NoneActive(DetectBars(bars[..|bars| - 1]))
  {
    hide DetectBars, NoneActive;
    var n, before := |bars| - 1, bars[..|bars| - 1];
    assert bars[..n + 1] == bars && before[..n] == before;
    assert QuietAfter(bars, n + 1) <==> NoneActive(DetectBars(bars));
    assert QuietAfter(before, n) <==> NoneActive(DetectBars(before));
    hide QuietAfter;
    forall k: nat | k <= n ensures QuietAfter(before, k) <==> QuietAfter(bars, k) {
      QuietPrefix(bars, k);
    }
  }

  /** Starting from an empty registry and over any bars with rounded levels: no zone is
      ever active after a call exactly when no bar shows a stack that its extreme lies
      half a tick beyond. */
  lemma {:induction false} SurvivorsExact(bars: seq<BarInput>)
    requires forall b | b in bars :: WellFlagged(b) && NearBar(b.levels, b.bar)
    ensures NeverActive(bars) <==> forall b | b in bars :: AllResolved(b)
  {
    if bars == [] {
    } else {
      var n := |bars| - 1;
      var before, last := bars[..n], bars[n];
      assert bars == before + [last];
      assert DetectBars(bars) == DetectBar(DetectBars(before), last);
      hide DetectBars, DetectBar, NeverActive, AllResolved, NoneActive, WellFlagged, NearBar;
      SurvivorsExact(before);
      NeverActiveLast(bars);
      if NoneActive(DetectBars(before)) {
        NoneSurvivesCall(DetectBars(before), last);
      }
    }
  }
}
