/** The detector and the zone registry as objects that are updated in place. */
module ImbalanceDetector {
  import opened Footprint
  import opened Runs
  import opened Zones
  import opened ZoneTheorems

  class ZoneRegistry {
    var zones: seq<Zone>

    constructor ()
      ensures zones == []
    {
      zones := [];
    }
  }

  class ImbalanceDetector {
    var imbalanceRatio: real
    var stackedMinCount: nat

    constructor (ratio: real, minCount: nat)
      ensures imbalanceRatio == ratio && stackedMinCount == minCount
    {
      imbalanceRatio, stackedMinCount := ratio, minCount;
    }

    method SetConfig(ratio: real, minCount: nat)
      modifies this
      ensures imbalanceRatio == ratio && stackedMinCount == minCount
    {
      imbalanceRatio, stackedMinCount := ratio, minCount;
    }

    /** A streak extends the first active zone with its direction and key, or creates a
        zone and a signal. */
    method HandleStreak(registry: ZoneRegistry, s: Stack, ts: int) returns (signals: seq<Stack>)
      modifies registry
      ensures (registry.zones, signals) == Apply(old(registry.zones), s, ts)
    {
      for i := 0 to |registry.zones|
        invariant registry.zones == old(registry.zones)
        invariant FindMatch(registry.zones, s, i) == FindMatch(registry.zones, s, 0)
      {
        var z := registry.zones[i];
        if Matches(z, s) {
          registry.zones := registry.zones[i := Extend(z, s, ts)];
          return [];
        }
      }
      registry.zones := registry.zones + [NewZone(s, ts)];
      signals := [s];
    }

    /** The scan for streaks of one direction, one index past the last level. */
    method ScanStreaks(levels: array<Level>, registry: ZoneRegistry, d: Direction, ts: int)
      returns (signals: seq<Stack>)
      requires stackedMinCount >= 1
      modifies registry
      ensures (registry.zones, signals) ==
              ApplyAll(old(registry.zones), StacksIn(levels[..], stackedMinCount, d), ts)
    {
      ghost var ls, min, before := levels[..], stackedMinCount, registry.zones;
      signals := [];
      var streak, streakStart := 0, 0;
      for i := 0 to levels.Length + 1
        invariant stackedMinCount == min && levels[..] == ls
        invariant ScanState(ls, min, d, ts, before, i, streak, streakStart, registry.zones, signals)
      {
        var isImbalance := i < levels.Length && Flag(levels[i], d);
        if isImbalance {
          KeepStreak(ls, min, d, ts, before, i, streak, streakStart, registry.zones, signals);
          if streak == 0 {
            streakStart := i;
          }
          streak := streak + 1;
        } else {
          if streak >= stackedMinCount {
            EndStreak(ls, min, d, ts, before, i, streak, streakStart, registry.zones, signals);
            var more := HandleStreak(registry,
                                     Stack(d, levels[streakStart].price, levels[i - 1].price, streak), ts);
            signals := signals + more;
          } else {
            DropStreak(ls, min, d, ts, before, i, streak, streakStart, registry.zones, signals);
          }
          streak := 0;
        }
      }
    }

    /** Buying streaks first, then selling streaks. */
    method DetectStacked(levels: array<Level>, registry: ZoneRegistry, ts: int) returns (signals: seq<Stack>)
      requires stackedMinCount >= 1
      modifies registry
      ensures (registry.zones, signals) ==
              ApplyAll(old(registry.zones), Stacks(levels[..], stackedMinCount), ts)
    {
      ghost var before := registry.zones;
      var buying := ScanStreaks(levels, registry, Long, ts);
      var selling := ScanStreaks(levels, registry, Short, ts);
      signals := buying + selling;
      ApplyAllAppend(before, StacksIn(levels[..], stackedMinCount, Long),
                     StacksIn(levels[..], stackedMinCount, Short), ts);
    }

    /** Deactivates the zones that the bar traded through. */
    method UpdateZoneRegistry(registry: ZoneRegistry, bar: Bar)
      modifies registry
      ensures registry.zones == ResolveAll(old(registry.zones), bar)
      ensures |registry.zones| == |old(registry.zones)|
      ensures forall i | 0 <= i < |registry.zones| ::
                var z := old(registry.zones)[i];
                var through := if z.direction.Long? then bar.low < z.low as real - 0.5 else bar.high > z.high as real + 0.5;
                registry.zones[i] == if z.active && through then z.(active := false, resolvedTs := bar.closeTs) else z
    {
      ghost var before := registry.zones;
      var tolerance := 0.5;
      for i := 0 to |registry.zones|
        invariant |registry.zones| == |before|
        invariant forall j | 0 <= j < i :: registry.zones[j] == Resolve(before[j], bar)
        invariant forall j | i <= j < |before| :: registry.zones[j] == before[j]
      {
        var zone := registry.zones[i];
        if zone.active {
          var resolved := if zone.direction.Long? then bar.low < zone.low as real - tolerance
                          else bar.high > zone.high as real + tolerance;
          if resolved {
            registry.zones := registry.zones[i := zone.(active := false, resolvedTs := bar.closeTs)];
          }
        }
      }
    }

    /** Flags the levels, handles the stacks, then resolves zones with the same bar. */
    method DetectAll(levels: array<Level>, registry: ZoneRegistry, bar: Bar)
      returns (buyCount: nat, sellCount: nat, stacked: seq<Stack>)
      requires stackedMinCount >= 1
      modifies levels, registry
      ensures SameVolumes(levels[..], old(levels[..])) && FlaggedBy(levels[..], imbalanceRatio)
      ensures buyCount == |Flagged(levels[..], Long, levels.Length)|
      ensures sellCount == |Flagged(levels[..], Short, levels.Length)|
      ensures registry.zones == ZoneTheorems.DetectAll(old(registry.zones), levels[..], stackedMinCount, bar)
      ensures stacked == ApplyAll(old(registry.zones), Stacks(levels[..], stackedMinCount), bar.closeTs).1
    {
      buyCount, sellCount := DetectSingleImbalances(levels, imbalanceRatio);
      stacked := DetectStacked(levels, registry, bar.closeTs);
      UpdateZoneRegistry(registry, bar);
    }
  }

  lemma ScanFits(levels: seq<Level>, min: nat, d: Direction, upto: nat)
    requires 1 <= min && upto <= |levels| + 1
    ensures Fits(Scan(Flags(levels, d), min, upto), |levels|)
  {
    ScanSound(Flags(levels, d), min, upto);
    forall r | r in Scan(Flags(levels, d), min, upto) ensures r.start < r.end <= |levels| {
      assert Reportable(Flags(levels, d), min, upto, r);
    }
  }

  /** The stacks a scan has handled before index `i`, and its current streak. */
  ghost function Handled(levels: seq<Level>, min: nat, d: Direction, i: nat): seq<Stack>
    requires 1 <= min && i <= |levels| + 1
  {
    ScanFits(levels, min, d, i);
    StacksOf(levels, d, Scan(Flags(levels, d), min, i))
  }

  ghost function StreakBefore(levels: seq<Level>, d: Direction, i: nat): nat {
    if i <= |levels| then Streak(Flags(levels, d), i) else 0
  }

  /** The state of the scan before index `i`: its current streak, and the registry and
      signals with every streak that has ended handled. */
  ghost predicate ScanState(levels: seq<Level>, min: nat, d: Direction, ts: int, before: seq<Zone>,
                            i: nat, streak: nat, start: nat, zones: seq<Zone>, signals: seq<Stack>)
  {
    && 1 <= min && i <= |levels| + 1
    && streak == StreakBefore(levels, d, i) <= i
    && (streak > 0 ==> start == i - streak)
    && (zones, signals) == ApplyAll(before, Handled(levels, min, d, i), ts)
  }

  lemma KeepStreak(levels: seq<Level>, min: nat, d: Direction, ts: int, before: seq<Zone>,
                   i: nat, streak: nat, start: nat, zones: seq<Zone>, signals: seq<Stack>)
    requires ScanState(levels, min, d, ts, before, i, streak, start, zones, signals)
    requires i < |levels| && Flag(levels[i], d)
    ensures ScanState(levels, min, d, ts, before, i + 1, streak + 1,
                      if streak == 0 then i else start, zones, signals)
  {
    HandledStep(levels, min, d, i);
  }

  lemma DropStreak(levels: seq<Level>, min: nat, d: Direction, ts: int, before: seq<Zone>,
                   i: nat, streak: nat, start: nat, zones: seq<Zone>, signals: seq<Stack>)
    requires ScanState(levels, min, d, ts, before, i, streak, start, zones, signals)
    requires i <= |levels| && !(i < |levels| && Flag(levels[i], d)) && streak < min
    ensures ScanState(levels, min, d, ts, before, i + 1, 0, start, zones, signals)
  {
    HandledStep(levels, min, d, i);
  }

  lemma EndStreak(levels: seq<Level>, min: nat, d: Direction, ts: int, before: seq<Zone>,
                  i: nat, streak: nat, start: nat, zones: seq<Zone>, signals: seq<Stack>)
    requires ScanState(levels, min, d, ts, before, i, streak, start, zones, signals)
    requires i <= |levels| && !(i < |levels| && Flag(levels[i], d)) && streak >= min
    ensures 0 < i && start < |levels|
    ensures var (zones', more) := Apply(zones, Stack(d, levels[start].price, levels[i - 1].price, streak), ts);
            ScanState(levels, min, d, ts, before, i + 1, 0, start, zones', signals + more)
  {
    HandledStep(levels, min, d, i);
    ApplyOneMore(before, Handled(levels, min, d, i),
                 Stack(d, levels[start].price, levels[i - 1].price, streak), ts);
  }

  lemma HandledStep(levels: seq<Level>, min: nat, d: Direction, i: nat)
    requires 1 <= min && i <= |levels|
    ensures StreakBefore(levels, d, i) <= i
    ensures var n, more := StreakBefore(levels, d, i), i < |levels| && Flag(levels[i], d);
            && StreakBefore(levels, d, i + 1) == (if more then n + 1 else 0)
            && (!more && n >= min ==>
                  Handled(levels, min, d, i + 1) ==
                  Handled(levels, min, d, i) + [Stack(d, levels[i - n].price, levels[i - 1].price, n)])
            && (more || n < min ==> Handled(levels, min, d, i + 1) == Handled(levels, min, d, i))
  {
    ScanFits(levels, min, d, i);
    ScanFits(levels, min, d, i + 1);
    var flags := Flags(levels, d);
    var runs, runs' := Scan(flags, min, i), Scan(flags, min, i + 1);
    var n := Streak(flags, i);
    if (i == |flags| || !flags[i]) && n >= min {
      assert runs' == runs + [Run(i - n, i)];
    } else {
      assert runs' == runs;
    }
  }

  lemma ApplyOneMore(zones: seq<Zone>, stacks: seq<Stack>, s: Stack, ts: int)
    ensures var (z, signals) := ApplyAll(zones, stacks, ts);
            var (z', more) := Apply(z, s, ts);
            ApplyAll(zones, stacks + [s], ts) == (z', signals + more)
  {
    assert (stacks + [s])[..|stacks|] == stacks;
  }

  lemma {:induction false} ApplyAllAppend(zones: seq<Zone>, a: seq<Stack>, b: seq<Stack>, ts: int)
    ensures var (z, first) := ApplyAll(zones, a, ts);
            var (z', second) := ApplyAll(z, b, ts);
            ApplyAll(zones, a + b, ts) == (z', first + second)
  {
    if b == [] {
      assert a + b == a;
      assert ApplyAll(zones, a, ts).1 + [] == ApplyAll(zones, a, ts).1;
    } else {
      var n := |b| - 1;
      assert (a + b)[..|a + b| - 1] == a + b[..n];
      ApplyAllAppend(zones, a, b[..n], ts);
      var (z, first) := ApplyAll(zones, a, ts);
      var (z', second) := ApplyAll(z, b[..n], ts);
      assert (first + second) + Apply(z', b[n], ts).1 == first + (second + Apply(z', b[n], ts).1);
    }
  }
}
