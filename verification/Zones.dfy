/** The registry of stacked-imbalance zones: how runs of flags create or extend zones,
    how a bar resolves them, and what any sequence of these calls keeps. */
module Zones {
  import opened Footprint
  import opened Runs

  /** A zone of the registry. Its random id and its strength score are not modelled. */
  datatype Zone = Zone(direction: Direction, low: int, high: int, count: int,
                       createdTs: int, updatedTs: int, resolvedTs: int, active: bool)

  /** A stacked run as it reaches the registry, and as its signal reports it. */
  datatype Stack = Stack(direction: Direction, low: int, high: int, count: int)

  /** The extremes of a bar, counted in ticks but not rounded: a bar may trade between
      two ticks. */
  datatype Bar = Bar(low: real, high: real, closeTs: int)

  /** The price by which a later run recognises a zone. */
  function Key(d: Direction, low: int, high: int): int {
    if d.Long? then low else high
  }

  predicate Matches(z: Zone, s: Stack) {
    z.active && z.direction == s.direction && Key(z.direction, z.low, z.high) == Key(s.direction, s.low, s.high)
  }

  function Extend(z: Zone, s: Stack, ts: int): Zone {
    if s.direction.Long? then z.(high := s.high, count := s.count, updatedTs := ts)
    else z.(low := s.low, count := s.count, updatedTs := ts)
  }

  function NewZone(s: Stack, ts: int): Zone {
    Zone(s.direction, s.low, s.high, s.count, ts, ts, 0, true)
  }

  /** The index of the first zone from `i` on that a stack matches, or the length. */
  function FindMatch(zones: seq<Zone>, s: Stack, i: nat): (j: nat)
    requires i <= |zones|
    ensures i <= j <= |zones|
    ensures forall k | i <= k < j :: !Matches(zones[k], s)
    ensures j < |zones| ==> Matches(zones[j], s)
    decreases |zones| - i
  {
    if i == |zones| || Matches(zones[i], s) then i else FindMatch(zones, s, i + 1)
  }

  /** One stack extends the first zone it matches, or creates a zone and a signal. */
  function Apply(zones: seq<Zone>, s: Stack, ts: int): (r: (seq<Zone>, seq<Stack>)) {
    var j := FindMatch(zones, s, 0);
    if j < |zones| then (zones[j := Extend(zones[j], s, ts)], [])
    else (zones + [NewZone(s, ts)], [s])
  }

  function ApplyAll(zones: seq<Zone>, stacks: seq<Stack>, ts: int): (r: (seq<Zone>, seq<Stack>)) {
    if stacks == [] then (zones, [])
    else
      var (z, signals) := ApplyAll(zones, stacks[..|stacks| - 1], ts);
      var (z', more) := Apply(z, stacks[|stacks| - 1], ts);
      (z', signals + more)
  }

  function StackOf(levels: seq<Level>, d: Direction, r: Run): Stack
    requires r.start < r.end <= |levels|
  {
    Stack(d, levels[r.start].price, levels[r.end - 1].price, r.end - r.start)
  }

  ghost predicate Fits(runs: seq<Run>, n: nat) {
    forall r | r in runs :: r.start < r.end <= n
  }

  function StacksOf(levels: seq<Level>, d: Direction, runs: seq<Run>): (s: seq<Stack>)
    requires Fits(runs, |levels|)
    ensures |s| == |runs|
    ensures forall k | 0 <= k < |s| :: s[k] == StackOf(levels, d, runs[k])
  {
    seq(|runs|, k requires 0 <= k < |runs| => StackOf(levels, d, runs[k]))
  }

  /** The stacks of one direction, from the lowest to the highest. */
  function StacksIn(levels: seq<Level>, min: nat, d: Direction): (s: seq<Stack>)
    requires 1 <= min
  {
    ScanSound(Flags(levels, d), min, |levels| + 1);
    StacksOf(levels, d, All(Flags(levels, d), min))
  }

  /** All stacks of a bar in the order in which they are handled. */
  function Stacks(levels: seq<Level>, min: nat): seq<Stack>
    requires 1 <= min
  {
    StacksIn(levels, min, Long) + StacksIn(levels, min, Short)
  }

  /** Did the bar trade through the zone by more than half a tick? */
  predicate Through(bar: Bar, z: Zone) {
    if z.direction.Long? then bar.low < z.low as real - 0.5 else bar.high > z.high as real + 0.5
  }

  function Resolve(z: Zone, bar: Bar): Zone {
    if z.active && Through(bar, z) then z.(active := false, resolvedTs := bar.closeTs) else z
  }

  function ResolveAll(zones: seq<Zone>, bar: Bar): (r: seq<Zone>)
    ensures |r| == |zones|
    ensures forall i | 0 <= i < |r| :: r[i] == Resolve(zones[i], bar)
  {
    seq(|zones|, i requires 0 <= i < |zones| => Resolve(zones[i], bar))
  }

  // ---------------------------------------------------------------------------
  // One call: the closed form of handling all stacks of a bar

  /** No two stacks could be taken for one another. */
  ghost predicate DistinctStacks(stacks: seq<Stack>) {
    forall k, l | 0 <= k < l < |stacks| :: stacks[k].direction == stacks[l].direction ==>
      Key(stacks[k].direction, stacks[k].low, stacks[k].high) != Key(stacks[l].direction, stacks[l].low, stacks[l].high)
  }

  /** No two active zones could be taken for one another. */
  ghost predicate UniqueActive(zones: seq<Zone>) {
    forall i, j | 0 <= i < j < |zones| && zones[i].active && zones[j].active && zones[i].direction == zones[j].direction ::
      Key(zones[i].direction, zones[i].low, zones[i].high) != Key(zones[j].direction, zones[j].low, zones[j].high)
  }

  /** The zone after all stacks: extended by the one that matches it, if any. */
  function Merge(z: Zone, stacks: seq<Stack>, ts: int): Zone {
    if stacks == [] then z
    else
      var rest := Merge(z, stacks[..|stacks| - 1], ts);
      if Matches(z, stacks[|stacks| - 1]) then Extend(rest, stacks[|stacks| - 1], ts) else rest
  }

  /** The stacks that match no zone of the registry. */
  function Fresh(zones: seq<Zone>, stacks: seq<Stack>): seq<Stack> {
    if stacks == [] then []
    else
      var s := stacks[|stacks| - 1];
      Fresh(zones, stacks[..|stacks| - 1]) + if FindMatch(zones, s, 0) == |zones| then [s] else []
  }

  function Merged(zones: seq<Zone>, stacks: seq<Stack>, ts: int): (r: seq<Zone>)
    ensures |r| == |zones|
    ensures forall i | 0 <= i < |r| :: r[i] == Merge(zones[i], stacks, ts)
  {
    seq(|zones|, i requires 0 <= i < |zones| => Merge(zones[i], stacks, ts))
  }

  function Created(stacks: seq<Stack>, ts: int): (r: seq<Zone>)
    ensures |r| == |stacks|
    ensures forall i | 0 <= i < |r| :: r[i] == NewZone(stacks[i], ts)
  {
    seq(|stacks|, i requires 0 <= i < |stacks| => NewZone(stacks[i], ts))
  }

  lemma {:induction false} MergeKeepsKey(z: Zone, stacks: seq<Stack>, ts: int)
    ensures var m := Merge(z, stacks, ts);
            && m.active == z.active && m.direction == z.direction
            && m.createdTs == z.createdTs && m.resolvedTs == z.resolvedTs
            && Key(m.direction, m.low, m.high) == Key(z.direction, z.low, z.high)
    ensures (forall k | 0 <= k < |stacks| :: !Matches(z, stacks[k])) ==> Merge(z, stacks, ts) == z
  {
    if stacks == [] {
    } else {
      MergeKeepsKey(z, stacks[..|stacks| - 1], ts);
    }
  }

  lemma {:induction false} FreshAmong(zones: seq<Zone>, stacks: seq<Stack>)
    ensures forall s :: s in Fresh(zones, stacks) <==> s in stacks && FindMatch(zones, s, 0) == |zones|
  {
    if stacks == [] {
    } else {
      FreshAmong(zones, stacks[..|stacks| - 1]);
      assert stacks == stacks[..|stacks| - 1] + [stacks[|stacks| - 1]];
    }
  }

  ghost function Closed(zones: seq<Zone>, stacks: seq<Stack>, ts: int): seq<Zone> {
    Merged(zones, stacks, ts) + Created(Fresh(zones, stacks), ts)
  }

  /** One more stack matches the closed form where it matches the registry. */
  lemma MatchesClosed(zones: seq<Zone>, stacks: seq<Stack>, s: Stack, ts: int)
    requires DistinctStacks(stacks + [s])
    ensures var c := Closed(zones, stacks, ts);
            forall i | 0 <= i < |c| :: Matches(c[i], s) <==> i < |zones| && Matches(zones[i], s)
  {
    var c, unseen := Closed(zones, stacks, ts), Fresh(zones, stacks);
    FreshAmong(zones, stacks);
    forall i | 0 <= i < |c| ensures Matches(c[i], s) <==> i < |zones| && Matches(zones[i], s) {
      if i < |zones| {
        MergeKeepsKey(zones[i], stacks, ts);
      } else {
        var u := unseen[i - |zones|];
        assert u in stacks;
        var k :| 0 <= k < |stacks| && stacks[k] == u;
        assert (stacks + [s])[k] == u && (stacks + [s])[|stacks|] == s;
      }
    }
  }

  lemma FoundInClosed(zones: seq<Zone>, stacks: seq<Stack>, s: Stack, ts: int)
    requires DistinctStacks(stacks + [s])
    ensures var c, j := Closed(zones, stacks, ts), FindMatch(zones, s, 0);
            FindMatch(c, s, 0) == if j < |zones| then j else |c|
  {
    hide Matches, Closed, DistinctStacks;
    MatchesClosed(zones, stacks, s, ts);
    ClosedLength(zones, stacks, ts);
  }

  lemma ClosedLength(zones: seq<Zone>, stacks: seq<Stack>, ts: int)
    ensures |Closed(zones, stacks, ts)| >= |zones|
  {}

  /** A stack that matches a zone extends that zone only. */
  lemma OneZoneExtended(zones: seq<Zone>, stacks: seq<Stack>, s: Stack, ts: int, j: nat)
    requires UniqueActive(zones) && j == FindMatch(zones, s, 0) < |zones|
    ensures Merged(zones, stacks + [s], ts) ==
            Merged(zones, stacks, ts)[j := Extend(Merge(zones[j], stacks, ts), s, ts)]
    ensures Fresh(zones, stacks + [s]) == Fresh(zones, stacks)
  {
    var all := stacks + [s];
    assert all[..|all| - 1] == stacks;
    assert forall i | 0 <= i < |zones| :: Matches(zones[i], s) <==> i == j;
  }

  lemma UpdateAppend<T>(a: seq<T>, b: seq<T>, j: nat, x: T)
    requires j < |a|
    ensures (a + b)[j := x] == a[j := x] + b && (a + b)[j] == a[j]
  {}

  lemma ApplyMatched(zones: seq<Zone>, stacks: seq<Stack>, s: Stack, ts: int, j: nat)
    requires DistinctStacks(stacks + [s]) && UniqueActive(zones)
    requires j == FindMatch(zones, s, 0) < |zones|
    ensures Apply(Closed(zones, stacks, ts), s, ts) == (Closed(zones, stacks + [s], ts), [])
  {
    var c, all := Closed(zones, stacks, ts), stacks + [s];
    FoundInClosed(zones, stacks, s, ts);
    OneZoneExtended(zones, stacks, s, ts, j);
    hide Merge, Fresh, FindMatch, Matches, Extend, UniqueActive, DistinctStacks;
    var m := Merged(zones, stacks, ts);
    UpdateAppend(m, Created(Fresh(zones, stacks), ts), j, Extend(m[j], s, ts));
  }

  lemma ApplyUnmatched(zones: seq<Zone>, stacks: seq<Stack>, s: Stack, ts: int)
    requires DistinctStacks(stacks + [s]) && FindMatch(zones, s, 0) == |zones|
    ensures Apply(Closed(zones, stacks, ts), s, ts) == (Closed(zones, stacks + [s], ts), [s])
  {
    var c := Closed(zones, stacks, ts);
    FoundInClosed(zones, stacks, s, ts);
    var all := stacks + [s];
    assert all[..|all| - 1] == stacks;
    assert Merged(zones, all, ts) == Merged(zones, stacks, ts);
    assert Created(Fresh(zones, stacks) + [s], ts) == Created(Fresh(zones, stacks), ts) + [NewZone(s, ts)];
    assert c + [NewZone(s, ts)] == Closed(zones, all, ts);
  }

  /** Handling all stacks in turn has a closed form: every zone keeps its place and is
      extended by the stack that matches it, the unmatched stacks become new zones in
      order, and exactly those are signalled. */
  lemma {:induction false} ApplyAllClosed(zones: seq<Zone>, stacks: seq<Stack>, ts: int)
    requires DistinctStacks(stacks) && UniqueActive(zones)
    ensures ApplyAll(zones, stacks, ts) == (Closed(zones, stacks, ts), Fresh(zones, stacks))
  {
    if stacks == [] {
      assert Merged(zones, stacks, ts) == zones;
      assert zones + [] == zones;
    } else {
      var before, s := stacks[..|stacks| - 1], stacks[|stacks| - 1];
      assert stacks == before + [s];
      ApplyAllClosed(zones, before, ts);
      if FindMatch(zones, s, 0) < |zones| {
        ApplyMatched(zones, before, s, ts, FindMatch(zones, s, 0));
        assert Fresh(zones, before) + [] == Fresh(zones, stacks);
      } else {
        ApplyUnmatched(zones, before, s, ts);
      }
    }
  }
}
