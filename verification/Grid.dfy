/** Why counting prices in ticks is faithful: on the grid of a positive tick size, each
    comparison with a tolerance says exactly what the comparison of the counts says. */
module Grid {
  import Reals

  function Price(i: int, tick: real): real {
    i as real * tick
  }

  lemma GridDifference(i: int, j: int, tick: real)
    requires tick > 0.0
    ensures Price(i, tick) - Price(j, tick) == (i - j) as real * tick
    ensures i > j ==> Price(i, tick) - Price(j, tick) >= tick
    ensures i < j ==> Price(i, tick) - Price(j, tick) <= -tick
  {
    var d := (i - j) as real;
    if i > j {
      assert (d - 1.0) * tick >= 0.0;
    } else if i < j {
      assert (d + 1.0) * tick <= 0.0;
    }
  }

  /** `find_level` and `get_or_create_level`: within a hundredth of a tick of a level. */
  lemma LevelTolerance(i: int, j: int, tick: real)
    requires tick > 0.0
    ensures Reals.Abs(Price(i, tick) - Price(j, tick)) < tick * 0.01 <==> i == j
  {
    GridDifference(i, j, tick);
  }

  /** Zone matching: within a millionth, for any tick size of at least a millionth. */
  lemma ZoneTolerance(i: int, j: int, tick: real)
    requires tick >= 0.000001
    ensures Reals.Abs(Price(i, tick) - Price(j, tick)) < 0.000001 <==> i == j
  {
    GridDifference(i, j, tick);
  }

  /** Zone resolution for any price of the bar: beyond the zone by more than half a tick,
      with the price counted in ticks. */
  lemma ResolveInTicks(bar: real, zone: int, tick: real)
    requires tick > 0.0
    ensures bar < Price(zone, tick) - tick * 0.5 <==> bar / tick < zone as real - 0.5
    ensures bar > Price(zone, tick) + tick * 0.5 <==> bar / tick > zone as real + 0.5
  {
    var z, inTicks := zone as real, bar / tick;
    Reals.QuotientTimes(bar, tick, inTicks);
    OffsetInTicks(bar, z, -0.5, tick, inTicks);
    OffsetInTicks(bar, z, 0.5, tick, inTicks);
  }

  lemma OffsetInTicks(bar: real, z: real, offset: real, tick: real, inTicks: real)
    requires tick > 0.0 && inTicks * tick == bar
    ensures bar < z * tick + tick * offset <==> inTicks < z + offset
    ensures bar > z * tick + tick * offset <==> inTicks > z + offset
  {
    Compare(inTicks, z + offset, tick);
    Compare(z + offset, inTicks, tick);
    assert (z + offset) * tick == z * tick + tick * offset;
  }

  lemma Compare(x: real, y: real, tick: real)
    requires tick > 0.0
    ensures x * tick < y * tick <==> x < y
  {
    if x < y {
      assert (y - x) * tick > 0.0;
    } else {
      assert (x - y) * tick >= 0.0;
    }
  }

  /** Zone resolution on the grid: beyond the zone by more than half a tick. */
  lemma ResolveTolerance(bar: int, zone: int, tick: real)
    requires tick > 0.0
    ensures Price(bar, tick) < Price(zone, tick) - tick * 0.5 <==> bar < zone
    ensures Price(bar, tick) > Price(zone, tick) + tick * 0.5 <==> bar > zone
  {
    GridDifference(bar, zone, tick);
  }
}
