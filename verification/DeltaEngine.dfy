/** The delta engine: incremental delta metrics as facts about the ticks of a session. */
module DeltaEngine {
  import BarTypes
  import opened Ticks
  import Reals
  import opened Wrappers

  function Abs(x: int): (r: nat)
    ensures r == x || r == -x
  {
    if x < 0 then -x else x
  }

  /** Conversion of a real to an integer, which drops the fraction. */
  function Truncate(x: real): int {
    if x >= 0.0 then x.Floor else -((-x).Floor)
  }

  /** The integer `r` is the real `x` without its fraction. */
  ghost predicate IsTruncated(r: int, x: real) {
    if x >= 0.0 then r as real <= x < r as real + 1.0 else r as real - 1.0 < x <= r as real
  }

  /** The figures of the open bar, updated with each tick. */
  datatype BarPart = BarPart(
    runningDelta: int, maxDelta: int, minDelta: int, askVol: int, bidVol: int, totalVol: int)

  /** The figures of the session, updated when a bar closes. */
  datatype SessionPart = SessionPart(
    cumulativeDelta: int, maxDelta: int, minDelta: int, avgAbsDelta: int, barCount: nat,
    lastBarClose: real, lastBarCvd: int)

  const EMPTY_BAR := BarPart(0, 0, 0, 0, 0, 0)
  const EMPTY_SESSION := SessionPart(0, 0, 0, 0, 0, 0.0, 0)

  class DeltaState {
    var bar: BarPart
    var session: SessionPart

    constructor ()
      ensures bar == EMPTY_BAR && session == EMPTY_SESSION
    {
      bar, session := EMPTY_BAR, EMPTY_SESSION;
    }

    /** The state after a session whose bars took the ticks `bars` and whose open bar has
        taken the ticks `open`. */
    ghost predicate Describes(bars: seq<seq<Tick>>, open: seq<Tick>, alpha: real)
      reads this
    {
      DescribesBar(bar, open) && DescribesSession(session, bars, alpha)
    }
  }

  ghost predicate DescribesBar(bar: BarPart, open: seq<Tick>) {
    && bar.askVol == Total(open, AskVolume)
    && bar.bidVol == Total(open, BidVolume)
    && bar.totalVol == Total(open, Volume)
    && bar.runningDelta == Delta(open)
    && IsPeak(bar.maxDelta, open)
    && IsTrough(bar.minDelta, open)
  }

  ghost predicate DescribesSession(session: SessionPart, bars: seq<seq<Tick>>, alpha: real) {
    && session.cumulativeDelta == Delta(Flatten(bars))
    && IsHighest(session.maxDelta, bars)
    && IsLowest(session.minDelta, bars)
    && session.avgAbsDelta == Ema(bars, alpha)
    && session.barCount == |bars|
    && session.lastBarCvd == session.cumulativeDelta
  }

  /** The first `k` ticks of a bar. */
  function Prefix(open: seq<Tick>, k: nat): seq<Tick>
    requires k <= |open|
  {
    open[..k]
  }

  /** `m` is the largest delta that the bar has had, counting its start. */
  ghost predicate IsPeak(m: int, open: seq<Tick>) {
    && (forall k: nat | k <= |open| :: Delta(Prefix(open, k)) <= m)
    && (exists k: nat :: k <= |open| && Delta(Prefix(open, k)) == m)
  }

  ghost predicate IsTrough(m: int, open: seq<Tick>) {
    && (forall k: nat | k <= |open| :: Delta(Prefix(open, k)) >= m)
    && (exists k: nat :: k <= |open| && Delta(Prefix(open, k)) == m)
  }

  /** `m` is the largest bar delta of the session, or zero when none is positive. */
  ghost predicate IsHighest(m: int, bars: seq<seq<Tick>>) {
    && m >= 0
    && (forall i | 0 <= i < |bars| :: Delta(bars[i]) <= m)
    && (m == 0 || exists i :: 0 <= i < |bars| && Delta(bars[i]) == m)
  }

  ghost predicate IsLowest(m: int, bars: seq<seq<Tick>>) {
    && m <= 0
    && (forall i | 0 <= i < |bars| :: Delta(bars[i]) >= m)
    && (m == 0 || exists i :: 0 <= i < |bars| && Delta(bars[i]) == m)
  }

  /** One step of the average: the first non-zero value seeds it. */
  function EmaStep(average: int, value: nat, alpha: real): int {
    if average == 0 then value
    else Truncate(alpha * value as real + (1.0 - alpha) * average as real)
  }

  /** The truncated moving average of the absolute bar deltas of a session. */
  function Ema(bars: seq<seq<Tick>>, alpha: real): int {
    if bars == [] then 0
    else EmaStep(Ema(bars[..|bars| - 1], alpha), Abs(Delta(bars[|bars| - 1])), alpha)
  }

  /** `pct` is the delta in percent of the volume, or zero when there is no volume. */
  ghost predicate IsPercent(pct: real, delta: int, volume: int) {
    if volume > 0 then pct * volume as real == 100.0 * delta as real else pct == 0.0
  }

  datatype Signal = Signal(long: bool)

  class DeltaEngine {
    const surgeEmaAlpha: real

    constructor (alpha: real)
      ensures surgeEmaAlpha == alpha
    {
      surgeEmaAlpha := alpha;
    }

    /** A tick that counts joins the open bar, any other tick changes nothing. */
    method OnTick(tick: Tick, state: DeltaState, ghost bars: seq<seq<Tick>>, ghost open: seq<Tick>)
      requires state.Describes(bars, open, surgeEmaAlpha)
      modifies state
      ensures state.Describes(bars, open + [tick], surgeEmaAlpha)
      ensures state.session == old(state.session)
      ensures !IsAccumulatable(tick) ==> state.bar == old(state.bar)
      ensures var b, was := state.bar, old(state.bar);
              var buys, sells := tick.kind.Trade? && tick.side.Ask?, tick.kind.Trade? && tick.side.Bid?;
              && b.askVol == was.askVol + (if buys then tick.volume else 0)
              && b.bidVol == was.bidVol + (if sells then tick.volume else 0)
              && b.runningDelta == was.runningDelta + (if buys then tick.volume else if sells then -tick.volume else 0)
    {
      hide Total, Delta, IsPeak, IsTrough, DescribesSession;
      OneMoreTick(open, tick);
      PeakSnoc(state.bar.maxDelta, open, tick);
      TroughSnoc(state.bar.minDelta, open, tick);
      if !IsAccumulatable(tick) {
        return;
      }
      var b, vol := state.bar, tick.volume;
      if tick.side.Ask? {
        b := b.(askVol := b.askVol + vol, runningDelta := b.runningDelta + vol);
      } else {
        b := b.(bidVol := b.bidVol + vol, runningDelta := b.runningDelta - vol);
      }
      b := b.(totalVol := b.askVol + b.bidVol);
      if b.runningDelta > b.maxDelta {
        b := b.(maxDelta := b.runningDelta);
      }
      if b.runningDelta < b.minDelta {
        b := b.(minDelta := b.runningDelta);
      }
      state.bar := b;
    }

    /** The open bar ends: its metrics go into its record and into the session. */
    method OnBarClose(record: BarTypes.BarRecord, state: DeltaState, ghost bars: seq<seq<Tick>>, ghost open: seq<Tick>)
      returns (closed: BarTypes.BarRecord)
      requires state.Describes(bars, open, surgeEmaAlpha)
      modifies state
      ensures state.Describes(bars + [open], [], surgeEmaAlpha)
      ensures closed.barDelta == Delta(open) && closed.totalVolume == Total(open, Volume)
      ensures IsPeak(closed.maxDelta, open) && IsTrough(closed.minDelta, open)
      ensures closed.cumulativeDelta == Delta(Flatten(bars + [open]))
      ensures IsPercent(closed.deltaPct, Delta(open), Total(open, Volume))
      ensures state.session.lastBarClose == closed.close == record.close && closed.open == record.open
    {
      hide Total, Delta, IsPeak, IsTrough, IsHighest, IsLowest, Ema, EmaStep, Flatten, IsPercent;
      TotalsSplit(open);
      var b, s := state.bar, state.session;
      var barDelta := b.askVol - b.bidVol;
      SessionSnoc(s.cumulativeDelta, s.maxDelta, s.minDelta, bars, open, surgeEmaAlpha);
      s := s.(cumulativeDelta := s.cumulativeDelta + barDelta);
      var pct := Percentage(barDelta, b.totalVol);
      closed := record.(barDelta := barDelta, maxDelta := b.maxDelta, minDelta := b.minDelta,
                        cumulativeDelta := s.cumulativeDelta, deltaPct := pct, totalVolume := b.totalVol);
      if barDelta > s.maxDelta {
        s := s.(maxDelta := barDelta);
      }
      if barDelta < s.minDelta {
        s := s.(minDelta := barDelta);
      }
      var average := Average(s.avgAbsDelta, Abs(barDelta));
      s := s.(avgAbsDelta := average, lastBarClose := record.close, lastBarCvd := s.cumulativeDelta,
              barCount := s.barCount + 1);
      state.session := s;
      state.bar := EMPTY_BAR;
      EmptyBar();
    }

    method Percentage(delta: int, volume: int) returns (pct: real)
      ensures IsPercent(pct, delta, volume)
    {
      pct := 0.0;
      if volume > 0 {
        pct := delta as real / volume as real * 100.0;
        Percent(delta as real, volume as real, pct);
      }
    }

    /** The average after one more bar. */
    method Average(average: int, absDelta: nat) returns (r: int)
      ensures r == EmaStep(average, absDelta, surgeEmaAlpha)
      ensures average == 0 ==> r == absDelta
      ensures average != 0 ==>
                IsTruncated(r, surgeEmaAlpha * absDelta as real + (1.0 - surgeEmaAlpha) * average as real)
    {
      if average == 0 {
        r := absDelta;
      } else {
        r := Truncate(surgeEmaAlpha * absDelta as real + (1.0 - surgeEmaAlpha) * average as real);
      }
    }

    method OnSessionOpen(state: DeltaState)
      modifies state
      ensures state.bar == EMPTY_BAR && state.session == EMPTY_SESSION
      ensures state.Describes([], [], surgeEmaAlpha)
    {
      state.bar, state.session := EMPTY_BAR, EMPTY_SESSION;
      EmptyBar();
    }

    /** A signal is raised exactly when the session has had a bar with a delta and the
        bar's delta reaches `threshold` times the largest one; its direction is the sign. */
    method DetectExtremeDelta(bar: BarTypes.BarRecord, state: DeltaState, threshold: real) returns (signal: Option<Signal>)
      ensures var largest := Larger(Abs(state.session.maxDelta), Abs(state.session.minDelta));
              signal.Some? <==> Reaches(Abs(bar.barDelta), largest, threshold)
      ensures var largest := Larger(Abs(state.session.maxDelta), Abs(state.session.minDelta));
              signal.Some? <==> largest > 0 && Abs(bar.barDelta) as real >= threshold * largest as real
      ensures signal.Some? ==> (signal.value.long <==> bar.barDelta > 0)
    {
      ReachesIs(Abs(bar.barDelta), Larger(Abs(state.session.maxDelta), Abs(state.session.minDelta)), threshold);
      hide Reaches;
      if state.session.maxDelta == 0 && state.session.minDelta == 0 {
        return None;
      }
      var absDelta := Abs(bar.barDelta);
      var sessionMax := Larger(Abs(state.session.maxDelta), Abs(state.session.minDelta));
      if sessionMax == 0 {
        return None;
      }
      var ratio := absDelta as real / sessionMax as real;
      RatioReaches(absDelta as real, sessionMax as real, threshold, ratio);
      if ratio < threshold {
        return None;
      }
      signal := Some(Signal(bar.barDelta > 0));
    }

    /** A bar closes and is then looked at. Its delta has already entered the session
        extremes, so it is compared with the largest delta of the bars before it or with
        itself, whichever is larger; no threshold above one ever gives a signal. */
    method CloseAndDetect(record: BarTypes.BarRecord, state: DeltaState, threshold: real,
                          ghost bars: seq<seq<Tick>>, ghost open: seq<Tick>) returns (signal: Option<Signal>)
      requires state.Describes(bars, open, surgeEmaAlpha)
      modifies state
      ensures state.Describes(bars + [open], [], surgeEmaAlpha)
      ensures signal.Some? <==> SignalRaised(bars, open, threshold)
      ensures signal.Some? ==> (signal.value.long <==> Delta(open) > 0)
      ensures threshold > 1.0 ==> signal.None?
    {
      hide Total, Delta, IsPeak, IsTrough, IsHighest, IsLowest, Ema, Flatten, LargestDelta, Reaches;
      var closed := OnBarClose(record, state, bars, open);
      signal := DetectExtremeDelta(closed, state, threshold);
      ExtremesGiveLargest(bars + [open], state.session.maxDelta, state.session.minDelta);
      LargestSnoc(bars, open);
      NotExtreme(bars, open, threshold);
    }
  }

  function Larger(x: int, y: int): int {
    if x < y then y else x
  }

  /** A delta of size `d` reaches `threshold` times the largest one. */
  ghost predicate Reaches(d: nat, largest: nat, threshold: real) {
    largest > 0 && d as real >= threshold * largest as real
  }

  /** The largest size of a bar delta of the session, zero when it has no bars. */
  function LargestDelta(bars: seq<seq<Tick>>): (m: nat)
    ensures m == 0 || exists i :: 0 <= i < |bars| && Abs(Delta(bars[i])) == m
    ensures forall i | 0 <= i < |bars| :: Abs(Delta(bars[i])) <= m
  {
    if bars == [] then 0
    else Larger(LargestDelta(bars[..|bars| - 1]), Abs(Delta(bars[|bars| - 1])))
  }

  /** The test that the engine makes for the bar `open` after the bars before it. */
  ghost predicate SignalRaised(bars: seq<seq<Tick>>, open: seq<Tick>, threshold: real) {
    Reaches(Abs(Delta(open)), Larger(LargestDelta(bars), Abs(Delta(open))), threshold)
  }

  /** The test against the bars before it alone. */
  ghost predicate ReachesEarlier(bars: seq<seq<Tick>>, open: seq<Tick>, threshold: real) {
    Reaches(Abs(Delta(open)), LargestDelta(bars), threshold)
  }

  lemma LargestSnoc(bars: seq<seq<Tick>>, open: seq<Tick>)
    ensures LargestDelta(bars + [open]) == Larger(LargestDelta(bars), Abs(Delta(open)))
  {
    assert (bars + [open])[..|bars|] == bars;
  }

  /** The two session extremes hold the largest size of a delta between them. */
  lemma ExtremesGiveLargest(bars: seq<seq<Tick>>, high: int, low: int)
    requires IsHighest(high, bars) && IsLowest(low, bars)
    ensures Larger(Abs(high), Abs(low)) == LargestDelta(bars)
  {
    hide LargestDelta, Delta;
  }

  lemma Percent(x: real, y: real, pct: real)
    requires y > 0.0 && pct == x / y * 100.0
    ensures pct * y == 100.0 * x
  {
    var q := x / y;
    assert q * y == x;
    assert q * 100.0 * y == 100.0 * (q * y);
  }

  lemma ReachesIs(d: nat, largest: nat, threshold: real)
    ensures Reaches(d, largest, threshold) <==> largest > 0 && d as real >= threshold * largest as real
  {}

  lemma RatioReaches(x: real, y: real, threshold: real, ratio: real)
    requires y > 0.0 && ratio == x / y
    ensures ratio >= threshold <==> x >= threshold * y
  {
    assert ratio * y == x;
    if ratio >= threshold {
      assert (ratio - threshold) * y >= 0.0;
    } else {
      assert (threshold - ratio) * y > 0.0;
    }
  }

  lemma EmptyBar()
    ensures Total([], AskVolume) == Total([], BidVolume) == Total([], Volume) == Delta([]) == 0
    ensures IsPeak(0, []) && IsTrough(0, [])
  {
    assert Delta(Prefix([], 0)) == 0;
  }

  lemma OneMoreTick(open: seq<Tick>, t: Tick)
    ensures Total(open + [t], AskVolume) == Total(open, AskVolume) + AskVolume(t)
    ensures Total(open + [t], BidVolume) == Total(open, BidVolume) + BidVolume(t)
    ensures Delta(open + [t]) == Delta(open) + SignedVolume(t)
    ensures Total(open, Volume) == Total(open, AskVolume) + Total(open, BidVolume)
    ensures Total(open + [t], Volume) == Total(open + [t], AskVolume) + Total(open + [t], BidVolume)
  {
    TotalSnoc(open, t, AskVolume);
    TotalSnoc(open, t, BidVolume);
    TotalSnoc(open, t, SignedVolume);
    TotalsSplit(open);
    TotalsSplit(open + [t]);
  }

  lemma PrefixSnoc(open: seq<Tick>, t: Tick)
    ensures Prefix(open + [t], |open| + 1) == open + [t]
    ensures forall k: nat | k <= |open| :: Prefix(open + [t], k) == Prefix(open, k)
  {
    forall k: nat | k <= |open| ensures Prefix(open + [t], k) == Prefix(open, k) {
      assert (open + [t])[..k] == open[..k];
    }
  }

  lemma PeakSnoc(m: int, open: seq<Tick>, t: Tick)
    requires IsPeak(m, open)
    ensures Delta(open) <= m
    ensures IsPeak(Larger(m, Delta(open + [t])), open + [t])
  {
    PrefixSnoc(open, t);
    var k: nat :| k <= |open| && Delta(Prefix(open, k)) == m;
    assert Delta(Prefix(open + [t], k)) == m;
    assert Delta(Prefix(open + [t], |open| + 1)) == Delta(open + [t]);
    assert Prefix(open, |open|) == open;
  }

  lemma TroughSnoc(m: int, open: seq<Tick>, t: Tick)
    requires IsTrough(m, open)
    ensures Delta(open) >= m
    ensures IsTrough(-Larger(-m, -Delta(open + [t])), open + [t])
  {
    PrefixSnoc(open, t);
    var k: nat :| k <= |open| && Delta(Prefix(open, k)) == m;
    assert Delta(Prefix(open + [t], k)) == m;
    assert Delta(Prefix(open + [t], |open| + 1)) == Delta(open + [t]);
    assert Prefix(open, |open|) == open;
  }

  /** How the session figures change when the bar `open` ends. */
  lemma SessionSnoc(cumulative: int, high: int, low: int, bars: seq<seq<Tick>>, open: seq<Tick>, alpha: real)
    requires cumulative == Delta(Flatten(bars)) && IsHighest(high, bars) && IsLowest(low, bars)
    ensures Delta(Flatten(bars + [open])) == cumulative + Delta(open)
    ensures IsHighest(Larger(high, Delta(open)), bars + [open])
    ensures IsLowest(-Larger(-low, -Delta(open)), bars + [open])
    ensures Ema(bars + [open], alpha) == EmaStep(Ema(bars, alpha), Abs(Delta(open)), alpha)
  {
    FlattenSnoc(bars, open);
    TotalAppend(Flatten(bars), open, SignedVolume);
    var all := bars + [open];
    assert all[..|bars|] == bars && all[|bars|] == open;
    assert forall i | 0 <= i < |bars| :: all[i] == bars[i];
    if high > 0 {
      var i :| 0 <= i < |bars| && Delta(bars[i]) == high;
      assert Delta(all[i]) == high;
    }
    if low < 0 {
      var i :| 0 <= i < |bars| && Delta(bars[i]) == low;
      assert Delta(all[i]) == low;
    }
  }

  /** A bar never reaches more than the largest delta it is itself part of. */
  lemma NotExtreme(bars: seq<seq<Tick>>, open: seq<Tick>, threshold: real)
    ensures threshold > 1.0 ==> !SignalRaised(bars, open, threshold)
  {
    hide Reaches;
    if threshold > 1.0 {
      OutOfReach(Abs(Delta(open)), Larger(LargestDelta(bars), Abs(Delta(open))), threshold);
    }
  }

  lemma OutOfReach(d: nat, largest: nat, threshold: real)
    requires d <= largest && threshold > 1.0
    ensures !Reaches(d, largest, threshold)
  {
    if largest > 0 {
      BelowMultiple(d, largest, threshold);
    }
  }

  lemma BelowMultiple(x: nat, y: nat, factor: real)
    requires x <= y && y > 0 && factor > 1.0
    ensures (x as real) < factor * y as real
  {
    GrowsBy(y as real, factor, factor * y as real);
  }

  lemma GrowsBy(r: real, factor: real, product: real)
    requires r > 0.0 && factor > 1.0 && product == factor * r
    ensures r < product
  {
    assert product - r == (factor - 1.0) * r;
  }

  /** After any bars, the engine's test agrees with a test against those bars alone, for
      every next bar, exactly when either the threshold is at most one and some earlier
      bar had a delta, or neither. */
  lemma ExtremeAgainstEarlier(bars: seq<seq<Tick>>, threshold: real)
    ensures (forall open: seq<Tick> :: SignalRaised(bars, open, threshold) <==> ReachesEarlier(bars, open, threshold))
            <==> (threshold <= 1.0 <==> LargestDelta(bars) > 0)
  {
    hide LargestDelta, Delta;
    var earlier := LargestDelta(bars);
    if threshold <= 1.0 <==> earlier > 0 {
      forall open: seq<Tick>
        ensures SignalRaised(bars, open, threshold) <==> ReachesEarlier(bars, open, threshold)
      {
        if threshold <= 1.0 {
          SameAtMostOne(Abs(Delta(open)), earlier, threshold);
        } else {
          NotExtreme(bars, open, threshold);
        }
      }
    } else if threshold <= 1.0 {
      BarWithDelta(1);
      AtLeastMultiple(1, 1, threshold);
      assert SignalRaised(bars, OneTick(1), threshold) && !ReachesEarlier(bars, OneTick(1), threshold);
    } else {
      var d: nat := (threshold * earlier as real).Floor + 1;
      BarWithDelta(d);
      NotExtreme(bars, OneTick(d), threshold);
      assert ReachesEarlier(bars, OneTick(d), threshold);
    }
  }

  /** A bar of one tick that buys `d`. */
  function OneTick(d: nat): seq<Tick> {
    [Tick(0, 0.0, d, Ask, Trade)]
  }

  lemma BarWithDelta(d: nat)
    ensures Delta(OneTick(d)) == d
  {
    var t := Tick(0, 0.0, d, Ask, Trade);
    TotalSnoc([], t, SignedVolume);
    assert [] + [t] == OneTick(d);
  }

  lemma SameAtMostOne(d: nat, earlier: nat, threshold: real)
    requires threshold <= 1.0 && earlier > 0
    ensures Reaches(d, Larger(earlier, d), threshold) <==> Reaches(d, earlier, threshold)
  {
    if d > earlier {
      AtLeastMultiple(d, d, threshold);
      AtLeastMultiple(d, earlier, threshold);
    }
  }

  lemma AtLeastMultiple(x: nat, y: nat, factor: real)
    requires x >= y && factor <= 1.0
    ensures x as real >= factor * y as real
  {
    Reals.NonNegativeProduct(1.0 - factor, y as real);
  }

  /** The cumulative delta does not depend on where the ticks were cut into bars. */
  lemma CutsIrrelevant(a: seq<seq<Tick>>, b: seq<seq<Tick>>)
    requires Flatten(a) == Flatten(b)
    ensures SumOfDeltas(a) == SumOfDeltas(b)
  {
    DeltasSum(a);
    DeltasSum(b);
  }

  function SumOfDeltas(bars: seq<seq<Tick>>): int {
    if bars == [] then 0 else SumOfDeltas(bars[..|bars| - 1]) + Delta(bars[|bars| - 1])
  }

  /** The bar deltas of a session sum to the signed volume of all its ticks. */
  lemma {:induction false} DeltasSum(bars: seq<seq<Tick>>)
    ensures SumOfDeltas(bars) == Delta(Flatten(bars))
  {
    if bars == [] {
    } else {
      var rest, last := bars[..|bars| - 1], bars[|bars| - 1];
      DeltasSum(rest);
      TotalAppend(Flatten(rest), last, SignedVolume);
    }
  }

  /** For a smoothing factor from zero to one, the truncated average lies between the
      smallest and the largest absolute bar delta. */
  lemma {:induction false} EmaBounds(bars: seq<seq<Tick>>, alpha: real, low: nat, high: nat)
    requires bars != [] && 0.0 <= alpha <= 1.0
    requires forall i | 0 <= i < |bars| :: low <= Abs(Delta(bars[i])) <= high
    ensures low <= Ema(bars, alpha) <= high
  {
    var rest, last := bars[..|bars| - 1], bars[|bars| - 1];
    if rest == [] {
      assert Ema(rest, alpha) == 0;
    } else {
      forall i | 0 <= i < |rest| ensures low <= Abs(Delta(rest[i])) <= high {
        assert rest[i] == bars[i];
      }
      EmaBounds(rest, alpha, low, high);
      EmaStepBounds(Ema(rest, alpha), Abs(Delta(last)), alpha, low, high);
    }
  }

  lemma EmaStepBounds(average: int, value: nat, alpha: real, low: nat, high: nat)
    requires 0.0 <= alpha <= 1.0 && low <= average <= high && low <= value <= high
    ensures low <= EmaStep(average, value, alpha) <= high
  {
    var x, y := value as real, average as real;
    MixBounds(x, y, alpha, low as real, high as real);
  }

  /** The weights of the average: with a factor of one it follows the last bar, with a factor of
      zero it stays, and with any factor from zero on it never falls when the bar's delta is
      larger. */
  lemma EmaWeights(average: int, value: nat, larger: nat, alpha: real)
    requires average > 0 && value <= larger
    ensures EmaStep(average, value, 1.0) == value
    ensures EmaStep(average, value, 0.0) == average
    ensures 0.0 <= alpha ==> EmaStep(average, value, alpha) <= EmaStep(average, larger, alpha)
  {
    TruncateInteger(value);
    TruncateInteger(average);
    if 0.0 <= alpha {
      MixMonotone(alpha, value as real, larger as real, average as real);
      hide Truncate;
      TruncateMonotone(alpha * value as real + (1.0 - alpha) * average as real,
                       alpha * larger as real + (1.0 - alpha) * average as real);
    }
  }

  lemma MixMonotone(alpha: real, x: real, y: real, average: real)
    requires 0.0 <= alpha && x <= y
    ensures alpha * x + (1.0 - alpha) * average <= alpha * y + (1.0 - alpha) * average
  {
    Reals.NonNegativeProduct(alpha, y - x);
  }

  lemma TruncateInteger(n: int)
    ensures Truncate(n as real) == n
  {}

  lemma TruncateMonotone(x: real, y: real)
    requires x <= y
    ensures Truncate(x) <= Truncate(y)
  {}

  lemma MixBounds(x: real, y: real, alpha: real, low: real, high: real)
    requires 0.0 <= alpha <= 1.0 && low <= x <= high && low <= y <= high
    ensures low <= alpha * x + (1.0 - alpha) * y <= high
  {
    Reals.NonNegativeProduct(alpha, x - low);
    Reals.NonNegativeProduct(alpha, high - x);
    Reals.NonNegativeProduct(1.0 - alpha, y - low);
    Reals.NonNegativeProduct(1.0 - alpha, high - y);
  }
}
