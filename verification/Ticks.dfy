/** Market ticks, and sums over the ticks that count. */
module Ticks {
  datatype TickSide = Ask | Bid | Unknown

  datatype TickType = Trade | BidQuote | AskQuote | Summary

  datatype Tick = Tick(ts: int, price: real, volume: int, side: TickSide, kind: TickType)

  predicate IsAccumulatable(t: Tick) {
    t.kind.Trade? && !t.side.Unknown?
  }

  /** The ticks that are put into bid and ask volume, in their order. */
  function Accumulatable(ticks: seq<Tick>): (r: seq<Tick>)
    ensures forall t | t in r :: IsAccumulatable(t) && t in ticks
  {
    if ticks == [] then []
    else
      var n := |ticks| - 1;
      Accumulatable(ticks[..n]) + if IsAccumulatable(ticks[n]) then [ticks[n]] else []
  }

  function AskVolume(t: Tick): int {
    if IsAccumulatable(t) && t.side.Ask? then t.volume else 0
  }

  function BidVolume(t: Tick): int {
    if IsAccumulatable(t) && !t.side.Ask? then t.volume else 0
  }

  function Volume(t: Tick): int {
    AskVolume(t) + BidVolume(t)
  }

  function SignedVolume(t: Tick): int {
    AskVolume(t) - BidVolume(t)
  }

  /** The sum of a measure over a list of ticks. */
  function Total(ticks: seq<Tick>, f: Tick -> int): int {
    if ticks == [] then 0 else Total(ticks[..|ticks| - 1], f) + f(ticks[|ticks| - 1])
  }

  /** The signed volume of a list of ticks: buying volume minus selling volume. */
  function Delta(ticks: seq<Tick>): int {
    Total(ticks, SignedVolume)
  }

  lemma TotalSnoc(ticks: seq<Tick>, t: Tick, f: Tick -> int)
    ensures Total(ticks + [t], f) == Total(ticks, f) + f(t)
  {
    assert (ticks + [t])[..|ticks|] == ticks;
  }

  lemma {:induction false} TotalAppend(a: seq<Tick>, b: seq<Tick>, f: Tick -> int)
    ensures Total(a + b, f) == Total(a, f) + Total(b, f)
  {
    if b == [] {
      assert a + b == a;
    } else {
      var n := |b| - 1;
      assert (a + b)[..|a + b| - 1] == a + b[..n];
      TotalAppend(a, b[..n], f);
    }
  }

  lemma {:induction false} TotalsSplit(ticks: seq<Tick>)
    ensures Total(ticks, Volume) == Total(ticks, AskVolume) + Total(ticks, BidVolume)
    ensures Delta(ticks) == Total(ticks, AskVolume) - Total(ticks, BidVolume)
  {
    if ticks == [] {
    } else {
      TotalsSplit(ticks[..|ticks| - 1]);
    }
  }

  lemma AccumulatableSnoc(ticks: seq<Tick>, t: Tick)
    ensures Accumulatable(ticks + [t]) == Accumulatable(ticks) + if IsAccumulatable(t) then [t] else []
  {
    assert (ticks + [t])[..|ticks|] == ticks;
  }

  /** Several lists of ticks, one after the other. */
  function Flatten(lists: seq<seq<Tick>>): seq<Tick> {
    if lists == [] then [] else Flatten(lists[..|lists| - 1]) + lists[|lists| - 1]
  }

  lemma FlattenSnoc(lists: seq<seq<Tick>>, last: seq<Tick>)
    ensures Flatten(lists + [last]) == Flatten(lists) + last
  {
    assert (lists + [last])[..|lists|] == lists;
  }
}
