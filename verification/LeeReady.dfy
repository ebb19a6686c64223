/** Lee-Ready classification of trades as a fold over the history of trades and quotes. */
module LeeReady {
  import opened Ticks

  const EPSILON: real := 0.000000001

  /** What the classifier remembers of one symbol. */
  datatype State = State(prevTradePrice: real, prevailingBid: real, prevailingAsk: real, lastClassified: TickSide)

  const INITIAL := State(0.0, 0.0, 0.0, Unknown)

  /** A trade with the aggressor that the exchange reports, or a quote. */
  datatype Event = TradeEvent(price: real, aggressor: int) | QuoteEvent(kind: TickType, price: real)

  predicate IsReady(s: State) {
    s.prevailingBid > 0.0 && s.prevailingAsk > 0.0
  }

  function Midpoint(s: State): real {
    (s.prevailingBid + s.prevailingAsk) * 0.5
  }

  function QuoteRule(price: real, midpoint: real): TickSide {
    if price > midpoint + EPSILON then Ask
    else if price < midpoint - EPSILON then Bid
    else Unknown
  }

  function TickRule(price: real, prevPrice: real, lastClassified: TickSide): TickSide {
    if price > prevPrice + EPSILON then Ask
    else if price < prevPrice - EPSILON then Bid
    else lastClassified
  }

  /** The side of a trade in a state. */
  function Side(s: State, price: real, aggressor: int): TickSide {
    if aggressor == 1 then Ask
    else if aggressor == 2 then Bid
    else if IsReady(s) then
      var side := QuoteRule(price, Midpoint(s));
      if side.Unknown? && s.prevTradePrice != 0.0 then TickRule(price, s.prevTradePrice, s.lastClassified) else side
    else if s.prevTradePrice != 0.0 then TickRule(price, s.prevTradePrice, s.lastClassified)
    else Unknown
  }

  function Step(s: State, e: Event): State {
    match e
    case TradeEvent(price, aggressor) =>
      s.(prevTradePrice := price, lastClassified := Side(s, price, aggressor))
    case QuoteEvent(kind, price) =>
      if kind.BidQuote? then s.(prevailingBid := price)
      else if kind.AskQuote? then s.(prevailingAsk := price)
      else s
  }

  /** The state after a history; its last classification is the side of the last trade. */
  function Run(events: seq<Event>): State {
    if events == [] then INITIAL else Step(Run(events[..|events| - 1]), events[|events| - 1])
  }

  class LeeReadyState {
    var prevTradePrice: real
    var prevailingBid: real
    var prevailingAsk: real
    var lastClassified: TickSide

    function View(): State
      reads this
    {
      State(prevTradePrice, prevailingBid, prevailingAsk, lastClassified)
    }

    constructor ()
      ensures View() == INITIAL
    {
      prevTradePrice, prevailingBid, prevailingAsk, lastClassified := 0.0, 0.0, 0.0, Unknown;
    }
  }

  /** Classifies a trade by the reported aggressor, else by the quote, else by the last price. */
  method ClassifyTrade(tradePrice: real, exchangeAggressor: int, state: LeeReadyState) returns (result: TickSide)
    modifies state
    ensures state.View() == Step(old(state.View()), TradeEvent(tradePrice, exchangeAggressor))
    ensures result == state.lastClassified
  {
    result := Unknown;
    if exchangeAggressor == 1 {
      result := Ask;
    } else if exchangeAggressor == 2 {
      result := Bid;
    } else if IsReady(state.View()) {
      result := QuoteRule(tradePrice, Midpoint(state.View()));
      if result == Unknown && state.prevTradePrice != 0.0 {
        result := TickRule(tradePrice, state.prevTradePrice, state.lastClassified);
      }
    } else if state.prevTradePrice != 0.0 {
      result := TickRule(tradePrice, state.prevTradePrice, state.lastClassified);
    }
    state.prevTradePrice := tradePrice;
    state.lastClassified := result;
  }

  method UpdateQuote(kind: TickType, price: real, state: LeeReadyState)
    modifies state
    ensures state.View() == Step(old(state.View()), QuoteEvent(kind, price))
  {
    if kind.BidQuote? {
      state.prevailingBid := price;
    } else if kind.AskQuote? {
      state.prevailingAsk := price;
    }
  }

  /** Classifies a trade tick without an aggressor, or takes over a quote. */
  method ClassifyInplace(tick: Tick, state: LeeReadyState) returns (classified: Tick)
    modifies state
    ensures tick.kind.Trade? ==>
              && state.View() == Step(old(state.View()), TradeEvent(tick.price, 0))
              && classified == tick.(side := state.lastClassified)
    ensures !tick.kind.Trade? ==>
              && state.View() == Step(old(state.View()), QuoteEvent(tick.kind, tick.price))
              && classified == tick
  {
    classified := tick;
    if tick.kind.Trade? {
      var side := ClassifyTrade(tick.price, 0, state);
      classified := tick.(side := side);
    } else if tick.kind.BidQuote? || tick.kind.AskQuote? {
      UpdateQuote(tick.kind, tick.price, state);
    }
  }

  /** At a spread of more than two epsilons, a trade at or above the ask without an
      aggressor is a buy, one at or below the bid is a sell, and no price increase turns
      a buy into a sell. */
  lemma QuotesDecide(s: State, price: real, higher: real, aggressor: int)
    requires IsReady(s) && s.prevailingAsk - s.prevailingBid > 2.0 * EPSILON
    requires aggressor != 1 && aggressor != 2 && price <= higher
    ensures price >= s.prevailingAsk ==> Side(s, price, aggressor).Ask?
    ensures price <= s.prevailingBid ==> Side(s, price, aggressor).Bid?
    ensures Side(s, price, aggressor).Ask? ==> !Side(s, higher, aggressor).Bid?
  {
    assert Midpoint(s) - s.prevailingBid == s.prevailingAsk - Midpoint(s) > EPSILON;
  }

  ghost predicate PricesNonZero(events: seq<Event>) {
    forall e | e in events && e.TradeEvent? :: e.price != 0.0
  }

  ghost predicate HasTrade(events: seq<Event>) {
    exists e :: e in events && e.TradeEvent?
  }

  /** After a history with a trade, and without a price of zero, the last trade price is set. */
  lemma {:induction false} LastPriceSet(events: seq<Event>)
    requires PricesNonZero(events) && HasTrade(events)
    ensures Run(events).prevTradePrice != 0.0
  {
    var n := |events| - 1;
    if events[n].QuoteEvent? {
      assert HasTrade(events[..n]) by {
        var e :| e in events && e.TradeEvent?;
        assert e in events[..n];
      }
      LastPriceSet(events[..n]);
    } else {
      assert events[n] in events;
    }
  }

  /** Without a price of zero, once a trade has been classified every later trade is
      classified, whatever quotes arrive in between. */
  lemma {:induction false} StaysClassified(events: seq<Event>, more: seq<Event>)
    requires PricesNonZero(events + more)
    requires !Run(events).lastClassified.Unknown?
    ensures !Run(events + more).lastClassified.Unknown?
  {
    if more == [] {
      assert events + more == events;
    } else {
      var n := |more| - 1;
      assert (events + more)[..|events + more| - 1] == events + more[..n];
      StaysClassified(events, more[..n]);
      ClassifiedHasTrade(events + more[..n]);
      LastPriceSet(events + more[..n]);
    }
  }

  lemma {:induction false} ClassifiedHasTrade(events: seq<Event>)
    requires !Run(events).lastClassified.Unknown?
    ensures HasTrade(events)
  {
    var n := |events| - 1;
    if events[n].QuoteEvent? {
      ClassifiedHasTrade(events[..n]);
    } else {
      assert events[n] in events;
    }
  }

  /** Event `i` is the latest trade of a history. */
  ghost predicate IsLatestTrade(events: seq<Event>, i: nat) {
    && i < |events| && events[i].TradeEvent?
    && forall j | i < j < |events| :: events[j].QuoteEvent?
  }

  ghost predicate OnlyQuotes(events: seq<Event>) {
    forall e | e in events :: e.QuoteEvent?
  }

  /** Quotes change neither the last trade price nor the last side. */
  lemma {:induction false} QuotesKeep(events: seq<Event>, quotes: seq<Event>)
    requires OnlyQuotes(quotes)
    ensures Run(events + quotes).prevTradePrice == Run(events).prevTradePrice
    ensures Run(events + quotes).lastClassified == Run(events).lastClassified
  {
    if quotes == [] {
      assert events + quotes == events;
    } else {
      var n := |quotes| - 1;
      assert (events + quotes)[..|events + quotes| - 1] == events + quotes[..n];
      assert quotes[n] in quotes;
      QuotesKeep(events, quotes[..n]);
    }
  }

  lemma LatestPrice(events: seq<Event>, i: nat)
    requires IsLatestTrade(events, i)
    ensures Run(events).prevTradePrice == events[i].price
  {
    var upto, quotes := events[..i + 1], events[i + 1..];
    assert events == upto + quotes && upto[..i] == events[..i];
    QuotesKeep(upto, quotes);
  }

  lemma RunSnoc(events: seq<Event>, e: Event)
    ensures Run(events + [e]) == Step(Run(events), e)
  {
    assert (events + [e])[..|events|] == events;
  }

  /** The side of the trade that comes after a history and more quotes. */
  ghost function NextSide(events: seq<Event>, quotes: seq<Event>, price: real, aggressor: int): TickSide {
    Run(events + quotes + [TradeEvent(price, aggressor)]).lastClassified
  }

  lemma NextSideOf(events: seq<Event>, quotes: seq<Event>, price: real, aggressor: int)
    requires OnlyQuotes(quotes)
    ensures NextSide(events, quotes, price, aggressor) == Side(Run(events + quotes), price, aggressor)
    ensures Run(events + quotes).prevTradePrice == Run(events).prevTradePrice
    ensures Run(events + quotes).lastClassified == Run(events).lastClassified
  {
    QuotesKeep(events, quotes);
    RunSnoc(events + quotes, TradeEvent(price, aggressor));
  }

  lemma PricedNextClassified(events: seq<Event>, quotes: seq<Event>, price: real, aggressor: int)
    requires OnlyQuotes(quotes)
    requires !Run(events).lastClassified.Unknown? && Run(events).prevTradePrice != 0.0
    ensures !NextSide(events, quotes, price, aggressor).Unknown?
  {
    hide Run, NextSide;
    NextSideOf(events, quotes, price, aggressor);
  }

  /** Without a last price, a trade at the midpoint has no side. */
  lemma UnpricedNextUnknown(events: seq<Event>)
    requires Run(events).prevTradePrice == 0.0
    ensures NextSide(events, [], Midpoint(Run(events)), 0).Unknown?
  {
    hide Run, NextSide;
    assert events + [] == events;
    NextSideOf(events, [], Midpoint(Run(events)), 0);
  }

  /** After a classified history, the next trade is classified, whatever quotes come
      before it and whatever its price and aggressor, exactly when the price of the
      latest trade is not zero. */
  lemma NextClassifiedExact(events: seq<Event>, i: nat)
    requires !Run(events).lastClassified.Unknown? && IsLatestTrade(events, i)
    ensures (forall quotes: seq<Event>, p: real, a: int | OnlyQuotes(quotes) ::
               !NextSide(events, quotes, p, a).Unknown?)
            <==> events[i].price != 0.0
  {
    hide Run, NextSide, Midpoint;
    LatestPrice(events, i);
    if events[i].price != 0.0 {
      forall quotes: seq<Event>, p: real, a: int | OnlyQuotes(quotes)
        ensures !NextSide(events, quotes, p, a).Unknown?
      {
        PricedNextClassified(events, quotes, p, a);
      }
    } else {
      UnpricedNextUnknown(events);
      assert OnlyQuotes([]);
    }
  }

  /** A price of zero is taken for no price: a classified trade at zero leaves the next
      trade at zero without a side. */
  lemma ZeroPriceForgets()
    ensures !Run([TradeEvent(0.0, 1)]).lastClassified.Unknown?
    ensures Run([TradeEvent(0.0, 1), TradeEvent(0.0, 0)]).lastClassified.Unknown?
  {
    var first, both := [TradeEvent(0.0, 1)], [TradeEvent(0.0, 1), TradeEvent(0.0, 0)];
    assert first[..0] == [] && both[..1] == first;
    assert Run(first) == INITIAL.(lastClassified := Ask);
  }

  /** A history of trades only. */
  ghost predicate OnlyTrades(events: seq<Event>) {
    forall e | e in events :: e.TradeEvent?
  }

  predicate HasAggressor(e: Event)
    requires e.TradeEvent?
  {
    e.aggressor == 1 || e.aggressor == 2
  }

  /** Trade `i` was reported as a buy, or nothing was reported and the price moved up by
      more than epsilon. */
  predicate MovedUp(events: seq<Event>, i: nat)
    requires i < |events|
  {
    && events[i].TradeEvent?
    && if HasAggressor(events[i]) then events[i].aggressor == 1
       else i >= 1 && events[i].price > events[i - 1].price + EPSILON
  }

  /** Trade `i` was reported as a sell, or nothing was reported and the price moved down
      by more than epsilon. */
  predicate MovedDown(events: seq<Event>, i: nat)
    requires i < |events|
  {
    && events[i].TradeEvent?
    && if HasAggressor(events[i]) then events[i].aggressor == 2
       else i >= 1 && events[i].price < events[i - 1].price - EPSILON
  }

  ghost predicate StillSince(events: seq<Event>, i: nat) {
    forall j: nat | i < j < |events| :: !MovedUp(events, j) && !MovedDown(events, j)
  }

  ghost predicate LatestMoveUp(events: seq<Event>) {
    exists i: nat :: i < |events| && MovedUp(events, i) && StillSince(events, i)
  }

  ghost predicate LatestMoveDown(events: seq<Event>) {
    exists i: nat :: i < |events| && MovedDown(events, i) && StillSince(events, i)
  }

  /** Without quotes, the side of the last trade is the direction of the latest event in
      the whole history that decides one: a reported aggressor, or a price move larger
      than epsilon. */
  lemma {:induction false} TickRuleMeaning(events: seq<Event>)
    requires OnlyTrades(events) && PricesNonZero(events)
    ensures Run(events).prevailingBid == Run(events).prevailingAsk == 0.0
    ensures events != [] ==> Run(events).prevTradePrice == events[|events| - 1].price
    ensures Run(events).lastClassified.Ask? <==> LatestMoveUp(events)
    ensures Run(events).lastClassified.Bid? <==> LatestMoveDown(events)
  {
    if events == [] {
    } else {
      var n := |events| - 1;
      var rest := events[..n];
      TickRuleMeaning(rest);
      assert events[n] in events;
      assert n > 0 ==> events[n - 1] in events && events[n - 1] == rest[n - 1];
      MovesOfRest(events);
    }
  }

  /** How the last trade changes the latest move. */
  lemma MovesOfRest(events: seq<Event>)
    requires OnlyTrades(events) && events != []
    ensures var n, rest := |events| - 1, events[..|events| - 1];
            && (LatestMoveUp(events) <==> MovedUp(events, n) || (!MovedDown(events, n) && LatestMoveUp(rest)))
            && (LatestMoveDown(events) <==> MovedDown(events, n) || (!MovedUp(events, n) && LatestMoveDown(rest)))
  {
    var n, rest := |events| - 1, events[..|events| - 1];
    forall i: nat | i < n
      ensures MovedUp(rest, i) == MovedUp(events, i) && MovedDown(rest, i) == MovedDown(events, i)
    {
    }
    forall i: nat | i < n
      ensures StillSince(events, i) <==> StillSince(rest, i) && !MovedUp(events, n) && !MovedDown(events, n)
    {
      StillSinceRest(events, i);
    }
    assert StillSince(events, n);
  }

  lemma StillSinceRest(events: seq<Event>, i: nat)
    requires OnlyTrades(events) && i < |events| - 1
    ensures var n, rest := |events| - 1, events[..|events| - 1];
            StillSince(events, i) <==> StillSince(rest, i) && !MovedUp(events, n) && !MovedDown(events, n)
  {
    var n, rest := |events| - 1, events[..|events| - 1];
    forall j: nat | j < n
      ensures MovedUp(rest, j) == MovedUp(events, j) && MovedDown(rest, j) == MovedDown(events, j)
    {
    }
  }

  // ---------------------------------------------------------------------------
  // The side of the next trade in terms of the whole history

  predicate IsQuoteOf(e: Event, kind: TickType) {
    e.QuoteEvent? && e.kind == kind
  }

  /** Event `i` is the latest quote of its kind. */
  ghost predicate IsLatestQuote(events: seq<Event>, kind: TickType, i: nat) {
    && i < |events| && IsQuoteOf(events[i], kind)
    && forall j | i < j < |events| :: !IsQuoteOf(events[j], kind)
  }

  /** `price` is that of the latest quote of a kind, or zero when there is none. */
  ghost predicate Prevails(events: seq<Event>, kind: TickType, price: real) {
    || ((forall i | 0 <= i < |events| :: !IsQuoteOf(events[i], kind)) && price == 0.0)
    || exists i: nat :: IsLatestQuote(events, kind, i) && events[i].price == price
  }

  lemma PrevailsNext(events: seq<Event>, e: Event, kind: TickType, price: real)
    requires Prevails(events, kind, price)
    ensures Prevails(events + [e], kind, if IsQuoteOf(e, kind) then e.price else price)
  {
    var all := events + [e];
    if IsQuoteOf(e, kind) {
      assert IsLatestQuote(all, kind, |events|);
    } else if i: nat :| IsLatestQuote(events, kind, i) && events[i].price == price {
      assert IsLatestQuote(all, kind, i) && all[i].price == price;
    } else {
      assert forall i | 0 <= i < |all| :: !IsQuoteOf(all[i], kind);
    }
  }

  /** The quotes that the classifier goes by are the latest of their kinds. */
  lemma {:induction false} QuotesPrevail(events: seq<Event>)
    ensures Prevails(events, BidQuote, Run(events).prevailingBid)
    ensures Prevails(events, AskQuote, Run(events).prevailingAsk)
  {
    if events == [] {
    } else {
      var n := |events| - 1;
      assert events == events[..n] + [events[n]];
      QuotesPrevail(events[..n]);
      PrevailsNext(events[..n], events[n], BidQuote, Run(events[..n]).prevailingBid);
      PrevailsNext(events[..n], events[n], AskQuote, Run(events[..n]).prevailingAsk);
    }
  }

  lemma {:induction false} PrevailsUnique(events: seq<Event>, kind: TickType, price: real, other: real)
    requires Prevails(events, kind, price) && Prevails(events, kind, other)
    ensures price == other
  {
    if i: nat :| IsLatestQuote(events, kind, i) && events[i].price == price {
      if j: nat :| IsLatestQuote(events, kind, j) && events[j].price == other {
        assert i == j;
      }
    }
  }

  /** `price` is that of the latest trade and `side` what it was classified as, or zero and unknown
      when there is no trade. */
  ghost predicate LastTrade(events: seq<Event>, price: real, side: TickSide) {
    || (OnlyQuotes(events) && price == 0.0 && side.Unknown?)
    || exists i: nat ::
         && IsLatestTrade(events, i) && events[i].price == price
         && Run(events[..i + 1]).lastClassified == side
  }

  lemma LastTradeIs(events: seq<Event>, price: real, side: TickSide)
    requires LastTrade(events, price, side)
    ensures Run(events).prevTradePrice == price && Run(events).lastClassified == side
  {
    hide Run;
    if i: nat :| IsLatestTrade(events, i) && events[i].price == price && Run(events[..i + 1]).lastClassified == side {
      LatestPrice(events, i);
      assert events == events[..i + 1] + events[i + 1..];
      QuotesKeep(events[..i + 1], events[i + 1..]);
    } else {
      assert [] + events == events;
      QuotesKeep([], events);
      InitialRun();
    }
  }

  lemma InitialRun()
    ensures Run([]) == INITIAL
  {}

  /** The next trade of any history, exactly. A reported aggressor decides. Otherwise, with a
      positive bid and ask, the latest of their kinds, a price more than a billionth above or
      below their midpoint decides. Otherwise, at the midpoint or without quotes, a price more
      than a billionth above or below that of the latest trade decides; within that the trade
      takes the side of the latest one, and without a trade, or after one at zero, none. */
  lemma NextSideExact(events: seq<Event>, price: real, aggressor: int, bid: real, ask: real, prev: real, last: TickSide)
    requires Prevails(events, BidQuote, bid) && Prevails(events, AskQuote, ask) && LastTrade(events, prev, last)
    ensures var side := Run(events + [TradeEvent(price, aggressor)]).lastClassified;
            var quoted := bid > 0.0 && ask > 0.0;
            side == if aggressor == 1 then Ask
                    else if aggressor == 2 then Bid
                    else if quoted && price > (bid + ask) / 2.0 + 0.000000001 then Ask
                    else if quoted && price < (bid + ask) / 2.0 - 0.000000001 then Bid
                    else if prev == 0.0 then Unknown
                    else if price > prev + 0.000000001 then Ask
                    else if price < prev - 0.000000001 then Bid
                    else last
  {
    hide Run, Prevails, LastTrade;
    QuotesPrevail(events);
    PrevailsUnique(events, BidQuote, bid, Run(events).prevailingBid);
    PrevailsUnique(events, AskQuote, ask, Run(events).prevailingAsk);
    LastTradeIs(events, prev, last);
    RunSnoc(events, TradeEvent(price, aggressor));
  }
}
