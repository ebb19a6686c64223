/** Routing with the steps of the rings in between: route calls for different buffers and
    the consumers of the buffers run at the same time, one atomic step at a time. A route
    call holds the registry lock in shared mode from its lookup to its return, so no
    registration comes in between; a consumer takes no lock. `B` names the buffers. */
module ConcurrentRouter {
  import opened Wrappers
  import opened Fifo
  import opened RouterProtocol
  import Bits
  import Sets
  import Ring = WrappedRing

  /** The registry limit, the ring geometry, and what the slots hold at first. */
  datatype Geometry<P> = Geometry(max: nat, k: nat, slots: seq<Tick<P>>)

  ghost predicate Sized<P>(u: Geometry<P>) {
    |u.slots| == Bits.Pow2(u.k)
  }

  /** Where a route call stands: inside `try_push`, or about to count its outcome. */
  datatype Call<P> = Pushing(tick: Tick<P>) | Counting(tick: Tick<P>, pushed: bool)

  datatype State<B(==), P> = State(
    registry: map<nat, B>, rings: map<B, Ring.Config<Tick<P>>>, calls: map<B, Call<P>>,
    routed: nat, dropped: nat, unknown: nat)

  /** `Begin` is the lookup of a route call, `Push` the next step of the call that pushes
      into a buffer, `Pop` the next step of the consumer of a buffer. */
  datatype Action<B, P> =
    | Register(id: nat, buffer: Option<B>)
    | Unregister(id: nat)
    | Begin(tick: Tick<P>)
    | Push(buf: B)
    | Pop(buf: B)

  ghost predicate RingsShaped<B, P>(u: Geometry<P>, s: State<B, P>) {
    forall b | b in s.rings :: Ring.ConfigShaped(u.k, s.rings[b])
  }

  ghost function RingOf<B, P>(u: Geometry<P>, s: State<B, P>, b: B): (g: Ring.Config<Tick<P>>)
    requires Sized(u) && RingsShaped(u, s)
    ensures Ring.ConfigShaped(u.k, g)
  {
    if b in s.rings then s.rings[b] else Ring.Run(u.k, u.slots, [])
  }

  ghost function TakeTurn<B, P>(u: Geometry<P>, s: State<B, P>, b: B, turn: Ring.Turn<Tick<P>>): (s': State<B, P>)
    requires Sized(u) && RingsShaped(u, s)
    ensures RingsShaped(u, s')
  {
    s.(rings := s.rings[b := Ring.Step(u.k, RingOf(u, s, b), turn)])
  }

  /** One step of the call that pushes into `b`: a step of `try_push`, then the counter. */
  ghost function PushStep<B, P>(u: Geometry<P>, s: State<B, P>, b: B): (s': State<B, P>)
    requires Sized(u) && RingsShaped(u, s) && b in s.calls
    ensures RingsShaped(u, s')
  {
    match s.calls[b]
    case Pushing(tick) =>
      var after := TakeTurn(u, s, b, Ring.ProducerTurn(tick));
      if RingOf(u, after, b).producer.ProducerIdle?
      then after.(calls := s.calls[b := Counting(tick, RingOf(u, s, b).producer.SlotWritten?)])
      else after
    case Counting(_, pushed) =>
      if pushed then s.(calls := s.calls - {b}, routed := s.routed + 1)
      else s.(calls := s.calls - {b}, dropped := s.dropped + 1)
  }

  /** A registration waits for all route calls to return, and a route call for the one
      before it on the same buffer: a buffer has one producer. */
  ghost function Step<B, P>(u: Geometry<P>, s: State<B, P>, a: Action<B, P>): (s': State<B, P>)
    requires Sized(u) && RingsShaped(u, s)
    ensures RingsShaped(u, s')
  {
    match a
    case Register(id, buffer) =>
      if s.calls != map[] || buffer.None? || |s.registry| >= u.max then s
      else s.(registry := s.registry[id := buffer.value])
    case Unregister(id) => if s.calls != map[] then s else s.(registry := s.registry - {id})
    case Begin(tick) =>
      if tick.symbolId !in s.registry then s.(unknown := s.unknown + 1)
      else if s.registry[tick.symbolId] in s.calls then s
      else s.(calls := s.calls[s.registry[tick.symbolId] := Pushing(tick)])
    case Push(b) => if b in s.calls then PushStep(u, s, b) else s
    case Pop(b) => TakeTurn(u, s, b, Ring.ConsumerTurn)
  }

  ghost function Run<B, P>(u: Geometry<P>, actions: seq<Action<B, P>>): (s: State<B, P>)
    requires Sized(u)
    ensures RingsShaped(u, s)
  {
    if actions == [] then State(map[], map[], map[], 0, 0, 0)
    else Step(u, Run(u, actions[..|actions| - 1]), actions[|actions| - 1])
  }

  /** The turns that an action takes in the ring of `b`. */
  ghost function TurnsOf<B, P>(s: State<B, P>, a: Action<B, P>, b: B): seq<Ring.Turn<Tick<P>>> {
    if a == Push(b) && b in s.calls && s.calls[b].Pushing? then [Ring.ProducerTurn(s.calls[b].tick)]
    else if a == Pop(b) then [Ring.ConsumerTurn]
    else []
  }

  ghost function Schedule<B, P>(u: Geometry<P>, actions: seq<Action<B, P>>, b: B): seq<Ring.Turn<Tick<P>>>
    requires Sized(u)
  {
    if actions == [] then []
    else
      var before := actions[..|actions| - 1];
      Schedule(u, before, b) + TurnsOf(Run(u, before), actions[|actions| - 1], b)
  }

  /** The push that an action completes, if any. */
  ghost function Completes<B, P>(u: Geometry<P>, s: State<B, P>, a: Action<B, P>): seq<(B, Tick<P>)>
    requires Sized(u) && RingsShaped(u, s)
  {
    if a.Push? && a.buf in s.calls && s.calls[a.buf].Pushing? && RingOf(u, s, a.buf).producer.SlotWritten?
    then [(a.buf, s.calls[a.buf].tick)] else []
  }

  /** The pushes that succeeded in a run, in the order in which they were published. */
  ghost function Accepted<B, P>(u: Geometry<P>, actions: seq<Action<B, P>>): seq<(B, Tick<P>)>
    requires Sized(u)
  {
    if actions == [] then []
    else
      var before := actions[..|actions| - 1];
      Accepted(u, before) + Completes(u, Run(u, before), actions[|actions| - 1])
  }

  lemma RunOfRing<P>(u: Geometry<P>, schedule: seq<Ring.Turn<Tick<P>>>, turn: Ring.Turn<Tick<P>>)
    requires Sized(u)
    ensures Ring.Run(u.k, u.slots, schedule + [turn]) == Ring.Step(u.k, Ring.Run(u.k, u.slots, schedule), turn)
  {
    assert (schedule + [turn])[..|schedule|] == schedule;
  }

  lemma StepTurns<B, P>(u: Geometry<P>, s: State<B, P>, a: Action<B, P>, b: B)
    requires Sized(u) && RingsShaped(u, s)
    ensures var turns := TurnsOf(s, a, b);
            RingOf(u, Step(u, s, a), b) ==
            if turns == [] then RingOf(u, s, b) else Ring.Step(u.k, RingOf(u, s, b), turns[0])
    ensures |TurnsOf(s, a, b)| <= 1
  {
    hide Ring.Step, Ring.Run;
  }

  /** In every run the ring of a buffer is where a schedule of its producer and consumer
      steps leads: the theorems about one ring speak about each ring of the router. */
  lemma {:induction false} RingIsScheduled<B, P>(u: Geometry<P>, actions: seq<Action<B, P>>, b: B)
    requires Sized(u)
    ensures RingOf(u, Run(u, actions), b) == Ring.Run(u.k, u.slots, Schedule(u, actions, b))
  {
    if actions == [] {
    } else {
      var before, a := actions[..|actions| - 1], actions[|actions| - 1];
      var s := Run(u, before);
      RingIsScheduled(u, before, b);
      StepTurns(u, s, a, b);
      assert Run(u, actions) == Step(u, s, a);
      assert Schedule(u, actions, b) == Schedule(u, before, b) + TurnsOf(s, a, b);
      hide Run, Step, Schedule, TurnsOf, Ring.Run, Ring.Step;
      if TurnsOf(s, a, b) == [] {
        assert Schedule(u, before, b) + [] == Schedule(u, before, b);
      } else {
        assert TurnsOf(s, a, b) == [TurnsOf(s, a, b)[0]];
        RunOfRing(u, Schedule(u, before, b), TurnsOf(s, a, b)[0]);
      }
    }
  }

  /** A call and the ring it pushes into agree, and the symbol of the call is registered
      with that buffer as long as the call lasts. */
  ghost predicate CallAgrees<B, P>(u: Geometry<P>, s: State<B, P>, b: B)
    requires Sized(u) && RingsShaped(u, s)
  {
    var p := RingOf(u, s, b).producer;
    && (b in s.calls ==>
          var id := s.calls[b].tick.symbolId;
          id in s.registry && s.registry[id] == b)
    && (if b in s.calls && s.calls[b].Pushing? then p.ProducerIdle? || p.value == s.calls[b].tick
        else p.ProducerIdle?)
  }

  lemma StepAgrees<B, P>(u: Geometry<P>, s: State<B, P>, a: Action<B, P>, b: B)
    requires Sized(u) && RingsShaped(u, s) && CallAgrees(u, s, b)
    ensures CallAgrees(u, Step(u, s, a), b)
  {
  }

  lemma {:induction false} RunAgrees<B, P>(u: Geometry<P>, actions: seq<Action<B, P>>, b: B)
    requires Sized(u)
    ensures CallAgrees(u, Run(u, actions), b)
  {
    if actions == [] {
    } else {
      var before, a := actions[..|actions| - 1], actions[|actions| - 1];
      RunAgrees(u, before, b);
      StepAgrees(u, Run(u, before), a, b);
    }
  }

  lemma OfAppend<B, P>(log: seq<(B, Tick<P>)>, more: seq<(B, Tick<P>)>, b: B)
    requires |more| <= 1
    ensures Of(log + more, b) == Of(log, b) + Of(more, b)
    ensures Of(more, b) == if more != [] && more[0].0 == b then [more[0].1] else []
  {
    if more == [] {
      assert log + more == log;
    } else {
      assert (log + more)[..|log|] == log && more[..0] == [];
    }
  }

  /** An action adds to the accepted elements of a ring exactly what it completes there. */
  lemma StepPushes<B, P>(u: Geometry<P>, s: State<B, P>, a: Action<B, P>, b: B)
    requires Sized(u) && RingsShaped(u, s) && CallAgrees(u, s, b)
    ensures Pushed(RingOf(u, Step(u, s, a), b).shared.trace) ==
            Pushed(RingOf(u, s, b).shared.trace) + Of(Completes(u, s, a), b)
  {
    var g, turns := RingOf(u, s, b), TurnsOf(s, a, b);
    StepTurns(u, s, a, b);
    OfAppend([], Completes(u, s, a), b);
    TurnPushes(u.k, g, turns);
    assert turns != [] && turns[0].ProducerTurn? && g.producer.SlotWritten? ==> g.producer.value == s.calls[b].tick;
    hide Step, Ring.Step, Of, Pushed;
    assert Pushed(g.shared.trace) + [] == Pushed(g.shared.trace);
  }

  /** A turn adds to the accepted elements of a ring exactly when it publishes one. */
  lemma TurnPushes<T>(k: nat, g: Ring.Config<T>, turns: seq<Ring.Turn<T>>)
    requires Ring.ConfigShaped(k, g)
    ensures turns != [] ==>
              Pushed(Ring.Step(k, g, turns[0]).shared.trace) ==
              Pushed(g.shared.trace) +
              (if turns[0].ProducerTurn? && g.producer.SlotWritten? then [g.producer.value] else [])
  {
    if turns != [] {
      var trace := g.shared.trace;
      match turns[0]
      case ProducerTurn(_) =>
        match g.producer {
          case TailLoaded(v, _) => Snoc(0, trace, PushFull(v));
          case SlotWritten(v, _) => Snoc(0, trace, PushOk(v));
          case _ =>
        }
      case ConsumerTurn =>
        match g.consumer {
          case HeadLoaded(_) => Snoc(0, trace, PopEmpty);
          case ValueRead(_, v) => Snoc(0, trace, PopOk(v));
          case _ =>
        }
    }
  }

  lemma {:induction false} PushedAreAccepted<B, P>(u: Geometry<P>, actions: seq<Action<B, P>>, b: B)
    requires Sized(u)
    ensures Pushed(RingOf(u, Run(u, actions), b).shared.trace) == Of(Accepted(u, actions), b)
  {
    if actions == [] {
    } else {
      var before, a := actions[..|actions| - 1], actions[|actions| - 1];
      var s := Run(u, before);
      PushedAreAccepted(u, before, b);
      RunAgrees(u, before, b);
      StepPushes(u, s, a, b);
      OfAppend(Accepted(u, before), Completes(u, s, a), b);
      assert Run(u, actions) == Step(u, s, a);
      assert Accepted(u, actions) == Accepted(u, before) + Completes(u, s, a);
    }
  }

  /** Over every interleaving of route calls, registrations and consumers, down to the
      single steps of the rings: what the consumer of a buffer has popped followed by what
      the buffer holds are exactly the ticks routed to it, in the order in which they
      were published; the buffer never holds more than fits; and its ring answers as a
      bounded FIFO. */
  lemma EachRingItsOwn<B, P>(u: Geometry<P>, actions: seq<Action<B, P>>, b: B)
    requires Sized(u)
    ensures var trace := RingOf(u, Run(u, actions), b).shared.trace;
            && Popped(trace) + Contents(trace) == Of(Accepted(u, actions), b)
            && |Contents(trace)| <= Bits.Pow2(u.k) - 1
            && Legal(Bits.Pow2(u.k) - 1, trace)
  {
    hide Run, Ring.Run, Schedule, Accepted, Of, Popped, Contents, Pushed, Legal;
    RingIsScheduled(u, actions, b);
    Ring.RefinesFifo(u.k, u.slots, Schedule(u, actions, b));
    PushedAreAccepted(u, actions, b);
  }

  /** Action `l` of a run published entry `i` of its accepted ticks, at a moment when the
      symbol of the entry was registered with its buffer. */
  ghost predicate PublishedAt<B, P>(u: Geometry<P>, actions: seq<Action<B, P>>, i: nat, l: nat)
    requires Sized(u) && i < |Accepted(u, actions)|
  {
    && l < |actions|
    && var s, entry := Run(u, actions[..l]), Accepted(u, actions)[i];
       && |Accepted(u, actions[..l])| == i
       && actions[l] == Push(entry.0)
       && Completes(u, s, actions[l]) == [entry]
       && entry.1.symbolId in s.registry && s.registry[entry.1.symbolId] == entry.0
  }

  /** No buffer ever receives a tick whose symbol is not registered with it at the moment
      of publication. */
  lemma {:induction false} NoForeignTickEver<B, P>(u: Geometry<P>, actions: seq<Action<B, P>>, i: nat)
    requires Sized(u) && i < |Accepted(u, actions)|
    ensures exists l: nat :: PublishedAt(u, actions, i, l)
  {
    if actions == [] {
    } else {
      var n := |actions| - 1;
      var before, a := actions[..n], actions[n];
      var s := Run(u, before);
      assert Accepted(u, actions) == Accepted(u, before) + Completes(u, s, a);
      CompletesOne(u, s, a);
      hide Run, Accepted;
      assert actions[..n] == before;
      if i < |Accepted(u, before)| {
        NoForeignTickEver(u, before, i);
        var l: nat :| PublishedAt(u, before, i, l);
        assert before[..l] == actions[..l] && before[l] == actions[l];
        assert PublishedAt(u, actions, i, l);
      } else {
        RunAgrees(u, before, a.buf);
        assert PublishedAt(u, actions, i, n);
      }
    }
  }

  /** Does a `Begin` start a call: is its symbol unknown, or its buffer free? */
  ghost predicate Starts<B, P>(s: State<B, P>, a: Action<B, P>) {
    a.Begin? && (a.tick.symbolId in s.registry ==> s.registry[a.tick.symbolId] !in s.calls)
  }

  ghost function Started<B, P>(u: Geometry<P>, actions: seq<Action<B, P>>): nat
    requires Sized(u)
  {
    if actions == [] then 0
    else
      var before := actions[..|actions| - 1];
      Started(u, before) + if Starts(Run(u, before), actions[|actions| - 1]) then 1 else 0
  }

  /** The buffers into which a push has succeeded that is not counted yet. */
  ghost function Uncounted<B, P>(calls: map<B, Call<P>>): set<B> {
    set b | b in calls && calls[b].Counting? && calls[b].pushed
  }

  lemma OneMore<B>(a: set<B>, b: set<B>, x: B)
    requires x !in a && b == a + {x}
    ensures |b| == |a| + 1
  {}

  /** A new call, a call that moves on, and a call that returns. */
  lemma CallBegins<B, P>(calls: map<B, Call<P>>, b: B, tick: Tick<P>)
    requires b !in calls
    ensures |calls[b := Pushing(tick)].Keys| == |calls.Keys| + 1
    ensures |Uncounted(calls[b := Pushing(tick)])| == |Uncounted(calls)|
  {
    OneMore(calls.Keys, calls[b := Pushing(tick)].Keys, b);
    assert Uncounted(calls[b := Pushing(tick)]) == Uncounted(calls);
  }

  lemma CallMoves<B, P>(calls: map<B, Call<P>>, b: B, tick: Tick<P>, pushed: bool)
    requires b in calls && calls[b].Pushing?
    ensures |calls[b := Counting(tick, pushed)].Keys| == |calls.Keys|
    ensures |Uncounted(calls[b := Counting(tick, pushed)])| == |Uncounted(calls)| + if pushed then 1 else 0
  {
    var after := calls[b := Counting(tick, pushed)];
    assert after.Keys == calls.Keys;
    if pushed {
      OneMore(Uncounted(calls), Uncounted(after), b);
    } else {
      assert Uncounted(after) == Uncounted(calls);
    }
  }

  lemma CallReturns<B, P>(calls: map<B, Call<P>>, b: B)
    requires b in calls && calls[b].Counting?
    ensures |calls.Keys| == |(calls - {b}).Keys| + 1
    ensures |Uncounted(calls)| == |Uncounted(calls - {b})| + if calls[b].pushed then 1 else 0
  {
    OneMore((calls - {b}).Keys, calls.Keys, b);
    if calls[b].pushed {
      OneMore(Uncounted(calls - {b}), Uncounted(calls), b);
    } else {
      assert Uncounted(calls - {b}) == Uncounted(calls);
    }
  }

  /** What a step of a call does to the calls and the counters. */
  lemma PushOutcome<B, P>(u: Geometry<P>, s: State<B, P>, b: B)
    requires Sized(u) && RingsShaped(u, s) && b in s.calls
    ensures var s', tick, done := PushStep(u, s, b), s.calls[b].tick, Completes(u, s, Push(b)) != [];
            && s'.registry == s.registry && s'.unknown == s.unknown
            && (s.calls[b].Pushing? ==>
                  && s'.routed == s.routed && s'.dropped == s.dropped
                  && (s'.calls == s.calls[b := Counting(tick, done)] || (s'.calls == s.calls && !done)))
            && (s.calls[b].Counting? ==>
                  && s'.calls == s.calls - {b} && !done
                  && s'.routed == s.routed + (if s.calls[b].pushed then 1 else 0)
                  && s'.dropped == s.dropped + (if s.calls[b].pushed then 0 else 1))
  {}

  /** What one action does to the counters and the numbers of calls. */
  ghost predicate Tallies<B, P>(s: State<B, P>, s': State<B, P>, started: nat, completed: nat) {
    && s'.routed + s'.dropped + s'.unknown + |s'.calls.Keys| ==
       s.routed + s.dropped + s.unknown + |s.calls.Keys| + started
    && s'.routed + |Uncounted(s'.calls)| == s.routed + |Uncounted(s.calls)| + completed
  }

  lemma PushTallies<B, P>(u: Geometry<P>, s: State<B, P>, b: B)
    requires Sized(u) && RingsShaped(u, s) && b in s.calls
    ensures Tallies(s, PushStep(u, s, b), 0, |Completes(u, s, Push(b))|)
  {
    PushOutcome(u, s, b);
    CompletesOne(u, s, Push(b));
    var done := Completes(u, s, Push(b)) != [];
    hide PushStep, RingOf, RingsShaped, TakeTurn, Completes, Uncounted;
    if s.calls[b].Pushing? {
      CallMoves(s.calls, b, s.calls[b].tick, done);
    } else {
      CallReturns(s.calls, b);
    }
  }

  lemma BeginTallies<B, P>(u: Geometry<P>, s: State<B, P>, tick: Tick<P>)
    requires Sized(u) && RingsShaped(u, s)
    ensures Tallies(s, Step(u, s, Begin(tick)), if Starts(s, Begin(tick)) then 1 else 0, 0)
  {
    hide PushStep, RingOf, RingsShaped, TakeTurn, Completes, Uncounted;
    if tick.symbolId in s.registry && s.registry[tick.symbolId] !in s.calls {
      CallBegins(s.calls, s.registry[tick.symbolId], tick);
    }
  }

  lemma StepTallies<B, P>(u: Geometry<P>, s: State<B, P>, a: Action<B, P>)
    requires Sized(u) && RingsShaped(u, s)
    ensures Tallies(s, Step(u, s, a), if Starts(s, a) then 1 else 0, |Completes(u, s, a)|)
  {
    hide PushStep, RingOf, RingsShaped, TakeTurn, Uncounted;
    match a
    case Begin(tick) => BeginTallies(u, s, tick);
    case Push(b) =>
      if b in s.calls {
        PushTallies(u, s, b);
      }
    case Pop(b) => PopKeepsCalls(u, s, b);
    case _ =>
  }

  lemma PopKeepsCalls<B, P>(u: Geometry<P>, s: State<B, P>, b: B)
    requires Sized(u) && RingsShaped(u, s)
    ensures var s' := TakeTurn(u, s, b, Ring.ConsumerTurn);
            && s'.registry == s.registry && s'.calls == s.calls
            && s'.routed == s.routed && s'.dropped == s.dropped && s'.unknown == s.unknown
  {}

  lemma RegistryBounded<B, P>(u: Geometry<P>, s: State<B, P>, a: Action<B, P>)
    requires Sized(u) && RingsShaped(u, s) && |s.registry| <= u.max
    ensures |Step(u, s, a).registry| <= u.max
  {
    hide PushStep, RingOf, RingsShaped, TakeTurn;
    var s' := Step(u, s, a);
    match a
    case Unregister(id) =>
      Sets.FewerElements(s'.registry.Keys, s.registry.Keys);
      assert |s'.registry| == |s'.registry.Keys| && |s.registry| == |s.registry.Keys|;
    case Push(b) =>
      if b in s.calls {
        PushOutcome(u, s, b);
      }
    case Pop(b) => PopKeepsCalls(u, s, b);
    case _ =>
  }

  lemma CompletesOne<B, P>(u: Geometry<P>, s: State<B, P>, a: Action<B, P>)
    requires Sized(u) && RingsShaped(u, s)
    ensures |Completes(u, s, a)| <= 1
  {}

  /** Over every interleaving: each started call is running or counted exactly once, the
      registry respects its limit, and `routed` falls short of the published ticks only by
      the calls that have pushed and not counted yet. */
  lemma {:induction false} CountersAgree<B, P>(u: Geometry<P>, actions: seq<Action<B, P>>)
    requires Sized(u)
    ensures var s := Run(u, actions);
            && s.routed + s.dropped + s.unknown + |s.calls.Keys| == Started(u, actions)
            && |s.registry| <= u.max
            && s.routed + |Uncounted(s.calls)| == |Accepted(u, actions)|
  {
    if actions == [] {
      assert Uncounted(Run(u, actions).calls) == {};
    } else {
      var before, a := actions[..|actions| - 1], actions[|actions| - 1];
      CountersAgree(u, before);
      StepTallies(u, Run(u, before), a);
      RegistryBounded(u, Run(u, before), a);
      assert Run(u, actions) == Step(u, Run(u, before), a);
      hide Step, Completes, Starts, Uncounted;
    }
  }
}
