/** The concurrent router against the one that takes every command whole: in each interleaving
    every command takes effect at one moment between its first and its last step. */
module RouterLinearization {
  import opened Wrappers
  import opened Fifo
  import Bits
  import C = ConcurrentRouter
  import R = RouterProtocol
  import Ring = WrappedRing

  /** The router that takes commands whole, over buffers of the same capacity. */
  ghost function Whole<B, P>(u: C.Geometry<P>): R.Setup<B> {
    R.Setup(u.max, Bits.Pow2(u.k) - 1, {})
  }

  /** The command that takes effect with an action, if any: a registration that goes ahead; a
      route call at the lookup that fails, at the test that finds the buffer full, or at the
      publication of its tick; and a pop at the publication of the new head. */
  ghost function Effect<B, P>(u: C.Geometry<P>, s: C.State<B, P>, a: C.Action<B, P>): seq<R.Command<B, P>>
    requires C.Sized(u) && C.RingsShaped(u, s)
  {
    match a
    case Register(id, buffer) => if s.calls == map[] then [R.Register(id, buffer)] else []
    case Unregister(id) => if s.calls == map[] then [R.Unregister(id)] else []
    case Begin(tick) => if tick.symbolId !in s.registry then [R.Route(tick)] else []
    case Push(b) =>
      if b in s.calls && s.calls[b].Pushing? && (Publishes(u, s, b) || FindsFull(u, s, b))
      then [R.Route(s.calls[b].tick)] else []
    case Pop(b) => if C.RingOf(u, s, b).consumer.ValueRead? then [R.Drain(b)] else []
  }

  ghost predicate Publishes<B, P>(u: C.Geometry<P>, s: C.State<B, P>, b: B)
    requires C.Sized(u) && C.RingsShaped(u, s)
  {
    C.RingOf(u, s, b).producer.SlotWritten?
  }

  /** The call that pushes into `b` is about to test for room, and there is none. */
  ghost predicate FindsFull<B, P>(u: C.Geometry<P>, s: C.State<B, P>, b: B)
    requires C.Sized(u) && C.RingsShaped(u, s)
  {
    var g := C.RingOf(u, s, b);
    g.producer.TailLoaded? && |Contents(g.shared.trace)| == Bits.Pow2(u.k) - 1
  }

  ghost function Effects<B, P>(u: C.Geometry<P>, actions: seq<C.Action<B, P>>): seq<R.Command<B, P>>
    requires C.Sized(u)
  {
    if actions == [] then []
    else
      var before := actions[..|actions| - 1];
      Effects(u, before) + Effect(u, C.Run(u, before), actions[|actions| - 1])
  }

  /** The call into `b` has found it full and has not counted that yet. */
  ghost predicate Loses<B, P>(u: C.Geometry<P>, s: C.State<B, P>, b: B)
    requires C.Sized(u) && C.RingsShaped(u, s)
  {
    b in s.calls &&
    if s.calls[b].Pushing? then C.RingOf(u, s, b).producer.Dropping? else !s.calls[b].pushed
  }

  ghost function Lost<B, P>(u: C.Geometry<P>, s: C.State<B, P>): set<B>
    requires C.Sized(u) && C.RingsShaped(u, s)
  {
    set b | b in s.calls && Loses(u, s, b)
  }

  ghost function QueueOf<B, P>(u: C.Geometry<P>, s: C.State<B, P>, b: B): seq<R.Tick<P>>
    requires C.Sized(u) && C.RingsShaped(u, s)
  {
    Contents(C.RingOf(u, s, b).shared.trace)
  }

  /** The state of the concurrent router shows the state of the other one, but for the calls
      whose outcome is not counted yet. */
  ghost predicate ShowsQueue<B, P>(u: C.Geometry<P>, s: C.State<B, P>, r: R.Router<B, P>, b: B)
    requires C.Sized(u) && C.RingsShaped(u, s)
  {
    R.Queue(r, b) == QueueOf(u, s, b)
  }

  ghost predicate ShowsCounters<B, P>(u: C.Geometry<P>, s: C.State<B, P>, r: R.Router<B, P>)
    requires C.Sized(u) && C.RingsShaped(u, s)
  {
    && r.registry == s.registry
    && r.routed == s.routed + |C.Uncounted(s.calls)|
    && r.dropped == s.dropped + |Lost(u, s)|
    && r.unknown == s.unknown
  }

  ghost predicate RingSound<B, P>(u: C.Geometry<P>, s: C.State<B, P>, b: B)
    requires C.Sized(u) && C.RingsShaped(u, s)
  {
    var g := C.RingOf(u, s, b);
    C.CallAgrees(u, s, b) && Ring.Inv(u.k, g.shared, g.producer, g.consumer)
  }

  lemma RunSound<B, P>(u: C.Geometry<P>, actions: seq<C.Action<B, P>>, b: B)
    requires C.Sized(u)
    ensures RingSound(u, C.Run(u, actions), b)
  {
    hide Ring.Inv, C.Run, Ring.Run, C.Schedule, C.CallAgrees;
    C.RunAgrees(u, actions, b);
    C.RingIsScheduled(u, actions, b);
    Ring.RunInv(u.k, u.slots, C.Schedule(u, actions, b));
  }

  // ---------------------------------------------------------------------------
  // One turn of a ring

  lemma ProducerEffect<T>(k: nat, s: Ring.Shared<T>, p: Ring.Producer<T>, c: Ring.Consumer<T>, v: T)
    requires Ring.Inv(k, s, p, c)
    ensures var (s', p') := Ring.ProducerStep(k, s, p, v);
            && Contents(s'.trace) == Contents(s.trace) + (if p.SlotWritten? then [p.value] else [])
            && (p.SlotWritten? ==> |Contents(s.trace)| < Bits.Pow2(k) - 1 && p'.ProducerIdle?)
            && (p'.Dropping? <==> p.TailLoaded? && |Contents(s.trace)| == Bits.Pow2(k) - 1)
            && (p'.ProducerIdle? <==> p.SlotWritten? || p.Dropping?)
  {
    Ring.IndicesMeasure(k, s, p, c);
    if p.TailLoaded? {
      Snoc(0, s.trace, PushFull(p.value));
    } else if p.SlotWritten? {
      Snoc(0, s.trace, PushOk(p.value));
    }
    assert Contents(s.trace) + [] == Contents(s.trace);
  }

  lemma ConsumerEffect<T>(k: nat, s: Ring.Shared<T>, p: Ring.Producer<T>, c: Ring.Consumer<T>)
    requires Ring.Inv(k, s, p, c)
    ensures var (s', c') := Ring.ConsumerStep(k, s, c);
            && (c.ValueRead? ==> Contents(s.trace) != [] && Contents(s'.trace) == Contents(s.trace)[1..])
            && (!c.ValueRead? ==> Contents(s'.trace) == Contents(s.trace))
  {
    if c.HeadLoaded? {
      Snoc(0, s.trace, PopEmpty);
    } else if c.ValueRead? {
      Snoc(0, s.trace, PopOk(c.value));
    }
  }

  // ---------------------------------------------------------------------------
  // One action

  /** The other router after the command that takes effect, if any. */
  ghost function After<B, P>(u: C.Geometry<P>, r: R.Router<B, P>, effect: seq<R.Command<B, P>>): R.Router<B, P> {
    if effect == [] then r else R.Step(Whole(u), r, effect[0])
  }

  /** An action moves the ring of one buffer at most, by one turn. */
  lemma RingAfter<B, P>(u: C.Geometry<P>, s: C.State<B, P>, a: C.Action<B, P>, b: B)
    requires C.Sized(u) && C.RingsShaped(u, s)
    ensures var g, g' := C.RingOf(u, s, b), C.RingOf(u, C.Step(u, s, a), b);
            if a == C.Push(b) && b in s.calls && s.calls[b].Pushing? then
              var (m, p) := Ring.ProducerStep(u.k, g.shared, g.producer, s.calls[b].tick);
              g' == Ring.Config(m, p, g.consumer)
            else if a == C.Pop(b) then
              var (m, c) := Ring.ConsumerStep(u.k, g.shared, g.consumer);
              g' == Ring.Config(m, g.producer, c)
            else g' == g
  {
    C.StepTurns(u, s, a, b);
    hide Ring.ProducerStep, Ring.ConsumerStep, C.Step, Ring.Run;
  }

  lemma QueueAfter<B, P>(u: C.Geometry<P>, s: C.State<B, P>, a: C.Action<B, P>, b: B)
    requires C.Sized(u) && C.RingsShaped(u, s) && RingSound(u, s, b)
    ensures var q, q' := QueueOf(u, s, b), QueueOf(u, C.Step(u, s, a), b);
            q' == if a == C.Push(b) && b in s.calls && s.calls[b].Pushing? && Publishes(u, s, b)
                  then q + [s.calls[b].tick]
                  else if a == C.Pop(b) && C.RingOf(u, s, b).consumer.ValueRead? then q[1..] else q
    ensures b in s.calls && s.calls[b].Pushing? && Publishes(u, s, b) ==> |QueueOf(u, s, b)| < Bits.Pow2(u.k) - 1
    ensures C.RingOf(u, s, b).consumer.ValueRead? ==> QueueOf(u, s, b) != []
  {
    var g := C.RingOf(u, s, b);
    RingAfter(u, s, a, b);
    ConsumerEffect(u.k, g.shared, g.producer, g.consumer);
    ProducerEffect(u.k, g.shared, g.producer, g.consumer, if b in s.calls then s.calls[b].tick else u.slots[0]);
    hide Ring.ProducerStep, Ring.ConsumerStep, C.Step, Ring.Inv, Contents, C.RingOf;
    assert QueueOf(u, s, b) + [] == QueueOf(u, s, b);
  }

  lemma PushEffect<B, P>(u: C.Geometry<P>, s: C.State<B, P>, b: B)
    requires C.Sized(u) && C.RingsShaped(u, s) && RingSound(u, s, b)
    ensures var pushing := b in s.calls && s.calls[b].Pushing?;
            && (pushing && (Publishes(u, s, b) || FindsFull(u, s, b)) ==>
                  && Effect(u, s, C.Push(b)) == [R.Route(s.calls[b].tick)]
                  && s.calls[b].tick.symbolId in s.registry && s.registry[s.calls[b].tick.symbolId] == b)
            && (!(pushing && (Publishes(u, s, b) || FindsFull(u, s, b))) ==> Effect(u, s, C.Push(b)) == [])
            && (FindsFull(u, s, b) ==> |QueueOf(u, s, b)| == Bits.Pow2(u.k) - 1 && !Publishes(u, s, b))
  {
    hide Ring.Inv, C.RingOf;
  }

  lemma PopEffect<B, P>(u: C.Geometry<P>, s: C.State<B, P>, b: B)
    requires C.Sized(u) && C.RingsShaped(u, s)
    ensures Effect(u, s, C.Pop(b)) == if C.RingOf(u, s, b).consumer.ValueRead? then [R.Drain(b)] else []
  {
    hide C.RingOf;
  }

  lemma OtherEffects<B, P>(u: C.Geometry<P>, s: C.State<B, P>, a: C.Action<B, P>)
    requires C.Sized(u) && C.RingsShaped(u, s) && !a.Push? && !a.Pop?
    ensures Effect(u, s, a) == [] || Effect(u, s, a)[0].Register? || Effect(u, s, a)[0].Unregister? ||
            (Effect(u, s, a)[0].Route? && Effect(u, s, a)[0].tick.symbolId !in s.registry)
  {}

  lemma QueueShown<B, P>(u: C.Geometry<P>, s: C.State<B, P>, a: C.Action<B, P>, r: R.Router<B, P>, b: B)
    requires C.Sized(u) && C.RingsShaped(u, s) && r.registry == s.registry
    requires RingSound(u, s, b) && ShowsQueue(u, s, r, b)
    requires a.Push? ==> RingSound(u, s, a.buf) && ShowsQueue(u, s, r, a.buf)
    ensures ShowsQueue(u, C.Step(u, s, a), After(u, r, Effect(u, s, a)), b)
  {
    hide C.Step, R.Step, Effect, QueueOf;
    QueueAfter(u, s, a, b);
    if Effect(u, s, a) != [] {
      R.QueueStep(Whole(u), r, Effect(u, s, a)[0], b);
    }
    match a
    case Push(x) =>
      QueueAfter(u, s, a, x);
      PushEffect(u, s, x);
    case Pop(x) => PopEffect(u, s, x);
    case Register(id, buffer) => OtherEffects(u, s, a);
    case Unregister(id) => OtherEffects(u, s, a);
    case Begin(tick) => OtherEffects(u, s, a);
  }

  /** How an action changes whether the call into `b` has lost its tick uncounted. */
  lemma LosesAfter<B, P>(u: C.Geometry<P>, s: C.State<B, P>, a: C.Action<B, P>, b: B)
    requires C.Sized(u) && C.RingsShaped(u, s) && RingSound(u, s, b)
    ensures Loses(u, C.Step(u, s, a), b) <==>
            if a == C.Push(b) && b in s.calls
            then s.calls[b].Pushing? && (Loses(u, s, b) || FindsFull(u, s, b)) else Loses(u, s, b)
    ensures FindsFull(u, s, b) ==> b in s.calls && s.calls[b].Pushing? && !Loses(u, s, b)
  {
    var g, s' := C.RingOf(u, s, b), C.Step(u, s, a);
    RingAfter(u, s, a, b);
    ProducerEffect(u.k, g.shared, g.producer, g.consumer, if b in s.calls then s.calls[b].tick else u.slots[0]);
    CallsAfter(u, s, a, b);
    hide Ring.Inv, Ring.ConsumerStep, Ring.ProducerStep, C.Step, Contents, C.RingOf;
  }

  lemma CallsAfter<B, P>(u: C.Geometry<P>, s: C.State<B, P>, a: C.Action<B, P>, b: B)
    requires C.Sized(u) && C.RingsShaped(u, s)
    ensures var s' := C.Step(u, s, a);
            if a == C.Push(b) && b in s.calls then
              match s.calls[b]
              case Pushing(tick) =>
                && b in s'.calls
                && s'.calls[b] == if C.RingOf(u, s', b).producer.ProducerIdle?
                                  then C.Counting(tick, C.RingOf(u, s, b).producer.SlotWritten?) else s.calls[b]
              case Counting(_, _) => b !in s'.calls
            else if b in s.calls then b in s'.calls && s'.calls[b] == s.calls[b]
            else b in s'.calls ==> s'.calls[b].Pushing?
  {
    hide Ring.ConsumerStep, Ring.ProducerStep;
  }

  lemma LostAfter<B, P>(u: C.Geometry<P>, s: C.State<B, P>, a: C.Action<B, P>)
    requires C.Sized(u) && C.RingsShaped(u, s) && forall b :: RingSound(u, s, b)
    ensures a.Push? && FindsFull(u, s, a.buf) ==> |Lost(u, C.Step(u, s, a))| == |Lost(u, s)| + 1
    ensures a.Push? && a.buf in s.calls && s.calls[a.buf].Counting? && !s.calls[a.buf].pushed ==>
              |Lost(u, s)| == |Lost(u, C.Step(u, s, a))| + 1
    ensures !(a.Push? && (FindsFull(u, s, a.buf) ||
                          (a.buf in s.calls && s.calls[a.buf].Counting? && !s.calls[a.buf].pushed))) ==>
              |Lost(u, C.Step(u, s, a))| == |Lost(u, s)|
  {
    hide *;
    var s' := C.Step(u, s, a);
    var was, now := Lost(u, s), Lost(u, s');
    if a.Push? {
      forall b | b != a.buf ensures b in was <==> b in now {
        LosesAfter(u, s, a, b);
        LostMember(u, s, b);
        LostMember(u, s', b);
      }
      LosesAfter(u, s, a, a.buf);
      LostMember(u, s, a.buf);
      LostMember(u, s', a.buf);
      CountingLoses(u, s, a.buf);
      AllButOne(was, now, a.buf);
    } else {
      forall b ensures b in was <==> b in now {
        LosesAfter(u, s, a, b);
        LostMember(u, s, b);
        LostMember(u, s', b);
      }
      SameSize(was, now);
    }
  }

  lemma SameSize<B>(a: set<B>, b: set<B>)
    requires forall y :: y in a <==> y in b
    ensures |a| == |b|
  {
    assert a == b;
  }

  /** Two sets that agree but for one element. */
  lemma AllButOne<B>(a: set<B>, b: set<B>, x: B)
    requires forall y | y != x :: y in a <==> y in b
    ensures x !in a && x in b ==> |b| == |a| + 1
    ensures x in a && x !in b ==> |a| == |b| + 1
    ensures (x in a <==> x in b) ==> |a| == |b|
  {
    if x !in a && x in b {
      assert b == a + {x};
    } else if x in a && x !in b {
      assert a == b + {x};
    } else {
      assert a == b;
    }
  }

  lemma LostMember<B, P>(u: C.Geometry<P>, s: C.State<B, P>, b: B)
    requires C.Sized(u) && C.RingsShaped(u, s)
    ensures b in Lost(u, s) <==> Loses(u, s, b)
  {}

  lemma CountingLoses<B, P>(u: C.Geometry<P>, s: C.State<B, P>, b: B)
    requires C.Sized(u) && C.RingsShaped(u, s)
    ensures b in s.calls && s.calls[b].Counting? ==> (Loses(u, s, b) <==> !s.calls[b].pushed)
  {}

  lemma PushCounters<B, P>(u: C.Geometry<P>, s: C.State<B, P>, r: R.Router<B, P>, b: B)
    requires C.Sized(u) && C.RingsShaped(u, s) && (forall x :: RingSound(u, s, x)) && b in s.calls
    requires ShowsCounters(u, s, r) && ShowsQueue(u, s, r, b)
    ensures ShowsCounters(u, C.Step(u, s, C.Push(b)), After(u, r, Effect(u, s, C.Push(b))))
  {
    var a: C.Action<B, P> := C.Push(b);
    assert C.Step(u, s, a) == C.PushStep(u, s, b);
    hide C.Step, C.PushStep, Lost, C.Uncounted, C.RingOf, FindsFull, Publishes, Effect, QueueOf, RingSound, C.Completes;
    hide R.Step, R.Queue, Bits.Pow2;
    LostAfter(u, s, a);
    PushEffect(u, s, b);
    QueueAfter(u, s, a, b);
    RouteTally(Whole(u), r, s.calls[b].tick, b);
    C.PushOutcome(u, s, b);
    PublishesCompletes(u, s, b);
    FullPushes(u, s, b);
    if s.calls[b].Pushing? {
      C.CallMoves(s.calls, b, s.calls[b].tick, Publishes(u, s, b));
    } else {
      C.CallReturns(s.calls, b);
    }
  }

  /** What routing to a registered buffer does to the counters. */
  lemma RouteTally<B, P>(u: R.Setup<B>, r: R.Router<B, P>, tick: R.Tick<P>, b: B)
    ensures tick.symbolId in r.registry && r.registry[tick.symbolId] == b ==>
              var r', ok := R.Step(u, r, R.Route(tick)), |R.Queue(r, b)| < u.cap;
              && r'.registry == r.registry && r'.unknown == r.unknown
              && r'.routed == r.routed + (if ok then 1 else 0)
              && r'.dropped == r.dropped + (if ok then 0 else 1)
  {}

  lemma FullPushes<B, P>(u: C.Geometry<P>, s: C.State<B, P>, b: B)
    requires C.Sized(u) && C.RingsShaped(u, s) && RingSound(u, s, b)
    ensures FindsFull(u, s, b) ==> b in s.calls && s.calls[b].Pushing?
  {
    hide Ring.Inv, C.RingOf;
  }

  lemma PublishesCompletes<B, P>(u: C.Geometry<P>, s: C.State<B, P>, b: B)
    requires C.Sized(u) && C.RingsShaped(u, s)
    ensures C.Completes(u, s, C.Push(b)) != [] <==> b in s.calls && s.calls[b].Pushing? && Publishes(u, s, b)
  {}

  lemma OtherCounters<B, P>(u: C.Geometry<P>, s: C.State<B, P>, a: C.Action<B, P>, r: R.Router<B, P>)
    requires C.Sized(u) && C.RingsShaped(u, s) && (forall x :: RingSound(u, s, x))
    requires a.Push? ==> a.buf !in s.calls
    requires ShowsCounters(u, s, r)
    ensures ShowsCounters(u, C.Step(u, s, a), After(u, r, Effect(u, s, a)))
  {
    LostAfter(u, s, a);
    if a.Push? {
      FullPushes(u, s, a.buf);
    }
    hide Lost, C.Uncounted, C.RingOf, C.TakeTurn, C.PushStep, FindsFull, Publishes, RingSound;
    match a
    case Begin(tick) =>
      if tick.symbolId in s.registry && s.registry[tick.symbolId] !in s.calls {
        C.CallBegins(s.calls, s.registry[tick.symbolId], tick);
      }
    case Pop(b) => C.PopKeepsCalls(u, s, b);
    case _ =>
  }

  lemma CountersShown<B, P>(u: C.Geometry<P>, s: C.State<B, P>, a: C.Action<B, P>, r: R.Router<B, P>)
    requires C.Sized(u) && C.RingsShaped(u, s) && (forall x :: RingSound(u, s, x))
    requires ShowsCounters(u, s, r) && (a.Push? ==> ShowsQueue(u, s, r, a.buf))
    ensures ShowsCounters(u, C.Step(u, s, a), After(u, r, Effect(u, s, a)))
  {
    hide *;
    if a.Push? && a.buf in s.calls {
      PushCounters(u, s, r, a.buf);
    } else {
      OtherCounters(u, s, a, r);
    }
  }

  lemma EffectsSnoc<B, P>(u: C.Geometry<P>, actions: seq<C.Action<B, P>>)
    requires C.Sized(u) && actions != []
    ensures var before := actions[..|actions| - 1];
            R.Run(Whole(u), Effects(u, actions)) ==
            After(u, R.Run(Whole(u), Effects(u, before)), Effect(u, C.Run(u, before), actions[|actions| - 1]))
  {
    var before := actions[..|actions| - 1];
    var done, effect := Effects(u, before), Effect(u, C.Run(u, before), actions[|actions| - 1]);
    assert Effects(u, actions) == done + effect;
    EffectOne(u, C.Run(u, before), actions[|actions| - 1]);
    hide Effects, Effect, C.Run;
    if effect == [] {
      assert done + effect == done;
    } else {
      assert (done + effect)[..|done|] == done && (done + effect)[|done|] == effect[0];
    }
  }

  lemma EffectOne<B, P>(u: C.Geometry<P>, s: C.State<B, P>, a: C.Action<B, P>)
    requires C.Sized(u) && C.RingsShaped(u, s)
    ensures |Effect(u, s, a)| <= 1
  {}

  /** Over every interleaving of route calls, registrations and consumers, down to the single
      steps of the rings, the router is in the state in which the commands, taken whole in the
      order in which they take effect, leave the router that takes them whole: the registry,
      the content of each buffer and the unknown counter agree, and the other two counters
      are behind by exactly the calls that have not counted their outcome yet. */
  lemma {:induction false} Linearizes<B, P>(u: C.Geometry<P>, actions: seq<C.Action<B, P>>, b: B)
    requires C.Sized(u)
    ensures var s, r := C.Run(u, actions), R.Run(Whole(u), Effects(u, actions));
            && s.registry == r.registry
            && Contents(C.RingOf(u, s, b).shared.trace) == R.Queue(r, b)
            && s.routed + |C.Uncounted(s.calls)| == r.routed
            && s.dropped + |Lost(u, s)| == r.dropped
            && s.unknown == r.unknown
  {
    ShownInit(u, b);
    if actions == [] {
    } else {
      var before, a := actions[..|actions| - 1], actions[|actions| - 1];
      var s, r := C.Run(u, before), R.Run(Whole(u), Effects(u, before));
      forall x ensures RingSound(u, s, x) {
        RunSound(u, before, x);
      }
      EffectsSnoc(u, actions);
      assert C.Run(u, actions) == C.Step(u, s, a);
      Linearizes(u, before, b);
      assert ShowsCounters(u, s, r) && ShowsQueue(u, s, r, b);
      if a.Push? {
        Linearizes(u, before, a.buf);
        assert ShowsQueue(u, s, r, a.buf);
      }
      SameRegistry(u, s, r);
      hide C.Run, R.Run, C.Step, Effects, Effect, After, RingSound, R.Queue;
      QueueShown(u, s, a, r, b);
      CountersShown(u, s, a, r);
    }
  }

  lemma SameRegistry<B, P>(u: C.Geometry<P>, s: C.State<B, P>, r: R.Router<B, P>)
    requires C.Sized(u) && C.RingsShaped(u, s) && ShowsCounters(u, s, r)
    ensures r.registry == s.registry
  {}

  lemma ShownInit<B, P>(u: C.Geometry<P>, b: B)
    requires C.Sized(u)
    ensures var s: C.State<B, P>, r: R.Router<B, P> := C.Run(u, []), R.Run(Whole(u), []);
            && ShowsCounters(u, s, r) && ShowsQueue(u, s, r, b)
  {
    var s: C.State<B, P> := C.Run(u, []);
    assert C.Uncounted(s.calls) == {} && Lost(u, s) == {};
  }

  // ---------------------------------------------------------------------------
  // What the two loss counters count

  /** Action `l` of a run looks up a symbol that is not registered then. */
  ghost predicate UnknownAt<B, P>(u: C.Geometry<P>, actions: seq<C.Action<B, P>>, l: nat)
    requires C.Sized(u)
  {
    && l < |actions| && actions[l].Begin?
    && actions[l].tick.symbolId !in C.Run(u, actions[..l]).registry
  }

  /** Action `l` of a run is the test of a route call for room in its buffer, which holds one
      element less than it has slots then. */
  ghost predicate FullAt<B, P>(u: C.Geometry<P>, actions: seq<C.Action<B, P>>, l: nat)
    requires C.Sized(u)
  {
    && l < |actions| && actions[l].Push?
    && FindsFull(u, C.Run(u, actions[..l]), actions[l].buf)
  }

  ghost function UnknownLookups<B, P>(u: C.Geometry<P>, actions: seq<C.Action<B, P>>): set<nat>
    requires C.Sized(u)
  {
    set l: nat | l < |actions| && UnknownAt(u, actions, l)
  }

  ghost function FullTests<B, P>(u: C.Geometry<P>, actions: seq<C.Action<B, P>>): set<nat>
    requires C.Sized(u)
  {
    set l: nat | l < |actions| && FullAt(u, actions, l)
  }

  lemma Listed<B, P>(u: C.Geometry<P>, actions: seq<C.Action<B, P>>, l: nat)
    requires C.Sized(u)
    ensures l in UnknownLookups(u, actions) <==> l < |actions| && UnknownAt(u, actions, l)
    ensures l in FullTests(u, actions) <==> l < |actions| && FullAt(u, actions, l)
  {}

  lemma MomentsOfPrefix<B, P>(u: C.Geometry<P>, actions: seq<C.Action<B, P>>, l: nat)
    requires C.Sized(u) && actions != [] && l < |actions| - 1
    ensures UnknownAt(u, actions, l) <==> UnknownAt(u, actions[..|actions| - 1], l)
    ensures FullAt(u, actions, l) <==> FullAt(u, actions[..|actions| - 1], l)
  {
    assert actions[..|actions| - 1][..l] == actions[..l];
  }

  lemma LastMoment<B, P>(u: C.Geometry<P>, actions: seq<C.Action<B, P>>)
    requires C.Sized(u) && actions != []
    ensures var n := |actions| - 1;
            && |UnknownLookups(u, actions)| ==
               |UnknownLookups(u, actions[..n])| + (if UnknownAt(u, actions, n) then 1 else 0)
            && |FullTests(u, actions)| == |FullTests(u, actions[..n])| + (if FullAt(u, actions, n) then 1 else 0)
  {
    hide *;
    var n := |actions| - 1;
    var before := actions[..n];
    forall l: nat
      ensures l in UnknownLookups(u, actions) <==> l in UnknownLookups(u, before) || (UnknownAt(u, actions, n) && l == n)
      ensures l in FullTests(u, actions) <==> l in FullTests(u, before) || (FullAt(u, actions, n) && l == n)
    {
      Listed(u, actions, l);
      Listed(u, before, l);
      if l < n {
        MomentsOfPrefix(u, actions, l);
      }
    }
    Listed(u, before, n);
    R.OneMoreIndex(UnknownLookups(u, before), UnknownLookups(u, actions), n, UnknownAt(u, actions, n));
    R.OneMoreIndex(FullTests(u, before), FullTests(u, actions), n, FullAt(u, actions, n));
  }

  lemma LossesStep<B, P>(u: C.Geometry<P>, s: C.State<B, P>, a: C.Action<B, P>)
    requires C.Sized(u) && C.RingsShaped(u, s) && forall b :: RingSound(u, s, b)
    ensures var s' := C.Step(u, s, a);
            && s'.unknown == s.unknown + (if a.Begin? && a.tick.symbolId !in s.registry then 1 else 0)
            && s'.dropped + |Lost(u, s')| ==
               s.dropped + |Lost(u, s)| + (if a.Push? && FindsFull(u, s, a.buf) then 1 else 0)
  {
    LostAfter(u, s, a);
    if a.Push? {
      FullPushes(u, s, a.buf);
      if a.buf in s.calls {
        C.PushOutcome(u, s, a.buf);
      }
    }
    hide Lost, C.RingOf, C.TakeTurn, C.PushStep, FindsFull, RingSound, C.Completes;
    match a
    case Pop(b) => C.PopKeepsCalls(u, s, b);
    case _ =>
  }

  /** Over every interleaving `unknown` is the number of lookups that found no entry, and
      `dropped`, with the calls that are about to count a drop, the number of tests that
      found the buffer full. */
  lemma {:induction false} LossesExact<B, P>(u: C.Geometry<P>, actions: seq<C.Action<B, P>>)
    requires C.Sized(u)
    ensures var s := C.Run(u, actions);
            && s.unknown == |UnknownLookups(u, actions)|
            && s.dropped + |Lost(u, s)| == |FullTests(u, actions)|
  {
    if actions == [] {
      assert UnknownLookups(u, actions) == {} && FullTests(u, actions) == {};
      assert Lost(u, C.Run(u, actions)) == {};
    } else {
      var before, a := actions[..|actions| - 1], actions[|actions| - 1];
      LossesExact(u, before);
      LastMoment(u, actions);
      forall b ensures RingSound(u, C.Run(u, before), b) {
        RunSound(u, before, b);
      }
      assert C.Run(u, actions) == C.Step(u, C.Run(u, before), a);
      hide C.Run, C.Step, Lost, FindsFull, RingSound, UnknownLookups, FullTests;
      LossesStep(u, C.Run(u, before), a);
    }
  }
}
