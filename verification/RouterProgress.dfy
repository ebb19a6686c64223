/** Progress of the concurrent router: a route call that has found its buffer puts its tick
    there or counts a drop after a bounded number of its own steps, and a pop delivers,
    whatever the other calls and consumers do in between. */
module RouterProgress {
  import opened Fifo
  import Bits
  import C = ConcurrentRouter
  import L = RouterLinearization
  import R = RouterProtocol
  import Ring = WrappedRing

  /** The number of times an action stands in a schedule. */
  ghost function Times<B, P>(actions: seq<C.Action<B, P>>, a: C.Action<B, P>): nat {
    if actions == [] then 0
    else Times(actions[..|actions| - 1], a) + if actions[|actions| - 1] == a then 1 else 0
  }

  lemma TimesSnoc<B, P>(actions: seq<C.Action<B, P>>, last: C.Action<B, P>, a: C.Action<B, P>)
    ensures Times(actions + [last], a) == Times(actions, a) + if last == a then 1 else 0
  {
    assert (actions + [last])[..|actions|] == actions;
  }

  /** How far the call into a buffer is, given the state of its ring: `left` steps from its
      return. With `room` it puts `tick` after `was`; without, the tick is dropped. */
  ghost predicate RingStage<P>(k: nat, g: Ring.Config<R.Tick<P>>, tick: R.Tick<P>, was: seq<R.Tick<P>>,
                               left: nat, room: bool)
  {
    var q, p := Contents(g.shared.trace), g.producer;
    && Pushed(g.shared.trace) == was + (if left <= 1 && room then [tick] else [])
    && match left
       case 0 => true
       case 1 => p.ProducerIdle?
       case 2 => if room then p == Ring.SlotWritten(tick, g.shared.tail) else p == Ring.Dropping(tick)
       case 3 => if room then p == Ring.RoomSeen(tick, g.shared.tail)
                 else p == Ring.TailLoaded(tick, g.shared.tail) && |q| == Bits.Pow2(k) - 1
       case 4 => if room then p == Ring.TailLoaded(tick, g.shared.tail) && |q| < Bits.Pow2(k) - 1
                 else p.ProducerIdle? && |q| == Bits.Pow2(k) - 1
       case 5 => room && p.ProducerIdle? && |q| < Bits.Pow2(k) - 1
       case _ => false
  }

  ghost predicate CallStage<B, P>(s: C.State<B, P>, b: B, tick: R.Tick<P>, left: nat, room: bool) {
    match left
    case 0 => b !in s.calls
    case 1 => b in s.calls && s.calls[b] == C.Counting(tick, room)
    case _ => b in s.calls && s.calls[b] == C.Pushing(tick)
  }

  ghost predicate Stage<B, P>(u: C.Geometry<P>, s: C.State<B, P>, b: B, tick: R.Tick<P>, was: seq<R.Tick<P>>,
                              left: nat, room: bool)
    requires C.Sized(u) && C.RingsShaped(u, s)
  {
    RingStage(u.k, C.RingOf(u, s, b), tick, was, left, room) && CallStage(s, b, tick, left, room)
  }

  lemma PushAdvances<P>(k: nat, g: Ring.Config<R.Tick<P>>, tick: R.Tick<P>, was: seq<R.Tick<P>>, left: nat, room: bool)
    requires Ring.Inv(k, g.shared, g.producer, g.consumer)
    requires left >= 2 && RingStage(k, g, tick, was, left, room)
    ensures var (m, p) := Ring.ProducerStep(k, g.shared, g.producer, tick);
            && RingStage(k, Ring.Config(m, p, g.consumer), tick, was, left - 1, room)
            && (p.ProducerIdle? <==> left == 2)
  {
    Ring.IndicesMeasure(k, g.shared, g.producer, g.consumer);
    if g.producer.TailLoaded? {
      Snoc(0, g.shared.trace, PushFull(tick));
    } else if g.producer.SlotWritten? {
      Snoc(0, g.shared.trace, PushOk(tick));
    }
    hide Ring.Next, Ring.Inv;
    assert was + [] == was;
  }

  /** A step of the consumer makes room at most, and accepts nothing. */
  lemma PopFacts<T>(k: nat, s: Ring.Shared<T>, c: Ring.Consumer<T>)
    requires Ring.Shaped(k, s) && Ring.ConsumerShaped(k, c)
    ensures var s' := Ring.ConsumerStep(k, s, c).0;
            && Pushed(s'.trace) == Pushed(s.trace) && |Contents(s'.trace)| <= |Contents(s.trace)|
            && s'.tail == s.tail
  {
    match c
    case HeadLoaded(_) => Snoc(0, s.trace, PopEmpty);
    case ValueRead(_, v) => Snoc(0, s.trace, PopOk(v));
    case _ =>
  }

  lemma PopKeepsStage<P>(k: nat, g: Ring.Config<R.Tick<P>>, tick: R.Tick<P>, was: seq<R.Tick<P>>, left: nat, room: bool)
    requires Ring.Shaped(k, g.shared) && Ring.ConsumerShaped(k, g.consumer)
    requires RingStage(k, g, tick, was, left, room) && (room || left <= 2)
    ensures var (m, c) := Ring.ConsumerStep(k, g.shared, g.consumer);
            RingStage(k, Ring.Config(m, g.producer, c), tick, was, left, room)
  {
    PopFacts(k, g.shared, g.consumer);
    hide Ring.ConsumerStep, Ring.Inv, Contents, Pushed;
  }

  lemma StageStep<B, P>(u: C.Geometry<P>, s: C.State<B, P>, a: C.Action<B, P>, b: B, tick: R.Tick<P>,
                        was: seq<R.Tick<P>>, left: nat, room: bool)
    requires C.Sized(u) && C.RingsShaped(u, s) && L.RingSound(u, s, b)
    requires left > 0 && Stage(u, s, b, tick, was, left, room)
    requires a == C.Pop(b) ==> room || left <= 2
    ensures Stage(u, C.Step(u, s, a), b, tick, was, if a == C.Push(b) then left - 1 else left, room)
  {
    var g := C.RingOf(u, s, b);
    L.RingAfter(u, s, a, b);
    L.CallsAfter(u, s, a, b);
    if a == C.Push(b) && left >= 2 {
      PushAdvances(u.k, g, tick, was, left, room);
      WrittenStage(u.k, g, tick, was, left, room);
    } else if a == C.Pop(b) {
      PopKeepsStage(u.k, g, tick, was, left, room);
    } else if a == C.Push(b) {
      LastStage(u.k, g, tick, was, room);
    }
    hide Ring.ProducerStep, Ring.ConsumerStep, C.Step, C.RingOf, RingStage, Ring.Inv;
  }

  lemma WrittenStage<P>(k: nat, g: Ring.Config<R.Tick<P>>, tick: R.Tick<P>, was: seq<R.Tick<P>>, left: nat, room: bool)
    requires left >= 2 && RingStage(k, g, tick, was, left, room)
    ensures left == 2 ==> (g.producer.SlotWritten? <==> room)
  {}

  lemma LastStage<P>(k: nat, g: Ring.Config<R.Tick<P>>, tick: R.Tick<P>, was: seq<R.Tick<P>>, room: bool)
    requires RingStage(k, g, tick, was, 1, room)
    ensures RingStage(k, g, tick, was, 0, room)
  {}

  lemma RunSnoc<B, P>(u: C.Geometry<P>, actions: seq<C.Action<B, P>>, a: C.Action<B, P>)
    requires C.Sized(u)
    ensures C.Run(u, actions + [a]) == C.Step(u, C.Run(u, actions), a)
  {
    assert (actions + [a])[..|actions|] == actions;
  }

  lemma StageOneMore<B, P>(u: C.Geometry<P>, actions: seq<C.Action<B, P>>, a: C.Action<B, P>, b: B, tick: R.Tick<P>,
                           was: seq<R.Tick<P>>, left: nat, room: bool)
    requires C.Sized(u) && left > 0 && Stage(u, C.Run(u, actions), b, tick, was, left, room)
    requires a == C.Pop(b) ==> room
    ensures Stage(u, C.Run(u, actions + [a]), b, tick, was, if a == C.Push(b) then left - 1 else left, room)
  {
    hide *;
    L.RunSound(u, actions, b);
    RunSnoc(u, actions, a);
    StageStep(u, C.Run(u, actions), a, b, tick, was, left, room);
  }

  lemma {:induction false} StageRun<B, P>(u: C.Geometry<P>, before: seq<C.Action<B, P>>, more: seq<C.Action<B, P>>, b: B,
                                          tick: R.Tick<P>, was: seq<R.Tick<P>>, n: nat, room: bool)
    requires C.Sized(u) && Stage(u, C.Run(u, before), b, tick, was, n, room)
    requires Times(more, C.Push(b)) < n && (room || C.Pop(b) !in more)
    ensures Stage(u, C.Run(u, before + more), b, tick, was, n - Times(more, C.Push(b)), room)
  {
    hide C.Run, Stage;
    if more == [] {
      assert before + more == before;
    } else {
      var rest, a := more[..|more| - 1], more[|more| - 1];
      assert more == rest + [a] && before + more == before + rest + [a];
      assert a in more;
      TimesSnoc(rest, a, C.Push(b));
      hide *;
      StageRun(u, before, rest, b, tick, was, n, room);
      StageOneMore(u, before + rest, a, b, tick, was, n - Times(rest, C.Push(b)), room);
    }
  }

  lemma CallStarts<B, P>(u: C.Geometry<P>, s: C.State<B, P>, tick: R.Tick<P>, b: B)
    requires C.Sized(u) && C.RingsShaped(u, s) && L.RingSound(u, s, b)
    requires tick.symbolId in s.registry && s.registry[tick.symbolId] == b && b !in s.calls
    ensures var q := Contents(C.RingOf(u, s, b).shared.trace);
            var room := |q| < Bits.Pow2(u.k) - 1;
            Stage(u, C.Step(u, s, C.Begin(tick)), b, tick, Pushed(C.RingOf(u, s, b).shared.trace),
                  if room then 5 else 4, room)
  {
    var trace := C.RingOf(u, s, b).shared.trace;
    assert Pushed(trace) + [] == Pushed(trace);
    hide Pushed, Contents, Legal;
  }

  lemma StageEnds<B, P>(u: C.Geometry<P>, s: C.State<B, P>, b: B, tick: R.Tick<P>, was: seq<R.Tick<P>>, room: bool)
    requires C.Sized(u) && C.RingsShaped(u, s) && Stage(u, s, b, tick, was, 0, room)
    ensures b !in s.calls && Pushed(C.RingOf(u, s, b).shared.trace) == was + if room then [tick] else []
  {}

  /** A route call returns, in every interleaving: a call for a symbol that is registered with a
      free buffer puts its tick there when the buffer has room at the lookup, after five steps
      of its own; and when the buffer is full and nothing is popped from it meanwhile, the
      call returns after four, and nothing is put there. */
  lemma RouteReturns<B, P>(u: C.Geometry<P>, before: seq<C.Action<B, P>>, tick: R.Tick<P>, more: seq<C.Action<B, P>>, b: B)
    requires C.Sized(u)
    requires var s := C.Run(u, before);
             tick.symbolId in s.registry && s.registry[tick.symbolId] == b && b !in s.calls
    requires var room := |Contents(C.RingOf(u, C.Run(u, before), b).shared.trace)| < Bits.Pow2(u.k) - 1;
             Times(more, C.Push(b)) == (if room then 4 else 3) && (room || C.Pop(b) !in more)
    ensures var room := |Contents(C.RingOf(u, C.Run(u, before), b).shared.trace)| < Bits.Pow2(u.k) - 1;
            var all := before + [C.Begin(tick)] + more + [C.Push(b)];
            && b !in C.Run(u, all).calls
            && R.Of(C.Accepted(u, all), b) == R.Of(C.Accepted(u, before), b) + if room then [tick] else []
  {
    hide *;
    var s, begun := C.Run(u, before), before + [C.Begin(tick)];
    var was := Pushed(C.RingOf(u, s, b).shared.trace);
    var room := |Contents(C.RingOf(u, s, b).shared.trace)| < Bits.Pow2(u.k) - 1;
    L.RunSound(u, before, b);
    RunSnoc(u, before, C.Begin(tick));
    CallStarts(u, s, tick, b);
    StageRun(u, begun, more, b, tick, was, if room then 5 else 4, room);
    StageOneMore(u, begun + more, C.Push(b), b, tick, was, 1, room);
    var all := begun + more + [C.Push(b)];
    StageEnds(u, C.Run(u, all), b, tick, was, room);
    C.PushedAreAccepted(u, before, b);
    C.PushedAreAccepted(u, all, b);
  }

  // ---------------------------------------------------------------------------
  // A pop

  /** The consumer of a ring, which finds `front`, is `left` steps from delivering it after
      `was`. */
  ghost predicate PopStage<P>(g: Ring.Config<R.Tick<P>>, front: R.Tick<P>, was: seq<R.Tick<P>>, left: nat) {
    var q, c := Contents(g.shared.trace), g.consumer;
    if left == 0 then c.ConsumerIdle? && Popped(g.shared.trace) == was + [front]
    else
      && Popped(g.shared.trace) == was && q != [] && q[0] == front
      && match c
         case ConsumerIdle => left == 4
         case HeadLoaded(_) => left == 3
         case DataSeen(_) => left == 2
         case ValueRead(_, _) => left == 1
  }

  /** The steps of a pop that finds an element. */
  lemma PopMoves<T>(k: nat, s: Ring.Shared<T>, p: Ring.Producer<T>, c: Ring.Consumer<T>)
    requires Ring.Inv(k, s, p, c)
    ensures Contents(s.trace) != [] ==>
              var (s', c') := Ring.ConsumerStep(k, s, c);
              match c
              case ConsumerIdle => s' == s && c'.HeadLoaded?
              case HeadLoaded(_) => s' == s && c'.DataSeen?
              case DataSeen(_) => s' == s && c'.ValueRead?
              case ValueRead(_, v) =>
                c'.ConsumerIdle? && v == Contents(s.trace)[0] && Popped(s'.trace) == Popped(s.trace) + [v]
  {
    match c
    case HeadLoaded(_) =>
      Ring.IndicesMeasure(k, s, p, c);
      LoadedHead(k, s, p, c);
      hide Ring.Inv, Contents;
    case ValueRead(_, v) =>
      Snoc(0, s.trace, PopOk(v));
      ReadFront(k, s, p, c);
      hide Ring.Inv, Contents, Popped;
    case _ =>
      hide Ring.Inv, Contents;
  }

  lemma LoadedHead<T>(k: nat, s: Ring.Shared<T>, p: Ring.Producer<T>, c: Ring.Consumer<T>)
    requires Ring.Inv(k, s, p, c) && c.HeadLoaded?
    ensures c.head == s.head
  {
    hide Contents, Legal, Rejected, Popped, Ring.SlotsMatch;
  }

  lemma ReadFront<T>(k: nat, s: Ring.Shared<T>, p: Ring.Producer<T>, c: Ring.Consumer<T>)
    requires Ring.Inv(k, s, p, c) && c.ValueRead?
    ensures Contents(s.trace) != [] && c.value == Contents(s.trace)[0]
  {
    hide Contents, Legal, Rejected, Popped, Ring.SlotsMatch;
  }

  lemma PopAdvances<P>(k: nat, g: Ring.Config<R.Tick<P>>, front: R.Tick<P>, was: seq<R.Tick<P>>, left: nat)
    requires Ring.Inv(k, g.shared, g.producer, g.consumer)
    requires left > 0 && PopStage(g, front, was, left)
    ensures var (m, c) := Ring.ConsumerStep(k, g.shared, g.consumer);
            PopStage(Ring.Config(m, g.producer, c), front, was, left - 1)
  {
    PopMoves(k, g.shared, g.producer, g.consumer);
    hide Ring.ConsumerStep, Ring.Inv, Contents, Popped;
  }

  lemma PushKeepsPop<P>(k: nat, g: Ring.Config<R.Tick<P>>, v: R.Tick<P>, front: R.Tick<P>, was: seq<R.Tick<P>>, left: nat)
    requires Ring.Inv(k, g.shared, g.producer, g.consumer) && PopStage(g, front, was, left)
    ensures var (m, p) := Ring.ProducerStep(k, g.shared, g.producer, v);
            PopStage(Ring.Config(m, p, g.consumer), front, was, left)
  {
    if g.producer.TailLoaded? {
      Snoc(0, g.shared.trace, PushFull(g.producer.value));
    } else if g.producer.SlotWritten? {
      Snoc(0, g.shared.trace, PushOk(g.producer.value));
    }
    hide Ring.Next, Ring.Inv;
  }

  lemma PopStep<B, P>(u: C.Geometry<P>, actions: seq<C.Action<B, P>>, a: C.Action<B, P>, b: B, front: R.Tick<P>,
                      was: seq<R.Tick<P>>, left: nat)
    requires C.Sized(u) && PopStage(C.RingOf(u, C.Run(u, actions), b), front, was, left)
    requires a == C.Pop(b) ==> left > 0
    ensures PopStage(C.RingOf(u, C.Run(u, actions + [a]), b), front, was, if a == C.Pop(b) then left - 1 else left)
  {
    var s := C.Run(u, actions);
    var g := C.RingOf(u, s, b);
    hide C.Run, Ring.ProducerStep, Ring.ConsumerStep, C.Step, C.RingOf, PopStage, Ring.Inv;
    L.RunSound(u, actions, b);
    RunSnoc(u, actions, a);
    L.RingAfter(u, s, a, b);
    if a == C.Push(b) && b in s.calls {
      PushKeepsPop(u.k, g, s.calls[b].tick, front, was, left);
    } else if a == C.Pop(b) {
      PopAdvances(u.k, g, front, was, left);
    }
  }

  lemma {:induction false} PopRun<B, P>(u: C.Geometry<P>, before: seq<C.Action<B, P>>, more: seq<C.Action<B, P>>, b: B,
                                        front: R.Tick<P>, was: seq<R.Tick<P>>, n: nat)
    requires C.Sized(u) && PopStage(C.RingOf(u, C.Run(u, before), b), front, was, n)
    requires Times(more, C.Pop(b)) <= n
    ensures PopStage(C.RingOf(u, C.Run(u, before + more), b), front, was, n - Times(more, C.Pop(b)))
  {
    hide C.Run, PopStage;
    if more == [] {
      assert before + more == before;
    } else {
      var rest, a := more[..|more| - 1], more[|more| - 1];
      assert more == rest + [a] && before + more == before + rest + [a];
      TimesSnoc(rest, a, C.Pop(b));
      hide *;
      PopRun(u, before, rest, b, front, was, n);
      PopStep(u, before + rest, a, b, front, was, n - Times(rest, C.Pop(b)));
    }
  }

  /** A pop that begins on a buffer with ticks delivers the front one after its four steps, in
      every interleaving. */
  lemma PopDelivers<B, P>(u: C.Geometry<P>, before: seq<C.Action<B, P>>, more: seq<C.Action<B, P>>, b: B)
    requires C.Sized(u) && C.RingOf(u, C.Run(u, before), b).consumer.ConsumerIdle?
    requires Contents(C.RingOf(u, C.Run(u, before), b).shared.trace) != []
    requires Times(more, C.Pop(b)) == 4
    ensures var g, g' := C.RingOf(u, C.Run(u, before), b), C.RingOf(u, C.Run(u, before + more), b);
            && g'.consumer.ConsumerIdle?
            && Popped(g'.shared.trace) == Popped(g.shared.trace) + [Contents(g.shared.trace)[0]]
  {
    hide C.Run, C.RingOf, Times, Popped, Contents;
    var g := C.RingOf(u, C.Run(u, before), b);
    PopRun(u, before, more, b, Contents(g.shared.trace)[0], Popped(g.shared.trace), 4);
  }
}
