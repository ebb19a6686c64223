/** Progress of the worker: while it keeps running, every accepted tick is processed after
    a bounded number of steps of its thread, however the other threads are scheduled. */
module WorkerProgress {
  import opened Wrappers
  import opened Fifo
  import opened FreeRunningRing
  import Bits
  import W = WorkerProtocol

  /** The steps of one round, from looking at `running` to having processed a tick. */
  const ROUND := 19

  /** An upper bound on the steps a thread takes until it has processed the next tick, in
      its hand or else at the front of a non-empty ring. */
  ghost function ToProcessed<T>(t: W.Thread<T>): nat {
    match t
    case Exited => ROUND
    case Checking => ROUND
    case Publishing(_) => 1
    case Staging(_, stage) => if stage < W.STAGE_COUNT then 2 + (W.STAGE_COUNT - stage) else 2
    case Popping(c) =>
      14 + match c
           case SlotDestroyed(_, _) => 0
           case ValueMoved(_, _) => 1
           case DataSeen(_) => 2
           case TailLoaded(_) => 3
           case ConsumerIdle => 4
  }

  /** The worker runs with thread `i`, and the tick accepted as number `m` is processed, or
      at most `left` steps of that thread away from it. */
  ghost predicate Nears<T>(s: W.Worker<T>, i: nat, m: nat, left: int) {
    && s.running && s.controller.Ready? && s.handle == Some(i)
    && m < |Pushed(s.ring.trace)|
    && (m < |s.processed| || ToProcessed(W.Current(s)) + ROUND * (m - |s.processed|) <= left)
  }

  /** A pop that finds an element goes on until it has it. */
  lemma PopAdvances<T>(k: nat, w: nat, s: Shared<T>, p: Producer<T>, c: Consumer<T>)
    requires Inv(k, w, s, p, c)
    ensures Contents(s.trace) != [] && !c.SlotDestroyed? ==>
              var c' := ConsumerStep(k, w, s, c).1;
              !c'.ConsumerIdle? && ToProcessed(W.Popping(c')) < ToProcessed(W.Popping(c))
  {
    match c
    case TailLoaded(t) =>
      TailAgrees(k, w, s, p, c);
      hide Inv;
    case DataSeen(t) =>
      MoveValue(k, w, s, p, c);
      NoFault(k, w, ConsumerStep(k, w, s, c).0, p, ConsumerStep(k, w, s, c).1);
      hide Inv, SlotIndex;
    case _ =>
      hide Inv;
  }

  lemma TailAgrees<T>(k: nat, w: nat, s: Shared<T>, p: Producer<T>, c: Consumer<T>)
    requires Inv(k, w, s, p, c) && c.TailLoaded?
    ensures c.tail == s.tail && (s.tail == s.head <==> Contents(s.trace) == [])
    ensures |s.slots| == Bits.Pow2(k)
  {
    CountersMeasure(k, w, s, p, c);
    hide Wrap, Contents, Legal, SlotsMatch, Popped;
  }

  lemma NoFault<T>(k: nat, w: nat, s: Shared<T>, p: Producer<T>, c: Consumer<T>)
    requires Inv(k, w, s, p, c)
    ensures !s.fault && |s.slots| == Bits.Pow2(k)
  {
    hide Wrap, Contents, Legal, SlotsMatch, Popped;
  }

  /** A step of the running thread with a tick in its hand or in the ring either processes
      one or comes nearer to that. */
  lemma ThreadAdvances<T>(u: W.Setup, s: W.Worker<T>, i: nat)
    requires W.WorkerInv(u, s) && s.running && s.handle == Some(i)
    requires W.InFlight(s) != [] || Contents(s.ring.trace) != []
    ensures var s', t := W.ThreadStep(u, s, i), W.Current(s);
            if |s'.processed| == |s.processed| then ToProcessed(W.Current(s')) < ToProcessed(t)
            else |s'.processed| == |s.processed| + 1 && W.Current(s').Checking?
  {
    var s' := W.ThreadStep(u, s, i);
    assert W.Current(s') == s'.threads[i];
    if s.threads[i].Popping? {
      PopAdvances(u.k, u.w, s.ring, s.producer, s.threads[i].pop);
    }
    hide Inv, ConsumerStep, W.LogsAgree, Contents;
  }

  /** A thread step touches neither the switch nor the handle, and unprocesses nothing. */
  lemma ThreadKeepsOn<T>(u: W.Setup, s: W.Worker<T>, i: nat)
    requires W.WorkerInv(u, s)
    ensures var s' := W.ThreadStep(u, s, i);
            && s'.running == s.running && s'.controller == s.controller && s'.handle == s.handle
            && |s'.processed| >= |s.processed|
    ensures s.handle != Some(i) ==> W.ThreadStep(u, s, i) == s
  {}

  lemma ProducerGrows<T>(k: nat, w: nat, s: Shared<T>, p: Producer<T>, value: T)
    requires |s.slots| == Bits.Pow2(k)
    ensures Pushed(s.trace) <= Pushed(ProducerStep(k, w, s, p, value).0.trace)
  {
    match p
    case HeadLoaded(v, _) => Snoc(0, s.trace, PushFull(v));
    case SlotBuilt(v, _) => Snoc(0, s.trace, PushOk(v));
    case _ =>
  }

  lemma ConsumerKeeps<T>(k: nat, w: nat, s: Shared<T>, c: Consumer<T>)
    requires |s.slots| == Bits.Pow2(k)
    ensures Pushed(ConsumerStep(k, w, s, c).0.trace) == Pushed(s.trace)
  {
    match c
    case TailLoaded(_) => Snoc(0, s.trace, PopEmpty);
    case SlotDestroyed(_, v) => Snoc(0, s.trace, PopOk(v));
    case _ =>
  }

  /** Accepted ticks stay accepted, in their place. */
  lemma AcceptedGrows<T>(u: W.Setup, s: W.Worker<T>, a: W.Action<T>)
    requires |s.ring.slots| == Bits.Pow2(u.k)
    ensures Pushed(s.ring.trace) <= Pushed(W.Step(u, s, a).ring.trace)
  {
    hide Pushed;
    match a
    case Submit(v) => ProducerGrows(u.k, u.w, s.ring, s.producer, v);
    case Control(_) =>
    case Work(i) =>
      if i < |s.threads| && s.threads[i].Popping? {
        ConsumerKeeps(u.k, u.w, s.ring, s.threads[i].pop);
      }
  }

  lemma SomethingLeft<T>(u: W.Setup, s: W.Worker<T>)
    requires W.WorkerInv(u, s) && |s.processed| < |Pushed(s.ring.trace)|
    ensures W.InFlight(s) != [] || Contents(s.ring.trace) != []
  {
    Conservation(Bits.Pow2(u.k), s.ring.trace);
  }

  lemma NearsStep<T>(u: W.Setup, s: W.Worker<T>, a: W.Action<T>, i: nat, m: nat, left: int)
    requires W.WorkerInv(u, s) && Nears(s, i, m, left) && a != W.Control(W.Stop)
    ensures Nears(W.Step(u, s, a), i, m, if a == W.Work(i) then left - 1 else left)
  {
    AcceptedGrows(u, s, a);
    match a
    case Submit(v) =>
      assert W.Current(W.Step(u, s, a)) == W.Current(s);
    case Control(_) =>
    case Work(j) =>
      ThreadKeepsOn(u, s, j);
      if j == i && m >= |s.processed| {
        SomethingLeft(u, s);
        ThreadAdvances(u, s, i);
        hide W.WorkerInv, W.Step, W.ThreadStep, W.InFlight, W.Current;
      }
  }

  lemma {:induction false} NearsRun<T>(u: W.Setup, before: seq<W.Action<T>>, more: seq<W.Action<T>>,
                                       i: nat, m: nat, left: int)
    requires u.k < u.w && Nears(W.Run(u, before), i, m, left)
    requires W.Control(W.Stop) !in more
    ensures Nears(W.Run(u, before + more), i, m, left - W.StepsOf(more, i))
  {
    hide Nears, W.Run, Pushed, W.WorkerInv;
    if more == [] {
      assert before + more == before;
    } else {
      var rest, a := more[..|more| - 1], more[|more| - 1];
      assert more == rest + [a] && before + more == before + rest + [a];
      assert a in more && W.Control(W.Stop) !in rest;
      hide *;
      NearsRun(u, before, rest, i, m, left);
      NearsOneMore(u, before + rest, a, i, m, left - W.StepsOf(rest, i));
      W.StepsSnoc(rest, a, i);
      assert left - W.StepsOf(more, i) == left - W.StepsOf(rest, i) - if a == W.Work(i) then 1 else 0;
    }
  }

  lemma NearsOneMore<T>(u: W.Setup, actions: seq<W.Action<T>>, a: W.Action<T>, i: nat, m: nat, left: int)
    requires u.k < u.w && Nears(W.Run(u, actions), i, m, left) && a != W.Control(W.Stop)
    ensures Nears(W.Run(u, actions + [a]), i, m, if a == W.Work(i) then left - 1 else left)
  {
    hide *;
    W.RunInv(u, actions);
    W.RunSnoc(u, actions, a);
    NearsStep(u, W.Run(u, actions), a, i, m, left);
  }

  lemma {:induction false} AcceptedStays<T>(u: W.Setup, before: seq<W.Action<T>>, more: seq<W.Action<T>>, m: nat)
    requires m < |Pushed(W.Run(u, before).ring.trace)|
    ensures m < |Pushed(W.Run(u, before + more).ring.trace)|
    ensures Pushed(W.Run(u, before + more).ring.trace)[m] == Pushed(W.Run(u, before).ring.trace)[m]
  {
    if more == [] {
      assert before + more == before;
    } else {
      var rest, a := more[..|more| - 1], more[|more| - 1];
      assert more == rest + [a];
      AcceptedStays(u, before, rest, m);
      W.RunSnoc(u, before + rest, a);
      hide *;
      assert before + more == before + rest + [a];
      AcceptedGrows(u, W.Run(u, before + rest), a);
    }
  }

  /** Every accepted tick is processed: while the worker runs and is not stopped, after 19
      steps of its thread for this tick and each tick before it that is not processed yet,
      however the submits and other steps are interleaved, the tick accepted as number
      `m` is processed as number `m`. */
  lemma AcceptedIsProcessed<T>(u: W.Setup, before: seq<W.Action<T>>, more: seq<W.Action<T>>, i: nat, m: nat)
    requires u.k < u.w
    requires var s := W.Run(u, before);
             && s.running && s.controller.Ready? && s.handle == Some(i)
             && m < |Pushed(s.ring.trace)|
             && W.StepsOf(more, i) >= ROUND * (m + 1 - |s.processed|)
    requires W.Control(W.Stop) !in more
    ensures var s, s' := W.Run(u, before), W.Run(u, before + more);
            m < |s'.processed| && s'.processed[m] == Pushed(s.ring.trace)[m]
  {
    hide W.Run, W.StepsOf, Pushed, Popped, Contents, W.InFlight;
    var s := W.Run(u, before);
    LongestRound(W.Current(s));
    NearsRun(u, before, more, i, m, ROUND * (m + 1 - |s.processed|));
    AcceptedStays(u, before, more, m);
    var s' := W.Run(u, before + more);
    LongestRound(W.Current(s'));
    W.NothingLost(u, before + more);
    assert s'.processed <= Pushed(s'.ring.trace);
  }

  lemma LongestRound<T>(t: W.Thread<T>)
    ensures 1 <= ToProcessed(t) <= ROUND
  {}
}
