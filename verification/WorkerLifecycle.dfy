/** What the commands of the worker come to in every run: a start starts exactly one thread,
    a stop ends it, a submit puts its tick into the ring, and together they process it. */
module WorkerLifecycle {
  import opened Wrappers
  import opened Fifo
  import opened FreeRunningRing
  import Bits
  import P = WorkerProgress
  import W = WorkerProtocol

  ghost predicate NoControl<T>(actions: seq<W.Action<T>>) {
    forall a | a in actions :: !a.Control?
  }

  ghost predicate NoStop<T>(actions: seq<W.Action<T>>) {
    W.Control(W.Stop) !in actions
  }

  /** The worker is stopped: no call in progress and the flag down. */
  ghost predicate Stopped<T>(s: W.Worker<T>) {
    s.controller.Ready? && !s.running
  }

  /** The worker runs with thread `i`: no call in progress, the flag up, and that thread
      is the joinable one and the only one that has not exited. */
  ghost predicate Runs<T>(s: W.Worker<T>, i: nat) {
    && s.controller.Ready? && s.running && s.handle == Some(i) && i < |s.threads|
    && forall j | 0 <= j < |s.threads| :: s.threads[j].Exited? <==> j != i
  }

  /** The flag is up and the thread, which will have number `n`, is not spawned yet. */
  ghost predicate Launching<T>(s: W.Worker<T>, n: nat) {
    && s.running && s.controller.Spawning? && s.handle.None? && |s.threads| == n
    && forall j | 0 <= j < n :: s.threads[j].Exited?
  }

  lemma Begins<T>(u: W.Setup, s: W.Worker<T>)
    requires W.WorkerInv(u, s) && Stopped(s)
    ensures Launching(W.Step(u, s, W.Control(W.Start)), |s.threads|)
  {}

  lemma LaunchingKeeps<T>(u: W.Setup, s: W.Worker<T>, a: W.Action<T>, n: nat)
    requires W.WorkerInv(u, s) && Launching(s, n) && !a.Control?
    ensures Launching(W.Step(u, s, a), n)
  {}

  lemma Spawns<T>(u: W.Setup, s: W.Worker<T>, c: W.Command, n: nat)
    requires W.WorkerInv(u, s) && Launching(s, n)
    ensures var s' := W.Step(u, s, W.Control(c));
            && Runs(s', n) && s'.threads == s.threads + [W.Checking]
            && s'.ring == s.ring && s'.producer == s.producer && s'.processed == s.processed
  {}

  lemma {:induction false} LaunchingRun<T>(u: W.Setup, before: seq<W.Action<T>>, between: seq<W.Action<T>>, n: nat)
    requires u.k < u.w && Launching(W.Run(u, before), n) && NoControl(between)
    ensures Launching(W.Run(u, before + between), n)
  {
    if between == [] {
      assert before + between == before;
    } else {
      var rest, a := between[..|between| - 1], between[|between| - 1];
      assert between == rest + [a] && before + between == before + rest + [a];
      assert a in between && NoControl(rest);
      hide W.Run, W.WorkerInv, Launching;
      LaunchingRun(u, before, rest, n);
      W.RunInv(u, before + rest);
      W.RunSnoc(u, before + rest, a);
      LaunchingKeeps(u, W.Run(u, before + rest), a, n);
    }
  }

  /** The actions of a start: the command, anything that other threads do, and the next step
      of the controller. */
  function Starting<T>(between: seq<W.Action<T>>, c: W.Command): seq<W.Action<T>> {
    [W.Control(W.Start)] + between + [W.Control(c)]
  }

  /** A start starts the worker: in every run, from any state in which the worker is stopped,
      the start leads to a running worker with exactly one live thread, a fresh one. */
  lemma StartStarts<T>(u: W.Setup, before: seq<W.Action<T>>, between: seq<W.Action<T>>, c: W.Command)
    requires u.k < u.w && Stopped(W.Run(u, before)) && NoControl(between)
    ensures var s, s' := W.Run(u, before), W.Run(u, before + Starting(between, c));
            && Runs(s', |s.threads|)
            && |s'.threads| == |s.threads| + 1 && s'.threads[|s.threads|].Checking?
  {
    var s, start := W.Run(u, before), W.Control(W.Start);
    var launched := before + [start];
    assert before + Starting(between, c) == launched + between + [W.Control(c)];
    hide W.Run, W.WorkerInv, Launching;
    W.RunInv(u, before);
    W.RunSnoc(u, before, start);
    Begins(u, s);
    LaunchingRun(u, launched, between, |s.threads|);
    W.RunInv(u, launched + between);
    W.RunSnoc(u, launched + between, W.Control(c));
    Spawns(u, W.Run(u, launched + between), c, |s.threads|);
    LaunchedThreads(W.Run(u, launched + between), |s.threads|);
  }

  lemma LaunchedThreads<T>(s: W.Worker<T>, n: nat)
    requires Launching(s, n)
    ensures |s.threads| == n
  {}

  lemma RunningKeeps<T>(u: W.Setup, s: W.Worker<T>, a: W.Action<T>, i: nat)
    requires W.WorkerInv(u, s) && Runs(s, i) && a != W.Control(W.Stop)
    ensures Runs(W.Step(u, s, a), i) && |W.Step(u, s, a).threads| == |s.threads|
  {
    var s' := W.Step(u, s, a);
    if a == W.Work(i) {
      ThreadLives(u, s, i);
    }
  }

  lemma ThreadLives<T>(u: W.Setup, s: W.Worker<T>, i: nat)
    requires W.WorkerInv(u, s) && Runs(s, i)
    ensures var s' := W.ThreadStep(u, s, i);
            && |s'.threads| == |s.threads| && !s'.threads[i].Exited?
            && (forall j | 0 <= j < |s.threads| && j != i :: s'.threads[j] == s.threads[j])
            && s'.controller == s.controller && s'.running == s.running && s'.handle == s.handle
  {
    hide ConsumerStep;
  }

  /** A running worker keeps running: as long as no stop is called, whatever else happens, it
      keeps its one live thread. */
  lemma {:induction false} KeepsRunning<T>(u: W.Setup, before: seq<W.Action<T>>, more: seq<W.Action<T>>, i: nat)
    requires u.k < u.w && Runs(W.Run(u, before), i) && NoStop(more)
    ensures Runs(W.Run(u, before + more), i)
    ensures |W.Run(u, before + more).threads| == |W.Run(u, before).threads|
  {
    if more == [] {
      assert before + more == before;
    } else {
      var rest, a := more[..|more| - 1], more[|more| - 1];
      assert more == rest + [a] && before + more == before + rest + [a];
      assert a in more && NoStop(rest);
      hide W.Run, W.WorkerInv, Runs;
      KeepsRunning(u, before, rest, i);
      W.RunInv(u, before + rest);
      W.RunSnoc(u, before + rest, a);
      RunningKeeps(u, W.Run(u, before + rest), a, i);
    }
  }

  /** A start of a running worker and a stop of a stopped one change nothing. */
  lemma IdleCommands<T>(u: W.Setup, before: seq<W.Action<T>>, i: nat)
    ensures Runs(W.Run(u, before), i) ==> W.Run(u, before + [W.Control(W.Start)]) == W.Run(u, before)
    ensures Stopped(W.Run(u, before)) ==> W.Run(u, before + [W.Control(W.Stop)]) == W.Run(u, before)
  {
    hide W.Run;
    W.RunSnoc(u, before, W.Control(W.Start));
    W.RunSnoc(u, before, W.Control(W.Stop));
  }

  /** A stop of a running worker takes the flag down and waits for its thread. */
  lemma StopBegins<T>(u: W.Setup, before: seq<W.Action<T>>, i: nat)
    requires Runs(W.Run(u, before), i)
    ensures var s, s' := W.Run(u, before), W.Run(u, before + [W.Control(W.Stop)]);
            && !s'.running && s'.controller.Joining? && s'.handle == Some(i)
            && s'.threads == s.threads && s'.ring == s.ring && s'.processed == s.processed
  {
    hide W.Run;
    W.RunSnoc(u, before, W.Control(W.Stop));
  }

  /** A stop stops the worker: in every run, when a running worker is stopped, any schedule
      in which its thread takes 19 steps, and after which the controller takes one, passes
      through a state in which the stop has returned, no thread is alive, and every
      accepted tick has been processed or waits in the ring. */
  lemma StopStops<T>(u: W.Setup, before: seq<W.Action<T>>, more: seq<W.Action<T>>, i: nat, c: W.Command)
    requires u.k < u.w && Runs(W.Run(u, before), i) && W.StepsOf(more, i) >= 19
    ensures exists n: nat :: n <= |more| + 1 &&
              HasStopped(u, before + [W.Control(W.Stop)] + (more + [W.Control(c)])[..n])
  {
    var stopping, all := before + [W.Control(W.Stop)], more + [W.Control(c)];
    hide W.Run, W.StepsOf, Runs;
    StopBegins(u, before, i);
    W.StopReturns(u, stopping, more, i, c);
    var n: nat :| n <= |all| && W.Returned(u, stopping, all, n);
    W.StoppedLosesNothing(u, stopping + all[..n]);
    assert HasStopped(u, stopping + all[..n]);
  }

  ghost predicate HasStopped<T>(u: W.Setup, actions: seq<W.Action<T>>) {
    var s := W.Run(u, actions);
    && Stopped(s)
    && (forall j | 0 <= j < |s.threads| :: s.threads[j].Exited?)
    && s.processed + Contents(s.ring.trace) == Pushed(s.ring.trace)
  }

  /** From the command to the processed tick: after a start of a stopped worker, while it is
      not stopped, any schedule in which the new thread takes 19 steps for a tick and for
      each unprocessed one before it processes the tick accepted as number `m` as
      number `m`. */
  lemma StartProcesses<T>(u: W.Setup, before: seq<W.Action<T>>, between: seq<W.Action<T>>, c: W.Command,
                          more: seq<W.Action<T>>, m: nat)
    requires u.k < u.w && Stopped(W.Run(u, before)) && NoControl(between) && NoStop(more)
    requires var s := W.Run(u, before + Starting(between, c));
             && m < |Pushed(s.ring.trace)|
             && W.StepsOf(more, |W.Run(u, before).threads|) >= 19 * (m + 1 - |s.processed|)
    ensures var s := W.Run(u, before + Starting(between, c));
            var s' := W.Run(u, before + Starting(between, c) + more);
            m < |s'.processed| && s'.processed[m] == Pushed(s.ring.trace)[m]
  {
    hide W.Run, W.StepsOf, Pushed, Starting;
    StartStarts(u, before, between, c);
    P.AcceptedIsProcessed(u, before + Starting(between, c), more, |W.Run(u, before).threads|, m);
  }

  // ---------------------------------------------------------------------------
  // A submit

  /** The steps of `Submit` in a schedule. */
  function Submits<T>(actions: seq<W.Action<T>>): nat {
    if actions == [] then 0
    else Submits(actions[..|actions| - 1]) + if actions[|actions| - 1].Submit? then 1 else 0
  }

  /** Every submit step in a schedule is one of the call for `v`. */
  ghost predicate SubmitsOnly<T>(actions: seq<W.Action<T>>, v: T) {
    forall a | a in actions && a.Submit? :: a.value == v
  }

  /** The submit of `v`, which finds room, has `left` steps to go; `was` had been accepted
      before it. */
  ghost predicate Submitting<T>(cap: nat, ring: Shared<T>, p: Producer<T>, v: T, was: seq<T>, left: nat) {
    if left == 0 then p.ProducerIdle? && Pushed(ring.trace) == was + [v]
    else
      && Pushed(ring.trace) == was && |Contents(ring.trace)| < cap
      && match p
         case ProducerIdle => left == 4
         case HeadLoaded(x, _) => left == 3 && x == v
         case RoomSeen(x, _) => left == 2 && x == v
         case SlotBuilt(x, _) => left == 1 && x == v
  }

  lemma SubmitAdvances<T>(k: nat, w: nat, s: Shared<T>, p: Producer<T>, c: Consumer<T>, v: T, was: seq<T>, left: nat)
    requires Inv(k, w, s, p, c) && Submitting(Bits.Pow2(k), s, p, v, was, left) && left > 0
    ensures var (s', p') := ProducerStep(k, w, s, p, v); Submitting(Bits.Pow2(k), s', p', v, was, left - 1)
  {
    CountersMeasure(k, w, s, p, c);
    Snoc(0, s.trace, PushOk(v));
  }

  /** A consumer makes room and accepts nothing. */
  lemma PopMakesRoom<T>(k: nat, w: nat, s: Shared<T>, c: Consumer<T>)
    requires |s.slots| == Bits.Pow2(k)
    ensures var s' := ConsumerStep(k, w, s, c).0;
            Pushed(s'.trace) == Pushed(s.trace) && |Contents(s'.trace)| <= |Contents(s.trace)|
  {
    match c
    case TailLoaded(_) => Snoc(0, s.trace, PopEmpty);
    case SlotDestroyed(_, v) => Snoc(0, s.trace, PopOk(v));
    case _ =>
  }

  lemma SubmittingStep<T>(u: W.Setup, s: W.Worker<T>, a: W.Action<T>, v: T, was: seq<T>, left: nat)
    requires W.WorkerInv(u, s) && Submitting(Bits.Pow2(u.k), s.ring, s.producer, v, was, left)
    requires a.Submit? ==> a.value == v && left > 0
    ensures var s' := W.Step(u, s, a);
            Submitting(Bits.Pow2(u.k), s'.ring, s'.producer, v, was, if a.Submit? then left - 1 else left)
  {
    hide Contents, Pushed;
    match a
    case Submit(_) => SubmitAdvances(u.k, u.w, s.ring, s.producer, W.Popper(s), v, was, left);
    case Control(_) =>
    case Work(i) =>
      if i < |s.threads| && s.threads[i].Popping? {
        PopMakesRoom(u.k, u.w, s.ring, s.threads[i].pop);
      }
  }

  lemma SubmitsSnoc<T>(actions: seq<W.Action<T>>, a: W.Action<T>)
    ensures Submits(actions + [a]) == Submits(actions) + if a.Submit? then 1 else 0
  {
    assert (actions + [a])[..|actions|] == actions;
  }

  lemma {:induction false} SubmittingRun<T>(u: W.Setup, before: seq<W.Action<T>>, more: seq<W.Action<T>>, v: T)
    requires u.k < u.w && W.Run(u, before).producer.ProducerIdle? && SubmitsOnly(more, v) && Submits(more) <= 4
    requires |Contents(W.Run(u, before).ring.trace)| < Bits.Pow2(u.k)
    ensures var s, s' := W.Run(u, before), W.Run(u, before + more);
            Submitting(Bits.Pow2(u.k), s'.ring, s'.producer, v, Pushed(s.ring.trace), 4 - Submits(more))
  {
    hide W.Run, Contents, Pushed;
    if more == [] {
      assert before + more == before;
    } else {
      var rest, a := more[..|more| - 1], more[|more| - 1];
      assert more == rest + [a] && before + more == before + rest + [a];
      assert a in more && SubmitsOnly(rest, v);
      SubmitsSnoc(rest, a);
      hide *;
      SubmittingRun(u, before, rest, v);
      SubmittingOneMore(u, before + rest, a, v, Pushed(W.Run(u, before).ring.trace), 4 - Submits(rest));
    }
  }

  lemma SubmittingOneMore<T>(u: W.Setup, actions: seq<W.Action<T>>, a: W.Action<T>, v: T, was: seq<T>, left: nat)
    requires u.k < u.w && (a.Submit? ==> a.value == v && left > 0)
    requires var s := W.Run(u, actions); Submitting(Bits.Pow2(u.k), s.ring, s.producer, v, was, left)
    ensures var s := W.Run(u, actions + [a]);
            Submitting(Bits.Pow2(u.k), s.ring, s.producer, v, was, if a.Submit? then left - 1 else left)
  {
    hide *;
    W.RunInv(u, actions);
    W.RunSnoc(u, actions, a);
    SubmittingStep(u, W.Run(u, actions), a, v, was, left);
  }

  /** A submit with room is accepted: when the ring is not full as the submit begins, then
      after its four steps, whatever else happens in between, the tick is the next one
      accepted. */
  lemma SubmitAccepts<T>(u: W.Setup, before: seq<W.Action<T>>, more: seq<W.Action<T>>, v: T)
    requires u.k < u.w && W.Run(u, before).producer.ProducerIdle?
    requires |Contents(W.Run(u, before).ring.trace)| < Bits.Pow2(u.k)
    requires SubmitsOnly(more, v) && Submits(more) == 4
    ensures var s, s' := W.Run(u, before), W.Run(u, before + more);
            s'.producer.ProducerIdle? && Pushed(s'.ring.trace) == Pushed(s.ring.trace) + [v]
  {
    hide W.Run, Submits, Pushed, Contents;
    SubmittingRun(u, before, more, v);
  }

  /** From the submit to the processed tick: on a running worker with room in its ring, four
      steps of the submit and then, without a stop, 19 steps of the thread for this tick and
      each unprocessed one before it, process the tick as the next one after all that were
      accepted before. */
  lemma SubmittedIsProcessed<T>(u: W.Setup, before: seq<W.Action<T>>, submit: seq<W.Action<T>>,
                                more: seq<W.Action<T>>, i: nat, v: T)
    requires u.k < u.w && Runs(W.Run(u, before), i) && W.Run(u, before).producer.ProducerIdle?
    requires |Contents(W.Run(u, before).ring.trace)| < Bits.Pow2(u.k)
    requires SubmitsOnly(submit, v) && Submits(submit) == 4 && NoStop(submit) && NoStop(more)
    requires var s := W.Run(u, before);
             W.StepsOf(more, i) >= 19 * (|Pushed(s.ring.trace)| + 1 - |W.Run(u, before + submit).processed|)
    ensures var s, s' := W.Run(u, before), W.Run(u, before + submit + more);
            var m := |Pushed(s.ring.trace)|;
            m < |s'.processed| && s'.processed[m] == v
  {
    hide W.Run, W.StepsOf, Submits, Pushed, Contents, SubmitsOnly;
    SubmitAccepts(u, before, submit, v);
    KeepsRunning(u, before, submit, i);
    P.AcceptedIsProcessed(u, before + submit, more, i, |Pushed(W.Run(u, before).ring.trace)|);
  }
}
