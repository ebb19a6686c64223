/** The per-symbol worker: one thread submits ticks, one controller starts, stops and
    restarts, and worker threads drain the ring. Every atomic step is a function; a
    run is any interleaving of them. */
module WorkerProtocol {
  import opened Wrappers
  import opened Bits
  import opened Fifo
  import opened FreeRunningRing

  const STAGE_COUNT: nat := 11

  /** The ring geometry, the stage indices that have a handler, and whether an event
      bus is attached. None of them changes while the worker runs. */
  datatype Setup = Setup(k: nat, w: nat, stages: set<nat>, bus: bool)

  /** Where a worker thread stands in `run`. */
  datatype Thread<T> =
    | Checking
    | Popping(pop: Consumer<T>)
    | Staging(tick: T, stage: nat)
    | Publishing(tick: T)
    | Exited

  /** Where the controller stands in `start` or `stop`. */
  datatype Controller = Ready | Spawning | Joining

  datatype Command = Start | Stop

  /** `threads` lists every thread ever spawned and `handle` is the joinable one.
      `staged`, `published` and `processed` log the handler calls, the published
      ticks and the ticks whose loop iteration is over. Assigning a thread over a
      joinable handle terminates the program. */
  datatype Worker<T> = Worker(
    ring: Shared<T>, producer: Producer<T>,
    running: bool, threads: seq<Thread<T>>, handle: Option<nat>, controller: Controller,
    staged: seq<(T, nat)>, published: seq<T>, processed: seq<T>, terminated: bool)

  function Initial<T>(u: Setup): Worker<T> {
    Worker(FreeRunningRing.Initial(u.k), ProducerIdle, false, [], None, Ready, [], [], [], false)
  }

  function SubmitStep<T>(u: Setup, s: Worker<T>, value: T): (s': Worker<T>)
    requires |s.ring.slots| == Pow2(u.k)
    ensures |s'.ring.slots| == Pow2(u.k)
  {
    var (ring, producer) := ProducerStep(u.k, u.w, s.ring, s.producer, value);
    s.(ring := ring, producer := producer)
  }

  /** The controller's next step; `command` is used when it is free to begin a call. */
  function ControllerStep<T>(s: Worker<T>, command: Command): (s': Worker<T>)
    ensures s'.ring == s.ring
  {
    match s.controller
    case Ready =>
      (match command
       case Start => if s.running then s else s.(running := true, controller := Spawning)
       case Stop =>
         s.(running := false,
            controller := if s.running && s.handle.Some? then Joining else Ready))
    case Spawning =>
      if s.handle.Some? then s.(terminated := true)
      else s.(threads := s.threads + [Checking], handle := Some(|s.threads|), controller := Ready)
    case Joining =>
      if s.handle.Some? && s.handle.value < |s.threads| && s.threads[s.handle.value].Exited?
      then s.(handle := None, controller := Ready) else s
  }

  /** The next step of worker thread `i`. */
  function ThreadStep<T>(u: Setup, s: Worker<T>, i: nat): (s': Worker<T>)
    requires |s.ring.slots| == Pow2(u.k)
    ensures |s'.ring.slots| == Pow2(u.k)
  {
    if i >= |s.threads| then s else
    match s.threads[i]
    case Checking =>
      s.(threads := s.threads[i := if s.running then Popping(ConsumerIdle) else Exited])
    case Popping(c) =>
      var (ring, c') := ConsumerStep(u.k, u.w, s.ring, c);
      s.(ring := ring,
         threads := s.threads[i := if c.SlotDestroyed? then Staging(c.value, 0)
                                   else if c'.ConsumerIdle? then Checking
                                   else Popping(c')])
    case Staging(tick, stage) =>
      if stage < STAGE_COUNT then
        s.(staged := s.staged + (if stage in u.stages then [(tick, stage)] else []),
           threads := s.threads[i := Staging(tick, stage + 1)])
      else if u.bus then s.(threads := s.threads[i := Publishing(tick)])
      else s.(processed := s.processed + [tick], threads := s.threads[i := Checking])
    case Publishing(tick) =>
      s.(published := s.published + [tick], processed := s.processed + [tick],
         threads := s.threads[i := Checking])
    case Exited => s
  }

  datatype Action<T> = Submit(value: T) | Control(command: Command) | Work(thread: nat)

  function Step<T>(u: Setup, s: Worker<T>, a: Action<T>): (s': Worker<T>)
    requires |s.ring.slots| == Pow2(u.k)
    ensures |s'.ring.slots| == Pow2(u.k)
  {
    match a
    case Submit(v) => SubmitStep(u, s, v)
    case Control(command) => ControllerStep(s, command)
    case Work(i) => ThreadStep(u, s, i)
  }

  function Run<T>(u: Setup, actions: seq<Action<T>>): (s: Worker<T>)
    ensures |s.ring.slots| == Pow2(u.k)
  {
    if actions == [] then Initial(u)
    else Step(u, Run(u, actions[..|actions| - 1]), actions[|actions| - 1])
  }

  /** The handler calls for one tick before stage `upto`, and for a list of ticks. */
  ghost function Calls<T>(stages: set<nat>, tick: T, upto: nat): seq<(T, nat)> {
    if upto == 0 then []
    else Calls(stages, tick, upto - 1) + (if upto - 1 in stages then [(tick, upto - 1)] else [])
  }

  ghost function AllCalls<T>(stages: set<nat>, ticks: seq<T>): seq<(T, nat)> {
    if ticks == [] then []
    else AllCalls(stages, ticks[..|ticks| - 1]) + Calls(stages, ticks[|ticks| - 1], STAGE_COUNT)
  }

  /** The joinable thread, or an exited one when there is none. */
  ghost function Current<T>(s: Worker<T>): Thread<T> {
    if s.handle.Some? && s.handle.value < |s.threads| then s.threads[s.handle.value] else Exited
  }

  /** The tick popped from the ring whose iteration is not over yet. */
  ghost function InFlight<T>(s: Worker<T>): (r: seq<T>)
    ensures |r| <= 1
  {
    match Current(s)
    case Staging(tick, _) => [tick]
    case Publishing(tick) => [tick]
    case _ => []
  }

  ghost function PendingCalls<T>(u: Setup, s: Worker<T>): seq<(T, nat)> {
    match Current(s)
    case Staging(tick, stage) => Calls(u.stages, tick, stage)
    case Publishing(tick) => Calls(u.stages, tick, STAGE_COUNT)
    case _ => []
  }

  ghost function Popper<T>(s: Worker<T>): Consumer<T> {
    match Current(s)
    case Popping(c) => c
    case _ => ConsumerIdle
  }

  /** Only the joinable thread can be alive, and the handle matches `running`. */
  ghost predicate ThreadsAgree<T>(s: Worker<T>) {
    && !s.terminated
    && (s.handle.Some? ==> s.handle.value < |s.threads|)
    && (forall i | 0 <= i < |s.threads| && s.handle != Some(i) :: s.threads[i].Exited?)
    && (s.running && s.handle.Some? ==> !Current(s).Exited?)
    && match s.controller
       case Ready => s.running <==> s.handle.Some?
       case Spawning => s.running && s.handle.None?
       case Joining => !s.running && s.handle.Some?
  }

  ghost predicate LogsAgree<T>(u: Setup, s: Worker<T>) {
    && s.processed + InFlight(s) == Popped(s.ring.trace)
    && s.published == (if u.bus then s.processed else [])
    && s.staged == AllCalls(u.stages, s.processed) + PendingCalls(u, s)
    && (Current(s).Staging? ==> Current(s).stage <= STAGE_COUNT)
    && (Current(s).Publishing? ==> u.bus)
  }

  ghost predicate WorkerInv<T>(u: Setup, s: Worker<T>) {
    && Inv(u.k, u.w, s.ring, s.producer, Popper(s))
    && ThreadsAgree(s)
    && LogsAgree(u, s)
  }

  lemma ProducerStepPops<T>(k: nat, w: nat, s: Shared<T>, p: Producer<T>, value: T)
    requires |s.slots| == Pow2(k)
    ensures Popped(ProducerStep(k, w, s, p, value).0.trace) == Popped(s.trace)
  {
    match p
    case HeadLoaded(v, _) => Snoc(0, s.trace, PushFull(v));
    case SlotBuilt(v, _) => Snoc(0, s.trace, PushOk(v));
    case _ =>
  }

  /** The logs depend on the ring through its deliveries only. */
  lemma LogsIgnoreRing<T>(u: Setup, s: Worker<T>, s': Worker<T>)
    requires LogsAgree(u, s)
    requires s' == s.(ring := s'.ring, producer := s'.producer)
    requires Popped(s'.ring.trace) == Popped(s.ring.trace)
    ensures LogsAgree(u, s')
  {
    assert Current(s') == Current(s);
  }

  lemma SubmitKeepsInv<T>(u: Setup, s: Worker<T>, value: T)
    requires WorkerInv(u, s)
    ensures WorkerInv(u, SubmitStep(u, s, value))
  {
    ProducerKeepsInv(u.k, u.w, s.ring, s.producer, Popper(s), value);
    ProducerStepPops(u.k, u.w, s.ring, s.producer, value);
    LogsIgnoreRing(u, s, SubmitStep(u, s, value));
  }

  lemma ControllerKeepsInv<T>(u: Setup, s: Worker<T>, command: Command)
    requires WorkerInv(u, s)
    ensures WorkerInv(u, ControllerStep(s, command))
  {
  }

  lemma ConsumerStepPops<T>(k: nat, w: nat, s: Shared<T>, p: Producer<T>, c: Consumer<T>)
    requires Inv(k, w, s, p, c)
    ensures var (s', c') := ConsumerStep(k, w, s, c);
            && Popped(s'.trace) == Popped(s.trace) + (if c.SlotDestroyed? then [c.value] else [])
            && (c.SlotDestroyed? ==> c'.ConsumerIdle?)
  {
    match c
    case TailLoaded(_) => Snoc(0, s.trace, PopEmpty);
    case SlotDestroyed(_, v) => Snoc(0, s.trace, PopOk(v));
    case _ =>
  }

  lemma FinishTick<T>(stages: set<nat>, ticks: seq<T>, tick: T)
    ensures AllCalls(stages, ticks + [tick]) == AllCalls(stages, ticks) + Calls(stages, tick, STAGE_COUNT)
  {
    assert (ticks + [tick])[..|ticks|] == ticks;
  }

  lemma PoppingKeepsLogs<T>(u: Setup, s: Worker<T>, i: nat, ring: Shared<T>, c': Consumer<T>)
    requires |s.ring.slots| == Pow2(u.k)
    requires ThreadsAgree(s) && LogsAgree(u, s) && s.handle == Some(i) && s.threads[i].Popping?
    requires (ring, c') == ConsumerStep(u.k, u.w, s.ring, s.threads[i].pop)
    requires var c := s.threads[i].pop;
             Popped(ring.trace) == Popped(s.ring.trace) + (if c.SlotDestroyed? then [c.value] else [])
    ensures LogsAgree(u, ThreadStep(u, s, i))
  {
    hide ConsumerStep, Popped, Pow2, AllCalls;
    var c := s.threads[i].pop;
    var s' := ThreadStep(u, s, i);
    if c.SlotDestroyed? {
      assert Calls(u.stages, c.value, 0) == [];
    }
    assert PendingCalls(u, s') == [] == PendingCalls(u, s);
  }

  lemma PoppingKeepsInv<T>(u: Setup, s: Worker<T>, i: nat)
    requires WorkerInv(u, s) && s.handle == Some(i) && s.threads[i].Popping?
    ensures WorkerInv(u, ThreadStep(u, s, i))
  {
    var c := s.threads[i].pop;
    ConsumerKeepsInv(u.k, u.w, s.ring, s.producer, c);
    ConsumerStepPops(u.k, u.w, s.ring, s.producer, c);
    var (ring, c') := ConsumerStep(u.k, u.w, s.ring, c);
    PoppingKeepsLogs(u, s, i, ring, c');
  }

  lemma CallStage<T>(u: Setup, s: Worker<T>, i: nat, s': Worker<T>)
    requires ThreadsAgree(s) && LogsAgree(u, s) && s.handle == Some(i)
    requires s.threads[i].Staging? && s.threads[i].stage < STAGE_COUNT
    requires var Staging(tick, stage) := s.threads[i];
             s' == s.(staged := s.staged + (if stage in u.stages then [(tick, stage)] else []),
                      threads := s.threads[i := Staging(tick, stage + 1)])
    ensures LogsAgree(u, s')
  {
    var Staging(tick, stage) := s.threads[i];
    assert Current(s') == Staging(tick, stage + 1);
    var done, rest := AllCalls(u.stages, s.processed), Calls(u.stages, tick, stage);
    var call := if stage in u.stages then [(tick, stage)] else [];
    assert Calls(u.stages, tick, stage + 1) == rest + call;
    assert (done + rest) + call == done + (rest + call);
  }

  lemma FinishIteration<T>(u: Setup, s: Worker<T>, i: nat, s': Worker<T>, published: seq<T>)
    requires ThreadsAgree(s) && LogsAgree(u, s) && s.handle == Some(i)
    requires s.threads[i].Publishing? || (s.threads[i].Staging? && s.threads[i].stage == STAGE_COUNT)
    requires s' == s.(published := published, processed := s.processed + [s.threads[i].tick],
                      threads := s.threads[i := Checking])
    requires published == if u.bus then s.published + [s.threads[i].tick] else s.published
    ensures LogsAgree(u, s')
  {
    var tick := s.threads[i].tick;
    FinishTick(u.stages, s.processed, tick);
    assert Current(s') == Checking;
    assert s'.processed + [] == s.processed + [tick];
    assert AllCalls(u.stages, s'.processed) + [] == s'.staged;
  }

  lemma StagingKeepsLogs<T>(u: Setup, s: Worker<T>, i: nat)
    requires |s.ring.slots| == Pow2(u.k)
    requires ThreadsAgree(s) && LogsAgree(u, s) && s.handle == Some(i)
    requires s.threads[i].Staging? || s.threads[i].Publishing?
    ensures LogsAgree(u, ThreadStep(u, s, i))
  {
    var s' := ThreadStep(u, s, i);
    match s.threads[i]
    case Staging(tick, stage) =>
      if stage < STAGE_COUNT {
        CallStage(u, s, i, s');
      } else if u.bus {
        assert Current(s') == Publishing(tick);
      } else {
        FinishIteration(u, s, i, s', s.published);
      }
    case Publishing(tick) =>
      FinishIteration(u, s, i, s', s.published + [tick]);
  }

  lemma StagingKeepsThreads<T>(u: Setup, s: Worker<T>, i: nat)
    requires |s.ring.slots| == Pow2(u.k)
    requires ThreadsAgree(s) && s.handle == Some(i)
    requires s.threads[i].Staging? || s.threads[i].Publishing?
    ensures var s' := ThreadStep(u, s, i);
            && ThreadsAgree(s') && Popper(s') == Popper(s)
            && s'.ring == s.ring && s'.producer == s.producer
  {
  }

  lemma StagingKeepsInv<T>(u: Setup, s: Worker<T>, i: nat)
    requires WorkerInv(u, s) && s.handle == Some(i)
    requires s.threads[i].Staging? || s.threads[i].Publishing?
    ensures WorkerInv(u, ThreadStep(u, s, i))
  {
    StagingKeepsThreads(u, s, i);
    StagingKeepsLogs(u, s, i);
  }

  lemma ThreadKeepsInv<T>(u: Setup, s: Worker<T>, i: nat)
    requires WorkerInv(u, s)
    ensures WorkerInv(u, ThreadStep(u, s, i))
  {
    if i < |s.threads| && s.handle == Some(i) {
      match s.threads[i]
      case Checking =>
      case Popping(_) => PoppingKeepsInv(u, s, i);
      case Staging(_, _) => StagingKeepsInv(u, s, i);
      case Publishing(_) => StagingKeepsInv(u, s, i);
      case Exited =>
    } else {
      assert ThreadStep(u, s, i) == s;
    }
  }

  lemma {:induction false} RunInv<T>(u: Setup, actions: seq<Action<T>>)
    requires u.k < u.w
    ensures WorkerInv(u, Run(u, actions))
  {
    if actions == [] {
      InitialInv<T>(u.k, u.w);
    } else {
      var s, a := Run(u, actions[..|actions| - 1]), actions[|actions| - 1];
      RunInv(u, actions[..|actions| - 1]);
      assert Run(u, actions) == Step(u, s, a);
      hide Run, WorkerInv, SubmitStep, ControllerStep, ThreadStep;
      match a
      case Submit(v) => SubmitKeepsInv(u, s, v);
      case Control(command) => ControllerKeepsInv(u, s, command);
      case Work(i) => ThreadKeepsInv(u, s, i);
    }
  }

  /** Over every interleaving of submits, starts, stops, restarts and thread steps:
      the finished ticks, then the at most one in flight, then the ring contents are
      the accepted ticks in order; at most one thread is alive; no thread is assigned
      over a joinable one; and the ring itself is never misused. */
  lemma NothingLost<T>(u: Setup, actions: seq<Action<T>>)
    requires u.k < u.w
    ensures var s := Run(u, actions);
            && s.processed + InFlight(s) + Contents(s.ring.trace) == Pushed(s.ring.trace)
            && Legal(Pow2(u.k), s.ring.trace)
            && !s.ring.fault && !s.terminated
            && forall i, j | 0 <= i < |s.threads| && 0 <= j < |s.threads|
                 && !s.threads[i].Exited? && !s.threads[j].Exited? :: i == j
    ensures var s := Run(u, actions);
            s.running && s.controller.Ready? ==> exists i :: 0 <= i < |s.threads| && !s.threads[i].Exited?
  {
    RunInv(u, actions);
    Conservation(Pow2(u.k), Run(u, actions).ring.trace);
  }

  /** Each finished tick went through exactly the stages with a handler, in ascending
      order, before the next tick, and was published once iff a bus is attached. */
  lemma EachTickStagedOnce<T>(u: Setup, actions: seq<Action<T>>)
    requires u.k < u.w
    ensures var s := Run(u, actions);
            && s.published == (if u.bus then s.processed else [])
            && s.staged == AllCalls(u.stages, s.processed) + PendingCalls(u, s)
  {
    RunInv(u, actions);
  }

  /** The handlers below `upto`, each once, in ascending order. */
  ghost predicate CallsBelow<T>(calls: seq<(T, nat)>, stages: set<nat>, tick: T, upto: nat) {
    && (forall c | c in calls :: c.0 == tick && c.1 in stages && c.1 < upto)
    && (forall n | n in stages && n < upto :: (tick, n) in calls)
    && (forall i, j | 0 <= i < j < |calls| :: calls[i].1 < calls[j].1)
  }

  lemma OneCallMore<T>(calls: seq<(T, nat)>, stages: set<nat>, tick: T, n: nat)
    requires CallsBelow(calls, stages, tick, n)
    ensures CallsBelow(calls + (if n in stages then [(tick, n)] else []), stages, tick, n + 1)
  {
    forall i | 0 <= i < |calls| ensures calls[i].1 < n {
      assert calls[i] in calls;
    }
  }

  lemma NoCalls<T>(stages: set<nat>, tick: T)
    ensures CallsBelow([], stages, tick, 0)
  {}

  lemma {:induction false} CallsAscend<T>(stages: set<nat>, tick: T, upto: nat)
    ensures CallsBelow(Calls(stages, tick, upto), stages, tick, upto)
  {
    hide CallsBelow;
    if upto == 0 {
      NoCalls(stages, tick);
    } else {
      CallsAscend(stages, tick, upto - 1);
      OneCallMore(Calls(stages, tick, upto - 1), stages, tick, upto - 1);
    }
  }

  lemma {:induction false} AllCallsMembers<T>(stages: set<nat>, ticks: seq<T>, c: (T, nat))
    ensures c in AllCalls(stages, ticks) <==> c.0 in ticks && c.1 in stages && c.1 < STAGE_COUNT
  {
    if ticks == [] {
    } else {
      var n := |ticks| - 1;
      assert ticks == ticks[..n] + [ticks[n]];
      AllCallsMembers(stages, ticks[..n], c);
      CallsAscend(stages, ticks[n], STAGE_COUNT);
    }
  }

  /** In every run: a processed tick has been through all handlers at the indices 0 to 10,
      and no other handler is ever called. */
  lemma HandlersCalled<T>(u: Setup, actions: seq<Action<T>>, tick: T, stage: nat)
    requires u.k < u.w
    ensures var s := Run(u, actions);
            && (tick in s.processed && stage in u.stages && stage <= 10 ==> (tick, stage) in s.staged)
            && ((tick, stage) in s.staged ==>
                  (tick in s.processed || tick in InFlight(s)) && stage in u.stages && stage <= 10)
  {
    RunInv(u, actions);
    var s := Run(u, actions);
    hide Run, Inv, AllCalls, Calls;
    AllCallsMembers(u.stages, s.processed, (tick, stage));
    match Current(s)
    case Staging(t, n) => CallsAscend(u.stages, t, n);
    case Publishing(t) => CallsAscend(u.stages, t, STAGE_COUNT);
    case _ =>
  }

  /** When a stop has returned, no thread is alive and nothing is in flight: every
      accepted tick was finished or waits in the ring for the next start. */
  lemma StoppedLosesNothing<T>(u: Setup, actions: seq<Action<T>>)
    requires u.k < u.w
    requires Run(u, actions).controller.Ready? && !Run(u, actions).running
    ensures var s := Run(u, actions);
            && (forall i | 0 <= i < |s.threads| :: s.threads[i].Exited?)
            && s.processed + Contents(s.ring.trace) == Pushed(s.ring.trace)
  {
    RunInv(u, actions);
    var s := Run(u, actions);
    Conservation(Pow2(u.k), s.ring.trace);
    assert s.processed + [] == s.processed;
  }

  /** An upper bound on the steps a thread still takes once `running` is false. */
  ghost function StepsLeft<T>(t: Thread<T>): nat {
    match t
    case Exited => 0
    case Checking => 1
    case Publishing(_) => 2
    case Staging(_, stage) => if stage < STAGE_COUNT then 3 + (STAGE_COUNT - stage) else 3
    case Popping(c) =>
      15 + match c
           case SlotDestroyed(_, _) => 0
           case ValueMoved(_, _) => 1
           case DataSeen(_) => 2
           case TailLoaded(_) => 3
           case ConsumerIdle => 4
  }

  /** The controller waits for thread `i`, which has exited or is `n` steps closer to it
      than the longest way. */
  ghost predicate Waits<T>(u: Setup, s: Worker<T>, i: nat, n: nat) {
    && s.controller.Joining? && s.handle == Some(i)
    && (Current(s).Exited? || StepsLeft(Current(s)) + n <= 19)
  }

  /** While the controller waits to join, each step of the thread it waits for brings that
      thread's exit nearer, from at most 19 away; no other thread and no submit delays
      it; and the controller's next step returns once the thread has exited. */
  lemma StopCompletes<T>(u: Setup, s: Worker<T>, a: Action<T>, i: nat, n: nat)
    requires WorkerInv(u, s) && Waits(u, s, i, n)
    ensures Waits(u, s, i, 0)
    ensures var s' := Step(u, s, a);
            if a.Control? && Current(s).Exited? then s'.controller.Ready? && !s'.running
            else Waits(u, s', i, if a == Work(i) then n + 1 else n)
  {
    var s' := Step(u, s, a);
    match a
    case Work(j) =>
      if j == i {
        assert Current(s') == s'.threads[i];
      } else {
        assert s' == s;
      }
    case _ =>
  }

  /** The number of steps of thread `i` in a schedule. */
  function StepsOf<T>(actions: seq<Action<T>>, i: nat): nat {
    if actions == [] then 0
    else
      var last := actions[|actions| - 1];
      StepsOf(actions[..|actions| - 1], i) + if last.Work? && last.thread == i then 1 else 0
  }

  /** The stop has returned after the first `k` actions that follow `before`. */
  ghost predicate Returned<T>(u: Setup, before: seq<Action<T>>, more: seq<Action<T>>, k: nat)
    requires k <= |more|
  {
    var s := Run(u, before + more[..k]);
    s.controller.Ready? && !s.running
  }

  lemma {:induction false} WaitOrReturn<T>(u: Setup, before: seq<Action<T>>, more: seq<Action<T>>, i: nat)
    requires u.k < u.w && Waits(u, Run(u, before), i, 0)
    ensures (exists k: nat :: k <= |more| && Returned(u, before, more, k)) ||
            Waits(u, Run(u, before + more), i, StepsOf(more, i))
  {
    if more == [] {
      assert before + more == before;
    } else {
      var n := |more| - 1;
      var rest, a := more[..n], more[n];
      WaitOrReturn(u, before, rest, i);
      if k: nat :| k <= n && Returned(u, before, rest, k) {
        assert rest[..k] == more[..k];
        assert Returned(u, before, more, k);
      } else {
        WaitOneMore(u, before, rest, a, i);
        assert more == rest + [a];
      }
    }
  }

  lemma RunSnoc<T>(u: Setup, actions: seq<Action<T>>, a: Action<T>)
    ensures Run(u, actions + [a]) == Step(u, Run(u, actions), a)
  {
    assert (actions + [a])[..|actions|] == actions;
  }

  lemma StepsSnoc<T>(actions: seq<Action<T>>, a: Action<T>, i: nat)
    ensures StepsOf(actions + [a], i) == StepsOf(actions, i) + if a == Work(i) then 1 else 0
  {
    assert (actions + [a])[..|actions|] == actions;
  }

  lemma WaitOneMore<T>(u: Setup, before: seq<Action<T>>, rest: seq<Action<T>>, a: Action<T>, i: nat)
    requires u.k < u.w && Waits(u, Run(u, before + rest), i, StepsOf(rest, i))
    ensures var more := rest + [a];
            Returned(u, before, more, |more|) || Waits(u, Run(u, before + more), i, StepsOf(more, i))
    ensures a.Control? && Current(Run(u, before + rest)).Exited? ==> Returned(u, before, rest + [a], |rest| + 1)
  {
    var more, s := rest + [a], Run(u, before + rest);
    RunInv(u, before + rest);
    RunSnoc(u, before + rest, a);
    StepsSnoc(rest, a, i);
    hide Run, WorkerInv, Step, Waits, StepsOf, Current;
    assert more[..|more|] == more && before + more == before + rest + [a];
    StopCompletes(u, s, a, i, StepsOf(rest, i));
  }

  /** A stop returns in every run: once the controller waits for thread `i`, any schedule in
      which that thread takes 19 steps, and after which the controller takes one, passes
      through a state in which the stop has returned. */
  lemma StopReturns<T>(u: Setup, before: seq<Action<T>>, more: seq<Action<T>>, i: nat, command: Command)
    requires u.k < u.w && Run(u, before).controller.Joining? && Run(u, before).handle == Some(i)
    requires StepsOf(more, i) >= 19
    ensures exists k: nat :: k <= |more| + 1 && Returned(u, before, more + [Control(command)], k)
  {
    hide Run, Waits, StepsOf, Current;
    LongestWay(u, Run(u, before), i);
    WaitOrReturn(u, before, more, i);
    var all := more + [Control(command)];
    if k: nat :| k <= |more| && Returned(u, before, more, k) {
      assert all[..k] == more[..k];
      assert Returned(u, before, all, k);
    } else {
      NoWayLeft(u, Run(u, before + more), i, StepsOf(more, i));
      WaitOneMore(u, before, more, Control(command), i);
    }
  }

  lemma LongestWay<T>(u: Setup, s: Worker<T>, i: nat)
    requires s.controller.Joining? && s.handle == Some(i)
    ensures Waits(u, s, i, 0)
  {}

  lemma NoWayLeft<T>(u: Setup, s: Worker<T>, i: nat, n: nat)
    requires Waits(u, s, i, n) && n >= 19
    ensures Current(s).Exited?
  {}
}
