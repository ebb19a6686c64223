/** The per-symbol worker as the object the program updates in place: its ring, its
    running flag and its thread handle. Each method performs one atomic step. */
module SymbolWorker {
  import opened Wrappers
  import Fifo
  import opened FreeRunningRing
  import opened RingBuffer
  import opened WorkerProtocol

  class SymbolWorker<T> {
    const ingress: RingBuffer<T>
    const stages: set<nat>
    const bus: bool
    var producer: Producer<T>
    var running: bool
    var threads: seq<Thread<T>>
    var handle: Option<nat>
    var controller: Controller
    ghost var staged: seq<(T, nat)>
    ghost var published: seq<T>
    ghost var processed: seq<T>
    ghost var terminated: bool
    ghost var actions: seq<Action<T>>

    ghost predicate Shaped()
      reads this, ingress
    {
      ingress.Shaped()
    }

    ghost function Setup(): Setup {
      WorkerProtocol.Setup(ingress.k, ingress.w, stages, bus)
    }

    ghost function State(): (s: Worker<T>)
      reads this, ingress, ingress.storage
    {
      Worker(ingress.Memory(), producer, running, threads, handle, controller,
             staged, published, processed, terminated)
    }

    /** The object is where the protocol is after the steps taken so far. */
    ghost predicate Valid()
      reads this, ingress, ingress.storage
    {
      Shaped() && State() == WorkerProtocol.Run(Setup(), actions)
    }

    constructor (k: nat, w: nat, stages: set<nat>, bus: bool)
      requires k < w
      ensures Valid() && actions == [] && Setup() == WorkerProtocol.Setup(k, w, stages, bus)
      ensures State() == WorkerProtocol.Initial(Setup())
      ensures fresh(ingress) && fresh(ingress.storage)
    {
      ingress := new RingBuffer<T>(k, w);
      this.stages, this.bus := stages, bus;
      producer, running, threads, handle, controller := ProducerIdle, false, [], None, Ready;
      staged, published, processed, terminated := [], [], [], false;
      actions := [];
    }

    /** One step of `submit`, taken by the submitting thread. */
    method SubmitTurn(value: T)
      requires Valid()
      modifies this`producer, this`actions, ingress, ingress.storage
      ensures Valid() && actions == old(actions) + [Submit(value)]
      ensures State() == SubmitStep(Setup(), old(State()), value)
    {
      RunSnoc(Setup(), actions, Submit(value));
      hide WorkerProtocol.Run;
      producer := ingress.ProducerTurn(producer, value);
      actions := actions + [Submit(value)];
    }

    /** One step of `start` or `stop`. */
    method ControllerTurn(command: Command)
      requires Valid()
      modifies this
      ensures Valid() && actions == old(actions) + [Control(command)]
      ensures State() == ControllerStep(old(State()), command)
    {
      RunSnoc(Setup(), actions, Control(command));
      hide WorkerProtocol.Run;
      ControllerBody(command);
      actions := actions + [Control(command)];
    }

    method ControllerBody(command: Command)
      modifies this`running, this`threads, this`handle, this`controller, this`terminated
      ensures State() == ControllerStep(old(State()), command)
    {
      match controller
      case Ready =>
        match command {
          case Start =>
            if !running {
              running := true;
              controller := Spawning;
            }
          case Stop =>
            var wasRunning := running;
            running := false;
            if wasRunning && handle.Some? {
              controller := Joining;
            }
        }
      case Spawning =>
        if handle.Some? {
          terminated := true;
        } else {
          handle := Some(|threads|);
          threads := threads + [Checking];
          controller := Ready;
        }
      case Joining =>
        if handle.Some? && handle.value < |threads| && threads[handle.value].Exited? {
          handle := None;
          controller := Ready;
        }
    }

    /** One step of the loop of worker thread `i`. */
    method ThreadTurn(i: nat)
      requires Valid()
      modifies this, ingress, ingress.storage
      ensures Valid() && actions == old(actions) + [Work(i)]
      ensures State() == ThreadStep(Setup(), old(State()), i)
    {
      RunSnoc(Setup(), actions, Work(i));
      hide WorkerProtocol.Run;
      ThreadBody(i);
      actions := actions + [Work(i)];
    }

    method ThreadBody(i: nat)
      requires Shaped()
      modifies this`threads, this`staged, this`published, this`processed, ingress, ingress.storage
      ensures Shaped()
      ensures State() == ThreadStep(Setup(), old(State()), i)
    {
      if i >= |threads| {
        return;
      }
      match threads[i]
      case Checking =>
        threads := threads[i := if running then Popping(ConsumerIdle) else Exited];
      case Popping(c) =>
        var c' := ingress.ConsumerTurn(c);
        if c.SlotDestroyed? {
          threads := threads[i := Staging(c.value, 0)];
        } else if c'.ConsumerIdle? {
          threads := threads[i := Checking];
        } else {
          threads := threads[i := Popping(c')];
        }
      case Staging(tick, stage) =>
        if stage < STAGE_COUNT {
          staged := staged + (if stage in stages then [(tick, stage)] else []);
          threads := threads[i := Staging(tick, stage + 1)];
        } else if bus {
          threads := threads[i := Publishing(tick)];
        } else {
          processed := processed + [tick];
          threads := threads[i := Checking];
        }
      case Publishing(tick) =>
        published := published + [tick];
        processed := processed + [tick];
        threads := threads[i := Checking];
      case Exited =>
    }

    /** At any moment: the ticks that were processed, the one in flight if any, and the ring
        contents are the accepted ticks in order; each processed tick was published if a
        bus is attached; and at most one worker thread is alive. */
    lemma TicksAccounted()
      requires Valid()
      ensures processed + InFlight(State()) + ingress.Queue() == Fifo.Pushed(ingress.trace)
      ensures published == if bus then processed else []
      ensures !terminated && !ingress.fault
      ensures forall i, j | 0 <= i < |threads| && 0 <= j < |threads|
                && !threads[i].Exited? && !threads[j].Exited? :: i == j
    {
      NothingLost(Setup(), actions);
      EachTickStagedOnce(Setup(), actions);
    }
  }
}
