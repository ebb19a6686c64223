/** The lock-free ring with free-running head and tail counters, as the atomic
    steps its producer and its consumer take. The counters live in machine words,
    so they wrap, and a slot index is `counter & (Capacity - 1)`.
    `Capacity` is `Pow2(k)` and a machine word has `w` bits. A slot holds `None` while no object lives in it. */
module FreeRunningRing {
  import opened Wrappers
  import opened Bits
  import opened Fifo

  /** The shared memory, with the history of completed operations. `fault` records
      a construction over a live object or an access to a dead slot. */
  datatype Shared<T> = Shared(head: nat, tail: nat, slots: seq<Option<T>>,
                              trace: seq<Event<T>>, fault: bool)

  /** The producer's position inside `emplace`, with the values it has loaded. */
  datatype Producer<T> =
    | ProducerIdle
    | HeadLoaded(value: T, head: nat)
    | RoomSeen(value: T, head: nat)
    | SlotBuilt(value: T, head: nat)

  /** The consumer's position inside `try_pop`, with the values it has loaded. */
  datatype Consumer<T> =
    | ConsumerIdle
    | TailLoaded(tail: nat)
    | DataSeen(tail: nat)
    | ValueMoved(tail: nat, value: T)
    | SlotDestroyed(tail: nat, value: T)

  function Wrap(w: nat, x: int): (r: nat)
    ensures r < Pow2(w)
  {
    x % Pow2(w)
  }

  function SlotIndex(k: nat, counter: nat): (r: nat)
    ensures r == counter % Pow2(k)
  {
    MaskIsMod(counter, k);
    And(counter, Pow2(k) - 1)
  }

  function Initial<T>(k: nat): Shared<T> {
    Shared(0, 0, seq(Pow2(k), _ => None), [], false)
  }

  /** The producer's next atomic step; `value` is used when it starts a new call. */
  function ProducerStep<T>(k: nat, w: nat, s: Shared<T>, p: Producer<T>, value: T): (Shared<T>, Producer<T>)
    requires |s.slots| == Pow2(k)
  {
    match p
    case ProducerIdle => (s, HeadLoaded(value, s.head))
    case HeadLoaded(v, head) =>
      if Wrap(w, head - s.tail) >= Pow2(k)
      then (s.(trace := s.trace + [PushFull(v)]), ProducerIdle)
      else (s, RoomSeen(v, head))
    case RoomSeen(v, head) =>
      var index := SlotIndex(k, head);
      (s.(slots := s.slots[index := Some(v)], fault := s.fault || s.slots[index].Some?),
       SlotBuilt(v, head))
    case SlotBuilt(v, head) =>
      (s.(head := Wrap(w, head + 1), trace := s.trace + [PushOk(v)]), ProducerIdle)
  }

  /** The consumer's next atomic step. */
  function ConsumerStep<T>(k: nat, w: nat, s: Shared<T>, c: Consumer<T>): (Shared<T>, Consumer<T>)
    requires |s.slots| == Pow2(k)
  {
    match c
    case ConsumerIdle => (s, TailLoaded(s.tail))
    case TailLoaded(tail) =>
      if tail == s.head
      then (s.(trace := s.trace + [PopEmpty]), ConsumerIdle)
      else (s, DataSeen(tail))
    case DataSeen(tail) =>
      var index := SlotIndex(k, tail);
      (match s.slots[index]
       case Some(v) => (s, ValueMoved(tail, v))
       case None => (s.(fault := true), ConsumerIdle))
    case ValueMoved(tail, v) =>
      var index := SlotIndex(k, tail);
      (s.(slots := s.slots[index := None], fault := s.fault || s.slots[index].None?),
       SlotDestroyed(tail, v))
    case SlotDestroyed(tail, v) =>
      (s.(tail := Wrap(w, tail + 1), trace := s.trace + [PopOk(v)]), ConsumerIdle)
  }

  /** What the slot `j` places after the next one to pop holds. */
  ghost function Expected<T>(q: seq<T>, p: Producer<T>, c: Consumer<T>, j: nat): Option<T> {
    if j < |q| then (if j == 0 && c.SlotDestroyed? then None else Some(q[j]))
    else if j == |q| && p.SlotBuilt? then Some(p.value)
    else None
  }

  ghost predicate SlotsMatch<T>(n: nat, m: nat, slots: seq<Option<T>>, q: seq<T>,
                                p: Producer<T>, c: Consumer<T>)
    requires |slots| == n > 0
  {
    forall j: nat {:trigger Place(n, m, j)} | j < n :: slots[Place(n, m, j)] == Expected(q, p, c, j)
  }

  ghost predicate ProducerAgrees<T>(counter: nat, room: bool, p: Producer<T>) {
    match p
    case ProducerIdle => true
    case HeadLoaded(_, h) => h == counter
    case RoomSeen(_, h) => h == counter && room
    case SlotBuilt(_, h) => h == counter && room
  }

  ghost predicate ConsumerAgrees<T>(counter: nat, q: seq<T>, c: Consumer<T>) {
    match c
    case ConsumerIdle => true
    case TailLoaded(t) => t == counter
    case DataSeen(t) => t == counter && q != []
    case ValueMoved(t, v) => t == counter && q != [] && v == q[0]
    case SlotDestroyed(t, v) => t == counter && q != [] && v == q[0]
  }

  /** What holds between any two atomic steps. */
  ghost predicate Inv<T>(k: nat, w: nat, s: Shared<T>, p: Producer<T>, c: Consumer<T>) {
    var m, q := |Popped(s.trace)|, Contents(s.trace);
    && k < w
    && |s.slots| == Pow2(k)
    && !s.fault
    && Legal(Pow2(k), s.trace)
    && |q| <= Pow2(k)
    && s.tail == Wrap(w, m)
    && s.head == Wrap(w, m + |q|)
    && SlotsMatch(Pow2(k), m, s.slots, q, p, c)
    && ProducerAgrees(s.head, |q| < Pow2(k), p)
    && ConsumerAgrees(s.tail, q, c)
  }

  lemma CapacityDividesWord(k: nat, w: nat)
    requires k < w
    ensures Pow2(w) == Pow2(k) * Pow2(w - k)
    ensures Pow2(k) < Pow2(w)
  {
    Pow2Add(k, w - k);
    var f := Pow2(w - k);
    Multiple(f - 1, Pow2(k));
    assert Pow2(k) * f == (f - 1) * Pow2(k) + Pow2(k);
  }

  /** Masking a wrapped counter finds the slot of the unwrapped one. */
  lemma WrappedIndex(k: nat, w: nat, m: nat, j: nat)
    requires k < w
    ensures SlotIndex(k, Wrap(w, m + j)) == Place(Pow2(k), m, j)
  {
    CapacityDividesWord(k, w);
    ModMod(m + j, Pow2(k), Pow2(w - k));
  }

  /** Within one capacity, the wrapped difference of two counters is their difference. */
  lemma WrappedDistance(k: nat, w: nat, m: nat, d: nat)
    requires k < w && d <= Pow2(k)
    ensures Wrap(w, Wrap(w, m + d) - Wrap(w, m)) == d
    ensures Wrap(w, m + d) == Wrap(w, m) <==> d == 0
  {
    CapacityDividesWord(k, w);
    ModDistance(m, d, Pow2(w));
  }

  /** The two counters alone tell how many elements are queued. */
  lemma CountersMeasure<T>(k: nat, w: nat, s: Shared<T>, p: Producer<T>, c: Consumer<T>)
    requires Inv(k, w, s, p, c)
    ensures Wrap(w, s.head - s.tail) == |Contents(s.trace)|
    ensures s.tail == s.head <==> Contents(s.trace) == []
  {
    WrappedDistance(k, w, |Popped(s.trace)|, |Contents(s.trace)|);
  }

  lemma InitialInv<T>(k: nat, w: nat)
    requires k < w
    ensures Inv<T>(k, w, Initial(k), ProducerIdle, ConsumerIdle)
  {
  }

  lemma TestRoom<T>(k: nat, w: nat, s: Shared<T>, p: Producer<T>, c: Consumer<T>, value: T)
    requires p.HeadLoaded? && Inv(k, w, s, p, c)
    ensures var (s', p') := ProducerStep(k, w, s, p, value); Inv(k, w, s', p', c)
  {
    CountersMeasure(k, w, s, p, c);
    Snoc(Pow2(k), s.trace, PushFull(p.value));
  }

  lemma BuildSlot<T>(k: nat, w: nat, s: Shared<T>, p: Producer<T>, c: Consumer<T>, value: T)
    requires p.RoomSeen? && Inv(k, w, s, p, c)
    ensures var (s', p') := ProducerStep(k, w, s, p, value); Inv(k, w, s', p', c)
  {
    var m, q := |Popped(s.trace)|, Contents(s.trace);
    WrappedIndex(k, w, m, |q|);
    OnePlace(Pow2(k), m, s.slots, |q|, Some(p.value));
  }

  lemma PublishHead<T>(k: nat, w: nat, s: Shared<T>, p: Producer<T>, c: Consumer<T>, value: T)
    requires p.SlotBuilt? && Inv(k, w, s, p, c)
    ensures var (s', p') := ProducerStep(k, w, s, p, value); Inv(k, w, s', p', c)
  {
    var m, q := |Popped(s.trace)|, Contents(s.trace);
    Snoc(Pow2(k), s.trace, PushOk(p.value));
    ModSum(m + |q|, 1, Pow2(w));
  }

  lemma TestData<T>(k: nat, w: nat, s: Shared<T>, p: Producer<T>, c: Consumer<T>)
    requires c.TailLoaded? && Inv(k, w, s, p, c)
    ensures var (s', c') := ConsumerStep(k, w, s, c); Inv(k, w, s', p, c')
  {
    CountersMeasure(k, w, s, p, c);
    Snoc(Pow2(k), s.trace, PopEmpty);
  }

  lemma MoveValue<T>(k: nat, w: nat, s: Shared<T>, p: Producer<T>, c: Consumer<T>)
    requires c.DataSeen? && Inv(k, w, s, p, c)
    ensures var (s', c') := ConsumerStep(k, w, s, c); Inv(k, w, s', p, c')
  {
    WrappedIndex(k, w, |Popped(s.trace)|, 0);
  }

  lemma DestroySlot<T>(k: nat, w: nat, s: Shared<T>, p: Producer<T>, c: Consumer<T>)
    requires c.ValueMoved? && Inv(k, w, s, p, c)
    ensures var (s', c') := ConsumerStep(k, w, s, c); Inv(k, w, s', p, c')
  {
    WrappedIndex(k, w, |Popped(s.trace)|, 0);
    OnePlace(Pow2(k), |Popped(s.trace)|, s.slots, 0, None);
  }

  lemma PublishTail<T>(k: nat, w: nat, s: Shared<T>, p: Producer<T>, c: Consumer<T>)
    requires c.SlotDestroyed? && Inv(k, w, s, p, c)
    ensures var (s', c') := ConsumerStep(k, w, s, c); Inv(k, w, s', p, c')
  {
    var m, q := |Popped(s.trace)|, Contents(s.trace);
    Snoc(Pow2(k), s.trace, PopOk(c.value));
    ModSum(m, 1, Pow2(w));
    WindowMoves(Pow2(k), m, s.slots, q, p, c);
  }

  /** Every producer step, taken at any moment of the consumer's call, keeps the
      invariant. */
  lemma ProducerKeepsInv<T>(k: nat, w: nat, s: Shared<T>, p: Producer<T>, c: Consumer<T>, value: T)
    requires Inv(k, w, s, p, c)
    ensures var (s', p') := ProducerStep(k, w, s, p, value); Inv(k, w, s', p', c)
  {
    match p
    case ProducerIdle =>
    case HeadLoaded(_, _) => TestRoom(k, w, s, p, c, value);
    case RoomSeen(_, _) => BuildSlot(k, w, s, p, c, value);
    case SlotBuilt(_, _) => PublishHead(k, w, s, p, c, value);
  }

  /** Every consumer step, taken at any moment of the producer's call, keeps the
      invariant. */
  lemma ConsumerKeepsInv<T>(k: nat, w: nat, s: Shared<T>, p: Producer<T>, c: Consumer<T>)
    requires Inv(k, w, s, p, c)
    ensures var (s', c') := ConsumerStep(k, w, s, c); Inv(k, w, s', p, c')
  {
    match c
    case ConsumerIdle =>
    case TailLoaded(_) => TestData(k, w, s, p, c);
    case DataSeen(_) => MoveValue(k, w, s, p, c);
    case ValueMoved(_, _) => DestroySlot(k, w, s, p, c);
    case SlotDestroyed(_, _) => PublishTail(k, w, s, p, c);
  }

  /** Publishing the new tail moves the window by one place. */
  lemma WindowMoves<T>(n: nat, m: nat, slots: seq<Option<T>>, q: seq<T>, p: Producer<T>, c: Consumer<T>)
    requires |slots| == n > 0 && c.SlotDestroyed? && q != []
    requires p.SlotBuilt? ==> |q| < n
    requires |q| <= n
    requires SlotsMatch(n, m, slots, q, p, c)
    ensures SlotsMatch(n, m + 1, slots, q[1..], p, ConsumerIdle)
  {
    forall j: nat {:trigger Place(n, m + 1, j)} | j < n
      ensures slots[Place(n, m + 1, j)] == Expected(q[1..], p, ConsumerIdle, j)
    {
      TurnPlace(n, m, j);
    }
  }

  /** One entry of a schedule: which thread takes its next atomic step. */
  datatype Turn<T> = ProducerTurn(value: T) | ConsumerTurn

  /** A snapshot of the ring and of both threads. */
  datatype Config<T> = Config(shared: Shared<T>, producer: Producer<T>, consumer: Consumer<T>)

  function Step<T>(k: nat, w: nat, g: Config<T>, turn: Turn<T>): (g': Config<T>)
    requires |g.shared.slots| == Pow2(k)
    ensures |g'.shared.slots| == Pow2(k)
  {
    match turn
    case ProducerTurn(v) =>
      var (s, p) := ProducerStep(k, w, g.shared, g.producer, v);
      Config(s, p, g.consumer)
    case ConsumerTurn =>
      var (s, c) := ConsumerStep(k, w, g.shared, g.consumer);
      Config(s, g.producer, c)
  }

  function Run<T>(k: nat, w: nat, schedule: seq<Turn<T>>): (g: Config<T>)
    ensures |g.shared.slots| == Pow2(k)
  {
    if schedule == [] then Config(Initial(k), ProducerIdle, ConsumerIdle)
    else Step(k, w, Run(k, w, schedule[..|schedule| - 1]), schedule[|schedule| - 1])
  }

  lemma {:induction false} RunInv<T>(k: nat, w: nat, schedule: seq<Turn<T>>)
    requires k < w
    ensures var g := Run(k, w, schedule); Inv(k, w, g.shared, g.producer, g.consumer)
  {
    if schedule == [] {
      InitialInv<T>(k, w);
    } else {
      RunInv(k, w, schedule[..|schedule| - 1]);
      var g := Run(k, w, schedule[..|schedule| - 1]);
      match schedule[|schedule| - 1]
      case ProducerTurn(v) => ProducerKeepsInv(k, w, g.shared, g.producer, g.consumer, v);
      case ConsumerTurn => ConsumerKeepsInv(k, w, g.shared, g.producer, g.consumer);
    }
  }

  /** Refinement, for every interleaving and however often the counters wrap: the
      answers given are those of a FIFO of `Capacity` elements; what was delivered
      followed by what is queued is what was accepted, in order; no dead slot is
      read and no live object is built over; and the counters' distance is the
      number of queued elements. */
  lemma RefinesFifo<T>(k: nat, w: nat, schedule: seq<Turn<T>>)
    requires k < w
    ensures var s := Run(k, w, schedule).shared;
            && !s.fault
            && Legal(Pow2(k), s.trace)
            && Popped(s.trace) + Contents(s.trace) == Pushed(s.trace)
            && |Contents(s.trace)| <= Pow2(k)
            && Wrap(w, s.head - s.tail) == |Contents(s.trace)|
  {
    RunInv(k, w, schedule);
    var g := Run(k, w, schedule);
    Conservation(Pow2(k), g.shared.trace);
    CountersMeasure(k, w, g.shared, g.producer, g.consumer);
  }

  /** The queued elements are what the slots from the tail counter on hold, but for
      the first one between its destruction and the publication of the new tail. */
  lemma LiveWindow<T>(k: nat, w: nat, s: Shared<T>, p: Producer<T>, c: Consumer<T>, j: nat)
    requires Inv(k, w, s, p, c) && j < |Contents(s.trace)|
    ensures s.slots[SlotIndex(k, Wrap(w, s.tail + j))] ==
            (if j == 0 && c.SlotDestroyed? then None else Some(Contents(s.trace)[j]))
  {
    var m := |Popped(s.trace)|;
    ModSum(m, j, Pow2(w));
    WrappedIndex(k, w, m, j);
  }
}
