/** The session ring with wrapped indices: `Pow2(k)` slots of which one stays free, a
    drop counter, and indices that are masked before they are stored. Given as the
    atomic steps of its producer and its consumer. */
module WrappedRing {
  import opened Bits
  import opened Fifo

  datatype Shared<T> = Shared(head: nat, tail: nat, dropped: nat, slots: seq<T>, trace: seq<Event<T>>)

  /** The producer's position inside `try_push`. */
  datatype Producer<T> =
    | ProducerIdle
    | TailLoaded(value: T, tail: nat)
    | RoomSeen(value: T, tail: nat)
    | SlotWritten(value: T, tail: nat)
    | Dropping(value: T)

  /** The consumer's position inside `try_pop`. */
  datatype Consumer<T> =
    | ConsumerIdle
    | HeadLoaded(head: nat)
    | DataSeen(head: nat)
    | ValueRead(head: nat, value: T)

  /** `(index + 1) & MASK` */
  function Next(k: nat, index: nat): (r: nat)
    ensures r == Place(Pow2(k), index, 1)
  {
    MaskIsMod(index + 1, k);
    And(index + 1, Pow2(k) - 1)
  }

  ghost predicate Shaped<T>(k: nat, s: Shared<T>) {
    |s.slots| == Pow2(k) && s.head < Pow2(k) && s.tail < Pow2(k)
  }

  ghost predicate ProducerShaped<T>(k: nat, p: Producer<T>) {
    p.TailLoaded? || p.RoomSeen? || p.SlotWritten? ==> p.tail < Pow2(k)
  }

  ghost predicate ConsumerShaped<T>(k: nat, c: Consumer<T>) {
    c.ConsumerIdle? || c.head < Pow2(k)
  }

  function ProducerStep<T>(k: nat, s: Shared<T>, p: Producer<T>, value: T): (r: (Shared<T>, Producer<T>))
    requires Shaped(k, s) && ProducerShaped(k, p)
    ensures Shaped(k, r.0) && ProducerShaped(k, r.1)
  {
    match p
    case ProducerIdle => (s, TailLoaded(value, s.tail))
    case TailLoaded(v, tail) =>
      if Next(k, tail) == s.head
      then (s.(trace := s.trace + [PushFull(v)]), Dropping(v))
      else (s, RoomSeen(v, tail))
    case RoomSeen(v, tail) => (s.(slots := s.slots[tail := v]), SlotWritten(v, tail))
    case SlotWritten(v, tail) =>
      (s.(tail := Next(k, tail), trace := s.trace + [PushOk(v)]), ProducerIdle)
    case Dropping(_) => (s.(dropped := s.dropped + 1), ProducerIdle)
  }

  function ConsumerStep<T>(k: nat, s: Shared<T>, c: Consumer<T>): (r: (Shared<T>, Consumer<T>))
    requires Shaped(k, s) && ConsumerShaped(k, c)
    ensures Shaped(k, r.0) && ConsumerShaped(k, r.1)
  {
    match c
    case ConsumerIdle => (s, HeadLoaded(s.head))
    case HeadLoaded(head) =>
      if head == s.tail
      then (s.(trace := s.trace + [PopEmpty]), ConsumerIdle)
      else (s, DataSeen(head))
    case DataSeen(head) => (s, ValueRead(head, s.slots[head]))
    case ValueRead(head, v) =>
      (s.(head := Next(k, head), trace := s.trace + [PopOk(v)]), ConsumerIdle)
  }

  /** The slots from the head on hold the queue, then a written but unpublished value. */
  ghost predicate SlotsMatch<T>(n: nat, m: nat, slots: seq<T>, q: seq<T>, p: Producer<T>)
    requires |slots| == n > 0
  {
    && (forall j: nat {:trigger Place(n, m, j)} | j < |q| :: slots[Place(n, m, j)] == q[j])
    && (p.SlotWritten? ==> slots[Place(n, m, |q|)] == p.value)
  }

  ghost predicate ProducerAgrees<T>(index: nat, room: bool, p: Producer<T>) {
    match p
    case TailLoaded(_, t) => t == index
    case RoomSeen(_, t) => t == index && room
    case SlotWritten(_, t) => t == index && room
    case _ => true
  }

  ghost predicate ConsumerAgrees<T>(index: nat, q: seq<T>, c: Consumer<T>) {
    match c
    case ConsumerIdle => true
    case HeadLoaded(h) => h == index
    case DataSeen(h) => h == index && q != []
    case ValueRead(h, v) => h == index && q != [] && v == q[0]
  }

  ghost predicate Inv<T>(k: nat, s: Shared<T>, p: Producer<T>, c: Consumer<T>) {
    var n, m, q := Pow2(k), |Popped(s.trace)|, Contents(s.trace);
    && Shaped(k, s)
    && Legal(n - 1, s.trace)
    && |q| <= n - 1
    && s.head == Place(n, m, 0)
    && s.tail == Place(n, m, |q|)
    && s.dropped + (if p.Dropping? then 1 else 0) == Rejected(s.trace)
    && SlotsMatch(n, m, s.slots, q, p)
    && ProducerAgrees(s.tail, |q| < n - 1, p)
    && ConsumerAgrees(s.head, q, c)
  }

  lemma NextPlace(k: nat, m: nat, j: nat)
    ensures Next(k, Place(Pow2(k), m, j)) == Place(Pow2(k), m, j + 1)
  {
    PlaceSuccessor(Pow2(k), m, j);
  }

  /** What the stored indices say about the queue. */
  lemma IndicesMeasure<T>(k: nat, s: Shared<T>, p: Producer<T>, c: Consumer<T>)
    requires Inv(k, s, p, c)
    ensures Next(k, s.tail) == s.head <==> |Contents(s.trace)| == Pow2(k) - 1
    ensures s.tail == s.head <==> Contents(s.trace) == []
    ensures (s.tail - s.head) % Pow2(k) == |Contents(s.trace)|
  {
    IndexFacts(k, |Popped(s.trace)|, |Contents(s.trace)|);
  }

  lemma IndexFacts(k: nat, m: nat, d: nat)
    requires d < Pow2(k)
    ensures var n := Pow2(k);
            && (Next(k, Place(n, m, d)) == Place(n, m, 0) <==> d == n - 1)
            && (Place(n, m, d) == Place(n, m, 0) <==> d == 0)
            && (Place(n, m, d) - Place(n, m, 0)) % n == d
  {
    var n := Pow2(k);
    NextPlace(k, m, d);
    ModDistance(m, d, n);
    if d + 1 < n {
      ModDistance(m, d + 1, n);
    } else {
      ModTurn(m, n);
    }
  }

  lemma InitialInv<T>(k: nat, slots: seq<T>)
    requires |slots| == Pow2(k)
    ensures Inv<T>(k, Shared(0, 0, 0, slots, []), ProducerIdle, ConsumerIdle)
  {
  }

  lemma TestRoom<T>(k: nat, s: Shared<T>, p: Producer<T>, c: Consumer<T>, value: T)
    requires p.TailLoaded? && Inv(k, s, p, c)
    ensures var (s', p') := ProducerStep(k, s, p, value); Inv(k, s', p', c)
  {
    IndicesMeasure(k, s, p, c);
    Snoc(Pow2(k) - 1, s.trace, PushFull(p.value));
  }

  /** The slot written is none of those that hold a queued element. */
  lemma WriteSlot<T>(k: nat, s: Shared<T>, p: Producer<T>, c: Consumer<T>, value: T)
    requires p.RoomSeen? && Inv(k, s, p, c)
    ensures forall j: nat {:trigger Place(Pow2(k), |Popped(s.trace)|, j)} | j < |Contents(s.trace)| ::
              Place(Pow2(k), |Popped(s.trace)|, j) != p.tail
    ensures var (s', p') := ProducerStep(k, s, p, value); Inv(k, s', p', c)
  {
    var m, q := |Popped(s.trace)|, Contents(s.trace);
    OnePlace(Pow2(k), m, s.slots, |q|, p.value);
    forall j: nat {:trigger Place(Pow2(k), m, j)} | j < |q| ensures Place(Pow2(k), m, j) != p.tail {
      if Place(Pow2(k), m, j) == Place(Pow2(k), m, |q|) {
        ModDistinct(m + j, m + |q|, Pow2(k));
      }
    }
  }

  lemma PublishTail<T>(k: nat, s: Shared<T>, p: Producer<T>, c: Consumer<T>, value: T)
    requires p.SlotWritten? && Inv(k, s, p, c)
    ensures var (s', p') := ProducerStep(k, s, p, value); Inv(k, s', p', c)
  {
    NextPlace(k, |Popped(s.trace)|, |Contents(s.trace)|);
    Snoc(Pow2(k) - 1, s.trace, PushOk(p.value));
  }

  lemma TestData<T>(k: nat, s: Shared<T>, p: Producer<T>, c: Consumer<T>)
    requires c.HeadLoaded? && Inv(k, s, p, c)
    ensures var (s', c') := ConsumerStep(k, s, c); Inv(k, s', p, c')
  {
    IndicesMeasure(k, s, p, c);
    Snoc(Pow2(k) - 1, s.trace, PopEmpty);
  }

  lemma ReadValue<T>(k: nat, s: Shared<T>, p: Producer<T>, c: Consumer<T>)
    requires c.DataSeen? && Inv(k, s, p, c)
    ensures ConsumerStep(k, s, c) == (s, ValueRead(c.head, Contents(s.trace)[0]))
    ensures Inv(k, s, p, ValueRead(c.head, Contents(s.trace)[0]))
  {
  }

  lemma PublishHead<T>(k: nat, s: Shared<T>, p: Producer<T>, c: Consumer<T>)
    requires c.ValueRead? && Inv(k, s, p, c)
    ensures var (s', c') := ConsumerStep(k, s, c); Inv(k, s', p, c')
  {
    var m, q := |Popped(s.trace)|, Contents(s.trace);
    NextPlace(k, m, 0);
    Snoc(Pow2(k) - 1, s.trace, PopOk(c.value));
    WindowMoves(Pow2(k), m, s.slots, q, p);
  }

  lemma WindowMoves<T>(n: nat, m: nat, slots: seq<T>, q: seq<T>, p: Producer<T>)
    requires |slots| == n > 0 && 0 < |q| < n
    requires SlotsMatch(n, m, slots, q, p)
    ensures SlotsMatch(n, m + 1, slots, q[1..], p)
    ensures Place(n, m + 1, |q| - 1) == Place(n, m, |q|)
  {
    forall j: nat {:trigger Place(n, m + 1, j)} | j < |q| - 1
      ensures slots[Place(n, m + 1, j)] == q[1..][j]
    {
      assert Place(n, m + 1, j) == Place(n, m, j + 1);
    }
  }

  lemma ProducerKeepsInv<T>(k: nat, s: Shared<T>, p: Producer<T>, c: Consumer<T>, value: T)
    requires Inv(k, s, p, c)
    ensures var (s', p') := ProducerStep(k, s, p, value); Inv(k, s', p', c)
  {
    match p
    case TailLoaded(_, _) => TestRoom(k, s, p, c, value);
    case RoomSeen(_, _) => WriteSlot(k, s, p, c, value);
    case SlotWritten(_, _) => PublishTail(k, s, p, c, value);
    case _ =>
  }

  lemma ConsumerKeepsInv<T>(k: nat, s: Shared<T>, p: Producer<T>, c: Consumer<T>)
    requires Inv(k, s, p, c)
    ensures var (s', c') := ConsumerStep(k, s, c); Inv(k, s', p, c')
  {
    match c
    case ConsumerIdle =>
    case HeadLoaded(_) => TestData(k, s, p, c);
    case DataSeen(_) => ReadValue(k, s, p, c);
    case ValueRead(_, _) => PublishHead(k, s, p, c);
  }

  datatype Turn<T> = ProducerTurn(value: T) | ConsumerTurn

  datatype Config<T> = Config(shared: Shared<T>, producer: Producer<T>, consumer: Consumer<T>)

  ghost predicate ConfigShaped<T>(k: nat, g: Config<T>) {
    Shaped(k, g.shared) && ProducerShaped(k, g.producer) && ConsumerShaped(k, g.consumer)
  }

  function Step<T>(k: nat, g: Config<T>, turn: Turn<T>): (g': Config<T>)
    requires ConfigShaped(k, g)
    ensures ConfigShaped(k, g')
  {
    match turn
    case ProducerTurn(v) =>
      var (s, p) := ProducerStep(k, g.shared, g.producer, v);
      Config(s, p, g.consumer)
    case ConsumerTurn =>
      var (s, c) := ConsumerStep(k, g.shared, g.consumer);
      Config(s, g.producer, c)
  }

  /** Any interleaving of the two threads, from slots with any initial content. */
  function Run<T>(k: nat, slots: seq<T>, schedule: seq<Turn<T>>): (g: Config<T>)
    requires |slots| == Pow2(k)
    ensures ConfigShaped(k, g)
  {
    if schedule == [] then Config(Shared(0, 0, 0, slots, []), ProducerIdle, ConsumerIdle)
    else Step(k, Run(k, slots, schedule[..|schedule| - 1]), schedule[|schedule| - 1])
  }

  lemma {:induction false} RunInv<T>(k: nat, slots: seq<T>, schedule: seq<Turn<T>>)
    requires |slots| == Pow2(k)
    ensures var g := Run(k, slots, schedule); Inv(k, g.shared, g.producer, g.consumer)
  {
    if schedule == [] {
      InitialInv<T>(k, slots);
    } else {
      RunInv(k, slots, schedule[..|schedule| - 1]);
      var g := Run(k, slots, schedule[..|schedule| - 1]);
      match schedule[|schedule| - 1]
      case ProducerTurn(v) => ProducerKeepsInv(k, g.shared, g.producer, g.consumer, v);
      case ConsumerTurn => ConsumerKeepsInv(k, g.shared, g.producer, g.consumer);
    }
  }

  /** Refinement, for every interleaving: the ring answers as a FIFO of Capacity - 1
      elements, delivers what it accepted in order, and its drop counter is the number
      of rejected pushes, one behind while a drop is being counted. */
  lemma RefinesFifo<T>(k: nat, slots: seq<T>, schedule: seq<Turn<T>>)
    requires |slots| == Pow2(k)
    ensures var g := Run(k, slots, schedule);
            && Legal(Pow2(k) - 1, g.shared.trace)
            && Popped(g.shared.trace) + Contents(g.shared.trace) == Pushed(g.shared.trace)
            && |Contents(g.shared.trace)| <= Pow2(k) - 1
            && g.shared.dropped + (if g.producer.Dropping? then 1 else 0) == Rejected(g.shared.trace)
  {
    hide Run, Pow2, Popped, Contents, Pushed, Rejected, Legal;
    RunInv(k, slots, schedule);
    Conservation(Pow2(k) - 1, Run(k, slots, schedule).shared.trace);
  }
}
