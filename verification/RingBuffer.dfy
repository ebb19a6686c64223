/** The ring with free-running counters as the object the program updates in place.
    `ProducerTurn` and `ConsumerTurn` perform one atomic step each; `Emplace`,
    `TryPop` and `Clear` are whole calls that nothing interrupts. */
module RingBuffer {
  import opened Wrappers
  import opened Bits
  import opened Fifo
  import opened FreeRunningRing

  class RingBuffer<T> {
    const k: nat
    const w: nat
    const storage: array<Option<T>>
    var head: nat
    var tail: nat
    ghost var trace: seq<Event<T>>
    ghost var fault: bool

    ghost function Memory(): (s: Shared<T>)
      reads this, storage
    {
      Shared(head, tail, storage[..], trace, fault)
    }

    ghost predicate Shaped()
      reads this
    {
      k < w && storage.Length == Pow2(k)
    }

    /** No call is in progress. */
    ghost predicate Valid()
      reads this, storage
    {
      Inv(k, w, Memory(), ProducerIdle, ConsumerIdle)
    }

    ghost function Queue(): seq<T>
      reads this
    {
      Contents(trace)
    }

    constructor (k: nat, w: nat)
      requires k < w
      ensures Valid() && fresh(storage) && Queue() == []
      ensures this.k == k && this.w == w
      ensures Memory() == Initial(k)
    {
      this.k, this.w := k, w;
      storage := new Option<T>[Pow2(k)](_ => None);
      head, tail := 0, 0;
      trace, fault := [], false;
      new;
      assert storage[..] == Initial<T>(k).slots;
      InitialInv<T>(k, w);
    }

    /** One atomic step of a call of `emplace`, given where that call stands. */
    method ProducerTurn(p: Producer<T>, value: T) returns (p': Producer<T>)
      requires Shaped()
      modifies this, storage
      ensures (Memory(), p') == ProducerStep(k, w, old(Memory()), p, value)
    {
      match p
      case ProducerIdle =>
        p' := HeadLoaded(value, head);
      case HeadLoaded(v, h) =>
        if Wrap(w, h - tail) >= Pow2(k) {
          trace := trace + [PushFull(v)];
          p' := ProducerIdle;
        } else {
          p' := RoomSeen(v, h);
        }
      case RoomSeen(v, h) =>
        var index := SlotIndex(k, h);
        fault := fault || storage[index].Some?;
        storage[index] := Some(v);
        p' := SlotBuilt(v, h);
      case SlotBuilt(v, h) =>
        head := Wrap(w, h + 1);
        trace := trace + [PushOk(v)];
        p' := ProducerIdle;
    }

    /** One atomic step of a call of `try_pop`, given where that call stands. */
    method ConsumerTurn(c: Consumer<T>) returns (c': Consumer<T>)
      requires Shaped()
      modifies this, storage
      ensures (Memory(), c') == ConsumerStep(k, w, old(Memory()), c)
    {
      match c
      case ConsumerIdle =>
        c' := TailLoaded(tail);
      case TailLoaded(t) =>
        if t == head {
          trace := trace + [PopEmpty];
          c' := ConsumerIdle;
        } else {
          c' := DataSeen(t);
        }
      case DataSeen(t) =>
        var index := SlotIndex(k, t);
        match storage[index] {
          case Some(v) =>
            c' := ValueMoved(t, v);
          case None =>
            fault := true;
            c' := ConsumerIdle;
        }
      case ValueMoved(t, v) =>
        var index := SlotIndex(k, t);
        fault := fault || storage[index].None?;
        storage[index] := None;
        c' := SlotDestroyed(t, v);
      case SlotDestroyed(t, v) =>
        tail := Wrap(w, t + 1);
        trace := trace + [PopOk(v)];
        c' := ConsumerIdle;
    }

    method SizeApprox() returns (size: nat)
      requires Valid()
      ensures size == |Queue()|
    {
      CountersMeasure(k, w, Memory(), ProducerIdle, ConsumerIdle);
      size := Wrap(w, head - tail);
    }

    method Empty() returns (empty: bool)
      requires Valid()
      ensures empty <==> Queue() == []
    {
      CountersMeasure(k, w, Memory(), ProducerIdle, ConsumerIdle);
      empty := head == tail;
    }

    method Emplace(value: T) returns (ok: bool)
      requires Valid()
      modifies this, storage
      ensures Valid()
      ensures ok <==> |old(Queue())| < Pow2(k)
      ensures Queue() == if ok then old(Queue()) + [value] else old(Queue())
      ensures trace == old(trace) + [if ok then PushOk(value) else PushFull(value)]
    {
      ghost var s := Memory();
      CountersMeasure(k, w, s, ProducerIdle, ConsumerIdle);
      ProducerKeepsInv(k, w, s, ProducerIdle, ConsumerIdle, value);
      var p := ProducerTurn(ProducerIdle, value);
      TestRoom(k, w, Memory(), p, ConsumerIdle, value);
      Snoc(Pow2(k), trace, PushFull(value));
      p := ProducerTurn(p, value);
      if p.ProducerIdle? {
        return false;
      }
      BuildSlot(k, w, Memory(), p, ConsumerIdle, value);
      p := ProducerTurn(p, value);
      PublishHead(k, w, Memory(), p, ConsumerIdle, value);
      Snoc(Pow2(k), trace, PushOk(value));
      p := ProducerTurn(p, value);
      ok := true;
    }

    method TryPop() returns (out: Option<T>)
      requires Valid()
      modifies this, storage
      ensures Valid()
      ensures out.Some? <==> old(Queue()) != []
      ensures out.Some? ==> old(Queue()) == [out.value] + Queue()
      ensures out.None? ==> Queue() == []
    {
      ConsumerKeepsInv(k, w, Memory(), ProducerIdle, ConsumerIdle);
      var c := ConsumerTurn(ConsumerIdle);
      TestData(k, w, Memory(), ProducerIdle, c);
      Snoc(Pow2(k), trace, PopEmpty);
      c := ConsumerTurn(c);
      if c.ConsumerIdle? {
        return None;
      }
      var v := TakeFront(c);
      out := Some(v);
    }

    /** The rest of `try_pop` once an element has been seen. */
    method TakeFront(c: Consumer<T>) returns (v: T)
      requires c.DataSeen? && Inv(k, w, Memory(), ProducerIdle, c)
      modifies this, storage
      ensures Valid()
      ensures old(Queue()) == [v] + Queue()
    {
      hide Inv, Contents, Wrap, SlotIndex, Pow2;
      MoveValue(k, w, Memory(), ProducerIdle, c);
      var d := ConsumerTurn(c);
      DestroySlot(k, w, Memory(), ProducerIdle, d);
      d := ConsumerTurn(d);
      v := d.value;
      PublishTail(k, w, Memory(), ProducerIdle, d);
      Snoc(Pow2(k), trace, PopOk(v));
      d := ConsumerTurn(d);
    }

    method Clear()
      requires Valid()
      modifies this, storage
      ensures Valid() && Queue() == []
    {
      var value := TryPop();
      while value.Some?
        invariant Valid()
        invariant value.None? ==> Queue() == []
        decreases |Queue()| + if value.Some? then 1 else 0
      {
        value := TryPop();
      }
    }
  }
}
