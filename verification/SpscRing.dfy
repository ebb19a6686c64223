/** The session ring as the object the program updates in place. The two `Turn`
    methods perform one atomic step; the others are calls that nothing interrupts. */
module SpscRing {
  import opened Wrappers
  import opened Bits
  import opened Fifo
  import opened WrappedRing

  class SpscRing<T(0)> {
    const k: nat
    const slots: array<T>
    var head: nat
    var tail: nat
    var dropped: nat
    ghost var trace: seq<Event<T>>

    ghost function Memory(): (s: Shared<T>)
      reads this, slots
    {
      Shared(head, tail, dropped, slots[..], trace)
    }

    /** No call is in progress. */
    ghost predicate Valid()
      reads this, slots
    {
      Inv(k, Memory(), ProducerIdle, ConsumerIdle)
    }

    ghost function Queue(): seq<T>
      reads this
    {
      Contents(trace)
    }

    constructor (k: nat)
      ensures Valid() && fresh(slots) && this.k == k
      ensures Queue() == [] && trace == [] && dropped == 0
    {
      this.k := k;
      slots := new T[Pow2(k)];
      head, tail, dropped, trace := 0, 0, 0, [];
      new;
      InitialInv(k, slots[..]);
    }

    method ProducerTurn(p: Producer<T>, value: T) returns (p': Producer<T>)
      requires Shaped(k, Memory()) && ProducerShaped(k, p)
      modifies this, slots
      ensures (Memory(), p') == ProducerStep(k, old(Memory()), p, value)
    {
      match p
      case ProducerIdle =>
        p' := TailLoaded(value, tail);
      case TailLoaded(v, t) =>
        if Next(k, t) == head {
          trace := trace + [PushFull(v)];
          p' := Dropping(v);
        } else {
          p' := RoomSeen(v, t);
        }
      case RoomSeen(v, t) =>
        slots[t] := v;
        p' := SlotWritten(v, t);
      case SlotWritten(v, t) =>
        tail := Next(k, t);
        trace := trace + [PushOk(v)];
        p' := ProducerIdle;
      case Dropping(v) =>
        dropped := dropped + 1;
        p' := ProducerIdle;
    }

    method ConsumerTurn(c: Consumer<T>) returns (c': Consumer<T>)
      requires Shaped(k, Memory()) && ConsumerShaped(k, c)
      modifies this
      ensures (Memory(), c') == ConsumerStep(k, old(Memory()), c)
    {
      match c
      case ConsumerIdle =>
        c' := HeadLoaded(head);
      case HeadLoaded(h) =>
        if h == tail {
          trace := trace + [PopEmpty];
          c' := ConsumerIdle;
        } else {
          c' := DataSeen(h);
        }
      case DataSeen(h) =>
        c' := ValueRead(h, slots[h]);
      case ValueRead(h, v) =>
        head := Next(k, h);
        trace := trace + [PopOk(v)];
        c' := ConsumerIdle;
    }

    method TryPush(value: T) returns (ok: bool)
      requires Valid()
      modifies this, slots
      ensures Valid()
      ensures ok <==> |old(Queue())| < Pow2(k) - 1
      ensures Queue() == if ok then old(Queue()) + [value] else old(Queue())
      ensures dropped == old(dropped) + if ok then 0 else 1
    {
      ProducerKeepsInv(k, Memory(), ProducerIdle, ConsumerIdle, value);
      var p := ProducerTurn(ProducerIdle, value);
      TestRoom(k, Memory(), p, ConsumerIdle, value);
      Snoc(Pow2(k) - 1, trace, PushFull(value));
      p := ProducerTurn(p, value);
      if p.Dropping? {
        ProducerKeepsInv(k, Memory(), p, ConsumerIdle, value);
        p := ProducerTurn(p, value);
        return false;
      }
      PutBack(p);
      ok := true;
    }

    /** The rest of `try_push` once room has been seen. */
    method PutBack(p: Producer<T>)
      requires p.RoomSeen? && Inv(k, Memory(), p, ConsumerIdle)
      modifies this, slots
      ensures Valid()
      ensures Queue() == old(Queue()) + [p.value]
      ensures dropped == old(dropped)
    {
      WriteSlot(k, Memory(), p, ConsumerIdle, p.value);
      var r := ProducerTurn(p, p.value);
      PublishTail(k, Memory(), r, ConsumerIdle, p.value);
      Snoc(Pow2(k) - 1, trace, PushOk(p.value));
      r := ProducerTurn(r, p.value);
    }

    method TryPop() returns (out: Option<T>)
      requires Valid()
      modifies this
      ensures Valid()
      ensures out.Some? <==> old(Queue()) != []
      ensures out.Some? ==> old(Queue()) == [out.value] + Queue()
      ensures out.None? ==> Queue() == []
      ensures dropped == old(dropped)
    {
      ConsumerKeepsInv(k, Memory(), ProducerIdle, ConsumerIdle);
      var c := ConsumerTurn(ConsumerIdle);
      TestData(k, Memory(), ProducerIdle, c);
      Snoc(Pow2(k) - 1, trace, PopEmpty);
      c := ConsumerTurn(c);
      if c.ConsumerIdle? {
        return None;
      }
      var v := TakeFront(c);
      out := Some(v);
    }

    /** The rest of `try_pop` once an element has been seen. */
    method TakeFront(c: Consumer<T>) returns (v: T)
      requires c.DataSeen? && Inv(k, Memory(), ProducerIdle, c)
      modifies this
      ensures Valid()
      ensures old(Queue()) == [v] + Queue()
      ensures dropped == old(dropped)
    {
      ReadValue(k, Memory(), ProducerIdle, c);
      var d := ConsumerTurn(c);
      v := d.value;
      ghost var t := trace;
      assert trace == old(trace) && v == Contents(trace)[0];
      PublishHead(k, Memory(), ProducerIdle, d);
      d := ConsumerTurn(d);
      assert trace == t + [PopOk(v)];
      Snoc(Pow2(k) - 1, t, PopOk(v));
    }

    method Peek() returns (front: Option<T>)
      requires Valid()
      ensures front == if Queue() == [] then None else Some(Queue()[0])
    {
      IndicesMeasure(k, Memory(), ProducerIdle, ConsumerIdle);
      if head == tail {
        return None;
      }
      ReadValue(k, Memory(), ProducerIdle, DataSeen(head));
      front := Some(slots[head]);
    }

    /** `(tail - head) & MASK`, where the difference wraps in a word of `w` bits. */
    method SizeApprox(w: nat) returns (size: nat)
      requires Valid() && k <= w
      ensures size == |Queue()|
    {
      IndicesMeasure(k, Memory(), ProducerIdle, ConsumerIdle);
      Pow2Add(k, w - k);
      ModMod(tail - head, Pow2(k), Pow2(w - k));
      var difference := (tail - head) % Pow2(w);
      MaskIsMod(difference, k);
      size := And(difference, Pow2(k) - 1);
    }

    method Empty() returns (empty: bool)
      requires Valid()
      ensures empty <==> Queue() == []
    {
      IndicesMeasure(k, Memory(), ProducerIdle, ConsumerIdle);
      empty := head == tail;
    }

    method Full() returns (full: bool)
      requires Valid()
      ensures full <==> |Queue()| == Pow2(k) - 1
    {
      IndicesMeasure(k, Memory(), ProducerIdle, ConsumerIdle);
      full := Next(k, tail) == head;
    }

    method DroppedCount() returns (count: nat)
      requires Valid()
      ensures count == Rejected(trace)
    {
      count := dropped;
    }
  }
}
