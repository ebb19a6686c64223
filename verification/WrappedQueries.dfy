/** Size, emptiness and fullness queries of the wrapped-index ring while its producer and
    consumer are at work. A query loads both indices, each at some moment of a run. */
module WrappedQueries {
  import opened Bits
  import opened Fifo
  import opened WrappedRing

  /** The ring after the first `i` steps of a schedule. */
  ghost function At<T>(k: nat, slots: seq<T>, schedule: seq<Turn<T>>, i: nat): (s: Shared<T>)
    requires |slots| == Pow2(k) && i <= |schedule|
  {
    Run(k, slots, schedule[..i]).shared
  }

  /** The numbers of elements accepted, delivered and queued at that moment. */
  ghost function Accepted<T>(k: nat, slots: seq<T>, schedule: seq<Turn<T>>, i: nat): nat
    requires |slots| == Pow2(k) && i <= |schedule|
  {
    |Pushed(At(k, slots, schedule, i).trace)|
  }

  ghost function Delivered<T>(k: nat, slots: seq<T>, schedule: seq<Turn<T>>, i: nat): nat
    requires |slots| == Pow2(k) && i <= |schedule|
  {
    |Popped(At(k, slots, schedule, i).trace)|
  }

  ghost function Length<T>(k: nat, slots: seq<T>, schedule: seq<Turn<T>>, i: nat): nat
    requires |slots| == Pow2(k) && i <= |schedule|
  {
    |Contents(At(k, slots, schedule, i).trace)|
  }

  lemma LengthIs<T>(k: nat, slots: seq<T>, schedule: seq<Turn<T>>, i: nat)
    requires |slots| == Pow2(k) && i <= |schedule|
    ensures Length(k, slots, schedule, i) == Accepted(k, slots, schedule, i) - Delivered(k, slots, schedule, i)
    ensures Length(k, slots, schedule, i) < Pow2(k)
  {
    RefinesFifo(k, slots, schedule[..i]);
    hide Run, Popped, Pushed, Contents, Legal, Pow2;
  }

  /** The answers of a query that loads the producer's index after `tailAt` steps and the
      consumer's after `headAt` steps. */
  ghost function Size<T>(k: nat, slots: seq<T>, schedule: seq<Turn<T>>, tailAt: nat, headAt: nat): nat
    requires |slots| == Pow2(k) && tailAt <= |schedule| && headAt <= |schedule|
  {
    (At(k, slots, schedule, tailAt).tail - At(k, slots, schedule, headAt).head) % Pow2(k)
  }

  ghost predicate IsEmpty<T>(k: nat, slots: seq<T>, schedule: seq<Turn<T>>, tailAt: nat, headAt: nat)
    requires |slots| == Pow2(k) && tailAt <= |schedule| && headAt <= |schedule|
  {
    At(k, slots, schedule, tailAt).tail == At(k, slots, schedule, headAt).head
  }

  ghost predicate IsFull<T>(k: nat, slots: seq<T>, schedule: seq<Turn<T>>, tailAt: nat, headAt: nat)
    requires |slots| == Pow2(k) && tailAt <= |schedule| && headAt <= |schedule|
  {
    Next(k, At(k, slots, schedule, tailAt).tail) == At(k, slots, schedule, headAt).head
  }

  /** The answers in terms of the elements accepted until the one load and delivered until
      the other. */
  lemma Answers<T>(k: nat, slots: seq<T>, schedule: seq<Turn<T>>, tailAt: nat, headAt: nat)
    requires |slots| == Pow2(k) && tailAt <= |schedule| && headAt <= |schedule|
    ensures var d := Accepted(k, slots, schedule, tailAt) - Delivered(k, slots, schedule, headAt);
            && (Size(k, slots, schedule, tailAt, headAt) == d <==> 0 <= d < Pow2(k))
            && (0 <= d < Pow2(k) ==> (IsEmpty(k, slots, schedule, tailAt, headAt) <==> d == 0))
            && (0 <= d < Pow2(k) ==> (IsFull(k, slots, schedule, tailAt, headAt) <==> d == Pow2(k) - 1))
  {
    var a, b := Accepted(k, slots, schedule, tailAt), Delivered(k, slots, schedule, headAt);
    Loads(k, slots, schedule, tailAt);
    Loads(k, slots, schedule, headAt);
    hide Run, At, Accepted, Delivered, Pow2;
    Differences(a, b, Pow2(k));
    FullTest(a, b, Pow2(k));
  }

  lemma FullTest(a: int, b: int, n: int)
    requires n > 0
    ensures 0 <= a - b < n ==> ((a % n + 1) % n == b % n <==> a - b == n - 1)
  {
    ModSum(a, 1, n);
    Differences(a + 1, b, n);
    if 0 <= a - b < n - 1 {
      SmallMultiple(a + 1 - b, n);
    } else if a - b == n - 1 {
      ModTurn(0, n);
    }
  }

  lemma Loads<T>(k: nat, slots: seq<T>, schedule: seq<Turn<T>>, i: nat)
    requires |slots| == Pow2(k) && i <= |schedule|
    ensures At(k, slots, schedule, i).tail == Accepted(k, slots, schedule, i) % Pow2(k)
    ensures At(k, slots, schedule, i).head == Delivered(k, slots, schedule, i) % Pow2(k)
  {
    RunInv(k, slots, schedule[..i]);
    LengthIs(k, slots, schedule, i);
    hide Run, Contents, Popped, Pushed, Legal, SlotsMatch, Pow2;
  }

  lemma TurnCounts<T>(k: nat, g: Config<T>, turn: Turn<T>)
    requires ConfigShaped(k, g)
    ensures var a, b := g.shared.trace, Step(k, g, turn).shared.trace;
            && |Pushed(a)| <= |Pushed(b)| && |Popped(a)| <= |Popped(b)|
            && (turn.ConsumerTurn? ==> |Pushed(a)| == |Pushed(b)|)
            && (turn.ProducerTurn? ==> |Popped(a)| == |Popped(b)|)
  {
    var trace := g.shared.trace;
    match turn
    case ProducerTurn(_) =>
      match g.producer {
        case TailLoaded(v, _) => Snoc(0, trace, PushFull(v));
        case SlotWritten(v, _) => Snoc(0, trace, PushOk(v));
        case _ =>
      }
    case ConsumerTurn =>
      match g.consumer {
        case HeadLoaded(_) => Snoc(0, trace, PopEmpty);
        case ValueRead(_, v) => Snoc(0, trace, PopOk(v));
        case _ =>
      }
  }

  /** All steps from `lo` to `hi` belong to the producer, or to the consumer. */
  ghost predicate OnlyProducer<T>(schedule: seq<Turn<T>>, lo: nat, hi: nat)
    requires hi <= |schedule|
  {
    forall x | lo <= x < hi :: schedule[x].ProducerTurn?
  }

  ghost predicate OnlyConsumer<T>(schedule: seq<Turn<T>>, lo: nat, hi: nat)
    requires hi <= |schedule|
  {
    forall x | lo <= x < hi :: schedule[x].ConsumerTurn?
  }

  lemma {:induction false} CountsGrow<T>(k: nat, slots: seq<T>, schedule: seq<Turn<T>>, lo: nat, hi: nat)
    requires |slots| == Pow2(k) && lo <= hi <= |schedule|
    ensures Accepted(k, slots, schedule, lo) <= Accepted(k, slots, schedule, hi)
    ensures Delivered(k, slots, schedule, lo) <= Delivered(k, slots, schedule, hi)
    ensures OnlyConsumer(schedule, lo, hi) ==> Accepted(k, slots, schedule, lo) == Accepted(k, slots, schedule, hi)
    ensures OnlyProducer(schedule, lo, hi) ==> Delivered(k, slots, schedule, lo) == Delivered(k, slots, schedule, hi)
    decreases hi - lo
  {
    if lo == hi {
    } else {
      CountsGrow(k, slots, schedule, lo, hi - 1);
      assert schedule[..hi][..hi - 1] == schedule[..hi - 1];
      var g := Run(k, slots, schedule[..hi - 1]);
      assert Run(k, slots, schedule[..hi]) == Step(k, g, schedule[hi - 1]);
      hide Run, Step, Pushed, Popped;
      TurnCounts(k, g, schedule[hi - 1]);
    }
  }

  /** A query made by the producer's own thread, which takes no other step between the two
      loads, answers with the length at the moment at which it loaded the consumer's
      index. */
  lemma ProducersQuery<T>(k: nat, slots: seq<T>, schedule: seq<Turn<T>>, tailAt: nat, headAt: nat)
    requires |slots| == Pow2(k) && tailAt <= |schedule| && headAt <= |schedule|
    requires OnlyConsumer(schedule, tailAt, headAt) && OnlyConsumer(schedule, headAt, tailAt)
    ensures Size(k, slots, schedule, tailAt, headAt) == Length(k, slots, schedule, headAt)
    ensures IsEmpty(k, slots, schedule, tailAt, headAt) <==> Length(k, slots, schedule, headAt) == 0
    ensures IsFull(k, slots, schedule, tailAt, headAt) <==> Length(k, slots, schedule, headAt) == Pow2(k) - 1
  {
    hide Length, Accepted, Delivered, Size, IsEmpty, OnlyConsumer, IsFull;
    LengthIs(k, slots, schedule, headAt);
    Answers(k, slots, schedule, tailAt, headAt);
    if tailAt <= headAt {
      CountsGrow(k, slots, schedule, tailAt, headAt);
    } else {
      CountsGrow(k, slots, schedule, headAt, tailAt);
    }
  }

  /** A query made by the consumer's own thread answers with the length at the moment at
      which it loaded the producer's index. */
  lemma ConsumersQuery<T>(k: nat, slots: seq<T>, schedule: seq<Turn<T>>, tailAt: nat, headAt: nat)
    requires |slots| == Pow2(k) && tailAt <= |schedule| && headAt <= |schedule|
    requires OnlyProducer(schedule, tailAt, headAt) && OnlyProducer(schedule, headAt, tailAt)
    ensures Size(k, slots, schedule, tailAt, headAt) == Length(k, slots, schedule, tailAt)
    ensures IsEmpty(k, slots, schedule, tailAt, headAt) <==> Length(k, slots, schedule, tailAt) == 0
    ensures IsFull(k, slots, schedule, tailAt, headAt) <==> Length(k, slots, schedule, tailAt) == Pow2(k) - 1
  {
    hide Length, Accepted, Delivered, Size, IsEmpty, OnlyProducer, IsFull;
    LengthIs(k, slots, schedule, tailAt);
    Answers(k, slots, schedule, tailAt, headAt);
    if tailAt <= headAt {
      CountsGrow(k, slots, schedule, tailAt, headAt);
    } else {
      CountsGrow(k, slots, schedule, headAt, tailAt);
    }
  }

  /** A third thread that loads the producer's index first never answers with more than
      the length at either load, unless more elements were delivered in between than were
      queued at the first load; exactly then the difference wraps. */
  lemma ProducerFirst<T>(k: nat, slots: seq<T>, schedule: seq<Turn<T>>, tailAt: nat, headAt: nat)
    requires |slots| == Pow2(k) && tailAt <= headAt <= |schedule|
    ensures var size, between := Size(k, slots, schedule, tailAt, headAt),
                                 Delivered(k, slots, schedule, headAt) - Delivered(k, slots, schedule, tailAt);
            && (size == Length(k, slots, schedule, tailAt) - between <==> between <= Length(k, slots, schedule, tailAt))
            && (between <= Length(k, slots, schedule, tailAt) ==>
                  size <= Length(k, slots, schedule, tailAt) && size <= Length(k, slots, schedule, headAt))
  {
    hide Length, Accepted, Delivered, Size, IsEmpty, IsFull;
    LengthIs(k, slots, schedule, tailAt);
    LengthIs(k, slots, schedule, headAt);
    Answers(k, slots, schedule, tailAt, headAt);
    CountsGrow(k, slots, schedule, tailAt, headAt);
  }

  /** A third thread that loads the consumer's index first answers with the length at
      either load plus what was delivered, or accepted, in between, as long as that is
      less than the number of slots; exactly beyond that the difference wraps. */
  lemma ConsumerFirst<T>(k: nat, slots: seq<T>, schedule: seq<Turn<T>>, tailAt: nat, headAt: nat)
    requires |slots| == Pow2(k) && headAt <= tailAt <= |schedule|
    ensures var size := Size(k, slots, schedule, tailAt, headAt);
            var delivered := Delivered(k, slots, schedule, tailAt) - Delivered(k, slots, schedule, headAt);
            var accepted := Accepted(k, slots, schedule, tailAt) - Accepted(k, slots, schedule, headAt);
            && Length(k, slots, schedule, tailAt) + delivered == Length(k, slots, schedule, headAt) + accepted
            && (size == Length(k, slots, schedule, tailAt) + delivered <==>
                  Length(k, slots, schedule, tailAt) + delivered < Pow2(k))
  {
    hide Length, Accepted, Delivered, Size, IsEmpty, IsFull;
    LengthIs(k, slots, schedule, tailAt);
    LengthIs(k, slots, schedule, headAt);
    Answers(k, slots, schedule, tailAt, headAt);
    CountsGrow(k, slots, schedule, headAt, tailAt);
  }
}
