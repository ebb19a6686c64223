/** Size and emptiness queries of the free-running ring while its producer and consumer are
    at work. A query loads both counters, each at some moment of a run. */
module FreeRunningQueries {
  import opened Bits
  import opened Fifo
  import opened FreeRunningRing

  /** The ring after the first `i` steps of a schedule. */
  ghost function At<T>(k: nat, w: nat, schedule: seq<Turn<T>>, i: nat): (s: Shared<T>)
    requires i <= |schedule|
  {
    Run(k, w, schedule[..i]).shared
  }

  /** The numbers of elements accepted, delivered and queued at that moment. */
  ghost function Accepted<T>(k: nat, w: nat, schedule: seq<Turn<T>>, i: nat): nat
    requires i <= |schedule|
  {
    |Pushed(At(k, w, schedule, i).trace)|
  }

  ghost function Delivered<T>(k: nat, w: nat, schedule: seq<Turn<T>>, i: nat): nat
    requires i <= |schedule|
  {
    |Popped(At(k, w, schedule, i).trace)|
  }

  ghost function Length<T>(k: nat, w: nat, schedule: seq<Turn<T>>, i: nat): nat
    requires i <= |schedule|
  {
    |Contents(At(k, w, schedule, i).trace)|
  }

  lemma LengthIs<T>(k: nat, w: nat, schedule: seq<Turn<T>>, i: nat)
    requires k < w && i <= |schedule|
    ensures Length(k, w, schedule, i) == Accepted(k, w, schedule, i) - Delivered(k, w, schedule, i)
    ensures Length(k, w, schedule, i) <= Pow2(k) < Pow2(w)
  {
    RefinesFifo(k, w, schedule[..i]);
    CapacityDividesWord(k, w);
    hide Run, Popped, Pushed, Contents, Legal, Pow2, Wrap;
  }

  /** The answers of a query that loads the producer's counter after `headAt` steps and the
      consumer's after `tailAt` steps. */
  ghost function Size<T>(k: nat, w: nat, schedule: seq<Turn<T>>, headAt: nat, tailAt: nat): nat
    requires headAt <= |schedule| && tailAt <= |schedule|
  {
    Wrap(w, At(k, w, schedule, headAt).head - At(k, w, schedule, tailAt).tail)
  }

  ghost predicate IsEmpty<T>(k: nat, w: nat, schedule: seq<Turn<T>>, headAt: nat, tailAt: nat)
    requires headAt <= |schedule| && tailAt <= |schedule|
  {
    At(k, w, schedule, headAt).head == At(k, w, schedule, tailAt).tail
  }

  /** The answers in terms of the elements accepted until the one load and delivered until
      the other. */
  lemma Answers<T>(k: nat, w: nat, schedule: seq<Turn<T>>, headAt: nat, tailAt: nat)
    requires k < w && headAt <= |schedule| && tailAt <= |schedule|
    ensures var d := Accepted(k, w, schedule, headAt) - Delivered(k, w, schedule, tailAt);
            && (Size(k, w, schedule, headAt, tailAt) == d <==> 0 <= d < Pow2(w))
            && (0 <= d < Pow2(w) ==> (IsEmpty(k, w, schedule, headAt, tailAt) <==> d == 0))
  {
    var a, b := Accepted(k, w, schedule, headAt), Delivered(k, w, schedule, tailAt);
    Loads(k, w, schedule, headAt);
    Loads(k, w, schedule, tailAt);
    hide Run, At, Accepted, Delivered, Pow2;
    Differences(a, b, Pow2(w));
  }

  lemma Loads<T>(k: nat, w: nat, schedule: seq<Turn<T>>, i: nat)
    requires k < w && i <= |schedule|
    ensures At(k, w, schedule, i).head == Accepted(k, w, schedule, i) % Pow2(w)
    ensures At(k, w, schedule, i).tail == Delivered(k, w, schedule, i) % Pow2(w)
  {
    RunInv(k, w, schedule[..i]);
    LengthIs(k, w, schedule, i);
    hide Run, Contents, Popped, Pushed, Legal, SlotsMatch, Pow2;
  }

  lemma TurnCounts<T>(k: nat, w: nat, g: Config<T>, turn: Turn<T>)
    requires |g.shared.slots| == Pow2(k)
    ensures var a, b := g.shared.trace, Step(k, w, g, turn).shared.trace;
            && |Pushed(a)| <= |Pushed(b)| && |Popped(a)| <= |Popped(b)|
            && (turn.ConsumerTurn? ==> |Pushed(a)| == |Pushed(b)|)
            && (turn.ProducerTurn? ==> |Popped(a)| == |Popped(b)|)
  {
    var trace := g.shared.trace;
    match turn
    case ProducerTurn(_) =>
      match g.producer {
        case HeadLoaded(v, _) => Snoc(0, trace, PushFull(v));
        case SlotBuilt(v, _) => Snoc(0, trace, PushOk(v));
        case _ =>
      }
    case ConsumerTurn =>
      match g.consumer {
        case TailLoaded(_) => Snoc(0, trace, PopEmpty);
        case SlotDestroyed(_, v) => Snoc(0, trace, PopOk(v));
        case _ =>
      }
  }

  /** All steps from `lo` to `hi` belong to the producer, or to the consumer. */
  ghost predicate OnlyProducer<T>(schedule: seq<Turn<T>>, lo: nat, hi: nat)
    requires hi <= |schedule|
  {
    forall x | lo <= x < hi :: schedule[x].ProducerTurn?
  }

  ghost predicate OnlyConsumer<T>(schedule: seq<Turn<T>>, lo: nat, hi: nat)
    requires hi <= |schedule|
  {
    forall x | lo <= x < hi :: schedule[x].ConsumerTurn?
  }

  lemma {:induction false} CountsGrow<T>(k: nat, w: nat, schedule: seq<Turn<T>>, lo: nat, hi: nat)
    requires lo <= hi <= |schedule|
    ensures Accepted(k, w, schedule, lo) <= Accepted(k, w, schedule, hi)
    ensures Delivered(k, w, schedule, lo) <= Delivered(k, w, schedule, hi)
    ensures OnlyConsumer(schedule, lo, hi) ==> Accepted(k, w, schedule, lo) == Accepted(k, w, schedule, hi)
    ensures OnlyProducer(schedule, lo, hi) ==> Delivered(k, w, schedule, lo) == Delivered(k, w, schedule, hi)
    decreases hi - lo
  {
    if lo == hi {
    } else {
      CountsGrow(k, w, schedule, lo, hi - 1);
      assert schedule[..hi][..hi - 1] == schedule[..hi - 1];
      var g := Run(k, w, schedule[..hi - 1]);
      assert Run(k, w, schedule[..hi]) == Step(k, w, g, schedule[hi - 1]);
      hide Run, Step, Pushed, Popped;
      TurnCounts(k, w, g, schedule[hi - 1]);
    }
  }

  /** A query made by the producer's own thread, which takes no other step between the two
      loads, answers with the length at the moment at which it loaded the consumer's
      counter. */
  lemma ProducersQuery<T>(k: nat, w: nat, schedule: seq<Turn<T>>, headAt: nat, tailAt: nat)
    requires k < w && headAt <= |schedule| && tailAt <= |schedule|
    requires OnlyConsumer(schedule, headAt, tailAt) && OnlyConsumer(schedule, tailAt, headAt)
    ensures Size(k, w, schedule, headAt, tailAt) == Length(k, w, schedule, tailAt)
    ensures IsEmpty(k, w, schedule, headAt, tailAt) <==> Length(k, w, schedule, tailAt) == 0
  {
    hide Length, Accepted, Delivered, Size, IsEmpty, OnlyConsumer;
    LengthIs(k, w, schedule, tailAt);
    Answers(k, w, schedule, headAt, tailAt);
    if headAt <= tailAt {
      CountsGrow(k, w, schedule, headAt, tailAt);
    } else {
      CountsGrow(k, w, schedule, tailAt, headAt);
    }
  }

  /** A query made by the consumer's own thread answers with the length at the moment at
      which it loaded the producer's counter. */
  lemma ConsumersQuery<T>(k: nat, w: nat, schedule: seq<Turn<T>>, headAt: nat, tailAt: nat)
    requires k < w && headAt <= |schedule| && tailAt <= |schedule|
    requires OnlyProducer(schedule, headAt, tailAt) && OnlyProducer(schedule, tailAt, headAt)
    ensures Size(k, w, schedule, headAt, tailAt) == Length(k, w, schedule, headAt)
    ensures IsEmpty(k, w, schedule, headAt, tailAt) <==> Length(k, w, schedule, headAt) == 0
  {
    hide Length, Accepted, Delivered, Size, IsEmpty, OnlyProducer;
    LengthIs(k, w, schedule, headAt);
    Answers(k, w, schedule, headAt, tailAt);
    if headAt <= tailAt {
      CountsGrow(k, w, schedule, headAt, tailAt);
    } else {
      CountsGrow(k, w, schedule, tailAt, headAt);
    }
  }

  /** A third thread that loads the producer's counter first never answers with more than
      the length at either load, unless more elements were delivered in between than were
      queued at the first load; exactly then the difference wraps. */
  lemma ProducerFirst<T>(k: nat, w: nat, schedule: seq<Turn<T>>, headAt: nat, tailAt: nat)
    requires k < w && headAt <= tailAt <= |schedule|
    ensures var size, between := Size(k, w, schedule, headAt, tailAt),
                                 Delivered(k, w, schedule, tailAt) - Delivered(k, w, schedule, headAt);
            && (size == Length(k, w, schedule, headAt) - between <==> between <= Length(k, w, schedule, headAt))
            && (between <= Length(k, w, schedule, headAt) ==>
                  size <= Length(k, w, schedule, headAt) && size <= Length(k, w, schedule, tailAt))
  {
    hide Length, Accepted, Delivered, Size, IsEmpty;
    LengthIs(k, w, schedule, headAt);
    LengthIs(k, w, schedule, tailAt);
    Answers(k, w, schedule, headAt, tailAt);
    CountsGrow(k, w, schedule, headAt, tailAt);
  }

  /** A third thread that loads the consumer's counter first answers with the length at
      either load plus what was delivered, or accepted, in between, as long as that is
      less than the word holds; exactly beyond that the difference wraps. */
  lemma ConsumerFirst<T>(k: nat, w: nat, schedule: seq<Turn<T>>, headAt: nat, tailAt: nat)
    requires k < w && tailAt <= headAt <= |schedule|
    ensures var size := Size(k, w, schedule, headAt, tailAt);
            var delivered := Delivered(k, w, schedule, headAt) - Delivered(k, w, schedule, tailAt);
            var accepted := Accepted(k, w, schedule, headAt) - Accepted(k, w, schedule, tailAt);
            && Length(k, w, schedule, headAt) + delivered == Length(k, w, schedule, tailAt) + accepted
            && (size == Length(k, w, schedule, headAt) + delivered <==>
                  Length(k, w, schedule, headAt) + delivered < Pow2(w))
  {
    hide Length, Accepted, Delivered, Size, IsEmpty;
    LengthIs(k, w, schedule, headAt);
    LengthIs(k, w, schedule, tailAt);
    Answers(k, w, schedule, headAt, tailAt);
    CountsGrow(k, w, schedule, tailAt, headAt);
  }
}
