/** The reference queue: a bounded FIFO and the histories it allows. Both ring
    buffers are proved to produce only such histories. */
module Fifo {

  /** What one completed queue operation did. */
  datatype Event<T> = PushOk(value: T) | PushFull(value: T) | PopOk(value: T) | PopEmpty

  /** The elements still queued after a history. */
  function Contents<T>(trace: seq<Event<T>>): seq<T> {
    if trace == [] then []
    else
      var q := Contents(trace[..|trace| - 1]);
      match trace[|trace| - 1]
      case PushOk(v) => q + [v]
      case PopOk(_) => if q == [] then q else q[1..]
      case _ => q
  }

  /** The accepted elements, in the order of acceptance. */
  function Pushed<T>(trace: seq<Event<T>>): seq<T> {
    if trace == [] then []
    else
      var rest := Pushed(trace[..|trace| - 1]);
      match trace[|trace| - 1]
      case PushOk(v) => rest + [v]
      case _ => rest
  }

  /** The delivered elements, in the order of delivery. */
  function Popped<T>(trace: seq<Event<T>>): seq<T> {
    if trace == [] then []
    else
      var rest := Popped(trace[..|trace| - 1]);
      match trace[|trace| - 1]
      case PopOk(v) => rest + [v]
      case _ => rest
  }

  /** The number of rejected pushes. */
  function Rejected<T>(trace: seq<Event<T>>): nat {
    if trace == [] then 0
    else Rejected(trace[..|trace| - 1]) + if trace[|trace| - 1].PushFull? then 1 else 0
  }

  /** May a FIFO of `cap` elements holding `q` answer with `e`? */
  ghost predicate Allowed<T>(cap: nat, q: seq<T>, e: Event<T>) {
    match e
    case PushOk(_) => |q| < cap
    case PushFull(_) => |q| == cap
    case PopOk(v) => q != [] && q[0] == v
    case PopEmpty => q == []
  }

  /** A history in which every answer is the one a FIFO of `cap` elements gives. */
  ghost predicate Legal<T>(cap: nat, trace: seq<Event<T>>) {
    trace == [] ||
    (Legal(cap, trace[..|trace| - 1]) &&
     Allowed(cap, Contents(trace[..|trace| - 1]), trace[|trace| - 1]))
  }

  lemma Snoc<T>(cap: nat, trace: seq<Event<T>>, e: Event<T>)
    ensures Legal(cap, trace + [e]) <==> Legal(cap, trace) && Allowed(cap, Contents(trace), e)
    ensures Pushed(trace + [e]) == Pushed(trace) + (if e.PushOk? then [e.value] else [])
    ensures Popped(trace + [e]) == Popped(trace) + (if e.PopOk? then [e.value] else [])
    ensures Rejected(trace + [e]) == Rejected(trace) + (if e.PushFull? then 1 else 0)
    ensures Contents(trace + [e]) ==
            (match e
             case PushOk(v) => Contents(trace) + [v]
             case PopOk(_) => if Contents(trace) == [] then [] else Contents(trace)[1..]
             case _ => Contents(trace))
  {
    var t := trace + [e];
    assert t[..|t| - 1] == trace && t[|t| - 1] == e;
  }

  /** In a legal history, delivered elements followed by queued ones are the
      accepted ones: nothing is lost, duplicated or reordered. */
  lemma {:induction false} Conservation<T>(cap: nat, trace: seq<Event<T>>)
    requires Legal(cap, trace)
    ensures Popped(trace) + Contents(trace) == Pushed(trace)
    ensures |Contents(trace)| <= cap
  {
    if trace == [] {
    } else {
      var t, e := trace[..|trace| - 1], trace[|trace| - 1];
      Conservation(cap, t);
      if e.PopOk? {
        var q := Contents(t);
        assert q == [q[0]] + q[1..];
        assert Popped(t) + q == (Popped(t) + [q[0]]) + q[1..];
      } else if e.PushOk? {
        assert (Popped(t) + Contents(t)) + [e.value] == Popped(t) + (Contents(t) + [e.value]);
      }
    }
  }
}
