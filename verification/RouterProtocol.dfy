/** Tick routing over bounded queues: the registry of symbol ids, the three counters,
    and what any run of commands delivers to each queue. `B` names the buffers. */
module RouterProtocol {
  import opened Wrappers
  import Sets

  datatype Tick<P> = Tick(symbolId: nat, payload: P)

  datatype Router<B(==), P> = Router(registry: map<nat, B>, queues: map<B, seq<Tick<P>>>,
                                     routed: nat, dropped: nat, unknown: nat)

  /** `Register` with `None` is the call with a null buffer; `Drain` is a pop by the
      consumer of a buffer. */
  datatype Command<B, P> =
    | Register(id: nat, buffer: Option<B>)
    | Unregister(id: nat)
    | Route(tick: Tick<P>)
    | Drain(source: B)

  /** The registry limit, what one buffer holds, and the buffers there are. */
  datatype Setup<B(==)> = Setup(max: nat, cap: nat, buffers: set<B>)

  function Queue<B(==), P>(r: Router<B, P>, b: B): seq<Tick<P>> {
    if b in r.queues then r.queues[b] else []
  }

  function Initial<B(==), P>(u: Setup<B>): Router<B, P> {
    Router(map[], map b | b in u.buffers :: [], 0, 0, 0)
  }

  function RegisterStep<B(==), P>(u: Setup<B>, r: Router<B, P>, id: nat, buffer: Option<B>): (Router<B, P>, bool) {
    if buffer.None? || |r.registry| >= u.max then (r, false)
    else (r.(registry := r.registry[id := buffer.value]), true)
  }

  function UnregisterStep<B(==), P>(r: Router<B, P>, id: nat): Router<B, P> {
    r.(registry := r.registry - {id})
  }

  /** Is the tick's symbol registered with a buffer that has room? */
  predicate Accepts<B(==), P>(u: Setup<B>, r: Router<B, P>, tick: Tick<P>) {
    tick.symbolId in r.registry && |Queue(r, r.registry[tick.symbolId])| < u.cap
  }

  function RouteStep<B(==), P>(u: Setup<B>, r: Router<B, P>, tick: Tick<P>): (Router<B, P>, bool) {
    if tick.symbolId !in r.registry then (r.(unknown := r.unknown + 1), false)
    else if !Accepts(u, r, tick) then (r.(dropped := r.dropped + 1), false)
    else
      var b := r.registry[tick.symbolId];
      (r.(routed := r.routed + 1, queues := r.queues[b := Queue(r, b) + [tick]]), true)
  }

  function DrainStep<B(==), P>(r: Router<B, P>, b: B): (Router<B, P>, Option<Tick<P>>) {
    var q := Queue(r, b);
    if q == [] then (r, None) else (r.(queues := r.queues[b := q[1..]]), Some(q[0]))
  }

  function Step<B(==), P>(u: Setup<B>, r: Router<B, P>, c: Command<B, P>): Router<B, P> {
    match c
    case Register(id, buffer) => RegisterStep(u, r, id, buffer).0
    case Unregister(id) => UnregisterStep(r, id)
    case Route(tick) => RouteStep(u, r, tick).0
    case Drain(b) => DrainStep(r, b).0
  }

  function Run<B(==), P>(u: Setup<B>, cs: seq<Command<B, P>>): Router<B, P> {
    if cs == [] then Initial(u)
    else Step(u, Run(u, cs[..|cs| - 1]), cs[|cs| - 1])
  }

  /** The accepted ticks of a run, each with the buffer its symbol had at that moment. */
  function Accepted<B(==), P>(u: Setup<B>, cs: seq<Command<B, P>>): seq<(B, Tick<P>)> {
    if cs == [] then []
    else
      var r, rest := Run(u, cs[..|cs| - 1]), Accepted(u, cs[..|cs| - 1]);
      match cs[|cs| - 1]
      case Route(tick) =>
        if Accepts(u, r, tick) then rest + [(r.registry[tick.symbolId], tick)] else rest
      case _ => rest
  }

  /** The ticks of `log` that went to `b`. */
  function Of<B(==), P>(log: seq<(B, Tick<P>)>, b: B): seq<Tick<P>> {
    if log == [] then []
    else Of(log[..|log| - 1], b) + if log[|log| - 1].0 == b then [log[|log| - 1].1] else []
  }

  /** What the consumer of `b` has popped during a run. */
  function Drained<B(==), P>(u: Setup<B>, cs: seq<Command<B, P>>, b: B): seq<Tick<P>> {
    if cs == [] then []
    else
      var r, rest := Run(u, cs[..|cs| - 1]), Drained(u, cs[..|cs| - 1], b);
      match cs[|cs| - 1]
      case Drain(source) =>
        if source == b && Queue(r, b) != [] then rest + [Queue(r, b)[0]] else rest
      case _ => rest
  }

  function RouteCalls<B, P>(cs: seq<Command<B, P>>): nat {
    if cs == [] then 0
    else RouteCalls(cs[..|cs| - 1]) + if cs[|cs| - 1].Route? then 1 else 0
  }

  /** Over every run each completed route call is counted exactly once, the registry
      respects its limit, and `routed` counts the accepted ticks. */
  lemma {:induction false} CountersAddUp<B, P>(u: Setup<B>, cs: seq<Command<B, P>>)
    ensures var r := Run(u, cs);
            && r.routed + r.dropped + r.unknown == RouteCalls(cs)
            && |r.registry| <= u.max
            && r.routed == |Accepted(u, cs)|
  {
    if cs == [] {
    } else {
      var r := Run(u, cs[..|cs| - 1]);
      CountersAddUp(u, cs[..|cs| - 1]);
      match cs[|cs| - 1]
      case Register(id, buffer) =>
        if id in r.registry && buffer.Some? {
          assert r.registry[id := buffer.value].Keys == r.registry.Keys;
        } else if buffer.Some? {
          assert r.registry[id := buffer.value].Keys == r.registry.Keys + {id};
        }
      case Unregister(id) =>
        var rest := r.registry - {id};
        assert rest.Keys <= r.registry.Keys;
        Sets.FewerElements(rest.Keys, r.registry.Keys);
      case _ =>
    }
  }

  /** What the last command adds to the accepted ticks of `b`. */
  lemma AcceptedStep<B, P>(u: Setup<B>, cs: seq<Command<B, P>>, b: B)
    requires cs != []
    ensures var before, c := cs[..|cs| - 1], cs[|cs| - 1];
            var r := Run(u, before);
            Of(Accepted(u, cs), b) == Of(Accepted(u, before), b) +
            if c.Route? && Accepts(u, r, c.tick) && r.registry[c.tick.symbolId] == b then [c.tick] else []
  {
    var before, c := cs[..|cs| - 1], cs[|cs| - 1];
    var r, log := Run(u, before), Accepted(u, before);
    if c.Route? && Accepts(u, r, c.tick) {
      var log' := log + [(r.registry[c.tick.symbolId], c.tick)];
      assert Accepted(u, cs) == log';
      assert log'[..|log'| - 1] == log;
    }
  }

  /** How one command changes the queue of `b`. */
  lemma QueueStep<B, P>(u: Setup<B>, r: Router<B, P>, c: Command<B, P>, b: B)
    ensures var q, q' := Queue(r, b), Queue(Step(u, r, c), b);
            if c.Route? && Accepts(u, r, c.tick) && r.registry[c.tick.symbolId] == b then q' == q + [c.tick]
            else if c == Drain(b) && q != [] then q' == q[1..]
            else q' == q
  {
  }

  /** Over every run, what the consumer of a buffer popped followed by what the buffer
      still holds is exactly the accepted ticks routed to it, in order; and no buffer
      holds more ticks than fit. */
  lemma {:induction false} EachBufferItsOwn<B, P>(u: Setup<B>, cs: seq<Command<B, P>>, b: B)
    ensures var r := Run(u, cs);
            && Drained(u, cs, b) + Queue(r, b) == Of(Accepted(u, cs), b)
            && |Queue(r, b)| <= u.cap
  {
    if cs == [] {
    } else {
      var before, c := cs[..|cs| - 1], cs[|cs| - 1];
      EachBufferItsOwn(u, before, b);
      QueueStep(u, Run(u, before), c, b);
      AcceptedStep(u, cs, b);
      var done, q := Drained(u, before, b), Queue(Run(u, before), b);
      if c == Drain(b) && q != [] {
        assert (done + [q[0]]) + q[1..] == done + q;
      } else if c.Route? {
        assert done + (q + [c.tick]) == (done + q) + [c.tick];
      }
    }
  }

  /** One command adds an entry only by registering it. */
  lemma EntryOrigin<B, P>(u: Setup<B>, r: Router<B, P>, c: Command<B, P>, id: nat)
    requires id in Step(u, r, c).registry
    ensures var b := Step(u, r, c).registry[id];
            (id in r.registry && r.registry[id] == b) || c == Register(id, Some(b))
  {
  }

  /** A registry entry comes from a register call for that id and buffer. */
  lemma {:induction false} RegisteredByCall<B, P>(u: Setup<B>, cs: seq<Command<B, P>>, id: nat)
    requires id in Run(u, cs).registry
    ensures exists j | 0 <= j < |cs| :: cs[j] == Register(id, Some(Run(u, cs).registry[id]))
  {
    if cs == [] {
    } else {
      var before, last := cs[..|cs| - 1], |cs| - 1;
      var r := Run(u, before);
      EntryOrigin(u, r, cs[last], id);
      var entry := Register(id, Some(Run(u, cs).registry[id]));
      if cs[last] != entry {
        RegisteredByCall(u, before, id);
        var j :| 0 <= j < |before| && before[j] == entry;
        assert cs[j] == entry;
      }
    }
  }

  /** No buffer ever receives a tick of a symbol that was not registered with it. */
  lemma {:induction false} NoForeignTick<B, P>(u: Setup<B>, cs: seq<Command<B, P>>, i: nat)
    requires i < |Accepted(u, cs)|
    ensures var (b, tick) := Accepted(u, cs)[i];
            exists j, l | 0 <= j < l < |cs| :: cs[j] == Register(tick.symbolId, Some(b)) && cs[l] == Route(tick)
  {
    var before, last := cs[..|cs| - 1], |cs| - 1;
    if i < |Accepted(u, before)| {
      NoForeignTick(u, before, i);
      var (b, tick) := Accepted(u, before)[i];
      var j, l :| 0 <= j < l < |before| && before[j] == Register(tick.symbolId, Some(b)) && before[l] == Route(tick);
      assert cs[j] == before[j] && cs[l] == before[l];
    } else {
      var r, tick := Run(u, before), cs[last].tick;
      RegisteredByCall(u, before, tick.symbolId);
      var j :| 0 <= j < |before| && before[j] == Register(tick.symbolId, Some(r.registry[tick.symbolId]));
      assert cs[j] == before[j] && cs[last] == Route(tick);
    }
  }

  /** Does a command change the entry of `id`: a register call that finds room, or an
      unregister call? */
  predicate Affects<B, P>(u: Setup<B>, r: Router<B, P>, c: Command<B, P>, id: nat) {
    match c
    case Register(i, buffer) => i == id && buffer.Some? && |r.registry| < u.max
    case Unregister(i) => i == id
    case _ => false
  }

  /** Command `j` is the last of a run to change the entry of `id`, and sets it to `b`. */
  ghost predicate LastEntry<B, P>(u: Setup<B>, cs: seq<Command<B, P>>, id: nat, b: B, j: nat) {
    && j < |cs|
    && cs[j] == Register(id, Some(b)) && Affects(u, Run(u, cs[..j]), cs[j], id)
    && forall m | j < m < |cs| :: !Affects(u, Run(u, cs[..m]), cs[m], id)
  }

  /** How one command changes the entry of `id`. */
  lemma EntryStep<B, P>(u: Setup<B>, r: Router<B, P>, c: Command<B, P>, id: nat, b: B)
    ensures var r' := Step(u, r, c);
            id in r'.registry && r'.registry[id] == b <==>
            if Affects(u, r, c, id) then c == Register(id, Some(b))
            else id in r.registry && r.registry[id] == b
  {}

  /** Over every run a symbol is registered with a buffer exactly when the last command
      that changed its entry registered it with that buffer. */
  lemma {:induction false} RegistryExact<B, P>(u: Setup<B>, cs: seq<Command<B, P>>, id: nat, b: B)
    ensures id in Run(u, cs).registry && Run(u, cs).registry[id] == b <==> exists j :: LastEntry(u, cs, id, b, j)
  {
    if cs == [] {
    } else {
      var n := |cs| - 1;
      var before, c := cs[..n], cs[n];
      RegistryExact(u, before, id, b);
      EntryStep(u, Run(u, before), c, id, b);
      assert Run(u, cs) == Step(u, Run(u, before), c);
      hide Run, Step, Affects;
      assert cs[..n] == before;
      if Affects(u, Run(u, before), c, id) {
        assert c == Register(id, Some(b)) ==> LastEntry(u, cs, id, b, n);
        if j :| LastEntry(u, cs, id, b, j) {
          LastEntryPrefix(u, cs, id, b, j);
        }
      } else {
        forall j ensures LastEntry(u, cs, id, b, j) <==> LastEntry(u, before, id, b, j) {
          LastEntryPrefix(u, cs, id, b, j);
        }
      }
    }
  }

  lemma LastEntryPrefix<B, P>(u: Setup<B>, cs: seq<Command<B, P>>, id: nat, b: B, j: nat)
    requires cs != []
    ensures var n, before := |cs| - 1, cs[..|cs| - 1];
            if j < n then LastEntry(u, cs, id, b, j) <==>
                            LastEntry(u, before, id, b, j) && !Affects(u, Run(u, before), cs[n], id)
            else LastEntry(u, cs, id, b, j) <==>
                   j == n && cs[n] == Register(id, Some(b)) && Affects(u, Run(u, before), cs[n], id)
  {
    hide Run, Affects;
    var n, before := |cs| - 1, cs[..|cs| - 1];
    forall m: nat | m < n ensures before[..m] == cs[..m] && before[m] == cs[m] {
    }
    assert cs[..n] == before;
  }
  /** Command `j` of a run is the registration of the symbol that stands at its end. */
  ghost predicate Stands<B, P>(u: Setup<B>, cs: seq<Command<B, P>>, id: nat, j: nat) {
    j < |cs| && cs[j].Register? && cs[j].buffer.Some? && LastEntry(u, cs, id, cs[j].buffer.value, j)
  }

  lemma StandsExact<B, P>(u: Setup<B>, cs: seq<Command<B, P>>, id: nat)
    ensures id in Run(u, cs).registry <==> exists j: nat :: Stands(u, cs, id, j)
    ensures forall j: nat | Stands(u, cs, id, j) ::
              id in Run(u, cs).registry && Run(u, cs).registry[id] == cs[j].buffer.value
  {
    hide Run, LastEntry;
    if id in Run(u, cs).registry {
      var b := Run(u, cs).registry[id];
      RegistryExact(u, cs, id, b);
      var j :| LastEntry(u, cs, id, b, j);
      EntryIsCall(u, cs, id, b, j);
      assert Stands(u, cs, id, j);
    }
    forall j: nat | Stands(u, cs, id, j)
      ensures id in Run(u, cs).registry && Run(u, cs).registry[id] == cs[j].buffer.value
    {
      RegistryExact(u, cs, id, cs[j].buffer.value);
    }
  }

  lemma EntryIsCall<B, P>(u: Setup<B>, cs: seq<Command<B, P>>, id: nat, b: B, j: nat)
    requires LastEntry(u, cs, id, b, j)
    ensures j < |cs| && cs[j] == Register(id, Some(b))
  {}

  /** Command `l` of a run is a route call for a symbol that is not registered then. */
  ghost predicate UnknownAt<B, P>(u: Setup<B>, cs: seq<Command<B, P>>, l: nat) {
    && l < |cs| && cs[l].Route?
    && forall j: nat :: !Stands(u, cs[..l], cs[l].tick.symbolId, j)
  }

  /** Command `l` of a run is a route call for a symbol that is registered with a buffer which
      is full then. */
  ghost predicate FullAt<B, P>(u: Setup<B>, cs: seq<Command<B, P>>, l: nat) {
    && l < |cs| && cs[l].Route?
    && exists j: nat :: Stands(u, cs[..l], cs[l].tick.symbolId, j) && |Queue(Run(u, cs[..l]), cs[j].buffer.value)| == u.cap
  }

  ghost function UnknownCalls<B, P>(u: Setup<B>, cs: seq<Command<B, P>>): set<nat> {
    set l: nat | l < |cs| && UnknownAt(u, cs, l)
  }

  ghost function FullCalls<B, P>(u: Setup<B>, cs: seq<Command<B, P>>): set<nat> {
    set l: nat | l < |cs| && FullAt(u, cs, l)
  }

  /** What a moment of a run was does not depend on the commands that follow. */
  lemma MomentsOfPrefix<B, P>(u: Setup<B>, cs: seq<Command<B, P>>, l: nat)
    requires cs != [] && l < |cs| - 1
    ensures UnknownAt(u, cs, l) <==> UnknownAt(u, cs[..|cs| - 1], l)
    ensures FullAt(u, cs, l) <==> FullAt(u, cs[..|cs| - 1], l)
  {
    var before := cs[..|cs| - 1];
    assert before[..l] == cs[..l];
    hide Stands, Run, Queue;
    assert before[l] == cs[l] && forall j: nat | j < l :: before[j] == cs[j];
  }

  /** What the last command of a run was, from the registry that it finds. */
  lemma LastMoment<B, P>(u: Setup<B>, cs: seq<Command<B, P>>)
    requires cs != []
    ensures var n, r := |cs| - 1, Run(u, cs[..|cs| - 1]);
            && (UnknownAt(u, cs, n) <==> cs[n].Route? && cs[n].tick.symbolId !in r.registry)
            && (FullAt(u, cs, n) <==>
                  cs[n].Route? && cs[n].tick.symbolId in r.registry &&
                  |Queue(r, r.registry[cs[n].tick.symbolId])| == u.cap)
  {
    var n, before := |cs| - 1, cs[..|cs| - 1];
    if cs[n].Route? {
      StandsExact(u, before, cs[n].tick.symbolId);
      hide Stands, Run;
      assert forall j: nat | j < n :: before[j] == cs[j];
    }
  }

  lemma OneMoreIndex(a: set<nat>, b: set<nat>, n: nat, more: bool)
    requires n !in a && forall l :: l in b <==> l in a || (more && l == n)
    ensures |b| == |a| + if more then 1 else 0
  {
    assert b == a + if more then {n} else {};
  }

  lemma Listed<B, P>(u: Setup<B>, cs: seq<Command<B, P>>, l: nat)
    ensures l in UnknownCalls(u, cs) <==> l < |cs| && UnknownAt(u, cs, l)
    ensures l in FullCalls(u, cs) <==> l < |cs| && FullAt(u, cs, l)
  {}

  lemma UnknownCallsStep<B, P>(u: Setup<B>, cs: seq<Command<B, P>>)
    requires cs != []
    ensures var n, before := |cs| - 1, cs[..|cs| - 1];
            |UnknownCalls(u, cs)| == |UnknownCalls(u, before)| + if UnknownAt(u, cs, n) then 1 else 0
  {
    var n, before := |cs| - 1, cs[..|cs| - 1];
    hide *;
    forall l: nat ensures l in UnknownCalls(u, cs) <==> l in UnknownCalls(u, before) || (UnknownAt(u, cs, n) && l == n) {
      Listed(u, cs, l);
      Listed(u, before, l);
      if l < n {
        MomentsOfPrefix(u, cs, l);
      }
    }
    Listed(u, before, n);
    OneMoreIndex(UnknownCalls(u, before), UnknownCalls(u, cs), n, UnknownAt(u, cs, n));
  }

  lemma FullCallsStep<B, P>(u: Setup<B>, cs: seq<Command<B, P>>)
    requires cs != []
    ensures var n, before := |cs| - 1, cs[..|cs| - 1];
            |FullCalls(u, cs)| == |FullCalls(u, before)| + if FullAt(u, cs, n) then 1 else 0
  {
    var n, before := |cs| - 1, cs[..|cs| - 1];
    hide *;
    forall l: nat ensures l in FullCalls(u, cs) <==> l in FullCalls(u, before) || (FullAt(u, cs, n) && l == n) {
      Listed(u, cs, l);
      Listed(u, before, l);
      if l < n {
        MomentsOfPrefix(u, cs, l);
      }
    }
    Listed(u, before, n);
    OneMoreIndex(FullCalls(u, before), FullCalls(u, cs), n, FullAt(u, cs, n));
  }

  /** One route call counts as unknown exactly without an entry, and as dropped exactly with
      a full buffer. */
  lemma CountersStep<B, P>(u: Setup<B>, r: Router<B, P>, c: Command<B, P>)
    requires forall b :: |Queue(r, b)| <= u.cap
    ensures var r' := Step(u, r, c);
            && r'.unknown == r.unknown + (if c.Route? && c.tick.symbolId !in r.registry then 1 else 0)
            && r'.dropped == r.dropped +
               (if c.Route? && c.tick.symbolId in r.registry && |Queue(r, r.registry[c.tick.symbolId])| == u.cap
                then 1 else 0)
  {}

  /** Over every run `unknown` is the number of route calls for a symbol that no command has
      left registered, and `dropped` the number of route calls for a registered symbol whose
      buffer was full. */
  lemma {:induction false} LossesExact<B, P>(u: Setup<B>, cs: seq<Command<B, P>>)
    ensures Run(u, cs).unknown == |UnknownCalls(u, cs)|
    ensures Run(u, cs).dropped == |FullCalls(u, cs)|
  {
    if cs == [] {
      assert UnknownCalls(u, cs) == {} && FullCalls(u, cs) == {};
    } else {
      var before, c := cs[..|cs| - 1], cs[|cs| - 1];
      var r := Run(u, before);
      assert Run(u, cs) == Step(u, r, c);
      LossesExact(u, before);
      forall b ensures |Queue(r, b)| <= u.cap {
        EachBufferItsOwn(u, before, b);
      }
      hide *;
      CountersStep(u, r, c);
      LastMoment(u, cs);
      UnknownCallsStep(u, cs);
      FullCallsStep(u, cs);
    }
  }
}
