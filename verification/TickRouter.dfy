/** The tick router as the object the program updates in place, over the ring objects
    of the symbol workers. */
module TickRouter {
  import opened Wrappers
  import Bits
  import opened SpscRing
  import opened RouterProtocol

  class TickRouter<P(0)> {
    const u: Setup<SpscRing<Tick<P>>>
    const k: nat
    var registry: map<nat, SpscRing<Tick<P>>>
    var routed: nat
    var dropped: nat
    var unknown: nat

    ghost function Memories(): set<object> {
      set b | b in u.buffers :: b.slots
    }

    /** Every buffer is a sound ring of `Bits.Pow2(k)` slots that shares nothing, and only
        known buffers are registered. */
    ghost predicate Valid()
      reads this, u.buffers, Memories()
    {
      && u.cap == Bits.Pow2(k) - 1
      && registry.Values <= u.buffers
      && (forall b | b in u.buffers :: b.k == k && b.Valid())
      && (forall b, c | b in u.buffers && c in u.buffers && b != c :: b.slots != c.slots)
    }

    ghost function State(): (r: Router<SpscRing<Tick<P>>, P>)
      reads this, u.buffers
    {
      Router(registry, Queues(), routed, dropped, unknown)
    }

    ghost function Queues(): map<SpscRing<Tick<P>>, seq<Tick<P>>>
      reads this, u.buffers
    {
      map b | b in u.buffers :: b.Queue()
    }

    constructor (k: nat, max: nat, buffers: set<SpscRing<Tick<P>>>)
      requires forall b | b in buffers :: b.k == k && b.Valid() && b.Queue() == []
      requires forall b, c | b in buffers && c in buffers && b != c :: b.slots != c.slots
      ensures Valid() && u == Setup(max, Bits.Pow2(k) - 1, buffers)
      ensures State() == Initial(u)
    {
      u := Setup(max, Bits.Pow2(k) - 1, buffers);
      this.k := k;
      registry, routed, dropped, unknown := map[], 0, 0, 0;
    }

    method RegisterSymbol(id: nat, buffer: Option<SpscRing<Tick<P>>>) returns (ok: bool)
      requires Valid() && (buffer.Some? ==> buffer.value in u.buffers)
      modifies this`registry
      ensures Valid()
      ensures (State(), ok) == RegisterStep(u, old(State()), id, buffer)
      ensures ok <==> buffer.Some? && |old(registry)| < u.max
      ensures registry == if ok then old(registry)[id := buffer.value] else old(registry)
    {
      ghost var queues := Queues();
      if buffer.None? {
        return false;
      }
      if |registry| >= u.max {
        return false;
      }
      registry := registry[id := buffer.value];
      ok := true;
      assert Queues() == queues;
    }

    method UnregisterSymbol(id: nat)
      requires Valid()
      modifies this`registry
      ensures Valid()
      ensures State() == UnregisterStep(old(State()), id)
      ensures id !in registry && forall i | i != id ::
                (i in registry <==> i in old(registry)) && (i in registry ==> registry[i] == old(registry)[i])
    {
      if id !in registry {
        assert registry - {id} == registry;
        return;
      }
      registry := registry - {id};
    }

    /** A step on one buffer leaves the others sound and their queues as they were. */
    twostate lemma OthersUntouched(b: SpscRing<Tick<P>>)
      requires old(Valid()) && b in u.buffers && b.Valid() && unchanged(this)
      requires forall c | c in u.buffers && c != b :: unchanged(c) && unchanged(c.slots)
      ensures Valid()
      ensures Queues() == old(Queues())[b := b.Queue()]
    {
    }

    /** `try_push` on one registered buffer. */
    method PushInto(b: SpscRing<Tick<P>>, tick: Tick<P>) returns (pushed: bool)
      requires Valid() && b in u.buffers
      modifies b, b.slots
      ensures Valid()
      ensures pushed <==> |old(b.Queue())| < u.cap
      ensures pushed ==> Queues() == old(Queues())[b := old(b.Queue()) + [tick]]
      ensures !pushed ==> Queues() == old(Queues())
    {
      pushed := b.TryPush(tick);
      OthersUntouched(b);
      assert !pushed ==> Queues() == old(Queues());
    }

    /** A tick of an unregistered symbol is counted as unknown. Any other tick is appended to
        the buffer of its symbol and counted as routed, or finds it full and is counted as
        dropped. Every other buffer and the registry stay. */
    method Route(tick: Tick<P>) returns (pushed: bool)
      requires Valid()
      modifies this, u.buffers, Memories()
      ensures Valid()
      ensures registry == old(registry)
      ensures if tick.symbolId !in old(registry) then
                && !pushed && Queues() == old(Queues())
                && routed == old(routed) && dropped == old(dropped) && unknown == old(unknown) + 1
              else
                var b := old(registry[tick.symbolId]);
                && (pushed <==> |old(b.Queue())| < Bits.Pow2(k) - 1)
                && Queues() == (if pushed then old(Queues())[b := old(b.Queue()) + [tick]] else old(Queues()))
                && routed == old(routed) + (if pushed then 1 else 0)
                && dropped == old(dropped) + (if pushed then 0 else 1)
                && unknown == old(unknown)
      ensures (State(), pushed) == RouteStep(u, old(State()), tick)
    {
      hide RouteStep, Bits.Pow2;
      ghost var before := State();
      pushed := Deliver(tick);
      Delivered(u, before, State(), tick, pushed);
    }

    method Deliver(tick: Tick<P>) returns (pushed: bool)
      requires Valid()
      modifies this, u.buffers, Memories()
      ensures Valid()
      ensures registry == old(registry)
      ensures if tick.symbolId !in old(registry) then
                && !pushed && Queues() == old(Queues())
                && routed == old(routed) && dropped == old(dropped) && unknown == old(unknown) + 1
              else
                var b := old(registry[tick.symbolId]);
                && (pushed <==> |old(b.Queue())| < Bits.Pow2(k) - 1)
                && Queues() == (if pushed then old(Queues())[b := old(b.Queue()) + [tick]] else old(Queues()))
                && routed == old(routed) + (if pushed then 1 else 0)
                && dropped == old(dropped) + (if pushed then 0 else 1)
                && unknown == old(unknown)
    {
      if tick.symbolId !in registry {
        unknown := unknown + 1;
        pushed := false;
      } else {
        pushed := RouteRegistered(registry[tick.symbolId], tick);
      }
    }

    method RouteRegistered(b: SpscRing<Tick<P>>, tick: Tick<P>) returns (pushed: bool)
      requires Valid() && b in u.buffers
      modifies this`routed, this`dropped, b, b.slots
      ensures Valid()
      ensures pushed <==> |old(b.Queue())| < u.cap
      ensures Queues() == if pushed then old(Queues())[b := old(b.Queue()) + [tick]] else old(Queues())
      ensures routed == old(routed) + if pushed then 1 else 0
      ensures dropped == old(dropped) + if pushed then 0 else 1
    {
      pushed := PushInto(b, tick);
      CountRoute(pushed);
    }

    method CountRoute(pushed: bool)
      requires Valid()
      modifies this`routed, this`dropped
      ensures Valid() && Queues() == old(Queues())
      ensures routed == old(routed) + if pushed then 1 else 0
      ensures dropped == old(dropped) + if pushed then 0 else 1
    {
      ghost var queues := Queues();
      if pushed {
        routed := routed + 1;
      } else {
        dropped := dropped + 1;
      }
      assert Queues() == queues;
    }
  }

  /** The outcome of a route call as the protocol has it. */
  lemma Delivered<B, P>(u: Setup<B>, r: Router<B, P>, r': Router<B, P>, tick: Tick<P>, pushed: bool)
    requires r'.registry == r.registry
    requires if tick.symbolId !in r.registry then !pushed && r' == r.(unknown := r.unknown + 1)
             else
               var b := r.registry[tick.symbolId];
               && (pushed <==> |Queue(r, b)| < u.cap)
               && r'.queues == (if pushed then r.queues[b := Queue(r, b) + [tick]] else r.queues)
               && r'.routed == r.routed + (if pushed then 1 else 0)
               && r'.dropped == r.dropped + (if pushed then 0 else 1)
               && r'.unknown == r.unknown
    ensures (r', pushed) == RouteStep(u, r, tick)
  {}
}
