/**
 The handler registry of the TouchDevelop glue layer (`handlersMap` and
 `registerWithDal`). It implements the TouchDevelop rule "at most one event
 handler for each button/event pair" on top of a bus that would happily keep
 several: registering a handler for a key that already has one first takes the
 old adapter off the bus, then puts the new one on, and only then lets the
 map slot release the old adapter.
 */
module Registry {
  import opened Adapter
  import opened Bus

  /** Everything a registration touches. `handlers` is `handlersMap` (a key to
      the address its `unique_ptr` owns); `adapters` is the heap storage of the
      adapters still alive, by address; `freed` the addresses whose adapter has
      been released; `listeners` the DalAdapter registrations the message bus
      holds; `trace` every effect so far, oldest first. */
  datatype State = State(
    handlers: map<Key, Addr>,
    adapters: map<Addr, DalAdapter>,
    freed: set<Addr>,
    listeners: multiset<Listener>,
    trace: seq<Effect>)

  /** The registry at start-up: an empty map and no DalAdapter on the bus. */
  function Initial(): (s: State)
    ensures Inv(s)
    ensures s.handlers == map[] && s.listeners == multiset{} && s.trace == []
  {
    State(map[], map[], {}, multiset{}, [])
  }

  /** `a` is what `new DalAdapter(f)` may return in state `s`: an address that
      was never handed out before. */
  predicate Fresh(s: State, a: Addr)
  {
    a !in s.adapters && a !in s.freed
  }

  /** Every address handed out so far is below `n`: the next `new` may
      return `n`. */
  predicate AllocatedBelow(s: State, n: Addr)
  {
    (forall x | x in s.adapters :: x < n) && (forall x | x in s.freed :: x < n)
  }

  /** A registration that allocates `n` leaves everything allocated below
      `n + 1`, and `n` was fresh. */
  lemma RegisterAllocatesBelow(s: State, id: int, event: int, f: Option<Handler>, n: Addr)
    requires Inv(s) && AllocatedBelow(s, n)
    ensures Fresh(s, n)
    ensures AllocatedBelow(Register(s, id, event, f, n), n + 1)
  {
    var t := Register(s, id, event, f, n);
    forall x | x in t.adapters
      ensures x < n + 1
    {
      if x != n {
        assert x in s.adapters;
      }
    }
    forall x | x in t.freed
      ensures x < n + 1
    {
      if x !in s.freed {
        assert x == s.handlers[(id, event)] && x in s.handlers.Values;
      }
    }
  }

  /** The registry's invariant. Each live adapter is owned by the map slot of
      exactly one key (and nothing alive is unowned); no freed address is
      alive; each key in the map has exactly one listener on the bus, namely
      its own adapter; and the bus holds no other DalAdapter listener. */
  ghost predicate Inv(s: State)
  {
    s.adapters.Keys == s.handlers.Values
    && (forall k1, k2 | k1 in s.handlers && k2 in s.handlers && s.handlers[k1] == s.handlers[k2] :: k1 == k2)
    && s.freed !! s.adapters.Keys
    && (forall k, x :: Registrations(s, k, x) == if k in s.handlers && s.handlers[k] == x then 1 else 0)
  }

  /** How many times the bus holds adapter `x` under key `k`. */
  function Registrations(s: State, k: Key, x: Addr): nat
  {
    s.listeners[(k, x)]
  }

  /** `registerWithDal(id, event, f)`, where `a` is the address that
      `new DalAdapter(f)` returns. The steps, in the order the C++ takes them:
      skip everything for a NULL handler; `ignore` the old adapter if the key
      has one; construct the new adapter; `listen` it; overwrite the map slot,
      which releases the old adapter. */
  function Register(s: State, id: int, event: int, f: Option<Handler>, a: Addr): State
  {
    if f.None? then s
    else
      var k := (id, event);
      var (listeners1, trace1) :=
        if k in s.handlers then (Ignored(s.listeners, k, s.handlers[k]), s.trace + [IgnoreCall(k, s.handlers[k])])
        else (s.listeners, s.trace);
      var adapters2 := s.adapters[a := DalAdapter(f.value)];
      var trace2 := trace1 + [New(a)];
      var listeners3 := Listened(listeners1, k, a);
      var trace4 := trace2 + [ListenCall(k, a), Store(k, a)];
      if k in s.handlers then
        var prior := s.handlers[k];
        State(s.handlers[k := a], adapters2 - {prior}, s.freed + {prior}, listeners3, trace4 + [Release(prior)])
      else
        State(s.handlers[k := a], adapters2, s.freed, listeners3, trace4)
  }

  /** The callback currently active for key `k`, if any. */
  function Active(s: State, k: Key): Option<Handler>
  {
    if k in s.handlers && s.handlers[k] in s.adapters then Some(s.adapters[s.handlers[k]].impl) else None
  }

  /** The calls the bus makes for event `e`: it runs every DalAdapter
      listening under the event's key (the bus's dispatch loop is not part of
      the header). The set says which calls are made; how many times the bus
      runs each adapter is `Registrations`. A listener whose adapter had been
      freed would be a use-after-free; it contributes nothing here, and `Inv`
      rules it out. */
  function Deliver(s: State, e: MicroBitEvent): set<Invocation>
  {
    set l | l in s.listeners && l.0 == (e.source, e.value) && l.1 in s.adapters :: s.adapters[l.1].Run(e)
  }

  // ---------------------------------------------------------------------------
  // One registration
  // ---------------------------------------------------------------------------

  /** A NULL handler is ignored: map, heap, bus listeners and trace are all
      untouched. */
  lemma RegisterNullIsNoOp(s: State, id: int, event: int, a: Addr)
    ensures Register(s, id, event, None, a) == s
  {
  }

  /** The effects of a registration, in order: an `ignore` of the old adapter
      when the key had one, the allocation of the new adapter, exactly one
      `listen` of it, the store of its pointer in the key's slot, and last the
      release of the old adapter. */
  lemma RegisterTrace(s: State, id: int, event: int, h: Handler, a: Addr)
    ensures var k := (id, event);
            Register(s, id, event, Some(h), a).trace
            == if k in s.handlers
               then s.trace + [IgnoreCall(k, s.handlers[k]), New(a), ListenCall(k, a), Store(k, a), Release(s.handlers[k])]
               else s.trace + [New(a), ListenCall(k, a), Store(k, a)]
  {
  }

  /** After registering a handler, the key's slot holds the freshly allocated
      adapter, built from that handler and distinct from every adapter that
      existed before; no key is removed, and every other key keeps its slot
      and its bus listeners. */
  lemma RegisterInstalls(s: State, id: int, event: int, h: Handler, a: Addr)
    requires Inv(s) && Fresh(s, a)
    ensures var t := Register(s, id, event, Some(h), a);
            var k := (id, event);
            && t.handlers == s.handlers[k := a]
            && t.handlers.Keys == s.handlers.Keys + {k}
            && a in t.adapters && t.adapters[a] == DalAdapter(h)
            && a !in s.handlers.Values
            && (forall k' | k' != k :: Active(t, k') == Active(s, k'))
            && (forall k', x | k' != k :: t.listeners[(k', x)] == s.listeners[(k', x)])
  {
    var t := Register(s, id, event, Some(h), a);
    var k := (id, event);
    forall k' | k' != k
      ensures Active(t, k') == Active(s, k')
    {
      if k' in s.handlers {
        assert s.handlers[k'] in s.handlers.Values;
        if k in s.handlers {
          assert s.handlers[k'] != s.handlers[k];
        }
      }
    }
  }

  /** `x` was ignored under key `k` before it was released. */
  ghost predicate IgnoredBeforeReleased(tr: seq<Effect>, k: Key, x: Addr)
  {
    exists i, j | 0 <= i < j < |tr| :: tr[i] == IgnoreCall(k, x) && tr[j] == Release(x)
  }

  /** The only adapter released is the one the key held; this very
      registration ignored it before releasing it; and no released adapter is
      left among the bus's listeners. */
  lemma RegisterFreesOnlyIgnored(s: State, id: int, event: int, h: Handler, a: Addr)
    requires Inv(s) && Fresh(s, a)
    ensures var t := Register(s, id, event, Some(h), a);
            var k := (id, event);
            && t.freed == s.freed + (if k in s.handlers then {s.handlers[k]} else {})
            && (forall x | x in t.freed - s.freed :: IgnoredBeforeReleased(t.trace[|s.trace|..], k, x))
            && (forall k', x | (k', x) in t.listeners :: x !in t.freed)
  {
    var t := Register(s, id, event, Some(h), a);
    var k := (id, event);
    RegisterTrace(s, id, event, h, a);
    if k in s.handlers {
      var tr := t.trace[|s.trace|..];
      assert tr == [IgnoreCall(k, s.handlers[k]), New(a), ListenCall(k, a), Store(k, a), Release(s.handlers[k])];
      assert tr[0] == IgnoreCall(k, s.handlers[k]) && tr[4] == Release(s.handlers[k]);
    }
    RegisterPreservesInv(s, id, event, Some(h), a);
    forall k', x | (k', x) in t.listeners
      ensures x !in t.freed
    {
      assert Registrations(t, k', x) > 0;
      assert t.handlers[k'] in t.handlers.Values;
    }
  }

  /** The "at most one handler for each button/event pair" invariant survives
      every registration. */
  lemma RegisterPreservesInv(s: State, id: int, event: int, f: Option<Handler>, a: Addr)
    requires Inv(s) && (f.Some? ==> Fresh(s, a))
    ensures Inv(Register(s, id, event, f, a))
  {
    if f.Some? {
      var t := Register(s, id, event, f, a);
      RegisterOwnsEveryAdapter(s, id, event, f.value, a);
      RegisterKeepsAdaptersAlive(s, id, event, f.value, a);
      RegisterKeepsOwnersUnique(s, id, event, f.value, a);
      RegisterKeepsListenerCounts(s, id, event, f.value, a);
      assert t.adapters.Keys == t.handlers.Values;
    }
  }

  // The four parts of `Inv` after a registration, one lemma each.

  lemma RegisterOwnsEveryAdapter(s: State, id: int, event: int, h: Handler, a: Addr)
    requires Inv(s) && Fresh(s, a)
    ensures var t := Register(s, id, event, Some(h), a);
            forall x | x in t.adapters :: x in t.handlers.Values
  {
    var t := Register(s, id, event, Some(h), a);
    var k := (id, event);
    forall x | x in t.adapters
      ensures x in t.handlers.Values
    {
      if x != a {
        assert x in s.handlers.Values;
        var k' :| k' in s.handlers && s.handlers[k'] == x;
        assert k' != k;
        assert t.handlers[k'] == x;
      } else {
        assert t.handlers[k] == a;
      }
    }
  }

  lemma RegisterKeepsAdaptersAlive(s: State, id: int, event: int, h: Handler, a: Addr)
    requires Inv(s) && Fresh(s, a)
    ensures var t := Register(s, id, event, Some(h), a);
            (forall x | x in t.handlers.Values :: x in t.adapters) && t.freed !! t.adapters.Keys
  {
    var t := Register(s, id, event, Some(h), a);
    var k := (id, event);
    forall x | x in t.handlers.Values
      ensures x in t.adapters
    {
      var k' :| k' in t.handlers && t.handlers[k'] == x;
      if k' != k {
        assert s.handlers[k'] in s.handlers.Values;
        if k in s.handlers {
          assert s.handlers[k'] != s.handlers[k];
        }
      }
    }
  }

  lemma RegisterKeepsOwnersUnique(s: State, id: int, event: int, h: Handler, a: Addr)
    requires Inv(s) && Fresh(s, a)
    ensures var t := Register(s, id, event, Some(h), a);
            forall k1, k2 | k1 in t.handlers && k2 in t.handlers && t.handlers[k1] == t.handlers[k2] :: k1 == k2
  {
    var t := Register(s, id, event, Some(h), a);
    var k := (id, event);
    forall k1, k2 | k1 in t.handlers && k2 in t.handlers && t.handlers[k1] == t.handlers[k2]
      ensures k1 == k2
    {
      if k1 != k && k2 != k {
      } else if k1 != k {
        assert false;
      } else if k2 != k {
        assert false;
      }
    }
  }

  lemma RegisterKeepsListenerCounts(s: State, id: int, event: int, h: Handler, a: Addr)
    requires Inv(s) && Fresh(s, a)
    ensures var t := Register(s, id, event, Some(h), a);
            forall k, x :: Registrations(t, k, x) == if k in t.handlers && t.handlers[k] == x then 1 else 0
  {
    var t := Register(s, id, event, Some(h), a);
    forall k, x
      ensures Registrations(t, k, x) == if k in t.handlers && t.handlers[k] == x then 1 else 0
    {
      assert Registrations(s, k, x) == s.listeners[(k, x)];
      ListenIgnoreEffects(s.listeners, (id, event), a, (k, x));
      if (id, event) in s.handlers {
        ListenIgnoreEffects(s.listeners, (id, event), s.handlers[(id, event)], (k, x));
        ListenIgnoreEffects(Ignored(s.listeners, (id, event), s.handlers[(id, event)]), (id, event), a, (k, x));
      }
    }
  }

  /** Under the invariant the bus runs exactly one adapter for a key in the
      map, the map's own, and none for any other key. */
  lemma DeliverUnderInv(s: State, e: MicroBitEvent)
    requires Inv(s)
    ensures var k := (e.source, e.value);
            Deliver(s, e) == match Active(s, k)
                             case None => {}
                             case Some(h) => {DalAdapter(h).Run(e)}
  {
    var k := (e.source, e.value);
    forall l | l in s.listeners && l.0 == k
      ensures k in s.handlers && l.1 == s.handlers[k]
    {
      assert Registrations(s, l.0, l.1) > 0;
    }
    if k in s.handlers {
      var x := s.handlers[k];
      assert x in s.handlers.Values;
      assert Registrations(s, k, x) == 1;
      assert (k, x) in s.listeners;
      assert Deliver(s, e) == {s.adapters[x].Run(e)};
    } else {
      assert Deliver(s, e) == {};
    }
  }

  /** Registering a handler makes it the one and only callback the bus runs
      for events of that key, and runs it once: the bus holds exactly one
      registration under the key, that of the new adapter, which holds the
      handler. */
  lemma DeliverAfterRegister(s: State, h: Handler, a: Addr, e: MicroBitEvent)
    requires Inv(s) && Fresh(s, a)
    ensures var t := Register(s, e.source, e.value, Some(h), a);
            && Deliver(t, e) == {DalAdapter(h).Run(e)}
            && (forall x :: Registrations(t, (e.source, e.value), x) == if x == a then 1 else 0)
            && a in t.adapters && t.adapters[a] == DalAdapter(h)
  {
    var t := Register(s, e.source, e.value, Some(h), a);
    RegisterPreservesInv(s, e.source, e.value, Some(h), a);
    RegisterInstalls(s, e.source, e.value, h, a);
    DeliverUnderInv(t, e);
  }

  /** A `void(int)` handler registered under `(id, event)` is called with
      `event`, once, when the bus raises that event. */
  lemma UnaryReceivesEventCode(s: State, id: int, event: int, g: FnId, a: Addr)
    requires Inv(s) && Fresh(s, a)
    ensures var t := Register(s, id, event, Some(Unary(g)), a);
            && Deliver(t, MicroBitEvent(id, event)) == {Invocation(g, [event])}
            && (forall x :: Registrations(t, (id, event), x) == if x == a then 1 else 0)
  {
    DeliverAfterRegister(s, Unary(g), a, MicroBitEvent(id, event));
  }

  // ---------------------------------------------------------------------------
  // Any number of registrations
  // ---------------------------------------------------------------------------

  /** One call `registerWithDal(id, event, f)`, with the address its `new`
      returns. */
  datatype Request = Request(id: int, event: int, f: Option<Handler>, addr: Addr)

  function RegisterAll(s: State, reqs: seq<Request>): State
    decreases |reqs|
  {
    if reqs == [] then s
    else RegisterAll(Register(s, reqs[0].id, reqs[0].event, reqs[0].f, reqs[0].addr), reqs[1..])
  }

  /** Every allocation along the way returns an address never used before. A
      NULL request allocates nothing, so its address is not constrained. */
  predicate FreshAll(s: State, reqs: seq<Request>)
  {
    (forall i | 0 <= i < |reqs| && reqs[i].f.Some? :: Fresh(s, reqs[i].addr))
    && (forall i, j | 0 <= i < j < |reqs| && reqs[i].f.Some? && reqs[j].f.Some? :: reqs[i].addr != reqs[j].addr)
  }

  /** The reference semantics of TouchDevelop events: the handler of a key is
      the last non-NULL one registered for it, or `current` if there is none. */
  function LastRegistered(reqs: seq<Request>, k: Key, current: Option<Handler>): Option<Handler>
    decreases |reqs|
  {
    if reqs == [] then current
    else
      var r := reqs[0];
      LastRegistered(reqs[1..], k, if (r.id, r.event) == k && r.f.Some? then r.f else current)
  }

  /** A registration allocates at most the one address it is given. */
  lemma RegisterAllocatesOnly(s: State, id: int, event: int, f: Option<Handler>, a: Addr, b: Addr)
    requires Inv(s) && Fresh(s, a) && Fresh(s, b) && b != a
    ensures Fresh(Register(s, id, event, f, a), b)
  {
  }

  /** One step of `LastRegistered`, shown of the registry. */
  lemma RegisterActive(s: State, id: int, event: int, f: Option<Handler>, a: Addr, k: Key)
    requires Inv(s) && (f.Some? ==> Fresh(s, a))
    ensures Active(Register(s, id, event, f, a), k)
            == if (id, event) == k && f.Some? then f else Active(s, k)
  {
    if f.Some? {
      RegisterInstalls(s, id, event, f.value, a);
    }
  }

  /** Whatever sequence of registrations runs, the invariant holds throughout,
      each key's callback is the last non-NULL one registered for it, and an
      event reaches that callback and nothing else. */
  lemma {:induction false} RegisterAllLastWins(s: State, reqs: seq<Request>, e: MicroBitEvent)
    requires Inv(s) && FreshAll(s, reqs)
    ensures var t := RegisterAll(s, reqs);
            var k := (e.source, e.value);
            && Inv(t)
            && Active(t, k) == LastRegistered(reqs, k, Active(s, k))
            && Deliver(t, e) == match LastRegistered(reqs, k, Active(s, k))
                                case None => {}
                                case Some(h) => {DalAdapter(h).Run(e)}
    decreases |reqs|
  {
    var k := (e.source, e.value);
    if reqs == [] {
      DeliverUnderInv(s, e);
    } else {
      var r := reqs[0];
      var s1 := Register(s, r.id, r.event, r.f, r.addr);
      RegisterPreservesInv(s, r.id, r.event, r.f, r.addr);
      RegisterActive(s, r.id, r.event, r.f, r.addr, k);
      forall i | 0 <= i < |reqs[1..]| && reqs[1..][i].f.Some?
        ensures Fresh(s1, reqs[1..][i].addr)
      {
        if r.f.Some? {
          RegisterAllocatesOnly(s, r.id, r.event, r.f, r.addr, reqs[i + 1].addr);
        }
      }
      assert FreshAll(s1, reqs[1..]);
      RegisterAllLastWins(s1, reqs[1..], e);
    }
  }

  /** The replacement scenario: two handlers registered for the same key leave
      one adapter on the bus for it, the second; the first was ignored before
      the second was listened, and released after that. */
  lemma ReplaceTwice(h1: Handler, h2: Handler)
    ensures var t := RegisterAll(Initial(), [Request(1, 2, Some(h1), 0), Request(1, 2, Some(h2), 1)]);
            && t.listeners == multiset{((1, 2), 1)}
            && t.trace == [New(0), ListenCall((1, 2), 0), Store((1, 2), 0),
                           IgnoreCall((1, 2), 0), New(1), ListenCall((1, 2), 1), Store((1, 2), 1), Release(0)]
            && t.freed == {0}
  {
    var reqs := [Request(1, 2, Some(h1), 0), Request(1, 2, Some(h2), 1)];
    var s1 := Register(Initial(), 1, 2, Some(h1), 0);
    assert reqs[1..] == [Request(1, 2, Some(h2), 1)];
    assert RegisterAll(Initial(), reqs) == RegisterAll(s1, reqs[1..]);
    var t := Register(s1, 1, 2, Some(h2), 1);
    assert [Request(1, 2, Some(h2), 1)][1..] == [];
    assert RegisterAll(s1, reqs[1..]) == t;
    assert t.listeners == multiset{((1, 2), 1)};
  }

  // ---------------------------------------------------------------------------
  // The registry as the C++ program holds it
  // ---------------------------------------------------------------------------

  /** The global `handlersMap`, the adapters it owns and the bus it registers
      them with. `nextAddr` models `new`: every address it hands out is above
      every address handed out before. `freed` is bookkeeping for the proof
      only; the step log is the bus's `log`, to which the bus appends its own
      calls and the registry its allocations, map stores and releases. */
  class Registry {
    const bus: MessageBus
    var handlersMap: map<Key, Addr>
    var adapters: map<Addr, DalAdapter>
    ghost var freed: set<Addr>
    var nextAddr: Addr

    ghost function Model(): State
      reads this, bus
    {
      State(handlersMap, adapters, freed, bus.listeners, bus.log)
    }

    ghost predicate Valid()
      reads this, bus
    {
      Inv(Model()) && AllocatedBelow(Model(), nextAddr)
    }

    constructor (bus: MessageBus)
      requires bus.listeners == multiset{} && bus.log == []
      ensures Valid() && this.bus == bus
      ensures Model() == Initial()
    {
      this.bus := bus;
      handlersMap := map[];
      adapters := map[];
      freed := {};
      nextAddr := 0;
    }

    /** `new DalAdapter(h)`: an address never handed out before, holding an
        adapter for `h`. */
    method AllocateAdapter(h: Handler) returns (a: Addr)
      modifies this, bus`log
      ensures a == old(nextAddr) && nextAddr == a + 1
      ensures adapters == old(adapters)[a := DalAdapter(h)]
      ensures handlersMap == old(handlersMap) && freed == old(freed)
      ensures bus.log == old(bus.log) + [New(a)]
    {
      a := nextAddr;
      nextAddr := nextAddr + 1;
      adapters := adapters[a := DalAdapter(h)];
      bus.log := bus.log + [New(a)];
    }

    /** `handlersMap[k] = unique_ptr<DalAdapter>(a)`, before the old pointer
        is deleted. */
    method StoreAdapter(k: Key, a: Addr)
      modifies this, bus`log
      ensures handlersMap == old(handlersMap)[k := a]
      ensures adapters == old(adapters) && freed == old(freed) && nextAddr == old(nextAddr)
      ensures bus.log == old(bus.log) + [Store(k, a)]
    {
      handlersMap := handlersMap[k := a];
      bus.log := bus.log + [Store(k, a)];
    }

    /** The old `unique_ptr` deletes the adapter it owned. */
    method ReleaseAdapter(x: Addr)
      modifies this, bus`log
      ensures adapters == old(adapters) - {x} && freed == old(freed) + {x}
      ensures handlersMap == old(handlersMap) && nextAddr == old(nextAddr)
      ensures bus.log == old(bus.log) + [Release(x)]
    {
      adapters := adapters - {x};
      freed := freed + {x};
      bus.log := bus.log + [Release(x)];
    }

    /** `registerWithDal(id, event, f)`, step by step. */
    method RegisterWithDal(id: int, event: int, f: Option<Handler>)
      requires Valid()
      modifies this, bus
      ensures Valid()
      ensures Model() == Register(old(Model()), id, event, f, old(nextAddr))
      ensures nextAddr == if f.Some? then old(nextAddr) + 1 else old(nextAddr)
    {
      if f.None? {
        return;
      }
      ghost var s := Model();
      ghost var t := Register(s, id, event, f, nextAddr);
      var k := (id, event);
      var found := k in handlersMap;
      var previous := if found then handlersMap[k] else 0;
      if found {
        bus.Ignore(id, event, previous);
      }
      var newAdapter := AllocateAdapter(f.value);
      bus.Listen(id, event, newAdapter);
      StoreAdapter(k, newAdapter);
      if found {
        ReleaseAdapter(previous);
      }
      assert Model() == t;
      RegisterAllocatesBelow(s, id, event, f, newAdapter);
      RegisterPreservesInv(s, id, event, f, newAdapter);
    }
  }
}
