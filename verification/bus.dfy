/**
 The part of the DAL message bus the registry relies on: `listen` attaches an
 adapter to a (component, event) key, `ignore` detaches exactly that adapter
 from that key. The bus is an external collaborator; it is modelled only by
 the DalAdapter registrations it holds.
 */
module Bus {

  /** A (component id, event code) pair, the key of both the bus and the
      registry. */
  type Key = (int, int)

  /** The address of a heap-allocated DalAdapter. */
  type Addr = nat

  /** A bus registration: the key and the adapter the bus calls back. */
  type Listener = (Key, Addr)

  /** The observable steps of the program, in the order they happen: the two
      bus calls, which the bus logs itself, and the allocation of an adapter,
      the store of its pointer in a map slot and its release, which their
      owner logs. */
  datatype Effect =
    | IgnoreCall(key: Key, adapter: Addr)
    | New(adapter: Addr)
    | ListenCall(key: Key, adapter: Addr)
    | Store(key: Key, adapter: Addr)
    | Release(adapter: Addr)

  /** `listen(id, event, adapter, &DalAdapter::run)`: the bus holds one more
      registration of this adapter under this key. */
  function Listened(b: multiset<Listener>, k: Key, a: Addr): multiset<Listener>
  {
    b + multiset{(k, a)}
  }

  /** `ignore(id, event, adapter, &DalAdapter::run)`: the bus holds one
      registration fewer of this adapter under this key. */
  function Ignored(b: multiset<Listener>, k: Key, a: Addr): multiset<Listener>
  {
    b - multiset{(k, a)}
  }

  /** `listen` adds exactly the one registration it names and `ignore` takes
      away exactly the one it names (nothing when there is none); every other
      registration stays as it was. */
  lemma ListenIgnoreEffects(b: multiset<Listener>, k: Key, a: Addr, l: Listener)
    ensures Listened(b, k, a)[l] == b[l] + (if l == (k, a) then 1 else 0)
    ensures Ignored(b, k, a)[l] == if l == (k, a) && b[l] > 0 then b[l] - 1 else b[l]
  {
  }

  /** `ignore` undoes `listen`. */
  lemma IgnoreUndoesListen(b: multiset<Listener>, k: Key, a: Addr)
    ensures Ignored(Listened(b, k, a), k, a) == b
  {
    var after := Ignored(Listened(b, k, a), k, a);
    assert forall l :: after[l] == b[l];
  }

  /** The message bus object (`uBit.MessageBus`), as far as DalAdapters go.
      `log` is the program's step log: every `listen` and `ignore` appends
      itself to it, so the order of the bus calls is part of the state. */
  class MessageBus {
    ghost var listeners: multiset<Listener>
    ghost var log: seq<Effect>

    constructor ()
      ensures listeners == multiset{} && log == []
    {
      listeners := multiset{};
      log := [];
    }

    method Listen(id: int, event: int, adapter: Addr)
      modifies this
      ensures listeners == Listened(old(listeners), (id, event), adapter)
      ensures log == old(log) + [ListenCall((id, event), adapter)]
    {
      listeners := Listened(listeners, (id, event), adapter);
      log := log + [ListenCall((id, event), adapter)];
    }

    method Ignore(id: int, event: int, adapter: Addr)
      modifies this
      ensures listeners == Ignored(old(listeners), (id, event), adapter)
      ensures log == old(log) + [IgnoreCall((id, event), adapter)]
    {
      listeners := Ignored(listeners, (id, event), adapter);
      log := log + [IgnoreCall((id, event), adapter)];
    }
  }
}
