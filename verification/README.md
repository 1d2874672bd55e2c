# TouchDevelop event registration for the micro:bit

This project models the event-registration glue of the micro:bit
TouchDevelop run-time, `microbit-touchdevelop/MicroBitTouchDevelop.h`:

- `DalAdapter`: an object that wraps one TouchDevelop callback, either
  `void()` or `void(int)`. It exposes a single `run(MicroBitEvent)` entry
  point, which the DAL message bus can call. A `void(int)` callback receives
  the event's `value` field. In the model, where the bus matches exact
  (id, event) keys, that is the code it was registered under.
- `handlersMap`: the global map from a (component id, event code) pair to the
  adapter that owns the current handler for that pair.
- `registerWithDal(id, event, f)`: this gives TouchDevelop's rule of "at most
  one handler per button/event pair". A NULL handler is ignored. Otherwise
  the function:
  1. un-registers any previous adapter for the pair from the bus;
  2. allocates a new adapter for `f`;
  3. registers the new adapter with the bus;
  4. stores the new adapter in the map, which destroys the previous adapter.

The model has three modules.

- `Adapter` holds the event record, the two callback shapes and
  `DalAdapter.Run`. A closure's body is application code, so closures are
  identified by an abstract `FnId`. A dispatch is observed as an
  `Invocation`: which closure ran, and with what arguments.
- `Bus` holds the message bus as far as adapters go. This is a multiset of
  (key, adapter address) registrations, with `listen` adding one
  registration and `ignore` removing one.
- `Registry` has two parts:
  - `Register`, the specification of one registration as a function on a
    value `State`. The state holds:
    - the map;
    - the live adapters on the heap;
    - the freed addresses;
    - the bus registrations;
    - a trace of the observable steps (ignore, new, listen, store, release).
  - the class `Registry`, whose method `RegisterWithDal` performs the same
    steps on mutable fields and on a `MessageBus` object. Every step appends
    itself to the bus's step log as it changes the state. The bus calls
    append themselves; the allocation, the map store and the release are
    methods that append themselves. `RegisterWithDal` is proved to produce
    exactly `Register` of its old state, log included. Its contract
    therefore fixes the order of its steps.

The invariant `Inv` states what the source relies on:

- every live adapter is owned by exactly one map entry;
- no map entry points to freed memory;
- for every key in the map, the bus holds exactly one registration under
  it, that of the adapter the map owns for the key; for every other key, it
  holds none.

On top of `Inv` the model proves:

- every event runs at most one handler, and runs it at most once. For a
  key with a handler, the bus holds exactly one registration under it, that
  of the last handler registered for it. For any other key, it holds none;
- a previous adapter is always un-registered from the bus before it is
  released, so none of the bus's registrations refers to a released
  adapter. A dispatch already under way is outside this claim (see
  "Left out").

## Model

| member | source | states |
|---|---|---|
| Adapter.DalAdapter.Run | microbit-touchdevelop/MicroBitTouchDevelop.h:52-77 | the dispatch runs the adapter's own closure; it passes no argument exactly when the callback is `void()`, and passes the event's value field when the callback is `void(int)` |
| Adapter.RunReadsOnlyValue | microbit-touchdevelop/MicroBitTouchDevelop.h:58 | two events with the same value field dispatch identically: the raising component never reaches the callback |
| Adapter.NullaryIgnoresEvent | microbit-touchdevelop/MicroBitTouchDevelop.h:56-57 | a `void()` callback runs the same way whatever event arrives |
| Adapter.RunDeterminesHandler | microbit-touchdevelop/MicroBitTouchDevelop.h:72-77 | two adapters that dispatch alike on every event hold the same callback, so the constructor's choice of shape and closure is kept in `impl_` |
| Bus.ListenIgnoreEffects | microbit-touchdevelop/MicroBitTouchDevelop.h:92-95 | `listen` adds exactly the one named registration and `ignore` removes exactly the one named registration, or nothing when there is none; every other registration is unchanged |
| Bus.IgnoreUndoesListen | microbit-touchdevelop/MicroBitTouchDevelop.h:92-95 | `ignore` of the same key and adapter undoes `listen` |
| Bus.MessageBus.Listen | microbit-touchdevelop/MicroBitTouchDevelop.h:95 | the bus's registrations become the old ones plus the named one, and the call is appended to the step log |
| Bus.MessageBus.Ignore | microbit-touchdevelop/MicroBitTouchDevelop.h:92 | the bus's registrations become the old ones minus the named one, and the call is appended to the step log |
| Registry.Register | microbit-touchdevelop/MicroBitTouchDevelop.h:82-98 | the specification of one `registerWithDal` call, at the address `new` returns: nothing for a NULL handler; otherwise ignore the previous adapter, construct the new one, listen it, store it in the map and release the previous one. It has no contract of its own; the lemmas below state its properties |
| Registry.Deliver | microbit-touchdevelop/MicroBitTouchDevelop.h:92-95 | the DAL bus's dispatch to the listeners of an event's key, which is not code in the header: the set of calls the registered adapters make. How often each adapter runs is `Registrations`. It has no contract of its own; `DeliverUnderInv` and `DeliverAfterRegister` state what it yields |
| Registry.Initial | microbit-touchdevelop/MicroBitTouchDevelop.h:80 | the empty map with an empty bus satisfies the ownership and one-registration-per-key invariant |
| Registry.RegisterAllocatesBelow | microbit-touchdevelop/MicroBitTouchDevelop.h:94 | a bump allocator's next address is fresh (neither live nor freed), and after a registration every live or freed address is still below the next one |
| Registry.RegisterNullIsNoOp | microbit-touchdevelop/MicroBitTouchDevelop.h:87 | a NULL handler leaves the map, the heap, the bus and the trace unchanged |
| Registry.RegisterTrace | microbit-touchdevelop/MicroBitTouchDevelop.h:88-96 | the steps of a registration, in order: with a previous adapter they are ignore(previous), new, listen(new), store(new), release(previous); without one they are new, listen(new), store(new) |
| Registry.RegisterInstalls | microbit-touchdevelop/MicroBitTouchDevelop.h:94-96 | the map maps the pair to the fresh adapter, which holds the given callback; the key set grows by that pair only; every other pair keeps its handler and its bus registrations |
| Registry.RegisterFreesOnlyIgnored | microbit-touchdevelop/MicroBitTouchDevelop.h:88-96 | the only adapter released is the pair's previous one, and it is ignored on the bus before it is released; no bus registration refers to a released adapter |
| Registry.RegisterPreservesInv | microbit-touchdevelop/MicroBitTouchDevelop.h:84-96 | a registration preserves the invariant, given a fresh address when the handler is non-NULL: unique ownership of live adapters, no freed adapter in the map, and exactly one bus registration per mapped pair, namely the mapped adapter's |
| Registry.DeliverUnderInv | microbit-touchdevelop/MicroBitTouchDevelop.h:84-86 | under the invariant, an event for a pair reaches nothing if no handler is registered, and otherwise exactly the registered handler's dispatch |
| Registry.DeliverAfterRegister | microbit-touchdevelop/MicroBitTouchDevelop.h:94-95 | after registering `h` for a pair, an event for that pair produces only `h`'s call, and produces it once: the bus holds exactly one registration under the pair, that of the new adapter, which holds `h` |
| Registry.UnaryReceivesEventCode | microbit-touchdevelop/MicroBitTouchDevelop.h:58 | on the model's exact-key bus, a `void(int)` handler registered under `(id, event)` is called once, with `event`, when the bus raises that event |
| Registry.RegisterActive | microbit-touchdevelop/MicroBitTouchDevelop.h:87-96 | the handler active for a pair after a registration is the new one for that pair with a non-NULL handler, and the old one in every other case |
| Registry.RegisterAllocatesOnly | microbit-touchdevelop/MicroBitTouchDevelop.h:94 | a registration allocates only the one address `new` returns: every other fresh address stays fresh (neither live nor freed) |
| Registry.RegisterAllLastWins | microbit-touchdevelop/MicroBitTouchDevelop.h:84-98 | after any sequence of registrations, each non-NULL one at a fresh address, the invariant holds, each pair's active handler is the last non-NULL one registered for it, and an event reaches that handler only |
| Registry.ReplaceTwice | microbit-touchdevelop/MicroBitTouchDevelop.h:88-96 | registering two handlers for one pair leaves one bus registration (the second adapter's), frees the first adapter, and happens in the order new, listen, store, ignore, new, listen, store, release |
| Registry.Registry.constructor | microbit-touchdevelop/MicroBitTouchDevelop.h:80 | a registry over an empty bus starts as the empty model and satisfies the invariant |
| Registry.Registry.AllocateAdapter | microbit-touchdevelop/MicroBitTouchDevelop.h:94 | `new` returns the next address, which now holds an adapter for the handler; the map and the freed set are unchanged, and the allocation is appended to the step log |
| Registry.Registry.StoreAdapter | microbit-touchdevelop/MicroBitTouchDevelop.h:96 | the key's slot now owns the given adapter, the heap is unchanged, and the store is appended to the step log |
| Registry.Registry.ReleaseAdapter | microbit-touchdevelop/MicroBitTouchDevelop.h:96 | the old `unique_ptr`'s adapter leaves the heap and becomes freed, the map is unchanged, and the release is appended to the step log |
| Registry.Registry.RegisterWithDal | microbit-touchdevelop/MicroBitTouchDevelop.h:82-98 | the in-place registration changes the map, the heap, the bus and the step log to exactly `Register` of the old state at the address it allocates. So its steps happen in the source's order: ignore before new, new before listen, listen before the map store, and the store before the release. It keeps the invariant and advances the allocator by one for a non-NULL handler only |

## Left out

- `DalAdapter`'s constructors and `run` are declared in the header, but their bodies are not in it. The dispatch rule (the `value` field reaches a `void(int)` callback) follows the header's documentation.
- Closure bodies and captured variables are application code. A callback is identified by an abstract `FnId`, and the four C++ callback types reduce to two shapes, `void()` and `void(int)`.
- The message bus's internals are not modelled: wildcard ids, dispatch in interrupt or fiber context, and listeners other than DalAdapters. The bus is reduced to the multiset of DalAdapter registrations.
- Memory is a bump allocator that never reuses an address. Real `new` may reuse freed addresses. `unique_ptr`'s destructor is modelled as a release step in the trace.
- The rest of the header is left out, because it declares types and thin wrappers around the DAL with no logic to verify:
  - the `Collection`/`Ref` templates;
  - the `string`, `math`, `number`, `bits` and `boolean` namespaces;
  - the `micro_bit` hardware wrappers;
  - error codes;
  - the `ds1307` clock driver.
- The model treats a registration as atomic. The header takes no lock, so an event dispatched between `ignore` and the map update would depend on how the DAL schedules handlers. That case is not modelled.
- An event is modelled as (source, value), and the bus matches a listener on the exact (source, value) pair. The DAL's event timestamp and wildcard registrations are not modelled. The event record's definition is not in the header.
- Wildcard registrations, such as `micro_bit::on_event` (MicroBitTouchDevelop.h line 340), are outside the model. There a `void(int)` callback is registered without an event code and receives changing values.
- Re-entrant registration from inside a handler is not modelled. A handler's closure may call `registerWithDal` for its own (id, event). The map overwrite then deletes the adapter whose `run` is still executing that closure, together with the closure's captured variables. `Deliver` is an instantaneous set of calls and cannot express a dispatch in progress. `RegisterFreesOnlyIgnored` covers only the bus's registrations, not an adapter freed under its own `run`.
