/**
 The DalAdapter of the TouchDevelop glue layer: one object that hides which
 of the two callback shapes the generated code supplied, behind a single
 `run` entry point that the message bus can call with an event.
 */
module Adapter {

  /** The conventional optional value; `None` stands for a NULL handler. */
  datatype Option<T> = None | Some(value: T)

  /** The identity of a closure emitted by the TouchDevelop compiler. What the
      closure does is application code and is not modelled; only which closure
      was invoked, and with what, is. */
  type FnId = nat

  /** The event record the message bus delivers: the component that raised it
      and its value. The value is the event code as well: the bus matches a
      listener on (source, value), so the `event` a handler is registered
      under is the value it is called with. */
  datatype MicroBitEvent = MicroBitEvent(source: int, value: int)

  /** The two callback shapes the compiler generates: `void()` and `void(int)`
      (each with or without captured variables). */
  datatype Handler = Nullary(fn: FnId) | Unary(fn: FnId)

  /** The observable effect of one dispatch: the closure that ran and the
      arguments it received. */
  datatype Invocation = Invocation(fn: FnId, args: seq<int>)

  /** An adapter holds exactly one callback, fixed at construction (the const
      `impl_` of the C++ class). */
  datatype DalAdapter = DalAdapter(impl: Handler)
  {
    /** The single dispatch point: a `void()` callback is called with no
        argument, a `void(int)` callback with the event's value field. */
    function Run(e: MicroBitEvent): (call: Invocation)
      ensures call.fn == impl.fn
      ensures impl.Nullary? <==> call.args == []
      ensures impl.Unary? ==> call.args == [e.value]
    {
      match impl
      case Nullary(f) => Invocation(f, [])
      case Unary(g) => Invocation(g, [e.value])
    }
  }

  /** A dispatch looks at nothing of the event but its value field: which
      component raised it never reaches the callback. */
  lemma RunReadsOnlyValue(a: DalAdapter, e1: MicroBitEvent, e2: MicroBitEvent)
    requires e1.value == e2.value
    ensures a.Run(e1) == a.Run(e2)
  {
  }

  /** A `void()` callback runs the same way whatever event arrives. */
  lemma NullaryIgnoresEvent(f: FnId, e1: MicroBitEvent, e2: MicroBitEvent)
    ensures DalAdapter(Nullary(f)).Run(e1) == DalAdapter(Nullary(f)).Run(e2)
  {
  }

  /** Two adapters that dispatch alike on every event hold the same callback:
      the shape and the closure can be read back from the dispatches. */
  lemma RunDeterminesHandler(a: DalAdapter, b: DalAdapter)
    requires forall e: MicroBitEvent :: a.Run(e) == b.Run(e)
    ensures a == b
  {
    var e := MicroBitEvent(0, 0);
    assert a.Run(e) == b.Run(e);
  }
}
