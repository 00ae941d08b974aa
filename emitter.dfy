/**
 * The channel-keyed listener table of trello-dishSelect/ISEX1.3/tunnel/emitter.js.
 * `listen` appends a handler to its channel's list; `emit` calls the
 * channel's handlers in order, and a handler that emits in turn is served
 * to the end before the next handler runs. Handlers are the two receivers
 * the application registers, as tags; what a called handler emits is a
 * `Callbacks` parameter, and `Step` is the application's.
 * Each call is recorded as a `Delivery` with its nesting depth, and a fuel
 * bound caps the nesting.
 */
module Tunnel {
  import opened JsRuntime
  import opened Pulses
  import opened Signals

  const SubmitForm: string := "INT_SUBMIT_FORM"
  const ValidateFormChannel: string := "INT_VALIDATE_FORM"
  const ValidationComplete: string := "INT_VALIDATION_COMPLETE"

  /** The registered callbacks: `signal => this.receive(signal)` and `signal => this.process(signal)`. */
  datatype Handler = FormStateReceive | FormValidatorProcess

  datatype Event = Event(channel: string, signal: Signal)

  /** One handler call: which handler, on which event, at which nesting depth (0 for the outer emit). */
  datatype Delivery = Delivery(handler: Handler, event: Event, depth: nat)

  type Listeners = map<string, seq<Handler>>

  /** `listeners[intention] || []`. */
  function HandlersOf(listeners: Listeners, channel: string): (r: seq<Handler>)
    ensures channel !in listeners ==> r == []
  {
    if channel in listeners then listeners[channel] else []
  }

  /** listen: append to the channel's list, creating it when absent; duplicates are kept. */
  function Register(listeners: Listeners, channel: string, h: Handler): (r: Listeners)
    ensures HandlersOf(r, channel) == HandlersOf(listeners, channel) + [h]
    ensures forall c :: c != channel ==> HandlersOf(r, c) == HandlersOf(listeners, c)
    ensures r.Keys == listeners.Keys + {channel}
  {
    listeners[channel := HandlersOf(listeners, channel) + [h]]
  }

  /**
   * The one emit each handler makes: FormStateObject.receive emits the
   * reflected signal on INT_VALIDATE_FORM, FormValidatorDN.process the
   * validated signal on INT_VALIDATION_COMPLETE.
   */
  function Step(h: Handler, s: Signal): Event {
    match h
    case FormStateReceive => Event(ValidateFormChannel, Reflect(s))
    case FormValidatorProcess => Event(ValidationComplete, ValidateForm(s))
  }

  /**
   * What the registered callbacks do when called: the one event each emits.
   * The listener table holds the callbacks by name only; the trace functions
   * and the emitter take their behaviour as this parameter, and the
   * application's callbacks are `Step`.
   */
  type Callbacks = (Handler, Signal) -> Event

  /** emit(e.channel, e.signal) at the given depth: every handler of the channel, in order. */
  function Dispatch(listeners: Listeners, run: Callbacks, e: Event, depth: nat, fuel: nat): seq<Delivery>
    decreases fuel, 1, 0
  {
    DeliverAll(listeners, run, HandlersOf(listeners, e.channel), e, depth, fuel)
  }

  /**
   * The `forEach` over hs: each call, then everything its own emit causes
   * (when fuel is left), then the remaining handlers.
   */
  function DeliverAll(listeners: Listeners, run: Callbacks, hs: seq<Handler>, e: Event, depth: nat, fuel: nat): seq<Delivery>
    decreases fuel, 0, |hs|
  {
    if |hs| == 0 then []
    else
      [Delivery(hs[0], e, depth)] + Nested(listeners, run, hs[0], e, depth, fuel)
      + DeliverAll(listeners, run, hs[1..], e, depth, fuel)
  }

  /** The calls caused by h's own emit, when fuel is left. */
  function Nested(listeners: Listeners, run: Callbacks, h: Handler, e: Event, depth: nat, fuel: nat): seq<Delivery>
    decreases fuel, 0, 0
  {
    if fuel == 0 then [] else Dispatch(listeners, run, run(h, e.signal), depth + 1, fuel - 1)
  }

  /** A handler whose emit reaches a channel without listeners causes no further calls. */
  lemma NestedSilent(listeners: Listeners, run: Callbacks, h: Handler, e: Event, depth: nat, fuel: nat)
    requires HandlersOf(listeners, run(h, e.signal).channel) == []
    ensures Nested(listeners, run, h, e, depth, fuel) == []
  {
    if fuel > 0 {
      var next := run(h, e.signal);
      assert Dispatch(listeners, run, next, depth + 1, fuel - 1) == DeliverAll(listeners, run, [], next, depth + 1, fuel - 1);
    }
  }

  /** One step of the `forEach`. */
  lemma DeliverAllStep(listeners: Listeners, run: Callbacks, hs: seq<Handler>, i: nat, e: Event, depth: nat, fuel: nat)
    requires i < |hs|
    ensures DeliverAll(listeners, run, hs[i..], e, depth, fuel)
            == [Delivery(hs[i], e, depth)] + Nested(listeners, run, hs[i], e, depth, fuel)
               + DeliverAll(listeners, run, hs[i + 1..], e, depth, fuel)
  {
    assert hs[i..][1..] == hs[i + 1..];
  }

  /** The calls made at exactly depth d, in order. */
  function AtDepth(trace: seq<Delivery>, d: nat): seq<Delivery> {
    if |trace| == 0 then []
    else (if trace[0].depth == d then [trace[0]] else []) + AtDepth(trace[1..], d)
  }

  lemma {:induction false} AtDepthAppend(a: seq<Delivery>, b: seq<Delivery>, d: nat)
    ensures AtDepth(a + b, d) == AtDepth(a, d) + AtDepth(b, d)
  {
    if |a| == 0 {
      assert a + b == b;
      assert AtDepth(a, d) == [];
    } else {
      var head := if a[0].depth == d then [a[0]] else [];
      assert (a + b)[0] == a[0];
      assert (a + b)[1..] == a[1..] + b;
      assert AtDepth(a + b, d) == head + AtDepth(a[1..] + b, d);
      assert AtDepth(a, d) == head + AtDepth(a[1..], d);
      AtDepthAppend(a[1..], b, d);
    }
  }

  lemma {:induction false} AtDepthOfDeeper(trace: seq<Delivery>, d: nat, hi: nat)
    requires DepthsWithin(trace, d + 1, hi)
    ensures AtDepth(trace, d) == []
  {
    if |trace| > 0 {
      AtDepthOfDeeper(trace[1..], d, hi);
    }
  }

  /** Every call of the trace happens at a depth from lo to hi. */
  predicate DepthsWithin(trace: seq<Delivery>, lo: nat, hi: nat) {
    forall k :: 0 <= k < |trace| ==> lo <= trace[k].depth <= hi
  }

  lemma DepthsWithinAppend(a: seq<Delivery>, b: seq<Delivery>, lo: nat, hi: nat)
    requires DepthsWithin(a, lo, hi) && DepthsWithin(b, lo, hi)
    ensures DepthsWithin(a + b, lo, hi)
  {
    forall k | 0 <= k < |a + b| ensures lo <= (a + b)[k].depth <= hi {
      if k >= |a| {
        assert (a + b)[k] == b[k - |a|];
      }
    }
  }

  /** Every call caused by an emit at depth d happens at a depth from d to d + fuel. */
  lemma {:induction false} DeliverAllDepths(listeners: Listeners, run: Callbacks, hs: seq<Handler>, e: Event, depth: nat, fuel: nat)
    ensures DepthsWithin(DeliverAll(listeners, run, hs, e, depth, fuel), depth, depth + fuel)
    decreases fuel, |hs|
  {
    if |hs| > 0 {
      var head := [Delivery(hs[0], e, depth)];
      var nested := Nested(listeners, run, hs[0], e, depth, fuel);
      var rest := DeliverAll(listeners, run, hs[1..], e, depth, fuel);
      assert DeliverAll(listeners, run, hs, e, depth, fuel) == head + nested + rest;
      NestedDepths(listeners, run, hs[0], e, depth, fuel);
      DeliverAllDepths(listeners, run, hs[1..], e, depth, fuel);
      DepthsWithinAppend(head, nested, depth, depth + fuel);
      DepthsWithinAppend(head + nested, rest, depth, depth + fuel);
    }
  }

  /** The calls caused by one handler's emit are all strictly deeper, within the fuel bound. */
  lemma {:induction false} NestedDepths(listeners: Listeners, run: Callbacks, h: Handler, e: Event, depth: nat, fuel: nat)
    ensures DepthsWithin(Nested(listeners, run, h, e, depth, fuel), depth + 1, depth + fuel)
    decreases fuel, 0
  {
    if fuel > 0 {
      var e' := run(h, e.signal);
      assert Nested(listeners, run, h, e, depth, fuel)
             == DeliverAll(listeners, run, HandlersOf(listeners, e'.channel), e', depth + 1, fuel - 1);
      DeliverAllDepths(listeners, run, HandlersOf(listeners, e'.channel), e', depth + 1, fuel - 1);
    }
  }

  /** The calls of the handlers hs themselves: one per handler, in order, each with the same event. */
  function Announced(hs: seq<Handler>, e: Event, depth: nat): (r: seq<Delivery>)
    ensures |r| == |hs|
    ensures forall k :: 0 <= k < |hs| ==> r[k] == Delivery(hs[k], e, depth)
  {
    seq(|hs|, k requires 0 <= k < |hs| => Delivery(hs[k], e, depth))
  }

  /**
   * Leaving out the nested calls, emit calls exactly the channel's handlers,
   * in registration order, each on the emitted signal.
   */
  lemma {:induction false} DeliverAllTopLevel(listeners: Listeners, run: Callbacks, hs: seq<Handler>, e: Event, depth: nat, fuel: nat)
    ensures AtDepth(DeliverAll(listeners, run, hs, e, depth, fuel), depth) == Announced(hs, e, depth)
    decreases |hs|
  {
    if |hs| > 0 {
      var head := [Delivery(hs[0], e, depth)];
      var nested := Nested(listeners, run, hs[0], e, depth, fuel);
      var rest := DeliverAll(listeners, run, hs[1..], e, depth, fuel);
      assert DeliverAll(listeners, run, hs, e, depth, fuel) == head + nested + rest;
      NestedDepths(listeners, run, hs[0], e, depth, fuel);
      AtDepthOfDeeper(nested, depth, depth + fuel);
      DeliverAllTopLevel(listeners, run, hs[1..], e, depth, fuel);
      AtDepthAppend(head + nested, rest, depth);
      AtDepthAppend(head, nested, depth);
      assert AtDepth(head, depth) == head by {
        assert head[1..] == [];
      }
      assert head + Announced(hs[1..], e, depth) == Announced(hs, e, depth);
    }
  }

  /** The outer calls of an emit, in terms of the channel: its handlers, in order. */
  lemma DispatchTopLevel(listeners: Listeners, run: Callbacks, e: Event, fuel: nat)
    ensures AtDepth(Dispatch(listeners, run, e, 0, fuel), 0) == Announced(HandlersOf(listeners, e.channel), e, 0)
    ensures |AtDepth(Dispatch(listeners, run, e, 0, fuel), 0)| == |HandlersOf(listeners, e.channel)|
  {
    DeliverAllTopLevel(listeners, run, HandlersOf(listeners, e.channel), e, 0, fuel);
  }

  /** The nested calls of an emit stay within the fuel bound. */
  lemma DispatchDepths(listeners: Listeners, run: Callbacks, e: Event, fuel: nat)
    ensures DepthsWithin(Dispatch(listeners, run, e, 0, fuel), 0, fuel)
  {
    DeliverAllDepths(listeners, run, HandlersOf(listeners, e.channel), e, 0, fuel);
  }

  /** The module-level `listeners` table with its two functions. */
  class Emitter {
    var listeners: Listeners

    /** `const listeners = {}`. */
    constructor()
      ensures listeners == map[]
    {
      listeners := map[];
    }

    /** listen: appends h to the channel's list; the other channels are unchanged. */
    method Listen(channel: string, h: Handler)
      modifies this
      ensures listeners == Register(old(listeners), channel, h)
    {
      var handlers := if channel in listeners then listeners[channel] else [];
      listeners := listeners[channel := handlers + [h]];
    }

    /**
     * emit: the calls, outer and nested, in the order they happen; a channel
     * without listeners calls nothing. The table is not changed.
     */
    method Emit(channel: string, signal: Signal, fuel: nat, run: Callbacks) returns (trace: seq<Delivery>)
      ensures trace == Dispatch(listeners, run, Event(channel, signal), 0, fuel)
      ensures HandlersOf(listeners, channel) == [] ==> trace == []
    {
      trace := EmitAt(Event(channel, signal), 0, fuel, run);
    }

    /** emit at a nesting depth: the `forEach` over the channel's handlers. */
    method EmitAt(e: Event, depth: nat, fuel: nat, run: Callbacks) returns (trace: seq<Delivery>)
      ensures trace == Dispatch(listeners, run, e, depth, fuel)
      decreases fuel, 1
    {
      var handlers := if e.channel in listeners then listeners[e.channel] else [];
      trace := [];
      var i := 0;
      while i < |handlers|
        invariant 0 <= i <= |handlers|
        invariant trace + DeliverAll(listeners, run, handlers[i..], e, depth, fuel)
                  == DeliverAll(listeners, run, handlers, e, depth, fuel)
      {
        var part := Call(handlers[i], e, depth, fuel, run);
        DeliverAllStep(listeners, run, handlers, i, e, depth, fuel);
        trace := trace + part;
        i := i + 1;
      }
      assert handlers[i..] == [];
    }

    /** One handler call of the `forEach`, then everything its own emit causes. */
    method Call(h: Handler, e: Event, depth: nat, fuel: nat, run: Callbacks) returns (part: seq<Delivery>)
      ensures part == [Delivery(h, e, depth)] + Nested(listeners, run, h, e, depth, fuel)
      decreases fuel, 0
    {
      var nested := [];
      if fuel > 0 {
        var next := run(h, e.signal);
        nested := EmitAt(next, depth + 1, fuel - 1, run);
        assert nested == Nested(listeners, run, h, e, depth, fuel);
      }
      part := [Delivery(h, e, depth)] + nested;
    }
  }
}
