/**
 * The broadcast bus of ISEX2/intentions/intentionBus.js (and its ES-module
 * copy under Trello_Task/ISEX2): one subscriber list per bus; `emit` calls
 * every subscriber in subscription order, and a subscriber that emits in
 * turn is served to the end first. Its two subscribers are those of
 * ISEX2/index.js: Object_UserValidation, a stateful receiver that captures
 * and forwards INT_EMAIL_VALIDATED as INT_CREATE_USER, and the guard in
 * front of DN_CreateAccount. DN_ValidateEmail produces the first intention.
 */
module Intentions {
  import opened JsRuntime
  import opened Pulses
  import Transforms

  const EmailValidated: string := "INT_EMAIL_VALIDATED"
  const CreateUser: string := "INT_CREATE_USER"
  const UserValidationName: string := "Object_UserValidation"

  /** An intention as the bus carries it; its wall-clock timestamp is left out. */
  datatype Intention = Intention(id: string, signal: Signal, source: string)

  /**
   * The subscribed callbacks: `intention => Object_UserValidation.receive(intention, bus.emit)`
   * and `intention => { if (intention.id === "INT_CREATE_USER") DN_CreateAccount(intention) }`.
   */
  datatype Subscriber = UserValidationSub | CreateAccountSub

  /** One subscriber call, with its nesting depth (0 for the outer emit). */
  datatype BusDelivery = BusDelivery(subscriber: Subscriber, intention: Intention, depth: nat)

  /** capturedState without its `receivedAt` clock reading. */
  datatype Captured = Captured(signal: Signal, source: string)

  const Accepts: seq<string> := [EmailValidated]
  const Mappings: map<string, string> := map[EmailValidated := CreateUser]

  /** What Object_UserValidation.receive emits: the mapped id, the same signal, its own name as source. */
  function Forward(i: Intention): (r: Option<Intention>)
    ensures r.Some? <==> i.id in Accepts
    ensures r.Some? ==> r.value == Intention(CreateUser, i.signal, UserValidationName)
  {
    if i.id in Accepts then Some(Intention(Mappings[i.id], i.signal, UserValidationName)) else None
  }

  /** The forwarded id is not accepted, so a forwarded intention is not forwarded again. */
  lemma ForwardOnce(i: Intention)
    requires Forward(i).Some?
    ensures Forward(Forward(i).value).None?
  {
  }

  /** What a subscriber emits on one intention; the DN_CreateAccount guard only logs. */
  function Reaction(sub: Subscriber, i: Intention): (r: Option<Intention>)
    ensures sub == UserValidationSub ==> r == Forward(i)
    ensures sub == CreateAccountSub ==> r.None?
  {
    match sub
    case UserValidationSub => Forward(i)
    case CreateAccountSub => None
  }

  /** emit(i) at the given depth: every subscriber, in subscription order. */
  function Broadcast(subs: seq<Subscriber>, i: Intention, depth: nat, fuel: nat): seq<BusDelivery>
    decreases fuel, 1, 0
  {
    DeliverEach(subs, subs, i, depth, fuel)
  }

  /** The `forEach` over the subscribers still to be called. */
  function DeliverEach(subs: seq<Subscriber>, rest: seq<Subscriber>, i: Intention, depth: nat, fuel: nat): seq<BusDelivery>
    decreases fuel, 0, |rest|
  {
    if |rest| == 0 then []
    else [BusDelivery(rest[0], i, depth)] + Reemitted(subs, rest[0], i, depth, fuel)
         + DeliverEach(subs, rest[1..], i, depth, fuel)
  }

  /** The calls caused by one subscriber's emit, when fuel is left. */
  function Reemitted(subs: seq<Subscriber>, sub: Subscriber, i: Intention, depth: nat, fuel: nat): seq<BusDelivery>
    decreases fuel, 0, 0
  {
    match Reaction(sub, i)
    case None => []
    case Some(j) => if fuel == 0 then [] else Broadcast(subs, j, depth + 1, fuel - 1)
  }

  lemma DeliverEachStep(subs: seq<Subscriber>, rest: seq<Subscriber>, k: nat, i: Intention, depth: nat, fuel: nat)
    requires k < |rest|
    ensures DeliverEach(subs, rest[k..], i, depth, fuel)
            == [BusDelivery(rest[k], i, depth)] + Reemitted(subs, rest[k], i, depth, fuel)
               + DeliverEach(subs, rest[k + 1..], i, depth, fuel)
  {
    assert rest[k..][1..] == rest[k + 1..];
  }

  /** One turn of the bus's `forEach`: the trace grows by the call's part and the capture follows it. */
  lemma EmitLoopStep(subs: seq<Subscriber>, k: nat, i: Intention, depth: nat, fuel: nat,
                     trace: seq<BusDelivery>, part: seq<BusDelivery>, c0: Option<Captured>, before: Option<Captured>)
    requires k < |subs|
    requires trace + DeliverEach(subs, subs[k..], i, depth, fuel) == Broadcast(subs, i, depth, fuel)
    requires part == [BusDelivery(subs[k], i, depth)] + Reemitted(subs, subs[k], i, depth, fuel)
    requires before == CaptureAfter(c0, trace)
    ensures (trace + part) + DeliverEach(subs, subs[k + 1..], i, depth, fuel) == Broadcast(subs, i, depth, fuel)
    ensures CaptureAfter(before, part) == CaptureAfter(c0, trace + part)
  {
    DeliverEachStep(subs, subs, k, i, depth, fuel);
    CaptureAfterAppend(c0, trace, part);
  }

  /** The calls of a trace made at exactly depth d, in order. */
  function AtDepth(trace: seq<BusDelivery>, d: nat): seq<BusDelivery> {
    if |trace| == 0 then []
    else (if trace[0].depth == d then [trace[0]] else []) + AtDepth(trace[1..], d)
  }

  lemma {:induction false} AtDepthAppend(a: seq<BusDelivery>, b: seq<BusDelivery>, d: nat)
    ensures AtDepth(a + b, d) == AtDepth(a, d) + AtDepth(b, d)
  {
    if |a| == 0 {
      assert a + b == b;
      assert AtDepth(a, d) == [];
    } else {
      var head := if a[0].depth == d then [a[0]] else [];
      assert (a + b)[0] == a[0];
      assert (a + b)[1..] == a[1..] + b;
      assert AtDepth(a + b, d) == head + AtDepth(a[1..] + b, d);
      assert AtDepth(a, d) == head + AtDepth(a[1..], d);
      AtDepthAppend(a[1..], b, d);
    }
  }

  /** Every call of the trace is deeper than d. */
  predicate Deeper(trace: seq<BusDelivery>, d: nat) {
    forall k :: 0 <= k < |trace| ==> trace[k].depth > d
  }

  lemma {:induction false} AtDepthOfDeeper(trace: seq<BusDelivery>, d: nat)
    requires Deeper(trace, d)
    ensures AtDepth(trace, d) == []
  {
    if |trace| > 0 {
      AtDepthOfDeeper(trace[1..], d);
    }
  }

  lemma DeeperAppend(a: seq<BusDelivery>, b: seq<BusDelivery>, d: nat)
    requires Deeper(a, d) && Deeper(b, d)
    ensures Deeper(a + b, d)
  {
    forall k | 0 <= k < |a + b| ensures (a + b)[k].depth > d {
      if k >= |a| {
        assert (a + b)[k] == b[k - |a|];
      }
    }
  }

  /** Every call of a broadcast at depth d happens at depth d or deeper. */
  lemma {:induction false} DeliverEachDepths(subs: seq<Subscriber>, rest: seq<Subscriber>, i: Intention, depth: nat, fuel: nat)
    ensures depth > 0 ==> Deeper(DeliverEach(subs, rest, i, depth, fuel), depth - 1)
    decreases fuel, |rest|
  {
    if |rest| > 0 && depth > 0 {
      ReemittedDepths(subs, rest[0], i, depth, fuel);
      DeliverEachDepths(subs, rest[1..], i, depth, fuel);
      var head := [BusDelivery(rest[0], i, depth)];
      var nested := Reemitted(subs, rest[0], i, depth, fuel);
      DeeperAppend(head, nested, depth - 1);
      DeeperAppend(head + nested, DeliverEach(subs, rest[1..], i, depth, fuel), depth - 1);
    }
  }

  /** The calls a subscriber's emit causes are all deeper than that subscriber's call. */
  lemma {:induction false} ReemittedDepths(subs: seq<Subscriber>, sub: Subscriber, i: Intention, depth: nat, fuel: nat)
    ensures Deeper(Reemitted(subs, sub, i, depth, fuel), depth)
    decreases fuel, 0
  {
    var r := Reaction(sub, i);
    if r.Some? && fuel > 0 {
      DeliverEachDepths(subs, subs, r.value, depth + 1, fuel - 1);
    }
  }

  /** The calls of the subscribers rest themselves: one each, in order, with the same intention. */
  function Announced(rest: seq<Subscriber>, i: Intention, depth: nat): (r: seq<BusDelivery>)
    ensures |r| == |rest|
    ensures forall k :: 0 <= k < |rest| ==> r[k] == BusDelivery(rest[k], i, depth)
  {
    seq(|rest|, k requires 0 <= k < |rest| => BusDelivery(rest[k], i, depth))
  }

  /** Leaving out nested calls, emit calls every subscriber once, in subscription order, with no filtering. */
  lemma {:induction false} DeliverEachTopLevel(subs: seq<Subscriber>, rest: seq<Subscriber>, i: Intention, depth: nat, fuel: nat)
    ensures AtDepth(DeliverEach(subs, rest, i, depth, fuel), depth) == Announced(rest, i, depth)
    decreases |rest|
  {
    if |rest| > 0 {
      var head := [BusDelivery(rest[0], i, depth)];
      var nested := Reemitted(subs, rest[0], i, depth, fuel);
      var tail := DeliverEach(subs, rest[1..], i, depth, fuel);
      ReemittedDepths(subs, rest[0], i, depth, fuel);
      AtDepthOfDeeper(nested, depth);
      DeliverEachTopLevel(subs, rest[1..], i, depth, fuel);
      AtDepthAppend(head + nested, tail, depth);
      AtDepthAppend(head, nested, depth);
      assert AtDepth(head, depth) == head by {
        assert head[1..] == [];
      }
      assert head + Announced(rest[1..], i, depth) == Announced(rest, i, depth);
    }
  }

  /** The outer calls of an emit are the subscribers, in order, whatever the intention's id. */
  lemma BroadcastTopLevel(subs: seq<Subscriber>, i: Intention, fuel: nat)
    ensures AtDepth(Broadcast(subs, i, 0, fuel), 0) == Announced(subs, i, 0)
  {
    DeliverEachTopLevel(subs, subs, i, 0, fuel);
  }

  /** How one call changes Object_UserValidation's capturedState. */
  function Capture(c: Option<Captured>, d: BusDelivery): (r: Option<Captured>)
    ensures d.subscriber == UserValidationSub && d.intention.id in Accepts
            ==> r == Some(Captured(d.intention.signal, d.intention.source))
    ensures !(d.subscriber == UserValidationSub && d.intention.id in Accepts) ==> r == c
  {
    if d.subscriber == UserValidationSub && d.intention.id in Accepts
    then Some(Captured(d.intention.signal, d.intention.source))
    else c
  }

  /** capturedState after the calls of a trace, in order. */
  function CaptureAfter(c: Option<Captured>, trace: seq<BusDelivery>): Option<Captured>
    decreases |trace|
  {
    if |trace| == 0 then c else CaptureAfter(Capture(c, trace[0]), trace[1..])
  }

  lemma {:induction false} CaptureAfterAppend(c: Option<Captured>, a: seq<BusDelivery>, b: seq<BusDelivery>)
    ensures CaptureAfter(c, a + b) == CaptureAfter(CaptureAfter(c, a), b)
    decreases |a|
  {
    if |a| == 0 {
      assert a + b == b;
    } else {
      assert (a + b)[1..] == a[1..] + b;
      CaptureAfterAppend(Capture(c, a[0]), a[1..], b);
    }
  }

  /** Calls to DN_CreateAccount: CreateAccountSub called on an INT_CREATE_USER intention. */
  function AccountCreations(trace: seq<BusDelivery>): (n: nat)
    ensures n <= |trace|
  {
    if |trace| == 0 then 0
    else (if trace[0].subscriber == CreateAccountSub && trace[0].intention.id == CreateUser then 1 else 0)
         + AccountCreations(trace[1..])
  }

  /** The Object_UserValidation module object. */
  class ObjectUserValidation {
    var capturedState: Option<Captured>

    /** `capturedState: null`. */
    constructor()
      ensures capturedState == None
    {
      capturedState := None;
    }

    /**
     * receive: an id outside accepts changes nothing and emits nothing; an
     * accepted one overwrites capturedState and emits, once, the mapped
     * intention carrying the captured signal. The emitted intention is returned.
     */
    method Receive(intention: Intention) returns (emitted: Option<Intention>)
      modifies this
      ensures emitted == Forward(intention)
      ensures intention.id !in Accepts ==> capturedState == old(capturedState)
      ensures intention.id in Accepts ==> capturedState == Some(Captured(intention.signal, intention.source))
    {
      if intention.id !in Accepts {
        return None;
      }
      capturedState := Some(Captured(intention.signal, intention.source));
      emitted := Some(Intention(Mappings[intention.id], capturedState.value.signal, UserValidationName));
    }
  }

  /** The object createIntentionBus returns, with its closure's subscriber list as a field. */
  class IntentionBus {
    var subscribers: seq<Subscriber>

    /** `const subscribers = []`: every bus starts with its own empty list. */
    constructor()
      ensures subscribers == []
    {
      subscribers := [];
    }

    /** subscribe: appends at the end. */
    method Subscribe(sub: Subscriber)
      modifies this
      ensures subscribers == old(subscribers) + [sub]
    {
      subscribers := subscribers + [sub];
    }

    /**
     * emit: the calls, outer and nested, in the order they happen. The
     * subscriber list is not changed; the receiver's state is the one the
     * calls leave behind.
     */
    method Emit(intention: Intention, fuel: nat, receiver: ObjectUserValidation) returns (trace: seq<BusDelivery>)
      modifies receiver
      ensures trace == Broadcast(subscribers, intention, 0, fuel)
      ensures receiver.capturedState == CaptureAfter(old(receiver.capturedState), trace)
    {
      trace := EmitAt(intention, 0, fuel, receiver);
    }

    /** emit at a nesting depth: the `forEach` over the subscribers. */
    method EmitAt(intention: Intention, depth: nat, fuel: nat, receiver: ObjectUserValidation)
      returns (trace: seq<BusDelivery>)
      modifies receiver
      ensures trace == Broadcast(subscribers, intention, depth, fuel)
      ensures receiver.capturedState == CaptureAfter(old(receiver.capturedState), trace)
      decreases fuel, 1
    {
      var subs := subscribers;
      var c0 := receiver.capturedState;
      trace := [];
      var k := 0;
      while k < |subs|
        invariant 0 <= k <= |subs|
        invariant trace + DeliverEach(subs, subs[k..], intention, depth, fuel) == Broadcast(subs, intention, depth, fuel)
        invariant receiver.capturedState == CaptureAfter(c0, trace)
      {
        var before := receiver.capturedState;
        var part := Call(subs[k], intention, depth, fuel, receiver);
        EmitLoopStep(subs, k, intention, depth, fuel, trace, part, c0, before);
        trace := trace + part;
        k := k + 1;
      }
      assert subs[k..] == [];
    }

    /** One subscriber call: the receiver's receive for the object, then the emit it makes. */
    method Call(sub: Subscriber, intention: Intention, depth: nat, fuel: nat, receiver: ObjectUserValidation)
      returns (part: seq<BusDelivery>)
      modifies receiver
      ensures part == [BusDelivery(sub, intention, depth)] + Reemitted(subscribers, sub, intention, depth, fuel)
      ensures receiver.capturedState == CaptureAfter(old(receiver.capturedState), part)
      decreases fuel, 0
    {
      var emitted: Option<Intention> := None;
      if sub == UserValidationSub {
        emitted := receiver.Receive(intention);
      }
      var call := BusDelivery(sub, intention, depth);
      assert CaptureAfter(old(receiver.capturedState), [call]) == receiver.capturedState by {
        assert [call][1..] == [];
      }
      var nested := [];
      if emitted.Some? && fuel > 0 {
        nested := EmitAt(emitted.value, depth + 1, fuel - 1, receiver);
      }
      CaptureAfterAppend(old(receiver.capturedState), [call], nested);
      part := [call] + nested;
    }
  }

  /**
   * DN_ValidateEmail: valid iff the email contains "@"; one intention,
   * INT_EMAIL_VALIDATED from DN_ValidateEmail, whose signal holds the email
   * and its verdict, both tagged "N".
   */
  function ValidateEmailIntention(email: string): (r: Intention)
    ensures r.id == EmailValidated && r.source == "DN_ValidateEmail"
    ensures r.signal == Signal([
      Pulse("email", [Scalar(email)], "N"),
      Pulse("email_valid", [Scalar(BoolString('@' in email))], "N")
    ], None)
  {
    var isValid := '@' in email;
    Intention(EmailValidated, Signal([
      Pulse("email", [Scalar(email)], "N"),
      Pulse("email_valid", [Scalar(BoolString(isValid))], "N")
    ], None), "DN_ValidateEmail")
  }

  /** The bus design node needs only "@"; validate-email.js also needs "." and rejects "a@b". */
  lemma EmailRulesDiffer()
    ensures ValidateEmailIntention("a@b").signal.pulses[1].responses == [Scalar("true")]
    ensures Transforms.ValidateEmail(Pulse("email", [Scalar("a@b")], "N"))
            == Success(Pulse("email", [Scalar("false")], "N"))
  {
    assert "a@b"[1] == '@';
  }

  /** The expected trace of ISEX2/index.js for an intention v whose id is INT_EMAIL_VALIDATED. */
  function EmailFlowTrace(v: Intention): seq<BusDelivery> {
    var c := Intention(CreateUser, v.signal, UserValidationName);
    [BusDelivery(UserValidationSub, v, 0), BusDelivery(UserValidationSub, c, 1),
     BusDelivery(CreateAccountSub, c, 1), BusDelivery(CreateAccountSub, v, 0)]
  }

  /**
   * With the two subscribers of ISEX2/index.js, an INT_EMAIL_VALIDATED
   * intention is served depth first: the object, the object again on the
   * forwarded INT_CREATE_USER, the account guard on it, and only then the
   * guard on the original intention.
   */
  lemma EmailFlowBroadcast(v: Intention, fuel: nat)
    requires v.id == EmailValidated && fuel >= 1
    ensures Broadcast([UserValidationSub, CreateAccountSub], v, 0, fuel) == EmailFlowTrace(v)
  {
    var subs := [UserValidationSub, CreateAccountSub];
    var c := Intention(CreateUser, v.signal, UserValidationName);
    assert subs[1..][1..] == [];
    assert Reemitted(subs, UserValidationSub, c, 1, fuel - 1) == [];
    assert Reemitted(subs, CreateAccountSub, c, 1, fuel - 1) == [];
    assert Reemitted(subs, CreateAccountSub, v, 0, fuel) == [];
    assert DeliverEach(subs, subs[1..], c, 1, fuel - 1) == [BusDelivery(CreateAccountSub, c, 1)];
    assert Broadcast(subs, c, 1, fuel - 1) == [BusDelivery(UserValidationSub, c, 1), BusDelivery(CreateAccountSub, c, 1)];
    assert Reemitted(subs, UserValidationSub, v, 0, fuel) == Broadcast(subs, c, 1, fuel - 1);
    assert DeliverEach(subs, subs[1..], v, 0, fuel) == [BusDelivery(CreateAccountSub, v, 0)];
  }

  /** On that trace Object_UserValidation captures the first intention, and DN_CreateAccount runs once. */
  lemma EmailFlowOutcome(v: Intention, c0: Option<Captured>)
    requires v.id == EmailValidated
    ensures CaptureAfter(c0, EmailFlowTrace(v)) == Some(Captured(v.signal, v.source))
    ensures AccountCreations(EmailFlowTrace(v)) == 1
  {
    var t := EmailFlowTrace(v);
    var c1 := Some(Captured(v.signal, v.source));
    assert CreateUser !in Accepts;
    var t3 := t[3..];
    assert t3[1..] == [];
    assert CaptureAfter(c1, t3) == c1 && AccountCreations(t3) == 0;
    assert t[2..][1..] == t3;
    assert CaptureAfter(c1, t[2..]) == c1 && AccountCreations(t[2..]) == 1;
    assert t[1..][1..] == t[2..];
    assert CaptureAfter(c1, t[1..]) == c1 && AccountCreations(t[1..]) == 1;
  }

  /**
   * ISEX2/index.js: a bus, the object's subscription, the account guard's
   * subscription, then DN_ValidateEmail("user@example.com").
   */
  method EmailFlow(fuel: nat) returns (trace: seq<BusDelivery>, captured: Option<Captured>)
    requires fuel >= 1
    ensures trace == EmailFlowTrace(ValidateEmailIntention("user@example.com"))
    ensures captured == Some(Captured(ValidateEmailIntention("user@example.com").signal, "DN_ValidateEmail"))
    ensures AccountCreations(trace) == 1
  {
    var bus := new IntentionBus();
    var userValidation := new ObjectUserValidation();
    bus.Subscribe(UserValidationSub);
    bus.Subscribe(CreateAccountSub);
    assert bus.subscribers == [UserValidationSub, CreateAccountSub];
    assert userValidation.capturedState == None;
    var v := ValidateEmailIntention("user@example.com");
    trace := bus.Emit(v, fuel, userValidation);
    EmailFlowBroadcast(v, fuel);
    assert trace == EmailFlowTrace(v);
    EmailFlowOutcome(v, None);
    assert v.source == "DN_ValidateEmail";
    captured := userValidation.capturedState;
  }

  /** Each call of createIntentionBus has its own list: subscribing on one bus leaves another empty. */
  method TwoBuses() returns (first: seq<Subscriber>, second: seq<Subscriber>)
    ensures first == [UserValidationSub] && second == []
  {
    var a := new IntentionBus();
    var b := new IntentionBus();
    a.Subscribe(UserValidationSub);
    first := a.subscribers;
    second := b.subscribers;
  }
}
