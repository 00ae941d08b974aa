/**
 * The form receivers: FormStateObject (persist and reflect) and
 * FormValidatorDN (validate), in the trello-dishSelect copies that register
 * themselves on the listener table and in the Trello_Task copies that
 * return their result; then the two wirings that connect them.
 */
module FormNodes {
  import opened JsRuntime
  import opened Pulses
  import opened Signals
  import opened Tunnel

  /** FormStateObject: keeps the last signal it received. */
  class FormStateObject {
    var persistedSignal: Option<Signal>

    /** trello-dishSelect: starts with nothing persisted and registers receive on INT_SUBMIT_FORM. */
    constructor(tunnel: Emitter)
      modifies tunnel
      ensures persistedSignal == None
      ensures tunnel.listeners == Register(old(tunnel.listeners), SubmitForm, FormStateReceive)
    {
      persistedSignal := None;
      new;
      tunnel.Listen(SubmitForm, FormStateReceive);
    }

    /** Trello_Task: starts with nothing persisted and registers nothing. */
    constructor Unregistered()
      ensures persistedSignal == None
    {
      persistedSignal := None;
    }

    /**
     * receive: persists the signal and emits, once, the reflected signal on
     * INT_VALIDATE_FORM; the emitted event is returned (the Trello_Task copy
     * returns its signal).
     */
    method Receive(signal: Signal) returns (emitted: Event)
      modifies this
      ensures persistedSignal == Some(signal)
      ensures emitted == Step(FormStateReceive, signal)
      ensures emitted.channel == ValidateFormChannel && emitted.signal == Reflect(signal)
    {
      persistedSignal := Some(signal);
      var reflected := Signal(signal.pulses + Placeholders, signal.timestamp);
      emitted := Event(ValidateFormChannel, reflected);
    }
  }

  /** FormValidatorDN of trello-dishSelect: no state beyond its registration. */
  class FormValidatorDN {
    /** Registers process on INT_SUBMIT_FORM. */
    constructor(tunnel: Emitter)
      modifies tunnel
      ensures tunnel.listeners == Register(old(tunnel.listeners), SubmitForm, FormValidatorProcess)
    {
      new;
      tunnel.Listen(SubmitForm, FormValidatorProcess);
    }

    /** process: emits, once, the validated signal on INT_VALIDATION_COMPLETE. */
    method Process(signal: Signal) returns (emitted: Event)
      ensures emitted == Step(FormValidatorProcess, signal)
      ensures emitted.channel == ValidationComplete && emitted.signal == ValidateForm(signal)
      ensures |emitted.signal.pulses| == |signal.pulses| && emitted.signal.timestamp == signal.timestamp
    {
      emitted := Event(ValidationComplete, ValidateForm(signal));
    }
  }

  /** FormValidatorDN of Trello_Task: returns the signal it emits (its emit only logs). */
  class CheckedFormValidatorDN {
    constructor()
    {
    }

    /** process: the checked reads, then the rewrite; a missing or non-simple input throws. */
    method Process(signal: Signal) returns (updated: Result<Signal>)
      ensures updated == ValidateFormChecked(signal)
      ensures updated.Success? ==> updated.value == ValidateForm(signal)
    {
      updated := ValidateFormChecked(signal);
      if updated.Success? {
        ValidatorsAgree(signal);
      }
    }
  }

  /** The two registrations of trello-dishSelect/ISEX1.3/index.js, in order, on a fresh table. */
  lemma WiredListeners()
    ensures Register(Register(map[], SubmitForm, FormStateReceive), SubmitForm, FormValidatorProcess)
            == map[SubmitForm := [FormStateReceive, FormValidatorProcess]]
  {
    var l1 := Register(map[], SubmitForm, FormStateReceive);
    assert [] + [FormStateReceive] == [FormStateReceive];
    assert l1 == map[SubmitForm := [FormStateReceive]];
    assert HandlersOf(l1, SubmitForm) + [FormValidatorProcess] == [FormStateReceive, FormValidatorProcess];
  }

  /**
   * With that table, INT_SUBMIT_FORM calls receive and then process on the
   * submitted signal, and neither re-emit reaches a listener.
   */
  lemma SubmitFormTrace(listeners: Listeners, s: Signal, fuel: nat)
    requires listeners == map[SubmitForm := [FormStateReceive, FormValidatorProcess]]
    ensures Dispatch(listeners, Step, Event(SubmitForm, s), 0, fuel)
            == [Delivery(FormStateReceive, Event(SubmitForm, s), 0),
                Delivery(FormValidatorProcess, Event(SubmitForm, s), 0)]
  {
    var e := Event(SubmitForm, s);
    assert HandlersOf(listeners, e.channel) == [FormStateReceive, FormValidatorProcess];
    assert Step(FormStateReceive, s).channel == ValidateFormChannel && ValidateFormChannel !in listeners;
    assert Step(FormValidatorProcess, s).channel == ValidationComplete && ValidationComplete !in listeners;
    TwoSilentHandlers(listeners, Step, FormStateReceive, FormValidatorProcess, e, fuel);
  }

  /** Two handlers on a channel, neither of whose emits reaches a listener: just the two calls. */
  lemma TwoSilentHandlers(listeners: Listeners, run: Callbacks, h0: Handler, h1: Handler, e: Event, fuel: nat)
    requires HandlersOf(listeners, e.channel) == [h0, h1]
    requires run(h0, e.signal).channel !in listeners && run(h1, e.signal).channel !in listeners
    ensures Dispatch(listeners, run, e, 0, fuel) == [Delivery(h0, e, 0), Delivery(h1, e, 0)]
  {
    var hs := [h0, h1];
    NestedSilent(listeners, run, h0, e, 0, fuel);
    NestedSilent(listeners, run, h1, e, 0, fuel);
    DeliverAllStep(listeners, run, hs, 0, e, 0, fuel);
    DeliverAllStep(listeners, run, hs, 1, e, 0, fuel);
    assert hs[0..] == hs && hs[2..] == [];
  }

  /**
   * index.js of trello-dishSelect: a new FormStateObject, then a new
   * FormValidatorDN, then a submit. Receive runs before process, both on
   * the submitted signal.
   */
  method SubmitFormWiring(s: Signal, fuel: nat) returns (trace: seq<Delivery>)
    ensures trace == [Delivery(FormStateReceive, Event(SubmitForm, s), 0),
                      Delivery(FormValidatorProcess, Event(SubmitForm, s), 0)]
  {
    var tunnel := new Emitter();
    var form := new FormStateObject(tunnel);
    var validator := new FormValidatorDN(tunnel);
    WiredListeners();
    trace := tunnel.Emit(SubmitForm, s, fuel, Step);
    SubmitFormTrace(tunnel.listeners, s, fuel);
  }

  /**
   * Because the validator listens on INT_SUBMIT_FORM, it sees the signal
   * before reflection; a submitted form without `*_valid` pulses is emitted
   * unchanged.
   */
  lemma ValidatorSeesUnreflectedForm(s: Signal)
    requires forall i :: 0 <= i < |s.pulses| ==> !IsVerdictPrompt(s.pulses[i].prompt)
    ensures Step(FormValidatorProcess, s).signal == s
  {
    var name := FirstResponseOrEmpty(GetPulseFromSignal(s, "user_name"));
    var email := FirstResponseOrEmpty(GetPulseFromSignal(s, "user_email"));
    var age := FirstResponseOrEmpty(GetPulseFromSignal(s, "user_age"));
    RewriteWithoutVerdictPulses(s, NameOk(name), EmailOk(email), AgeOk(age));
  }

  /**
   * ISEX1.3/Signal_Journey/index.js: Frank's form goes through receive and
   * then process by hand; all three verdicts come back "true"/"Y" and the
   * object keeps the unreflected form.
   */
  method FrankJourney() returns (persisted: Option<Signal>, validated: Result<Signal>)
    ensures persisted == Some(FrankForm)
    ensures validated == Success(Signal(FrankForm.pulses + [
      Pulse(NameValid, [Scalar("true")], "Y"),
      Pulse(EmailValid, [Scalar("true")], "Y"),
      Pulse(AgeValid, [Scalar("true")], "Y")
    ], FrankForm.timestamp))
  {
    var form := FrankForm;
    var formState := new FormStateObject.Unregistered();
    var reflected := formState.Receive(form);
    var validator := new CheckedFormValidatorDN();
    validated := validator.Process(reflected.signal);
    persisted := formState.persistedSignal;
    FrankValidates(form);
  }
}
