/**
 * Signal-level design nodes: the pulse lookup and total scalar read of
 * trello-dishSelect/ISEX1.3/tunnel/signal-utils.js, the trivalence summary of
 * ISEX1.3/ValidateSignal/validate_Entire_Signal.js, the reflection step of
 * the FormStateObjects and the rewrite of the `*_valid` pulses made by the
 * two FormValidatorDN copies.
 */
module Signals {
  import opened JsRuntime
  import opened Pulses

  // ---------------------------------------------------------------
  // signal-utils.js
  // ---------------------------------------------------------------

  /** The index of the first pulse with the given prompt, or |ps| when there is none. */
  function FirstIndex(ps: seq<Pulse>, prompt: string): (k: nat)
    ensures k <= |ps|
    ensures forall j :: 0 <= j < k ==> ps[j].prompt != prompt
    ensures k < |ps| ==> ps[k].prompt == prompt
  {
    if |ps| == 0 then 0
    else if ps[0].prompt == prompt then 0
    else 1 + FirstIndex(ps[1..], prompt)
  }

  /** getPulseFromSignal: `pulses.find`, the first pulse with that prompt, or undefined. */
  function GetPulseFromSignal(s: Signal, prompt: string): (r: Option<Pulse>)
    ensures r.None? <==> forall i :: 0 <= i < |s.pulses| ==> s.pulses[i].prompt != prompt
    ensures r.Some? ==>
      exists i :: 0 <= i < |s.pulses| && s.pulses[i] == r.value && r.value.prompt == prompt
                  && forall j :: 0 <= j < i ==> s.pulses[j].prompt != prompt
  {
    var k := FirstIndex(s.pulses, prompt);
    if k < |s.pulses| then Some(s.pulses[k]) else None
  }

  /** Two lookups of prompts that differ never return the same pulse. */
  lemma LookupsOfDistinctPrompts(s: Signal, a: string, b: string)
    requires a != b
    requires GetPulseFromSignal(s, a).Some? && GetPulseFromSignal(s, b).Some?
    ensures GetPulseFromSignal(s, a).value != GetPulseFromSignal(s, b).value
  {
  }

  /**
   * getSimpleValue of signal-utils: `pulse?.responses?.[0] ?? ""`, the first
   * response whatever its shape, and the empty string when the pulse is
   * absent or has no responses.
   */
  function FirstResponseOrEmpty(o: Option<Pulse>): (r: Cell)
    ensures o.Some? && |o.value.responses| > 0 ==> r == o.value.responses[0]
    ensures o.None? || |o.value.responses| == 0 ==> r == Scalar("")
  {
    if o.Some? && |o.value.responses| > 0 then o.value.responses[0] else Scalar("")
  }

  /** On a simple pulse the total read and the checked getSimpleValue agree. */
  lemma FirstResponseOfSimple(p: Pulse)
    requires IsSimplePulse(p)
    ensures FirstResponseOrEmpty(Some(p)) == Scalar(GetSimpleValue(p).value)
  {
  }

  // ---------------------------------------------------------------
  // validate_Entire_Signal.js
  // ---------------------------------------------------------------

  /** The number of pulses with trivalence t. */
  function CountTrivalence(ps: seq<Pulse>, t: string): (n: nat)
    ensures n <= |ps|
  {
    if |ps| == 0 then 0
    else CountTrivalence(ps[..|ps| - 1], t) + (if ps[|ps| - 1].trivalence == t then 1 else 0)
  }

  /** A count reaches the length exactly when every pulse carries that trivalence. */
  lemma {:induction false} CountAllIff(ps: seq<Pulse>, t: string)
    ensures CountTrivalence(ps, t) == |ps| <==> forall i :: 0 <= i < |ps| ==> ps[i].trivalence == t
  {
    if |ps| > 0 {
      var init := ps[..|ps| - 1];
      CountAllIff(init, t);
      assert forall i :: 0 <= i < |init| ==> init[i] == ps[i];
    }
  }

  /** A count is zero exactly when no pulse carries that trivalence. */
  lemma {:induction false} CountNoneIff(ps: seq<Pulse>, t: string)
    ensures CountTrivalence(ps, t) == 0 <==> forall i :: 0 <= i < |ps| ==> ps[i].trivalence != t
  {
    if |ps| > 0 {
      var init := ps[..|ps| - 1];
      CountNoneIff(init, t);
      assert forall i :: 0 <= i < |init| ==> init[i] == ps[i];
    }
  }

  /** Pulses tagged "Y" and pulses tagged "N" together number at most the pulses. */
  lemma {:induction false} CountsBounded(ps: seq<Pulse>)
    ensures CountTrivalence(ps, "Y") + CountTrivalence(ps, "N") <= |ps|
  {
    if |ps| > 0 {
      CountsBounded(ps[..|ps| - 1]);
    }
  }

  /** Counting over a concatenation adds the counts. */
  lemma {:induction false} CountAppend(a: seq<Pulse>, b: seq<Pulse>, t: string)
    ensures CountTrivalence(a + b, t) == CountTrivalence(a, t) + CountTrivalence(b, t)
  {
    if |b| > 0 {
      var b' := b[..|b| - 1];
      assert (a + b)[..|a + b| - 1] == a + b';
      CountAppend(a, b', t);
    } else {
      assert a + b == a;
    }
  }

  /** What validateEntireSignal returns. */
  datatype Summary = Summary(totalPulses: nat, validCount: nat, invalidCount: nat, allValid: bool)

  /**
   * validateEntireSignal: one pass counting "Y" and "N" pulses. allValid
   * holds iff every pulse is "Y" (so for an empty signal); "UN" pulses and
   * any other tag count as neither.
   */
  method ValidateEntireSignal(s: Signal) returns (summary: Summary)
    ensures summary.totalPulses == |s.pulses|
    ensures summary.validCount == CountTrivalence(s.pulses, "Y")
    ensures summary.invalidCount == CountTrivalence(s.pulses, "N")
    ensures summary.validCount + summary.invalidCount <= summary.totalPulses
    ensures summary.allValid <==> forall i :: 0 <= i < |s.pulses| ==> s.pulses[i].trivalence == "Y"
  {
    var validCount := 0;
    var invalidCount := 0;
    var i := 0;
    while i < |s.pulses|
      invariant 0 <= i <= |s.pulses|
      invariant validCount == CountTrivalence(s.pulses[..i], "Y")
      invariant invalidCount == CountTrivalence(s.pulses[..i], "N")
    {
      assert s.pulses[..i + 1][..i] == s.pulses[..i];
      if s.pulses[i].trivalence == "Y" {
        validCount := validCount + 1;
      }
      if s.pulses[i].trivalence == "N" {
        invalidCount := invalidCount + 1;
      }
      i := i + 1;
    }
    assert s.pulses[..i] == s.pulses;
    CountsBounded(s.pulses);
    CountAllIff(s.pulses, "Y");
    CountNoneIff(s.pulses, "N");
    summary := Summary(|s.pulses|, validCount, invalidCount,
                       validCount == |s.pulses| && invalidCount == 0);
  }

  // ---------------------------------------------------------------
  // Reflection (both FormStateObject copies)
  // ---------------------------------------------------------------

  const NameValid: string := "name_valid"
  const EmailValid: string := "email_valid"
  const AgeValid: string := "age_valid"

  /** The three placeholder pulses the reflection appends, in this order. */
  const Placeholders: seq<Pulse> := [
    Pulse(NameValid, [Scalar("")], "UN"),
    Pulse(EmailValid, [Scalar("")], "UN"),
    Pulse(AgeValid, [Scalar("")], "UN")
  ]

  /** The reflected signal: the same signal with the three placeholders appended. */
  function Reflect(s: Signal): (r: Signal)
    ensures |r.pulses| == |s.pulses| + 3
    ensures r.pulses[..|s.pulses|] == s.pulses
    ensures r.pulses[|s.pulses|..] == Placeholders
    ensures r.timestamp == s.timestamp
  {
    Signal(s.pulses + Placeholders, s.timestamp)
  }

  /**
   * Reflection adds three "UN" pulses and no "Y" or "N" pulse, so a
   * reflected signal never summarises as all valid.
   */
  lemma ReflectCounts(s: Signal)
    ensures CountTrivalence(Reflect(s).pulses, "Y") == CountTrivalence(s.pulses, "Y")
    ensures CountTrivalence(Reflect(s).pulses, "N") == CountTrivalence(s.pulses, "N")
    ensures CountTrivalence(Reflect(s).pulses, "UN") == CountTrivalence(s.pulses, "UN") + 3
    ensures CountTrivalence(Reflect(s).pulses, "Y") < |Reflect(s).pulses|
  {
    CountAppend(s.pulses, Placeholders, "Y");
    CountAppend(s.pulses, Placeholders, "N");
    CountAppend(s.pulses, Placeholders, "UN");
    PlaceholderCounts();
  }

  /** The placeholders are three "UN" pulses. */
  lemma PlaceholderCounts()
    ensures CountTrivalence(Placeholders, "Y") == 0 && CountTrivalence(Placeholders, "N") == 0
    ensures CountTrivalence(Placeholders, "UN") == 3
  {
    CountAllIff(Placeholders, "UN");
    CountNoneIff(Placeholders, "Y");
    CountNoneIff(Placeholders, "N");
  }

  // ---------------------------------------------------------------
  // The *_valid rewrite (both FormValidatorDN copies)
  // ---------------------------------------------------------------

  /** The verdict pulse: the same pulse with responses [String(v)] and trivalence "Y"/"N". */
  function Verdict(p: Pulse, v: bool): (r: Pulse)
    ensures r.prompt == p.prompt
    ensures r.responses == [Scalar(BoolString(v))]
    ensures r.trivalence == (if v then "Y" else "N")
  {
    p.(responses := [Scalar(BoolString(v))], trivalence := if v then "Y" else "N")
  }

  /** Whether a prompt is one of the three the validator rewrites. */
  predicate IsVerdictPrompt(prompt: string) {
    prompt == NameValid || prompt == EmailValid || prompt == AgeValid
  }

  /** The `pulses.map` callback: rewrite a `*_valid` pulse, keep any other. */
  function RewritePulse(p: Pulse, nameOk: bool, emailOk: bool, ageOk: bool): Pulse {
    if p.prompt == NameValid then Verdict(p, nameOk)
    else if p.prompt == EmailValid then Verdict(p, emailOk)
    else if p.prompt == AgeValid then Verdict(p, ageOk)
    else p
  }

  /** The validated signal: every pulse passed through RewritePulse, all else kept. */
  function Rewrite(s: Signal, nameOk: bool, emailOk: bool, ageOk: bool): (r: Signal)
    ensures |r.pulses| == |s.pulses| && r.timestamp == s.timestamp
    ensures forall i :: 0 <= i < |s.pulses| && !IsVerdictPrompt(s.pulses[i].prompt)
                        ==> r.pulses[i] == s.pulses[i]
    ensures forall i :: 0 <= i < |s.pulses| ==> r.pulses[i].prompt == s.pulses[i].prompt
    ensures forall i :: 0 <= i < |s.pulses| && s.pulses[i].prompt == NameValid
                        ==> r.pulses[i] == Verdict(s.pulses[i], nameOk)
    ensures forall i :: 0 <= i < |s.pulses| && s.pulses[i].prompt == EmailValid
                        ==> r.pulses[i] == Verdict(s.pulses[i], emailOk)
    ensures forall i :: 0 <= i < |s.pulses| && s.pulses[i].prompt == AgeValid
                        ==> r.pulses[i] == Verdict(s.pulses[i], ageOk)
  {
    Signal(seq(|s.pulses|, i requires 0 <= i < |s.pulses| => RewritePulse(s.pulses[i], nameOk, emailOk, ageOk)),
           s.timestamp)
  }

  /** A signal without `*_valid` pulses comes back with identical pulses, whatever the verdicts. */
  lemma RewriteWithoutVerdictPulses(s: Signal, nameOk: bool, emailOk: bool, ageOk: bool)
    requires forall i :: 0 <= i < |s.pulses| ==> !IsVerdictPrompt(s.pulses[i].prompt)
    ensures Rewrite(s, nameOk, emailOk, ageOk) == s
  {
    var r := Rewrite(s, nameOk, emailOk, ageOk);
    assert r.pulses == s.pulses;
  }

  /** Rewriting twice is rewriting once: the verdicts do not depend on the old `*_valid` pulses. */
  lemma RewriteIdempotent(s: Signal, nameOk: bool, emailOk: bool, ageOk: bool)
    ensures Rewrite(Rewrite(s, nameOk, emailOk, ageOk), nameOk, emailOk, ageOk)
            == Rewrite(s, nameOk, emailOk, ageOk)
  {
    var r := Rewrite(s, nameOk, emailOk, ageOk);
    assert Rewrite(r, nameOk, emailOk, ageOk).pulses == r.pulses;
  }

  /** `name.length >= 2` on what signal-utils' getSimpleValue returns: UTF-16 code units of a string, or array elements. */
  predicate NameOk(name: Cell) {
    match name
    case Scalar(text) => Utf16Length(text) >= 2
    case Row(cells) => |cells| >= 2
  }

  /** One character above U+FFFF is a surrogate pair, so a one-character name of that kind is long enough. */
  lemma SurrogatePairNameOk(name: string)
    requires |name| == 1 && name[0] > '\U{FFFF}'
    ensures NameOk(Scalar(name))
  {
    assert name[1..] == [];
  }

  /** `email.includes("@")`: a substring test on a string, an element test on an array. */
  predicate EmailOk(email: Cell) {
    match email
    case Scalar(text) => '@' in text
    case Row(cells) => "@" in cells
  }

  /** `String(value)` as parseInt sees its argument. */
  function CellText(c: Cell): (r: string)
    ensures c.Scalar? ==> r == c.text
  {
    match c
    case Scalar(text) => text
    case Row(cells) => JoinComma(cells)
  }

  /** `parseInt(age) >= 18`: false when parseInt yields NaN. */
  predicate AgeOk(age: Cell) {
    var n := ParseInt(CellText(age), Unspecified);
    n.Some? && n.value >= 18
  }

  /**
   * process of trello-dishSelect's FormValidatorDN: the three inputs read
   * through signal-utils (a missing pulse reads as ""), then the rewrite.
   */
  function ValidateForm(s: Signal): (r: Signal)
    ensures |r.pulses| == |s.pulses| && r.timestamp == s.timestamp
    ensures forall i :: 0 <= i < |s.pulses| && !IsVerdictPrompt(s.pulses[i].prompt)
                        ==> r.pulses[i] == s.pulses[i]
    ensures forall i :: 0 <= i < |s.pulses| && s.pulses[i].prompt == NameValid
                        ==> r.pulses[i] == Verdict(s.pulses[i], NameOk(FirstResponseOrEmpty(GetPulseFromSignal(s, "user_name"))))
    ensures forall i :: 0 <= i < |s.pulses| && s.pulses[i].prompt == EmailValid
                        ==> r.pulses[i] == Verdict(s.pulses[i], EmailOk(FirstResponseOrEmpty(GetPulseFromSignal(s, "user_email"))))
    ensures forall i :: 0 <= i < |s.pulses| && s.pulses[i].prompt == AgeValid
                        ==> r.pulses[i] == Verdict(s.pulses[i], AgeOk(FirstResponseOrEmpty(GetPulseFromSignal(s, "user_age"))))
  {
    var name := FirstResponseOrEmpty(GetPulseFromSignal(s, "user_name"));
    var email := FirstResponseOrEmpty(GetPulseFromSignal(s, "user_email"));
    var age := FirstResponseOrEmpty(GetPulseFromSignal(s, "user_age"));
    Rewrite(s, NameOk(name), EmailOk(email), AgeOk(age))
  }

  /** A missing name or email pulse makes that verdict false instead of throwing. */
  lemma MissingInputsAreInvalid(s: Signal)
    requires GetPulseFromSignal(s, "user_name").None? && GetPulseFromSignal(s, "user_email").None?
    ensures forall i :: 0 <= i < |s.pulses| && s.pulses[i].prompt == NameValid
                        ==> ValidateForm(s).pulses[i] == Verdict(s.pulses[i], false)
    ensures forall i :: 0 <= i < |s.pulses| && s.pulses[i].prompt == EmailValid
                        ==> ValidateForm(s).pulses[i] == Verdict(s.pulses[i], false)
  {
  }

  /**
   * process of the Trello_Task FormValidatorDN: each input is the first
   * pulse with its prompt, read with the checked getSimpleValue. A missing
   * pulse makes isSimplePulse read `undefined.responses` (a TypeError), a
   * non-simple one throws; the reads happen in the order name, email, age.
   */
  function ValidateFormChecked(s: Signal): (r: Result<Signal>)
    ensures r.Failure? ==> r.error == TypeError || r.error == NotSimple
    ensures r.Success? <==>
      && IsPresentSimple(GetPulseFromSignal(s, "user_name"))
      && IsPresentSimple(GetPulseFromSignal(s, "user_email"))
      && IsPresentSimple(GetPulseFromSignal(s, "user_age"))
  {
    match CheckedRead(s, "user_name")
    case Failure(e) => Failure(e)
    case Success(name) =>
      match CheckedRead(s, "user_email")
      case Failure(e) => Failure(e)
      case Success(email) =>
        match CheckedRead(s, "user_age")
        case Failure(e) => Failure(e)
        case Success(age) =>
          var ageValue := ParseInt(age, Unspecified);
          Success(Rewrite(s, Utf16Length(name) >= 2, '@' in email, ageValue.Some? && ageValue.value >= 18))
  }

  /** A pulse was found and it is simple. */
  predicate IsPresentSimple(o: Option<Pulse>) {
    o.Some? && IsSimplePulse(o.value)
  }

  /** `getSimpleValue(get(prompt))` with the checked helper. */
  function CheckedRead(s: Signal, prompt: string): (r: Result<string>)
    ensures r.Success? <==> IsPresentSimple(GetPulseFromSignal(s, prompt))
    ensures r.Failure? ==> (r.error == TypeError <==> GetPulseFromSignal(s, prompt).None?)
    ensures r.Success? ==> GetPulseFromSignal(s, prompt).value.responses == [Scalar(r.value)]
  {
    match GetPulseFromSignal(s, prompt)
    case None => Failure(TypeError)
    case Some(p) => GetSimpleValue(p)
  }

  /** Where all three inputs are simple pulses, the two validator copies agree. */
  lemma ValidatorsAgree(s: Signal)
    requires ValidateFormChecked(s).Success?
    ensures ValidateFormChecked(s) == Success(ValidateForm(s))
  {
  }

  /** The form of the signal journey: Frank, frank@example.com, 25, all tagged "Y". */
  const FrankForm: Signal := Signal([
    Pulse("user_name", [Scalar("Frank")], "Y"),
    Pulse("user_email", [Scalar("frank@example.com")], "Y"),
    Pulse("user_age", [Scalar("25")], "Y")
  ], None)

  /** The three lookups on the reflected form find the submitted pulses. */
  lemma FrankInputs()
    ensures GetPulseFromSignal(Reflect(FrankForm), "user_name") == Some(FrankForm.pulses[0])
    ensures GetPulseFromSignal(Reflect(FrankForm), "user_email") == Some(FrankForm.pulses[1])
    ensures GetPulseFromSignal(Reflect(FrankForm), "user_age") == Some(FrankForm.pulses[2])
  {
    var ps := Reflect(FrankForm).pulses;
    assert ps[0].prompt == "user_name" && ps[1].prompt == "user_email" && ps[2].prompt == "user_age";
    assert FirstIndex(ps, "user_name") == 0;
    assert FirstIndex(ps[1..], "user_email") == 0;
    assert FirstIndex(ps[1..][1..], "user_age") == 0;
  }

  /** parseInt("25") is 25. */
  lemma FrankAge()
    ensures ParseInt("25", Unspecified) == Some(25)
  {
    assert IntToString(25) == "25";
    ParseIntOfIntToString(25, Unspecified);
  }

  /**
   * On a reflected form that had no `*_valid` pulses of its own, the rewrite
   * keeps the submitted pulses and fills exactly the three placeholders.
   */
  lemma RewriteOfReflected(s: Signal, nameOk: bool, emailOk: bool, ageOk: bool)
    requires forall i :: 0 <= i < |s.pulses| ==> !IsVerdictPrompt(s.pulses[i].prompt)
    ensures Rewrite(Reflect(s), nameOk, emailOk, ageOk).pulses == s.pulses + [
      Pulse(NameValid, [Scalar(BoolString(nameOk))], if nameOk then "Y" else "N"),
      Pulse(EmailValid, [Scalar(BoolString(emailOk))], if emailOk then "Y" else "N"),
      Pulse(AgeValid, [Scalar(BoolString(ageOk))], if ageOk then "Y" else "N")
    ]
  {
    var r := Rewrite(Reflect(s), nameOk, emailOk, ageOk).pulses;
    var n := |s.pulses|;
    assert Reflect(s).pulses[n] == Placeholders[0];
    assert Reflect(s).pulses[n + 1] == Placeholders[1];
    assert Reflect(s).pulses[n + 2] == Placeholders[2];
    forall i | 0 <= i < n ensures r[i] == s.pulses[i] {
      assert Reflect(s).pulses[i] == s.pulses[i];
    }
  }

  /**
   * When the three inputs are simple pulses, both copies validate with the
   * checks applied to their strings.
   */
  lemma ValidateFormOfSimpleInputs(s: Signal, name: string, email: string, age: string)
    requires GetPulseFromSignal(s, "user_name").Some? && GetPulseFromSignal(s, "user_name").value.responses == [Scalar(name)]
    requires GetPulseFromSignal(s, "user_email").Some? && GetPulseFromSignal(s, "user_email").value.responses == [Scalar(email)]
    requires GetPulseFromSignal(s, "user_age").Some? && GetPulseFromSignal(s, "user_age").value.responses == [Scalar(age)]
    ensures ValidateForm(s) == Rewrite(s, NameOk(Scalar(name)), EmailOk(Scalar(email)), AgeOk(Scalar(age)))
    ensures ValidateFormChecked(s) == Success(ValidateForm(s))
  {
    ValidatorsAgree(s);
  }

  /** Frank's three inputs pass the three checks. */
  lemma FrankInputsOk()
    ensures NameOk(Scalar("Frank")) && EmailOk(Scalar("frank@example.com")) && AgeOk(Scalar("25"))
  {
    var email := "frank@example.com";
    assert email[5] == '@';
    FrankAge();
  }

  /** After reflection, Frank's form passes all three checks, with both copies. */
  lemma FrankChecks(form: Signal)
    requires form == FrankForm
    ensures ValidateForm(Reflect(form)) == Rewrite(Reflect(form), true, true, true)
    ensures ValidateFormChecked(Reflect(form)) == Success(ValidateForm(Reflect(form)))
  {
    FrankInputs();
    FrankInputsOk();
    ValidateFormOfSimpleInputs(Reflect(form), "Frank", "frank@example.com", "25");
  }

  /** After reflection, Frank's form validates to three "true"/"Y" verdicts. */
  lemma FrankValidates(form: Signal)
    requires form == FrankForm
    ensures ValidateFormChecked(Reflect(form)) == Success(ValidateForm(Reflect(form)))
    ensures ValidateForm(Reflect(form)).pulses == form.pulses + [
      Pulse(NameValid, [Scalar("true")], "Y"),
      Pulse(EmailValid, [Scalar("true")], "Y"),
      Pulse(AgeValid, [Scalar("true")], "Y")
    ]
  {
    FrankChecks(form);
    FrankHasNoVerdicts(form);
    RewriteOfReflected(form, true, true, true);
    assert BoolString(true) == "true";
  }

  /** The submitted form carries none of the three `*_valid` prompts. */
  lemma FrankHasNoVerdicts(form: Signal)
    requires form == FrankForm
    ensures forall i :: 0 <= i < |form.pulses| ==> !IsVerdictPrompt(form.pulses[i].prompt)
  {
    assert form.pulses[0].prompt[0] == 'u' && form.pulses[1].prompt[0] == 'u' && form.pulses[2].prompt[0] == 'u';
    assert NameValid[0] == 'n' && EmailValid[0] == 'e' && AgeValid[0] == 'a';
  }
}
