/**
 * The pulse-to-pulse design nodes: the counter of ANnswers/counter-history.js,
 * toggleSwitch, validateEmail and markDishSoldOut (Trello_Task/ISEX1.2 and
 * its duplicate in ANnswers), and selectDishWithDetails
 * (trello-dishSelect/ISEX1.2). Each returns a new pulse or fails the way
 * the source throws; the helpers they call are those of the main library.
 */
module Transforms {
  import opened JsRuntime
  import opened Pulses
  import opened PulseTables

  // ---------------------------------------------------------------
  // Counter
  // ---------------------------------------------------------------

  /** `String(parseInt(v, 10) + delta)`: "NaN" when `v` does not start with a decimal number. */
  function CounterText(v: string, delta: int): string {
    match ParseInt(v, Decimal)
    case None => "NaN"
    case Some(n) => IntToString(n + delta)
  }

  /** The simple pulse a counter node returns: same prompt and trivalence, the new text as its only response. */
  function Counted(p: Pulse, text: string): (r: Pulse)
    ensures r.prompt == p.prompt && r.trivalence == p.trivalence
    ensures IsSimplePulse(r) && GetSimpleValue(r) == Success(text)
  {
    Pulse(p.prompt, [Scalar(text)], p.trivalence)
  }

  /** incrementCounter: throws unless the pulse is simple; otherwise a fresh simple pulse holding value + 1. */
  function IncrementCounter(p: Pulse): (r: Result<Pulse>)
    ensures r.Failure? <==> !IsSimplePulse(p)
    ensures r.Failure? ==> r.error == NotSimple
    ensures r.Success? ==> r.value == Counted(p, CounterText(GetSimpleValue(p).value, 1))
  {
    if !IsSimplePulse(p) then Failure(NotSimple)
    else Success(Counted(p, CounterText(GetSimpleValue(p).value, 1)))
  }

  /** decrementCounter: throws unless the pulse is simple; otherwise a fresh simple pulse holding value - 1. */
  function DecrementCounter(p: Pulse): (r: Result<Pulse>)
    ensures r.Failure? <==> !IsSimplePulse(p)
    ensures r.Failure? ==> r.error == NotSimple
    ensures r.Success? ==> r.value == Counted(p, CounterText(GetSimpleValue(p).value, -1))
  {
    if !IsSimplePulse(p) then Failure(NotSimple)
    else Success(Counted(p, CounterText(GetSimpleValue(p).value, -1)))
  }

  /** On the numeral of an integer n, the counters write the numerals of n + 1 and n - 1. */
  lemma CounterOfNumeral(prompt: string, n: int, trivalence: string)
    ensures IncrementCounter(Pulse(prompt, [Scalar(IntToString(n))], trivalence))
            == Success(Pulse(prompt, [Scalar(IntToString(n + 1))], trivalence))
    ensures DecrementCounter(Pulse(prompt, [Scalar(IntToString(n))], trivalence))
            == Success(Pulse(prompt, [Scalar(IntToString(n - 1))], trivalence))
  {
    ParseIntOfIntToString(n, Decimal);
  }

  /** Decrementing undoes incrementing, and the other way round, on a pulse holding a numeral. */
  lemma CounterRoundTrip(prompt: string, n: int, trivalence: string)
    ensures var p := Pulse(prompt, [Scalar(IntToString(n))], trivalence);
      IncrementCounter(p).Success? && DecrementCounter(IncrementCounter(p).value) == Success(p)
      && DecrementCounter(p).Success? && IncrementCounter(DecrementCounter(p).value) == Success(p)
  {
    CounterOfNumeral(prompt, n, trivalence);
    CounterOfNumeral(prompt, n + 1, trivalence);
    CounterOfNumeral(prompt, n - 1, trivalence);
  }

  /** A count that parseInt reads as NaN prints as "NaN" after either step, since NaN plus or minus one is NaN. */
  lemma CounterOfNonNumber(prompt: string, v: string, trivalence: string)
    requires ParseInt(v, Decimal).None?
    ensures IncrementCounter(Pulse(prompt, [Scalar(v)], trivalence)) == Success(Pulse(prompt, [Scalar("NaN")], trivalence))
    ensures DecrementCounter(Pulse(prompt, [Scalar(v)], trivalence)) == Success(Pulse(prompt, [Scalar("NaN")], trivalence))
  {
    assert IsSimplePulse(Pulse(prompt, [Scalar(v)], trivalence));
  }

  /** The empty count is one such value: it has no leading digit. */
  lemma EmptyCountIsNaN()
    ensures ParseInt("", Decimal).None?
  {
    var empty: string := "";
    assert TrimStart(empty) == empty;
    assert DigitPrefix(empty, 10) == [];
    assert ParseUnsigned(empty, Decimal) == None;
  }

  /** One step of the counter script's history. */
  datatype HistoryEntry = HistoryEntry(time: string, action: string, pulse: Pulse)

  lemma SmallNumerals()
    ensures IntToString(0) == "0" && IntToString(1) == "1" && IntToString(2) == "2"
  {
  }

  /** The counter pulse of the script holding the numeral of `n`. */
  function CounterPulse(n: int): Pulse {
    Pulse("counter_value", [Scalar(IntToString(n))], "Y")
  }

  /** One increment step of the script. */
  method Increment(counter: Pulse, ghost n: int) returns (next: Pulse)
    requires counter == CounterPulse(n)
    ensures next == CounterPulse(n + 1)
  {
    CounterOfNumeral("counter_value", n, "Y");
    next := IncrementCounter(counter).value;
  }

  /** One decrement step of the script. */
  method Decrement(counter: Pulse, ghost n: int) returns (next: Pulse)
    requires counter == CounterPulse(n)
    ensures next == CounterPulse(n - 1)
  {
    CounterOfNumeral("counter_value", n, "Y");
    next := DecrementCounter(counter).value;
  }

  /** The counter script from a start value: increment twice, decrement once, recording each pulse. */
  method CounterHistory(start: int) returns (history: seq<HistoryEntry>)
    ensures |history| == 4
    ensures history[0].time == "T0" && history[1].time == "T1" && history[2].time == "T2" && history[3].time == "T3"
    ensures history[0].action == "initial" && history[1].action == "increment"
            && history[2].action == "increment" && history[3].action == "decrement"
    ensures history[0].pulse == CounterPulse(start) && history[1].pulse == CounterPulse(start + 1)
            && history[2].pulse == CounterPulse(start + 2) && history[3].pulse == CounterPulse(start + 1)
  {
    var counter := CounterPulse(start);
    history := [HistoryEntry("T0", "initial", counter)];
    counter := Increment(counter, start);
    history := history + [HistoryEntry("T1", "increment", counter)];
    counter := Increment(counter, start + 1);
    history := history + [HistoryEntry("T2", "increment", counter)];
    counter := Decrement(counter, start + 2);
    history := history + [HistoryEntry("T3", "decrement", counter)];
  }

  /** The script's own run, from "0": the values read 0, 1, 2, 1. */
  method CounterHistoryFromZero() returns (values: seq<string>)
    ensures values == ["0", "1", "2", "1"]
  {
    var history := CounterHistory(0);
    SmallNumerals();
    values := [];
    var i := 0;
    while i < |history|
      invariant 0 <= i <= |history|
      invariant |values| == i
      invariant forall j :: 0 <= j < i ==> Success(values[j]) == GetSimpleValue(history[j].pulse)
    {
      values := values + [GetSimpleValue(history[i].pulse).value];
      i := i + 1;
    }
  }

  // ---------------------------------------------------------------
  // Light switch
  // ---------------------------------------------------------------

  /** toggleSwitch: "on" becomes "off", anything else becomes "on"; throws unless the pulse is simple. */
  function ToggleSwitch(p: Pulse): (r: Result<Pulse>)
    ensures r.Failure? <==> !IsSimplePulse(p)
    ensures r.Failure? ==> r.error == NotSimple
    ensures r.Success? ==> r.value.prompt == p.prompt && r.value.trivalence == p.trivalence
    ensures r.Success? ==> r.value.responses == [Scalar("off")] || r.value.responses == [Scalar("on")]
    ensures r.Success? ==> (r.value.responses == [Scalar("off")] <==> p.responses == [Scalar("on")])
  {
    match GetSimpleValue(p)
    case Failure(e) => Failure(e)
    case Success(currentValue) =>
      var nextValue := if currentValue == "on" then "off" else "on";
      Success(Pulse(p.prompt, [Scalar(nextValue)], p.trivalence))
  }

  /** Toggling twice gives back a switch that was "on" or "off". */
  lemma ToggleTwice(p: Pulse)
    requires p.responses == [Scalar("on")] || p.responses == [Scalar("off")]
    ensures ToggleSwitch(p).Success? && ToggleSwitch(ToggleSwitch(p).value) == Success(p)
  {
  }

  /** The script's switch: off, then on, then off again. */
  lemma ToggleSwitchScript()
    ensures var switchOff := Pulse("light_switch_state", [Scalar("off")], "Y");
      ToggleSwitch(switchOff) == Success(Pulse("light_switch_state", [Scalar("on")], "Y"))
      && ToggleSwitch(ToggleSwitch(switchOff).value) == Success(switchOff)
  {
  }

  // ---------------------------------------------------------------
  // Email check
  // ---------------------------------------------------------------

  /**
   * validateEmail: throws unless the pulse is simple; the email is valid iff
   * it contains "@" and "."; the response is "true"/"false" and the
   * trivalence "Y"/"N" accordingly, whatever the input trivalence.
   */
  function ValidateEmail(p: Pulse): (r: Result<Pulse>)
    ensures r.Failure? <==> !IsSimplePulse(p)
    ensures r.Failure? ==> r.error == NotSimple
    ensures r.Success? ==> r.value.prompt == p.prompt
    ensures r.Success? ==>
      var email := p.responses[0].text;
      (r.value.trivalence == "Y" <==> '@' in email && '.' in email)
      && (r.value.trivalence == "Y" || r.value.trivalence == "N")
      && r.value.responses == [Scalar(if r.value.trivalence == "Y" then "true" else "false")]
  {
    if !IsSimplePulse(p) then Failure(NotSimple)
    else
      var email := GetSimpleValue(p).value;
      var isValid := '@' in email && '.' in email;
      Success(Pulse(p.prompt, [Scalar(if isValid then "true" else "false")], if isValid then "Y" else "N"))
  }

  /** The script's first email is accepted. */
  lemma ValidateEmailScript(good: string)
    requires good == "alice@example.com"
    ensures ValidateEmail(Pulse("user_email", [Scalar(good)], "UN"))
            == Success(Pulse("user_email", [Scalar("true")], "Y"))
  {
    assert good[5] == '@' && good[13] == '.';
    ValidateEmailOfText("user_email", good, "UN");
  }

  /** The script's second email has no "@" and is rejected. */
  lemma ValidateEmailScriptRejects(bad: string)
    requires bad == "not-an-email"
    ensures ValidateEmail(Pulse("user_email", [Scalar(bad)], "UN"))
            == Success(Pulse("user_email", [Scalar("false")], "N"))
  {
    assert '@' !in bad;
    ValidateEmailOfText("user_email", bad, "UN");
  }

  /** On a one-string pulse, validateEmail answers by the two characters alone. */
  lemma ValidateEmailOfText(prompt: string, email: string, t: string)
    ensures var ok := '@' in email && '.' in email;
      ValidateEmail(Pulse(prompt, [Scalar(email)], t))
      == Success(Pulse(prompt, [Scalar(if ok then "true" else "false")], if ok then "Y" else "N"))
  {
    assert IsSimplePulse(Pulse(prompt, [Scalar(email)], t));
  }

  // ---------------------------------------------------------------
  // Sold-out dish
  // ---------------------------------------------------------------

  const Availability: string := "availability"
  const SoldOut: string := "sold_out"

  /**
   * markDishSoldOut (both copies): throws on a non-structured pulse or when
   * the META row has no "availability" column; spreading a missing
   * `responses[1]` is a TypeError. Otherwise the result holds the same META
   * row and a copy of the first data row whose availability cell is
   * "sold_out" (appended when the column lies just past the row's end);
   * further rows are dropped and the trivalence becomes "N".
   */
  function MarkDishSoldOut(p: Pulse): (r: Result<Pulse>)
    requires IsStructuredPulse(p) && Availability in p.responses[0].cells && |p.responses| >= 2 ==>
      IndexOf(p.responses[0].cells, Availability) - 1 <= |Cells(p.responses[1])|
    ensures !IsStructuredPulse(p) <==> r == Failure(NotStructured)
    ensures r == Failure(AvailabilityNotFound) <==> IsStructuredPulse(p) && Availability !in p.responses[0].cells
    ensures r == Failure(TypeError) <==>
      IsStructuredPulse(p) && Availability in p.responses[0].cells && |p.responses| < 2
    ensures r.Success? ==>
      var k := IndexOf(p.responses[0].cells, Availability) - 1;
      var before := Cells(p.responses[1]);
      && r.value.prompt == p.prompt && r.value.trivalence == "N"
      && |r.value.responses| == 2 && r.value.responses[0] == p.responses[0] && r.value.responses[1].Row?
      && |r.value.responses[1].cells| == (if k == |before| then |before| + 1 else |before|)
      && r.value.responses[1].cells[k] == SoldOut
      && forall j :: 0 <= j < |before| && j != k ==> r.value.responses[1].cells[j] == before[j]
  {
    if !IsStructuredPulse(p) then Failure(NotStructured)
    else
      var metaRow := p.responses[0];
      assert metaRow.cells[0] != Availability;
      var availabilityMetaIndex := IndexOf(metaRow.cells, Availability);
      if availabilityMetaIndex == -1 then Failure(AvailabilityNotFound)
      else if |p.responses| < 2 then Failure(TypeError)
      else
        var currentData := Cells(p.responses[1]);
        var availabilityDataIndex := availabilityMetaIndex - 1;
        var newData := if availabilityDataIndex == |currentData| then currentData + [SoldOut]
                       else currentData[availabilityDataIndex := SoldOut];
        Success(Pulse(p.prompt, [metaRow, Row(newData)], "N"))
  }

  /** After marking, reading "availability" gives "sold_out". */
  lemma SoldOutReadsBack(p: Pulse)
    requires IsStructuredPulse(p) && Availability in p.responses[0].cells && |p.responses| >= 2
    requires IndexOf(p.responses[0].cells, Availability) - 1 <= |Cells(p.responses[1])|
    ensures MarkDishSoldOut(p).Success?
    ensures GetFieldValue(MarkDishSoldOut(p).value, Availability) == Success(Str(SoldOut))
  {
    var r := MarkDishSoldOut(p).value;
    assert Fields(r) == Fields(p);
    assert r.responses[0].cells[0] != Availability;
  }

  /** Every other field of the first data row reads as before. */
  lemma SoldOutKeepsOtherFields(p: Pulse, field: string)
    requires IsStructuredPulse(p) && Availability in p.responses[0].cells && |p.responses| >= 2
    requires IndexOf(p.responses[0].cells, Availability) - 1 <= |Cells(p.responses[1])|
    requires field != Availability
    ensures MarkDishSoldOut(p).Success?
    ensures GetFieldValue(MarkDishSoldOut(p).value, field) == GetFieldValue(p, field)
  {
    var r := MarkDishSoldOut(p).value;
    var meta := p.responses[0].cells;
    var k := IndexOf(meta, field);
    var a := IndexOf(meta, Availability);
    var before := Cells(p.responses[1]);
    var after := Cells(r.responses[1]);
    assert r.responses[0] == p.responses[0] && |r.responses| == 2;
    assert after == r.responses[1].cells;
    assert k >= 0 ==> k != a;
    if k > 0 {
      assert CellRead(after, k - 1) == CellRead(before, k - 1) by {
        if k - 1 < |before| {
          assert after[k - 1] == before[k - 1];
        } else {
          assert k - 1 >= |after|;
        }
      }
      assert GetFieldValue(r, field) == Success(CellRead(after, k - 1));
      assert GetFieldValue(p, field) == Success(CellRead(before, k - 1));
    } else {
      assert GetFieldValue(r, field) == Success(Null);
      assert GetFieldValue(p, field) == Success(Null);
    }
  }

  /** An availability column just past the end of the data row appends the mark. */
  lemma SoldOutAppends()
    ensures MarkDishSoldOut(Pulse("dish", [Row(["META", "name", "availability"]), Row(["Biryani"])], "Y"))
            == Success(Pulse("dish", [Row(["META", "name", "availability"]), Row(["Biryani", "sold_out"])], "N"))
  {
    var meta := ["META", "name", "availability"];
    var p := Pulse("dish", [Row(meta), Row(["Biryani"])], "Y");
    assert meta[0] != Availability && meta[1] != Availability && meta[2] == Availability;
    assert IndexOf(meta, Availability) == 2;
    assert IsStructuredPulse(p) && Cells(p.responses[1]) == ["Biryani"];
    assert ["Biryani"] + [SoldOut] == ["Biryani", "sold_out"];
  }

  /** The script's Biryani. */
  lemma BiryaniSoldOut()
    ensures var dishInStock := Pulse("dish_selected", [
        Row(["META", "name", "price", "availability"]),
        Row(["Biryani", "$12.99", "in_stock"])
      ], "Y");
      && MarkDishSoldOut(dishInStock).Success?
      && GetFieldValue(MarkDishSoldOut(dishInStock).value, "availability") == Success(Str("sold_out"))
      && MarkDishSoldOut(dishInStock).value.trivalence == "N"
  {
    var dishInStock := Pulse("dish_selected", [
        Row(["META", "name", "price", "availability"]),
        Row(["Biryani", "$12.99", "in_stock"])
      ], "Y");
    var meta := dishInStock.responses[0].cells;
    assert meta[3] == Availability && meta[0] != Availability && meta[1] != Availability && meta[2] != Availability;
    SoldOutReadsBack(dishInStock);
  }

  // ---------------------------------------------------------------
  // Dish selection
  // ---------------------------------------------------------------

  /** The details a dish selection carries; the price is an integer (fractional prices are not modelled). */
  datatype DishDetails = DishDetails(dishId: string, dishName: string, price: int)

  const DishSelectedPrompt: string := "dish_selected"

  /**
   * selectDishWithDetails: throws unless a pulse is given and its prompt is
   * "dish_selected"; otherwise a structured "dish_selected" pulse with
   * trivalence "Y", the META row dishId/dishName/price and one data row
   * built from the details alone.
   */
  function SelectDishWithDetails(pulse: Option<Pulse>, details: DishDetails): (r: Result<Pulse>)
    ensures r.Failure? <==> pulse.None? || pulse.value.prompt != DishSelectedPrompt
    ensures r.Failure? ==> r.error == InvalidDishSelection
    ensures r.Success? ==>
      && r.value.prompt == DishSelectedPrompt && r.value.trivalence == "Y"
      && IsStructuredPulse(r.value) && Fields(r.value) == ["dishId", "dishName", "price"]
      && |r.value.responses| == 2
      && r.value.responses[1] == Row([details.dishId, details.dishName, IntToString(details.price)])
  {
    if pulse.None? || pulse.value.prompt != DishSelectedPrompt then Failure(InvalidDishSelection)
    else
      Success(Pulse(DishSelectedPrompt, [
        Row(["META", "dishId", "dishName", "price"]),
        Row([details.dishId, details.dishName, IntToString(details.price)])
      ], "Y"))
  }

  /** getFieldValue on the selection's shape reads each of the three cells of its data row. */
  lemma DishRowReads(r: Pulse, id: string, name: string, price: string)
    requires r.responses == [Row(["META", "dishId", "dishName", "price"]), Row([id, name, price])]
    ensures GetFieldValue(r, "dishId") == Success(Str(id))
    ensures GetFieldValue(r, "dishName") == Success(Str(name))
    ensures GetFieldValue(r, "price") == Success(Str(price))
  {
    var meta := r.responses[0].cells;
    var data := [id, name, price];
    assert meta[..1] == ["META"];
    ColumnRead(r, meta, data, 1);
    assert meta[..2] == ["META", "dishId"];
    ColumnRead(r, meta, data, 2);
    assert meta[..3] == ["META", "dishId", "dishName"];
    ColumnRead(r, meta, data, 3);
  }

  /** In a two-row table, the first occurrence of a field name in the META row reads the data cell under it. */
  lemma ColumnRead(r: Pulse, meta: seq<string>, data: seq<string>, i: nat)
    requires r.responses == [Row(meta), Row(data)] && |meta| > 0 && meta[0] == Marker
    requires 1 <= i < |meta| && i - 1 < |data| && meta[i] !in meta[..i]
    ensures GetFieldValue(r, meta[i]) == Success(Str(data[i - 1]))
  {
    assert Cells(r.responses[1]) == data;
  }

  /** The selection reads back its details through getFieldValue, the price through parseInt. */
  lemma SelectedDishReads(pulse: Pulse, details: DishDetails)
    requires pulse.prompt == DishSelectedPrompt
    ensures var r := SelectDishWithDetails(Some(pulse), details).value;
      && GetFieldValue(r, "dishId") == Success(Str(details.dishId))
      && GetFieldValue(r, "dishName") == Success(Str(details.dishName))
      && GetFieldValue(r, "price") == Success(Str(IntToString(details.price)))
      && ParseInt(IntToString(details.price), Decimal) == Some(details.price)
  {
    var r := SelectDishWithDetails(Some(pulse), details).value;
    DishRowReads(r, details.dishId, details.dishName, IntToString(details.price));
    ParseIntOfIntToString(details.price, Decimal);
  }

  /** The selection depends on nothing of the input pulse but its prompt. */
  lemma SelectionIgnoresPulse(pulse: Pulse, other: Pulse, details: DishDetails)
    requires pulse.prompt == DishSelectedPrompt && other.prompt == DishSelectedPrompt
    ensures SelectDishWithDetails(Some(other), details) == SelectDishWithDetails(Some(pulse), details)
  {
  }

  /**
   * The selection passes validatePulse's arity checks: one section with one
   * full row, or, when the dish id is itself "META", two sections without
   * data rows.
   */
  lemma SelectionValidates(pulse: Pulse, details: DishDetails)
    requires pulse.prompt == DishSelectedPrompt
    ensures SectionErrors(Sections(SelectDishWithDetails(Some(pulse), details).value.responses)) == []
  {
    var r := SelectDishWithDetails(Some(pulse), details).value;
    var fields := ["dishId", "dishName", "price"];
    var rows := [r.responses[1]];
    assert r.responses == [Row([Marker] + fields)] + rows;
    if IsMetaRow(rows[0]) {
      var first := Section(fields, []);
      var second := Section(rows[0].cells[1..], []);
      assert r.responses[1..] == rows && r.responses[0].cells[1..] == fields;
      assert Sections(r.responses) == [] + SectionsFrom(Some(first), rows);
      assert SectionsFrom(Some(first), rows) == [first] + SectionsFrom(Some(second), []);
      assert Sections(r.responses) == [first, second];
      assert SectionErrors([first, second]) == SectionErrors([first]) + RowErrors(1, |second.fields|, []);
      assert [first, second][..1] == [first];
      assert SectionErrors([first]) == SectionErrors([]) + RowErrors(0, |fields|, []);
    } else {
      SectionsOfTable(fields, rows);
      assert SectionErrors([Section(fields, rows)]) == SectionErrors([]) + RowErrors(0, |fields|, rows);
      RowErrorsNone(0, |fields|, rows);
    }
  }

  /** The history script: nothing is selected at T0, the chosen dish at T1. */
  lemma SelectDishHistory()
    ensures var t0 := Pulse("dish_selected", [Row(["META"]), Row([])], "U");
      && GetFieldValue(t0, "dishName") == Success(Null)
      && SelectDishWithDetails(Some(t0), DishDetails("D101", "Paneer Butter Masala", 180)).Success?
      && GetFieldValue(SelectDishWithDetails(Some(t0), DishDetails("D101", "Paneer Butter Masala", 180)).value, "dishName")
         == Success(Str("Paneer Butter Masala"))
  {
    var t0 := Pulse("dish_selected", [Row(["META"]), Row([])], "U");
    assert Fields(t0) == [];
    SelectedDishReads(t0, DishDetails("D101", "Paneer Butter Masala", 180));
  }
}
