/**
 * The pulse record and the pure accessors of the main helper library
 * (trello-dishSelect/ISEX1.1/pulse-helpers.js): classification as simple
 * or structured, the scalar read and the first-data-row field read.
 */
module Pulses {
  import opened JsRuntime

  /**
   * One element of a pulse's `responses` array: a scalar, or an array of
   * strings (a META header row or a data row).
   */
  datatype Cell = Scalar(text: string) | Row(cells: seq<string>)

  /** A pulse: what it answers, its responses, and its trivalence tag ("Y", "N" or "UN"). */
  datatype Pulse = Pulse(prompt: string, responses: seq<Cell>, trivalence: string)

  /** A signal: an ordered collection of pulses with an optional creation timestamp. */
  datatype Signal = Signal(pulses: seq<Pulse>, timestamp: Option<string>)

  const Marker: string := "META"

  /** `Array.isArray(row) && row[0] === "META"`. */
  predicate IsMetaRow(c: Cell) {
    c.Row? && |c.cells| > 0 && c.cells[0] == Marker
  }

  /**
   * How the helpers see a response when they index it, spread it or take
   * its length: an array as its cells, a string scalar as its characters.
   */
  function Cells(c: Cell): (r: seq<string>)
    ensures c.Row? ==> r == c.cells
    ensures c.Scalar? ==> |r| == |c.text| && forall i :: 0 <= i < |r| ==> r[i] == [c.text[i]]
  {
    match c
    case Row(cs) => cs
    case Scalar(s) => seq(|s|, i requires 0 <= i < |s| => [s[i]])
  }

  /** isSimplePulse: exactly one response, and it is not an array. */
  predicate IsSimplePulse(p: Pulse) {
    |p.responses| == 1 && !p.responses[0].Row?
  }

  /** isStructuredPulse: a non-empty responses array whose first element is a META row. */
  predicate IsStructuredPulse(p: Pulse) {
    |p.responses| > 0 && IsMetaRow(p.responses[0])
  }

  /** The two shapes exclude each other, and an empty responses array is neither. */
  lemma ClassificationExclusive(p: Pulse)
    ensures !(IsSimplePulse(p) && IsStructuredPulse(p))
    ensures p.responses == [] ==> !IsSimplePulse(p) && !IsStructuredPulse(p)
  {
  }

  /** The META row's field names, without the marker (`responses[0].slice(1)`). */
  function Fields(p: Pulse): (r: seq<string>)
    requires IsStructuredPulse(p)
    ensures [Marker] + r == p.responses[0].cells
  {
    p.responses[0].cells[1..]
  }

  /** getSimpleValue: the sole scalar of a simple pulse; throws on any other pulse. */
  function GetSimpleValue(p: Pulse): (r: Result<string>)
    ensures r.Success? <==> IsSimplePulse(p)
    ensures r.Failure? ==> r.error == NotSimple
    ensures r.Success? ==> p.responses == [Scalar(r.value)]
  {
    if !IsSimplePulse(p) then Failure(NotSimple) else Success(p.responses[0].text)
  }

  /**
   * getFieldValue: throws on a non-structured pulse; null when there is no
   * data row or the field's first index in the META row is -1 or 0;
   * otherwise the cell of the first data row (`responses[1]`) one position
   * to the left of that index.
   */
  function GetFieldValue(p: Pulse, field: string): (r: Result<JsValue>)
    ensures r.Failure? <==> !IsStructuredPulse(p)
    ensures r.Failure? ==> r.error == NotStructured
    ensures r.Success? ==>
      (r.value == Null <==> |p.responses| < 2 || field == Marker || field !in Fields(p))
    ensures r.Success? && |p.responses| >= 2 ==>
      forall i :: 1 <= i < |p.responses[0].cells| && p.responses[0].cells[i] == field
                  && field !in p.responses[0].cells[..i]
                  ==> r.value == CellRead(Cells(p.responses[1]), i - 1)
  {
    if !IsStructuredPulse(p) then Failure(NotStructured)
    else
      var meta := p.responses[0].cells;
      if |p.responses| < 2 then Success(Null)
      else
        var data := Cells(p.responses[1]);
        var fieldIndex := IndexOf(meta, field);
        if fieldIndex == -1 || fieldIndex == 0 then Success(Null)
        else Success(CellRead(data, fieldIndex - 1))
  }
}
