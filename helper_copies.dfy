/**
 * The trimmed copies of the pulse helpers and how they drift from the
 * main library: PulseAnswers/mypulse.js and Pulse_practice/my-first-pulses.js
 * (identical to each other: `fieldIndex <= 0` guard, no data-row guard),
 * Trello_Task/ISEX1.3/challenge-1/helpers/pulse-helpers.js (no
 * `length > 0` guard in isStructuredPulse, `-1 || 0` guard, no data-row
 * guard) and Pulse_practice/pulse_one.js (no checks at all). Where a copy
 * reads a property of `undefined` the model returns `Failure(TypeError)`.
 */
module HelperCopies {
  import opened JsRuntime
  import opened Pulses
  import opened PulseTables

  // ---------------------------------------------------------------
  // Classification without the length guard
  // ---------------------------------------------------------------

  /** `Array.isArray(responses[0]) && responses[0][0] === "META"`, reading `undefined` past the end. */
  predicate IsStructuredUnguarded(p: Pulse) {
    var first: Option<Cell> := At(p.responses, 0);
    first.Some? && first.value.Row? && At(first.value.cells, 0) == Some(Marker)
  }

  /** Dropping the `length > 0` guard changes nothing: `[][0]` is undefined, which is not an array. */
  lemma UnguardedStructureAgrees(p: Pulse)
    ensures IsStructuredUnguarded(p) <==> IsStructuredPulse(p)
  {
  }

  /** The unguarded structure test and isSimplePulse still exclude each other. */
  lemma UnguardedClassificationExclusive(p: Pulse)
    ensures !(IsSimplePulse(p) && IsStructuredUnguarded(p))
  {
    UnguardedStructureAgrees(p);
    ClassificationExclusive(p);
  }

  // ---------------------------------------------------------------
  // getFieldValue without the data-row guard
  // ---------------------------------------------------------------

  /**
   * getFieldValue of mypulse.js and my-first-pulses.js: null when the
   * field's first META index is at most 0; otherwise `responses[1][idx - 1]`,
   * a TypeError when there is no `responses[1]`.
   */
  function GetFieldValueNoRowGuard(p: Pulse, field: string): (r: Result<JsValue>)
    ensures !IsStructuredPulse(p) <==> r == Failure(NotStructured)
    ensures r == Failure(TypeError) <==>
      IsStructuredPulse(p) && field != Marker && field in Fields(p) && |p.responses| < 2
    ensures r == Success(Null) <==> IsStructuredPulse(p) && IndexOf(p.responses[0].cells, field) <= 0
    ensures r.Success? ==> r == GetFieldValue(p, field)
    ensures IsStructuredPulse(p) && |p.responses| >= 2 ==> r == GetFieldValue(p, field)
  {
    if !IsStructuredPulse(p) then Failure(NotStructured)
    else
      var meta := p.responses[0].cells;
      assert meta == [Marker] + Fields(p);
      var idx := IndexOf(meta, field);
      if idx <= 0 then Success(Null)
      else if |p.responses| < 2 then Failure(TypeError)
      else Success(CellRead(Cells(p.responses[1]), idx - 1))
  }

  /**
   * getFieldValue of the challenge-1 copy: the unguarded structure test and
   * the `=== -1 || === 0` guard. It is the same function as the `<= 0` copy
   * on every input.
   */
  function GetFieldValueChallenge(p: Pulse, field: string): (r: Result<JsValue>)
    ensures r == GetFieldValueNoRowGuard(p, field)
  {
    UnguardedStructureAgrees(p);
    if !IsStructuredUnguarded(p) then Failure(NotStructured)
    else
      var meta := p.responses[0].cells;
      var fieldIndex := IndexOf(meta, field);
      assert GetFieldValueNoRowGuard(p, field)
             == if fieldIndex <= 0 then Success(Null)
                else if |p.responses| < 2 then Failure(TypeError)
                else Success(CellRead(Cells(p.responses[1]), fieldIndex - 1));
      if fieldIndex == -1 || fieldIndex == 0 then Success(Null)
      else if |p.responses| < 2 then Failure(TypeError)
      else Success(CellRead(Cells(p.responses[1]), fieldIndex - 1))
  }

  // ---------------------------------------------------------------
  // getSimpleValue and toObject without checks
  // ---------------------------------------------------------------

  /** pulse_one's getSimpleValue: `responses[0]`, whatever it is (undefined on empty responses). */
  function GetSimpleValueUnchecked(p: Pulse): (r: Option<Cell>)
    ensures r.Some? <==> |p.responses| > 0
    ensures r.Some? ==> r.value == p.responses[0]
    ensures IsSimplePulse(p) ==> r == Some(Scalar(GetSimpleValue(p).value))
  {
    At(p.responses, 0)
  }

  /** `responses[1]` as toObject reads it, or no cells when it is missing. */
  function DataCellsOrEmpty(p: Pulse): seq<string> {
    if |p.responses| >= 2 then Cells(p.responses[1]) else []
  }

  /**
   * toObject of mypulse.js and my-first-pulses.js: throws on a
   * non-structured pulse; reading `data[0]` throws a TypeError when there is a
   * field but no `responses[1]`; otherwise the forEach fill.
   */
  method ToObjectNoRowGuard(p: Pulse) returns (r: Result<map<string, JsValue>>)
    ensures !IsStructuredPulse(p) <==> r == Failure(NotStructured)
    ensures r == Failure(TypeError) <==> IsStructuredPulse(p) && |Fields(p)| > 0 && |p.responses| < 2
    ensures r.Success? ==> r.value == RowObject(Fields(p), DataCellsOrEmpty(p))
    ensures IsStructuredPulse(p) && |p.responses| >= 2 ==> r == Success(RowObject(Fields(p), Cells(p.responses[1])))
  {
    if !IsStructuredPulse(p) {
      return Failure(NotStructured);
    }
    var meta := p.responses[0].cells[1..];
    if |meta| > 0 && |p.responses| < 2 {
      return Failure(TypeError);
    }
    var obj := FillObject(meta, DataCellsOrEmpty(p));
    return Success(obj);
  }

  /** `row.slice(1)` on an array. */
  function DropFirst(cells: seq<string>): (r: seq<string>)
    ensures |cells| > 0 ==> r == cells[1..]
    ensures |cells| == 0 ==> r == []
  {
    if |cells| == 0 then [] else cells[1..]
  }

  /**
   * pulse_one's toObject: no structure check. Empty responses make
   * `responses[0].slice` a TypeError; a string first response has no
   * `forEach` (TypeError); a field with no `responses[1]` is a TypeError.
   * On a structured pulse with a data row it is the main toObject.
   */
  method ToObjectUnchecked(p: Pulse) returns (r: Result<map<string, JsValue>>)
    ensures r.Failure? ==> r.error == TypeError
    ensures r.Failure? <==>
      |p.responses| == 0 || p.responses[0].Scalar?
      || (|DropFirst(p.responses[0].cells)| > 0 && |p.responses| < 2)
    ensures r.Success? ==> r.value == RowObject(DropFirst(p.responses[0].cells), DataCellsOrEmpty(p))
    ensures IsStructuredPulse(p) && |p.responses| >= 2 ==> r == Success(RowObject(Fields(p), Cells(p.responses[1])))
  {
    if |p.responses| == 0 || p.responses[0].Scalar? {
      return Failure(TypeError);
    }
    var meta := DropFirst(p.responses[0].cells);
    if |meta| > 0 && |p.responses| < 2 {
      return Failure(TypeError);
    }
    var obj := FillObject(meta, DataCellsOrEmpty(p));
    return Success(obj);
  }
}
