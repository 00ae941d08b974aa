/**
 * The table-walking half of trello-dishSelect/ISEX1.1/pulse-helpers.js:
 * getFieldValues, toObject, toObjects, parseStructuredPulse and
 * validatePulse. Their loops are methods; each is proved against the
 * specification functions of this module, whose meaning the lemmas state.
 */
module PulseTables {
  import opened JsRuntime
  import opened Pulses

  // ---------------------------------------------------------------
  // The first section
  // ---------------------------------------------------------------

  /** The position of the first META row of `rows`, or |rows| when there is none. */
  function MetaIndex(rows: seq<Cell>): (k: nat)
    ensures k <= |rows|
    ensures forall j :: 0 <= j < k ==> !IsMetaRow(rows[j])
    ensures k < |rows| ==> IsMetaRow(rows[k])
  {
    if |rows| == 0 || IsMetaRow(rows[0]) then 0 else 1 + MetaIndex(rows[1..])
  }

  /** The data rows of a structured pulse's first section: after its META row, up to the next one. */
  function FirstSectionRows(p: Pulse): (r: seq<Cell>)
    requires IsStructuredPulse(p)
    ensures |r| < |p.responses|
    ensures forall j :: 0 <= j < |r| ==> r[j] == p.responses[j + 1] && !IsMetaRow(r[j])
    ensures |r| + 1 < |p.responses| ==> IsMetaRow(p.responses[|r| + 1])
  {
    p.responses[1..1 + MetaIndex(p.responses[1..])]
  }

  /** A walk from row 1 that stops at `i`, on a META row or at the end, has walked exactly the first section. */
  lemma FirstSectionEnd(p: Pulse, i: nat)
    requires IsStructuredPulse(p) && 1 <= i <= |p.responses|
    requires forall j :: 1 <= j < i ==> !IsMetaRow(p.responses[j])
    requires i < |p.responses| ==> IsMetaRow(p.responses[i])
    ensures FirstSectionRows(p) == p.responses[1..i]
  {
  }

  /**
   * getFieldValues: the field across every data row of the first section
   * (a row too short for the column reads as undefined), [] for a field
   * absent from the META row (or the marker itself); throws on a
   * non-structured pulse.
   */
  method GetFieldValues(p: Pulse, field: string) returns (r: Result<seq<JsValue>>)
    ensures r.Failure? <==> !IsStructuredPulse(p)
    ensures r.Failure? ==> r.error == NotStructured
    ensures r.Success? && (field == Marker || field !in Fields(p)) ==> r.value == []
    ensures r.Success? && field != Marker && field in Fields(p) ==>
      var rows := FirstSectionRows(p);
      var k := IndexOf(p.responses[0].cells, field);
      |r.value| == |rows| && forall j :: 0 <= j < |rows| ==> r.value[j] == CellRead(Cells(rows[j]), k - 1)
    ensures r.Success? && field != Marker && field in Fields(p) && |p.responses| >= 2
            && !IsMetaRow(p.responses[1]) ==>
      |r.value| > 0 && GetFieldValue(p, field) == Success(r.value[0])
  {
    if !IsStructuredPulse(p) {
      return Failure(NotStructured);
    }
    var meta := p.responses[0].cells;
    assert meta == [Marker] + Fields(p);
    var fieldIndex := IndexOf(meta, field);
    if fieldIndex == -1 || fieldIndex == 0 {
      return Success([]);
    }
    var values := FirstSectionColumn(p, fieldIndex - 1);
    if |p.responses| >= 2 && !IsMetaRow(p.responses[1]) {
      FirstFieldValue(p, field);
    }
    return Success(values);
  }

  /** The loop of getFieldValues: column `col` of each data row, from row 1 up to the next META row. */
  method FirstSectionColumn(p: Pulse, col: int) returns (values: seq<JsValue>)
    requires IsStructuredPulse(p)
    ensures |values| == |FirstSectionRows(p)|
    ensures forall j :: 0 <= j < |values| ==> values[j] == CellRead(Cells(FirstSectionRows(p)[j]), col)
  {
    var rs := p.responses;
    values := [];
    var i := 1;
    while i < |rs|
      invariant 1 <= i <= |rs|
      invariant forall j :: 1 <= j < i ==> !IsMetaRow(rs[j])
      invariant |values| == i - 1
      invariant forall j :: 0 <= j < i - 1 ==> values[j] == CellRead(Cells(rs[j + 1]), col)
    {
      var row := rs[i];
      if IsMetaRow(row) {
        break;
      }
      values := values + [CellRead(Cells(row), col)];
      i := i + 1;
    }
    FirstSectionEnd(p, i);
  }

  /** getFieldValue reads the column in the first data row, the same cell getFieldValues lists first. */
  lemma FirstFieldValue(p: Pulse, field: string)
    requires IsStructuredPulse(p) && field != Marker && field in Fields(p)
    requires |p.responses| >= 2 && !IsMetaRow(p.responses[1])
    ensures |FirstSectionRows(p)| > 0
    ensures GetFieldValue(p, field)
            == Success(CellRead(Cells(FirstSectionRows(p)[0]), IndexOf(p.responses[0].cells, field) - 1))
  {
    var meta := p.responses[0].cells;
    assert meta == [Marker] + Fields(p);
    assert field in meta;
    var k := IndexOf(meta, field);
    assert meta[k] == field && field !in meta[..k];
    assert k != 0;
    assert FirstSectionRows(p)[0] == p.responses[1];
    assert GetFieldValue(p, field).value == CellRead(Cells(p.responses[1]), k - 1);
  }

  // ---------------------------------------------------------------
  // Rows as objects
  // ---------------------------------------------------------------

  /**
   * The object `fields.forEach((field, idx) => { obj[field] = data[idx]; })`
   * builds, one assignment per field in order.
   */
  function RowObject(fields: seq<string>, data: seq<string>): map<string, JsValue> {
    if |fields| == 0 then map[]
    else RowObject(fields[..|fields| - 1], data)[fields[|fields| - 1] := CellRead(data, |fields| - 1)]
  }

  /**
   * The filled object has one key per field name, mapped to the cell at the
   * LAST position of that name: a later duplicate overwrites an earlier one.
   */
  lemma {:induction false} RowObjectMeaning(fields: seq<string>, data: seq<string>)
    ensures RowObject(fields, data).Keys == set f | f in fields
    ensures forall f :: f in fields ==> RowObject(fields, data)[f] == CellRead(data, LastIndexOf(fields, f))
  {
    if |fields| > 0 {
      var n := |fields| - 1;
      RowObjectMeaning(fields[..n], data);
      assert fields == fields[..n] + [fields[n]];
      forall f | f in fields
        ensures RowObject(fields, data)[f] == CellRead(data, LastIndexOf(fields, f))
      {
        if f != fields[n] {
          assert f in fields[..n];
        }
      }
    }
  }

  /** One more field assigns its own position, after all the earlier ones. */
  lemma RowObjectSnoc(fields: seq<string>, f: string, data: seq<string>)
    ensures RowObject(fields + [f], data) == RowObject(fields, data)[f := CellRead(data, |fields|)]
  {
    assert (fields + [f])[..|fields|] == fields;
  }

  /** The forEach fill shared by every copy of toObject. */
  method FillObject(fields: seq<string>, data: seq<string>) returns (obj: map<string, JsValue>)
    ensures obj == RowObject(fields, data)
  {
    obj := map[];
    var idx := 0;
    while idx < |fields|
      invariant 0 <= idx <= |fields|
      invariant obj == RowObject(fields[..idx], data)
    {
      assert fields[..idx + 1][..idx] == fields[..idx];
      obj := obj[fields[idx] := CellRead(data, idx)];
      idx := idx + 1;
    }
    assert fields[..idx] == fields;
  }

  /**
   * toObject: throws on a non-structured pulse, {} when there is no data
   * row, otherwise the first data row (`responses[1]`) as an object keyed
   * by the META fields.
   */
  method ToObject(p: Pulse) returns (r: Result<map<string, JsValue>>)
    ensures r.Failure? <==> !IsStructuredPulse(p)
    ensures r.Failure? ==> r.error == NotStructured
    ensures r.Success? && |p.responses| < 2 ==> r.value == map[]
    ensures r.Success? && |p.responses| >= 2 ==> r.value == RowObject(Fields(p), Cells(p.responses[1]))
  {
    if !IsStructuredPulse(p) {
      return Failure(NotStructured);
    }
    if |p.responses| < 2 {
      return Success(map[]);
    }
    var meta := p.responses[0].cells[1..];
    var data := Cells(p.responses[1]);
    var obj := FillObject(meta, data);
    return Success(obj);
  }

  /** toObjects: one object per data row of the first section; throws on a non-structured pulse. */
  method ToObjects(p: Pulse) returns (r: Result<seq<map<string, JsValue>>>)
    ensures r.Failure? <==> !IsStructuredPulse(p)
    ensures r.Failure? ==> r.error == NotStructured
    ensures r.Success? ==>
      var rows := FirstSectionRows(p);
      |r.value| == |rows| && forall j :: 0 <= j < |rows| ==> r.value[j] == RowObject(Fields(p), Cells(rows[j]))
    ensures r.Success? && |p.responses| >= 2 && !IsMetaRow(p.responses[1]) ==>
      |r.value| > 0 && r.value[0] == RowObject(Fields(p), Cells(p.responses[1]))
  {
    if !IsStructuredPulse(p) {
      return Failure(NotStructured);
    }
    var meta := Fields(p);
    var rs := p.responses;
    var objects: seq<map<string, JsValue>> := [];
    var i := 1;
    while i < |rs|
      invariant 1 <= i <= |rs|
      invariant forall j :: 1 <= j < i ==> !IsMetaRow(rs[j])
      invariant |objects| == i - 1
      invariant forall j :: 0 <= j < i - 1 ==> objects[j] == RowObject(meta, Cells(rs[j + 1]))
    {
      var row := rs[i];
      if IsMetaRow(row) {
        break;
      }
      var obj := FillObject(meta, Cells(row));
      objects := objects + [obj];
      i := i + 1;
    }
    FirstSectionEnd(p, i);
    return Success(objects);
  }

  /** A row whose cells line up one-to-one with distinct fields maps each field to its own cell. */
  lemma RowObjectOfDistinctFields(fields: seq<string>, data: seq<string>, i: nat)
    requires i < |fields| && i < |data|
    requires forall a, b :: 0 <= a < b < |fields| ==> fields[a] != fields[b]
    ensures fields[i] in RowObject(fields, data) && RowObject(fields, data)[fields[i]] == Str(data[i])
  {
    RowObjectMeaning(fields, data);
    var k := LastIndexOf(fields, fields[i]);
    assert k == i;
  }

  // ---------------------------------------------------------------
  // Sections
  // ---------------------------------------------------------------

  /** One section of parseStructuredPulse: the META row's fields (marker removed) and its data rows. */
  datatype Section = Section(fields: seq<string>, data: seq<Cell>)

  /**
   * The sections the parser still emits for `rows` when `current` is the
   * section it is filling: a META row closes it and opens a new one, any
   * other row joins it, and rows before the first META row are dropped.
   */
  function SectionsFrom(current: Option<Section>, rows: seq<Cell>): seq<Section>
    decreases |rows|
  {
    if |rows| == 0 then OptionSeq(current)
    else if IsMetaRow(rows[0]) then
      OptionSeq(current) + SectionsFrom(Some(Section(rows[0].cells[1..], [])), rows[1..])
    else if current.Some? then
      SectionsFrom(Some(current.value.(data := current.value.data + [rows[0]])), rows[1..])
    else SectionsFrom(None, rows[1..])
  }

  ghost function Sections(rows: seq<Cell>): seq<Section> {
    SectionsFrom(None, rows)
  }

  /** parseStructuredPulse: the pulse's sections; throws on a non-structured pulse. */
  method ParseStructuredPulse(p: Pulse) returns (r: Result<seq<Section>>)
    ensures r.Failure? <==> !IsStructuredPulse(p)
    ensures r.Failure? ==> r.error == NotStructured
    ensures r.Success? ==> r.value == Sections(p.responses)
  {
    if !IsStructuredPulse(p) {
      return Failure(NotStructured);
    }
    var rs := p.responses;
    var sections: seq<Section> := [];
    var current: Option<Section> := None;
    var i := 0;
    while i < |rs|
      invariant 0 <= i <= |rs|
      invariant sections + SectionsFrom(current, rs[i..]) == Sections(rs)
    {
      var row := rs[i];
      assert rs[i..][1..] == rs[i + 1..];
      if IsMetaRow(row) {
        sections := sections + OptionSeq(current);
        current := Some(Section(row.cells[1..], []));
      } else if current.Some? {
        current := Some(current.value.(data := current.value.data + [row]));
      }
      i := i + 1;
    }
    sections := sections + OptionSeq(current);
    return Success(sections);
  }

  /** The rows a section stands for: its META row, then its data rows. */
  function Render(s: Section): (r: seq<Cell>)
    ensures |r| == 1 + |s.data| && IsMetaRow(r[0]) && r[1..] == s.data
  {
    [Row([Marker] + s.fields)] + s.data
  }

  function Flatten(sections: seq<Section>): seq<Cell> {
    if |sections| == 0 then [] else Render(sections[0]) + Flatten(sections[1..])
  }

  /** The number of META rows among `rows`. */
  function MetaCount(rows: seq<Cell>): nat {
    if |rows| == 0 then 0 else (if IsMetaRow(rows[0]) then 1 else 0) + MetaCount(rows[1..])
  }

  lemma {:induction false} FlattenSectionsFrom(c: Section, rows: seq<Cell>)
    ensures Flatten(SectionsFrom(Some(c), rows)) == Render(c) + rows
    decreases |rows|
  {
    if |rows| == 0 {
      assert Flatten([c]) == Render(c) + Flatten([]);
    } else if IsMetaRow(rows[0]) {
      var next := Section(rows[0].cells[1..], []);
      FlattenSectionsFrom(next, rows[1..]);
      assert [Marker] + rows[0].cells[1..] == rows[0].cells;
      assert Render(next) == [rows[0]];
      var rest := SectionsFrom(Some(next), rows[1..]);
      assert ([c] + rest)[1..] == rest;
      assert Flatten([c] + rest) == Render(c) + Flatten(rest);
      assert rows == [rows[0]] + rows[1..];
    } else {
      var grown := c.(data := c.data + [rows[0]]);
      FlattenSectionsFrom(grown, rows[1..]);
      assert Render(grown) == Render(c) + [rows[0]];
      assert rows == [rows[0]] + rows[1..];
    }
  }

  /**
   * Re-prefixing "META" to each section's fields and following it with the
   * section's data rows gives back the responses of a structured pulse.
   */
  lemma SectionsRoundTrip(p: Pulse)
    requires IsStructuredPulse(p)
    ensures Flatten(Sections(p.responses)) == p.responses
  {
    var rs := p.responses;
    var first := Section(rs[0].cells[1..], []);
    assert Sections(rs) == [] + SectionsFrom(Some(first), rs[1..]);
    assert [] + SectionsFrom(Some(first), rs[1..]) == SectionsFrom(Some(first), rs[1..]);
    FlattenSectionsFrom(first, rs[1..]);
    assert [Marker] + rs[0].cells[1..] == rs[0].cells;
    assert Render(first) == [rs[0]];
    assert rs == [rs[0]] + rs[1..];
  }

  lemma {:induction false} SectionsFromCount(current: Option<Section>, rows: seq<Cell>)
    ensures |SectionsFrom(current, rows)| == |OptionSeq(current)| + MetaCount(rows)
    decreases |rows|
  {
    if |rows| > 0 {
      if IsMetaRow(rows[0]) {
        SectionsFromCount(Some(Section(rows[0].cells[1..], [])), rows[1..]);
      } else if current.Some? {
        SectionsFromCount(Some(current.value.(data := current.value.data + [rows[0]])), rows[1..]);
      } else {
        SectionsFromCount(None, rows[1..]);
      }
    }
  }

  /** parseStructuredPulse makes exactly one section per META row. */
  lemma SectionsCount(rows: seq<Cell>)
    ensures |Sections(rows)| == MetaCount(rows)
  {
    SectionsFromCount(None, rows);
  }

  lemma {:induction false} SectionsFromHead(c: Section, rows: seq<Cell>)
    ensures |SectionsFrom(Some(c), rows)| > 0
    ensures SectionsFrom(Some(c), rows)[0] == c.(data := c.data + rows[..MetaIndex(rows)])
    decreases |rows|
  {
    if |rows| > 0 && !IsMetaRow(rows[0]) {
      SectionsFromHead(c.(data := c.data + [rows[0]]), rows[1..]);
      var m := MetaIndex(rows[1..]);
      assert rows[..1 + m] == [rows[0]] + rows[1..][..m];
      assert c.data + [rows[0]] + rows[1..][..m] == c.data + rows[..1 + m];
    } else {
      assert c.data + rows[..0] == c.data;
    }
  }

  /** The first section is the META row's fields with exactly the rows getFieldValues and toObjects walk. */
  lemma FirstSection(p: Pulse)
    requires IsStructuredPulse(p)
    ensures |Sections(p.responses)| > 0
    ensures Sections(p.responses)[0] == Section(Fields(p), FirstSectionRows(p))
  {
    SectionsFromHead(Section(p.responses[0].cells[1..], []), p.responses[1..]);
  }

  lemma {:induction false} SectionsFromWithoutMeta(c: Section, rows: seq<Cell>)
    requires forall j :: 0 <= j < |rows| ==> !IsMetaRow(rows[j])
    ensures SectionsFrom(Some(c), rows) == [c.(data := c.data + rows)]
    decreases |rows|
  {
    if |rows| == 0 {
      assert c.data + rows == c.data;
    } else {
      assert !IsMetaRow(rows[0]);
      SectionsFromWithoutMeta(c.(data := c.data + [rows[0]]), rows[1..]);
      assert c.data + [rows[0]] + rows[1..] == c.data + rows;
    }
  }

  // ---------------------------------------------------------------
  // Validation
  // ---------------------------------------------------------------

  /** One problem validatePulse reports. */
  datatype ValidationError =
    | MissingPrompt
    | InvalidTrivalence
    | FieldCountMismatch(section: nat, row: nat, expected: nat, got: nat)

  /** validatePulse's result: `valid` and the errors in the order they were found. */
  datatype ValidationReport = ValidationReport(valid: bool, errors: seq<ValidationError>)

  predicate IsTrivalence(t: string) {
    t == "Y" || t == "N" || t == "UN"
  }

  /** The checks on the pulse itself, in source order: prompt, then trivalence. */
  function HeaderErrors(p: Pulse): seq<ValidationError> {
    (if p.prompt == "" then [MissingPrompt] else [])
    + (if !IsTrivalence(p.trivalence) then [InvalidTrivalence] else [])
  }

  /** The arity errors of one section's rows, in row order. */
  function RowErrors(si: nat, expected: nat, rows: seq<Cell>): seq<ValidationError> {
    if |rows| == 0 then []
    else
      var n := |rows| - 1;
      RowErrors(si, expected, rows[..n])
      + (if |Cells(rows[n])| != expected then [FieldCountMismatch(si, n, expected, |Cells(rows[n])|)] else [])
  }

  /** The arity errors of every section, section by section. */
  function SectionErrors(sections: seq<Section>): seq<ValidationError> {
    if |sections| == 0 then []
    else
      var n := |sections| - 1;
      SectionErrors(sections[..n]) + RowErrors(n, |sections[n].fields|, sections[n].data)
  }

  /** The error a row `j` of section `si` gets when the section has `expected` fields. */
  predicate IsRowError(e: ValidationError, si: nat, expected: nat, rows: seq<Cell>) {
    e.FieldCountMismatch? && e.section == si && e.row < |rows| && e.expected == expected
    && e.got == |Cells(rows[e.row])| && e.got != expected
  }

  /** Every row error is a genuine mismatch of a row of `rows`. */
  lemma {:induction false} RowErrorsSound(si: nat, expected: nat, rows: seq<Cell>)
    ensures forall e :: e in RowErrors(si, expected, rows) ==> IsRowError(e, si, expected, rows)
  {
    if |rows| > 0 {
      var n := |rows| - 1;
      RowErrorsSound(si, expected, rows[..n]);
      var prior := RowErrors(si, expected, rows[..n]);
      forall e | e in RowErrors(si, expected, rows)
        ensures IsRowError(e, si, expected, rows)
      {
        if e in prior {
          assert rows[..n][e.row] == rows[e.row];
        }
      }
    }
  }

  /** Rows that all have the expected field count produce no error. */
  lemma {:induction false} RowErrorsNone(si: nat, expected: nat, rows: seq<Cell>)
    requires forall j :: 0 <= j < |rows| ==> |Cells(rows[j])| == expected
    ensures RowErrors(si, expected, rows) == []
  {
    if |rows| > 0 {
      RowErrorsNone(si, expected, rows[..|rows| - 1]);
    }
  }

  /** Every mismatching row gets its error. */
  lemma {:induction false} RowErrorsComplete(si: nat, expected: nat, rows: seq<Cell>)
    ensures forall j :: 0 <= j < |rows| && |Cells(rows[j])| != expected ==>
      FieldCountMismatch(si, j, expected, |Cells(rows[j])|) in RowErrors(si, expected, rows)
  {
    if |rows| > 0 {
      var n := |rows| - 1;
      RowErrorsComplete(si, expected, rows[..n]);
      forall j | 0 <= j < |rows| && |Cells(rows[j])| != expected
        ensures FieldCountMismatch(si, j, expected, |Cells(rows[j])|) in RowErrors(si, expected, rows)
      {
        if j < n {
          assert rows[..n][j] == rows[j];
        }
      }
    }
  }

  /** Arity errors listed by increasing row. */
  predicate ByRow(r: seq<ValidationError>) {
    forall a, b :: 0 <= a < b < |r| ==> r[a].FieldCountMismatch? && r[b].FieldCountMismatch? && r[a].row < r[b].row
  }

  /** Appending an error for a later row keeps the list in row order. */
  lemma ByRowSnoc(prior: seq<ValidationError>, e: ValidationError)
    requires ByRow(prior) && e.FieldCountMismatch?
    requires forall x :: x in prior ==> x.FieldCountMismatch? && x.row < e.row
    ensures ByRow(prior + [e])
  {
    var r := prior + [e];
    forall a, b | 0 <= a < b < |r|
      ensures r[a].FieldCountMismatch? && r[b].FieldCountMismatch? && r[a].row < r[b].row
    {
      assert r[a] == prior[a] && prior[a] in prior;
      if b < |prior| {
        assert r[b] == prior[b];
      }
    }
  }

  /** Row errors come in row order. */
  lemma {:induction false} RowErrorsOrdered(si: nat, expected: nat, rows: seq<Cell>)
    ensures ByRow(RowErrors(si, expected, rows))
  {
    if |rows| > 0 {
      var n := |rows| - 1;
      RowErrorsOrdered(si, expected, rows[..n]);
      var prior := RowErrors(si, expected, rows[..n]);
      if |Cells(rows[n])| != expected {
        RowErrorsSound(si, expected, rows[..n]);
        var e := FieldCountMismatch(si, n, expected, |Cells(rows[n])|);
        forall x | x in prior
          ensures x.FieldCountMismatch? && x.row < e.row
        {
          assert IsRowError(x, si, expected, rows[..n]);
        }
        ByRowSnoc(prior, e);
        assert RowErrors(si, expected, rows) == prior + [e];
      } else {
        assert prior + [] == prior;
        assert RowErrors(si, expected, rows) == prior;
      }
    }
  }

  /** An arity error that some section of `sections` gets. */
  predicate IsSectionError(e: ValidationError, sections: seq<Section>) {
    e.FieldCountMismatch? && e.section < |sections|
    && IsRowError(e, e.section, |sections[e.section].fields|, sections[e.section].data)
  }

  /** Every section error is a genuine mismatch of a row of some section. */
  lemma {:induction false} SectionErrorsSound(sections: seq<Section>)
    ensures forall e :: e in SectionErrors(sections) ==> IsSectionError(e, sections)
  {
    if |sections| > 0 {
      var n := |sections| - 1;
      SectionErrorsSound(sections[..n]);
      RowErrorsSound(n, |sections[n].fields|, sections[n].data);
      var prior := SectionErrors(sections[..n]);
      forall e | e in SectionErrors(sections)
        ensures IsSectionError(e, sections)
      {
        if e in prior {
          assert sections[..n][e.section] == sections[e.section];
        }
      }
    }
  }

  /** Every mismatching row of every section gets its error. */
  lemma {:induction false} SectionErrorsComplete(sections: seq<Section>)
    ensures forall i, j :: 0 <= i < |sections| && 0 <= j < |sections[i].data|
                           && |Cells(sections[i].data[j])| != |sections[i].fields| ==>
      FieldCountMismatch(i, j, |sections[i].fields|, |Cells(sections[i].data[j])|) in SectionErrors(sections)
  {
    if |sections| > 0 {
      var n := |sections| - 1;
      SectionErrorsComplete(sections[..n]);
      RowErrorsComplete(n, |sections[n].fields|, sections[n].data);
      forall i, j | 0 <= i < |sections| && 0 <= j < |sections[i].data|
                    && |Cells(sections[i].data[j])| != |sections[i].fields|
        ensures FieldCountMismatch(i, j, |sections[i].fields|, |Cells(sections[i].data[j])|) in SectionErrors(sections)
      {
        if i < n {
          assert sections[..n][i] == sections[i];
        }
      }
    }
  }

  /** Arity errors listed by increasing section, and by increasing row within a section. */
  predicate BySectionThenRow(r: seq<ValidationError>) {
    forall a, b :: 0 <= a < b < |r| ==>
      && r[a].FieldCountMismatch? && r[b].FieldCountMismatch?
      && (r[a].section < r[b].section || (r[a].section == r[b].section && r[a].row < r[b].row))
  }

  /** The errors of a later section, in row order, appended after ordered ones stay ordered. */
  lemma BySectionAppend(prior: seq<ValidationError>, last: seq<ValidationError>, n: nat)
    requires BySectionThenRow(prior) && ByRow(last)
    requires forall x :: x in prior ==> x.FieldCountMismatch? && x.section < n
    requires forall x :: x in last ==> x.FieldCountMismatch? && x.section == n
    ensures BySectionThenRow(prior + last)
  {
    var r := prior + last;
    forall a, b | 0 <= a < b < |r|
      ensures && r[a].FieldCountMismatch? && r[b].FieldCountMismatch?
              && (r[a].section < r[b].section || (r[a].section == r[b].section && r[a].row < r[b].row))
    {
      if b < |prior| {
        assert r[a] == prior[a] && r[b] == prior[b];
      } else if a < |prior| {
        assert r[a] == prior[a] && prior[a] in prior;
        assert r[b] == last[b - |prior|] && last[b - |prior|] in last;
      } else {
        assert r[a] == last[a - |prior|] && r[b] == last[b - |prior|];
        assert r[a] in last && r[b] in last;
      }
    }
  }

  /** Section errors come ordered by section, and by row within a section. */
  lemma {:induction false} SectionErrorsOrdered(sections: seq<Section>)
    ensures BySectionThenRow(SectionErrors(sections))
  {
    if |sections| > 0 {
      var n := |sections| - 1;
      SectionErrorsOrdered(sections[..n]);
      SectionErrorsSound(sections[..n]);
      RowErrorsSound(n, |sections[n].fields|, sections[n].data);
      RowErrorsOrdered(n, |sections[n].fields|, sections[n].data);
      var prior := SectionErrors(sections[..n]);
      var last := RowErrors(n, |sections[n].fields|, sections[n].data);
      forall x | x in prior
        ensures x.FieldCountMismatch? && x.section < n
      {
        assert IsSectionError(x, sections[..n]);
      }
      forall x | x in last
        ensures x.FieldCountMismatch? && x.section == n
      {
        assert IsRowError(x, n, |sections[n].fields|, sections[n].data);
      }
      BySectionAppend(prior, last, n);
      assert SectionErrors(sections) == prior + last;
    }
  }

  lemma SectionErrorsSnoc(sections: seq<Section>, si: nat)
    requires si < |sections|
    ensures SectionErrors(sections[..si + 1])
            == SectionErrors(sections[..si]) + RowErrors(si, |sections[si].fields|, sections[si].data)
  {
    assert sections[..si + 1][..si] == sections[..si];
  }

  /** Every error validatePulse reports, in the order it reports them. */
  ghost function ValidationErrors(p: Pulse): seq<ValidationError> {
    HeaderErrors(p) + (if IsStructuredPulse(p) then SectionErrors(Sections(p.responses)) else [])
  }

  /** The inner forEach of validatePulse: the arity errors of section `si`. */
  method CheckSection(si: nat, section: Section) returns (errors: seq<ValidationError>)
    ensures errors == RowErrors(si, |section.fields|, section.data)
  {
    var fieldCount := |section.fields|;
    errors := [];
    var ri := 0;
    while ri < |section.data|
      invariant 0 <= ri <= |section.data|
      invariant errors == RowErrors(si, fieldCount, section.data[..ri])
    {
      var row := section.data[ri];
      assert section.data[..ri + 1][..ri] == section.data[..ri];
      if |Cells(row)| != fieldCount {
        errors := errors + [FieldCountMismatch(si, ri, fieldCount, |Cells(row)|)];
      }
      ri := ri + 1;
    }
    assert section.data[..ri] == section.data;
  }

  /** The outer forEach of validatePulse: the arity errors of every section, in order. */
  method CheckSections(sections: seq<Section>) returns (errors: seq<ValidationError>)
    ensures errors == SectionErrors(sections)
  {
    errors := [];
    var si := 0;
    while si < |sections|
      invariant 0 <= si <= |sections|
      invariant errors == SectionErrors(sections[..si])
    {
      var sectionErrors := CheckSection(si, sections[si]);
      SectionErrorsSnoc(sections, si);
      errors := errors + sectionErrors;
      si := si + 1;
    }
    assert sections[..si] == sections;
  }

  /** validatePulse: never throws; reports every error, and is valid iff there is none. */
  method ValidatePulse(p: Pulse) returns (report: ValidationReport)
    ensures report.errors == ValidationErrors(p)
    ensures report.valid <==> report.errors == []
  {
    var errors: seq<ValidationError> := [];
    if p.prompt == "" {
      errors := errors + [MissingPrompt];
    }
    if !IsTrivalence(p.trivalence) {
      errors := errors + [InvalidTrivalence];
    }
    assert errors == HeaderErrors(p);
    if IsStructuredPulse(p) {
      var parsed := ParseStructuredPulse(p);
      var sectionErrors := CheckSections(parsed.value);
      assert sectionErrors == SectionErrors(Sections(p.responses));
      errors := errors + sectionErrors;
    } else {
      assert errors == HeaderErrors(p) + [];
    }
    assert errors == ValidationErrors(p);
    report := ValidationReport(|errors| == 0, errors);
  }

  /** A structured pulse is free of arity errors iff every data row has its section's field count. */
  lemma ArityErrorsFreeIff(p: Pulse)
    requires IsStructuredPulse(p)
    ensures SectionErrors(Sections(p.responses)) == [] <==>
      forall i, j :: 0 <= i < |Sections(p.responses)| && 0 <= j < |Sections(p.responses)[i].data| ==>
        |Cells(Sections(p.responses)[i].data[j])| == |Sections(p.responses)[i].fields|
  {
    var secs := Sections(p.responses);
    SectionErrorsSound(secs);
    SectionErrorsComplete(secs);
    var errs := SectionErrors(secs);
    if errs != [] {
      assert errs[0] in errs;
    }
  }

  /** The sections of a single table: its META row and then rows none of which is a META row. */
  lemma SectionsOfTable(fields: seq<string>, rows: seq<Cell>)
    requires forall j :: 0 <= j < |rows| ==> !IsMetaRow(rows[j])
    ensures Sections([Row([Marker] + fields)] + rows) == [Section(fields, rows)]
  {
    var rs := [Row([Marker] + fields)] + rows;
    assert rs[1..] == rows;
    assert rs[0].cells[1..] == fields;
    assert IsMetaRow(rs[0]);
    var first := Section(fields, []);
    assert SectionsFrom(None, rs) == [] + SectionsFrom(Some(first), rows);
    SectionsFromWithoutMeta(first, rows);
    assert [] + rows == rows;
  }

  /**
   * A META row with k fields followed by data rows of length k (none of
   * them a META row), with a non-empty prompt and a valid trivalence,
   * validates cleanly.
   */
  lemma WellFormedTableValidates(prompt: string, fields: seq<string>, rows: seq<Cell>, trivalence: string)
    requires prompt != "" && IsTrivalence(trivalence)
    requires forall j :: 0 <= j < |rows| ==> !IsMetaRow(rows[j]) && |Cells(rows[j])| == |fields|
    ensures ValidationErrors(Pulse(prompt, [Row([Marker] + fields)] + rows, trivalence)) == []
  {
    SectionsOfTable(fields, rows);
    assert SectionErrors([Section(fields, rows)]) == SectionErrors([]) + RowErrors(0, |fields|, rows);
    RowErrorsNone(0, |fields|, rows);
  }
}
