/**
 * The example pulses of Pulse_practice/my-first-pulses.js and
 * Pulse_practice/pulse_one.js, and the reads their scripts make on them.
 */
module Fixtures {
  import opened JsRuntime
  import opened Pulses
  import opened PulseTables
  import opened HelperCopies

  /** A door lock: a simple pulse. */
  const DoorLock: Pulse := Pulse("door_lock_state", [Scalar("locked")], "Y")

  /** A book: a structured pulse with one data row. */
  const BookInfo: Pulse := Pulse("book_info", [
    Row(["META", "title", "author", "year", "price"]),
    Row(["Clean Code", "Robert C. Martin", "2008", "35"])
  ], "N")

  /** Login status: a simple pulse. */
  const UserLoggedIn: Pulse := Pulse("user_logged_in", [Scalar("yes")], "N")

  /** A selected dish: a structured pulse with one data row. */
  const DishSelected: Pulse := Pulse("dish_selected", [
    Row(["META", "name", "price", "chef"]),
    Row(["Vegetable Biryani", "12.99", "Kumar"])
  ], "Y")

  lemma DoorLockReads()
    ensures IsSimplePulse(DoorLock) && !IsStructuredPulse(DoorLock)
    ensures GetSimpleValue(DoorLock) == Success("locked")
  {
  }

  lemma BookInfoReads()
    ensures IsStructuredPulse(BookInfo) && !IsSimplePulse(BookInfo)
    ensures GetFieldValueNoRowGuard(BookInfo, "title") == Success(Str("Clean Code"))
    ensures GetFieldValueNoRowGuard(BookInfo, "author") == Success(Str("Robert C. Martin"))
  {
    var meta := BookInfo.responses[0].cells;
    assert meta[0] != "title" && meta[1] == "title";
    assert meta[0] != "author" && meta[1] != "author" && meta[2] == "author";
  }

  /** toObject(bookInfo) has exactly the four META fields, each mapped to its data cell. */
  method BookInfoObject() returns (obj: Result<map<string, JsValue>>)
    ensures obj == Success(map["title" := Str("Clean Code"), "author" := Str("Robert C. Martin"),
                               "year" := Str("2008"), "price" := Str("35")])
  {
    obj := ToObjectNoRowGuard(BookInfo);
    var d := Cells(BookInfo.responses[1]);
    assert Fields(BookInfo) == ["title", "author", "year"] + ["price"];
    RowObjectSnoc(["title", "author", "year"], "price", d);
    assert ["title", "author", "year"] == ["title", "author"] + ["year"];
    RowObjectSnoc(["title", "author"], "year", d);
    assert ["title", "author"] == ["title"] + ["author"];
    RowObjectSnoc(["title"], "author", d);
    assert ["title"] == [] + ["title"];
    RowObjectSnoc([], "title", d);
  }

  /** bookInfo has one data value per META field and passes validatePulse. */
  lemma BookInfoValidates()
    ensures |Cells(BookInfo.responses[1])| == |BookInfo.responses[0].cells| - 1
    ensures ValidationErrors(BookInfo) == []
  {
    var fields := ["title", "author", "year", "price"];
    var rows := [Row(["Clean Code", "Robert C. Martin", "2008", "35"])];
    assert [Marker] + fields == ["META", "title", "author", "year", "price"];
    assert BookInfo.responses == [Row([Marker] + fields)] + rows;
    assert !IsMetaRow(rows[0]);
    WellFormedTableValidates("book_info", fields, rows, "N");
  }

  lemma UserLoggedInReads()
    ensures IsSimplePulse(UserLoggedIn)
    ensures GetSimpleValueUnchecked(UserLoggedIn) == Some(Scalar("yes"))
  {
  }

  /** pulse_one's toObject(dishSelected). */
  method DishSelectedObject() returns (obj: Result<map<string, JsValue>>)
    ensures obj == Success(map["name" := Str("Vegetable Biryani"), "price" := Str("12.99"), "chef" := Str("Kumar")])
  {
    obj := ToObjectUnchecked(DishSelected);
    var d := Cells(DishSelected.responses[1]);
    assert DropFirst(DishSelected.responses[0].cells) == ["name", "price"] + ["chef"];
    RowObjectSnoc(["name", "price"], "chef", d);
    assert ["name", "price"] == ["name"] + ["price"];
    RowObjectSnoc(["name"], "price", d);
    assert ["name"] == [] + ["name"];
    RowObjectSnoc([], "name", d);
  }
}
