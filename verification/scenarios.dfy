/** Concrete runs of the service on small tables. */
module Scenarios {

  import opened Basics
  import opened Tables
  import opened Text
  import opened Service
  import Schema
  import Lookup

  const Phones: Frame := Table(
    ["Name", "IMEI No", "Brand"],
    [["A", "123456789012345", "X"], ["B", " 123456789012345 ", "Y"]])

  const Serials: Frame := Table(["Name", "SerialNumber"], [["A", "123"]])

  /** A reader that decodes every file as `t`. */
  function Always(t: Frame): Decoder {
    (b: Bytes) => Some(t)
  }

  /** Both rows match, the second once its identifier is trimmed, and both
      come back with the trimmed identifier. */
  lemma PaddedIdentifierMatches(content: Bytes)
    ensures var u := Upload(Fresh, "phones.xlsx", content, Always(Phones));
            && u.reply == Ok(Summary(2, ["Name", "IMEI No", "Brand"]))
            && Search(u.state, "123456789012345", Always(Phones)).reply
               == Ok(Lookup.QueryResult(2, [["A", "123456789012345", "X"], ["B", "123456789012345", "Y"]]))
  {
    PhonesUpload(content);
    PhonesSearch(content);
  }

  lemma PhonesUpload(content: Bytes)
    ensures Upload(Fresh, "phones.xlsx", content, Always(Phones))
            == Step(State(Some(Phones), Some(content)), Ok(Summary(2, ["Name", "IMEI No", "Brand"])))
  {
    assert "phones.xlsx" == "phones" + ".xlsx";
    assert EndsWith("phones.xlsx", ".xlsx");
  }

  lemma PhonesSearch(content: Bytes)
    ensures Search(State(Some(Phones), Some(content)), "123456789012345", Always(Phones)).reply
            == Ok(Lookup.QueryResult(2, [["A", "123456789012345", "X"], ["B", "123456789012345", "Y"]]))
  {
    var s := State(Some(Phones), Some(content));
    assert Load(s, Always(Phones)) == Step(s, Ok(Phones));
    PhonesColumn();
    PhonesLookup();
  }

  /** The selection itself on `Phones`. */
  lemma PhonesLookup()
    ensures Lookup.Search(Phones, 1, "123456789012345")
            == Lookup.QueryResult(2, [["A", "123456789012345", "X"], ["B", "123456789012345", "Y"]])
  {
    var id := "123456789012345";
    IdentifierStrips();
    var r0, r1 := Phones.rows[0], Phones.rows[1];
    assert Phones.rows == [r0] + ([r1] + []);
    assert Lookup.Hit(r0, 1, id) && Lookup.Hit(r1, 1, id);
    assert Lookup.Cleaned(r0, 1) == ["A", id, "X"];
    assert Lookup.Cleaned(r1, 1) == ["B", id, "Y"];
    Lookup.FilterCons(r1, [], 1, id);
    Lookup.FilterCons(r0, [r1] + [], 1, id);
  }

  /** The identifier, bare or padded with one space on each side, strips to itself. */
  lemma IdentifierStrips()
    ensures Strip("123456789012345") == "123456789012345"
    ensures Strip(" 123456789012345 ") == "123456789012345"
  {
    var id := "123456789012345";
    StripOfBare(id);
    assert " " + id + " " == " 123456789012345 ";
    assert AllSpace(" ");
    StripUnique(" ", id, " ");
  }

  /** The identifier column of `Phones` is its second column. */
  lemma PhonesColumn()
    ensures Schema.ResolveIdColumn(Phones.headers) == Some(1)
  {
    StripOfBare("Name");
    StripOfBare("IMEI No");
    assert Lower("Name") == "name";
    assert Lower("IMEI No") == "imei no";
    assert !Schema.IsIdHeader("Name");
    assert Schema.IsIdHeader("IMEI No");
  }

  /** A search before any upload, with nothing stored, is refused. */
  lemma SearchBeforeUpload(query: string, decode: Decoder)
    ensures Search(Fresh, query, decode) == Step(Fresh, Fail(NoUpload))
    ensures Status(Fresh, decode) == Step(Fresh, Ok(NotUploaded))
  {
  }

  /** A table without an identifier header makes every search fail. */
  lemma NoIdentifierHeader(query: string, content: Bytes)
    ensures var u := Upload(Fresh, "serials.xls", content, Always(Serials));
            Search(u.state, query, Always(Serials)).reply == Fail(NoIdColumn)
  {
    SerialsUpload(content);
    var s := State(Some(Serials), Some(content));
    assert Load(s, Always(Serials)) == Step(s, Ok(Serials));
    SerialsColumn();
  }

  lemma SerialsUpload(content: Bytes)
    ensures Upload(Fresh, "serials.xls", content, Always(Serials)).state == State(Some(Serials), Some(content))
  {
    assert "serials.xls" == "serials" + ".xls";
    assert EndsWith("serials.xls", ".xls");
  }

  /** `Serials` has no identifier column. */
  lemma SerialsColumn()
    ensures Schema.ResolveIdColumn(Serials.headers) == None
  {
    StripOfBare("Name");
    StripOfBare("SerialNumber");
    assert Lower("Name") == "name";
    assert Lower("SerialNumber") == "serialnumber";
    assert !Schema.IsIdHeader("Name");
    assert !Schema.IsIdHeader("SerialNumber");
  }

  /** A CSV upload is refused and leaves the service as it was. */
  lemma CsvRefused(s: State, content: Bytes, decode: Decoder)
    ensures Upload(s, "phones.csv", content, decode) == Step(s, Fail(NotExcel))
  {
  }
}
