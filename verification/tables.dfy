/** The decoded spreadsheet as the service holds it in memory. */
module Tables {

  import opened Basics

  /** One byte of an uploaded file. */
  newtype Byte = b: int | 0 <= b < 256

  /** The raw content of an uploaded file. */
  type Bytes = seq<Byte>

  /** The cells of one row, in column order. Cells are the strings the
      service compares; how the spreadsheet reader turns numbers, dates and
      blanks into text is outside the model. */
  type Row = seq<string>

  /** A data frame: column headers in order (not necessarily distinct) and
      the rows beneath them. */
  datatype Table = Table(headers: seq<string>, rows: seq<Row>) {

    /** Every row has one cell per header. */
    predicate WellFormed() {
      forall i :: 0 <= i < |rows| ==> |rows[i]| == |headers|
    }
  }

  /** What the spreadsheet reader produces: a well-formed table. */
  type Frame = t: Table | t.WellFormed() witness Table([], [])

  /** The spreadsheet reader (`pd.read_excel`), taken as a parameter:
      `None` means the bytes are not a readable workbook and the reader
      raises. */
  type Decoder = Bytes -> Option<Frame>
}
