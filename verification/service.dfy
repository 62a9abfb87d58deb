/** The three endpoints of the service and the state they share: the cached
    data frame (`df_cache`, lost on restart) and the stored workbook
    (`data/current.xlsx`, which survives a restart). */
module Service {

  import opened Basics
  import opened Text
  import opened Tables
  import Schema
  import Lookup

  /** Why an endpoint refuses a request. */
  datatype Failure =
    | NotExcel    // "Only Excel files allowed" (HTTP 400)
    | NoUpload    // "No Excel uploaded by admin" (HTTP 400)
    | NoIdColumn  // "IMEI column not found" (HTTP 400)
    | Unreadable  // the spreadsheet reader raised; nothing catches it

  /** The cached frame and the stored file. */
  datatype State = State(cache: Option<Frame>, store: Option<Bytes>)

  /** A process that has never seen an upload. */
  const Fresh: State := State(None, None)

  /** A process restart: the cache is gone, the file on disk is not. */
  function Restart(s: State): (r: State)
    ensures r.cache.None? && r.store == s.store
  {
    State(None, s.store)
  }

  /** An endpoint's effect: the state after the call and its reply. */
  datatype Step<+T> = Step(state: State, reply: Result<T, Failure>)

  /** The upload reply `{"status": "success", "rows": ..., "columns": ...}`. */
  datatype Summary = Summary(rows: nat, columns: seq<string>)

  /** The status reply: `{"uploaded": false}` or
      `{"uploaded": true, "rows": ..., "columns": ...}`. */
  datatype Report = NotUploaded | Uploaded(rows: nat, columns: seq<string>)

  /** `filename.endswith((".xlsx", ".xls"))`, case-sensitive: the name is
      some stem followed by `.xlsx` or by `.xls`. */
  predicate IsExcelName(name: string)
    ensures IsExcelName(name) <==>
              (exists stem :: name == stem + ".xlsx") || (exists stem :: name == stem + ".xls")
  {
    EndsWith(name, ".xlsx") || EndsWith(name, ".xls")
  }

  /** Any stem with `.xlsx` or `.xls` is accepted; the upper-case spellings
      and other extensions are not. */
  lemma ExcelNameCaseSensitive(stem: string)
    ensures IsExcelName(stem + ".xlsx") && IsExcelName(stem + ".xls")
    ensures !IsExcelName(stem + ".XLSX") && !IsExcelName(stem + ".XLS")
    ensures !IsExcelName(stem + ".csv")
  {
    var u, v, w := stem + ".XLSX", stem + ".XLS", stem + ".csv";
    assert u[|u| - 1] == 'X' && v[|v| - 1] == 'S' && w[|w| - 1] == 'v';
  }

  /** The admin upload: reject a non-Excel name and change nothing;
      otherwise write the file, then read it and install the frame. When the
      reader fails the file has already been overwritten but the cache keeps
      the frame it held before. */
  function Upload(s: State, name: string, content: Bytes, decode: Decoder): (r: Step<Summary>)
    ensures r.reply == Fail(NotExcel) <==> !IsExcelName(name)
    ensures !IsExcelName(name) ==> r.state == s
    ensures IsExcelName(name) ==> r.state.store == Some(content)
    ensures IsExcelName(name) && decode(content).Some? ==>
              r.state.cache == decode(content)
              && r.reply == Ok(Summary(|decode(content).value.rows|, decode(content).value.headers))
    ensures IsExcelName(name) && decode(content).None? ==>
              r.state.cache == s.cache && r.reply == Fail(Unreadable)
  {
    if !IsExcelName(name) then Step(s, Fail(NotExcel))
    else
      match decode(content)
      case None => Step(State(s.cache, Some(content)), Fail(Unreadable))
      case Some(t) => Step(State(Some(t), Some(content)), Ok(Summary(|t.rows|, t.headers)))
  }

  /** The frame a read request works on: the cached one, else the stored
      file as the reader decodes it, else none. */
  function Visible(s: State, decode: Decoder): (r: Option<Frame>)
    ensures s.cache.Some? ==> r == s.cache
    ensures r.None? <==> s.cache.None? && (s.store.None? || decode(s.store.value).None?)
    ensures Coherent(s, decode) ==> r == (if s.store.Some? then decode(s.store.value) else None)
  {
    if s.cache.Some? then s.cache
    else if s.store.Some? then decode(s.store.value)
    else None
  }

  /** The lazy reload shared by search and status: a warm cache is used as
      it is; a cold cache is filled from the stored file. */
  function Load(s: State, decode: Decoder): (r: Step<Frame>)
    ensures r.state.store == s.store
    ensures r.reply.Ok? <==> Visible(s, decode).Some?
    ensures r.reply.Ok? ==> r.reply.value == Visible(s, decode).value && r.state.cache == Visible(s, decode)
    ensures r.reply.Fail? ==> r.state == s
    ensures r.reply.Fail? ==> r.reply.error == (if s.store.None? then NoUpload else Unreadable)
  {
    match s.cache
    case Some(t) => Step(s, Ok(t))
    case None =>
      match s.store
      case None => Step(s, Fail(NoUpload))
      case Some(content) =>
        match decode(content)
        case None => Step(s, Fail(Unreadable))
        case Some(t) => Step(State(Some(t), s.store), Ok(t))
  }

  /** `search_imei`: load the frame, find the identifier column, select the
      rows whose trimmed identifier equals the trimmed query. A table
      without an identifier column is an error; a query that matches no row
      is an empty answer. */
  function Search(s: State, query: string, decode: Decoder): (r: Step<Lookup.QueryResult>)
    ensures r.state == Load(s, decode).state
    ensures s.cache.Some? ==> r.state == s
    ensures r.reply == Fail(NoUpload) <==> s.cache.None? && s.store.None?
    ensures r.reply == Fail(Unreadable) <==> s.cache.None? && s.store.Some? && decode(s.store.value).None?
    ensures r.reply == Fail(NoIdColumn) <==>
              Visible(s, decode).Some?
              && forall j :: 0 <= j < |Visible(s, decode).value.headers| ==>
                   !Schema.IsIdHeader(Visible(s, decode).value.headers[j])
    ensures r.reply.Ok? ==>
              && Visible(s, decode).Some?
              && var t := Visible(s, decode).value;
              && Schema.ResolveIdColumn(t.headers).Some?
              && r.reply.value == Lookup.Search(t, Schema.ResolveIdColumn(t.headers).value, query)
              && r.reply.value.count == |r.reply.value.data|
    ensures Visible(s, decode).Some? && Schema.ResolveIdColumn(Visible(s, decode).value.headers).Some? ==>
              r.reply.Ok?
  {
    var loaded := Load(s, decode);
    match loaded.reply
    case Fail(e) => Step(loaded.state, Fail(e))
    case Ok(t) =>
      match Schema.ResolveIdColumn(t.headers)
      case None => Step(loaded.state, Fail(NoIdColumn))
      case Some(col) => Step(loaded.state, Ok(Lookup.Search(t, col, query)))
  }

  /** `excel_status`: reports whether a frame is available, reloading it
      from the stored file when the cache is cold. Absence is a normal
      answer; the only failure is a stored file the reader cannot decode. */
  function Status(s: State, decode: Decoder): (r: Step<Report>)
    ensures r.state == Load(s, decode).state
    ensures r.reply.Fail? <==> s.cache.None? && s.store.Some? && decode(s.store.value).None?
    ensures r.reply.Fail? ==> r.reply.error == Unreadable
    ensures r.reply == Ok(NotUploaded) <==> s.cache.None? && s.store.None?
    ensures r.reply.Ok? && r.reply.value.Uploaded? ==>
              && Visible(s, decode).Some?
              && r.reply.value.rows == |Visible(s, decode).value.rows|
              && r.reply.value.columns == Visible(s, decode).value.headers
    ensures Visible(s, decode).Some? ==> r.reply.Ok? && r.reply.value.Uploaded?
  {
    var loaded := Load(s, decode);
    match loaded.reply
    case Ok(t) => Step(loaded.state, Ok(Uploaded(|t.rows|, t.headers)))
    case Fail(NoUpload) => Step(loaded.state, Ok(NotUploaded))
    case Fail(e) => Step(loaded.state, Fail(e))
  }

  /** Uploading the same file twice under the same name has the effect and
      the reply of uploading it once. */
  lemma UploadIdempotent(s: State, name: string, content: Bytes, decode: Decoder)
    ensures Upload(Upload(s, name, content, decode).state, name, content, decode)
            == Upload(s, name, content, decode)
  {
  }

  /** Right after a successful upload, status reports the uploaded frame's
      row count and headers, the very summary the upload returned, and a
      search reads that frame. */
  lemma StatusAfterUpload(s: State, name: string, content: Bytes, decode: Decoder)
    requires Upload(s, name, content, decode).reply.Ok?
    ensures var u := Upload(s, name, content, decode);
            && Status(u.state, decode).reply.Ok?
            && Status(u.state, decode).reply.value
               == Uploaded(u.reply.value.rows, u.reply.value.columns)
            && Visible(u.state, decode) == decode(content)
  {
  }

  /** Whitespace around the query never changes a search. */
  lemma SearchIgnoresQueryPadding(s: State, a: string, query: string, b: string, decode: Decoder)
    requires AllSpace(a) && AllSpace(b)
    ensures Search(s, a + query + b, decode) == Search(s, query, decode)
  {
    var loaded := Load(s, decode);
    if loaded.reply.Ok? {
      var t := loaded.reply.value;
      var c := Schema.ResolveIdColumn(t.headers);
      if c.Some? {
        Lookup.SearchIgnoresQueryPadding(t, c.value, a, query, b);
      }
    }
  }

  /** Nothing is cached unless something is stored. */
  predicate CacheBacked(s: State) {
    s.store.None? ==> s.cache.None?
  }

  /** Every endpoint keeps the cache backed by a stored file, so the status
      reports `uploaded: false` exactly when no file has been stored. */
  lemma CacheBackedPreserved(s: State, name: string, content: Bytes, query: string, decode: Decoder)
    requires CacheBacked(s)
    ensures CacheBacked(Upload(s, name, content, decode).state)
    ensures CacheBacked(Search(s, query, decode).state)
    ensures CacheBacked(Status(s, decode).state)
    ensures CacheBacked(Restart(s))
    ensures Status(s, decode).reply == Ok(NotUploaded) <==> s.store.None?
  {
  }

  /** The cached frame is the decoded stored file. */
  predicate Coherent(s: State, decode: Decoder) {
    s.cache.Some? ==> s.store.Some? && decode(s.store.value) == s.cache
  }

  /** Search, status and a restart keep the cache coherent with the stored
      file, and so does an upload that is rejected or whose file decodes. */
  lemma CoherencePreserved(s: State, name: string, content: Bytes, query: string, decode: Decoder)
    requires Coherent(s, decode)
    ensures Coherent(Search(s, query, decode).state, decode)
    ensures Coherent(Status(s, decode).state, decode)
    ensures Coherent(Restart(s), decode)
    ensures !IsExcelName(name) || decode(content).Some? ==>
              Coherent(Upload(s, name, content, decode).state, decode)
  {
  }

  /** While the cache is coherent, a restart is invisible: search and status
      answer as they would have without it. */
  lemma RestartInvisible(s: State, query: string, decode: Decoder)
    requires Coherent(s, decode)
    ensures Visible(Restart(s), decode) == Visible(s, decode)
    ensures Search(Restart(s), query, decode).reply == Search(s, query, decode).reply
    ensures Status(Restart(s), decode).reply == Status(s, decode).reply
  {
  }

  /** An Excel-named upload that the reader cannot decode overwrites the
      stored file but leaves the old frame cached: the service keeps
      answering from the old frame until a restart, after which status
      and search fail instead of reporting any frame. */
  lemma UnreadableUploadSurfacesAfterRestart(s: State, name: string, content: Bytes, query: string, decode: Decoder)
    requires s.cache.Some? && IsExcelName(name) && decode(content).None?
    ensures var u := Upload(s, name, content, decode).state;
            && !Coherent(u, decode)
            && Status(u, decode).reply == Ok(Uploaded(|s.cache.value.rows|, s.cache.value.headers))
            && Status(Restart(u), decode).reply == Fail(Unreadable)
    ensures var u := Upload(s, name, content, decode).state;
            && Search(u, query, decode).reply == Search(s, query, decode).reply
            && Search(Restart(u), query, decode).reply == Fail(Unreadable)
  {
  }
}
