# Excel IMEI lookup service — Dafny model

The service lets an administrator upload an Excel workbook and lets users look
up rows by IMEI. It keeps the decoded workbook in an in-memory cache and
writes the file to disk, so it can reload after a restart. This project
models its core:

- the upload filename check (`.xlsx` / `.xls`, case-sensitive);
- the identifier-column resolver: the left-most header whose trimmed,
  lower-cased form is `imei`, `imei no`, `imei_no` or `imeino`;
- the lookup: trim every identifier cell and the query, keep the matching
  rows in table order, and report `count` and `data`;
- the state shared by the three endpoints (upload, search, status): an
  optional cached frame plus an optional stored file. The cache is reloaded
  lazily from the file when it is cold.

Modules, leaves first:

- `Basics` (`basics.dfy`): `Option` and `Result`.
- `Text` (`text.dfy`): Python's `strip()`, `lower()` and `endswith()` over
  the ASCII range. Strip is characterised completely. `StripParts` shows
  that the input is the result padded with whitespace. `StripUnique` shows
  that no other whitespace-free string has that property.
- `Tables` (`tables.dfy`): bytes, rows, the well-formed `Frame`, and the
  `Decoder` that stands in for the spreadsheet reader.
- `Schema` (`schema.dfy`): the alias list and the column resolver.
- `Lookup` (`lookup.dfy`): the row selection and the search reply.
- `Service` (`service.dfy`): the endpoint state machine and the lemmas
  that relate several calls.
- `Scenarios` (`scenarios.dfy`): concrete runs on small tables.

The spreadsheet reader is a parameter `decode: Bytes -> Option<Frame>`.
`None` means the reader raises. Each endpoint is a pure function from a
state, its inputs and the reader to a `Step`, which holds the new state and
the reply.

Behaviours of the code that the model keeps:

- Status can fail. A cold cache with a stored file the reader cannot decode
  makes `excel_status` raise (app.py:83-84). `Service.Status` states
  exactly when this happens.
- An upload is written to disk before it is decoded (app.py:34-37). If
  decoding fails, the stored file has been overwritten but the old frame
  stays cached. The service keeps answering from the old frame until a
  restart. After the restart, status and search fail.
  `Service.UnreadableUploadSurfacesAfterRestart` proves this sequence.
- A search that reloads the cache and then finds no identifier column still
  leaves the reloaded frame in the cache. The assignment at app.py:55 runs
  before the raise at app.py:65.
- The rows returned by a search carry the trimmed identifier cell, not the
  original one. The search selects from a copy whose identifier column has
  been trimmed (app.py:67-70). `Lookup.Cleaned` is that copy of a row.

## Model

| member | source | states |
|---|---|---|
| Text.StripParts | app.py:68-70 | the input of `strip()` is its result with only whitespace added before and after |
| Text.StripUnique | app.py:68-70 | stripping a whitespace-free string padded with whitespace gives back exactly that string |
| Text.StripIdempotent | app.py:68-70 | stripping an already stripped value changes nothing |
| Text.StripIgnoresPadding | app.py:70 | extra whitespace around a value does not change its stripped form |
| Text.LowerStripCommute | app.py:60 | lower-casing and stripping a header can be done in either order |
| Text.Strip | app.py:68-70 | the result of `strip()` has no whitespace at either end and is no longer than the input |
| Text.StripOfBare | app.py:68-70 | a value with no whitespace at either end is its own stripped form |
| Text.Lower | app.py:60 | `lower()` keeps the length, leaves no upper-case ASCII letter, and changes no character that is not an upper-case letter |
| Text.LowerEqualsIff | app.py:60 | a string lower-cases to a lower-case alias exactly when it spells that alias in some mix of letter cases |
| Text.LowerIdempotent | app.py:60 | lower-casing twice is lower-casing once |
| Text.EndsWith | app.py:29 | `endswith(suffix)` holds exactly when the name is some stem followed by the suffix |
| Schema.Normalize | app.py:60 | the normalised header has no whitespace at either end and no upper-case letter |
| Schema.AliasesLowerCase | app.py:60 | the four aliases are already lower case, so a normalised header can equal them |
| Schema.IsIdHeader | app.py:60 | a header is an identifier header exactly when, once trimmed, it spells `imei`, `imei no`, `imei_no` or `imeino` in any letter case |
| Schema.ResolveFrom | app.py:59-62 | the scan from a position stops at the first identifier header at or after it, and no header before that one is an identifier header |
| Schema.ResolveIdColumn | app.py:58-65 | the chosen column is an identifier header and every header to its left is not; there is no column exactly when no header is an alias |
| Schema.LeftmostWins | app.py:59-62 | with two identifier headers, the left-most one (or one further left) is chosen |
| Schema.IdHeaderIgnoresCaseAndPadding | app.py:60 | a header is recognised regardless of its letter case and of whitespace around it |
| Lookup.Hit | app.py:70 | a row can only match a key that has no whitespace at either end, since the key is a trimmed query |
| Lookup.Cleaned | app.py:67-68 | a returned row differs from the table row only in its identifier cell, which is trimmed |
| Lookup.Filter | app.py:70 | every selected row has the trimmed query as its identifier, and no more rows are selected than the table has |
| Lookup.FilterCons | app.py:70 | the selection from a row followed by more rows is that row, cleaned, if it matches, followed by the selection from the rest |
| Lookup.FilterSound | app.py:70 | every selected row is the cleaned form of a table row whose trimmed identifier equals the key |
| Lookup.FilterComplete | app.py:70 | every table row whose trimmed identifier equals the key is selected |
| Lookup.FilterAppend | app.py:70 | the selection keeps table order: the matches of `a + b` are the matches of `a` followed by those of `b` |
| Lookup.FilterSingle | app.py:70 | a single row is selected, cleaned, exactly when it matches |
| Lookup.FilterEmptyIff | app.py:70-75 | the selection is empty exactly when no row matches; an empty answer is not an error |
| Lookup.Search | app.py:67-75 | `data` is exactly the selection of the matching rows, cleaned, in table order (so each returned row comes from a matching table row, once per match); `count` equals the number of returned rows; every matching row is returned; `count` is 0 exactly when nothing matches |
| Lookup.SearchIgnoresQueryPadding | app.py:70 | searching `" q "` gives the same reply as searching `"q"` |
| Service.IsExcelName | app.py:29-30 | a filename is accepted exactly when it is some stem followed by `.xlsx`, or some stem followed by `.xls` |
| Service.ExcelNameCaseSensitive | app.py:29-30 | `.xlsx` and `.xls` are accepted after any stem; `.XLSX`, `.XLS` and `.csv` are refused |
| Service.Upload | app.py:25-43 | a refused name gives the "only Excel" error and changes nothing; an accepted name stores the file; the decoded frame is cached and summarised, or on a decoding failure the old cache stays |
| Service.Visible | app.py:51-55 | the frame a read sees is the cached one when the cache is warm; there is none exactly when the cache is cold and the stored file is missing or unreadable; while the cache matches the store it is the decoding of the stored file |
| Service.Restart | app.py:17-21 | a restart empties the cache and keeps the stored file |
| Service.Load | app.py:51-55 | a warm cache is used as is; a cold cache is filled from the stored file; the error is "no upload" without a stored file and "unreadable" when the reader fails, and then nothing changes |
| Service.Search | app.py:47-75 | "no upload" exactly when nothing is cached or stored; "column not found" exactly when the frame has no identifier header; otherwise the lookup on the left-most identifier column; a readable table with an identifier header always gets an answer; a warm cache is never changed |
| Service.Status | app.py:79-93 | `uploaded: false` exactly when nothing is cached or stored; fails only when a cold cache meets an unreadable stored file, and then with "unreadable"; otherwise reports the row count and headers of the frame in use |
| Service.UploadIdempotent | app.py:25-43 | uploading the same file twice has the effect and the reply of uploading it once |
| Service.StatusAfterUpload | app.py:37-43 | right after a successful upload, status reports the upload's own summary and reads see the uploaded frame |
| Service.SearchIgnoresQueryPadding | app.py:67-70 | whitespace around the query never changes the search reply, errors included |
| Service.CacheBackedPreserved | app.py:83-87 | nothing is cached unless something is stored, after every endpoint and a restart; so status says `uploaded: false` exactly when no file is stored |
| Service.CoherencePreserved | app.py:34-37 | the cached frame stays the decoding of the stored file, through search, status, a restart, and any upload that is refused or decodes |
| Service.RestartInvisible | app.py:51-55 | while the cache matches the stored file, a restart changes no search or status reply |
| Service.UnreadableUploadSurfacesAfterRestart | app.py:34-37 | an unreadable upload leaves the old frame cached: status reports it and search answers as before; after a restart, status and search fail with "unreadable" |
| Scenarios.PaddedIdentifierMatches | app.py:67-75 | with headers Name, IMEI No, Brand, an identifier stored with surrounding spaces matches; the search returns 2 rows with trimmed identifiers |
| Scenarios.PhonesUpload | app.py:29-43 | uploading a table with headers Name, IMEI No, Brand as `phones.xlsx` caches and stores it and reports 2 rows and those headers |
| Scenarios.PhonesSearch | app.py:51-75 | searching that table for the identifier returns both rows with the trimmed identifier |
| Scenarios.IdentifierStrips | app.py:68-70 | the identifier strips to itself, bare or padded with one space on each side |
| Scenarios.SerialsUpload | app.py:29-37 | uploading a table as `serials.xls` caches and stores it |
| Scenarios.PhonesColumn | app.py:58-62 | with headers Name, IMEI No, Brand, the identifier column is the second one |
| Scenarios.PhonesLookup | app.py:67-74 | on that table, the query matches both rows, one of them only after trimming, and both come back in table order |
| Scenarios.SerialsColumn | app.py:58-65 | with headers Name and SerialNumber, no identifier column is found |
| Scenarios.SearchBeforeUpload | app.py:52-54 | before any upload, search is refused with "no upload" and status reports `uploaded: false` |
| Scenarios.NoIdentifierHeader | app.py:64-65 | with headers Name and SerialNumber, every search fails with "column not found" |
| Scenarios.CsvRefused | app.py:29-30 | a `.csv` upload is refused and changes nothing |

## Left out

- Spreadsheet decoding (`pd.read_excel`) is a third-party reader whose
  internals are not visible. It is the `Decoder` parameter.
- Turning cells into text (`astype(str)`) is not modelled: cells are already
  strings. Number and blank-cell formatting are not modelled either, for
  example scientific notation for large numbers or `"nan"` for empty cells.
- Strip and lower-casing cover ASCII only. Python's `strip()` also removes
  non-ASCII whitespace, such as a no-break space, and the model does not.
- Duplicate header names are not modelled. The source picks the column by
  name, so if the identifier header's name appears twice, `df[imei_col]` is
  a frame and the trimming at app.py:68 raises. The model picks the
  left-most column by position.
- Non-text headers are not modelled. A numeric header makes `col.strip()`
  raise. Headers in the model are strings.
- Result records (`to_dict(orient="records")`) map header names to cells.
  The model returns the cells in column order instead.
- File-system effects are not modelled: creating the data directory, write
  failures, and the fixed path. The store is `Option<Bytes>` in the state.
- HTTP routing, status codes, `UploadFile` and CORS are transport. Failures
  are the `Failure` datatype instead.
- Concurrency is not modelled. The source has no locking, and each
  endpoint call is one atomic step in the model.
