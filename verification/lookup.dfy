/** The exact-match search over the identifier column. */
module Lookup {

  import opened Text
  import opened Tables

  /** Every row has a cell in column `col`. */
  predicate HasColumn(rows: seq<Row>, col: nat) {
    forall i :: 0 <= i < |rows| ==> col < |rows[i]|
  }

  /** The row's identifier cell, once trimmed, equals `key`; so only a key
      without surrounding whitespace can match. */
  predicate Hit(row: Row, col: nat, key: string)
    requires col < |row|
    ensures Hit(row, col, key) ==> Bare(key)
  {
    Strip(row[col]) == key
  }

  /** The row as the search returns it: the search works on a copy of the
      table whose identifier column has been trimmed, so the returned row
      carries the trimmed identifier and every other cell unchanged. */
  function Cleaned(row: Row, col: nat): (r: Row)
    requires col < |row|
    ensures |r| == |row| && r[col] == Strip(row[col])
    ensures forall j :: 0 <= j < |row| && j != col ==> r[j] == row[j]
  {
    row[col := Strip(row[col])]
  }

  /** The boolean-mask selection `df[df[col] == key]`: the rows whose trimmed
      identifier equals `key`, cleaned, in table order. Every returned row
      carries `key` as its identifier; FilterSound and FilterComplete show
      that the returned rows are exactly the matching ones. */
  function Filter(rows: seq<Row>, col: nat, key: string): (r: seq<Row>)
    requires HasColumn(rows, col)
    ensures |r| <= |rows| && HasColumn(r, col)
    ensures forall k :: 0 <= k < |r| ==> r[k][col] == key
  {
    if |rows| == 0 then []
    else
      var rest := Filter(rows[1..], col, key);
      if Hit(rows[0], col, key) then [Cleaned(rows[0], col)] + rest else rest
  }

  /** `x` is the cleaned form of some row of `rows` whose trimmed identifier
      equals `key`. */
  ghost predicate FromHit(rows: seq<Row>, col: nat, key: string, x: Row)
    requires HasColumn(rows, col)
  {
    exists i :: 0 <= i < |rows| && Hit(rows[i], col, key) && x == Cleaned(rows[i], col)
  }

  /** Soundness: every returned row is the cleaned form of a table row whose
      trimmed identifier equals `key`. */
  lemma {:induction false} FilterSound(rows: seq<Row>, col: nat, key: string)
    requires HasColumn(rows, col)
    ensures forall k :: 0 <= k < |Filter(rows, col, key)| ==> FromHit(rows, col, key, Filter(rows, col, key)[k])
    decreases |rows|
  {
    var r := Filter(rows, col, key);
    if |rows| > 0 {
      var tail := rows[1..];
      var rest := Filter(tail, col, key);
      var hit := Hit(rows[0], col, key);
      var skip := if hit then 1 else 0;
      assert r == (if hit then [Cleaned(rows[0], col)] else []) + rest;
      FilterSound(tail, col, key);
      forall k | 0 <= k < |r| ensures FromHit(rows, col, key, r[k]) {
        if hit && k == 0 {
          assert Hit(rows[0], col, key) && r[k] == Cleaned(rows[0], col);
        } else {
          assert r[k] == rest[k - skip];
          FromHitTail(rows, col, key, r[k]);
        }
      }
    } else {
      assert r == [];
    }
  }

  /** A match found in the tail of `rows` is a match in `rows`. */
  lemma FromHitTail(rows: seq<Row>, col: nat, key: string, x: Row)
    requires |rows| > 0 && HasColumn(rows, col)
    requires FromHit(rows[1..], col, key, x)
    ensures FromHit(rows, col, key, x)
  {
    var tail := rows[1..];
    var i :| 0 <= i < |tail| && Hit(tail[i], col, key) && x == Cleaned(tail[i], col);
    assert tail[i] == rows[i + 1];
  }

  /** Completeness: every table row whose trimmed identifier equals `key` is
      returned, cleaned. */
  lemma {:induction false} FilterComplete(rows: seq<Row>, col: nat, key: string)
    requires HasColumn(rows, col)
    ensures forall i :: 0 <= i < |rows| && Hit(rows[i], col, key) ==> Cleaned(rows[i], col) in Filter(rows, col, key)
    decreases |rows|
  {
    if |rows| > 0 {
      var tail := rows[1..];
      FilterComplete(tail, col, key);
      forall i | 1 <= i < |rows| && Hit(rows[i], col, key)
        ensures Cleaned(rows[i], col) in Filter(rows, col, key)
      {
        assert tail[i - 1] == rows[i];
      }
    }
  }

  /** Order is kept: the matches among `a + b` are the matches among `a`
      followed by the matches among `b`. Together with the one-row case this
      pins the selection down completely. */
  lemma {:induction false} FilterAppend(a: seq<Row>, b: seq<Row>, col: nat, key: string)
    requires HasColumn(a, col) && HasColumn(b, col)
    ensures HasColumn(a + b, col)
    ensures Filter(a + b, col, key) == Filter(a, col, key) + Filter(b, col, key)
    decreases |a|
  {
    HasColumnAppend(a, b, col);
    if |a| == 0 {
      assert a + b == b;
    } else {
      var t := a[1..];
      assert a == [a[0]] + t;
      assert a + b == [a[0]] + (t + b);
      HasColumnAppend(t, b, col);
      var head := if Hit(a[0], col, key) then [Cleaned(a[0], col)] else [];
      FilterCons(a[0], t, col, key);
      FilterCons(a[0], t + b, col, key);
      FilterAppend(t, b, col, key);
      calc {
        Filter(a + b, col, key);
        head + Filter(t + b, col, key);
        head + (Filter(t, col, key) + Filter(b, col, key));
        { AppendAssoc(head, Filter(t, col, key), Filter(b, col, key)); }
        (head + Filter(t, col, key)) + Filter(b, col, key);
        Filter(a, col, key) + Filter(b, col, key);
      }
    }
  }

  lemma AppendAssoc<T>(x: seq<T>, y: seq<T>, z: seq<T>)
    ensures x + (y + z) == (x + y) + z
  {
  }

  /** One unfolding of Filter on a row in front of others. */
  lemma FilterCons(row: Row, rows: seq<Row>, col: nat, key: string)
    requires col < |row| && HasColumn(rows, col)
    ensures HasColumn([row] + rows, col)
    ensures Filter([row] + rows, col, key)
            == (if Hit(row, col, key) then [Cleaned(row, col)] else []) + Filter(rows, col, key)
  {
    assert ([row] + rows)[1..] == rows;
  }

  lemma HasColumnAppend(a: seq<Row>, b: seq<Row>, col: nat)
    requires HasColumn(a, col) && HasColumn(b, col)
    ensures HasColumn(a + b, col)
  {
  }

  /** A single row is returned, cleaned, exactly when it matches. */
  lemma FilterSingle(row: Row, col: nat, key: string)
    requires col < |row|
    ensures HasColumn([row], col)
    ensures Filter([row], col, key) == if Hit(row, col, key) then [Cleaned(row, col)] else []
  {
  }

  /** No match is an empty selection, and an empty selection means no match. */
  lemma FilterEmptyIff(rows: seq<Row>, col: nat, key: string)
    requires HasColumn(rows, col)
    ensures Filter(rows, col, key) == [] <==> forall i :: 0 <= i < |rows| ==> !Hit(rows[i], col, key)
  {
  }

  /** What a search reports: `{"count": ..., "data": ...}`. */
  datatype QueryResult = QueryResult(count: nat, data: seq<Row>)

  /** `search_imei` once the identifier column `col` is known: trim the
      query, select the rows whose trimmed identifier equals it, and report
      how many there are. */
  function Search(t: Frame, col: nat, query: string): (r: QueryResult)
    requires col < |t.headers|
    ensures r.count == |r.data| <= |t.rows|
    ensures forall k :: 0 <= k < |r.data| ==> |r.data[k]| == |t.headers| && r.data[k][col] == Strip(query)
    ensures forall i :: 0 <= i < |t.rows| && Strip(t.rows[i][col]) == Strip(query) ==>
              Cleaned(t.rows[i], col) in r.data
    ensures r.count == 0 <==> forall i :: 0 <= i < |t.rows| ==> Strip(t.rows[i][col]) != Strip(query)
    ensures forall k :: 0 <= k < |r.data| ==> FromHit(t.rows, col, Strip(query), r.data[k])
    ensures r.data == Filter(t.rows, col, Strip(query))
  {
    var data := Filter(t.rows, col, Strip(query));
    FilterSound(t.rows, col, Strip(query));
    FilterComplete(t.rows, col, Strip(query));
    FilterEmptyIff(t.rows, col, Strip(query));
    QueryResult(|data|, data)
  }

  /** Whitespace around the query does not matter: searching `" q "` gives
      exactly what searching `"q"` gives. */
  lemma SearchIgnoresQueryPadding(t: Frame, col: nat, a: string, query: string, b: string)
    requires col < |t.headers|
    requires AllSpace(a) && AllSpace(b)
    ensures Search(t, col, a + query + b) == Search(t, col, query)
  {
    StripIgnoresPadding(a, query, b);
  }
}
