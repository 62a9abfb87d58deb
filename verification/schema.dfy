/** Locating the identifier (IMEI) column among a table's headers. */
module Schema {

  import opened Basics
  import opened Text

  /** The accepted spellings of the identifier header, after trimming and
      lower-casing. */
  const Aliases: seq<string> := ["imei", "imei no", "imei_no", "imeino"]

  /** `col.strip().lower()`: no whitespace at either end, no upper-case
      letter. */
  function Normalize(header: string): (r: string)
    ensures Bare(r)
    ensures forall i :: 0 <= i < |r| ==> !('A' <= r[i] <= 'Z')
  {
    Lower(Strip(header))
  }

  /** Every alias is written in lower case. */
  lemma AliasesLowerCase()
    ensures Lower("imei") == "imei" && Lower("imei no") == "imei no"
    ensures Lower("imei_no") == "imei_no" && Lower("imeino") == "imeino"
  {
    assert Lower("imei") == "imei";
    assert Lower("imei no") == "imei no";
    assert Lower("imei_no") == "imei_no";
    assert Lower("imeino") == "imeino";
  }

  /** The header names the identifier column: once trimmed, it spells one
      of the aliases in some mix of upper and lower case. */
  predicate IsIdHeader(header: string)
    ensures IsIdHeader(header) <==>
              || SameIgnoringCase(Strip(header), "imei")
              || SameIgnoringCase(Strip(header), "imei no")
              || SameIgnoringCase(Strip(header), "imei_no")
              || SameIgnoringCase(Strip(header), "imeino")
  {
    var m := Strip(header);
    AliasesLowerCase();
    LowerEqualsIff(m, "imei");
    LowerEqualsIff(m, "imei no");
    LowerEqualsIff(m, "imei_no");
    LowerEqualsIff(m, "imeino");
    Normalize(header) in Aliases
  }

  /** The scan with `break` over the headers starting at position `i`: the
      position of the first header at or after `i` that passes `isId`, if
      there is one. */
  function ResolveFrom(headers: seq<string>, i: nat, isId: string -> bool): (r: Option<nat>)
    requires i <= |headers|
    ensures r.Some? ==> i <= r.value < |headers| && isId(headers[r.value])
    ensures r.Some? ==> forall j :: i <= j < r.value ==> !isId(headers[j])
    ensures r.None? ==> forall j :: i <= j < |headers| ==> !isId(headers[j])
    decreases |headers| - i
  {
    if i == |headers| then None
    else if isId(headers[i]) then Some(i)
    else ResolveFrom(headers, i + 1, isId)
  }

  /** The identifier column: the left-most header whose trimmed, lower-cased
      form is an alias; `None` exactly when no header is one. */
  function ResolveIdColumn(headers: seq<string>): (r: Option<nat>)
    ensures r.Some? ==> r.value < |headers| && IsIdHeader(headers[r.value])
    ensures r.Some? ==> forall j :: 0 <= j < r.value ==> !IsIdHeader(headers[j])
    ensures r.None? <==> forall j :: 0 <= j < |headers| ==> !IsIdHeader(headers[j])
  {
    ResolveFrom(headers, 0, IsIdHeader)
  }

  /** Two headers that are both identifier headers: the resolver picks the
      one further left, whatever lies between or after them. */
  lemma LeftmostWins(headers: seq<string>, i: nat, j: nat)
    requires i < j < |headers|
    requires IsIdHeader(headers[i]) && IsIdHeader(headers[j])
    ensures ResolveIdColumn(headers).Some?
    ensures ResolveIdColumn(headers).value <= i
  {
  }

  /** Recognition ignores the case of the header and whitespace around it:
      `" IMEI No\t"` is an identifier header because `"imei no"` is. */
  lemma IdHeaderIgnoresCaseAndPadding(a: string, header: string, b: string)
    requires AllSpace(a) && AllSpace(b)
    ensures IsIdHeader(a + header + b) <==> IsIdHeader(header)
    ensures IsIdHeader(Lower(header)) <==> IsIdHeader(header)
  {
    StripIgnoresPadding(a, header, b);
    LowerStripCommute(header);
    LowerIdempotent(Strip(header));
  }
}
