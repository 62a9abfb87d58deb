/** The string normalisation the service relies on: Python's `str.strip()`
    with no argument, `str.lower()` and `str.endswith(...)`, restricted to
    the ASCII range. */
module Text {

  /** The ASCII characters for which Python's `str.isspace()` holds:
      tab, line feed, vertical tab, form feed, carriage return,
      the four information separators 0x1C-0x1F, and space. */
  predicate IsSpace(c: char) {
    c == ' ' || (9 <= c as int <= 13) || (28 <= c as int <= 31)
  }

  predicate AllSpace(s: string) {
    forall i :: 0 <= i < |s| ==> IsSpace(s[i])
  }

  /** Neither end of `s` is whitespace: the shape of every stripped string. */
  predicate Bare(s: string) {
    s == [] || (!IsSpace(s[0]) && !IsSpace(s[|s| - 1]))
  }

  /** The first position at or after `i` that does not hold whitespace
      (`|s|` when there is none). */
  function SkipSpaces(s: string, i: nat): (n: nat)
    requires i <= |s|
    ensures i <= n <= |s|
    ensures forall k :: i <= k < n ==> IsSpace(s[k])
    ensures n == |s| || !IsSpace(s[n])
    decreases |s| - i
  {
    if i < |s| && IsSpace(s[i]) then SkipSpaces(s, i + 1) else i
  }

  /** The end of `s[lo..j]` once its trailing whitespace is dropped. */
  function SkipSpacesBack(s: string, lo: nat, j: nat): (n: nat)
    requires lo <= j <= |s|
    ensures lo <= n <= j
    ensures forall k :: n <= k < j ==> IsSpace(s[k])
    ensures n == lo || !IsSpace(s[n - 1])
  {
    if j > lo && IsSpace(s[j - 1]) then SkipSpacesBack(s, lo, j - 1) else j
  }

  /** Python's `s.strip()`: the result has no whitespace at either end;
      StripParts shows that `s` is the result padded with whitespace only,
      and StripUnique that no other bare string is. */
  function Strip(s: string): (r: string)
    ensures Bare(r)
    ensures |r| <= |s|
  {
    var lo := SkipSpaces(s, 0);
    s[lo..SkipSpacesBack(s, lo, |s|)]
  }

  /** Splits `s` into leading whitespace, `Strip(s)` and trailing whitespace. */
  lemma StripParts(s: string) returns (a: string, b: string)
    ensures AllSpace(a) && AllSpace(b)
    ensures s == a + Strip(s) + b
  {
    var lo := SkipSpaces(s, 0);
    var hi := SkipSpacesBack(s, lo, |s|);
    a, b := s[..lo], s[hi..];
    assert s == s[..lo] + s[lo..hi] + s[hi..];
  }

  /** Strip is determined by its contract: stripping a bare string padded
      with whitespace on both sides gives back that bare string. */
  lemma StripUnique(a: string, m: string, b: string)
    requires AllSpace(a) && AllSpace(b) && Bare(m)
    ensures Strip(a + m + b) == m
  {
    var s := a + m + b;
    var lo := SkipSpaces(s, 0);
    var hi := SkipSpacesBack(s, lo, |s|);
    if m == [] {
      assert forall k :: 0 <= k < |s| ==> IsSpace(s[k]);
      assert lo == |s|;
    } else {
      assert s[|a|] == m[0];
      assert forall k :: 0 <= k < |a| ==> IsSpace(s[k]);
      assert lo == |a|;
      assert s[|a| + |m| - 1] == m[|m| - 1];
      assert forall k :: |a| + |m| <= k < |s| ==> IsSpace(s[k]);
      assert hi == |a| + |m|;
      assert s[lo..hi] == m;
    }
  }

  /** Stripping twice is stripping once. */
  lemma StripIdempotent(s: string)
    ensures Strip(Strip(s)) == Strip(s)
  {
  }

  /** A string with no whitespace at either end is its own stripped form. */
  lemma StripOfBare(s: string)
    requires Bare(s)
    ensures Strip(s) == s
  {
    assert [] + s + [] == s;
    StripUnique([], s, []);
  }

  /** Extra whitespace around a string does not change its stripped form. */
  lemma StripIgnoresPadding(a: string, s: string, b: string)
    requires AllSpace(a) && AllSpace(b)
    ensures Strip(a + s + b) == Strip(s)
  {
    var m := Strip(s);
    var a0, b0 := StripParts(s);
    AllSpaceConcat(a, a0);
    AllSpaceConcat(b0, b);
    assert a + s + b == (a + a0) + m + (b0 + b);
    StripUnique(a + a0, m, b0 + b);
  }

  lemma AllSpaceConcat(x: string, y: string)
    requires AllSpace(x) && AllSpace(y)
    ensures AllSpace(x + y)
  {
  }

  /** ASCII lower-casing of one character. */
  function LowerChar(c: char): char {
    if 'A' <= c <= 'Z' then (c as int + 32) as char else c
  }

  /** ASCII lower-casing, character by character. */
  function Lower(s: string): (r: string)
    ensures |r| == |s|
    ensures forall i :: 0 <= i < |s| ==> !('A' <= r[i] <= 'Z')
    ensures forall i :: 0 <= i < |s| && !('A' <= s[i] <= 'Z') ==> r[i] == s[i]
  {
    seq(|s|, i requires 0 <= i < |s| => LowerChar(s[i]))
  }

  /** `x` and `y` agree once both are lower-cased, character by character. */
  predicate SameIgnoringCase(x: string, y: string) {
    |x| == |y| && forall i :: 0 <= i < |x| ==> LowerChar(x[i]) == LowerChar(y[i])
  }

  /** For a string that is already lower case, lower-casing `x` yields it
      exactly when `x` is the same string up to letter case. */
  lemma LowerEqualsIff(x: string, y: string)
    requires Lower(y) == y
    ensures Lower(x) == y <==> SameIgnoringCase(x, y)
  {
    if SameIgnoringCase(x, y) {
      assert forall i :: 0 <= i < |y| ==> LowerChar(y[i]) == y[i] by {
        forall i | 0 <= i < |y| ensures LowerChar(y[i]) == y[i] {
          assert Lower(y)[i] == LowerChar(y[i]);
        }
      }
      assert Lower(x) == y;
    }
  }

  /** Lower-casing is idempotent. */
  lemma LowerIdempotent(s: string)
    ensures Lower(Lower(s)) == Lower(s)
  {
  }

  /** Lower-casing never creates or removes whitespace, so it commutes with
      stripping: `s.strip().lower() == s.lower().strip()`. */
  lemma LowerStripCommute(s: string)
    ensures Lower(Strip(s)) == Strip(Lower(s))
  {
    var m := Strip(s);
    var a, b := StripParts(s);
    LowerAppend(a, m);
    LowerAppend(a + m, b);
    assert Lower(s) == Lower(a) + Lower(m) + Lower(b);
    LowerKeepsSpace(a);
    LowerKeepsSpace(b);
    LowerKeepsBare(m);
    StripUnique(Lower(a), Lower(m), Lower(b));
  }

  lemma LowerKeepsBare(m: string)
    requires Bare(m)
    ensures Bare(Lower(m))
  {
    if m != [] {
      assert Lower(m)[0] == LowerChar(m[0]);
      assert Lower(m)[|m| - 1] == LowerChar(m[|m| - 1]);
    }
  }

  lemma LowerAppend(x: string, y: string)
    ensures Lower(x + y) == Lower(x) + Lower(y)
  {
  }

  lemma LowerKeepsSpace(a: string)
    requires AllSpace(a)
    ensures AllSpace(Lower(a))
  {
  }

  /** Python's `s.endswith(suffix)`: case-sensitive comparison of the tail.
      It holds exactly when `s` is some stem followed by `suffix`. */
  predicate EndsWith(s: string, suffix: string)
    ensures EndsWith(s, suffix) <==> exists stem :: s == stem + suffix
  {
    if |suffix| <= |s| then
      var stem := s[..|s| - |suffix|];
      var b := s[|s| - |suffix|..] == suffix;
      assert b ==> s == stem + suffix;
      assert forall stem' :: s == stem' + suffix ==> b by {
        forall stem' | s == stem' + suffix ensures b {
          assert s[|s| - |suffix|..] == suffix;
        }
      }
      b
    else
      assert forall stem' :: |stem' + suffix| >= |suffix|;
      false
  }
}
