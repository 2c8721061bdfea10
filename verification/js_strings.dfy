/** The two string operations the search box relies on: `String.prototype.trim`
    and the `length` property, which counts UTF-16 code units. */
module JsStrings {

  /** The characters `trim` removes: the ECMAScript WhiteSpace and
      LineTerminator productions (tab, vertical tab, form feed, space,
      no-break space, byte order mark, the Unicode space separators, line
      feed, carriage return, line and paragraph separators). */
  predicate IsJsWhitespace(c: char) {
    c in {'\t', '\n', '\U{000B}', '\U{000C}', '\r', ' ', '\U{00A0}', '\U{1680}',
          '\U{2000}', '\U{2001}', '\U{2002}', '\U{2003}', '\U{2004}', '\U{2005}',
          '\U{2006}', '\U{2007}', '\U{2008}', '\U{2009}', '\U{200A}', '\U{2028}',
          '\U{2029}', '\U{202F}', '\U{205F}', '\U{3000}', '\U{FEFF}'}
  }

  predicate AllWhitespace(s: string) {
    forall k :: 0 <= k < |s| ==> IsJsWhitespace(s[k])
  }

  /** `s.trim()`: leading and trailing whitespace removed, one character at
      a time. The result has no whitespace at either end and is empty
      exactly when `s` is all whitespace. */
  function Trim(s: string): (r: string)
    ensures |r| <= |s|
    ensures |r| > 0 ==> !IsJsWhitespace(r[0]) && !IsJsWhitespace(r[|r| - 1])
    ensures r == "" <==> AllWhitespace(s)
    decreases |s|
  {
    if |s| > 0 && IsJsWhitespace(s[0]) then
      var r := Trim(s[1..]);
      assert AllWhitespace(s[1..]) ==> AllWhitespace(s) by {
        if AllWhitespace(s[1..]) {
          forall k | 0 <= k < |s| ensures IsJsWhitespace(s[k]) {
            if k > 0 { assert s[k] == s[1..][k - 1]; }
          }
        }
      }
      r
    else if |s| > 0 && IsJsWhitespace(s[|s| - 1]) then
      var r := Trim(s[..|s| - 1]);
      assert s[..|s| - 1][0] == s[0];
      r
    else s
  }

  /** Putting back a whitespace character dropped from the front keeps a
      slice's all-whitespace surroundings. */
  lemma SliceAfterDropFirst(s: string, i: int, j: int)
    requires |s| > 0 && IsJsWhitespace(s[0]) && 0 <= i <= j <= |s| - 1
    requires AllWhitespace(s[1..][..i]) && AllWhitespace(s[1..][j..])
    ensures s[1..][i..j] == s[i + 1..j + 1]
    ensures AllWhitespace(s[..i + 1]) && AllWhitespace(s[j + 1..])
  {
    assert s[j + 1..] == s[1..][j..];
    forall k | 0 <= k < i + 1 ensures IsJsWhitespace(s[k]) {
      if k > 0 { assert s[k] == s[1..][..i][k - 1]; }
    }
  }

  /** Putting back a whitespace character dropped from the back keeps a
      slice's all-whitespace surroundings. */
  lemma SliceAfterDropLast(s: string, i: int, j: int)
    requires |s| > 0 && IsJsWhitespace(s[|s| - 1]) && 0 <= i <= j <= |s| - 1
    requires AllWhitespace(s[..|s| - 1][..i]) && AllWhitespace(s[..|s| - 1][j..])
    ensures s[..|s| - 1][i..j] == s[i..j]
    ensures AllWhitespace(s[..i]) && AllWhitespace(s[j..])
  {
    assert s[..i] == s[..|s| - 1][..i];
    forall k | j <= k < |s| ensures IsJsWhitespace(s[k]) {
      if k < |s| - 1 { assert s[k] == s[..|s| - 1][j..][k - j]; }
    }
  }

  /** `trim` removes only whitespace, and only at the ends: its result is
      a contiguous slice of `s` with all-whitespace text on either side. */
  lemma {:induction false} TrimIsSlice(s: string)
    ensures exists i, j :: 0 <= i <= j <= |s| && Trim(s) == s[i..j]
                           && AllWhitespace(s[..i]) && AllWhitespace(s[j..])
    decreases |s|
  {
    if |s| > 0 && IsJsWhitespace(s[0]) {
      var t := s[1..];
      TrimIsSlice(t);
      var i, j :| 0 <= i <= j <= |t| && Trim(t) == t[i..j] && AllWhitespace(t[..i]) && AllWhitespace(t[j..]);
      SliceAfterDropFirst(s, i, j);
      assert Trim(s) == s[i + 1..j + 1];
    } else if |s| > 0 && IsJsWhitespace(s[|s| - 1]) {
      var t := s[..|s| - 1];
      TrimIsSlice(t);
      var i, j :| 0 <= i <= j <= |t| && Trim(t) == t[i..j] && AllWhitespace(t[..i]) && AllWhitespace(t[j..]);
      SliceAfterDropLast(s, i, j);
      assert Trim(s) == s[i..j];
    } else {
      assert Trim(s) == s[0..|s|];
      assert s[..0] == [] && s[|s|..] == [];
    }
  }

  /** Text with no whitespace at either end is its own trim. */
  lemma TrimmedTextTrimsToItself(t: string)
    requires |t| > 0 && !IsJsWhitespace(t[0]) && !IsJsWhitespace(t[|t| - 1])
    ensures Trim(t) == t
  {
  }

  /** Trimming twice is trimming once. */
  lemma TrimIdempotent(s: string)
    ensures Trim(Trim(s)) == Trim(s)
  {
    if Trim(s) != "" {
      TrimmedTextTrimsToItself(Trim(s));
    }
  }

  /** The number of UTF-16 code units that encode `c`: two for a character
      outside the Basic Multilingual Plane, one otherwise. */
  function Utf16Units(c: char): nat {
    if c as int > 0xFFFF then 2 else 1
  }

  /** `s.length`: the number of UTF-16 code units of `s`. */
  function JsLength(s: string): (n: nat)
    ensures |s| <= n <= 2 * |s|
    ensures n == 0 <==> s == ""
  {
    if s == "" then 0 else Utf16Units(s[0]) + JsLength(s[1..])
  }
}
