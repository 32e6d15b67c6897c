/** Character classes and whitespace stripping shared by the extraction
    helpers and the row loop of review_tracker.py. */
module Text {

  datatype Option<T> = None | Some(value: T) {
    function GetOr(default: T): T {
      match this
      case Some(v) => v
      case None => default
    }
  }

  /** The non-breaking space, U+00A0, which the page uses between words. */
  const Nbsp: char := '\U{00A0}'

  /** Python's `\s` and `str.isspace`, restricted to ASCII whitespace
      (tab, line feed, vertical tab, form feed, carriage return, space)
      plus U+00A0. */
  predicate IsSpace(c: char) {
    c == ' ' || (9 <= c as int <= 13) || c == Nbsp
  }

  /** Python's `\d`, restricted to the ASCII digits. */
  predicate IsDigit(c: char) {
    '0' <= c <= '9'
  }

  /** The whitespace class, listed character by character. */
  lemma IsSpaceChars(c: char)
    ensures IsSpace(c) <==> c in [' ', '\t', '\n', '\U{000B}', '\U{000C}', '\r', Nbsp]
  {
  }

  /** The digit class, listed character by character. */
  lemma IsDigitChars(c: char)
    ensures IsDigit(c) <==> c in "0123456789"
  {
  }

  predicate AllSpace(s: string) {
    forall i :: 0 <= i < |s| ==> IsSpace(s[i])
  }

  /** `str.lstrip()`: drops the leading whitespace run. */
  function LStrip(s: string): (r: string)
    ensures |r| <= |s|
    ensures r != [] ==> !IsSpace(r[0])
    ensures r == [] <==> AllSpace(s)
  {
    if s != [] && IsSpace(s[0]) then
      var r := LStrip(s[1..]);
      assert AllSpace(s[1..]) ==> AllSpace(s) by {
        if AllSpace(s[1..]) {
          forall i | 0 < i < |s| ensures IsSpace(s[i]) { assert s[i] == s[1..][i - 1]; }
        }
      }
      r
    else s
  }

  /** `str.rstrip()`: keeps everything up to the last non-whitespace
      character. */
  function RStrip(s: string): (r: string)
    ensures |r| <= |s|
    ensures forall i :: 0 <= i < |r| ==> r[i] == s[i]
    ensures forall i :: |r| <= i < |s| ==> IsSpace(s[i])
    ensures r != [] ==> !IsSpace(r[|r| - 1])
  {
    if s != [] && IsSpace(s[|s| - 1]) then RStrip(s[..|s| - 1]) else s
  }

  /** `str.strip()`: `RStrip(LStrip(s))`, which neither begins nor ends
      with whitespace and is empty exactly when `s` is all whitespace. */
  function Strip(s: string): (r: string)
    ensures r != [] ==> !IsSpace(r[0]) && !IsSpace(r[|r| - 1])
    ensures r == [] <==> AllSpace(s)
  {
    var t := LStrip(s);
    var r := RStrip(t);
    StripEnds(s, t, r);
    r
  }

  lemma StripEnds(s: string, t: string, r: string)
    requires t == LStrip(s) && r == RStrip(t)
    ensures r != [] ==> !IsSpace(r[0])
    ensures r == [] <==> AllSpace(s)
  {
    if r != [] {
      assert r[0] == t[0];
    }
  }

  /** `LStrip` drops exactly the leading whitespace run: the result is a
      suffix of the input, and what precedes it is all whitespace. */
  lemma {:induction false} LStripSuffix(s: string)
    ensures var r := LStrip(s); r == s[|s| - |r|..] && AllSpace(s[..|s| - |r|])
  {
    if s != [] && IsSpace(s[0]) {
      LStripSuffix(s[1..]);
      var r := LStrip(s);
      assert s[1..][..|s| - 1 - |r|] == s[1..|s| - |r|];
    }
  }

  /** `RStrip` in slice form: a prefix, followed only by whitespace. */
  lemma RStripSlices(t: string)
    ensures var r := RStrip(t); r == t[..|r|] && AllSpace(t[|r|..])
  {
    var r := RStrip(t);
    assert forall k :: 0 <= k < |t| - |r| ==> t[|r|..][k] == t[|r| + k];
  }

  /** `Strip` returns the input with its outer whitespace removed: a slice
      `s[i..i + |r|]` with only whitespace before and after it. */
  lemma {:induction false} StripInfix(s: string)
    ensures var r, i := Strip(s), |s| - |LStrip(s)|;
      i + |r| <= |s| && r == s[i..i + |r|] && AllSpace(s[..i]) && AllSpace(s[i + |r|..])
  {
    var t := LStrip(s);
    var r := RStrip(t);
    var i := |s| - |t|;
    assert Strip(s) == r;
    LStripSuffix(s);
    RStripSlices(t);
    SliceOfSuffix(s, i, t, r);
  }

  lemma SliceOfSuffix(s: string, i: nat, t: string, r: string)
    requires i <= |s| && t == s[i..]
    requires |r| <= |t| && r == t[..|r|] && AllSpace(t[|r|..])
    ensures i + |r| <= |s| && r == s[i..i + |r|] && AllSpace(s[i + |r|..])
  {
    assert s[i + |r|..] == t[|r|..];
  }

  /** The properties of `RStrip` determine its result. */
  lemma RStripUnique(s: string, r: string)
    requires |r| <= |s|
    requires forall i :: 0 <= i < |r| ==> r[i] == s[i]
    requires forall i :: |r| <= i < |s| ==> IsSpace(s[i])
    requires r != [] ==> !IsSpace(r[|r| - 1])
    ensures r == RStrip(s)
  {
  }

  /** Trailing whitespace after a non-whitespace character is all that
      `RStrip` removes, so a prefix ending in one is kept. */
  lemma RStripPrefix(u: string, v: string)
    requires u != [] && !IsSpace(u[|u| - 1])
    ensures RStrip(u + v) == u + RStrip(v)
  {
    var r := u + RStrip(v);
    var s := u + v;
    assert forall i :: |r| <= i < |s| ==> s[i] == v[i - |u|];
    RStripUnique(s, r);
  }
}
