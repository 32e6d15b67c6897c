/** `extract_float`: the leftmost match of the regular expression
    `\d+(?:\.\d+)?` in the text of the rating element, e.g. "4.3" in
    "4.3 out of 5". The model returns the matched token; converting it to a
    floating-point number is not part of the model. */
module ExtractFloat {
  import opened Text

  /** A match of `\d+(?:\.\d+)?`: the token is `s[start..end]`, and
      `s[start..intEnd]` is its run of integer digits. */
  datatype Match = Match(start: nat, intEnd: nat, end: nat)

  predicate NoDigit(s: string) {
    forall k :: 0 <= k < |s| ==> !IsDigit(s[k])
  }

  predicate DigitsBetween(s: string, lo: nat, hi: nat)
    requires lo <= hi <= |s|
  {
    forall k :: lo <= k < hi ==> IsDigit(s[k])
  }

  /** Whether a `.` followed by a digit stands at position `i`: the optional
      group `(?:\.\d+)` can only match there. */
  predicate FractionAt(s: string, i: nat) {
    i + 1 < |s| && s[i] == '.' && IsDigit(s[i + 1])
  }

  /** What the regular-expression search promises: the match begins at the
      first digit of `s`, its integer part is the whole digit run there, and
      its fraction part is present exactly when a `.` and a digit follow,
      and is then the whole digit run after the `.`. */
  predicate IsLeftmostMatch(s: string, m: Match) {
    && m.start < m.intEnd <= m.end <= |s|
    && (forall k :: 0 <= k < m.start ==> !IsDigit(s[k]))
    && DigitsBetween(s, m.start, m.intEnd)
    && (m.intEnd == |s| || !IsDigit(s[m.intEnd]))
    && if FractionAt(s, m.intEnd) then
         && m.intEnd + 1 < m.end
         && DigitsBetween(s, m.intEnd + 1, m.end)
         && (m.end == |s| || !IsDigit(s[m.end]))
       else
         m.end == m.intEnd
  }

  /** The shape of a token of `\d+(?:\.\d+)?`: digits and at most one `.`,
      beginning and ending with a digit. */
  predicate IsNumeral(t: string) {
    && t != [] && IsDigit(t[0]) && IsDigit(t[|t| - 1])
    && (forall k :: 0 <= k < |t| ==> IsDigit(t[k]) || t[k] == '.')
    && (forall k, l :: 0 <= k < l < |t| && t[k] == '.' ==> t[l] != '.')
  }

  /** The end of the digit run that starts at `i`. */
  function RunEnd(s: string, i: nat): (e: nat)
    requires i <= |s|
    ensures i <= e <= |s|
    ensures DigitsBetween(s, i, e)
    ensures e == |s| || !IsDigit(s[e])
    decreases |s| - i
  {
    if i < |s| && IsDigit(s[i]) then RunEnd(s, i + 1) else i
  }

  /** The position of the first digit at or after `i`, if any. */
  function FindDigit(s: string, i: nat): (p: Option<nat>)
    requires i <= |s|
    ensures p.None? ==> forall k :: i <= k < |s| ==> !IsDigit(s[k])
    ensures p.Some? ==> i <= p.value < |s| && IsDigit(s[p.value])
    ensures p.Some? ==> forall k :: i <= k < p.value ==> !IsDigit(s[k])
    decreases |s| - i
  {
    if i == |s| then None
    else if IsDigit(s[i]) then Some(i)
    else FindDigit(s, i + 1)
  }

  /** `num_re.search(s)`. */
  function Search(s: string): (m: Option<Match>)
    ensures m.None? <==> NoDigit(s)
    ensures m.Some? ==> IsLeftmostMatch(s, m.value)
  {
    match FindDigit(s, 0)
    case None => None
    case Some(p) =>
      var q := RunEnd(s, p);
      if FractionAt(s, q) then Some(Match(p, q, RunEnd(s, q + 1)))
      else Some(Match(p, q, q))
  }

  /** `extract_float(text)` up to the final `float()`: the matched token,
      or `None` when the text (with `None` read as "") has no digit. */
  function ExtractFloat(text: Option<string>): (r: Option<string>)
    ensures r.None? <==> NoDigit(text.GetOr(""))
    ensures r.Some? ==> IsNumeral(r.value)
    ensures r.Some? ==>
      var s := text.GetOr(""); var m := Search(s).value;
      r.value == s[m.start..m.end]
  {
    var s := text.GetOr("");
    match Search(s)
    case None => None
    case Some(m) =>
      MatchIsNumeral(s, m);
      Some(s[m.start..m.end])
  }

  lemma MatchIsNumeral(s: string, m: Match)
    requires IsLeftmostMatch(s, m)
    ensures IsNumeral(s[m.start..m.end])
  {
    var t := s[m.start..m.end];
    assert forall k :: 0 <= k < |t| ==> t[k] == s[m.start + k];
    if FractionAt(s, m.intEnd) {
      forall k, l | 0 <= k < l < |t| && t[k] == '.' ensures t[l] != '.' {
        assert m.start + k == m.intEnd;
      }
    }
  }

  /** The search result is the only match with the promised properties. */
  lemma LeftmostMatchUnique(s: string, m1: Match, m2: Match)
    requires IsLeftmostMatch(s, m1) && IsLeftmostMatch(s, m2)
    ensures m1 == m2
  {
    assert IsDigit(s[m1.start]) && IsDigit(s[m2.start]);
    assert m1.start == m2.start;
    assert m1.intEnd == m2.intEnd;
  }

  lemma SearchIsTheLeftmostMatch(s: string, m: Match)
    requires IsLeftmostMatch(s, m)
    ensures Search(s) == Some(m)
  {
    assert IsDigit(s[m.start]);
    LeftmostMatchUnique(s, Search(s).value, m);
  }

  lemma Examples()
    ensures ExtractFloat(Some("4.3 out of 5")) == Some("4.3")
    ensures ExtractFloat(Some("4.")) == Some("4")
    ensures ExtractFloat(Some("no data")) == None
    ensures ExtractFloat(None) == None
  {
    var a := "4.3 out of 5";
    SearchIsTheLeftmostMatch(a, Match(0, 1, 3));
    assert a[0..3] == "4.3";
    var b := "4.";
    SearchIsTheLeftmostMatch(b, Match(0, 1, 1));
    assert b[0..1] == "4";
    var c := "no data";
    assert !IsDigit(c[0]) && !IsDigit(c[1]) && !IsDigit(c[2]) && !IsDigit(c[3]);
    assert !IsDigit(c[4]) && !IsDigit(c[5]) && !IsDigit(c[6]);
  }
}
