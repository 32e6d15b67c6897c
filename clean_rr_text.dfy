/** `clean_rr_text`: normalises the "ratings & reviews" label of a product
    page; `CleanExample` shows " 7&\n 9 " becoming "7 & 9".

    `Clean` follows the source step by step (two character replacements,
    two regular-expression substitutions, a strip). `Canonical` is an
    independent one-pass definition of the same normal form; `Clean` is
    proved equal to it, and the shape of the output and idempotence are
    proved about `Canonical`. */
module CleanRrText {
  import opened Text

  /** `str.replace(a, b)` for one-character strings `a` and `b`. */
  function ReplaceChar(s: string, a: char, b: char): (r: string)
    ensures |r| == |s|
    ensures forall i :: 0 <= i < |s| ==> r[i] == (if s[i] == a then b else s[i])
  {
    if s == [] then [] else [if s[0] == a then b else s[0]] + ReplaceChar(s[1..], a, b)
  }

  /** `re.sub(r"\s*&\s*", " & ", t)`: scanning from the left, a whitespace
      run (possibly empty) followed by `&` and the whitespace run after it
      is replaced by " & "; every other character is copied. */
  function SubAmp(t: string): (r: string)
    ensures forall i :: 0 <= i < |r| && r[i] == '&' ==> 0 < i < |r| - 1
    ensures AmpSpaced(r)
    decreases |t|
  {
    if t == [] then []
    else
      var u := LStrip(t);
      if u != [] && u[0] == '&' then " & " + SubAmp(LStrip(u[1..]))
      else [t[0]] + SubAmp(t[1..])
  }

  /** `re.sub(r"\s+", " ", s)`: every maximal whitespace run becomes one
      space. */
  function Collapse(s: string): (r: string)
    ensures forall i :: 0 <= i < |r| && IsSpace(r[i]) ==> r[i] == ' '
    ensures forall i, j :: 0 <= i && j == i + 1 < |r| && r[i] == ' ' ==> !IsSpace(r[j])
    ensures r != [] <==> s != []
    ensures r != [] ==> (IsSpace(r[0]) <==> IsSpace(s[0]))
    decreases |s|
  {
    if s == [] then []
    else if IsSpace(s[0]) then " " + Collapse(LStrip(s[1..]))
    else [s[0]] + Collapse(s[1..])
  }

  /** Every `&` has a space on each side that it has a neighbour on. */
  predicate AmpSpaced(r: string) {
    forall i, j :: 0 <= i && j == i + 1 < |r| ==>
      (r[i] == '&' ==> r[j] == ' ') && (r[j] == '&' ==> r[i] == ' ')
  }

  /** No two spaces in a row. */
  predicate SingleSpaced(r: string) {
    forall i, j :: 0 <= i && j == i + 1 < |r| ==> r[i] != ' ' || r[j] != ' '
  }

  /** The shape of a cleaned label apart from its first character: plain
      spaces only, never two in a row, none at the end, and a space on each
      side of every `&` that has a neighbour. What is left of a normal form
      once a prefix has been written has this shape. */
  predicate SpacedTail(x: string) {
    && (forall i :: 0 <= i < |x| && IsSpace(x[i]) ==> x[i] == ' ')
    && SingleSpaced(x)
    && (x != [] ==> x[|x| - 1] != ' ')
    && AmpSpaced(x)
  }

  /** The shape of a cleaned label: `SpacedTail`, and no space at the
      start either. */
  predicate NormalForm(r: string) {
    SpacedTail(r) && (r != [] ==> r[0] != ' ')
  }

  /** The normal form in one pass. `started` says whether a character has
      been written yet; `pending` whether whitespace was seen since the last
      character written. Whitespace is never written directly: one space is
      written before the next character when it is due, and every `&` is
      set off by spaces from its neighbours. */
  function Canonical(x: string, started: bool, pending: bool): (r: string)
    ensures forall i :: 0 <= i < |r| && IsSpace(r[i]) ==> r[i] == ' '
    ensures SingleSpaced(r)
    ensures r != [] ==> r[|r| - 1] != ' '
    ensures r != [] && !started ==> r[0] != ' '
    ensures r != [] && started && pending ==> r[0] == ' '
    ensures r != [] && started ==> r[0] != '&'
    ensures AmpSpaced(r)
    ensures r == [] <==> AllSpace(x)
  {
    if x == [] then []
    else if IsSpace(x[0]) then Canonical(x[1..], started, true)
    else
      var head := if x[0] == '&' then (if started then " &" else "&")
                  else (if started && pending then " " else "") + [x[0]];
      var rest := Canonical(x[1..], true, x[0] == '&');
      JoinShape(head, rest);
      head + rest
  }

  /** Joining two pieces keeps the spacing rules when the characters that
      meet at the join keep them. */
  lemma JoinShape(a: string, b: string)
    requires a != [] && SingleSpaced(a) && AmpSpaced(a)
    requires SingleSpaced(b) && AmpSpaced(b)
    requires b != [] ==> a[|a| - 1] != ' ' || b[0] != ' '
    requires b != [] ==> (a[|a| - 1] == '&' ==> b[0] == ' ') && (b[0] == '&' ==> a[|a| - 1] == ' ')
    ensures SingleSpaced(a + b) && AmpSpaced(a + b)
  {
    var r := a + b;
    forall i, j | 0 <= i && j == i + 1 < |r|
      ensures r[i] != ' ' || r[j] != ' '
      ensures (r[i] == '&' ==> r[j] == ' ') && (r[j] == '&' ==> r[i] == ' ')
    {
      if j < |a| {
        assert r[i] == a[i] && r[j] == a[j];
      } else if i >= |a| {
        assert r[i] == b[i - |a|] && r[j] == b[j - |a|];
      } else {
        assert r[i] == a[|a| - 1] && r[j] == b[0];
      }
    }
  }

  /** `clean_rr_text(text)`: `None` is read as the empty string. */
  function Clean(text: Option<string>): (r: string)
    ensures r == Canonical(text.GetOr(""), false, false)
    ensures NormalForm(r)
    ensures '\n' !in r && Nbsp !in r
    ensures r == [] <==> AllSpace(text.GetOr(""))
  {
    var s := text.GetOr("");
    var t := ReplaceChar(ReplaceChar(s, '\n', ' '), Nbsp, ' ');
    CleanSteps(s);
    Strip(Collapse(SubAmp(t)))
  }

  // ---------------------------------------------------------------------
  // Proof that the steps of `Clean` compute `Canonical`.

  /** `re.sub(r"\s+", " ", .)` followed by `strip()`, in one pass. */
  function Squash(y: string, started: bool, pending: bool): string {
    if y == [] then []
    else if IsSpace(y[0]) then Squash(y[1..], started, true)
    else (if started && pending then " " else "") + [y[0]] + Squash(y[1..], true, false)
  }

  lemma {:induction false} SquashSkip(y: string, started: bool, pending: bool)
    ensures Squash(y, started, pending) == Squash(LStrip(y), started, pending || LStrip(y) != y)
  {
    if y != [] && IsSpace(y[0]) {
      SquashSkip(y[1..], started, true);
    }
  }

  lemma {:induction false} SquashStarted(z: string)
    ensures Squash(z, true, false) == RStrip(Collapse(z))
    decreases |z|, 1
  {
    if z == [] {
    } else if IsSpace(z[0]) {
      var w := LStrip(z[1..]);
      SquashSkip(z[1..], true, true);
      assert Squash(z, true, false) == Squash(w, true, true);
      assert Collapse(z) == " " + Collapse(w);
      if w == [] {
        assert RStrip(" ") == [];
      } else {
        SquashAfterSpace(w);
      }
    } else {
      SquashStartedChar(z);
    }
  }

  lemma {:induction false} SquashAfterSpace(w: string)
    requires w != [] && !IsSpace(w[0])
    ensures Squash(w, true, true) == RStrip(" " + Collapse(w))
    decreases |w|, 0
  {
    var c := Collapse(w[1..]);
    SquashStarted(w[1..]);
    calc {
      Squash(w, true, true);
      " " + [w[0]] + Squash(w[1..], true, false);
      " " + [w[0]] + RStrip(c);
      { RStripPrefix([' ', w[0]], c); }
      RStrip([' ', w[0]] + c);
      { assert [' ', w[0]] + c == " " + Collapse(w); }
      RStrip(" " + Collapse(w));
    }
  }

  lemma {:induction false} SquashStartedChar(z: string)
    requires z != [] && !IsSpace(z[0])
    ensures Squash(z, true, false) == RStrip(Collapse(z))
    decreases |z|, 0
  {
    var c := Collapse(z[1..]);
    SquashStarted(z[1..]);
    calc {
      Squash(z, true, false);
      [z[0]] + Squash(z[1..], true, false);
      [z[0]] + RStrip(c);
      { RStripPrefix([z[0]], c); }
      RStrip([z[0]] + c);
    }
  }

  lemma {:induction false} StripCollapse(y: string)
    ensures Strip(Collapse(y)) == Squash(y, false, false)
  {
    var w := LStrip(y);
    var c := LStrip(Collapse(y));
    SquashSkip(y, false, false);
    if y != [] && IsSpace(y[0]) {
      assert LStrip(y) == LStrip(y[1..]);
      assert c == LStrip(Collapse(w));
    }
    assert Strip(Collapse(y)) == RStrip(c);
    if w != [] {
      assert c == Collapse(w) == [w[0]] + Collapse(w[1..]);
      SquashStarted(w[1..]);
      RStripPrefix([w[0]], Collapse(w[1..]));
      assert Squash(y, false, false) == [w[0]] + Squash(w[1..], true, false);
    }
  }

  lemma {:induction false} CanonicalSkip(t: string, started: bool, pending: bool)
    ensures Canonical(t, started, pending) == Canonical(LStrip(t), started, pending || LStrip(t) != t)
  {
    if t != [] && IsSpace(t[0]) {
      CanonicalSkip(t[1..], started, true);
    }
  }

  lemma {:induction false} SubAmpSquash(t: string, started: bool, pending: bool)
    ensures Squash(SubAmp(t), started, pending) == Canonical(t, started, pending)
    decreases |t|, 1
  {
    if t == [] {
    } else if LStrip(t) != [] && LStrip(t)[0] == '&' {
      SubAmpSquashAmp(t, started, pending);
    } else {
      var rest := SubAmp(t[1..]);
      assert SubAmp(t) == [t[0]] + rest;
      assert ([t[0]] + rest)[1..] == rest;
      if IsSpace(t[0]) {
        calc {
          Squash([t[0]] + rest, started, pending);
          Squash(rest, started, true);
          { SubAmpSquash(t[1..], started, true); }
          Canonical(t[1..], started, true);
        }
      } else {
        calc {
          Squash([t[0]] + rest, started, pending);
          (if started && pending then " " else "") + [t[0]] + Squash(rest, true, false);
          { SubAmpSquash(t[1..], true, false); }
          (if started && pending then " " else "") + [t[0]] + Canonical(t[1..], true, false);
        }
      }
    }
  }

  /** The case of `SubAmpSquash` where the substitution matches at the
      start of `t`. */
  lemma {:induction false} SubAmpSquashAmp(t: string, started: bool, pending: bool)
    requires t != [] && LStrip(t) != [] && LStrip(t)[0] == '&'
    ensures Squash(SubAmp(t), started, pending) == Canonical(t, started, pending)
    decreases |t|, 0
  {
    var u := LStrip(t);
    var lead := if started then " " else "";
    var v := LStrip(u[1..]);
    var rest := SubAmp(v);
    assert SubAmp(t) == " & " + rest;
    calc {
      Squash(" & " + rest, started, pending);
      { assert (" & " + rest)[1..] == "& " + rest; }
      Squash("& " + rest, started, true);
      { assert ("& " + rest)[1..] == " " + rest; }
      lead + "&" + Squash(" " + rest, true, false);
      { assert (" " + rest)[1..] == rest; }
      lead + "&" + Squash(rest, true, true);
      { SubAmpSquash(v, true, true); }
      lead + "&" + Canonical(v, true, true);
      { CanonicalSkip(u[1..], true, true); }
      lead + "&" + Canonical(u[1..], true, true);
      Canonical(u, started, pending || u != t);
      { CanonicalSkip(t, started, pending); }
      Canonical(t, started, pending);
    }
  }

  lemma {:induction false} CanonicalReplace(s: string, a: char, started: bool, pending: bool)
    requires IsSpace(a)
    ensures Canonical(ReplaceChar(s, a, ' '), started, pending) == Canonical(s, started, pending)
  {
    if s != [] {
      CanonicalReplace(s[1..], a, started, true);
      CanonicalReplace(s[1..], a, true, true);
      CanonicalReplace(s[1..], a, true, false);
      assert ReplaceChar(s, a, ' ')[1..] == ReplaceChar(s[1..], a, ' ');
    }
  }

  lemma CleanSteps(s: string)
    ensures Strip(Collapse(SubAmp(ReplaceChar(ReplaceChar(s, '\n', ' '), Nbsp, ' '))))
         == Canonical(s, false, false)
  {
    var t := ReplaceChar(ReplaceChar(s, '\n', ' '), Nbsp, ' ');
    StripCollapse(SubAmp(t));
    SubAmpSquash(t, false, false);
    CanonicalReplace(ReplaceChar(s, '\n', ' '), Nbsp, false, false);
    CanonicalReplace(s, '\n', false, false);
  }

  // ---------------------------------------------------------------------
  // Texts in normal form are fixed points, hence idempotence.

  lemma SpacedTailDrop(x: string)
    requires x != [] && SpacedTail(x)
    ensures SpacedTail(x[1..])
  {
    var y := x[1..];
    forall i, j | 0 <= i && j == i + 1 < |y|
      ensures y[i] != ' ' || y[j] != ' '
      ensures (y[i] == '&' ==> y[j] == ' ') && (y[j] == '&' ==> y[i] == ' ')
    {
      assert y[i] == x[i + 1] && y[j] == x[j + 1];
    }
  }

  /** What `SpacedTail` says about the first two characters. */
  lemma Neighbours(x: string)
    requires SpacedTail(x) && |x| >= 2 && x[0] != ' '
    ensures x[1..][0] != '&'
    ensures x[0] == '&' ==> x[1..][0] == ' '
  {
    assert x[1..][0] == x[1];
  }

  /** `Canonical` copies a text that already has the normal form and begins
      with a character other than whitespace, putting one space in front
      when one is due. */
  lemma {:induction false} CanonicalCopies(x: string, started: bool, pending: bool)
    requires SpacedTail(x) && x != [] && x[0] != ' '
    requires !started ==> !pending
    ensures Canonical(x, started, pending) == (if started && (pending || x[0] == '&') then " " else "") + x
    decreases |x|, 1
  {
    SpacedTailDrop(x);
    var y := x[1..];
    if y != [] {
      Neighbours(x);
      if y[0] == ' ' {
        CanonicalCopiesSpace(y, x[0] == '&');
      } else {
        CanonicalCopies(y, true, false);
      }
    }
    CanonicalFirstChar(x, started, pending);
  }

  /** One step of `Canonical` over a character other than whitespace, when
      the rest is copied. */
  lemma CanonicalFirstChar(x: string, started: bool, pending: bool)
    requires x != [] && !IsSpace(x[0])
    requires Canonical(x[1..], true, x[0] == '&') == x[1..]
    ensures Canonical(x, started, pending) == (if started && (pending || x[0] == '&') then " " else "") + x
  {
    var lead := if started && (pending || x[0] == '&') then " " else "";
    calc {
      Canonical(x, started, pending);
      lead + [x[0]] + x[1..];
      { assert x == [x[0]] + x[1..]; }
      lead + x;
    }
  }

  lemma {:induction false} CanonicalCopiesSpace(y: string, pending: bool)
    requires SpacedTail(y) && y != [] && y[0] == ' '
    ensures Canonical(y, true, pending) == y
    decreases |y|, 0
  {
    SpacedTailDrop(y);
    var z := y[1..];
    assert z != [] && z[0] != ' ';
    CanonicalCopies(z, true, true);
    assert y == " " + z;
  }

  /** A text already in normal form is left unchanged, so the results of
      `clean_rr_text` are exactly the texts in normal form. */
  lemma CleanFixesNormalForm(r: string)
    requires NormalForm(r)
    ensures Clean(Some(r)) == r
  {
    if r != [] {
      CanonicalCopies(r, false, false);
    }
  }

  /** `clean_rr_text(clean_rr_text(t)) == clean_rr_text(t)`. */
  lemma CleanIdempotent(text: Option<string>)
    ensures Clean(Some(Clean(text))) == Clean(text)
  {
    CleanFixesNormalForm(Clean(text));
  }

  /** A text the page shows, with a line break and extra spaces around
      the ampersand. */
  lemma CleanExample()
    ensures Clean(Some(" 7&\n 9 ")) == "7 & 9"
  {
    CanonicalExample();
  }

  /** The one-pass normal form of `CleanExample`'s text, one character at a
      time. */
  lemma CanonicalExample()
    ensures Canonical(" 7&\n 9 ", false, false) == "7 & 9"
  {
    CanonicalExampleDigit();
    assert " 7&\n 9 "[1..] == "7&\n 9 ";
  }

  /** The remaining steps of `CanonicalExample`, one lemma per character
      written. */
  lemma CanonicalExampleDigit()
    ensures Canonical("7&\n 9 ", false, true) == "7 & 9"
  {
    assert "7&\n 9 " == ['7'] + "&\n 9 ";
    CanonicalWord('7', "&\n 9 ", false, true);
    CanonicalExampleAmp();
    SevenAmpNine();
  }

  /** The last join of `CanonicalExampleDigit`, kept apart from the facts
      about `Canonical`. */
  lemma SevenAmpNine()
    ensures ['7'] + " & 9" == "7 & 9"
  {
    assert (['7'] + " & 9")[1..] == " & 9";
  }

  /** One step of `Canonical` on a character that is neither whitespace nor
      `&`: it is written, after a space when one is due. */
  lemma CanonicalWord(c: char, y: string, started: bool, pending: bool)
    requires !IsSpace(c) && c != '&'
    ensures Canonical([c] + y, started, pending)
         == (if started && pending then " " else "") + [c] + Canonical(y, true, false)
  {
    assert ([c] + y)[1..] == y;
  }

  lemma CanonicalExampleAmp()
    ensures Canonical("&\n 9 ", true, false) == " & 9"
  {
    CanonicalExampleTail();
    assert "&\n 9 "[1..] == "\n 9 ";
    assert Canonical("&\n 9 ", true, false) == " &" + " 9";
    assert " &" + " 9" == " & 9";
  }

  lemma CanonicalExampleTail()
    ensures Canonical("\n 9 ", true, true) == " 9"
  {
    assert Canonical(" ", true, false) == [] by { assert " "[1..] == []; }
    assert Canonical("9 ", true, true) == " 9" by { assert "9 "[1..] == " "; }
    assert Canonical(" 9 ", true, true) == " 9" by { assert " 9 "[1..] == "9 "; }
    assert "\n 9 "[1..] == " 9 ";
  }
}
