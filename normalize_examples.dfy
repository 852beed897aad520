/**
 * Worked examples of `StreetName.Normalize` on typical spellings of
 * street names: transliteration, house numbers, annotations, hyphens, the
 * spellings of "Straße" and the "Sankt" prefix, and the failing inputs.
 *
 * Recursive string functions are not evaluated on literals by the
 * verifier, so each example is reduced stage by stage with the small
 * lemmas at the top of this module.
 */
module NormalizeExamples {
  import opened Wrappers
  import opened Text
  import opened StreetName

  // ---------------------------------------------------------------------
  // Stages 1 and 2: transliteration, ' ab ' and hyphens

  predicate TranslitPlain(s: string) {
    'ä' !in s && 'ö' !in s && 'ü' !in s && 'ß' !in s && '*' !in s
  }

  /** Letters that stage 1 leaves alone. */
  predicate PreparePlain(s: string) {
    TranslitPlain(s) && ' ' !in s && '-' !in s && 'ç' !in s
  }

  lemma TransliterateConcat(a: string, b: string)
    ensures Transliterate(a + b) == Transliterate(a) + Transliterate(b)
  {
    var a2, b2 := Replace(a, "ä", "ae"), Replace(b, "ä", "ae");
    ReplaceCharConcat(a, b, 'ä', "ae");
    var a3, b3 := Replace(a2, "ö", "oe"), Replace(b2, "ö", "oe");
    ReplaceCharConcat(a2, b2, 'ö', "oe");
    var a4, b4 := Replace(a3, "ü", "ue"), Replace(b3, "ü", "ue");
    ReplaceCharConcat(a3, b3, 'ü', "ue");
    var a5, b5 := Replace(a4, "ß", "ss"), Replace(b4, "ß", "ss");
    ReplaceCharConcat(a4, b4, 'ß', "ss");
    ReplaceCharConcat(a5, b5, '*', "");
  }

  lemma TransliteratePlain(s: string)
    requires 'ä' !in s && 'ö' !in s && 'ü' !in s && 'ß' !in s && '*' !in s
    ensures Transliterate(s) == s
  {
    ReplaceAbsent(s, "ä", "ae");
    ReplaceAbsent(s, "ö", "oe");
    ReplaceAbsent(s, "ü", "ue");
    ReplaceAbsent(s, "ß", "ss");
    ReplaceAbsent(s, "*", "");
  }

  lemma TransliterateSharpS()
    ensures Transliterate("ß") == "ss"
  {
    ReplaceAbsent("ß", "ä", "ae");
    ReplaceAbsent("ß", "ö", "oe");
    ReplaceAbsent("ß", "ü", "ue");
    ReplaceHere([], "ß", "ss");
    assert "ß" + [] == "ß";
    ReplaceAbsent("ss", "*", "");
  }

  lemma TransliterateUUmlaut()
    ensures Transliterate("ü") == "ue"
  {
    ReplaceAbsent("ü", "ä", "ae");
    ReplaceAbsent("ü", "ö", "oe");
    ReplaceHere([], "ü", "ue");
    assert "ü" + [] == "ü";
    ReplaceAbsent("ue", "ß", "ss");
    ReplaceAbsent("ue", "*", "");
  }

  lemma TransliterateSharpIn(x: string, y: string)
    requires TranslitPlain(x) && TranslitPlain(y)
    ensures Transliterate(x + "ß" + y) == x + "ss" + y
  {
    TransliterateConcat(x + "ß", y);
    TransliterateConcat(x, "ß");
    TransliterateSharpS();
    TransliteratePlain(x);
    TransliteratePlain(y);
  }

  lemma TransliterateUmlautIn(x: string, y: string)
    requires TranslitPlain(x) && TranslitPlain(y)
    ensures Transliterate(x + "ü" + y) == x + "ue" + y
  {
    TransliterateConcat(x + "ü", y);
    TransliterateConcat(x, "ü");
    TransliterateUUmlaut();
    TransliteratePlain(x);
    TransliteratePlain(y);
  }

  lemma TransliterateStrasseWord()
    ensures Transliterate("straße") == "strasse"
  {
    var x, y := "stra", "e";
    TransliterateSharpIn(x, y);
    assert x + "ß" + y == "straße";
  }

  /** "...straße" followed by plain text. */
  lemma TransliterateStrasse(a: string, rest: string)
    requires TranslitPlain(rest)
    ensures Transliterate(a + "straße" + rest) == Transliterate(a) + "strasse" + rest
  {
    TransliterateConcat(a + "straße", rest);
    TransliterateConcat(a, "straße");
    TransliterateStrasseWord();
    TransliteratePlain(rest);
  }

  lemma RespacePlain(s: string)
    requires '-' !in s && 'ç' !in s
    ensures Respace(s) == s
  {
    ReplaceAbsent(s, "-", " ");
    ReplaceAbsent(s, "ç", "c");
  }

  /** `' ab '` cannot start at a space that is not followed by 'a'. */
  lemma DropAbSkip(w: string, rest: string)
    requires ' ' !in w && (rest == [] || rest[0] != 'a')
    ensures Replace(w + " " + rest, " ab ", "") == w + " " + Replace(rest, " ab ", "")
  {
    var t := " " + rest;
    ConcatAssoc(w, " ", rest);
    ReplaceSkip(w, t, " ab ", "");
    assert !(" ab " <= t) by {
      if |t| >= 4 {
        assert t[1] == rest[0];
      }
    }
    assert t[1..] == rest;
    ReplaceNotHere(t, " ab ", "");
    ConcatAssoc(w, " ", Replace(rest, " ab ", ""));
  }

  /** `' ab '` finds nothing in a word followed by at most one more word that does not start with 'a'. */
  lemma DropAbTail(x: string, rest: string)
    requires ' ' !in x
    requires rest == [] || (rest[0] == ' ' && ' ' !in rest[1..] && (|rest| < 2 || rest[1] != 'a'))
    ensures Replace(x + rest, " ab ", "") == x + rest
  {
    if rest == [] {
      assert x + rest == x;
      ReplaceAbsent(x, " ab ", "");
    } else {
      assert rest == " " + rest[1..];
      assert x + rest == x + " " + rest[1..];
      DropAbWord(x, rest[1..]);
    }
  }

  lemma DropAbWord(x: string, y: string)
    requires ' ' !in x && ' ' !in y && (y == [] || y[0] != 'a')
    ensures Replace(x + " " + y, " ab ", "") == x + " " + y
  {
    DropAbSkip(x, y);
    ReplaceAbsent(y, " ab ", "");
  }

  lemma PrepareOf(name: string, t: string)
    requires Replace(Transliterate(Lower(name)), " ab ", "") == t
    requires '-' !in t && 'ç' !in t
    ensures Prepare(name) == t
  {
    RespacePlain(t);
  }

  /** Stages 1 and 2 leave a plain lower-case name without annotations as it is. */
  lemma PreparedPlain(name: string, l: string)
    requires Lower(name) == l
    requires 'ä' !in l && 'ö' !in l && 'ü' !in l && 'ß' !in l && '*' !in l
    requires ' ' !in l && '-' !in l && 'ç' !in l && '(' !in l
    ensures DropAnnotations(Prepare(name)) == l
  {
    TransliteratePlain(l);
    ReplaceAbsent(l, " ab ", "");
    RespacePlain(l);
    DropAnnotationsNone(l);
  }

  lemma PlainPrepared(name: string, t: string)
    requires Lower(name) == t && PreparePlain(t)
    ensures Prepare(name) == t
  {
    TransliteratePlain(t);
    ReplaceAbsent(t, " ab ", "");
    PrepareOf(name, t);
  }

  /** Two words, the second not starting with 'a'. */
  lemma TwoWordsPrepared(name: string, x: string, y: string)
    requires Lower(name) == x + " " + y && PreparePlain(x) && PreparePlain(y)
    requires y == [] || y[0] != 'a'
    ensures Prepare(name) == x + " " + y
  {
    TransliteratePlain(x + " " + y);
    DropAbWord(x, y);
    PrepareOf(name, x + " " + y);
  }

  lemma SharpPrepared(name: string, a: string, rest: string)
    requires Lower(name) == a + "straße" + rest && PreparePlain(a) && TranslitPlain(rest)
    requires '-' !in rest && 'ç' !in rest
    requires rest == [] || (rest[0] == ' ' && ' ' !in rest[1..] && (|rest| < 2 || rest[1] != 'a'))
    ensures Prepare(name) == a + "strasse" + rest
  {
    TransliterateStrasse(a, rest);
    TransliteratePlain(a);
    DropAbTail(a + "strasse", rest);
    PrepareOf(name, a + "strasse" + rest);
  }

  lemma UmlautPrepared(name: string, a: string, b: string)
    requires Lower(name) == a + "ü" + b + "straße"
    requires PlainWord(a) && PlainWord(b)
    ensures Prepare(name) == a + "ue" + b + "strasse"
  {
    var t := a + "ue" + b + "strasse";
    assert Lower(name) == (a + "ü" + b) + "straße" + [];
    TransliterateStrasse(a + "ü" + b, []);
    TransliterateUmlautIn(a, b);
    assert Transliterate(Lower(name)) == t + [];
    DropAbTail(t, []);
    assert '-' !in t && 'ç' !in t;
    PrepareOf(name, t);
  }

  /** Hyphens between three words become spaces. */
  lemma HyphensPrepared(name: string, x: string, y: string, z: string)
    requires Lower(name) == x + "-" + y + "-" + z
    requires PreparePlain(x) && PreparePlain(y) && PreparePlain(z)
    ensures Prepare(name) == x + " " + y + " " + z
  {
    var l := x + "-" + y + "-" + z;
    TransliteratePlain(l);
    ReplaceAbsent(l, " ab ", "");
    HyphensToSpaces(x, y, z);
    ReplaceAbsent(x + " " + y + " " + z, "ç", "c");
  }

  lemma HyphensToSpaces(x: string, y: string, z: string)
    requires '-' !in x && '-' !in y && '-' !in z
    ensures Replace(x + "-" + y + "-" + z, "-", " ") == x + " " + y + " " + z
  {
    ReplaceCharConcat(x + "-" + y + "-", z, '-', " ");
    ReplaceCharConcat(x + "-" + y, "-", '-', " ");
    ReplaceCharConcat(x + "-", y, '-', " ");
    ReplaceCharConcat(x, "-", '-', " ");
    HyphenToSpace();
    ReplaceAbsent(x, "-", " ");
    ReplaceAbsent(y, "-", " ");
    ReplaceAbsent(z, "-", " ");
  }

  lemma HyphenToSpace()
    ensures Replace("-", "-", " ") == " "
  {
    ReplaceHere([], "-", " ");
    assert "-" + [] == "-";
  }

  lemma ThreeWordsPrepared(name: string, x: string, y: string, z: string)
    requires Lower(name) == x + " " + y + " " + z
    requires PreparePlain(x) && PreparePlain(y) && PreparePlain(z)
    requires y != [] && y[0] != 'a' && z != [] && z[0] != 'a'
    ensures Prepare(name) == x + " " + y + " " + z
  {
    var l := x + " " + y + " " + z;
    SpacedPlain(x, y, z);
    TransliteratePlain(l);
    SpacedAssoc(x, y, z);
    DropAbSkip(x, y + " " + z);
    DropAbWord(y, z);
    PrepareOf(name, l);
  }

  lemma SpacedPlain(x: string, y: string, z: string)
    requires PreparePlain(x) && PreparePlain(y) && PreparePlain(z)
    ensures var l := x + " " + y + " " + z; TranslitPlain(l) && '-' !in l && 'ç' !in l
  {
  }

  lemma SpacedAssoc(x: string, y: string, z: string)
    ensures x + " " + y + " " + z == x + " " + (y + " " + z)
  {
    ConcatAssoc(x + " ", y, " " + z);
  }

  // ---------------------------------------------------------------------
  // Stage 3: the leading name

  lemma LeadingNamePlain(s: string)
    requires |s| >= 2 && s[0] != '\n'
    requires forall c :: c in s ==> !IsDigit(c)
    ensures LeadingName(s) == Some(Strip(s))
  {
    assert forall j :: 1 <= j < |s| ==> s[j] in s;
    TrailingNumberDropped(s, "0");
  }

  /** Stage 3 on a digit-free, already trimmed text. */
  lemma KeyTextPlain(name: string, t: string)
    requires DropAnnotations(Prepare(name)) == t
    requires |t| >= 2 && t[0] != '\n' && IsTrimmed(t)
    requires forall c :: c in t ==> !IsDigit(c)
    ensures KeyText(name) == Some(t)
  {
    LeadingNamePlain(t);
    StripTrimmed(t);
  }

  /** Stage 3 on a digit-free text, a space and a number. */
  lemma KeyTextNumber(name: string, t: string, n: string)
    requires DropAnnotations(Prepare(name)) == t + " " + n
    requires |t| >= 2 && t[0] != '\n' && IsTrimmed(t)
    requires forall c :: c in t ==> !IsDigit(c)
    requires n != [] && IsDigit(n[0])
    ensures KeyText(name) == Some(t)
  {
    LeadingNameNumber(t, n);
  }

  lemma LeadingNameNumber(t: string, n: string)
    requires |t| >= 2 && t[0] != '\n' && IsTrimmed(t)
    requires forall c :: c in t ==> !IsDigit(c)
    requires n != [] && IsDigit(n[0])
    ensures LeadingName(t + " " + n) == Some(t)
  {
    LeadingNameSpaced(t, n);
    StripSpaced(t);
  }

  lemma LeadingNameSpaced(t: string, n: string)
    requires |t| >= 2 && t[0] != '\n'
    requires forall c :: c in t ==> !IsDigit(c)
    requires n != [] && IsDigit(n[0])
    ensures LeadingName(t + " " + n) == Some(Strip(t + " "))
  {
    SpacedNoDigits(t);
    TrailingNumberDropped(t + " ", n);
  }

  lemma StripSpaced(t: string)
    requires IsTrimmed(t)
    ensures Strip(t + " ") == t
  {
    var u := t + " ";
    if t == [] {
      assert TrimStart(u) == TrimStart(u[1..]) == [];
    } else {
      assert u[0] == t[0] && TrimStart(u) == u;
      assert u[..|u| - 1] == t;
      assert TrimEnd(u) == TrimEnd(t) == t;
    }
  }

  lemma SpacedNoDigits(t: string)
    requires forall c :: c in t ==> !IsDigit(c)
    ensures forall j :: 1 <= j < |t + " "| ==> !IsDigit((t + " ")[j])
  {
    var u := t + " ";
    forall j | 1 <= j < |u| ensures !IsDigit(u[j]) {
      if j < |t| {
        assert u[j] == t[j] && t[j] in t;
      }
    }
  }

  /** Stage 3 on a digit-free text followed by a space. */
  lemma KeyTextSpace(name: string, t: string)
    requires DropAnnotations(Prepare(name)) == t + " "
    requires |t| >= 2 && t[0] != '\n' && IsTrimmed(t)
    requires forall c :: c in t ==> !IsDigit(c)
    ensures KeyText(name) == Some(t)
  {
    LeadingNameSpace(t);
  }

  lemma LeadingNameSpace(t: string)
    requires |t| >= 2 && t[0] != '\n' && IsTrimmed(t)
    requires forall c :: c in t ==> !IsDigit(c)
    ensures LeadingName(t + " ") == Some(t)
  {
    SpacedNoDigits(t);
    TrailingNumberDropped(t + " ", "0");
    StripSpaced(t);
  }

  /** Stages 2 and 3 on a trimmed, digit-free text without annotations. */
  lemma WordKey(name: string, t: string)
    requires Prepare(name) == t && '(' !in t
    requires |t| >= 2 && t[0] != '\n' && IsTrimmed(t)
    requires forall c :: c in t ==> !IsDigit(c)
    ensures KeyText(name) == Some(t)
  {
    DropAnnotationsNone(t);
    KeyTextPlain(name, t);
  }

  // ---------------------------------------------------------------------
  // Stages 4 and 5: where the rules cannot fire

  /** A stretch none of whose characters can start a match is copied. */
  lemma SubFromCopy(r: Rule, s: string, i: nat, j: nat)
    requires i <= j <= |s|
    requires forall c :: c in Lead(r) ==> c !in s[i..j]
    ensures SubFrom(r, s, i) == s[i..j] + SubFrom(r, s, j)
  {
    forall k | i <= k < j ensures s[k] !in Lead(r) {
      assert s[k] == s[i..j][k - i];
    }
    SubFromSkip(r, s, i, j);
  }

  lemma {:induction false} SubFromIdle(r: Rule, s: string, i: nat)
    requires i <= |s|
    requires forall k :: i <= k < |s| ==> MatchLength(r, s, k) == 0
    ensures SubFrom(r, s, i) == s[i..]
    decreases |s| - i
  {
    if i < |s| {
      SubFromIdle(r, s, i + 1);
      assert s[i..] == [s[i]] + s[i + 1..];
    }
  }

  /** `w` does not occur at `i` when its `j`-th character is missing there. */
  lemma NotLiteralAtOffset(s: string, i: nat, w: string, j: nat)
    requires j < |w| && (i + j >= |s| || s[i + j] != w[j])
    ensures !LiteralAt(s, i, w)
  {
    assert i + |w| <= |s| ==> s[i..i + |w|][j] == s[i + j];
  }

  lemma IdleWithoutLead(r: Rule, s: string, i: nat)
    requires i < |s| && s[i] !in Lead(r)
    ensures MatchLength(r, s, i) == 0
  {
  }

  lemma {:induction false} CopyRun(r: Rule, s: string, i: nat, j: nat)
    requires i <= j <= |s|
    requires forall k :: i <= k < j ==> MatchLength(r, s, k) == 0
    ensures SubFrom(r, s, i) == s[i..j] + SubFrom(r, s, j)
    decreases j - i
  {
    if i < j {
      CopyRun(r, s, i + 1, j);
      IdleStep(r, s, i);
      SliceCons(s, i, j, SubFrom(r, s, j));
    } else {
      SliceEmpty(s, i, SubFrom(r, s, j));
    }
  }



  lemma IdleStep(r: Rule, s: string, i: nat)
    requires i < |s| && MatchLength(r, s, i) == 0
    ensures SubFrom(r, s, i) == [s[i]] + SubFrom(r, s, i + 1)
  {
  }

  /** A space not followed by "str" and a non-word character starts no match. */
  lemma IdleAtSpace(s: string, i: nat)
    requires i + 4 < |s| && s[i] == ' ' && IsWordChar(s[i + 4])
    ensures MatchLength(StrasseRule(false), s, i) == 0
  {
    NotLiteralAtOffset(s, i, "strasse", 0);
    NotLiteralAtOffset(s, i, "str", 0);
  }

  /** An 's' that follows a non-word character, or is not followed by "tr", starts no match. */
  lemma IdleAtS(s: string, i: nat)
    requires i + 1 < |s| && s[i] == 's'
    requires (s[i + 1] != 't') || (i + 3 < |s| && IsWordChar(s[i + 3]) && !WordBefore(s, i))
    ensures MatchLength(StrasseRule(false), s, i) == 0
  {
    NotLiteralAtOffset(s, i, " str", 0);
    if s[i + 1] != 't' {
      NotLiteralAtOffset(s, i, "strasse", 1);
      NotLiteralAtOffset(s, i, "str", 1);
    }
  }

  /** A suffix rule cannot match when a character of the suffix is missing from the text. */
  lemma SuffixAbsent(x: string, s: string, c: char)
    requires c in x && c !in s
    ensures Sub(SuffixRule(x, false), s) == s
  {
    var r := SuffixRule(x, false);
    var j :| 0 <= j < |x| && x[j] == c;
    forall i | 0 <= i < |s| ensures MatchLength(r, s, i) == 0 {
      assert i + j < |s| ==> s[i + j] in s;
      NotLiteralAtOffset(s, i, x, j);
    }
    SubFromIdle(r, s, 0);
  }

  /** The suffix and "Sankt" rules cannot fire on `p + w` when `x` cannot start in `p` and its second character is missing from `w`. */
  lemma SuffixSplitAbsent(x: string, p: string, w: string)
    requires |x| >= 2 && x[0] !in p && x[1] !in w
    ensures Sub(SuffixRule(x, false), p + w) == p + w
  {
    var r := SuffixRule(x, false);
    var s := p + w;
    forall i | 0 <= i < |s| ensures MatchLength(r, s, i) == 0 {
      if i < |p| {
        assert s[i] == p[i] && p[i] in p;
        NotLiteralAtOffset(s, i, x, 0);
      } else {
        assert i + 1 < |s| ==> s[i + 1] == w[i + 1 - |p|] && w[i + 1 - |p|] in w;
        NotLiteralAtOffset(s, i, x, 1);
      }
    }
    SubFromIdle(r, s, 0);
  }

  /** Neither `st.` nor `sankt` can occur without a '.' and a 'k'. */
  lemma SanktAbsent(s: string)
    requires 'k' !in s && '.' !in s
    ensures Sub(SanktRule, s) == s
  {
    forall i | 0 <= i < |s| ensures MatchLength(SanktRule, s, i) == 0 {
      assert i + 2 < |s| ==> s[i + 2] in s;
      assert i + 3 < |s| ==> s[i + 3] in s;
      NotLiteralAtOffset(s, i, "st.", 2);
      NotLiteralAtOffset(s, i, "sankt", 3);
    }
    SubFromIdle(SanktRule, s, 0);
  }

  /** "st." without a 'k' anywhere matches nowhere when the '.' at the end is not preceded by "st". */
  lemma SanktAbsentDot(x: string)
    requires 'k' !in x && '.' !in x && x != [] && x[|x| - 1] != 't'
    ensures Sub(SanktRule, x + ".") == x + "."
  {
    var s := x + ".";
    forall i | 0 <= i < |s| ensures MatchLength(SanktRule, s, i) == 0 {
      if i + 3 < |x| {
        assert s[i + 3] == x[i + 3] && x[i + 3] in x;
      }
      NotLiteralAtOffset(s, i, "sankt", 3);
      if i + 2 < |x| {
        assert s[i + 2] == x[i + 2] && x[i + 2] in x;
        NotLiteralAtOffset(s, i, "st.", 2);
      } else if i + 2 == |x| {
        assert s[i + 1] == x[|x| - 1];
        NotLiteralAtOffset(s, i, "st.", 1);
      } else {
        NotLiteralAtOffset(s, i, "st.", 2);
      }
    }
    SubFromIdle(SanktRule, s, 0);
  }

  lemma {:induction false} SubAllIdle(rules: seq<Rule>, s: string)
    requires forall r :: r in rules ==> Sub(r, s) == s
    ensures SubAll(rules, s) == s
    decreases |rules|
  {
    if rules != [] {
      assert rules[0] in rules;
      assert forall r :: r in rules[1..] ==> r in rules;
      SubAllIdle(rules[1..], s);
    }
  }

  lemma SplitSuffixesFirst(s: string)
    ensures SplitSuffixes(s, false) == SubAll(SuffixRules(false)[1..], Sub(StrasseRule(false), s))
  {
  }

  /** The rules after the first cannot fire on a text without 'w', 'g' and 'z'. */
  lemma LaterSuffixesIdle(s: string)
    requires 'w' !in s && 'g' !in s && 'z' !in s
    ensures SubAll(SuffixRules(false)[1..], s) == s
  {
    SuffixAbsent("weg", s, 'w');
    SuffixAbsent("gasse", s, 'g');
    SuffixAbsent("gaessle", s, 'g');
    SuffixAbsent("platz", s, 'z');
    SuffixAbsent("steige", s, 'g');
    SuffixAbsent("ring", s, 'g');
    SubAllIdle(SuffixRules(false)[1..], s);
  }

  predicate StrasseLeadFree(s: string) {
    's' !in s && ' ' !in s && '-' !in s
  }

  /** Characters that none of the rules after the first, nor the "Sankt" rule, can use. */
  predicate TailFree(a: string) {
    StrasseLeadFree(a) && 'w' !in a && 'g' !in a && 'z' !in a && 'k' !in a && '.' !in a
  }

  // ---------------------------------------------------------------------
  // Stages 4 and 5: the spellings of "Straße" and "Sankt"

  /** "...strasse" written together is split off. */
  lemma StrasseJoined(a: string, b: string)
    requires a != [] && IsWordChar(a[|a| - 1])
    requires StrasseLeadFree(a) && StrasseLeadFree(b)
    ensures Sub(StrasseRule(false), a + "strasse" + b) == a + " strasse" + b
  {
    var s := a + "strasse" + b;
    assert s[|a|..|a| + 7] == "strasse";
    assert s[|a| - 1] == a[|a| - 1];
    StrasseJoinedAt(s, |a|);
    StrasseAround(a, "strasse", " strasse", b);
  }

  lemma StrasseJoinedAt(s: string, i: nat)
    requires i + 7 <= |s| && s[i..i + 7] == "strasse" && WordBefore(s, i)
    ensures SubFrom(StrasseRule(false), s, i) == " strasse" + SubFrom(StrasseRule(false), s, i + 7)
  {
    assert MatchLength(StrasseRule(false), s, i) == 7;
    SubFromUnfold(StrasseRule(false), s, i, 7);
  }

  /** "...str" written together, at the end of a word, becomes " strasse". */
  lemma StrJoined(a: string, b: string)
    requires b == [] || !IsWordChar(b[0])
    requires StrasseLeadFree(a) && StrasseLeadFree(b)
    ensures Sub(StrasseRule(false), a + "str" + b) == a + " strasse" + b
  {
    var s := a + "str" + b;
    assert s[|a|..|a| + 3] == "str";
    assert |a| + 3 < |s| ==> s[|a| + 3] == b[0];
    StrAt(s, |a|);
    StrasseAround(a, "str", " strasse", b);
  }

  lemma StrAt(s: string, i: nat)
    requires i + 3 <= |s| && s[i..i + 3] == "str" && NoWordAt(s, i + 3)
    ensures SubFrom(StrasseRule(false), s, i) == " strasse" + SubFrom(StrasseRule(false), s, i + 3)
  {
    assert s[i] == 's';
    NotLiteralAtOffset(s, i, "strasse", 3);
    NotLiteralAtOffset(s, i, " str", 0);
    assert MatchLength(StrasseRule(false), s, i) == 3;
    SubFromUnfold(StrasseRule(false), s, i, 3);
  }

  /** " str" at the end of a word becomes " strasse". */
  lemma SpaceStr(a: string, b: string)
    requires b == [] || !IsWordChar(b[0])
    requires StrasseLeadFree(a) && StrasseLeadFree(b)
    ensures Sub(StrasseRule(false), a + " str" + b) == a + " strasse" + b
  {
    var s := a + " str" + b;
    assert s[|a|..|a| + 4] == " str";
    assert |a| + 4 < |s| ==> s[|a| + 4] == b[0];
    SpaceStrAt(s, |a|);
    StrasseAround(a, " str", " strasse", b);
  }

  lemma SpaceStrAt(s: string, i: nat)
    requires i + 4 <= |s| && s[i..i + 4] == " str" && NoWordAt(s, i + 4)
    ensures SubFrom(StrasseRule(false), s, i) == " strasse" + SubFrom(StrasseRule(false), s, i + 4)
  {
    assert s[i] == ' ';
    NotLiteralAtOffset(s, i, "strasse", 0);
    assert MatchLength(StrasseRule(false), s, i) == 4;
    SubFromUnfold(StrasseRule(false), s, i, 4);
  }

  /** The Straße rule cannot use either end of a text, so it only rewrites the middle. */
  lemma StrasseAround(a: string, x: string, y: string, b: string)
    requires StrasseLeadFree(a) && StrasseLeadFree(b)
    requires SubFrom(StrasseRule(false), a + x + b, |a|) == y + SubFrom(StrasseRule(false), a + x + b, |a| + |x|)
    ensures Sub(StrasseRule(false), a + x + b) == a + y + b
  {
    var r := StrasseRule(false);
    calc {
      Sub(r, a + x + b);
    == { ConcatAssoc(a, x, b); CopyPrefix(r, a, x + b); }
      a + SubFrom(r, a + x + b, |a|);
    ==
      a + (y + SubFrom(r, a + x + b, |a| + |x|));
    == { CopySuffix(r, a + x, b); }
      a + (y + b);
    == { ConcatAssoc(a, y, b); }
      a + y + b;
    }
  }

  /** " strasse" as a word of its own is already in normal form. */
  lemma SpacedStrasse(a: string, b: string)
    requires StrasseLeadFree(a) && StrasseLeadFree(b)
    ensures Sub(StrasseRule(false), a + " strasse" + b) == a + " strasse" + b
  {
    var s := a + " strasse" + b;
    assert s[|a|..|a| + 8] == " strasse";
    StrasseWordKept(s, |a|);
    StrasseAround(a, " strasse", " strasse", b);
  }

  lemma CopyPrefix(r: Rule, a: string, t: string)
    requires forall c :: c in Lead(r) ==> c !in a
    ensures SubFrom(r, a + t, 0) == a + SubFrom(r, a + t, |a|)
  {
    assert (a + t)[0..|a|] == a;
    SubFromCopy(r, a + t, 0, |a|);
  }

  lemma CopySuffix(r: Rule, t: string, b: string)
    requires forall c :: c in Lead(r) ==> c !in b
    ensures SubFrom(r, t + b, |t|) == b
  {
    assert (t + b)[|t|..|t + b|] == b;
    SubFromCopy(r, t + b, |t|, |t + b|);
    assert b + [] == b;
  }

  lemma StrasseWordKept(s: string, i: nat)
    requires i + 8 <= |s| && s[i..i + 8] == " strasse"
    ensures SubFrom(StrasseRule(false), s, i) == " strasse" + SubFrom(StrasseRule(false), s, i + 8)
  {
    var r := StrasseRule(false);
    forall k | i <= k < i + 8 ensures MatchLength(r, s, k) == 0 {
      assert s[k] == s[i..i + 8][k - i];
      if k == i {
        IdleAtSpace(s, k);
      } else if k == i + 1 {
        assert s[i] == ' ' && s[i + 2] == 't' && s[i + 4] == 'a' by {
          assert s[i] == s[i..i + 8][0] && s[i + 2] == s[i..i + 8][2] && s[i + 4] == s[i..i + 8][4];
        }
        IdleAtS(s, k);
      } else if k == i + 5 || k == i + 6 {
        assert s[k + 1] == s[i..i + 8][k + 1 - i];
        IdleAtS(s, k);
      } else {
        IdleWithoutLead(r, s, k);
      }
    }
    CopyRun(r, s, i, i + 8);
  }

  /** The letters of the split-off suffix that later rules look for. */
  lemma StrasseLetters()
    ensures var r: string := " strasse";
      'w' !in r && 'g' !in r && 'z' !in r && 'k' !in r && '.' !in r && r[|r| - 1] != 't'
    ensures var r: string := " strasse.";
      'w' !in r && 'g' !in r && 'z' !in r
  {
  }

  lemma StrasseTail(a: string)
    requires a != [] && IsWordChar(a[|a| - 1]) && TailFree(a)
    ensures Sub(SanktRule, SplitSuffixes(a + "strasse", false)) == a + " strasse"
  {
    SplitSuffixesFirst(a + "strasse");
    StrasseJoined(a, []);
    assert a + "strasse" + [] == a + "strasse";
    assert a + " strasse" + [] == a + " strasse";
    StrasseLetters();
    LaterSuffixesIdle(a + " strasse");
    SanktAbsent(a + " strasse");
  }

  lemma StrTail(a: string)
    requires TailFree(a)
    ensures Sub(SanktRule, SplitSuffixes(a + "str", false)) == a + " strasse"
  {
    SplitSuffixesFirst(a + "str");
    StrJoined(a, []);
    assert a + "str" + [] == a + "str";
    assert a + " strasse" + [] == a + " strasse";
    StrasseLetters();
    LaterSuffixesIdle(a + " strasse");
    SanktAbsent(a + " strasse");
  }

  lemma StrDotTail(a: string)
    requires TailFree(a)
    ensures Sub(SanktRule, SplitSuffixes(a + "str.", false)) == a + " strasse."
  {
    SplitSuffixesFirst(a + "str.");
    StrJoined(a, ".");
    assert a + "str" + "." == a + "str.";
    assert a + " strasse" + "." == a + " strasse.";
    StrasseLetters();
    LaterSuffixesIdle(a + " strasse.");
    SanktAbsentDot(a + " strasse");
  }

  lemma SpaceStrTail(a: string)
    requires TailFree(a)
    ensures Sub(SanktRule, SplitSuffixes(a + " str", false)) == a + " strasse"
  {
    SplitSuffixesFirst(a + " str");
    SpaceStr(a, []);
    assert a + " str" + [] == a + " str";
    assert a + " strasse" + [] == a + " strasse";
    StrasseLetters();
    LaterSuffixesIdle(a + " strasse");
    SanktAbsent(a + " strasse");
  }

  lemma SpacedStrasseTail(a: string)
    requires TailFree(a)
    ensures Sub(SanktRule, SplitSuffixes(a + " strasse", false)) == a + " strasse"
  {
    SplitSuffixesFirst(a + " strasse");
    SpacedStrasse(a, []);
    assert a + " strasse" + [] == a + " strasse";
    StrasseLetters();
    LaterSuffixesIdle(a + " strasse");
    SanktAbsent(a + " strasse");
  }

  /** "St. " and "Sankt " at the start, followed by a word the suffix rules leave alone. */
  lemma SanktTail(p: string, w: string)
    requires p == "st. " || p == "sankt "
    requires w != [] && w[0] != 's' && StrasseLeadFree(w)
    requires 'w' !in w && 'a' !in w && 'p' !in w && 'i' !in w
    ensures Sub(SanktRule, SplitSuffixes(p + w, false)) == "sankt " + w
  {
    SuffixesIdleAfterSankt(p, w);
    SanktAt(p, w);
  }

  lemma SuffixesIdleAfterSankt(p: string, w: string)
    requires p == "st. " || p == "sankt "
    requires w != [] && w[0] != 's' && StrasseLeadFree(w)
    requires 'w' !in w && 'a' !in w && 'p' !in w && 'i' !in w
    ensures SplitSuffixes(p + w, false) == p + w
  {
    SplitSuffixesFirst(p + w);
    StrasseIdleAfterSankt(p, w);
    SanktPrefixLetters(p);
    LaterSuffixesIdleAfterSankt(p, w);
  }

  lemma SanktPrefixLetters(p: string)
    requires p == "st. " || p == "sankt "
    ensures 'w' !in p && 'p' !in p && 'i' !in p && 'g' !in p
  {
  }

  lemma LaterSuffixesIdleAfterSankt(p: string, w: string)
    requires 'w' !in p && 'p' !in p && 'i' !in p && 'g' !in p
    requires 'w' !in w && 'a' !in w && 'p' !in w && 'i' !in w
    ensures SubAll(SuffixRules(false)[1..], p + w) == p + w
  {
    var s := p + w;
    SuffixAbsent("weg", s, 'w');
    SuffixSplitAbsent("gasse", p, w);
    SuffixSplitAbsent("gaessle", p, w);
    SuffixAbsent("platz", s, 'p');
    SuffixAbsent("steige", s, 'i');
    SuffixAbsent("ring", s, 'i');
    SubAllIdle(SuffixRules(false)[1..], s);
  }

  lemma StrasseIdleAfterSankt(p: string, w: string)
    requires p == "st. " || p == "sankt "
    requires w != [] && w[0] != 's' && StrasseLeadFree(w)
    ensures Sub(StrasseRule(false), p + w) == p + w
  {
    var r, s := StrasseRule(false), p + w;
    forall k | 0 <= k < |s| ensures MatchLength(r, s, k) == 0 {
      if k == 0 {
        assert s[0] == 's' && (s[1] != 't' || s[2] == '.');
        if s[1] != 't' {
          NotLiteralAtOffset(s, 0, "strasse", 1);
          NotLiteralAtOffset(s, 0, "str", 1);
        } else {
          NotLiteralAtOffset(s, 0, "strasse", 2);
          NotLiteralAtOffset(s, 0, "str", 2);
        }
        NotLiteralAtOffset(s, 0, " str", 0);
      } else if k == |p| - 1 {
        assert s[k] == ' ' && s[k + 1] == w[0];
        NotLiteralAtOffset(s, k, "strasse", 0);
        NotLiteralAtOffset(s, k, "str", 0);
        NotLiteralAtOffset(s, k, " str", 1);
      } else if k < |p| {
        assert s[k] == p[k] && p[k] !in "s -";
        IdleWithoutLead(r, s, k);
      } else {
        assert s[k] == w[k - |p|] && w[k - |p|] in w;
        IdleWithoutLead(r, s, k);
      }
    }
    SubFromIdle(r, s, 0);
  }

  lemma SanktAt(p: string, w: string)
    requires p == "st. " || p == "sankt "
    requires 's' !in w
    ensures Sub(SanktRule, p + w) == "sankt " + w
  {
    var s := p + w;
    assert s[..|p|] == p && s[|p|..] == w;
    if p == "sankt " {
      NotLiteralAtOffset(s, 0, "st.", 1);
    }
    assert MatchLength(SanktRule, s, 0) == |p|;
    assert s[|p|..|s|] == w;
    SubFromCopy(SanktRule, s, |p|, |s|);
    assert w + [] == w;
  }

  // ---------------------------------------------------------------------
  // Names of a given shape

  /** The whole normaliser, from its stages. */
  lemma NormalizeFrom(name: string, t: string, key: string)
    requires KeyText(name) == Some(t)
    requires Sub(SanktRule, SplitSuffixes(t, false)) == key
    ensures Normalize(name) == Some(key)
  {
    HyphenAlternativesNeverFire(name);
  }

  lemma SamePrepared(n1: string, n2: string)
    requires Prepare(n1) == Prepare(n2)
    ensures Normalize(n1) == Normalize(n2)
  {
  }

  /** Letters that no stage rewrites and that no rule can start or complete a match with. */
  predicate PlainWord(s: string) {
    TranslitPlain(s) && TailFree(s) && '(' !in s && 'ç' !in s
    && forall c :: c in s ==> !IsDigit(c) && !IsSpace(c)
  }

  /** A word that no stage changes and that no rule can use, ending in a letter. */
  predicate StemWord(w: string) {
    PlainWord(w) && PreparePlain(w) && |w| >= 2 && w[0] != '\n' && IsWordChar(w[|w| - 1])
  }

  /** `rest` is a space and the house number `n`. */
  predicate NumberAfter(rest: string, n: string) {
    rest == " " + n && n != [] && IsDigit(n[0]) && PreparePlain(n) && '(' !in n
  }

  /** `rest` is a space and the annotation `(u)`. */
  predicate AnnotationAfter(rest: string, u: string) {
    rest == " (" + u + ")" && PreparePlain(u) && ')' !in u && '\n' !in u
  }

  /** The spellings of the suffix: no digit, no '(' and no space at the end. */
  predicate Spelling(tail: string) {
    tail == "strasse" || tail == "str" || tail == "str." || tail == " str" || tail == " strasse"
  }

  lemma SpellingChars(tail: string)
    requires Spelling(tail)
    ensures tail != [] && !IsSpace(tail[|tail| - 1])
    ensures forall i :: 0 <= i < |tail| ==> !IsDigit(tail[i]) && tail[i] != '('
  {
  }

  /** A plain word followed by a spelling of the suffix is what stage 3 keeps whole. */
  lemma SpelledText(w: string, tail: string)
    requires PlainWord(w) && |w| >= 2 && w[0] != '\n' && Spelling(tail)
    ensures var t := w + tail;
      '(' !in t && |t| >= 2 && t[0] != '\n' && IsTrimmed(t) && forall c :: c in t ==> !IsDigit(c)
  {
    SpellingChars(tail);
    var t := w + tail;
    assert !IsSpace(w[0]) by { assert w[0] in w; }
    assert t[0] == w[0] && t[|t| - 1] == tail[|tail| - 1];
    forall c | c in t ensures !IsDigit(c) && c != '(' {
      var i :| 0 <= i < |t| && t[i] == c;
      if i >= |w| {
        assert c == tail[i - |w|];
      } else {
        assert c in w;
      }
    }
  }

  /** A name prepared to one plain word ending in "strasse". */
  lemma StrasseKey(name: string, w: string)
    requires Prepare(name) == w + "strasse"
    requires PlainWord(w) && |w| >= 2 && w[0] != '\n' && IsWordChar(w[|w| - 1])
    ensures Normalize(name) == Some(w + " strasse")
  {
    var t := w + "strasse";
    SpelledText(w, "strasse");
    WordKey(name, t);
    StrasseTail(w);
    NormalizeFrom(name, t, w + " strasse");
  }

  /** A name prepared to one plain word ending in "strasse". */
  lemma StrasseNumberKey(name: string, w: string, n: string)
    requires Prepare(name) == w + "strasse" + " " + n
    requires PlainWord(w) && w != [] && w[0] != '\n' && IsWordChar(w[|w| - 1])
    requires '(' !in n && n != [] && IsDigit(n[0])
    ensures Normalize(name) == Some(w + " strasse")
  {
    var t := w + "strasse";
    DropAnnotationsNone(t + " " + n);
    KeyTextNumber(name, t, n);
    StrasseTail(w);
    NormalizeFrom(name, t, w + " strasse");
  }

  lemma StrasseAnnotatedKey(name: string, w: string, u: string)
    requires Prepare(name) == w + "strasse" + " (" + u + ")"
    requires PlainWord(w) && w != [] && w[0] != '\n' && IsWordChar(w[|w| - 1])
    requires ')' !in u && '\n' !in u
    ensures Normalize(name) == Some(w + " strasse")
  {
    var t := w + "strasse";
    assert Prepare(name) == (t + " ") + "(" + u + ")" + [];
    AnnotationRemoved(t + " ", u, []);
    DropAnnotationsNone([]);
    assert (t + " ") + [] == t + " ";
    KeyTextSpace(name, t);
    StrasseTail(w);
    NormalizeFrom(name, t, w + " strasse");
  }

  /** "...straße", then nothing, a house number or an annotation. */
  lemma SharpStrasse(name: string, w: string, rest: string)
    requires StemWord(w)
    requires Lower(name) == w + "straße" + rest
    requires rest == [] || (exists n :: NumberAfter(rest, n)) || (exists u :: AnnotationAfter(rest, u))
    ensures Normalize(name) == Some(w + " strasse")
  {
    if rest == [] {
      assert Lower(name) == w + "straße";
      SharpBare(name, w);
    } else if n :| NumberAfter(rest, n) {
      SharpNumber(name, w, n);
    } else {
      var u :| AnnotationAfter(rest, u);
      SharpAnnotated(name, w, u);
    }
  }

  lemma SharpBare(name: string, w: string)
    requires StemWord(w)
    requires Lower(name) == w + "straße"
    ensures Normalize(name) == Some(w + " strasse")
  {
    assert Lower(name) == w + "straße" + [];
    SharpPrepared(name, w, []);
    assert w + "strasse" + [] == w + "strasse";
    StrasseKey(name, w);
  }

  lemma SharpNumber(name: string, w: string, n: string)
    requires StemWord(w)
    requires NumberAfter(" " + n, n) && Lower(name) == w + "straße" + (" " + n)
    ensures Normalize(name) == Some(w + " strasse")
  {
    NumberRest(n);
    SharpPrepared(name, w, " " + n);
    assert w + "strasse" + (" " + n) == w + "strasse" + " " + n;
    StrasseNumberKey(name, w, n);
  }

  lemma NumberRest(n: string)
    requires n != [] && IsDigit(n[0]) && PreparePlain(n)
    ensures TranslitPlain(" " + n) && '-' !in " " + n && 'ç' !in " " + n
    ensures (" " + n)[0] == ' ' && ' ' !in (" " + n)[1..] && (" " + n)[1] != 'a'
  {
    assert (" " + n)[1..] == n;
  }

  lemma SharpAnnotated(name: string, w: string, u: string)
    requires StemWord(w)
    requires AnnotationAfter(" (" + u + ")", u) && Lower(name) == w + "straße" + (" (" + u + ")")
    ensures Normalize(name) == Some(w + " strasse")
  {
    AnnotationRest(u);
    SharpPrepared(name, w, " (" + u + ")");
    assert w + "strasse" + (" (" + u + ")") == w + "strasse" + " (" + u + ")";
    StrasseAnnotatedKey(name, w, u);
  }

  lemma AnnotationRest(u: string)
    requires PreparePlain(u)
    ensures TranslitPlain(" (" + u + ")") && '-' !in " (" + u + ")" && 'ç' !in " (" + u + ")"
    ensures (" (" + u + ")")[0] == ' ' && ' ' !in (" (" + u + ")")[1..] && (" (" + u + ")")[1] != 'a'
  {
    assert (" (" + u + ")")[1..] == "(" + u + ")";
  }

  lemma SharpStrasseAnnotated(name: string, w: string, u: string)
    requires StemWord(w)
    requires Lower(name) == w + "straße" + " (" + u + ")"
    requires PreparePlain(u) && ')' !in u && '\n' !in u
    ensures Normalize(name) == Some(w + " strasse")
  {
    assert AnnotationAfter(" (" + u + ")", u);
    SharpStrasse(name, w, " (" + u + ")");
  }

  /** A name with one 'ü' before "straße". */
  lemma UmlautStrasse(name: string, a: string, b: string)
    requires Lower(name) == a + "ü" + b + "straße"
    requires PlainWord(a) && PlainWord(b)
    requires a != [] && a[0] != '\n' && b != [] && IsWordChar(b[|b| - 1])
    ensures Normalize(name) == Some(a + "ue" + b + " strasse")
  {
    var w := a + "ue" + b;
    UmlautPrepared(name, a, b);
    assert PlainWord(w);
    StrasseKey(name, w);
  }

  /** The spellings "str", "str.", " str" and " strasse" after a plain word. */
  lemma StrSpelling(name: string, w: string, tail: string)
    requires tail == "str" || tail == "str." || tail == " str" || tail == " strasse"
    requires Lower(name) == w + tail
    requires StemWord(w)
    ensures Normalize(name) == Some(w + (if tail == "str." then " strasse." else " strasse"))
  {
    var t := w + tail;
    if tail[0] == ' ' {
      assert t == w + " " + tail[1..];
      TwoWordsPrepared(name, w, tail[1..]);
    } else {
      PlainPrepared(name, t);
    }
    StrSpellingKey(name, w, tail);
  }

  lemma StrSpellingKey(name: string, w: string, tail: string)
    requires tail == "str" || tail == "str." || tail == " str" || tail == " strasse"
    requires Prepare(name) == w + tail
    requires PlainWord(w) && |w| >= 2 && w[0] != '\n'
    ensures Normalize(name) == Some(w + (if tail == "str." then " strasse." else " strasse"))
  {
    var t := w + tail;
    SpelledText(w, tail);
    WordKey(name, t);
    StrSpellingTail(w, tail);
    NormalizeFrom(name, t, w + (if tail == "str." then " strasse." else " strasse"));
  }

  lemma StrSpellingTail(w: string, tail: string)
    requires tail == "str" || tail == "str." || tail == " str" || tail == " strasse"
    requires TailFree(w)
    ensures Sub(SanktRule, SplitSuffixes(w + tail, false)) == w + (if tail == "str." then " strasse." else " strasse")
  {
    if tail == "str" {
      StrTail(w);
    } else if tail == "str." {
      StrDotTail(w);
    } else if tail == " str" {
      SpaceStrTail(w);
    } else {
      SpacedStrasseTail(w);
    }
  }

  /** A word after "St." or "Sankt" that no stage changes and that no rule can use. */
  predicate SanktWord(w: string) {
    PreparePlain(w) && '(' !in w && w != [] && w[0] != 's' && w[0] != 'a' && StrasseLeadFree(w)
    && 'w' !in w && 'a' !in w && 'p' !in w && 'i' !in w
    && forall c :: c in w ==> !IsDigit(c) && !IsSpace(c)
  }

  /** A lower-case ASCII letter that no rule can use after "St." or "Sankt". */
  predicate SanktLetter(c: char) {
    'a' <= c <= 'z' && c != 's' && c != 'w' && c != 'a' && c != 'p' && c != 'i'
  }

  lemma SanktFromLetters(w: string)
    requires w != [] && forall i :: 0 <= i < |w| ==> SanktLetter(w[i])
    ensures SanktWord(w)
  {
    assert forall c :: c in w ==> SanktLetter(c);
  }

  /** "St." or "Sankt", a space and a word the suffix rules leave alone. */
  lemma SanktName(name: string, x: string, w: string)
    requires x == "st." || x == "sankt"
    requires Lower(name) == x + " " + w
    requires SanktWord(w)
    ensures Normalize(name) == Some("sankt " + w)
  {
    SanktKeyText(name, x, w);
    SanktWordTail(x, w);
    NormalizeFrom(name, x + " " + w, "sankt " + w);
  }

  lemma SanktWordTail(x: string, w: string)
    requires x == "st." || x == "sankt"
    requires w != [] && w[0] != 's' && StrasseLeadFree(w)
    requires 'w' !in w && 'a' !in w && 'p' !in w && 'i' !in w
    ensures Sub(SanktRule, SplitSuffixes(x + " " + w, false)) == "sankt " + w
  {
    var p := x + " ";
    if x == "st." {
      assert p == "st. ";
    } else {
      assert p == "sankt ";
    }
    SanktTail(p, w);
    assert p + w == x + " " + w;
  }

  lemma SanktKeyText(name: string, x: string, w: string)
    requires x == "st." || x == "sankt"
    requires Lower(name) == x + " " + w
    requires PreparePlain(w) && '(' !in w && w != [] && w[0] != 'a'
    requires forall c :: c in w ==> !IsDigit(c) && !IsSpace(c)
    ensures KeyText(name) == Some(x + " " + w)
  {
    TwoWordsPrepared(name, x, w);
    SanktText(x, w);
    WordKey(name, x + " " + w);
  }

  lemma SanktText(x: string, w: string)
    requires x == "st." || x == "sankt"
    requires '(' !in w && w != []
    requires forall c :: c in w ==> !IsDigit(c) && !IsSpace(c)
    ensures var t := x + " " + w;
      '(' !in t && |t| >= 2 && t[0] != '\n' && IsTrimmed(t) && forall c :: c in t ==> !IsDigit(c)
  {
    var t := x + " " + w;
    assert !IsSpace(t[|t| - 1]) by { assert t[|t| - 1] == w[|w| - 1] && w[|w| - 1] in w; }
    assert forall c :: c in t ==> c in x || c == ' ' || c in w;
  }

  /** Hyphens and spaces between the same three words give the same key. */
  lemma HyphensLikeSpaces(n1: string, n2: string, x: string, y: string, z: string)
    requires Lower(n1) == x + "-" + y + "-" + z && Lower(n2) == x + " " + y + " " + z
    requires PreparePlain(x) && PreparePlain(y) && PreparePlain(z)
    requires y != [] && y[0] != 'a' && z != [] && z[0] != 'a'
    ensures Normalize(n1) == Normalize(n2)
  {
    HyphensPrepared(n1, x, y, z);
    ThreeWordsPrepared(n2, x, y, z);
    SamePrepared(n1, n2);
  }

  /** Too short, or a digit in second place: `.\D+` does not match. */
  lemma NoKey(name: string, l: string)
    requires Lower(name) == l && PreparePlain(l) && '(' !in l
    requires |l| < 2 || IsDigit(l[1])
    ensures Normalize(name) == None
  {
    PlainPrepared(name, l);
    DropAnnotationsNone(l);
    NormalizeFailsIff(name);
  }

  lemma BareStrDot(name: string)
    requires Lower(name) == "str."
    ensures Normalize(name) == Some(" strasse.")
  {
    StrDotKeyText(name);
    StrDotAlone();
    NormalizeFrom(name, "str.", " strasse.");
  }

  lemma StrDotKeyText(name: string)
    requires Lower(name) == "str."
    ensures KeyText(name) == Some("str.")
  {
    var t: string := "str.";
    PlainPrepared(name, t);
    StrDotChars();
    WordKey(name, t);
  }

  lemma StrDotChars()
    ensures var t: string := "str.";
      '(' !in t && |t| >= 2 && t[0] != '\n' && IsTrimmed(t) && forall c :: c in t ==> !IsDigit(c)
  {
    var t: string := "str.";
    assert forall i :: 0 <= i < |t| ==> !IsDigit(t[i]);
  }

  lemma StrDotAlone()
    ensures Sub(SanktRule, SplitSuffixes("str.", false)) == " strasse."
  {
    StrDotTail([]);
    assert [] + "str." == "str." && [] + " strasse." == " strasse.";
  }

  // ---------------------------------------------------------------------
  // The examples

  /** Umlaut and ß are transliterated, then the suffix is split off. */
  /** A lower-case ASCII letter that no rule can use. */
  predicate StemLetter(c: char) {
    'a' <= c <= 'z' && c != 's' && c != 'w' && c != 'g' && c != 'z' && c != 'k'
  }

  lemma StemFromLetters(w: string)
    requires |w| >= 2 && forall i :: 0 <= i < |w| ==> StemLetter(w[i])
    ensures StemWord(w)
  {
    assert forall c :: c in w ==> StemLetter(c);
  }

  lemma HauptStem()
    ensures StemWord("haupt")
  {
    StemFromLetters("haupt");
  }

  lemma BahnhofStem()
    ensures StemWord("bahnhof")
  {
    StemFromLetters("bahnhof");
  }

  lemma MuellerStrasse()
    ensures Normalize("Müllerstraße") == Some("mueller strasse")
  {
    var a, b := "m", "ller";
    MuellerParts(a, b);
    UmlautStrasse("Müllerstraße", a, b);
  }

  lemma MuellerParts(a: string, b: string)
    requires a == "m" && b == "ller"
    ensures Lower("Müllerstraße") == a + "ü" + b + "straße"
    ensures a + "ue" + b + " strasse" == "mueller strasse"
    ensures PlainWord(a) && PlainWord(b) && a[0] != '\n' && IsWordChar(b[|b| - 1])
  {
    MuellerLower(a, b);
    MuellerWords(a, b);
  }

  lemma MuellerLower(a: string, b: string)
    requires a == "m" && b == "ller"
    ensures Lower("Müllerstraße") == a + "ü" + b + "straße"
  {
    assert a + "ü" + b + "straße" == "müllerstraße";
  }

  lemma MuellerWords(a: string, b: string)
    requires a == "m" && b == "ller"
    ensures PlainWord(a) && PlainWord(b) && a[0] != '\n' && IsWordChar(b[|b| - 1])
  {
  }

  /** "Hauptstraße" with and without a house number or an annotation. */
  lemma HauptStrasse()
    ensures Normalize("Hauptstraße") == Some("haupt strasse")
  {
    var w := "haupt";
    HauptStem();
    assert Lower("Hauptstraße") == w + "straße" + [];
    assert w + " strasse" == "haupt strasse";
    SharpStrasse("Hauptstraße", w, []);
  }

  lemma HouseNumberDropped()
    ensures Normalize("Hauptstraße 12") == Some("haupt strasse")
  {
    var w, r := "haupt", " 12";
    HauptStem();
    assert Lower("Hauptstraße 12") == w + "straße" + r;
    assert w + " strasse" == "haupt strasse";
    assert NumberAfter(r, "12");
    SharpStrasse("Hauptstraße 12", w, r);
  }

  lemma AnnotationDropped()
    ensures Normalize("Hauptstraße (Nord)") == Some("haupt strasse")
  {
    var w, u := "haupt", "nord";
    HauptStem();
    assert Lower("Hauptstraße (Nord)") == w + "straße" + " (" + u + ")";
    assert w + " strasse" == "haupt strasse";
    SharpStrasseAnnotated("Hauptstraße (Nord)", w, u);
  }

  /** Umlauts aside, every spelling of "Straße" gives the same key; a trailing period stays. */
  lemma BahnhofStrasse()
    ensures Normalize("Bahnhofstraße") == Some("bahnhof strasse")
  {
    var w := "bahnhof";
    BahnhofStem();
    assert Lower("Bahnhofstraße") == w + "straße" + [];
    assert w + " strasse" == "bahnhof strasse";
    SharpStrasse("Bahnhofstraße", w, []);
  }

  lemma BahnhofStr()
    ensures Normalize("Bahnhofstr") == Some("bahnhof strasse")
  {
    var w, tail := "bahnhof", "str";
    BahnhofStem();
    assert Lower("Bahnhofstr") == w + tail;
    assert w + " strasse" == "bahnhof strasse";
    StrSpelling("Bahnhofstr", w, tail);
  }

  lemma BahnhofSpaceStr()
    ensures Normalize("Bahnhof Str") == Some("bahnhof strasse")
  {
    var w, tail := "bahnhof", " str";
    BahnhofStem();
    assert Lower("Bahnhof Str") == w + tail;
    assert w + " strasse" == "bahnhof strasse";
    StrSpelling("Bahnhof Str", w, tail);
  }

  lemma BahnhofSpaceStrasse()
    ensures Normalize("Bahnhof Strasse") == Some("bahnhof strasse")
  {
    var w, tail := "bahnhof", " strasse";
    BahnhofStem();
    assert Lower("Bahnhof Strasse") == w + tail;
    assert w + " strasse" == "bahnhof strasse";
    StrSpelling("Bahnhof Strasse", w, tail);
  }

  lemma BahnhofStrDot()
    ensures Normalize("Bahnhofstr.") == Some("bahnhof strasse.")
  {
    var w, tail := "bahnhof", "str.";
    BahnhofStem();
    assert Lower("Bahnhofstr.") == w + tail;
    assert w + " strasse." == "bahnhof strasse.";
    StrSpelling("Bahnhofstr.", w, tail);
  }

  /** "St. " and "Sankt " at the start are the same key. */
  lemma StGeorgen()
    ensures Normalize("St. Georgen") == Some("sankt georgen")
  {
    var x, w := "st.", "georgen";
    assert Lower("St. Georgen") == x + " " + w;
    assert "sankt " + w == "sankt georgen";
    SanktFromLetters(w);
    SanktName("St. Georgen", x, w);
  }

  lemma SanktGeorgen()
    ensures Normalize("Sankt Georgen") == Some("sankt georgen")
  {
    var x, w := "sankt", "georgen";
    assert Lower("Sankt Georgen") == x + " " + w;
    assert "sankt " + w == "sankt georgen";
    SanktFromLetters(w);
    SanktName("Sankt Georgen", x, w);
  }

  /** A hyphen separates words just as a space does. */
  lemma HansSachsWeg()
    ensures Normalize("Hans-Sachs-Weg") == Normalize("Hans Sachs Weg")
  {
    var x, y, z := "hans", "sachs", "weg";
    HansSachsWegHyphened(x, y, z);
    HansSachsWegSpaced(x, y, z);
    HansSachsWegWords(x, y, z);
    HyphensLikeSpaces("Hans-Sachs-Weg", "Hans Sachs Weg", x, y, z);
  }

  lemma HansSachsWegWords(x: string, y: string, z: string)
    requires x == "hans" && y == "sachs" && z == "weg"
    ensures PreparePlain(x) && PreparePlain(y) && PreparePlain(z)
    ensures y != [] && y[0] != 'a' && z != [] && z[0] != 'a'
  {
  }

  lemma HansSachsWegHyphened(x: string, y: string, z: string)
    requires x == "hans" && y == "sachs" && z == "weg"
    ensures Lower("Hans-Sachs-Weg") == x + "-" + y + "-" + z
  {
    assert x + "-" + y + "-" + z == "hans-sachs-weg";
  }

  lemma HansSachsWegSpaced(x: string, y: string, z: string)
    requires x == "hans" && y == "sachs" && z == "weg"
    ensures Lower("Hans Sachs Weg") == x + " " + y + " " + z
  {
    assert x + " " + y + " " + z == "hans sachs weg";
  }

  /** Inputs without a key: Python raises AttributeError on them. */
  lemma NoKeyExamples()
    ensures Normalize("") == None
    ensures Normalize("A") == None
    ensures Normalize("A1") == None
  {
    NoKey("", "");
    assert Lower("A") == "a";
    NoKey("A", "a");
    assert Lower("A1") == "a1";
    NoKey("A1", "a1");
  }

  /** A name that starts with "Str" keeps the space put in front of "strasse". */
  lemma LeadingSpaceKept()
    ensures Normalize("Str.") == Some(" strasse.")
  {
    assert Lower("Str.") == "str.";
    BareStrDot("Str.");
  }
}
