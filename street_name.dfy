/**
 * The street-name normaliser `Street.normalizeName` (street.py, duplicated
 * verbatim in crawlTrashCollections.py). It is the join key between the
 * street geometries and the waste-collection schedule.
 *
 * The pipeline, stage by stage:
 *   1. `Prepare`: lower-case, transliterate ä ö ü ß ç, remove `*` and
 *      `' ab '`, turn `-` into a space (`str.replace`, left to right);
 *   2. `DropAnnotations`: `re.sub('\(.*?\)', '', s)`;
 *   3. `LeadingName`: `re.match('.\D+', s).group(0).strip()`, which raises
 *      when there is no match (modelled as `None`);
 *   4. `SplitSuffixes`: the seven `re.sub` calls that split street suffixes
 *      off (strasse, weg, gasse, gaessle, platz, steige, ring);
 *   5. the `re.sub` that turns `st.` and `sankt` into `sankt `.
 *
 * Every regular expression is written out by hand as a `Rule` matched at a
 * position of the ORIGINAL string, so that look-behinds see the original
 * characters exactly as Python's `re.sub` does.
 */
module StreetName {
  import opened Wrappers
  import opened Text

  // ---------------------------------------------------------------------
  // Stage 1: str.lower and str.replace

  function Prepare(name: string): string {
    Respace(Replace(Transliterate(Lower(name)), " ab ", ""))
  }

  /** The replacements before `' ab '`: umlauts, ß and `*`. */
  function Transliterate(s: string): string {
    var s2 := Replace(s, "ä", "ae");
    var s3 := Replace(s2, "ö", "oe");
    var s4 := Replace(s3, "ü", "ue");
    var s5 := Replace(s4, "ß", "ss");
    Replace(s5, "*", "")
  }

  /** The replacements after `' ab '`: `-` and ç. */
  function Respace(s: string): string {
    Replace(Replace(s, "-", " "), "ç", "c")
  }

  /** No upper-case letter, no umlaut, ß or ç, no `*` and no `-`. */
  predicate Folded(s: string) {
    Clean(s, "äöüß*-ç")
  }

  predicate FoldedChar(c: char) {
    !IsUpper(c) && c !in "äöüß*-ç"
  }

  /** No upper-case letter and no character of `bad`. */
  predicate Clean(s: string, bad: string) {
    forall k :: 0 <= k < |s| ==> !IsUpper(s[k]) && s[k] !in bad
  }

  /** Every character of `t` is a character of `s` or of `extra`. */
  predicate CharsFrom(t: string, s: string, extra: string) {
    forall k :: 0 <= k < |t| ==> t[k] in s || t[k] in extra
  }

  lemma CharsFromConcat(x: string, y: string, s: string, extra: string)
    requires (forall k :: 0 <= k < |x| ==> x[k] in s || x[k] in extra) && CharsFrom(y, s, extra)
    ensures CharsFrom(x + y, s, extra)
  {
    forall k | 0 <= k < |x + y| ensures (x + y)[k] in s || (x + y)[k] in extra {
      if k >= |x| {
        assert (x + y)[k] == y[k - |x|];
      }
    }
  }

  lemma CleanFrom(t: string, s: string, extra: string, bad: string)
    requires CharsFrom(t, s, extra) && Clean(s, bad) && Clean(extra, bad)
    ensures Clean(t, bad)
  {
    forall k | 0 <= k < |t| ensures !IsUpper(t[k]) && t[k] !in bad {
      if t[k] in s {
        var j :| 0 <= j < |s| && s[j] == t[k];
      } else {
        var j :| 0 <= j < |extra| && extra[j] == t[k];
      }
    }
  }

  lemma ReplaceCharsFrom(s: string, pat: string, rep: string)
    requires pat != []
    ensures CharsFrom(Replace(s, pat, rep), s, rep)
  {
    var t := Replace(s, pat, rep);
    forall k | 0 <= k < |t| ensures t[k] in s || t[k] in rep {
      ReplaceChars(s, pat, rep, t[k]);
    }
  }

  /** Replacing `c` by a clean text removes `c` and keeps the string clean. */
  lemma ReplaceCleans(s: string, c: char, rep: string, bad: string)
    requires Clean(s, bad) && Clean(rep, bad + [c])
    ensures Clean(Replace(s, [c], rep), bad + [c])
  {
    var t := Replace(s, [c], rep);
    ReplaceCharGone(s, c, rep);
    ReplaceCharsFrom(s, [c], rep);
    forall k | 0 <= k < |t| ensures !IsUpper(t[k]) && t[k] !in bad + [c] {
      assert t[k] != c;
      if t[k] in s {
        var j :| 0 <= j < |s| && s[j] == t[k];
      } else {
        var j :| 0 <= j < |rep| && rep[j] == t[k];
      }
    }
  }

  /** The lists of removed characters, one stage after the other. */
  lemma FoldedBadLists()
    ensures "" + ['ä'] == "ä" && "ä" + ['ö'] == "äö" && "äö" + ['ü'] == "äöü" && "äöü" + ['ß'] == "äöüß"
    ensures "äöüß" + ['*'] == "äöüß*" && "äöüß*" + ['-'] == "äöüß*-" && "äöüß*-" + ['ç'] == "äöüß*-ç"
  {
  }

  /** The replacement texts of stage 1 are clean of what has been removed by then. */
  lemma FoldedReplacements()
    ensures Clean("ae", "ä") && Clean("oe", "äö") && Clean("ue", "äöü") && Clean("ss", "äöüß")
    ensures Clean("", "äöüß*") && Clean(" ", "äöüß*-") && Clean("c", "äöüß*-ç")
  {
  }

  /** After stage 1 the string is folded: the transliterated and removed characters are gone. */
  lemma {:induction false} PreparedIsFolded(name: string)
    ensures Folded(Prepare(name))
  {
    var s1 := Lower(name);
    var s2 := Replace(s1, "ä", "ae");
    var s3 := Replace(s2, "ö", "oe");
    var s4 := Replace(s3, "ü", "ue");
    var s5 := Replace(s4, "ß", "ss");
    var s6 := Replace(s5, "*", "");
    var s7 := Replace(s6, " ab ", "");
    var s8 := Replace(s7, "-", " ");
    var s9 := Replace(s8, "ç", "c");
    assert s9 == Prepare(name);
    FoldedBadLists();
    FoldedReplacements();
    ReplaceCleans(s1, 'ä', "ae", "");
    ReplaceCleans(s2, 'ö', "oe", "ä");
    ReplaceCleans(s3, 'ü', "ue", "äö");
    ReplaceCleans(s4, 'ß', "ss", "äöü");
    ReplaceCleans(s5, '*', "", "äöüß");
    ReplaceCharsFrom(s6, " ab ", "");
    CleanFrom(s7, s6, "", "äöüß*");
    ReplaceCleans(s7, '-', " ", "äöüß*");
    ReplaceCleans(s8, 'ç', "c", "äöüß*-");
  }

  // ---------------------------------------------------------------------
  // Stage 2: re.sub('\(.*?\)', '', s)

  /** Length of the leading run of characters that are neither ')' nor a line break. */
  function OpenRun(s: string): (k: nat)
    ensures k <= |s|
    ensures forall j :: 0 <= j < k ==> s[j] != ')' && s[j] != '\n'
    ensures k < |s| ==> s[k] == ')' || s[k] == '\n'
    decreases |s|
  {
    if s == [] || s[0] == ')' || s[0] == '\n' then 0 else 1 + OpenRun(s[1..])
  }

  /** `.*?\)` matches at the front of `s`: a ')' comes before any line break. */
  predicate Closes(s: string) {
    OpenRun(s) < |s| && s[OpenRun(s)] == ')'
  }

  /** Every non-greedy parenthesised annotation, scanning left to right, is removed. */
  function DropAnnotations(s: string): string
    decreases |s|
  {
    if s == [] then []
    else if s[0] == '(' && Closes(s[1..]) then DropAnnotations(s[OpenRun(s[1..]) + 2..])
    else [s[0]] + DropAnnotations(s[1..])
  }

  /** The result keeps a subset of the characters. */
  lemma {:induction false} DropAnnotationsChars(s: string)
    ensures CharsFrom(DropAnnotations(s), s, [])
    decreases |s|
  {
    if s != [] {
      if s[0] == '(' && Closes(s[1..]) {
        var rest := s[OpenRun(s[1..]) + 2..];
        DropAnnotationsChars(rest);
        forall k | 0 <= k < |DropAnnotations(rest)| ensures DropAnnotations(rest)[k] in s {
          var j :| 0 <= j < |rest| && rest[j] == DropAnnotations(rest)[k];
          assert s[OpenRun(s[1..]) + 2 + j] == rest[j];
        }
      } else {
        DropAnnotationsChars(s[1..]);
        var t := DropAnnotations(s[1..]);
        forall k | 0 <= k < |t| ensures t[k] in s {
          var j :| 0 <= j < |s[1..]| && s[1..][j] == t[k];
          assert s[1 + j] == t[k];
        }
      }
    }
  }

  /** A string without '(' has no annotation to remove. */
  lemma {:induction false} DropAnnotationsNone(s: string)
    requires '(' !in s
    ensures DropAnnotations(s) == s
    decreases |s|
  {
    if s != [] {
      DropAnnotationsNone(s[1..]);
    }
  }

  /**
   * An annotation `(t)` on one line is removed wherever it stands, as long
   * as no '(' before it could open an earlier match.
   */
  lemma {:induction false} AnnotationRemoved(a: string, t: string, b: string)
    requires '(' !in a && ')' !in t && '\n' !in t
    ensures DropAnnotations(a + "(" + t + ")" + b) == a + DropAnnotations(b)
    decreases |a|
  {
    var s := a + "(" + t + ")" + b;
    if a == [] {
      assert s == ['('] + (t + [')'] + b);
      assert s[1..] == t + [')'] + b;
      OpenRunOf(t, [')'] + b);
      assert s[1..] == t + ([')'] + b);
      assert s[OpenRun(s[1..]) + 2..] == b;
    } else {
      assert s[0] == a[0] && a[0] != '(';
      assert s[1..] == a[1..] + "(" + t + ")" + b;
      AnnotationRemoved(a[1..], t, b);
      assert a == [a[0]] + a[1..];
    }
  }

  lemma {:induction false} OpenRunOf(t: string, u: string)
    requires ')' !in t && '\n' !in t
    requires u != [] && u[0] == ')'
    ensures OpenRun(t + u) == |t|
    decreases |t|
  {
    if t == [] {
      assert t + u == u;
    } else {
      assert (t + u)[1..] == t[1..] + u;
      OpenRunOf(t[1..], u);
    }
  }

  // ---------------------------------------------------------------------
  // Stage 3: re.match('.\D+', s).group(0).strip()

  /** Length of the leading run of non-digits. */
  function NonDigitRun(s: string): (k: nat)
    ensures k <= |s|
    ensures forall j :: 0 <= j < k ==> !IsDigit(s[j])
    ensures k < |s| ==> IsDigit(s[k])
    decreases |s|
  {
    if s == [] || IsDigit(s[0]) then 0 else 1 + NonDigitRun(s[1..])
  }

  /** `k` is where `.\D+` stops: one character, then non-digits up to a digit or the end. */
  predicate NameEnd(s: string, k: int) {
    2 <= k <= |s|
    && (forall j :: 1 <= j < k ==> !IsDigit(s[j]))
    && (k == |s| || IsDigit(s[k]))
  }

  /**
   * The matched prefix, stripped. There is no match, and Python raises
   * (`None.group`), when the string has fewer than two characters, starts
   * with a line break or has a digit in second place.
   */
  function LeadingName(s: string): (r: Option<string>)
    ensures r.None? <==> |s| < 2 || s[0] == '\n' || IsDigit(s[1])
    ensures r.Some? ==> IsTrimmed(r.value)
    ensures r.Some? ==> exists k :: NameEnd(s, k) && r.value == Strip(s[..k])
  {
    if |s| < 2 || s[0] == '\n' || IsDigit(s[1]) then None
    else
      var k := 1 + NonDigitRun(s[1..]);
      assert NameEnd(s, k);
      Some(Strip(s[..k]))
  }

  /** `strip` keeps a subset of the characters. */
  lemma StripChars(s: string)
    ensures CharsFrom(Strip(s), s, [])
  {
    var i :| SlicedFrom(s, i, Strip(s));
    SliceChars(s, i, Strip(s));
  }

  lemma SliceChars(s: string, i: nat, r: string)
    requires i + |r| <= |s| && r == s[i..i + |r|]
    ensures CharsFrom(r, s, [])
  {
    forall j | 0 <= j < |r| ensures r[j] in s {
      assert r[j] == s[i + j];
    }
  }

  /** The stripped prefix keeps a subset of the characters. */
  lemma LeadingNameChars(s: string)
    requires LeadingName(s).Some?
    ensures CharsFrom(LeadingName(s).value, s, [])
  {
    var k := 1 + NonDigitRun(s[1..]);
    assert LeadingName(s).value == Strip(s[..k]);
    StripChars(s[..k]);
    CharsFromPrefix(Strip(s[..k]), s, k);
  }

  lemma CharsFromPrefix(t: string, s: string, k: nat)
    requires k <= |s| && CharsFrom(t, s[..k], [])
    ensures CharsFrom(t, s, [])
  {
    forall j | 0 <= j < |t| ensures t[j] in s {
      var m :| 0 <= m < k && s[..k][m] == t[j];
      assert s[m] == t[j];
    }
  }

  /**
   * House numbers are cut off: a digit-free name followed by anything that
   * starts with a digit gives the same key text as the name alone.
   */
  lemma TrailingNumberDropped(s: string, t: string)
    requires |s| >= 2 && s[0] != '\n'
    requires forall j :: 1 <= j < |s| ==> !IsDigit(s[j])
    requires t != [] && IsDigit(t[0])
    ensures LeadingName(s + t) == LeadingName(s) == Some(Strip(s))
  {
    assert (s + t)[0] == s[0] && (s + t)[1] == s[1];
    assert (s + t)[1..] == s[1..] + t;
    NonDigitRunOf(s[1..], t);
    NonDigitRunOf(s[1..], []);
    assert s[1..] + [] == s[1..];
    assert (s + t)[..|s|] == s && s[..|s|] == s;
  }

  lemma {:induction false} NonDigitRunOf(u: string, t: string)
    requires forall j :: 0 <= j < |u| ==> !IsDigit(u[j])
    requires t == [] || IsDigit(t[0])
    ensures NonDigitRun(u + t) == |u|
    decreases |u|
  {
    if u == [] {
      assert u + t == t;
    } else {
      assert (u + t)[1..] == u[1..] + t;
      NonDigitRunOf(u[1..], t);
    }
  }

  // ---------------------------------------------------------------------
  // Stages 4 and 5: the suffix and "Sankt" rules

  /**
   * The alternations of street.py:48-55. `hyphenAlternatives` switches the
   * alternatives that begin with '-' on (as in the program) or off (as a
   * reference: on strings without '-' both give the same result).
   */
  datatype Rule =
    | StrasseRule(hyphenAlternatives: bool)
    | SuffixRule(suffix: string, hyphenAlternatives: bool)
    | SanktRule

  function Replacement(r: Rule): string {
    match r
    case StrasseRule(_) => " strasse"
    case SuffixRule(x, _) => " " + x
    case SanktRule => "sankt "
  }

  /** `w` occurs in `s` at position `i`. */
  predicate LiteralAt(s: string, i: nat, w: string) {
    i + |w| <= |s| && s[i..i + |w|] == w
  }

  /** `w` cannot occur where a character other than its first stands. */
  lemma NotLiteralAt(s: string, i: nat, w: string)
    requires i < |s| && w != [] && s[i] != w[0]
    ensures !LiteralAt(s, i, w)
  {
    assert i + |w| <= |s| ==> s[i..i + |w|][0] == s[i];
  }

  /** `(?<=\w)` at position `i`. */
  predicate WordBefore(s: string, i: nat) {
    0 < i <= |s| && IsWordChar(s[i - 1])
  }

  /** `(?!\w)` at position `j`. */
  predicate NoWordAt(s: string, j: nat) {
    j >= |s| || !IsWordChar(s[j])
  }

  /** The characters at which a match of `r` can begin. */
  function Lead(r: Rule): string {
    match r
    case StrasseRule(_) => "s -"
    case SuffixRule(x, _) => if x == [] then "-" else [x[0], '-']
    case SanktRule => "s"
  }

  /**
   * Length of the match of `r` at position `i` (the first alternative that
   * matches), 0 if none. Every alternative begins with a character of
   * `Lead(r)`, so no other character is tried against them.
   */
  function MatchLength(r: Rule, s: string, i: nat): (n: nat)
    requires i <= |s|
    ensures i + n <= |s|
  {
    if i == |s| || s[i] !in Lead(r) then 0
    else match r
      case StrasseRule(h) => StrasseMatch(h, s, i)
      case SuffixRule(x, h) => SuffixMatch(x, h, s, i)
      case SanktRule => SanktMatch(s, i)
  }

  /** `(?<=\w)strasse|-str(?!\w)| str(?!\w)|-strasse|str(?!\w)` at position `i`. */
  function StrasseMatch(h: bool, s: string, i: nat): (n: nat)
    requires i < |s|
    ensures i + n <= |s|
  {
    if WordBefore(s, i) && LiteralAt(s, i, "strasse") then 7
    else if h && LiteralAt(s, i, "-str") && NoWordAt(s, i + 4) then 4
    else if LiteralAt(s, i, " str") && NoWordAt(s, i + 4) then 4
    else if h && LiteralAt(s, i, "-strasse") then 8
    else if LiteralAt(s, i, "str") && NoWordAt(s, i + 3) then 3
    else 0
  }

  /** `(?<=\w)x|-x` at position `i`. */
  function SuffixMatch(x: string, h: bool, s: string, i: nat): (n: nat)
    requires i < |s|
    ensures i + n <= |s|
  {
    if x != [] && WordBefore(s, i) && LiteralAt(s, i, x) then |x|
    else if h && LiteralAt(s, i, "-" + x) then |x| + 1
    else 0
  }

  /** `(?<!\w)st\.\s|(?<!\w)sankt\s` at position `i`. */
  function SanktMatch(s: string, i: nat): (n: nat)
    requires i < |s|
    ensures i + n <= |s|
  {
    if !WordBefore(s, i) && LiteralAt(s, i, "st.") && i + 3 < |s| && IsSpace(s[i + 3]) then 4
    else if !WordBefore(s, i) && LiteralAt(s, i, "sankt") && i + 5 < |s| && IsSpace(s[i + 5]) then 6
    else 0
  }

  /** `re.sub(r, Replacement(r), s)` from position `i` on. */
  function SubFrom(r: Rule, s: string, i: nat): string
    requires i <= |s|
    decreases |s| - i
  {
    if i == |s| then []
    else
      var n := MatchLength(r, s, i);
      if n > 0 then Replacement(r) + SubFrom(r, s, i + n)
      else [s[i]] + SubFrom(r, s, i + 1)
  }

  function Sub(r: Rule, s: string): string {
    SubFrom(r, s, 0)
  }

  /** A stretch without lead characters is copied unchanged. */
  lemma {:induction false} SubFromSkip(r: Rule, s: string, i: nat, j: nat)
    requires i <= j <= |s|
    requires forall k :: i <= k < j ==> s[k] !in Lead(r)
    ensures SubFrom(r, s, i) == s[i..j] + SubFrom(r, s, j)
    decreases j - i
  {
    if i < j {
      SubFromSkip(r, s, i + 1, j);
      SliceCons(s, i, j, SubFrom(r, s, j));
    } else {
      SliceEmpty(s, i, SubFrom(r, s, j));
    }
  }

  /** A string without lead characters is left as it is. */
  lemma SubNoLead(r: Rule, s: string)
    requires forall k :: 0 <= k < |s| ==> s[k] !in Lead(r)
    ensures Sub(r, s) == s
  {
    SubFromSkip(r, s, 0, |s|);
    assert s[0..|s|] == s;
  }

  /** Every character of the result comes from the scanned input or from the replacement. */
  lemma {:induction false} SubFromChars(r: Rule, s: string, i: nat)
    requires i <= |s|
    ensures CharsFrom(SubFrom(r, s, i), s, Replacement(r))
    decreases |s| - i
  {
    if i < |s| {
      var n := MatchLength(r, s, i);
      if n > 0 {
        SubFromChars(r, s, i + n);
        CharsFromConcat(Replacement(r), SubFrom(r, s, i + n), s, Replacement(r));
      } else {
        SubFromChars(r, s, i + 1);
        CharsFromConcat([s[i]], SubFrom(r, s, i + 1), s, Replacement(r));
      }
    }
  }

  function WithoutHyphen(r: Rule): Rule {
    match r
    case StrasseRule(_) => StrasseRule(false)
    case SuffixRule(x, _) => SuffixRule(x, false)
    case SanktRule => SanktRule
  }

  /** On a string without '-', the alternatives that begin with '-' can never fire. */
  lemma HyphenAlternativesIdle(r: Rule, s: string)
    requires '-' !in s
    ensures Sub(r, s) == Sub(WithoutHyphen(r), s)
  {
    match r
    case StrasseRule(h) =>
      if h {
        StrasseHyphenIdle(s, 0);
      }
    case SuffixRule(x, h) =>
      if h {
        SuffixHyphenIdle(x, s, 0);
      }
    case SanktRule =>
  }

  lemma {:induction false} StrasseHyphenIdle(s: string, i: nat)
    requires i <= |s| && '-' !in s
    ensures SubFrom(StrasseRule(true), s, i) == SubFrom(StrasseRule(false), s, i)
    decreases |s| - i
  {
    if i < |s| {
      assert s[i] != '-';
      MatchWithoutHyphen(StrasseRule(true), s, i);
      var n := MatchLength(StrasseRule(true), s, i);
      StrasseHyphenIdle(s, i + if n > 0 then n else 1);
    }
  }

  lemma {:induction false} SuffixHyphenIdle(x: string, s: string, i: nat)
    requires i <= |s| && '-' !in s
    ensures SubFrom(SuffixRule(x, true), s, i) == SubFrom(SuffixRule(x, false), s, i)
    decreases |s| - i
  {
    if i < |s| {
      assert s[i] != '-';
      MatchWithoutHyphen(SuffixRule(x, true), s, i);
      var n := MatchLength(SuffixRule(x, true), s, i);
      SuffixHyphenIdle(x, s, i + if n > 0 then n else 1);
      SubFromUnfold(SuffixRule(x, true), s, i, n);
      SubFromUnfold(SuffixRule(x, false), s, i, n);
    }
  }

  /** One step of the scan: a match is replaced, any other character is copied. */
  lemma SubFromUnfold(r: Rule, s: string, i: nat, n: nat)
    requires i < |s| && n == MatchLength(r, s, i)
    ensures n > 0 ==> SubFrom(r, s, i) == Replacement(r) + SubFrom(r, s, i + n)
    ensures n == 0 ==> SubFrom(r, s, i) == [s[i]] + SubFrom(r, s, i + 1)
  {
  }

  lemma MatchWithoutHyphen(r: Rule, s: string, i: nat)
    requires i < |s| && s[i] != '-'
    ensures MatchLength(r, s, i) == MatchLength(WithoutHyphen(r), s, i)
    ensures Replacement(r) == Replacement(WithoutHyphen(r))
  {
    match r
    case StrasseRule(_) =>
      NotLiteralAt(s, i, "-str");
      NotLiteralAt(s, i, "-strasse");
    case SuffixRule(x, _) =>
      NotLiteralAt(s, i, "-" + x);
    case SanktRule =>
  }

  /** The rules of street.py:48-54, in program order. */
  function SuffixRules(hyphenAlternatives: bool): seq<Rule> {
    [StrasseRule(hyphenAlternatives),
     SuffixRule("weg", hyphenAlternatives),
     SuffixRule("gasse", hyphenAlternatives),
     SuffixRule("gaessle", hyphenAlternatives),
     SuffixRule("platz", hyphenAlternatives),
     SuffixRule("steige", hyphenAlternatives),
     SuffixRule("ring", hyphenAlternatives)]
  }

  /** Applies `rules` one after the other. */
  function SubAll(rules: seq<Rule>, s: string): string
    decreases |rules|
  {
    if rules == [] then s else SubAll(rules[1..], Sub(rules[0], s))
  }

  function SplitSuffixes(s: string, hyphenAlternatives: bool): string {
    SubAll(SuffixRules(hyphenAlternatives), s)
  }

  /** Replacements never introduce '-', so the rules that follow see no '-' either. */
  lemma {:induction false} SubAllHyphenIdle(rules: seq<Rule>, s: string)
    requires '-' !in s
    requires forall j :: 0 <= j < |rules| ==> '-' !in Replacement(rules[j])
    ensures SubAll(rules, s) == SubAll(seq(|rules|, j requires 0 <= j < |rules| => WithoutHyphen(rules[j])), s)
    decreases |rules|
  {
    var plain := seq(|rules|, j requires 0 <= j < |rules| => WithoutHyphen(rules[j]));
    if rules != [] {
      HyphenAlternativesIdle(rules[0], s);
      var s' := Sub(rules[0], s);
      SubFromChars(rules[0], s, 0);
      forall k | 0 <= k < |s'| ensures s'[k] != '-' {
        assert s'[k] in s || s'[k] in Replacement(rules[0]);
      }
      SubAllHyphenIdle(rules[1..], s');
      assert plain[1..] == seq(|rules[1..]|, j requires 0 <= j < |rules[1..]| => WithoutHyphen(rules[1..][j]));
    }
  }

  /** Every character of `SubAll(rules, s)` comes from `s` or from one of the replacements. */
  lemma {:induction false} SubAllFolded(rules: seq<Rule>, s: string)
    requires Folded(s)
    requires forall j :: 0 <= j < |rules| ==> Folded(Replacement(rules[j]))
    ensures Folded(SubAll(rules, s))
    decreases |rules|
  {
    if rules != [] {
      SubFromChars(rules[0], s, 0);
      CleanFrom(Sub(rules[0], s), s, Replacement(rules[0]), "äöüß*-ç");
      SubAllFolded(rules[1..], Sub(rules[0], s));
    }
  }

  // ---------------------------------------------------------------------
  // The whole normaliser

  /** Stages 1 to 3: the text that the suffix rules then work on. */
  function KeyText(name: string): Option<string> {
    LeadingName(DropAnnotations(Prepare(name)))
  }

  function NormalizeWith(name: string, hyphenAlternatives: bool): Option<string> {
    match KeyText(name)
    case None => None
    case Some(t) => Some(Sub(SanktRule, SplitSuffixes(t, hyphenAlternatives)))
  }

  /** `Street.normalizeName`; `None` where Python raises AttributeError. */
  function Normalize(name: string): Option<string> {
    NormalizeWith(name, true)
  }

  /**
   * Normalisation fails exactly when the prepared string, annotations
   * removed, does not match `.\D+` at its start.
   */
  lemma NormalizeFailsIff(name: string)
    ensures var p := DropAnnotations(Prepare(name));
            Normalize(name).None? <==> |p| < 2 || p[0] == '\n' || IsDigit(p[1])
  {
  }

  /** The text that stage 3 extracts is folded. */
  lemma KeyTextIsFolded(name: string)
    ensures KeyText(name).Some? ==> Folded(KeyText(name).value)
  {
    var p := Prepare(name);
    PreparedIsFolded(name);
    var d := DropAnnotations(p);
    DropAnnotationsChars(p);
    CleanFrom(d, p, [], "äöüß*-ç");
    if LeadingName(d).Some? {
      LeadingNameChars(d);
      CleanFrom(LeadingName(d).value, d, [], "äöüß*-ç");
    }
  }

  lemma SuffixReplacementsFolded(h: bool)
    ensures forall j :: 0 <= j < |SuffixRules(h)| ==> Folded(Replacement(SuffixRules(h)[j]))
    ensures forall j :: 0 <= j < |SuffixRules(h)| ==> '-' !in Replacement(SuffixRules(h)[j])
  {
    forall j | 0 <= j < |SuffixRules(h)|
      ensures Folded(Replacement(SuffixRules(h)[j])) && '-' !in Replacement(SuffixRules(h)[j])
    {
      ReplacementLower(h, j);
      LowerTextFolded(Replacement(SuffixRules(h)[j]));
    }
  }

  /** Lower-case ASCII letters and spaces. */
  predicate LowerText(s: string) {
    forall k :: 0 <= k < |s| ==> 'a' <= s[k] <= 'z' || s[k] == ' '
  }

  lemma LowerTextFolded(s: string)
    requires LowerText(s)
    ensures Folded(s) && '-' !in s
  {
  }

  lemma ReplacementLower(h: bool, j: int)
    requires 0 <= j < |SuffixRules(h)|
    ensures LowerText(Replacement(SuffixRules(h)[j]))
  {
    var r := SuffixRules(h)[j];
    if j == 0 {
      assert r == StrasseRule(h);
    } else {
      assert r.SuffixRule? && Replacement(r) == " " + r.suffix;
      assert LowerText(r.suffix);
    }
  }

  lemma SplitSuffixesFolded(t: string)
    requires Folded(t)
    ensures Folded(SplitSuffixes(t, true))
  {
    SuffixReplacementsFolded(true);
    SubAllFolded(SuffixRules(true), t);
  }

  lemma SanktFolded(u: string)
    requires Folded(u)
    ensures Folded(Sub(SanktRule, u))
  {
    SubFromChars(SanktRule, u, 0);
    CleanFrom(Sub(SanktRule, u), u, Replacement(SanktRule), "äöüß*-ç");
  }

  /** The key is folded: lower-case, without umlauts, ß, ç, `*` or `-`. */
  lemma NormalizedIsFolded(name: string)
    requires Normalize(name).Some?
    ensures Folded(Normalize(name).value)
  {
    KeyTextIsFolded(name);
    var t := KeyText(name).value;
    SplitSuffixesFolded(t);
    SanktFolded(SplitSuffixes(t, true));
  }

  lemma SplitSuffixesHyphenIdle(t: string)
    requires Folded(t)
    ensures SplitSuffixes(t, true) == SplitSuffixes(t, false)
  {
    assert forall k :: 0 <= k < |t| ==> t[k] != '-';
    SuffixReplacementsFolded(true);
    SubAllHyphenIdle(SuffixRules(true), t);
    SuffixRulesWithoutHyphen();
  }

  lemma SuffixRulesWithoutHyphen()
    ensures seq(7, j requires 0 <= j < 7 => WithoutHyphen(SuffixRules(true)[j])) == SuffixRules(false)
  {
    var plain := seq(7, j requires 0 <= j < 7 => WithoutHyphen(SuffixRules(true)[j]));
    forall j | 0 <= j < 7
      ensures plain[j] == SuffixRules(false)[j]
    {
    }
  }

  /**
   * Because '-' has already become a space, the `-str`, `-strasse` and
   * `-<suffix>` alternatives never fire: the normaliser gives the same
   * result with them switched off.
   */
  lemma HyphenAlternativesNeverFire(name: string)
    ensures Normalize(name) == NormalizeWith(name, false)
  {
    KeyTextIsFolded(name);
    if KeyText(name).Some? {
      SplitSuffixesHyphenIdle(KeyText(name).value);
    }
  }
}
