/**
 * Character classes and the string operations of Python that the crawler
 * scripts use: `str.lower`, `str.replace`, `str.strip`, `str.split` with a
 * one-character separator, `str.join`, `re.sub('\s+', ' ', …)`, and decimal
 * rendering and parsing of naturals (`'%02d' % n`, `int(s)`).
 *
 * Strings are sequences of Unicode scalar values. The character classes are
 * fixed predicates: `\s` and `str.isspace` use the full list of Python's
 * whitespace characters, while `\d` is the ASCII digits and `\w` the ASCII
 * and Latin-1 alphanumerics and `_`.
 */
module Text {

  /** `\d`. */
  predicate IsDigit(c: char) { '0' <= c <= '9' }

  /** `\s` of `re` and `str.isspace()`. */
  predicate IsSpace(c: char) {
    ('\t' <= c <= '\r') || ('\U{1C}' <= c <= '\U{1F}') || c == ' ' || c == '\U{85}' || c == '\U{A0}'
    || c == '\U{1680}' || ('\U{2000}' <= c <= '\U{200A}') || c == '\U{2028}' || c == '\U{2029}'
    || c == '\U{202F}' || c == '\U{205F}' || c == '\U{3000}'
  }

  /**
   * `\w`: the characters for which `str.isalnum()` holds, and `_`. In
   * Latin-1 that includes the superscripts ¹ ² ³ and the fractions ¼ ½ ¾.
   */
  predicate IsWordChar(c: char) {
    ('a' <= c <= 'z') || ('A' <= c <= 'Z') || IsDigit(c) || c == '_'
    || c == '\U{AA}' || c == '\U{B5}' || c == '\U{BA}'
    || c == '\U{B2}' || c == '\U{B3}' || c == '\U{B9}' || ('\U{BC}' <= c <= '\U{BE}')
    || ('\U{C0}' <= c <= '\U{FF}' && c != '\U{D7}' && c != '\U{F7}')
  }

  /** The upper-case letters that `str.lower` maps: ASCII and Latin-1. */
  predicate IsUpper(c: char) { ('A' <= c <= 'Z') || ('\U{C0}' <= c <= '\U{DE}' && c != '\U{D7}') }

  function LowerChar(c: char): (r: char)
    ensures !IsUpper(r)
    ensures IsWordChar(r) <==> IsWordChar(c)
    ensures IsSpace(r) <==> IsSpace(c)
    ensures IsDigit(r) <==> IsDigit(c)
  {
    if IsUpper(c) then (c as int + 32) as char else c
  }

  /** `str.lower()`. */
  function Lower(s: string): (r: string)
    ensures |r| == |s|
    ensures forall i :: 0 <= i < |r| ==> !IsUpper(r[i])
  {
    seq(|s|, i requires 0 <= i < |s| => LowerChar(s[i]))
  }

  // ---------------------------------------------------------------------
  // str.replace

  /**
   * `s.replace(pat, rep)`: occurrences of `pat` are found from left to
   * right and do not overlap.
   */
  function Replace(s: string, pat: string, rep: string): string
    requires pat != []
    decreases |s|
  {
    if s == [] then []
    else if pat <= s then rep + Replace(s[|pat|..], pat, rep)
    else [s[0]] + Replace(s[1..], pat, rep)
  }

  /** A string in which the first character of `pat` never occurs is left as it is. */
  lemma {:induction false} ReplaceAbsent(s: string, pat: string, rep: string)
    requires pat != [] && pat[0] !in s
    ensures Replace(s, pat, rep) == s
  {
    if s != [] {
      assert !(pat <= s);
      ReplaceAbsent(s[1..], pat, rep);
    }
  }

  /** Text before the first possible start of `pat` is copied unchanged. */
  lemma {:induction false} ReplaceSkip(a: string, b: string, pat: string, rep: string)
    requires pat != [] && pat[0] !in a
    ensures Replace(a + b, pat, rep) == a + Replace(b, pat, rep)
  {
    if a != [] {
      assert (a + b)[0] == a[0] && !(pat <= a + b);
      assert (a + b)[1..] == a[1..] + b;
      ReplaceSkip(a[1..], b, pat, rep);
      assert a == [a[0]] + a[1..];
    } else {
      assert a + b == b;
    }
  }

  /** A character that does not start an occurrence is copied. */
  lemma ReplaceNotHere(s: string, pat: string, rep: string)
    requires pat != [] && s != [] && !(pat <= s)
    ensures Replace(s, pat, rep) == [s[0]] + Replace(s[1..], pat, rep)
  {
  }

  /** An occurrence at the front is rewritten and scanning resumes after it. */
  lemma ReplaceHere(b: string, pat: string, rep: string)
    requires pat != []
    ensures Replace(pat + b, pat, rep) == rep + Replace(b, pat, rep)
  {
    assert (pat + b)[|pat|..] == b;
  }

  /** Every character of the result comes from the input or from the replacement. */
  lemma {:induction false} ReplaceChars(s: string, pat: string, rep: string, x: char)
    requires pat != []
    requires x in Replace(s, pat, rep)
    ensures x in s || x in rep
    decreases |s|
  {
    if s == [] {
    } else if pat <= s {
      if x !in rep {
        ReplaceChars(s[|pat|..], pat, rep, x);
        assert x in s[|pat|..];
      }
    } else if x != s[0] {
      ReplaceChars(s[1..], pat, rep, x);
    }
  }

  /** Replacing a single character removes it everywhere, unless the replacement reintroduces it. */
  lemma {:induction false} ReplaceCharGone(s: string, c: char, rep: string)
    requires c !in rep
    ensures c !in Replace(s, [c], rep)
    decreases |s|
  {
    if s != [] {
      ReplaceCharGone(s[1..], c, rep);
      if [c] <= s {
        assert s[1..] == s[|[c]|..];
      } else {
        assert s[0] != c;
      }
    }
  }

  /** Replacing a single character works piecewise. */
  lemma {:induction false} ReplaceCharConcat(a: string, b: string, c: char, rep: string)
    ensures Replace(a + b, [c], rep) == Replace(a, [c], rep) + Replace(b, [c], rep)
    decreases |a|
  {
    if a != [] {
      assert (a + b)[0] == a[0];
      assert (a + b)[1..] == a[1..] + b;
      ReplaceCharConcat(a[1..], b, c, rep);
      if a[0] == c {
        assert [c] <= a + b && [c] <= a;
        assert (a + b)[|[c]|..] == a[1..] + b && a[|[c]|..] == a[1..];
      } else {
        assert !([c] <= a + b) && !([c] <= a);
      }
    } else {
      assert a + b == b;
    }
  }

  // ---------------------------------------------------------------------
  // str.strip

  function TrimStart(s: string): (r: string)
    ensures |r| <= |s| && r == s[|s| - |r|..]
    ensures forall k :: 0 <= k < |s| - |r| ==> IsSpace(s[k])
    ensures r == [] || !IsSpace(r[0])
    decreases |s|
  {
    if s != [] && IsSpace(s[0]) then TrimStart(s[1..]) else s
  }

  function TrimEnd(s: string): (r: string)
    ensures |r| <= |s| && r == s[..|r|]
    ensures forall k :: |r| <= k < |s| ==> IsSpace(s[k])
    ensures r == [] || !IsSpace(r[|r| - 1])
    decreases |s|
  {
    if s != [] && IsSpace(s[|s| - 1]) then TrimEnd(s[..|s| - 1]) else s
  }

  /** Neither end of the string is whitespace. */
  predicate IsTrimmed(s: string) {
    s == [] || (!IsSpace(s[0]) && !IsSpace(s[|s| - 1]))
  }

  /**
   * `str.strip()`: the result is the slice of `s` between a whitespace
   * prefix and a whitespace suffix, and neither of its ends is whitespace.
   */
  function Strip(s: string): (r: string)
    ensures IsTrimmed(r)
    ensures exists i :: SlicedFrom(s, i, r)
  {
    var t := TrimStart(s);
    var r := TrimEnd(t);
    TrimmedSlice(s, t, r);
    r
  }

  /** What `TrimEnd(TrimStart(s))` leaves is a trimmed slice of `s`. */
  lemma TrimmedSlice(s: string, t: string, r: string)
    requires |t| <= |s| && t == s[|s| - |t|..] && forall k :: 0 <= k < |s| - |t| ==> IsSpace(s[k])
    requires t == [] || !IsSpace(t[0])
    requires |r| <= |t| && r == t[..|r|] && forall k :: |r| <= k < |t| ==> IsSpace(t[k])
    requires r == [] || !IsSpace(r[|r| - 1])
    ensures IsTrimmed(r) && SlicedFrom(s, |s| - |t|, r)
  {
    assert r == s[|s| - |t|..|s| - |t| + |r|];
    assert r != [] ==> r[0] == t[0];
    forall k | |s| - |t| + |r| <= k < |s| ensures IsSpace(s[k]) {
      assert s[k] == t[k - (|s| - |t|)];
    }
  }

  /** `r` is the slice of `s` at `i`, and everything around it is whitespace. */
  predicate SlicedFrom(s: string, i: int, r: string) {
    0 <= i <= |s| - |r| && r == s[i..i + |r|]
    && (forall k :: 0 <= k < i ==> IsSpace(s[k]))
    && (forall k :: i + |r| <= k < |s| ==> IsSpace(s[k]))
  }

  /** Stripping a string whose ends are not whitespace changes nothing. */
  lemma StripTrimmed(s: string)
    requires IsTrimmed(s)
    ensures Strip(s) == s
  {
  }

  /** Trailing whitespace does not change what `strip` returns. */
  lemma StripTrailingSpace(s: string, w: string)
    requires forall k :: 0 <= k < |w| ==> IsSpace(w[k])
    ensures Strip(s + w) == Strip(s)
  {
    TrimTrailingSpace(s, w);
  }

  lemma {:induction false} TrimTrailingSpace(s: string, w: string)
    requires forall k :: 0 <= k < |w| ==> IsSpace(w[k])
    ensures TrimEnd(TrimStart(s + w)) == TrimEnd(TrimStart(s))
    decreases |w|
  {
    if w == [] {
      assert s + w == s;
    } else {
      var s' := s + w[..|w| - 1];
      assert s' + [w[|w| - 1]] == s + w;
      TrimStartTrailing(s', [w[|w| - 1]]);
      TrimTrailingSpace(s, w[..|w| - 1]);
    }
  }

  /** TrimStart then TrimEnd ignores one extra trailing whitespace character. */
  lemma {:induction false} TrimStartTrailing(s: string, w: string)
    requires |w| == 1 && IsSpace(w[0])
    ensures TrimEnd(TrimStart(s + w)) == TrimEnd(TrimStart(s))
    decreases |s|
  {
    if s == [] {
      assert TrimStart(w) == [];
    } else if IsSpace(s[0]) {
      calc {
        TrimEnd(TrimStart(s + w));
        { assert (s + w)[0] == s[0] && (s + w)[1..] == s[1..] + w; }
        TrimEnd(TrimStart(s[1..] + w));
      == { TrimStartTrailing(s[1..], w); }
        TrimEnd(TrimStart(s[1..]));
        TrimEnd(TrimStart(s));
      }
    } else {
      calc {
        TrimEnd(TrimStart(s + w));
        { assert (s + w)[0] == s[0]; }
        TrimEnd(s + w);
        { assert (s + w)[..|s + w| - 1] == s; }
        TrimEnd(s);
        TrimEnd(TrimStart(s));
      }
    }
  }

  // ---------------------------------------------------------------------
  // re.sub('\s+', ' ', s)

  /** Every maximal run of whitespace becomes one space. */
  function CollapseSpaces(s: string): (r: string)
    ensures r == [] <==> s == []
    ensures r != [] ==> r[0] == (if IsSpace(s[0]) then ' ' else s[0])
    decreases |s|
  {
    if s == [] then []
    else if IsSpace(s[0]) then [' '] + CollapseSpaces(TrimStart(s))
    else [s[0]] + CollapseSpaces(s[1..])
  }

  /** The characters of `s` that are not whitespace, in order. */
  function NonSpace(s: string): string
    decreases |s|
  {
    if s == [] then [] else (if IsSpace(s[0]) then [] else [s[0]]) + NonSpace(s[1..])
  }

  lemma {:induction false} NonSpaceConcat(a: string, b: string)
    ensures NonSpace(a + b) == NonSpace(a) + NonSpace(b)
    decreases |a|
  {
    if a != [] {
      assert (a + b)[0] == a[0];
      assert (a + b)[1..] == a[1..] + b;
      NonSpaceConcat(a[1..], b);
    } else {
      assert a + b == b;
    }
  }

  /** A string made only of whitespace has no non-whitespace characters. */
  lemma {:induction false} NonSpaceOfSpaces(s: string)
    requires forall k :: 0 <= k < |s| ==> IsSpace(s[k])
    ensures NonSpace(s) == []
    decreases |s|
  {
    if s != [] {
      NonSpaceOfSpaces(s[1..]);
    }
  }

  /** The only whitespace is the plain space, and no two whitespace characters are adjacent. */
  predicate SingleSpaced(s: string) {
    forall k :: 0 <= k < |s| && IsSpace(s[k]) ==> s[k] == ' ' && (k + 1 < |s| ==> !IsSpace(s[k + 1]))
  }

  /** Collapsing leaves single spaces only. */
  lemma {:induction false} CollapseSpacesSingle(s: string)
    ensures SingleSpaced(CollapseSpaces(s))
    decreases |s|
  {
    if s != [] {
      if IsSpace(s[0]) {
        var t := TrimStart(s);
        CollapseSpacesSingle(t);
      } else {
        CollapseSpacesSingle(s[1..]);
      }
    }
  }

  /** A single-spaced string is left as it is. */
  lemma {:induction false} CollapseSingleSpaced(s: string)
    requires SingleSpaced(s)
    ensures CollapseSpaces(s) == s
    decreases |s|
  {
    if s != [] {
      SliceSingleSpaced(s, 1, s[1..]);
      if IsSpace(s[0]) {
        calc {
          CollapseSpaces(s);
          [' '] + CollapseSpaces(TrimStart(s));
          { assert s[1..] == [] || !IsSpace(s[1]); }
          [' '] + CollapseSpaces(s[1..]);
        == { CollapseSingleSpaced(s[1..]); }
          [s[0]] + s[1..];
        }
      } else {
        calc {
          CollapseSpaces(s);
          [s[0]] + CollapseSpaces(s[1..]);
        == { CollapseSingleSpaced(s[1..]); }
          [s[0]] + s[1..];
        }
      }
      assert [s[0]] + s[1..] == s;
    }
  }

  /** Collapsing keeps every non-whitespace character, in order. */
  lemma {:induction false} CollapseKeepsNonSpace(s: string)
    ensures NonSpace(CollapseSpaces(s)) == NonSpace(s)
    decreases |s|
  {
    if s != [] {
      if IsSpace(s[0]) {
        var t := TrimStart(s);
        CollapseKeepsNonSpace(t);
        NonSpaceConcat([' '], CollapseSpaces(t));
        NonSpaceConcat(s[..|s| - |t|], t);
        assert s[..|s| - |t|] + t == s;
        NonSpaceOfSpaces(s[..|s| - |t|]);
      } else {
        CollapseKeepsNonSpace(s[1..]);
        NonSpaceConcat([s[0]], CollapseSpaces(s[1..]));
      }
    }
  }

  /** A slice is its first element and the rest. */
  lemma SliceCons<T>(s: seq<T>, i: int, j: int, t: seq<T>)
    requires 0 <= i < j <= |s|
    ensures [s[i]] + (s[i + 1..j] + t) == s[i..j] + t
  {
    assert s[i..j] == [s[i]] + s[i + 1..j];
  }

  lemma SliceEmpty<T>(s: seq<T>, i: int, t: seq<T>)
    requires 0 <= i <= |s|
    ensures s[i..i] + t == t
  {
    assert s[i..i] == [];
  }

  /** Concatenation is associative. */
  lemma ConcatAssoc<T>(x: seq<T>, y: seq<T>, z: seq<T>)
    ensures x + (y + z) == x + y + z
  {
  }

  /** A string is its part before `i`, its part from `i` to `j` and its part from `j`. */
  lemma SliceParts(s: string, i: int, j: int)
    requires 0 <= i <= j <= |s|
    ensures s == s[..i] + s[i..j] + s[j..]
  {
  }

  /** Stripping removes whitespace only. */
  lemma StripKeepsNonSpace(s: string)
    ensures NonSpace(Strip(s)) == NonSpace(s)
  {
    var r := Strip(s);
    var i :| SlicedFrom(s, i, r);
    var a, c := s[..i], s[i + |r|..];
    SliceParts(s, i, i + |r|);
    forall k | 0 <= k < |a|
      ensures IsSpace(a[k])
    {
      assert a[k] == s[k];
    }
    forall k | 0 <= k < |c|
      ensures IsSpace(c[k])
    {
      assert c[k] == s[i + |r| + k];
    }
    NonSpaceConcat(a + r, c);
    NonSpaceConcat(a, r);
    NonSpaceOfSpaces(a);
    NonSpaceOfSpaces(c);
  }

  /** A slice of a single-spaced string is single-spaced. */
  lemma StripSingleSpaced(s: string)
    requires SingleSpaced(s)
    ensures SingleSpaced(Strip(s))
  {
    var i :| SlicedFrom(s, i, Strip(s));
    SliceSingleSpaced(s, i, Strip(s));
  }

  /** Any slice of a single-spaced string is single-spaced. */
  lemma SliceSingleSpaced(s: string, i: nat, r: string)
    requires SingleSpaced(s) && i + |r| <= |s| && r == s[i..i + |r|]
    ensures SingleSpaced(r)
  {
    forall k | 0 <= k < |r| && IsSpace(r[k])
      ensures r[k] == ' ' && (k + 1 < |r| ==> !IsSpace(r[k + 1]))
    {
      assert r[k] == s[i + k];
      if k + 1 < |r| {
        assert r[k + 1] == s[i + k + 1];
      }
    }
  }

  // ---------------------------------------------------------------------
  // str.split(sep) and sep.join(parts)

  /** `s.split(sep)` for a one-character separator: empty fields are kept. */
  function Split(s: string, sep: char): (parts: seq<string>)
    ensures |parts| >= 1
    ensures forall i :: 0 <= i < |parts| ==> sep !in parts[i]
    decreases |s|
  {
    if s == [] then [[]]
    else
      var rest := Split(s[1..], sep);
      if s[0] == sep then [[]] + rest
      else [[s[0]] + rest[0]] + rest[1..]
  }

  /** `sep.join(parts)`. */
  function Join(parts: seq<string>, sep: string): string
    decreases |parts|
  {
    if parts == [] then []
    else if |parts| == 1 then parts[0]
    else parts[0] + sep + Join(parts[1..], sep)
  }

  /** Joining the fields of a split gives back the string. */
  lemma {:induction false} JoinSplit(s: string, sep: char)
    ensures Join(Split(s, sep), [sep]) == s
    decreases |s|
  {
    if s != [] {
      var rest := Split(s[1..], sep);
      JoinSplit(s[1..], sep);
      if s[0] != sep {
        if |rest| == 1 {
        } else {
          assert Join(rest, [sep]) == rest[0] + [sep] + Join(rest[1..], [sep]);
          assert ([[s[0]] + rest[0]] + rest[1..])[1..] == rest[1..];
        }
      }
    }
  }

  /** Splitting a join of separator-free fields gives back the fields. */
  lemma {:induction false} SplitJoin(parts: seq<string>, sep: char)
    requires |parts| >= 1
    requires forall i :: 0 <= i < |parts| ==> sep !in parts[i]
    ensures Split(Join(parts, [sep]), sep) == parts
    decreases |parts|
  {
    if |parts| == 1 {
      SplitNoSep(parts[0], sep);
    } else {
      SplitJoin(parts[1..], sep);
      SplitPrefix(parts[0], Join(parts[1..], [sep]), sep);
      assert parts[0] + [sep] + Join(parts[1..], [sep]) == parts[0] + ([sep] + Join(parts[1..], [sep]));
      assert [parts[0]] + parts[1..] == parts;
    }
  }

  lemma {:induction false} SplitNoSep(s: string, sep: char)
    requires sep !in s
    ensures Split(s, sep) == [s]
    decreases |s|
  {
    if s != [] {
      SplitNoSep(s[1..], sep);
      assert [s[0]] + s[1..] == s;
    }
  }

  lemma {:induction false} SplitPrefix(a: string, b: string, sep: char)
    requires sep !in a
    ensures Split(a + [sep] + b, sep) == [a] + Split(b, sep)
    decreases |a|
  {
    var s := a + [sep] + b;
    if a == [] {
      assert s[1..] == b;
    } else {
      assert s[1..] == a[1..] + [sep] + b;
      SplitPrefix(a[1..], b, sep);
      assert [a[0]] + a[1..] == a;
    }
  }

  /** A separator between two strings separates their fields. */
  lemma {:induction false} SplitAt(a: string, b: string, sep: char)
    ensures Split(a + [sep] + b, sep) == Split(a, sep) + Split(b, sep)
    decreases |a|
  {
    var s := a + [sep] + b;
    if a == [] {
      assert s[1..] == b;
    } else {
      assert s[1..] == a[1..] + [sep] + b;
      SplitAt(a[1..], b, sep);
    }
  }

  /** Joining one more part adds the separator, unless it is the first part. */
  lemma {:induction false} JoinSnoc(parts: seq<string>, last: string, sep: string)
    ensures Join(parts + [last], sep) == Join(parts, sep) + (if parts == [] then "" else sep) + last
    decreases |parts|
  {
    if |parts| == 1 {
      assert (parts + [last])[1..] == [last];
    } else if |parts| > 1 {
      assert (parts + [last])[1..] == parts[1..] + [last];
      JoinSnoc(parts[1..], last, sep);
    }
  }

  /** Every character of a join comes from a part or from the separator. */
  lemma {:induction false} JoinCount(parts: seq<string>, sep: string, c: char)
    requires c !in sep
    ensures multiset(Join(parts, sep))[c] == SumCount(parts, c)
    decreases |parts|
  {
    if |parts| > 1 {
      JoinCount(parts[1..], sep, c);
    }
  }

  /** How often `c` occurs in all the parts together. */
  function SumCount(parts: seq<string>, c: char): nat
    decreases |parts|
  {
    if parts == [] then 0 else multiset(parts[0])[c] + SumCount(parts[1..], c)
  }

  // ---------------------------------------------------------------------
  // Writing a file line by line

  /** A header line followed by one `write(line + '\n')` per line. */
  function WrittenLines(header: string, lines: seq<string>): (text: string)
    ensures |text| > 0 && text[|text| - 1] == '\n'
    decreases |lines|
  {
    if lines == [] then header + "\n"
    else WrittenLines(header, lines[..|lines| - 1]) + lines[|lines| - 1] + "\n"
  }

  /** The fields of each string in turn. */
  function SplitAll(texts: seq<string>, sep: char): (parts: seq<string>)
    ensures |parts| >= |texts|
    decreases |texts|
  {
    if texts == [] then []
    else SplitAll(texts[..|texts| - 1], sep) + Split(texts[|texts| - 1], sep)
  }

  /**
   * Read back line by line, a written file is its header, the lines of each
   * written text in turn (a text with line breaks of its own spans several,
   * an empty one is a blank line), and the empty rest after the last break.
   */
  lemma {:induction false} WrittenLinesSplit(header: string, lines: seq<string>)
    requires '\n' !in header
    ensures Split(WrittenLines(header, lines), '\n') == [header] + SplitAll(lines, '\n') + [[]]
    decreases |lines|
  {
    if lines == [] {
      SplitAt(header, [], '\n');
      SplitNoSep(header, '\n');
      assert header + "\n" == header + ['\n'] + [];
    } else {
      var init := lines[..|lines| - 1];
      var last := lines[|lines| - 1];
      WrittenLinesSplit(header, init);
      SplitAppendLine(WrittenLines(header, init), last, [header] + SplitAll(init, '\n'));
    }
  }

  /** Writing one more line after a line break adds its fields before the final empty rest. */
  lemma SplitAppendLine(before: string, last: string, prev: seq<string>)
    requires before != [] && before[|before| - 1] == '\n'
    requires Split(before, '\n') == prev + [[]]
    ensures Split(before + last + "\n", '\n') == prev + Split(last, '\n') + [[]]
  {
    var body := before[..|before| - 1];
    assert before == body + ['\n'] + [];
    SplitAt(body, [], '\n');
    assert Split([], '\n') == [[]];
    var whole := Split(before, '\n');
    assert whole[..|whole| - 1] == Split(body, '\n');
    assert whole[..|whole| - 1] == prev;
    assert before + last + "\n" == body + ['\n'] + (last + ['\n'] + []);
    SplitAt(body, last + ['\n'] + [], '\n');
    SplitAt(last, [], '\n');
  }

  // ---------------------------------------------------------------------
  // Decimal numbers

  function DigitChar(d: nat): (c: char)
    requires d < 10
    ensures IsDigit(c)
  {
    ('0' as int + d) as char
  }

  function DigitValue(c: char): (d: nat)
    requires IsDigit(c)
    ensures d < 10 && DigitChar(d) == c
  {
    c as int - '0' as int
  }

  predicate AllDigits(s: string) {
    forall k :: 0 <= k < |s| ==> IsDigit(s[k])
  }

  /** `str(n)` for a natural number. */
  function DecimalText(n: nat): (r: string)
    ensures |r| >= 1 && AllDigits(r)
    ensures n < 10 <==> |r| == 1
    decreases n
  {
    if n < 10 then [DigitChar(n)] else DecimalText(n / 10) + [DigitChar(n % 10)]
  }

  /** `10` to the power `k`. */
  function Pow10(k: nat): (p: nat)
    ensures p >= 1
  {
    if k == 0 then 1 else 10 * Pow10(k - 1)
  }

  /** A number below `10^w` is rendered with at most `w` digits. */
  lemma {:induction false} DecimalTextWidth(n: nat, w: nat)
    requires w >= 1 && n < Pow10(w)
    ensures |DecimalText(n)| <= w
    decreases n
  {
    if n >= 10 {
      DecimalTextWidth(n / 10, w - 1);
    }
  }

  /** `k` zero digits. */
  function Zeros(k: nat): (r: string)
    ensures |r| == k && forall i :: 0 <= i < k ==> r[i] == '0'
  {
    seq(k, _ => '0')
  }

  /** `'%0<width>d' % n`: at least `width` digits, padded on the left with '0'. */
  function ZeroPadded(n: nat, width: nat): (r: string)
    ensures AllDigits(r)
    ensures |r| == if |DecimalText(n)| < width then width else |DecimalText(n)|
  {
    var d := DecimalText(n);
    if |d| < width then Zeros(width - |d|) + d else d
  }

  /** `int(s)` for a string of ASCII digits. */
  function DigitsValue(s: string): nat
    requires AllDigits(s)
    decreases |s|
  {
    if s == [] then 0 else DigitsValue(s[..|s| - 1]) * 10 + DigitValue(s[|s| - 1])
  }

  /** Reading back a rendered number gives the number. */
  lemma {:induction false} DigitsValueOfDecimal(n: nat)
    ensures DigitsValue(DecimalText(n)) == n
    decreases n
  {
    if n >= 10 {
      var d := DecimalText(n);
      assert d[..|d| - 1] == DecimalText(n / 10);
      DigitsValueOfDecimal(n / 10);
    }
  }

  /** Leading zeros do not change the value. */
  lemma {:induction false} DigitsValueLeadingZeros(z: nat, s: string)
    requires AllDigits(s)
    ensures AllDigits(Zeros(z) + s)
    ensures DigitsValue(Zeros(z) + s) == DigitsValue(s)
    decreases |s|
  {
    var t := Zeros(z) + s;
    if s == [] {
      assert t == Zeros(z);
      ZerosValue(z);
    } else {
      assert t[..|t| - 1] == Zeros(z) + s[..|s| - 1];
      DigitsValueLeadingZeros(z, s[..|s| - 1]);
    }
  }

  lemma {:induction false} ZerosValue(z: nat)
    ensures DigitsValue(Zeros(z)) == 0
    decreases z
  {
    if z > 0 {
      assert Zeros(z)[..z - 1] == Zeros(z - 1);
      ZerosValue(z - 1);
    }
  }

  /** Reading back a zero-padded number gives the number. */
  lemma DigitsValueOfPadded(n: nat, width: nat)
    ensures DigitsValue(ZeroPadded(n, width)) == n
  {
    var d := DecimalText(n);
    if |d| < width {
      calc {
        DigitsValue(ZeroPadded(n, width));
        DigitsValue(Zeros(width - |d|) + d);
      == { DigitsValueLeadingZeros(width - |d|, d); }
        DigitsValue(d);
      == { DigitsValueOfDecimal(n); }
        n;
      }
    } else {
      DigitsValueOfDecimal(n);
    }
  }

  /** Distinct numbers are rendered as distinct texts. */
  lemma DecimalTextInjective(m: nat, n: nat)
    requires DecimalText(m) == DecimalText(n)
    ensures m == n
  {
    DigitsValueOfDecimal(m);
    DigitsValueOfDecimal(n);
  }
}
