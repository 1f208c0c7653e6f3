/**
 * The string operations the components rely on: `String.prototype.trim`, the
 * regular-expression class `\s`, `startsWith`, `Array.prototype.join`, and the
 * whitespace-run replacement that builds a card's element id.
 */
module Text {

  /**
   * The characters ECMAScript treats as white space or line terminators: the set
   * `trim()` strips and the regular-expression class `\s` matches.
   */
  predicate IsWhitespace(c: char)
  {
    || c == '\t' || c == '\n' || c == '\U{B}' || c == '\U{C}' || c == '\r' || c == ' '
    || c == '\U{A0}' || c == '\U{1680}' || ('\U{2000}' <= c <= '\U{200A}')
    || c == '\U{2028}' || c == '\U{2029}' || c == '\U{202F}' || c == '\U{205F}'
    || c == '\U{3000}' || c == '\U{FEFF}'
  }

  /** Every character is white space (the empty string included). */
  predicate IsBlank(s: string)
  {
    forall i :: 0 <= i < |s| ==> IsWhitespace(s[i])
  }

  /** No character is white space. */
  predicate NoWhitespace(s: string)
  {
    forall i :: 0 <= i < |s| ==> !IsWhitespace(s[i])
  }

  /** The number of white-space characters at the start of `s`. */
  function LeadingWhitespace(s: string): (k: nat)
    ensures k <= |s|
    ensures forall i :: 0 <= i < k ==> IsWhitespace(s[i])
    ensures k == |s| || !IsWhitespace(s[k])
  {
    if |s| > 0 && IsWhitespace(s[0]) then 1 + LeadingWhitespace(s[1..]) else 0
  }

  /** The position where the white space at the end of `s` begins. */
  function TrailingWhitespaceStart(s: string): (e: nat)
    ensures e <= |s|
    ensures forall i :: e <= i < |s| ==> IsWhitespace(s[i])
    ensures e == 0 || !IsWhitespace(s[e - 1])
  {
    if |s| > 0 && IsWhitespace(s[|s| - 1]) then TrailingWhitespaceStart(s[..|s| - 1]) else |s|
  }

  /**
   * `s.trim()`: leading white space removed, then trailing white space. The result
   * is the middle of `s`, between a blank prefix and a blank suffix, and neither
   * starts nor ends with white space.
   */
  function Trim(s: string): (r: string)
    ensures var k := LeadingWhitespace(s);
      && k + |r| <= |s| && s[k..k + |r|] == r
      && IsBlank(s[..k]) && IsBlank(s[k + |r|..])
    ensures r == "" || (!IsWhitespace(r[0]) && !IsWhitespace(r[|r| - 1]))
  {
    var k := LeadingWhitespace(s);
    var t := s[k..];
    var e := TrailingWhitespaceStart(t);
    assert t[..e] == s[k..k + e];
    assert s[k + e..] == t[e..];
    t[..e]
  }

  /**
   * `handleAnalyze` and `handleAnalyzeClick` test a draft with `!text.trim()`: the trimmed text is empty
   * exactly when every character of the draft is white space.
   */
  lemma TrimEmptyIffBlank(s: string)
    ensures Trim(s) == "" <==> IsBlank(s)
  {
    var k := LeadingWhitespace(s);
    var t := s[k..];
    var e := TrailingWhitespaceStart(t);
    if Trim(s) == "" {
      assert e == 0;
    } else {
      assert t[0] == s[k];
    }
  }

  /** `s.startsWith(prefix)`. */
  predicate StartsWith(s: string, prefix: string)
  {
    |prefix| <= |s| && s[..|prefix|] == prefix
  }

  /** The total length of the pieces. */
  function Lengths(parts: seq<string>): nat
  {
    if |parts| == 0 then 0 else |parts[0]| + Lengths(parts[1..])
  }

  /**
   * `parts.join([sep])`: the pieces in order with one separator between each two,
   * so it starts with the first piece and is as long as the pieces plus the
   * separators.
   */
  function Join(parts: seq<string>, sep: char): (r: string)
    ensures |r| == Lengths(parts) + (if |parts| == 0 then 0 else |parts| - 1)
    ensures |parts| >= 1 ==> |parts[0]| <= |r| && r[..|parts[0]|] == parts[0]
  {
    if |parts| == 0 then ""
    else if |parts| == 1 then parts[0]
    else parts[0] + [sep] + Join(parts[1..], sep)
  }

  /** The position of the first occurrence of `c` in `s`. */
  function IndexOf(s: string, c: char): (r: nat)
    requires c in s
    ensures r < |s| && s[r] == c && c !in s[..r]
  {
    if s[0] == c then 0 else 1 + IndexOf(s[1..], c)
  }

  /** `s.split(sep)` for a one-character separator: the pieces between separators. */
  function Split(s: string, sep: char): (r: seq<string>)
    ensures |r| >= 1
    decreases |s|
  {
    if sep in s then
      var i := IndexOf(s, sep);
      [s[..i]] + Split(s[i + 1..], sep)
    else [s]
  }

  /** Splitting at the first separator: a separator-free head comes off as one piece. */
  lemma SplitAtFirst(a: string, sep: char, b: string)
    requires sep !in a
    ensures Split(a + [sep] + b, sep) == [a] + Split(b, sep)
  {
    var s := a + [sep] + b;
    assert s[|a|] == sep;
    var i := IndexOf(s, sep);
    assert s[..i] == a;
    assert s[i + 1..] == b;
  }

  /**
   * Joining non-empty lists of separator-free pieces loses nothing: splitting the
   * joined text gives the pieces back.
   */
  lemma {:induction false} SplitJoin(parts: seq<string>, sep: char)
    requires |parts| >= 1
    requires forall i :: 0 <= i < |parts| ==> sep !in parts[i]
    ensures Split(Join(parts, sep), sep) == parts
  {
    if |parts| > 1 {
      SplitJoin(parts[1..], sep);
      SplitAtFirst(parts[0], sep, Join(parts[1..], sep));
      assert [parts[0]] + parts[1..] == parts;
    }
  }

  /** A join is empty exactly when there is nothing to join or one empty piece. */
  lemma JoinEmpty(parts: seq<string>, sep: char)
    ensures Join(parts, sep) == "" <==> |parts| == 0 || (|parts| == 1 && parts[0] == "")
  {
    if |parts| > 1 {
      assert |Join(parts, sep)| >= 1;
    }
  }

  /**
   * The replacement of every maximal white-space run by one `'-'`, scanning from a
   * point where `inRun` says whether the previous character was white space.
   */
  function SlugFrom(s: string, inRun: bool): string
  {
    if |s| == 0 then ""
    else
      var rest := SlugFrom(s[1..], IsWhitespace(s[0]));
      if !IsWhitespace(s[0]) then [s[0]] + rest
      else if inRun then rest
      else "-" + rest
  }

  /**
   * `title.replace(/\s+/g, '-')`: the result holds no white space, and a title
   * without white space is left as it is.
   */
  function Slug(s: string): (r: string)
    ensures NoWhitespace(r)
    ensures NoWhitespace(s) ==> r == s
  {
    SlugFromNoWhitespace(s, false);
    if NoWhitespace(s) then SlugFromIdentity(s, false); SlugFrom(s, false)
    else SlugFrom(s, false)
  }

  /** Whether the scan is inside a white-space run after reading all of `a`. */
  function RunAfter(a: string, inRun: bool): bool
  {
    if |a| == 0 then inRun else IsWhitespace(a[|a| - 1])
  }

  /** The slug never contains white space. */
  lemma {:induction false} SlugFromNoWhitespace(s: string, inRun: bool)
    ensures NoWhitespace(SlugFrom(s, inRun))
  {
    if |s| > 0 {
      SlugFromNoWhitespace(s[1..], IsWhitespace(s[0]));
    }
  }

  /** A text without white space is its own slug. */
  lemma {:induction false} SlugFromIdentity(s: string, inRun: bool)
    requires NoWhitespace(s)
    ensures SlugFrom(s, inRun) == s
  {
    if |s| > 0 {
      SlugFromIdentity(s[1..], false);
      assert [s[0]] + s[1..] == s;
    }
  }

  /** The slug is the text itself exactly when the text has no white space. */
  lemma SlugFixedPoint(s: string)
    ensures Slug(s) == s <==> NoWhitespace(s)
  {
    SlugFromNoWhitespace(s, false);
    if NoWhitespace(s) {
      SlugFromIdentity(s, false);
    }
  }

  /** Replacing runs twice changes nothing the first pass did not. */
  lemma SlugIdempotent(s: string)
    ensures Slug(Slug(s)) == Slug(s)
  {
    SlugFromNoWhitespace(s, false);
    SlugFromIdentity(Slug(s), false);
  }

  /** The scan of a concatenation is the scan of each part, the run state carried across. */
  lemma {:induction false} SlugFromAppend(a: string, b: string, inRun: bool)
    ensures SlugFrom(a + b, inRun) == SlugFrom(a, inRun) + SlugFrom(b, RunAfter(a, inRun))
  {
    if |a| > 0 {
      var w := IsWhitespace(a[0]);
      assert (a + b)[0] == a[0];
      assert (a + b)[1..] == a[1..] + b;
      SlugFromUnfold(a + b, inRun);
      SlugFromUnfold(a, inRun);
      SlugFromAppend(a[1..], b, w);
      if |a| > 1 {
        assert a[1..][|a[1..]| - 1] == a[|a| - 1];
      }
      assert RunAfter(a[1..], w) == RunAfter(a, inRun);
      AppendAssoc(SlugHead(a[0], inRun), SlugFrom(a[1..], w), SlugFrom(b, RunAfter(a, inRun)));
    } else {
      assert a + b == b;
    }
  }

  /** What the scan writes for one character `c`. */
  function SlugHead(c: char, inRun: bool): string
  {
    if !IsWhitespace(c) then [c] else if inRun then [] else "-"
  }

  /** One step of the scan. */
  lemma SlugFromUnfold(s: string, inRun: bool)
    requires |s| > 0
    ensures SlugFrom(s, inRun) == SlugHead(s[0], inRun) + SlugFrom(s[1..], IsWhitespace(s[0]))
  {
  }

  /** Concatenation of sequences is associative. */
  lemma AppendAssoc<T>(a: seq<T>, b: seq<T>, c: seq<T>)
    ensures a + (b + c) == (a + b) + c
  {
  }

  /** Starting outside or inside a run makes no difference before a non-white character. */
  lemma SlugFromStartsSolid(s: string)
    requires s == [] || !IsWhitespace(s[0])
    ensures SlugFrom(s, true) == SlugFrom(s, false)
  {
  }

  /**
   * Runs never merge across a split point that is not itself inside a run: the
   * slug of `a + b` is the slug of `a` followed by the slug of `b`.
   */
  lemma SlugAppend(a: string, b: string)
    requires a == [] || b == [] || !IsWhitespace(a[|a| - 1]) || !IsWhitespace(b[0])
    ensures Slug(a + b) == Slug(a) + Slug(b)
  {
    SlugFromAppend(a, b, false);
    if b != [] && !IsWhitespace(b[0]) {
      SlugFromStartsSolid(b);
    }
  }

  /** A whole non-empty white-space run becomes a single `'-'`. */
  lemma {:induction false} SlugOfRun(s: string)
    requires |s| > 0 && IsBlank(s)
    ensures Slug(s) == "-"
  {
    RunStaysCollapsed(s[1..]);
  }

  /** Inside a run, further white space adds nothing. */
  lemma {:induction false} RunStaysCollapsed(s: string)
    requires IsBlank(s)
    ensures SlugFrom(s, true) == ""
  {
    if |s| > 0 {
      RunStaysCollapsed(s[1..]);
    }
  }

  /**
   * Words without white space, joined by single spaces, come out joined by single
   * dashes.
   */
  lemma {:induction false} SlugOfWords(words: seq<string>)
    requires |words| >= 1
    requires forall i :: 0 <= i < |words| ==> |words[i]| > 0 && NoWhitespace(words[i])
    ensures Slug(Join(words, ' ')) == Join(words, '-')
  {
    SlugFixedPoint(words[0]);
    if |words| > 1 {
      var rest := Join(words[1..], ' ');
      SlugOfWords(words[1..]);
      assert |rest| > 0 && rest[0] == words[1][0] by { JoinStarts(words[1..], ' '); }
      SlugAppend(words[0], " ");
      SlugAppend(words[0] + " ", rest);
      SlugOfRun(" ");
      assert Join(words, ' ') == words[0] + " " + rest;
    }
  }

  /** A join of non-empty pieces starts with the first piece's first character. */
  lemma JoinStarts(parts: seq<string>, sep: char)
    requires |parts| >= 1 && |parts[0]| > 0
    ensures |Join(parts, sep)| > 0 && Join(parts, sep)[0] == parts[0][0]
  {
  }
}
