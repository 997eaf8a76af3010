/**
 * The notifier's string helpers: whitespace normalisation of comment text
 * (`normalize_text`), flag parsing (`is_truthy`), and the pieces of
 * Python's string library they rest on (`str.split()`, `str.join`,
 * `str.strip()`, `str.lower()`, `str(int)`).
 */
module Text {
  import opened Base

  /** Python's `str.isspace()` for one code point: the separators that
      `str.split()` and `str.strip()` use when called without arguments. */
  predicate IsSpace(c: char) {
    var n := c as int;
    || (0x09 <= n <= 0x0D)
    || (0x1C <= n <= 0x20)
    || n == 0x85
    || n == 0xA0
    || n == 0x1680
    || (0x2000 <= n <= 0x200A)
    || n == 0x2028
    || n == 0x2029
    || n == 0x202F
    || n == 0x205F
    || n == 0x3000
  }

  predicate AllSpace(s: string) {
    forall i :: 0 <= i < |s| ==> IsSpace(s[i])
  }

  predicate NoSpace(s: string) {
    forall i :: 0 <= i < |s| ==> !IsSpace(s[i])
  }

  /** What `str.split()` returns pieces of: non-empty runs without whitespace. */
  predicate IsWord(w: string) {
    |w| > 0 && NoSpace(w)
  }

  predicate AllWords(ws: seq<string>) {
    forall k :: 0 <= k < |ws| ==> IsWord(ws[k])
  }

  // ---------------------------------------------------------------------
  // str.split() and str.join
  // ---------------------------------------------------------------------

  /** The longest prefix of `s` that holds no whitespace. */
  function TakeWord(s: string): (w: string)
    ensures |w| <= |s| && w == s[..|w|]
    ensures NoSpace(w)
    ensures |w| < |s| ==> IsSpace(s[|w|])
  {
    if s == [] || IsSpace(s[0]) then [] else [s[0]] + TakeWord(s[1..])
  }

  /** Python's `s.split()`: the maximal runs of non-whitespace, in order. */
  function Split(s: string): (ws: seq<string>)
    ensures AllWords(ws)
    decreases |s|
  {
    if s == [] then []
    else if IsSpace(s[0]) then Split(s[1..])
    else
      var w := TakeWord(s);
      [w] + Split(s[|w|..])
  }

  /** Python's `sep.join(ws)`. */
  function Join(ws: seq<string>, sep: string): string {
    if |ws| == 0 then ""
    else if |ws| == 1 then ws[0]
    else ws[0] + sep + Join(ws[1..], sep)
  }

  // ---------------------------------------------------------------------
  // normalize_text
  // ---------------------------------------------------------------------

  /** A normalised text: whitespace occurs only as a single ' ' strictly
      between two other characters, and is never followed by whitespace;
      so there is none at either end and no run of two. */
  predicate IsNormalized(r: string) {
    forall i :: 0 <= i < |r| && IsSpace(r[i]) ==>
      r[i] == ' ' && 0 < i && i + 1 < |r| && !IsSpace(r[i + 1])
  }

  /** `normalize_text`: `None` becomes "", any other text becomes its words
      joined by single spaces. */
  function NormalizeText(value: Option<string>): (r: string)
    ensures IsNormalized(r)
    ensures value.None? ==> r == ""
  {
    match value
    case None => ""
    case Some(s) =>
      JoinIsNormalized(Split(s));
      Join(Split(s), " ")
  }

  /** Words joined by single spaces form a normalised text that starts and
      ends with a word character. */
  lemma {:induction false} JoinIsNormalized(ws: seq<string>)
    requires AllWords(ws)
    ensures IsNormalized(Join(ws, " "))
    ensures |ws| > 0 ==>
              var j := Join(ws, " ");
              |j| > 0 && !IsSpace(j[0]) && !IsSpace(j[|j| - 1])
  {
    if |ws| > 1 {
      var w, rest := ws[0], Join(ws[1..], " ");
      JoinIsNormalized(ws[1..]);
      var j := w + " " + rest;
      assert Join(ws, " ") == j;
      forall i | 0 <= i < |j| && IsSpace(j[i])
        ensures j[i] == ' ' && 0 < i && i + 1 < |j| && !IsSpace(j[i + 1])
      {
        if i == |w| {
          assert j[i + 1] == rest[0];
        } else if i > |w| {
          assert j[i] == rest[i - |w| - 1];
          assert j[i + 1] == rest[i - |w|];
        }
      }
    }
  }

  lemma {:induction false} TakeWordStopsAtSpace(w: string, t: string)
    requires NoSpace(w)
    requires t == [] || IsSpace(t[0])
    ensures TakeWord(w + t) == w
  {
    if w == [] {
      assert w + t == t;
    } else {
      assert (w + t)[0] == w[0];
      assert (w + t)[1..] == w[1..] + t;
      TakeWordStopsAtSpace(w[1..], t);
    }
  }

  /** Leading whitespace does not change the words. */
  lemma {:induction false} SplitSkipsSpace(p: string, s: string)
    requires AllSpace(p)
    ensures Split(p + s) == Split(s)
  {
    if p == [] {
      assert p + s == s;
    } else {
      assert (p + s)[0] == p[0];
      assert (p + s)[1..] == p[1..] + s;
      SplitSkipsSpace(p[1..], s);
    }
  }

  lemma SplitWordThen(w: string, t: string)
    requires IsWord(w)
    requires t == [] || IsSpace(t[0])
    ensures Split(w + t) == [w] + Split(t)
  {
    TakeWordStopsAtSpace(w, t);
    assert (w + t)[0] == w[0];
    assert (w + t)[|w|..] == t;
  }

  /** Splitting undoes joining with single spaces. */
  lemma {:induction false} SplitJoin(ws: seq<string>)
    requires AllWords(ws)
    ensures Split(Join(ws, " ")) == ws
  {
    if |ws| == 1 {
      SplitWordThen(ws[0], []);
      assert ws[0] + [] == ws[0];
    } else if |ws| > 1 {
      var rest := Join(ws[1..], " ");
      assert Join(ws, " ") == ws[0] + (" " + rest);
      SplitWordThen(ws[0], " " + rest);
      SplitSkipsSpace(" ", rest);
      SplitJoin(ws[1..]);
    }
  }

  /** Normalising twice gives the same text as normalising once. */
  lemma NormalizeIdempotent(value: Option<string>)
    ensures NormalizeText(Some(NormalizeText(value))) == NormalizeText(value)
  {
    match value
    case None =>
    case Some(s) => SplitJoin(Split(s));
  }

  /** A text is left unchanged by normalisation exactly when it is normalised. */
  lemma NormalizeFixpoints(s: string)
    ensures NormalizeText(Some(s)) == s <==> IsNormalized(s)
  {
    if IsNormalized(s) {
      NormalizedIsJoinOfWords(s);
    }
  }

  lemma {:induction false} NormalizedIsJoinOfWords(s: string)
    requires IsNormalized(s)
    ensures Join(Split(s), " ") == s
    decreases |s|
  {
    if s != [] {
      var w := TakeWord(s);
      assert !IsSpace(s[0]);
      if |w| == |s| {
        assert w == s;
        assert Split(s) == [w] + Split([]);
      } else {
        var rest := s[|w| + 1..];
        NormalizedSplitsAtSpace(s, w);
        NormalizedIsJoinOfWords(rest);
        var ws := Split(rest);
        assert ([w] + ws)[1..] == ws;
      }
    }
  }

  /** A normalised text that goes on after its first word goes on with one
      space and a normalised, non-empty rest. */
  lemma NormalizedSplitsAtSpace(s: string, w: string)
    requires IsNormalized(s) && s != [] && w == TakeWord(s) && |w| < |s|
    ensures var rest := s[|w| + 1..];
      && IsNormalized(rest) && s == w + " " + rest
      && Split(s) == [w] + Split(rest) && Split(rest) != []
  {
    var rest := s[|w| + 1..];
    NormalizedRest(s, w);
    SplitAtSpace(w, rest);
    assert s == w + " " + rest;
    assert Split(rest) != [] by {
      assert !IsSpace(rest[0]);
    }
  }

  /** The shape of a normalised text after its first word: one space, then
      a normalised rest that starts with a word. */
  lemma NormalizedRest(s: string, w: string)
    requires IsNormalized(s) && s != [] && w == TakeWord(s) && |w| < |s|
    ensures var rest := s[|w| + 1..];
      && IsNormalized(rest) && s == w + " " + rest && rest != [] && !IsSpace(rest[0])
      && IsWord(w)
  {
    assert !IsSpace(s[0]);
    var rest := s[|w| + 1..];
    assert s[|w|] == ' ';
    NormalizedTail(s, |w|);
    assert s == w + (" " + rest);
    assert rest[0] == s[|w| + 1];
  }

  /** A word, a space and a rest split into the word and the rest's words. */
  lemma SplitAtSpace(w: string, rest: string)
    requires IsWord(w)
    ensures Split(w + " " + rest) == [w] + Split(rest)
  {
    assert w + " " + rest == w + (" " + rest);
    SplitWordThen(w, " " + rest);
    SplitSkipsSpace(" ", rest);
  }

  /** What follows a space of a normalised text is normalised. */
  lemma NormalizedTail(s: string, k: nat)
    requires IsNormalized(s) && k < |s| && s[k] == ' '
    ensures IsNormalized(s[k + 1..])
  {
    var rest := s[k + 1..];
    forall i | 0 <= i < |rest| && IsSpace(rest[i])
      ensures rest[i] == ' ' && 0 < i && i + 1 < |rest| && !IsSpace(rest[i + 1])
    {
      assert rest[i] == s[i + k + 1];
      if i + 1 < |rest| {
        assert rest[i + 1] == s[i + k + 2];
      }
    }
  }

  // ---------------------------------------------------------------------
  // Texts that differ only in whitespace
  // ---------------------------------------------------------------------

  /** Whitespace to lay words out with: `gaps[0]` before the first word,
      `gaps[k]` between word k-1 and word k (never empty), and
      `gaps[|ws|]` after the last word. */
  predicate IsGaps(ws: seq<string>, gaps: seq<string>) {
    && |gaps| == |ws| + 1
    && (forall k :: 0 <= k < |gaps| ==> AllSpace(gaps[k]))
    && (forall k :: 0 < k < |ws| ==> |gaps[k]| > 0)
  }

  /** The words `ws` laid out with the whitespace `gaps`. */
  function Layout(ws: seq<string>, gaps: seq<string>): string
    requires |gaps| == |ws| + 1
  {
    if |ws| == 0 then gaps[0] else gaps[0] + ws[0] + Layout(ws[1..], gaps[1..])
  }

  /** However words are laid out with whitespace, `split()` recovers them. */
  lemma {:induction false} SplitLayout(ws: seq<string>, gaps: seq<string>)
    requires AllWords(ws) && IsGaps(ws, gaps)
    ensures Split(Layout(ws, gaps)) == ws
  {
    if |ws| == 0 {
      SplitSkipsSpace(gaps[0], []);
      assert gaps[0] + [] == gaps[0];
    } else {
      var rest := Layout(ws[1..], gaps[1..]);
      LayoutStep(ws, gaps);
      SplitSkipsSpace(gaps[0], ws[0] + rest);
      SplitWordThen(ws[0], rest);
      SplitLayout(ws[1..], gaps[1..]);
    }
  }

  /** A layout of words is its first gap, its first word, and a layout of the
      other words that is empty or starts with whitespace. */
  lemma LayoutStep(ws: seq<string>, gaps: seq<string>)
    requires AllWords(ws) && IsGaps(ws, gaps) && |ws| > 0
    ensures AllWords(ws[1..]) && IsGaps(ws[1..], gaps[1..])
    ensures var rest := Layout(ws[1..], gaps[1..]);
      && Layout(ws, gaps) == gaps[0] + (ws[0] + rest)
      && (rest == [] || IsSpace(rest[0]))
  {
    forall k | 0 <= k < |ws| - 1 ensures IsWord(ws[1..][k]) {
      assert ws[1..][k] == ws[k + 1];
    }
    forall k | 0 <= k < |gaps| - 1 ensures AllSpace(gaps[1..][k]) {
      assert gaps[1..][k] == gaps[k + 1];
    }
    LayoutRest(ws, gaps);
  }

  /** The layout after the first word starts with whitespace, if anything. */
  lemma LayoutRest(ws: seq<string>, gaps: seq<string>)
    requires IsGaps(ws, gaps) && |ws| > 0
    ensures var rest := Layout(ws[1..], gaps[1..]);
      && Layout(ws, gaps) == gaps[0] + (ws[0] + rest)
      && (rest == [] || IsSpace(rest[0]))
  {
    var rest := Layout(ws[1..], gaps[1..]);
    assert gaps[1..][0] == gaps[1];
    assert AllSpace(gaps[1]);
    if |ws| > 1 {
      assert |gaps[1]| > 0;
      assert rest == gaps[1] + ws[1] + Layout(ws[2..], gaps[2..]) by {
        assert ws[1..][0] == ws[1] && ws[1..][1..] == ws[2..] && gaps[1..][1..] == gaps[2..];
      }
      assert rest[0] == gaps[1][0];
    } else {
      assert rest == gaps[1];
    }
  }

  /** Any layout of the same words normalises to those words single-spaced. */
  lemma NormalizeLayout(ws: seq<string>, gaps: seq<string>)
    requires AllWords(ws) && IsGaps(ws, gaps)
    ensures NormalizeText(Some(Layout(ws, gaps))) == Join(ws, " ")
  {
    SplitLayout(ws, gaps);
  }

  /** The case the test suite checks: tabs, newlines and padding collapse. */
  lemma NormalizeExample()
    ensures NormalizeText(Some("  hello\n\tworld  ")) == "hello world"
    ensures NormalizeText(None) == ""
  {
    var ws, gaps := ["hello", "world"], ["  ", "\n\t", "  "];
    assert IsWord(ws[0]) && IsWord(ws[1]);
    assert AllWords(ws);
    assert AllSpace(gaps[0]) && AllSpace(gaps[1]) && AllSpace(gaps[2]);
    assert IsGaps(ws, gaps);
    assert Layout(ws[2..], gaps[2..]) == "  ";
    assert Layout(ws[1..], gaps[1..]) == "\n\t" + "world" + "  ";
    assert Layout(ws, gaps) == "  hello\n\tworld  ";
    NormalizeLayout(ws, gaps);
    assert Join(ws, " ") == "hello world";
  }

  // ---------------------------------------------------------------------
  // str.strip(), str.lower() and is_truthy
  // ---------------------------------------------------------------------

  function StripLeft(s: string): (r: string)
    ensures r == [] || !IsSpace(r[0])
  {
    if s != [] && IsSpace(s[0]) then StripLeft(s[1..]) else s
  }

  function StripRight(s: string): (r: string)
    ensures |r| <= |s| && r == s[..|r|]
    ensures r == [] || !IsSpace(r[|r| - 1])
  {
    if s != [] && IsSpace(s[|s| - 1]) then StripRight(s[..|s| - 1]) else s
  }

  /** Python's `s.strip()`: the text without whitespace at either end. */
  function Strip(s: string): (r: string)
    ensures r == [] || (!IsSpace(r[0]) && !IsSpace(r[|r| - 1]))
  {
    StripRight(StripLeft(s))
  }

  lemma {:induction false} StripLeftSkips(p: string, t: string)
    requires AllSpace(p)
    ensures StripLeft(p + t) == StripLeft(t)
  {
    if p == [] {
      assert p + t == t;
    } else {
      assert (p + t)[1..] == p[1..] + t;
      StripLeftSkips(p[1..], t);
    }
  }

  lemma {:induction false} StripRightSkips(t: string, p: string)
    requires AllSpace(p)
    ensures StripRight(t + p) == StripRight(t)
    decreases |p|
  {
    if p == [] {
      assert t + p == t;
    } else {
      var q := p[..|p| - 1];
      assert (t + p)[..|t + p| - 1] == t + q;
      StripRightSkips(t, q);
    }
  }

  /** Stripping removes exactly the whitespace padding around a text that
      neither starts nor ends with whitespace. */
  lemma StripPadded(p1: string, w: string, p2: string)
    requires AllSpace(p1) && AllSpace(p2)
    requires w == [] || (!IsSpace(w[0]) && !IsSpace(w[|w| - 1]))
    ensures Strip(p1 + w + p2) == w
  {
    assert p1 + w + p2 == p1 + (w + p2);
    StripLeftSkips(p1, w + p2);
    if w == [] {
      assert w + p2 == p2 + [];
      StripLeftSkips(p2, []);
      assert StripLeft(w + p2) == [];
    } else {
      StripRightSkips(w, p2);
    }
  }

  function LowerChar(c: char): char {
    if 'A' <= c <= 'Z' then (c as int + 32) as char else c
  }

  /** Python's `s.lower()` on the ASCII letters; other characters are kept. */
  function Lower(s: string): (r: string)
    ensures |r| == |s|
    ensures forall k :: 0 <= k < |s| ==> r[k] == LowerChar(s[k])
  {
    if s == [] then [] else [LowerChar(s[0])] + Lower(s[1..])
  }

  /** The flag spellings `is_truthy` accepts, after trimming and lowering. */
  const TruthyWords: set<string> := {"1", "true", "yes", "on"}

  /** `is_truthy`. */
  predicate IsTruthy(value: Option<string>) {
    value.Some? && Lower(Strip(value.value)) in TruthyWords
  }

  /** A flag is truthy exactly when, once its whitespace padding is removed,
      it spells one of the accepted words in any ASCII case. */
  lemma TruthyIgnoresPadding(p1: string, w: string, p2: string)
    requires AllSpace(p1) && AllSpace(p2)
    requires w == [] || (!IsSpace(w[0]) && !IsSpace(w[|w| - 1]))
    ensures IsTruthy(Some(p1 + w + p2)) <==> Lower(w) in TruthyWords
  {
    StripPadded(p1, w, p2);
  }

  /** Every ASCII case variant of an accepted word is truthy: "True",
      "TRUE" and "yEs" are accepted like "true" and "yes". */
  lemma TruthyAnyCase(v: string, t: string)
    requires t in TruthyWords
    requires |v| == |t| && forall k :: 0 <= k < |v| ==> LowerChar(v[k]) == t[k]
    ensures IsTruthy(Some(v))
  {
    LowerEach(v, t);
    TruthyWordsUnpadded(t);
    assert !IsSpace(v[0]) by {
      if IsSpace(v[0]) {
        SpaceNotLowered(v[0]);
      }
    }
    assert !IsSpace(v[|v| - 1]) by {
      if IsSpace(v[|v| - 1]) {
        SpaceNotLowered(v[|v| - 1]);
      }
    }
    assert [] + v + [] == v;
    TruthyIgnoresPadding([], v, []);
  }

  lemma SpaceNotLowered(c: char)
    requires IsSpace(c)
    ensures LowerChar(c) == c
  {
  }

  lemma LowerEach(v: string, t: string)
    requires |v| == |t| && forall k :: 0 <= k < |v| ==> LowerChar(v[k]) == t[k]
    ensures Lower(v) == t
  {
  }

  lemma TruthyWordsUnpadded(t: string)
    requires t in TruthyWords
    ensures t != [] && !IsSpace(t[0]) && !IsSpace(t[|t| - 1])
  {
  }

  /** The accepted spellings the test suite checks. */
  lemma TruthyAccepts()
    ensures IsTruthy(Some("1")) && IsTruthy(Some("true")) && IsTruthy(Some("YES"))
  {
    TruthyLowerWords();
    TruthyYes();
  }

  lemma TruthyLowerWords()
    ensures IsTruthy(Some("1")) && IsTruthy(Some("true"))
  {
    assert Strip("1") == "1" && Lower("1") == "1";
    assert Strip("true") == "true" && Lower("true") == "true";
  }

  lemma TruthyYes()
    ensures IsTruthy(Some("YES"))
  {
    assert Strip("YES") == "YES";
    assert Lower("YES") == "yes";
  }

  /** Padding and letter case do not matter. */
  lemma TruthyPaddedExample()
    ensures IsTruthy(Some(" On\n"))
  {
    TruthyIgnoresPadding(" ", "On", "\n");
    assert " " + "On" + "\n" == " On\n";
    assert Lower("On") == "on";
  }

  /** The rejected values the test suite checks. */
  lemma TruthyRejects()
    ensures !IsTruthy(Some("0")) && !IsTruthy(Some("false")) && !IsTruthy(None)
  {
    assert Strip("0") == "0" && Lower("0") == "0";
    assert Strip("false") == "false";
    assert Lower("false") == "false";
  }

  // ---------------------------------------------------------------------
  // str(int)
  // ---------------------------------------------------------------------

  function DigitChar(d: nat): char
    requires d < 10
  {
    "0123456789"[d]
  }

  /** Python's `str(n)` for a natural number: one or more decimal digits. */
  function NatToString(n: nat): (r: string)
    ensures |r| >= 1 && forall k :: 0 <= k < |r| ==> '0' <= r[k] <= '9'
    decreases n
  {
    if n < 10 then [DigitChar(n)] else NatToString(n / 10) + [DigitChar(n % 10)]
  }

  lemma DigitCharInjective(a: nat, b: nat)
    requires a < 10 && b < 10 && DigitChar(a) == DigitChar(b)
    ensures a == b
  {
  }

  /** Different numbers are written differently. */
  lemma {:induction false} NatToStringInjective(a: nat, b: nat)
    requires NatToString(a) == NatToString(b)
    ensures a == b
    decreases a
  {
    var s := NatToString(a);
    if a < 10 && b < 10 {
      DigitCharInjective(a, b);
    } else if a < 10 || b < 10 {
      assert false;
    } else {
      var n := |s| - 1;
      assert s[n] == DigitChar(a % 10) && s[n] == DigitChar(b % 10);
      DigitCharInjective(a % 10, b % 10);
      assert s[..n] == NatToString(a / 10) && s[..n] == NatToString(b / 10);
      NatToStringInjective(a / 10, b / 10);
    }
  }

  /** Python's `str(i)` for an integer, in decimal. */
  function IntToString(i: int): (r: string)
    ensures |r| >= 1 && (r[0] == '-' <==> i < 0)
    ensures forall k :: 0 <= k < |r| ==> r[k] == '-' || '0' <= r[k] <= '9'
  {
    if i < 0 then "-" + NatToString(-i) else NatToString(i)
  }

  /** Different integers are written differently, so `str(author_id)`
      identifies the author. */
  lemma IntToStringInjective(i: int, j: int)
    requires IntToString(i) == IntToString(j)
    ensures i == j
  {
    if i < 0 {
      NegativeInjective(i, j);
    } else {
      NegativeInjective(j, i);
    }
  }

  lemma NegativeInjective(i: int, j: int)
    requires IntToString(i) == IntToString(j)
    requires i < 0 || j >= 0
    ensures i == j
  {
    if i < 0 {
      BothNegative(i, j);
      NatToStringInjective(-i, -j);
    } else {
      BothNonNegative(i, j);
      NatToStringInjective(i, j);
    }
  }

  lemma BothNonNegative(i: int, j: int)
    requires IntToString(i) == IntToString(j) && i >= 0 && j >= 0
    ensures NatToString(i) == NatToString(j)
  {
  }

  lemma BothNegative(i: int, j: int)
    requires IntToString(i) == IntToString(j) && i < 0
    ensures j < 0 && NatToString(-i) == NatToString(-j)
  {
    assert j < 0 by {
      assert IntToString(j)[0] == '-';
    }
    NegativeString(i);
    NegativeString(j);
  }

  lemma NegativeString(i: int)
    requires i < 0
    ensures IntToString(i)[1..] == NatToString(-i)
  {
    var n := NatToString(-i);
    assert ("-" + n)[1..] == n;
  }

  /** Python's `str(v)` for an optional integer; `None` is written "None". */
  function OptIntToString(v: Option<int>): string {
    match v
    case None => "None"
    case Some(i) => IntToString(i)
  }
}
