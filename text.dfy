/**
 * The few Python `str` operations the pipeline relies on: whitespace
 * classification, `strip()`, `split()`, `sep.join(...)`, `str(n)` and
 * zero-padded `{n:0wd}` formatting, `<` on strings, `sorted(set(...))`,
 * `endswith` and `replace(pat, "")`.
 */
module Text {

  /** `c.isspace()` in Python: the characters `strip()` and `split()` treat as whitespace. */
  predicate IsSpace(c: char) {
    c == ' ' || ('\t' <= c <= '\r') || ('\U{1C}' <= c <= '\U{1F}')
    || c == '\U{85}' || c == '\U{A0}' || c == '\U{1680}'
    || ('\U{2000}' <= c <= '\U{200A}') || c == '\U{2028}' || c == '\U{2029}'
    || c == '\U{202F}' || c == '\U{205F}' || c == '\U{3000}'
  }

  /** `not s.strip()`: the string holds nothing but whitespace. */
  predicate IsBlank(s: string) {
    forall i :: 0 <= i < |s| ==> IsSpace(s[i])
  }

  /** `s.lstrip()` */
  function TrimStart(s: string): (r: string)
    ensures |r| <= |s|
  {
    if s == [] || !IsSpace(s[0]) then s else TrimStart(s[1..])
  }

  /** `s.lstrip()` is a suffix of `s` that the removed whitespace precedes and that does not start with whitespace. */
  lemma {:induction false} TrimStartShape(s: string)
    ensures var t := TrimStart(s);
      t == s[|s| - |t|..] && IsBlank(s[..|s| - |t|]) && (t != [] ==> !IsSpace(t[0]))
  {
    if s != [] && IsSpace(s[0]) {
      TrimStartShape(s[1..]);
      var t := TrimStart(s);
      assert s[1..][|s| - 1 - |t|..] == s[|s| - |t|..];
      assert s[..|s| - |t|] == [s[0]] + s[1..][..|s| - 1 - |t|];
    }
  }

  /** `s.rstrip()` */
  function TrimEnd(s: string): (r: string)
    ensures |r| <= |s|
  {
    if s == [] || !IsSpace(s[|s| - 1]) then s else TrimEnd(s[..|s| - 1])
  }

  /** `s.rstrip()` is a prefix of `s` that the removed whitespace follows and that does not end with whitespace. */
  lemma {:induction false} TrimEndShape(s: string)
    ensures var t := TrimEnd(s);
      t == s[..|t|] && IsBlank(s[|t|..]) && (t != [] ==> !IsSpace(t[|t| - 1]))
  {
    if s != [] && IsSpace(s[|s| - 1]) {
      var init := s[..|s| - 1];
      TrimEndShape(init);
      var t := TrimEnd(s);
      assert init[..|t|] == s[..|t|];
      assert s[|t|..] == init[|t|..] + [s[|s| - 1]];
    }
  }

  /** `s.strip()`: the longest infix that neither starts nor ends with whitespace. */
  function Strip(s: string): (r: string)
    ensures |r| <= |s|
  {
    TrimEnd(TrimStart(s))
  }

  /** What `s.strip()` leaves neither starts nor ends with whitespace. */
  lemma StripEnds(s: string)
    ensures var r := Strip(s); r != [] ==> !IsSpace(r[0]) && !IsSpace(r[|r| - 1])
  {
    TrimStartShape(s);
    TrimEndShape(TrimStart(s));
  }

  /** `s.strip()` is empty exactly when `s` is blank. */
  lemma StripEmptyIffBlank(s: string)
    ensures Strip(s) == [] <==> IsBlank(s)
  {
    TrimStartShape(s);
    TrimEndShape(TrimStart(s));
  }

  /** The characters of `s` that are not whitespace, in order. */
  function NonSpace(s: string): (r: string)
    ensures |r| <= |s|
  {
    if s == [] then [] else NonSpace(s[..|s| - 1]) + (if IsSpace(s[|s| - 1]) then [] else [s[|s| - 1]])
  }

  lemma {:induction false} NonSpaceConcat(a: string, b: string)
    ensures NonSpace(a + b) == NonSpace(a) + NonSpace(b)
    decreases |b|
  {
    if b == [] {
      assert a + b == a;
    } else {
      assert (a + b)[..|a + b| - 1] == a + b[..|b| - 1];
      NonSpaceConcat(a, b[..|b| - 1]);
    }
  }

  lemma {:induction false} NonSpaceOfBlank(s: string)
    requires IsBlank(s)
    ensures NonSpace(s) == []
  {
    if s != [] {
      NonSpaceOfBlank(s[..|s| - 1]);
    }
  }

  lemma {:induction false} NonSpaceOfWord(s: string)
    requires forall i :: 0 <= i < |s| ==> !IsSpace(s[i])
    ensures NonSpace(s) == s
  {
    if s != [] {
      NonSpaceOfWord(s[..|s| - 1]);
    }
  }

  /** Whitespace on either side of `m` contributes nothing to `NonSpace`. */
  lemma {:induction false} NonSpaceAround(a: string, m: string, b: string)
    requires IsBlank(a) && IsBlank(b)
    ensures NonSpace(a + m + b) == NonSpace(m)
  {
    NonSpaceConcat(a + m, b);
    NonSpaceConcat(a, m);
    NonSpaceOfBlank(a);
    NonSpaceOfBlank(b);
  }

  /** Stripping removes whitespace only: no other character is lost. */
  lemma {:induction false} StripKeepsNonSpace(s: string)
    ensures NonSpace(Strip(s)) == NonSpace(s)
  {
    var t := TrimStart(s);
    var r := TrimEnd(t);
    TrimStartKeepsNonSpace(s);
    TrimEndShape(t);
    var b := t[|r|..];
    assert t == r + b;
    NonSpaceConcat(r, b);
    NonSpaceOfBlank(b);
  }

  /** A word of `split()`: non-empty, with no whitespace in it. */
  predicate IsWord(w: string) {
    w != [] && forall i :: 0 <= i < |w| ==> !IsSpace(w[i])
  }

  /** Length of the run of non-whitespace characters that starts `s`. */
  function WordLength(s: string): (n: nat)
    ensures n <= |s|
    ensures forall i :: 0 <= i < n ==> !IsSpace(s[i])
    ensures n < |s| ==> IsSpace(s[n])
  {
    if s == [] || IsSpace(s[0]) then 0 else 1 + WordLength(s[1..])
  }

  /** `s.split()`: the maximal runs of non-whitespace characters, in order. */
  function Split(s: string): (words: seq<string>)
    ensures forall w :: w in words ==> IsWord(w)
    decreases |s|
  {
    var t := TrimStart(s);
    if t == [] then []
    else
      TrimStartShape(s);
      var n := WordLength(t);
      [t[..n]] + Split(t[n..])
  }

  /** `s.split()` is empty exactly when `s` is blank. */
  lemma SplitEmptyIffBlank(s: string)
    ensures Split(s) == [] <==> IsBlank(s)
  {
    TrimStartShape(s);
  }

  /** `"".join(parts)` */
  function Concat(parts: seq<string>): string {
    if parts == [] then [] else parts[0] + Concat(parts[1..])
  }

  /** Concatenating the words of `s.split()` gives back every non-whitespace character of `s`. */
  lemma {:induction false} SplitKeepsNonSpace(s: string)
    ensures Concat(Split(s)) == NonSpace(s)
    decreases |s|
  {
    var t := TrimStart(s);
    TrimStartKeepsNonSpace(s);
    if t == [] {
    } else {
      var n := WordLength(t);
      var ws := Split(t[n..]);
      assert Split(s) == [t[..n]] + ws;
      assert ([t[..n]] + ws)[1..] == ws;
      WordThenRest(t, n);
      SplitKeepsNonSpace(t[n..]);
    }
  }

  lemma {:induction false} TrimStartKeepsNonSpace(s: string)
    ensures NonSpace(TrimStart(s)) == NonSpace(s)
  {
    var t := TrimStart(s);
    var a := s[..|s| - |t|];
    TrimStartShape(s);
    assert s == a + t + [];
    NonSpaceAround(a, t, []);
  }

  lemma {:induction false} WordThenRest(t: string, n: nat)
    requires n <= |t| && forall i :: 0 <= i < n ==> !IsSpace(t[i])
    ensures NonSpace(t) == t[..n] + NonSpace(t[n..])
  {
    assert t == t[..n] + t[n..];
    NonSpaceConcat(t[..n], t[n..]);
    NonSpaceOfWord(t[..n]);
  }

  /** A word on its own splits into itself. */
  lemma SplitWord(w: string)
    requires IsWord(w)
    ensures Split(w) == [w]
  {
    assert TrimStart(w) == w;
    assert WordLength(w) == |w|;
    assert w[..|w|] == w && w[|w|..] == [];
    assert Split([]) == [];
  }

  /**
   * A whitespace character separates words: what precedes it and what
   * follows it split on their own, so no word of `split()` spans whitespace
   * and every run of non-whitespace is one word.
   */
  lemma {:induction false} SplitAtSpace(a: string, c: char, b: string)
    requires IsSpace(c)
    ensures Split(a + [c] + b) == Split(a) + Split(b)
    decreases |a|
  {
    var u := [c] + b;
    AppendCons(a, c, b);
    var t := TrimStart(a);
    TrimStartShape(a);
    TrimStartBlankPrefix([c], b);
    if t == [] {
      TrimStartBlankPrefix(a, u);
      SplitSameStart(a + u, b);
      SplitSameStart(a, []);
      SplitEmpty();
    } else {
      var n := WordLength(t);
      if n < |t| {
        SplitAtSpace(t[n..], c, b);
        AppendCons(t[n..], c, b);
      }
      SplitAfterWord(a, u, b, t, n);
    }
  }

  /** `"a b".split()` is two words, not one: the space separates them. */
  lemma SplitExample()
    ensures Split("a b") == ["a", "b"]
  {
    SplitAtSpace("a", ' ', "b");
    assert "a" + [' '] + "b" == "a b";
    SplitWord("a");
    SplitWord("b");
  }

  /** The step of `SplitAtSpace` past the first word of `a`. */
  lemma SplitAfterWord(a: string, u: string, b: string, t: string, n: nat)
    requires u != [] && IsSpace(u[0]) && TrimStart(u) == TrimStart(b)
    requires TrimStart(a) == t != [] && WordLength(t) == n
    requires n < |t| ==> Split(t[n..] + u) == Split(t[n..]) + Split(b)
    ensures Split(a + u) == Split(a) + Split(b)
  {
    TrimStartKeepsRest(a, u);
    WordLengthStops(t, u);
    SplitFirstWord(a + u, t + u, n);
    SplitFirstWord(a, t, n);
    SliceOfAppend(t, u, n);
    var w, rest := t[..n], (t + u)[n..];
    assert Split(a + u) == [w] + Split(rest);
    if n == |t| {
      SplitSameStart(u, b);
      SplitEmpty();
      assert Split(rest) == Split(t[n..]) + Split(b);
    } else {
      assert Split(rest) == Split(t[n..]) + Split(b);
    }
    WordThenSplit(Split(a + u), Split(a), Split(b), w, Split(rest), Split(t[n..]));
  }

  lemma SplitEmpty()
    ensures Split([]) == []
  {
  }

  lemma SliceOfAppend(t: string, u: string, n: nat)
    requires n <= |t|
    ensures (t + u)[..n] == t[..n] && (t + u)[n..] == t[n..] + u
    ensures n == |t| ==> (t + u)[n..] == u && t[n..] == []
  {
  }

  lemma AppendCons(a: string, c: char, b: string)
    ensures a + [c] + b == a + ([c] + b)
  {
  }

  lemma WordThenSplit(whole: seq<string>, front: seq<string>, back: seq<string>, w: string, p: seq<string>, q: seq<string>)
    requires whole == [w] + p && front == [w] + q && p == q + back
    ensures whole == front + back
  {
  }

  /** One step of `split()`: the first word, then the rest. */
  lemma SplitFirstWord(s: string, t: string, n: nat)
    requires TrimStart(s) == t != [] && WordLength(t) == n
    ensures n <= |t| && Split(s) == [t[..n]] + Split(t[n..])
  {
  }

  /** `split()` looks only at what follows the leading whitespace. */
  lemma SplitSameStart(x: string, y: string)
    requires TrimStart(x) == TrimStart(y)
    ensures Split(x) == Split(y)
  {
  }

  lemma {:induction false} TrimStartBlankPrefix(x: string, y: string)
    requires IsBlank(x)
    ensures TrimStart(x + y) == TrimStart(y)
    decreases |x|
  {
    if x != [] {
      assert IsSpace(x[0]) && (x + y)[0] == x[0] && (x + y)[1..] == x[1..] + y;
      assert TrimStart(x + y) == TrimStart(x[1..] + y);
      assert IsBlank(x[1..]) by {
        forall i | 0 <= i < |x[1..]| ensures IsSpace(x[1..][i]) {
          assert x[1..][i] == x[i + 1];
        }
      }
      TrimStartBlankPrefix(x[1..], y);
    } else {
      assert x + y == y;
    }
  }

  lemma {:induction false} TrimStartKeepsRest(x: string, y: string)
    requires TrimStart(x) != []
    ensures TrimStart(x + y) == TrimStart(x) + y
    decreases |x|
  {
    if IsSpace(x[0]) {
      assert (x + y)[0] == x[0] && (x + y)[1..] == x[1..] + y;
      TrimStartKeepsRest(x[1..], y);
    }
  }

  lemma {:induction false} WordLengthStops(x: string, y: string)
    requires WordLength(x) < |x| || (y != [] && IsSpace(y[0]))
    ensures WordLength(x + y) == WordLength(x)
    decreases |x|
  {
    if x != [] && !IsSpace(x[0]) {
      assert (x + y)[0] == x[0] && (x + y)[1..] == x[1..] + y;
      WordLengthStops(x[1..], y);
    }
  }

  /** `sep.join(parts)` */
  function Join(parts: seq<string>, sep: string): (r: string)
    ensures parts == [] ==> r == []
    ensures |parts| == 1 ==> r == parts[0]
  {
    if parts == [] then []
    else if |parts| == 1 then parts[0]
    else parts[0] + sep + Join(parts[1..], sep)
  }

  /** Joining with single spaces adds only whitespace: the non-whitespace characters are those of the parts. */
  lemma {:induction false} JoinWithSpaceKeepsNonSpace(parts: seq<string>)
    ensures NonSpace(Join(parts, " ")) == NonSpace(Concat(parts))
  {
    if |parts| == 1 {
      assert Concat(parts) == parts[0] + Concat([]) == parts[0];
    } else if |parts| > 1 {
      var rest := Join(parts[1..], " ");
      NonSpaceConcat(parts[0] + " ", rest);
      NonSpaceConcat(parts[0], " ");
      NonSpaceOfBlank(" ");
      JoinWithSpaceKeepsNonSpace(parts[1..]);
      NonSpaceConcat(parts[0], Concat(parts[1..]));
    }
  }

  predicate IsDigit(c: char) {
    '0' <= c <= '9'
  }

  predicate AllDigits(s: string) {
    forall i :: 0 <= i < |s| ==> IsDigit(s[i])
  }

  function DigitChar(d: nat): (c: char)
    requires d < 10
    ensures IsDigit(c)
  {
    ('0' as int + d) as char
  }

  /** The number a string of decimal digits denotes (leading zeros allowed). */
  function DigitsValue(s: string): nat
    requires AllDigits(s)
  {
    if s == [] then 0 else DigitsValue(s[..|s| - 1]) * 10 + (s[|s| - 1] as int - '0' as int)
  }

  /** `str(n)` for a non-negative integer: decimal digits without leading zeros. */
  function NatToString(n: nat): (r: string)
    ensures r != [] && AllDigits(r)
    ensures r[0] == '0' ==> n == 0
    ensures n < 10 ==> |r| == 1
    ensures n < 100 ==> |r| <= 2
    ensures n < 1000 ==> |r| <= 3
  {
    if n < 10 then [DigitChar(n)] else NatToString(n / 10) + [DigitChar(n % 10)]
  }

  /** Reading back the digits of `str(n)` gives `n`. */
  lemma {:induction false} NatToStringRoundTrip(n: nat)
    ensures DigitsValue(NatToString(n)) == n
  {
    if n >= 10 {
      var r := NatToString(n);
      assert r[..|r| - 1] == NatToString(n / 10);
      NatToStringRoundTrip(n / 10);
    }
  }

  function Zeros(k: nat): (r: string)
    ensures |r| == k && forall i :: 0 <= i < k ==> r[i] == '0'
  {
    if k == 0 then [] else Zeros(k - 1) + ['0']
  }

  /** Left-pads `s` with `'0'` up to `width` characters; longer strings are kept whole. */
  function ZeroPad(s: string, width: nat): (r: string)
    ensures |r| == if |s| >= width then |s| else width
    ensures r[|r| - |s|..] == s
    ensures forall i :: 0 <= i < |r| - |s| ==> r[i] == '0'
  {
    if |s| >= width then s else Zeros(width - |s|) + s
  }

  lemma {:induction false} LeadingZerosValue(k: nat, s: string)
    requires AllDigits(s)
    ensures AllDigits(Zeros(k) + s) && DigitsValue(Zeros(k) + s) == DigitsValue(s)
    decreases |s|
  {
    var z := Zeros(k);
    if s == [] {
      assert z + s == z;
      LeadingZerosValue'(k);
    } else {
      assert (z + s)[..|z + s| - 1] == z + s[..|s| - 1];
      LeadingZerosValue(k, s[..|s| - 1]);
    }
  }

  lemma {:induction false} LeadingZerosValue'(k: nat)
    ensures AllDigits(Zeros(k)) && DigitsValue(Zeros(k)) == 0
  {
    if k > 0 {
      assert Zeros(k)[..k - 1] == Zeros(k - 1);
      LeadingZerosValue'(k - 1);
    }
  }

  /** `format(n, "0<width>d")`: the sign counts towards the width, as in Python. */
  function FormatInt(n: int, width: nat): (r: string)
    ensures |r| >= width
    ensures n >= 0 ==> AllDigits(r)
    ensures n < 0 ==> r != [] && r[0] == '-'
  {
    if n < 0 then "-" + ZeroPad(NatToString(-n), if width > 0 then width - 1 else 0)
    else ZeroPad(NatToString(n), width)
  }

  /** The padded digits of a non-negative number read back as that number. */
  lemma {:induction false} FormatIntRoundTrip(n: nat, width: nat)
    ensures DigitsValue(FormatInt(n, width)) == n
  {
    NatToStringRoundTrip(n);
    PaddedValue(NatToString(n), width);
  }

  /** Zero padding does not change the value of a digit string. */
  lemma PaddedValue(s: string, width: nat)
    requires AllDigits(s)
    ensures AllDigits(ZeroPad(s, width)) && DigitsValue(ZeroPad(s, width)) == DigitsValue(s)
  {
    if |s| < width {
      LeadingZerosValue(width - |s|, s);
    }
  }

  /** `str(n)` for any integer. */
  function IntToString(n: int): (r: string)
    ensures n >= 0 ==> r == NatToString(n)
    ensures n < 0 ==> r == "-" + NatToString(-n)
  {
    FormatInt(n, 0)
  }

  /** `a < b` on Python strings: code-point lexicographic order, a proper prefix first. */
  predicate LexLess(a: string, b: string) {
    if a == [] then b != []
    else b != [] && (if a[0] == b[0] then LexLess(a[1..], b[1..]) else a[0] < b[0])
  }

  lemma {:induction false} LexLessIrreflexive(a: string)
    ensures !LexLess(a, a)
  {
    if a != [] {
      LexLessIrreflexive(a[1..]);
    }
  }

  lemma {:induction false} LexLessTransitive(a: string, b: string, c: string)
    requires LexLess(a, b) && LexLess(b, c)
    ensures LexLess(a, c)
  {
    if a != [] && a[0] == b[0] && b[0] == c[0] {
      LexLessTransitive(a[1..], b[1..], c[1..]);
    }
  }

  lemma {:induction false} LexLessTotal(a: string, b: string)
    requires a != b
    ensures LexLess(a, b) || LexLess(b, a)
  {
    if a != [] && b != [] && a[0] == b[0] {
      assert a == [a[0]] + a[1..] && b == [b[0]] + b[1..];
      LexLessTotal(a[1..], b[1..]);
    }
  }

  lemma {:induction false} LexLessAsymmetric(a: string, b: string)
    requires LexLess(a, b)
    ensures !LexLess(b, a)
  {
    if LexLess(b, a) {
      LexLessTransitive(a, b, a);
      LexLessIrreflexive(a);
    }
  }

  predicate StrictlySorted(xs: seq<string>) {
    forall i, j :: 0 <= i < j < |xs| ==> LexLess(xs[i], xs[j])
  }

  /** Inserts `x` into an ascending list, keeping one copy of it. */
  function InsertSorted(xs: seq<string>, x: string): seq<string> {
    if xs == [] then [x]
    else if x == xs[0] then xs
    else if LexLess(x, xs[0]) then [x] + xs
    else [xs[0]] + InsertSorted(xs[1..], x)
  }

  lemma {:induction false} InsertSortedCorrect(xs: seq<string>, x: string)
    requires StrictlySorted(xs)
    ensures StrictlySorted(InsertSorted(xs, x))
    ensures forall y :: y in InsertSorted(xs, x) <==> y in xs || y == x
  {
    if xs == [] {
    } else if x == xs[0] {
    } else if LexLess(x, xs[0]) {
      var r := [x] + xs;
      forall i, j | 0 <= i < j < |r| ensures LexLess(r[i], r[j]) {
        if i == 0 && j > 1 {
          LexLessTransitive(x, xs[0], xs[j - 1]);
        }
      }
    } else {
      LexLessTotal(x, xs[0]);
      var rest := InsertSorted(xs[1..], x);
      InsertSortedCorrect(xs[1..], x);
      var r := [xs[0]] + rest;
      forall i, j | 0 <= i < j < |r| ensures LexLess(r[i], r[j]) {
        if i == 0 {
          assert r[j] in rest;
          assert r[j] == x || r[j] in xs[1..];
        }
      }
      assert xs == [xs[0]] + xs[1..];
    }
  }

  /** `sorted(set(xs))` */
  function SortedDistinct(xs: seq<string>): seq<string> {
    if xs == [] then [] else InsertSorted(SortedDistinct(xs[..|xs| - 1]), xs[|xs| - 1])
  }

  /** `sorted(set(xs))` is strictly ascending and holds exactly the elements of `xs`. */
  lemma {:induction false} SortedDistinctCorrect(xs: seq<string>)
    ensures StrictlySorted(SortedDistinct(xs))
    ensures forall y :: y in SortedDistinct(xs) <==> y in xs
  {
    if xs != [] {
      var init := xs[..|xs| - 1];
      SortedDistinctCorrect(init);
      InsertSortedCorrect(SortedDistinct(init), xs[|xs| - 1]);
      assert xs == init + [xs[|xs| - 1]];
    }
  }

  /** `s.endswith(suffix)` */
  predicate EndsWith(s: string, suffix: string) {
    |suffix| <= |s| && s[|s| - |suffix|..] == suffix
  }

  predicate OccursAt(s: string, pat: string, i: int) {
    0 <= i && i + |pat| <= |s| && s[i..i + |pat|] == pat
  }

  ghost predicate Occurs(s: string, pat: string) {
    exists i :: 0 <= i <= |s| && OccursAt(s, pat, i)
  }

  /** `s.replace(pat, "")`: scanning left to right, every non-overlapping occurrence is dropped. */
  function RemoveAll(s: string, pat: string): (r: string)
    requires pat != []
    ensures |r| <= |s|
    decreases |s|
  {
    if |s| < |pat| then s
    else if s[..|pat|] == pat then RemoveAll(s[|pat|..], pat)
    else [s[0]] + RemoveAll(s[1..], pat)
  }

  /** Without an occurrence of the pattern, `replace` leaves the string as it is. */
  lemma {:induction false} RemoveAllAbsent(s: string, pat: string)
    requires pat != [] && !Occurs(s, pat)
    ensures RemoveAll(s, pat) == s
    decreases |s|
  {
    if |s| >= |pat| {
      assert !OccursAt(s, pat, 0);
      AbsentFromTail(s, pat);
      RemoveAllAbsent(s[1..], pat);
    }
  }

  /** A pattern absent from a string is absent from its tail. */
  lemma AbsentFromTail(s: string, pat: string)
    requires s != [] && !Occurs(s, pat)
    ensures !Occurs(s[1..], pat)
  {
    forall i | 0 <= i <= |s[1..]| ensures !OccursAt(s[1..], pat, i) {
      assert !OccursAt(s, pat, i + 1);
      if i + |pat| <= |s[1..]| {
        assert s[1..][i..i + |pat|] == s[i + 1..i + 1 + |pat|];
      }
    }
  }
}
