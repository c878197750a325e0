/** The JavaScript string built-ins the site relies on: `trim`, the regular
    expression class `\s`, `startsWith`, `padStart`, number-to-string
    conversion of integers and (ASCII) case mapping. */
module Text {

  /** The code points that `String.prototype.trim` strips and that `\s`
      matches: ECMAScript's WhiteSpace and LineTerminator characters. */
  predicate IsWhitespace(c: char) {
    || c == '\t' || c == '\n' || c == '\U{0B}' || c == '\U{0C}' || c == '\r' || c == ' '
    || c == '\U{A0}' || c == '\U{1680}' || ('\U{2000}' <= c <= '\U{200A}')
    || c == '\U{2028}' || c == '\U{2029}' || c == '\U{202F}' || c == '\U{205F}'
    || c == '\U{3000}' || c == '\U{FEFF}'
  }

  predicate AllWhitespace(s: string) {
    forall i :: 0 <= i < |s| ==> IsWhitespace(s[i])
  }

  /** `s` holds no whitespace at all. */
  predicate NoWhitespace(s: string) {
    forall i :: 0 <= i < |s| ==> !IsWhitespace(s[i])
  }

  /** `s` neither starts nor ends with whitespace. */
  predicate Unpadded(s: string) {
    s == [] || (!IsWhitespace(s[0]) && !IsWhitespace(s[|s| - 1]))
  }

  /** The first position at or after `i` that does not hold whitespace. */
  function SkipFrom(s: string, i: nat): (k: nat)
    requires i <= |s|
    ensures i <= k <= |s|
    ensures forall j :: i <= j < k ==> IsWhitespace(s[j])
    ensures k < |s| ==> !IsWhitespace(s[k])
    decreases |s| - i
  {
    if i < |s| && IsWhitespace(s[i]) then SkipFrom(s, i + 1) else i
  }

  /** The position just past the last character before `j`, and not before
      `lo`, that does not hold whitespace. */
  function BackFrom(s: string, lo: nat, j: nat): (k: nat)
    requires lo <= j <= |s|
    ensures lo <= k <= j
    ensures forall i :: k <= i < j ==> IsWhitespace(s[i])
    ensures k > lo ==> !IsWhitespace(s[k - 1])
    decreases j
  {
    if j > lo && IsWhitespace(s[j - 1]) then BackFrom(s, lo, j - 1) else j
  }

  /** How many characters `trim` removes from the front of `s`. */
  function TrimOffset(s: string): (k: nat)
    ensures k <= |s|
  {
    SkipFrom(s, 0)
  }

  /** `s.trimStart()`: `s` without its leading whitespace. */
  function TrimStart(s: string): (r: string)
    ensures |r| <= |s| && r == s[|s| - |r|..]
    ensures AllWhitespace(s[..|s| - |r|])
    ensures r == [] || !IsWhitespace(r[0])
    ensures s != [] && IsWhitespace(s[0]) ==> |r| < |s|
  {
    s[SkipFrom(s, 0)..]
  }

  /** `s.trim()`: `s` without its leading and trailing whitespace. */
  function Trim(s: string): (r: string)
    ensures TrimOffset(s) + |r| <= |s| && r == s[TrimOffset(s)..TrimOffset(s) + |r|]
    ensures AllWhitespace(s[..TrimOffset(s)]) && AllWhitespace(s[TrimOffset(s) + |r|..])
    ensures Unpadded(r)
  {
    var k := SkipFrom(s, 0);
    s[k..BackFrom(s, k, |s|)]
  }

  /** `trim` is the only way to cut `s` into whitespace, an unpadded middle,
      and whitespace. */
  lemma TrimUnique(s: string, lo: nat, hi: nat)
    requires lo <= hi <= |s|
    requires AllWhitespace(s[..lo]) && AllWhitespace(s[hi..]) && Unpadded(s[lo..hi])
    ensures Trim(s) == s[lo..hi]
  {
    var k := SkipFrom(s, 0);
    assert forall j :: 0 <= j < lo ==> IsWhitespace(s[j]) by {
      forall j | 0 <= j < lo ensures IsWhitespace(s[j]) { assert s[..lo][j] == s[j]; }
    }
    assert forall j :: hi <= j < |s| ==> IsWhitespace(s[j]) by {
      forall j | hi <= j < |s| ensures IsWhitespace(s[j]) { assert s[hi..][j - hi] == s[j]; }
    }
    if lo < hi {
      assert s[lo..hi][0] == s[lo] && s[lo..hi][hi - lo - 1] == s[hi - 1];
      assert k == lo;
      assert BackFrom(s, k, |s|) == hi;
    } else {
      assert k == |s|;
    }
  }

  /** A string that neither starts nor ends with whitespace is its own trim. */
  lemma TrimUnpadded(s: string)
    requires Unpadded(s)
    ensures Trim(s) == s
  {
    TrimUnique(s, 0, |s|);
    assert s[0..|s|] == s;
  }

  /** A string is blank (`!s.trim()` holds) exactly when it is all whitespace. */
  lemma BlankIffAllWhitespace(s: string)
    ensures Trim(s) == [] <==> AllWhitespace(s)
  {
    var k := TrimOffset(s);
    var r := Trim(s);
    if r == [] {
      assert k == |s|;
      forall j | 0 <= j < |s|
        ensures IsWhitespace(s[j])
      {
        assert s[..k][j] == s[j];
      }
    }
    if AllWhitespace(s) {
      TrimUnique(s, |s|, |s|);
    }
  }

  /** Trimming twice is trimming once. */
  lemma TrimIdempotent(s: string)
    ensures Trim(Trim(s)) == Trim(s)
  {
    TrimUnpadded(Trim(s));
  }

  /** Leading and trailing whitespace are irrelevant to `trim`. */
  lemma TrimIgnoresPadding(a: string, s: string, b: string)
    requires AllWhitespace(a) && AllWhitespace(b)
    ensures Trim(a + s + b) == Trim(s)
  {
    var u := a + s + b;
    var k := TrimOffset(s);
    var r := Trim(s);
    var lo, hi := |a| + k, |a| + k + |r|;
    assert u[..lo] == a + s[..k];
    assert u[hi..] == s[k + |r|..] + b;
    assert u[lo..hi] == s[k..k + |r|];
    WhitespaceJoin(a, s[..k]);
    WhitespaceJoin(s[k + |r|..], b);
    TrimUnique(u, lo, hi);
  }

  lemma WhitespaceJoin(a: string, b: string)
    requires AllWhitespace(a) && AllWhitespace(b)
    ensures AllWhitespace(a + b)
  {
    assert forall i :: |a| <= i < |a + b| ==> (a + b)[i] == b[i - |a|];
  }

  /** `s.startsWith(prefix)`. */
  predicate StartsWith(s: string, prefix: string) {
    |prefix| <= |s| && s[..|prefix|] == prefix
  }

  /** `s.padStart(width, fill)` with a one-character fill. */
  function PadStart(s: string, width: nat, fill: char): (r: string)
    ensures |r| == if |s| < width then width else |s|
    ensures r[|r| - |s|..] == s
    ensures forall i :: 0 <= i < |r| - |s| ==> r[i] == fill
  {
    if |s| < width then seq(width - |s|, _ => fill) + s else s
  }

  predicate IsDigit(c: char) {
    '0' <= c <= '9'
  }

  predicate AllDigits(s: string) {
    forall i :: 0 <= i < |s| ==> IsDigit(s[i])
  }

  function DigitChar(d: int): (c: char)
    requires 0 <= d < 10
    ensures IsDigit(c) && c as int - '0' as int == d
  {
    ('0' as int + d) as char
  }

  /** The number a run of decimal digits denotes (leading zeros allowed). */
  function DigitsValue(s: string): nat
    requires AllDigits(s)
  {
    if s == [] then 0 else DigitsValue(s[..|s| - 1]) * 10 + (s[|s| - 1] as int - '0' as int)
  }

  /** `String(n)` for a non-negative integer: its shortest decimal spelling. */
  function NatToString(n: nat): (r: string)
    ensures |r| >= 1 && AllDigits(r)
    ensures DigitsValue(r) == n
    ensures n < 10 <==> |r| == 1
    ensures 10 <= n < 100 <==> |r| == 2
    ensures 1000 <= n < 10000 ==> |r| == 4
    ensures |r| > 1 ==> r[0] != '0'
  {
    if n < 10 then [DigitChar(n)]
    else
      var r := NatToString(n / 10) + [DigitChar(n % 10)];
      assert r[..|r| - 1] == NatToString(n / 10);
      r
  }

  /** `String(i)` for an integer of either sign. */
  function IntToString(i: int): (r: string)
    ensures i >= 0 ==> r == NatToString(i)
    ensures i < 0 ==> r == "-" + NatToString(-i)
  {
    if i < 0 then "-" + NatToString(-i) else NatToString(i)
  }

  /** Leading zeros do not change the value of a digit string. */
  lemma {:induction false} LeadingZero(s: string)
    requires AllDigits(s)
    ensures AllDigits("0" + s) && DigitsValue("0" + s) == DigitsValue(s)
    decreases |s|
  {
    if s != [] {
      assert ("0" + s)[..|"0" + s| - 1] == "0" + s[..|s| - 1];
      LeadingZero(s[..|s| - 1]);
    }
  }

  /** Different numbers have different spellings. */
  lemma NatToStringInjective(m: nat, n: nat)
    requires NatToString(m) == NatToString(n)
    ensures m == n
  {
  }

  function LowerChar(c: char): (d: char)
    ensures 'A' <= c <= 'Z' ==> d as int == c as int + 32
    ensures !('A' <= c <= 'Z') ==> d == c
  {
    if 'A' <= c <= 'Z' then (c as int + 32) as char else c
  }

  function UpperChar(c: char): (d: char)
    ensures 'a' <= c <= 'z' ==> d as int == c as int - 32
    ensures !('a' <= c <= 'z') ==> d == c
  {
    if 'a' <= c <= 'z' then (c as int - 32) as char else c
  }

  /** `s.toLowerCase()` on ASCII letters. */
  function ToLower(s: string): (r: string)
    ensures |r| == |s| && forall i :: 0 <= i < |s| ==> r[i] == LowerChar(s[i])
  {
    seq(|s|, i requires 0 <= i < |s| => LowerChar(s[i]))
  }

  /** `s.replace(/\s+/g, dash)`: every maximal run of whitespace becomes `dash`. */
  function ReplaceWhitespaceRuns(s: string, dash: string): (r: string)
    ensures NoWhitespace(dash) ==> NoWhitespace(r)
    ensures NoWhitespace(s) ==> r == s
    decreases |s|
  {
    if s == [] then []
    else if IsWhitespace(s[0]) then dash + ReplaceWhitespaceRuns(TrimStart(s), dash)
    else [s[0]] + ReplaceWhitespaceRuns(s[1..], dash)
  }

  /** Skipping whitespace in `w + y` from inside `w` stops exactly where `y`
      begins, when `w` is all whitespace and `y` does not start with any. */
  lemma {:induction false} SkipRun(w: string, y: string, i: nat)
    requires AllWhitespace(w) && (y == [] || !IsWhitespace(y[0]))
    requires i <= |w|
    ensures SkipFrom(w + y, i) == |w|
    decreases |w| - i
  {
    if i < |w| {
      assert (w + y)[i] == w[i];
      SkipRun(w, y, i + 1);
    } else if y != [] {
      assert (w + y)[i] == y[0];
    }
  }

  /** A run of whitespace at the front becomes one `dash`. */
  lemma ReplaceRunAtFront(w: string, y: string, dash: string)
    requires w != [] && AllWhitespace(w) && (y == [] || !IsWhitespace(y[0]))
    ensures ReplaceWhitespaceRuns(w + y, dash) == dash + ReplaceWhitespaceRuns(y, dash)
  {
    assert (w + y)[0] == w[0];
    SkipRun(w, y, 0);
    assert TrimStart(w + y) == y;
  }

  /** A character that is not whitespace is kept. */
  lemma ReplaceKeepsWord(c: char, t: string, dash: string)
    requires !IsWhitespace(c)
    ensures ReplaceWhitespaceRuns([c] + t, dash) == [c] + ReplaceWhitespaceRuns(t, dash)
  {
    assert ([c] + t)[1..] == t;
  }

  lemma PrependFirst(x: string, t: string)
    requires x != []
    ensures [x[0]] + (x[1..] + t) == x + t
  {
    assert [x[0]] + x[1..] == x;
  }

  /** A stretch without whitespace is copied unchanged. */
  lemma {:induction false} ReplaceKeepsWords(x: string, t: string, dash: string)
    requires NoWhitespace(x)
    ensures ReplaceWhitespaceRuns(x + t, dash) == x + ReplaceWhitespaceRuns(t, dash)
    decreases |x|
  {
    if x == [] {
      assert x + t == t;
    } else {
      PrependFirst(x, t);
      ReplaceKeepsWord(x[0], x[1..] + t, dash);
      ReplaceKeepsWords(x[1..], t, dash);
      PrependFirst(x, ReplaceWhitespaceRuns(t, dash));
    }
  }

  /** Each maximal run of whitespace becomes exactly one `dash`: a word,
      then a run, then a rest that does not start with whitespace. */
  lemma ReplaceRun(x: string, w: string, y: string, dash: string)
    requires NoWhitespace(x)
    requires w != [] && AllWhitespace(w) && (y == [] || !IsWhitespace(y[0]))
    ensures ReplaceWhitespaceRuns(x + w + y, dash) == x + dash + ReplaceWhitespaceRuns(y, dash)
  {
    assert x + w + y == x + (w + y);
    ReplaceKeepsWords(x, w + y, dash);
    ReplaceRunAtFront(w, y, dash);
  }
}
