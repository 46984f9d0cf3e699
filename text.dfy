/** Characters and strings as the renamer's Python code sees them: the character classes
    that `re` uses (`\s`, `\d`, `\w`, `\b`), ASCII case folding, and the few `str` methods
    the renamer calls (`int()`, `str()`, `zfill`, `strip`). */
module Text {

  /** Python's `str.isspace()`; `\s` in a `str` pattern and `str.strip()` use the same set. */
  predicate IsSpace(c: char) {
    c == ' ' || ('\t' <= c <= '\r') || ('\U{1C}' <= c <= '\U{1F}') || c == '\U{85}' || c == '\U{A0}'
    || c == '\U{1680}' || ('\U{2000}' <= c <= '\U{200A}') || c == '\U{2028}' || c == '\U{2029}'
    || c == '\U{202F}' || c == '\U{205F}' || c == '\U{3000}'
  }

  /** `\d` (ASCII digits only in this model). */
  predicate IsDigit(c: char) { '0' <= c <= '9' }

  predicate IsNotDigit(c: char) { !IsDigit(c) }

  predicate IsAsciiLetter(c: char) { 'a' <= c <= 'z' || 'A' <= c <= 'Z' }

  /** `\w` (ASCII letters, digits and underscore in this model). */
  predicate IsWordChar(c: char) { IsAsciiLetter(c) || IsDigit(c) || c == '_' }

  /** `\b` at position `i` of `s`: a word character on exactly one side. */
  predicate AtWordBoundary(s: string, i: nat) {
    (0 < i <= |s| && IsWordChar(s[i - 1])) != (i < |s| && IsWordChar(s[i]))
  }

  function Lower(c: char): char {
    if 'A' <= c <= 'Z' then (c as int + 32) as char else c
  }

  function Upper(c: char): char {
    if 'a' <= c <= 'z' then (c as int - 32) as char else c
  }

  function LowerStr(s: string): (r: string)
    ensures |r| == |s| && forall i :: 0 <= i < |s| ==> r[i] == Lower(s[i])
  {
    seq(|s|, i requires 0 <= i < |s| => Lower(s[i]))
  }

  function UpperStr(s: string): (r: string)
    ensures |r| == |s| && forall i :: 0 <= i < |s| ==> r[i] == Upper(s[i])
  {
    seq(|s|, i requires 0 <= i < |s| => Upper(s[i]))
  }

  predicate NoLowercase(s: string) {
    forall i :: 0 <= i < |s| ==> !('a' <= s[i] <= 'z')
  }

  predicate NoUppercase(s: string) {
    forall i :: 0 <= i < |s| ==> !('A' <= s[i] <= 'Z')
  }

  lemma UpperStrNoLowercase(s: string)
    ensures NoLowercase(UpperStr(s))
  {
  }

  /** `lit` occurs in `s` at index `k`, case-sensitively. */
  predicate OccursAt(s: string, k: nat, lit: string) {
    k + |lit| <= |s| && s[k..k + |lit|] == lit
  }

  /** `lit` occurs in `s` at index `k` under ASCII case folding (`re.IGNORECASE`). */
  predicate OccursAtCI(s: string, k: nat, lit: string) {
    k + |lit| <= |s| && forall j :: 0 <= j < |lit| ==> Lower(s[k + j]) == Lower(lit[j])
  }

  /** Python's `lit in s`. */
  predicate Contains(s: string, lit: string) {
    exists k :: 0 <= k <= |s| - |lit| && OccursAt(s, k, lit)
  }

  /** A case-insensitive `lit in s`. */
  predicate ContainsCI(s: string, lit: string) {
    exists k :: 0 <= k <= |s| - |lit| && OccursAtCI(s, k, lit)
  }

  predicate HasDigit(s: string) {
    exists k :: 0 <= k < |s| && IsDigit(s[k])
  }

  predicate AllDigits(s: string) {
    forall k :: 0 <= k < |s| ==> IsDigit(s[k])
  }

  /** End of the longest run of characters satisfying `p` that starts at `i` (a greedy `p*`). */
  function RunEnd(s: string, i: nat, p: char -> bool): (e: nat)
    requires i <= |s|
    ensures i <= e <= |s|
    ensures forall j :: i <= j < e ==> p(s[j])
    ensures e == |s| || !p(s[e])
    decreases |s| - i
  {
    if i < |s| && p(s[i]) then RunEnd(s, i + 1, p) else i
  }

  /** The maximal run is unique: any run that stops where `p` fails is the one `RunEnd` finds. */
  lemma RunEndIs(s: string, i: nat, p: char -> bool, e: nat)
    requires i <= e <= |s|
    requires forall j :: i <= j < e ==> p(s[j])
    requires e == |s| || !p(s[e])
    ensures RunEnd(s, i, p) == e
  {
  }

  function DigitValue(c: char): nat
    requires IsDigit(c)
  {
    c as int - '0' as int
  }

  function DigitChar(d: nat): (c: char)
    requires d < 10
    ensures IsDigit(c) && DigitValue(c) == d
  {
    ('0' as int + d) as char
  }

  /** Python's `int(d)` for a string of ASCII digits (leading zeros allowed). */
  function DecimalValue(d: string): nat
    requires AllDigits(d)
  {
    if |d| == 0 then 0 else DecimalValue(d[..|d| - 1]) * 10 + DigitValue(d[|d| - 1])
  }

  /** Python's `str(n)` for a natural number: shortest decimal digits, read back by `int()`. */
  function NatToString(n: nat): (r: string)
    ensures 1 <= |r| && AllDigits(r) && DecimalValue(r) == n
    ensures r[0] == '0' ==> n == 0
    decreases n
  {
    if n < 10 then [DigitChar(n)]
    else
      var r := NatToString(n / 10) + [DigitChar(n % 10)];
      assert r[..|r| - 1] == NatToString(n / 10);
      r
  }

  lemma {:induction false} LeadingZero(d: string)
    requires AllDigits(d)
    ensures AllDigits("0" + d) && DecimalValue("0" + d) == DecimalValue(d)
    decreases |d|
  {
    if |d| > 0 {
      var z := "0" + d;
      assert z[..|z| - 1] == "0" + d[..|d| - 1];
      LeadingZero(d[..|d| - 1]);
    }
  }

  /** Python's `str(n).zfill(2)`: at least two digits, padded on the left with '0', and the
      same number once read back. */
  function ZeroPad2(n: nat): (r: string)
    ensures |r| >= 2 && AllDigits(r) && DecimalValue(r) == n
    ensures |r| == if n < 10 then 2 else |NatToString(n)|
  {
    var s := NatToString(n);
    if |s| < 2 then (LeadingZero(s); "0" + s) else s
  }

  /** Index of the first non-whitespace character at or after `i`. */
  function StripStart(s: string): (a: nat)
    ensures a <= |s| && (forall j :: 0 <= j < a ==> IsSpace(s[j])) && (a == |s| || !IsSpace(s[a]))
  {
    RunEnd(s, 0, IsSpace)
  }

  /** One past the last non-whitespace character of `s`, but not below `lo`. */
  function StripEnd(s: string, lo: nat): (b: nat)
    requires lo <= |s|
    ensures lo <= b <= |s| && (forall j :: b <= j < |s| ==> IsSpace(s[j]))
    ensures b == lo || !IsSpace(s[b - 1])
    decreases |s|
  {
    if lo < |s| && IsSpace(s[|s| - 1]) then StripEnd(s[..|s| - 1], lo) else |s|
  }

  /** Python's `s.strip()`: the slice of `s` between its leading and trailing whitespace. */
  function Strip(s: string): (r: string)
    ensures r == s[StripStart(s)..StripEnd(s, StripStart(s))]
    ensures |r| == 0 || (!IsSpace(r[0]) && !IsSpace(r[|r| - 1]))
  {
    var a := StripStart(s);
    s[a..StripEnd(s, a)]
  }

  /** Python's `sep.join(parts)`. */
  function Join(sep: string, parts: seq<string>): string
    decreases |parts|
  {
    if |parts| == 0 then "" else if |parts| == 1 then parts[0] else parts[0] + sep + Join(sep, parts[1..])
  }
  lemma LowerStrConcat(a: string, b: string)
    ensures LowerStr(a + b) == LowerStr(a) + LowerStr(b)
  {
  }

  /** No letter occurs in `s`. */
  predicate NoLetters(s: string) {
    forall j :: 0 <= j < |s| ==> !IsAsciiLetter(s[j])
  }

  /** `u` is `w` up to letter case. */
  predicate SameLetters(u: string, w: string) {
    |u| == |w| && forall j :: 0 <= j < |w| ==> Lower(u[j]) == Lower(w[j])
  }

  /** An occurrence that lies within the left part of a concatenation is one in that part. */
  lemma OccursInLeft(x: string, y: string, k: nat, w: string)
    requires OccursAtCI(x + y, k, w) && k + |w| <= |x|
    ensures OccursAtCI(x, k, w)
  {
    forall j | 0 <= j < |w|
      ensures Lower(x[k + j]) == Lower(w[j])
    {
      assert (x + y)[k + j] == x[k + j];
    }
  }

  /** An occurrence that lies within the right part of a concatenation is one in that part. */
  lemma OccursInRight(x: string, y: string, k: nat, w: string)
    requires OccursAtCI(x + y, k, w) && |x| <= k
    ensures OccursAtCI(y, k - |x|, w)
  {
    forall j | 0 <= j < |w|
      ensures Lower(y[k - |x| + j]) == Lower(w[j])
    {
      assert (x + y)[k + j] == y[k - |x| + j];
    }
  }

  /** What occurs in a part occurs in the whole. */
  lemma ContainsCIInfix(x: string, y: string, z: string, w: string)
    ensures ContainsCI(y, w) ==> ContainsCI(x + y + z, w)
  {
    if ContainsCI(y, w) {
      var k :| 0 <= k <= |y| - |w| && OccursAtCI(y, k, w);
      var t := x + y + z;
      forall j | 0 <= j < |w|
        ensures Lower(t[|x| + k + j]) == Lower(w[j])
      {
        assert t[|x| + k + j] == y[k + j];
      }
      assert OccursAtCI(t, |x| + k, w);
    }
  }

  /** Each character of an occurrence matches the literal, up to letter case. */
  lemma CharOfOccurrence(t: string, k: nat, w: string, p: nat)
    ensures OccursAtCI(t, k, w) && k <= p < k + |w| ==> Lower(t[p]) == Lower(w[p - k])
  {
    if OccursAtCI(t, k, w) && k <= p < k + |w| {
      assert Lower(t[k + (p - k)]) == Lower(w[p - k]);
    }
  }

  /** The characters of the middle part of a concatenation. */
  lemma CharOfMiddle(x: string, mid: string, y: string, p: nat)
    ensures |x| <= p < |x| + |mid| ==> (x + mid + y)[p] == mid[p - |x|]
  {
  }

  /** A word made of letters cannot overlap a part without letters: it lies wholly before or
      wholly after it. */
  lemma LetterWordAround(x: string, mid: string, y: string, w: string, k: nat)
    requires |w| > 0 && forall j :: 0 <= j < |w| ==> IsAsciiLetter(w[j])
    requires |mid| > 0 && NoLetters(mid)
    requires OccursAtCI(x + mid + y, k, w)
    ensures k + |w| <= |x| || |x| + |mid| <= k
  {
    var p := if k < |x| then |x| else k;
    CharOfOccurrence(x + mid + y, k, w, p);
    CharOfMiddle(x, mid, y, p);
  }

  /** So an occurrence of such a word in `x + mid + y` is one in `x` or one in `y`. */
  lemma LetterWordInParts(x: string, mid: string, y: string, w: string, k: nat)
    requires |w| > 0 && forall j :: 0 <= j < |w| ==> IsAsciiLetter(w[j])
    requires |mid| > 0 && NoLetters(mid)
    ensures OccursAtCI(x + mid + y, k, w) ==>
              OccursAtCI(x, k, w) || (|x| + |mid| <= k && OccursAtCI(y, k - |x| - |mid|, w))
  {
    if OccursAtCI(x + mid + y, k, w) {
      LetterWordAround(x, mid, y, w, k);
      if k + |w| <= |x| {
        assert x + mid + y == x + (mid + y);
        OccursInLeft(x, mid + y, k, w);
      } else {
        OccursInRight(x + mid, y, k, w);
      }
    }
  }

  /** A literal that has '[' only at its start, found in `x + mid + y` where `mid` also has
      '[' only at its start, lies in `x`, starts where `mid` starts, or lies in `y`. */
  lemma BracketedLiteralAround(x: string, mid: string, y: string, lit: string, k: nat)
    requires |lit| > 0 && lit[0] == '[' && forall j :: 1 <= j < |lit| ==> Lower(lit[j]) != '['
    requires |mid| > 0 && mid[0] == '[' && forall j :: 1 <= j < |mid| ==> mid[j] != '['
    ensures OccursAtCI(x + mid + y, k, lit) ==>
              OccursAtCI(x, k, lit) || k == |x| || (|x| + |mid| <= k && OccursAtCI(y, k - |x| - |mid|, lit))
  {
    var t := x + mid + y;
    if OccursAtCI(t, k, lit) {
      CharOfOccurrence(t, k, lit, k);
      CharOfOccurrence(t, k, lit, |x|);
      CharOfMiddle(x, mid, y, k);
      CharOfMiddle(x, mid, y, |x|);
      if k + |lit| <= |x| {
        assert t == x + (mid + y);
        OccursInLeft(x, mid + y, k, lit);
      } else if |x| + |mid| <= k {
        OccursInRight(x + mid, y, k, lit);
      }
    }
  }

  lemma OccursAtIsCI(s: string, k: nat, lit: string)
    ensures OccursAt(s, k, lit) ==> OccursAtCI(s, k, lit)
  {
    if OccursAt(s, k, lit) {
      forall j | 0 <= j < |lit|
        ensures Lower(s[k + j]) == Lower(lit[j])
      {
        assert s[k..k + |lit|][j] == s[k + j];
      }
    }
  }

  /** An occurrence of a literal is one of each of its prefixes. */
  lemma OccursAtCIPrefix(s: string, k: nat, lit: string, n: nat)
    requires n <= |lit|
    ensures OccursAtCI(s, k, lit) ==> OccursAtCI(s, k, lit[..n])
  {
  }
}
