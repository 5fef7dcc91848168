/** Character classes and string helpers shared by the string analyzer and the
    natural-language query interpreter of app/utils.py. */
module Text {

  /** Whitespace as CPython sees it (Py_UNICODE_ISSPACE): the set used by
      str.strip(), by `\s` and, negated, by `\S` in str patterns. */
  predicate IsSpace(c: char) {
    || '\t' <= c <= '\r'
    || '\U{1C}' <= c <= '\U{1F}'
    || c == ' '
    || c == '\U{85}' || c == '\U{A0}' || c == '\U{1680}'
    || '\U{2000}' <= c <= '\U{200A}'
    || c == '\U{2028}' || c == '\U{2029}' || c == '\U{202F}' || c == '\U{205F}'
    || c == '\U{3000}'
  }

  /** `\d`, restricted to the ASCII digits. */
  predicate IsDigit(c: char) {
    '0' <= c <= '9'
  }

  predicate IsUpper(c: char) {
    'A' <= c <= 'Z'
  }

  /** The character class `[a-zA-Z0-9]`. */
  predicate IsAlnum(c: char) {
    'a' <= c <= 'z' || IsUpper(c) || IsDigit(c)
  }

  /** str.lower() on one character, for the ASCII letters. */
  function LowerChar(c: char): (d: char)
    ensures IsUpper(c) ==> d as int == c as int + 32
    ensures !IsUpper(c) ==> d == c
    ensures !IsUpper(d)
  {
    if IsUpper(c) then (c as int + 32) as char else c
  }

  /** str.lower() */
  function Lower(s: string): string {
    seq(|s|, i requires 0 <= i < |s| => LowerChar(s[i]))
  }

  lemma LowerAt(s: string)
    ensures |Lower(s)| == |s| && forall i :: 0 <= i < |s| ==> Lower(s)[i] == LowerChar(s[i])
  {
  }

  /** The slice s[::-1]. */
  function Reverse<T>(s: seq<T>): seq<T> {
    seq(|s|, i requires 0 <= i < |s| => s[|s| - 1 - i])
  }

  lemma ReverseAt<T>(s: seq<T>)
    ensures |Reverse(s)| == |s| && forall i :: 0 <= i < |s| ==> Reverse(s)[i] == s[|s| - 1 - i]
  {
  }

  /** Length of the longest run of whitespace starting at index i. */
  function SpaceRun(s: string, i: nat): (n: nat)
    requires i <= |s|
    ensures i + n <= |s|
    ensures forall k :: i <= k < i + n ==> IsSpace(s[k])
    ensures i + n == |s| || !IsSpace(s[i + n])
    decreases |s| - i
  {
    if i < |s| && IsSpace(s[i]) then 1 + SpaceRun(s, i + 1) else 0
  }

  /** Length of the longest run of non-whitespace starting at index i. */
  function NonSpaceRun(s: string, i: nat): (n: nat)
    requires i <= |s|
    ensures i + n <= |s|
    ensures forall k :: i <= k < i + n ==> !IsSpace(s[k])
    ensures i + n == |s| || IsSpace(s[i + n])
    decreases |s| - i
  {
    if i < |s| && !IsSpace(s[i]) then 1 + NonSpaceRun(s, i + 1) else 0
  }

  /** Length of the longest run of ASCII digits starting at index i. */
  function DigitRun(s: string, i: nat): (n: nat)
    requires i <= |s|
    ensures i + n <= |s|
    ensures forall k :: i <= k < i + n ==> IsDigit(s[k])
    ensures i + n == |s| || !IsDigit(s[i + n])
    decreases |s| - i
  {
    if i < |s| && IsDigit(s[i]) then 1 + DigitRun(s, i + 1) else 0
  }

  /** The run of digits at i is exactly the n digits found there. */
  lemma {:induction false} DigitRunIs(s: string, i: nat, n: nat)
    requires i + n <= |s| && forall k | i <= k < i + n :: IsDigit(s[k])
    requires i + n == |s| || !IsDigit(s[i + n])
    ensures DigitRun(s, i) == n
    decreases n
  {
    if n > 0 {
      DigitRunIs(s, i + 1, n - 1);
    }
  }

  /** Length of the longest run of whitespace that ends the string. */
  function TrailingSpaceRun(s: string): (n: nat)
    ensures n <= |s|
    ensures forall k :: |s| - n <= k < |s| ==> IsSpace(s[k])
    ensures n == |s| || !IsSpace(s[|s| - 1 - n])
  {
    if s != [] && IsSpace(s[|s| - 1]) then 1 + TrailingSpaceRun(s[..|s| - 1]) else 0
  }

  /** The bounds [a, b) that str.strip() keeps: everything outside them is
      whitespace, and the kept part neither starts nor ends with whitespace. */
  function StripBounds(s: string): (r: (nat, nat))
    ensures r.0 <= r.1 <= |s|
    ensures forall k :: 0 <= k < r.0 ==> IsSpace(s[k])
    ensures forall k :: r.1 <= k < |s| ==> IsSpace(s[k])
    ensures r.0 < r.1 ==> !IsSpace(s[r.0]) && !IsSpace(s[r.1 - 1])
  {
    var a := SpaceRun(s, 0);
    if a == |s| then (a, a) else (a, |s| - TrailingSpaceRun(s))
  }

  /** str.strip() */
  function Strip(s: string): string {
    s[StripBounds(s).0..StripBounds(s).1]
  }

  /** Strip removes exactly the whitespace-only strings. */
  lemma StripEmpty(s: string)
    ensures Strip(s) == [] <==> forall k :: 0 <= k < |s| ==> IsSpace(s[k])
  {
    var (a, b) := StripBounds(s);
    if Strip(s) != [] {
      assert !IsSpace(s[a]);
    }
  }

  /** A string that neither starts nor ends with whitespace is its own strip. */
  lemma StripUnchanged(s: string)
    requires s != [] && !IsSpace(s[0]) && !IsSpace(s[|s| - 1])
    ensures Strip(s) == s
  {
  }

  /** p occurs in s at index i. */
  predicate PhraseAt(s: string, i: int, p: string) {
    0 <= i && i + |p| <= |s| && s[i..i + |p|] == p
  }

  /** The characters of a phrase found at index i. */
  lemma PhraseChars(s: string, i: int, p: string)
    requires PhraseAt(s, i, p)
    ensures forall m :: 0 <= m < |p| ==> s[i + m] == p[m]
  {
    forall m | 0 <= m < |p| ensures s[i + m] == p[m] {
      assert s[i + m] == s[i..i + |p|][m];
    }
  }

  /** Wherever a phrase occurs, so does each of its prefixes. */
  lemma ContainsPrefix(s: string, p: string, r: string)
    requires Contains(s, p + r)
    ensures Contains(s, p)
  {
    var i :| 0 <= i <= |s| && PhraseAt(s, i, p + r);
    assert s[i..i + |p|] == s[i..i + |p + r|][..|p|];
    assert PhraseAt(s, i, p);
  }

  /** The m-th character of a phrase found at index i. */
  lemma PhraseChar(s: string, i: int, p: string, m: nat)
    requires PhraseAt(s, i, p) && m < |p|
    ensures s[i + m] == p[m]
  {
    PhraseChars(s, i, p);
  }

  /** The m-th and (m+1)-th characters of a phrase found at index i. */
  lemma PhrasePair(s: string, i: int, p: string, m: nat)
    requires PhraseAt(s, i, p) && m + 1 < |p|
    ensures s[i + m] == p[m] && s[i + m + 1] == p[m + 1]
  {
    PhraseChars(s, i, p);
  }

  /** Python's `p in s` for strings. */
  predicate Contains(s: string, p: string) {
    exists i | 0 <= i <= |s| :: PhraseAt(s, i, p)
  }

  /** int() of a string of ASCII digits. */
  function DecimalValue(ds: string): nat
    requires forall k :: 0 <= k < |ds| ==> IsDigit(ds[k])
  {
    if ds == [] then 0
    else
      var last := ds[|ds| - 1];
      assert IsDigit(last);
      10 * DecimalValue(ds[..|ds| - 1]) + (last as int - '0' as int)
  }

  /** int() ignores leading zeros: int("0" + ds) == int(ds). */
  lemma {:induction false} DecimalLeadingZero(ds: string)
    requires forall k :: 0 <= k < |ds| ==> IsDigit(ds[k])
    ensures forall k :: 0 <= k < |"0" + ds| ==> IsDigit(("0" + ds)[k])
    ensures DecimalValue("0" + ds) == DecimalValue(ds)
    decreases |ds|
  {
    assert forall k :: 0 < k < |"0" + ds| ==> ("0" + ds)[k] == ds[k - 1];
    if ds != [] {
      var front := ds[..|ds| - 1];
      assert ("0" + ds)[..|ds|] == "0" + front;
      DecimalLeadingZero(front);
    }
  }

  /** Lower-casing leaves a string without upper-case letters unchanged. */
  lemma LowerUnchanged(s: string)
    requires forall c | c in s :: !IsUpper(c)
    ensures Lower(s) == s
  {
    assert forall k :: 0 <= k < |s| ==> Lower(s)[k] == s[k];
  }

  /** A phrase with a character that s lacks does not occur in s. */
  lemma AbsentCharNotContained(s: string, p: string, j: nat)
    requires j < |p| && p[j] !in s
    ensures !Contains(s, p)
  {
    if Contains(s, p) {
      var i :| 0 <= i <= |s| && PhraseAt(s, i, p);
      PhraseChars(s, i, p);
    }
  }

  /** A phrase does not start before index i when its j-th character does not
      occur among the first i + j characters of s. */
  lemma AbsentCharNotBefore(s: string, p: string, j: nat, i: nat)
    requires j < |p| && forall k | 0 <= k < i + j && k < |s| :: s[k] != p[j]
    ensures forall k :: 0 <= k < i ==> !PhraseAt(s, k, p)
  {
    forall k | 0 <= k < i && PhraseAt(s, k, p) ensures false {
      PhraseChar(s, k, p, j);
    }
  }

  /** A phrase does not occur in s when s holds its j-th character only at
      index n, and not followed there by its (j+1)-th. */
  lemma AbsentPairNotContained(s: string, p: string, j: nat, n: nat)
    requires j + 1 < |p|
    requires forall k | 0 <= k < |s| && s[k] == p[j] :: k == n
    requires n + 1 < |s| ==> s[n + 1] != p[j + 1]
    ensures !Contains(s, p)
  {
    if Contains(s, p) {
      var i :| 0 <= i <= |s| && PhraseAt(s, i, p);
      PhrasePair(s, i, p, j);
    }
  }

  /** p occurs at index i when its characters are found there one by one. */
  lemma PhraseFromChars(s: string, i: nat, p: string)
    requires i + |p| <= |s| && forall m | 0 <= m < |p| :: s[i + m] == p[m]
    ensures PhraseAt(s, i, p)
  {
    assert forall m | 0 <= m < |p| :: s[i..i + |p|][m] == p[m];
  }
}
