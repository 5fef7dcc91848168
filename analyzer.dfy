/** The string analyzer of app/utils.py: the properties record computed for a
    string before it is stored. Every function here is total and pure. */
module Analyzer {
  import opened Text

  /** The properties dict built by analyze_string. */
  datatype Properties = Properties(
    length: nat,
    isPalindrome: bool,
    uniqueCharacters: nat,
    wordCount: nat,
    sha256Hash: string,
    characterFrequencyMap: map<char, nat>)

  /** dict(Counter(value)): Counter walks the string left to right and adds one
      to the count of each character it meets. */
  function CharacterFrequency(value: string): map<char, nat> {
    if value == [] then map[]
    else
      var m0 := CharacterFrequency(value[..|value| - 1]);
      var c := value[|value| - 1];
      m0[c := (if c in m0 then m0[c] else 0) + 1]
  }

  /** The keys of the frequency map are the characters of the string, and each
      count is the number of occurrences of its character, so at least 1. */
  lemma {:induction false} FrequencyCounts(value: string)
    ensures forall c :: c in CharacterFrequency(value) <==> c in value
    ensures forall c | c in CharacterFrequency(value) ::
      CharacterFrequency(value)[c] == multiset(value)[c] && CharacterFrequency(value)[c] >= 1
  {
    if value != [] {
      var front, c := value[..|value| - 1], value[|value| - 1];
      assert value == front + [c];
      FrequencyCounts(front);
    }
  }

  /** sum(m.values()) */
  ghost function SumValues(m: map<char, nat>): nat
    decreases |m|
  {
    if m == map[] then 0
    else
      var k :| k in m;
      assert |m.Keys - {k}| == |m.Keys| - 1;
      m[k] + SumValues(m - {k})
  }

  /** Any key can be taken out of the sum first. */
  lemma {:induction false} SumValuesRemove(m: map<char, nat>, k: char)
    requires k in m
    ensures SumValues(m) == m[k] + SumValues(m - {k})
    decreases |m|
  {
    var j :| j in m && SumValues(m) == m[j] + SumValues(m - {j});
    if j != k {
      assert |m.Keys - {j}| == |m.Keys| - 1;
      assert |m.Keys - {k}| == |m.Keys| - 1;
      SumValuesRemove(m - {j}, k);
      SumValuesRemove(m - {k}, j);
      assert m - {j} - {k} == m - {k} - {j};
    }
  }

  /** Adding one to the count of a key adds one to the sum. */
  lemma SumValuesIncrement(m0: map<char, nat>, c: char)
    ensures SumValues(m0[c := (if c in m0 then m0[c] else 0) + 1]) == SumValues(m0) + 1
  {
    var m := m0[c := (if c in m0 then m0[c] else 0) + 1];
    SumValuesRemove(m, c);
    assert m - {c} == m0 - {c};
    if c in m0 {
      SumValuesRemove(m0, c);
    } else {
      assert m0 - {c} == m0;
    }
  }

  /** The character frequencies add up to the length of the string. */
  lemma {:induction false} FrequencySumIsLength(value: string)
    ensures SumValues(CharacterFrequency(value)) == |value|
  {
    if value != [] {
      var front, c := value[..|value| - 1], value[|value| - 1];
      FrequencySumIsLength(front);
      SumValuesIncrement(CharacterFrequency(front), c);
    }
  }

  /** len(set(value)) */
  function UniqueCharacters(value: string): nat {
    |set c | c in value|
  }

  /** A string has at most as many distinct characters as it is long, and
      exactly as many as its frequency map has keys. */
  lemma {:induction false} UniqueCharactersBound(value: string)
    ensures UniqueCharacters(value) == |CharacterFrequency(value).Keys|
    ensures UniqueCharacters(value) <= |value|
    ensures UniqueCharacters(value) == 0 <==> value == []
  {
    FrequencyCounts(value);
    assert CharacterFrequency(value).Keys == set c | c in value;
    if value != [] {
      var front, c := value[..|value| - 1], value[|value| - 1];
      assert value == front + [c];
      UniqueCharactersBound(front);
      assert (set d | d in value) == (set d | d in front) + {c};
      assert c in (set d | d in value);
    }
  }

  /** The number of non-whitespace runs of value from index i on, found the
      way re.findall(r"\S+", value) finds them: where `\S+` cannot match (at
      whitespace) move on by one character; where it matches, take the longest
      run of non-whitespace and go on after it. */
  function WordsFrom(value: string, i: nat): nat
    requires i <= |value|
    decreases |value| - i
  {
    if i == |value| then 0
    else if IsSpace(value[i]) then WordsFrom(value, i + 1)
    else 1 + WordsFrom(value, i + NonSpaceRun(value, i))
  }

  /** len(re.findall(r"\S+", value)) */
  function WordCount(value: string): nat {
    WordsFrom(value, 0)
  }

  /** A word starts at index k: a non-whitespace character at the start of the
      string or right after whitespace. */
  predicate IsWordStart(value: string, k: nat)
    requires k < |value|
  {
    !IsSpace(value[k]) && (k == 0 || IsSpace(value[k - 1]))
  }

  /** Reference definition of the word count: the number of word starts at
      index i or later. */
  function WordStarts(value: string, i: nat): (n: nat)
    requires i <= |value|
    ensures n <= |value| - i
    decreases |value| - i
  {
    if i == |value| then 0
    else (if IsWordStart(value, i) then 1 else 0) + WordStarts(value, i + 1)
  }

  lemma {:induction false} NoWordStartsBetween(value: string, i: nat, j: nat)
    requires i <= j <= |value|
    requires forall k :: i <= k < j ==> !IsWordStart(value, k)
    ensures WordStarts(value, i) == WordStarts(value, j)
    decreases j - i
  {
    if i < j {
      NoWordStartsBetween(value, i + 1, j);
    }
  }

  /** Index i does not cut a word in two. */
  predicate AtWordBoundary(value: string, i: nat)
    requires i <= |value|
  {
    i == 0 || i == |value| || IsSpace(value[i - 1]) || IsSpace(value[i])
  }

  /** No word starts inside a word. */
  lemma NoWordStartsInside(value: string, start: nat)
    requires start < |value| && !IsSpace(value[start])
    ensures WordStarts(value, start + 1) == WordStarts(value, start + NonSpaceRun(value, start))
  {
    var end := start + NonSpaceRun(value, start);
    forall k | start + 1 <= k < end ensures !IsWordStart(value, k) {
      assert !IsSpace(value[k - 1]);
    }
    NoWordStartsBetween(value, start + 1, end);
  }

  lemma {:induction false} WordsAreWordStarts(value: string, i: nat)
    requires i <= |value| && AtWordBoundary(value, i)
    ensures WordsFrom(value, i) == WordStarts(value, i)
    decreases |value| - i
  {
    if i < |value| {
      if IsSpace(value[i]) {
        WordsAreWordStarts(value, i + 1);
      } else {
        NoWordStartsInside(value, i);
        WordsAreWordStarts(value, i + NonSpaceRun(value, i));
      }
    }
  }

  lemma {:induction false} NoWordsInWhitespace(value: string, i: nat)
    requires i <= |value|
    ensures WordsFrom(value, i) == 0 <==> forall k :: i <= k < |value| ==> IsSpace(value[k])
    decreases |value| - i
  {
    if i < |value| && IsSpace(value[i]) {
      NoWordsInWhitespace(value, i + 1);
    }
  }

  /** The word count is the number of maximal non-whitespace runs: it equals the
      number of word starts, is at most the length, and is zero exactly for the
      strings made of whitespace only (the empty string among them). */
  lemma WordCountIsRunCount(value: string)
    ensures WordCount(value) == WordStarts(value, 0)
    ensures WordCount(value) <= |value|
    ensures WordCount(value) == 0 <==> forall k :: 0 <= k < |value| ==> IsSpace(value[k])
  {
    WordsAreWordStarts(value, 0);
    NoWordsInWhitespace(value, 0);
  }

  /** is_palindrome_case_insensitive: the lower-cased string equals its
      reverse. */
  function IsPalindromeCaseInsensitive(value: string): bool {
    var s := Lower(value);
    s == Reverse(s)
  }

  /** The character-by-character reading of "the lower-cased string equals
      its reverse". */
  lemma PalindromeIffMirrored(value: string)
    ensures IsPalindromeCaseInsensitive(value) <==>
      forall i :: 0 <= i < |value| ==> LowerChar(value[i]) == LowerChar(value[|value| - 1 - i])
  {
    var s := Lower(value);
    var r := Reverse(s);
    LowerAt(value);
    ReverseAt(s);
    if s == r {
      forall i | 0 <= i < |value| ensures LowerChar(value[i]) == LowerChar(value[|value| - 1 - i]) {
        assert s[i] == r[i];
      }
    }
    if forall i :: 0 <= i < |value| ==> LowerChar(value[i]) == LowerChar(value[|value| - 1 - i]) {
      forall i | 0 <= i < |s| ensures s[i] == r[i] {
        assert s[i] == LowerChar(value[i]);
      }
    }
  }

  /** A string is a palindrome exactly when its reverse is. */
  lemma PalindromeUnderReversal(value: string)
    ensures IsPalindromeCaseInsensitive(Reverse(value)) == IsPalindromeCaseInsensitive(value)
  {
    var r := Reverse(value);
    var n := |value|;
    PalindromeIffMirrored(value);
    PalindromeIffMirrored(r);
    if IsPalindromeCaseInsensitive(value) {
      forall i | 0 <= i < n ensures LowerChar(r[i]) == LowerChar(r[n - 1 - i]) {
        assert r[i] == value[n - 1 - i] && r[n - 1 - i] == value[i];
      }
    }
    if IsPalindromeCaseInsensitive(r) {
      forall i | 0 <= i < n ensures LowerChar(value[i]) == LowerChar(value[n - 1 - i]) {
        assert r[n - 1 - i] == value[i] && r[i] == value[n - 1 - i];
      }
    }
  }

  /** analyze_string. The content hash is a parameter: hashlib's SHA-256 of the
      UTF-8 bytes, hex-encoded, is not modelled; being a function, it gives the
      same hash for the same string. */
  function AnalyzeString(value: string, sha256: string -> string): (p: Properties)
    ensures p.length == |value|
    ensures SumValues(p.characterFrequencyMap) == p.length
    ensures forall c :: c in p.characterFrequencyMap <==> c in value
    ensures forall c | c in p.characterFrequencyMap :: p.characterFrequencyMap[c] == multiset(value)[c]
    ensures p.uniqueCharacters == |p.characterFrequencyMap.Keys| <= p.length
    ensures p.wordCount == WordStarts(value, 0) <= p.length
    ensures p.isPalindrome == IsPalindromeCaseInsensitive(value)
    ensures p.sha256Hash == sha256(value)
  {
    FrequencyCounts(value);
    FrequencySumIsLength(value);
    UniqueCharactersBound(value);
    WordCountIsRunCount(value);
    Properties(
      length := |value|,
      isPalindrome := IsPalindromeCaseInsensitive(value),
      uniqueCharacters := UniqueCharacters(value),
      wordCount := WordCount(value),
      sha256Hash := sha256(value),
      characterFrequencyMap := CharacterFrequency(value))
  }

  /** The empty string: length, word count and distinct characters are zero,
      the frequency map is empty, and it reads the same backwards. */
  lemma AnalyzeEmpty(sha256: string -> string)
    ensures var p := AnalyzeString("", sha256);
      p.length == 0 && p.wordCount == 0 && p.uniqueCharacters == 0
      && p.characterFrequencyMap == map[] && p.isPalindrome
  {
  }

  /** "Abba" is a palindrome once case is ignored; "hello" is not. */
  lemma PalindromeExamples()
    ensures IsPalindromeCaseInsensitive("Abba")
    ensures !IsPalindromeCaseInsensitive("hello")
  {
    PalindromeIffMirrored("Abba");
    PalindromeIffMirrored("hello");
    assert LowerChar('A') == 'a';
    assert "hello"[0] == 'h' && "hello"[4] == 'o';
  }
}
