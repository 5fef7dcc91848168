/** Queries worked through the interpreter of app/utils.py: the one
    test/test_api.py:37-41 sends, and one query each for the conflicting-length
    check (app/utils.py:113-116), the explicit-length rule (app/utils.py:64-69)
    and the `containing the letter` rules (app/utils.py:85-94). Each result is
    stated for every query that normalises to the example, the example itself
    among them. */
module QueryExamples {
  import opened Wrappers
  import opened Text
  import opened Patterns
  import opened Interpreter

  /** A literal without upper-case letters or surrounding whitespace is its
      own normalisation. */
  lemma NormalizedLiteral(q: string)
    requires q != [] && !IsSpace(q[0]) && !IsSpace(q[|q| - 1])
    requires forall c | c in q :: !IsUpper(c)
    ensures Normalize(q) == q
  {
    LowerUnchanged(q);
    StripUnchanged(q);
  }

  // ---- What the absence of a digit or a word rules out ----

  lemma NoDigitNoLength(q: string)
    requires forall c | c in q :: !IsDigit(c)
    ensures var o := Observe(q); o.longerThan.None? && o.shorterThan.None? && o.ofLength.None?
  {
    NotFoundWhenCannotMatch(LongerThan, q);
    NotFoundWhenCannotMatch(ShorterThan, q);
    NotFoundWhenCannotMatch(OfLength, q);
  }

  lemma NoLetterNoLetterRule(q: string)
    requires !Contains(q, "letter")
    ensures Observe(q).letter.None?
  {
    NotFoundWhenCannotMatch(LetterChar, q);
  }

  lemma NoContainNoContainRules(q: string)
    requires !Contains(q, "contain")
    ensures var o := Observe(q);
      o.contain.None? && o.containingThenLetter.None? && !o.theLetterPhrase
      && o.containingTheLetter.None? && o.containing.None?
  {
    assert "containing" == "contain" + "ing";
    assert "containing the letter" == "contain" + "ing the letter";
    if Contains(q, "containing") {
      ContainsPrefix(q, "contain", "ing");
    }
    if Contains(q, "containing the letter") {
      ContainsPrefix(q, "contain", "ing the letter");
    }
    NotFoundWhenCannotMatch(ContainChar, q);
    NotFoundWhenCannotMatch(ContainingThenLetter, q);
    NotFoundWhenCannotMatch(ContainingTheLetter, q);
    NotFoundWhenCannotMatch(ContainingChar, q);
  }

  lemma NoFlagPhrases(q: string)
    requires 'p' !in q && 'w' !in q
    ensures !Observe(q).palindrome && !Observe(q).singleWord
  {
    AbsentCharNotContained(q, "palindrom", 0);
    AbsentCharNotContained(q, "single word", 7);
    AbsentCharNotContained(q, "one word", 4);
    AbsentCharNotContained(q, "single-word", 7);
  }

  lemma NumbersOfExamples()
    ensures DecimalValue("10") == 10 && DecimalValue("5") == 5 && DecimalValue("3") == 3
  {
    assert "10"[..1] == "1";
    assert "1"[..0] == [] && "5"[..0] == [] && "3"[..0] == [];
  }

  // ---- "all single word palindromic strings" ----

  const SingleWordPalindromes := "all single word palindromic strings"

  lemma SingleWordPalindromesIsNormal()
    ensures Normalize(SingleWordPalindromes) == SingleWordPalindromes
  {
    NormalizedLiteral(SingleWordPalindromes);
  }

  lemma SingleWordPalindromesPalindrom()
    ensures Contains(SingleWordPalindromes, "palindrom")
  {
    PhraseFromChars(SingleWordPalindromes, 16, "palindrom");
  }

  lemma SingleWordPalindromesSingleWord()
    ensures Contains(SingleWordPalindromes, "single word")
  {
    PhraseFromChars(SingleWordPalindromes, 4, "single word");
  }

  lemma SingleWordPalindromesNoDigit()
    ensures forall c | c in SingleWordPalindromes :: !IsDigit(c)
  {
  }

  lemma SingleWordPalindromesNoLetter()
    ensures !Contains(SingleWordPalindromes, "letter")
  {
    AbsentPairNotContained(SingleWordPalindromes, "letter", 2, 29);
  }

  lemma SingleWordPalindromesNoContain()
    ensures !Contains(SingleWordPalindromes, "contain")
  {
    AbsentPairNotContained(SingleWordPalindromes, "contain", 0, 26);
  }

  lemma SingleWordPalindromesNoFirstVowel()
    ensures !Contains(SingleWordPalindromes, "first vowel")
  {
    AbsentCharNotContained(SingleWordPalindromes, "first vowel", 0);
  }

  lemma SingleWordPalindromesObserved()
    ensures Observe(SingleWordPalindromes)
            == Observations(true, true, None, None, None, None, None, false, None, false, None, None)
  {
    var q := SingleWordPalindromes;
    SingleWordPalindromesPalindrom();
    SingleWordPalindromesSingleWord();
    SingleWordPalindromesNoDigit();
    NoDigitNoLength(q);
    SingleWordPalindromesNoLetter();
    NoLetterNoLetterRule(q);
    SingleWordPalindromesNoContain();
    NoContainNoContainRules(q);
    SingleWordPalindromesNoFirstVowel();
  }

  /** Finding "palindrom" and a single-word phrase and nothing else yields
      exactly is_palindrome and word_count. */
  lemma FlagsOnlyParse(query: string, q: string)
    requires Normalize(query) == q && q != []
    requires Observe(q) == Observations(true, true, None, None, None, None, None, false, None, false, None, None)
    ensures Parse(query) == Success(Filters(Some(true), Some(1), None, None, None))
  {
  }

  /** "all single word palindromic strings" yields exactly is_palindrome and
      word_count. */
  lemma SingleWordPalindromeQuery(query: string)
    requires Normalize(query) == SingleWordPalindromes
    ensures Parse(query) == Success(Filters(Some(true), Some(1), None, None, None))
  {
    SingleWordPalindromesObserved();
    FlagsOnlyParse(query, SingleWordPalindromes);
  }

  // ---- "longer than 10 shorter than 5" ----

  const LongerTenShorterFive := "longer than 10 shorter than 5"

  lemma LongerTenShorterFiveIsNormal()
    ensures Normalize(LongerTenShorterFive) == LongerTenShorterFive
  {
    NormalizedLiteral(LongerTenShorterFive);
  }

  lemma LongerTenShorterFiveDigits()
    ensures DigitRun(LongerTenShorterFive, 12) == 2
    ensures LongerTenShorterFive[12..14] == "10"
  {
    DigitRunIs(LongerTenShorterFive, 12, 2);
    PhraseFromChars(LongerTenShorterFive, 12, "10");
  }

  lemma LongerTenShorterFiveLonger()
    ensures Captured(LongerThan, LongerTenShorterFive) == Some("10")
  {
    var q := LongerTenShorterFive;
    PhraseFromChars(q, 0, "longer than ");
    LongerTenShorterFiveDigits();
    assert NumberAt(["longer than "], q, 0) == Some("10");
    FoundAt(LongerThan, q, 0);
  }

  lemma LongerTenShorterFiveShorter()
    ensures Captured(ShorterThan, LongerTenShorterFive) == Some("5")
  {
    var q := LongerTenShorterFive;
    PhraseFromChars(q, 15, "shorter than ");
    PhraseFromChars(q, 28, "5");
    DigitRunIs(q, 28, 1);
    assert MatchAt(ShorterThan, q, 15) == Some("5");
    AbsentCharNotBefore(q, "shorter than ", 0, 15);
    FoundAt(ShorterThan, q, 15);
  }

  lemma LongerTenShorterFiveNoLength()
    ensures Captured(OfLength, LongerTenShorterFive).None?
    ensures !Contains(LongerTenShorterFive, "first vowel")
  {
    var q := LongerTenShorterFive;
    AbsentCharNotContained(q, "length of ", 8);
    AbsentCharNotContained(q, "of length ", 1);
    NotFoundWhenCannotMatch(OfLength, q);
    AbsentCharNotContained(q, "first vowel", 0);
  }

  lemma LongerTenShorterFiveNoLetter()
    ensures !Contains(LongerTenShorterFive, "letter")
    ensures !Contains(LongerTenShorterFive, "contain")
  {
    AbsentPairNotContained(LongerTenShorterFive, "letter", 0, 0);
    AbsentCharNotContained(LongerTenShorterFive, "contain", 0);
  }

  lemma LongerTenShorterFiveObserved()
    ensures Observe(LongerTenShorterFive)
            == Observations(false, false, Some(10), Some(5), None, None, None, false, None, false, None, None)
  {
    var q := LongerTenShorterFive;
    NoFlagPhrases(q);
    LongerTenShorterFiveLonger();
    LongerTenShorterFiveShorter();
    NumbersOfExamples();
    LongerTenShorterFiveNoLength();
    LongerTenShorterFiveNoLetter();
    NoLetterNoLetterRule(q);
    NoContainNoContainRules(q);
  }

  /** "longer than 10" and "shorter than 5" alone give min_length 11 and
      max_length 4, which conflict. */
  lemma LongerShorterParse(query: string, q: string)
    requires Normalize(query) == q && q != []
    requires Observe(q) == Observations(false, false, Some(10), Some(5), None, None, None, false, None, false, None, None)
    ensures Parse(query) == Failure(ConflictingLengths)
  {
  }

  /** "longer than 10 shorter than 5" fails: min_length 11 exceeds
      max_length 4. */
  lemma LongerTenShorterFiveQuery(query: string)
    requires Normalize(query) == LongerTenShorterFive
    ensures Parse(query) == Failure(ConflictingLengths)
  {
    LongerTenShorterFiveObserved();
    LongerShorterParse(query, LongerTenShorterFive);
  }

  // ---- "strings of length 3" ----

  const OfLengthThree := "strings of length 3"

  lemma OfLengthThreeIsNormal()
    ensures Normalize(OfLengthThree) == OfLengthThree
  {
    NormalizedLiteral(OfLengthThree);
  }

  lemma OfLengthThreeMatch()
    ensures MatchAt(OfLength, OfLengthThree, 8) == Some("3")
  {
    var q := OfLengthThree;
    if PhraseAt(q, 8, "length of ") {
      PhraseChar(q, 8, "length of ", 0);
    }
    PhraseFromChars(q, 8, "of length ");
    PhraseFromChars(q, 18, "3");
    DigitRunIs(q, 18, 1);
    assert ["length of ", "of length "][1..] == ["of length "];
  }

  lemma OfLengthThreeNoLengthOf()
    ensures forall k :: 0 <= k < 8 ==> !PhraseAt(OfLengthThree, k, "length of ")
  {
    AbsentCharNotBefore(OfLengthThree, "length of ", 0, 8);
  }

  lemma OfLengthThreeNotBefore()
    ensures forall k :: 0 <= k < 8 ==> !PhraseAt(OfLengthThree, k, "length of ")
    ensures forall k :: 0 <= k < 8 ==> !PhraseAt(OfLengthThree, k, "of length ")
  {
    OfLengthThreeNoLengthOf();
    AbsentCharNotBefore(OfLengthThree, "of length ", 0, 8);
  }

  lemma OfLengthThreeLength()
    ensures Captured(OfLength, OfLengthThree) == Some("3")
  {
    var q := OfLengthThree;
    OfLengthThreeMatch();
    OfLengthThreeNotBefore();
    assert CannotMatchBefore(OfLength, q, 8) by {
      forall a, k | a in OfLength.alternatives && 0 <= k < 8 ensures !PhraseAt(q, k, a) {
        assert a == "length of " || a == "of length ";
      }
    }
    FoundAt(OfLength, q, 8);
  }

  lemma OfLengthThreeNoLonger()
    ensures Captured(LongerThan, OfLengthThree).None?
  {
    AbsentCharNotContained(OfLengthThree, "longer than ", 9);
    NotFoundWhenCannotMatch(LongerThan, OfLengthThree);
  }

  lemma OfLengthThreeNoShorter()
    ensures Captured(ShorterThan, OfLengthThree).None?
  {
    AbsentCharNotContained(OfLengthThree, "shorter than ", 10);
    NotFoundWhenCannotMatch(ShorterThan, OfLengthThree);
  }

  lemma OfLengthThreeNoFirstVowel()
    ensures !Contains(OfLengthThree, "first vowel")
  {
    AbsentCharNotContained(OfLengthThree, "first vowel", 6);
  }

  lemma OfLengthThreeNoLetter()
    ensures !Contains(OfLengthThree, "letter")
    ensures !Contains(OfLengthThree, "contain")
  {
    AbsentPairNotContained(OfLengthThree, "letter", 1, 12);
    AbsentCharNotContained(OfLengthThree, "contain", 0);
  }

  lemma OfLengthThreeObserved()
    ensures Observe(OfLengthThree)
            == Observations(false, false, None, None, Some(3), None, None, false, None, false, None, None)
  {
    var q := OfLengthThree;
    NoFlagPhrases(q);
    OfLengthThreeLength();
    NumbersOfExamples();
    OfLengthThreeNoLonger();
    OfLengthThreeNoShorter();
    OfLengthThreeNoFirstVowel();
    OfLengthThreeNoLetter();
    NoLetterNoLetterRule(q);
    NoContainNoContainRules(q);
  }

  /** An explicit length of 3 alone gives both bounds 3. */
  lemma OfLengthParse(query: string, q: string)
    requires Normalize(query) == q && q != []
    requires Observe(q) == Observations(false, false, None, None, Some(3), None, None, false, None, false, None, None)
    ensures Parse(query) == Success(Filters(None, None, Some(3), Some(3), None))
  {
  }

  /** "strings of length 3" yields min_length 3 and max_length 3. */
  lemma OfLengthThreeQuery(query: string)
    requires Normalize(query) == OfLengthThree
    ensures Parse(query) == Success(Filters(None, None, Some(3), Some(3), None))
  {
    OfLengthThreeObserved();
    OfLengthParse(query, OfLengthThree);
  }

  // ---- "strings containing the letter z" ----

  const ContainingTheLetterZ := "strings containing the letter z"

  lemma ContainingTheLetterZIsNormal()
    ensures Normalize(ContainingTheLetterZ) == ContainingTheLetterZ
  {
    NormalizedLiteral(ContainingTheLetterZ);
  }

  lemma ContainingTheLetterZPhrase()
    ensures PhraseAt(ContainingTheLetterZ, 8, "containing the letter")
  {
    PhraseFromChars(ContainingTheLetterZ, 8, "containing the letter");
  }

  lemma ContainingTheLetterZMatch()
    ensures Captured(ContainingTheLetter, ContainingTheLetterZ) == Some("z")
  {
    var q := ContainingTheLetterZ;
    ContainingTheLetterZPhrase();
    assert SpaceRun(q, 29) == 1;
    assert SpacedCharAt("containing the letter", q, 8) == Some("z");
    AbsentCharNotBefore(q, "containing the letter", 0, 8);
    FoundAt(ContainingTheLetter, q, 8);
  }

  /** Finding "containing the letter z" and no flag or length phrase yields
      exactly contains_character "z". */
  lemma TheLetterZParse(query: string, q: string)
    requires Normalize(query) == q && q != []
    requires var o := Observe(q);
      && !o.palindrome && !o.singleWord && o.longerThan.None? && o.shorterThan.None? && o.ofLength.None?
      && o.theLetterPhrase && o.containingTheLetter == Some("z")
    ensures Parse(query) == Success(Filters(None, None, None, None, Some("z")))
  {
    assert Lower("z") == "z";
  }

  lemma ContainingTheLetterZNoDigit()
    ensures forall c | c in ContainingTheLetterZ :: !IsDigit(c)
  {
  }

  lemma ContainingTheLetterZObserved()
    ensures var o := Observe(ContainingTheLetterZ);
      && !o.palindrome && !o.singleWord && o.longerThan.None? && o.shorterThan.None? && o.ofLength.None?
      && o.theLetterPhrase && o.containingTheLetter == Some("z")
  {
    var q := ContainingTheLetterZ;
    NoFlagPhrases(q);
    ContainingTheLetterZNoDigit();
    NoDigitNoLength(q);
    ContainingTheLetterZPhrase();
    ContainingTheLetterZMatch();
  }

  /** "strings containing the letter z" yields exactly contains_character
      "z". */
  lemma ContainingTheLetterZQuery(query: string)
    requires Normalize(query) == ContainingTheLetterZ
    ensures Parse(query) == Success(Filters(None, None, None, None, Some("z")))
  {
    ContainingTheLetterZObserved();
    TheLetterZParse(query, ContainingTheLetterZ);
  }
}
