/** The natural-language query interpreter of app/utils.py
    (parse_natural_language_query): an ordered chain of heuristic rules over
    the lower-cased, stripped query fills a filter record, which is then
    validated.

    The model separates what each pattern finds in the query (Observe) from how
    the rule chain combines those findings (Interpret), so that the facts about
    the rule chain are stated once over the findings. */
module Interpreter {
  import opened Wrappers
  import opened Text
  import opened Patterns

  /** The patterns of the rule chain, in rule order. */
  const LongerThan := Number(["longer than "])
  const ShorterThan := Number(["shorter than "])
  const OfLength := Number(["length of ", "of length "])
  const LetterChar := SpacedChar("letter")
  const ContainChar := ContainVerb
  const ContainingThenLetter := AnyThenSpacedChar("containing", "letter")
  const ContainingTheLetter := SpacedChar("containing the letter")
  const ContainingChar := SpacedChar("containing")

  /** The dict `parsed`: each key is either absent (None) or holds its value. */
  datatype Filters = Filters(
    isPalindrome: Option<bool>,
    wordCount: Option<nat>,
    minLength: Option<nat>,
    maxLength: Option<nat>,
    containsCharacter: Option<string>)

  const NoFilters := Filters(None, None, None, None, None)

  /** The ValueErrors the parser raises. */
  datatype ParseError = EmptyQuery | Unparsable | NotSingleCharacter | ConflictingLengths
  {
    function Message(): string {
      match this
      case EmptyQuery => "Empty query"
      case Unparsable => "Unable to parse natural language query"
      case NotSingleCharacter => "contains_character must be a single character"
      case ConflictingLengths => "Conflicting length filters parsed (min > max)"
    }
  }

  /** query.lower().strip() */
  function Normalize(query: string): string {
    Strip(Lower(query))
  }

  /** int(m.group(1)) for a numeric pattern, when it matched. */
  function CapturedNumber(p: Pattern, q: string): Option<nat>
    requires p.Number?
  {
    match Captured(p, q)
    case Some(g) => Some(DecimalValue(g))
    case None => None
  }

  /** max(0, n - 1) */
  function AtLeastZeroPredecessor(n: nat): nat {
    if n >= 1 then n - 1 else 0
  }

  predicate SingleWordPhrase(q: string) {
    Contains(q, "single word") || Contains(q, "one word") || Contains(q, "single-word")
  }

  /** What each test of the rule chain finds in the normalised query. */
  datatype Observations = Observations(
    palindrome: bool,                       // "palindrom" in q
    singleWord: bool,                       // one of the single-word phrases in q
    longerThan: Option<nat>,                // longer than (\d+)
    shorterThan: Option<nat>,               // shorter than (\d+)
    ofLength: Option<nat>,                  // (?:length of|of length) (\d+)
    letter: Option<string>,                 // letter\s+([a-zA-Z0-9])
    contain: Option<string>,                // contain(?:s|ing)?\s+(?:the\s+)?([a-zA-Z0-9])
    firstVowel: bool,                       // "first vowel" in q
    containingThenLetter: Option<string>,   // containing.*letter\s+([a-zA-Z0-9])
    theLetterPhrase: bool,                  // "containing the letter" in q
    containingTheLetter: Option<string>,    // containing the letter\s+([a-zA-Z0-9])
    containing: Option<string>)             // containing\s+([a-zA-Z0-9])

  function Observe(q: string): Observations {
    Observations(
      Contains(q, "palindrom"),
      SingleWordPhrase(q),
      CapturedNumber(LongerThan, q),
      CapturedNumber(ShorterThan, q),
      CapturedNumber(OfLength, q),
      Captured(LetterChar, q),
      Captured(ContainChar, q),
      Contains(q, "first vowel"),
      Captured(ContainingThenLetter, q),
      Contains(q, "containing the letter"),
      Captured(ContainingTheLetter, q),
      Captured(ContainingChar, q))
  }

  // The rule chain read declaratively: for every key, the rules that can write
  // it, the one applied last taking precedence.

  function MinLength(ofLength: Option<nat>, longerThan: Option<nat>): Option<nat> {
    match ofLength
    case Some(n) => Some(n)
    case None =>
      match longerThan
      case Some(n) => Some(n + 1)
      case None => None
  }

  function MaxLength(ofLength: Option<nat>, shorterThan: Option<nat>): Option<nat> {
    match ofLength
    case Some(n) => Some(n)
    case None =>
      match shorterThan
      case Some(n) => Some(AtLeastZeroPredecessor(n))
      case None => None
  }

  predicate TheLetterRuleApplies(o: Observations) {
    o.theLetterPhrase && o.containingTheLetter.Some?
  }

  function Character(o: Observations): Option<string> {
    if TheLetterRuleApplies(o) then o.containingTheLetter
    else if o.containingThenLetter.Some? then o.containingThenLetter
    else if o.firstVowel then Some("a")
    else if o.letter.Some? then o.letter
    else o.contain
  }

  /** The filters the rules produce, before validation; the last rule, tried
      only when nothing else matched, is `containing\s+([a-zA-Z0-9])`. */
  function Interpret(o: Observations): Filters {
    var f := Filters(
      if o.palindrome then Some(true) else None,
      if o.singleWord then Some(1) else None,
      MinLength(o.ofLength, o.longerThan),
      MaxLength(o.ofLength, o.shorterThan),
      Character(o));
    if f == NoFilters then f.(containsCharacter := o.containing) else f
  }

  /** The checks made once the rules have run. */
  function Validate(f: Filters): Result<Filters, ParseError> {
    if f == NoFilters then Failure(Unparsable)
    else if f.containsCharacter.Some? && |f.containsCharacter.value| != 1 then Failure(NotSingleCharacter)
    else
      var g := if f.containsCharacter.Some? then f.(containsCharacter := Some(Lower(f.containsCharacter.value))) else f;
      if g.minLength.Some? && g.maxLength.Some? && g.minLength.value > g.maxLength.value then Failure(ConflictingLengths)
      else Success(g)
  }

  /** The reference semantics of parse_natural_language_query. */
  function Parse(query: string): Result<Filters, ParseError> {
    var q := Normalize(query);
    if q == [] then Failure(EmptyQuery) else Validate(Interpret(Observe(q)))
  }

  predicate IsLowerAlnum(c: char) {
    'a' <= c <= 'z' || IsDigit(c)
  }

  /** What a successful parse guarantees: something was recognised, the flags
      hold the only values the rules write, the character is one lower-case
      [a-z0-9], and the length bounds are consistent. */
  predicate WellFormed(f: Filters) {
    && f != NoFilters
    && (f.isPalindrome.Some? ==> f.isPalindrome.value)
    && (f.wordCount.Some? ==> f.wordCount.value == 1)
    && (f.containsCharacter.Some? ==>
          |f.containsCharacter.value| == 1 && IsLowerAlnum(f.containsCharacter.value[0]))
    && (f.minLength.Some? && f.maxLength.Some? ==> f.minLength.value <= f.maxLength.value)
  }

  /** A captured character group: one character of [a-z0-9] (the query is
      lower-cased before any pattern runs). */
  predicate IsCharacterCapture(c: Option<string>) {
    c.Some? ==> |c.value| == 1 && IsLowerAlnum(c.value[0])
  }

  /** What the patterns' own definitions guarantee about their findings on a
      normalised query. */
  predicate Coherent(o: Observations) {
    && IsCharacterCapture(o.letter)
    && IsCharacterCapture(o.contain)
    && IsCharacterCapture(o.containingThenLetter)
    && IsCharacterCapture(o.containingTheLetter)
    && IsCharacterCapture(o.containing)
    && (o.containingTheLetter.Some? ==> o.containingThenLetter.Some?)
    && (o.containing.Some? ==> o.contain.Some?)
  }

  /** m = re.search(p, q), then m.group(1) when it matched. */
  method SearchGroup(p: Pattern, q: string) returns (g: Option<string>)
    ensures g == Captured(p, q)
  {
    var m := Search(p, q);
    if m.Some? {
      g := Some(m.value.group);
    } else {
      g := None;
    }
  }

  /** int(m.group(1)) for a digit pattern, when it matched. */
  method SearchNumber(p: Pattern, q: string) returns (n: Option<nat>)
    requires p.Number?
    ensures n == CapturedNumber(p, q)
  {
    var g := SearchGroup(p, q);
    if g.Some? {
      n := Some(DecimalValue(g.value));
    } else {
      n := None;
    }
  }

  /** The writes of the three length rules, given what their patterns found:
      "longer than N" sets min_length N + 1, "shorter than M" sets max_length
      max(0, M - 1), and an explicit length then sets both. */
  method LengthRules(longer: Option<nat>, shorter: Option<nat>, ofLength: Option<nat>)
    returns (minLength: Option<nat>, maxLength: Option<nat>)
    ensures minLength == MinLength(ofLength, longer)
    ensures maxLength == MaxLength(ofLength, shorter)
  {
    minLength, maxLength := None, None;
    if longer.Some? {
      minLength := Some(longer.value + 1);
    }
    if shorter.Some? {
      maxLength := Some(if shorter.value as int - 1 > 0 then shorter.value - 1 else 0);  // max(0, n - 1)
    }
    if ofLength.Some? {
      minLength, maxLength := ofLength, ofLength;
    }
  }

  /** The three length rules of parse_natural_language_query. Their searches
      do not depend on one another, so they are made first. */
  method ApplyLengthRules(q: string) returns (minLength: Option<nat>, maxLength: Option<nat>)
    ensures minLength == MinLength(CapturedNumber(OfLength, q), CapturedNumber(LongerThan, q))
    ensures maxLength == MaxLength(CapturedNumber(OfLength, q), CapturedNumber(ShorterThan, q))
  {
    var longer := SearchNumber(LongerThan, q);
    var shorter := SearchNumber(ShorterThan, q);
    var ofLength := SearchNumber(OfLength, q);
    minLength, maxLength := LengthRules(longer, shorter, ofLength);
  }

  /** The five character rules of parse_natural_language_query, each
      overwriting contains_character in turn; the second applies only while no
      character has been set. */
  method ApplyCharacterRules(q: string) returns (c: Option<string>)
    ensures c == Character(Observe(q))
  {
    c := None;
    var g := SearchGroup(LetterChar, q);
    if g.Some? {
      c := g;
    }
    g := SearchGroup(ContainChar, q);
    if g.Some? && c.None? {
      c := g;
    }
    if Contains(q, "first vowel") {
      c := Some("a");
    }
    g := SearchGroup(ContainingThenLetter, q);
    if g.Some? {
      c := g;
    }
    if Contains(q, "containing the letter") {
      g := SearchGroup(ContainingTheLetter, q);
      if g.Some? {
        c := g;
      }
    }
  }

  /** The checks parse_natural_language_query makes once the rules have run. */
  method ValidateParsed(parsed: Filters) returns (r: Result<Filters, ParseError>)
    ensures r == Validate(parsed)
  {
    var f := parsed;
    if f == NoFilters {
      return Failure(Unparsable);
    }
    if f.containsCharacter.Some? && |f.containsCharacter.value| != 1 {
      return Failure(NotSingleCharacter);
    }
    if f.containsCharacter.Some? {
      f := f.(containsCharacter := Some(Lower(f.containsCharacter.value)));
    }
    if f.minLength.Some? && f.maxLength.Some? && f.minLength.value > f.maxLength.value {
      return Failure(ConflictingLengths);
    }
    return Success(f);
  }

  /** parse_natural_language_query: the rules write into `parsed` one after the
      other, later writes replacing earlier ones, and the result is validated. */
  method ParseNaturalLanguageQuery(query: string) returns (r: Result<Filters, ParseError>)
    ensures r == Parse(query)
    ensures r.Success? ==> WellFormed(r.value)
    ensures r == Failure(EmptyQuery) <==> forall k :: 0 <= k < |query| ==> IsSpace(query[k])
  {
    EmptyQueryRejected(query);
    ParseSuccessIsWellFormed(query);
    var q := Normalize(query);
    if q == [] {
      return Failure(EmptyQuery);
    }

    var parsed := NoFilters;
    if Contains(q, "palindrom") {
      parsed := parsed.(isPalindrome := Some(true));
    }
    if Contains(q, "single word") || Contains(q, "one word") || Contains(q, "single-word") {
      parsed := parsed.(wordCount := Some(1));
    }
    var minLength, maxLength := ApplyLengthRules(q);
    parsed := parsed.(minLength := minLength, maxLength := maxLength);
    var c := ApplyCharacterRules(q);
    parsed := parsed.(containsCharacter := c);
    if parsed == NoFilters {
      var g := SearchGroup(ContainingChar, q);
      if g.Some? {
        parsed := parsed.(containsCharacter := g);
      }
    }
    assert parsed == Interpret(Observe(q));
    r := ValidateParsed(parsed);
  }

  /** An empty or whitespace-only query is rejected before any rule runs, and
      it is the only query rejected as empty. */
  lemma EmptyQueryRejected(query: string)
    ensures Parse(query) == Failure(EmptyQuery) <==> forall k :: 0 <= k < |query| ==> IsSpace(query[k])
  {
    var lowered := Lower(query);
    StripEmpty(lowered);
    assert forall k :: 0 <= k < |query| ==> (IsSpace(lowered[k]) <==> IsSpace(query[k]));
  }

  /** The characters of the normalised query are never upper case. */
  lemma NormalizedIsLowerCase(query: string)
    ensures forall c | c in Normalize(query) :: !IsUpper(c)
  {
    var lowered := Lower(query);
    var (a, b) := StripBounds(lowered);
    forall c | c in Normalize(query) ensures !IsUpper(c) {
      var k :| 0 <= k < b - a && Normalize(query)[k] == c;
      assert c == lowered[a + k];
    }
  }

  /** Wherever `containing the letter\s+([a-zA-Z0-9])` is found, so is
      `containing.*letter\s+([a-zA-Z0-9])`. */
  lemma TheLetterImpliesAnyLetter(q: string)
    ensures Captured(ContainingTheLetter, q).Some? ==> Captured(ContainingThenLetter, q).Some?
  {
    if Captured(ContainingTheLetter, q).Some? {
      var i := Search(ContainingTheLetter, q).value.start;
      TheLetterIsAnyLetter(q, i);
      SearchFindsMatch(ContainingThenLetter, q, i);
    }
  }

  /** Wherever `containing\s+([a-zA-Z0-9])` is found, so is
      `contain(?:s|ing)?\s+(?:the\s+)?([a-zA-Z0-9])`. */
  lemma ContainingImpliesContain(q: string)
    ensures Captured(ContainingChar, q).Some? ==> Captured(ContainChar, q).Some?
  {
    if Captured(ContainingChar, q).Some? {
      var i := Search(ContainingChar, q).value.start;
      ContainingIsContainVerb(q, i);
      SearchFindsMatch(ContainChar, q, i);
    }
  }

  /** A character capture on a query without upper-case letters is one
      [a-z0-9]. */
  lemma CaptureIsLowerAlnum(q: string, c: Option<string>)
    requires forall x | x in q :: !IsUpper(x)
    requires c.Some? ==> |c.value| == 1 && IsAlnum(c.value[0]) && c.value[0] in q
    ensures IsCharacterCapture(c)
  {
  }

  /** The findings on a normalised query are coherent. */
  lemma ObserveCoherent(query: string)
    ensures Coherent(Observe(Normalize(query)))
  {
    var q := Normalize(query);
    NormalizedIsLowerCase(query);
    TheLetterImpliesAnyLetter(q);
    ContainingImpliesContain(q);
    var o := Observe(q);
    CaptureIsLowerAlnum(q, o.letter);
    CaptureIsLowerAlnum(q, o.contain);
    CaptureIsLowerAlnum(q, o.containingThenLetter);
    CaptureIsLowerAlnum(q, o.containingTheLetter);
    CaptureIsLowerAlnum(q, o.containing);
  }

  // ---- The rule chain over coherent findings ----

  /** The last rule, `containing\s+([a-zA-Z0-9])` when nothing else matched,
      never changes the outcome: wherever it matches, the `contain(?:s|ing)?`
      rule has matched too and `parsed` is not empty. */
  lemma FallbackNeverApplies(o: Observations)
    requires Coherent(o)
    ensures Interpret(o).containsCharacter == Character(o)
  {
  }

  /** The character rules only ever produce one [a-z0-9] character, which
      lower-casing leaves unchanged. */
  lemma CharacterIsLowerAlnum(o: Observations)
    requires Coherent(o)
    ensures IsCharacterCapture(Interpret(o).containsCharacter)
    ensures Interpret(o).containsCharacter.Some? ==>
      Lower(Interpret(o).containsCharacter.value) == Interpret(o).containsCharacter.value
  {
    var c := Interpret(o).containsCharacter;
    if c.Some? {
      assert Lower(c.value) == [LowerChar(c.value[0])];
    }
  }

  /** Validation of the rules' filters never fails on the single-character
      check, keeps every key as the rules wrote it, and fails only on an empty
      result or inconsistent bounds. */
  lemma ValidateInterpret(o: Observations)
    requires Coherent(o)
    ensures var f := Interpret(o);
      Validate(f) == if f == NoFilters then Failure(Unparsable)
                     else if f.minLength.Some? && f.maxLength.Some? && f.minLength.value > f.maxLength.value
                     then Failure(ConflictingLengths)
                     else Success(f)
  {
    CharacterIsLowerAlnum(o);
  }

  // ---- The parser ----

  /** Parsing a non-empty normalised query validates the rules' filters,
      which validation passes on unchanged. */
  lemma ParseIsValidatedRules(query: string)
    requires Normalize(query) != []
    ensures var f := Interpret(Observe(Normalize(query)));
      Parse(query) == if f == NoFilters then Failure(Unparsable)
                      else if f.minLength.Some? && f.maxLength.Some? && f.minLength.value > f.maxLength.value
                      then Failure(ConflictingLengths)
                      else Success(f)
  {
    ObserveCoherent(query);
    ValidateInterpret(Observe(Normalize(query)));
  }

  /** A successful parse is well formed. */
  lemma ParseSuccessIsWellFormed(query: string)
    ensures Parse(query).Success? ==> WellFormed(Parse(query).value)
  {
    var q := Normalize(query);
    if q != [] {
      ObserveCoherent(query);
      CharacterIsLowerAlnum(Observe(q));
      ParseIsValidatedRules(query);
    }
  }

  /** The check that contains_character is a single character never fails. */
  lemma NeverNotSingleCharacter(query: string)
    ensures Parse(query) != Failure(NotSingleCharacter)
  {
    if Normalize(query) != [] {
      ParseIsValidatedRules(query);
    }
  }

  /** None of the rule chain's tests finds anything. */
  predicate NothingFound(o: Observations) {
    && !o.palindrome
    && !o.singleWord
    && o.longerThan.None?
    && o.shorterThan.None?
    && o.ofLength.None?
    && o.letter.None?
    && o.contain.None?
    && !o.firstVowel
    && o.containingThenLetter.None?
  }

  /** A non-empty query is rejected as unparsable exactly when no rule
      recognises anything in it; so a successful parse is never empty. */
  lemma UnparsableIffNothingFound(query: string)
    ensures Parse(query) == Failure(Unparsable) <==>
      Normalize(query) != [] && NothingFound(Observe(Normalize(query)))
  {
    if Normalize(query) != [] {
      ParseIsValidatedRules(query);
      ObserveCoherent(query);
    }
  }

  /** The lengths conflict exactly when no explicit length was given and
      "longer than N" asks for more than "shorter than M" allows. */
  lemma ConflictIffLongerExceedsShorter(query: string)
    ensures var o := Observe(Normalize(query));
      Parse(query) == Failure(ConflictingLengths)
      <==> Normalize(query) != [] && o.ofLength.None? && o.longerThan.Some? && o.shorterThan.Some?
           && o.longerThan.value + 1 > AtLeastZeroPredecessor(o.shorterThan.value)
  {
    if Normalize(query) != [] {
      ParseIsValidatedRules(query);
    }
  }

  /** "length of N" or "of length N" overrides both bounds and always parses. */
  lemma ExplicitLengthWins(query: string, n: nat)
    requires Observe(Normalize(query)).ofLength == Some(n)
    ensures Parse(query).Success?
    ensures Parse(query).value.minLength == Some(n) && Parse(query).value.maxLength == Some(n)
  {
    EmptyHasNoLength(Normalize(query));
    ParseIsValidatedRules(query);
  }

  /** No pattern with a digit group matches the empty query. */
  lemma EmptyHasNoLength(q: string)
    requires Observe(q).ofLength.Some?
    ensures q != []
  {
  }

  /** "palindrom" anywhere sets is_palindrome, the single-word phrases set
      word_count, and nothing else sets either; without an explicit length,
      "longer than N" gives min_length N + 1 and "shorter than M" gives
      max_length max(0, M - 1). */
  lemma SuccessfulParse(query: string)
    requires Parse(query).Success?
    ensures var o, f := Observe(Normalize(query)), Parse(query).value;
      && f.isPalindrome == (if o.palindrome then Some(true) else None)
      && f.wordCount == (if o.singleWord then Some(1) else None)
      && f.minLength == (if o.ofLength.Some? then o.ofLength
                         else if o.longerThan.Some? then Some(o.longerThan.value + 1) else None)
      && f.maxLength == (if o.ofLength.Some? then o.ofLength
                         else if o.shorterThan.Some? then Some(AtLeastZeroPredecessor(o.shorterThan.value)) else None)
      && f.containsCharacter == Character(o)
  {
    ParseIsValidatedRules(query);
    ObserveCoherent(query);
    FallbackNeverApplies(Observe(Normalize(query)));
  }

  /** "first vowel" forces 'a' unless a `containing ... letter x` rule fires. */
  lemma FirstVowelForcesA(query: string)
    requires var o := Observe(Normalize(query)); o.firstVowel && o.containingThenLetter.None?
    ensures Parse(query).Success? ==> Parse(query).value.containsCharacter == Some("a")
  {
    if Parse(query).Success? {
      SuccessfulParse(query);
      ObserveCoherent(query);
    }
  }

  /** A "letter x" match blocks the generic `contain...` rule: unless a later
      rule overrides it, the character is x even when `contain...` matches
      elsewhere. */
  lemma LetterBlocksContain(query: string, x: string)
    requires var o := Observe(Normalize(query));
      o.letter == Some(x) && !o.firstVowel && o.containingThenLetter.None?
    ensures Parse(query).Success? ==> Parse(query).value.containsCharacter == Some(x)
  {
    if Parse(query).Success? {
      SuccessfulParse(query);
      ObserveCoherent(query);
    }
  }

  /** Without "letter x", the `contain(?:s|ing)?\s+(?:the\s+)?` rule sets the
      character. */
  lemma ContainRuleWhenNoLetter(query: string, x: string)
    requires var o := Observe(Normalize(query));
      o.letter.None? && o.contain == Some(x) && !o.firstVowel && o.containingThenLetter.None?
    ensures Parse(query).Success? ==> Parse(query).value.containsCharacter == Some(x)
  {
    if Parse(query).Success? {
      SuccessfulParse(query);
      ObserveCoherent(query);
    }
  }

  /** `containing.*letter x` overrides "first vowel", "letter" and `contain...`,
      and is itself overridden only by "containing the letter x". */
  lemma ContainingLetterOverrides(query: string, x: string)
    requires var o := Observe(Normalize(query));
      o.containingThenLetter == Some(x) && !TheLetterRuleApplies(o)
    ensures Parse(query).Success? ==> Parse(query).value.containsCharacter == Some(x)
  {
    if Parse(query).Success? {
      SuccessfulParse(query);
    }
  }

  /** "containing the letter x" is the last word on the character. */
  lemma TheLetterWins(query: string, x: string)
    requires var o := Observe(Normalize(query));
      o.theLetterPhrase && o.containingTheLetter == Some(x)
    ensures Parse(query).Success? ==> Parse(query).value.containsCharacter == Some(x)
  {
    if Parse(query).Success? {
      SuccessfulParse(query);
    }
  }
}
