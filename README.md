# String analyzer service: the analysis and query-parsing core

The service stores strings together with a record of their properties and
lets clients filter the stored strings, either by explicit query parameters or
by a short English sentence. This project models the two pure parts of that
service, both in `app/utils.py`, and proves what they promise.

- **The string analyzer** (`analyze_string`) maps a string to its properties
  record: length, case-insensitive palindrome flag, number of distinct
  characters, number of words (maximal runs of non-whitespace), SHA-256 hash
  and character-frequency map. Module `Analyzer`, on the character helpers of
  module `Text`.
- **The natural-language query interpreter** (`parse_natural_language_query`)
  lower-cases and strips the query, runs a fixed chain of heuristic rules that
  write keys of a filter dict (`is_palindrome`, `word_count`, `min_length`,
  `max_length`, `contains_character`), later rules overwriting earlier ones,
  and then validates the result. Module `Patterns` writes out each regular
  expression the rules hand to `re.search` as a small matcher with
  leftmost-match semantics (greedy `\d+`, `\s+` over CPython's whitespace set,
  greedy `.*` that stops at a newline). Module `Interpreter` holds the
  imperative parser (`ParseNaturalLanguageQuery`, which threads the filter
  record through the rules as the source does), the declarative reading of
  the rule chain it is proved equal to (`Observe`: what each pattern finds;
  `Interpret`: how the rules combine the findings; `Validate`; `Parse`), and
  the lemmas about it. Module `QueryExamples` works four sentences through the
  parser.

The four errors the parser raises itself as `ValueError` (app/utils.py:41,
103, 107 and 116) are the values of `Interpreter.ParseError`, whose `Message`
gives the source's exact texts. The `ValueError` that `int()` can raise on a
very long run of digits is not modelled (see "Left out").

One observation from the proofs: the rule at app/utils.py:96-100
(`containing\s+([a-zA-Z0-9])`, tried only when nothing else matched) never
changes the outcome. Wherever it would match, the earlier
`contain(?:s|ing)?\s+(?:the\s+)?([a-zA-Z0-9])` rule has already matched at
the same index, so `parsed` is not empty there (`FallbackNeverApplies`).
The model keeps the rule as written.

## Model

| member | source | states |
|---|---|---|
| Text.LowerChar | app/utils.py:21 | lower-casing maps an ASCII capital to its small letter, leaves every other character alone, and never yields a capital |
| Text.Lower | app/utils.py:39 | `str.lower()` (also used at line 21) lower-cases the string character by character with `LowerChar`; `LowerAt` states its length and each character, `LowerUnchanged` that it leaves a string without capitals alone |
| Text.StripBounds | app/utils.py:39 | strip keeps one contiguous slice: everything before and after it is whitespace, and the kept part neither starts nor ends with whitespace |
| Text.StripEmpty | app/utils.py:39-41 | the stripped query is empty exactly when the query consists of whitespace only |
| Text.Strip | app/utils.py:39 | `str.strip()` keeps the slice that `StripBounds` describes; `StripEmpty` and `StripUnchanged` state when it is empty and when it changes nothing |
| Text.Reverse | app/utils.py:22 | the slice `s[::-1]`; `ReverseAt` states its length and that index i holds the character mirrored to it |
| Text.Contains | app/utils.py:45 | Python's `p in q` (also at lines 49, 82 and 91): p occurs at some index of q; `ContainsPrefix`, `AbsentCharNotContained` and `AbsentPairNotContained` state when it holds and when it cannot |
| Text.DecimalValue | app/utils.py:55 | `int()` of a run of ASCII digits (also at lines 61 and 67), the digits read most significant first; `DecimalLeadingZero` states that leading zeros do not change it |
| Text.DecimalLeadingZero | app/utils.py:55 | `int("0" + ds) == int(ds)` for every run of digits ds |
| Text.DigitRun | app/utils.py:53 | `\d+` takes the longest run of ASCII digits: all digits, followed by a non-digit or the end |
| Analyzer.CharacterFrequency | app/utils.py:13-14 | `dict(Counter(value))`, built by counting one character at a time; its keys and counts are stated by `FrequencyCounts`, their sum by `FrequencySumIsLength` |
| Analyzer.FrequencyCounts | app/utils.py:13-14 | the keys of the frequency map are exactly the characters of the string, and each count is that character's number of occurrences, so at least 1 |
| Analyzer.FrequencySumIsLength | app/utils.py:13-14 | the counts of the frequency map add up to the length of the string |
| Analyzer.UniqueCharacters | app/utils.py:29 | `len(set(value))`, the size of the set of the string's characters; `UniqueCharactersBound` relates it to the frequency map and the length |
| Analyzer.UniqueCharactersBound | app/utils.py:29 | `len(set(value))` equals the number of keys of the frequency map, is at most the length, and is zero only for the empty string |
| Analyzer.WordsFrom | app/utils.py:16-18 | the scan `re.findall(r"\S+", value)` makes from index i: past a whitespace character by one, past a match by the whole run of non-whitespace, counting the matches; `WordsAreWordStarts` and `NoWordsInWhitespace` state what it counts |
| Analyzer.WordCount | app/utils.py:16-18 | `len(re.findall(r"\S+", value))`, the scan from index 0; `WordCountIsRunCount` states it is the number of maximal non-whitespace runs |
| Analyzer.WordsAreWordStarts | app/utils.py:16-18 | scanning left to right as `re.findall(r"\S+")` does (step over whitespace, take a whole non-whitespace run) counts exactly the word starts from any word boundary on |
| Analyzer.NoWordsInWhitespace | app/utils.py:16-18 | the scan from an index finds no word exactly when every character from there on is whitespace |
| Analyzer.WordCountIsRunCount | app/utils.py:16-18 | the word count is the number of maximal non-whitespace runs, at most the length, and zero exactly for whitespace-only strings |
| Analyzer.IsPalindromeCaseInsensitive | app/utils.py:20-22 | `value.lower() == value.lower()[::-1]`; `PalindromeIffMirrored` and `PalindromeUnderReversal` state what it decides |
| Analyzer.PalindromeIffMirrored | app/utils.py:20-22 | a string is a palindrome exactly when each lower-cased character equals the lower-cased character mirrored to it |
| Analyzer.PalindromeUnderReversal | app/utils.py:20-22 | reversing a string does not change whether it is a palindrome |
| Analyzer.AnalyzeString | app/utils.py:24-34 | the properties record: its length, its frequency map (keys, counts and sum), distinct count, word count, palindrome flag and hash, each related to the string |
| Analyzer.AnalyzeEmpty | app/utils.py:24-32 | the empty string has length, word count and distinct count zero, an empty frequency map, and is a palindrome |
| Analyzer.PalindromeExamples | test/test_api.py:9-14 | "Abba" is a palindrome and "hello" is not |
| Patterns.NumberAt | app/utils.py:65 | a digit pattern at an index captures a non-empty run of digits of the query, and matches only where one of its literal alternatives occurs |
| Patterns.NumberAtMeaning | app/utils.py:53 | a numeric pattern matches at i exactly when one of its alternatives is followed by a digit there, and the group is then the whole run of digits after the first such alternative in order |
| Patterns.SpacedCharAt | app/utils.py:72 | `word\s+([a-zA-Z0-9])` at an index captures one alphanumeric character of the query, and matches only where the word occurs |
| Patterns.SpacedCharAtMeaning | app/utils.py:72 | `word\s+([a-zA-Z0-9])` captures c at i exactly when the word occurs at i and non-empty whitespace after it is followed by c, a character of [a-zA-Z0-9] |
| Patterns.ContainVerbAt | app/utils.py:77 | the `contain...` pattern (contain, contains or containing, optionally "the", then one [a-zA-Z0-9]) captures one alphanumeric character of the query, and matches only where "contain" occurs |
| Patterns.ContainVerbAtMeaning | app/utils.py:77 | the `contain...` pattern captures c at i exactly when "contain", one of its endings and whitespace lead to an index from which `the\s+` reaches c, or, when no [a-zA-Z0-9] follows such a `the\s+`, c is the character found there |
| Patterns.LastInLine | app/utils.py:86 | the greedy `.*` before `letter\s+([a-zA-Z0-9])` settles on the last match reachable without crossing a newline, and there is none after it |
| Patterns.MatchAt | app/utils.py:53-98 | whatever pattern matches captures a group of its own shape (digits, or one alphanumeric character) drawn from the query |
| Patterns.SearchFrom | app/utils.py:53 | re.search finds the leftmost index at which the pattern matches, and nothing matches before it; finding nothing means no index matches |
| Patterns.Search | app/utils.py:53 | `re.search(p, q)`, the search from index 0; `SearchFrom` states it is the leftmost match |
| Patterns.Captured | app/utils.py:53-98 | `m.group(1)` of a found match has the shape of the pattern's group and consists of characters of the query |
| Patterns.SearchFindsMatch | app/utils.py:53 | a pattern that matches somewhere is found, at that index or earlier |
| Patterns.NotFoundWhenCannotMatch | app/utils.py:53-98 | a pattern whose literal text does not occur in the query (or, for a digit pattern, a query without digits) is not found |
| Patterns.FoundAt | app/utils.py:53-98 | a match at an index with no occurrence of the pattern's literal text before it is the match re.search returns |
| Patterns.ContainingIsContainVerb | app/utils.py:77-100 | every `containing\s+([a-zA-Z0-9])` match is also a `contain...` match at the same index |
| Patterns.TheLetterIsAnyLetter | app/utils.py:86-94 | every `containing the letter\s+([a-zA-Z0-9])` match is also a `containing.*letter\s+([a-zA-Z0-9])` match at the same index |
| Interpreter.Normalize | app/utils.py:39 | `query.lower().strip()`; `NormalizedIsLowerCase` states it holds no capital, `EmptyQueryRejected` when it is empty |
| Interpreter.Observe | app/utils.py:43-100 | what each test of the rule chain finds in the normalised query, each `re.search` through `Captured` and `int()` through `DecimalValue`; `ObserveCoherent` states how the findings relate |
| Interpreter.MinLength | app/utils.py:52-69 | min_length after the length rules: the explicit length if one was found, else N+1 for "longer than N"; `LengthRules` states that the source's writes produce it |
| Interpreter.MaxLength | app/utils.py:58-69 | max_length after the length rules: the explicit length if one was found, else max(0, M-1) for "shorter than M"; `LengthRules` states that the source's writes produce it |
| Interpreter.Character | app/utils.py:71-94 | contains_character after the five character rules, the rule applied last taking precedence; `ApplyCharacterRules` states that the source's writes produce it, and the precedence lemmas below state each case |
| Interpreter.Interpret | app/utils.py:43-100 | the filters the rules produce from the findings, the `containing\s+` rule applying only when nothing else did; `SuccessfulParse` and `FallbackNeverApplies` state what it gives |
| Interpreter.Validate | app/utils.py:102-116 | the checks after the rules: empty, then not one character, then lower-casing, then min > max; `ValidateInterpret` states its outcomes |
| Interpreter.Parse | app/utils.py:38-118 | the whole parser as one function; `ParseNaturalLanguageQuery` is proved equal to it, and `ParseIsValidatedRules`, `ParseSuccessIsWellFormed` and the lemmas below state what it returns |
| Interpreter.ApplyLengthRules | app/utils.py:52-69 | the three length rules leave min_length as the explicit length, else N+1 for "longer than N"; max_length as the explicit length, else max(0, M-1) for "shorter than M" |
| Interpreter.LengthRules | app/utils.py:55-69 | writing the three length findings in source order leaves min_length and max_length as the declarative precedence of an explicit length over "longer than" / "shorter than" |
| Interpreter.ApplyCharacterRules | app/utils.py:71-94 | the five character rules leave contains_character as the declarative precedence `Character` of what the patterns find |
| Interpreter.ParseNaturalLanguageQuery | app/utils.py:38-118 | the parser returns exactly the declarative `Parse`; a success is well formed; it fails as empty exactly for whitespace-only queries |
| Interpreter.ValidateParsed | app/utils.py:102-116 | the validation steps run in source order return exactly the declarative `Validate` |
| Interpreter.EmptyQueryRejected | app/utils.py:39-41 | the query is rejected as empty, before any rule runs, exactly when it is whitespace only |
| Interpreter.NormalizedIsLowerCase | app/utils.py:39 | the normalised query holds no capital letter |
| Interpreter.TheLetterImpliesAnyLetter | app/utils.py:86-94 | whenever "containing the letter x" is captured, `containing.*letter x` is captured too |
| Interpreter.ContainingImpliesContain | app/utils.py:77-100 | whenever `containing\s+x` is captured, the `contain...` pattern is captured too |
| Interpreter.CaptureIsLowerAlnum | app/utils.py:72-100 | a character captured from a query without capitals is one of [a-z0-9] |
| Interpreter.ObserveCoherent | app/utils.py:39-100 | on a normalised query every character capture is one [a-z0-9] and the implications between the patterns hold |
| Interpreter.FallbackNeverApplies | app/utils.py:96-100 | the last rule, tried only when nothing matched, never changes contains_character |
| Interpreter.CharacterIsLowerAlnum | app/utils.py:105-111 | the character the rules produce is one [a-z0-9], which lower-casing leaves unchanged |
| Interpreter.ValidateInterpret | app/utils.py:102-116 | validation of the rules' filters fails only as unparsable (empty) or conflicting (min > max) and otherwise returns them unchanged |
| Interpreter.ParseIsValidatedRules | app/utils.py:38-118 | a non-empty query parses to the rules' filters unless they are empty or their bounds conflict |
| Interpreter.ParseSuccessIsWellFormed | app/utils.py:102-118 | a successful parse is non-empty, its flags hold True and 1, its character is one [a-z0-9], and min_length <= max_length |
| Interpreter.NeverNotSingleCharacter | app/utils.py:105-107 | the single-character check never fails |
| Interpreter.UnparsableIffNothingFound | app/utils.py:96-103 | a non-empty query is unparsable exactly when none of the rules' tests finds anything |
| Interpreter.ConflictIffLongerExceedsShorter | app/utils.py:113-116 | the parse fails on conflicting lengths exactly when there is no explicit length and N+1 for "longer than N" exceeds max(0, M-1) for "shorter than M" |
| Interpreter.ExplicitLengthWins | app/utils.py:64-69 | "length of N" / "of length N" sets both bounds to N, overriding the other length rules, and the parse succeeds |
| Interpreter.SuccessfulParse | app/utils.py:44-94 | in a successful parse, is_palindrome is True exactly when "palindrom" occurs, word_count is 1 exactly when a single-word phrase occurs, and the bounds and character follow the rule precedence |
| Interpreter.FirstVowelForcesA | app/utils.py:81-88 | "first vowel" makes the character 'a' unless a `containing.*letter x` match overrides it |
| Interpreter.LetterBlocksContain | app/utils.py:72-79 | a "letter x" match keeps the generic `contain...` rule from replacing x |
| Interpreter.ContainRuleWhenNoLetter | app/utils.py:76-79 | without a "letter x" match, the generic `contain...` rule sets the character |
| Interpreter.ContainingLetterOverrides | app/utils.py:85-88 | `containing.*letter x` overrides "first vowel", "letter x" and `contain...` unless "containing the letter y" follows |
| Interpreter.TheLetterWins | app/utils.py:90-94 | "containing the letter x" decides the character over every other rule |
| QueryExamples.SingleWordPalindromeQuery | test/test_api.py:37-41 | "all single word palindromic strings" parses to exactly is_palindrome True and word_count 1 |
| QueryExamples.LongerTenShorterFiveQuery | app/utils.py:113-116 | "longer than 10 shorter than 5" fails with conflicting lengths (min 11 > max 4) |
| QueryExamples.OfLengthThreeQuery | app/utils.py:64-69 | "strings of length 3" parses to exactly min_length 3 and max_length 3 |
| QueryExamples.ContainingTheLetterZQuery | app/utils.py:85-94 | "strings containing the letter z" parses to exactly contains_character "z" |

## Left out

- `sha256_of` (app/utils.py:10-11) calls hashlib. The model takes the hash as a function parameter of `AnalyzeString` and does not model SHA-256 or the UTF-8 encoding; being a function, it gives equal hashes for equal strings.
- `str.lower()` is modelled for the ASCII letters only. Python also lower-cases non-ASCII letters, and some of them into several characters.
- Text.DecimalValue: does not model CPython's limit on integer string conversion. Since 3.11 (and 3.10.7, 3.9.14, 3.8.14, 3.7.14), `int()` raises `ValueError` ("Exceeds the limit (4300 digits) for integer string conversion") on a run of more than 4300 digits, at app/utils.py:55, 61 and 67, and app/main.py:315-316 turns that into a 400. For such a query the model returns a length bound instead. The limit depends on the interpreter version and on `sys.set_int_max_str_digits`, which are outside this model.
- `\d` and `int()` are modelled for ASCII digits only. Python's `\d` on str patterns also matches other Unicode decimal digits.
- Whitespace (`strip()`, `\s`, `\S`) is CPython's whitespace set, written out in `Text.IsSpace`.
- Python's regex engine is not modelled in general. Each of the eight patterns the rules use has its own matcher, with its backtracking worked out by hand in the matcher's comment.
- Key order of the dicts is not modelled. `character_frequency` and `parsed` are insertion-ordered dicts in Python; the model uses a `map` and a record of optional fields.
- Python strings may hold lone surrogates; Dafny characters cannot.
- Errors are `ParseError` values in a `Result`, not raised exceptions.
- `app/main.py` (HTTP routes, status codes, response shaping and its repeated min > max check), `app/crud.py` (database queries), `app/models.py`, `app/schemas.py` and `app/database.py` are not part of this model. They are HTTP and persistence plumbing around the core.
