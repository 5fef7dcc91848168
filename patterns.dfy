/** The regular expressions that the query interpreter of app/utils.py hands to
    re.search, each written out as a small matcher over the lower-cased query.
    A matcher says whether the pattern matches at a given index and what its
    first group captures; Search then gives re.search's leftmost match. */
module Patterns {
  import opened Wrappers
  import opened Text

  datatype Pattern =
      /** (?:a1|a2|...)(\d+), where each alternative is written with the
          literal text before the digits, its single space included. */
    | Number(alternatives: seq<string>)
      /** word\s+([a-zA-Z0-9]) */
    | SpacedChar(word: string)
      /** contain(?:s|ing)?\s+(?:the\s+)?([a-zA-Z0-9]) */
    | ContainVerb
      /** lead.*word\s+([a-zA-Z0-9]), where `.` is any character but a newline */
    | AnyThenSpacedChar(lead: string, word: string)

  /** What re.search returns: where the match starts, and m.group(1). */
  datatype Found = Found(start: nat, group: string)

  /** The shape of group 1: a run of digits for the numeric patterns, one
      character of [a-zA-Z0-9] for the others. */
  predicate IsGroupOf(p: Pattern, g: string) {
    if p.Number? then g != [] && forall k :: 0 <= k < |g| ==> IsDigit(g[k])
    else |g| == 1 && IsAlnum(g[0])
  }

  /** The numeric patterns at index i: the first alternative present at i and
      followed by a digit, then the greedy run of digits. */
  function NumberAt(alternatives: seq<string>, q: string, i: nat): (r: Option<string>)
    requires i <= |q|
    ensures r.Some? ==> IsGroupOf(Number(alternatives), r.value) && forall c | c in r.value :: c in q
    ensures r.Some? ==> exists a | a in alternatives :: PhraseAt(q, i, a)
  {
    if alternatives == [] then None
    else
      var j := i + |alternatives[0]|;
      if PhraseAt(q, i, alternatives[0]) && j < |q| && IsDigit(q[j]) then
        var g := q[j..j + DigitRun(q, j)];
        assert forall c | c in g :: c in q by {
          forall c | c in g ensures c in q {
            var k :| 0 <= k < |g| && g[k] == c;
            assert q[j + k] == c;
          }
        }
        Some(g)
      else
        var r := NumberAt(alternatives[1..], q, i);
        assert r.Some? ==> exists a | a in alternatives[1..] :: PhraseAt(q, i, a);
        r
  }

  /** Alternative a of a numeric pattern occurs at index i and a digit
      follows it, so `a(\d+)` matches there. */
  predicate DigitsAfter(q: string, i: nat, a: string) {
    PhraseAt(q, i, a) && i + |a| < |q| && IsDigit(q[i + |a|])
  }

  /** A numeric pattern matches at i exactly when one of its alternatives is
      followed by a digit there. */
  lemma {:induction false} NumberAtNone(alternatives: seq<string>, q: string, i: nat)
    requires i <= |q|
    ensures NumberAt(alternatives, q, i).None? <==>
            forall n :: 0 <= n < |alternatives| ==> !DigitsAfter(q, i, alternatives[n])
    decreases |alternatives|
  {
    if alternatives != [] && !DigitsAfter(q, i, alternatives[0]) {
      var rest := alternatives[1..];
      NumberAtNone(rest, q, i);
      assert forall n :: 0 < n < |alternatives| ==> alternatives[n] == rest[n - 1];
    }
  }

  /** The alternatives are tried in order: when the n-th is the first one
      followed by a digit, the group is the whole run of digits after it. */
  lemma {:induction false} NumberAtFirst(alternatives: seq<string>, q: string, i: nat, n: nat)
    requires i <= |q| && n < |alternatives| && DigitsAfter(q, i, alternatives[n])
    requires forall m :: 0 <= m < n ==> !DigitsAfter(q, i, alternatives[m])
    ensures var j := i + |alternatives[n]|;
            NumberAt(alternatives, q, i) == Some(q[j..j + DigitRun(q, j)])
    decreases n
  {
    if n > 0 {
      assert !DigitsAfter(q, i, alternatives[0]);
      var rest := alternatives[1..];
      assert rest[n - 1] == alternatives[n];
      forall m | 0 <= m < n - 1 ensures !DigitsAfter(q, i, rest[m]) {
        assert rest[m] == alternatives[m + 1];
      }
      NumberAtFirst(rest, q, i, n - 1);
    }
  }

  /** `(?:a1|a2|...)(\d+)` matches at i exactly when some alternative is
      followed by a digit there; the alternatives are tried in order, and the
      group is then the whole run of digits after the first one that is. */
  lemma NumberAtMeaning(alternatives: seq<string>, q: string, i: nat)
    requires i <= |q|
    ensures NumberAt(alternatives, q, i).Some? <==>
            exists n :: 0 <= n < |alternatives| && DigitsAfter(q, i, alternatives[n])
    ensures forall n: nat :: n < |alternatives| && DigitsAfter(q, i, alternatives[n])
                             && (forall m :: 0 <= m < n ==> !DigitsAfter(q, i, alternatives[m]))
                             ==> var j := i + |alternatives[n]|;
                                 NumberAt(alternatives, q, i) == Some(q[j..j + DigitRun(q, j)])
  {
    NumberAtNone(alternatives, q, i);
    forall n: nat | n < |alternatives| && DigitsAfter(q, i, alternatives[n])
                    && (forall m :: 0 <= m < n ==> !DigitsAfter(q, i, alternatives[m]))
      ensures var j := i + |alternatives[n]|;
              NumberAt(alternatives, q, i) == Some(q[j..j + DigitRun(q, j)])
    {
      NumberAtFirst(alternatives, q, i, n);
    }
  }

  /** `\s+` from index j stops at index e, where a character of [a-zA-Z0-9]
      follows: q[j..e] is non-empty whitespace. */
  predicate SpacesThenAlnum(q: string, j: nat, e: nat) {
    j < e < |q| && (forall k :: j <= k < e ==> IsSpace(q[k])) && IsAlnum(q[e])
  }

  /** No [a-zA-Z0-9] character is whitespace, so such an e is where the run of
      whitespace from j ends, and the greedy `\s+` has no choice to make. */
  lemma SpacesThenAlnumIsRun(q: string, j: nat, e: nat)
    requires SpacesThenAlnum(q, j, e)
    ensures e == j + SpaceRun(q, j)
  {
  }

  /** The run of whitespace at j, when [a-zA-Z0-9] follows it. */
  lemma SpaceRunThenAlnum(q: string, j: nat)
    requires j < |q| && IsSpace(q[j])
    requires j + SpaceRun(q, j) < |q| && IsAlnum(q[j + SpaceRun(q, j)])
    ensures SpacesThenAlnum(q, j, j + SpaceRun(q, j))
  {
  }

  /** word\s+([a-zA-Z0-9]) at index i. The greedy \s+ may give back
      whitespace, but a whitespace character is never [a-zA-Z0-9], so only the
      longest run of whitespace can be followed by the group. */
  function SpacedCharAt(word: string, q: string, i: nat): (r: Option<string>)
    requires i <= |q|
    ensures r.Some? ==> |r.value| == 1 && IsAlnum(r.value[0]) && r.value[0] in q
    ensures r.Some? ==> PhraseAt(q, i, word)
  {
    var j := i + |word|;
    if PhraseAt(q, i, word) && j < |q| && IsSpace(q[j]) then
      var e := j + SpaceRun(q, j);
      if e < |q| && IsAlnum(q[e]) then Some([q[e]]) else None
    else None
  }

  /** `word\s+([a-zA-Z0-9])` captures c at i exactly when the word occurs at
      i and is followed by whitespace and then c, a character of [a-zA-Z0-9]. */
  lemma SpacedCharAtMeaning(word: string, q: string, i: nat, c: char)
    requires i <= |q|
    ensures SpacedCharAt(word, q, i) == Some([c]) <==>
            PhraseAt(q, i, word) && exists e: nat :: SpacesThenAlnum(q, i + |word|, e) && q[e] == c
  {
    var j := i + |word|;
    if SpacedCharAt(word, q, i) == Some([c]) {
      SpaceRunThenAlnum(q, j);
    }
    if PhraseAt(q, i, word) && exists e: nat :: SpacesThenAlnum(q, j, e) && q[e] == c {
      var e: nat :| SpacesThenAlnum(q, j, e) && q[e] == c;
      SpacesThenAlnumIsRun(q, j, e);
      assert IsSpace(q[j]);
    }
  }

  /** Where the matcher takes `contain(?:s|ing)?` to end. */
  function VerbEnd(q: string, i: nat): nat
    requires i + 7 <= |q|
  {
    var j := i + 7;
    if j < |q| && q[j] == 's' then j + 1 else if PhraseAt(q, j, "ing") then j + 3 else j
  }

  /** What the matcher tests at e: `the`, whitespace and a character of
      [a-zA-Z0-9] after it. */
  predicate TheCond(q: string, e: nat) {
    && PhraseAt(q, e, "the") && e + 3 < |q| && IsSpace(q[e + 3])
    && e + 3 + SpaceRun(q, e + 3) < |q| && IsAlnum(q[e + 3 + SpaceRun(q, e + 3)])
  }

  /** `(?:the\s+)?([a-zA-Z0-9])` from index e: when "the" and whitespace
      follow, the character after them is taken if it is [a-zA-Z0-9];
      otherwise the engine drops the optional "the\s+" and takes the character
      at e (the "t" of "the", say). */
  function GroupFrom(q: string, e: nat): (r: Option<string>)
    requires e <= |q|
    ensures r.Some? ==> |r.value| == 1 && IsAlnum(r.value[0]) && r.value[0] in q
  {
    if TheCond(q, e) then Some([q[e + 3 + SpaceRun(q, e + 3)]])
    else if e < |q| && IsAlnum(q[e]) then Some([q[e]])
    else None
  }

  /** contain(?:s|ing)?\s+(?:the\s+)?([a-zA-Z0-9]) at index i. After
      "contain", "s", "ing" and nothing start with different characters, so at
      most one of them can be followed by \s+; the greedy \s+ gives back no
      whitespace that could help, and GroupFrom takes the group. */
  function ContainVerbAt(q: string, i: nat): (r: Option<string>)
    requires i <= |q|
    ensures r.Some? ==> |r.value| == 1 && IsAlnum(r.value[0]) && r.value[0] in q
    ensures r.Some? ==> PhraseAt(q, i, "contain")
  {
    if !PhraseAt(q, i, "contain") then None
    else
      var k := VerbEnd(q, i);
      if k < |q| && IsSpace(q[k]) then GroupFrom(q, k + SpaceRun(q, k)) else None
  }


  /** `contain(?:s|ing)?` matched at i ends at k. */
  predicate VerbEnds(q: string, i: nat, k: nat) {
    && PhraseAt(q, i, "contain")
    && (|| k == i + 7
        || (k == i + 8 && i + 7 < |q| && q[i + 7] == 's')
        || (k == i + 10 && PhraseAt(q, i + 7, "ing")))
  }

  /** `the\s+[a-zA-Z0-9]` at index e, the character at f. */
  predicate TheThenAlnum(q: string, e: nat, f: nat) {
    PhraseAt(q, e, "the") && SpacesThenAlnum(q, e + 3, f)
  }

  /** At most one ending of `contain(?:s|ing)?` is followed by whitespace, and
      it is the one the matcher picks. */
  lemma VerbEndIsUnique(q: string, i: nat, k: nat)
    requires VerbEnds(q, i, k) && k < |q| && IsSpace(q[k])
    ensures k == VerbEnd(q, i)
  {
    if k == i + 7 {
      assert !PhraseAt(q, i + 7, "ing") by {
        if PhraseAt(q, i + 7, "ing") { PhraseChar(q, i + 7, "ing", 0); }
      }
    } else if k == i + 10 {
      PhraseChar(q, i + 7, "ing", 0);
    }
  }

  lemma TheThenAlnumRun(q: string, e: nat)
    ensures (exists f: nat :: TheThenAlnum(q, e, f)) <==> TheCond(q, e)
    ensures forall f: nat :: TheThenAlnum(q, e, f) ==> f == e + 3 + SpaceRun(q, e + 3)
  {
    forall f: nat | TheThenAlnum(q, e, f) ensures f == e + 3 + SpaceRun(q, e + 3) && TheCond(q, e) {
      SpacesThenAlnumIsRun(q, e + 3, f);
    }
    if TheCond(q, e) {
      SpaceRunThenAlnum(q, e + 3);
      assert TheThenAlnum(q, e, e + 3 + SpaceRun(q, e + 3));
    }
  }

  /** `(?:the\s+)?([a-zA-Z0-9])` from index e captures c: the optional
      `the\s+` is taken when a character of [a-zA-Z0-9] follows it, and is
      otherwise dropped, leaving the group to the character at e. */
  ghost predicate GroupAfter(q: string, e: nat, c: char) {
    || (exists f: nat :: TheThenAlnum(q, e, f) && q[f] == c)
    || ((forall f: nat :: !TheThenAlnum(q, e, f)) && e < |q| && IsAlnum(q[e]) && q[e] == c)
  }

  /** The whole regex: "contain", one of its endings, whitespace, then the
      group as GroupAfter takes it. */
  ghost predicate ContainVerbCaptures(q: string, i: nat, c: char) {
    exists k: nat, e: nat :: VerbEnds(q, i, k) && SpacesThenAlnum(q, k, e) && GroupAfter(q, e, c)
  }

  lemma GroupFromMeaning(q: string, e: nat, c: char)
    requires e <= |q|
    ensures GroupFrom(q, e).Some? ==> e < |q| && IsAlnum(q[e])
    ensures GroupFrom(q, e) == Some([c]) <==> GroupAfter(q, e, c)
  {
    TheThenAlnumRun(q, e);
    if TheCond(q, e) {
      PhraseChar(q, e, "the", 0);
    }
  }

  lemma ContainVerbAtSound(q: string, i: nat, c: char)
    requires i <= |q| && ContainVerbAt(q, i) == Some([c])
    ensures ContainVerbCaptures(q, i, c)
  {
    var k := VerbEnd(q, i);
    assert VerbEnds(q, i, k);
    var e := k + SpaceRun(q, k);
    GroupFromMeaning(q, e, c);
    assert SpacesThenAlnum(q, k, e) && GroupAfter(q, e, c);
  }

  /** Once "contain", an ending and whitespace reach e, the group is taken
      from e. */
  lemma ContainVerbAtFrom(q: string, i: nat, k: nat, e: nat)
    requires VerbEnds(q, i, k) && SpacesThenAlnum(q, k, e)
    ensures ContainVerbAt(q, i) == GroupFrom(q, e)
  {
    assert IsSpace(q[k]);
    VerbEndIsUnique(q, i, k);
    SpacesThenAlnumIsRun(q, k, e);
  }

  lemma ContainVerbAtComplete(q: string, i: nat, c: char)
    requires i <= |q| && ContainVerbCaptures(q, i, c)
    ensures ContainVerbAt(q, i) == Some([c])
  {
    var k: nat, e: nat :| VerbEnds(q, i, k) && SpacesThenAlnum(q, k, e) && GroupAfter(q, e, c);
    ContainVerbAtFrom(q, i, k, e);
    GroupFromMeaning(q, e, c);
  }

  /** `contain(?:s|ing)?\s+(?:the\s+)?([a-zA-Z0-9])` captures c at i exactly
      when "contain", one of its endings and whitespace lead to an index e
      from which either `the\s+` reaches c, or, when no [a-zA-Z0-9] follows
      such a "the", c is the character at e itself. */
  lemma ContainVerbAtMeaning(q: string, i: nat, c: char)
    requires i <= |q|
    ensures ContainVerbAt(q, i) == Some([c]) <==> ContainVerbCaptures(q, i, c)
  {
    if ContainVerbAt(q, i) == Some([c]) {
      ContainVerbAtSound(q, i, c);
    }
    if ContainVerbCaptures(q, i, c) {
      ContainVerbAtComplete(q, i, c);
    }
  }

  /** No newline in q[from..to]: the stretch `.*` can cover. */
  predicate NoNewline(q: string, from: nat, to: nat)
    requires from <= to <= |q|
  {
    forall k :: from <= k < to ==> q[k] != '\n'
  }

  /** `.*word\s+([a-zA-Z0-9])` from index p: the greedy `.*` runs to the end
      of the line and backs off, so the match is the LAST index reachable
      without crossing a newline at which `word\s+([a-zA-Z0-9])` matches. */
  function LastInLine(word: string, q: string, p: nat): (r: Option<Found>)
    requires p <= |q|
    ensures r.Some? ==> p <= r.value.start <= |q| && NoNewline(q, p, r.value.start)
                        && SpacedCharAt(word, q, r.value.start) == Some(r.value.group)
    ensures r.Some? ==> forall k :: r.value.start < k <= |q| && NoNewline(q, p, k) ==> SpacedCharAt(word, q, k).None?
    ensures r.None? ==> forall k :: p <= k <= |q| && NoNewline(q, p, k) ==> SpacedCharAt(word, q, k).None?
    decreases |q| - p
  {
    var later := if p < |q| && q[p] != '\n' then LastInLine(word, q, p + 1) else None;
    if later.Some? then later
    else
      match SpacedCharAt(word, q, p)
      case Some(g) => Some(Found(p, g))
      case None => None
  }

  /** Whether the pattern matches at index i, and what group 1 captures. */
  function MatchAt(p: Pattern, q: string, i: nat): (r: Option<string>)
    requires i <= |q|
    ensures r.Some? ==> IsGroupOf(p, r.value) && forall c | c in r.value :: c in q
  {
    match p
    case Number(alternatives) => NumberAt(alternatives, q, i)
    case SpacedChar(word) => SpacedCharAt(word, q, i)
    case ContainVerb => ContainVerbAt(q, i)
    case AnyThenSpacedChar(lead, word) =>
      if PhraseAt(q, i, lead) then
        match LastInLine(word, q, i + |lead|)
        case Some(f) => Some(f.group)
        case None => None
      else None
  }

  /** re.search from index i on: the leftmost index at which the pattern matches. */
  function SearchFrom(p: Pattern, q: string, i: nat): (r: Option<Found>)
    requires i <= |q|
    ensures r.Some? ==> i <= r.value.start <= |q| && MatchAt(p, q, r.value.start) == Some(r.value.group)
    ensures r.Some? ==> forall k :: i <= k < r.value.start ==> MatchAt(p, q, k).None?
    ensures r.None? ==> forall k :: i <= k <= |q| ==> MatchAt(p, q, k).None?
    decreases |q| - i
  {
    match MatchAt(p, q, i)
    case Some(g) => Some(Found(i, g))
    case None => if i == |q| then None else SearchFrom(p, q, i + 1)
  }

  /** re.search(p, q) */
  function Search(p: Pattern, q: string): Option<Found> {
    SearchFrom(p, q, 0)
  }

  /** m.group(1) of re.search(p, q), when it matched. */
  function Captured(p: Pattern, q: string): (r: Option<string>)
    ensures r.Some? ==> IsGroupOf(p, r.value) && forall c | c in r.value :: c in q
  {
    match Search(p, q)
    case Some(f) => Some(f.group)
    case None => None
  }

  /** A pattern that matches somewhere is found by the search. */
  lemma SearchFindsMatch(p: Pattern, q: string, i: nat)
    requires i <= |q| && MatchAt(p, q, i).Some?
    ensures Search(p, q).Some? && Search(p, q).value.start <= i
  {
  }

  /** Every `containing\s+([a-zA-Z0-9])` match is also a
      `contain(?:s|ing)?\s+(?:the\s+)?([a-zA-Z0-9])` match at the same index. */
  lemma {:induction false} ContainingIsContainVerb(q: string, i: nat)
    requires i <= |q| && SpacedCharAt("containing", q, i).Some?
    ensures ContainVerbAt(q, i).Some?
  {
    assert q[i..i + 10][..7] == "contain" && q[i..i + 10][7..] == "ing";
    assert PhraseAt(q, i, "contain") && q[i + 7] == 'i';
    assert PhraseAt(q, i + 7, "ing");
  }

  /** Every `containing the letter\s+([a-zA-Z0-9])` match is also a
      `containing.*letter\s+([a-zA-Z0-9])` match at the same index. */
  lemma {:induction false} TheLetterIsAnyLetter(q: string, i: nat)
    requires i <= |q| && SpacedCharAt("containing the letter", q, i).Some?
    ensures MatchAt(AnyThenSpacedChar("containing", "letter"), q, i).Some?
  {
    var phrase := q[i..i + 21];
    assert phrase[..10] == "containing" && phrase[10..15] == " the " && phrase[15..] == "letter";
    assert PhraseAt(q, i, "containing");
    assert PhraseAt(q, i + 15, "letter");
    assert forall k :: i + 10 <= k < i + 15 ==> q[k] == phrase[k - i];
    assert NoNewline(q, i + 10, i + 15);
    assert SpacedCharAt("letter", q, i + 15).Some?;
  }

  /** The first match is the one at i when nothing matches before i. */
  lemma SearchAt(p: Pattern, q: string, i: nat)
    requires i <= |q| && MatchAt(p, q, i).Some?
    requires forall k :: 0 <= k < i ==> MatchAt(p, q, k).None?
    ensures Search(p, q) == Some(Found(i, MatchAt(p, q, i).value))
  {
  }

  /** q lacks what every match of p needs: a digit or every alternative for
      the numeric patterns, the leading text for the others. */
  predicate CannotMatch(p: Pattern, q: string) {
    match p
    case Number(alternatives) =>
      (forall c | c in q :: !IsDigit(c)) || (forall a | a in alternatives :: !Contains(q, a))
    case SpacedChar(word) => !Contains(q, word)
    case ContainVerb => !Contains(q, "contain")
    case AnyThenSpacedChar(lead, _) => !Contains(q, lead)
  }

  /** A match anywhere shows that q has what the pattern needs. */
  lemma MatchNeedsLead(p: Pattern, q: string, k: nat)
    requires k <= |q| && MatchAt(p, q, k).Some?
    ensures !CannotMatch(p, q)
  {
    var g := MatchAt(p, q, k).value;
    if p.Number? {
      assert IsDigit(g[0]) && g[0] in q;
      var a :| a in p.alternatives && PhraseAt(q, k, a);
      assert Contains(q, a);
    }
  }

  /** Such a pattern is not found. */
  lemma NotFoundWhenCannotMatch(p: Pattern, q: string)
    requires CannotMatch(p, q)
    ensures Search(p, q).None? && Captured(p, q).None?
  {
    forall k | 0 <= k <= |q| ensures MatchAt(p, q, k).None? {
      if MatchAt(p, q, k).Some? {
        MatchNeedsLead(p, q, k);
      }
    }
  }

  /** No match of p can start before index i: the text every match begins
      with does not occur there. */
  predicate CannotMatchBefore(p: Pattern, q: string, i: nat) {
    match p
    case Number(alternatives) => forall a, k | a in alternatives && 0 <= k < i :: !PhraseAt(q, k, a)
    case SpacedChar(word) => forall k | 0 <= k < i :: !PhraseAt(q, k, word)
    case ContainVerb => forall k | 0 <= k < i :: !PhraseAt(q, k, "contain")
    case AnyThenSpacedChar(lead, _) => forall k | 0 <= k < i :: !PhraseAt(q, k, lead)
  }

  /** A match at i with none possible before it is the one re.search
      returns. */
  lemma FoundAt(p: Pattern, q: string, i: nat)
    requires i <= |q| && MatchAt(p, q, i).Some? && CannotMatchBefore(p, q, i)
    ensures Search(p, q) == Some(Found(i, MatchAt(p, q, i).value))
    ensures Captured(p, q) == MatchAt(p, q, i)
  {
    forall k | 0 <= k < i ensures MatchAt(p, q, k).None? {
      if MatchAt(p, q, k).Some? {
        MatchStartsWithLead(p, q, k);
      }
    }
    SearchAt(p, q, i);
  }

  /** Every match begins with the pattern's leading text. */
  lemma MatchStartsWithLead(p: Pattern, q: string, k: nat)
    requires k <= |q| && MatchAt(p, q, k).Some?
    ensures !CannotMatchBefore(p, q, k + 1)
  {
    if p.Number? {
      var a :| a in p.alternatives && PhraseAt(q, k, a);
    }
  }
}
