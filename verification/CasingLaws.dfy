/** What each casing rule makes of each word it is given. */
module CasingLaws {
  import opened Text
  import opened Casing

  // --------------------------------------------------------------- letters

  const VOWELS: set<char> := {'a', 'e', 'i', 'o', 'u', 'y'}

  /** A vowel stands somewhere in `part`, in either case. */
  lemma VowelIff(part: string)
    ensures HasVowel(part) <==> exists i :: 0 <= i < |part| && LowerChar(part[i]) in VOWELS
  {
    assert forall c :: IsVowel(c) <==> c in VOWELS;
  }

  /** A part without a vowel is a run of initials, and all in capitals. */
  lemma InitialsAreCapitals(part: string)
    requires forall i :: 0 <= i < |part| ==> LowerChar(part[i]) !in VOWELS
    ensures NamePart(part) == Upper(part)
  {
    VowelIff(part);
  }

  predicate SomeUpper(s: string) { exists i :: 0 <= i < |s| && IsUpperChar(s[i]) }

  predicate SomeLower(s: string) { exists i :: 0 <= i < |s| && IsLowerChar(s[i]) }

  lemma OneCaseIff(s: string)
    ensures OneCase(s) <==> !(SomeUpper(s) && SomeLower(s))
  {
    if !SomeUpper(s) {
      assert forall i :: 0 <= i < |s| ==> Lower(s)[i] == s[i];
      assert s == Lower(s);
    }
    if !SomeLower(s) {
      assert forall i :: 0 <= i < |s| ==> Upper(s)[i] == s[i];
      assert s == Upper(s);
    }
    if SomeUpper(s) && SomeLower(s) {
      var i :| 0 <= i < |s| && IsUpperChar(s[i]);
      var j :| 0 <= j < |s| && IsLowerChar(s[j]);
      assert Lower(s)[i] != s[i] && Upper(s)[j] != s[j];
    }
  }

  // ------------------------------------------------------------- addresses

  /**
   The letter at `i` of a word opens a piece of it: its first, one after a hyphen, or one after an apostrophe with a
   single character before it, alone since the word began or since the last hyphen or apostrophe.
   */
  predicate OpensPiece(word: string, i: nat)
    requires i < |word|
  {
    || i == 0 || word[i - 1] == '-'
    || (word[i - 1] == '\'' && i >= 2 && word[i - 2] != '\'' && word[i - 2] != '-'
        && (i == 2 || word[i - 3] == '\'' || word[i - 3] == '-'))
  }

  /** `word` with capitals exactly where its pieces open. */
  ghost predicate InTitle(word: string, cased: string) {
    && |cased| == |word|
    && forall i :: 0 <= i < |word| ==> cased[i] == if OpensPiece(word, i) then UpperChar(word[i]) else LowerChar(word[i])
  }

  /** A word is free of `sep`, or falls apart at the first one. */
  lemma {:induction false} FirstCut(word: string, sep: char) returns (first: string, rest: string)
    requires sep in word
    ensures word == first + [sep] + rest && sep !in first
    ensures Split(word, sep) == [first] + Split(rest, sep)
  {
    if word[0] == sep {
      first, rest := "", word[1..];
    } else {
      var f, r := FirstCut(word[1..], sep);
      first, rest := [word[0]] + f, r;
    }
    SplitAfter(first, rest, sep);
  }

  lemma JoinLed(first: string, rest: seq<string>, sep: char)
    requires rest != []
    ensures Join([first] + rest, sep) == first + [sep] + Join(rest, sep)
  {
    assert ([first] + rest)[1..] == rest;
  }

  lemma FreeInTitle(word: string)
    requires '-' !in word
    ensures InTitle(word, TitlePart(word))
  {
  }

  lemma LedInTitle(first: string, rest: string, cased: string)
    requires '-' !in first && InTitle(rest, cased)
    ensures InTitle(first + ['-'] + rest, TitlePart(first) + ['-'] + cased)
  {
    var word, all, n := first + ['-'] + rest, TitlePart(first) + ['-'] + cased, |first| + 1;
    forall i | 0 <= i < |word|
      ensures all[i] == if OpensPiece(word, i) then UpperChar(word[i]) else LowerChar(word[i])
    {
      if i < |first| {
        assert word[i] == first[i] && all[i] == TitlePart(first)[i];
        assert OpensPiece(word, i) == OpensInTitle(first, i);
      } else if i > |first| {
        var j := i - n;
        assert word[i] == rest[j] && all[i] == cased[j];
        assert OpensPiece(word, i) == OpensPiece(rest, j);
      }
    }
  }

  lemma TitledLed(first: string, parts: seq<string>)
    requires parts != []
    ensures Join(TitleParts([first] + parts), '-') == TitlePart(first) + ['-'] + Join(TitleParts(parts), '-')
  {
    assert TitleParts([first] + parts) == [TitlePart(first)] + TitleParts(parts);
    JoinLed(TitlePart(first), TitleParts(parts), '-');
  }

  lemma TitledAlone(part: string)
    ensures Join(TitleParts([part]), '-') == TitlePart(part)
  {
    assert TitleParts([part]) == [TitlePart(part)];
  }

  lemma {:induction false} WordInTitle(word: string)
    ensures InTitle(word, Join(TitleParts(Split(word, '-')), '-'))
    decreases |word|
  {
    if '-' in word {
      var first, rest := FirstCut(word, '-');
      WordInTitle(rest);
      TitledLed(first, Split(rest, '-'));
      LedInTitle(first, rest, Join(TitleParts(Split(rest, '-')), '-'));
    } else {
      SplitOfFree(word, '-');
      FreeInTitle(word);
      TitledAlone(word);
    }
  }

  predicate CarriesDigit(word: string) { exists i :: 0 <= i < |word| && '0' <= word[i] <= '9' }

  /** Word by word, an address keeps what carries a digit, and opens every piece of the rest with a capital. */
  lemma TitleByWord(value: string, k: nat)
    requires k < |Split(Collapse(value), ' ')|
    ensures
      var word, cased := Split(Collapse(value), ' ')[k], Split(TitleCaseWords(value), ' ');
      && |cased| == |Split(Collapse(value), ' ')|
      && (CarriesDigit(word) ==> cased[k] == word)
      && (!CarriesDigit(word) ==> InTitle(word, cased[k]))
  {
    CollapseIsCollapsed(value);
    var trimmed := Collapse(value);
    var words := Split(trimmed, ' ');
    CollapsedStays(trimmed);
    SameWordCount(trimmed);
    WordInTitle(words[k]);
    DigitIff(words[k]);
  }

  lemma DigitIff(word: string)
    ensures HasDigit(word) <==> CarriesDigit(word)
  {
    if i :| 0 <= i < |word| && '0' <= word[i] <= '9' {
      assert IsDigit(word[i]);
    }
    if i :| 0 <= i < |word| && IsDigit(word[i]) {
      assert '0' <= word[i] <= '9';
    }
  }

  // ----------------------------------------------------------------- names

  lemma NamesWords(lists: WordLists, value: string, particleLeads: bool)
    requires OneCase(Collapse(value))
    ensures Split(CasedName(lists, value, particleLeads), ' ')
         == NameWords(lists, Split(Collapse(value), ' '), particleLeads)
  {
    CollapseIsCollapsed(value);
    var words := Split(Collapse(value), ' ');
    forall i | 0 <= i < |words|
      ensures Alike(NameWord(lists, words[i], i == 0, particleLeads && |words| > 1), words[i])
    {
      NameWordAlike(lists, words[i], i == 0, particleLeads && |words| > 1);
    }
    CasedWords(Collapse(value), NameWords(lists, words, particleLeads));
  }

  /** What the rules for a name make of `word`, where it may be a particle, and where it may be a suffix. */
  ghost predicate NamedAs(lists: WordLists, word: string, particle: bool, suffix: bool, cased: string) {
    if particle && Lower(word) in lists.particles then cased == Lower(word)
    else if suffix && Lower(word) in lists.suffixes then cased == Upper(word)
    else
      var parts, whole := Split(word, '-'), Split(cased, '-');
      |whole| == |parts| && forall j :: 0 <= j < |parts| ==> whole[j] == NamePart(parts[j])
  }

  lemma HyphensStay(word: string)
    ensures Split(Join(NameParts(Split(word, '-')), '-'), '-') == NameParts(Split(word, '-'))
  {
    var parts := Split(word, '-');
    JoinSplit(word, '-');
    forall i | 0 <= i < |parts| ensures Alike(NamePart(parts[i]), parts[i]) {
      NamePartAlike(parts[i]);
    }
    AlikeFree(parts, NameParts(parts), '-');
    SplitJoin(NameParts(parts), '-');
  }

  /**
   A name with letters in both cases stays as typed.  Of any other, word by word, a particle is written small past the
   first word, and a suffix in capitals; every other word is cased part by part.  In a last name of several words a
   particle that leads is written small too.
   */
  lemma NamesByWord(lists: WordLists, value: string, k: nat)
    ensures SomeUpper(Collapse(value)) && SomeLower(Collapse(value)) ==>
      PersonName(lists, value) == Collapse(value) && PersonLastName(lists, value) == Collapse(value)
    ensures !(SomeUpper(Collapse(value)) && SomeLower(Collapse(value))) ==>
      var words := Split(Collapse(value), ' ');
      var first, last := Split(PersonName(lists, value), ' '), Split(PersonLastName(lists, value), ' ');
      && |first| == |words| && |last| == |words|
      && (k < |words| ==>
            && NamedAs(lists, words[k], k > 0, k > 0, first[k])
            && NamedAs(lists, words[k], k > 0 || |words| > 1, k > 0, last[k]))
  {
    OneCaseIff(Collapse(value));
    if OneCase(Collapse(value)) {
      var words := Split(Collapse(value), ' ');
      NamesWords(lists, value, false);
      NamesWords(lists, value, true);
      if k < |words| {
        HyphensStay(words[k]);
      }
    }
  }

  // ------------------------------------------------------------ businesses

  /** The registry's own capitals are kept: a short word without a vowel, or an airport's code before a business. */
  predicate KeepsCapitals(lists: WordLists, word: string, first: bool, business: bool) {
    && word != "" && (forall i :: 0 <= i < |word| ==> 'A' <= word[i] <= 'Z') && |word| <= 4
    && if forall i :: 0 <= i < |word| ==> LowerChar(word[i]) !in VOWELS then Lower(word) !in lists.wordAbbreviations
       else first && business && |word| == 4 && word[0] == 'K' && Lower(word) !in lists.kWords
  }

  lemma KeepsCapitalsIff(lists: WordLists, word: string, first: bool, business: bool)
    ensures IsShortAbbreviation(lists, word, first && business) == KeepsCapitals(lists, word, first, business)
  {
    VowelIff(word);
    assert InCapitals(word) <==> word != "" && forall i :: 0 <= i < |word| ==> 'A' <= word[i] <= 'Z';
  }

  predicate IsPoint(c: char) { c == '.' || c == ',' }

  predicate Points(s: string) { forall i :: 0 <= i < |s| ==> IsPoint(s[i]) }

  /** No point or comma stands at either end. */
  predicate Unpointed(word: string) { word != "" ==> !IsPoint(word[0]) && !IsPoint(word[|word| - 1]) }

  /** A word between points and commas is that word without them, and every word is such a one. */
  lemma {:induction false} PointsComeOff(lead: string, word: string, tail: string)
    requires Points(lead) && Points(tail) && Unpointed(word)
    ensures WithoutPoints(lead + word + tail) == word
    decreases |lead| + |tail|
  {
    var s := lead + word + tail;
    if lead != "" {
      assert s[0] == lead[0] && s[1..] == lead[1..] + word + tail;
      PointsComeOff(lead[1..], word, tail);
    } else if tail != "" {
      var n := |tail| - 1;
      if word == "" {
        assert s == tail && s[0] == tail[0] && s[1..] == "" + word + tail[1..];
        PointsComeOff("", word, tail[1..]);
      } else {
        assert s[0] == word[0] && s[|s| - 1] == tail[n] && s[..|s| - 1] == "" + word + tail[..n];
        PointsComeOff("", word, tail[..n]);
      }
    } else {
      assert s == word;
    }
  }

  lemma {:induction false} BetweenPoints(s: string) returns (lead: string, tail: string)
    ensures Points(lead) && Points(tail) && Unpointed(WithoutPoints(s)) && s == lead + WithoutPoints(s) + tail
    decreases |s|
  {
    lead, tail := "", "";
    if s != "" && IsPoint(s[0]) {
      lead, tail := BetweenPoints(s[1..]);
      lead := [s[0]] + lead;
    } else if s != "" && IsPoint(s[|s| - 1]) {
      lead, tail := BetweenPoints(s[..|s| - 1]);
      tail := tail + [s[|s| - 1]];
    }
  }

  /** Some word after the first, without the points and commas at its ends, marks a business. */
  ghost predicate MarksBusiness(lists: WordLists, words: seq<string>) {
    exists k :: 1 <= k < |words| && WithoutPoints(Lower(words[k])) in lists.markers
  }

  /** What the rules for a business's name make of `word`. */
  ghost predicate RegisteredAs(lists: WordLists, word: string, first: bool, business: bool, cased: string) {
    if Lower(word) in lists.abbreviations || '.' in word then cased == Upper(word)
    else if !first && Lower(word) in lists.smallWords then cased == Lower(word)
    else if KeepsCapitals(lists, word, first, business) || CarriesDigit(word) then cased == word
    else InTitle(word, cased)
  }

  lemma WordIsRegisteredAs(lists: WordLists, word: string, first: bool, business: bool)
    ensures RegisteredAs(lists, word, first, business, Rewritten(lists, word, first, first && business))
  {
    var title := TitleWord(word);
    TitleWordAlike(word);
    AlikePeriods(title, word);
    UpperSame(title, word);
    WordInTitle(word);
    DigitIff(word);
    KeepsCapitalsIff(lists, word, first, business);
  }

  /**
   A business's name with letters in both cases stays as it is.  Of any other, word by word, abbreviations and words
   with a period are in capitals, small words past the first are small, the registry's own short abbreviations and words
   with a digit are kept, and every other word is in title case.
   */
  lemma BusinessByWord(lists: WordLists, value: string, k: nat)
    ensures SomeUpper(Collapse(value)) && SomeLower(Collapse(value)) ==> BusinessName(lists, value) == Collapse(value)
    ensures !(SomeUpper(Collapse(value)) && SomeLower(Collapse(value))) ==>
      var words, cased := Split(Collapse(value), ' '), Split(BusinessName(lists, value), ' ');
      && |cased| == |words|
      && (k < |words| ==> RegisteredAs(lists, words[k], k == 0, MarksBusiness(lists, words), cased[k]))
  {
    OneCaseIff(Collapse(value));
    if OneCase(Collapse(value)) {
      var words := Split(Collapse(value), ' ');
      BusinessNameByWord(lists, value);
      assert MarksBusiness(lists, words) == LeadsBusiness(lists, words);
      if k < |words| {
        WordIsRegisteredAs(lists, words[k], k == 0, LeadsBusiness(lists, words));
      }
    }
  }
}
