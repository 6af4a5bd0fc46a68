/** Letter case for street addresses, cities, people's names and businesses' names. */
module Casing {
  import opened Text

  // ------------------------------------------------------------ whitespace

  function CollapseRuns(s: string): string {
    if s == "" then ""
    else if !IsSpace(s[0]) then [s[0]] + CollapseRuns(s[1..])
    else if |s| > 1 && IsSpace(s[1]) then CollapseRuns(s[1..])
    else " " + CollapseRuns(s[1..])
  }

  /** `value` without whitespace at its ends, and with one space for each run of it inside. */
  function Collapse(value: string): string {
    CollapseRuns(Strip(value))
  }

  /** Every whitespace character of `s` is a space, alone between two others. */
  predicate Single(s: string) {
    forall i :: 0 <= i < |s| && IsSpace(s[i]) ==> s[i] == ' ' && (i + 1 < |s| ==> !IsSpace(s[i + 1]))
  }

  predicate Collapsed(s: string) {
    Single(s) && Stripped(s)
  }

  lemma {:induction false} CollapseRunsIsSingle(s: string)
    ensures Single(CollapseRuns(s))
    ensures s != "" ==> CollapseRuns(s) != "" && (IsSpace(CollapseRuns(s)[0]) <==> IsSpace(s[0]))
    ensures s != "" ==> (IsSpace(CollapseRuns(s)[|CollapseRuns(s)| - 1]) <==> IsSpace(s[|s| - 1]))
  {
    if s != "" {
      CollapseRunsIsSingle(s[1..]);
      var rest := CollapseRuns(s[1..]);
      if !IsSpace(s[0]) {
        assert CollapseRuns(s) == [s[0]] + rest;
      } else if |s| <= 1 || !IsSpace(s[1]) {
        assert CollapseRuns(s) == [' '] + rest;
      }
    }
  }

  lemma CollapseIsCollapsed(value: string)
    ensures Collapsed(Collapse(value))
  {
    CollapseRunsIsSingle(Strip(value));
  }

  lemma {:induction false} SingleStays(s: string)
    requires Single(s)
    ensures CollapseRuns(s) == s
  {
    if s != "" {
      assert Single(s[1..]) by {
        assert forall i :: 0 <= i < |s[1..]| ==> s[1..][i] == s[i + 1];
      }
      SingleStays(s[1..]);
    }
  }

  lemma CollapsedStays(s: string)
    requires Collapsed(s)
    ensures Collapse(s) == s
  {
    SingleStays(s);
  }

  // --------------------------------------------------- strings alike but for case

  predicate Alike(a: string, b: string) {
    Lower(a) == Lower(b)
  }

  predicate AllAlike(a: seq<string>, b: seq<string>) {
    |a| == |b| && forall i :: 0 <= i < |a| ==> Alike(a[i], b[i])
  }

  lemma AlikeAt(a: string, b: string, i: nat)
    requires Alike(a, b) && i < |a|
    ensures |a| == |b| && LowerChar(a[i]) == LowerChar(b[i])
    ensures UpperChar(a[i]) == UpperChar(b[i])
    ensures !IsLetter(a[i]) || !IsLetter(b[i]) ==> a[i] == b[i]
  {
    assert Lower(a)[i] == Lower(b)[i] && |Lower(a)| == |Lower(b)|;
  }

  lemma AlikeAll(a: string, b: string)
    requires Alike(a, b)
    ensures |a| == |b|
    ensures forall i :: 0 <= i < |a| ==> LowerChar(a[i]) == LowerChar(b[i]) && UpperChar(a[i]) == UpperChar(b[i])
    ensures forall i :: 0 <= i < |a| && !(IsLetter(a[i]) && IsLetter(b[i])) ==> a[i] == b[i]
  {
    assert |Lower(a)| == |Lower(b)|;
    forall i | 0 <= i < |a|
      ensures LowerChar(a[i]) == LowerChar(b[i]) && UpperChar(a[i]) == UpperChar(b[i])
      ensures !(IsLetter(a[i]) && IsLetter(b[i])) ==> a[i] == b[i]
    {
      AlikeAt(a, b, i);
    }
  }

  lemma AlikeTail(a: string, b: string)
    requires Alike(a, b) && a != ""
    ensures b != "" && Alike(a[1..], b[1..])
  {
    AlikeAll(a, b);
  }

  lemma AlikeLed(c: char, d: char, a: string, b: string)
    requires LowerChar(c) == LowerChar(d) && Alike(a, b)
    ensures Alike([c] + a, [d] + b)
  {
    assert Lower([c] + a) == [LowerChar(c)] + Lower(a);
    assert Lower([d] + b) == [LowerChar(d)] + Lower(b);
  }

  lemma {:induction false} SplitAlike(a: string, b: string, sep: char)
    requires Alike(a, b) && !IsLetter(sep)
    ensures AllAlike(Split(a, sep), Split(b, sep))
  {
    if a == "" {
      assert |Lower(a)| == |Lower(b)|;
    } else {
      AlikeAt(a, b, 0);
      AlikeTail(a, b);
      SplitAlike(a[1..], b[1..], sep);
      var resta, restb := Split(a[1..], sep), Split(b[1..], sep);
      AlikeLed(a[0], b[0], resta[0], restb[0]);
    }
  }

  lemma {:induction false} JoinAlike(a: seq<string>, b: seq<string>, sep: char)
    requires AllAlike(a, b)
    ensures Alike(Join(a, sep), Join(b, sep))
  {
    if |a| > 1 {
      JoinAlike(a[1..], b[1..], sep);
      var resta, restb := Join(a[1..], sep), Join(b[1..], sep);
      assert Lower(a[0] + [sep] + resta) == Lower(a[0]) + [LowerChar(sep)] + Lower(resta);
      assert Lower(b[0] + [sep] + restb) == Lower(b[0]) + [LowerChar(sep)] + Lower(restb);
    }
  }

  lemma {:induction false} AlikeFree(a: seq<string>, b: seq<string>, sep: char)
    requires AllAlike(a, b) && Free(a, sep) && !IsLetter(sep)
    ensures Free(b, sep)
  {
    forall i | 0 <= i < |b| ensures sep !in b[i] {
      AlikeAll(a[i], b[i]);
    }
  }

  lemma AlikeCollapsed(a: string, b: string)
    requires Alike(a, b) && Collapsed(a)
    ensures Collapsed(b)
  {
    AlikeAll(a, b);
  }

  // ------------------------------------------------------------- title case

  function Capitalized(s: string): string {
    if s == "" then "" else [UpperChar(s[0])] + Lower(s[1..])
  }

  /** A single character stands just before the apostrophe at `k`, alone between apostrophes. */
  predicate LoneLetter(part: string, k: nat)
    requires k < |part|
  {
    k >= 1 && part[k - 1] != '\'' && (k == 1 || part[k - 2] == '\'')
  }

  /** The letter at `i` opens a piece of the hyphen-free `part`: its first, or one after a lone letter and an apostrophe. */
  predicate OpensInTitle(part: string, i: nat)
    requires i < |part|
  {
    i == 0 || (part[i - 1] == '\'' && LoneLetter(part, i - 1))
  }

  /** A hyphen-free part in title case, letter by letter. */
  function TitlePart(part: string): (r: string)
    ensures |r| == |part|
  {
    seq(|part|, i requires 0 <= i < |part| => if OpensInTitle(part, i) then UpperChar(part[i]) else LowerChar(part[i]))
  }

  predicate HasDigit(word: string) {
    exists i :: 0 <= i < |word| && IsDigit(word[i])
  }

  function TitleParts(parts: seq<string>): seq<string> {
    seq(|parts|, i requires 0 <= i < |parts| => TitlePart(parts[i]))
  }

  function TitleWord(word: string): string {
    if HasDigit(word) then word else Join(TitleParts(Split(word, '-')), '-')
  }

  function TitleWords(words: seq<string>): seq<string> {
    seq(|words|, i requires 0 <= i < |words| => TitleWord(words[i]))
  }

  /** A street address or a city as it is stored. */
  function TitleCaseWords(value: string): string {
    var trimmed := Collapse(value);
    if trimmed == "" then "" else Join(TitleWords(Split(trimmed, ' ')), ' ')
  }

  lemma TitlePartSame(a: string, b: string)
    requires Alike(a, b)
    ensures TitlePart(a) == TitlePart(b)
  {
    AlikeAll(a, b);
  }

  lemma TitleWordAlike(word: string)
    ensures Alike(TitleWord(word), word)
  {
    var parts := Split(word, '-');
    JoinAlike(TitleParts(parts), parts, '-');
    JoinSplit(word, '-');
  }

  lemma AlikeDigits(a: string, b: string)
    requires Alike(a, b)
    ensures HasDigit(a) == HasDigit(b)
  {
    AlikeAll(a, b);
    if i :| 0 <= i < |a| && IsDigit(a[i]) {
      assert IsDigit(b[i]);
    }
    if i :| 0 <= i < |b| && IsDigit(b[i]) {
      assert IsDigit(a[i]);
    }
  }

  /** Without a digit only the letters of a word matter, not their case. */
  lemma TitleWordSame(a: string, b: string)
    requires Alike(a, b) && !HasDigit(a)
    ensures TitleWord(a) == TitleWord(b)
  {
    AlikeDigits(a, b);
    SplitAlike(a, b, '-');
    var parts, parts' := Split(a, '-'), Split(b, '-');
    forall i | 0 <= i < |parts| ensures TitlePart(parts[i]) == TitlePart(parts'[i]) {
      TitlePartSame(parts[i], parts'[i]);
    }
    assert TitleParts(parts) == TitleParts(parts');
  }

  lemma TitleWordTwice(word: string)
    ensures TitleWord(TitleWord(word)) == TitleWord(word)
  {
    if !HasDigit(word) {
      TitleWordAlike(word);
      TitleWordSame(word, TitleWord(word));
    }
  }

  /**
   Casing each of the words of a collapsed string changes case only, and gives a collapsed string
   with the cased words as its words.
   */
  lemma CasedWords(trimmed: string, cased: seq<string>)
    requires Collapsed(trimmed) && AllAlike(cased, Split(trimmed, ' '))
    ensures
      var r := Join(cased, ' ');
      Alike(r, trimmed) && Collapse(r) == r && Split(r, ' ') == cased
  {
    var words := Split(trimmed, ' ');
    var r := Join(cased, ' ');
    JoinSplit(trimmed, ' ');
    JoinAlike(cased, words, ' ');
    AlikeCollapsed(trimmed, r);
    CollapsedStays(r);
    AlikeFree(words, cased, ' ');
    SplitJoin(cased, ' ');
  }

  /** Title case changes nothing but case and whitespace. */
  lemma TitleCaseIsCaseOnly(value: string)
    ensures Lower(TitleCaseWords(value)) == Lower(Collapse(value))
  {
    CollapseIsCollapsed(value);
    var words := Split(Collapse(value), ' ');
    forall i | 0 <= i < |words| ensures Alike(TitleWord(words[i]), words[i]) {
      TitleWordAlike(words[i]);
    }
    CasedWords(Collapse(value), TitleWords(words));
  }

  lemma {:induction false} TitleCaseTwice(value: string)
    ensures TitleCaseWords(TitleCaseWords(value)) == TitleCaseWords(value)
  {
    CollapseIsCollapsed(value);
    var words := Split(Collapse(value), ' ');
    forall i | 0 <= i < |words|
      ensures Alike(TitleWord(words[i]), words[i]) && TitleWord(TitleWord(words[i])) == TitleWord(words[i])
    {
      TitleWordAlike(words[i]);
      TitleWordTwice(words[i]);
    }
    CasedWords(Collapse(value), TitleWords(words));
    assert TitleWords(TitleWords(words)) == TitleWords(words);
  }

  // ----------------------------------------------------------------- names

  /** The words each rule looks up, in lower case. */
  datatype WordLists = WordLists(
    particles: set<string>,
    suffixes: set<string>,
    abbreviations: set<string>,
    smallWords: set<string>,
    wordAbbreviations: set<string>,
    kWords: set<string>,
    markers: set<string>
  )

  /** The site's own lists. */
  const SITE_LISTS := WordLists(
    {"van", "von", "der", "den", "de", "del", "della", "da", "di", "du", "la", "le"},
    {"ii", "iii", "iv"},
    {"llc", "llp", "lp", "pc", "fbo", "usa", "faa", "cap"},
    {"of", "the", "and", "at", "for", "in", "on"},
    {"ct", "ctr", "dr", "ft", "hwy", "jr", "ln", "mr", "mrs", "mt", "pl", "rd", "sr", "st", "tr"},
    {"keel", "keen", "keep", "kemp", "kent", "kern", "keys", "kids", "kind", "king", "kirk", "kite", "kiwi", "knob",
     "knot", "know"},
    {"aero", "air", "aircraft", "aviation", "club", "co", "company", "corp", "fbo", "flight", "flyers", "flying",
     "group", "inc", "jet", "jets", "llc", "llp", "lp", "partners", "services"}
  )

  /** An apostrophe, straight or typographic, or the period after an initial. */
  predicate IsSeparator(c: char) {
    c == '\'' || c == '\U{2019}' || c == '.'
  }

  predicate IsVowel(c: char) {
    c == 'a' || c == 'e' || c == 'i' || c == 'o' || c == 'u' || c == 'y'
  }

  predicate HasVowel(part: string) {
    exists i :: 0 <= i < |part| && IsVowel(LowerChar(part[i]))
  }

  /** A single character stands just before the separator at `k`, alone between separators. */
  predicate LoneBefore(part: string, k: nat)
    requires k < |part|
  {
    k >= 1 && !IsSeparator(part[k - 1]) && (k == 1 || IsSeparator(part[k - 2]))
  }

  /** The letter at `i` opens a piece: the first, one after a period, or one after a lone letter and an apostrophe. */
  predicate OpensInName(part: string, i: nat)
    requires i < |part|
  {
    i == 0 || part[i - 1] == '.' || (IsSeparator(part[i - 1]) && LoneBefore(part, i - 1))
  }

  predicate FollowsMc(part: string, i: nat) {
    i == 2 && |part| > 2 && LowerChar(part[0]) == 'm' && LowerChar(part[1]) == 'c'
  }

  /** A hyphen-free part of a name, letter by letter: capitals alone when it has no vowel. */
  function NamePart(part: string): (r: string)
    ensures |r| == |part|
  {
    seq(|part|, i requires 0 <= i < |part| =>
      if !HasVowel(part) || OpensInName(part, i) || FollowsMc(part, i) then UpperChar(part[i]) else LowerChar(part[i]))
  }

  function NameParts(parts: seq<string>): seq<string> {
    seq(|parts|, i requires 0 <= i < |parts| => NamePart(parts[i]))
  }

  function NameWord(lists: WordLists, word: string, first: bool, particleLeads: bool): string {
    var lowered := Lower(word);
    if (particleLeads || !first) && lowered in lists.particles then lowered
    else if !first && lowered in lists.suffixes then Upper(word)
    else Join(NameParts(Split(word, '-')), '-')
  }

  function NameWords(lists: WordLists, words: seq<string>, particleLeads: bool): seq<string> {
    seq(|words|, i requires 0 <= i < |words| => NameWord(lists, words[i], i == 0, particleLeads && |words| > 1))
  }

  predicate OneCase(s: string) {
    s == Upper(s) || s == Lower(s)
  }

  function CasedName(lists: WordLists, value: string, particleLeads: bool): string {
    var trimmed := Collapse(value);
    if !OneCase(trimmed) then trimmed
    else Join(NameWords(lists, Split(trimmed, ' '), particleLeads), ' ')
  }

  /** A first name, or a whole name, as it is stored. */
  function PersonName(lists: WordLists, value: string): string {
    CasedName(lists, value, false)
  }

  /** A last name as it is stored. */
  function PersonLastName(lists: WordLists, value: string): string {
    CasedName(lists, value, true)
  }

  lemma NamePartAlike(part: string)
    ensures Alike(NamePart(part), part)
  {
  }

  lemma NamePartSame(a: string, b: string)
    requires Alike(a, b)
    ensures NamePart(a) == NamePart(b)
  {
    AlikeAll(a, b);
    if HasVowel(a) {
      var i :| 0 <= i < |a| && IsVowel(LowerChar(a[i]));
      assert IsVowel(LowerChar(b[i]));
    }
    if HasVowel(b) {
      var i :| 0 <= i < |b| && IsVowel(LowerChar(b[i]));
      assert IsVowel(LowerChar(a[i]));
    }
    assert forall i :: 0 <= i < |a| ==> IsSeparator(a[i]) == IsSeparator(b[i]) && (a[i] == '.' <==> b[i] == '.');
    assert forall i :: 0 <= i < |a| ==> OpensInName(a, i) == OpensInName(b, i) && FollowsMc(a, i) == FollowsMc(b, i);
  }

  lemma UpperAlike(a: string)
    ensures Alike(Upper(a), a) && Alike(Lower(a), a)
  {
  }

  lemma UpperSame(a: string, b: string)
    requires Alike(a, b)
    ensures Upper(a) == Upper(b)
  {
    AlikeAll(a, b);
  }

  lemma NameWordAlike(lists: WordLists, word: string, first: bool, particleLeads: bool)
    ensures Alike(NameWord(lists, word, first, particleLeads), word)
  {
    UpperAlike(word);
    var parts := Split(word, '-');
    forall i | 0 <= i < |parts| ensures Alike(NamePart(parts[i]), parts[i]) {
      NamePartAlike(parts[i]);
    }
    JoinAlike(NameParts(parts), parts, '-');
    JoinSplit(word, '-');
  }

  lemma NameWordSame(lists: WordLists, a: string, b: string, first: bool, particleLeads: bool)
    requires Alike(a, b)
    ensures NameWord(lists, a, first, particleLeads) == NameWord(lists, b, first, particleLeads)
  {
    UpperSame(a, b);
    SplitAlike(a, b, '-');
    var parts, parts' := Split(a, '-'), Split(b, '-');
    forall i | 0 <= i < |parts| ensures NamePart(parts[i]) == NamePart(parts'[i]) {
      NamePartSame(parts[i], parts'[i]);
    }
    assert NameParts(parts) == NameParts(parts');
  }

  /** Casing a name changes nothing but case and whitespace. */
  lemma NameIsCaseOnly(lists: WordLists, value: string, particleLeads: bool)
    ensures Lower(CasedName(lists, value, particleLeads)) == Lower(Collapse(value))
    ensures Collapse(CasedName(lists, value, particleLeads)) == CasedName(lists, value, particleLeads)
  {
    CollapseIsCollapsed(value);
    CollapsedStays(Collapse(value));
    var words := Split(Collapse(value), ' ');
    forall i | 0 <= i < |words|
      ensures Alike(NameWord(lists, words[i], i == 0, particleLeads && |words| > 1), words[i])
    {
      NameWordAlike(lists, words[i], i == 0, particleLeads && |words| > 1);
    }
    CasedWords(Collapse(value), NameWords(lists, words, particleLeads));
  }

  /** Saving a name a second time leaves it as it is, a first name and a last name alike. */
  lemma NameTwice(lists: WordLists, value: string, particleLeads: bool)
    ensures CasedName(lists, CasedName(lists, value, particleLeads), particleLeads) == CasedName(lists, value, particleLeads)
  {
    NameIsCaseOnly(lists, value, particleLeads);
    var trimmed := Collapse(value);
    var r := CasedName(lists, value, particleLeads);
    if OneCase(trimmed) {
      SplitAlike(trimmed, r, ' ');
      var words, words' := Split(trimmed, ' '), Split(r, ' ');
      var leads := particleLeads && |words| > 1;
      forall i | 0 <= i < |words| ensures NameWord(lists, words[i], i == 0, leads) == NameWord(lists, words'[i], i == 0, leads) {
        NameWordSame(lists, words[i], words'[i], i == 0, leads);
      }
      assert NameWords(lists, words, particleLeads) == NameWords(lists, words', particleLeads);
    }
  }

  /** First and last names both settle at once, and differ in nothing but case. */
  lemma PersonNamesSettle(lists: WordLists, value: string)
    ensures PersonName(lists, PersonName(lists, value)) == PersonName(lists, value)
    ensures PersonLastName(lists, PersonLastName(lists, value)) == PersonLastName(lists, value)
    ensures Lower(PersonName(lists, value)) == Lower(PersonLastName(lists, value))
  {
    NameTwice(lists, value, false);
    NameTwice(lists, value, true);
    NameIsCaseOnly(lists, value, false);
    NameIsCaseOnly(lists, value, true);
  }

  // ------------------------------------------------------- businesses' names

  const SHORT_ABBREVIATION_LENGTH := 4

  /** `word` without the periods and commas at its ends. */
  function WithoutPoints(word: string): string {
    if word != "" && (word[0] == '.' || word[0] == ',') then WithoutPoints(word[1..])
    else if word != "" && (word[|word| - 1] == '.' || word[|word| - 1] == ',') then WithoutPoints(word[..|word| - 1])
    else word
  }

  predicate InCapitals(s: string) {
    s != "" && forall i :: 0 <= i < |s| ==> IsUpperChar(s[i])
  }

  /** The registry's own word is an abbreviation to be kept in its capitals. */
  predicate IsShortAbbreviation(lists: WordLists, registered: string, mayBeCode: bool) {
    && InCapitals(registered)
    && |registered| <= SHORT_ABBREVIATION_LENGTH
    && if !HasVowel(registered) then Lower(registered) !in lists.wordAbbreviations
       else mayBeCode && |registered| == 4 && registered[0] == 'K' && Lower(registered) !in lists.kWords
  }

  function BusinessWord(lists: WordLists, word: string, registered: string, first: bool, mayBeCode: bool): string {
    var lowered := Lower(word);
    if lowered in lists.abbreviations || '.' in word then Upper(word)
    else if !first && lowered in lists.smallWords then lowered
    else if IsShortAbbreviation(lists, registered, mayBeCode) then registered
    else word
  }

  predicate LeadsBusiness(lists: WordLists, words: seq<string>) {
    exists i :: 1 <= i < |words| && WithoutPoints(Lower(words[i])) in lists.markers
  }

  function BusinessWords(lists: WordLists, words: seq<string>, registered: seq<string>): seq<string>
    requires |words| == |registered|
  {
    seq(|words|, i requires 0 <= i < |words| =>
      BusinessWord(lists, words[i], registered[i], i == 0, i == 0 && LeadsBusiness(lists, registered)))
  }

  lemma SameWordCount(trimmed: string)
    requires Collapsed(trimmed)
    ensures Split(TitleCaseWords(trimmed), ' ') == TitleWords(Split(trimmed, ' '))
  {
    CollapsedStays(trimmed);
    var words := Split(trimmed, ' ');
    forall i | 0 <= i < |words| ensures Alike(TitleWord(words[i]), words[i]) {
      TitleWordAlike(words[i]);
    }
    CasedWords(trimmed, TitleWords(words));
  }

  /** A business's name, as the registry wrote it, in title case. */
  function BusinessName(lists: WordLists, value: string): string {
    var trimmed := Collapse(value);
    if !OneCase(trimmed) then trimmed
    else
      CollapseIsCollapsed(value);
      SameWordCount(trimmed);
      Join(BusinessWords(lists, Split(TitleCaseWords(trimmed), ' '), Split(trimmed, ' ')), ' ')
  }

  /** What a business's name makes of one of the registry's words. */
  function Rewritten(lists: WordLists, registered: string, first: bool, mayBeCode: bool): string {
    BusinessWord(lists, TitleWord(registered), registered, first, mayBeCode)
  }

  lemma RewrittenAlike(lists: WordLists, registered: string, first: bool, mayBeCode: bool)
    ensures Alike(Rewritten(lists, registered, first, mayBeCode), registered)
  {
    TitleWordAlike(registered);
    UpperAlike(TitleWord(registered));
  }

  lemma AlikePeriods(a: string, b: string)
    requires Alike(a, b)
    ensures '.' in a <==> '.' in b
  {
    AlikeAll(a, b);
    if '.' in a {
      var i :| 0 <= i < |a| && a[i] == '.';
      assert b[i] == '.';
    }
    if '.' in b {
      var i :| 0 <= i < |b| && b[i] == '.';
      assert a[i] == '.';
    }
  }

  /** A word the rules wrote once they write the same way again, whatever its capitals made of it. */
  lemma RewrittenTwice(lists: WordLists, registered: string, first: bool, mayBeCode: bool)
    ensures Rewritten(lists, Rewritten(lists, registered, first, mayBeCode), first, mayBeCode)
         == Rewritten(lists, registered, first, mayBeCode)
  {
    var word := TitleWord(registered);
    var r := Rewritten(lists, registered, first, mayBeCode);
    RewrittenAlike(lists, registered, first, mayBeCode);
    TitleWordAlike(registered);
    TitleWordAlike(r);
    AlikePeriods(word, TitleWord(r));
    UpperSame(word, TitleWord(r));
    if HasDigit(registered) {
      AlikeDigits(registered, r);
    } else {
      TitleWordSame(registered, r);
    }
  }

  lemma BusinessNameByWord(lists: WordLists, value: string)
    ensures
      var trimmed := Collapse(value);
      var words := Split(trimmed, ' ');
      var cased := BusinessWords(lists, TitleWords(words), words);
      && (OneCase(trimmed) ==> BusinessName(lists, value) == Join(cased, ' '))
      && AllAlike(cased, words)
      && Alike(Join(cased, ' '), trimmed) && Collapse(Join(cased, ' ')) == Join(cased, ' ')
      && Split(Join(cased, ' '), ' ') == cased
  {
    CollapseIsCollapsed(value);
    var trimmed := Collapse(value);
    SameWordCount(trimmed);
    var words := Split(trimmed, ' ');
    var cased := BusinessWords(lists, TitleWords(words), words);
    forall i | 0 <= i < |words| ensures Alike(cased[i], words[i]) {
      RewrittenAlike(lists, words[i], i == 0, i == 0 && LeadsBusiness(lists, words));
    }
    CasedWords(trimmed, cased);
  }

  /** Casing a business's name changes nothing but case and whitespace. */
  lemma BusinessNameIsCaseOnly(lists: WordLists, value: string)
    ensures Lower(BusinessName(lists, value)) == Lower(Collapse(value))
  {
    BusinessNameByWord(lists, value);
  }

  lemma AlikeMarkers(lists: WordLists, a: seq<string>, b: seq<string>)
    requires AllAlike(a, b)
    ensures LeadsBusiness(lists, a) <==> LeadsBusiness(lists, b)
  {
    if i :| 1 <= i < |a| && WithoutPoints(Lower(a[i])) in lists.markers {
      assert WithoutPoints(Lower(b[i])) in lists.markers;
    }
    if i :| 1 <= i < |b| && WithoutPoints(Lower(b[i])) in lists.markers {
      assert WithoutPoints(Lower(a[i])) in lists.markers;
    }
  }

  /**
   A second pass leaves a business's name as it is, though the abbreviation rule reads the capitals
   the first pass wrote.
   */
  lemma BusinessNameTwice(lists: WordLists, value: string)
    ensures BusinessName(lists, BusinessName(lists, value)) == BusinessName(lists, value)
  {
    var trimmed := Collapse(value);
    CollapseIsCollapsed(value);
    CollapsedStays(trimmed);
    BusinessNameByWord(lists, value);
    var r := BusinessName(lists, value);
    if OneCase(trimmed) && OneCase(r) {
      var words := Split(trimmed, ' ');
      var cased := BusinessWords(lists, TitleWords(words), words);
      BusinessNameByWord(lists, r);
      AlikeMarkers(lists, cased, words);
      var leads := LeadsBusiness(lists, words);
      forall i | 0 <= i < |words|
        ensures BusinessWord(lists, TitleWord(cased[i]), cased[i], i == 0, i == 0 && leads) == cased[i]
      {
        RewrittenTwice(lists, words[i], i == 0, i == 0 && leads);
      }
      assert BusinessWords(lists, TitleWords(cased), cased) == cased;
    }
  }
}
