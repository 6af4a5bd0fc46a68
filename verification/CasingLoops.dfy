/** The two loops that case one part of a word, piece by piece. */
module CasingLoops {
  import opened Text
  import opened Casing

  /** Everything `tokens` hold, end to end. */
  function Flat(tokens: seq<string>): string {
    if tokens == [] then "" else tokens[0] + Flat(tokens[1..])
  }

  lemma {:induction false} FlatAppend(a: seq<string>, b: seq<string>)
    ensures Flat(a + b) == Flat(a) + Flat(b)
  {
    if a == [] {
      assert a + b == b;
    } else {
      assert (a + b)[1..] == a[1..] + b;
      FlatAppend(a[1..], b);
    }
  }

  /** `part` cut at every separator `cuts` names, which stay as tokens of their own. */
  function Tokens(part: string, cuts: set<char>): (tokens: seq<string>)
    ensures |tokens| % 2 == 1
  {
    if part == "" then [""]
    else
      var rest := Tokens(part[1..], cuts);
      if part[0] in cuts then ["", [part[0]]] + rest else [[part[0]] + rest[0]] + rest[1..]
  }

  /** Pieces without a separator at the even places, single separators at the odd ones. */
  ghost predicate Alternates(tokens: seq<string>, cuts: set<char>) {
    && (forall i :: 0 <= i < |tokens| && i % 2 == 0 ==> forall c :: c in tokens[i] ==> c !in cuts)
    && (forall i :: 0 <= i < |tokens| && i % 2 == 1 ==> |tokens[i]| == 1 && tokens[i][0] in cuts)
  }

  lemma {:induction false} FlatTokens(part: string, cuts: set<char>)
    ensures Flat(Tokens(part, cuts)) == part
  {
    if part != "" {
      FlatTokens(part[1..], cuts);
      var rest := Tokens(part[1..], cuts);
      var tokens := Tokens(part, cuts);
      if part[0] in cuts {
        assert tokens[1..] == [[part[0]]] + rest && tokens[1..][1..] == rest;
      } else {
        assert tokens[1..] == rest[1..];
      }
    }
  }

  lemma AlternatesLed(first: string, cut: string, rest: seq<string>, cuts: set<char>)
    requires Alternates(rest, cuts) && |cut| == 1 && cut[0] in cuts && forall c :: c in first ==> c !in cuts
    ensures Alternates([first, cut] + rest, cuts)
  {
    var tokens := [first, cut] + rest;
    forall i | 2 <= i < |tokens| ensures tokens[i] == rest[i - 2] {
    }
  }

  lemma AlternatesJoined(c: char, rest: seq<string>, cuts: set<char>)
    requires Alternates(rest, cuts) && rest != [] && c !in cuts
    ensures Alternates([[c] + rest[0]] + rest[1..], cuts)
  {
  }

  lemma {:induction false} TokensAlternate(part: string, cuts: set<char>)
    ensures Flat(Tokens(part, cuts)) == part && Alternates(Tokens(part, cuts), cuts)
  {
    FlatTokens(part, cuts);
    if part != "" {
      TokensAlternate(part[1..], cuts);
      var rest := Tokens(part[1..], cuts);
      if part[0] in cuts {
        AlternatesLed("", [part[0]], rest, cuts);
      } else {
        AlternatesJoined(part[0], rest, cuts);
      }
    }
  }

  lemma FlatSnoc(tokens: seq<string>, token: string)
    ensures Flat(tokens + [token]) == Flat(tokens) + token
  {
    FlatAppend(tokens, [token]);
    assert [token][1..] == [] && Flat([token]) == token + "";
  }

  lemma FlatUpTo(tokens: seq<string>, index: nat)
    requires index < |tokens|
    ensures Flat(tokens[..index + 1]) == Flat(tokens[..index]) + tokens[index]
  {
    assert tokens[..index + 1] == tokens[..index] + [tokens[index]];
    FlatSnoc(tokens[..index], tokens[index]);
  }

  lemma FlatRest(tokens: seq<string>, index: nat)
    requires index <= |tokens|
    ensures Flat(tokens) == Flat(tokens[..index]) + Flat(tokens[index..])
  {
    assert tokens == tokens[..index] + tokens[index..];
    FlatAppend(tokens[..index], tokens[index..]);
  }

  lemma FlatSplits(tokens: seq<string>, index: nat)
    requires 1 <= index && index + 1 < |tokens|
    ensures Flat(tokens[..index]) == Flat(tokens[..index - 1]) + tokens[index - 1]
    ensures Flat(tokens[..index + 2]) == Flat(tokens[..index]) + tokens[index] + tokens[index + 1]
    ensures Flat(tokens) == Flat(tokens[..index + 2]) + Flat(tokens[index + 2..])
  {
    FlatUpTo(tokens, index - 1);
    FlatUpTo(tokens, index);
    FlatUpTo(tokens, index + 1);
    FlatRest(tokens, index + 2);
  }

  /** `part` read as the pieces up to a separator, the separator, the next piece, and the rest. */
  ghost predicate Cut(part: string, cuts: set<char>, head: string, before: string, separator: string, piece: string,
                      tail: string)
  {
    && part == head + before + separator + piece + tail
    && (head == "" || head[|head| - 1] in cuts)
    && (forall c :: c in before ==> c !in cuts)
    && |separator| == 1 && separator[0] in cuts
    && (forall c :: c in piece ==> c !in cuts)
  }

  /** Where the separator at the odd place `index` stands in `part`, and what is around it. */
  lemma AroundSeparator(part: string, cuts: set<char>, index: nat)
    requires index % 2 == 1 && index < |Tokens(part, cuts)|
    ensures
      var tokens := Tokens(part, cuts);
      && index + 1 < |tokens|
      && Cut(part, cuts, Flat(tokens[..index - 1]), tokens[index - 1], tokens[index], tokens[index + 1],
             Flat(tokens[index + 2..]))
      && Flat(tokens[..index]) == Flat(tokens[..index - 1]) + tokens[index - 1]
      && Flat(tokens[..index + 2]) == Flat(tokens[..index]) + tokens[index] + tokens[index + 1]
  {
    var tokens := Tokens(part, cuts);
    TokensAlternate(part, cuts);
    FlatSplits(tokens, index);
    EndsInSeparator(tokens, cuts, index - 1);
  }

  /** What comes before a piece is nothing, or ends in a separator. */
  lemma EndsInSeparator(tokens: seq<string>, cuts: set<char>, index: nat)
    requires Alternates(tokens, cuts) && index % 2 == 0 && index <= |tokens|
    ensures var head := Flat(tokens[..index]); head == "" || head[|head| - 1] in cuts
  {
    if index > 0 {
      FlatUpTo(tokens, index - 1);
    }
  }

  /** One character stands just before place `k` of `part`, alone between the ends of pieces. */
  predicate Lone(part: string, cuts: set<char>, k: nat)
    requires k < |part|
  {
    k >= 1 && part[k - 1] !in cuts && (k == 1 || part[k - 2] in cuts)
  }

  lemma LoneIsOneLong(part: string, cuts: set<char>, head: string, before: string, separator: string, piece: string,
                      tail: string)
    requires Cut(part, cuts, head, before, separator, piece, tail)
    ensures |before| == 1 <==> Lone(part, cuts, |head + before|)
  {
    assert forall i :: 0 <= i < |before| ==> part[|head| + i] == before[i];
    assert forall i :: 0 <= i < |head| ==> part[i] == head[i];
  }

  /** Where the parts of a cut stand in `part`. */
  lemma CutPlaces(part: string, cuts: set<char>, head: string, before: string, separator: string, piece: string,
                  tail: string)
    requires Cut(part, cuts, head, before, separator, piece, tail)
    ensures
      var k := |head + before|;
      && k + |piece| < |part| && separator == [part[k]] && part[k] in cuts && part[k + 1..k + 1 + |piece|] == piece
  {
    var k := |head + before|;
    assert part == (head + before) + (separator + piece + tail);
    assert part[k] == (separator + piece + tail)[0];
    assert part[k + 1..] == piece + tail;
  }

  lemma TakeOn(s: string, k: nat, n: nat)
    requires k + n < |s|
    ensures s[..k + 1 + n] == s[..k] + [s[k]] + s[k + 1..k + 1 + n]
  {
  }

  lemma FirstPiece(part: string, cuts: set<char>)
    ensures
      var tokens := Tokens(part, cuts);
      && Flat(tokens[..1]) == tokens[0] && tokens[0] <= part && (forall c :: c in tokens[0] ==> c !in cuts)
      && tokens[..|tokens|] == tokens && Flat(tokens) == part
  {
    var tokens := Tokens(part, cuts);
    TokensAlternate(part, cuts);
    assert tokens[..1][1..] == [];
    assert tokens == tokens[..1] + tokens[1..];
    FlatAppend(tokens[..1], tokens[1..]);
  }

  // -------------------------------------------------------------- addresses

  const APOSTROPHE := {'\''}

  predicate NoApostrophe(piece: string) {
    forall i :: 0 <= i < |piece| ==> piece[i] != '\''
  }

  lemma NoApostrophes(piece: string)
    requires forall c :: c in piece ==> c !in APOSTROPHE
    ensures NoApostrophe(piece)
  {
    forall i | 0 <= i < |piece| ensures piece[i] != '\'' {
      assert piece[i] in piece;
    }
  }

  lemma FirstTitleLetter(part: string, piece: string, i: nat)
    requires |piece| <= |part| && part[..|piece|] == piece && NoApostrophe(piece) && i < |piece|
    ensures TitlePart(part)[i] == CasedLetter(piece, true, i)
  {
    assert part[i] == piece[i];
    if i > 0 {
      assert part[i - 1] == piece[i - 1];
      assert !OpensInTitle(part, i);
    }
  }

  lemma TitleStart(part: string, piece: string)
    requires piece <= part && (forall c :: c in piece ==> c !in APOSTROPHE)
    ensures TitlePart(part)[..|piece|] == Capitalized(piece)
  {
    NoApostrophes(piece);
    var slice := TitlePart(part)[..|piece|];
    forall i | 0 <= i < |piece| ensures slice[i] == CasedLetter(piece, true, i) {
      FirstTitleLetter(part, piece, i);
    }
    CasedPiece(slice, piece, true);
  }

  lemma TitleStep(part: string, head: string, before: string, separator: string, piece: string, tail: string)
    requires Cut(part, APOSTROPHE, head, before, separator, piece, tail)
    ensures
      var k := |head + before|;
      TitlePart(part)[..k + 1 + |piece|] ==
        TitlePart(part)[..k] + separator + if |before| == 1 then Capitalized(piece) else Lower(piece)
  {
    LoneIsOneLong(part, APOSTROPHE, head, before, separator, piece, tail);
    CutPlaces(part, APOSTROPHE, head, before, separator, piece, tail);
    TitleAfter(part, |head + before|, piece, |before| == 1);
  }

  lemma TitleAfter(part: string, k: nat, piece: string, opens: bool)
    requires k + |piece| < |part| && part[k] in APOSTROPHE && opens == Lone(part, APOSTROPHE, k)
    requires part[k + 1..k + 1 + |piece|] == piece && forall c :: c in piece ==> c !in APOSTROPHE
    ensures TitlePart(part)[..k + 1 + |piece|] ==
      TitlePart(part)[..k] + [part[k]] + if opens then Capitalized(piece) else Lower(piece)
  {
    assert part[k] == '\'' && LoneLetter(part, k) == Lone(part, APOSTROPHE, k);
    assert TitlePart(part)[k] == '\'';
    NoApostrophes(piece);
    TitlePiece(part, k, piece, opens);
    TakeOn(TitlePart(part), k, |piece|);
  }

  lemma TitleLetter(part: string, k: nat, piece: string, i: nat)
    requires k + |piece| < |part| && part[k] == '\'' && i < |piece|
    requires part[k + 1..k + 1 + |piece|] == piece && NoApostrophe(piece)
    ensures TitlePart(part)[k + 1 + i] == CasedLetter(piece, LoneLetter(part, k), i)
  {
    assert part[k + 1 + i] == piece[i];
    if i > 0 {
      assert part[k + i] == piece[i - 1];
      assert !OpensInTitle(part, k + 1 + i);
    }
  }

  lemma TitlePiece(part: string, k: nat, piece: string, opens: bool)
    requires k + |piece| < |part| && part[k] == '\'' && opens == LoneLetter(part, k)
    requires part[k + 1..k + 1 + |piece|] == piece && NoApostrophe(piece)
    ensures TitlePart(part)[k + 1..k + 1 + |piece|] == if opens then Capitalized(piece) else Lower(piece)
  {
    var slice := TitlePart(part)[k + 1..k + 1 + |piece|];
    forall i | 0 <= i < |piece| ensures slice[i] == CasedLetter(piece, opens, i) {
      TitleLetter(part, k, piece, i);
    }
    CasedPiece(slice, piece, opens);
  }

  /** The letter at `i` of a piece, the first one capital when the piece `opens`. */
  function CasedLetter(piece: string, opens: bool, i: nat): char
    requires i < |piece|
  {
    if i == 0 && opens then UpperChar(piece[i]) else LowerChar(piece[i])
  }

  lemma CasedPiece(slice: string, piece: string, opens: bool)
    requires |slice| == |piece| && forall i :: 0 <= i < |piece| ==> slice[i] == CasedLetter(piece, opens, i)
    ensures slice == if opens then Capitalized(piece) else Lower(piece)
  {
    var cased := if opens then Capitalized(piece) else Lower(piece);
    forall i | 0 <= i < |piece| ensures cased[i] == slice[i] {
      CapitalizedAt(piece, i);
      LowerAt(piece, i);
    }
  }

  lemma LowerAt(s: string, i: nat)
    requires i < |s|
    ensures Lower(s)[i] == LowerChar(s[i])
  {
  }

  lemma CapitalizedAt(piece: string, i: nat)
    requires i < |piece|
    ensures |Capitalized(piece)| == |piece| && Capitalized(piece)[i] == CasedLetter(piece, true, i)
  {
    var head, tail := [UpperChar(piece[0])], Lower(piece[1..]);
    assert Capitalized(piece) == head + tail && |tail| == |piece| - 1;
    if i > 0 {
      var j := i - 1;
      LowerAt(piece[1..], j);
      assert (head + tail)[i] == tail[j] && piece[1..][j] == piece[i];
    }
  }

  /** The loop stands before the separator at `index`, and `cased` is the part as far as that. */
  ghost predicate TitledTo(part: string, index: nat, cased: string) {
    var pieces := Tokens(part, APOSTROPHE);
    && index % 2 == 1 && index <= |pieces|
    && var k := |Flat(pieces[..index])|; k <= |part| && cased == TitlePart(part)[..k]
  }

  lemma TitledOn(part: string, index: nat, next: nat, cased: string)
    requires TitledTo(part, index, cased) && index < |Tokens(part, APOSTROPHE)| && next == index + 2
    ensures
      var pieces := Tokens(part, APOSTROPHE);
      && index + 1 < |pieces|
      && var piece := pieces[index + 1];
         var opens := |pieces[index - 1]| == 1;
         TitledTo(part, next, cased + pieces[index] + if opens then Capitalized(piece) else Lower(piece))
  {
    var pieces := Tokens(part, APOSTROPHE);
    AroundSeparator(part, APOSTROPHE, index);
    TitleStep(part, Flat(pieces[..index - 1]), pieces[index - 1], pieces[index], pieces[index + 1],
              Flat(pieces[index + 2..]));
  }

  /** One hyphen-free part of an address, cased piece by piece. */
  method TitleCasePart(part: string) returns (cased: string)
    ensures cased == TitlePart(part)
  {
    var pieces := Tokens(part, APOSTROPHE);
    cased := Capitalized(pieces[0]);
    FirstPiece(part, APOSTROPHE);
    TitleStart(part, pieces[0]);
    var index := 1;
    while index < |pieces|
      invariant TitledTo(part, index, cased)
    {
      var next := index + 2;
      TitledOn(part, index, next, cased);
      var separator, before, piece := pieces[index], pieces[index - 1], pieces[index + 1];
      cased := cased + separator + if |before| == 1 then Capitalized(piece) else Lower(piece);
      index := next;
    }
  }

  // ------------------------------------------------------------------ names

  const SEPARATORS := {'\'', '\U{2019}', '.'}

  /** `NamePart` before the letter after `Mc` is capitalized, for a part with a vowel. */
  ghost function PlainNamePart(part: string): string {
    seq(|part|, i requires 0 <= i < |part| => if OpensInName(part, i) then UpperChar(part[i]) else LowerChar(part[i]))
  }

  lemma FirstNameLetter(part: string, piece: string, i: nat)
    requires |piece| <= |part| && part[..|piece|] == piece && NoSeparator(piece) && i < |piece|
    ensures PlainNamePart(part)[i] == CasedLetter(piece, true, i)
  {
    assert part[i] == piece[i];
    if i > 0 {
      assert part[i - 1] == piece[i - 1] && !IsSeparator(piece[i - 1]);
      assert !OpensInName(part, i);
    }
  }

  lemma NameStart(part: string, piece: string)
    requires piece <= part && (forall c :: c in piece ==> c !in SEPARATORS)
    ensures PlainNamePart(part)[..|piece|] == Capitalized(piece)
  {
    NoneSeparates(piece);
    var slice := PlainNamePart(part)[..|piece|];
    forall i | 0 <= i < |piece| ensures slice[i] == CasedLetter(piece, true, i) {
      FirstNameLetter(part, piece, i);
    }
    CasedPiece(slice, piece, true);
  }

  lemma NoneSeparates(piece: string)
    requires forall c :: c in piece ==> c !in SEPARATORS
    ensures NoSeparator(piece)
  {
    forall i | 0 <= i < |piece| ensures !IsSeparator(piece[i]) {
      assert piece[i] in piece;
    }
  }

  lemma NameStep(part: string, head: string, before: string, separator: string, piece: string, tail: string)
    requires Cut(part, SEPARATORS, head, before, separator, piece, tail)
    ensures
      var k := |head + before|;
      var opens := separator == "." || |before| == 1;
      PlainNamePart(part)[..k + 1 + |piece|] ==
        PlainNamePart(part)[..k] + separator + if opens then Capitalized(piece) else Lower(piece)
  {
    LoneIsOneLong(part, SEPARATORS, head, before, separator, piece, tail);
    CutPlaces(part, SEPARATORS, head, before, separator, piece, tail);
    PeriodOpens(separator);
    NameAfter(part, |head + before|, piece, separator == "." || |before| == 1);
  }

  lemma PeriodOpens(separator: string)
    requires |separator| == 1
    ensures separator == "." <==> separator[0] == '.'
  {
  }

  lemma NameAfter(part: string, k: nat, piece: string, opens: bool)
    requires k + |piece| < |part| && part[k] in SEPARATORS && opens == (part[k] == '.' || Lone(part, SEPARATORS, k))
    requires part[k + 1..k + 1 + |piece|] == piece && forall c :: c in piece ==> c !in SEPARATORS
    ensures PlainNamePart(part)[..k + 1 + |piece|] ==
      PlainNamePart(part)[..k] + [part[k]] + if opens then Capitalized(piece) else Lower(piece)
  {
    assert LoneBefore(part, k) == Lone(part, SEPARATORS, k);
    NoneSeparates(piece);
    NamePiece(part, k, piece, opens);
    TakeOn(PlainNamePart(part), k, |piece|);
  }

  predicate NoSeparator(piece: string) {
    forall i :: 0 <= i < |piece| ==> !IsSeparator(piece[i])
  }

  lemma NameLetter(part: string, k: nat, piece: string, i: nat)
    requires k + |piece| < |part| && IsSeparator(part[k]) && i < |piece|
    requires part[k + 1..k + 1 + |piece|] == piece && NoSeparator(piece)
    ensures PlainNamePart(part)[k + 1 + i] == CasedLetter(piece, part[k] == '.' || LoneBefore(part, k), i)
  {
    assert part[k + 1 + i] == piece[i];
    if i > 0 {
      assert part[k + i] == piece[i - 1];
      assert !IsSeparator(piece[i - 1]);
      assert !OpensInName(part, k + 1 + i);
    }
  }

  lemma NamePiece(part: string, k: nat, piece: string, opens: bool)
    requires k + |piece| < |part| && IsSeparator(part[k]) && opens == (part[k] == '.' || LoneBefore(part, k))
    requires part[k + 1..k + 1 + |piece|] == piece && NoSeparator(piece)
    ensures PlainNamePart(part)[k] == part[k]
    ensures PlainNamePart(part)[k + 1..k + 1 + |piece|] == if opens then Capitalized(piece) else Lower(piece)
  {
    var slice := PlainNamePart(part)[k + 1..k + 1 + |piece|];
    forall i | 0 <= i < |piece| ensures slice[i] == CasedLetter(piece, opens, i) {
      NameLetter(part, k, piece, i);
    }
    CasedPiece(slice, piece, opens);
  }

  /** A name cased letter by letter starts with `Mc` exactly when the name does, in any case. */
  lemma StartsWithMc(part: string)
    requires |part| > 2
    ensures var joined := PlainNamePart(part);
      "Mc" <= joined <==> FollowsMc(part, 2)
  {
    var joined := PlainNamePart(part);
    assert joined[0] == UpperChar(part[0]);
    assert part[0] == 'm' || part[0] == 'M' ==> !OpensInName(part, 1) && joined[1] == LowerChar(part[1]);
    assert "Mc" <= joined <==> joined[0] == 'M' && joined[1] == 'c';
  }

  lemma McStep(part: string, joined: string)
    requires HasVowel(part) && joined == PlainNamePart(part)
    ensures NamePart(part) ==
      if "Mc" <= joined && |joined| > 2 then "Mc" + [UpperChar(joined[2])] + joined[3..] else joined
  {
    if |part| > 2 {
      StartsWithMc(part);
      if "Mc" <= joined {
        assert joined[..2] == "Mc";
        assert NamePart(part) == joined[..2] + [UpperChar(joined[2])] + joined[3..];
      }
    }
  }

  /** The same loop over the part of a name, and the letter after a leading `Mc`. */
  method NameCasePart(part: string) returns (joined: string)
    ensures joined == NamePart(part)
  {
    if !HasVowel(part) {
      return Upper(part);
    }
    var tokens := Tokens(part, SEPARATORS);
    joined := Capitalized(tokens[0]);
    FirstPiece(part, SEPARATORS);
    NameStart(part, tokens[0]);
    var index := 1;
    while index < |tokens|
      invariant index % 2 == 1 && index <= |tokens|
      invariant |Flat(tokens[..index])| <= |part| && joined == PlainNamePart(part)[..|Flat(tokens[..index])|]
    {
      AroundSeparator(part, SEPARATORS, index);
      var separator, before, piece := tokens[index], tokens[index - 1], tokens[index + 1];
      NameStep(part, Flat(tokens[..index - 1]), before, separator, piece, Flat(tokens[index + 2..]));
      joined := joined + separator + if separator == "." || |before| == 1 then Capitalized(piece) else Lower(piece);
      index := index + 2;
    }
    McStep(part, joined);
    if "Mc" <= joined && |joined| > 2 {
      joined := "Mc" + [UpperChar(joined[2])] + joined[3..];
    }
  }
}
