/** The lines of the audit log, and what they are made of. */
module Audit {
  import opened Outcomes
  import opened Text
  import opened Decimal

  const MAX_SLUG_LENGTH := 64

  predicate IsAlphanumeric(c: char) { IsLetter(c) || IsDigit(c) }

  predicate IsSlugChar(c: char) { IsAlphanumeric(c) || IsPunctuation(c) }

  predicate IsPunctuation(c: char) { c == '.' || c == '_' || c == '-' }

  predicate AllSlugChars(s: string) {
    forall i :: 0 <= i < |s| ==> IsSlugChar(s[i])
  }

  /** Letters, digits and marks, led by a letter or a digit, and not too many of them. */
  predicate IsSlug(s: string) {
    1 <= |s| <= MAX_SLUG_LENGTH && IsAlphanumeric(s[0]) && AllSlugChars(s)
  }

  predicate AllSlugs(items: seq<string>) {
    forall i :: 0 <= i < |items| ==> IsSlug(items[i])
  }

  // ------------------------------------------------------------------ slugs

  function Cleaned(s: string): string {
    seq(|s|, i requires 0 <= i < |s| => if IsSlugChar(s[i]) then s[i] else '_')
  }

  function WithoutLeading(s: string): string {
    if s != "" && IsPunctuation(s[0]) then WithoutLeading(s[1..]) else s
  }

  const UNNAMED := "unnamed"

  /** The slug made of `value`: odd characters replaced, leading marks dropped, and the end cut off. */
  function SafeSlug(value: string): string {
    var trimmed := WithoutLeading(Cleaned(value));
    var cut := if |trimmed| > MAX_SLUG_LENGTH then trimmed[..MAX_SLUG_LENGTH] else trimmed;
    if cut == "" then UNNAMED else cut
  }

  lemma {:induction false} WithoutLeadingIs(s: string)
    requires AllSlugChars(s)
    ensures AllSlugChars(WithoutLeading(s))
    ensures WithoutLeading(s) != "" ==> IsAlphanumeric(WithoutLeading(s)[0])
  {
    if s != "" && IsPunctuation(s[0]) {
      WithoutLeadingIs(s[1..]);
    } else if s != "" {
      assert IsSlugChar(s[0]);
    }
  }

  lemma CleanedIs(s: string)
    ensures AllSlugChars(Cleaned(s))
    ensures AllSlugChars(s) ==> Cleaned(s) == s
  {
  }

  lemma UnnamedIsSlug()
    ensures IsSlug(UNNAMED)
  {
    assert |UNNAMED| == 7;
    assert IsSlugChar('u') && IsSlugChar('n') && IsSlugChar('a') && IsSlugChar('m') && IsSlugChar('e') && IsSlugChar('d');
  }

  /** Every string becomes a slug, and one that is a slug already, and no other, stays as it is. */
  lemma SafeSlugIsSlug(value: string)
    ensures IsSlug(SafeSlug(value))
    ensures SafeSlug(value) == value <==> IsSlug(value)
  {
    CleanedIs(value);
    WithoutLeadingIs(Cleaned(value));
    UnnamedIsSlug();
  }

  lemma SafeSlugTwice(value: string)
    ensures SafeSlug(SafeSlug(value)) == SafeSlug(value)
  {
    SafeSlugIsSlug(value);
    SafeSlugIsSlug(SafeSlug(value));
  }

  // ----------------------------------------------------------------- fields

  /** What a caller may hand a field: any other object is refused. */
  datatype Value = Flag(on: bool) | Number(n: int) | Word(text: string) | Words(items: seq<string>) | OtherObject

  function EmptyMark(): string { ['-'] }

  /** The word for a flag. */
  function FlagWord(on: bool): string { if on then "true" else "false" }

  function Rendered(value: Value): Option<string> {
    match value
    case Flag(on) => Some(FlagWord(on))
    case Number(n) => Some(Printed(n))
    case Word(text) => if IsSlug(text) then Some(text) else if text == "" then Some(EmptyMark()) else None
    case Words(items) =>
      if !AllSlugs(items) then None else if |items| > 0 then Some(Join(items, ',')) else Some(EmptyMark())
    case OtherObject => None
  }

  /** The words a value stands for. */
  function Items(value: Value): seq<string> {
    match value
    case Flag(on) => [FlagWord(on)]
    case Number(n) => [Printed(n)]
    case Word(text) => if text == "" then [] else [text]
    case Words(items) => items
    case OtherObject => []
  }

  /** The words a rendered value lists. */
  function ReadItems(rendered: string): seq<string> {
    if rendered == EmptyMark() then [] else Split(rendered, ',')
  }

  /** A character that keeps the shape of a line whole. */
  predicate IsPlainChar(c: char) {
    c != ' ' && c != '='
  }

  predicate IsPlain(s: string) {
    forall i :: 0 <= i < |s| ==> IsPlainChar(s[i])
  }

  lemma SlugsArePlain(items: seq<string>)
    requires AllSlugs(items)
    ensures Free(items, ',') && forall i :: 0 <= i < |items| ==> IsPlain(items[i])
  {
    forall i | 0 <= i < |items| ensures ',' !in items[i] && IsPlain(items[i]) {
      assert IsSlug(items[i]);
    }
  }

  lemma {:induction false} JoinIsPlain(items: seq<string>)
    requires forall i :: 0 <= i < |items| ==> IsPlain(items[i])
    ensures IsPlain(Join(items, ','))
  {
    if |items| > 1 {
      JoinIsPlain(items[1..]);
    }
  }

  lemma PrintedIsPlain(n: int)
    ensures IsPlain(Printed(n)) && ',' !in Printed(n) && Printed(n) != EmptyMark()
  {
    var digits := Digits(if n < 0 then -n else n);
    assert forall i :: 0 <= i < |digits| ==> IsDigit(digits[i]);
    if n < 0 {
      assert |Printed(n)| == 1 + |digits|;
    } else {
      assert Printed(n)[0] == digits[0];
    }
  }

  lemma FlagWordIsPlain(on: bool)
    ensures IsPlain(FlagWord(on)) && ',' !in FlagWord(on) && FlagWord(on) != EmptyMark()
  {
  }

  lemma {:induction false} JoinIsNotEmptyMark(items: seq<string>)
    requires AllSlugs(items) && items != []
    ensures Join(items, ',') != EmptyMark()
  {
    assert IsSlug(items[0]);
    assert Join(items, ',')[0] == items[0][0];
  }

  /** Every value that is not refused renders without a space or an `=`, and reads back as the words it stood for. */
  lemma ValueReadsBack(value: Value)
    requires Rendered(value).Some?
    ensures IsPlain(Rendered(value).value)
    ensures ReadItems(Rendered(value).value) == Items(value)
  {
    match value
    case Flag(on) =>
      FlagWordIsPlain(on);
      SplitOfFree(FlagWord(on), ',');
    case Number(n) =>
      PrintedIsPlain(n);
      SplitOfFree(Printed(n), ',');
    case Word(text) =>
      if text != "" {
        assert AllSlugs([text]);
        SlugsArePlain([text]);
        assert [text][0] == text;
        SplitOfFree(text, ',');
        JoinIsNotEmptyMark([text]);
      }
    case Words(items) =>
      if items != [] {
        SlugsArePlain(items);
        JoinIsPlain(items);
        SplitJoin(items, ',');
        JoinIsNotEmptyMark(items);
      }
  }

  /** What a field may carry: flags, numbers, slugs or nothing, and lists of slugs. */
  lemma RenderedIff(value: Value)
    ensures Rendered(value).Some? <==>
      match value
      case Flag(_) => true
      case Number(_) => true
      case Word(text) => text == "" || IsSlug(text)
      case Words(items) => forall i :: 0 <= i < |items| ==> IsSlug(items[i])
      case OtherObject => false
  {
  }

  /** The two flags, and any two numbers, are told apart. */
  lemma RenderedApart(a: bool, b: bool, m: int, n: int)
    ensures Rendered(Flag(a)) == Rendered(Flag(b)) <==> a == b
    ensures Rendered(Number(m)) == Rendered(Number(n)) <==> m == n
    ensures Rendered(Flag(true)) == Some(['t', 'r', 'u', 'e'])
  {
    assert "true"[0] == 't' && "false"[0] == 'f';
    PrintedApart(m, n);
  }

  lemma PrintedApart(m: int, n: int)
    ensures Printed(m) == Printed(n) <==> m == n
  {
    var x, y := if m < 0 then -m else m, if n < 0 then -n else n;
    ValueOfDigits(x);
    ValueOfDigits(y);
    assert IsDigit(Digits(x)[0]) && IsDigit(Digits(y)[0]);
    if Printed(m) == Printed(n) {
      if m < 0 {
        assert Printed(m)[0] == '-' && Printed(m)[1..] == Digits(x);
      }
      if n < 0 {
        assert Printed(n)[0] == '-' && Printed(n)[1..] == Digits(y);
      }
    }
  }

  // ------------------------------------------------------------------ lines

  datatype Actor = Command | Anonymous | ActingAccount(id: int) | OtherActor

  datatype Target = NoTarget | TargetRecord(id: int) | OtherTarget

  /** A field of a line: its name, and what it renders as. */
  datatype Pair = Pair(name: string, rendered: string)

  /** A field a caller adds. */
  datatype Field = Field(name: string, value: Value)

  function RenderedActor(actor: Actor): Option<string> {
    match actor
    case Command => Some("command")
    case Anonymous => Some("anonymous")
    case ActingAccount(id) => Some(Printed(id))
    case OtherActor => None
  }

  function RenderedTarget(target: Target): Option<string> {
    match target
    case NoTarget => Some(EmptyMark())
    case TargetRecord(id) => Some(Printed(id))
    case OtherTarget => None
  }

  function RenderedFields(fields: seq<Field>): Option<seq<Pair>> {
    if fields == [] then Some([])
    else
      match (Rendered(fields[0].value), RenderedFields(fields[1..]))
      case (Some(first), Some(rest)) => Some([Pair(fields[0].name, first)] + rest)
      case _ => None
  }

  /** The fields every line starts with. */
  function Head(action: string, actor: string, target: string): seq<Pair> {
    [Pair("action", action), Pair("actor", actor), Pair("target", target)]
  }

  /** The fields of the line a record writes, unless something in it is refused. */
  function Pairs(action: string, actor: Actor, target: Target, fields: seq<Field>): Option<seq<Pair>> {
    if !IsSlug(action) then None
    else
      match (RenderedActor(actor), RenderedTarget(target), RenderedFields(fields))
      case (Some(a), Some(t), Some(rest)) => Some(Head(action, a, t) + rest)
      case _ => None
  }

  function Written(pair: Pair): string {
    pair.name + ['='] + pair.rendered
  }

  function AllWritten(pairs: seq<Pair>): seq<string> {
    seq(|pairs|, i requires 0 <= i < |pairs| => Written(pairs[i]))
  }

  /** The audit line a record writes. */
  function Line(action: string, actor: Actor, target: Target, fields: seq<Field>): Option<string> {
    match Pairs(action, actor, target, fields)
    case Some(pairs) => Some(Join(AllWritten(pairs), ' '))
    case None => None
  }

  /** A word of a line cut at its first `=`. */
  function ReadPair(word: string): Pair {
    if word == "" then Pair("", "")
    else if word[0] == '=' then Pair("", word[1..])
    else
      var rest := ReadPair(word[1..]);
      rest.(name := [word[0]] + rest.name)
  }

  function ReadPairs(words: seq<string>): seq<Pair> {
    seq(|words|, i requires 0 <= i < |words| => ReadPair(words[i]))
  }

  function ReadLine(line: string): seq<Pair> {
    ReadPairs(Split(line, ' '))
  }

  lemma {:induction false} ReadPairOf(name: string, rendered: string)
    requires '=' !in name
    ensures ReadPair(name + ['='] + rendered) == Pair(name, rendered)
  {
    var word := name + ['='] + rendered;
    if name != "" {
      assert word[1..] == name[1..] + ['='] + rendered;
      ReadPairOf(name[1..], rendered);
    }
  }

  lemma {:induction false} ReadNameIsFree(word: string)
    ensures '=' !in ReadPair(word).name
    ensures ' ' !in word ==> ' ' !in ReadPair(word).name
  {
    if word != "" && word[0] != '=' {
      ReadNameIsFree(word[1..]);
    }
  }

  predicate NamesArePlain(pairs: seq<Pair>) {
    forall i :: 0 <= i < |pairs| ==> IsPlain(pairs[i].name)
  }

  predicate ValuesArePlain(pairs: seq<Pair>) {
    forall i :: 0 <= i < |pairs| ==> IsPlain(pairs[i].rendered)
  }

  /** A line reads back as its fields exactly when no name holds a space or an `=`. */
  lemma PairsReadBack(pairs: seq<Pair>)
    requires pairs != [] && ValuesArePlain(pairs)
    ensures ReadLine(Join(AllWritten(pairs), ' ')) == pairs <==> NamesArePlain(pairs)
  {
    var words := AllWritten(pairs);
    var line := Join(words, ' ');
    if NamesArePlain(pairs) {
      forall i | 0 <= i < |pairs| ensures ' ' !in words[i] && ReadPair(words[i]) == pairs[i] {
        ReadPairOf(pairs[i].name, pairs[i].rendered);
      }
      SplitJoin(words, ' ');
      assert ReadPairs(words) == pairs;
    }
    if ReadLine(line) == pairs {
      var read := Split(line, ' ');
      JoinSplit(line, ' ');
      forall i | 0 <= i < |pairs| ensures IsPlain(pairs[i].name) {
        assert ReadPair(read[i]) == pairs[i];
        ReadNameIsFree(read[i]);
      }
    }
  }

  lemma {:induction false} FieldsArePlain(fields: seq<Field>)
    requires RenderedFields(fields).Some?
    ensures
      var pairs := RenderedFields(fields).value;
      && |pairs| == |fields| && ValuesArePlain(pairs)
      && forall i :: 0 <= i < |fields| ==>
           pairs[i].name == fields[i].name && ReadItems(pairs[i].rendered) == Items(fields[i].value)
  {
    if fields != [] {
      FieldsArePlain(fields[1..]);
      ValueReadsBack(fields[0].value);
    }
  }

  lemma FixedNamesArePlain()
    ensures IsPlain("action") && IsPlain("actor") && IsPlain("target")
  {
  }

  lemma HeadIsPlain(action: string, actor: string, target: string)
    requires IsPlain(action) && IsPlain(actor) && IsPlain(target)
    ensures NamesArePlain(Head(action, actor, target)) && ValuesArePlain(Head(action, actor, target))
  {
    FixedNamesArePlain();
  }

  lemma ActorIsPlain(actor: Actor)
    requires RenderedActor(actor).Some?
    ensures IsPlain(RenderedActor(actor).value)
  {
    if actor.ActingAccount? {
      PrintedIsPlain(actor.id);
    }
  }

  lemma TargetIsPlain(target: Target)
    requires RenderedTarget(target).Some?
    ensures IsPlain(RenderedTarget(target).value)
  {
    if target.TargetRecord? {
      PrintedIsPlain(target.id);
    }
  }

  lemma PlainTogether(a: seq<Pair>, b: seq<Pair>)
    ensures NamesArePlain(a + b) <==> NamesArePlain(a) && NamesArePlain(b)
    ensures ValuesArePlain(a + b) <==> ValuesArePlain(a) && ValuesArePlain(b)
  {
    assert forall i :: 0 <= i < |a| ==> (a + b)[i] == a[i];
    assert forall i :: 0 <= i < |b| ==> (a + b)[|a| + i] == b[i];
  }

  lemma LineIsPlain(action: string, actor: Actor, target: Target, fields: seq<Field>)
    requires Pairs(action, actor, target, fields).Some?
    ensures
      var pairs := Pairs(action, actor, target, fields).value;
      && pairs != [] && ValuesArePlain(pairs)
      && (NamesArePlain(pairs) <==> forall i :: 0 <= i < |fields| ==> IsPlain(fields[i].name))
  {
    FieldsArePlain(fields);
    ActorIsPlain(actor);
    TargetIsPlain(target);
    SlugIsPlain(action);
    var a, t := RenderedActor(actor).value, RenderedTarget(target).value;
    HeadIsPlain(action, a, t);
    PlainTogether(Head(action, a, t), RenderedFields(fields).value);
  }

  lemma SlugIsPlain(s: string)
    requires IsSlug(s)
    ensures IsPlain(s)
  {
    forall i | 0 <= i < |s| ensures IsPlainChar(s[i]) {
      assert IsSlugChar(s[i]);
    }
  }

  /**
   Every line a record writes reads back as its fields, in order, exactly when no field's name holds a
   space or an `=`; and each value as the words it stood for.
   */
  lemma LineReadsBack(action: string, actor: Actor, target: Target, fields: seq<Field>)
    requires Line(action, actor, target, fields).Some?
    ensures
      var pairs := Pairs(action, actor, target, fields).value;
      var read := ReadLine(Line(action, actor, target, fields).value);
      && (read == pairs <==> forall i :: 0 <= i < |fields| ==> IsPlain(fields[i].name))
      && (read == pairs ==>
            |read| == 3 + |fields| && read[0].rendered == action &&
            forall i :: 0 <= i < |fields| ==>
              read[i + 3].name == fields[i].name && ReadItems(read[i + 3].rendered) == Items(fields[i].value))
  {
    LineIsPlain(action, actor, target, fields);
    PairsReadBack(Pairs(action, actor, target, fields).value);
    PairsSayFields(action, actor, target, fields);
  }

  /** A line's own three fields, and then those it was given. */
  lemma PairsSayFields(action: string, actor: Actor, target: Target, fields: seq<Field>)
    requires Pairs(action, actor, target, fields).Some?
    ensures
      var pairs := Pairs(action, actor, target, fields).value;
      && |pairs| == 3 + |fields| && pairs[0].rendered == action
      && forall i :: 0 <= i < |fields| ==>
           pairs[i + 3].name == fields[i].name && ReadItems(pairs[i + 3].rendered) == Items(fields[i].value)
  {
    FieldsArePlain(fields);
    var pairs, rest := Pairs(action, actor, target, fields).value, RenderedFields(fields).value;
    forall i | 0 <= i < |fields|
      ensures pairs[i + 3].name == fields[i].name && ReadItems(pairs[i + 3].rendered) == Items(fields[i].value)
    {
      assert pairs[i + 3] == rest[i];
    }
  }

  /** A field named by a space is written, and its line does not read back. */
  lemma SpacedNameIsLost(action: string, value: Value)
    requires IsSlug(action) && Rendered(value).Some?
    ensures
      var fields := [Field([' '], value)];
      && Line(action, Command, NoTarget, fields).Some?
      && ReadLine(Line(action, Command, NoTarget, fields).value) != Pairs(action, Command, NoTarget, fields).value
  {
    var fields := [Field([' '], value)];
    assert fields[1..] == [] && RenderedFields(fields[1..]) == Some([]);
    LineReadsBack(action, Command, NoTarget, fields);
    assert !IsPlainChar(fields[0].name[0]) && !IsPlain(fields[0].name);
  }

  /** A record is written exactly when its action is a slug, its actor and target are known, and every field may be carried. */
  lemma WrittenIff(action: string, actor: Actor, target: Target, fields: seq<Field>)
    ensures Line(action, actor, target, fields).Some? <==>
      && IsSlug(action) && !actor.OtherActor? && !target.OtherTarget?
      && forall i :: 0 <= i < |fields| ==> Rendered(fields[i].value).Some?
  {
    AllRenderedIff(fields);
  }

  lemma {:induction false} AllRenderedIff(fields: seq<Field>)
    ensures RenderedFields(fields).Some? <==> forall i :: 0 <= i < |fields| ==> Rendered(fields[i].value).Some?
  {
    if fields != [] {
      AllRenderedIff(fields[1..]);
      assert forall i :: 0 <= i < |fields| - 1 ==> fields[1..][i] == fields[i + 1];
    }
  }

  /** Two actors, or two targets, are never written alike. */
  lemma SubjectsApart(a: Actor, b: Actor, s: Target, t: Target)
    requires RenderedActor(a).Some? && RenderedActor(b).Some? && RenderedTarget(s).Some? && RenderedTarget(t).Some?
    ensures RenderedActor(a) == RenderedActor(b) <==> a == b
    ensures RenderedTarget(s) == RenderedTarget(t) <==> s == t
  {
    assert "command"[0] == 'c' && "anonymous"[0] == 'a';
    if a.ActingAccount? {
      PrintedIsNumeric(a.id);
    }
    if b.ActingAccount? {
      PrintedIsNumeric(b.id);
    }
    if a.ActingAccount? && b.ActingAccount? {
      PrintedApart(a.id, b.id);
    }
    if s.TargetRecord? {
      PrintedIsPlain(s.id);
    }
    if t.TargetRecord? {
      PrintedIsPlain(t.id);
    }
    if s.TargetRecord? && t.TargetRecord? {
      PrintedApart(s.id, t.id);
    }
  }

  lemma PrintedIsNumeric(n: int)
    ensures Printed(n) != "" && (Printed(n)[0] == '-' || IsDigit(Printed(n)[0]))
  {
  }
}
