/** The signed addresses bounced mail comes back to. */
module Bounce {
  import opened Outcomes
  import opened Text
  import opened Decimal

  const SIGNATURE_LENGTH := 16
  const ID_MAX_DIGITS := 18
  const LOCAL_PART_LENGTH := 64
  const LOCAL_PART_MAX_LENGTH := LOCAL_PART_LENGTH - (1 + ID_MAX_DIGITS + 1 + SIGNATURE_LENGTH)

  // -------------------------------------------------------------- the parts

  datatype Cut = Cut(before: string, found: bool, after: string)

  /** `s` cut at its last `sep`; all of it after the cut when there is none. */
  function LastCut(s: string, sep: char): Cut {
    if s == "" then Cut("", false, "")
    else
      var n := |s| - 1;
      if s[n] == sep then Cut(s[..n], true, "")
      else
        var cut := LastCut(s[..n], sep);
        cut.(after := cut.after + [s[n]])
  }

  /** A cut put together again. */
  function Whole(cut: Cut, sep: char): string {
    if cut.found then cut.before + [sep] + cut.after else cut.after
  }

  lemma WholeGrows(cut: Cut, sep: char, c: char)
    ensures Whole(cut.(after := cut.after + [c]), sep) == Whole(cut, sep) + [c]
  {
  }

  lemma {:induction false} LastCutIsWhole(s: string, sep: char)
    ensures Whole(LastCut(s, sep), sep) == s
  {
    if s != "" {
      var n := |s| - 1;
      LastCutIsWhole(s[..n], sep);
      WholeGrows(LastCut(s[..n], sep), sep, s[n]);
      assert s == s[..n] + [s[n]];
    }
  }

  lemma {:induction false} LastCutFinds(s: string, sep: char)
    ensures
      var cut := LastCut(s, sep);
      && sep !in cut.after
      && (!cut.found ==> cut.before == "" && cut.after == s)
  {
    if s != "" {
      LastCutFinds(s[..|s| - 1], sep);
    }
  }

  lemma LastCutIs(s: string, sep: char)
    ensures
      var cut := LastCut(s, sep);
      && sep !in cut.after
      && s == Whole(cut, sep)
      && (!cut.found ==> cut.before == "")
      && (cut.found <==> sep in s)
  {
    LastCutIsWhole(s, sep);
    LastCutFinds(s, sep);
  }

  lemma {:induction false} LastCutOf(before: string, sep: char, after: string)
    requires sep !in after
    ensures LastCut(before + [sep] + after, sep) == Cut(before, true, after)
  {
    var s := before + [sep] + after;
    var n := |s| - 1;
    if after == "" {
      assert s[..n] == before;
    } else {
      var m := |after| - 1;
      assert s[..n] == before + [sep] + after[..m];
      LastCutOf(before, sep, after[..m]);
      assert after == after[..m] + [after[m]];
    }
  }

  predicate IsHexDigit(c: char) { IsDigit(c) || 'a' <= c <= 'f' }

  predicate IsSignature(s: string) {
    |s| == SIGNATURE_LENGTH && forall i :: 0 <= i < |s| ==> IsHexDigit(s[i])
  }

  /** A signature is sixteen of the sixteen digits a digest is printed in. */
  lemma SignatureDigits(c: char, s: string)
    ensures IsHexDigit(c) <==> c in HEX_DIGITS
    ensures IsSignature(s) <==> |s| == 16 && forall i :: 0 <= i < |s| ==> s[i] in HEX_DIGITS
  {
    forall d: char ensures IsHexDigit(d) <==> d in HEX_DIGITS {
    }
  }

  const HEX_DIGITS: set<char> := {'0', '1', '2', '3', '4', '5', '6', '7', '8', '9', 'a', 'b', 'c', 'd', 'e', 'f'}

  /** The id a tag may name: up to eighteen digits, the first not a zero. */
  predicate IsTagId(s: string) {
    1 <= |s| <= ID_MAX_DIGITS && AllDigits(s) && s[0] != '0'
  }

  datatype Tag = Tag(logId: nat, signature: string)

  function TagText(tag: Tag): string {
    Digits(tag.logId) + ['.'] + tag.signature
  }

  /** The tag `text` spells: an id, a dot, and a signature, with nothing before or after. */
  function ReadTag(text: string): Option<Tag> {
    var dot := |text| - SIGNATURE_LENGTH - 1;
    if dot >= 1 && text[dot] == '.' && IsTagId(text[..dot]) && IsSignature(text[dot + 1..])
    then Some(Tag(ValueOf(text[..dot]), text[dot + 1..]))
    else None
  }

  // ---------------------------------------------------------- the addresses

  /** The bounce address `configured` with `tag` at the end of its local part. */
  function SignedBounceAddress(configured: string, tag: Tag): string {
    var cut := LastCut(configured, '@');
    cut.before + ['+'] + TagText(tag) + (if cut.found then ['@'] else []) + cut.after
  }

  /** Reads the tag back out of an address: same domain, same local part but for case, and a tag after the plus. */
  function BounceTag(configured: string, address: string): Option<Tag> {
    if configured == "" then None
    else
      var own := LastCut(Lower(configured), '@');
      var candidate := LastCut(Lower(address), '@');
      var prefix := own.before + ['+'];
      if candidate.after != own.after || !(prefix <= candidate.before) then None
      else ReadTag(candidate.before[|prefix|..])
  }

  /** One of the site's keys gives the signature in `tag`. */
  predicate BounceTagMatches(sign: (nat, string, string) -> string, keys: seq<string>, tag: Tag, messageId: string) {
    exists i :: 0 <= i < |keys| && sign(tag.logId, messageId, keys[i]) == tag.signature
  }

  // ------------------------------------------------------------ round trips

  lemma ReadTagOfText(tag: Tag)
    requires IsSignature(tag.signature)
    ensures ReadTag(TagText(tag)) == if tag.logId > 0 && |Digits(tag.logId)| <= ID_MAX_DIGITS then Some(tag) else None
  {
    var text := TagText(tag);
    var dot := |text| - SIGNATURE_LENGTH - 1;
    assert text[..dot] == Digits(tag.logId) && text[dot + 1..] == tag.signature;
    ValueOfDigits(tag.logId);
  }

  lemma TagTextOfRead(text: string)
    requires ReadTag(text).Some?
    ensures TagText(ReadTag(text).value) == text && IsSignature(ReadTag(text).value.signature)
    ensures ReadTag(text).value.logId > 0 && |Digits(ReadTag(text).value.logId)| <= ID_MAX_DIGITS
  {
    var dot := |text| - SIGNATURE_LENGTH - 1;
    assert text == text[..dot] + [text[dot]] + text[dot + 1..];
    DigitsOfValue(text[..dot]);
    PositiveUnlessZero(text[..dot]);
  }

  lemma LowerOfJoined(a: string, b: string)
    ensures Lower(a + b) == Lower(a) + Lower(b)
  {
  }

  lemma LowerKeepsAbsence(s: string, c: char)
    requires !IsLetter(c)
    ensures c in Lower(s) <==> c in s
  {
    if c in s {
      var i :| 0 <= i < |s| && s[i] == c;
      assert Lower(s)[i] == c;
    }
  }

  /** Cutting and lower-casing may be done in either order. */
  lemma LowerOfCut(s: string, sep: char)
    requires !IsLetter(sep)
    ensures
      var cut := LastCut(s, sep);
      LastCut(Lower(s), sep) == Cut(Lower(cut.before), cut.found, Lower(cut.after))
  {
    var cut := LastCut(s, sep);
    LastCutIs(s, sep);
    LowerKeepsAbsence(cut.after, sep);
    if cut.found {
      LowerOfJoined(cut.before + [sep], cut.after);
      LowerOfJoined(cut.before, [sep]);
      assert Lower([sep]) == [sep];
      LastCutOf(Lower(cut.before), sep, Lower(cut.after));
    } else {
      LastCutIs(Lower(s), sep);
      LowerKeepsAbsence(s, sep);
    }
  }

  lemma LowerTag(tag: Tag)
    requires IsSignature(tag.signature)
    ensures Lower(TagText(tag)) == TagText(tag) && '@' !in TagText(tag)
  {
    var text := TagText(tag);
    forall i | 0 <= i < |text| ensures LowerChar(text[i]) == text[i] && text[i] != '@' {
      if i < |Digits(tag.logId)| {
        assert text[i] == Digits(tag.logId)[i];
      } else if i > |Digits(tag.logId)| {
        assert text[i] == tag.signature[i - |Digits(tag.logId)| - 1];
      }
    }
  }

  /** How the site's own signed address falls apart, lower-cased, when the bounce address has an `@`. */
  lemma SignedParts(configured: string, tag: Tag)
    requires '@' in configured && IsSignature(tag.signature)
    ensures
      var cut := LastCut(configured, '@');
      LastCut(Lower(SignedBounceAddress(configured, tag)), '@')
      == Cut(Lower(cut.before) + ['+'] + TagText(tag), true, Lower(cut.after))
  {
    var cut := LastCut(configured, '@');
    LastCutIs(configured, '@');
    var local := cut.before + ['+'] + TagText(tag);
    assert SignedBounceAddress(configured, tag) == local + ['@'] + cut.after;
    LastCutOf(local, '@', cut.after);
    LowerOfCut(SignedBounceAddress(configured, tag), '@');
    LowerOfJoined(cut.before + ['+'], TagText(tag));
    LowerOfJoined(cut.before, ['+']);
    assert Lower(['+']) == ['+'];
    LowerTag(tag);
  }

  /**
   A signed address is read back as the id and signature it was made of exactly when the bounce address
   has an `@` and the id has one to eighteen digits.
   */
  lemma SignedAddressReadsBack(configured: string, tag: Tag)
    requires IsSignature(tag.signature)
    ensures BounceTag(configured, SignedBounceAddress(configured, tag)) == Some(tag) <==>
            '@' in configured && 0 < tag.logId && |Digits(tag.logId)| <= ID_MAX_DIGITS
  {
    var address := SignedBounceAddress(configured, tag);
    LowerOfCut(configured, '@');
    LastCutIs(configured, '@');
    if '@' in configured {
      SignedParts(configured, tag);
      ReadTagOfText(tag);
      var prefix := Lower(LastCut(configured, '@').before) + ['+'];
      assert (prefix + TagText(tag))[|prefix|..] == TagText(tag);
    } else {
      LowerTag(tag);
      assert '@' !in address;
      LastCutIs(Lower(address), '@');
      LowerKeepsAbsence(address, '@');
    }
  }

  /** An address the parser accepts is, but for case, the signed address of the tag it read, when the bounce address has an `@`. */
  lemma AcceptedAddressReprints(configured: string, address: string)
    requires BounceTag(configured, address).Some?
    ensures Lower(SignedBounceAddress(configured, BounceTag(configured, address).value)) == Lower(address) <==>
            '@' in configured
  {
    var tag := BounceTag(configured, address).value;
    var own, candidate := LastCut(Lower(configured), '@'), LastCut(Lower(address), '@');
    var prefix := own.before + ['+'];
    var text := candidate.before[|prefix|..];
    TagTextOfRead(text);
    assert candidate.before == prefix + text;
    LowerOfCut(configured, '@');
    LastCutIs(configured, '@');
    LastCutIs(Lower(address), '@');
    var printed := SignedBounceAddress(configured, tag);
    if '@' in configured {
      SignedParts(configured, tag);
      LastCutIs(Lower(printed), '@');
    } else {
      assert |printed| == 1 + |text| + |configured| && |Lower(address)| == |printed| + 1;
    }
  }

  /** A bounce address without an `@`: an address with one is accepted, and does not print back. */
  lemma AcceptedWithoutReprinting(configured: string, address: string)
    requires configured != "" && '@' !in configured
    requires address == ['+'] + TagText(FirstTag()) + ['@'] + configured
    ensures BounceTag(configured, address) == Some(FirstTag())
    ensures Lower(SignedBounceAddress(configured, FirstTag())) != Lower(address)
  {
    var text := TagText(FirstTag());
    LastCutIs(configured, '@');
    LowerOfCut(configured, '@');
    LastCutOf(['+'] + text, '@', configured);
    LowerOfCut(address, '@');
    LowerTag(FirstTag());
    LowerOfJoined(['+'], text);
    assert Lower(['+']) == ['+'] && (['+'] + text)[1..] == text;
    DigitsOfOne();
    ReadTagOfText(FirstTag());
    AcceptedAddressReprints(configured, address);
  }

  /** The first log entry, under a signature of zeros. */
  function FirstTag(): Tag { Tag(1, seq(SIGNATURE_LENGTH, i => '0')) }

  lemma DigitsOfOne()
    ensures |Digits(1)| == 1
  {
  }

  /** The site's own bounces are recognised while the key they were signed under is one of its keys. */
  lemma OwnBouncesMatch(sign: (nat, string, string) -> string, keys: seq<string>, i: nat, configured: string,
                        logId: nat, messageId: string)
    requires i < |keys| && IsSignature(sign(logId, messageId, keys[i]))
    requires '@' in configured && 0 < logId && |Digits(logId)| <= ID_MAX_DIGITS
    ensures
      var address := SignedBounceAddress(configured, Tag(logId, sign(logId, messageId, keys[i])));
      var read := BounceTag(configured, address);
      read.Some? && BounceTagMatches(sign, keys, read.value, messageId)
  {
    SignedAddressReadsBack(configured, Tag(logId, sign(logId, messageId, keys[i])));
  }

  /** A local part of up to 28 characters, and no longer one, leaves room for every tag. */
  lemma TaggedLocalPartFits(local: string, signature: string)
    requires IsSignature(signature)
    ensures |local| <= LOCAL_PART_MAX_LENGTH <==>
            forall id: nat :: |Digits(id)| <= ID_MAX_DIGITS ==>
              |local + ['+'] + TagText(Tag(id, signature))| <= LOCAL_PART_LENGTH
  {
    if |local| > LOCAL_PART_MAX_LENGTH {
      var longest := seq(ID_MAX_DIGITS, i => '1');
      assert longest[0] == '1' && IsNumeral(longest);
      DigitsOfValue(longest);
      assert |local + ['+'] + TagText(Tag(ValueOf(longest), signature))| > LOCAL_PART_LENGTH;
    }
  }
}
