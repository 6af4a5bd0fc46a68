/** Strings over the ASCII characters: case mapping, whitespace, and trimming. */
module Text {

  /** The ASCII characters Python's `str.isspace` and the `\s` class accept. */
  predicate IsSpace(c: char) {
    c == ' ' || '\t' <= c <= '\r' || '\U{1c}' <= c <= '\U{1f}'
  }

  predicate IsUpperChar(c: char) { 'A' <= c <= 'Z' }

  predicate IsLowerChar(c: char) { 'a' <= c <= 'z' }

  predicate IsLetter(c: char) { IsUpperChar(c) || IsLowerChar(c) }

  predicate IsDigit(c: char) { '0' <= c <= '9' }

  function LowerChar(c: char): char {
    if IsUpperChar(c) then c - 'A' + 'a' else c
  }

  function UpperChar(c: char): char {
    if IsLowerChar(c) then c - 'a' + 'A' else c
  }

  function Lower(s: string): string {
    seq(|s|, i requires 0 <= i < |s| => LowerChar(s[i]))
  }

  function Upper(s: string): string {
    seq(|s|, i requires 0 <= i < |s| => UpperChar(s[i]))
  }

  /** True when no whitespace stands at either end of `s`. */
  predicate Stripped(s: string) {
    s != "" ==> !IsSpace(s[0]) && !IsSpace(s[|s| - 1])
  }

  function Strip(s: string): (r: string)
    ensures Stripped(r)
    ensures Stripped(s) ==> r == s
  {
    if s != "" && IsSpace(s[0]) then Strip(s[1..])
    else if s != "" && IsSpace(s[|s| - 1]) then Strip(s[..|s| - 1])
    else s
  }

  predicate Blank(s: string) {
    forall i :: 0 <= i < |s| ==> IsSpace(s[i])
  }

  /** `s` is `word` with whitespace around it, and `word` has none at its ends. */
  ghost predicate Pads(s: string, word: string) {
    Stripped(word) && exists lead, tail :: Blank(lead) && Blank(tail) && s == lead + word + tail
  }

  lemma PadsFront(c: char, rest: string, word: string)
    requires IsSpace(c) && Pads(rest, word)
    ensures Pads([c] + rest, word)
  {
    var lead, tail :| Blank(lead) && Blank(tail) && rest == lead + word + tail;
    assert Blank([c] + lead) && [c] + rest == ([c] + lead) + word + tail;
  }

  lemma PadsBack(rest: string, c: char, word: string)
    requires IsSpace(c) && Pads(rest, word)
    ensures Pads(rest + [c], word)
  {
    var lead, tail :| Blank(lead) && Blank(tail) && rest == lead + word + tail;
    assert Blank(tail + [c]) && rest + [c] == lead + word + (tail + [c]);
  }

  /** Stripping takes whitespace off the ends, and nothing else. */
  lemma {:induction false} StripTakesBlanks(s: string)
    ensures Pads(s, Strip(s))
    decreases |s|
  {
    if s != "" && IsSpace(s[0]) {
      var rest := s[1..];
      StripTakesBlanks(rest);
      assert Strip(s) == Strip(rest);
      PadsFront(s[0], rest, Strip(rest));
      assert s == [s[0]] + rest;
    } else if s != "" && IsSpace(s[|s| - 1]) {
      var rest := s[..|s| - 1];
      StripTakesBlanks(rest);
      assert Strip(s) == Strip(rest);
      PadsBack(rest, s[|s| - 1], Strip(rest));
      assert s == rest + [s[|s| - 1]];
    } else {
      assert Blank("") && s == "" + s + "";
    }
  }

  /** And all of it: what is left of a padded word is the word. */
  lemma {:induction false} StripOfPadded(lead: string, word: string, tail: string)
    requires Blank(lead) && Blank(tail) && Stripped(word)
    ensures Strip(lead + word + tail) == word
    decreases |lead| + |tail|
  {
    var s := lead + word + tail;
    if lead != "" {
      assert s[0] == lead[0] && s[1..] == lead[1..] + word + tail;
      StripOfPadded(lead[1..], word, tail);
    } else if tail != "" {
      var n := |tail| - 1;
      if word == "" {
        assert s == tail && s[0] == tail[0] && s[1..] == "" + word + tail[1..];
        StripOfPadded("", word, tail[1..]);
      } else {
        assert s[0] == word[0] && s[|s| - 1] == tail[n] && s[..|s| - 1] == "" + word + tail[..n];
        StripOfPadded("", word, tail[..n]);
      }
    } else {
      assert s == word;
    }
  }

  // ------------------------------------------------------ splitting, joining

  /** The pieces of `s` between occurrences of `sep`: one more than there are occurrences. */
  function Split(s: string, sep: char): (parts: seq<string>)
    ensures |parts| >= 1
  {
    if s == "" then [""]
    else
      var rest := Split(s[1..], sep);
      if s[0] == sep then [""] + rest else [[s[0]] + rest[0]] + rest[1..]
  }

  function Join(parts: seq<string>, sep: char): string {
    if parts == [] then ""
    else if |parts| == 1 then parts[0]
    else parts[0] + [sep] + Join(parts[1..], sep)
  }

  /** No part holds `sep`. */
  predicate Free(parts: seq<string>, sep: char) {
    forall i :: 0 <= i < |parts| ==> sep !in parts[i]
  }

  lemma {:induction false} JoinSplit(s: string, sep: char)
    ensures Join(Split(s, sep), sep) == s
    ensures Free(Split(s, sep), sep)
  {
    if s != "" {
      JoinSplit(s[1..], sep);
      var rest := Split(s[1..], sep);
      if s[0] != sep {
        assert Split(s, sep)[1..] == rest[1..];
      } else {
        assert Split(s, sep)[1..] == rest;
      }
    }
  }

  lemma {:induction false} SplitOfFree(part: string, sep: char)
    requires sep !in part
    ensures Split(part, sep) == [part]
  {
    if part != "" {
      SplitOfFree(part[1..], sep);
      assert [part[0]] + part[1..] == part;
    }
  }

  lemma {:induction false} SplitAfter(part: string, rest: string, sep: char)
    requires sep !in part
    ensures Split(part + [sep] + rest, sep) == [part] + Split(rest, sep)
  {
    var s := part + [sep] + rest;
    if part == "" {
      assert s[1..] == rest;
    } else {
      var tail := Split(part[1..] + [sep] + rest, sep);
      SplitAfter(part[1..], rest, sep);
      assert s[0] == part[0] && s[1..] == part[1..] + [sep] + rest;
      assert tail[0] == part[1..] && tail[1..] == Split(rest, sep);
      assert [s[0]] + tail[0] == part;
    }
  }

  lemma GrownFirst(c: char, a: seq<string>, b: seq<string>)
    requires a != []
    ensures [[c] + (a + b)[0]] + (a + b)[1..] == [[c] + a[0]] + a[1..] + b
  {
  }

  /** A separator cuts for certain: what is before it and what is after it split on their own. */
  lemma {:induction false} SplitAround(before: string, after: string, sep: char)
    ensures Split(before + [sep] + after, sep) == Split(before, sep) + Split(after, sep)
  {
    var s := before + [sep] + after;
    if before == "" {
      assert s[0] == sep && s[1..] == after;
    } else {
      var rest, more := Split(before[1..], sep), Split(after, sep);
      SplitAround(before[1..], after, sep);
      assert s[0] == before[0] && s[1..] == before[1..] + [sep] + after;
      GrownFirst(before[0], rest, more);
    }
  }

  lemma {:induction false} SplitJoin(parts: seq<string>, sep: char)
    requires parts != [] && Free(parts, sep)
    ensures Split(Join(parts, sep), sep) == parts
  {
    if |parts| == 1 {
      SplitOfFree(parts[0], sep);
    } else {
      SplitJoin(parts[1..], sep);
      SplitAfter(parts[0], Join(parts[1..], sep), sep);
    }
  }
}
