/** What becomes of the captions over the lists of a guide page. */
module GuideCaptions {
  import opened GuidePage

  // --------------------------------------- the sweep, read from right to left

  /** A list of the navigation without an item. */
  predicate Emptied(at: Place, e: Node) {
    e.Elem? && at.inTree && e.tag.List? && !HoldsItem(e.kids)
  }

  /** A table of contents that has no list any more, the last one it lost not having stood in one nested in it. */
  predicate TocGoes(at: Place, e: Node)
    decreases e, 0
  {
    && IsWrapper(e) && !Emptied(at, e)
    && var removals := Removals(Within(at, e), e.kids);
       removals != [] && !removals[|removals| - 1] && !HoldsList(Left(Within(at, e), e.kids, 0))
  }

  predicate IsCaption(e: Node) { e.Elem? && Caption in e.classes }

  /**
   How many of the lists that go, among `kids` and the `owed` to the right of them, find neither a caption of
   their own nor anything else that stays between them and what is left of `kids`.
   */
  function Owed(at: Place, kids: seq<Node>, owed: nat): nat
    decreases kids, 1
  {
    if kids == [] then owed
    else
      var right := Owed(at, kids[1..], owed);
      if kids[0].Text? || TocGoes(at, kids[0]) then right
      else if Emptied(at, kids[0]) then right + 1
      else if IsCaption(kids[0]) && right > 0 then right - 1
      else 0
  }

  /** What is served of `kids`: each list that goes takes the nearest caption left of it, if nothing else stays between. */
  function Left(at: Place, kids: seq<Node>, owed: nat): seq<Node>
    decreases kids, 2
  {
    if kids == [] then [] else LeftOf(at, kids[0], Owed(at, kids[1..], owed)) + Left(at, kids[1..], owed)
  }

  function LeftOf(at: Place, e: Node, owed: nat): seq<Node>
    decreases e, 1
  {
    if e.Text? then [e]
    else if Emptied(at, e) || TocGoes(at, e) || (IsCaption(e) && owed > 0) then []
    else [e.(kids := Left(Within(at, e), e.kids, 0))]
  }

  /** `done` with a caption taken off its end for each of `n` lists. */
  function Taken(done: seq<Node>, n: nat): seq<Node>
    decreases n
  {
    if n == 0 then done else Taken(WithoutCaption(done), n - 1)
  }

  lemma WithoutCaptionOfMore(done: seq<Node>, e: Node)
    ensures WithoutCaption(done + [e]) ==
      if e.Text? then WithoutCaption(done) + [e] else if IsCaption(e) then done else done + [e]
  {
    assert (done + [e])[..|done|] == done;
  }

  lemma {:induction false} TakenPastText(done: seq<Node>, e: Node, n: nat)
    requires e.Text?
    ensures Taken(done + [e], n) == Taken(done, n) + [e]
    decreases n
  {
    if n > 0 {
      WithoutCaptionOfMore(done, e);
      TakenPastText(WithoutCaption(done), e, n - 1);
    }
  }

  lemma {:induction false} TakenAtElement(done: seq<Node>, e: Node, n: nat)
    requires e.Elem?
    ensures Taken(done + [e], n) == if IsCaption(e) && n > 0 then Taken(done, n - 1) else done + [e]
    decreases n
  {
    WithoutCaptionOfMore(done, e);
    if n > 0 && !IsCaption(e) {
      TakenAtElement(done, e, n - 1);
    }
  }

  lemma {:induction false} TakenFromNothing(n: nat)
    ensures Taken([], n) == []
  {
    if n > 0 {
      TakenFromNothing(n - 1);
    }
  }

  lemma OwedLed(at: Place, kids: seq<Node>, owed: nat)
    requires kids != []
    ensures Owed(at, kids, owed) == Owed(at, [kids[0]], Owed(at, kids[1..], owed))
  {
    assert [kids[0]][1..] == [];
  }

  /** The sweep, on every page: the two readings agree. */
  lemma {:induction false} SweepIsLeft(at: Place, swept: Swept, rest: seq<Node>)
    ensures Sweep(at, swept, rest).done == Taken(swept.done, Owed(at, rest, 0)) + Left(at, rest, 0)
    decreases rest, 3
  {
    if rest != [] {
      var next, n := SweepOf(at, swept, rest[0]), Owed(at, rest[1..], 0);
      SweepIsLeft(at, next, rest[1..]);
      SweepOfIsLeft(at, swept, rest[0], n);
      OwedLed(at, rest, 0);
    }
  }

  /** What stands in `e` is swept the same, whatever went before. */
  lemma {:induction false} SweptInside(at: Place, last: Last, e: Node)
    requires e.Elem?
    ensures Sweep(Within(at, e), Swept([], last), e.kids).done == Left(Within(at, e), e.kids, 0)
    decreases e, 0
  {
    SweepIsLeft(Within(at, e), Swept([], last), e.kids);
    TakenFromNothing(Owed(Within(at, e), e.kids, 0));
  }

  lemma TocGoesIff(at: Place, e: Node)
    requires IsWrapper(e) && !Emptied(at, e)
    requires Sweep(Within(at, e), Swept([], Nobodys), e.kids).done == Left(Within(at, e), e.kids, 0)
    ensures TocGoes(at, e) <==>
      var inner := Sweep(Within(at, e), Swept([], Nobodys), e.kids); inner.last.Ours? && !HoldsList(inner.done)
  {
    SweepLast(Within(at, e), Swept([], Nobodys), e.kids);
  }

  /** What `e` is once it is swept, if it stays. */
  function Kept(at: Place, e: Node): Node
    requires e.Elem?
  {
    e.(kids := Left(Within(at, e), e.kids, 0))
  }

  lemma {:induction false} SweepOfElement(at: Place, swept: Swept, e: Node)
    requires e.Elem? && !Emptied(at, e)
    ensures SweepOf(at, swept, e).done == swept.done + if TocGoes(at, e) then [] else [Kept(at, e)]
    decreases e, 1
  {
    SweptInside(at, if IsWrapper(e) then Nobodys else swept.last, e);
    if IsWrapper(e) {
      TocGoesIff(at, e);
    }
  }

  lemma OwedOfOne(at: Place, e: Node, owed: nat)
    ensures Owed(at, [e], owed) ==
      if e.Text? || TocGoes(at, e) then owed
      else if Emptied(at, e) then owed + 1
      else if IsCaption(e) && owed > 0 then owed - 1 else 0
  {
    assert [e][1..] == [];
  }

  /** One node: what it leaves of those done, for `n` lists still to come. */
  lemma {:induction false} SweepOfIsLeft(at: Place, swept: Swept, e: Node, n: nat)
    ensures Taken(SweepOf(at, swept, e).done, n) == Taken(swept.done, Owed(at, [e], n)) + LeftOf(at, e, n)
    decreases e, 2
  {
    OwedOfOne(at, e, n);
    if e.Text? {
      TakenPastText(swept.done, e, n);
    } else if Emptied(at, e) {
      assert Taken(SweepOf(at, swept, e).done, n) == Taken(swept.done, n + 1);
    } else {
      SweepOfElement(at, swept, e);
      if TocGoes(at, e) {
        assert swept.done + [] == swept.done;
      } else {
        TakenAtElement(swept.done, Kept(at, e), n);
      }
    }
  }

  // ------------------------------------------------- which captions go, and which stay

  lemma {:induction false} LeftOfBoth(at: Place, a: seq<Node>, b: seq<Node>, owed: nat)
    ensures Owed(at, a + b, owed) == Owed(at, a, Owed(at, b, owed))
    ensures Left(at, a + b, owed) == Left(at, a, Owed(at, b, owed)) + Left(at, b, owed)
  {
    if a == [] {
      assert a + b == b;
    } else {
      assert (a + b)[1..] == a[1..] + b;
      LeftOfBoth(at, a[1..], b, owed);
    }
  }

  /** Among its siblings a caption goes exactly when a list that goes has come to it from the right. */
  lemma CaptionGoesIff(at: Place, before: seq<Node>, caption: Node, after: seq<Node>)
    requires IsCaption(caption) && !Emptied(at, caption) && !TocGoes(at, caption)
    ensures Left(at, before + [caption] + after, 0) ==
      Left(at, before, Owed(at, [caption] + after, 0))
      + (if Owed(at, after, 0) > 0 then [] else [Kept(at, caption)])
      + Left(at, after, 0)
  {
    assert before + [caption] + after == before + ([caption] + after);
    assert ([caption] + after)[1..] == after;
    LeftOfBoth(at, before, [caption] + after, 0);
  }

  /** The next element, past any text, is a list, and neither a caption nor a table of contents. */
  predicate NextIsList(rest: seq<Node>) {
    rest != [] &&
    if rest[0].Text? then NextIsList(rest[1..]) else rest[0].tag.List? && !IsWrapper(rest[0]) && !IsCaption(rest[0])
  }

  predicate NextIsEmptied(at: Place, rest: seq<Node>) {
    rest != [] && if rest[0].Text? then NextIsEmptied(at, rest[1..]) else Emptied(at, rest[0])
  }

  /** So a caption just before a list goes exactly when the list does. */
  lemma {:induction false} NextListDecides(at: Place, rest: seq<Node>, owed: nat)
    requires NextIsList(rest)
    ensures Owed(at, rest, owed) > 0 <==> NextIsEmptied(at, rest)
    ensures !NextIsEmptied(at, rest) ==> NextIsList(Left(at, rest, owed))
  {
    if rest[0].Text? {
      NextListDecides(at, rest[1..], owed);
      assert Left(at, rest, owed) == [rest[0]] + Left(at, rest[1..], owed);
    }
  }

  /** Captions as Sphinx builds them: each just before its list. */
  predicate Captioned(kids: seq<Node>)
    decreases kids
  {
    kids == [] ||
    (&& (IsCaption(kids[0]) ==> !kids[0].tag.List? && !IsWrapper(kids[0]) && NextIsList(kids[1..]))
     && (kids[0].Elem? ==> Captioned(kids[0].kids))
     && Captioned(kids[1..]))
  }

  /** The captions of the navigation among `kids`, in document order. */
  function Captions(at: Place, kids: seq<Node>): seq<Node>
    decreases kids
  {
    if kids == [] then [] else CaptionsOf(at, kids[0]) + Captions(at, kids[1..])
  }

  function CaptionsOf(at: Place, e: Node): seq<Node>
    decreases e
  {
    if e.Text? then []
    else (if at.inTree && IsCaption(e) then [Bare(e)] else []) + Captions(Within(at, e), e.kids)
  }

  lemma {:induction false} CaptionsAppend(at: Place, a: seq<Node>, b: seq<Node>)
    ensures Captions(at, a + b) == Captions(at, a) + Captions(at, b)
  {
    if a == [] {
      assert a + b == b;
    } else {
      assert (a + b)[1..] == a[1..] + b;
      CaptionsAppend(at, a[1..], b);
    }
  }

  lemma {:induction false} NextIsListAppend(a: seq<Node>, b: seq<Node>)
    requires NextIsList(a)
    ensures NextIsList(a + b)
  {
    assert (a + b)[0] == a[0] && (a + b)[1..] == a[1..] + b;
    if a[0].Text? {
      NextIsListAppend(a[1..], b);
    }
  }

  lemma {:induction false} CaptionedAppend(a: seq<Node>, b: seq<Node>)
    requires Captioned(a) && Captioned(b)
    ensures Captioned(a + b)
  {
    if a == [] {
      assert a + b == b;
    } else {
      assert (a + b)[1..] == a[1..] + b;
      CaptionedAppend(a[1..], b);
      if IsCaption(a[0]) {
        NextIsListAppend(a[1..], b);
      }
    }
  }

  lemma {:induction false} NoListNoCaptions(at: Place, kids: seq<Node>)
    requires Captioned(kids) && !HoldsList(kids)
    ensures Captions(at, kids) == []
    decreases kids
  {
    if kids != [] {
      NoListNoCaptions(at, kids[1..]);
      if kids[0].Elem? {
        NoListNoCaptions(Within(at, kids[0]), kids[0].kids);
        if IsCaption(kids[0]) {
          NextIsHeld(kids[1..]);
        }
      }
    }
  }

  lemma {:induction false} NextIsHeld(rest: seq<Node>)
    requires NextIsList(rest)
    ensures HoldsList(rest)
  {
    if rest[0].Text? {
      NextIsHeld(rest[1..]);
    }
  }

  lemma {:induction false} NoRegionsNoCaptions(at: Place, kids: seq<Node>)
    requires NoRegions(kids)
    ensures Captions(at, kids) == []
    decreases kids
  {
    if kids != [] {
      NoRegionsNoCaptions(at, kids[1..]);
      if kids[0].Elem? {
        NoRegionsNoCaptions(Within(at, kids[0]), kids[0].kids);
      }
    }
  }

  /** The captions of `kids` whose lists hold an item. */
  function FullCaptions(at: Place, kids: seq<Node>): seq<Node>
    decreases kids
  {
    if kids == [] then []
    else FullCaptionsOf(at, kids[0], NextIsEmptied(at, kids[1..])) + FullCaptions(at, kids[1..])
  }

  function FullCaptionsOf(at: Place, e: Node, emptied: bool): seq<Node>
    decreases e
  {
    if e.Text? || (IsCaption(e) && emptied) then []
    else (if at.inTree && IsCaption(e) then [Bare(e)] else []) + FullCaptions(Within(at, e), e.kids)
  }

  lemma {:induction false} NoRegionsNoFull(at: Place, kids: seq<Node>)
    requires NoRegions(kids)
    ensures FullCaptions(at, kids) == []
    decreases kids
  {
    if kids != [] {
      NoRegionsNoFull(at, kids[1..]);
      if kids[0].Elem? {
        NoRegionsNoFull(Within(at, kids[0]), kids[0].kids);
      }
    }
  }

  /** What is left keeps each caption just before its list. */
  lemma {:induction false} LeftKeepsCaptioned(at: Place, kids: seq<Node>, owed: nat)
    requires Captioned(kids)
    ensures Captioned(Left(at, kids, owed))
    decreases kids
  {
    if kids != [] {
      var e, rest := kids[0], kids[1..];
      LeftKeepsCaptioned(at, rest, owed);
      if e.Elem? {
        LeftKeepsCaptioned(Within(at, e), e.kids, 0);
        if IsCaption(e) {
          NextListDecides(at, rest, owed);
        }
      }
      var one, more := LeftOf(at, e, Owed(at, rest, owed)), Left(at, rest, owed);
      if one == [] {
        assert one + more == more;
      } else {
        assert one + more == [one[0]] + more && (one + more)[1..] == more;
      }
    }
  }

  /** A list or a table of contents that goes takes no caption with it whose list would stay. */
  lemma GoneHoldsNoCaption(at: Place, e: Node, owed: nat)
    requires e.Elem? && (e.tag.List? ==> NoRegions(e.kids))
    requires Captioned(Left(Within(at, e), e.kids, 0))
    requires Captions(Within(at, e), Left(Within(at, e), e.kids, 0)) == FullCaptions(Within(at, e), e.kids)
    ensures Emptied(at, e) || TocGoes(at, e) ==> FullCaptions(Within(at, e), e.kids) == []
  {
    if Emptied(at, e) {
      NoRegionsNoFull(Within(at, e), e.kids);
    } else if TocGoes(at, e) {
      NoListNoCaptions(Within(at, e), Left(Within(at, e), e.kids, 0));
    }
  }

  lemma LeftOfKeepsFull(at: Place, e: Node, owed: nat, emptied: bool)
    requires IsCaption(e) ==> !e.tag.List? && !IsWrapper(e) && (owed > 0 <==> emptied)
    requires e.Elem? ==>
      && (e.tag.List? ==> NoRegions(e.kids)) && Captioned(Left(Within(at, e), e.kids, 0))
      && Captions(Within(at, e), Left(Within(at, e), e.kids, 0)) == FullCaptions(Within(at, e), e.kids)
    ensures Captions(at, LeftOf(at, e, owed)) == FullCaptionsOf(at, e, emptied)
  {
    var left := LeftOf(at, e, owed);
    if e.Elem? {
      GoneHoldsNoCaption(at, e, owed);
    }
    if left != [] {
      assert left == [left[0]] && left[1..] == [];
    }
  }

  /** And it keeps exactly the captions whose lists hold an item. */
  lemma {:induction false} LeftKeepsFull(at: Place, kids: seq<Node>)
    requires Captioned(kids) && ListsArePlain(kids)
    ensures Captions(at, Left(at, kids, 0)) == FullCaptions(at, kids)
    decreases kids
  {
    if kids != [] {
      var e, rest := kids[0], kids[1..];
      LeftKeepsFull(at, rest);
      if e.Elem? {
        LeftKeepsFull(Within(at, e), e.kids);
        LeftKeepsCaptioned(Within(at, e), e.kids, 0);
        if IsCaption(e) {
          NextListDecides(at, rest, 0);
        }
      }
      LeftOfKeepsFull(at, e, Owed(at, rest, 0), NextIsEmptied(at, rest));
      CaptionsAppend(at, LeftOf(at, e, Owed(at, rest, 0)), Left(at, rest, 0));
    }
  }

  // --------------------------------------------------- from the page as built

  /** What the reader is not shown whatever it holds: dead items, a hidden search box, and hidden links that go whole. */
  predicate Skipped(reader: Reader, living: bool, at: Place, e: Node)
    requires e.Elem?
  {
    || (living && IsDead(reader, at, e))
    || (reader.hidesSearch && IsSearchForm(e))
    || (Hidden(reader, e) && (IsHeadLink(e) || (at.inRelated && e.tag.Anchor?)))
  }

  /** Some item among `kids` or below is shown; with `living`, dead ones count as not. */
  predicate HoldsShown(reader: Reader, living: bool, at: Place, kids: seq<Node>)
    decreases kids
  {
    kids != [] && (HoldsShownIn(reader, living, at, kids[0]) || HoldsShown(reader, living, at, kids[1..]))
  }

  predicate HoldsShownIn(reader: Reader, living: bool, at: Place, e: Node)
    decreases e
  {
    && e.Elem? && !Skipped(reader, living, at, e)
    && if e.tag.Anchor? && Hidden(reader, e) then HoldsShown(reader, living, at, e.kids)
       else e.tag.Item? || HoldsShown(reader, living, Within(at, e), e.kids)
  }

  /** The next element, past any text, is a list of the navigation of which nothing is shown. */
  predicate NextIsBare(reader: Reader, living: bool, at: Place, rest: seq<Node>) {
    rest != [] &&
    if rest[0].Text? then NextIsBare(reader, living, at, rest[1..])
    else at.inTree && rest[0].tag.List? && !HoldsShown(reader, living, Within(at, rest[0]), rest[0].kids)
  }

  /** The captions to be shown: those of the navigation whose lists show an item. */
  function ShownCaptions(reader: Reader, living: bool, at: Place, kids: seq<Node>): seq<Node>
    decreases kids
  {
    if kids == [] then []
    else
      ShownCaptionsOf(reader, living, at, kids[0], NextIsBare(reader, living, at, kids[1..]))
      + ShownCaptions(reader, living, at, kids[1..])
  }

  function ShownCaptionsOf(reader: Reader, living: bool, at: Place, e: Node, bare: bool): seq<Node>
    decreases e
  {
    if e.Text? || Skipped(reader, living, at, e) then []
    else if e.tag.Anchor? && Hidden(reader, e) then ShownCaptions(reader, living, at, e.kids)
    else if IsCaption(e) && bare then []
    else (if at.inTree && IsCaption(e) then [Bare(e)] else []) + ShownCaptions(reader, living, Within(at, e), e.kids)
  }

  lemma {:induction false} ShownAppend(reader: Reader, living: bool, at: Place, a: seq<Node>, b: seq<Node>)
    ensures HoldsShown(reader, living, at, a + b) <==> HoldsShown(reader, living, at, a) || HoldsShown(reader, living, at, b)
  {
    if a == [] {
      assert a + b == b;
    } else {
      assert (a + b)[1..] == a[1..] + b;
      ShownAppend(reader, living, at, a[1..], b);
    }
  }

  /** No pass hides an item but the dead ones it drops. */
  lemma {:induction false} EditKeepsShown(reader: Reader, pass: Pass, at: Place, kids: seq<Node>)
    requires Plain(kids) && (pass.OtherLinks? ==> NoneRelated(reader, at, kids))
    ensures HoldsShown(reader, false, at, Edit(reader, pass, at, kids)) == HoldsShown(reader, pass.NavEntries?, at, kids)
    decreases kids
  {
    if kids != [] {
      EditKeepsShown(reader, pass, at, kids[1..]);
      EditKeepsShownIn(reader, pass, at, kids[0]);
      ShownAppend(reader, false, at, EditOf(reader, pass, at, kids[0]), Edit(reader, pass, at, kids[1..]));
    }
  }

  lemma {:induction false} EditKeepsShownIn(reader: Reader, pass: Pass, at: Place, e: Node)
    requires e.Elem? ==> Plain(e.kids) && (e.tag.Anchor? ==> PlainLink(e))
    requires pass.OtherLinks? ==> NoneRelated(reader, at, [e])
    ensures HoldsShown(reader, false, at, EditOf(reader, pass, at, e)) == HoldsShownIn(reader, pass.NavEntries?, at, e)
    decreases e
  {
    if e.Elem? {
      EditKeepsShown(reader, pass, Within(at, e), e.kids);
      if e.tag.Anchor? {
        assert Within(at, e) == at;
      }
      OneShown(reader, at, e.(kids := Edit(reader, pass, Within(at, e), e.kids)));
    } else {
      OneShown(reader, at, e);
    }
  }

  lemma OneShown(reader: Reader, at: Place, e: Node)
    ensures HoldsShown(reader, false, at, [e]) == HoldsShownIn(reader, false, at, e)
  {
    assert [e][1..] == [];
  }

  lemma {:induction false} ShownCaptionsAppend(reader: Reader, living: bool, at: Place, a: seq<Node>, b: seq<Node>)
    requires Captioned(a)
    ensures ShownCaptions(reader, living, at, a + b) == ShownCaptions(reader, living, at, a) + ShownCaptions(reader, living, at, b)
  {
    if a == [] {
      assert a + b == b;
    } else {
      assert (a + b)[0] == a[0] && (a + b)[1..] == a[1..] + b;
      ShownCaptionsAppend(reader, living, at, a[1..], b);
      if IsCaption(a[0]) {
        NextIsBareAppend(reader, living, at, a[1..], b);
      }
    }
  }

  lemma {:induction false} NextIsBareAppend(reader: Reader, living: bool, at: Place, a: seq<Node>, b: seq<Node>)
    requires NextIsList(a)
    ensures NextIsBare(reader, living, at, a + b) == NextIsBare(reader, living, at, a)
  {
    assert (a + b)[0] == a[0] && (a + b)[1..] == a[1..] + b;
    if a[0].Text? {
      NextIsBareAppend(reader, living, at, a[1..], b);
    }
  }

  lemma EditOfAList(reader: Reader, pass: Pass, at: Place, e: Node)
    requires e.Elem? && e.tag.List?
    ensures EditOf(reader, pass, at, e) == [e.(kids := Edit(reader, pass, Within(at, e), e.kids))]
  {
  }

  /** The passes leave every list where it is, and show of it what they show. */
  lemma {:induction false} EditKeepsNext(reader: Reader, pass: Pass, at: Place, rest: seq<Node>)
    requires NextIsList(rest) && Plain(rest) && (pass.OtherLinks? ==> NoneRelated(reader, at, rest))
    ensures NextIsList(Edit(reader, pass, at, rest))
    ensures NextIsBare(reader, false, at, Edit(reader, pass, at, rest)) == NextIsBare(reader, pass.NavEntries?, at, rest)
  {
    var e, edited := rest[0], Edit(reader, pass, at, rest);
    if e.Text? {
      EditKeepsNext(reader, pass, at, rest[1..]);
      assert EditOf(reader, pass, at, e) == [e];
      assert edited == [e] + Edit(reader, pass, at, rest[1..]);
    } else {
      EditOfAList(reader, pass, at, e);
      EditKeepsShown(reader, pass, Within(at, e), e.kids);
      assert edited[0] == e.(kids := Edit(reader, pass, Within(at, e), e.kids));
    }
  }

  lemma {:induction false} EditKeepsCaptioned(reader: Reader, pass: Pass, at: Place, kids: seq<Node>)
    requires Captioned(kids) && Plain(kids) && (pass.OtherLinks? ==> NoneRelated(reader, at, kids))
    ensures Captioned(Edit(reader, pass, at, kids))
    decreases kids
  {
    if kids != [] {
      var e, rest := kids[0], kids[1..];
      var one, more := EditOf(reader, pass, at, e), Edit(reader, pass, at, rest);
      EditKeepsCaptioned(reader, pass, at, rest);
      if e.Elem? {
        EditKeepsCaptioned(reader, pass, Within(at, e), e.kids);
        if IsCaption(e) {
          EditKeepsNext(reader, pass, at, rest);
        } else {
          CaptionedAlone(e.(kids := Edit(reader, pass, Within(at, e), e.kids)));
          CaptionedAppend(one, more);
        }
      }
      if one == [] {
        assert one + more == more;
      } else {
        assert (one + more)[0] == one[0] && (one + more)[1..] == one[1..] + more;
        if |one| == 1 {
          assert one[1..] + more == more;
        }
      }
    }
  }

  lemma CaptionedAlone(e: Node)
    requires e.Elem? && !IsCaption(e) && Captioned(e.kids)
    ensures Captioned([e])
  {
    assert [e][1..] == [];
  }

  /** The passes leave every caption but what goes with the dead items. */
  lemma {:induction false} EditKeepsCaptions(reader: Reader, pass: Pass, at: Place, kids: seq<Node>)
    requires Captioned(kids) && Plain(kids) && (pass.OtherLinks? ==> NoneRelated(reader, at, kids))
    ensures ShownCaptions(reader, false, at, Edit(reader, pass, at, kids)) == ShownCaptions(reader, pass.NavEntries?, at, kids)
    decreases kids
  {
    if kids != [] {
      var e, rest := kids[0], kids[1..];
      var one, more := EditOf(reader, pass, at, e), Edit(reader, pass, at, rest);
      EditKeepsCaptions(reader, pass, at, rest);
      if e.Text? {
        assert (one + more)[1..] == more;
      } else {
        EditKeepsCaptions(reader, pass, Within(at, e), e.kids);
        EditKeepsCaptionsOf(reader, pass, at, e, rest);
      }
    }
  }

  lemma ShownCaptionsLed(reader: Reader, at: Place, e: Node, more: seq<Node>)
    ensures ShownCaptions(reader, false, at, [e] + more)
         == ShownCaptionsOf(reader, false, at, e, NextIsBare(reader, false, at, more)) + ShownCaptions(reader, false, at, more)
  {
    assert ([e] + more)[0] == e && ([e] + more)[1..] == more;
  }

  /** What stands in `e` shows the same captions, so `e` does. */
  lemma SameInsideSameCaptions(reader: Reader, living: bool, at: Place, e: Node, inner: seq<Node>, bare: bool)
    requires e.Elem? && (e.tag.Anchor? ==> PlainLink(e)) && (living ==> !IsDead(reader, at, e))
    requires ShownCaptions(reader, false, Within(at, e), inner) == ShownCaptions(reader, living, Within(at, e), e.kids)
    ensures ShownCaptionsOf(reader, false, at, e.(kids := inner), bare) == ShownCaptionsOf(reader, living, at, e, bare)
  {
    var one := e.(kids := inner);
    SameShell(reader, at, e, inner);
    if Skipped(reader, false, at, e) {
      assert ShownCaptionsOf(reader, false, at, one, bare) == [];
    } else if e.tag.Anchor? && Hidden(reader, e) {
      assert Within(at, e) == at;
      assert ShownCaptionsOf(reader, false, at, one, bare) == ShownCaptions(reader, false, at, inner);
    } else if IsCaption(e) && bare {
    } else {
      assert ShownCaptionsOf(reader, false, at, one, bare)
          == (if at.inTree && IsCaption(e) then [Bare(e)] else []) + ShownCaptions(reader, false, Within(at, e), inner);
    }
  }

  /** What an element is, apart from what stands in it. */
  lemma SameShell(reader: Reader, at: Place, e: Node, inner: seq<Node>)
    requires e.Elem?
    ensures
      var one := e.(kids := inner);
      && Hidden(reader, one) == Hidden(reader, e) && IsCaption(one) == IsCaption(e)
      && Within(at, one) == Within(at, e) && Bare(one) == Bare(e)
      && Skipped(reader, false, at, one) == Skipped(reader, false, at, e)
  {
  }

  lemma DroppedIsSkipped(reader: Reader, pass: Pass, at: Place, e: Node)
    requires e.Elem? && Choose(reader, pass, at, e) == Drop
    ensures Skipped(reader, pass.NavEntries?, at, e)
  {
  }

  lemma UnwrappedShowsInside(reader: Reader, pass: Pass, at: Place, e: Node, bare: bool)
    requires e.Elem? && (e.tag.Anchor? ==> PlainLink(e)) && Choose(reader, pass, at, e) == Unwrap
    requires NoneRelated(reader, at, [e])
    ensures Within(at, e) == at
    ensures ShownCaptionsOf(reader, false, at, e, bare) == ShownCaptions(reader, false, at, e.kids)
  {
  }

  /** An element that stays, with what is left inside it, shows what it showed. */
  lemma KeptShowsTheSame(reader: Reader, pass: Pass, at: Place, e: Node, inner: seq<Node>, rest: seq<Node>)
    requires e.Elem? && (e.tag.Anchor? ==> PlainLink(e)) && Choose(reader, pass, at, e) == Keep
    requires Plain(rest) && (IsCaption(e) ==> NextIsList(rest)) && (pass.OtherLinks? ==> NoneRelated(reader, at, rest))
    requires ShownCaptions(reader, false, Within(at, e), inner) == ShownCaptions(reader, pass.NavEntries?, Within(at, e), e.kids)
    ensures ShownCaptionsOf(reader, false, at, e.(kids := inner), NextIsBare(reader, false, at, Edit(reader, pass, at, rest)))
         == ShownCaptionsOf(reader, pass.NavEntries?, at, e, NextIsBare(reader, pass.NavEntries?, at, rest))
  {
    var bare, bare' := NextIsBare(reader, pass.NavEntries?, at, rest), NextIsBare(reader, false, at, Edit(reader, pass, at, rest));
    SameInsideSameCaptions(reader, pass.NavEntries?, at, e, inner, bare);
    if IsCaption(e) {
      EditKeepsNext(reader, pass, at, rest);
    } else {
      SameShell(reader, at, e, inner);
      OnlyCaptionsLookAhead(reader, at, e.(kids := inner), bare, bare');
    }
  }

  lemma EditKeepsCaptionsOf(reader: Reader, pass: Pass, at: Place, e: Node, rest: seq<Node>)
    requires e.Elem? && Plain(e.kids) && (e.tag.Anchor? ==> PlainLink(e)) && Captioned(e.kids) && Plain(rest)
    requires IsCaption(e) ==> NextIsList(rest)
    requires pass.OtherLinks? ==>
      NoneRelated(reader, at, rest) && NoneRelated(reader, at, [e]) && NoneRelated(reader, Within(at, e), e.kids)
    requires ShownCaptions(reader, false, Within(at, e), Edit(reader, pass, Within(at, e), e.kids))
          == ShownCaptions(reader, pass.NavEntries?, Within(at, e), e.kids)
    ensures ShownCaptions(reader, false, at, EditOf(reader, pass, at, e) + Edit(reader, pass, at, rest))
         == ShownCaptionsOf(reader, pass.NavEntries?, at, e, NextIsBare(reader, pass.NavEntries?, at, rest))
            + ShownCaptions(reader, false, at, Edit(reader, pass, at, rest))
  {
    var inner, more := Edit(reader, pass, Within(at, e), e.kids), Edit(reader, pass, at, rest);
    match Choose(reader, pass, at, e)
    case Keep =>
      ShownCaptionsLed(reader, at, e.(kids := inner), more);
      KeptShowsTheSame(reader, pass, at, e, inner, rest);
    case Drop =>
      DroppedIsSkipped(reader, pass, at, e);
      assert [] + more == more;
    case Unwrap =>
      UnwrappedShowsInside(reader, pass, at, e, NextIsBare(reader, pass.NavEntries?, at, rest));
      EditKeepsCaptioned(reader, pass, at, e.kids);
      ShownCaptionsAppend(reader, false, at, inner, more);
  }

  lemma OnlyCaptionsLookAhead(reader: Reader, at: Place, e: Node, one: bool, other: bool)
    requires !IsCaption(e)
    ensures ShownCaptionsOf(reader, false, at, e, one) == ShownCaptionsOf(reader, false, at, e, other)
  {
  }

  lemma {:induction false} CleanShowsItems(reader: Reader, at: Place, kids: seq<Node>)
    requires Clean(reader, kids)
    ensures HoldsShown(reader, false, at, kids) == HoldsItem(kids)
    decreases kids
  {
    if kids != [] {
      CleanShowsItems(reader, at, kids[1..]);
      if kids[0].Elem? {
        CleanShowsItems(reader, Within(at, kids[0]), kids[0].kids);
      }
    }
  }

  lemma {:induction false} CleanNext(reader: Reader, at: Place, rest: seq<Node>)
    requires Clean(reader, rest)
    ensures NextIsBare(reader, false, at, rest) == NextIsEmptied(at, rest)
  {
    if rest != [] {
      if rest[0].Text? {
        CleanNext(reader, at, rest[1..]);
      } else {
        CleanShowsItems(reader, Within(at, rest[0]), rest[0].kids);
      }
    }
  }

  /** Without a hidden link on the page, the captions to be shown are those whose lists hold an item. */
  lemma {:induction false} CleanCaptions(reader: Reader, at: Place, kids: seq<Node>)
    requires Clean(reader, kids)
    ensures ShownCaptions(reader, false, at, kids) == FullCaptions(at, kids)
    decreases kids
  {
    if kids != [] {
      CleanNext(reader, at, kids[1..]);
      CleanCaptions(reader, at, kids[1..]);
      if kids[0].Elem? {
        CleanCaptions(reader, Within(at, kids[0]), kids[0].kids);
      }
    }
  }

  lemma PassKeepsCaptions(reader: Reader, pass: Pass, page: seq<Node>)
    requires Captioned(page) && Plain(page) && ListsArePlain(page) && (pass.OtherLinks? ==> NoneRelated(reader, TOP, page))
    ensures
      var edited := Edit(reader, pass, TOP, page);
      && Captioned(edited) && Plain(edited) && ListsArePlain(edited)
      && (pass.RelatedLinks? ==> NoneRelated(reader, TOP, edited))
      && ShownCaptions(reader, false, TOP, edited) == ShownCaptions(reader, pass.NavEntries?, TOP, page)
  {
    EditKeepsCaptioned(reader, pass, TOP, page);
    EditKeepsPlain(reader, pass, TOP, page);
    EditKeepsListsPlain(reader, pass, TOP, page);
    EditKeepsCaptions(reader, pass, TOP, page);
    if pass.RelatedLinks? {
      RelatedAreGone(reader, TOP, page);
    }
  }

  lemma PassesKeepCaptions(reader: Reader, page: seq<Node>)
    requires Captioned(page) && Plain(page) && ListsArePlain(page)
    ensures
      var cleared := WithoutHiddenLinks(reader, page);
      && Captioned(cleared) && ListsArePlain(cleared)
      && ShownCaptions(reader, false, TOP, cleared) == ShownCaptions(reader, true, TOP, page)
  {
    var page1 := Edit(reader, NavEntries, TOP, page);
    var page2 := Edit(reader, SearchForms, TOP, page1);
    PassKeepsCaptions(reader, NavEntries, page);
    PassKeepsCaptions(reader, SearchForms, page1);
    PassKeepsCaptions(reader, RelatedLinks, page2);
    PassKeepsCaptions(reader, OtherLinks, Edit(reader, RelatedLinks, TOP, page2));
  }

  /** On every page that lost anything, what is served is what the reading from right to left leaves. */
  lemma ServedIsLeft(reader: Reader, page: seq<Node>)
    ensures TrimmedPage(reader, page) ==
      if Clean(reader, page) then page else Left(TOP, WithoutHiddenLinks(reader, page), 0)
  {
    UntouchedIffClean(reader, page);
    SweepIsLeft(TOP, Swept([], Nobodys), WithoutHiddenLinks(reader, page));
    TakenFromNothing(Owed(TOP, WithoutHiddenLinks(reader, page), 0));
  }

  /**
   On a page that lost anything, the captions served are those of the page as built whose lists show an item that
   is left, in order; and each still stands just before its list, which holds an item.
   */
  lemma CaptionsServed(reader: Reader, page: seq<Node>)
    requires Captioned(page) && Plain(page) && ListsArePlain(page)
    ensures
      var served := TrimmedPage(reader, page);
      served == page ||
      (Captions(TOP, served) == ShownCaptions(reader, true, TOP, page) && Captioned(served) && NoEmptyList(TOP, served))
  {
    ServedIsLeft(reader, page);
    NoEmptyListIsLeft(reader, page);
    PassesKeepCaptions(reader, page);
    var cleared := WithoutHiddenLinks(reader, page);
    ClearedIsClean(reader, page);
    CleanCaptions(reader, TOP, cleared);
    LeftKeepsFull(TOP, cleared);
    LeftKeepsCaptioned(TOP, cleared, 0);
  }

  // ------------------------------------------------- a caption left without its list

  function Sidebar(kids: seq<Node>): Node { Plainly(Other("div"), {SidebarTree}, kids) }

  function CaptionOf(title: string): Node { Plainly(Other("p"), {Caption}, [Text(title)]) }

  lemma EditTitle(reader: Reader, at: Place, title: string)
    ensures EditOf(reader, NavEntries, at, CaptionOf(title)) == [CaptionOf(title)]
  {
    var caption, text := CaptionOf(title), Text(title);
    EditPair(reader, NavEntries, Within(at, caption), text, text);
    assert Edit(reader, NavEntries, Within(at, caption), caption.kids) == [text];
    assert Choose(reader, NavEntries, at, caption) == Keep;
  }

  lemma EmptiedSidebar(reader: Reader, title: string, href: string)
    requires reader.hides(href)
    ensures Edit(reader, NavEntries, TOP, [Sidebar([CaptionOf(title), ListTo(href)])])
         == [Sidebar([CaptionOf(title), Plainly(List, {}, [])])]
  {
    var caption, empty := CaptionOf(title), Plainly(List, {}, []);
    var sidebar := Sidebar([caption, ListTo(href)]);
    var within := Within(TOP, sidebar);
    EditPair(reader, NavEntries, TOP, sidebar, sidebar);
    EditPair(reader, NavEntries, within, caption, ListTo(href));
    EditTitle(reader, within, title);
    ListToHiddenEmpties(reader, href, within);
    assert Edit(reader, NavEntries, within, sidebar.kids) == [caption, empty];
    assert Choose(reader, NavEntries, TOP, sidebar) == Keep;
  }

  lemma SweptSidebar(title: string)
    ensures Left(TOP, [Sidebar([CaptionOf(title), Plainly(List, {}, [])])], 0) == [Sidebar([])]
  {
    var caption, empty := CaptionOf(title), Plainly(List, {}, []);
    var sidebar := Sidebar([caption, empty]);
    var within := Within(TOP, sidebar);
    assert [caption, empty][1..] == [empty] && [empty][1..] == [] && [sidebar][1..] == [];
    assert Emptied(within, empty) && Owed(within, [], 0) == 0;
    assert Owed(within, [empty], 0) == 1 && Left(within, [empty], 0) == [];
    assert LeftOf(within, caption, 1) == [];
    assert Left(within, [caption, empty], 0) == LeftOf(within, caption, 1) + Left(within, [empty], 0);
    assert LeftOf(TOP, sidebar, 0) == [Sidebar([])];
  }

  lemma CleanAlone(reader: Reader, e: Node)
    requires e.Elem? ==> !Unwanted(reader, e) && Clean(reader, e.kids)
    ensures Clean(reader, [e])
  {
    assert [e][1..] == [];
  }

  /** A sidebar of one caption, over a list whose only entry leads to a hidden page, is served empty. */
  lemma CaptionGoesWithItsList(reader: Reader, title: string, href: string)
    requires reader.hides(href)
    ensures TrimmedPage(reader, [Sidebar([CaptionOf(title), ListTo(href)])]) == [Sidebar([])]
  {
    var caption, empty := CaptionOf(title), Plainly(List, {}, []);
    var page, emptied := [Sidebar([caption, ListTo(href)])], [Sidebar([caption, empty])];
    EmptiedSidebar(reader, title, href);
    CleanAlone(reader, caption.kids[0]);
    CleanAlone(reader, caption);
    CleanAlone(reader, empty);
    FreeAppend(reader, OtherLinks, [caption], [empty]);
    assert [caption] + [empty] == emptied[0].kids;
    CleanAlone(reader, emptied[0]);
    EditLeavesClean(reader, SearchForms, TOP, emptied);
    EditLeavesClean(reader, RelatedLinks, TOP, emptied);
    EditLeavesClean(reader, OtherLinks, TOP, emptied);
    assert WithoutHiddenLinks(reader, page) == emptied && emptied[0].kids != page[0].kids;
    UntouchedIffClean(reader, page);
    ServedIsLeft(reader, page);
    SweptSidebar(title);
  }
}
