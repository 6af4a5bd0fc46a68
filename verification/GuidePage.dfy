/** A page of the user guide without its navigation to the pages kept from its reader. */
module GuidePage {
  import opened Outcomes

  datatype Tag = Anchor | Item | List | Form | Link | Other(name: string)

  datatype Mark = SidebarTree | ToctreeWrapper | RelatedPages | Caption | OtherClass(name: string)

  datatype Rel = Next | Prev | Index | Search | OtherRel(name: string)

  /** The parsed page: text, and elements with the attributes the trimming looks at. */
  datatype Node =
    | Text(text: string)
    | Elem(tag: Tag, classes: set<Mark>, rels: set<Rel>, searchRole: bool, href: Option<string>, kids: seq<Node>)

  /** What is kept from the reader: the links that lead to hidden pages, and perhaps the search page. */
  datatype Reader = Reader(hides: string -> bool, hidesSearch: bool)

  predicate Hidden(reader: Reader, e: Node) {
    e.Elem? && e.href.Some? && reader.hides(e.href.value)
  }

  predicate IsWrapper(e: Node) { e.Elem? && ToctreeWrapper in e.classes }

  /** The sidebar, or a table of contents. */
  predicate IsTree(e: Node) { e.Elem? && (SidebarTree in e.classes || ToctreeWrapper in e.classes) }

  predicate IsSearchForm(e: Node) { e.Elem? && e.tag.Form? && e.searchRole }

  predicate IsHeadLink(e: Node) {
    e.Elem? && e.tag.Link? && (Next in e.rels || Prev in e.rels || Index in e.rels || Search in e.rels)
  }

  /** Which of the page's regions the ancestors of a node open. */
  datatype Place = Place(inTree: bool, inRelated: bool)

  function Within(at: Place, e: Node): Place
    requires e.Elem?
  {
    Place(at.inTree || IsTree(e), at.inRelated || RelatedPages in e.classes)
  }

  const TOP := Place(false, false)

  // ------------------------------------------------- the four passes of links

  /** One of `kids` is itself a link to a hidden page. */
  predicate HasHiddenLink(reader: Reader, kids: seq<Node>) {
    exists i :: 0 <= i < |kids| && kids[i].Elem? && kids[i].tag.Anchor? && Hidden(reader, kids[i])
  }

  /** Some entry among `kids` or below, a link directly in a list item, is not hidden. */
  predicate HoldsOpenEntry(reader: Reader, inItem: bool, kids: seq<Node>)
    decreases kids
  {
    kids != [] &&
    (|| (kids[0].Elem? && inItem && kids[0].tag.Anchor? && !Hidden(reader, kids[0]))
     || (kids[0].Elem? && HoldsOpenEntry(reader, kids[0].tag.Item?, kids[0].kids))
     || HoldsOpenEntry(reader, inItem, kids[1..]))
  }

  /** An entry of the navigation whose link is hidden, and with nothing open nested under it. */
  predicate IsDead(reader: Reader, at: Place, e: Node)
    requires e.Elem?
  {
    at.inTree && e.tag.Item? && HasHiddenLink(reader, e.kids) && !HoldsOpenEntry(reader, true, e.kids)
  }

  datatype Pass = NavEntries | SearchForms | RelatedLinks | OtherLinks

  datatype Choice = Keep | Drop | Unwrap

  /** What a pass does with the element `e` standing at `at`. */
  function Choose(reader: Reader, pass: Pass, at: Place, e: Node): Choice
    requires e.Elem?
  {
    match pass
    case NavEntries =>
      if IsDead(reader, at, e) then Drop else Keep
    case SearchForms =>
      if reader.hidesSearch && IsSearchForm(e) then Drop else Keep
    case RelatedLinks =>
      if Hidden(reader, e) && (IsHeadLink(e) || (at.inRelated && e.tag.Anchor?)) then Drop else Keep
    case OtherLinks =>
      if Hidden(reader, e) && e.tag.Anchor? then Unwrap else Keep
  }

  function Edit(reader: Reader, pass: Pass, at: Place, kids: seq<Node>): seq<Node>
    decreases kids
  {
    if kids == [] then [] else EditOf(reader, pass, at, kids[0]) + Edit(reader, pass, at, kids[1..])
  }

  function EditOf(reader: Reader, pass: Pass, at: Place, e: Node): seq<Node>
    decreases e
  {
    if e.Text? then [e]
    else
      var inner := Edit(reader, pass, Within(at, e), e.kids);
      match Choose(reader, pass, at, e)
      case Keep => [e.(kids := inner)]
      case Drop => []
      case Unwrap => inner
  }

  function WithoutHiddenLinks(reader: Reader, page: seq<Node>): seq<Node> {
    var page1 := Edit(reader, NavEntries, TOP, page);
    var page2 := Edit(reader, SearchForms, TOP, page1);
    var page3 := Edit(reader, RelatedLinks, TOP, page2);
    Edit(reader, OtherLinks, TOP, page3)
  }

  // ------------------------------------------------------ the lists left empty

  predicate HoldsItem(kids: seq<Node>)
    decreases kids
  {
    kids != [] && ((kids[0].Elem? && (kids[0].tag.Item? || HoldsItem(kids[0].kids))) || HoldsItem(kids[1..]))
  }

  predicate HoldsList(kids: seq<Node>)
    decreases kids
  {
    kids != [] && ((kids[0].Elem? && (kids[0].tag.List? || HoldsList(kids[0].kids))) || HoldsList(kids[1..]))
  }

  /** `done` without the caption that is its last element, if it ends in one. */
  function WithoutCaption(done: seq<Node>): seq<Node> {
    if done == [] then []
    else
      var n := |done| - 1;
      if done[n].Text? then WithoutCaption(done[..n]) + [done[n]]
      else if Caption in done[n].classes then done[..n]
      else done
  }

  /** Whose list went last: nobody's yet, one with this table of contents as its nearest, or a deeper one's. */
  datatype Last = Nobodys | Ours | Deeper

  datatype Swept = Swept(done: seq<Node>, last: Last)

  /** The nodes `rest` after those already swept, in document order. */
  function Sweep(at: Place, swept: Swept, rest: seq<Node>): Swept
    decreases rest
  {
    if rest == [] then swept else Sweep(at, SweepOf(at, swept, rest[0]), rest[1..])
  }

  /**
   One node more: a navigation list that has lost its items goes, its caption too, and so does a table
   of contents once the list just removed was its last.
   */
  function SweepOf(at: Place, swept: Swept, e: Node): Swept
    decreases e
  {
    if e.Text? then swept.(done := swept.done + [e])
    else if at.inTree && e.tag.List? && !HoldsItem(e.kids) then Swept(WithoutCaption(swept.done), Ours)
    else if !IsWrapper(e) then
      var inner := Sweep(Within(at, e), Swept([], swept.last), e.kids);
      Swept(swept.done + [e.(kids := inner.done)], inner.last)
    else
      var inner := Sweep(Within(at, e), Swept([], Nobodys), e.kids);
      var last := if inner.last.Nobodys? then swept.last else Deeper;
      if inner.last.Ours? && !HoldsList(inner.done) then Swept(swept.done, last)
      else Swept(swept.done + [e.(kids := inner.done)], last)
  }

  /** The page as served: as built when no link or form went, else without the lists that left empty. */
  function TrimmedPage(reader: Reader, page: seq<Node>): seq<Node> {
    var cleared := WithoutHiddenLinks(reader, page);
    if cleared == page then page else Sweep(TOP, Swept([], Nobodys), cleared).done
  }

  // ------------------------------------------------------ nothing hidden is left

  function Bare(e: Node): Node
    requires e.Elem?
  {
    e.(kids := [])
  }

  /** What must not be on the page: a hidden link, one in its head, or the search box of a hidden search page. */
  predicate Unwanted(reader: Reader, e: Node) {
    || (Hidden(reader, e) && (e.tag.Anchor? || IsHeadLink(e)))
    || (reader.hidesSearch && IsSearchForm(e))
  }

  /** The part of `Unwanted` the passes up to and including `pass` take out. */
  predicate UnwantedAfter(reader: Reader, pass: Pass, e: Node) {
    match pass
    case NavEntries => false
    case SearchForms => reader.hidesSearch && IsSearchForm(e)
    case RelatedLinks => (reader.hidesSearch && IsSearchForm(e)) || (Hidden(reader, e) && IsHeadLink(e))
    case OtherLinks => Unwanted(reader, e)
  }

  function Before(pass: Pass): Pass {
    match pass
    case NavEntries => NavEntries
    case SearchForms => NavEntries
    case RelatedLinks => SearchForms
    case OtherLinks => RelatedLinks
  }

  predicate FreeAfter(reader: Reader, pass: Pass, kids: seq<Node>)
    decreases kids
  {
    kids == [] ||
    (&& (kids[0].Elem? ==> !UnwantedAfter(reader, pass, kids[0]) && FreeAfter(reader, pass, kids[0].kids))
     && FreeAfter(reader, pass, kids[1..]))
  }

  /** No unwanted element anywhere on the page. */
  predicate Clean(reader: Reader, page: seq<Node>) { FreeAfter(reader, OtherLinks, page) }

  lemma {:induction false} FreeAppend(reader: Reader, pass: Pass, xs: seq<Node>, ys: seq<Node>)
    ensures FreeAfter(reader, pass, xs + ys) <==> FreeAfter(reader, pass, xs) && FreeAfter(reader, pass, ys)
  {
    if xs == [] {
      assert xs + ys == ys;
    } else {
      assert (xs + ys)[1..] == xs[1..] + ys;
      FreeAppend(reader, pass, xs[1..], ys);
    }
  }

  lemma {:induction false} EditFrees(reader: Reader, pass: Pass, at: Place, kids: seq<Node>)
    requires FreeAfter(reader, Before(pass), kids)
    ensures FreeAfter(reader, pass, Edit(reader, pass, at, kids))
    decreases kids
  {
    if kids != [] {
      EditFrees(reader, pass, at, kids[1..]);
      if kids[0].Elem? {
        EditFrees(reader, pass, Within(at, kids[0]), kids[0].kids);
      }
      FreeAppend(reader, pass, EditOf(reader, pass, at, kids[0]), Edit(reader, pass, at, kids[1..]));
    }
  }

  lemma {:induction false} NothingBefore(reader: Reader, kids: seq<Node>)
    ensures FreeAfter(reader, NavEntries, kids)
    decreases kids
  {
    if kids != [] {
      NothingBefore(reader, kids[1..]);
      if kids[0].Elem? {
        NothingBefore(reader, kids[0].kids);
      }
    }
  }

  lemma {:induction false} WithoutCaptionFree(reader: Reader, done: seq<Node>)
    requires Clean(reader, done)
    ensures Clean(reader, WithoutCaption(done))
  {
    if done != [] {
      var n := |done| - 1;
      assert done == done[..n] + [done[n]];
      FreeAppend(reader, OtherLinks, done[..n], [done[n]]);
      if done[n].Text? {
        WithoutCaptionFree(reader, done[..n]);
        FreeAppend(reader, OtherLinks, WithoutCaption(done[..n]), [done[n]]);
      }
    }
  }

  lemma {:induction false} SweepKeepsFree(reader: Reader, at: Place, swept: Swept, rest: seq<Node>)
    requires Clean(reader, swept.done) && Clean(reader, rest)
    ensures Clean(reader, Sweep(at, swept, rest).done)
    decreases rest
  {
    if rest != [] {
      SweepOfKeepsFree(reader, at, swept, rest[0]);
      SweepKeepsFree(reader, at, SweepOf(at, swept, rest[0]), rest[1..]);
    }
  }

  lemma {:induction false} SweepOfKeepsFree(reader: Reader, at: Place, swept: Swept, e: Node)
    requires Clean(reader, swept.done) && (e.Elem? ==> !Unwanted(reader, e) && Clean(reader, e.kids))
    ensures Clean(reader, SweepOf(at, swept, e).done)
    decreases e
  {
    if e.Text? {
      FreeAppend(reader, OtherLinks, swept.done, [e]);
    } else if at.inTree && e.tag.List? && !HoldsItem(e.kids) {
      WithoutCaptionFree(reader, swept.done);
    } else {
      var start := Swept([], if IsWrapper(e) then Nobodys else swept.last);
      SweepKeepsFree(reader, Within(at, e), start, e.kids);
      FreeAppend(reader, OtherLinks, swept.done, [e.(kids := Sweep(Within(at, e), start, e.kids).done)]);
    }
  }

  lemma ClearedIsClean(reader: Reader, page: seq<Node>)
    ensures Clean(reader, WithoutHiddenLinks(reader, page))
  {
    var page1 := Edit(reader, NavEntries, TOP, page);
    var page2 := Edit(reader, SearchForms, TOP, page1);
    var page3 := Edit(reader, RelatedLinks, TOP, page2);
    NothingBefore(reader, page1);
    EditFrees(reader, SearchForms, TOP, page1);
    EditFrees(reader, RelatedLinks, TOP, page2);
    EditFrees(reader, OtherLinks, TOP, page3);
  }

  /** On the page as served no link leads to a hidden page, and no search box to a hidden search page. */
  lemma NothingHiddenIsLeft(reader: Reader, page: seq<Node>)
    ensures Clean(reader, TrimmedPage(reader, page))
  {
    ClearedIsClean(reader, page);
    SweepKeepsFree(reader, TOP, Swept([], Nobodys), WithoutHiddenLinks(reader, page));
  }

  lemma {:induction false} FreeAt(reader: Reader, kids: seq<Node>, i: nat)
    requires Clean(reader, kids) && i < |kids|
    ensures kids[i].Elem? ==> !Unwanted(reader, kids[i])
  {
    if i > 0 {
      FreeAt(reader, kids[1..], i - 1);
    }
  }

  lemma FreeHasNoHiddenLink(reader: Reader, kids: seq<Node>)
    requires Clean(reader, kids)
    ensures !HasHiddenLink(reader, kids)
  {
    forall i | 0 <= i < |kids| ensures kids[i].Elem? ==> !Unwanted(reader, kids[i]) {
      FreeAt(reader, kids, i);
    }
  }

  lemma {:induction false} EditLeavesClean(reader: Reader, pass: Pass, at: Place, kids: seq<Node>)
    requires Clean(reader, kids)
    ensures Edit(reader, pass, at, kids) == kids
    decreases kids
  {
    if kids != [] {
      EditLeavesClean(reader, pass, at, kids[1..]);
      assert [kids[0]] + kids[1..] == kids;
      if kids[0].Elem? {
        EditLeavesClean(reader, pass, Within(at, kids[0]), kids[0].kids);
        FreeHasNoHiddenLink(reader, kids[0].kids);
      }
    }
  }

  /** A page keeps everything exactly when it holds no hidden link and no search box to a hidden search page. */
  lemma UntouchedIffClean(reader: Reader, page: seq<Node>)
    ensures WithoutHiddenLinks(reader, page) == page <==> Clean(reader, page)
    ensures Clean(reader, page) ==> TrimmedPage(reader, page) == page
  {
    ClearedIsClean(reader, page);
    if Clean(reader, page) {
      EditLeavesClean(reader, NavEntries, TOP, page);
      EditLeavesClean(reader, SearchForms, TOP, page);
      EditLeavesClean(reader, RelatedLinks, TOP, page);
      EditLeavesClean(reader, OtherLinks, TOP, page);
    }
  }

  lemma TrimmedPageTwice(reader: Reader, page: seq<Node>)
    ensures TrimmedPage(reader, TrimmedPage(reader, page)) == TrimmedPage(reader, page)
  {
    NothingHiddenIsLeft(reader, page);
    UntouchedIffClean(reader, TrimmedPage(reader, page));
  }

  // ------------------------------------------------- what stays on the page

  /** No element of `kids` is itself a link. */
  predicate NoLinks(kids: seq<Node>) {
    forall i :: 0 <= i < |kids| ==> kids[i].Elem? ==> !kids[i].tag.Anchor?
  }

  /** An anchor as HTML has them: no link directly inside it, and not itself one of the page's regions. */
  predicate PlainLink(e: Node)
    requires e.Elem?
  {
    NoLinks(e.kids) && !IsTree(e) && RelatedPages !in e.classes && Caption !in e.classes
  }

  predicate Plain(kids: seq<Node>)
    decreases kids
  {
    kids == [] ||
    (&& (kids[0].Elem? ==> Plain(kids[0].kids) && (kids[0].tag.Anchor? ==> PlainLink(kids[0])))
     && Plain(kids[1..]))
  }

  /** An item or a link of the navigation, and the elements it stands in, outermost first. */
  datatype Entry = Entry(ancestors: seq<Node>, element: Node)

  /** Which entries to list: with the items or the links alone, and with the dead items or without. */
  datatype View = View(items: bool, living: bool)

  /**
   The navigation among `kids`, in document order: the items of its lists, unless a table of contents
   is made of one, and the links directly in items.  Captions, head links and the search box are no part of it; a hidden link is passed through.
   */
  function Entries(reader: Reader, view: View, at: Place, up: seq<Node>, inList: bool, inItem: bool, kids: seq<Node>): seq<Entry>
    decreases kids
  {
    if kids == [] then []
    else
      EntriesOf(reader, view, at, up, inList, inItem, kids[0])
      + Entries(reader, view, at, up, inList, inItem, kids[1..])
  }

  function EntriesOf(reader: Reader, view: View, at: Place, up: seq<Node>, inList: bool, inItem: bool, e: Node): seq<Entry>
    decreases e
  {
    if e.Text? || Caption in e.classes || e.tag.Link? || (reader.hidesSearch && IsSearchForm(e)) then []
    else if view.living && IsDead(reader, at, e) then []
    else if e.tag.Anchor? && Hidden(reader, e) then
      if at.inRelated then [] else Entries(reader, view, at, up, inList, false, e.kids)
    else
      Listed(view, at, up, inList, inItem, e)
      + Entries(reader, view, Within(at, e), up + [Bare(e)], ListWithin(inList, e), at.inTree && e.tag.Item?, e.kids)
  }

  function Listed(view: View, at: Place, up: seq<Node>, inList: bool, inItem: bool, e: Node): seq<Entry>
    requires e.Elem?
  {
    if inList && (if e.tag.Item? then view.items && at.inTree && !IsWrapper(e) else e.tag.Anchor? && inItem) then [Entry(up, Bare(e))]
    else []
  }

  /** Inside `e`, a list holds the rest: itself, or one that is inside the nearest table of contents. */
  predicate ListWithin(inList: bool, e: Node)
    requires e.Elem?
  {
    !IsWrapper(e) && (inList || e.tag.List?)
  }

  function Navigation(reader: Reader, view: View, page: seq<Node>): seq<Entry> {
    Entries(reader, view, TOP, [], false, false, page)
  }

  const ALL := View(true, false)

  const LIVING := View(true, true)

  const LINKS := View(false, false)

  lemma {:induction false} EntriesAppend(
      reader: Reader, view: View, at: Place, up: seq<Node>, inList: bool, inItem: bool, xs: seq<Node>, ys: seq<Node>)
    ensures Entries(reader, view, at, up, inList, inItem, xs + ys)
         == Entries(reader, view, at, up, inList, inItem, xs) + Entries(reader, view, at, up, inList, inItem, ys)
  {
    if xs == [] {
      assert xs + ys == ys;
    } else {
      assert (xs + ys)[1..] == xs[1..] + ys;
      EntriesAppend(reader, view, at, up, inList, inItem, xs[1..], ys);
    }
  }

  /** Whether `kids` stand in an item only matters to the links among them. */
  lemma {:induction false} ItemOnlyMattersToLinks(reader: Reader, view: View, at: Place, up: seq<Node>, inList: bool, kids: seq<Node>)
    requires NoLinks(kids)
    ensures Entries(reader, view, at, up, inList, false, kids) == Entries(reader, view, at, up, inList, true, kids)
  {
    if kids != [] {
      ItemOnlyMattersToLinks(reader, view, at, up, inList, kids[1..]);
    }
  }

  lemma {:induction false} ClosedHoldsNoEntries(
      reader: Reader, view: View, at: Place, up: seq<Node>, inList: bool, inItem: bool, strict: bool, kids: seq<Node>)
    requires !view.items && !HoldsOpenEntry(reader, strict, kids) && (inItem ==> strict)
    ensures Entries(reader, view, at, up, inList, inItem, kids) == []
    decreases kids
  {
    if kids != [] {
      var e := kids[0];
      ClosedHoldsNoEntries(reader, view, at, up, inList, inItem, strict, kids[1..]);
      if e.Elem? {
        ClosedHoldsNoEntries(reader, view, at, up, inList, false, e.tag.Item?, e.kids);
        ClosedHoldsNoEntries(reader, view, Within(at, e), up + [Bare(e)], !IsWrapper(e) && (inList || e.tag.List?),
                             at.inTree && e.tag.Item?, e.tag.Item?, e.kids);
      }
    }
  }

  lemma {:induction false} NoItemNoEntries(
      reader: Reader, view: View, at: Place, up: seq<Node>, inList: bool, kids: seq<Node>)
    requires !HoldsItem(kids)
    ensures Entries(reader, view, at, up, inList, false, kids) == []
    decreases kids
  {
    if kids != [] {
      var e := kids[0];
      NoItemNoEntries(reader, view, at, up, inList, kids[1..]);
      if e.Elem? {
        NoItemNoEntries(reader, view, at, up, inList, e.kids);
        NoItemNoEntries(reader, view, Within(at, e), up + [Bare(e)], !IsWrapper(e) && (inList || e.tag.List?), e.kids);
      }
    }
  }

  lemma {:induction false} NoListNoEntries(
      reader: Reader, view: View, at: Place, up: seq<Node>, inItem: bool, kids: seq<Node>)
    requires !HoldsList(kids)
    ensures Entries(reader, view, at, up, false, inItem, kids) == []
    decreases kids
  {
    if kids != [] {
      var e := kids[0];
      NoListNoEntries(reader, view, at, up, inItem, kids[1..]);
      if e.Elem? {
        NoListNoEntries(reader, view, at, up, false, e.kids);
        NoListNoEntries(reader, view, Within(at, e), up + [Bare(e)], at.inTree && e.tag.Item?, e.kids);
      }
    }
  }

  lemma {:induction false} EditKeepsNoLinks(reader: Reader, pass: Pass, at: Place, kids: seq<Node>)
    requires NoLinks(kids)
    ensures NoLinks(Edit(reader, pass, at, kids))
  {
    if kids != [] {
      assert forall i :: 0 <= i < |kids[1..]| ==> kids[1..][i] == kids[i + 1];
      EditKeepsNoLinks(reader, pass, at, kids[1..]);
    }
  }

  lemma {:induction false} PlainAppend(xs: seq<Node>, ys: seq<Node>)
    ensures Plain(xs + ys) <==> Plain(xs) && Plain(ys)
  {
    if xs == [] {
      assert xs + ys == ys;
    } else {
      assert (xs + ys)[1..] == xs[1..] + ys;
      PlainAppend(xs[1..], ys);
    }
  }

  lemma {:induction false} EditKeepsPlain(reader: Reader, pass: Pass, at: Place, kids: seq<Node>)
    requires Plain(kids)
    ensures Plain(Edit(reader, pass, at, kids))
    decreases kids
  {
    if kids != [] {
      EditKeepsPlain(reader, pass, at, kids[1..]);
      if kids[0].Elem? {
        EditKeepsPlain(reader, pass, Within(at, kids[0]), kids[0].kids);
        if kids[0].tag.Anchor? {
          EditKeepsNoLinks(reader, pass, Within(at, kids[0]), kids[0].kids);
        }
      }
      PlainAppend(EditOf(reader, pass, at, kids[0]), Edit(reader, pass, at, kids[1..]));
    }
  }

  /** What stands in `e` differs by no entry, so neither does `e`, unless it is a dead item left out. */
  lemma SameInsideSameEntries(
      reader: Reader, view: View, living: bool, at: Place, up: seq<Node>, inList: bool, inItem: bool, e: Node,
      inner: seq<Node>)
    requires e.Elem? && !view.living && (living ==> !IsDead(reader, at, e))
    requires var view' := view.(living := living);
      if e.tag.Anchor? && Hidden(reader, e) then
        Entries(reader, view, at, up, inList, false, inner) == Entries(reader, view', at, up, inList, false, e.kids)
      else
        var item := at.inTree && e.tag.Item?;
        Entries(reader, view, Within(at, e), up + [Bare(e)], ListWithin(inList, e), item, inner)
        == Entries(reader, view', Within(at, e), up + [Bare(e)], ListWithin(inList, e), item, e.kids)
    ensures EntriesOf(reader, view, at, up, inList, inItem, e.(kids := inner))
         == EntriesOf(reader, view.(living := living), at, up, inList, inItem, e)
  {
  }

  /** No hidden link is left among the next and previous links at the page's foot. */
  predicate NoneRelated(reader: Reader, at: Place, kids: seq<Node>)
    decreases kids
  {
    kids == [] ||
    (&& (kids[0].Elem? ==>
           && !(at.inRelated && kids[0].tag.Anchor? && Hidden(reader, kids[0]))
           && NoneRelated(reader, Within(at, kids[0]), kids[0].kids))
     && NoneRelated(reader, at, kids[1..]))
  }

  lemma {:induction false} RelatedAreGone(reader: Reader, at: Place, kids: seq<Node>)
    ensures NoneRelated(reader, at, Edit(reader, RelatedLinks, at, kids))
    decreases kids
  {
    if kids != [] {
      RelatedAreGone(reader, at, kids[1..]);
      if kids[0].Elem? {
        RelatedAreGone(reader, Within(at, kids[0]), kids[0].kids);
      }
      var one, rest := EditOf(reader, RelatedLinks, at, kids[0]), Edit(reader, RelatedLinks, at, kids[1..]);
      if one == [] {
        assert one + rest == rest;
      } else {
        assert one + rest == [one[0]] + rest && (one + rest)[1..] == rest;
      }
    }
  }

  /** No pass loses an open entry, or moves one. */
  lemma {:induction false} EditKeepsEntries(
      reader: Reader, view: View, pass: Pass, at: Place, up: seq<Node>, inList: bool, inItem: bool, kids: seq<Node>)
    requires Plain(kids) && !view.living && (pass.OtherLinks? ==> NoneRelated(reader, at, kids))
    ensures Entries(reader, view, at, up, inList, inItem, Edit(reader, pass, at, kids))
         == Entries(reader, view.(living := pass.NavEntries?), at, up, inList, inItem, kids)
    decreases kids
  {
    if kids != [] {
      EditKeepsEntries(reader, view, pass, at, up, inList, inItem, kids[1..]);
      EditKeepsEntriesOf(reader, view, pass, at, up, inList, inItem, kids[0]);
      EntriesAppend(reader, view, at, up, inList, inItem, EditOf(reader, pass, at, kids[0]), Edit(reader, pass, at, kids[1..]));
    }
  }

  lemma {:induction false} EditKeepsEntriesOf(
      reader: Reader, view: View, pass: Pass, at: Place, up: seq<Node>, inList: bool, inItem: bool, e: Node)
    requires e.Elem? ==> Plain(e.kids) && (e.tag.Anchor? ==> PlainLink(e))
    requires !view.living && (pass.OtherLinks? ==> NoneRelated(reader, at, [e]))
    ensures Entries(reader, view, at, up, inList, inItem, EditOf(reader, pass, at, e))
         == EntriesOf(reader, view.(living := pass.NavEntries?), at, up, inList, inItem, e)
    decreases e
  {
    if e.Elem? {
      var inner := Edit(reader, pass, Within(at, e), e.kids);
      var item := at.inTree && e.tag.Item?;
      EditKeepsEntries(reader, view, pass, Within(at, e), up + [Bare(e)], ListWithin(inList, e), item, e.kids);
      if e.tag.Anchor? {
        EditKeepsEntries(reader, view, pass, at, up, inList, false, e.kids);
      }
      match Choose(reader, pass, at, e)
      case Keep =>
        SameInsideSameEntries(reader, view, pass.NavEntries?, at, up, inList, inItem, e, inner);
      case Drop =>
      case Unwrap =>
        EditKeepsNoLinks(reader, pass, Within(at, e), e.kids);
        ItemOnlyMattersToLinks(reader, view, at, up, inList, inner);
    }
  }

  lemma {:induction false} WithoutCaptionKeepsEntries(
      reader: Reader, view: View, at: Place, up: seq<Node>, inList: bool, inItem: bool, done: seq<Node>)
    ensures Entries(reader, view, at, up, inList, inItem, WithoutCaption(done)) == Entries(reader, view, at, up, inList, inItem, done)
  {
    if done != [] {
      var n := |done| - 1;
      assert done == done[..n] + [done[n]];
      EntriesAppend(reader, view, at, up, inList, inItem, done[..n], [done[n]]);
      if done[n].Text? {
        WithoutCaptionKeepsEntries(reader, view, at, up, inList, inItem, done[..n]);
        EntriesAppend(reader, view, at, up, inList, inItem, WithoutCaption(done[..n]), [done[n]]);
      }
    }
  }

  /** Removing the lists left empty loses no open entry, and moves none. */
  lemma {:induction false} SweepKeepsEntries(
      reader: Reader, view: View, at: Place, up: seq<Node>, inList: bool, inItem: bool, swept: Swept, rest: seq<Node>)
    requires Plain(rest) && Clean(reader, rest) && !view.living
    ensures Entries(reader, view, at, up, inList, inItem, Sweep(at, swept, rest).done)
         == Entries(reader, view, at, up, inList, inItem, swept.done) + Entries(reader, view, at, up, inList, inItem, rest)
    decreases rest
  {
    if rest != [] {
      SweepOfKeepsEntries(reader, view, at, up, inList, inItem, swept, rest[0]);
      SweepKeepsEntries(reader, view, at, up, inList, inItem, SweepOf(at, swept, rest[0]), rest[1..]);
    }
  }

  lemma {:induction false} SweepOfKeepsEntries(
      reader: Reader, view: View, at: Place, up: seq<Node>, inList: bool, inItem: bool, swept: Swept, e: Node)
    requires e.Elem? ==> Plain(e.kids) && (e.tag.Anchor? ==> PlainLink(e))
    requires !view.living && (e.Elem? ==> !Unwanted(reader, e) && Clean(reader, e.kids))
    ensures Entries(reader, view, at, up, inList, inItem, SweepOf(at, swept, e).done)
         == Entries(reader, view, at, up, inList, inItem, swept.done) + EntriesOf(reader, view, at, up, inList, inItem, e)
    decreases e, 1
  {
    if e.Text? {
      EntriesAppend(reader, view, at, up, inList, inItem, swept.done, [e]);
    } else if at.inTree && e.tag.List? && !HoldsItem(e.kids) {
      WithoutCaptionKeepsEntries(reader, view, at, up, inList, inItem, swept.done);
      NoItemNoEntries(reader, view, Within(at, e), up + [Bare(e)], ListWithin(inList, e), e.kids);
    } else {
      var start := Swept([], if IsWrapper(e) then Nobodys else swept.last);
      var inner := Sweep(Within(at, e), start, e.kids).done;
      SweepKeepsEntriesIn(reader, view, at, up, inList, inItem, start.last, e);
      EntriesAppend(reader, view, at, up, inList, inItem, swept.done, [e.(kids := inner)]);
    }
  }

  lemma {:induction false} SweepKeepsEntriesIn(
      reader: Reader, view: View, at: Place, up: seq<Node>, inList: bool, inItem: bool, last: Last, e: Node)
    requires e.Elem? && Plain(e.kids) && (e.tag.Anchor? ==> PlainLink(e))
    requires !view.living && !Unwanted(reader, e) && Clean(reader, e.kids)
    ensures
      var inner := Sweep(Within(at, e), Swept([], last), e.kids).done;
      && EntriesOf(reader, view, at, up, inList, inItem, e.(kids := inner)) == EntriesOf(reader, view, at, up, inList, inItem, e)
      && (IsWrapper(e) && !HoldsList(inner) ==> EntriesOf(reader, view, at, up, inList, inItem, e) == [])
    decreases e, 0
  {
    var start := Swept([], last);
    var inner := Sweep(Within(at, e), start, e.kids).done;
    var item := at.inTree && e.tag.Item?;
    SweepKeepsEntries(reader, view, Within(at, e), up + [Bare(e)], ListWithin(inList, e), item, start, e.kids);
    SameInsideSameEntries(reader, view, false, at, up, inList, inItem, e, inner);
    if IsWrapper(e) && !HoldsList(inner) {
      NoListNoEntries(reader, view, Within(at, e), up + [Bare(e)], item, inner);
    }
  }

  lemma PassKeepsNavigation(reader: Reader, view: View, pass: Pass, page: seq<Node>)
    requires Plain(page) && !view.living && (pass.OtherLinks? ==> NoneRelated(reader, TOP, page))
    ensures Plain(Edit(reader, pass, TOP, page))
    ensures pass.RelatedLinks? ==> NoneRelated(reader, TOP, Edit(reader, pass, TOP, page))
    ensures Navigation(reader, view, Edit(reader, pass, TOP, page))
         == Navigation(reader, view.(living := pass.NavEntries?), page)
  {
    EditKeepsPlain(reader, pass, TOP, page);
    EditKeepsEntries(reader, view, pass, TOP, [], false, false, page);
    if pass.RelatedLinks? {
      RelatedAreGone(reader, TOP, page);
    }
  }

  lemma PassesKeepNavigation(reader: Reader, view: View, page: seq<Node>)
    requires Plain(page) && !view.living
    ensures Plain(WithoutHiddenLinks(reader, page))
    ensures Navigation(reader, view, WithoutHiddenLinks(reader, page))
         == Navigation(reader, view.(living := true), page)
  {
    var page1 := Edit(reader, NavEntries, TOP, page);
    var page2 := Edit(reader, SearchForms, TOP, page1);
    PassKeepsNavigation(reader, view, NavEntries, page);
    PassKeepsNavigation(reader, view, SearchForms, page1);
    PassKeepsNavigation(reader, view, RelatedLinks, page2);
    PassKeepsNavigation(reader, view, OtherLinks, Edit(reader, RelatedLinks, TOP, page2));
  }

  /** The navigation served, links and items alike, is what was built without its dead items and hidden links. */
  lemma NavigationIsTheLivingPart(reader: Reader, view: View, page: seq<Node>)
    requires Plain(page) && !view.living
    ensures Navigation(reader, view, TrimmedPage(reader, page)) == Navigation(reader, view.(living := true), page)
  {
    var cleared := WithoutHiddenLinks(reader, page);
    PassesKeepNavigation(reader, view, page);
    ClearedIsClean(reader, page);
    SweepKeepsEntries(reader, view, TOP, [], false, false, Swept([], Nobodys), cleared);
  }

  lemma {:induction false} DeadItemsHoldNoLinks(
      reader: Reader, at: Place, up: seq<Node>, inList: bool, inItem: bool, kids: seq<Node>)
    ensures Entries(reader, View(false, true), at, up, inList, inItem, kids)
         == Entries(reader, LINKS, at, up, inList, inItem, kids)
    decreases kids
  {
    if kids != [] {
      var e := kids[0];
      DeadItemsHoldNoLinks(reader, at, up, inList, inItem, kids[1..]);
      if e.Elem? {
        var item := at.inTree && e.tag.Item?;
        DeadItemsHoldNoLinks(reader, at, up, inList, false, e.kids);
        DeadItemsHoldNoLinks(reader, Within(at, e), up + [Bare(e)], ListWithin(inList, e), item, e.kids);
        if IsDead(reader, at, e) {
          ClosedHoldsNoEntries(reader, LINKS, Within(at, e), up + [Bare(e)], ListWithin(inList, e), true, true, e.kids);
        }
      }
    }
  }

  /**
   Every open entry of the navigation is still there after trimming, in document order, and inside the
   very elements it was in.
   */
  lemma OpenEntriesSurvive(reader: Reader, page: seq<Node>)
    requires Plain(page)
    ensures Navigation(reader, LINKS, TrimmedPage(reader, page)) == Navigation(reader, LINKS, page)
  {
    NavigationIsTheLivingPart(reader, LINKS, page);
    DeadItemsHoldNoLinks(reader, TOP, [], false, false, page);
  }

  /** The items served are those built, but for the dead ones and what is nested under them. */
  lemma LivingItemsSurvive(reader: Reader, page: seq<Node>)
    requires Plain(page)
    ensures Navigation(reader, ALL, TrimmedPage(reader, page)) == Navigation(reader, LIVING, page)
  {
    NavigationIsTheLivingPart(reader, ALL, page);
  }

  // ------------------------------------------------ no title of a hidden page

  /** The links standing directly in list items, among `kids` and below, that are not hidden. */
  function OpenLinks(reader: Reader, inItem: bool, kids: seq<Node>): seq<Node>
    decreases kids
  {
    if kids == [] then []
    else
      (if kids[0].Text? then []
       else
         (if inItem && kids[0].tag.Anchor? && !Hidden(reader, kids[0]) then [kids[0]] else [])
         + OpenLinks(reader, kids[0].tag.Item?, kids[0].kids))
      + OpenLinks(reader, inItem, kids[1..])
  }

  lemma {:induction false} HoldsOpenEntryIff(reader: Reader, inItem: bool, kids: seq<Node>)
    ensures HoldsOpenEntry(reader, inItem, kids) <==> OpenLinks(reader, inItem, kids) != []
    decreases kids
  {
    if kids != [] {
      HoldsOpenEntryIff(reader, inItem, kids[1..]);
      if kids[0].Elem? {
        HoldsOpenEntryIff(reader, kids[0].tag.Item?, kids[0].kids);
      }
    }
  }

  /** The link of `e`, if it has one directly, is hidden. */
  predicate NamesHidden(reader: Reader, e: Node)
    requires e.Elem?
  {
    exists link :: link in e.kids && link.Elem? && link.tag.Anchor? && Hidden(reader, link)
  }

  /** Every entry of the navigation with a hidden link holds an open one. */
  predicate NoDeadEntry(reader: Reader, at: Place, kids: seq<Node>)
    decreases kids
  {
    kids == [] ||
    (&& (kids[0].Elem? ==>
           && (at.inTree && kids[0].tag.Item? && NamesHidden(reader, kids[0]) ==> OpenLinks(reader, true, kids[0].kids) != [])
           && NoDeadEntry(reader, Within(at, kids[0]), kids[0].kids))
     && NoDeadEntry(reader, at, kids[1..]))
  }

  lemma {:induction false} OpenEntryAppend(reader: Reader, inItem: bool, xs: seq<Node>, ys: seq<Node>)
    ensures HoldsOpenEntry(reader, inItem, xs + ys) <==>
            HoldsOpenEntry(reader, inItem, xs) || HoldsOpenEntry(reader, inItem, ys)
  {
    if xs == [] {
      assert xs + ys == ys;
    } else {
      assert (xs + ys)[1..] == xs[1..] + ys;
      OpenEntryAppend(reader, inItem, xs[1..], ys);
    }
  }

  lemma OneOpen(reader: Reader, inItem: bool, e: Node)
    ensures HoldsOpenEntry(reader, inItem, [e]) <==>
      e.Elem? && ((inItem && e.tag.Anchor? && !Hidden(reader, e)) || HoldsOpenEntry(reader, e.tag.Item?, e.kids))
  {
    assert [e][1..] == [];
  }

  /** Dropping the dead entries drops no open one. */
  lemma {:induction false} DroppingKeepsOpen(reader: Reader, at: Place, inItem: bool, kids: seq<Node>)
    ensures HoldsOpenEntry(reader, inItem, Edit(reader, NavEntries, at, kids)) <==> HoldsOpenEntry(reader, inItem, kids)
    decreases kids
  {
    if kids != [] {
      var e := kids[0];
      DroppingKeepsOpen(reader, at, inItem, kids[1..]);
      if e.Elem? {
        DroppingKeepsOpen(reader, Within(at, e), e.tag.Item?, e.kids);
        OneOpen(reader, inItem, e.(kids := Edit(reader, NavEntries, Within(at, e), e.kids)));
      } else {
        OneOpen(reader, inItem, e);
      }
      OpenEntryAppend(reader, inItem, EditOf(reader, NavEntries, at, e), Edit(reader, NavEntries, at, kids[1..]));
      if e.Elem? && IsDead(reader, at, e) {
        ClosedStaysClosed(reader, inItem, e);
      }
    }
  }

  lemma ClosedStaysClosed(reader: Reader, inItem: bool, e: Node)
    requires e.Elem? && e.tag.Item? && !HoldsOpenEntry(reader, true, e.kids)
    ensures !HoldsOpenEntry(reader, inItem, [e])
  {
    OneOpen(reader, inItem, e);
  }

  lemma {:induction false} HiddenLinkWasThere(reader: Reader, at: Place, kids: seq<Node>)
    ensures HasHiddenLink(reader, Edit(reader, NavEntries, at, kids)) ==> HasHiddenLink(reader, kids)
  {
    var edited := Edit(reader, NavEntries, at, kids);
    if HasHiddenLink(reader, edited) {
      var i :| 0 <= i < |edited| && edited[i].Elem? && edited[i].tag.Anchor? && Hidden(reader, edited[i]);
      var one, rest := EditOf(reader, NavEntries, at, kids[0]), Edit(reader, NavEntries, at, kids[1..]);
      if i < |one| {
        assert kids[0].Elem? && kids[0].tag.Anchor? && Hidden(reader, kids[0]);
      } else {
        assert rest[i - |one|] == edited[i];
        HiddenLinkWasThere(reader, at, kids[1..]);
        var j :| 0 <= j < |kids| - 1 && kids[1..][j].Elem? && kids[1..][j].tag.Anchor? && Hidden(reader, kids[1..][j]);
        assert kids[j + 1] == kids[1..][j];
      }
    }
  }

  lemma {:induction false} NoDeadEntryAppend(reader: Reader, at: Place, xs: seq<Node>, ys: seq<Node>)
    ensures NoDeadEntry(reader, at, xs + ys) <==> NoDeadEntry(reader, at, xs) && NoDeadEntry(reader, at, ys)
  {
    if xs == [] {
      assert xs + ys == ys;
    } else {
      assert (xs + ys)[1..] == xs[1..] + ys;
      NoDeadEntryAppend(reader, at, xs[1..], ys);
    }
  }

  /** An entry that is not dropped is not dead once what is nested under it is trimmed. */
  lemma KeptEntryIsNotDead(reader: Reader, at: Place, e: Node, inner: seq<Node>)
    requires e.Elem? && !IsDead(reader, at, e) && inner == Edit(reader, NavEntries, Within(at, e), e.kids)
    requires NoDeadEntry(reader, Within(at, e), inner)
    ensures NoDeadEntry(reader, at, [e.(kids := inner)])
  {
    var left := e.(kids := inner);
    HiddenLinkWasThere(reader, Within(at, e), e.kids);
    DroppingKeepsOpen(reader, Within(at, e), true, e.kids);
    HoldsOpenEntryIff(reader, true, inner);
    assert NamesHidden(reader, left) ==> HasHiddenLink(reader, inner);
    assert [left][1..] == [];
  }

  /**
   Once the entries are trimmed, the title of a hidden page is in the navigation only where an entry nested under
   it is open.
   */
  lemma {:induction false} NoDeadEntryIsLeft(reader: Reader, at: Place, kids: seq<Node>)
    ensures NoDeadEntry(reader, at, Edit(reader, NavEntries, at, kids))
    decreases kids
  {
    if kids != [] {
      var e := kids[0];
      NoDeadEntryIsLeft(reader, at, kids[1..]);
      if e.Elem? {
        NoDeadEntryIsLeft(reader, Within(at, e), e.kids);
        if !IsDead(reader, at, e) {
          KeptEntryIsNotDead(reader, at, e, Edit(reader, NavEntries, Within(at, e), e.kids));
        }
      }
      NoDeadEntryAppend(reader, at, EditOf(reader, NavEntries, at, e), Edit(reader, NavEntries, at, kids[1..]));
    }
  }

  // ------------------------------------------ nothing else on the page changes

  datatype Token = Said(text: string) | Opened(element: Node) | Closed

  /**
   The page outside its navigation, read from top to bottom: its text and its elements.  A hidden link
   counts for what it holds, or for nothing in the page's head and among the links at its foot.
   */
  function Outside(reader: Reader, at: Place, kids: seq<Node>): seq<Token>
    decreases kids
  {
    if kids == [] then [] else OutsideOf(reader, at, kids[0]) + Outside(reader, at, kids[1..])
  }

  function OutsideOf(reader: Reader, at: Place, e: Node): seq<Token>
    decreases e
  {
    if e.Text? then [Said(e.text)]
    else if IsTree(e) || (reader.hidesSearch && IsSearchForm(e)) || (Hidden(reader, e) && IsHeadLink(e)) then []
    else if e.tag.Anchor? && Hidden(reader, e) then if at.inRelated then [] else Outside(reader, at, e.kids)
    else [Opened(Bare(e))] + Outside(reader, Within(at, e), e.kids) + [Closed]
  }

  lemma {:induction false} OutsideAppend(reader: Reader, at: Place, xs: seq<Node>, ys: seq<Node>)
    ensures Outside(reader, at, xs + ys) == Outside(reader, at, xs) + Outside(reader, at, ys)
  {
    if xs == [] {
      assert xs + ys == ys;
    } else {
      assert (xs + ys)[1..] == xs[1..] + ys;
      OutsideAppend(reader, at, xs[1..], ys);
    }
  }

  /** What stands in `e` reads the same, or is navigation, so `e` reads the same. */
  lemma SameInsideSameOutside(reader: Reader, at: Place, e: Node, inner: seq<Node>)
    requires e.Elem? && (e.tag.Anchor? ==> PlainLink(e))
    requires !IsTree(e) ==> Outside(reader, Within(at, e), inner) == Outside(reader, Within(at, e), e.kids)
    ensures OutsideOf(reader, at, e.(kids := inner)) == OutsideOf(reader, at, e)
  {
  }

  lemma {:induction false} EditKeepsOutside(reader: Reader, pass: Pass, at: Place, kids: seq<Node>)
    requires Plain(kids) && !at.inTree && (pass.OtherLinks? ==> NoneRelated(reader, at, kids))
    ensures Outside(reader, at, Edit(reader, pass, at, kids)) == Outside(reader, at, kids)
    decreases kids
  {
    if kids != [] {
      EditKeepsOutside(reader, pass, at, kids[1..]);
      EditKeepsOutsideOf(reader, pass, at, kids[0]);
      OutsideAppend(reader, at, EditOf(reader, pass, at, kids[0]), Edit(reader, pass, at, kids[1..]));
    }
  }

  lemma {:induction false} EditKeepsOutsideOf(reader: Reader, pass: Pass, at: Place, e: Node)
    requires e.Elem? ==> Plain(e.kids) && (e.tag.Anchor? ==> PlainLink(e))
    requires !at.inTree && (pass.OtherLinks? ==> NoneRelated(reader, at, [e]))
    ensures Outside(reader, at, EditOf(reader, pass, at, e)) == OutsideOf(reader, at, e)
    decreases e
  {
    if e.Elem? {
      if !IsTree(e) {
        EditKeepsOutside(reader, pass, Within(at, e), e.kids);
      }
      SameInsideSameOutside(reader, at, e, Edit(reader, pass, Within(at, e), e.kids));
    }
  }

  lemma {:induction false} SweepKeepsOutside(reader: Reader, at: Place, swept: Swept, rest: seq<Node>)
    requires !at.inTree && Plain(rest)
    ensures Outside(reader, at, Sweep(at, swept, rest).done)
         == Outside(reader, at, swept.done) + Outside(reader, at, rest)
    decreases rest
  {
    if rest != [] {
      SweepOfKeepsOutside(reader, at, swept, rest[0]);
      SweepKeepsOutside(reader, at, SweepOf(at, swept, rest[0]), rest[1..]);
    }
  }

  lemma {:induction false} SweepOfKeepsOutside(reader: Reader, at: Place, swept: Swept, e: Node)
    requires !at.inTree && (e.Elem? ==> Plain(e.kids) && (e.tag.Anchor? ==> PlainLink(e)))
    ensures Outside(reader, at, SweepOf(at, swept, e).done) == Outside(reader, at, swept.done) + OutsideOf(reader, at, e)
    decreases e
  {
    if e.Text? {
      OutsideAppend(reader, at, swept.done, [e]);
    } else {
      var start := Swept([], if IsWrapper(e) then Nobodys else swept.last);
      if !IsTree(e) {
        SweepKeepsOutside(reader, Within(at, e), start, e.kids);
      }
      var inner := Sweep(Within(at, e), start, e.kids).done;
      SameInsideSameOutside(reader, at, e, inner);
      OutsideAppend(reader, at, swept.done, [e.(kids := inner)]);
    }
  }

  /** Outside its navigation the page keeps all its text and elements, but for the hidden links themselves. */
  lemma OutsideIsUnchanged(reader: Reader, page: seq<Node>)
    requires Plain(page)
    ensures Outside(reader, TOP, TrimmedPage(reader, page)) == Outside(reader, TOP, page)
  {
    var page1 := Edit(reader, NavEntries, TOP, page);
    var page2 := Edit(reader, SearchForms, TOP, page1);
    var page3 := Edit(reader, RelatedLinks, TOP, page2);
    var page4 := Edit(reader, OtherLinks, TOP, page3);
    EditKeepsPlain(reader, NavEntries, TOP, page);
    EditKeepsPlain(reader, SearchForms, TOP, page1);
    EditKeepsPlain(reader, RelatedLinks, TOP, page2);
    EditKeepsPlain(reader, OtherLinks, TOP, page3);
    RelatedAreGone(reader, TOP, page2);
    EditKeepsOutside(reader, NavEntries, TOP, page);
    EditKeepsOutside(reader, SearchForms, TOP, page1);
    EditKeepsOutside(reader, RelatedLinks, TOP, page2);
    EditKeepsOutside(reader, OtherLinks, TOP, page3);
    SweepKeepsOutside(reader, TOP, Swept([], Nobodys), page4);
  }

  // ------------------------------------------------- no empty list is left

  /** No caption and no table of contents anywhere among `kids`. */
  predicate NoRegions(kids: seq<Node>)
    decreases kids
  {
    kids == [] ||
    (&& (kids[0].Elem? ==> !IsWrapper(kids[0]) && Caption !in kids[0].classes && NoRegions(kids[0].kids))
     && NoRegions(kids[1..]))
  }

  /** Lists as Sphinx builds them: captions and tables of contents stand around them, never inside. */
  predicate ListsArePlain(kids: seq<Node>)
    decreases kids
  {
    kids == [] ||
    (&& (kids[0].Elem? ==> ListsArePlain(kids[0].kids) && (kids[0].tag.List? ==> NoRegions(kids[0].kids)))
     && ListsArePlain(kids[1..]))
  }

  /** Every list of the navigation holds an item. */
  predicate NoEmptyList(at: Place, kids: seq<Node>)
    decreases kids
  {
    kids == [] ||
    (&& (kids[0].Elem? ==>
           NoEmptyList(Within(at, kids[0]), kids[0].kids) && (at.inTree && kids[0].tag.List? ==> HoldsItem(kids[0].kids)))
     && NoEmptyList(at, kids[1..]))
  }

  lemma {:induction false} ListFactsAppend(at: Place, xs: seq<Node>, ys: seq<Node>)
    ensures NoRegions(xs + ys) <==> NoRegions(xs) && NoRegions(ys)
    ensures ListsArePlain(xs + ys) <==> ListsArePlain(xs) && ListsArePlain(ys)
    ensures NoEmptyList(at, xs + ys) <==> NoEmptyList(at, xs) && NoEmptyList(at, ys)
    ensures HoldsItem(xs + ys) <==> HoldsItem(xs) || HoldsItem(ys)
  {
    if xs == [] {
      assert xs + ys == ys;
    } else {
      assert (xs + ys)[1..] == xs[1..] + ys;
      ListFactsAppend(at, xs[1..], ys);
    }
  }

  lemma {:induction false} EditKeepsListsPlain(reader: Reader, pass: Pass, at: Place, kids: seq<Node>)
    ensures NoRegions(kids) ==> NoRegions(Edit(reader, pass, at, kids))
    ensures ListsArePlain(kids) ==> ListsArePlain(Edit(reader, pass, at, kids))
    decreases kids
  {
    if kids != [] {
      EditKeepsListsPlain(reader, pass, at, kids[1..]);
      if kids[0].Elem? {
        EditKeepsListsPlain(reader, pass, Within(at, kids[0]), kids[0].kids);
      }
      ListFactsAppend(at, EditOf(reader, pass, at, kids[0]), Edit(reader, pass, at, kids[1..]));
    }
  }

  lemma {:induction false} WithoutCaptionListFacts(at: Place, done: seq<Node>)
    ensures NoRegions(done) ==> WithoutCaption(done) == done
    ensures NoEmptyList(at, done) ==> NoEmptyList(at, WithoutCaption(done))
  {
    if done != [] {
      var n := |done| - 1;
      assert done == done[..n] + [done[n]];
      ListFactsAppend(at, done[..n], [done[n]]);
      if done[n].Text? {
        WithoutCaptionListFacts(at, done[..n]);
        ListFactsAppend(at, WithoutCaption(done[..n]), [done[n]]);
      }
    }
  }

  /** Inside a list only lists without an item go, so no item goes. */
  lemma {:induction false} SweepKeepsItems(at: Place, swept: Swept, rest: seq<Node>)
    requires NoRegions(swept.done) && NoRegions(rest)
    ensures NoRegions(Sweep(at, swept, rest).done)
    ensures HoldsItem(Sweep(at, swept, rest).done) <==> HoldsItem(swept.done) || HoldsItem(rest)
    decreases rest
  {
    if rest != [] {
      var e := rest[0];
      if e.Text? {
        ListFactsAppend(at, swept.done, [e]);
      } else if at.inTree && e.tag.List? && !HoldsItem(e.kids) {
        WithoutCaptionListFacts(at, swept.done);
      } else {
        var start := Swept([], swept.last);
        SweepKeepsItems(Within(at, e), start, e.kids);
        ListFactsAppend(at, swept.done, [e.(kids := Sweep(Within(at, e), start, e.kids).done)]);
      }
      SweepKeepsItems(at, SweepOf(at, swept, e), rest[1..]);
    }
  }

  lemma {:induction false} SweepLeavesNoEmptyList(at: Place, swept: Swept, rest: seq<Node>)
    requires NoEmptyList(at, swept.done) && ListsArePlain(rest)
    ensures NoEmptyList(at, Sweep(at, swept, rest).done)
    decreases rest
  {
    if rest != [] {
      SweepOfLeavesNoEmptyList(at, swept, rest[0]);
      SweepLeavesNoEmptyList(at, SweepOf(at, swept, rest[0]), rest[1..]);
    }
  }

  lemma {:induction false} SweepOfLeavesNoEmptyList(at: Place, swept: Swept, e: Node)
    requires NoEmptyList(at, swept.done)
    requires e.Elem? ==> ListsArePlain(e.kids) && (e.tag.List? ==> NoRegions(e.kids))
    ensures NoEmptyList(at, SweepOf(at, swept, e).done)
    decreases e
  {
    if e.Text? {
      ListFactsAppend(at, swept.done, [e]);
    } else if at.inTree && e.tag.List? && !HoldsItem(e.kids) {
      WithoutCaptionListFacts(at, swept.done);
    } else {
      var start := Swept([], if IsWrapper(e) then Nobodys else swept.last);
      SweepLeavesNoEmptyList(Within(at, e), start, e.kids);
      if e.tag.List? {
        SweepKeepsItems(Within(at, e), start, e.kids);
      }
      ListFactsAppend(at, swept.done, [e.(kids := Sweep(Within(at, e), start, e.kids).done)]);
    }
  }

  /** On a page that lost anything, every list left in the navigation holds an item. */
  lemma NoEmptyListIsLeft(reader: Reader, page: seq<Node>)
    requires ListsArePlain(page)
    ensures TrimmedPage(reader, page) == page || NoEmptyList(TOP, TrimmedPage(reader, page))
  {
    var page1 := Edit(reader, NavEntries, TOP, page);
    var page2 := Edit(reader, SearchForms, TOP, page1);
    var page3 := Edit(reader, RelatedLinks, TOP, page2);
    EditKeepsListsPlain(reader, NavEntries, TOP, page);
    EditKeepsListsPlain(reader, SearchForms, TOP, page1);
    EditKeepsListsPlain(reader, RelatedLinks, TOP, page2);
    EditKeepsListsPlain(reader, OtherLinks, TOP, page3);
    SweepLeavesNoEmptyList(TOP, Swept([], Nobodys), WithoutHiddenLinks(reader, page));
  }

  // --------------------------------------------- which tables of contents go

  /**
   The lists the sweep of `kids` removes, in document order: of each, whether it stood in a table of
   contents among them.
   */
  function Removals(at: Place, kids: seq<Node>): seq<bool>
    decreases kids
  {
    if kids == [] then [] else RemovalsOf(at, kids[0]) + Removals(at, kids[1..])
  }

  function RemovalsOf(at: Place, e: Node): seq<bool>
    decreases e
  {
    if e.Text? then []
    else if at.inTree && e.tag.List? && !HoldsItem(e.kids) then [false]
    else
      var inside := Removals(Within(at, e), e.kids);
      if IsWrapper(e) then seq(|inside|, i => true) else inside
  }

  /** Whose list went last, when those in `removals` went after `before`. */
  function LastOf(removals: seq<bool>, before: Last): Last {
    if removals == [] then before else if removals[|removals| - 1] then Deeper else Ours
  }

  lemma {:induction false} SweepLast(at: Place, swept: Swept, rest: seq<Node>)
    ensures Sweep(at, swept, rest).last == LastOf(Removals(at, rest), swept.last)
    decreases rest
  {
    if rest != [] {
      SweepOfLast(at, swept, rest[0]);
      SweepLast(at, SweepOf(at, swept, rest[0]), rest[1..]);
    }
  }

  lemma {:induction false} SweepOfLast(at: Place, swept: Swept, e: Node)
    ensures SweepOf(at, swept, e).last == LastOf(RemovalsOf(at, e), swept.last)
    decreases e
  {
    if e.Elem? {
      SweepLast(Within(at, e), Swept([], if IsWrapper(e) then Nobodys else swept.last), e.kids);
    }
  }

  /** What is left of what `e` holds. */
  function LeftIn(at: Place, e: Node): seq<Node>
    requires e.Elem?
  {
    Sweep(Within(at, e), Swept([], Nobodys), e.kids).done
  }

  /**
   A table of contents that loses a list and is left without one stays exactly when the last list it lost
   stood in another nested in it.
   */
  lemma TocStaysIff(at: Place, swept: Swept, e: Node)
    requires IsWrapper(e) && !(at.inTree && e.tag.List? && !HoldsItem(e.kids))
    requires Removals(Within(at, e), e.kids) != [] && !HoldsList(LeftIn(at, e))
    ensures
      var removals := Removals(Within(at, e), e.kids);
      SweepOf(at, swept, e).done ==
        swept.done + if removals[|removals| - 1] then [e.(kids := LeftIn(at, e))] else []
  {
    SweepLast(Within(at, e), Swept([], Nobodys), e.kids);
  }

  /** One that loses no list, or is left with one, stays. */
  lemma TocStays(at: Place, swept: Swept, e: Node)
    requires IsWrapper(e) && !(at.inTree && e.tag.List? && !HoldsItem(e.kids))
    requires Removals(Within(at, e), e.kids) == [] || HoldsList(LeftIn(at, e))
    ensures SweepOf(at, swept, e).done == swept.done + [e.(kids := LeftIn(at, e))]
  {
    SweepLast(Within(at, e), Swept([], Nobodys), e.kids);
  }

  // -------------------------------------------------- where none is nested

  predicate NoTocs(kids: seq<Node>)
    decreases kids
  {
    kids == [] || ((kids[0].Elem? ==> !IsWrapper(kids[0]) && NoTocs(kids[0].kids)) && NoTocs(kids[1..]))
  }

  /** No table of contents stands in another. */
  predicate NoneNested(kids: seq<Node>)
    decreases kids
  {
    kids == [] ||
    (&& (kids[0].Elem? ==> NoneNested(kids[0].kids) && (IsWrapper(kids[0]) ==> NoTocs(kids[0].kids)))
     && NoneNested(kids[1..]))
  }

  /** The tables of contents that hold no list. */
  function Listless(kids: seq<Node>): set<Node>
    decreases kids
  {
    if kids == [] then {} else ListlessIn(kids[0]) + Listless(kids[1..])
  }

  function ListlessIn(e: Node): set<Node>
    decreases e
  {
    if e.Text? then {} else (if IsWrapper(e) && !HoldsList(e.kids) then {e} else {}) + Listless(e.kids)
  }

  lemma {:induction false} TocFactsAppend(xs: seq<Node>, ys: seq<Node>)
    ensures NoTocs(xs + ys) <==> NoTocs(xs) && NoTocs(ys)
    ensures NoneNested(xs + ys) <==> NoneNested(xs) && NoneNested(ys)
    ensures Listless(xs + ys) == Listless(xs) + Listless(ys)
  {
    if xs == [] {
      assert xs + ys == ys;
    } else {
      assert (xs + ys)[1..] == xs[1..] + ys;
      TocFactsAppend(xs[1..], ys);
    }
  }

  lemma {:induction false} EditKeepsNoneNested(reader: Reader, pass: Pass, at: Place, kids: seq<Node>)
    ensures NoTocs(kids) ==> NoTocs(Edit(reader, pass, at, kids))
    ensures NoneNested(kids) ==> NoneNested(Edit(reader, pass, at, kids))
    decreases kids
  {
    if kids != [] {
      EditKeepsNoneNested(reader, pass, at, kids[1..]);
      if kids[0].Elem? {
        EditKeepsNoneNested(reader, pass, Within(at, kids[0]), kids[0].kids);
      }
      TocFactsAppend(EditOf(reader, pass, at, kids[0]), Edit(reader, pass, at, kids[1..]));
    }
  }

  lemma {:induction false} WithoutCaptionTocs(done: seq<Node>)
    ensures Listless(WithoutCaption(done)) <= Listless(done)
    ensures NoTocs(done) ==> NoTocs(WithoutCaption(done))
  {
    if done != [] {
      var n := |done| - 1;
      assert done == done[..n] + [done[n]];
      TocFactsAppend(done[..n], [done[n]]);
      if done[n].Text? {
        WithoutCaptionTocs(done[..n]);
        TocFactsAppend(WithoutCaption(done[..n]), [done[n]]);
      }
    }
  }

  lemma {:induction false} NoTocsNoListless(kids: seq<Node>)
    requires NoTocs(kids)
    ensures Listless(kids) == {}
    decreases kids
  {
    if kids != [] {
      NoTocsNoListless(kids[1..]);
      if kids[0].Elem? {
        NoTocsNoListless(kids[0].kids);
      }
    }
  }

  /** Without tables of contents among them, the lists removed stood in none. */
  lemma {:induction false} NoTocsNoneDeeper(at: Place, kids: seq<Node>)
    requires NoTocs(kids)
    ensures NoneDeeper(Removals(at, kids))
    decreases kids
  {
    if kids != [] {
      NoTocsNoneDeeper(at, kids[1..]);
      if kids[0].Elem? {
        NoTocsNoneDeeper(Within(at, kids[0]), kids[0].kids);
      }
      assert NoneDeeper(RemovalsOf(at, kids[0]) + Removals(at, kids[1..]));
    }
  }

  predicate NoneDeeper(removals: seq<bool>) {
    forall i :: 0 <= i < |removals| ==> !removals[i]
  }

  lemma {:induction false} SweepKeepsNoTocs(at: Place, swept: Swept, rest: seq<Node>)
    requires NoTocs(swept.done) && NoTocs(rest)
    ensures NoTocs(Sweep(at, swept, rest).done)
    decreases rest
  {
    if rest != [] {
      var e := rest[0];
      if e.Text? {
        TocFactsAppend(swept.done, [e]);
      } else if at.inTree && e.tag.List? && !HoldsItem(e.kids) {
        WithoutCaptionTocs(swept.done);
      } else {
        var start := Swept([], swept.last);
        SweepKeepsNoTocs(Within(at, e), start, e.kids);
        TocFactsAppend(swept.done, [e.(kids := Sweep(Within(at, e), start, e.kids).done)]);
      }
      SweepKeepsNoTocs(at, SweepOf(at, swept, e), rest[1..]);
    }
  }

  /** Where no list is removed nothing is. */
  lemma {:induction false} NothingRemoved(at: Place, swept: Swept, rest: seq<Node>)
    requires Removals(at, rest) == []
    ensures Sweep(at, swept, rest) == Swept(swept.done + rest, swept.last)
    decreases rest
  {
    if rest == [] {
      assert swept.done + rest == swept.done;
    } else {
      var next := Swept(swept.done + [rest[0]], swept.last);
      NothingRemovedOf(at, swept, rest[0]);
      NothingRemoved(at, next, rest[1..]);
      assert swept.done + [rest[0]] + rest[1..] == swept.done + rest;
    }
  }

  lemma {:induction false} NothingRemovedOf(at: Place, swept: Swept, e: Node)
    requires RemovalsOf(at, e) == []
    ensures SweepOf(at, swept, e) == Swept(swept.done + [e], swept.last)
    decreases e
  {
    if e.Elem? {
      var start := Swept([], if IsWrapper(e) then Nobodys else swept.last);
      assert Removals(Within(at, e), e.kids) == [] by {
        assert |RemovalsOf(at, e)| == |Removals(Within(at, e), e.kids)|;
      }
      NothingRemoved(Within(at, e), start, e.kids);
      assert [] + e.kids == e.kids;
    }
  }

  /** A table of contents with none nested in it: what is left of it is as it was, or holds a list, or it goes. */
  lemma TocKeepsAListOrGoes(at: Place, swept: Swept, e: Node)
    requires IsWrapper(e) && NoTocs(e.kids) && !(at.inTree && e.tag.List? && !HoldsItem(e.kids))
    ensures Listless(SweepOf(at, swept, e).done) <= Listless(swept.done) + ListlessIn(e)
  {
    SweepKeepsNoTocs(Within(at, e), Swept([], Nobodys), e.kids);
    NoTocsNoListless(LeftIn(at, e));
    TocFactsAppend(swept.done, [e.(kids := LeftIn(at, e))]);
    if Removals(Within(at, e), e.kids) == [] {
      NothingRemoved(Within(at, e), Swept([], Nobodys), e.kids);
      assert [] + e.kids == e.kids;
      TocStays(at, swept, e);
    } else if HoldsList(LeftIn(at, e)) {
      TocStays(at, swept, e);
    } else {
      NoTocsNoneDeeper(Within(at, e), e.kids);
      TocStaysIff(at, swept, e);
    }
  }

  lemma {:induction false} SweepLeavesListsIn(at: Place, swept: Swept, rest: seq<Node>)
    requires NoneNested(rest)
    ensures Listless(Sweep(at, swept, rest).done) <= Listless(swept.done) + Listless(rest)
    decreases rest
  {
    if rest != [] {
      SweepOfLeavesListsIn(at, swept, rest[0]);
      SweepLeavesListsIn(at, SweepOf(at, swept, rest[0]), rest[1..]);
    }
  }

  lemma {:induction false} SweepOfLeavesListsIn(at: Place, swept: Swept, e: Node)
    requires e.Elem? ==> NoneNested(e.kids) && (IsWrapper(e) ==> NoTocs(e.kids))
    ensures Listless(SweepOf(at, swept, e).done) <= Listless(swept.done) + ListlessIn(e)
    decreases e
  {
    if e.Text? {
      TocFactsAppend(swept.done, [e]);
    } else if at.inTree && e.tag.List? && !HoldsItem(e.kids) {
      WithoutCaptionTocs(swept.done);
    } else if IsWrapper(e) {
      TocKeepsAListOrGoes(at, swept, e);
    } else {
      var start := Swept([], swept.last);
      SweepLeavesListsIn(Within(at, e), start, e.kids);
      TocFactsAppend(swept.done, [e.(kids := Sweep(Within(at, e), start, e.kids).done)]);
    }
  }

  /**
   On a page where none is nested in another, every table of contents served without a list had none when
   the lists left empty were looked for: one that held a list then still holds one, or is gone.
   */
  lemma TocsKeepAListOrGo(reader: Reader, page: seq<Node>)
    requires NoneNested(page)
    ensures Listless(TrimmedPage(reader, page)) <= Listless(WithoutHiddenLinks(reader, page))
  {
    var page1 := Edit(reader, NavEntries, TOP, page);
    var page2 := Edit(reader, SearchForms, TOP, page1);
    var page3 := Edit(reader, RelatedLinks, TOP, page2);
    EditKeepsNoneNested(reader, NavEntries, TOP, page);
    EditKeepsNoneNested(reader, SearchForms, TOP, page1);
    EditKeepsNoneNested(reader, RelatedLinks, TOP, page2);
    EditKeepsNoneNested(reader, OtherLinks, TOP, page3);
    SweepLeavesListsIn(TOP, Swept([], Nobodys), WithoutHiddenLinks(reader, page));
  }

  // ------------------------------------------------------- one that stays empty

  /** An element with no attributes but its classes. */
  function Plainly(tag: Tag, classes: set<Mark>, kids: seq<Node>): Node {
    Elem(tag, classes, {}, false, None, kids)
  }

  /** A list whose one item leads to `href`. */
  function ListTo(href: string): Node {
    Plainly(List, {}, [Plainly(Item, {}, [Elem(Anchor, {}, {}, false, Some(href), [])])])
  }

  function Toc(kids: seq<Node>): Node { Plainly(Other("div"), {ToctreeWrapper}, kids) }

  lemma ListToHiddenEmpties(reader: Reader, href: string, at: Place)
    requires reader.hides(href) && at.inTree
    ensures EditOf(reader, NavEntries, at, ListTo(href)) == [Plainly(List, {}, [])]
  {
    var anchor := Elem(Anchor, {}, {}, false, Some(href), []);
    var item := Plainly(Item, {}, [anchor]);
    var within := Within(at, ListTo(href));
    assert ListTo(href) == Plainly(List, {}, [item]);
    assert [anchor][1..] == [] && [item][1..] == [];
    assert Hidden(reader, [anchor][0]) && HasHiddenLink(reader, [anchor]);
    assert !HoldsOpenEntry(reader, true, [anchor]);
    assert IsDead(reader, within, item);
    assert EditOf(reader, NavEntries, within, item) == [];
    assert Edit(reader, NavEntries, within, [item]) == [];
    assert Choose(reader, NavEntries, at, ListTo(href)) == Keep;
  }

  lemma EditPair(reader: Reader, pass: Pass, at: Place, a: Node, b: Node)
    ensures Edit(reader, pass, at, [a]) == EditOf(reader, pass, at, a)
    ensures Edit(reader, pass, at, [a, b]) == EditOf(reader, pass, at, a) + EditOf(reader, pass, at, b)
  {
    assert [a][1..] == [] && [a, b][1..] == [b] && [b][1..] == [];
  }

  lemma EmptiedTocs(reader: Reader, href: string)
    requires reader.hides(href)
    ensures Edit(reader, NavEntries, TOP, [Toc([ListTo(href), Toc([ListTo(href)])])])
         == [Toc([Plainly(List, {}, []), Toc([Plainly(List, {}, [])])])]
  {
    var empty := Plainly(List, {}, []);
    var nested := Toc([ListTo(href)]);
    var outer := Toc([ListTo(href), nested]);
    var within := Within(TOP, outer);
    EditPair(reader, NavEntries, TOP, outer, outer);
    EditPair(reader, NavEntries, within, ListTo(href), nested);
    EditPair(reader, NavEntries, Within(within, nested), ListTo(href), nested);
    ListToHiddenEmpties(reader, href, within);
    ListToHiddenEmpties(reader, href, Within(within, nested));
    assert EditOf(reader, NavEntries, within, nested) == [Toc([empty])];
    assert Edit(reader, NavEntries, within, outer.kids) == [empty, Toc([empty])];
    assert EditOf(reader, NavEntries, TOP, outer) == [Toc([empty, Toc([empty])])];
  }

  lemma SweptTocs()
    ensures Sweep(TOP, Swept([], Nobodys), [Toc([Plainly(List, {}, []), Toc([Plainly(List, {}, [])])])]).done == [Toc([])]
  {
    var empty := Plainly(List, {}, []);
    var nested := Toc([empty]);
    var outer := Toc([empty, nested]);
    var within := Within(TOP, outer);
    assert [empty][1..] == [] && [outer][1..] == [] && [empty, nested][1..] == [nested] && [nested][1..] == [];
    assert Sweep(Within(within, nested), Swept([], Nobodys), [empty]) == Swept([], Ours);
    assert SweepOf(within, Swept([], Ours), nested) == Swept([], Deeper);
    assert Sweep(within, Swept([], Ours), [nested]) == Swept([], Deeper);
    assert Sweep(within, Swept([], Nobodys), [empty, nested]) == Swept([], Deeper);
    assert SweepOf(TOP, Swept([], Nobodys), outer).done == [Toc([])];
  }

  /** A table of contents that loses its own list first, and then one nested in it, stays without a list. */
  lemma NestedTocStaysEmpty(reader: Reader, href: string)
    requires reader.hides(href)
    ensures TrimmedPage(reader, [Toc([ListTo(href), Toc([ListTo(href)])])]) == [Toc([])]
  {
    var page := [Toc([ListTo(href), Toc([ListTo(href)])])];
    EmptiedTocs(reader, href);
    var emptied := Edit(reader, NavEntries, TOP, page);
    assert Clean(reader, [Plainly(List, {}, [])]);
    assert Clean(reader, emptied[0].kids[1].kids) && Clean(reader, emptied[0].kids);
    assert Clean(reader, emptied);
    EditLeavesClean(reader, SearchForms, TOP, emptied);
    EditLeavesClean(reader, RelatedLinks, TOP, emptied);
    EditLeavesClean(reader, OtherLinks, TOP, emptied);
    SweptTocs();
  }
}
