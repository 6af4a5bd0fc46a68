/** The roles that open each page of the guide, by declaration and by toctree. */
module GuideRoles {
  import opened Text

  /**
   The build: the role slugs, least privileged first; each page's raw `:roles:` field, if any;
   the pages its toctrees list; and every page.
   */
  datatype Guide = Guide(
    slugs: seq<string>,
    rolesField: map<string, string>,
    includes: map<string, seq<string>>,
    found: seq<string>
  )

  // -------------------------------------------------------------- the fields

  function NonEmpty(parts: seq<string>): seq<string> {
    if parts == [] then []
    else (if Strip(parts[0]) == "" then [] else [Strip(parts[0])]) + NonEmpty(parts[1..])
  }

  /** The slugs a field names: separated by commas, stripped, empty ones dropped. */
  function Declared(field: string): seq<string> {
    NonEmpty(Split(field, ','))
  }

  function DeclaredRoles(guide: Guide, doc: string): seq<string> {
    if doc in guide.rolesField then Declared(guide.rolesField[doc]) else []
  }

  function Children(guide: Guide, doc: string): seq<string> {
    if doc in guide.includes then guide.includes[doc] else []
  }

  /** Every page named anywhere: the walk stays within these. */
  ghost function Universe(guide: Guide): set<string> {
    (set d | d in guide.found) + guide.includes.Keys + (set d, c | d in guide.includes && c in guide.includes[d] :: c)
  }

  /** The slugs of `slugs` that are in `roles`, in role order. */
  function InOrder(slugs: seq<string>, roles: set<string>): seq<string> {
    if slugs == [] then []
    else (if slugs[0] in roles then [slugs[0]] else []) + InOrder(slugs[1..], roles)
  }

  function AsSet(slugs: seq<string>): set<string> {
    set r | r in slugs
  }

  /** Every slug one of `lists` names. */
  function Union(lists: seq<seq<string>>): set<string> {
    if lists == [] then {} else AsSet(lists[0]) + Union(lists[1..])
  }

  /** What a group page takes from its children: nothing when any child is open, else their union. */
  function FromChildren(guide: Guide, lists: seq<seq<string>>): seq<string> {
    if exists i :: 0 <= i < |lists| && |lists[i]| == 0 then [] else InOrder(guide.slugs, Union(lists))
  }

  // ------------------------------------------------------ what a field declares

  lemma {:induction false} NonEmptyOfBoth(a: seq<string>, b: seq<string>)
    ensures NonEmpty(a + b) == NonEmpty(a) + NonEmpty(b)
  {
    if a == [] {
      assert a + b == b;
    } else {
      assert (a + b)[1..] == a[1..] + b;
      NonEmptyOfBoth(a[1..], b);
    }
  }

  /** A comma separates: a field declares what is before one and then what is after it. */
  lemma DeclaredAround(before: string, after: string)
    ensures Declared(before + [','] + after) == Declared(before) + Declared(after)
  {
    SplitAround(before, after, ',');
    NonEmptyOfBoth(Split(before, ','), Split(after, ','));
  }

  /** Without a comma a field declares the one slug in it, whatever whitespace is around that, or nothing when blank. */
  lemma DeclaredAlone(piece: string, slug: string)
    requires ',' !in piece && Pads(piece, slug)
    ensures Declared(piece) == if slug == "" then [] else [slug]
  {
    var lead, tail :| Blank(lead) && Blank(tail) && piece == lead + slug + tail;
    StripOfPadded(lead, slug, tail);
    SplitOfFree(piece, ',');
    assert Strip(piece) == slug && Split(piece, ',') == [piece];
    assert NonEmpty([piece][1..]) == [];
  }

  /** A slug is declared exactly when it is not empty and some piece between commas is that slug, with whitespace around. */
  lemma DeclaredIff(field: string, slug: string)
    ensures slug in Declared(field) <==>
            slug != "" && exists piece :: piece in Split(field, ',') && Pads(piece, slug)
  {
    NonEmptyHolds(Split(field, ','), slug);
  }

  lemma {:induction false} NonEmptyHolds(parts: seq<string>, slug: string)
    ensures slug in NonEmpty(parts) <==> slug != "" && exists part :: part in parts && Pads(part, slug)
  {
    if parts != [] {
      NonEmptyHolds(parts[1..], slug);
      StripTakesBlanks(parts[0]);
      assert forall part :: part in parts <==> part == parts[0] || part in parts[1..];
      if Pads(parts[0], slug) {
        var lead, tail :| Blank(lead) && Blank(tail) && parts[0] == lead + slug + tail;
        StripOfPadded(lead, slug, tail);
      }
    }
  }

  /** Slugs written between commas, with any whitespace around them, are declared, in the order written. */
  lemma {:induction false} WrittenFieldDeclares(slugs: seq<string>, pieces: seq<string>)
    requires |slugs| == |pieces| > 0
    requires forall i :: 0 <= i < |slugs| ==> slugs[i] != "" && ',' !in pieces[i] && Pads(pieces[i], slugs[i])
    ensures Declared(Join(pieces, ',')) == slugs
  {
    DeclaredAlone(pieces[0], slugs[0]);
    if |slugs| > 1 {
      WrittenFieldDeclares(slugs[1..], pieces[1..]);
      DeclaredAround(pieces[0], Join(pieces[1..], ','));
      assert slugs == [slugs[0]] + slugs[1..];
    }
  }

  // -------------------------------------------------------- the specification

  /** `rank` falls along every toctree, so no page lists its own ancestor. */
  ghost predicate Acyclic(guide: Guide, rank: string -> nat) {
    forall d, c :: c in Children(guide, d) ==> rank(c) < rank(d)
  }

  /** The roles of `doc`, read straight off the rule. */
  ghost function RolesSpec(guide: Guide, rank: string -> nat, doc: string): seq<string>
    requires Acyclic(guide, rank)
    decreases rank(doc), 1
  {
    var own := DeclaredRoles(guide, doc);
    var children := Children(guide, doc);
    if own != [] || children == [] then own
    else FromChildren(guide, SpecsOf(guide, rank, doc, children))
  }

  ghost function SpecsOf(guide: Guide, rank: string -> nat, doc: string, children: seq<string>): (lists: seq<seq<string>>)
    requires Acyclic(guide, rank) && forall c :: c in children ==> c in Children(guide, doc)
    ensures |lists| == |children|
    ensures forall i :: 0 <= i < |children| ==> rank(children[i]) < rank(doc) && lists[i] == RolesSpec(guide, rank, children[i])
    decreases rank(doc), 0, |children|
  {
    if children == [] then []
    else
      assert children[0] in Children(guide, doc);
      [RolesSpec(guide, rank, children[0])] + SpecsOf(guide, rank, doc, children[1..])
  }

  // -------------------------------------------------------- the memoised walk

  ghost predicate NoneTwice(visits: seq<string>) {
    forall i, j :: 0 <= i < j < |visits| ==> visits[i] != visits[j]
  }

  /** What was computed for a page that names roles itself is what it names. */
  ghost predicate OwnRolesWin(guide: Guide, computed: map<string, seq<string>>) {
    forall d :: d in computed && DeclaredRoles(guide, d) != [] ==> computed[d] == DeclaredRoles(guide, d)
  }

  /** Every page computed, but for those still in progress, has the roles of the specification. */
  ghost predicate Correct(guide: Guide, computed: map<string, seq<string>>, rank: string -> nat, active: set<string>) {
    Acyclic(guide, rank) && forall d :: d in computed && d !in active ==> computed[d] == RolesSpec(guide, rank, d)
  }

  /** Every page in progress ranks above `doc`. */
  ghost predicate Above(rank: string -> nat, active: set<string>, doc: string) {
    forall a :: a in active ==> rank(doc) < rank(a)
  }

  lemma HeldOpen(guide: Guide, computed: map<string, seq<string>>, rank: string -> nat, active: set<string>, doc: string)
    requires doc !in computed
    ensures Correct(guide, computed, rank, active) ==> Correct(guide, computed[doc := []], rank, active + {doc})
    ensures OwnRolesWin(guide, computed) && DeclaredRoles(guide, doc) == [] ==> OwnRolesWin(guide, computed[doc := []])
  {
  }

  lemma Settled(guide: Guide, computed: map<string, seq<string>>, rank: string -> nat, active: set<string>, doc: string,
                roles: seq<string>)
    ensures Correct(guide, computed, rank, active + {doc}) && roles == RolesSpec(guide, rank, doc) ==>
      Correct(guide, computed[doc := roles], rank, active)
  {
  }

  /** The lists so far are the roles of the first children. */
  ghost predicate ListsSoFar(guide: Guide, rank: string -> nat, children: seq<string>, lists: seq<seq<string>>) {
    && Acyclic(guide, rank) && |lists| <= |children|
    && forall k :: 0 <= k < |lists| ==> lists[k] == RolesSpec(guide, rank, children[k])
  }

  lemma ListsAreSpecs(guide: Guide, rank: string -> nat, doc: string, lists: seq<seq<string>>)
    requires ListsSoFar(guide, rank, Children(guide, doc), lists) && |lists| == |Children(guide, doc)|
    ensures lists == SpecsOf(guide, rank, doc, Children(guide, doc))
  {
  }

  lemma ChildIsBelow(guide: Guide, rank: string -> nat, active: set<string>, doc: string, child: string)
    requires child in Children(guide, doc)
    ensures child in Universe(guide)
    ensures Acyclic(guide, rank) && Above(rank, active, doc) ==> Above(rank, active + {doc}, child)
  {
  }

  lemma FewerLeft(universe: set<string>, done: set<string>, doc: string)
    requires doc in universe && doc !in done
    ensures universe - (done + {doc}) < universe - done
  {
    assert doc in universe - done && doc !in universe - (done + {doc});
  }

  class Walk {
    const guide: Guide
    var computed: map<string, seq<string>>

    /** The pages computed, in the order the walk began on them. */
    ghost var visits: seq<string>

    constructor (guide: Guide)
      ensures this.guide == guide && computed == map[] && visits == [] && Valid()
    {
      this.guide := guide;
      computed := map[];
      visits := [];
    }

    ghost predicate Valid()
      reads this
    {
      && NoneTwice(visits)
      && (forall d :: d in visits <==> d in computed)
      && computed.Keys <= Universe(guide)
    }


    /** The walk knows all it did before, and more. */
    twostate predicate Extends()
      reads this
    {
      && old(visits) <= visits
      && forall d :: d in old(computed) ==> d in computed && computed[d] == old(computed)[d]
    }

    /**
     The roles of `doc`, computed once and remembered.  It ends on every guide, cyclic ones too;
     on an acyclic one what it answers and remembers is the specification's.
     */
    method RolesOf(doc: string, ghost rank: string -> nat, ghost active: set<string>) returns (result: seq<string>)
      requires Valid() && OwnRolesWin(guide, computed) && doc in Universe(guide)
      modifies this
      ensures Valid() && OwnRolesWin(guide, computed) && Extends()
      ensures doc in computed && result == computed[doc]
      ensures old(Correct(guide, computed, rank, active)) && Above(rank, active, doc) ==>
        Correct(guide, computed, rank, active) && result == RolesSpec(guide, rank, doc)
      decreases Universe(guide) - computed.Keys, 0
    {
      if doc in computed {
        return computed[doc];
      }
      HeldOpen(guide, computed, rank, active, doc);
      FewerLeft(Universe(guide), computed.Keys, doc);
      Enter(doc);
      result := OwnOrDerived(doc, rank, active);
      Settled(guide, computed, rank, active, doc, result);
      computed := computed[doc := result];
    }

    /** Hold `doc` open, so that a toctree that lists its own ancestor ends there. */
    method Enter(doc: string)
      requires Valid() && doc in Universe(guide) && doc !in computed
      modifies this
      ensures Valid() && computed == old(computed)[doc := []] && visits == old(visits) + [doc]
    {
      computed := computed[doc := []];
      visits := visits + [doc];
    }

    /** The roles of `doc`, held open: its own, or else what its children's come to. */
    method OwnOrDerived(doc: string, ghost rank: string -> nat, ghost active: set<string>) returns (result: seq<string>)
      requires Valid() && doc in computed && (DeclaredRoles(guide, doc) == [] ==> OwnRolesWin(guide, computed))
      modifies this
      ensures Valid() && Extends()
      ensures if DeclaredRoles(guide, doc) == [] then OwnRolesWin(guide, computed) else unchanged(this) && result == DeclaredRoles(guide, doc)
      ensures old(Correct(guide, computed, rank, active + {doc})) && Above(rank, active, doc) ==>
        Correct(guide, computed, rank, active + {doc}) && result == RolesSpec(guide, rank, doc)
      decreases Universe(guide) - computed.Keys, 2
    {
      var own := DeclaredRoles(guide, doc);
      var children := Children(guide, doc);
      if own != [] || |children| == 0 {
        return own;
      }
      var lists := ChildRoles(doc, children, rank, active);
      result := FromChildren(guide, lists);
    }

    /** The roles of each of `children`, visited while `doc` is held open. */
    method ChildRoles(doc: string, children: seq<string>, ghost rank: string -> nat, ghost active: set<string>)
      returns (lists: seq<seq<string>>)
      requires Valid() && OwnRolesWin(guide, computed) && doc in computed && children == Children(guide, doc)
      modifies this
      ensures Valid() && OwnRolesWin(guide, computed) && Extends() && |lists| == |children|
      ensures old(Correct(guide, computed, rank, active + {doc})) && Above(rank, active, doc) ==>
        Correct(guide, computed, rank, active + {doc}) && lists == SpecsOf(guide, rank, doc, children)
      decreases Universe(guide) - computed.Keys, 1
    {
      ghost var open' := active + {doc};
      ghost var sound := Correct(guide, computed, rank, open') && Above(rank, active, doc);
      lists := [];
      for i := 0 to |children|
        invariant Valid() && OwnRolesWin(guide, computed) && Extends() && |lists| == i
        invariant sound ==> Correct(guide, computed, rank, open') && ListsSoFar(guide, rank, children, lists)
      {
        var child := children[i];
        ChildIsBelow(guide, rank, active, doc, child);
        var roles := RolesOf(child, rank, open');
        lists := lists + [roles];
      }
      if sound {
        ListsAreSpecs(guide, rank, doc, lists);
      }
    }

    /** Every restricted page of the build, with its slugs in role order. */
    method PageRoles(ghost rank: string -> nat) returns (restricted: map<string, seq<string>>)
      requires Valid() && computed == map[]
      modifies this
      ensures NoneTwice(visits)
      ensures Acyclic(guide, rank) ==> restricted == PageRolesSpec(guide, rank)
      ensures OwnRolesWritten(guide, guide.found, restricted)
    {
      ghost var sound := Acyclic(guide, rank);
      restricted := map[];
      for i := 0 to |guide.found|
        invariant Valid() && OwnRolesWin(guide, computed)
        invariant OwnRolesWritten(guide, guide.found[..i], restricted)
        invariant sound ==> Correct(guide, computed, rank, {})
        invariant sound ==> restricted == RestrictedAmong(guide, rank, guide.found[..i])
      {
        var doc := guide.found[i];
        assert doc in guide.found;
        var roles := RolesOf(doc, rank, {});
        if sound {
          OneMorePage(guide, rank, guide.found, i);
        }
        OneMoreWritten(guide, guide.found, i, restricted, roles);
        if |roles| > 0 {
          restricted := restricted[doc := InOrder(guide.slugs, AsSet(roles))];
        }
      }
      assert guide.found[..|guide.found|] == guide.found;
    }
  }

  /** The file holds each of `docs` that names roles itself, with those it names that are roles, in role order. */
  ghost predicate OwnRolesWritten(guide: Guide, docs: seq<string>, file: map<string, seq<string>>) {
    forall d :: d in docs && DeclaredRoles(guide, d) != [] ==>
      d in file && file[d] == InOrder(guide.slugs, AsSet(DeclaredRoles(guide, d)))
  }

  lemma OneMoreWritten(guide: Guide, docs: seq<string>, i: nat, file: map<string, seq<string>>, roles: seq<string>)
    requires i < |docs| && OwnRolesWritten(guide, docs[..i], file)
    requires DeclaredRoles(guide, docs[i]) != [] ==> roles == DeclaredRoles(guide, docs[i])
    ensures
      var more := if |roles| > 0 then file[docs[i] := InOrder(guide.slugs, AsSet(roles))] else file;
      OwnRolesWritten(guide, docs[..i + 1], more)
  {
    assert docs[..i + 1] == docs[..i] + [docs[i]];
  }

  lemma OneMorePage(guide: Guide, rank: string -> nat, docs: seq<string>, i: nat)
    requires Acyclic(guide, rank) && i < |docs|
    ensures
      var before := RestrictedAmong(guide, rank, docs[..i]);
      var roles := RolesSpec(guide, rank, docs[i]);
      RestrictedAmong(guide, rank, docs[..i + 1]) ==
        if |roles| > 0 then before[docs[i] := InOrder(guide.slugs, AsSet(roles))] else before
  {
    assert docs[..i + 1] == docs[..i] + [docs[i]];
  }

  ghost function RestrictedAmong(guide: Guide, rank: string -> nat, docs: seq<string>): map<string, seq<string>>
    requires Acyclic(guide, rank)
  {
    map d | d in docs && RolesSpec(guide, rank, d) != [] :: InOrder(guide.slugs, AsSet(RolesSpec(guide, rank, d)))
  }

  /** What `roles.json` holds: each restricted page of the build, and who may read it. */
  ghost function PageRolesSpec(guide: Guide, rank: string -> nat): map<string, seq<string>>
    requires Acyclic(guide, rank)
  {
    RestrictedAmong(guide, rank, guide.found)
  }

  // ------------------------------------------------------------ what it means

  /** A reader holding `held` may open a page kept to `roles`, or to nobody in particular. */
  predicate CanOpen(roles: seq<string>, held: set<string>) {
    roles == [] || exists r :: r in roles && r in held
  }

  predicate IsKnown(guide: Guide, slug: string) { slug in guide.slugs }

  /** Every declared slug is one of the site's roles. */
  ghost predicate KnownSlugs(guide: Guide) {
    forall d, r :: r in DeclaredRoles(guide, d) ==> IsKnown(guide, r)
  }

  lemma {:induction false} InOrderHolds(slugs: seq<string>, roles: set<string>, slug: string)
    ensures slug in InOrder(slugs, roles) <==> slug in slugs && slug in roles
  {
    if slugs != [] {
      InOrderHolds(slugs[1..], roles, slug);
    }
  }

  /** `x` stands before `y` in `slugs`. */
  ghost predicate Precedes(slugs: seq<string>, x: string, y: string) {
    exists a, b :: 0 <= a < b < |slugs| && slugs[a] == x && slugs[b] == y
  }

  ghost predicate InRoleOrder(slugs: seq<string>, roles: seq<string>) {
    forall i, j :: 0 <= i < j < |roles| ==> Precedes(slugs, roles[i], roles[j])
  }

  lemma PrecedesLater(slugs: seq<string>, x: string, y: string)
    requires slugs != [] && (Precedes(slugs[1..], x, y) || (x == slugs[0] && y in slugs[1..]))
    ensures Precedes(slugs, x, y)
  {
    if Precedes(slugs[1..], x, y) {
      var a, b :| 0 <= a < b < |slugs[1..]| && slugs[1..][a] == x && slugs[1..][b] == y;
      assert slugs[a + 1] == x && slugs[b + 1] == y;
    } else {
      var b :| 0 <= b < |slugs[1..]| && slugs[1..][b] == y;
      assert slugs[0] == x && slugs[b + 1] == y;
    }
  }

  lemma {:induction false} InOrderIsOrdered(slugs: seq<string>, roles: set<string>)
    ensures InRoleOrder(slugs, InOrder(slugs, roles))
  {
    if slugs != [] {
      var rest, all := InOrder(slugs[1..], roles), InOrder(slugs, roles);
      InOrderIsOrdered(slugs[1..], roles);
      forall i, j | 0 <= i < j < |all| ensures Precedes(slugs, all[i], all[j]) {
        InOrderHolds(slugs[1..], roles, all[j]);
        if slugs[0] in roles {
          assert all[j] == rest[j - 1] && (i > 0 ==> all[i] == rest[i - 1]);
        }
        PrecedesLater(slugs, all[i], all[j]);
      }
    }
  }

  /**
   A page that names roles itself is in the file with exactly those it names that are roles, in role order, whatever
   its toctrees list; and by the rule it is kept to the roles it names.
   */
  lemma OwnRolesAreWritten(guide: Guide, file: map<string, seq<string>>, doc: string, slug: string)
    requires OwnRolesWritten(guide, guide.found, file) && doc in guide.found
    requires doc in guide.rolesField && Declared(guide.rolesField[doc]) != []
    ensures
      && doc in file
      && (slug in file[doc] <==> slug in guide.slugs && slug in Declared(guide.rolesField[doc]))
      && InRoleOrder(guide.slugs, file[doc])
    ensures forall rank: string -> nat :: Acyclic(guide, rank) ==> RolesSpec(guide, rank, doc) == Declared(guide.rolesField[doc])
  {
    InOrderHolds(guide.slugs, AsSet(DeclaredRoles(guide, doc)), slug);
    InOrderIsOrdered(guide.slugs, AsSet(DeclaredRoles(guide, doc)));
  }

  lemma {:induction false} UnionHolds(lists: seq<seq<string>>, slug: string)
    ensures slug in Union(lists) <==> exists i :: 0 <= i < |lists| && slug in lists[i]
  {
    if lists != [] {
      UnionHolds(lists[1..], slug);
      if slug in Union(lists[1..]) {
        var i :| 0 <= i < |lists[1..]| && slug in lists[1..][i];
        assert slug in lists[i + 1];
      }
      if i :| 1 <= i < |lists| && slug in lists[i] {
        assert slug in lists[1..][i - 1];
      }
    }
  }

  predicate IsGroup(guide: Guide, doc: string) {
    DeclaredRoles(guide, doc) == [] && Children(guide, doc) != []
  }

  /** On an acyclic guide every page is kept to known roles, when only known ones are declared. */
  lemma {:induction false} RolesAreKnown(guide: Guide, rank: string -> nat, doc: string, slug: string)
    requires Acyclic(guide, rank) && KnownSlugs(guide) && slug in RolesSpec(guide, rank, doc)
    ensures IsKnown(guide, slug)
  {
    if IsGroup(guide, doc) {
      var lists := SpecsOf(guide, rank, doc, Children(guide, doc));
      InOrderHolds(guide.slugs, Union(lists), slug);
    }
  }

  /** The roles among `held` that the site knows. */
  function KnownAmong(guide: Guide, held: set<string>): set<string> {
    set r | r in held && IsKnown(guide, r)
  }

  predicate SomeOpens(lists: seq<seq<string>>, held: set<string>) {
    exists i :: 0 <= i < |lists| && CanOpen(lists[i], held)
  }

  predicate NamesNoKnownRole(guide: Guide, roles: seq<string>) {
    forall r :: r in roles ==> !IsKnown(guide, r)
  }

  lemma FromChildrenHolds(guide: Guide, lists: seq<seq<string>>, slug: string)
    requires forall i :: 0 <= i < |lists| ==> |lists[i]| != 0
    ensures slug in FromChildren(guide, lists) <==>
            IsKnown(guide, slug) && exists i :: 0 <= i < |lists| && slug in lists[i]
  {
    InOrderHolds(guide.slugs, Union(lists), slug);
    UnionHolds(lists, slug);
  }

  lemma OpensToOneInside(guide: Guide, lists: seq<seq<string>>, held: set<string>)
    requires CanOpen(FromChildren(guide, lists), held) && FromChildren(guide, lists) != []
    ensures SomeOpens(lists, KnownAmong(guide, held))
  {
    var r :| r in FromChildren(guide, lists) && r in held;
    FromChildrenHolds(guide, lists, r);
    var i :| 0 <= i < |lists| && r in lists[i];
    assert r in KnownAmong(guide, held) && CanOpen(lists[i], KnownAmong(guide, held));
  }

  lemma OneInsideOpens(guide: Guide, lists: seq<seq<string>>, held: set<string>)
    requires SomeOpens(lists, KnownAmong(guide, held))
    ensures CanOpen(FromChildren(guide, lists), held)
  {
    if forall i :: 0 <= i < |lists| ==> |lists[i]| != 0 {
      var i :| 0 <= i < |lists| && CanOpen(lists[i], KnownAmong(guide, held));
      var r :| r in lists[i] && r in KnownAmong(guide, held);
      FromChildrenHolds(guide, lists, r);
    }
  }

  lemma EmptyMeansNoneKnown(guide: Guide, lists: seq<seq<string>>)
    requires forall i :: 0 <= i < |lists| ==> |lists[i]| != 0
    ensures FromChildren(guide, lists) == [] <==> forall i :: 0 <= i < |lists| ==> NamesNoKnownRole(guide, lists[i])
  {
    var roles := FromChildren(guide, lists);
    if roles != [] {
      FromChildrenHolds(guide, lists, roles[0]);
    }
    forall i, r | 0 <= i < |lists| && r in lists[i] && IsKnown(guide, r) ensures r in roles {
      FromChildrenHolds(guide, lists, r);
    }
  }

  /**
   A group page lets a reader in exactly when one of its children does for a known role or for
   everyone, or when no child names a known role at all.
   */
  lemma {:induction false} GroupOpensIff(guide: Guide, rank: string -> nat, doc: string, held: set<string>)
    requires Acyclic(guide, rank) && IsGroup(guide, doc)
    ensures CanOpen(RolesSpec(guide, rank, doc), held) <==>
      var lists := SpecsOf(guide, rank, doc, Children(guide, doc));
      || SomeOpens(lists, KnownAmong(guide, held))
      || forall i :: 0 <= i < |lists| ==> NamesNoKnownRole(guide, lists[i])
  {
    var lists := SpecsOf(guide, rank, doc, Children(guide, doc));
    assert RolesSpec(guide, rank, doc) == FromChildren(guide, lists);
    if i :| 0 <= i < |lists| && |lists[i]| == 0 {
      assert CanOpen(lists[i], KnownAmong(guide, held));
    } else {
      EmptyMeansNoneKnown(guide, lists);
      if FromChildren(guide, lists) != [] && CanOpen(FromChildren(guide, lists), held) {
        OpensToOneInside(guide, lists, held);
      }
    }
    if SomeOpens(lists, KnownAmong(guide, held)) {
      OneInsideOpens(guide, lists, held);
    }
  }

  /** A reader needs no more than the site's known roles to open a page kept to known roles. */
  lemma KnownIsEnough(guide: Guide, roles: seq<string>, held: set<string>)
    requires forall r :: r in roles ==> IsKnown(guide, r)
    ensures CanOpen(roles, held) <==> CanOpen(roles, KnownAmong(guide, held))
    ensures NamesNoKnownRole(guide, roles) ==> roles == []
  {
    if roles != [] {
      assert roles[0] in roles;
    }
    if r :| r in roles && r in held {
      assert r in KnownAmong(guide, held);
    }
  }

  /** Some child's list opens exactly when some child does. */
  lemma {:induction false} SomeChildOpens(guide: Guide, rank: string -> nat, doc: string, held: set<string>)
    requires Acyclic(guide, rank)
    ensures SomeOpens(SpecsOf(guide, rank, doc, Children(guide, doc)), held) <==>
            exists c :: c in Children(guide, doc) && CanOpen(RolesSpec(guide, rank, c), held)
  {
    var children := Children(guide, doc);
    var lists := SpecsOf(guide, rank, doc, children);
    if i :| 0 <= i < |lists| && CanOpen(lists[i], held) {
      assert children[i] in children;
    }
    if c :| c in children && CanOpen(RolesSpec(guide, rank, c), held) {
      var i :| 0 <= i < |children| && children[i] == c;
      assert CanOpen(lists[i], held);
    }
  }

  /** Where only known roles are declared, a group page opens exactly when one of its children does. */
  lemma {:induction false} GroupOpensWithAChild(guide: Guide, rank: string -> nat, doc: string, held: set<string>)
    requires Acyclic(guide, rank) && KnownSlugs(guide)
    requires DeclaredRoles(guide, doc) == [] && doc in guide.includes && guide.includes[doc] != []
    ensures CanOpen(RolesSpec(guide, rank, doc), held) <==>
            exists c :: c in guide.includes[doc] && CanOpen(RolesSpec(guide, rank, c), held)
  {
    var children := Children(guide, doc);
    var lists := SpecsOf(guide, rank, doc, children);
    GroupOpensIff(guide, rank, doc, held);
    SomeChildOpens(guide, rank, doc, held);
    forall i | 0 <= i < |lists|
      ensures CanOpen(lists[i], held) <==> CanOpen(lists[i], KnownAmong(guide, held))
      ensures NamesNoKnownRole(guide, lists[i]) ==> CanOpen(lists[i], held)
    {
      forall r | r in lists[i] ensures IsKnown(guide, r) {
        RolesAreKnown(guide, rank, children[i], r);
      }
      KnownIsEnough(guide, lists[i], held);
    }
    if forall i :: 0 <= i < |lists| ==> NamesNoKnownRole(guide, lists[i]) {
      assert CanOpen(lists[0], held);
    }
  }

  /** What a reader is told by `roles.json` is what the rule says, for every page of the build. */
  lemma {:induction false} FileSaysWhoMayOpen(guide: Guide, rank: string -> nat, doc: string, held: set<string>)
    requires Acyclic(guide, rank) && KnownSlugs(guide) && doc in guide.found
    ensures
      var restricted := PageRolesSpec(guide, rank);
      CanOpen(RolesSpec(guide, rank, doc), held) <==>
        doc !in restricted || exists r :: r in restricted[doc] && r in held
  {
    var roles := RolesSpec(guide, rank, doc);
    forall r | r in roles ensures IsKnown(guide, r) {
      RolesAreKnown(guide, rank, doc, r);
    }
    forall r ensures r in InOrder(guide.slugs, AsSet(roles)) <==> r in roles {
      InOrderHolds(guide.slugs, AsSet(roles), r);
    }
  }
}
