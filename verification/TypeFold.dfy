/** Folding the hand-added aircraft types into the FAA's own entries. */
module TypeFold {
  import opened Outcomes
  import opened Text

  datatype AircraftType = AircraftType(faaCode: string, make: string, model: string, isCustom: bool)

  type Types = map<nat, AircraftType>

  /** The two types' display makes and models are the same but for case. */
  predicate SameNames(a: AircraftType, b: AircraftType) {
    Lower(a.make) == Lower(b.make) && Lower(a.model) == Lower(b.model)
  }

  /** Text `a` sorts before `b`. */
  predicate Before(a: string, b: string) {
    b != [] && (a == [] || a[0] < b[0] || (a[0] == b[0] && Before(a[1..], b[1..])))
  }

  /** Any two codes sort one way. */
  lemma {:induction false} OneIsBefore(a: string, b: string)
    ensures !(Before(a, b) && Before(b, a))
    ensures a != b ==> Before(a, b) || Before(b, a)
  {
    if a != [] && b != [] && a[0] == b[0] {
      OneIsBefore(a[1..], b[1..]);
      assert a == [a[0]] + a[1..] && b == [b[0]] + b[1..];
    }
  }

  lemma {:induction false} BeforeThenBefore(a: string, b: string, c: string)
    requires Before(a, b) && Before(b, c)
    ensures Before(a, c)
  {
    if a != [] && a[0] == b[0] && b[0] == c[0] {
      BeforeThenBefore(a[1..], b[1..], c[1..]);
    }
  }

  /** The type `t` is the FAA's, and named as `custom`. */
  predicate Lists(types: Types, custom: AircraftType, t: nat) {
    t in types && !types[t].isCustom && SameNames(types[t], custom)
  }

  /** Of the FAA's types named as `custom`, `t` has the first code. */
  ghost predicate IsTwin(types: Types, custom: AircraftType, t: nat) {
    && Lists(types, custom, t)
    && forall u :: Lists(types, custom, u) && u != t ==> Before(types[t].faaCode, types[u].faaCode)
  }

  ghost function Twin(types: Types, custom: AircraftType): Option<nat> {
    if t :| IsTwin(types, custom, t) then Some(t) else None
  }

  /** No two types have one FAA code. */
  predicate CodesApart(types: Types) {
    forall t, u :: t in types && u in types && t != u ==> types[t].faaCode != types[u].faaCode
  }

  /** The FAA's types, each once, in the order of their codes. */
  ghost predicate ListsByCode(types: Types, byCode: seq<nat>) {
    && (forall t :: t in byCode <==> t in types && !types[t].isCustom)
    && forall i, j :: 0 <= i < j < |byCode| ==> Before(types[byCode[i]].faaCode, types[byCode[j]].faaCode)
  }

  /** The first of `byCode` that is the FAA's and named as `custom`. */
  function FirstListed(types: Types, byCode: seq<nat>, custom: AircraftType): Option<nat> {
    if byCode == [] then None
    else if Lists(types, custom, byCode[0]) then Some(byCode[0])
    else FirstListed(types, byCode[1..], custom)
  }

  /** The type `t` is hand-added, and the FAA now lists it. */
  ghost predicate Folds(types: Types, t: nat) {
    t in types && types[t].isCustom && Twin(types, types[t]).Some?
  }

  /** Where a reference to `t` leads once the types `among` are folded. */
  ghost function Target(types: Types, among: set<nat>, t: nat): nat {
    if t in among && Folds(types, t) then Twin(types, types[t]).value else t
  }

  ghost function Redirected<K>(types: Types, among: set<nat>, references: map<K, nat>): map<K, nat> {
    map k | k in references :: Target(types, among, references[k])
  }

  ghost function Kept(types: Types, among: set<nat>): Types {
    map t | t in types && !(t in among && Folds(types, t)) :: types[t]
  }

  function Repointed<K>(references: map<K, nat>, from: nat, to: nat): map<K, nat> {
    map k | k in references :: if references[k] == from then to else references[k]
  }

  /** There is one twin at most. */
  lemma TwinIs(types: Types, custom: AircraftType, t: nat)
    ensures Twin(types, custom) == Some(t) <==> IsTwin(types, custom, t)
  {
    if IsTwin(types, custom, t) {
      var twin := Twin(types, custom).value;
      assert IsTwin(types, custom, twin);
      OneIsBefore(types[t].faaCode, types[twin].faaCode);
    }
  }

  /** Of some types one has the first code. */
  lemma {:induction false} FirstByCode(types: Types, some: set<nat>) returns (first: nat)
    requires CodesApart(types) && some <= types.Keys && some != {}
    ensures first in some && forall u :: u in some && u != first ==> Before(types[first].faaCode, types[u].faaCode)
    decreases |some|
  {
    var t :| t in some;
    if some == {t} {
      return t;
    }
    var u := FirstByCode(types, some - {t});
    OneIsBefore(types[t].faaCode, types[u].faaCode);
    if Before(types[u].faaCode, types[t].faaCode) {
      return u;
    }
    forall v | v in some && v != t ensures Before(types[t].faaCode, types[v].faaCode) {
      if v != u {
        BeforeThenBefore(types[t].faaCode, types[u].faaCode, types[v].faaCode);
      }
    }
    return t;
  }

  /** A name has a twin exactly when the FAA lists it. */
  lemma TwinIffListed(types: Types, custom: AircraftType)
    requires CodesApart(types)
    ensures Twin(types, custom).Some? <==> exists t :: Lists(types, custom, t)
  {
    if t :| Lists(types, custom, t) {
      var listed := set u | u in types && Lists(types, custom, u);
      assert t in listed;
      var first := FirstByCode(types, listed);
      TwinIs(types, custom, first);
    }
  }

  /** Without a type of the name the search finds none, and otherwise the earliest. */
  lemma {:induction false} FirstListedIsFirst(types: Types, byCode: seq<nat>, custom: AircraftType) returns (at: nat)
    ensures at <= |byCode| && forall i :: 0 <= i < at ==> !Lists(types, custom, byCode[i])
    ensures at == |byCode| <==> FirstListed(types, byCode, custom).None?
    ensures at < |byCode| ==> FirstListed(types, byCode, custom) == Some(byCode[at]) && Lists(types, custom, byCode[at])
  {
    at := 0;
    if byCode != [] && !Lists(types, custom, byCode[0]) {
      at := FirstListedIsFirst(types, byCode[1..], custom);
      forall i | 0 <= i < at + 1 ensures !Lists(types, custom, byCode[i]) {
        assert i > 0 ==> byCode[i] == byCode[1..][i - 1];
      }
      at := at + 1;
    }
  }

  /** Searching the FAA's types in the order of their codes finds the twin. */
  lemma FirstListedIsTwin(types: Types, byCode: seq<nat>, custom: AircraftType)
    requires ListsByCode(types, byCode)
    ensures FirstListed(types, byCode, custom) == Twin(types, custom)
  {
    var at := FirstListedIsFirst(types, byCode, custom);
    assert forall t :: Lists(types, custom, t) ==> t in byCode;
    if at < |byCode| {
      var first := byCode[at];
      forall u | Lists(types, custom, u) && u != first ensures Before(types[first].faaCode, types[u].faaCode) {
        assert u in byCode;
        var j :| 0 <= j < |byCode| && byCode[j] == u;
      }
      TwinIs(types, custom, first);
    }
  }

  /** Folding takes none of the FAA's types, so nothing loses its twin. */
  lemma TwinOutlivesFolding(types: Types, among: set<nat>, custom: AircraftType)
    ensures Twin(Kept(types, among), custom) == Twin(types, custom)
  {
    var kept := Kept(types, among);
    assert forall t :: Lists(kept, custom, t) <==> Lists(types, custom, t);
    if t :| IsTwin(types, custom, t) {
      assert IsTwin(kept, custom, t);
      TwinIs(types, custom, t);
      TwinIs(kept, custom, t);
    } else if t :| IsTwin(kept, custom, t) {
      assert IsTwin(types, custom, t);
    }
  }

  lemma StillByCode(types: Types, among: set<nat>, byCode: seq<nat>)
    requires ListsByCode(types, byCode)
    ensures ListsByCode(Kept(types, among), byCode)
  {
    forall i | 0 <= i < |byCode| ensures byCode[i] in types && !types[byCode[i]].isCustom {
      assert byCode[i] in byCode;
    }
  }

  /** One type more: its references move to its twin when it has one, and otherwise stay. */
  lemma OneMore<K>(types: Types, among: set<nat>, references: map<K, nat>, t: nat)
    requires t !in among && t in types && types[t].isCustom
    ensures
      var redirected := Redirected(types, among, references);
      var twin := Twin(types, types[t]);
      Redirected(types, among + {t}, references) ==
        if twin.Some? then Repointed(redirected, t, twin.value) else redirected
  {
    forall k | k in references && references[k] in among && Folds(types, references[k])
      ensures Twin(types, types[references[k]]).value != t
    {
      TwinIs(types, types[references[k]], t);
    }
  }

  /** One type more: it goes when it has a twin. */
  lemma OneMoreType(types: Types, among: set<nat>, t: nat)
    requires t !in among && t in types && types[t].isCustom
    ensures
      var kept := Kept(types, among);
      && t in kept
      && Kept(types, among + {t}) == (if Twin(types, types[t]).Some? then kept - {t} else kept)
      && |kept - {t}| == |kept| - 1
  {
    var kept := Kept(types, among);
    assert (kept - {t}).Keys == kept.Keys - {t};
  }

  function Firsts(customs: seq<nat>, n: nat): set<nat>
    requires n <= |customs|
  {
    set i | 0 <= i < n :: customs[i]
  }

  lemma NextOfFirsts(customs: seq<nat>, n: nat)
    requires n < |customs| && forall i, j :: 0 <= i < j < |customs| ==> customs[i] != customs[j]
    ensures customs[n] !in Firsts(customs, n) && Firsts(customs, n + 1) == Firsts(customs, n) + {customs[n]}
  {
  }

  class Catalog {
    var types: Types
    var aircraft: map<string, nat>
    var aliases: map<string, nat>
    var registrations: map<string, nat>

    constructor (types: Types, aircraft: map<string, nat>, aliases: map<string, nat>, registrations: map<string, nat>)
      ensures this.types == types && this.aircraft == aircraft && this.aliases == aliases
      ensures this.registrations == registrations
    {
      this.types, this.aircraft, this.aliases, this.registrations := types, aircraft, aliases, registrations;
    }

    /** Point whatever points at `custom` at `twin`, and delete it. */
    method FoldInto(custom: nat, twin: nat)
      modifies this
      ensures types == old(types) - {custom}
      ensures aircraft == Repointed(old(aircraft), custom, twin)
      ensures aliases == Repointed(old(aliases), custom, twin)
      ensures registrations == Repointed(old(registrations), custom, twin)
    {
      aircraft := Repointed(aircraft, custom, twin);
      aliases := Repointed(aliases, custom, twin);
      registrations := Repointed(registrations, custom, twin);
      types := types - {custom};
    }

    /**
     Fold each of `customs`, the hand-added types in any order: what pointed at one with a twin points
     at the twin, and the type is deleted.  `byCode` is the FAA's types in the order of their codes.
     */
    method FoldCustomTypes(customs: seq<nat>, byCode: seq<nat>) returns (folded: nat)
      requires forall t :: t in customs <==> t in types && types[t].isCustom
      requires forall i, j :: 0 <= i < j < |customs| ==> customs[i] != customs[j]
      requires ListsByCode(types, byCode)
      modifies this
      ensures
        var all := old(types).Keys;
        && types == Kept(old(types), all)
        && aircraft == Redirected(old(types), all, old(aircraft))
        && aliases == Redirected(old(types), all, old(aliases))
        && registrations == Redirected(old(types), all, old(registrations))
      ensures folded == |old(types)| - |types|
    {
      folded := 0;
      ghost var was := types;
      ghost var among: set<nat> := {};
      for i := 0 to |customs|
        invariant among == Firsts(customs, i)
        invariant types == Kept(was, among) && |types| + folded == |was|
        invariant aircraft == Redirected(was, among, old(aircraft))
        invariant aliases == Redirected(was, among, old(aliases))
        invariant registrations == Redirected(was, among, old(registrations))
      {
        var custom := customs[i];
        NextOfFirsts(customs, i);
        assert custom in was && was[custom].isCustom && types[custom] == was[custom];
        StillByCode(was, among, byCode);
        TwinOutlivesFolding(was, among, was[custom]);
        FirstListedIsTwin(types, byCode, was[custom]);
        var twin := FirstListed(types, byCode, types[custom]);
        OneMore(was, among, old(aircraft), custom);
        OneMore(was, among, old(aliases), custom);
        OneMore(was, among, old(registrations), custom);
        OneMoreType(was, among, custom);
        if twin.Some? {
          FoldInto(custom, twin.value);
          folded := folded + 1;
        }
        among := among + {custom};
      }
      AllCustomsAreAmong(was, customs, old(aircraft));
      AllCustomsAreAmong(was, customs, old(aliases));
      AllCustomsAreAmong(was, customs, old(registrations));
    }
  }

  lemma AllCustomsAreAmong<K>(types: Types, customs: seq<nat>, references: map<K, nat>)
    requires forall t :: t in customs <==> t in types && types[t].isCustom
    ensures
      var among := Firsts(customs, |customs|);
      && Kept(types, among) == Kept(types, types.Keys)
      && Redirected(types, among, references) == Redirected(types, types.Keys, references)
  {
    forall t | t in types && types[t].isCustom ensures t in Firsts(customs, |customs|) {
      assert t in customs;
      var i :| 0 <= i < |customs| && customs[i] == t;
    }
  }

  /**
   After the fold every reference leads to a type with the same names but for case: to the FAA's whose
   code comes first wherever the FAA lists those names, and otherwise to the type it led to before.
   */
  lemma ReferencesKeepTheirNames<K>(types: Types, references: map<K, nat>, k: K)
    requires CodesApart(types) && k in references && references[k] in types
    ensures
      var named := types[references[k]];
      var target := Redirected(types, types.Keys, references)[k];
      var kept := Kept(types, types.Keys);
      && target in kept
      && Lower(kept[target].make) == Lower(named.make) && Lower(kept[target].model) == Lower(named.model)
      && (named.isCustom && (exists t :: Lists(types, named, t)) ==> IsTwin(types, named, target))
      && (!named.isCustom || (forall t :: !Lists(types, named, t)) ==> target == references[k])
  {
    var named := types[references[k]];
    TwinIffListed(types, named);
    TwinIs(types, named, Redirected(types, types.Keys, references)[k]);
  }

  /** The FAA lists the make and the model, in letters of any case. */
  predicate FaaHas(types: Types, make: string, model: string) {
    exists u :: u in types && !types[u].isCustom && Lower(types[u].make) == Lower(make) && Lower(types[u].model) == Lower(model)
  }

  /** The types left are those the FAA has, and the hand-added ones it does not list. */
  lemma WhatIsKept(types: Types, t: nat)
    requires CodesApart(types)
    ensures t in Kept(types, types.Keys) <==>
            t in types && (types[t].isCustom ==> !FaaHas(types, types[t].make, types[t].model))
  {
    if t in types {
      TwinIffListed(types, types[t]);
      if u :| Lists(types, types[t], u) {
        assert FaaHas(types, types[t].make, types[t].model);
      }
      if u :| u in types && !types[u].isCustom && Lower(types[u].make) == Lower(types[t].make)
              && Lower(types[u].model) == Lower(types[t].model) {
        assert Lists(types, types[t], u);
      }
    }
  }

  /** The FAA's own types all stay, and a second fold finds nothing to do. */
  lemma FoldTwice(types: Types, t: nat)
    ensures
      var kept := Kept(types, types.Keys);
      && (t in types && !types[t].isCustom ==> t in kept && kept[t] == types[t])
      && !Folds(kept, t)
      && Kept(kept, kept.Keys) == kept
  {
    var kept := Kept(types, types.Keys);
    forall u | u in kept ensures !Folds(kept, u) {
      TwinOutlivesFolding(types, types.Keys, kept[u]);
    }
  }
}
