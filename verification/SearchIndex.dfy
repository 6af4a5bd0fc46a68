/** The guide's search index, trimmed to one reader. */
module SearchIndex {
  import opened Outcomes

  datatype Json =
    | Null
    | Bool(b: bool)
    | Int(n: int)
    | Float(x: real)
    | Str(s: string)
    | Arr(items: seq<Json>)
    | Obj(fields: map<string, Json>)

  const PER_PAGE_LISTS: set<string> := {"docnames", "filenames", "titles"}
  const WORD_MAPS: set<string> := {"terms", "titleterms"}
  const ENTRY_MAPS: set<string> := {"alltitles", "indexentries", "objects"}
  const TRIMMED_KEYS: set<string> := PER_PAGE_LISTS + WORD_MAPS + ENTRY_MAPS

  // ------------------------------------------------------------------ shape

  /** The page number a value stands for: an integer, or a boolean, which is one in Python. */
  function PageNumber(j: Json): Option<int> {
    match j
    case Int(n) => Some(n)
    case Bool(b) => Some(if b then 1 else 0)
    case _ => None
  }

  /** A field of the index; one that is missing is empty. */
  function Field(fields: map<string, Json>, key: string): Json {
    if key in fields then fields[key]
    else if key in PER_PAGE_LISTS then Arr([])
    else Obj(map[])
  }

  /** The numbers a word is found on: one, or a list of them. */
  function Numbers(found: Json): seq<Json> {
    if found.Arr? then found.items else [found]
  }

  predicate AllPages(numbers: seq<Json>) {
    forall i :: 0 <= i < |numbers| ==> PageNumber(numbers[i]).Some?
  }

  predicate PagesShaped(found: Json) {
    AllPages(Numbers(found))
  }

  predicate EntryShaped(entry: Json) {
    entry.Arr? && |entry.items| > 0 && PageNumber(entry.items[0]).Some?
  }

  predicate AllEntries(entries: seq<Json>) {
    forall i :: 0 <= i < |entries| ==> EntryShaped(entries[i])
  }

  predicate EntriesShaped(found: Json) {
    found.Arr? && AllEntries(found.items)
  }

  predicate ValueShaped(value: Json, key: string) {
    if key in PER_PAGE_LISTS then value.Arr?
    else if key in WORD_MAPS then value.Obj? && forall w :: w in value.fields ==> PagesShaped(value.fields[w])
    else value.Obj? && forall w :: w in value.fields ==> EntriesShaped(value.fields[w])
  }

  predicate FieldShaped(fields: map<string, Json>, key: string) {
    ValueShaped(Field(fields, key), key)
  }

  predicate DocnamesShaped(fields: map<string, Json>) {
    && "docnames" in fields && fields["docnames"].Arr?
    && forall i :: 0 <= i < |fields["docnames"].items| ==> fields["docnames"].items[i].Str?
  }

  /** The shape Sphinx writes, without which the index cannot be trimmed. */
  predicate Shaped(index: Json) {
    && index.Obj?
    && DocnamesShaped(index.fields)
    && forall key :: key in TRIMMED_KEYS ==> FieldShaped(index.fields, key)
  }

  function Names(fields: map<string, Json>): seq<string>
    requires DocnamesShaped(fields)
  {
    var items := fields["docnames"].items;
    seq(|items|, i requires 0 <= i < |items| => items[i].s)
  }

  // --------------------------------------------------------------- trimming

  /** How many of the first `n` pages are left. */
  function Rank(names: seq<string>, hidden: set<string>, n: nat): nat
    requires n <= |names|
  {
    if n == 0 then 0 else Rank(names, hidden, n - 1) + if names[n - 1] in hidden then 0 else 1
  }

  /** The pages left, numbered afresh in the order they had. */
  function Renumber(names: seq<string>, hidden: set<string>): map<int, int> {
    map n | 0 <= n < |names| && names[n] !in hidden :: Rank(names, hidden, n)
  }

  /** The values at the places that keep a number. */
  function Select<T>(values: seq<T>, renumber: map<int, int>): seq<T> {
    if values == [] then []
    else
      var last := |values| - 1;
      Select(values[..last], renumber) + if last in renumber then [values[last]] else []
  }

  /** The new numbers of those of `numbers` that are left. */
  function KeptNumbers(numbers: seq<Json>, renumber: map<int, int>): seq<Json>
    requires AllPages(numbers)
  {
    if numbers == [] then []
    else
      var last := numbers[|numbers| - 1];
      var page := PageNumber(last).value;
      KeptNumbers(numbers[..|numbers| - 1], renumber) + if page in renumber then [Int(renumber[page])] else []
  }

  /** A word's pages, renumbered: one page as its number, several as a list, none as None. */
  function RenumberPages(found: Json, renumber: map<int, int>): Option<Json>
    requires PagesShaped(found)
  {
    var kept := KeptNumbers(Numbers(found), renumber);
    if |kept| == 0 then None else if |kept| == 1 then Some(kept[0]) else Some(Arr(kept))
  }

  /** The entries that open with a page left, opening with its new number. */
  function KeptEntries(entries: seq<Json>, renumber: map<int, int>): seq<Json>
    requires AllEntries(entries)
  {
    if entries == [] then []
    else
      var entry := entries[|entries| - 1];
      var page := PageNumber(entry.items[0]).value;
      KeptEntries(entries[..|entries| - 1], renumber)
        + if page in renumber then [Arr([Int(renumber[page])] + entry.items[1..])] else []
  }

  function LeftEntries(found: Json, renumber: map<int, int>): seq<Json>
    requires EntriesShaped(found)
  {
    KeptEntries(found.items, renumber)
  }

  /** The loop that builds a name's entries for the pages left. */
  method RenumberEntries(found: Json, renumber: map<int, int>) returns (kept: Option<seq<Json>>)
    ensures kept.Some? <==> EntriesShaped(found)
    ensures kept.Some? ==> kept.value == KeptEntries(found.items, renumber)
  {
    if !found.Arr? {
      return None;
    }
    var entries: seq<Json> := [];
    for i := 0 to |found.items|
      invariant AllEntries(found.items[..i])
      invariant entries == KeptEntries(found.items[..i], renumber)
    {
      var entry := found.items[i];
      if !entry.Arr? || |entry.items| == 0 || PageNumber(entry.items[0]).None? {
        return None;
      }
      assert found.items[..i + 1][..i] == found.items[..i];
      var page := PageNumber(entry.items[0]).value;
      if page in renumber {
        entries := entries + [Arr([Int(renumber[page])] + entry.items[1..])];
      }
    }
    assert found.items[..|found.items|] == found.items;
    return Some(entries);
  }

  function TrimWords(words: map<string, Json>, renumber: map<int, int>): map<string, Json>
    requires forall w :: w in words ==> PagesShaped(words[w])
  {
    map w | w in words && RenumberPages(words[w], renumber).Some? :: RenumberPages(words[w], renumber).value
  }

  function TrimEntries(names: map<string, Json>, renumber: map<int, int>): map<string, Json>
    requires forall w :: w in names ==> EntriesShaped(names[w])
  {
    map w | w in names && LeftEntries(names[w], renumber) != [] :: Arr(LeftEntries(names[w], renumber))
  }

  function TrimField(value: Json, key: string, renumber: map<int, int>): Json
    requires key in PER_PAGE_LISTS ==> value.Arr?
    requires key in WORD_MAPS ==> value.Obj? && forall w :: w in value.fields ==> PagesShaped(value.fields[w])
    requires key in ENTRY_MAPS ==> value.Obj? && forall w :: w in value.fields ==> EntriesShaped(value.fields[w])
  {
    if key in PER_PAGE_LISTS then Arr(Select(value.items, renumber))
    else if key in WORD_MAPS then Obj(TrimWords(value.fields, renumber))
    else if key in ENTRY_MAPS then Obj(TrimEntries(value.fields, renumber))
    else value
  }

  datatype IndexError = NotTheShape

  /** Trims the index: every table loses the hidden pages, and the ones left are numbered anew. */
  function TrimIndex(index: Json, hidden: set<string>): Result<Json, IndexError> {
    if !Shaped(index) then Err(NotTheShape)
    else
      var renumber := Renumber(Names(index.fields), hidden);
      Ok(Obj(map key | key in index.fields.Keys + TRIMMED_KEYS :: TrimField(Field(index.fields, key), key, renumber)))
  }

  /** An index is trimmed exactly when each field that is there has its shape; only the docnames have to be there. */
  lemma TrimsIff(index: Json, hidden: set<string>)
    ensures TrimIndex(index, hidden).Ok? <==>
      && index.Obj? && DocnamesShaped(index.fields)
      && forall key :: key in TRIMMED_KEYS && key in index.fields ==> ValueShaped(index.fields[key], key)
  {
    if index.Obj? && DocnamesShaped(index.fields) {
      forall key | key in TRIMMED_KEYS ensures key in index.fields || FieldShaped(index.fields, key) {
        if key !in index.fields && key !in PER_PAGE_LISTS {
          assert Field(index.fields, key) == Obj(map[]);
        }
      }
      forall key | key in TRIMMED_KEYS && key in index.fields
        ensures FieldShaped(index.fields, key) == ValueShaped(index.fields[key], key)
      {
      }
    }
  }

  /** A page number written as a boolean is the number Python takes it for. */
  lemma BooleansAreNumbers(renumber: map<int, int>)
    ensures RenumberPages(Bool(true), renumber) == RenumberPages(Int(1), renumber)
    ensures RenumberPages(Bool(false), renumber) == RenumberPages(Int(0), renumber)
  {
    assert [Bool(true)][..0] == [] && [Bool(false)][..0] == [] && [Int(1)][..0] == [] && [Int(0)][..0] == [];
  }

  // ---------------------------------------------------------------- numbers

  lemma {:induction false} RankGrows(names: seq<string>, hidden: set<string>, m: nat, n: nat)
    requires m <= n <= |names|
    ensures Rank(names, hidden, m) <= Rank(names, hidden, n) <= Rank(names, hidden, m) + (n - m)
  {
    if m < n {
      RankGrows(names, hidden, m, n - 1);
    }
  }

  lemma {:induction false} RankOfPrefix(names: seq<string>, hidden: set<string>, m: nat, n: nat)
    requires n <= m <= |names|
    ensures Rank(names[..m], hidden, n) == Rank(names, hidden, n)
  {
    if n > 0 {
      RankOfPrefix(names, hidden, m, n - 1);
    }
  }

  /** The last value is kept when its page is. */
  lemma SelectLast<T>(values: seq<T>, names: seq<string>, hidden: set<string>)
    requires values != []
    ensures
      var n := |values| - 1;
      var before := Select(values[..n], Renumber(names, hidden));
      Select(values, Renumber(names, hidden)) ==
        if n < |names| && names[n] !in hidden then before + [values[n]] else before
  {
  }

  lemma {:induction false} SelectCount<T>(values: seq<T>, names: seq<string>, hidden: set<string>)
    ensures
      var reach := if |values| < |names| then |values| else |names|;
      |Select(values, Renumber(names, hidden))| == Rank(names, hidden, reach)
  {
    if values != [] {
      SelectCount(values[..|values| - 1], names, hidden);
      SelectLast(values, names, hidden);
    }
  }

  lemma {:induction false} SelectPlace<T>(values: seq<T>, names: seq<string>, hidden: set<string>, n: nat)
    requires n < |values| && n < |names| && names[n] !in hidden
    ensures
      var kept := Select(values, Renumber(names, hidden));
      var place := Rank(names, hidden, n);
      place < |kept| && kept[place] == values[n]
  {
    var last := |values| - 1;
    SelectLast(values, names, hidden);
    if n < last {
      SelectPlace(values[..last], names, hidden, n);
    } else {
      SelectCount(values[..last], names, hidden);
    }
  }

  lemma SelectPlaces<T>(values: seq<T>, names: seq<string>, hidden: set<string>)
    ensures
      var kept := Select(values, Renumber(names, hidden));
      var reach := if |values| < |names| then |values| else |names|;
      && |kept| == Rank(names, hidden, reach)
      && forall n :: 0 <= n < reach && names[n] !in hidden ==>
           Rank(names, hidden, n) < |kept| && kept[Rank(names, hidden, n)] == values[n]
  {
    SelectCount(values, names, hidden);
    var kept := Select(values, Renumber(names, hidden));
    forall n | 0 <= n < |values| && n < |names| && names[n] !in hidden
      ensures Rank(names, hidden, n) < |kept| && kept[Rank(names, hidden, n)] == values[n]
    {
      SelectPlace(values, names, hidden, n);
    }
  }

  /** The docnames left. */
  function Left(names: seq<string>, hidden: set<string>): seq<string> {
    Select(names, Renumber(names, hidden))
  }

  /** A page left keeps its name under its new number, which is in range. */
  lemma LeftAt(names: seq<string>, hidden: set<string>, n: nat)
    requires n < |names| && names[n] !in hidden
    ensures Rank(names, hidden, n) < |Left(names, hidden)|
    ensures Left(names, hidden)[Rank(names, hidden, n)] == names[n]
  {
    SelectPlaces(names, names, hidden);
  }

  lemma RankWithinLeft(names: seq<string>, hidden: set<string>, n: nat)
    requires n <= |names|
    ensures Rank(names, hidden, n) <= |Left(names, hidden)|
  {
    SelectPlaces(names, names, hidden);
    RankGrows(names, hidden, n, |names|);
  }

  lemma {:induction false} RankTwice(names: seq<string>, first: set<string>, second: set<string>, n: nat)
    requires n <= |names|
    ensures Rank(names, first, n) <= |Left(names, first)|
    ensures Rank(Left(names, first), second, Rank(names, first, n)) == Rank(names, first + second, n)
  {
    RankWithinLeft(names, first, n);
    if n > 0 {
      RankTwice(names, first, second, n - 1);
      var left := Left(names, first);
      var at := Rank(names, first, n - 1);
      if names[n - 1] !in first {
        LeftAt(names, first, n - 1);
        assert Rank(left, second, at + 1) == Rank(left, second, at) + if left[at] in second then 0 else 1;
      }
    }
  }

  /** Renumbering twice is renumbering once for both. */
  lemma RenumberTwice(names: seq<string>, first: set<string>, second: set<string>, n: int)
    ensures
      var once := Renumber(names, first + second);
      var r1 := Renumber(names, first);
      var r2 := Renumber(Left(names, first), second);
      && (n in once <==> n in r1 && r1[n] in r2)
      && (n in once ==> once[n] == r2[r1[n]])
  {
    if 0 <= n < |names| && names[n] !in first {
      LeftAt(names, first, n);
      RankTwice(names, first, second, n);
    }
  }

  /** Two renumberings compose to a third, whatever numbers are looked up. */
  ghost predicate Composes(r1: map<int, int>, r2: map<int, int>, once: map<int, int>) {
    forall n :: (n in once <==> n in r1 && r1[n] in r2) && (n in once ==> once[n] == r2[r1[n]])
  }

  lemma RenumbersCompose(names: seq<string>, first: set<string>, second: set<string>)
    ensures Composes(Renumber(names, first), Renumber(Left(names, first), second), Renumber(names, first + second))
  {
    forall n: int
      ensures
        var once := Renumber(names, first + second);
        var r1 := Renumber(names, first);
        var r2 := Renumber(Left(names, first), second);
        (n in once <==> n in r1 && r1[n] in r2) && (n in once ==> once[n] == r2[r1[n]])
    {
      RenumberTwice(names, first, second, n);
    }
  }

  // ---------------------------------------------------- trimming each field

  predicate InRange(j: Json, pages: nat) { j.Int? && 0 <= j.n < pages }

  /** Integers all, each the number of one of `pages`. */
  predicate AllInRange(numbers: seq<Json>, pages: nat) {
    forall i :: 0 <= i < |numbers| ==> InRange(numbers[i], pages)
  }

  predicate AllEntriesInRange(entries: seq<Json>, pages: nat) {
    forall i :: 0 <= i < |entries| ==> EntryShaped(entries[i]) && InRange(entries[i].items[0], pages)
  }

  predicate RangesTo(renumber: map<int, int>, pages: nat) {
    forall n :: n in renumber ==> 0 <= renumber[n] < pages
  }

  lemma {:induction false} KeptNumbersShaped(numbers: seq<Json>, renumber: map<int, int>)
    requires AllPages(numbers)
    ensures AllPages(KeptNumbers(numbers, renumber))
  {
    if numbers != [] {
      KeptNumbersShaped(numbers[..|numbers| - 1], renumber);
    }
  }

  lemma RenumberedPagesShaped(found: Json, renumber: map<int, int>)
    requires PagesShaped(found)
    ensures
      var pages := RenumberPages(found, renumber);
      pages.Some? ==> PagesShaped(pages.value) && Numbers(pages.value) == KeptNumbers(Numbers(found), renumber)
  {
    KeptNumbersShaped(Numbers(found), renumber);
  }

  lemma {:induction false} KeptEntriesShaped(entries: seq<Json>, renumber: map<int, int>)
    requires AllEntries(entries)
    ensures AllEntries(KeptEntries(entries, renumber))
  {
    if entries != [] {
      KeptEntriesShaped(entries[..|entries| - 1], renumber);
    }
  }

  lemma {:induction false} KeptNumbersTwice(numbers: seq<Json>, r1: map<int, int>, r2: map<int, int>, once: map<int, int>)
    requires Composes(r1, r2, once) && AllPages(numbers)
    ensures AllPages(KeptNumbers(numbers, r1))
    ensures KeptNumbers(KeptNumbers(numbers, r1), r2) == KeptNumbers(numbers, once)
  {
    KeptNumbersShaped(numbers, r1);
    if numbers != [] {
      var init := numbers[..|numbers| - 1];
      KeptNumbersTwice(init, r1, r2, once);
      var page := PageNumber(numbers[|numbers| - 1]).value;
      assert page in once <==> page in r1 && r1[page] in r2;
      var kept := KeptNumbers(numbers, r1);
      if page in r1 {
        assert kept[..|kept| - 1] == KeptNumbers(init, r1);
      } else {
        assert kept == KeptNumbers(init, r1);
      }
    }
  }

  lemma {:induction false} KeptEntriesTwice(entries: seq<Json>, r1: map<int, int>, r2: map<int, int>, once: map<int, int>)
    requires Composes(r1, r2, once) && AllEntries(entries)
    ensures AllEntries(KeptEntries(entries, r1))
    ensures KeptEntries(KeptEntries(entries, r1), r2) == KeptEntries(entries, once)
  {
    KeptEntriesShaped(entries, r1);
    if entries != [] {
      var init := entries[..|entries| - 1];
      var entry := entries[|entries| - 1];
      KeptEntriesTwice(init, r1, r2, once);
      var page := PageNumber(entry.items[0]).value;
      assert page in once <==> page in r1 && r1[page] in r2;
      var kept := KeptEntries(entries, r1);
      if page in r1 {
        assert kept[..|kept| - 1] == KeptEntries(init, r1);
        assert ([Int(r1[page])] + entry.items[1..])[1..] == entry.items[1..];
      } else {
        assert kept == KeptEntries(init, r1);
      }
    }
  }

  lemma {:induction false} SelectTwice<T>(values: seq<T>, names: seq<string>, first: set<string>, second: set<string>)
    ensures Select(Select(values, Renumber(names, first)), Renumber(Left(names, first), second))
         == Select(values, Renumber(names, first + second))
  {
    if values != [] {
      var last := |values| - 1;
      SelectTwice(values[..last], names, first, second);
      SelectPlaces(values[..last], names, first);
      RenumberTwice(names, first, second, last);
      var once := Select(values, Renumber(names, first));
      var init := Select(values[..last], Renumber(names, first));
      if last < |names| && names[last] !in first {
        assert once == init + [values[last]];
        assert once[..|once| - 1] == init;
        assert |init| == Rank(names, first, last);
      } else {
        assert once == init;
      }
    }
  }

  lemma PagesTwice(found: Json, r1: map<int, int>, r2: map<int, int>, once: map<int, int>)
    requires Composes(r1, r2, once) && PagesShaped(found)
    ensures
      var pages := RenumberPages(found, r1);
      && (pages.Some? ==> PagesShaped(pages.value) && RenumberPages(pages.value, r2) == RenumberPages(found, once))
      && (pages.None? ==> RenumberPages(found, once).None?)
  {
    RenumberedPagesShaped(found, r1);
    KeptNumbersTwice(Numbers(found), r1, r2, once);
  }

  /** What trimming leaves of a word's pages has their shape still. */
  lemma TrimmedWordsShaped(words: map<string, Json>, r1: map<int, int>)
    requires forall w :: w in words ==> PagesShaped(words[w])
    ensures forall w :: w in TrimWords(words, r1) ==> PagesShaped(TrimWords(words, r1)[w])
  {
    var one := TrimWords(words, r1);
    forall w | w in one ensures PagesShaped(one[w]) {
      RenumberedPagesShaped(words[w], r1);
    }
  }

  /** Two tables say the same of `w`. */
  predicate SameAt(a: map<string, Json>, b: map<string, Json>, w: string) {
    (w in a <==> w in b) && (w in a && w in b ==> a[w] == b[w])
  }

  lemma SameEverywhere(a: map<string, Json>, b: map<string, Json>)
    requires forall w :: SameAt(a, b, w)
    ensures a == b
  {
    forall w ensures w in a <==> w in b {
      assert SameAt(a, b, w);
    }
    forall w | w in a ensures a[w] == b[w] {
      assert SameAt(a, b, w);
    }
  }

  lemma WordTwice(words: map<string, Json>, one: map<string, Json>, r1: map<int, int>, r2: map<int, int>,
                  once: map<int, int>, w: string)
    requires Composes(r1, r2, once) && (forall w :: w in words ==> PagesShaped(words[w]))
    requires one == TrimWords(words, r1) && forall w :: w in one ==> PagesShaped(one[w])
    ensures SameAt(TrimWords(one, r2), TrimWords(words, once), w)
  {
    if w in words {
      PagesTwice(words[w], r1, r2, once);
    }
  }

  lemma TrimWordsTwice(words: map<string, Json>, r1: map<int, int>, r2: map<int, int>, once: map<int, int>)
    requires Composes(r1, r2, once) && forall w :: w in words ==> PagesShaped(words[w])
    ensures forall w :: w in TrimWords(words, r1) ==> PagesShaped(TrimWords(words, r1)[w])
    ensures TrimWords(TrimWords(words, r1), r2) == TrimWords(words, once)
  {
    TrimmedWordsShaped(words, r1);
    var one := TrimWords(words, r1);
    forall w ensures SameAt(TrimWords(one, r2), TrimWords(words, once), w) {
      WordTwice(words, one, r1, r2, once, w);
    }
    SameEverywhere(TrimWords(one, r2), TrimWords(words, once));
  }

  lemma TrimmedEntriesShaped(names: map<string, Json>, r1: map<int, int>, r2: map<int, int>, once: map<int, int>)
    requires Composes(r1, r2, once) && forall w :: w in names ==> EntriesShaped(names[w])
    ensures forall w :: w in TrimEntries(names, r1) ==> EntriesShaped(TrimEntries(names, r1)[w])
  {
    var one := TrimEntries(names, r1);
    forall w | w in one ensures EntriesShaped(one[w]) {
      KeptEntriesTwice(names[w].items, r1, r2, once);
    }
  }

  lemma NameTwice(names: map<string, Json>, one: map<string, Json>, r1: map<int, int>, r2: map<int, int>,
                  once: map<int, int>, w: string)
    requires Composes(r1, r2, once) && (forall w :: w in names ==> EntriesShaped(names[w]))
    requires one == TrimEntries(names, r1) && forall w :: w in one ==> EntriesShaped(one[w])
    ensures SameAt(TrimEntries(one, r2), TrimEntries(names, once), w)
  {
    if w in names {
      assert EntriesShaped(names[w]);
      KeptEntriesTwice(names[w].items, r1, r2, once);
    }
  }

  lemma TrimEntriesTwice(names: map<string, Json>, r1: map<int, int>, r2: map<int, int>, once: map<int, int>)
    requires Composes(r1, r2, once) && forall w :: w in names ==> EntriesShaped(names[w])
    ensures forall w :: w in TrimEntries(names, r1) ==> EntriesShaped(TrimEntries(names, r1)[w])
    ensures TrimEntries(TrimEntries(names, r1), r2) == TrimEntries(names, once)
  {
    TrimmedEntriesShaped(names, r1, r2, once);
    var one := TrimEntries(names, r1);
    forall w ensures SameAt(TrimEntries(one, r2), TrimEntries(names, once), w) {
      NameTwice(names, one, r1, r2, once, w);
    }
    SameEverywhere(TrimEntries(one, r2), TrimEntries(names, once));
  }

  // ------------------------------------------------------ the trimmed index

  /** Trimming answers an index of the same shape, over the docnames left. */
  lemma TrimmedIsShaped(index: Json, hidden: set<string>)
    requires Shaped(index)
    ensures
      var trimmed := TrimIndex(index, hidden).value;
      Shaped(trimmed) && Names(trimmed.fields) == Left(Names(index.fields), hidden)
  {
    var names := Names(index.fields);
    var r := Renumber(names, hidden);
    var trimmed := TrimIndex(index, hidden).value;
    var items := index.fields["docnames"].items;
    assert "docnames" in TRIMMED_KEYS;
    SelectOfNames(items, names, r);
    forall key | key in TRIMMED_KEYS ensures FieldShaped(trimmed.fields, key) {
      assert FieldShaped(index.fields, key);
      var value := Field(index.fields, key);
      if key in WORD_MAPS {
        forall w | w in TrimWords(value.fields, r) ensures PagesShaped(TrimWords(value.fields, r)[w]) {
          RenumberedPagesShaped(value.fields[w], r);
        }
      } else if key in ENTRY_MAPS {
        forall w | w in TrimEntries(value.fields, r) ensures EntriesShaped(TrimEntries(value.fields, r)[w]) {
          KeptEntriesShaped(value.fields[w].items, r);
        }
      }
    }
  }

  lemma {:induction false} SelectOfNames(items: seq<Json>, names: seq<string>, renumber: map<int, int>)
    requires |items| == |names| && forall i :: 0 <= i < |items| ==> items[i] == Str(names[i])
    ensures
      var kept := Select(items, renumber);
      |kept| == |Select(names, renumber)| && forall i :: 0 <= i < |kept| ==> kept[i] == Str(Select(names, renumber)[i])
  {
    if items != [] {
      SelectOfNames(items[..|items| - 1], names[..|names| - 1], renumber);
    }
  }

  lemma TrimmedField(index: Json, hidden: set<string>, key: string)
    requires Shaped(index) && key in TRIMMED_KEYS
    ensures FieldShaped(index.fields, key)
    ensures Field(TrimIndex(index, hidden).value.fields, key)
         == TrimField(Field(index.fields, key), key, Renumber(Names(index.fields), hidden))
  {
    assert FieldShaped(index.fields, key);
  }

  /** A value trimmed twice is the value trimmed once for both. */
  lemma TrimValueTwice(value: Json, key: string, names: seq<string>, first: set<string>, second: set<string>)
    requires ValueShaped(value, key) && key in TRIMMED_KEYS
    ensures
      var trimmed := TrimField(value, key, Renumber(names, first));
      && ValueShaped(trimmed, key)
      && TrimField(trimmed, key, Renumber(Left(names, first), second)) == TrimField(value, key, Renumber(names, first + second))
  {
    var r1 := Renumber(names, first);
    var r2 := Renumber(Left(names, first), second);
    var once := Renumber(names, first + second);
    RenumbersCompose(names, first, second);
    if key in PER_PAGE_LISTS {
      SelectTwice(value.items, names, first, second);
    } else if key in WORD_MAPS {
      TrimWordsTwice(value.fields, r1, r2, once);
    } else {
      TrimEntriesTwice(value.fields, r1, r2, once);
    }
  }

  lemma TrimFieldTwice(index: Json, first: set<string>, second: set<string>, key: string)
    requires Shaped(index) && key in TRIMMED_KEYS
    ensures Shaped(TrimIndex(index, first).value)
    ensures Field(TrimIndex(TrimIndex(index, first).value, second).value.fields, key)
         == Field(TrimIndex(index, first + second).value.fields, key)
  {
    TrimmedIsShaped(index, first);
    TrimmedField(index, first, key);
    TrimmedField(TrimIndex(index, first).value, second, key);
    TrimmedField(index, first + second, key);
    TrimValueTwice(Field(index.fields, key), key, Names(index.fields), first, second);
  }

  lemma UntrimmedField(index: Json, hidden: set<string>, key: string)
    requires Shaped(index)
    ensures
      var fields := TrimIndex(index, hidden).value.fields;
      && fields.Keys == index.fields.Keys + TRIMMED_KEYS
      && (key in index.fields && key !in TRIMMED_KEYS ==> fields[key] == index.fields[key])
  {
  }

  /** Two indexes with the same fields are the same. */
  lemma SameFields(a: Json, b: Json)
    requires a.Obj? && b.Obj? && a.fields.Keys == b.fields.Keys
    requires forall key :: key in a.fields ==> a.fields[key] == b.fields[key]
    ensures a == b
  {
    assert a.fields == b.fields;
  }

  lemma FieldTwice(index: Json, first: set<string>, second: set<string>, key: string)
    requires Shaped(index)
    ensures Shaped(TrimIndex(index, first).value)
    ensures
      var twice := TrimIndex(TrimIndex(index, first).value, second).value.fields;
      var once := TrimIndex(index, first + second).value.fields;
      twice.Keys == once.Keys && (key in once ==> twice[key] == once[key])
  {
    TrimmedIsShaped(index, first);
    UntrimmedField(index, first, key);
    UntrimmedField(TrimIndex(index, first).value, second, key);
    UntrimmedField(index, first + second, key);
    if key in TRIMMED_KEYS {
      TrimFieldTwice(index, first, second, key);
    }
  }

  /** Trimming for one set of pages and then another is trimming once for both. */
  lemma TrimTwice(index: Json, first: set<string>, second: set<string>)
    requires Shaped(index)
    ensures TrimIndex(TrimIndex(index, first).value, second) == TrimIndex(index, first + second)
  {
    FieldTwice(index, first, second, "");
    var twice := TrimIndex(TrimIndex(index, first).value, second).value;
    var once := TrimIndex(index, first + second).value;
    forall key | key in twice.fields ensures twice.fields[key] == once.fields[key] {
      FieldTwice(index, first, second, key);
    }
    SameFields(twice, once);
  }

  // -------------------------------------------------------------- searching

  /** The docnames of the pages numbered, in order; a number no page has finds nothing. */
  function Docs(numbers: seq<Json>, names: seq<string>): seq<string>
    requires AllPages(numbers)
  {
    if numbers == [] then []
    else
      var page := PageNumber(numbers[|numbers| - 1]).value;
      Docs(numbers[..|numbers| - 1], names) + if 0 <= page < |names| then [names[page]] else []
  }

  /** The pages a word is found on, in the index's order. */
  function SearchWord(index: Json, key: string, word: string): seq<string>
    requires Shaped(index) && key in WORD_MAPS
  {
    assert key in TRIMMED_KEYS && FieldShaped(index.fields, key);
    var words := Field(index.fields, key).fields;
    if word in words then Docs(Numbers(words[word]), Names(index.fields)) else []
  }

  /** The entries of a name: each with the docname of its page and the rest of the entry. */
  function EntryDocs(entries: seq<Json>, names: seq<string>): seq<(string, seq<Json>)>
    requires AllEntries(entries)
  {
    if entries == [] then []
    else
      var entry := entries[|entries| - 1];
      var page := PageNumber(entry.items[0]).value;
      EntryDocs(entries[..|entries| - 1], names) + if 0 <= page < |names| then [(names[page], entry.items[1..])] else []
  }

  function SearchName(index: Json, key: string, name: string): seq<(string, seq<Json>)>
    requires Shaped(index) && key in ENTRY_MAPS
  {
    assert key in TRIMMED_KEYS && FieldShaped(index.fields, key);
    var found := Field(index.fields, key).fields;
    if name in found then EntryDocs(found[name].items, Names(index.fields)) else []
  }

  /** An answer without the hidden pages, in the order it had. */
  function WithoutDocs(docs: seq<string>, hidden: set<string>): seq<string> {
    if docs == [] then []
    else
      var last := docs[|docs| - 1];
      WithoutDocs(docs[..|docs| - 1], hidden) + if last in hidden then [] else [last]
  }

  function WithoutEntries(found: seq<(string, seq<Json>)>, hidden: set<string>): seq<(string, seq<Json>)> {
    if found == [] then []
    else
      var last := found[|found| - 1];
      WithoutEntries(found[..|found| - 1], hidden) + if last.0 in hidden then [] else [last]
  }

  lemma {:induction false} KeptNumbersFind(numbers: seq<Json>, names: seq<string>, hidden: set<string>)
    requires AllPages(numbers)
    ensures AllPages(KeptNumbers(numbers, Renumber(names, hidden)))
    ensures Docs(KeptNumbers(numbers, Renumber(names, hidden)), Left(names, hidden)) == WithoutDocs(Docs(numbers, names), hidden)
  {
    var r := Renumber(names, hidden);
    KeptNumbersShaped(numbers, r);
    if numbers != [] {
      var init := numbers[..|numbers| - 1];
      KeptNumbersFind(init, names, hidden);
      var page := PageNumber(numbers[|numbers| - 1]).value;
      var kept := KeptNumbers(numbers, r);
      var docs := Docs(numbers, names);
      if 0 <= page < |names| {
        assert docs == Docs(init, names) + [names[page]];
        assert docs[..|docs| - 1] == Docs(init, names);
        if names[page] !in hidden {
          LeftAt(names, hidden, page);
          assert kept == KeptNumbers(init, r) + [Int(r[page])];
          assert kept[..|kept| - 1] == KeptNumbers(init, r);
          assert Docs(kept, Left(names, hidden)) == Docs(KeptNumbers(init, r), Left(names, hidden)) + [names[page]];
        } else {
          assert kept == KeptNumbers(init, r);
        }
      } else {
        assert kept == KeptNumbers(init, r) && docs == Docs(init, names);
      }
    }
  }

  lemma {:induction false} KeptEntriesFind(entries: seq<Json>, names: seq<string>, hidden: set<string>)
    requires AllEntries(entries)
    ensures AllEntries(KeptEntries(entries, Renumber(names, hidden)))
    ensures EntryDocs(KeptEntries(entries, Renumber(names, hidden)), Left(names, hidden))
         == WithoutEntries(EntryDocs(entries, names), hidden)
  {
    var r := Renumber(names, hidden);
    KeptEntriesShaped(entries, r);
    if entries != [] {
      var init := entries[..|entries| - 1];
      var entry := entries[|entries| - 1];
      KeptEntriesFind(init, names, hidden);
      var page := PageNumber(entry.items[0]).value;
      var kept := KeptEntries(entries, r);
      var docs := EntryDocs(entries, names);
      if 0 <= page < |names| {
        assert docs == EntryDocs(init, names) + [(names[page], entry.items[1..])];
        assert docs[..|docs| - 1] == EntryDocs(init, names);
        if names[page] !in hidden {
          LeftAt(names, hidden, page);
          var moved := Arr([Int(r[page])] + entry.items[1..]);
          assert moved.items[1..] == entry.items[1..];
          assert kept == KeptEntries(init, r) + [moved];
          assert kept[..|kept| - 1] == KeptEntries(init, r);
          assert EntryDocs(kept, Left(names, hidden))
              == EntryDocs(KeptEntries(init, r), Left(names, hidden)) + [(names[page], entry.items[1..])];
        } else {
          assert kept == KeptEntries(init, r);
        }
      } else {
        assert kept == KeptEntries(init, r) && docs == EntryDocs(init, names);
      }
    }
  }

  /** Searching the trimmed index for a word answers as the full one, without the hidden pages. */
  lemma TrimmedWordSearch(index: Json, hidden: set<string>, key: string, word: string)
    requires Shaped(index) && key in WORD_MAPS
    ensures Shaped(TrimIndex(index, hidden).value)
    ensures SearchWord(TrimIndex(index, hidden).value, key, word) == WithoutDocs(SearchWord(index, key, word), hidden)
  {
    TrimmedIsShaped(index, hidden);
    assert key in TRIMMED_KEYS && FieldShaped(index.fields, key);
    var names := Names(index.fields);
    var words := Field(index.fields, key).fields;
    var trimmed := TrimIndex(index, hidden).value;
    assert Field(trimmed.fields, key) == Obj(TrimWords(words, Renumber(names, hidden)));
    if word in words {
      RenumberedPagesShaped(words[word], Renumber(names, hidden));
      KeptNumbersFind(Numbers(words[word]), names, hidden);
    }
  }

  /** Looking up a name in the trimmed index answers as the full one, without the hidden pages. */
  lemma TrimmedNameSearch(index: Json, hidden: set<string>, key: string, name: string)
    requires Shaped(index) && key in ENTRY_MAPS
    ensures Shaped(TrimIndex(index, hidden).value)
    ensures SearchName(TrimIndex(index, hidden).value, key, name) == WithoutEntries(SearchName(index, key, name), hidden)
  {
    TrimmedIsShaped(index, hidden);
    assert key in TRIMMED_KEYS && FieldShaped(index.fields, key);
    var names := Names(index.fields);
    var found := Field(index.fields, key).fields;
    var trimmed := TrimIndex(index, hidden).value;
    assert Field(trimmed.fields, key) == Obj(TrimEntries(found, Renumber(names, hidden)));
    if name in found {
      KeptEntriesFind(found[name].items, names, hidden);
    }
  }

  // ---------------------------------------------------------- what is dropped

  lemma {:induction false} AsManyNumbersAsDocs(numbers: seq<Json>, names: seq<string>, hidden: set<string>)
    requires AllPages(numbers)
    ensures |KeptNumbers(numbers, Renumber(names, hidden))| == |WithoutDocs(Docs(numbers, names), hidden)|
  {
    if numbers != [] {
      var init, page := numbers[..|numbers| - 1], PageNumber(numbers[|numbers| - 1]).value;
      AsManyNumbersAsDocs(init, names, hidden);
      if 0 <= page < |names| {
        assert Docs(numbers, names) == Docs(init, names) + [names[page]];
        assert Docs(numbers, names)[..|Docs(init, names)|] == Docs(init, names);
      } else {
        assert Docs(numbers, names) == Docs(init, names);
      }
    }
  }

  lemma {:induction false} AsManyEntriesAsFound(entries: seq<Json>, names: seq<string>, hidden: set<string>)
    requires AllEntries(entries)
    ensures |KeptEntries(entries, Renumber(names, hidden))| == |WithoutEntries(EntryDocs(entries, names), hidden)|
  {
    if entries != [] {
      var init, page := entries[..|entries| - 1], PageNumber(entries[|entries| - 1].items[0]).value;
      AsManyEntriesAsFound(init, names, hidden);
      if 0 <= page < |names| {
        var found := (names[page], entries[|entries| - 1].items[1..]);
        assert EntryDocs(entries, names) == EntryDocs(init, names) + [found];
        assert EntryDocs(entries, names)[..|EntryDocs(init, names)|] == EntryDocs(init, names);
      } else {
        assert EntryDocs(entries, names) == EntryDocs(init, names);
      }
    }
  }

  /** The fields of the trimmed index under `key`. */
  function TrimmedMap(index: Json, hidden: set<string>, key: string): map<string, Json>
    requires Shaped(index) && key in WORD_MAPS + ENTRY_MAPS
  {
    assert key in TRIMMED_KEYS && FieldShaped(index.fields, key);
    Field(TrimIndex(index, hidden).value.fields, key).fields
  }

  /**
   A word is left in the trimmed index exactly when one of its pages is: with one page's number, or with a list of
   several.
   */
  lemma WordLeftIff(index: Json, hidden: set<string>, key: string, word: string)
    requires Shaped(index) && key in WORD_MAPS
    ensures
      var left := WithoutDocs(SearchWord(index, key, word), hidden);
      var words := TrimmedMap(index, hidden, key);
      && (word in words <==> left != [])
      && (word in words ==> (words[word].Int? <==> |left| == 1) && (words[word].Arr? <==> |left| > 1))
  {
    assert key in TRIMMED_KEYS && FieldShaped(index.fields, key);
    TrimmedField(index, hidden, key);
    var names, words := Names(index.fields), Field(index.fields, key).fields;
    if word in words {
      AsManyNumbersAsDocs(Numbers(words[word]), names, hidden);
      KeptNumbersAreNumbers(Numbers(words[word]), Renumber(names, hidden));
    }
  }

  lemma {:induction false} KeptNumbersAreNumbers(numbers: seq<Json>, renumber: map<int, int>)
    requires AllPages(numbers)
    ensures forall i :: 0 <= i < |KeptNumbers(numbers, renumber)| ==> KeptNumbers(numbers, renumber)[i].Int?
  {
    if numbers != [] {
      KeptNumbersAreNumbers(numbers[..|numbers| - 1], renumber);
    }
  }

  /** A name is left in the trimmed index exactly when one of its entries is on a page left. */
  lemma NameLeftIff(index: Json, hidden: set<string>, key: string, name: string)
    requires Shaped(index) && key in ENTRY_MAPS
    ensures name in TrimmedMap(index, hidden, key) <==> WithoutEntries(SearchName(index, key, name), hidden) != []
  {
    assert key in TRIMMED_KEYS && FieldShaped(index.fields, key);
    TrimmedField(index, hidden, key);
    var names, found := Names(index.fields), Field(index.fields, key).fields;
    if name in found {
      AsManyEntriesAsFound(found[name].items, names, hidden);
    }
  }

  lemma {:induction false} LeftIsWithout(names: seq<string>, all: seq<string>, hidden: set<string>)
    requires names <= all
    ensures Select(names, Renumber(all, hidden)) == WithoutDocs(names, hidden)
  {
    if names != [] {
      LeftIsWithout(names[..|names| - 1], all, hidden);
    }
  }

  /** The pages of the trimmed index are those of the full one, without the hidden ones. */
  lemma TrimmedDocnames(index: Json, hidden: set<string>)
    requires Shaped(index)
    ensures Shaped(TrimIndex(index, hidden).value)
    ensures Names(TrimIndex(index, hidden).value.fields) == WithoutDocs(Names(index.fields), hidden)
  {
    TrimmedIsShaped(index, hidden);
    LeftIsWithout(Names(index.fields), Names(index.fields), hidden);
  }

  /** Every per-page list has a value for each page left that had one, and no more. */
  lemma PerPageListLength(index: Json, hidden: set<string>, key: string)
    requires Shaped(index) && key in PER_PAGE_LISTS && Field(index.fields, key).Arr?
    ensures
      var names, values := Names(index.fields), Field(index.fields, key).items;
      var trimmed := Field(TrimIndex(index, hidden).value.fields, key);
      var reach := if |values| < |names| then |values| else |names|;
      trimmed.Arr? && |trimmed.items| == |WithoutDocs(names[..reach], hidden)|
  {
    var names, values := Names(index.fields), Field(index.fields, key).items;
    var reach := if |values| < |names| then |values| else |names|;
    TrimmedField(index, hidden, key);
    SelectCount(values, names, hidden);
    SelectCount(names[..reach], names, hidden);
    LeftIsWithout(names[..reach], names, hidden);
  }

  lemma {:induction false} KeptNumbersInRange(numbers: seq<Json>, renumber: map<int, int>, pages: nat)
    requires AllPages(numbers) && RangesTo(renumber, pages)
    ensures AllInRange(KeptNumbers(numbers, renumber), pages)
  {
    if numbers != [] {
      KeptNumbersInRange(numbers[..|numbers| - 1], renumber, pages);
    }
  }

  lemma {:induction false} KeptEntriesInRange(entries: seq<Json>, renumber: map<int, int>, pages: nat)
    requires AllEntries(entries) && RangesTo(renumber, pages)
    ensures AllEntriesInRange(KeptEntries(entries, renumber), pages)
  {
    if entries != [] {
      KeptEntriesInRange(entries[..|entries| - 1], renumber, pages);
    }
  }

  lemma RenumberInRange(names: seq<string>, hidden: set<string>)
    ensures RangesTo(Renumber(names, hidden), |Left(names, hidden)|)
  {
    var r := Renumber(names, hidden);
    forall n | n in r ensures 0 <= r[n] < |Left(names, hidden)| {
      LeftAt(names, hidden, n);
    }
  }

  /** Every number a word is left on in the trimmed index is a page's. */
  lemma TrimmedWordsInRange(index: Json, hidden: set<string>, key: string, word: string)
    requires Shaped(index) && key in WORD_MAPS
    requires word in Field(TrimIndex(index, hidden).value.fields, key).fields
    ensures
      var found := Field(TrimIndex(index, hidden).value.fields, key).fields[word];
      AllInRange(Numbers(found), |Left(Names(index.fields), hidden)|)
  {
    var names := Names(index.fields);
    TrimmedField(index, hidden, key);
    RenumberInRange(names, hidden);
    var found := Field(index.fields, key).fields[word];
    RenumberedPagesShaped(found, Renumber(names, hidden));
    KeptNumbersInRange(Numbers(found), Renumber(names, hidden), |Left(names, hidden)|);
  }

  /** Every entry left of a name opens with a page's number. */
  lemma TrimmedEntriesInRange(index: Json, hidden: set<string>, key: string, name: string)
    requires Shaped(index) && key in ENTRY_MAPS
    requires name in Field(TrimIndex(index, hidden).value.fields, key).fields
    ensures
      var found := Field(TrimIndex(index, hidden).value.fields, key).fields[name];
      found.Arr? && AllEntriesInRange(found.items, |Left(Names(index.fields), hidden)|)
  {
    var names := Names(index.fields);
    TrimmedField(index, hidden, key);
    RenumberInRange(names, hidden);
    var found := Field(index.fields, key).fields[name];
    KeptEntriesInRange(found.items, Renumber(names, hidden), |Left(names, hidden)|);
  }

  /** Every per-page list keeps the value of a page left, at the page's new number. */
  lemma PerPageListsAligned(index: Json, hidden: set<string>, key: string, n: nat)
    requires Shaped(index) && key in PER_PAGE_LISTS
    requires n < |Names(index.fields)| && Names(index.fields)[n] !in hidden
    requires Field(index.fields, key).Arr? && n < |Field(index.fields, key).items|
    ensures
      var trimmed := Field(TrimIndex(index, hidden).value.fields, key);
      var page := Rank(Names(index.fields), hidden, n);
      && trimmed.Arr? && page < |trimmed.items| && trimmed.items[page] == Field(index.fields, key).items[n]
      && page < |Left(Names(index.fields), hidden)| && Left(Names(index.fields), hidden)[page] == Names(index.fields)[n]
  {
    SelectPlaces(Field(index.fields, key).items, Names(index.fields), hidden);
    LeftAt(Names(index.fields), hidden, n);
  }
}
