/**
 * The list of stored sets: deleting, duplicating and importing sets, the
 * search-and-tag filter with its three sort orders, the list of all tags,
 * and the file name a set is exported under.
 */
module FlashcardSetList {
  import opened Strings
  import opened Flashcards

  /* ---------- Search and tag filter ---------- */

  /** Some tag, lowercased, contains `needle`. */
  predicate SomeTagContains(tags: seq<string>, needle: string) {
    exists i :: 0 <= i < |tags| && Contains(ToLower(tags[i]), needle)
  }

  /** The search box: the lowercased name, or some lowercased tag, contains
      the lowercased search text. */
  predicate MatchesSearch(s: FlashcardSet, search: string) {
    Contains(ToLower(s.name), ToLower(search))
    || (s.tags.Some? && SomeTagContains(s.tags.value, ToLower(search)))
  }

  /** The tag selector: no tag chosen, or the chosen tag is one of the set's tags. */
  predicate MatchesTag(s: FlashcardSet, filterTag: string) {
    filterTag == [] || (s.tags.Some? && filterTag in s.tags.value)
  }

  predicate Matches(s: FlashcardSet, search: string, filterTag: string) {
    MatchesSearch(s, search) && MatchesTag(s, filterTag)
  }

  /** The sets the list shows before sorting. */
  function FilterSets(sets: seq<FlashcardSet>, search: string, filterTag: string): (r: seq<FlashcardSet>)
    ensures |r| <= |sets|
    ensures multiset(r) <= multiset(sets)
    ensures forall s :: s in r <==> s in sets && Matches(s, search, filterTag)
  {
    Filter(sets, s => Matches(s, search, filterTag))
  }

  /** With an empty search and no tag chosen every set is shown. */
  lemma EmptyFiltersKeepAll(sets: seq<FlashcardSet>)
    ensures FilterSets(sets, "", "") == sets
  {
    if sets != [] {
      assert ToLower("") == "";
      assert Matches(sets[0], "", "");
      EmptyFiltersKeepAll(sets[1..]);
      assert [sets[0]] + sets[1..] == sets;
    }
  }

  /* ---------- Sorting ---------- */

  /** `cmp` orders its arguments consistently: any two are comparable one way
      or the other, and "not after" is transitive. */
  ghost predicate TotalPreorder<T(!new)>(cmp: (T, T) -> int) {
    && (forall a, b :: cmp(a, b) <= 0 || cmp(b, a) <= 0)
    && (forall a, b, c :: cmp(a, b) <= 0 && cmp(b, c) <= 0 ==> cmp(a, c) <= 0)
  }

  /** `t` is in order under `cmp`: no element is after a later one. */
  predicate Sorted<T>(t: seq<T>, cmp: (T, T) -> int) {
    forall i, j :: 0 <= i < j < |t| ==> cmp(t[i], t[j]) <= 0
  }

  /** The comparator the list sorts with, by the sort key: "name" by the
      name comparison, "cards" by descending card count, anything else
      ("recent" included) by descending creation time. */
  function Comparator(sortBy: string, nameCmp: (string, string) -> int): (FlashcardSet, FlashcardSet) -> int {
    if sortBy == "name" then (a: FlashcardSet, b: FlashcardSet) => nameCmp(a.name, b.name)
    else if sortBy == "cards" then (a: FlashcardSet, b: FlashcardSet) => |b.cards| - |a.cards|
    else (a: FlashcardSet, b: FlashcardSet) => b.created - a.created
  }

  /** Every sort key gives a consistent order, the name key as long as the
      name comparison is one. */
  lemma ComparatorIsPreorder(sortBy: string, nameCmp: (string, string) -> int)
    requires TotalPreorder(nameCmp)
    ensures TotalPreorder(Comparator(sortBy, nameCmp))
  {
    var cmp := Comparator(sortBy, nameCmp);
    forall a, b
      ensures cmp(a, b) <= 0 || cmp(b, a) <= 0
    {
      if sortBy == "name" {
        assert cmp(a, b) == nameCmp(a.name, b.name) && cmp(b, a) == nameCmp(b.name, a.name);
      }
    }
    forall a, b, c | cmp(a, b) <= 0 && cmp(b, c) <= 0
      ensures cmp(a, c) <= 0
    {
      if sortBy == "name" {
        assert cmp(a, b) == nameCmp(a.name, b.name) && cmp(b, c) == nameCmp(b.name, c.name);
        assert cmp(a, c) == nameCmp(a.name, c.name);
      }
    }
  }

  /** `x` goes behind the last element of the sorted `t` that is not after
      it, so equal elements keep their order. */
  function Insert<T>(x: T, t: seq<T>, cmp: (T, T) -> int): seq<T> {
    if t == [] then [x]
    else if cmp(t[|t| - 1], x) <= 0 then t + [x]
    else Insert(x, t[..|t| - 1], cmp) + [t[|t| - 1]]
  }

  /** Stable sorting by insertion, front to back: what `sort` returns for
      a consistent comparator. */
  function InsertionSort<T>(s: seq<T>, cmp: (T, T) -> int): seq<T> {
    if s == [] then []
    else Insert(s[|s| - 1], InsertionSort(s[..|s| - 1], cmp), cmp)
  }

  /** Inserting adds `x` and nothing else. */
  lemma {:induction false} InsertPermutes<T>(x: T, t: seq<T>, cmp: (T, T) -> int)
    ensures multiset(Insert(x, t, cmp)) == multiset(t) + multiset{x}
  {
    if t != [] && cmp(t[|t| - 1], x) > 0 {
      InsertPermutes(x, t[..|t| - 1], cmp);
      assert t == t[..|t| - 1] + [t[|t| - 1]];
    }
  }

  /** Sorting rearranges its input: the result is a permutation of it. */
  lemma {:induction false} InsertionSortPermutes<T>(s: seq<T>, cmp: (T, T) -> int)
    ensures multiset(InsertionSort(s, cmp)) == multiset(s)
  {
    if s != [] {
      var init := s[..|s| - 1];
      InsertionSortPermutes(init, cmp);
      InsertionSortStepPermutes(init, s[|s| - 1], cmp);
      assert init + [s[|s| - 1]] == s;
    }
  }

  lemma InsertionSortStepPermutes<T>(init: seq<T>, last: T, cmp: (T, T) -> int)
    requires multiset(InsertionSort(init, cmp)) == multiset(init)
    ensures multiset(InsertionSort(init + [last], cmp)) == multiset(init + [last])
  {
    var s := init + [last];
    assert s[..|s| - 1] == init;
    InsertPermutes(last, InsertionSort(init, cmp), cmp);
  }

  lemma {:induction false} InsertSorted<T(!new)>(x: T, t: seq<T>, cmp: (T, T) -> int)
    requires TotalPreorder(cmp) && Sorted(t, cmp)
    ensures Sorted(Insert(x, t, cmp), cmp)
  {
    if t == [] {
      assert Insert(x, t, cmp) == [x];
    } else {
      var init := t[..|t| - 1];
      var last := t[|t| - 1];
      if cmp(last, x) <= 0 {
        forall k | 0 <= k < |t|
          ensures cmp(t[k], x) <= 0
        {
          if k < |t| - 1 {
            assert cmp(t[k], last) <= 0;
          }
        }
        SortedAppend(t, x, cmp);
      } else {
        assert Sorted(init, cmp);
        InsertSorted(x, init, cmp);
        InsertPermutes(x, init, cmp);
        var r := Insert(x, init, cmp);
        forall k | 0 <= k < |r|
          ensures cmp(r[k], last) <= 0
        {
          var z := r[k];
          assert z in multiset(r);
          if z != x {
            assert z in multiset(init);
            var m :| 0 <= m < |init| && init[m] == z;
            assert t[m] == z;
          }
        }
        SortedAppend(r, last, cmp);
      }
    }
  }

  lemma SortedAppend<T>(r: seq<T>, y: T, cmp: (T, T) -> int)
    requires Sorted(r, cmp) && forall k :: 0 <= k < |r| ==> cmp(r[k], y) <= 0
    ensures Sorted(r + [y], cmp)
  {
    var ry := r + [y];
    forall i, j | 0 <= i < j < |ry|
      ensures cmp(ry[i], ry[j]) <= 0
    {
      assert ry[i] == r[i];
      if j < |r| {
        assert ry[j] == r[j];
      }
    }
  }

  /** The sorted result is in order under any consistent comparator. */
  lemma {:induction false} InsertionSortSorted<T(!new)>(s: seq<T>, cmp: (T, T) -> int)
    requires TotalPreorder(cmp)
    ensures Sorted(InsertionSort(s, cmp), cmp)
  {
    if s != [] {
      InsertionSortSorted(s[..|s| - 1], cmp);
      InsertSorted(s[|s| - 1], InsertionSort(s[..|s| - 1], cmp), cmp);
    }
  }

  /** Sorted by "cards": card counts do not increase along the list. */
  lemma SortedByCards(t: seq<FlashcardSet>, nameCmp: (string, string) -> int)
    requires Sorted(t, Comparator("cards", nameCmp))
    ensures forall i, j :: 0 <= i < j < |t| ==> |t[i].cards| >= |t[j].cards|
  {
    forall i, j | 0 <= i < j < |t|
      ensures |t[i].cards| >= |t[j].cards|
    {
      assert Comparator("cards", nameCmp)(t[i], t[j]) <= 0;
    }
  }

  /** Sorted by "recent", or by an unknown key: creation times do not
      increase along the list. */
  lemma SortedByRecent(sortBy: string, t: seq<FlashcardSet>, nameCmp: (string, string) -> int)
    requires sortBy != "name" && sortBy != "cards"
    requires Sorted(t, Comparator(sortBy, nameCmp))
    ensures forall i, j :: 0 <= i < j < |t| ==> t[i].created >= t[j].created
  {
    forall i, j | 0 <= i < j < |t|
      ensures t[i].created >= t[j].created
    {
      assert Comparator(sortBy, nameCmp)(t[i], t[j]) <= 0;
    }
  }

  /** Sorted by "name": names ascend under the name comparison. */
  lemma SortedByName(t: seq<FlashcardSet>, nameCmp: (string, string) -> int)
    requires Sorted(t, Comparator("name", nameCmp))
    ensures forall i, j :: 0 <= i < j < |t| ==> nameCmp(t[i].name, t[j].name) <= 0
  {
    forall i, j | 0 <= i < j < |t|
      ensures nameCmp(t[i].name, t[j].name) <= 0
    {
      assert Comparator("name", nameCmp)(t[i], t[j]) <= 0;
    }
  }

  /** One more element of the input inserts that element into the sorted prefix. */
  lemma InsertionSortOfPrefix<T>(s: seq<T>, i: nat, cmp: (T, T) -> int)
    requires i < |s|
    ensures InsertionSort(s[..i + 1], cmp) == Insert(s[i], InsertionSort(s[..i], cmp), cmp)
  {
    assert s[..i + 1][..i] == s[..i];
  }

  /** Where the insertion puts `x`: behind `t[..j]` when every later element
      is after `x` and the element before (if any) is not. */
  lemma {:induction false} InsertPosition<T>(x: T, t: seq<T>, j: nat, cmp: (T, T) -> int)
    requires j <= |t| && (j == 0 || cmp(t[j - 1], x) <= 0)
    requires forall k :: j <= k < |t| ==> cmp(t[k], x) > 0
    ensures Insert(x, t, cmp) == t[..j] + [x] + t[j..]
    decreases |t|
  {
    if j < |t| {
      var init := t[..|t| - 1];
      assert init[..j] == t[..j];
      InsertPosition(x, init, j, cmp);
      assert t[j..] == init[j..] + [t[|t| - 1]];
    } else {
      assert t[..j] == t;
    }
  }

  lemma InsertedAt<T>(t: seq<T>, j: nat, x: T, k: nat)
    requires j <= |t| && k <= |t|
    ensures (t[..j] + [x] + t[j..])[k] == if k < j then t[k] else if k == j then x else t[k - 1]
  {
    if k > j {
      assert (t[..j] + [x] + t[j..])[k] == t[j..][k - j - 1];
    }
  }

  /** Moves `a[i]` back over the elements of the sorted `a[..i]` that are
      after it, shifting them up by one. */
  method InsertLast<T>(a: array<T>, i: nat, cmp: (T, T) -> int)
    requires i < a.Length
    modifies a
    ensures a[..i + 1] == Insert(old(a[i]), old(a[..i]), cmp)
    ensures forall k :: i < k < a.Length ==> a[k] == old(a[k])
  {
    var x := a[i];
    ghost var t := a[..i];
    var j := i;
    while j > 0 && cmp(a[j - 1], x) > 0
      invariant 0 <= j <= i
      invariant forall k :: 0 <= k < j ==> a[k] == t[k]
      invariant forall k :: j < k <= i ==> a[k] == t[k - 1]
      invariant forall k :: i < k < a.Length ==> a[k] == old(a[k])
      invariant forall k :: j <= k < i ==> cmp(t[k], x) > 0
    {
      a[j] := a[j - 1];
      j := j - 1;
    }
    a[j] := x;
    InsertPosition(x, t, j, cmp);
    ghost var want := t[..j] + [x] + t[j..];
    forall k | 0 <= k <= i
      ensures a[k] == want[k]
    {
      InsertedAt(t, j, x, k);
    }
    assert a[..i + 1] == want;
  }

  /** `Array.prototype.sort` on the filtered copy: stable insertion sort in place. */
  method SortInPlace<T>(a: array<T>, cmp: (T, T) -> int)
    modifies a
    ensures a[..] == InsertionSort(old(a[..]), cmp)
  {
    ghost var s := a[..];
    var i := 0;
    while i < a.Length
      invariant 0 <= i <= a.Length
      invariant a[..i] == InsertionSort(s[..i], cmp)
      invariant forall k :: i <= k < a.Length ==> a[k] == s[k]
    {
      InsertionSortOfPrefix(s, i, cmp);
      InsertLast(a, i, cmp);
      i := i + 1;
    }
    assert s[..a.Length] == s && a[..a.Length] == a[..];
  }

  /** The list as shown: the matching sets in the chosen order. */
  function FilteredAndSorted(sets: seq<FlashcardSet>, search: string, filterTag: string,
                             sortBy: string, nameCmp: (string, string) -> int): seq<FlashcardSet> {
    InsertionSort(FilterSets(sets, search, filterTag), Comparator(sortBy, nameCmp))
  }

  /** The shown list is a rearrangement of some of the stored sets: exactly
      the matching ones, in order under the sort key. */
  lemma FilteredAndSortedShowsMatches(sets: seq<FlashcardSet>, search: string, filterTag: string,
                                      sortBy: string, nameCmp: (string, string) -> int)
    requires TotalPreorder(nameCmp)
    ensures var r := FilteredAndSorted(sets, search, filterTag, sortBy, nameCmp);
      && |r| <= |sets| && multiset(r) <= multiset(sets)
      && (forall s :: s in r <==> s in sets && Matches(s, search, filterTag))
      && Sorted(r, Comparator(sortBy, nameCmp))
  {
    var f := FilterSets(sets, search, filterTag);
    var r := InsertionSort(f, Comparator(sortBy, nameCmp));
    assert forall s :: s in r <==> s in multiset(r);
    assert forall s :: s in f <==> s in multiset(f);
    InsertionSortPermutes(f, Comparator(sortBy, nameCmp));
    ComparatorIsPreorder(sortBy, nameCmp);
    InsertionSortSorted(f, Comparator(sortBy, nameCmp));
  }

  /** `filteredAndSortedSets`: filter, copy into a buffer, sort it in place. */
  method FilterAndSort(sets: seq<FlashcardSet>, search: string, filterTag: string,
                       sortBy: string, nameCmp: (string, string) -> int) returns (shown: seq<FlashcardSet>)
    ensures shown == FilteredAndSorted(sets, search, filterTag, sortBy, nameCmp)
  {
    var kept := FilterSets(sets, search, filterTag);
    var a := new FlashcardSet[|kept|](i requires 0 <= i < |kept| => kept[i]);
    assert a[..] == kept;
    SortInPlace(a, Comparator(sortBy, nameCmp));
    shown := a[..];
  }

  /* ---------- All tags ---------- */

  predicate Distinct(s: seq<string>) {
    forall i, j :: 0 <= i < j < |s| ==> s[i] != s[j]
  }

  /** `[...new Set(s)]`: each element once, at its first occurrence. */
  function Dedup(s: seq<string>): (r: seq<string>)
    ensures Distinct(r)
    ensures forall x :: x in r <==> x in s
  {
    if s == [] then []
    else
      var d := Dedup(s[..|s| - 1]);
      assert s == s[..|s| - 1] + [s[|s| - 1]];
      if s[|s| - 1] in d then d else d + [s[|s| - 1]]
  }

  /** More input only adds to the end: what is there keeps its place, so
      every element stays at the position of its first occurrence. */
  lemma {:induction false} DedupPrefix(a: seq<string>, b: seq<string>)
    ensures Dedup(a) <= Dedup(a + b)
    decreases |b|
  {
    if b == [] {
      assert a + b == a;
    } else {
      var n := |b| - 1;
      assert (a + b)[..|a + b| - 1] == a + b[..n];
      DedupPrefix(a, b[..n]);
    }
  }

  function SetTags(s: FlashcardSet): seq<string> {
    s.TagList()
  }

  /** `allTags`: the tags of all sets, each once, in first-occurrence order. */
  function AllTags(sets: seq<FlashcardSet>): seq<string> {
    Dedup(ConcatMap(sets, SetTags))
  }

  /** A tag is listed exactly when some set has it, and only once. */
  lemma AllTagsMember(sets: seq<FlashcardSet>, t: string)
    ensures Distinct(AllTags(sets))
    ensures t in AllTags(sets) <==> exists i :: 0 <= i < |sets| && t in sets[i].TagList()
  {
    ConcatMapMember(sets, SetTags, t);
  }

  /** Adding sets keeps the tags already listed where they are. */
  lemma AllTagsGrow(sets: seq<FlashcardSet>, more: seq<FlashcardSet>)
    ensures AllTags(sets) <= AllTags(sets + more)
  {
    ConcatMapAppend(sets, more, SetTags);
    DedupPrefix(ConcatMap(sets, SetTags), ConcatMap(more, SetTags));
  }

  /* ---------- Export file name ---------- */

  /** `name.replace(/\s+/g, "_")`: every maximal run of white space becomes one `_`. */
  function Underscored(s: string): (r: string)
    ensures forall i :: 0 <= i < |r| ==> !IsWhitespace(r[i])
    decreases |s|
  {
    if s == [] then []
    else if IsWhitespace(s[0]) then "_" + Underscored(s[LeadingWhitespace(s)..])
    else [s[0]] + Underscored(s[1..])
  }

  /** The file a set is exported to. */
  function ExportFileName(name: string): (r: string)
    ensures r == Underscored(name) + ".json"
    ensures forall i :: 0 <= i < |r| ==> !IsWhitespace(r[i])
  {
    Underscored(name) + ".json"
  }

  lemma {:induction false} LeadingWhitespaceOfRun(w: string, b: string)
    requires AllWhitespace(w) && (b == [] || !IsWhitespace(b[0]))
    ensures LeadingWhitespace(w + b) == |w|
  {
    if w != [] {
      assert (w + b)[1..] == w[1..] + b;
      LeadingWhitespaceOfRun(w[1..], b);
    } else {
      assert w + b == b;
    }
  }

  /** A run of white space at the start, however long, gives a single `_`. */
  lemma UnderscoredRun(w: string, b: string)
    requires w != [] && AllWhitespace(w) && (b == [] || !IsWhitespace(b[0]))
    ensures Underscored(w + b) == "_" + Underscored(b)
  {
    LeadingWhitespaceOfRun(w, b);
    assert (w + b)[|w|..] == b;
  }

  /** A name without white space is kept as it is, so renaming twice changes nothing more. */
  lemma {:induction false} UnderscoredOfPlain(s: string)
    requires forall i :: 0 <= i < |s| ==> !IsWhitespace(s[i])
    ensures Underscored(s) == s
  {
    if s != [] {
      UnderscoredOfPlain(s[1..]);
      assert [s[0]] + s[1..] == s;
    }
  }

  lemma UnderscoredIdempotent(s: string)
    ensures Underscored(Underscored(s)) == Underscored(s)
  {
    UnderscoredOfPlain(Underscored(s));
  }

  /* ---------- Import, duplicate, delete ---------- */

  /** A set file as decoded: each field present or not. The creation time
      it may carry is overwritten and plays no part. */
  datatype Payload = Payload(name: Option<string>, tags: Option<seq<string>>, cards: Option<seq<Card>>)

  const InvalidFile: string := "Invalid file format. Please select a valid flashcard set JSON file."

  /** The import check: a missing or empty name, or missing cards, is
      rejected; otherwise the set is taken with the creation time `now`. */
  function Imported(p: Payload, now: int): (r: Result<FlashcardSet, string>)
    ensures r.Ok? <==> p.name.Some? && p.name.value != [] && p.cards.Some?
    ensures r.Err? ==> r.error == InvalidFile
    ensures r.Ok? ==> && r.value.name == p.name.value && r.value.tags == p.tags
                      && r.value.cards == p.cards.value && r.value.created == now
  {
    if p.name.None? || p.name.value == [] || p.cards.None? then Err(InvalidFile)
    else Ok(FlashcardSet(p.name.value, p.tags, p.cards.value, now))
  }

  /** What export writes for a set, as the import reads it back. */
  function Exported(s: FlashcardSet): Payload {
    Payload(Some(s.name), s.tags, Some(s.cards))
  }

  /** Importing an exported set gives the set back with a new creation time. */
  lemma ImportExported(s: FlashcardSet, now: int)
    requires s.name != []
    ensures Imported(Exported(s), now) == Ok(s.(created := now))
  {
  }

  /** The copy `handleDuplicate` makes. */
  function Duplicated(s: FlashcardSet, now: int): (r: FlashcardSet)
    ensures r.name == s.name + " (Copy)" && r.tags == s.tags && r.cards == s.cards
    ensures r.created == now
  {
    s.(name := s.name + " (Copy)", created := now)
  }

  /** The list component's copy of the stored collection. */
  class ListState {
    const store: Store
    var sets: seq<FlashcardSet>

    /** The copy and the stored collection agree. */
    predicate Persisted()
      reads this, store
    {
      sets == store.sets
    }

    /** Mounting loads the stored collection. */
    constructor (st: Store)
      ensures store == st && Persisted()
    {
      store := st;
      sets := st.sets;
    }

    /** `handleDelete` after confirmation: position `idx` goes, from the list
        and from storage; an index that is not a position removes nothing. */
    method Delete(idx: int)
      modifies this, store
      ensures sets == RemoveAt(old(sets), idx)
      ensures Persisted()
    {
      var updated := RemoveAt(sets, idx);
      store.sets := updated;
      sets := updated;
    }

    /** `handleDuplicate`: a copy of `s` is appended. */
    method Duplicate(s: FlashcardSet, now: int)
      modifies this, store
      ensures sets == old(sets) + [Duplicated(s, now)]
      ensures Persisted()
    {
      var updated := sets + [Duplicated(s, now)];
      store.sets := updated;
      sets := updated;
    }

    /** `handleImport` once the file is decoded: an accepted set is appended;
        a rejected one changes nothing. */
    method Import(p: Payload, now: int) returns (outcome: Result<FlashcardSet, string>)
      modifies this, store
      ensures outcome == Imported(p, now)
      ensures outcome.Ok? ==> sets == old(sets) + [outcome.value] && Persisted()
      ensures outcome.Err? ==> sets == old(sets) && store.sets == old(store.sets)
    {
      outcome := Imported(p, now);
      if outcome.Ok? {
        var updated := sets + [outcome.value];
        store.sets := updated;
        sets := updated;
      }
    }
  }
}
