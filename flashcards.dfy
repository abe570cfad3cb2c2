/**
 * The app's data: cards, flashcard sets, and the browser storage entry that
 * holds the whole collection of sets; plus the two list operations (edit one
 * field of one card, delete one position) that the card editors share.
 */
module Flashcards {
  import opened Strings

  datatype Option<T> = None | Some(value: T)

  datatype Result<T, E> = Ok(value: T) | Err(error: E)

  /** A question/answer pair; two cards are the same card when both fields are equal. */
  datatype Card = Card(question: string, answer: string)

  /** The card field an edit targets (the editors pass "question" or "answer"). */
  datatype Field = Question | Answer

  function FieldOf(c: Card, f: Field): string {
    match f
    case Question => c.question
    case Answer => c.answer
  }

  function OtherField(f: Field): Field {
    match f
    case Question => Answer
    case Answer => Question
  }

  /** A named, tagged list of cards with its creation time in milliseconds.
      `tags` is absent on a set imported from a file that has none. */
  datatype FlashcardSet = FlashcardSet(name: string, tags: Option<seq<string>>, cards: seq<Card>, created: int)
  {
    /** The set's tags, an absent list read as empty (`set.tags || []`). */
    function TagList(): seq<string> {
      if tags.Some? then tags.value else []
    }
  }

  /** The storage entry "flashcardSets": the whole collection, read and written in one piece. */
  class Store {
    var sets: seq<FlashcardSet>

    constructor (initial: seq<FlashcardSet>)
      ensures sets == initial
    {
      sets := initial;
    }
  }

  /** `list.filter((_, i) => i !== idx)`: position `idx` is removed and the rest
      keep their order; an index outside the list removes nothing. */
  function RemoveAt<T>(s: seq<T>, idx: int): (r: seq<T>)
    ensures 0 <= idx < |s| ==> |r| == |s| - 1
    ensures !(0 <= idx < |s|) ==> r == s
    ensures forall j :: 0 <= j < |r| && j < idx ==> r[j] == s[j]
    ensures forall j :: 0 <= idx <= j < |r| ==> r[j] == s[j + 1]
    ensures 0 <= idx < |s| ==> multiset(r) + multiset{s[idx]} == multiset(s)
  {
    if 0 <= idx < |s| then
      assert s == s[..idx] + [s[idx]] + s[idx + 1..];
      s[..idx] + s[idx + 1..]
    else s
  }

  /** `list.map((fc, i) => i === idx ? { ...fc, [field]: value } : fc)`: only the
      named field of card `idx` changes; an index outside the list changes nothing. */
  function EditCard(cards: seq<Card>, idx: int, field: Field, value: string): (r: seq<Card>)
    ensures |r| == |cards|
    ensures forall i :: 0 <= i < |cards| && i != idx ==> r[i] == cards[i]
    ensures 0 <= idx < |cards| ==>
      FieldOf(r[idx], field) == value
      && FieldOf(r[idx], OtherField(field)) == FieldOf(cards[idx], OtherField(field))
  {
    seq(|cards|, i requires 0 <= i < |cards| =>
      if i == idx then
        (match field
         case Question => cards[i].(question := value)
         case Answer => cards[i].(answer := value))
      else cards[i])
  }

  /** Editing a field to the value it already has changes nothing; an edit
      only ever touches one card, so undoing it restores the list. */
  lemma EditCardUndo(cards: seq<Card>, idx: int, field: Field, value: string)
    requires 0 <= idx < |cards|
    ensures EditCard(cards, idx, field, FieldOf(cards[idx], field)) == cards
    ensures EditCard(EditCard(cards, idx, field, value), idx, field, FieldOf(cards[idx], field)) == cards
  {
    var undone := EditCard(EditCard(cards, idx, field, value), idx, field, FieldOf(cards[idx], field));
    assert undone[idx] == cards[idx] by {
      match field
      case Question =>
      case Answer =>
    }
  }

  /** The elements of `f(x)` for every `x` of `s`, in order: what a `forEach`
      that pushes each item's results onto one list builds. */
  function ConcatMap<T, U>(s: seq<T>, f: T -> seq<U>): (r: seq<U>)
  {
    if s == [] then [] else ConcatMap(s[..|s| - 1], f) + f(s[|s| - 1])
  }

  /** One more item appends that item's results. */
  lemma ConcatMapOfPrefix<T, U>(s: seq<T>, f: T -> seq<U>, i: nat)
    requires i < |s|
    ensures ConcatMap(s[..i + 1], f) == ConcatMap(s[..i], f) + f(s[i])
  {
    assert s[..i + 1][..i] == s[..i];
  }

  /** The results of two blocks are the first block's followed by the second's. */
  lemma {:induction false} ConcatMapAppend<T, U>(a: seq<T>, b: seq<T>, f: T -> seq<U>)
    ensures ConcatMap(a + b, f) == ConcatMap(a, f) + ConcatMap(b, f)
    decreases |b|
  {
    if b == [] {
      assert a + b == a;
    } else {
      var n := |b| - 1;
      assert (a + b)[..|a + b| - 1] == a + b[..n];
      ConcatMapAppend(a, b[..n], f);
    }
  }

  lemma ConcatMapSingle<T, U>(x: T, f: T -> seq<U>)
    ensures ConcatMap([x], f) == f(x)
  {
    assert [x][..0] == [];
  }

  /** A property every item's results have, the whole result has. */
  lemma {:induction false} ConcatMapAll<T, U>(s: seq<T>, f: T -> seq<U>, P: U -> bool)
    requires forall i, j :: 0 <= i < |s| && 0 <= j < |f(s[i])| ==> P(f(s[i])[j])
    ensures forall j :: 0 <= j < |ConcatMap(s, f)| ==> P(ConcatMap(s, f)[j])
  {
    if s != [] {
      var init := s[..|s| - 1];
      assert forall i, j :: 0 <= i < |init| && 0 <= j < |f(init[i])| ==> P(f(init[i])[j]) by {
        forall i, j | 0 <= i < |init| && 0 <= j < |f(init[i])| ensures P(f(init[i])[j]) {
          assert init[i] == s[i];
        }
      }
      ConcatMapAll(init, f, P);
      var last := f(s[|s| - 1]);
      assert forall j :: 0 <= j < |last| ==> P(last[j]);
    }
  }

  /** An element is in the result exactly when it is among some item's results. */
  lemma {:induction false} ConcatMapMember<T, U>(s: seq<T>, f: T -> seq<U>, x: U)
    ensures x in ConcatMap(s, f) <==> exists i :: 0 <= i < |s| && x in f(s[i])
  {
    if s != [] {
      var init := s[..|s| - 1];
      ConcatMapMember(init, f, x);
      if x in ConcatMap(init, f) {
        var i :| 0 <= i < |init| && x in f(init[i]);
        assert init[i] == s[i];
      }
      if exists i :: 0 <= i < |s| && x in f(s[i]) {
        var i :| 0 <= i < |s| && x in f(s[i]);
        if i < |init| {
          assert init[i] == s[i];
        }
      }
    }
  }

  /** `s.filter(p)`: the items satisfying `p`, in their order. */
  function Filter<T(!new)>(s: seq<T>, p: T -> bool): (r: seq<T>)
    ensures |r| <= |s|
    ensures multiset(r) <= multiset(s)
    ensures forall x :: x in r <==> x in s && p(x)
  {
    if s == [] then []
    else
      var rest := Filter(s[1..], p);
      assert s == [s[0]] + s[1..];
      (if p(s[0]) then [s[0]] else []) + rest
  }

  /** The filter keeps order: filtering two blocks gives the first block's
      survivors, then the second's. */
  lemma {:induction false} FilterAppend<T(!new)>(a: seq<T>, b: seq<T>, p: T -> bool)
    ensures Filter(a + b, p) == Filter(a, p) + Filter(b, p)
  {
    if a != [] {
      assert (a + b)[1..] == a[1..] + b;
      FilterAppend(a[1..], b, p);
    } else {
      assert a + b == b;
    }
  }

  /** Nothing passes a filter that no item satisfies. */
  lemma {:induction false} FilterNone<T(!new)>(s: seq<T>, p: T -> bool)
    requires forall i :: 0 <= i < |s| ==> !p(s[i])
    ensures Filter(s, p) == []
  {
    if s != [] {
      FilterNone(s[1..], p);
    }
  }
}
