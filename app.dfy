/**
 * The top-level app state: the working set of cards the generator and the
 * editor share, the edit mode (which stored set is being edited and where),
 * the editor's initial field values, and the save of a finished set into
 * the stored collection.
 */
module App {
  import opened Strings
  import opened Flashcards
  import opened FlashcardSetEditor

  /** A generated card joins the working set when both fields are non-empty
      and no card of the working set has the same question and answer (a card
      has only these two fields, so that is equality of cards). */
  predicate Addable(prev: seq<Card>, c: Card) {
    c.question != [] && c.answer != [] && c !in prev
  }

  /** The cards of `cs` that are `Addable` to `prev`, in their order (the `filter`). */
  function Fresh(prev: seq<Card>, cs: seq<Card>): seq<Card> {
    Filter(cs, c => Addable(prev, c))
  }

  /** `handleAddToSet`: the old working set followed by the new cards that are
      complete and not already in it. */
  function AddNewCards(prev: seq<Card>, newCards: seq<Card>): (r: seq<Card>)
    ensures |prev| <= |r| <= |prev| + |newCards|
    ensures r[..|prev|] == prev
    ensures forall c :: c in r[|prev|..] <==> c in newCards && Addable(prev, c)
    ensures r[|prev|..] == Filter(newCards, c => Addable(prev, c))
  {
    var r := prev + Fresh(prev, newCards);
    assert r[|prev|..] == Fresh(prev, newCards);
    r
  }

  /** Adding the same batch a second time adds nothing. */
  lemma AddNewCardsIdempotent(prev: seq<Card>, newCards: seq<Card>)
    ensures AddNewCards(AddNewCards(prev, newCards), newCards) == AddNewCards(prev, newCards)
  {
    var once := AddNewCards(prev, newCards);
    assert once == prev + once[|prev|..];
    forall i | 0 <= i < |newCards|
      ensures !Addable(once, newCards[i])
    {
      var c := newCards[i];
      if Addable(prev, c) {
        assert c in once[|prev|..];
      }
    }
    FilterNone(newCards, c => Addable(once, c));
    assert once + Fresh(once, newCards) == once;
  }

  /** Duplicates are looked for only in the old working set, so two equal
      cards of one batch that the working set lacks are both added. */
  lemma DuplicatesInBatchKept(prev: seq<Card>, c: Card)
    requires Addable(prev, c)
    ensures AddNewCards(prev, [c, c]) == prev + [c, c]
  {
    assert [c, c][1..] == [c];
    assert [c][1..] == [];
  }

  /** `handleSaveSet`'s new collection. While a set is being edited it replaces
      the set at the editing position, keeping that set's creation time (an
      index just past the end appends, as assigning there does); otherwise the
      new set is appended. */
  function SavedCollection(prev: seq<FlashcardSet>, setObj: FlashcardSet,
                           editingSet: Option<FlashcardSet>, editingIndex: Option<nat>): (r: seq<FlashcardSet>)
    requires editingIndex.Some? ==> editingIndex.value <= |prev|
    ensures editingSet.Some? && editingIndex.Some? && editingIndex.value < |prev| ==>
      && |r| == |prev|
      && r[editingIndex.value] == setObj.(created := editingSet.value.created)
      && forall j :: 0 <= j < |prev| && j != editingIndex.value ==> r[j] == prev[j]
    ensures editingSet.Some? && editingIndex.Some? && editingIndex.value == |prev| ==>
      r == prev + [setObj.(created := editingSet.value.created)]
    ensures !(editingSet.Some? && editingIndex.Some?) ==>
      |r| == |prev| + 1 && r[..|prev|] == prev && r[|prev|] == setObj
  {
    if editingSet.Some? && editingIndex.Some? then
      var updated := setObj.(created := editingSet.value.created);
      if editingIndex.value < |prev| then prev[editingIndex.value := updated] else prev + [updated]
    else prev + [setObj]
  }

  /** The tag field's text when a set is loaded into the editor: the tags
      joined with ", ", or empty when the set has no tag list. */
  function EditorTagsOf(s: FlashcardSet): (r: string)
    ensures s.tags.None? ==> r == []
  {
    if s.tags.Some? then Join(s.tags.value, ", ") else []
  }

  /** A set whose fields the editor shows and gives back unchanged. */
  predicate Reloadable(s: FlashcardSet) {
    && s.name != [] && IsTrimmed(s.name)
    && (forall i :: 0 <= i < |s.TagList()| ==> JoinableTag(s.TagList()[i]))
    && |s.cards| > 0
  }

  /** Loading a set into the editor and saving it without a change gives back
      its name, cards, tags and creation time; a set without a tag list comes
      back with an empty one. */
  lemma EditThenSaveKeepsSet(prev: seq<FlashcardSet>, idx: nat, now: int)
    requires idx < |prev| && Reloadable(prev[idx])
    ensures var s := prev[idx];
      var out := SaveOutcome(s.name, EditorTagsOf(s), s.cards, now);
      && out.Some?
      && var r := SavedCollection(prev, out.value, Some(s), Some(idx));
      && |r| == |prev|
      && (forall j :: 0 <= j < |prev| && j != idx ==> r[j] == prev[j])
      && r[idx] == s.(tags := Some(s.TagList()))
  {
    var s := prev[idx];
    ParseJoinedTags(s.TagList());
    TrimOfTrimmed(s.name);
  }

  /** In particular a set with a tag list comes back exactly, and the collection is unchanged. */
  lemma EditThenSaveUnchanged(prev: seq<FlashcardSet>, idx: nat, now: int)
    requires idx < |prev| && Reloadable(prev[idx]) && prev[idx].tags.Some?
    ensures var s := prev[idx];
      var out := SaveOutcome(s.name, EditorTagsOf(s), s.cards, now);
      out.Some? && SavedCollection(prev, out.value, Some(s), Some(idx)) == prev
  {
    EditThenSaveKeepsSet(prev, idx, now);
    var s := prev[idx];
    var out := SaveOutcome(s.name, EditorTagsOf(s), s.cards, now);
    var r := SavedCollection(prev, out.value, Some(s), Some(idx));
    assert r[idx] == prev[idx];
  }

  /** The app component's state. The stored collection is a separate object
      that saving writes. */
  class AppState {
    const store: Store
    var workingSet: seq<Card>
    var editingSet: Option<FlashcardSet>
    var editingIndex: Option<nat>
    var editorName: string
    var editorTags: string

    /** Not editing, nothing in the working set, empty editor fields. */
    predicate Idle()
      reads this
    {
      workingSet == [] && editingSet.None? && editingIndex.None? && editorName == [] && editorTags == []
    }

    constructor (s: Store)
      ensures store == s && Idle()
    {
      store := s;
      workingSet := [];
      editingSet := None;
      editingIndex := None;
      editorName := [];
      editorTags := [];
    }

    /** `handleAddToSet`, called with the generator's cards. */
    method AddToSet(newCards: seq<Card>)
      modifies this
      ensures workingSet == AddNewCards(old(workingSet), newCards)
      ensures editingSet == old(editingSet) && editingIndex == old(editingIndex)
      ensures editorName == old(editorName) && editorTags == old(editorTags)
    {
      workingSet := AddNewCards(workingSet, newCards);
    }

    /** `handleSaveSet`: the set the editor emitted goes into the stored
        collection, replacing the edited set or appended, and the app goes
        back to the idle state. */
    method SaveSet(setObj: FlashcardSet)
      requires editingIndex.Some? ==> editingIndex.value <= |store.sets|
      modifies this, store
      ensures store.sets == SavedCollection(old(store.sets), setObj, old(editingSet), old(editingIndex))
      ensures Idle()
    {
      var prevSets := store.sets;
      if editingSet.Some? && editingIndex.Some? {
        var updated := setObj.(created := editingSet.value.created);
        if editingIndex.value < |prevSets| {
          prevSets := prevSets[editingIndex.value := updated];
        } else {
          prevSets := prevSets + [updated];
        }
      } else {
        prevSets := prevSets + [setObj];
      }
      store.sets := prevSets;
      workingSet := [];
      editingSet := None;
      editingIndex := None;
      editorName := [];
      editorTags := [];
    }

    /** `handleEditSet`: the set at position `idx` of the list is loaded for editing. */
    method EditSet(s: FlashcardSet, idx: nat)
      modifies this
      ensures editingSet == Some(s) && editingIndex == Some(idx)
      ensures workingSet == s.cards && editorName == s.name
      ensures editorTags == EditorTagsOf(s)
    {
      editingSet := Some(s);
      editingIndex := Some(idx);
      workingSet := s.cards;
      editorName := s.name;
      editorTags := EditorTagsOf(s);
    }

    /** `handleCancelEdit`: back to idle; the stored collection is not touched. */
    method CancelEdit()
      modifies this
      ensures Idle()
      ensures store.sets == old(store.sets)
    {
      editingSet := None;
      editingIndex := None;
      workingSet := [];
      editorName := "";
      editorTags := "";
    }

    /** The editor's `handleEdit` on the working set. */
    method EditWorkingCard(idx: int, field: Field, value: string)
      modifies this
      ensures workingSet == EditCard(old(workingSet), idx, field, value)
      ensures editingSet == old(editingSet) && editingIndex == old(editingIndex)
      ensures editorName == old(editorName) && editorTags == old(editorTags)
    {
      workingSet := EditCard(workingSet, idx, field, value);
    }

    /** The editor's `handleDelete` on the working set. */
    method DeleteWorkingCard(idx: int)
      modifies this
      ensures workingSet == RemoveAt(old(workingSet), idx)
      ensures editingSet == old(editingSet) && editingIndex == old(editingIndex)
      ensures editorName == old(editorName) && editorTags == old(editorTags)
    {
      workingSet := RemoveAt(workingSet, idx);
    }
  }
}
