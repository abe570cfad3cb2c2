/**
 * The set editor of src/FlashcardSetEditor.jsx: the name and tag fields, the
 * save guard, the comma-separated tag parsing, and the record handed to the
 * app on save.
 */
module FlashcardSetEditor {
  import opened Strings
  import opened Flashcards

  /** A tag as the editor keeps it: non-empty, with no white space at either end. */
  predicate WellFormedTag(t: string) {
    t != [] && IsTrimmed(t)
  }

  /** One comma-separated piece after `.map(t => t.trim())` and
      `.filter(t => t.length > 0)`: its trim, or nothing when that is empty. */
  function TagOfPiece(piece: string): (r: seq<string>)
    ensures |r| <= 1
  {
    var t := Trim(piece);
    if t != [] then [t] else []
  }

  /** `tags.split(",").map(t => t.trim()).filter(t => t.length > 0)`: every
      tag it gives is well formed. */
  function ParseTags(text: string): (r: seq<string>)
    ensures forall i :: 0 <= i < |r| ==> WellFormedTag(r[i])
  {
    var pieces := Split(text, ',');
    TagsOfPiecesWellFormed(pieces);
    ConcatMap(pieces, TagOfPiece)
  }

  /** Every tag the pieces give is well formed. */
  lemma TagsOfPiecesWellFormed(pieces: seq<string>)
    ensures forall i :: 0 <= i < |ConcatMap(pieces, TagOfPiece)| ==> WellFormedTag(ConcatMap(pieces, TagOfPiece)[i])
  {
    forall i, j | 0 <= i < |pieces| && 0 <= j < |TagOfPiece(pieces[i])|
      ensures WellFormedTag(TagOfPiece(pieces[i])[j])
    {
    }
    ConcatMapAll(pieces, TagOfPiece, WellFormedTag);
  }

  /** A string is a parsed tag exactly when it is the non-empty trim of some
      comma-separated piece. */
  lemma TagsOfPiecesMember(pieces: seq<string>, t: string)
    ensures t in ConcatMap(pieces, TagOfPiece) <==>
      t != [] && exists i :: 0 <= i < |pieces| && Trim(pieces[i]) == t
  {
    ConcatMapMember(pieces, TagOfPiece, t);
    if t in ConcatMap(pieces, TagOfPiece) {
      var i :| 0 <= i < |pieces| && t in TagOfPiece(pieces[i]);
      assert Trim(pieces[i]) == t;
    }
    if t != [] && exists i :: 0 <= i < |pieces| && Trim(pieces[i]) == t {
      var i :| 0 <= i < |pieces| && Trim(pieces[i]) == t;
      assert t in TagOfPiece(pieces[i]);
    }
  }

  /** The save guard and the Save button's `disabled` flag: a name that trims
      to empty, or no cards. */
  predicate SaveDisabled(name: string, cards: seq<Card>) {
    Trim(name) == [] || |cards| == 0
  }

  /** The record `handleSave` hands to the app, if any, for the current name
      and tag fields, the current cards and the clock reading `now`. */
  function SaveOutcome(name: string, tagsText: string, cards: seq<Card>, now: int): (r: Option<FlashcardSet>)
    ensures r.None? <==> SaveDisabled(name, cards)
    ensures r.Some? ==>
      && r.value.name == Trim(name) && r.value.name != []
      && r.value.tags == Some(ParseTags(tagsText))
      && r.value.cards == cards && |r.value.cards| > 0
      && r.value.created == now
  {
    if SaveDisabled(name, cards) then None
    else Some(FlashcardSet(Trim(name), Some(ParseTags(tagsText)), cards, now))
  }

  /** The tags of a saved set are well formed. */
  lemma SaveOutcomeTags(name: string, tagsText: string, cards: seq<Card>, now: int)
    requires SaveOutcome(name, tagsText, cards, now).Some?
    ensures var s := SaveOutcome(name, tagsText, cards, now).value;
      IsTrimmed(s.name) && forall i :: 0 <= i < |s.TagList()| ==> WellFormedTag(s.TagList()[i])
  {
  }

  /** Tags the tag field can hold and give back: well formed and free of commas. */
  predicate JoinableTag(t: string) {
    WellFormedTag(t) && ',' !in t
  }

  /** Parsing the tags joined with ", " (as the app fills the tag field when
      a set is edited) gives the tags back. */
  lemma ParseJoinedTags(tags: seq<string>)
    requires forall i :: 0 <= i < |tags| ==> JoinableTag(tags[i])
    ensures ParseTags(Join(tags, ", ")) == tags
  {
    assert [] + Join(tags, ", ") == Join(tags, ", ");
    SplitJoined([], tags);
    TagsOfJoinedPieces([], tags);
  }

  /** The comma-separated pieces of `w + Join(tags, ", ")`: the first tag
      behind `w`, every later one behind the blank that follows its comma. */
  function JoinedPieces(w: string, tags: seq<string>): seq<string>
    decreases tags
  {
    if tags == [] then [w]
    else if |tags| == 1 then [w + tags[0]]
    else [w + tags[0]] + JoinedPieces(" ", tags[1..])
  }

  lemma {:induction false} SplitJoined(w: string, tags: seq<string>)
    requires ',' !in w
    requires forall i :: 0 <= i < |tags| ==> ',' !in tags[i]
    ensures Split(w + Join(tags, ", "), ',') == JoinedPieces(w, tags)
    decreases tags
  {
    if tags == [] {
      assert w + Join(tags, ", ") == w;
      SplitWithoutSeparator(w, ',');
    } else {
      NoCommaConcat(w, tags[0]);
      if |tags| == 1 {
        assert w + Join(tags, ", ") == w + tags[0];
        SplitWithoutSeparator(w + tags[0], ',');
      } else {
        var rest := Join(tags[1..], ", ");
        JoinStep(w, tags);
        SplitAround(w + tags[0], ',', " " + rest);
        SplitWithoutSeparator(w + tags[0], ',');
        assert forall i :: 0 <= i < |tags[1..]| ==> ',' !in tags[1..][i] by {
          forall i | 0 <= i < |tags[1..]| ensures ',' !in tags[1..][i] {
            assert tags[1..][i] == tags[i + 1];
          }
        }
        SplitJoined(" ", tags[1..]);
      }
    }
  }

  lemma {:induction false} TagsOfJoinedPieces(w: string, tags: seq<string>)
    requires AllWhitespace(w)
    requires forall i :: 0 <= i < |tags| ==> WellFormedTag(tags[i])
    ensures ConcatMap(JoinedPieces(w, tags), TagOfPiece) == tags
    decreases tags
  {
    if |tags| <= 1 {
      TagsOfJoinedShort(w, tags);
    } else {
      TagsOfJoinedStep(w, tags);
      TailTagsWellFormed(tags);
      assert AllWhitespace(" ");
      TagsOfJoinedPieces(" ", tags[1..]);
      assert [tags[0]] + tags[1..] == tags;
    }
  }

  lemma TagsOfJoinedShort(w: string, tags: seq<string>)
    requires AllWhitespace(w) && |tags| <= 1
    requires forall i :: 0 <= i < |tags| ==> WellFormedTag(tags[i])
    ensures ConcatMap(JoinedPieces(w, tags), TagOfPiece) == tags
  {
    if tags == [] {
      ConcatMapSingle(w, TagOfPiece);
      TagOfWhitespace(w);
    } else {
      TagOfPieceAfterWhitespace(w, tags[0]);
      ConcatMapSingle(w + tags[0], TagOfPiece);
    }
  }

  lemma TailTagsWellFormed(tags: seq<string>)
    requires tags != [] && forall i :: 0 <= i < |tags| ==> WellFormedTag(tags[i])
    ensures forall i :: 0 <= i < |tags[1..]| ==> WellFormedTag(tags[1..][i])
  {
  }

  lemma TagsOfJoinedStep(w: string, tags: seq<string>)
    requires |tags| > 1 && AllWhitespace(w) && WellFormedTag(tags[0])
    ensures ConcatMap(JoinedPieces(w, tags), TagOfPiece)
         == [tags[0]] + ConcatMap(JoinedPieces(" ", tags[1..]), TagOfPiece)
  {
    TagOfPieceAfterWhitespace(w, tags[0]);
    ConcatMapSingle(w + tags[0], TagOfPiece);
    ConcatMapAppend([w + tags[0]], JoinedPieces(" ", tags[1..]), TagOfPiece);
  }

  /** Splitting off the first tag and the comma after it. */
  lemma JoinStep(w: string, tags: seq<string>)
    requires |tags| >= 2
    ensures w + Join(tags, ", ") == (w + tags[0]) + [','] + (" " + Join(tags[1..], ", "))
  {
    var rest := Join(tags[1..], ", ");
    assert Join(tags, ", ") == tags[0] + ", " + rest;
    assert ", " == [','] + " ";
    assert w + (tags[0] + ([','] + " ") + rest) == (w + tags[0]) + [','] + (" " + rest);
  }

  lemma NoCommaConcat(a: string, b: string)
    requires ',' !in a && ',' !in b
    ensures ',' !in a + b
  {
    forall i | 0 <= i < |a + b| ensures (a + b)[i] != ',' {
      if i >= |a| {
        assert (a + b)[i] == b[i - |a|];
      }
    }
  }

  lemma TagOfWhitespace(w: string)
    requires AllWhitespace(w)
    ensures TagOfPiece(w) == []
  {
    TrimAllWhitespace(w);
  }

  lemma TagOfPieceAfterWhitespace(w: string, t: string)
    requires AllWhitespace(w) && WellFormedTag(t)
    ensures TagOfPiece(w + t) == [t]
  {
    TrimAfterWhitespace(w, t);
  }

  /** The editor's own fields: the set name and the comma-separated tag text. */
  class Editor {
    var setName: string
    var tags: string

    /** The fields start from the values the app passes in. */
    constructor (initialName: string, initialTags: string)
      ensures setName == initialName && tags == initialTags
    {
      setName := initialName;
      tags := initialTags;
    }

    /** The effect that reloads both fields when the app's initial values change. */
    method Reload(initialName: string, initialTags: string)
      modifies this
      ensures setName == initialName && tags == initialTags
    {
      setName := initialName;
      tags := initialTags;
    }

    /** `handleSave`: nothing happens when saving is disabled; otherwise the
        record is emitted and both fields are cleared. */
    method Save(cards: seq<Card>, now: int) returns (emitted: Option<FlashcardSet>)
      modifies this
      ensures emitted == SaveOutcome(old(setName), old(tags), cards, now)
      ensures emitted.None? ==> setName == old(setName) && tags == old(tags)
      ensures emitted.Some? ==> setName == [] && tags == []
    {
      emitted := SaveOutcome(setName, tags, cards, now);
      if emitted.Some? {
        setName := "";
        tags := "";
      }
    }
  }
}
