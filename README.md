# Flashcard app core, modelled and verified in Dafny

A model of the logic under the markup of a small React flashcard app:

- the parser that turns pasted notes (`Term: Definition`, `- Term - Definition`) into question/answer cards;
- the working set of cards that generated cards are added to and that the editor edits;
- the editor's save step, with its name guard and comma-separated tag parsing;
- the stored collection of sets: create, replace while editing, delete, duplicate and import;
- the set list's search, tag filter, three sort orders, tag list and export file name;
- the study session: flip, assess Easy/Medium/Hard, restart, and the summary counts.

One Dafny module per component file, plus two shared modules (`Strings` and `Flashcards`):

- `strings.dfy` (`Strings`): JavaScript's `trim`, `split`, `includes`, `join` and `toLowerCase` on `string`.
- `flashcards.dfy` (`Flashcards`): the data, the storage entry holding the collection (`Store`), the per-index card edit and delete, and generic `filter`/`flatMap` helpers.
- `text_to_flashcard.dfy`: the parser, as a loop and as a function, and the generator panel.
- `flashcard_set_editor.dfy`: tag parsing, save validation and the editor's fields.
- `app.dfy`: add-to-working-set, save-or-replace, and edit and cancel mode.
- `flashcard_set_list.dfy`: the list's operations and an in-place stable sort.
- `flashcard_study.dfy`: the study state machine and its invariant.

Code that mutates state is modelled as classes whose methods update fields. Each method's postcondition ties the new state to a function of the old one. The properties are proved about those functions.

## Model

| member | source | states |
|---|---|---|
| Strings.Trim | src/TextToFlashcard.jsx:9 | the result has no white space at either end (JavaScript's white-space set) |
| Strings.TrimIsMiddle | src/TextToFlashcard.jsx:13-14 | `trim` keeps the middle slice between a white-space prefix and a white-space suffix |
| Strings.TrimOfTrimmed | src/TextToFlashcard.jsx:13-14 | an already trimmed string is its own trim |
| Strings.TrimIdempotent | src/FlashcardSetEditor.jsx:35 | trimming twice is trimming once |
| Strings.TrimSkipsWhitespace | src/TextToFlashcard.jsx:9 | white space in front of a string does not change its trim |
| Strings.TrimAfterWhitespace | src/FlashcardSetEditor.jsx:35 | white space in front of a trimmed string is all that `trim` removes |
| Strings.TrimAllWhitespace | src/FlashcardSetEditor.jsx:35-36 | an all-white-space string trims to empty |
| Strings.Split | src/TextToFlashcard.jsx:5 | `split` on one character gives one more piece than there are separators, and no piece contains the separator |
| Strings.SplitAround | src/FlashcardSetEditor.jsx:34 | splitting around one separator splits each side on its own |
| Strings.SplitWithoutSeparator | src/FlashcardSetEditor.jsx:34 | a string without the separator splits into itself |
| Strings.Contains | src/FlashcardSetList.jsx:61-62 | defines `includes` as a prefix match at the front or further on; `ContainsAt` is its characterisation |
| Strings.ContainsAt | src/FlashcardSetList.jsx:61-62 | `includes` holds exactly when the needle occurs at some position |
| Strings.ToLower | src/FlashcardSetList.jsx:61-62 | lowercasing keeps the length and maps every character through the ASCII case map |
| Strings.Join | src/App.jsx:63 | defines `join`: no parts give the empty string, one part itself, otherwise the first part, the separator and the join of the rest; `ParseJoinedTags` is its round trip |
| Flashcards.Store.constructor | src/FlashcardSetList.jsx:21-23 | the storage entry holds exactly the collection it was created with |
| Flashcards.RemoveAt | src/TextToFlashcard.jsx:39-41 | deleting position idx removes exactly that card: shorter by one, order of the rest kept, multiset loses that card; an index outside the list changes nothing |
| Flashcards.EditCard | src/FlashcardSetEditor.jsx:21-25 | editing changes only the named field of card idx; length, the other field and every other card are unchanged; an index outside the list changes nothing |
| Flashcards.EditCardUndo | src/TextToFlashcard.jsx:33-37 | an edit to a card's current value is a no-op, and editing a field back restores the list |
| Flashcards.Filter | src/App.jsx:26-30 | `filter` keeps exactly the items satisfying the predicate: no more than the input, a sub-multiset of it |
| Flashcards.FilterAppend | src/App.jsx:26-30 | `filter` keeps order: filtering two blocks is filtering each and concatenating |
| Flashcards.FilterNone | src/App.jsx:26-30 | nothing passes when no item satisfies the predicate |
| Flashcards.ConcatMap | src/TextToFlashcard.jsx:6-19 | defines the list a `forEach` that pushes each item's results builds (also `flatMap`); its properties are the three lemmas below |
| Flashcards.ConcatMapAppend | src/TextToFlashcard.jsx:7-19 | results for two blocks of items are the first block's followed by the second's |
| Flashcards.ConcatMapAll | src/TextToFlashcard.jsx:7-19 | a property every item's results have, the whole result has |
| Flashcards.ConcatMapMember | src/FlashcardSetList.jsx:79 | an element is in `flatMap`'s result exactly when some item's results contain it |
| TextToFlashcard.StripBullet | src/TextToFlashcard.jsx:9 | `^[-*]\s*` removes one `-` or `*` in column 0 and the white space after it; any other line is left as it is |
| TextToFlashcard.CleanLine | src/TextToFlashcard.jsx:9 | the cleaned line has no white space at either end |
| TextToFlashcard.FindSeparator | src/TextToFlashcard.jsx:11 | the lazy group ends at the least position where `:` or ` - ` begins; none is found only when there is none |
| TextToFlashcard.MatchCleanLine | src/TextToFlashcard.jsx:11-16 | a card from a cleaned line has non-empty, trimmed question and answer |
| TextToFlashcard.CardAt | src/TextToFlashcard.jsx:13-16 | splitting at a separator yields a card only when both trimmed sides are non-empty, and the card is well formed |
| TextToFlashcard.ParseLine | src/TextToFlashcard.jsx:8-18 | one line yields at most one card, and only a well-formed one |
| TextToFlashcard.LineCards | src/TextToFlashcard.jsx:12-18 | one line contributes at most one card |
| TextToFlashcard.ParseLines | src/TextToFlashcard.jsx:7-19 | defines the cards of a list of lines as each line's cards in line order; proved properties are in the `ParseLines...` rows |
| TextToFlashcard.ParseText | src/TextToFlashcard.jsx:4-21 | defines the parser's result as the cards of the text's `\n`-separated lines; the loop `ParseTextToFlashcards` is proved equal to it |
| TextToFlashcard.ParseTextToFlashcards | src/TextToFlashcard.jsx:4-21 | the `forEach` loop returns exactly the parser function's result: no more cards than lines, every card well formed |
| TextToFlashcard.ParseLinesAtMostOnePerLine | src/TextToFlashcard.jsx:5-7 | the output is no longer than the number of lines |
| TextToFlashcard.ParseLinesWellFormed | src/TextToFlashcard.jsx:13-16 | every card produced has a non-empty question and answer, each equal to its own trim |
| TextToFlashcard.ParseLinesAppend | src/TextToFlashcard.jsx:7-19 | cards come out in line order: two blocks of lines give the first block's cards, then the second's |
| TextToFlashcard.MatchSplitsAtFirstSeparator | src/TextToFlashcard.jsx:11-14 | a line is split at the first position at least 1 where `:` or ` - ` begins; the question is the trimmed prefix and the answer the trimmed rest after the separator |
| TextToFlashcard.FirstSeparatorIsFound | src/TextToFlashcard.jsx:11 | the separator search finds the first separator position |
| TextToFlashcard.MatchWithoutSeparator | src/TextToFlashcard.jsx:11-12 | a cleaned line without `:` or ` - ` after its first character, or with a line terminator, gives no card |
| TextToFlashcard.ParseTextOneLine | src/TextToFlashcard.jsx:5-7 | a text without line terminators is a single line |
| TextToFlashcard.NoSeparatorInQuestion | src/TextToFlashcard.jsx:11 | no separator begins inside a trimmed, separator-free question, whatever follows it (unless a ` - ` starts at the question's closing `-`) |
| TextToFlashcard.ColonLineIsClean | src/TextToFlashcard.jsx:9 | cleaning leaves `q: a` unchanged |
| TextToFlashcard.ColonLineSplits | src/TextToFlashcard.jsx:11 | `q: a` is split at the colon after q |
| TextToFlashcard.ColonLineCard | src/TextToFlashcard.jsx:8-18 | the line `q: a` gives the card {q, a} |
| TextToFlashcard.ParseColonLine | src/TextToFlashcard.jsx:4-21 | the text `q: a` gives exactly [{q, a}] |
| TextToFlashcard.ParseTermDefinition | src/TextToFlashcard.jsx:4-21 | `"Term: Definition"` gives [{Term, Definition}] |
| TextToFlashcard.DashLineClean | src/TextToFlashcard.jsx:9 | cleaning `- q - a` removes only the bullet and the blank after it |
| TextToFlashcard.DashLineSplits | src/TextToFlashcard.jsx:11 | `q - a` is split at the ` - ` after q |
| TextToFlashcard.DashLineCard | src/TextToFlashcard.jsx:8-18 | the line `- q - a` gives the card {q, a} |
| TextToFlashcard.ParseBulletDashLine | src/TextToFlashcard.jsx:4-21 | the text `- q - a` gives exactly [{q, a}] |
| TextToFlashcard.ParseBulletAB | src/TextToFlashcard.jsx:4-21 | `"- A - B"` gives [{A, B}] |
| TextToFlashcard.ParseColonWithoutAnswer | src/TextToFlashcard.jsx:14-15 | `q:` with nothing after the colon gives no card |
| TextToFlashcard.ParseTermOnly | src/TextToFlashcard.jsx:14-15 | `"Term:"` gives no card |
| TextToFlashcard.ParseEmptyText | src/TextToFlashcard.jsx:4-21 | empty text gives no cards |
| TextToFlashcard.IndentedBulletKept | src/TextToFlashcard.jsx:9 | a bullet with white space before it is not stripped; the line is only trimmed |
| TextToFlashcard.OneBulletRemoved | src/TextToFlashcard.jsx:9 | only one bullet character is removed |
| TextToFlashcard.Generator.constructor | src/TextToFlashcard.jsx:24-25 | the panel starts with empty text and no cards |
| TextToFlashcard.Generator.SetInput | src/TextToFlashcard.jsx:50 | the text takes the typed value; the shown cards are unchanged |
| TextToFlashcard.Generator.Generate | src/TextToFlashcard.jsx:27-31 | the panel shows and hands on exactly the parse of its text, all cards well formed |
| TextToFlashcard.Generator.Edit | src/TextToFlashcard.jsx:33-37 | the panel's cards become `EditCard` of the old ones; the text is unchanged |
| TextToFlashcard.Generator.Delete | src/TextToFlashcard.jsx:39-41 | the panel's cards become `RemoveAt` of the old ones; the text is unchanged |
| FlashcardSetEditor.TagOfPiece | src/FlashcardSetEditor.jsx:35-36 | a comma-separated piece gives at most one tag |
| FlashcardSetEditor.ParseTags | src/FlashcardSetEditor.jsx:33-36 | every parsed tag is non-empty and has no white space at either end |
| FlashcardSetEditor.TagsOfPiecesWellFormed | src/FlashcardSetEditor.jsx:35-36 | the tags that any list of pieces gives, each trimmed and kept only when non-empty, are well formed |
| FlashcardSetEditor.TagsOfPiecesMember | src/FlashcardSetEditor.jsx:33-36 | a tag is parsed exactly when it is the non-empty trim of some piece |
| FlashcardSetEditor.SaveDisabled | src/FlashcardSetEditor.jsx:32 | defines the save guard (also the button's `disabled` flag, line 100): the trimmed name is empty or there are no cards; `SaveOutcome` emits nothing exactly then |
| FlashcardSetEditor.SaveOutcome | src/FlashcardSetEditor.jsx:31-42 | nothing is emitted exactly when the trimmed name is empty or there are no cards; otherwise the set carries the trimmed name, the parsed tags, exactly the current cards and the time `now` |
| FlashcardSetEditor.SaveOutcomeTags | src/FlashcardSetEditor.jsx:33-38 | a saved set has a trimmed name and well-formed tags |
| FlashcardSetEditor.ParseJoinedTags | src/FlashcardSetEditor.jsx:33-36 | parsing tags joined with `", "` gives them back when every tag is non-empty, trimmed and comma-free |
| FlashcardSetEditor.SplitJoined | src/FlashcardSetEditor.jsx:34 | the comma pieces of joined tags are each tag behind a blank |
| FlashcardSetEditor.TagsOfJoinedPieces | src/FlashcardSetEditor.jsx:35-36 | trimming those pieces and dropping empties gives the tags |
| FlashcardSetEditor.Editor.constructor | src/FlashcardSetEditor.jsx:12-13 | the fields start from the initial values |
| FlashcardSetEditor.Editor.Reload | src/FlashcardSetEditor.jsx:16-19 | both fields take the new initial values |
| FlashcardSetEditor.Editor.Save | src/FlashcardSetEditor.jsx:31-45 | emits `SaveOutcome` of the fields; when nothing is emitted the fields are untouched, otherwise both are cleared |
| App.Addable | src/App.jsx:27-29 | defines when a generated card joins: both fields non-empty and no equal card in the old working set |
| App.Fresh | src/App.jsx:26-30 | defines the batch's cards that are `Addable`, in batch order, as a `Filter` |
| App.AddNewCards | src/App.jsx:23-32 | the old working set is kept as a prefix, followed by the batch filtered to the cards with non-empty question and answer that are not already in it: in batch order, repeats kept, and holding exactly those cards |
| App.AddNewCardsIdempotent | src/App.jsx:27-29 | adding the same batch twice adds nothing the second time |
| App.DuplicatesInBatchKept | src/App.jsx:27-29 | duplicates are looked for only in the old working set: for any working set, two equal cards of one batch that it may take are both appended |
| App.SavedCollection | src/App.jsx:35-46 | in edit mode the set at the editing index is replaced, keeping that set's `created`, and length and every other set are unchanged; otherwise the set is appended and earlier sets are untouched |
| App.EditorTagsOf | src/App.jsx:63 | a set without tags loads an empty tag field |
| App.EditThenSaveKeepsSet | src/App.jsx:58-64 | loading a set into the editor and saving it unchanged gives back its name, cards, tags and `created` at the same index |
| App.EditThenSaveUnchanged | src/App.jsx:37-42 | for a set with a tag list the whole collection comes back unchanged |
| App.AppState.constructor | src/App.jsx:11-18 | the app starts idle: empty working set, nothing being edited, empty editor fields |
| App.AppState.AddToSet | src/App.jsx:23-32 | the working set becomes `AddNewCards` of the old one; the editor fields are untouched |
| App.AppState.SaveSet | src/App.jsx:35-53 | the stored collection becomes `SavedCollection`; afterwards the working set is empty, nothing is being edited and both editor fields are empty |
| App.AppState.EditSet | src/App.jsx:58-64 | loads the set, its index, its cards, its name and its tags joined with `", "` (empty without tags) |
| App.AppState.CancelEdit | src/App.jsx:67-73 | back to the idle state; the stored collection is untouched |
| App.AppState.EditWorkingCard | src/FlashcardSetEditor.jsx:21-25 | the working set becomes `EditCard` of the old one |
| App.AppState.DeleteWorkingCard | src/FlashcardSetEditor.jsx:27-29 | the working set becomes `RemoveAt` of the old one |
| FlashcardSetList.MatchesSearch | src/FlashcardSetList.jsx:61-62 | defines the search test: the lowercased name, or some lowercased tag, contains the lowercased search |
| FlashcardSetList.MatchesTag | src/FlashcardSetList.jsx:63 | defines the tag test: no tag chosen, or the set's tags include it |
| FlashcardSetList.Matches | src/FlashcardSetList.jsx:64 | defines the filter as both tests |
| FlashcardSetList.FilterSets | src/FlashcardSetList.jsx:59-65 | exactly the sets whose lowercased name or some lowercased tag contains the lowercased search, and which carry the chosen tag when one is chosen |
| FlashcardSetList.EmptyFiltersKeepAll | src/FlashcardSetList.jsx:60-64 | an empty search with no tag chosen keeps every set, in order |
| FlashcardSetList.Comparator | src/FlashcardSetList.jsx:66-76 | defines the comparator for each sort key: the name comparison, descending card count, or descending `created` for `"recent"` and every other key |
| FlashcardSetList.ComparatorIsPreorder | src/FlashcardSetList.jsx:66-76 | each sort key gives a total preorder, the name key when the name comparison is one |
| FlashcardSetList.Insert | src/FlashcardSetList.jsx:66 | defines stable insertion of one element behind the last element not after it; `InsertPermutes`, `InsertSorted` and `InsertPosition` are its properties |
| FlashcardSetList.InsertionSort | src/FlashcardSetList.jsx:66 | defines the stable sort as repeated `Insert`; `InsertionSortPermutes` and `InsertionSortSorted` are its properties |
| FlashcardSetList.InsertPermutes | src/FlashcardSetList.jsx:66 | inserting adds the element and nothing else |
| FlashcardSetList.InsertionSortPermutes | src/FlashcardSetList.jsx:66 | sorting returns a permutation of its input |
| FlashcardSetList.InsertSorted | src/FlashcardSetList.jsx:66 | inserting into a sorted list keeps it sorted |
| FlashcardSetList.InsertionSortSorted | src/FlashcardSetList.jsx:66 | the sorted result is in order under any total-preorder comparator |
| FlashcardSetList.SortedByCards | src/FlashcardSetList.jsx:70-71 | sorted by `"cards"`, card counts do not increase |
| FlashcardSetList.SortedByRecent | src/FlashcardSetList.jsx:72-74 | sorted by `"recent"` or an unknown key, `created` does not increase |
| FlashcardSetList.SortedByName | src/FlashcardSetList.jsx:68-69 | sorted by `"name"`, names ascend under the name comparison |
| FlashcardSetList.InsertPosition | src/FlashcardSetList.jsx:66 | the insertion puts the element behind the last element not after it |
| FlashcardSetList.InsertLast | src/FlashcardSetList.jsx:66 | shifting in place inserts the last element of the prefix into the sorted rest |
| FlashcardSetList.SortInPlace | src/FlashcardSetList.jsx:66-76 | the array ends up as the stable insertion sort of its old contents |
| FlashcardSetList.FilteredAndSorted | src/FlashcardSetList.jsx:59-76 | defines the shown list as the filtered sets sorted under the key's comparator |
| FlashcardSetList.FilteredAndSortedShowsMatches | src/FlashcardSetList.jsx:59-76 | the shown list is a permutation of a sub-multiset of the sets (so no longer), holds exactly the matching sets, and is in order under the sort key |
| FlashcardSetList.FilterAndSort | src/FlashcardSetList.jsx:59-76 | filter, copy and sort in place give the shown list |
| FlashcardSetList.Dedup | src/FlashcardSetList.jsx:79 | no element repeats, and the elements are exactly those of the input |
| FlashcardSetList.DedupPrefix | src/FlashcardSetList.jsx:79 | more input only appends: each element stays where it first occurred |
| FlashcardSetList.AllTags | src/FlashcardSetList.jsx:79 | defines `allTags` as the deduplicated concatenation of every set's tags |
| FlashcardSetList.AllTagsMember | src/FlashcardSetList.jsx:79 | each tag of each set is listed exactly once, and nothing else is |
| FlashcardSetList.AllTagsGrow | src/FlashcardSetList.jsx:79 | adding sets keeps the listed tags in place |
| FlashcardSetList.Underscored | src/FlashcardSetList.jsx:41 | the renamed string contains no white space |
| FlashcardSetList.ExportFileName | src/FlashcardSetList.jsx:41 | the file name is the renamed set name followed by `.json`, with no white space |
| FlashcardSetList.UnderscoredRun | src/FlashcardSetList.jsx:41 | a white-space run at the start of the name, however long, becomes a single `_` and the rest is renamed on its own |
| FlashcardSetList.UnderscoredOfPlain | src/FlashcardSetList.jsx:41 | a name without white space is kept as it is |
| FlashcardSetList.UnderscoredIdempotent | src/FlashcardSetList.jsx:41 | renaming twice is renaming once |
| FlashcardSetList.Imported | src/FlashcardSetList.jsx:92-95 | rejected exactly when the name is missing or empty or the cards are missing; otherwise the set is taken as it is, with `created` set to `now` |
| FlashcardSetList.Exported | src/FlashcardSetList.jsx:37-38 | defines what an exported file holds as the import reads it: the name, the tags and the cards |
| FlashcardSetList.ImportExported | src/FlashcardSetList.jsx:37-41 | importing an exported set with a name gives the set back with a new `created` |
| FlashcardSetList.Duplicated | src/FlashcardSetList.jsx:48-52 | the copy has the name plus `" (Copy)"`, the same tags and cards, and `created` set to `now` |
| FlashcardSetList.ListState.constructor | src/FlashcardSetList.jsx:21-28 | mounting loads the stored collection |
| FlashcardSetList.ListState.Delete | src/FlashcardSetList.jsx:30-35 | the list becomes `RemoveAt` of the old one, and storage holds the new list |
| FlashcardSetList.ListState.Duplicate | src/FlashcardSetList.jsx:47-56 | the copy is appended, existing sets are unchanged, and storage holds the new list |
| FlashcardSetList.ListState.Import | src/FlashcardSetList.jsx:86-109 | an accepted set is appended and stored; a rejected one changes neither the list nor storage |
| FlashcardStudy.Complete | src/FlashcardStudy.jsx:34 | defines the end of a session: as many results as cards |
| FlashcardStudy.Consistent | src/FlashcardStudy.jsx:10-31 | defines the reachable states: no more results than cards, the shown position is the next card to assess (the last once all are assessed), and a finished session is not flipped; the `...KeepsConsistent` lemmas prove it invariant |
| FlashcardStudy.Flipped | src/FlashcardStudy.jsx:17 | flipping only sets `flipped` |
| FlashcardStudy.Assessed | src/FlashcardStudy.jsx:19-25 | appends exactly one label, clears `flipped`, and advances `index` exactly when it is below the last position |
| FlashcardStudy.StartConsistent | src/FlashcardStudy.jsx:10-12 | the initial state is consistent, and an empty set is complete at once |
| FlashcardStudy.FlipKeepsConsistent | src/FlashcardStudy.jsx:17 | a flip, offered only question side up with cards left, keeps the progress invariant |
| FlashcardStudy.AssessKeepsConsistent | src/FlashcardStudy.jsx:19-25 | an assessment, offered only answer side up with cards left, keeps the invariant and records one more card |
| FlashcardStudy.ShownCardIsNext | src/FlashcardStudy.jsx:14-15 | while not complete, `index` equals the number of results and is a valid position |
| FlashcardStudy.IndexInRange | src/FlashcardStudy.jsx:22-24 | for a non-empty set `index` stays between 0 and the last position |
| FlashcardStudy.Count | src/FlashcardStudy.jsx:37 | a count never exceeds the number of results |
| FlashcardStudy.Summary | src/FlashcardStudy.jsx:35-38 | one entry per button, Easy, Medium, Hard in that order, whose counts add up to the number of results |
| FlashcardStudy.SummaryAddsUp | src/FlashcardStudy.jsx:35-38 | the Easy, Medium and Hard counts sum to the number of results |
| FlashcardStudy.Session.constructor | src/FlashcardStudy.jsx:10-14 | a session starts at index 0, not flipped, with no results, in a consistent state |
| FlashcardStudy.Session.Current | src/FlashcardStudy.jsx:15 | the card on show is the next card to assess |
| FlashcardStudy.Session.Flip | src/FlashcardStudy.jsx:17 | the state becomes `Flipped` of the old one and stays consistent |
| FlashcardStudy.Session.Assess | src/FlashcardStudy.jsx:19-25 | the state becomes `Assessed` of the old one and stays consistent |
| FlashcardStudy.Session.Restart | src/FlashcardStudy.jsx:27-31 | back to exactly the initial state |

## Left out

- Storage: `localStorage` reads and writes and the JSON encoding are a `Store` object holding the collection as a value. Encoding and decoding are taken to be exact inverses.
- Time: `Date.now()` is a parameter `now`.
- Browser calls: `window.confirm` is not modelled (delete is the operation after confirmation), and neither is `alert`. The notification callback is reduced to the returned `Result`. The `FileReader` and the download anchor are not modelled either: import starts from an already decoded `Payload`, and export is reduced to its file name and the fields it writes.
- Import: a payload whose fields have the wrong JSON types, or that has extra fields, is outside the model. A name is falsy only when missing or empty, and cards only when missing.
- `sets.indexOf(set)` relies on object identity; the model takes the position instead.
- Flashcards.Store: the storage entry is not shared across tabs, and a missing entry reads as an empty collection.
- App.SavedCollection: requires the editing index to be at most the collection's length. The excluded case is reachable: the set list stays on screen while a set is edited (src/App.jsx:96-105), so the user can delete sets from it (src/FlashcardSetList.jsx:30-35). Once enough sets are deleted that the editing index exceeds the stored collection's length, the assignment `prevSets[editingIndex] = …` (src/App.jsx:39) writes beyond its end, the gap is stored as `null`, and the next render of the list fails at `set.name.toLowerCase()` (src/FlashcardSetList.jsx:61). A sequence cannot hold such gaps, so this path is not modelled.
- App.AppState.SaveSet: carries the same requirement on the editing index as `App.SavedCollection`, for the same reason.
- App.SavedCollection: an editing index that went stale after such a deletion but is still in range is modelled as the source behaves. The save overwrites whichever set now sits at that position, and a copy of the edited set may remain elsewhere. Nothing in the model marks this as wrong.
- FlashcardSetList.SortInPlace: the browser's sort algorithm is unspecified. The model uses a stable insertion sort, whose result every stable sort shares under a total-preorder comparator. That uniqueness is not proved.
- FlashcardSetList.Comparator: `localeCompare` is the parameter `nameCmp`, and the sortedness results assume it is a total preorder.
- Strings.ToLower: only ASCII letters are folded, not full Unicode case mapping.
- Strings are sequences of code points. Surrogate pairs and normalisation are not modelled.
- TextToFlashcard.ParseTextToFlashcards: the `forEach` callback is the function `ParseLine`.
- Text-to-card: the panel's `onGenerate` callback is the returned value of `Generator.Generate`, which the app passes to `AppState.AddToSet`.
- The app's `refreshKey`, which only remounts the list, is not modelled, and neither are the study-set selection (`handleStudy`/`handleExitStudy`), the header, footer, spinner and notification components, or any markup.
- FlashcardStudy.Session.Assess: requires the card to be flipped and cards to be left, because only then are the assessment buttons rendered.
- FlashcardStudy.Session.Flip: requires the question side up and cards left, because only then is the flip control active.
