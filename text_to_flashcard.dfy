/**
 * The text-to-card parser of src/TextToFlashcard.jsx. Every line of the
 * pasted text is cleaned of one leading bullet and trimmed, then split at its
 * first `:` or ` - ` after the first character; a line gives a card when both
 * trimmed sides are non-empty. The regular expression `^(.+?)(:| - )(.*)$` is
 * modelled as an explicit search for the first separator.
 */
module TextToFlashcard {
  import opened Strings
  import opened Flashcards

  /** A card the parser may produce: both sides non-empty and without white
      space at either end, so each equals its own trim (TrimOfTrimmed). */
  predicate WellFormedCard(c: Card) {
    c.question != [] && c.answer != [] && IsTrimmed(c.question) && IsTrimmed(c.answer)
  }

  /** Removing what the pattern `^[-*]\s*` matches: a `-` or `*` in column 0 and
      the white space after it; nothing else. */
  function StripBullet(line: string): (r: string)
    ensures |line| > 0 && (line[0] == '-' || line[0] == '*') ==> r == TrimStart(line[1..])
    ensures !(|line| > 0 && (line[0] == '-' || line[0] == '*')) ==> r == line
  {
    if |line| > 0 && (line[0] == '-' || line[0] == '*') then TrimStart(line[1..]) else line
  }

  /** The cleaned line the regular expression is matched against: no white
      space is left at either end. */
  function CleanLine(line: string): (r: string)
    ensures IsTrimmed(r)
  {
    Trim(StripBullet(line))
  }

  /** Every character can be matched by `.`, which is needed for `^(.+?)…(.*)$`
      to cover the whole line. */
  predicate SingleLine(s: string) {
    forall i :: 0 <= i < |s| ==> !IsLineTerminator(s[i])
  }

  /** A separator, `:` or ` - `, begins at position `k`. */
  predicate SeparatorAt(s: string, k: int) {
    0 <= k < |s| && (s[k] == ':' || (k + 3 <= |s| && s[k] == ' ' && s[k + 1] == '-' && s[k + 2] == ' '))
  }

  /** How many characters the separator at `k` takes (`:` is tried first). */
  function SeparatorLength(s: string, k: int): (n: nat)
    requires SeparatorAt(s, k)
    ensures k + n <= |s|
  {
    if s[k] == ':' then 1 else 3
  }

  /** The lazy `(.+?)` followed by `(:| - )`: the least position at or after
      `from` where a separator begins. */
  function FindSeparator(s: string, from: nat): (r: Option<nat>)
    decreases |s| - from
    ensures r.Some? ==> (from <= r.value && SeparatorAt(s, r.value)
                         && forall j :: from <= j < r.value ==> !SeparatorAt(s, j))
    ensures r.None? ==> forall j :: from <= j < |s| ==> !SeparatorAt(s, j)
  {
    if from >= |s| then None
    else if SeparatorAt(s, from) then Some(from)
    else FindSeparator(s, from + 1)
  }

  /** The match of `^(.+?)(:| - )(.*)$` against a cleaned line, and the card
      it yields when both trimmed sides are non-empty. */
  function MatchCleanLine(clean: string): (r: Option<Card>)
    ensures r.Some? ==> WellFormedCard(r.value)
  {
    if !SingleLine(clean) then None
    else
      match FindSeparator(clean, 1)
      case None => None
      case Some(k) => CardAt(clean, k)
  }

  /** The card of a line split at the separator at `k`: the trimmed text
      before it and the trimmed text after it, when both are non-empty. */
  function CardAt(clean: string, k: nat): (r: Option<Card>)
    requires SeparatorAt(clean, k)
    ensures r.Some? ==> WellFormedCard(r.value)
  {
    var question := Trim(clean[..k]);
    var answer := Trim(clean[k + SeparatorLength(clean, k)..]);
    if question != [] && answer != [] then Some(Card(question, answer)) else None
  }

  /** What one line contributes: at most one card, and only a well-formed one. */
  function ParseLine(line: string): (r: Option<Card>)
    ensures r.Some? ==> WellFormedCard(r.value)
  {
    MatchCleanLine(CleanLine(line))
  }

  /** The cards one line contributes: none or one. */
  function LineCards(line: string): (r: seq<Card>)
    ensures |r| <= 1
  {
    match ParseLine(line)
    case None => []
    case Some(c) => [c]
  }

  /** The cards of a sequence of lines, in line order. */
  function ParseLines(lines: seq<string>): seq<Card> {
    ConcatMap(lines, LineCards)
  }

  /** `parseTextToFlashcards(text)` as a value. */
  function ParseText(text: string): seq<Card> {
    ParseLines(Split(text, '\n'))
  }

  /** `parseTextToFlashcards`: the `forEach` over the lines pushes the card of
      every line that yields one. Total: every text gives a list. */
  method ParseTextToFlashcards(text: string) returns (flashcards: seq<Card>)
    ensures flashcards == ParseText(text)
    ensures |flashcards| <= |Split(text, '\n')|
    ensures forall i :: 0 <= i < |flashcards| ==> WellFormedCard(flashcards[i])
  {
    var lines := Split(text, '\n');
    flashcards := [];
    var i := 0;
    while i < |lines|
      invariant 0 <= i <= |lines|
      invariant flashcards == ParseLines(lines[..i])
    {
      ConcatMapOfPrefix(lines, LineCards, i);
      var card := ParseLine(lines[i]);
      if card.Some? {
        flashcards := flashcards + [card.value];
      }
      i := i + 1;
    }
    assert lines[..i] == lines;
    ParseLinesAtMostOnePerLine(lines);
    ParseLinesWellFormed(lines);
  }

  /** Every line gives at most one card. */
  lemma {:induction false} ParseLinesAtMostOnePerLine(lines: seq<string>)
    ensures |ParseLines(lines)| <= |lines|
  {
    if lines != [] {
      ParseLinesAtMostOnePerLine(lines[..|lines| - 1]);
      assert |LineCards(lines[|lines| - 1])| <= 1;
    }
  }

  /** Every card the parser produces is well formed. */
  lemma ParseLinesWellFormed(lines: seq<string>)
    ensures forall i :: 0 <= i < |ParseLines(lines)| ==> WellFormedCard(ParseLines(lines)[i])
  {
    forall i, j | 0 <= i < |lines| && 0 <= j < |LineCards(lines[i])|
      ensures WellFormedCard(LineCards(lines[i])[j])
    {
      assert LineCards(lines[i])[j] == ParseLine(lines[i]).value;
    }
    ConcatMapAll(lines, LineCards, WellFormedCard);
  }

  /** Order preservation: the cards of two blocks of lines are the cards of the
      first block followed by those of the second. */
  lemma ParseLinesAppend(a: seq<string>, b: seq<string>)
    ensures ParseLines(a + b) == ParseLines(a) + ParseLines(b)
  {
    ConcatMapAppend(a, b, LineCards);
  }
  /** The split point is the first position k >= 1 of the cleaned line where a
      separator begins; the question is the trimmed text before it and the
      answer the trimmed text after it. */
  lemma MatchSplitsAtFirstSeparator(clean: string, k: nat)
    requires SingleLine(clean)
    requires 1 <= k && SeparatorAt(clean, k)
    requires forall j :: 1 <= j < k ==> !SeparatorAt(clean, j)
    ensures MatchCleanLine(clean) == CardAt(clean, k)
  {
    FirstSeparatorIsFound(clean, 1, k);
  }

  lemma {:induction false} FirstSeparatorIsFound(s: string, from: nat, k: nat)
    requires from <= k && SeparatorAt(s, k)
    requires forall j :: from <= j < k ==> !SeparatorAt(s, j)
    ensures FindSeparator(s, from) == Some(k)
    decreases k - from
  {
    if from < k {
      FirstSeparatorIsFound(s, from + 1, k);
    }
  }

  /** A cleaned line with no separator after its first character, or with a
      character `.` cannot match, yields no card. */
  lemma MatchWithoutSeparator(clean: string)
    requires !SingleLine(clean) || forall j :: 1 <= j < |clean| ==> !SeparatorAt(clean, j)
    ensures MatchCleanLine(clean) == None
  {
    if SingleLine(clean) {
      var r := FindSeparator(clean, 1);
      if r.Some? {
        assert false;
      }
    }
  }

  /** No separator begins anywhere inside `s`. */
  predicate NoSeparator(s: string) {
    forall j :: 0 <= j < |s| ==> !SeparatorAt(s, j)
  }

  /** A question that survives a round trip through one line of text: not
      starting like a bullet, holding no separator and not ending in `-`
      (which would make a following ` - ` start one character early). */
  predicate PlainQuestion(q: string) {
    && q != [] && IsTrimmed(q) && SingleLine(q)
    && q[0] != '-' && q[0] != '*' && q[|q| - 1] != '-'
    && NoSeparator(q)
  }

  /** A question and an answer that survive a round trip through one line of text. */
  predicate PlainCard(q: string, a: string) {
    PlainQuestion(q) && a != [] && IsTrimmed(a) && SingleLine(a)
  }

  /** The text of one line is that line's cards. */
  lemma ParseTextOneLine(line: string)
    requires SingleLine(line)
    ensures ParseText(line) == LineCards(line)
  {
    assert '\n' !in line by {
      forall i | 0 <= i < |line| ensures line[i] != '\n' {
        assert !IsLineTerminator(line[i]);
      }
    }
    SplitWithoutSeparator(line, '\n');
    ConcatMapSingle(line, LineCards);
  }

  lemma SingleLineConcat(a: string, b: string)
    requires SingleLine(a) && SingleLine(b)
    ensures SingleLine(a + b)
  {
    forall i | 0 <= i < |a + b| ensures !IsLineTerminator((a + b)[i]) {
      if i >= |a| {
        assert (a + b)[i] == b[i - |a|];
      }
    }
  }

  /** A separator-free, trimmed question keeps the first separator of
      `q + tail` at `|q|` or later, unless `tail` starts a ` - ` with q's end. */
  lemma NoSeparatorInQuestion(q: string, tail: string)
    requires q != [] && IsTrimmed(q) && NoSeparator(q)
    requires tail != [] && (tail[0] != ' ' || q[|q| - 1] != '-')
    ensures forall j :: 0 <= j < |q| ==> !SeparatorAt(q + tail, j)
  {
    var line := q + tail;
    forall j | 0 <= j < |q| ensures !SeparatorAt(line, j) {
      assert !SeparatorAt(q, j);
      assert line[j] == q[j];
      if j + 3 <= |q| {
        assert line[j..j + 3] == q[j..j + 3];
      } else if j + 3 <= |line| {
        if j == |q| - 1 {
          assert line[j..j + 3][0] == q[|q| - 1];
        } else {
          assert j == |q| - 2;
          assert line[j..j + 3][1] == q[|q| - 1];
          assert line[j..j + 3][2] == tail[0];
        }
      }
    }
  }

  /** The line `q + ": " + a` is what cleaning leaves of it. */
  lemma ColonLineIsClean(q: string, a: string)
    requires PlainCard(q, a)
    ensures CleanLine(q + ": " + a) == q + ": " + a
  {
    var line := q + ": " + a;
    assert line[0] == q[0] && line[|line| - 1] == a[|a| - 1];
    assert StripBullet(line) == line;
    TrimOfTrimmed(line);
  }

  /** The line `q + ": " + a` splits at its first separator, the `:` after q,
      into q and a. */
  lemma ColonLineSplits(q: string, a: string)
    requires PlainCard(q, a)
    ensures var line := q + ": " + a;
      && SingleLine(line) && SeparatorAt(line, |q|) && line[|q|] == ':'
      && (forall j :: 0 <= j < |q| ==> !SeparatorAt(line, j))
      && Trim(line[..|q|]) == q && Trim(line[|q| + 1..]) == a
  {
    var line := q + ": " + a;
    assert line == q + (": " + a) == (q + ":") + (" " + a);
    SingleLineConcat(": ", a);
    SingleLineConcat(q, ": " + a);
    NoSeparatorInQuestion(q, ": " + a);
    assert line[..|q|] == q;
    TrimOfTrimmed(q);
    assert line[|q| + 1..] == " " + a by {
      assert |q + ":"| == |q| + 1;
    }
    TrimAfterWhitespace(" ", a);
  }

  lemma ColonLineCard(q: string, a: string)
    requires PlainCard(q, a)
    ensures ParseLine(q + ": " + a) == Some(Card(q, a))
  {
    var line := q + ": " + a;
    ColonLineSplits(q, a);
    MatchSplitsAtFirstSeparator(line, |q|);
    assert CardAt(line, |q|) == Some(Card(q, a));
    ColonLineIsClean(q, a);
  }

  /** `"q: a"` gives the card {q, a} when q holds no separator of its own. */
  lemma ParseColonLine(q: string, a: string)
    requires PlainCard(q, a)
    ensures ParseText(q + ": " + a) == [Card(q, a)]
  {
    ColonLineSplits(q, a);
    ColonLineCard(q, a);
    ParseTextOneLine(q + ": " + a);
  }

  /** `"Term: Definition"` gives the card {Term, Definition}. */
  lemma ParseTermDefinition(text: string)
    requires text == "Term: Definition"
    ensures ParseText(text) == [Card("Term", "Definition")]
  {
    TermDefinitionLine();
    assert PlainCard("Term", "Definition");
    ParseColonLine("Term", "Definition");
  }

  lemma TermDefinitionLine()
    ensures "Term" + ": " + "Definition" == "Term: Definition"
  {
  }

  /** The line `"- " + q + " - " + a` is cleaned down to `q + " - " + a`:
      the bullet and the blank after it go, nothing else. */
  lemma DashLineClean(q: string, a: string)
    requires PlainCard(q, a)
    ensures CleanLine("- " + q + " - " + a) == q + " - " + a
  {
    var line := "- " + q + " - " + a;
    var body := q + " - " + a;
    assert line == "-" + (" " + body);
    assert line[1..] == " " + body;
    assert StripBullet(line) == TrimStart(" " + body);
    assert body[0] == q[0] && body[|body| - 1] == a[|a| - 1];
    TrimAfterWhitespace(" ", body);
    TrimStartStep(" " + body);
    assert (" " + body)[1..] == body;
    TrimStartOfTrimmed(body);
    TrimOfTrimmed(body);
  }

  /** `q + " - " + a` splits at the ` - ` after q into q and a. */
  lemma DashLineSplits(q: string, a: string)
    requires PlainCard(q, a)
    ensures var line := q + " - " + a;
      && SingleLine(line) && SeparatorAt(line, |q|) && line[|q|] == ' '
      && (forall j :: 0 <= j < |q| ==> !SeparatorAt(line, j))
      && Trim(line[..|q|]) == q && Trim(line[|q| + 3..]) == a
  {
    var line := q + " - " + a;
    assert line == q + (" - " + a);
    SingleLineConcat(" - ", a);
    SingleLineConcat(q, " - " + a);
    NoSeparatorInQuestion(q, " - " + a);
    assert line[..|q|] == q;
    TrimOfTrimmed(q);
    assert line[|q| + 3..] == a;
    TrimOfTrimmed(a);
  }

  lemma DashLineCard(q: string, a: string)
    requires PlainCard(q, a)
    ensures ParseLine("- " + q + " - " + a) == Some(Card(q, a))
  {
    var body := q + " - " + a;
    DashLineSplits(q, a);
    MatchSplitsAtFirstSeparator(body, |q|);
    assert CardAt(body, |q|) == Some(Card(q, a));
    DashLineClean(q, a);
  }

  /** A bulleted `"- q - a"` gives {q, a}: the bullet goes and the ` - ` splits. */
  lemma ParseBulletDashLine(q: string, a: string)
    requires PlainCard(q, a)
    ensures ParseText("- " + q + " - " + a) == [Card(q, a)]
  {
    var line := "- " + q + " - " + a;
    assert line == "- " + (q + " - " + a);
    SingleLineConcat(q, " - " + a);
    DashLineSplits(q, a);
    SingleLineConcat("- ", q + " - " + a);
    DashLineCard(q, a);
    ParseTextOneLine(line);
  }

  /** `"- A - B"` gives the card {A, B}. */
  lemma ParseBulletAB(text: string)
    requires text == "- A - B"
    ensures ParseText(text) == [Card("A", "B")]
  {
    BulletABLine();
    assert PlainCard("A", "B");
    ParseBulletDashLine("A", "B");
  }

  lemma BulletABLine()
    ensures "- " + "A" + " - " + "B" == "- A - B"
  {
  }

  /** A question followed by `:` and nothing else gives no card: the answer
      trims to empty. */
  lemma ParseColonWithoutAnswer(q: string)
    requires PlainQuestion(q)
    ensures ParseText(q + ":") == []
  {
    var line := q + ":";
    assert line[0] == q[0] && line[|line| - 1] == ':';
    assert StripBullet(line) == line;
    TrimOfTrimmed(line);
    SingleLineConcat(q, ":");
    NoSeparatorInQuestion(q, ":");
    MatchSplitsAtFirstSeparator(line, |q|);
    assert line[|q| + 1..] == [];
    assert CardAt(line, |q|) == None;
    ParseTextOneLine(line);
  }

  /** `"Term:"` gives no card. */
  lemma ParseTermOnly(text: string)
    requires text == "Term:"
    ensures ParseText(text) == []
  {
    TermOnlyLine();
    assert PlainQuestion("Term");
    ParseColonWithoutAnswer("Term");
  }

  lemma TermOnlyLine()
    ensures "Term" + ":" == "Term:"
  {
  }

  /** Empty text gives no cards. */
  lemma ParseEmptyText()
    ensures ParseText("") == []
  {
    assert Split("", '\n') == [""];
    ConcatMapSingle("", LineCards);
    assert CleanLine("") == "";
    MatchWithoutSeparator("");
  }

  /** A bullet with white space in front of it is not a bullet: cleaning only
      trims such a line. */
  lemma IndentedBulletKept(w: string, line: string)
    requires w != [] && AllWhitespace(w)
    ensures CleanLine(w + line) == Trim(line)
  {
    assert (w + line)[0] == w[0];
    assert StripBullet(w + line) == w + line;
    TrimSkipsWhitespace(w, line);
  }

  /** Only one bullet character is removed: a line that still starts with
      `-` or `*` after it keeps that character. */
  lemma OneBulletRemoved(b: char, rest: string)
    requires b == '-' || b == '*'
    requires rest != [] && (rest[0] == '-' || rest[0] == '*')
    ensures CleanLine([b] + rest) == Trim(rest)
    ensures Trim(rest) != [] && Trim(rest)[0] == rest[0]
  {
    assert ([b] + rest)[1..] == rest;
    TrimStartOfTrimmed(rest);
    assert Trim(rest) == TrimEnd(rest);
    assert rest[0] == rest[..|rest| - TrailingWhitespace(rest)][0];
  }

  /** The generator panel: the pasted text and the list of cards it last
      produced, which can be edited and pruned before or after it is handed on. */
  class Generator {
    var input: string
    var flashcards: seq<Card>

    constructor ()
      ensures input == [] && flashcards == []
    {
      input := [];
      flashcards := [];
    }

    /** The text box's change handler. */
    method SetInput(text: string)
      modifies this
      ensures input == text && flashcards == old(flashcards)
    {
      input := text;
    }

    /** `handleGenerate`: parses the text, shows the cards and returns them
        for the app to add to its working set. */
    method Generate() returns (generated: seq<Card>)
      modifies this
      ensures generated == ParseText(input) && flashcards == generated
      ensures input == old(input)
      ensures forall i :: 0 <= i < |generated| ==> WellFormedCard(generated[i])
    {
      generated := ParseTextToFlashcards(input);
      flashcards := generated;
    }

    /** `handleEdit`. */
    method Edit(idx: int, field: Field, value: string)
      modifies this
      ensures flashcards == EditCard(old(flashcards), idx, field, value) && input == old(input)
    {
      flashcards := EditCard(flashcards, idx, field, value);
    }

    /** `handleDelete`. */
    method Delete(idx: int)
      modifies this
      ensures flashcards == RemoveAt(old(flashcards), idx) && input == old(input)
    {
      flashcards := RemoveAt(flashcards, idx);
    }
  }
}
