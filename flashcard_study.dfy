/**
 * A study session over one set's cards: show a card, flip it, assess it
 * Easy, Medium or Hard, move on; when every card is assessed, show how many
 * got each label and offer a restart.
 */
module FlashcardStudy {
  import opened Flashcards

  /** The assessment buttons' labels. */
  datatype Label = Easy | Medium | Hard

  /** The session's state: the shown card's position, whether its answer
      side is up, and the labels given so far. */
  datatype Progress = Progress(index: int, flipped: bool, results: seq<Label>)

  /** Every card has been assessed; for no cards that holds at once. */
  predicate Complete(p: Progress, n: nat) {
    |p.results| == n
  }

  /** The states a session over `n` cards can reach: never more labels than
      cards, the shown card is the next to assess (the last one once all are
      assessed), and a finished session is not flipped. */
  predicate Consistent(p: Progress, n: nat) {
    && |p.results| <= n
    && (n == 0 ==> p.index == 0)
    && (n > 0 ==> p.index == (if |p.results| < n then |p.results| else n - 1))
    && (Complete(p, n) ==> !p.flipped)
  }

  /** The state a session starts in and a restart returns to. */
  const Start := Progress(0, false, [])

  /** `handleFlip`. */
  function Flipped(p: Progress): (r: Progress)
    ensures r.flipped && r.index == p.index && r.results == p.results
  {
    p.(flipped := true)
  }

  /** `handleAssessment`: the assessment is recorded, the card turned back, and the
      next card shown unless this was the last. */
  function Assessed(p: Progress, n: nat, assessment: Label): (r: Progress)
    ensures r.results == p.results + [assessment] && !r.flipped
    ensures r.index == p.index + 1 <==> p.index < n - 1
    ensures r.index == p.index <==> !(p.index < n - 1)
  {
    Progress(if p.index < n - 1 then p.index + 1 else p.index, false, p.results + [assessment])
  }

  lemma StartConsistent(n: nat)
    ensures Consistent(Start, n)
    ensures Complete(Start, n) <==> n == 0
  {
  }

  /** Flipping, offered only while the question side is up and cards are
      left, keeps the state consistent. */
  lemma FlipKeepsConsistent(p: Progress, n: nat)
    requires Consistent(p, n) && !p.flipped && !Complete(p, n)
    ensures Consistent(Flipped(p), n)
  {
  }

  /** Assessing, offered only while the answer side is up and cards are
      left, keeps the state consistent and records one more card. */
  lemma AssessKeepsConsistent(p: Progress, n: nat, assessment: Label)
    requires Consistent(p, n) && p.flipped && !Complete(p, n)
    ensures Consistent(Assessed(p, n, assessment), n)
    ensures |Assessed(p, n, assessment).results| == |p.results| + 1
  {
  }

  /** While cards are left, the shown card is the next one to assess and
      its position is within the set. */
  lemma ShownCardIsNext(p: Progress, n: nat)
    requires Consistent(p, n) && !Complete(p, n)
    ensures 0 <= p.index < n && p.index == |p.results|
  {
  }

  /** For a non-empty set the position never leaves the set. */
  lemma IndexInRange(p: Progress, n: nat)
    requires Consistent(p, n) && n > 0
    ensures 0 <= p.index <= n - 1
  {
  }

  /** `results.filter((r) => r === assessment).length`. */
  function Count(results: seq<Label>, assessment: Label): (c: nat)
    ensures c <= |results|
  {
    |Filter(results, (r: Label) => r == assessment)|
  }

  /** The summary: each assessment with its count, in button order; the
      counts add up to the number of cards assessed. */
  function Summary(results: seq<Label>): (r: seq<(Label, nat)>)
    ensures |r| == 3 && r[0].0 == Easy && r[1].0 == Medium && r[2].0 == Hard
    ensures r[0].1 + r[1].1 + r[2].1 == |results|
  {
    SummaryAddsUp(results);
    [(Easy, Count(results, Easy)), (Medium, Count(results, Medium)), (Hard, Count(results, Hard))]
  }

  lemma CountStep(results: seq<Label>, assessment: Label)
    requires results != []
    ensures Count(results, assessment) == (if results[0] == assessment then 1 else 0) + Count(results[1..], assessment)
  {
  }

  /** The three counts add up to the number of cards assessed. */
  lemma {:induction false} SummaryAddsUp(results: seq<Label>)
    ensures Count(results, Easy) + Count(results, Medium) + Count(results, Hard) == |results|
  {
    if results != [] {
      SummaryAddsUp(results[1..]);
      CountStep(results, Easy);
      CountStep(results, Medium);
      CountStep(results, Hard);
    }
  }

  /** A session as the component holds it. */
  class Session {
    const cards: seq<Card>
    var index: int
    var flipped: bool
    var results: seq<Label>

    function State(): Progress
      reads this
    {
      Progress(index, flipped, results)
    }

    predicate Valid()
      reads this
    {
      Consistent(State(), |cards|)
    }

    predicate IsComplete()
      reads this
    {
      Complete(State(), |cards|)
    }

    /** A session opens on the first card, question side up, nothing assessed. */
    constructor (studied: FlashcardSet)
      ensures cards == studied.cards && State() == Start && Valid()
    {
      cards := studied.cards;
      index := 0;
      flipped := false;
      results := [];
    }

    /** The card on show while cards are left: the next one to assess. */
    function Current(): (c: Card)
      reads this
      requires Valid() && !IsComplete()
      ensures c == cards[|results|]
    {
      cards[index]
    }

    method Flip()
      requires Valid() && !flipped && !IsComplete()
      modifies this
      ensures State() == Flipped(old(State())) && Valid()
    {
      flipped := true;
    }

    method Assess(assessment: Label)
      requires Valid() && flipped && !IsComplete()
      modifies this
      ensures State() == Assessed(old(State()), |cards|, assessment) && Valid()
    {
      results := results + [assessment];
      flipped := false;
      if index < |cards| - 1 {
        index := index + 1;
      }
    }

    method Restart()
      modifies this
      ensures State() == Start && Valid()
    {
      index := 0;
      flipped := false;
      results := [];
    }
  }
}
