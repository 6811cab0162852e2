/**
 * The match state machine of the App component. The five React state cells
 * form a Session value; each handler and the choice effect are functions
 * from one session to the next, and the class Game holds the cells as
 * fields and updates them in place through those functions.
 */
module App {
  import opened Wrappers
  import opened CardImage
  import opened Constants
  import opened CardUtils

  /** The state cells: the deck, the two counters and the two choices. */
  datatype Session = Session(
    cards: seq<Card>,
    failedCounter: nat,
    goodMatchCounter: nat,
    choiceOne: Option<Card>,
    choiceTwo: Option<Card>)

  /**
   * The callback handed to setTimeout on a mismatch. It closes over the two
   * choices of the render that scheduled it.
   */
  datatype Timer = Timer(one: Card, two: Card)

  // ---------------------------------------------------------------------
  // The three `prevCards.map(...)` updates of the deck.

  function Toggled(c: Card): Card {
    c.(flipped := !c.flipped, disabled := !c.disabled)
  }

  function MarkedMatched(c: Card): Card {
    c.(matched := true, disabled := true)
  }

  function TurnedDown(c: Card): Card {
    c.(flipped := false, disabled := false)
  }

  /** The update of handleCardFlip: toggle the card with the selected id. */
  function FlipCard(cards: seq<Card>, id: Id): (r: seq<Card>)
    ensures |r| == |cards| && Ids(r) == Ids(cards) && Srcs(r) == Srcs(cards)
    ensures forall i :: 0 <= i < |cards| && cards[i].id != id ==> r[i] == cards[i]
  {
    seq(|cards|, i requires 0 <= i < |cards| => if cards[i].id == id then Toggled(cards[i]) else cards[i])
  }

  /** The update of the match branch: mark both chosen cards matched. */
  function MatchCards(cards: seq<Card>, one: Id, two: Id): (r: seq<Card>)
    ensures |r| == |cards| && Ids(r) == Ids(cards) && Srcs(r) == Srcs(cards)
    ensures forall i :: 0 <= i < |cards| && cards[i].id != one && cards[i].id != two ==> r[i] == cards[i]
  {
    seq(|cards|, i requires 0 <= i < |cards| =>
      if cards[i].id == one || cards[i].id == two then MarkedMatched(cards[i]) else cards[i])
  }

  /** The update of the mismatch callback: turn both chosen cards face down. */
  function TurnDownCards(cards: seq<Card>, one: Id, two: Id): (r: seq<Card>)
    ensures |r| == |cards| && Ids(r) == Ids(cards) && Srcs(r) == Srcs(cards)
    ensures forall i :: 0 <= i < |cards| && cards[i].id != one && cards[i].id != two ==> r[i] == cards[i]
  {
    seq(|cards|, i requires 0 <= i < |cards| =>
      if cards[i].id == one || cards[i].id == two then TurnedDown(cards[i]) else cards[i])
  }

  /** With unique ids, a flip changes exactly the selected card. */
  lemma FlipChangesOnlySelected(cards: seq<Card>, k: nat)
    requires DistinctIds(cards) && k < |cards|
    ensures FlipCard(cards, cards[k].id) == cards[k := Toggled(cards[k])]
  {
    var r := FlipCard(cards, cards[k].id);
    forall i | 0 <= i < |cards| ensures r[i] == cards[k := Toggled(cards[k])][i] {
      if i != k {
        assert Ids(cards)[i] != Ids(cards)[k];
      }
    }
  }

  /**
   * With unique ids, the match update marks exactly the two chosen cards
   * matched and disabled, keeps them face up as they were, and changes
   * nothing else.
   */
  lemma MatchChangesOnlyChosen(cards: seq<Card>, a: nat, b: nat)
    requires DistinctIds(cards) && a < |cards| && b < |cards| && a != b
    ensures MatchCards(cards, cards[a].id, cards[b].id)
         == cards[a := MarkedMatched(cards[a])][b := MarkedMatched(cards[b])]
  {
    var r := MatchCards(cards, cards[a].id, cards[b].id);
    var last := cards[a := MarkedMatched(cards[a])][b := MarkedMatched(cards[b])];
    forall i | 0 <= i < |cards| ensures r[i] == last[i] {
      if i != a && i != b {
        assert Ids(cards)[i] != Ids(cards)[a] && Ids(cards)[i] != Ids(cards)[b];
      }
    }
  }

  /**
   * With unique ids, the mismatch update turns exactly the two captured
   * cards face down and enabled and changes nothing else.
   */
  lemma TurnDownChangesOnlyCaptured(cards: seq<Card>, a: nat, b: nat)
    requires DistinctIds(cards) && a < |cards| && b < |cards| && a != b
    ensures TurnDownCards(cards, cards[a].id, cards[b].id)
         == cards[a := TurnedDown(cards[a])][b := TurnedDown(cards[b])]
  {
    var r := TurnDownCards(cards, cards[a].id, cards[b].id);
    var last := cards[a := TurnedDown(cards[a])][b := TurnedDown(cards[b])];
    forall i | 0 <= i < |cards| ensures r[i] == last[i] {
      if i != a && i != b {
        assert Ids(cards)[i] != Ids(cards)[a] && Ids(cards)[i] != Ids(cards)[b];
      }
    }
  }

  // ---------------------------------------------------------------------
  // How many cards are matched.

  function MatchedCount(cards: seq<Card>): nat {
    if cards == [] then 0 else (if cards[0].matched then 1 else 0) + MatchedCount(cards[1..])
  }

  /** At most every card is matched, and all are exactly when the count is the deck size. */
  lemma {:induction false} MatchedCountBound(cards: seq<Card>)
    ensures MatchedCount(cards) <= |cards|
    ensures MatchedCount(cards) == |cards| <==> forall i :: 0 <= i < |cards| ==> cards[i].matched
  {
    if cards != [] {
      MatchedCountBound(cards[1..]);
      if forall i :: 0 <= i < |cards| ==> cards[i].matched {
        assert forall i :: 0 <= i < |cards[1..]| ==> cards[1..][i].matched by {
          forall i | 0 <= i < |cards[1..]| ensures cards[1..][i].matched {
            assert cards[1..][i] == cards[i + 1];
          }
        }
      }
    }
  }

  /** The count depends on the matched flags alone. */
  lemma {:induction false} MatchedCountUnchanged(cards: seq<Card>, r: seq<Card>)
    requires |r| == |cards|
    requires forall i :: 0 <= i < |cards| ==> r[i].matched == cards[i].matched
    ensures MatchedCount(r) == MatchedCount(cards)
  {
    if cards != [] {
      assert r[0].matched == cards[0].matched;
      forall i | 0 <= i < |cards[1..]| ensures r[1..][i].matched == cards[1..][i].matched {
        assert r[1..][i] == r[i + 1] && cards[1..][i] == cards[i + 1];
      }
      MatchedCountUnchanged(cards[1..], r[1..]);
    }
  }

  /** Replacing one card changes the count by the change of its matched flag. */
  lemma {:induction false} MatchedCountUpdate(cards: seq<Card>, k: nat, c: Card)
    requires k < |cards|
    ensures MatchedCount(cards[k := c]) + (if cards[k].matched then 1 else 0)
         == MatchedCount(cards) + (if c.matched then 1 else 0)
  {
    if k > 0 {
      assert cards[k := c][1..] == cards[1..][k - 1 := c];
      MatchedCountUpdate(cards[1..], k - 1, c);
    }
  }

  /** A deck without a matched card has count zero. */
  lemma {:induction false} HiddenDeckHasNoMatch(cards: seq<Card>)
    requires forall i :: 0 <= i < |cards| ==> !cards[i].matched
    ensures MatchedCount(cards) == 0
  {
    if cards != [] {
      assert !cards[0].matched;
      forall i | 0 <= i < |cards[1..]| ensures !cards[1..][i].matched {
        assert cards[1..][i] == cards[i + 1];
      }
      HiddenDeckHasNoMatch(cards[1..]);
    }
  }

  /** Matching two different unmatched cards adds two to the matched count. */
  lemma MatchAddsTwo(cards: seq<Card>, a: nat, b: nat)
    requires DistinctIds(cards) && a < |cards| && b < |cards| && a != b
    requires !cards[a].matched && !cards[b].matched
    ensures MatchedCount(MatchCards(cards, cards[a].id, cards[b].id)) == MatchedCount(cards) + 2
  {
    var mid := cards[a := MarkedMatched(cards[a])];
    MatchChangesOnlyChosen(cards, a, b);
    MatchedCountUpdate(cards, a, MarkedMatched(cards[a]));
    MatchedCountUpdate(mid, b, MarkedMatched(cards[b]));
  }

  // ---------------------------------------------------------------------
  // The invariant of a session.

  /** `flipped == disabled`, and a matched card is disabled. */
  ghost predicate CardsConsistent(cards: seq<Card>) {
    forall i :: 0 <= i < |cards| ==> cards[i].flipped == cards[i].disabled && (cards[i].matched ==> cards[i].disabled)
  }

  /** The deck holds a card with this id, and it is face up and unmatched. */
  ghost predicate FaceUpPending(cards: seq<Card>, id: Id) {
    id in Ids(cards) &&
    forall i :: 0 <= i < |cards| && cards[i].id == id ==> cards[i].flipped && !cards[i].matched
  }

  /**
   * Unique ids, consistent flags, two matched cards per good match, and the
   * choices name distinct face-up unmatched cards of the deck.
   */
  ghost predicate WellFormed(s: Session) {
    && DistinctIds(s.cards)
    && CardsConsistent(s.cards)
    && MatchedCount(s.cards) == 2 * s.goodMatchCounter
    && (s.choiceOne.Some? ==> FaceUpPending(s.cards, s.choiceOne.value.id))
    && (s.choiceTwo.Some? ==>
          s.choiceOne.Some? && s.choiceTwo.value.id != s.choiceOne.value.id &&
          FaceUpPending(s.cards, s.choiceTwo.value.id))
  }

  // ---------------------------------------------------------------------
  // The handlers and the effect.

  /** handleShuffle: a fresh deck, both counters at zero, no choice. */
  function HandleShuffle(deck: seq<Card>): Session {
    Session(deck, 0, 0, None, None)
  }

  /** The guard of handleCardFlip. */
  predicate CanFlip(s: Session, selected: Card) {
    s.failedCounter < MaxFailedCounter && !selected.disabled && !selected.matched
  }

  /**
   * handleCardFlip as the source writes it: a third click while a mismatch
   * is pending overwrites choiceTwo.
   */
  function HandleCardFlipAsWritten(s: Session, selected: Card): (r: Session)
    ensures !CanFlip(s, selected) ==> r == s
    ensures CanFlip(s, selected) ==>
      r.cards == FlipCard(s.cards, selected.id) &&
      (if s.choiceOne.None? then r.choiceOne == Some(selected) && r.choiceTwo == s.choiceTwo
       else r.choiceOne == s.choiceOne && r.choiceTwo == Some(selected))
    ensures r.failedCounter == s.failedCounter && r.goodMatchCounter == s.goodMatchCounter
  {
    if !CanFlip(s, selected) then s
    else
      s.(cards := FlipCard(s.cards, selected.id),
         choiceOne := if s.choiceOne.Some? then s.choiceOne else Some(selected),
         choiceTwo := if s.choiceOne.Some? then Some(selected) else s.choiceTwo)
  }

  /**
   * handleCardFlip, ignoring clicks while two choices wait for resolution.
   * The click has an effect exactly when the game is not over, the card is
   * selectable and no pair is pending; then it flips that card only and
   * fills the first free choice.
   */
  function HandleCardFlip(s: Session, selected: Card): (r: Session)
    ensures r != s <==> CanFlip(s, selected) && s.choiceTwo.None?
    ensures s.failedCounter >= MaxFailedCounter ==> r == s
    ensures selected.disabled || selected.matched ==> r == s
    ensures r != s ==>
      r.cards == FlipCard(s.cards, selected.id) &&
      (if s.choiceOne.None? then r.choiceOne == Some(selected) && r.choiceTwo == None
       else r.choiceOne == s.choiceOne && r.choiceTwo == Some(selected))
    ensures r.failedCounter == s.failedCounter && r.goodMatchCounter == s.goodMatchCounter
  {
    if s.choiceTwo.Some? then s else HandleCardFlipAsWritten(s, selected)
  }

  /** Both choices are set, the game is not over and the two pictures agree. */
  predicate IsMatch(s: Session) {
    s.failedCounter < MaxFailedCounter && s.choiceOne.Some? && s.choiceTwo.Some? &&
    s.choiceOne.value.src == s.choiceTwo.value.src
  }

  /**
   * The choice effect. A match is applied at once; a mismatch only
   * schedules the callback, returned as the second component.
   */
  function ResolveChoices(s: Session): (r: (Session, Option<Timer>))
    ensures s.failedCounter >= MaxFailedCounter || s.choiceOne.None? || s.choiceTwo.None? ==> r == (s, None)
    ensures IsMatch(s) ==>
      r.1 == None &&
      r.0 == s.(cards := MatchCards(s.cards, s.choiceOne.value.id, s.choiceTwo.value.id),
                goodMatchCounter := s.goodMatchCounter + 1,
                choiceOne := None, choiceTwo := None)
    ensures r.1.Some? <==>
      s.failedCounter < MaxFailedCounter && s.choiceOne.Some? && s.choiceTwo.Some? && !IsMatch(s)
    ensures r.1.Some? ==> r.0 == s && r.1.value == Timer(s.choiceOne.value, s.choiceTwo.value)
  {
    if s.failedCounter >= MaxFailedCounter then (s, None)
    else if s.choiceOne.None? || s.choiceTwo.None? then (s, None)
    else
      var one, two := s.choiceOne.value, s.choiceTwo.value;
      if one.src == two.src then
        (s.(cards := MatchCards(s.cards, one.id, two.id),
            goodMatchCounter := s.goodMatchCounter + 1,
            choiceOne := None, choiceTwo := None), None)
      else (s, Some(Timer(one, two)))
  }

  /**
   * The mismatch callback: both captured cards face down and selectable,
   * one more failed attempt, no choice. It checks nothing first.
   */
  function MismatchTimeout(s: Session, t: Timer): (r: Session)
    ensures r.failedCounter == s.failedCounter + 1 && r.goodMatchCounter == s.goodMatchCounter
    ensures r.choiceOne.None? && r.choiceTwo.None?
    ensures r.cards == TurnDownCards(s.cards, t.one.id, t.two.id)
  {
    s.(cards := TurnDownCards(s.cards, t.one.id, t.two.id),
       failedCounter := s.failedCounter + 1,
       choiceOne := None, choiceTwo := None)
  }

  // ---------------------------------------------------------------------
  // Each step keeps the session well formed.

  /** A new deck with unique ids and all cards face down starts well formed. */
  lemma ShuffleWellFormed(deck: seq<Card>)
    requires DistinctIds(deck)
    requires forall c :: c in deck ==> Hidden(Entry(c))
    ensures WellFormed(HandleShuffle(deck))
  {
    forall i | 0 <= i < |deck| ensures Hidden(Entry(deck[i])) {
      assert deck[i] in deck;
    }
    HiddenDeckHasNoMatch(deck);
  }

  lemma SelectedIsDeckCard(cards: seq<Card>, selected: Card, i: nat)
    requires DistinctIds(cards) && selected in cards && i < |cards| && cards[i].id == selected.id
    ensures cards[i] == selected
  {
    var k :| 0 <= k < |cards| && cards[k] == selected;
    assert Ids(cards)[k] == Ids(cards)[i];
  }

  /**
   * A click on a card of the deck keeps the session well formed, even the
   * click that overwrites a pending choiceTwo.
   */
  lemma FlipAsWrittenWellFormed(s: Session, selected: Card)
    requires WellFormed(s) && selected in s.cards
    ensures WellFormed(HandleCardFlipAsWritten(s, selected))
  {
    var r := HandleCardFlipAsWritten(s, selected);
    if CanFlip(s, selected) {
      var k :| 0 <= k < |s.cards| && s.cards[k] == selected;
      FlipChangesOnlySelected(s.cards, k);
      assert r.cards == s.cards[k := Toggled(selected)];
      MatchedCountUnchanged(s.cards, r.cards);
      assert Ids(r.cards)[k] == selected.id;
      forall i | 0 <= i < |r.cards| && r.cards[i].id == selected.id
        ensures i == k
      {
        assert Ids(r.cards)[i] == Ids(s.cards)[i];
        SelectedIsDeckCard(s.cards, selected, i);
        assert Ids(s.cards)[i] == Ids(s.cards)[k];
      }
    }
  }

  lemma FlipWellFormed(s: Session, selected: Card)
    requires WellFormed(s) && selected in s.cards
    ensures WellFormed(HandleCardFlip(s, selected))
  {
    FlipAsWrittenWellFormed(s, selected);
  }

  lemma IndexOfId(cards: seq<Card>, id: Id) returns (k: nat)
    requires id in Ids(cards)
    ensures k < |cards| && cards[k].id == id
  {
    var j :| 0 <= j < |Ids(cards)| && Ids(cards)[j] == id;
    k := j;
  }

  /** The effect keeps the session well formed. */
  lemma ResolveWellFormed(s: Session)
    requires WellFormed(s)
    ensures WellFormed(ResolveChoices(s).0)
  {
    if IsMatch(s) {
      var one, two := s.choiceOne.value.id, s.choiceTwo.value.id;
      var a := IndexOfId(s.cards, one);
      var b := IndexOfId(s.cards, two);
      MatchAddsTwo(s.cards, a, b);
    }
  }

  /** No card carrying an id the callback captured is matched. */
  predicate CapturedUnmatched(cards: seq<Card>, t: Timer) {
    forall i :: 0 <= i < |cards| && (cards[i].id == t.one.id || cards[i].id == t.two.id) ==> !cards[i].matched
  }

  /**
   * The callback keeps the session well formed when neither captured card
   * has been matched since it was scheduled.
   */
  lemma TimeoutWellFormed(s: Session, t: Timer)
    requires WellFormed(s)
    requires CapturedUnmatched(s.cards, t)
    ensures WellFormed(MismatchTimeout(s, t))
  {
    MatchedCountUnchanged(s.cards, MismatchTimeout(s, t).cards);
  }

  /**
   * A callback scheduled before the last New Game names no card of the new
   * deck: it leaves the deck alone, yet still counts a failure and clears
   * the choices.
   */
  lemma StaleTimeoutKeepsDeck(s: Session, t: Timer)
    requires t.one.id !in Ids(s.cards) && t.two.id !in Ids(s.cards)
    ensures MismatchTimeout(s, t) == s.(failedCounter := s.failedCounter + 1, choiceOne := None, choiceTwo := None)
  {
    var r := MismatchTimeout(s, t);
    forall i | 0 <= i < |s.cards| ensures r.cards[i] == s.cards[i] {
      assert Ids(s.cards)[i] == s.cards[i].id;
    }
  }

  // ---------------------------------------------------------------------
  // The component, with the state cells as fields.

  class Game {
    var cards: seq<Card>
    var failedCounter: nat
    var goodMatchCounter: nat
    var choiceOne: Option<Card>
    var choiceTwo: Option<Card>

    function Snapshot(): Session
      reads this
    {
      Session(cards, failedCounter, goodMatchCounter, choiceOne, choiceTwo)
    }

    ghost predicate Valid()
      reads this
    {
      WellFormed(Snapshot())
    }

    /** The first render: `useState(() => createShuffledCards())` and zeroes. */
    constructor (draws: seq<int>, ids: seq<Id>)
      requires ValidDraws(draws, 2 * |CardImages|) && |ids| == 2 * |CardImages|
      ensures Snapshot() == HandleShuffle(BuildDeck(CardImages, draws, ids))
      ensures Distinct(ids) ==> Valid()
    {
      var deck := CreateShuffledCards(draws, ids);
      cards := deck;
      failedCounter := 0;
      goodMatchCounter := 0;
      choiceOne := None;
      choiceTwo := None;
      new;
      if Distinct(ids) {
        NewDeckWellFormed(draws, ids);
      }
    }

    /** handleShuffle, the New Game button. */
    method NewGame(draws: seq<int>, ids: seq<Id>)
      requires ValidDraws(draws, 2 * |CardImages|) && |ids| == 2 * |CardImages|
      modifies this
      ensures Snapshot() == HandleShuffle(BuildDeck(CardImages, draws, ids))
      ensures Distinct(ids) ==> Valid()
    {
      cards := CreateShuffledCards(draws, ids);
      failedCounter := 0;
      goodMatchCounter := 0;
      choiceOne, choiceTwo := None, None;
      if Distinct(ids) {
        NewDeckWellFormed(draws, ids);
      }
    }

    /** handleCardFlip, with clicks ignored while a pair is pending. */
    method Flip(selected: Card)
      modifies this
      ensures Snapshot() == HandleCardFlip(old(Snapshot()), selected)
      ensures old(Valid()) && selected in old(cards) ==> Valid()
    {
      ghost var before := Snapshot();
      if failedCounter >= MaxFailedCounter {
        return;
      }
      if selected.disabled || selected.matched {
        return;
      }
      if choiceTwo.Some? {
        return;
      }
      cards := FlipCard(cards, selected.id);
      if choiceOne.Some? {
        choiceTwo := Some(selected);
      } else {
        choiceOne := Some(selected);
      }
      if WellFormed(before) && selected in before.cards {
        FlipWellFormed(before, selected);
      }
    }

    /**
     * The choice effect. On a mismatch it changes nothing and returns the
     * callback it hands to setTimeout.
     */
    method Resolve() returns (scheduled: Option<Timer>)
      modifies this
      ensures (Snapshot(), scheduled) == ResolveChoices(old(Snapshot()))
      ensures old(Valid()) ==> Valid()
    {
      ghost var before := Snapshot();
      scheduled := None;
      if failedCounter >= MaxFailedCounter {
        return;
      }
      if choiceOne.None? || choiceTwo.None? {
        return;
      }
      var one, two := choiceOne.value, choiceTwo.value;
      if one.src == two.src {
        cards := MatchCards(cards, one.id, two.id);
        goodMatchCounter := goodMatchCounter + 1;
        choiceOne, choiceTwo := None, None;
      } else {
        scheduled := Some(Timer(one, two));
      }
      if WellFormed(before) {
        ResolveWellFormed(before);
      }
    }

    /** The body of the setTimeout callback, run as a later step. */
    method ResolveMismatch(t: Timer)
      modifies this
      ensures Snapshot() == MismatchTimeout(old(Snapshot()), t)
      ensures old(Valid()) && CapturedUnmatched(old(cards), t) ==> Valid()
    {
      ghost var before := Snapshot();
      cards := TurnDownCards(cards, t.one.id, t.two.id);
      failedCounter := failedCounter + 1;
      choiceOne, choiceTwo := None, None;
      if WellFormed(before) && CapturedUnmatched(before.cards, t) {
        TimeoutWellFormed(before, t);
      }
    }
  }

  /** A deck built from the picture list with unique ids starts a well-formed session. */
  lemma NewDeckWellFormed(draws: seq<int>, ids: seq<Id>)
    requires ValidDraws(draws, 2 * |CardImages|) && |ids| == 2 * |CardImages| && Distinct(ids)
    ensures WellFormed(HandleShuffle(BuildDeck(CardImages, draws, ids)))
  {
    var deck := BuildDeck(CardImages, draws, ids);
    BuildDeckFromImages(CardImages, draws, ids);
    CardImagesStartHidden();
    ShuffleWellFormed(deck);
  }
}
