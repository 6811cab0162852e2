/**
 * Runs of the game: the session together with the setTimeout callbacks
 * that are still waiting, driven by the three things that can happen
 * (New Game, a click on a card, a callback firing). After each of them
 * React runs the choice effect if a choice changed.
 */
module Play {
  import opened Wrappers
  import opened CardImage
  import opened Constants
  import opened CardUtils
  import opened App

  /** The session and the mismatch callbacks not yet fired, oldest first. */
  datatype World = World(game: Session, timers: seq<Timer>)

  datatype Event =
    | NewGame(draws: seq<int>, ids: seq<Id>)
    | Click(selected: Card)
    | TimerFires

  /**
   * The effect depends on [choiceOne, choiceTwo], so it runs when one of
   * them changed. A mismatch queues its callback. (After a match it clears
   * the choices and runs once more, returning at once.)
   */
  function Settle(before: Session, after: Session, timers: seq<Timer>): World {
    if after.choiceOne == before.choiceOne && after.choiceTwo == before.choiceTwo then
      World(after, timers)
    else
      var res := ResolveChoices(after);
      World(res.0, if res.1.Some? then timers + [res.1.value] else timers)
  }

  /** The oracles of a New Game supply one draw per swap and one id per card. */
  predicate Defined(e: Event) {
    e.NewGame? ==> ValidDraws(e.draws, 2 * |CardImages|) && |e.ids| == 2 * |CardImages|
  }

  /**
   * One event. Callbacks share the same 1000 ms delay, so they fire in the
   * order they were scheduled; New Game does not cancel them.
   */
  function Step(w: World, e: Event): World
    requires Defined(e)
  {
    match e
    case NewGame(draws, ids) => Settle(w.game, HandleShuffle(BuildDeck(CardImages, draws, ids)), w.timers)
    case Click(selected) => Settle(w.game, HandleCardFlip(w.game, selected), w.timers)
    case TimerFires =>
      if w.timers == [] then w
      else Settle(w.game, MismatchTimeout(w.game, w.timers[0]), w.timers[1..])
  }

  /** The same, with clicks handled as the source writes them. */
  function StepAsWritten(w: World, e: Event): World
    requires Defined(e)
  {
    if e.Click? then Settle(w.game, HandleCardFlipAsWritten(w.game, e.selected), w.timers)
    else Step(w, e)
  }

  /**
   * What the environment guarantees: uuidv4 yields ids that are pairwise
   * different and new (none named by a waiting callback), and a click is on
   * a card of the deck as rendered.
   */
  ghost predicate Admissible(w: World, e: Event) {
    && Defined(e)
    && match e
       case NewGame(_, ids) =>
         Distinct(ids) &&
         forall k :: 0 <= k < |w.timers| ==> w.timers[k].one.id !in ids && w.timers[k].two.id !in ids
       case Click(selected) => selected in w.game.cards
       case TimerFires => true
  }

  // ---------------------------------------------------------------------
  // The invariant of a run.

  predicate Names(t: Timer, id: Id) {
    t.one.id == id || t.two.id == id
  }

  predicate IsChoice(s: Session, id: Id) {
    (s.choiceOne.Some? && s.choiceOne.value.id == id) || (s.choiceTwo.Some? && s.choiceTwo.value.id == id)
  }

  /**
   * Every card of the deck that a waiting callback names is face up and
   * unmatched, and it is a choice only while a pair is pending.
   */
  ghost predicate TimerSafe(s: Session, t: Timer) {
    forall i :: 0 <= i < |s.cards| && Names(t, s.cards[i].id) ==>
      s.cards[i].flipped && !s.cards[i].matched && (IsChoice(s, s.cards[i].id) ==> s.choiceTwo.Some?)
  }

  /** No card of the deck is named by both callbacks. */
  ghost predicate TimersApart(cards: seq<Card>, t: Timer, u: Timer) {
    forall i :: 0 <= i < |cards| ==> !(Names(t, cards[i].id) && Names(u, cards[i].id))
  }

  ghost predicate WorldInv(w: World) {
    && WellFormed(w.game)
    && |w.game.cards| == 2 * MaxGoodMatchCounter
    && (forall k :: 0 <= k < |w.timers| ==> TimerSafe(w.game, w.timers[k]))
    && (forall k, l :: 0 <= k < l < |w.timers| ==> TimersApart(w.game.cards, w.timers[k], w.timers[l]))
  }

  lemma SameIds(a: seq<Card>, b: seq<Card>)
    requires Ids(a) == Ids(b)
    ensures |a| == |b| && forall i :: 0 <= i < |a| ==> a[i].id == b[i].id
  {
    forall i | 0 <= i < |a| ensures a[i].id == b[i].id {
      assert Ids(a)[i] == Ids(b)[i];
    }
  }

  /**
   * Callbacks stay safe across a change of the deck that leaves every card
   * they name alone, when none of those cards is a choice afterwards.
   */
  lemma TimersStaySafe(before: Session, after: Session, timers: seq<Timer>)
    requires forall k :: 0 <= k < |timers| ==> TimerSafe(before, timers[k])
    requires forall k, l :: 0 <= k < l < |timers| ==> TimersApart(before.cards, timers[k], timers[l])
    requires Ids(after.cards) == Ids(before.cards)
    requires forall k, i :: 0 <= k < |timers| && 0 <= i < |before.cards| && Names(timers[k], before.cards[i].id) ==>
      after.cards[i] == before.cards[i] && !IsChoice(after, before.cards[i].id)
    ensures forall k :: 0 <= k < |timers| ==> TimerSafe(after, timers[k])
    ensures forall k, l :: 0 <= k < l < |timers| ==> TimersApart(after.cards, timers[k], timers[l])
  {
    SameIds(after.cards, before.cards);
  }

  // ---------------------------------------------------------------------
  // Each event keeps the invariant.

  lemma NewGameKeepsInv(w: World, draws: seq<int>, ids: seq<Id>)
    requires WorldInv(w) && Admissible(w, NewGame(draws, ids))
    ensures WorldInv(Step(w, NewGame(draws, ids)))
  {
    var deck := BuildDeck(CardImages, draws, ids);
    NewDeckWellFormed(draws, ids);
    assert Step(w, NewGame(draws, ids)) == World(HandleShuffle(deck), w.timers);
    forall k, i | 0 <= k < |w.timers| && 0 <= i < |deck|
      ensures !Names(w.timers[k], deck[i].id)
    {
      assert Ids(deck)[i] == ids[i];
    }
  }

  lemma TimerFiresKeepsInv(w: World)
    requires WorldInv(w)
    ensures WorldInv(Step(w, TimerFires))
  {
    if w.timers != [] {
      var t := w.timers[0];
      var g := MismatchTimeout(w.game, t);
      assert Step(w, TimerFires) == World(g, w.timers[1..]);
      TimeoutWellFormed(w.game, t);
      SameIds(g.cards, w.game.cards);
      forall k, i | 0 <= k < |w.timers[1..]| && 0 <= i < |w.game.cards| && Names(w.timers[1..][k], w.game.cards[i].id)
        ensures g.cards[i] == w.game.cards[i]
      {
        assert w.timers[1..][k] == w.timers[k + 1];
        assert TimersApart(w.game.cards, w.timers[0], w.timers[k + 1]);
      }
      TimersStaySafe(w.game, g, w.timers[1..]);
    }
  }

  lemma ClickKeepsInv(w: World, selected: Card)
    requires WorldInv(w) && Admissible(w, Click(selected))
    ensures WorldInv(Step(w, Click(selected)))
  {
    var g := w.game;
    var g1 := HandleCardFlip(g, selected);
    if g1 != g {
      FlipWellFormed(g, selected);
      var k :| 0 <= k < |g.cards| && g.cards[k] == selected;
      SameIds(g1.cards, g.cards);
      // No callback names the selected card: it is face down.
      forall j, i | 0 <= j < |w.timers| && 0 <= i < |g.cards| && Names(w.timers[j], g.cards[i].id)
        ensures g.cards[i].id != selected.id && !IsChoice(g1, g.cards[i].id)
      {
        assert TimerSafe(g, w.timers[j]);
      }
      TimersStaySafe(g, g1, w.timers);
      var res := ResolveChoices(g1);
      ResolveWellFormed(g1);
      if IsMatch(g1) {
        SameIds(res.0.cards, g1.cards);
        TimersStaySafe(g1, res.0, w.timers);
      } else if res.1.Some? {
        var t := res.1.value;
        assert Step(w, Click(selected)) == World(g1, w.timers + [t]);
        var ts := w.timers + [t];
        assert TimerSafe(g1, t);
        forall j | 0 <= j < |ts| ensures TimerSafe(g1, ts[j]) {
          if j < |w.timers| {
            assert ts[j] == w.timers[j];
          }
        }
        forall j, l | 0 <= j < l < |ts| ensures TimersApart(g1.cards, ts[j], ts[l]) {
          if l < |w.timers| {
            assert ts[j] == w.timers[j] && ts[l] == w.timers[l];
          } else {
            assert ts[j] == w.timers[j] && ts[l] == t;
          }
        }
      }
    }
  }

  /** Every admissible event keeps the invariant. */
  lemma StepKeepsInv(w: World, e: Event)
    requires WorldInv(w) && Admissible(w, e)
    ensures WorldInv(Step(w, e))
  {
    match e
    case NewGame(draws, ids) => NewGameKeepsInv(w, draws, ids);
    case Click(selected) => ClickKeepsInv(w, selected);
    case TimerFires => TimerFiresKeepsInv(w);
  }

  // ---------------------------------------------------------------------
  // Runs.

  ghost predicate AdmissibleRun(w: World, es: seq<Event>)
    decreases |es|
  {
    es == [] || (Admissible(w, es[0]) && AdmissibleRun(Step(w, es[0]), es[1..]))
  }

  ghost function Run(w: World, es: seq<Event>): World
    requires AdmissibleRun(w, es)
    decreases |es|
  {
    if es == [] then w else Run(Step(w, es[0]), es[1..])
  }

  /** The first render: a freshly built deck and no waiting callback. */
  function Start(draws: seq<int>, ids: seq<Id>): World
    requires ValidDraws(draws, 2 * |CardImages|) && |ids| == 2 * |CardImages|
  {
    World(HandleShuffle(BuildDeck(CardImages, draws, ids)), [])
  }

  lemma StartInv(draws: seq<int>, ids: seq<Id>)
    requires ValidDraws(draws, 2 * |CardImages|) && |ids| == 2 * |CardImages| && Distinct(ids)
    ensures WorldInv(Start(draws, ids))
  {
    NewDeckWellFormed(draws, ids);
  }

  lemma {:induction false} RunKeepsInv(w: World, es: seq<Event>)
    requires WorldInv(w) && AdmissibleRun(w, es)
    ensures WorldInv(Run(w, es))
    decreases |es|
  {
    if es != [] {
      StepKeepsInv(w, es[0]);
      RunKeepsInv(Step(w, es[0]), es[1..]);
    }
  }

  /**
   * In every state a run reaches from the first render, every card has
   * flipped == disabled and a matched card is disabled; there are at most
   * six good matches, and the game is won exactly when all twelve cards are
   * matched.
   */
  lemma ReachableStatesConsistent(draws: seq<int>, ids: seq<Id>, es: seq<Event>)
    requires ValidDraws(draws, 2 * |CardImages|) && |ids| == 2 * |CardImages| && Distinct(ids)
    requires AdmissibleRun(Start(draws, ids), es)
    ensures var g := Run(Start(draws, ids), es).game;
      && |g.cards| == 2 * MaxGoodMatchCounter
      && CardsConsistent(g.cards)
      && g.goodMatchCounter <= MaxGoodMatchCounter
      && (g.goodMatchCounter >= MaxGoodMatchCounter <==> forall i :: 0 <= i < |g.cards| ==> g.cards[i].matched)
  {
    StartInv(draws, ids);
    RunKeepsInv(Start(draws, ids), es);
    MatchedCountBound(Run(Start(draws, ids), es).game.cards);
  }

  // ---------------------------------------------------------------------
  // Counters.

  /**
   * New Game zeroes both counters and clears the choices; any other event
   * adds one to at most one counter.
   */
  lemma StepCounters(w: World, e: Event)
    requires Defined(e)
    ensures var g, g' := w.game, Step(w, e).game;
      if e.NewGame? then
        g'.failedCounter == 0 && g'.goodMatchCounter == 0 && g'.choiceOne.None? && g'.choiceTwo.None?
      else
        (g'.failedCounter, g'.goodMatchCounter) in
          {(g.failedCounter, g.goodMatchCounter), (g.failedCounter + 1, g.goodMatchCounter), (g.failedCounter, g.goodMatchCounter + 1)}
  {
    match e
    case NewGame(_, _) =>
    case Click(selected) =>
      var g1 := HandleCardFlip(w.game, selected);
      if g1 != w.game {
        var res := ResolveChoices(g1);
        assert res.0.failedCounter == g1.failedCounter;
      }
    case TimerFires =>
  }

  /** Once the game is over, clicks change nothing, in the source as written too. */
  lemma GameOverIgnoresClicks(w: World, selected: Card)
    requires w.game.failedCounter >= MaxFailedCounter
    ensures Step(w, Click(selected)) == w
    ensures StepAsWritten(w, Click(selected)) == w
  {
  }

  // ---------------------------------------------------------------------
  // A callback left over from the previous game.

  /**
   * New Game leaves a waiting callback in place. When it fires it changes
   * no card of the new deck, whose ids are new, but it still counts a
   * failure against the new game and clears its choices.
   */
  lemma StaleCallbackAfterNewGame(w: World, draws: seq<int>, ids: seq<Id>)
    requires Admissible(w, NewGame(draws, ids)) && w.timers != []
    ensures var w1 := Step(w, NewGame(draws, ids));
      var w2 := Step(w1, TimerFires);
      && w1.timers == w.timers
      && w2.game == w1.game.(failedCounter := 1)
      && w2.timers == w.timers[1..]
  {
    var deck := BuildDeck(CardImages, draws, ids);
    var w1 := Step(w, NewGame(draws, ids));
    assert w1 == World(HandleShuffle(deck), w.timers);
    var t := w.timers[0];
    assert t.one.id !in Ids(deck) && t.two.id !in Ids(deck);
    StaleTimeoutKeepsDeck(w1.game, t);
  }

  /**
   * A card picked in the new game before the old callback fires stays face
   * up and disabled with no choice naming it.
   */
  lemma StaleCallbackStrandsPick(w: World, draws: seq<int>, ids: seq<Id>, k: nat)
    requires Admissible(w, NewGame(draws, ids)) && w.timers != []
    requires k < 2 * |CardImages|
    ensures var w1 := Step(w, NewGame(draws, ids));
      var w2 := Step(w1, Click(w1.game.cards[k]));
      var w3 := Step(w2, TimerFires);
      && w3.game.cards[k].flipped && w3.game.cards[k].disabled && !w3.game.cards[k].matched
      && w3.game.choiceOne.None? && w3.game.choiceTwo.None?
  {
    var deck := BuildDeck(CardImages, draws, ids);
    var w1 := Step(w, NewGame(draws, ids));
    assert w1 == World(HandleShuffle(deck), w.timers);
    BuildDeckFromImages(CardImages, draws, ids);
    CardImagesStartHidden();
    assert deck[k] in deck;
    assert Hidden(Entry(deck[k]));
    var w2 := Step(w1, Click(deck[k]));
    var g1 := HandleCardFlip(w1.game, deck[k]);
    assert Ids(deck)[k] == deck[k].id;
    assert g1.cards[k] == Toggled(deck[k]);
    assert w2 == World(g1, w.timers);
    var t := w.timers[0];
    assert t.one.id !in Ids(deck) && t.two.id !in Ids(deck);
    assert Ids(g1.cards) == Ids(deck);
    StaleTimeoutKeepsDeck(g1, t);
  }

  // ---------------------------------------------------------------------
  // The third click.

  /**
   * As written, a click during a pending mismatch overwrites choiceTwo. Pick
   * a, then b with another picture, then c with a's picture before the
   * callback fires: a and c match, then the callback turns a face down and
   * selectable while it stays matched.
   */
  lemma ThirdClickUnhidesMatchedCard(w: World, a: nat, b: nat, c: nat)
    requires WorldInv(w) && w.timers == []
    requires w.game.choiceOne.None? && w.game.choiceTwo.None? && w.game.failedCounter < MaxFailedCounter
    requires a < |w.game.cards| && b < |w.game.cards| && c < |w.game.cards| && a != b && b != c && a != c
    requires Hidden(Entry(w.game.cards[a])) && Hidden(Entry(w.game.cards[b])) && Hidden(Entry(w.game.cards[c]))
    requires w.game.cards[a].src == w.game.cards[c].src != w.game.cards[b].src
    ensures var cs := w.game.cards;
      var w4 := StepAsWritten(StepAsWritten(StepAsWritten(StepAsWritten(w, Click(cs[a])), Click(cs[b])), Click(cs[c])), TimerFires);
      w4.game.cards[a].matched && !w4.game.cards[a].disabled && !w4.game.cards[a].flipped
  {
    var cs := w.game.cards;
    var ids := Ids(cs);
    assert ids[a] != ids[b] && ids[b] != ids[c] && ids[a] != ids[c];
    var w1 := StepAsWritten(w, Click(cs[a]));
    var cs1 := FlipCard(cs, cs[a].id);
    FlipChangesOnlySelected(cs, a);
    assert w1 == World(w.game.(cards := cs1, choiceOne := Some(cs[a])), []);
    var w2 := StepAsWritten(w1, Click(cs[b]));
    var cs2 := FlipCard(cs1, cs[b].id);
    assert cs1[b] == cs[b];
    FlipChangesOnlySelected(cs1, b);
    assert w2 == World(w1.game.(cards := cs2, choiceTwo := Some(cs[b])), [Timer(cs[a], cs[b])]);
    var w3 := StepAsWritten(w2, Click(cs[c]));
    var cs3 := FlipCard(cs2, cs[c].id);
    assert cs2[c] == cs[c];
    FlipChangesOnlySelected(cs2, c);
    var cs3m := MatchCards(cs3, cs[a].id, cs[c].id);
    assert w3.game.cards == cs3m;
    assert cs3m[a].matched;
    assert w3.timers == [Timer(cs[a], cs[b])];
    var w4 := StepAsWritten(w3, TimerFires);
    assert w4.game.cards == TurnDownCards(cs3m, cs[a].id, cs[b].id);
  }

  /**
   * With clicks ignored while a pair is pending, the same three clicks
   * leave the third card alone, and the callback turns the first two face
   * down, unmatched.
   */
  lemma ThirdClickIgnored(w: World, a: nat, b: nat, c: nat)
    requires WorldInv(w) && w.timers == []
    requires w.game.choiceOne.None? && w.game.choiceTwo.None? && w.game.failedCounter < MaxFailedCounter
    requires a < |w.game.cards| && b < |w.game.cards| && c < |w.game.cards| && a != b && b != c && a != c
    requires Hidden(Entry(w.game.cards[a])) && Hidden(Entry(w.game.cards[b])) && Hidden(Entry(w.game.cards[c]))
    requires w.game.cards[a].src == w.game.cards[c].src != w.game.cards[b].src
    ensures var cs := w.game.cards;
      var w2 := Step(Step(w, Click(cs[a])), Click(cs[b]));
      var w3 := Step(w2, Click(cs[c]));
      var w4 := Step(w3, TimerFires);
      && w3 == w2
      && w4.game.cards == cs
      && w4.game.failedCounter == w.game.failedCounter + 1
      && WorldInv(w4)
  {
    var cs := w.game.cards;
    var ids := Ids(cs);
    assert ids[a] != ids[b] && ids[b] != ids[c] && ids[a] != ids[c];
    var w1 := Step(w, Click(cs[a]));
    var cs1 := FlipCard(cs, cs[a].id);
    FlipChangesOnlySelected(cs, a);
    assert w1 == World(w.game.(cards := cs1, choiceOne := Some(cs[a])), []);
    var w2 := Step(w1, Click(cs[b]));
    var cs2 := FlipCard(cs1, cs[b].id);
    assert cs1[b] == cs[b];
    FlipChangesOnlySelected(cs1, b);
    assert w2 == World(w1.game.(cards := cs2, choiceTwo := Some(cs[b])), [Timer(cs[a], cs[b])]);
    var w4 := Step(w2, TimerFires);
    var cs4 := TurnDownCards(cs2, cs[a].id, cs[b].id);
    assert w4.game.cards == cs4;
    forall i | 0 <= i < |cs| ensures cs4[i] == cs[i] {
      assert ids[i] == cs[i].id;
    }
    assert Admissible(w, Click(cs[a]));
    StepKeepsInv(w, Click(cs[a]));
    assert Admissible(w1, Click(cs[b])) by { assert cs1[b] == cs[b]; }
    StepKeepsInv(w1, Click(cs[b]));
    StepKeepsInv(w2, TimerFires);
  }

  /**
   * The first deal with every draw equal to `left` keeps the doubled list in
   * order, so cards 0, 1 and 6 show the first, second and first picture:
   * the three clicks above are possible from the very first render.
   */
  lemma ThirdClickFromFirstDeal(ids: seq<Id>)
    requires |ids| == 2 * |CardImages| && Distinct(ids)
    ensures var w := Start([0, 1, 2, 3, 4, 5], ids);
      var cs := w.game.cards;
      var w4 := StepAsWritten(StepAsWritten(StepAsWritten(StepAsWritten(w, Click(cs[0])), Click(cs[1])), Click(cs[6])), TimerFires);
      w4.game.cards[0].matched && !w4.game.cards[0].disabled
  {
    var draws := [0, 1, 2, 3, 4, 5];
    var doubled := CardImages + CardImages;
    SwapsInPlaceKeepOrder(doubled, draws, |doubled| / 2);
    var deck := BuildDeck(CardImages, draws, ids);
    assert Entries(deck) == doubled;
    assert Entries(deck)[0] == Entry(deck[0]) && Entries(deck)[1] == Entry(deck[1]) && Entries(deck)[6] == Entry(deck[6]);
    StartInv(draws, ids);
    ThirdClickUnhidesMatchedCard(Start(draws, ids), 0, 1, 6);
  }
}
