/**
 * The deck builder: the image list doubled, shuffled in place by a
 * two-pointer swap loop, then stamped with fresh ids.
 *
 * Math.random is an oracle: `draws[k]` is the index `j` drawn on the
 * iteration where `left == k`. uuidv4 is an oracle too: `ids[i]` is the id
 * given to the i-th card of the shuffled list.
 */
module CardUtils {
  import opened CardImage
  import opened Constants

  /**
   * One draw per iteration of the loop, each in [left, right]: Math.random()
   * lies in [0, 1), so `floor(random * (right - left + 1)) + left` does.
   */
  predicate ValidDraws(draws: seq<int>, n: nat) {
    |draws| == n / 2 && forall k :: 0 <= k < n / 2 ==> k <= draws[k] <= n - 1 - k
  }

  function Swap<T>(s: seq<T>, i: nat, j: nat): seq<T>
    requires i < |s| && j < |s|
  {
    s[i := s[j]][j := s[i]]
  }

  /** The list after the first `k` iterations of the shuffle loop. */
  function SwapsUpTo<T>(s: seq<T>, draws: seq<int>, k: nat): (r: seq<T>)
    requires ValidDraws(draws, |s|) && k <= |s| / 2
    ensures |r| == |s|
  {
    if k == 0 then s else Swap(SwapsUpTo(s, draws, k - 1), k - 1, draws[k - 1])
  }

  /** The list after the whole loop: it runs floor(n / 2) times. */
  function Shuffled<T>(s: seq<T>, draws: seq<int>): (r: seq<T>)
    requires ValidDraws(draws, |s|)
    ensures |r| == |s|
    ensures |s| <= 1 ==> r == s
  {
    SwapsUpTo(s, draws, |s| / 2)
  }

  lemma SwapPermutes<T>(s: seq<T>, i: nat, j: nat)
    requires i < |s| && j < |s|
    ensures multiset(Swap(s, i, j)) == multiset(s)
  {
  }

  lemma {:induction false} SwapsUpToPermutes<T>(s: seq<T>, draws: seq<int>, k: nat)
    requires ValidDraws(draws, |s|) && k <= |s| / 2
    ensures multiset(SwapsUpTo(s, draws, k)) == multiset(s)
  {
    if k > 0 {
      var prev := SwapsUpTo(s, draws, k - 1);
      var j: nat := draws[k - 1];
      calc {
        multiset(SwapsUpTo(s, draws, k));
        multiset(Swap(prev, k - 1, j));
        { SwapPermutes(prev, k - 1, j); }
        multiset(prev);
        { SwapsUpToPermutes(s, draws, k - 1); }
        multiset(s);
      }
    }
  }

  /** The shuffle only swaps, so it returns a permutation of its input. */
  lemma ShuffledIsPermutation<T>(s: seq<T>, draws: seq<int>)
    requires ValidDraws(draws, |s|)
    ensures multiset(Shuffled(s, draws)) == multiset(s)
  {
    SwapsUpToPermutes(s, draws, |s| / 2);
  }

  /**
   * Once the iteration with `left == i` is done, position i is never written
   * again: every later swap touches only indices greater than i.
   */
  lemma {:induction false} SwapsUpToSettled<T>(s: seq<T>, draws: seq<int>, i: nat, k: nat)
    requires ValidDraws(draws, |s|) && i < k <= |s| / 2
    ensures SwapsUpTo(s, draws, k)[i] == SwapsUpTo(s, draws, i + 1)[i]
  {
    if k > i + 1 {
      SwapsUpToSettled(s, draws, i, k - 1);
    }
  }

  /** Drawing `j == left` every time leaves the list as it was. */
  lemma {:induction false} SwapsInPlaceKeepOrder<T>(s: seq<T>, draws: seq<int>, k: nat)
    requires ValidDraws(draws, |s|) && k <= |s| / 2
    requires forall m :: 0 <= m < |s| / 2 ==> draws[m] == m
    ensures SwapsUpTo(s, draws, k) == s
  {
    if k > 0 {
      SwapsInPlaceKeepOrder(s, draws, k - 1);
    }
  }

  /**
   * `shuffle`: the two-pointer loop over the array, in place. It returns the
   * array it was given.
   */
  method Shuffle<T>(cardImages: array<T>, draws: seq<int>) returns (r: array<T>)
    requires ValidDraws(draws, cardImages.Length)
    modifies cardImages
    ensures r == cardImages
    ensures cardImages[..] == Shuffled(old(cardImages[..]), draws)
    ensures multiset(cardImages[..]) == multiset(old(cardImages[..]))
  {
    var left, right := 0, cardImages.Length - 1;
    while left < right
      invariant 0 <= left <= cardImages.Length / 2
      invariant right == cardImages.Length - 1 - left
      invariant cardImages[..] == SwapsUpTo(old(cardImages[..]), draws, left)
    {
      var j := draws[left];
      cardImages[left], cardImages[j] := cardImages[j], cardImages[left];
      left := left + 1;
      right := right - 1;
    }
    ShuffledIsPermutation(old(cardImages[..]), draws);
    r := cardImages;
  }

  /** `.map(card => ({ ...card, id: uuidv4() }))`. */
  function StampIds(entries: seq<ImageEntry>, ids: seq<Id>): (deck: seq<Card>)
    requires |ids| == |entries|
    ensures Ids(deck) == ids
    ensures Entries(deck) == entries
  {
    seq(|entries|, i requires 0 <= i < |entries| => Stamp(entries[i], ids[i]))
  }

  /** The deck `createShuffledCards` builds from an image list. */
  function BuildDeck(images: seq<ImageEntry>, draws: seq<int>, ids: seq<Id>): (deck: seq<Card>)
    requires ValidDraws(draws, 2 * |images|) && |ids| == 2 * |images|
    ensures |deck| == 2 * |images|
    ensures Ids(deck) == ids
    ensures Distinct(ids) ==> DistinctIds(deck)
    ensures Entries(deck) == Shuffled(images + images, draws)
  {
    StampIds(Shuffled(images + images, draws), ids)
  }

  /** The deck holds each image entry exactly twice as often as the list does. */
  lemma BuildDeckComposition(images: seq<ImageEntry>, draws: seq<int>, ids: seq<Id>)
    requires ValidDraws(draws, 2 * |images|) && |ids| == 2 * |images|
    ensures multiset(Entries(BuildDeck(images, draws, ids))) == multiset(images) + multiset(images)
  {
    ShuffledIsPermutation(images + images, draws);
  }

  lemma {:induction false} SwapsUpToKeepsSrcs(es: seq<ImageEntry>, draws: seq<int>, k: nat)
    requires ValidDraws(draws, |es|) && k <= |es| / 2
    ensures EntrySrcs(SwapsUpTo(es, draws, k)) == SwapsUpTo(EntrySrcs(es), draws, k)
  {
    if k > 0 {
      SwapsUpToKeepsSrcs(es, draws, k - 1);
    }
  }

  /**
   * With pairwise different pictures, every picture is on exactly two cards
   * of the deck, and no other picture is on any.
   */
  lemma EachSourceTwice(images: seq<ImageEntry>, draws: seq<int>, ids: seq<Id>, x: Src)
    requires ValidDraws(draws, 2 * |images|) && |ids| == 2 * |images|
    requires Distinct(EntrySrcs(images))
    ensures multiset(Srcs(BuildDeck(images, draws, ids)))[x] == if x in EntrySrcs(images) then 2 else 0
  {
    var doubled := images + images;
    var deck := BuildDeck(images, draws, ids);
    assert Srcs(deck) == EntrySrcs(Entries(deck));
    SwapsUpToKeepsSrcs(doubled, draws, |doubled| / 2);
    ShuffledIsPermutation(EntrySrcs(doubled), draws);
    assert EntrySrcs(doubled) == EntrySrcs(images) + EntrySrcs(images);
    DistinctOccursOnce(EntrySrcs(images), x);
  }

  /** Every card of the deck carries the fields of some entry of the list. */
  lemma BuildDeckFromImages(images: seq<ImageEntry>, draws: seq<int>, ids: seq<Id>)
    requires ValidDraws(draws, 2 * |images|) && |ids| == 2 * |images|
    ensures forall c :: c in BuildDeck(images, draws, ids) ==> Entry(c) in images
  {
    var deck := BuildDeck(images, draws, ids);
    BuildDeckComposition(images, draws, ids);
    forall c | c in deck ensures Entry(c) in images {
      var i :| 0 <= i < |deck| && deck[i] == c;
      assert Entries(deck)[i] == Entry(c);
      assert Entry(c) in multiset(Entries(deck));
    }
  }

  /** `createShuffledCards`: double the picture list, shuffle it, stamp ids. */
  method CreateShuffledCards(draws: seq<int>, ids: seq<Id>) returns (deck: seq<Card>)
    requires ValidDraws(draws, 2 * |CardImages|) && |ids| == 2 * |CardImages|
    ensures deck == BuildDeck(CardImages, draws, ids)
  {
    var doubled := CardImages + CardImages;
    var cardImages := new ImageEntry[|doubled|](i requires 0 <= i < |doubled| => doubled[i]);
    assert cardImages[..] == doubled;
    cardImages := Shuffle(cardImages, draws);
    deck := StampIds(cardImages[..], ids);
  }
}
