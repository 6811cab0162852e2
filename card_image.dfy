/**
 * The card record of the memory game. An image entry is a card before it
 * receives an id; a card on the board carries one.
 */
module CardImage {
  /** The URL that an image import resolves to. */
  type Src = string

  /** A card identity, as produced by uuidv4. */
  type Id = string

  /** An entry of the image list: the card fields without an id. */
  datatype ImageEntry = ImageEntry(src: Src, matched: bool, flipped: bool, disabled: bool)

  /** A card on the board. */
  datatype Card = Card(id: Id, src: Src, matched: bool, flipped: bool, disabled: bool)

  /** `{ ...entry, id }`: an entry stamped with an id. */
  function Stamp(e: ImageEntry, id: Id): Card {
    Card(id, e.src, e.matched, e.flipped, e.disabled)
  }

  /** A card with its id dropped. */
  function Entry(c: Card): ImageEntry {
    ImageEntry(c.src, c.matched, c.flipped, c.disabled)
  }

  function Ids(cards: seq<Card>): seq<Id> {
    seq(|cards|, i requires 0 <= i < |cards| => cards[i].id)
  }

  function Srcs(cards: seq<Card>): seq<Src> {
    seq(|cards|, i requires 0 <= i < |cards| => cards[i].src)
  }

  function Entries(cards: seq<Card>): seq<ImageEntry> {
    seq(|cards|, i requires 0 <= i < |cards| => Entry(cards[i]))
  }

  function EntrySrcs(es: seq<ImageEntry>): seq<Src> {
    seq(|es|, i requires 0 <= i < |es| => es[i].src)
  }

  predicate Distinct<T(==)>(s: seq<T>) {
    forall i, j :: 0 <= i < j < |s| ==> s[i] != s[j]
  }

  /** No two cards share an id. */
  predicate DistinctIds(cards: seq<Card>) {
    Distinct(Ids(cards))
  }

  /** Face down, selectable and unmatched: how every card starts. */
  predicate Hidden(e: ImageEntry) {
    !e.matched && !e.flipped && !e.disabled
  }

  /** In a sequence without repetitions every element occurs exactly once. */
  lemma {:induction false} DistinctOccursOnce<T>(s: seq<T>, x: T)
    requires Distinct(s)
    ensures multiset(s)[x] == if x in s then 1 else 0
  {
    if s != [] {
      assert s == [s[0]] + s[1..];
      assert Distinct(s[1..]) by {
        forall i, j | 0 <= i < j < |s[1..]| ensures s[1..][i] != s[1..][j] {
          assert s[1..][i] == s[i + 1] && s[1..][j] == s[j + 1];
        }
      }
      DistinctOccursOnce(s[1..], x);
      if x == s[0] {
        assert x !in s[1..] by {
          forall k | 0 <= k < |s[1..]| ensures s[1..][k] != x {
            assert s[1..][k] == s[k + 1];
          }
        }
      }
    }
  }
}
