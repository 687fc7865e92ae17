/** A shuffled 52-card deck that dispenses its cards one at a time through a cursor. */
module Decks {
  import opened Wrappers
  import opened Cards

  predicate Distinct(s: seq<Card>) {
    forall i, j :: 0 <= i < j < |s| ==> s[i] != s[j]
  }

  /** `s` is what shuffling `Card.values()` can produce: a permutation of the 52 cards. */
  predicate IsShuffleOfAllCards(s: seq<Card>) {
    multiset(s) == multiset(AllCards())
  }

  lemma {:induction false} DistinctCountsOnce(t: seq<Card>, x: Card)
    requires Distinct(t)
    ensures multiset(t)[x] <= 1
  {
    if t != [] {
      assert t == [t[0]] + t[1..];
      assert Distinct(t[1..]) by {
        forall i, j | 0 <= i < j < |t[1..]| ensures t[1..][i] != t[1..][j] {
          assert t[1..][i] == t[i + 1] && t[1..][j] == t[j + 1];
        }
      }
      DistinctCountsOnce(t[1..], x);
      if x == t[0] {
        assert x !in t[1..] by {
          forall k | 0 <= k < |t[1..]| ensures t[1..][k] != x {
            assert t[1..][k] == t[k + 1];
          }
        }
      }
    }
  }

  /** A shuffle has 52 cards, holds every card and holds none twice. */
  lemma ShuffleHoldsEveryCardOnce(s: seq<Card>)
    requires IsShuffleOfAllCards(s)
    ensures |s| == 52
    ensures forall c: Card :: c in s
    ensures Distinct(s)
  {
    assert |s| == |multiset(s)| == |multiset(AllCards())| == 52;
    forall c: Card ensures c in s {
      assert AllCards()[c.ordinal] == c;
      assert c in multiset(AllCards());
    }
    forall i, j | 0 <= i < j < |s| ensures s[i] != s[j] {
      if s[i] == s[j] {
        var x := s[i];
        assert s == s[..j] + s[j..];
        assert x in s[..j] && x == s[j..][0];
        assert multiset(s)[x] == multiset(s[..j])[x] + multiset(s[j..])[x];
        DistinctCountsOnce(AllCards(), x);
        assert false;
      }
    }
  }

  /** `Card.values()` itself is a shuffle (the identity permutation). */
  lemma AllCardsIsShuffle()
    ensures IsShuffleOfAllCards(AllCards())
  {
  }

  /** The three states of a deck. */
  datatype Phase = Fresh | Dispensing | Exhausted

  class Deck {
    /** The draw order, fixed when the deck is made; a copy shares it. */
    const shuffled: seq<Card>
    /** The index of the next card to dispense (an `AtomicInteger` in the source). */
    var firstUndispensed: nat

    ghost predicate Valid()
      reads this
    {
      IsShuffleOfAllCards(shuffled) && |shuffled| == 52 && firstUndispensed <= 52
    }

    /** The cards dispensed so far, in order. */
    ghost function Dispensed(): seq<Card>
      reads this
      requires Valid()
    {
      shuffled[..firstUndispensed]
    }

    /** The cards still to come, in the order they will be dispensed. */
    ghost function Remaining(): seq<Card>
      reads this
      requires Valid()
    {
      shuffled[firstUndispensed..]
    }

    ghost function CurrentPhase(): Phase
      reads this
      requires Valid()
    {
      if firstUndispensed == 0 then Fresh
      else if firstUndispensed < 52 then Dispensing
      else Exhausted
    }

    /** `private Deck()`: the shuffle of `Card.values()` is supplied by the caller. */
    constructor (shuffle: seq<Card>)
      requires IsShuffleOfAllCards(shuffle)
      ensures Valid()
      ensures shuffled == shuffle && firstUndispensed == 0
      ensures CurrentPhase() == Fresh && Dispensed() == [] && Remaining() == shuffle
    {
      ShuffleHoldsEveryCardOnce(shuffle);
      shuffled := shuffle;
      firstUndispensed := 0;
    }

    /** `private Deck(Deck deck)`: the same draw order and a snapshot of the cursor. */
    constructor Copy(deck: Deck)
      requires deck.Valid()
      ensures Valid()
      ensures shuffled == deck.shuffled && firstUndispensed == deck.firstUndispensed
      ensures Remaining() == deck.Remaining()
    {
      shuffled := deck.shuffled;
      firstUndispensed := deck.firstUndispensed;
    }

    /** `Deck.newDeck()`: a fresh deck over the given shuffle. */
    static method NewDeck(shuffle: seq<Card>) returns (d: Deck)
      requires IsShuffleOfAllCards(shuffle)
      ensures fresh(d) && d.Valid()
      ensures d.shuffled == shuffle && d.firstUndispensed == 0
      ensures d.CurrentPhase() == Fresh && d.Remaining() == shuffle
    {
      d := new Deck(shuffle);
    }

    /** `Deck.copyOf()`: a new deck with this deck's draw order and cursor. */
    method CopyOf() returns (d: Deck)
      requires Valid()
      ensures fresh(d) && d.Valid()
      ensures d.shuffled == shuffled && d.firstUndispensed == firstUndispensed
      ensures d.Remaining() == Remaining()
    {
      d := new Deck.Copy(this);
    }

    /** `Deck.hasNext()`: whether a card is left; changes nothing. */
    method HasNext() returns (b: bool)
      requires Valid()
      ensures b <==> firstUndispensed < 52
      ensures b <==> Remaining() != []
      ensures b <==> CurrentPhase() != Exhausted
    {
      b := firstUndispensed < 52;
    }

    /** `Deck.next()`: fetch-and-increment of the cursor; on overflow the increment is undone
        and the call throws, otherwise the card at the old cursor is returned. */
    method Next() returns (r: Result<Card>)
      requires Valid()
      modifies this
      ensures Valid()
      ensures old(firstUndispensed) < 52 ==>
        r == Ok(shuffled[old(firstUndispensed)]) && firstUndispensed == old(firstUndispensed) + 1
      ensures old(firstUndispensed) >= 52 ==> r == Err && firstUndispensed == old(firstUndispensed)
      ensures r.Ok? ==> Dispensed() == old(Dispensed()) + [r.value] && old(Remaining()) == [r.value] + Remaining()
      ensures r.Err? <==> old(CurrentPhase()) == Exhausted
    {
      var index := firstUndispensed;
      firstUndispensed := firstUndispensed + 1;
      if index >= 52 {
        firstUndispensed := firstUndispensed - 1;
        return Err;
      }
      assert shuffled[..index + 1] == shuffled[..index] + [shuffled[index]];
      return Ok(shuffled[index]);
    }
  }

  /** Dispensing a fresh deck to the end: 52 calls of `next()` return every card exactly
      once, in the draw order, and a 53rd call fails. */
  method DealOut(d: Deck) returns (hand: seq<Card>, extra: Result<Card>)
    requires d.Valid() && d.CurrentPhase() == Fresh
    modifies d
    ensures d.Valid() && d.CurrentPhase() == Exhausted
    ensures hand == d.shuffled && |hand| == 52 && Distinct(hand)
    ensures forall c: Card :: c in hand
    ensures extra == Err
  {
    hand := [];
    for i := 0 to 52
      invariant d.Valid() && d.firstUndispensed == i
      invariant hand == d.Dispensed()
    {
      var r := d.Next();
      hand := hand + [r.value];
    }
    extra := d.Next();
    assert d.shuffled[..52] == d.shuffled;
    ShuffleHoldsEveryCardOnce(d.shuffled);
  }

  /** A copy made at cursor k and its original both go on with `shuffled[k..]`: one draw
      from each gives the same card, and each draw moves only its own deck's cursor. */
  method DrawFromBoth(d: Deck) returns (copy: Deck, fromCopy: Result<Card>, fromOriginal: Result<Card>)
    requires d.Valid()
    modifies d
    ensures fresh(copy) && copy.Valid() && d.Valid()
    ensures copy.shuffled == d.shuffled
    ensures fromCopy == fromOriginal
    ensures old(d.firstUndispensed) < 52 ==>
      fromOriginal == Ok(old(d.Remaining())[0]) &&
      d.firstUndispensed == copy.firstUndispensed == old(d.firstUndispensed) + 1
    ensures old(d.firstUndispensed) >= 52 ==>
      fromOriginal == Err && d.firstUndispensed == copy.firstUndispensed == old(d.firstUndispensed)
  {
    copy := d.CopyOf();
    fromCopy := copy.Next();
    fromOriginal := d.Next();
  }
}
