/** The running count of a card set's cards: the total, the crypt cards
    and the library cards, kept up to date as cards are loaded, added and
    removed. */
module CountCardSetCards {
  import opened Cards

  /** A card of the set: the physical card's id and its abstract card. */
  datatype SetCard = SetCard(id: nat, card: AbstractCard)

  /** Every card has a type, so it is either a crypt card or a library card. */
  predicate Typed(cards: seq<SetCard>) {
    forall i :: 0 <= i < |cards| ==> |cards[i].card.cardTypes| > 0
  }

  /** A physical card id always stands for the same abstract card. */
  predicate SameIdSameCard(cards: seq<SetCard>) {
    forall i, j :: 0 <= i < |cards| && 0 <= j < |cards| && cards[i].id == cards[j].id ==> cards[i].card == cards[j].card
  }

  /** The number of crypt cards among `cards`. */
  function CryptCount(cards: seq<SetCard>): (n: nat)
    requires Typed(cards)
    ensures n <= |cards|
  {
    if |cards| == 0 then 0
    else
      var init := cards[..|cards| - 1];
      assert forall i :: 0 <= i < |init| ==> init[i] == cards[i];
      CryptCount(init) + (if IsCryptCard(cards[|cards| - 1].card) then 1 else 0)
  }

  /** The toolbar counter of a card set's view. */
  class CardSetCounter {
    var total: int
    var crypt: int
    var library: int

    /** The total is always the crypt count plus the library count. */
    ghost predicate Valid()
      reads this
    {
      total == crypt + library
    }

    constructor()
      ensures Valid() && total == 0 && crypt == 0 && library == 0
    {
      total, crypt, library := 0, 0, 0;
    }

    /** `_get_count_info`: the three counters by name. */
    function CountInfo(): (m: map<string, int>)
      reads this
      requires Valid()
      ensures m.Keys == {"tot", "crypt", "lib"}
      ensures m["tot"] == total && m["crypt"] == crypt && m["lib"] == library
      ensures m["tot"] == m["crypt"] + m["lib"]
    {
      map["tot" := total, "crypt" := crypt, "lib" := library]
    }

    /** `_do_load`: the counters reset, the total is the number of cards
        and each card counts as crypt or library; the crypt test is cached
        by physical card id for the length of the load. */
    method Load(cards: seq<SetCard>)
      requires Typed(cards) && SameIdSameCard(cards)
      modifies this
      ensures Valid()
      ensures total == |cards| && crypt == CryptCount(cards) && library == |cards| - CryptCount(cards)
    {
      var cache: map<nat, bool> := map[];
      crypt := 0;
      library := 0;
      total := |cards|;
      for i := 0 to |cards|
        invariant total == |cards|
        invariant crypt == CryptCount(cards[..i]) && library == i - crypt
        invariant forall id :: id in cache ==>
          exists j :: 0 <= j < i && cards[j].id == id && cache[id] == IsCryptCard(cards[j].card)
      {
        assert cards[..i + 1][..i] == cards[..i];
        var c := cards[i];
        var isCrypt: bool;
        if c.id in cache {
          isCrypt := cache[c.id];
        } else {
          isCrypt := IsCryptCard(c.card);
          cache := cache[c.id := isCrypt];
        }
        assert isCrypt == IsCryptCard(c.card);
        if isCrypt {
          crypt := crypt + 1;
        } else {
          library := library + 1;
        }
      }
      assert cards[..|cards|] == cards;
    }

    /** The change of one card's count by `delta`, on the total and on
        its half. */
    method Adjust(card: AbstractCard, delta: int)
      requires Valid() && |card.cardTypes| > 0
      modifies this
      ensures Valid()
      ensures total == old(total) + delta
      ensures IsCryptCard(card) ==> crypt == old(crypt) + delta && library == old(library)
      ensures !IsCryptCard(card) ==> library == old(library) + delta && crypt == old(crypt)
    {
      total := total + delta;
      if IsCryptCard(card) {
        crypt := crypt + delta;
      } else {
        library := library + delta;
      }
    }

    /** `_do_alter_card_count`. */
    method AlterCardCount(card: AbstractCard, change: int)
      requires Valid() && |card.cardTypes| > 0
      modifies this
      ensures Valid()
      ensures total == old(total) + change
      ensures IsCryptCard(card) ==> crypt == old(crypt) + change && library == old(library)
      ensures !IsCryptCard(card) ==> library == old(library) + change && crypt == old(crypt)
    {
      Adjust(card, change);
    }

    /** `_do_add_new_card`. */
    method AddNewCard(card: AbstractCard, count: int)
      requires Valid() && |card.cardTypes| > 0
      modifies this
      ensures Valid()
      ensures total == old(total) + count
      ensures IsCryptCard(card) ==> crypt == old(crypt) + count && library == old(library)
      ensures !IsCryptCard(card) ==> library == old(library) + count && crypt == old(crypt)
    {
      Adjust(card, count);
    }
  }

  /** The crypt count of a list is the count of the crypt cards in it:
      splitting a list splits its crypt count. */
  lemma {:induction false} CryptCountConcat(a: seq<SetCard>, b: seq<SetCard>)
    requires Typed(a) && Typed(b)
    ensures Typed(a + b)
    ensures CryptCount(a + b) == CryptCount(a) + CryptCount(b)
  {
    assert Typed(a + b) by {
      assert forall i :: 0 <= i < |a + b| ==> (a + b)[i] == if i < |a| then a[i] else b[i - |a|];
    }
    if |b| > 0 {
      var init := b[..|b| - 1];
      assert Typed(init) by {
        assert forall i :: 0 <= i < |init| ==> init[i] == b[i];
      }
      CryptCountConcat(a, init);
      assert (a + b)[..|a + b| - 1] == a + init;
      assert (a + b)[|a + b| - 1] == b[|b| - 1];
    } else {
      assert a + b == a;
    }
  }
}
