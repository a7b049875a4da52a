/** The counts shown for the full card list: the number of distinct
    abstract cards, and the number of listed printings with an expansion,
    each split into crypt and library. */
module CountWWListCards {
  import opened Wrappers
  import opened Cards

  /** An entry of the card list: a physical card, as the id and the value
      of its abstract card and the id of its expansion, if it has one. The
      dictionaries of the source are keyed by the abstract card object,
      which the model identifies by its database id. */
  datatype ListEntry = ListEntry(absId: nat, card: AbstractCard, expansionId: Option<int>)

  /** The entry counts towards the expansions: its expansion id is set and
      not zero (a zero id is false in the source's test). */
  predicate HasExpansion(e: ListEntry) {
    e.expansionId.Some? && e.expansionId.value != 0
  }

  /** The entry's card is a crypt card; a card without a type is on the
      library side (the load itself requires every card to have a type). */
  predicate InCrypt(e: ListEntry) {
    |e.card.cardTypes| > 0 && IsCryptCard(e.card)
  }

  /** Every entry's card has a type. */
  predicate Typed(es: seq<ListEntry>) {
    forall i :: 0 <= i < |es| ==> |es[i].card.cardTypes| > 0
  }

  /** An abstract card id always stands for the same card. */
  predicate SameIdSameCard(es: seq<ListEntry>) {
    forall i, j :: 0 <= i < |es| && 0 <= j < |es| && es[i].absId == es[j].absId ==> es[i].card == es[j].card
  }

  /** Card a has an entry in the list. */
  ghost predicate Listed(es: seq<ListEntry>, a: nat) {
    exists i :: 0 <= i < |es| && es[i].absId == a
  }

  /** Card a has an entry in the list on the crypt side or the library
      side, as `crypt` says. */
  ghost predicate ListedAs(es: seq<ListEntry>, a: nat, crypt: bool) {
    exists i :: 0 <= i < |es| && es[i].absId == a && InCrypt(es[i]) == crypt
  }

  /** The distinct abstract cards in the list, with `crypt` selecting the
      crypt cards or the library cards. */
  ghost function DistinctOf(es: seq<ListEntry>, crypt: bool): set<nat> {
    if |es| == 0 then {}
    else
      var e := es[|es| - 1];
      DistinctOf(es[..|es| - 1], crypt) + (if InCrypt(e) == crypt then {e.absId} else {})
  }

  /** The entries whose card has no earlier entry, with `crypt` selecting
      the crypt side or the library side: the count of distinct cards
      taken in list order. */
  ghost function FirstSeen(es: seq<ListEntry>, crypt: bool): nat {
    if |es| == 0 then 0
    else
      var init, e := es[..|es| - 1], es[|es| - 1];
      FirstSeen(init, crypt) + (if !Listed(init, e.absId) && InCrypt(e) == crypt then 1 else 0)
  }

  /** The entries that have an expansion, with `crypt` selecting crypt or
      library entries. */
  function WithExpansion(es: seq<ListEntry>, crypt: bool): (n: nat)
    ensures n <= |es|
  {
    if |es| == 0 then 0
    else
      var e := es[|es| - 1];
      WithExpansion(es[..|es| - 1], crypt) + (if HasExpansion(e) && InCrypt(e) == crypt then 1 else 0)
  }

  /** The entries of card a that have an expansion. */
  function ExpansionsOf(es: seq<ListEntry>, a: nat): (n: nat)
    ensures n <= |es|
  {
    if |es| == 0 then 0
    else
      var e := es[|es| - 1];
      ExpansionsOf(es[..|es| - 1], a) + (if e.absId == a && HasExpansion(e) then 1 else 0)
  }

  /** The card-list counter. The two totals dictionaries, keyed `tot`,
      `crypt` and `lib`, are kept as three fields each; the per-card
      dictionaries record the cards seen and each card's number of entries
      with an expansion. */
  class WWListCounter {
    var cardTot: int
    var cardCrypt: int
    var cardLib: int
    var expTot: int
    var expCrypt: int
    var expLib: int
    var absCounts: map<nat, int>
    var expCounts: map<nat, int>

    constructor()
      ensures cardTot == 0 && cardCrypt == 0 && cardLib == 0
      ensures expTot == 0 && expCrypt == 0 && expLib == 0
      ensures absCounts == map[] && expCounts == map[]
    {
      cardTot, cardCrypt, cardLib := 0, 0, 0;
      expTot, expCrypt, expLib := 0, 0, 0;
      absCounts, expCounts := map[], map[];
    }

    /** `_get_card_count_info`. */
    function CardCountInfo(): (m: map<string, int>)
      reads this
      ensures m.Keys == {"tot", "crypt", "lib"}
      ensures m["tot"] == cardTot && m["crypt"] == cardCrypt && m["lib"] == cardLib
    {
      map["tot" := cardTot, "crypt" := cardCrypt, "lib" := cardLib]
    }

    /** `_get_exp_count_info`. */
    function ExpCountInfo(): (m: map<string, int>)
      reads this
      ensures m.Keys == {"tot", "crypt", "lib"}
      ensures m["tot"] == expTot && m["crypt"] == expCrypt && m["lib"] == expLib
    {
      map["tot" := expTot, "crypt" := expCrypt, "lib" := expLib]
    }

    /** The card totals and the cards seen after `es` has been loaded. */
    ghost predicate CardsCounted(es: seq<ListEntry>)
      reads this
    {
      && cardCrypt == FirstSeen(es, true) && cardLib == FirstSeen(es, false)
      && cardTot == cardCrypt + cardLib
      && (forall a :: a in absCounts <==> Listed(es, a))
    }

    /** The expansion totals and each card's expansion count after `es`
        has been loaded. */
    ghost predicate ExpCounted(es: seq<ListEntry>)
      reads this
    {
      && expCrypt == WithExpansion(es, true) && expLib == WithExpansion(es, false)
      && expTot == expCrypt + expLib
      && (forall a :: a in expCounts <==> ExpansionsOf(es, a) > 0)
      && (forall a :: a in expCounts ==> expCounts[a] == ExpansionsOf(es, a))
    }

    /** `_do_load`: every dictionary is reset, then each entry counts its
        abstract card once, the first time it is seen, and counts once
        more towards the expansions when it has an expansion. */
    method Load(es: seq<ListEntry>)
      requires Typed(es) && SameIdSameCard(es)
      modifies this
      ensures CardsCounted(es) && ExpCounted(es)
      ensures cardCrypt == |DistinctOf(es, true)| && cardLib == |DistinctOf(es, false)|
    {
      absCounts, expCounts := map[], map[];
      cardTot, cardCrypt, cardLib := 0, 0, 0;
      expTot, expCrypt, expLib := 0, 0, 0;
      for i := 0 to |es|
        invariant CardsCounted(es[..i]) && ExpCounted(es[..i])
      {
        CountCard(es, i);
        CountExpansion(es, i);
      }
      assert es[..|es|] == es;
      FirstSeenDistinct(es, true);
      FirstSeenDistinct(es, false);
    }

    /** The card half of one entry: its abstract card counts the first
        time it is seen. */
    method CountCard(es: seq<ListEntry>, i: nat)
      requires i < |es| && Typed(es) && CardsCounted(es[..i])
      modifies this
      ensures CardsCounted(es[..i + 1])
      ensures expTot == old(expTot) && expCrypt == old(expCrypt) && expLib == old(expLib)
      ensures expCounts == old(expCounts)
    {
      var e := es[i];
      ghost var before := absCounts;
      assert es[..i + 1][..i] == es[..i];
      var absCount: int;
      if e.absId !in absCounts {
        absCounts := absCounts[e.absId := 1];
        absCount := 1;
      } else {
        absCount := 0;
      }
      SeenStep(before, absCounts, es, i);
      if IsCryptCard(e.card) {
        cardCrypt := cardCrypt + absCount;
      } else {
        cardLib := cardLib + absCount;
      }
      cardTot := cardTot + absCount;
    }

    /** The expansion half of one entry: it counts when it has an
        expansion. */
    method CountExpansion(es: seq<ListEntry>, i: nat)
      requires i < |es| && Typed(es) && ExpCounted(es[..i])
      modifies this
      ensures ExpCounted(es[..i + 1])
      ensures cardTot == old(cardTot) && cardCrypt == old(cardCrypt) && cardLib == old(cardLib)
      ensures absCounts == old(absCounts)
    {
      var e := es[i];
      assert es[..i + 1][..i] == es[..i];
      var expCount: int;
      if HasExpansion(e) {
        expCount := 1;
        if e.absId !in expCounts {
          expCounts := expCounts[e.absId := 1];
        } else {
          expCounts := expCounts[e.absId := expCounts[e.absId] + 1];
        }
      } else {
        expCount := 0;
      }
      if IsCryptCard(e.card) {
        expCrypt := expCrypt + expCount;
      } else {
        expLib := expLib + expCount;
      }
      expTot := expTot + expCount;
    }
  }

  /** A card is among the distinct cards of a half exactly when one of its
      entries belongs to that half. */
  lemma {:induction false} DistinctMembers(es: seq<ListEntry>, crypt: bool, a: nat)
    ensures a in DistinctOf(es, crypt) <==> ListedAs(es, a, crypt)
  {
    if |es| > 0 {
      var n := |es| - 1;
      var init := es[..n];
      DistinctMembers(init, crypt, a);
      if ListedAs(es, a, crypt) {
        var i :| 0 <= i < |es| && es[i].absId == a && InCrypt(es[i]) == crypt;
        if i < n {
          assert init[i] == es[i];
          assert ListedAs(init, a, crypt);
        }
      }
      if ListedAs(init, a, crypt) {
        var i :| 0 <= i < |init| && init[i].absId == a && InCrypt(init[i]) == crypt;
        assert es[i] == init[i];
      }
    }
  }

  /** The cards listed after one more entry are those before and its card. */
  lemma ListedStep(es: seq<ListEntry>, i: nat)
    requires i < |es|
    ensures forall a :: Listed(es[..i + 1], a) <==> Listed(es[..i], a) || a == es[i].absId
  {
    forall a ensures Listed(es[..i + 1], a) <==> Listed(es[..i], a) || a == es[i].absId {
      if Listed(es[..i + 1], a) {
        var j :| 0 <= j < i + 1 && es[..i + 1][j].absId == a;
        if j < i {
          assert es[..i][j] == es[j];
        }
      }
      if Listed(es[..i], a) {
        var j :| 0 <= j < i && es[..i][j].absId == a;
        assert es[..i + 1][j] == es[j];
      }
      if a == es[i].absId {
        assert es[..i + 1][i] == es[i];
      }
    }
  }

  /** The dictionary of cards seen, after one more entry: its card is
      added when it was not there. */
  lemma SeenStep(m: map<nat, int>, m': map<nat, int>, es: seq<ListEntry>, i: nat)
    requires i < |es| && forall a :: a in m <==> Listed(es[..i], a)
    requires m' == if es[i].absId in m then m else m[es[i].absId := 1]
    ensures forall a :: a in m' <==> Listed(es[..i + 1], a)
  {
    ListedStep(es, i);
  }

  /** Counting first entries counts the distinct cards: a card has its
      first entry on one side only, since an id always stands for the same
      card. */
  lemma {:induction false} FirstSeenDistinct(es: seq<ListEntry>, crypt: bool)
    requires SameIdSameCard(es)
    ensures FirstSeen(es, crypt) == |DistinctOf(es, crypt)|
  {
    if |es| > 0 {
      var i := |es| - 1;
      var pre, e := es[..i], es[i];
      assert SameIdSameCard(pre) by {
        assert forall j :: 0 <= j < i ==> pre[j] == es[j];
      }
      FirstSeenDistinct(pre, crypt);
      var d := DistinctOf(pre, crypt);
      DistinctMembers(pre, crypt, e.absId);
      if InCrypt(e) == crypt {
        if Listed(pre, e.absId) {
          var j :| 0 <= j < i && pre[j].absId == e.absId;
          assert pre[j] == es[j];
          assert es[j].card == es[i].card;
          assert ListedAs(pre, e.absId, crypt);
          assert d + {e.absId} == d;
        } else {
          assert e.absId !in d;
        }
      }
    }
  }

  /** The card totals count each card once however many entries it has:
      two lists that list the same cards, each on the same side, have the
      same distinct cards. */
  lemma DistinctIgnoresRepeats(es: seq<ListEntry>, fs: seq<ListEntry>, crypt: bool)
    requires forall a :: ListedAs(es, a, crypt) <==> ListedAs(fs, a, crypt)
    ensures DistinctOf(es, crypt) == DistinctOf(fs, crypt)
  {
    forall a ensures a in DistinctOf(es, crypt) <==> a in DistinctOf(fs, crypt) {
      DistinctMembers(es, crypt, a);
      DistinctMembers(fs, crypt, a);
    }
  }

  /** The entries that have an expansion, in list order. */
  function ExpansionEntries(es: seq<ListEntry>): (r: seq<ListEntry>)
    ensures forall e :: e in r <==> e in es && HasExpansion(e)
  {
    if |es| == 0 then []
    else
      var e := es[|es| - 1];
      assert es == es[..|es| - 1] + [e];
      ExpansionEntries(es[..|es| - 1]) + (if HasExpansion(e) then [e] else [])
  }

  /** The expansion totals of the two halves together count every entry
      that has an expansion. */
  lemma {:induction false} ExpansionTotals(es: seq<ListEntry>)
    ensures WithExpansion(es, true) + WithExpansion(es, false) == |ExpansionEntries(es)|
  {
    if |es| > 0 {
      ExpansionTotals(es[..|es| - 1]);
    }
  }
}
