/** The opening-hand simulator: sample opening hands of 7 library cards
    and 4 crypt cards, with three follow-up draws of 5 library cards and
    1 crypt card each, and the dialog that steps through the hands. */
module OpeningDrawSimulator {
  import opened Wrappers
  import opened BaseOpeningDraw

  /** The dialog's responses. */
  const BACK := 1
  const FORWARD := 2
  const BREAKDOWN := 3

  /** The sizes of the opening hand, the opening crypt draw and the
      follow-up draws. */
  const HandSize := 7
  const CryptDraw := 4
  const Rounds := 3
  const MoreLibSize := 5
  const MoreCryptSize := 1

  /** `_get_card_info` accepts a deck with a library of at least the
      opening hand and a crypt of at least the opening crypt draw. */
  predicate Accepted(libSize: int, cryptSize: int) {
    libSize >= HandSize && cryptSize >= CryptDraw
  }

  /** A drawn hand as stored in `aDrawnHands`: the hand, its type
      breakdown, its property breakdown, the crypt draw, and the counts of
      the three follow-up library and crypt draws. */
  datatype Hand = Hand(hand: string, types: string, props: string, crypt: string,
                       nextLib: seq<map<string, int>>, nextCrypt: seq<map<string, int>>)

  // ---------------------------------------------------------------------
  // Counting
  // ---------------------------------------------------------------------

  /** The counts of `setup_crypt_view` and `_get_lib_props`: how many copies
      of each card name the list holds. */
  method CountNames(cards: seq<string>) returns (d: map<string, int>)
    ensures forall k :: k in d <==> k in cards
    ensures forall k :: k in d ==> d[k] == multiset(cards)[k]
  {
    d := map[];
    for i := 0 to |cards|
      invariant d == AddAll(map[], cards[..i])
    {
      assert cards[..i + 1][..i] == cards[..i];
      d := d[cards[i] := Get(d, cards[i]) + 1];
    }
    assert cards[..|cards|] == cards;
    forall k ensures (k in d <==> k in cards) && Get(d, k) == multiset(cards)[k] {
      AddAllCounts(map[], cards, k);
    }
  }

  /** The sum of the counts of some entries. */
  function Total(s: seq<Item>): int {
    if |s| == 0 then 0 else Total(s[..|s| - 1]) + s[|s| - 1].count
  }

  /** `c` holds the group counts of a hand: each group holding one of
      the hand's cards, with the number of the hand's cards in it. */
  ghost predicate Tallied(c: map<string, int>, items: seq<Item>, toCheck: map<string, set<string>>) {
    && (forall g :: g in c <==> g in toCheck && |Members(items, toCheck[g])| > 0)
    && (forall g :: g in c ==> c[g] == Total(Members(items, toCheck[g])))
  }

  /** One more entry extends the members and the total of a group. */
  lemma MembersStep(items: seq<Item>, i: nat, m: set<string>)
    requires i < |items|
    ensures Members(items[..i + 1], m) == Members(items[..i], m) + (if items[i].name in m then [items[i]] else [])
    ensures Total(Members(items[..i + 1], m)) == Total(Members(items[..i], m)) + (if items[i].name in m then items[i].count else 0)
  {
    assert items[..i + 1][..i] == items[..i];
    var ms := Members(items[..i], m);
    if items[i].name in m {
      assert (ms + [items[i]])[..|ms|] == ms;
      assert Total(ms + [items[i]]) == Total(ms) + items[i].count;
    } else {
      assert ms + [] == ms;
    }
  }

  /** One more card counted into the group tally. */
  lemma TallyStep(items: seq<Item>, i: nat, toCheck: map<string, set<string>>, c: map<string, int>, c': map<string, int>)
    requires i < |items|
    requires Tallied(c, items[..i], toCheck)
    requires forall g :: g in c' <==> g in c || (g in toCheck && items[i].name in toCheck[g])
    requires forall g :: g in c' ==>
      c'[g] == Get(c, g) + (if g in toCheck && items[i].name in toCheck[g] then items[i].count else 0)
    ensures Tallied(c', items[..i + 1], toCheck)
  {
    forall g
      ensures g in c' <==> g in toCheck && |Members(items[..i + 1], toCheck[g])| > 0
      ensures g in c' ==> c'[g] == Total(Members(items[..i + 1], toCheck[g]))
    {
      if g in toCheck {
        MembersStep(items, i, toCheck[g]);
      }
    }
  }

  /** The loop of `_draw_new_hand` that runs `check_card` over the hand's
      entries. */
  method TallyGroups(items: seq<Item>, toCheck: map<string, set<string>>) returns (c: map<string, int>)
    ensures Tallied(c, items, toCheck)
  {
    c := map[];
    for i := 0 to |items|
      invariant Tallied(c, items[..i], toCheck)
    {
      var c' := CheckCard(items[i].name, toCheck, c, items[i].count);
      TallyStep(items, i, toCheck, c, c');
      c := c';
    }
    assert items[..|items|] == items;
  }

  /** A card's entry counts towards exactly the groups holding it. */
  lemma TallyKeys(c: map<string, int>, items: seq<Item>, toCheck: map<string, set<string>>, g: string)
    requires Tallied(c, items, toCheck)
    ensures g in c <==>
      g in toCheck && exists x :: x in items && x.name in toCheck[g]
  {
    if g in toCheck {
      var m := Members(items, toCheck[g]);
      if |m| > 0 {
        MembersExactly(items, toCheck[g], m[0]);
      }
      forall x | x in items && x.name in toCheck[g] ensures |m| > 0 {
        MembersExactly(items, toCheck[g], x);
      }
    }
  }

  // ---------------------------------------------------------------------
  // Dealing a hand
  // ---------------------------------------------------------------------

  /** The cards left of `n` before follow-up draw `i` of `size` cards. */
  function Left(n: nat, size: nat, i: nat): nat {
    if i == 0 then n
    else
      var l := Left(n, size, i - 1);
      if l < size then 0 else l - size
  }

  /** The size of follow-up draw `i` of `size` cards from `n` cards: every
      draw takes what remains when fewer than `size` are left. */
  function Batch(n: nat, size: nat, i: nat): nat {
    var l := Left(n, size, i);
    if l < size then l else size
  }

  /** The cards of several draws in draw order. */
  function Flatten(ss: seq<seq<string>>): seq<string> {
    if |ss| == 0 then [] else Flatten(ss[..|ss| - 1]) + ss[|ss| - 1]
  }

  /** The cards behind a drawn hand, and the dictionary listings its
      texts were written from. */
  datatype Deal = Deal(hand: seq<string>, crypt: seq<string>,
                       nextLib: seq<seq<string>>, nextCrypt: seq<seq<string>>,
                       handItems: seq<Item>, cryptItems: seq<Item>, tallyItems: seq<Item>,
                       typeCounts: map<string, int>, propCounts: map<string, int>,
                       typeGroups: seq<Item>, propGroups: seq<Item>)

  /** The deal of a call that deals no hand. */
  ghost const NoDeal := Deal([], [], [], [], [], [], [], map[], map[], [], [])

  /** Draws from one list: `first` of `firstSize` cards, then three
      rounds of up to `size` cards, all without replacement. */
  ghost predicate DrawsFrom(first: seq<string>, rounds: seq<seq<string>>, deck: seq<string>, firstSize: nat, size: nat) {
    && |deck| >= firstSize && |first| == firstSize && |rounds| == Rounds
    && (forall i :: 0 <= i < Rounds ==> |rounds[i]| == Batch(|deck| - firstSize, size, i))
    && multiset(first) + multiset(Flatten(rounds)) <= multiset(deck)
  }

  /** The draws of a deal come from the deck: 7 library cards and 4 crypt
      cards, then three rounds of up to 5 library cards and up to 1 crypt
      card. */
  ghost predicate DrawnFrom(d: Deal, library: seq<string>, crypt: seq<string>) {
    && DrawsFrom(d.hand, d.nextLib, library, HandSize, MoreLibSize)
    && DrawsFrom(d.crypt, d.nextCrypt, crypt, CryptDraw, MoreCryptSize)
  }

  /** The stored counts of the follow-up draws. */
  ghost predicate RoundsShown(counts: seq<map<string, int>>, taken: seq<seq<string>>) {
    |counts| == |taken| && forall i :: 0 <= i < |taken| ==> counts[i] == AddAll(map[], taken[i])
  }

  /** `text` is what `format_dict` writes for the listing `items` of `d`. */
  ghost predicate DictShown(text: string, items: seq<Item>, d: map<string, int>) {
    ItemsOf(items, d) && text == DictText(items)
  }

  /** `text` is what `fill_string` writes for the group counts `counts`
      of the hand entries `tally`, listed as `groups`. */
  ghost predicate BreakdownShown(text: string, counts: map<string, int>, groups: seq<Item>, tally: seq<Item>,
                                 handItems: seq<Item>, toCheck: map<string, set<string>>) {
    && Tallied(counts, tally, toCheck) && ItemsOf(groups, counts)
    && (forall i :: 0 <= i < |groups| ==> groups[i].name in toCheck)
    && text == FillText(groups, SortItems(handItems), toCheck)
  }

  /** The stored hand shows the deal: the counts of each draw, and the
      texts `format_dict` and `fill_string` write for them. */
  ghost predicate Shows(h: Hand, d: Deal, types: map<string, set<string>>, props: map<string, set<string>>) {
    && RoundsShown(h.nextLib, d.nextLib) && RoundsShown(h.nextCrypt, d.nextCrypt)
    && DictShown(h.hand, d.handItems, AddAll(map[], d.hand))
    && DictShown(h.crypt, d.cryptItems, AddAll(map[], d.crypt))
    && ItemsOf(d.tallyItems, AddAll(map[], d.hand))
    && BreakdownShown(h.types, d.typeCounts, d.typeGroups, d.tallyItems, d.handItems, types)
    && BreakdownShown(h.props, d.propCounts, d.propGroups, d.tallyItems, d.handItems, props)
  }

  /** A hand dealt from the deck, and shown as the deal. */
  ghost predicate Dealt(h: Hand, d: Deal, library: seq<string>, crypt: seq<string>,
                        types: map<string, set<string>>, props: map<string, set<string>>) {
    DrawnFrom(d, library, crypt) && Shows(h, d, types, props)
  }

  /** The draws of `_draw_new_hand` from one list: the opening draw, then
      the three follow-up rounds. */
  method DrawFrom(deck: seq<string>, firstSize: nat, size: nat)
    returns (firstCounts: map<string, int>, roundCounts: seq<map<string, int>>,
             ghost first: seq<string>, ghost rounds: seq<seq<string>>)
    requires |deck| >= firstSize
    ensures DrawsFrom(first, rounds, deck, firstSize, size)
    ensures firstCounts == AddAll(map[], first) && RoundsShown(roundCounts, rounds)
  {
    var rest, ok;
    rest, firstCounts, ok, first := DrawXCards(deck, firstSize, map[]);
    roundCounts, rounds := DrawRounds(rest, size);
  }

  /** `counts` and `taken` hold the first `i` follow-up draws of `size`
      cards from `n` cards. */
  ghost predicate RoundsSoFar(counts: seq<map<string, int>>, taken: seq<seq<string>>, n: nat, size: nat, i: nat) {
    && |counts| == i && |taken| == i
    && (forall j :: 0 <= j < i ==> |taken[j]| == Batch(n, size, j))
    && (forall j :: 0 <= j < i ==> counts[j] == AddAll(map[], taken[j]))
  }

  lemma RoundsSnoc(counts: seq<map<string, int>>, taken: seq<seq<string>>, n: nat, size: nat, i: nat,
                   c: map<string, int>, t: seq<string>)
    requires RoundsSoFar(counts, taken, n, size, i)
    requires |t| == Batch(n, size, i) && c == AddAll(map[], t)
    ensures RoundsSoFar(counts + [c], taken + [t], n, size, i + 1)
  {
    assert forall j :: 0 <= j < i ==> (taken + [t])[j] == taken[j] && (counts + [c])[j] == counts[j];
  }

  /** The follow-up draws from one list: three rounds of `size` cards,
      each taking what remains when the list runs short. */
  method DrawRounds(cards: seq<string>, size: nat)
    returns (counts: seq<map<string, int>>, ghost taken: seq<seq<string>>)
    ensures RoundsSoFar(counts, taken, |cards|, size, Rounds)
    ensures multiset(Flatten(taken)) <= multiset(cards)
  {
    var rest := cards;
    counts, taken := [], [];
    for i := 0 to Rounds
      invariant RoundsSoFar(counts, taken, |cards|, size, i)
      invariant |rest| == Left(|cards|, size, i)
      invariant multiset(cards) == multiset(rest) + multiset(Flatten(taken))
    {
      var n := if |rest| < size then |rest| else size;
      var c, ok;
      ghost var t;
      rest, c, ok, t := DrawXCards(rest, n, map[]);
      FlattenSnoc(taken, t);
      RoundsSnoc(counts, taken, |cards|, size, i, c, t);
      counts, taken := counts + [c], taken + [t];
    }
  }

  lemma FlattenSnoc(ss: seq<seq<string>>, t: seq<string>)
    ensures Flatten(ss + [t]) == Flatten(ss) + t
  {
    assert (ss + [t])[..|ss|] == ss;
  }

  /** One breakdown of the hand: `check_card` over the hand's entries in
      dictionary order, then `fill_string` over the groups found. */
  method Breakdown(handCounts: map<string, int>, tallyItems: seq<Item>, ghost handItems: seq<Item>,
                   toCheck: map<string, set<string>>)
    returns (text: string, ghost counts: map<string, int>, ghost groups: seq<Item>)
    requires ItemsOf(handItems, handCounts) && ItemsOf(tallyItems, handCounts)
    ensures BreakdownShown(text, counts, groups, tallyItems, handItems, toCheck)
  {
    var c := TallyGroups(tallyItems, toCheck);
    counts := c;
    ghost var cards;
    text, groups, cards := FillString(c, handCounts, toCheck);
    SortedItemsUnique(cards, handItems, handCounts);
  }

  /** `_draw_new_hand` with its follow-up draws taking what remains of the
      deck: the hand and the crypt draw, their counts and the breakdowns
      of the hand by card type and by card property. */
  method DealHand(library: seq<string>, crypt: seq<string>,
                  types: map<string, set<string>>, props: map<string, set<string>>)
    returns (h: Hand, ghost d: Deal)
    requires Accepted(|library|, |crypt|)
    ensures Dealt(h, d, library, crypt, types, props)
  {
    var handCounts, nextLib, handTaken, libTaken := DrawFrom(library, HandSize, MoreLibSize);
    var cryptCounts, nextCrypt, cryptTaken, crTaken := DrawFrom(crypt, CryptDraw, MoreCryptSize);
    var handText, handItems := FormatDict(handCounts);
    var tallyItems := Items(handCounts);
    var typeText, typeCounts, typeGroups := Breakdown(handCounts, tallyItems, handItems, types);
    var propText, propCounts, propGroups := Breakdown(handCounts, tallyItems, handItems, props);
    var cryptText, cryptItems := FormatDict(cryptCounts);
    h := Hand(handText, typeText, propText, cryptText, nextLib, nextCrypt);
    d := Deal(handTaken, cryptTaken, libTaken, crTaken, handItems, cryptItems, tallyItems,
              typeCounts, propCounts, typeGroups, propGroups);
  }

  /** The draws of `_draw_new_hand` as written: every follow-up draw takes
      its full 5 library cards and 1 crypt card, so `choice` raises
      IndexError, and no hand is stored, unless the deck holds 22 library
      cards and 7 crypt cards. */
  method DrawsAsWritten(library: seq<string>, crypt: seq<string>) returns (ok: bool)
    ensures ok <==> |library| >= HandSize + Rounds * MoreLibSize && |crypt| >= CryptDraw + Rounds * MoreCryptSize
  {
    var lib, cr := library, crypt;
    var counts;
    ghost var taken;
    lib, counts, ok, taken := DrawXCards(lib, HandSize, map[]);
    if !ok { return false; }
    cr, counts, ok, taken := DrawXCards(cr, CryptDraw, map[]);
    if !ok { return false; }
    var i := 0;
    while i < Rounds
      invariant 0 <= i <= Rounds
      invariant |lib| == |library| - HandSize - MoreLibSize * i
      invariant |cr| == |crypt| - CryptDraw - MoreCryptSize * i
    {
      lib, counts, ok, taken := DrawXCards(lib, MoreLibSize, map[]);
      if !ok { return false; }
      cr, counts, ok, taken := DrawXCards(cr, MoreCryptSize, map[]);
      if !ok { return false; }
      i := i + 1;
    }
    return true;
  }

  /** The decks `_get_card_info` accepts include ones `_draw_new_hand` as
      written cannot deal from: a library of 7 and a crypt of 4. */
  lemma AcceptedDeckTooSmall()
    ensures Accepted(7, 4)
    ensures 7 < HandSize + Rounds * MoreLibSize && 4 < CryptDraw + Rounds * MoreCryptSize
  {
  }

  /** With the draws taking what remains, every accepted deck deals a hand
      and the draws never take more cards than the deck holds. */
  lemma DealFits(d: Deal, library: seq<string>, crypt: seq<string>)
    requires Accepted(|library|, |crypt|) && DrawnFrom(d, library, crypt)
    ensures |d.hand| + |Flatten(d.nextLib)| <= |library|
    ensures |d.crypt| + |Flatten(d.nextCrypt)| <= |crypt|
  {
    SubMultisetSize(multiset(d.hand) + multiset(Flatten(d.nextLib)), multiset(library));
    SubMultisetSize(multiset(d.crypt) + multiset(Flatten(d.nextCrypt)), multiset(crypt));
  }

  lemma SubMultisetSize(a: multiset<string>, b: multiset<string>)
    requires a <= b
    ensures |a| <= |b|
  {
    assert b == a + (b - a);
  }

  /** On a deck as large as the written code needs, every follow-up draw
      is full, so the corrected draws agree with the written ones. */
  lemma FullDecksFullRounds(libSize: nat, cryptSize: nat, i: nat)
    requires libSize >= HandSize + Rounds * MoreLibSize && cryptSize >= CryptDraw + Rounds * MoreCryptSize
    requires i < Rounds
    ensures Batch(libSize - HandSize, MoreLibSize, i) == MoreLibSize
    ensures Batch(cryptSize - CryptDraw, MoreCryptSize, i) == MoreCryptSize
  {
    var l, c := libSize - HandSize, cryptSize - CryptDraw;
    assert Left(l, MoreLibSize, 1) == l - 5 && Left(c, MoreCryptSize, 1) == c - 1;
    assert Left(l, MoreLibSize, 2) == l - 10 && Left(c, MoreCryptSize, 2) == c - 2;
  }

  // ---------------------------------------------------------------------
  // The simulator
  // ---------------------------------------------------------------------

  /** The card types of `_get_card_info`: a type whose first card is a
      library card records the names of its cards. */
  method RecordTypes(current: map<string, set<string>>, typeLists: map<string, seq<string>>, library: seq<string>)
    returns (types: map<string, set<string>>)
    ensures forall t :: t in types <==>
      t in current || (t in typeLists && |typeLists[t]| > 0 && typeLists[t][0] in library)
    ensures forall t :: t in types ==>
      types[t] == if t in typeLists && |typeLists[t]| > 0 && typeLists[t][0] in library
                  then set x | x in typeLists[t] else current[t]
  {
    types := current;
    var todo := typeLists.Keys;
    while todo != {}
      invariant todo <= typeLists.Keys
      invariant forall t :: t in types <==>
        t in current || (t in typeLists && t !in todo && |typeLists[t]| > 0 && typeLists[t][0] in library)
      invariant forall t :: t in types ==>
        types[t] == if t in typeLists && t !in todo && |typeLists[t]| > 0 && typeLists[t][0] in library
                    then set x | x in typeLists[t] else current[t]
      decreases todo
    {
      var t :| t in todo;
      var cards := typeLists[t];
      if |cards| > 0 && cards[0] in library {
        types := types[t := set x | x in cards];
      }
      todo := todo - {t};
    }
  }

  /** The card properties of `_get_card_info`: a card function with a card
      records the names of its cards. */
  method RecordFunctions(current: map<string, set<string>>, functionLists: map<string, seq<string>>)
    returns (functions: map<string, set<string>>)
    ensures forall f :: f in functions <==> f in current || (f in functionLists && |functionLists[f]| > 0)
    ensures forall f :: f in functions ==>
      functions[f] == if f in functionLists && |functionLists[f]| > 0
                      then set x | x in functionLists[f] else current[f]
  {
    functions := current;
    var todo := functionLists.Keys;
    while todo != {}
      invariant todo <= functionLists.Keys
      invariant forall f :: f in functions <==>
        f in current || (f in functionLists && f !in todo && |functionLists[f]| > 0)
      invariant forall f :: f in functions ==>
        functions[f] == if f in functionLists && f !in todo && |functionLists[f]| > 0
                        then set x | x in functionLists[f] else current[f]
      decreases todo
    {
      var f :| f in todo;
      var cards := functionLists[f];
      if |cards| > 0 {
        functions := functions[f := set x | x in cards];
      }
      todo := todo - {f};
    }
  }

  class OpeningHandSimulator {
    var library: seq<string>
    var crypt: seq<string>
    var moreLib: int
    var moreCrypt: int
    var cardTypes: map<string, set<string>>
    var cardProperties: map<string, set<string>>
    var curHand: int
    var drawnHands: seq<Hand>
    var showDetails: bool
    /** Whether the dialog's back button is sensitive. */
    var backEnabled: bool

    /** The hand counter never passes the stored hands. */
    ghost predicate Valid()
      reads this
    {
      0 <= curHand <= |drawnHands| && (|drawnHands| > 0 ==> curHand >= 1)
      && (forall i :: 0 <= i < |drawnHands| ==> |drawnHands[i].nextLib| == Rounds && |drawnHands[i].nextCrypt| == Rounds)
    }

    /** The hand dialog is open on hand `curHand`, and the back button is
        sensitive exactly when there is an earlier hand. */
    ghost predicate Browsing()
      reads this
    {
      Valid() && Accepted(|library|, |crypt|) && 1 <= curHand
      && (backEnabled <==> curHand > 1)
      && 0 <= moreLib <= Rounds && 0 <= moreCrypt <= Rounds
    }

    constructor()
      ensures Valid()
      ensures library == [] && crypt == [] && moreLib == 0 && moreCrypt == 0
      ensures cardTypes == map[] && cardProperties == map[]
      ensures curHand == 0 && drawnHands == [] && !showDetails && !backEnabled
    {
      library, crypt, moreLib, moreCrypt := [], [], 0, 0;
      cardTypes, cardProperties := map[], map[];
      curHand, drawnHands, showDetails, backEnabled := 0, [], false, false;
    }

    /** `_get_card_info`: the crypt and library cards of the set are
        stored; a library smaller than the opening hand or a crypt smaller
        than the opening crypt draw is refused. Otherwise every card type
        whose first card is a library card, and every card function with a
        card, records the names of its cards. */
    method GetCardInfo(cryptCards: seq<string>, libraryCards: seq<string>,
                       typeLists: map<string, seq<string>>, functionLists: map<string, seq<string>>)
      returns (ok: bool)
      requires Valid()
      modifies this
      ensures Valid()
      ensures ok <==> Accepted(|libraryCards|, |cryptCards|)
      ensures library == libraryCards && crypt == cryptCards
      ensures !ok ==> cardTypes == old(cardTypes) && cardProperties == old(cardProperties)
      ensures ok ==> forall t :: t in cardTypes <==>
        t in old(cardTypes) || (t in typeLists && |typeLists[t]| > 0 && typeLists[t][0] in libraryCards)
      ensures ok ==> forall t :: t in cardTypes ==>
        cardTypes[t] == if t in typeLists && |typeLists[t]| > 0 && typeLists[t][0] in libraryCards
                        then set x | x in typeLists[t] else old(cardTypes)[t]
      ensures ok ==> forall f :: f in cardProperties <==>
        f in old(cardProperties) || (f in functionLists && |functionLists[f]| > 0)
      ensures ok ==> forall f :: f in cardProperties ==>
        cardProperties[f] == if f in functionLists && |functionLists[f]| > 0
                             then set x | x in functionLists[f] else old(cardProperties)[f]
      ensures moreLib == old(moreLib) && moreCrypt == old(moreCrypt)
      ensures curHand == old(curHand) && drawnHands == old(drawnHands)
      ensures showDetails == old(showDetails) && backEnabled == old(backEnabled)
    {
      crypt := cryptCards;
      library := libraryCards;
      if |library| < HandSize {
        return false;
      }
      if |crypt| < CryptDraw {
        return false;
      }
      var types := RecordTypes(cardTypes, typeLists, libraryCards);
      var functions := RecordFunctions(cardProperties, functionLists);
      cardTypes, cardProperties := types, functions;
      return true;
    }

    /** `_clear_stats`: the groups, the hands and the deck are forgotten. */
    method ClearStats()
      modifies this
      ensures Valid()
      ensures cardTypes == map[] && cardProperties == map[] && curHand == 0 && drawnHands == []
      ensures library == [] && crypt == [] && moreLib == 0 && moreCrypt == 0
      ensures showDetails == old(showDetails) && backEnabled == old(backEnabled)
    {
      cardTypes, cardProperties, curHand, drawnHands := map[], map[], 0, [];
      library, crypt, moreLib, moreCrypt := [], [], 0, 0;
    }

    /** The card counts of `_get_lib_props`, before they become expected
        numbers in the opening hand. */
    method LibCounts() returns (d: map<string, int>)
      ensures forall k :: k in d <==> k in library
      ensures forall k :: k in d ==> d[k] == multiset(library)[k]
    {
      d := CountNames(library);
    }

    /** `_draw_new_hand`: the hand counter moves on to a new hand dealt
        from the deck, and the follow-up draws start again. */
    method DrawNewHand() returns (ghost d: Deal)
      requires Valid() && curHand == |drawnHands| && Accepted(|library|, |crypt|)
      modifies this
      ensures Valid()
      ensures curHand == old(curHand) + 1 && |drawnHands| == |old(drawnHands)| + 1
      ensures drawnHands[..|drawnHands| - 1] == old(drawnHands)
      ensures Dealt(drawnHands[|drawnHands| - 1], d, library, crypt, cardTypes, cardProperties)
      ensures moreLib == 0 && moreCrypt == 0
      ensures library == old(library) && crypt == old(crypt)
      ensures cardTypes == old(cardTypes) && cardProperties == old(cardProperties)
      ensures showDetails == old(showDetails) && backEnabled == old(backEnabled)
    {
      curHand := curHand + 1;
      var h;
      h, d := DealHand(library, crypt, cardTypes, cardProperties);
      drawnHands := drawnHands + [h];
      assert drawnHands[..|drawnHands| - 1] == old(drawnHands);
      RedrawHand();
    }

    /** `_redraw_hand`: the follow-up draws of the shown hand are hidden
        again. */
    method RedrawHand()
      modifies this
      ensures moreLib == 0 && moreCrypt == 0
      ensures library == old(library) && crypt == old(crypt)
      ensures cardTypes == old(cardTypes) && cardProperties == old(cardProperties)
      ensures curHand == old(curHand) && drawnHands == old(drawnHands)
      ensures showDetails == old(showDetails) && backEnabled == old(backEnabled)
    {
      moreLib, moreCrypt := 0, 0;
    }

    /** `_fill_dialog`: the details are hidden; with hands drawn before,
        the last one is shown and back is possible when there are two or
        more; otherwise the first hand is drawn. */
    method FillDialog() returns (ghost d: Deal)
      requires Valid() && Accepted(|library|, |crypt|)
      modifies this
      ensures Browsing()
      ensures !showDetails && moreLib == 0 && moreCrypt == 0
      ensures |old(drawnHands)| > 0 ==> drawnHands == old(drawnHands) && curHand == |drawnHands|
      ensures |old(drawnHands)| == 0 ==> |drawnHands| == 1 && curHand == 1
      ensures |old(drawnHands)| == 0 ==> Dealt(drawnHands[0], d, library, crypt, cardTypes, cardProperties)
      ensures library == old(library) && crypt == old(crypt)
      ensures cardTypes == old(cardTypes) && cardProperties == old(cardProperties)
    {
      d := NoDeal;
      backEnabled := false;
      showDetails := false;
      if |drawnHands| > 0 {
        curHand := |drawnHands|;
        RedrawHand();
        if |drawnHands| > 1 {
          backEnabled := true;
        }
      } else {
        d := DrawNewHand();
      }
    }

    /** `_next_hand`: BACK shows the previous hand, FORWARD the next one,
        drawing a new hand after the last, BREAKDOWN shows or hides the
        details, and any other response closes the dialog. A back button
        that is not sensitive gives no BACK response. */
    method NextHand(response: int) returns (closed: bool, ghost d: Deal)
      requires Browsing()
      requires response == BACK ==> backEnabled
      modifies this
      ensures closed <==> response !in {BACK, FORWARD, BREAKDOWN}
      ensures !closed ==> Browsing() && moreLib == 0 && moreCrypt == 0
      ensures closed ==> unchanged(this)
      ensures response == BACK ==> curHand == old(curHand) - 1 && drawnHands == old(drawnHands)
      ensures response == FORWARD && old(curHand) < |old(drawnHands)| ==>
        curHand == old(curHand) + 1 && drawnHands == old(drawnHands)
      ensures response == FORWARD && old(curHand) == |old(drawnHands)| ==>
        curHand == old(curHand) + 1 && drawnHands[..|drawnHands| - 1] == old(drawnHands)
        && |drawnHands| == curHand
        && Dealt(drawnHands[|drawnHands| - 1], d, library, crypt, cardTypes, cardProperties)
      ensures response == BREAKDOWN ==>
        curHand == old(curHand) && drawnHands == old(drawnHands) && showDetails == !old(showDetails)
      ensures response != BREAKDOWN ==> showDetails == old(showDetails)
      ensures library == old(library) && crypt == old(crypt)
      ensures cardTypes == old(cardTypes) && cardProperties == old(cardProperties)
    {
      closed, d := false, NoDeal;
      if response == BACK {
        Back();
      } else if response == FORWARD {
        d := Forward();
      } else if response == BREAKDOWN {
        ToggleDetails();
      } else {
        closed := true;
      }
    }

    /** The BACK response: the previous hand is shown, and the back button
        is made insensitive on the first hand. */
    method Back()
      requires Browsing() && backEnabled
      modifies this
      ensures Browsing() && moreLib == 0 && moreCrypt == 0
      ensures curHand == old(curHand) - 1 && drawnHands == old(drawnHands) && showDetails == old(showDetails)
      ensures library == old(library) && crypt == old(crypt)
      ensures cardTypes == old(cardTypes) && cardProperties == old(cardProperties)
    {
      curHand := curHand - 1;
      if curHand == 1 {
        backEnabled := false;
      }
      RedrawHand();
    }

    /** The FORWARD response: the back button is made sensitive, and the
        next hand is shown, drawing a new one after the last. */
    method Forward() returns (ghost d: Deal)
      requires Browsing()
      modifies this
      ensures Browsing() && moreLib == 0 && moreCrypt == 0 && showDetails == old(showDetails)
      ensures old(curHand) < |old(drawnHands)| ==> curHand == old(curHand) + 1 && drawnHands == old(drawnHands)
      ensures old(curHand) == |old(drawnHands)| ==>
        curHand == old(curHand) + 1 && drawnHands[..|drawnHands| - 1] == old(drawnHands)
        && |drawnHands| == curHand
        && Dealt(drawnHands[|drawnHands| - 1], d, library, crypt, cardTypes, cardProperties)
      ensures library == old(library) && crypt == old(crypt)
      ensures cardTypes == old(cardTypes) && cardProperties == old(cardProperties)
    {
      backEnabled := true;
      if curHand == |drawnHands| {
        d := DrawNewHand();
      } else {
        d := NoDeal;
        curHand := curHand + 1;
        RedrawHand();
      }
    }

    /** The BREAKDOWN response: the details are shown or hidden. */
    method ToggleDetails()
      requires Browsing()
      modifies this
      ensures Browsing() && moreLib == 0 && moreCrypt == 0
      ensures curHand == old(curHand) && drawnHands == old(drawnHands) && showDetails == !old(showDetails)
      ensures library == old(library) && crypt == old(crypt)
      ensures cardTypes == old(cardTypes) && cardProperties == old(cardProperties)
    {
      RedrawHand();
      showDetails := !showDetails;
    }

    /** The hand the dialog shows. */
    function Shown(): (h: Hand)
      reads this
      requires Browsing()
      ensures h in drawnHands && h == drawnHands[curHand - 1]
    {
      drawnHands[curHand - 1]
    }

    /** `_more_lib`: the next of the three follow-up library draws of the
        shown hand is written out, until all three are shown. */
    method MoreLib() returns (text: Option<string>, ghost items: seq<Item>)
      requires Browsing()
      modifies this
      ensures Browsing()
      ensures old(moreLib) < Rounds ==>
        (moreLib == old(moreLib) + 1 && text.Some? && ItemsOf(items, Shown().nextLib[old(moreLib)]) && text.value == DictText(items))
      ensures old(moreLib) >= Rounds ==> moreLib == old(moreLib) && text.None?
      ensures moreCrypt == old(moreCrypt) && curHand == old(curHand) && drawnHands == old(drawnHands)
      ensures library == old(library) && crypt == old(crypt) && backEnabled == old(backEnabled)
      ensures cardTypes == old(cardTypes) && cardProperties == old(cardProperties) && showDetails == old(showDetails)
    {
      text, items := None, [];
      if moreLib < Rounds {
        var t;
        t, items := FormatDict(drawnHands[curHand - 1].nextLib[moreLib]);
        text := Some(t);
        moreLib := moreLib + 1;
      }
    }

    /** `_more_crypt`: the next of the three follow-up crypt draws of the
        shown hand is written out, until all three are shown. */
    method MoreCrypt() returns (text: Option<string>, ghost items: seq<Item>)
      requires Browsing()
      modifies this
      ensures Browsing()
      ensures old(moreCrypt) < Rounds ==>
        (moreCrypt == old(moreCrypt) + 1 && text.Some? && ItemsOf(items, Shown().nextCrypt[old(moreCrypt)]) && text.value == DictText(items))
      ensures old(moreCrypt) >= Rounds ==> moreCrypt == old(moreCrypt) && text.None?
      ensures moreLib == old(moreLib) && curHand == old(curHand) && drawnHands == old(drawnHands)
      ensures library == old(library) && crypt == old(crypt) && backEnabled == old(backEnabled)
      ensures cardTypes == old(cardTypes) && cardProperties == old(cardProperties) && showDetails == old(showDetails)
    {
      text, items := None, [];
      if moreCrypt < Rounds {
        var t;
        t, items := FormatDict(drawnHands[curHand - 1].nextCrypt[moreCrypt]);
        text := Some(t);
        moreCrypt := moreCrypt + 1;
      }
    }
  }
}
