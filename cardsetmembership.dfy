/** Card-set membership counting: cards added to a set one row at a time,
    a set emptied card by card, and how the membership rows of one physical
    card spread over the sets. */
module CardSetMembership {
  import opened CardSets

  /** The sets holding card c, one element per membership row of c. */
  function SetsWith(rows: seq<MapRow>, c: PhysicalCard): (m: multiset<nat>)
    ensures |m| == RowsOf(rows, c)
  {
    if |rows| == 0 then multiset{}
    else
      var r := rows[|rows| - 1];
      SetsWith(rows[..|rows| - 1], c) + (if r.card == c then multiset{r.cardSet} else multiset{})
  }

  /** Each set holds card c as many times as it appears among the sets of
      c's membership rows. */
  lemma {:induction false} SetsWithCounts(rows: seq<MapRow>, c: PhysicalCard, id: nat)
    ensures SetsWith(rows, c)[id] == CardsIn(rows, id)[c]
  {
    if |rows| > 0 {
      SetsWithCounts(rows[..|rows| - 1], c, id);
    }
  }

  /** A multiset in which nothing repeats has as many elements as the set
      of its distinct elements. */
  lemma {:induction false} NoRepeatsSize(m: multiset<nat>, s: set<nat>)
    requires forall x :: x in m ==> m[x] == 1
    requires forall x :: x in m <==> x in s
    ensures |m| == |s|
  {
    if m != multiset{} {
      var x :| x in m;
      var rest := m - multiset{x};
      assert m == rest + multiset{x};
      NoRepeatsSize(rest, s - {x});
    } else {
      assert s == {};
    }
  }

  /** When no set holds more than one copy of card c, the number of
      membership rows of c is the number of sets that contain it. */
  lemma RowsAreSets(rows: seq<MapRow>, c: PhysicalCard, holding: set<nat>)
    requires forall id :: CardsIn(rows, id)[c] <= 1
    requires forall id :: id in holding <==> c in CardsIn(rows, id)
    ensures RowsOf(rows, c) == |holding|
  {
    var m := SetsWith(rows, c);
    forall id
      ensures m[id] == CardsIn(rows, id)[c]
    {
      SetsWithCounts(rows, c, id);
    }
    NoRepeatsSize(m, holding);
  }

  /** rows extends rows0 by adding the cards `added` to set id: set id
      gained exactly those cards, every other set is as it was, and each
      card gained one membership row per copy. */
  ghost predicate Extends(rows0: seq<MapRow>, rows: seq<MapRow>, id: nat, added: multiset<PhysicalCard>)
  {
    CardsIn(rows, id) == CardsIn(rows0, id) + added
    && (forall j :: j != id ==> CardsIn(rows, j) == CardsIn(rows0, j))
    && (forall c :: RowsOf(rows, c) == RowsOf(rows0, c) + added[c])
  }

  /** Appending one row to set id extends the tables by its card. */
  lemma AddStep(rows0: seq<MapRow>, rows: seq<MapRow>, id: nat, added: multiset<PhysicalCard>, pc: PhysicalCard)
    requires Extends(rows0, rows, id, added)
    ensures Extends(rows0, rows + [MapRow(pc, id)], id, added + multiset{pc})
  {
    assert (rows + [MapRow(pc, id)])[..|rows|] == rows;
  }

  /** Adding each card of a list once to set id: the set gains exactly
      those cards, every other set is unchanged, and each card gains one
      membership row per copy in the list. */
  method AddEach(db: CardSetDb, id: nat, cards: seq<PhysicalCard>)
    requires db.Valid() && id in db.names
    modifies db
    ensures db.Valid() && db.names == old(db.names) && db.parents == old(db.parents) && db.nextId == old(db.nextId)
    ensures Extends(old(db.rows), db.rows, id, multiset(cards))
  {
    var i := 0;
    ghost var rows0 := db.rows;
    while i < |cards|
      invariant 0 <= i <= |cards|
      invariant db.Valid() && db.names == old(db.names) && db.parents == old(db.parents) && db.nextId == old(db.nextId)
      invariant Extends(rows0, db.rows, id, multiset(cards[..i]))
    {
      AddStep(rows0, db.rows, id, multiset(cards[..i]), cards[i]);
      assert cards[..i + 1] == cards[..i] + [cards[i]];
      db.AddCard(id, cards[i]);
      i := i + 1;
    }
    assert cards[..i] == cards;
  }

  /** Removing, one by one, every card the set held when the loop began
      leaves the set empty and every other set as it was. */
  method EmptySet(db: CardSetDb, id: nat)
    requires db.Valid()
    modifies db
    ensures db.Valid() && db.names == old(db.names) && db.parents == old(db.parents)
    ensures db.Cards(id) == multiset{}
    ensures forall j :: j != id ==> db.Cards(j) == old(db.Cards(j))
  {
    var todo := db.Cards(id);
    while todo != multiset{}
      invariant db.Valid() && db.names == old(db.names) && db.parents == old(db.parents)
      invariant forall c :: c in CardsIn(db.rows, id) ==> c in todo
      invariant forall j :: j != id ==> CardsIn(db.rows, j) == CardsIn(old(db.rows), j)
      decreases |todo|
    {
      var c :| c in todo;
      RemoveStep(db.rows, c, id);
      db.RemoveCard(id, c);
      todo := todo[c := 0];
    }
  }

  /** Removing card c from set id, seen from every set. */
  lemma RemoveStep(rows: seq<MapRow>, c: PhysicalCard, id: nat)
    ensures CardsIn(DropCard(rows, c, id), id) == CardsIn(rows, id)[c := 0]
    ensures forall j :: j != id ==> CardsIn(DropCard(rows, c, id), j) == CardsIn(rows, j)
  {
    DropCardCards(rows, c, id, id);
    forall j | j != id
      ensures CardsIn(DropCard(rows, c, id), j) == CardsIn(rows, j)
    {
      DropCardCards(rows, c, id, j);
    }
  }
}
