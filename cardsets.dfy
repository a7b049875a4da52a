/** The card-set tables: each physical card set's own row (name and parent)
    and the membership table that maps physical cards to card sets, one row
    per copy of a card in a set. */
module CardSets {
  import opened Wrappers
  import opened CardSetGraph

  /** A physical card: an abstract card, by canonical name, printed in an
      expansion, or in no specified expansion. */
  datatype PhysicalCard = PhysicalCard(card: string, expansion: Option<string>)

  /** One row of the membership table: a copy of `card` in the set `cardSet`. */
  datatype MapRow = MapRow(card: PhysicalCard, cardSet: nat)

  /** The cards of set id: one element per row of that set. */
  function CardsIn(rows: seq<MapRow>, id: nat): (m: multiset<PhysicalCard>)
    ensures |m| <= |rows|
  {
    if |rows| == 0 then multiset{}
    else
      var rest := CardsIn(rows[..|rows| - 1], id);
      var r := rows[|rows| - 1];
      if r.cardSet == id then rest + multiset{r.card} else rest
  }

  /** The number of membership rows for card c, over every set. */
  function RowsOf(rows: seq<MapRow>, c: PhysicalCard): (n: nat)
    ensures n <= |rows|
  {
    if |rows| == 0 then 0
    else RowsOf(rows[..|rows| - 1], c) + (if rows[|rows| - 1].card == c then 1 else 0)
  }

  /** The rows that survive removing card c from set id. */
  function DropCard(rows: seq<MapRow>, c: PhysicalCard, id: nat): (rs: seq<MapRow>)
    ensures forall r :: r in rs <==> r in rows && r != MapRow(c, id)
  {
    if |rows| == 0 then []
    else
      var rest := DropCard(rows[..|rows| - 1], c, id);
      var r := rows[|rows| - 1];
      assert rows == rows[..|rows| - 1] + [r];
      if r == MapRow(c, id) then rest else rest + [r]
  }

  /** The rows that survive deleting set id. */
  function DropSet(rows: seq<MapRow>, id: nat): (rs: seq<MapRow>)
    ensures forall r :: r in rs <==> r in rows && r.cardSet != id
  {
    if |rows| == 0 then []
    else
      var rest := DropSet(rows[..|rows| - 1], id);
      var r := rows[|rows| - 1];
      assert rows == rows[..|rows| - 1] + [r];
      if r.cardSet == id then rest else rest + [r]
  }

  /** Adding a row adds one copy of its card to its set and nothing to the
      others, and one more row for that card. */
  lemma AddRow(rows: seq<MapRow>, r: MapRow, id: nat, c: PhysicalCard)
    ensures CardsIn(rows + [r], id) == CardsIn(rows, id) + (if r.cardSet == id then multiset{r.card} else multiset{})
    ensures RowsOf(rows + [r], c) == RowsOf(rows, c) + (if r.card == c then 1 else 0)
  {
    assert (rows + [r])[..|rows|] == rows;
  }

  /** Removing card c from set id takes every copy of c out of that set and
      leaves every other set as it was. */
  lemma {:induction false} DropCardCards(rows: seq<MapRow>, c: PhysicalCard, id: nat, j: nat)
    ensures CardsIn(DropCard(rows, c, id), j) == if j == id then CardsIn(rows, j)[c := 0] else CardsIn(rows, j)
  {
    if |rows| > 0 {
      var init := rows[..|rows| - 1];
      var r := rows[|rows| - 1];
      DropCardCards(init, c, id, j);
      if r != MapRow(c, id) {
        AddRow(DropCard(init, c, id), r, j, c);
        assert DropCard(rows, c, id) == DropCard(init, c, id) + [r];
      } else {
        assert DropCard(rows, c, id) == DropCard(init, c, id);
      }
    }
  }

  /** Removing card c from set id loses exactly the rows of c in that set. */
  lemma {:induction false} DropCardRows(rows: seq<MapRow>, c: PhysicalCard, id: nat, d: PhysicalCard)
    ensures RowsOf(DropCard(rows, c, id), d) == RowsOf(rows, d) - (if d == c then CardsIn(rows, id)[c] else 0)
  {
    if |rows| > 0 {
      var init := rows[..|rows| - 1];
      var r := rows[|rows| - 1];
      DropCardRows(init, c, id, d);
      if r != MapRow(c, id) {
        AddRow(DropCard(init, c, id), r, id, d);
        assert DropCard(rows, c, id) == DropCard(init, c, id) + [r];
      } else {
        assert DropCard(rows, c, id) == DropCard(init, c, id);
      }
    }
  }

  /** Deleting set id empties it, leaves every other set as it was, and
      loses exactly its rows. */
  lemma {:induction false} DropSetCounts(rows: seq<MapRow>, id: nat, j: nat, d: PhysicalCard)
    ensures CardsIn(DropSet(rows, id), j) == if j == id then multiset{} else CardsIn(rows, j)
    ensures RowsOf(DropSet(rows, id), d) == RowsOf(rows, d) - CardsIn(rows, id)[d]
  {
    if |rows| > 0 {
      var init := rows[..|rows| - 1];
      var r := rows[|rows| - 1];
      DropSetCounts(init, id, j, d);
      if r.cardSet != id {
        AddRow(DropSet(init, id), r, j, d);
      }
    }
  }

  /** Errors the card-set table raises. */
  datatype DbError = DuplicateName | NotFound

  /** The physical card-set tables. */
  class CardSetDb {
    /** Each card set's name, by id. */
    var names: map<nat, string>
    /** Each card set's parent, by id. */
    var parents: Parents
    /** The membership table. */
    var rows: seq<MapRow>
    /** The id the next new set gets. */
    var nextId: nat

    /** Every set has a name and a parent column, ids are below the next id,
        names are unique, and every membership row belongs to a known set. */
    ghost predicate Valid()
      reads this
    {
      parents.Keys == names.Keys
      && (forall id :: id in names ==> id < nextId)
      && (forall a, b :: a in names && b in names && names[a] == names[b] ==> a == b)
      && (forall r :: r in rows ==> r.cardSet in names)
    }

    /** The set with the given name, as the name lookup finds it. */
    function Named(name: string): (r: Option<nat>)
      reads this
      requires Valid()
      ensures r.Some? ==> r.value in names && names[r.value] == name
      ensures r.None? ==> forall id :: id in names ==> names[id] != name
    {
      if exists id :: id in names && names[id] == name then
        Some(var id :| id in names && names[id] == name; id)
      else None
    }

    /** The cards of set id. */
    function Cards(id: nat): multiset<PhysicalCard>
      reads this
    {
      CardsIn(rows, id)
    }

    /** `find_children`: the sets whose parent is id. */
    function Children(id: nat): (cs: set<nat>)
      reads this
      ensures forall c :: c in cs <==> c in parents && parents[c] == Some(id)
    {
      set c | c in parents && parents[c] == Some(id)
    }

    /** An empty database. */
    constructor()
      ensures Valid() && names == map[] && parents == map[] && rows == []
    {
      names := map[];
      parents := map[];
      rows := [];
      nextId := 0;
    }

    /** A new set with the given name and parent and no cards; a name that
        is taken is refused. */
    method Create(name: string, parent: Option<nat>) returns (r: Result<nat, DbError>)
      requires Valid()
      modifies this
      ensures Valid() && rows == old(rows)
      ensures old(Named(name)).Some? ==> r == Err(DuplicateName) && names == old(names) && parents == old(parents)
      ensures old(Named(name)).None? ==>
        (r.Ok? && r.value !in old(names) && r.value == old(nextId) && nextId == old(nextId) + 1
         && names == old(names)[r.value := name] && parents == old(parents)[r.value := parent]
         && Named(name) == Some(r.value))
    {
      if Named(name).Some? {
        return Err(DuplicateName);
      }
      var id := nextId;
      names := names[id := name];
      parents := parents[id := parent];
      nextId := nextId + 1;
      r := Ok(id);
      assert Valid();
      assert id in names && names[id] == name;
      assert Named(name).value == id;
    }

    /** `addPhysicalCard`: one more copy of c in set id. */
    method AddCard(id: nat, c: PhysicalCard)
      requires Valid() && id in names
      modifies this
      ensures Valid() && names == old(names) && parents == old(parents) && nextId == old(nextId)
      ensures rows == old(rows) + [MapRow(c, id)]
    {
      rows := rows + [MapRow(c, id)];
    }

    /** `removePhysicalCard`: every row of c in set id goes. */
    method RemoveCard(id: nat, c: PhysicalCard)
      requires Valid()
      modifies this
      ensures Valid() && names == old(names) && parents == old(parents) && nextId == old(nextId)
      ensures rows == DropCard(old(rows), c, id)
    {
      rows := DropCard(rows, c, id);
    }

    /** Deleting set id together with its membership rows. */
    method Delete(id: nat)
      requires Valid()
      modifies this
      ensures Valid() && nextId == old(nextId)
      ensures names == old(names) - {id} && parents == old(parents) - {id}
      ensures rows == DropSet(old(rows), id)
      ensures id in old(names) ==> Named(old(names)[id]).None?
    {
      names := names - {id};
      parents := parents - {id};
      rows := DropSet(rows, id);
    }

    /** Assigning the parent column of set id. */
    method SetParent(id: nat, np: Option<nat>)
      requires Valid() && id in names
      modifies this
      ensures Valid() && names == old(names) && rows == old(rows) && nextId == old(nextId)
      ensures parents == old(parents)[id := np]
    {
      parents := parents[id := np];
    }
  }
}
