/** The card-set holder: a staging area that parsers and the upgrade code fill
    with (count, card name, expansion name) entries, a set name and a parent
    name, and that is then committed to the card-set tables as a new physical
    card set. */
module CardSetHolder {
  import opened Wrappers
  import opened CardSets

  /** A staged card: a card name as written in the source of the set, and
      an expansion name or None. */
  datatype Entry = Entry(name: string, expansion: Option<string>)

  /** The holder's RuntimeError cases. */
  datatype HolderError = NoName | NotInHolder | TooFewInHolder | NameTaken

  /** A warning the holder records for its caller to show. */
  datatype Warning = ParentNotFound(parent: string)

  /** What the card lookup knows: each recognised card name with the
      canonical name of its abstract card, and the known expansion names. */
  datatype CardLookup = CardLookup(cards: map<string, string>, expansions: set<string>)

  /** `add(n, name, expansion)`: n more copies of the entry. */
  function Added(m: multiset<Entry>, e: Entry, n: nat): (r: multiset<Entry>)
    ensures |r| == |m| + n
    ensures r[e] == m[e] + n && forall d :: d != e ==> r[d] == m[d]
  {
    m[e := m[e] + n]
  }

  /** `remove(n, name, expansion)`: an entry that was never added, or fewer
      copies than n, raise; otherwise n copies go. */
  function Removed(m: multiset<Entry>, e: Entry, n: nat): (r: Result<multiset<Entry>, HolderError>)
    ensures r == Err(NotInHolder) <==> m[e] == 0
    ensures r == Err(TooFewInHolder) <==> 0 < m[e] < n
    ensures r.Ok? ==> (|r.value| == |m| - n && r.value[e] == m[e] - n
      && forall d :: d != e ==> r.value[d] == m[d])
  {
    if m[e] == 0 then Err(NotInHolder)
    else if m[e] < n then Err(TooFewInHolder)
    else Ok(m[e := m[e] - n])
  }

  /** Removing what was just added gives back the holder's contents. */
  lemma AddThenRemove(m: multiset<Entry>, e: Entry, n: nat)
    requires n > 0 || e in m
    ensures Removed(Added(m, e, n), e, n) == Ok(m)
  {
    assert Added(m, e, n)[e := m[e]] == m;
  }

  /** The physical card an entry stands for, when its card name is known:
      an unknown expansion name gives no expansion. */
  function Resolve(lookup: CardLookup, e: Entry): (r: Option<PhysicalCard>)
    ensures r.Some? <==> e.name in lookup.cards
    ensures r.Some? ==> (r.value.card == lookup.cards[e.name]
      && (r.value.expansion.Some? <==> e.expansion.Some? && e.expansion.value in lookup.expansions))
  {
    if e.name !in lookup.cards then None
    else
      var exp := if e.expansion.Some? && e.expansion.value in lookup.expansions then e.expansion else None;
      Some(PhysicalCard(lookup.cards[e.name], exp))
  }

  /** Resolve as a multiset: one card or none. */
  function ResolveOne(lookup: CardLookup, e: Entry): multiset<PhysicalCard>
  {
    match Resolve(lookup, e)
    case None => multiset{}
    case Some(c) => multiset{c}
  }

  /** The cards a committed holder's entries give, one per copy of an entry
      whose card name is known. */
  ghost function ResolveAll(lookup: CardLookup, m: multiset<Entry>): multiset<PhysicalCard>
    decreases |m|
  {
    if m == multiset{} then multiset{}
    else
      var e :| e in m;
      ResolveOne(lookup, e) + ResolveAll(lookup, m - multiset{e})
  }

  /** The result does not depend on which entry is taken first. */
  lemma {:induction false} ResolveAllPick(lookup: CardLookup, m: multiset<Entry>, e: Entry)
    requires e in m
    ensures ResolveAll(lookup, m) == ResolveOne(lookup, e) + ResolveAll(lookup, m - multiset{e})
    decreases |m|
  {
    var f :| f in m && ResolveAll(lookup, m) == ResolveOne(lookup, f) + ResolveAll(lookup, m - multiset{f});
    if f != e {
      var rest := m - multiset{f} - multiset{e};
      assert m - multiset{f} - multiset{e} == m - multiset{e} - multiset{f};
      ResolveAllPick(lookup, m - multiset{f}, e);
      ResolveAllPick(lookup, m - multiset{e}, f);
    }
  }

  /** A committed holder has exactly as many cards as entries when every card
      name is known, and fewer otherwise. */
  lemma {:induction false} ResolveAllSize(lookup: CardLookup, m: multiset<Entry>)
    ensures |ResolveAll(lookup, m)| <= |m|
    ensures |ResolveAll(lookup, m)| == |m| <==> forall e :: e in m ==> e.name in lookup.cards
    decreases |m|
  {
    if m != multiset{} {
      var e :| e in m;
      ResolveAllPick(lookup, m, e);
      ResolveAllSize(lookup, m - multiset{e});
      if e.name !in lookup.cards {
        assert |ResolveAll(lookup, m)| < |m|;
      } else {
        forall d | d in m && d != e
          ensures d in m - multiset{e}
        {
        }
      }
    }
  }

  /** A holder with a real name: None and the empty name count as no name,
      as a Python string's truth value does. */
  predicate HasName(name: Option<string>)
  {
    name.Some? && name.value != ""
  }

  /** The card-set holder. */
  class CardSetHolder {
    /** The name the set will get. */
    var name: Option<string>
    /** The name of the set's parent. */
    var parent: Option<string>
    /** The staged entries, each as often as its count. */
    var entries: multiset<Entry>
    /** The warnings recorded so far. */
    var warnings: seq<Warning>

    /** An empty holder. */
    constructor()
      ensures name.None? && parent.None? && entries == multiset{} && warnings == []
    {
      name := None;
      parent := None;
      entries := multiset{};
      warnings := [];
    }

    /** `num_entries`: the total count of the staged entries. */
    function NumEntries(): nat
      reads this
    {
      |entries|
    }

    /** `add(n, cardName, expansion)`. */
    method Add(n: nat, cardName: string, expansion: Option<string>)
      modifies this
      ensures entries == Added(old(entries), Entry(cardName, expansion), n)
      ensures name == old(name) && parent == old(parent) && warnings == old(warnings)
    {
      entries := Added(entries, Entry(cardName, expansion), n);
    }

    /** `remove(n, cardName, expansion)`: raises, changing nothing, when the
        entry is missing or has fewer than n copies. */
    method Remove(n: nat, cardName: string, expansion: Option<string>) returns (err: Option<HolderError>)
      modifies this
      ensures match Removed(old(entries), Entry(cardName, expansion), n)
        case Err(x) => err == Some(x) && entries == old(entries)
        case Ok(m) => err.None? && entries == m
      ensures name == old(name) && parent == old(parent) && warnings == old(warnings)
    {
      match Removed(entries, Entry(cardName, expansion), n)
      case Err(x) =>
        err := Some(x);
      case Ok(m) =>
        entries := m;
        err := None;
    }

    /** `get_parent_pcs`: the set named as parent, or None with a warning
        when no set has that name. */
    method GetParentPcs(db: CardSetDb) returns (r: Option<nat>)
      requires db.Valid()
      modifies this
      ensures parent.None? ==> r.None? && warnings == old(warnings)
      ensures parent.Some? ==> r == db.Named(parent.value)
      ensures parent.Some? && r.None? ==> warnings == old(warnings) + [ParentNotFound(parent.value)]
      ensures parent.Some? && r.Some? ==> warnings == old(warnings)
      ensures name == old(name) && parent == old(parent) && entries == old(entries)
    {
      r := None;
      if parent.Some? {
        r := db.Named(parent.value);
        if r.None? {
          warnings := warnings + [ParentNotFound(parent.value)];
        }
      }
    }

    /** `clear_warnings`. */
    method ClearWarnings()
      modifies this
      ensures warnings == []
      ensures name == old(name) && parent == old(parent) && entries == old(entries)
    {
      warnings := [];
    }

    /** `create_pcs`: without a name it raises and changes nothing.  Otherwise
        it resolves the parent as `get_parent_pcs` does and creates the set
        under that parent, holding one card per staged copy whose card name
        the lookup knows. */
    method CreatePcs(db: CardSetDb, lookup: CardLookup) returns (r: Result<nat, HolderError>)
      requires db.Valid()
      modifies this, db
      ensures db.Valid()
      ensures name == old(name) && parent == old(parent) && entries == old(entries)
      ensures !HasName(name) ==>
        (r == Err(NoName) && db.names == old(db.names) && db.parents == old(db.parents)
         && db.rows == old(db.rows) && warnings == old(warnings))
      ensures HasName(name) ==>
        warnings == old(warnings)
          + (if parent.Some? && old(db.Named(parent.value)).None? then [ParentNotFound(parent.value)] else [])
      ensures HasName(name) && old(db.Named(name.value)).Some? ==>
        (r == Err(NameTaken) && db.names == old(db.names) && db.parents == old(db.parents)
         && db.rows == old(db.rows))
      ensures HasName(name) && old(db.Named(name.value)).None? ==>
        (r.Ok? && r.value !in old(db.names) && r.value == old(db.nextId) && db.nextId == old(db.nextId) + 1
         && db.names == old(db.names)[r.value := name.value]
         && db.parents == old(db.parents)[r.value := if parent.Some? then old(db.Named(parent.value)) else None]
         && db.Cards(r.value) == ResolveAll(lookup, entries)
         && forall j :: j != r.value ==> CardsIn(db.rows, j) == CardsIn(old(db.rows), j))
    {
      if !HasName(name) {
        return Err(NoName);
      }
      var parentId := GetParentPcs(db);
      ghost var known := db.names.Keys;
      assert forall r :: r in db.rows ==> r.cardSet in known;
      var c := db.Create(name.value, parentId);
      if c.Err? {
        return Err(NameTaken);
      }
      NoRowsOfNewSet(db.rows, c.value);
      AddResolved(db, c.value, lookup, entries);
      r := Ok(c.value);
    }
  }

  /** The card loop of `create_pcs`: one membership row per staged copy
      whose card name the lookup knows. */
  method AddResolved(db: CardSetDb, id: nat, lookup: CardLookup, entries: multiset<Entry>)
    requires db.Valid() && id in db.names
    modifies db
    ensures db.Valid() && db.names == old(db.names) && db.parents == old(db.parents) && db.nextId == old(db.nextId)
    ensures db.Cards(id) == old(db.Cards(id)) + ResolveAll(lookup, entries)
    ensures forall j :: j != id ==> CardsIn(db.rows, j) == CardsIn(old(db.rows), j)
  {
    ghost var rows0 := db.rows;
    var rest := entries;
    while rest != multiset{}
      invariant db.Valid() && db.names == old(db.names) && db.parents == old(db.parents) && db.nextId == old(db.nextId)
      invariant CardsIn(db.rows, id) + ResolveAll(lookup, rest) == CardsIn(rows0, id) + ResolveAll(lookup, entries)
      invariant forall j :: j != id ==> CardsIn(db.rows, j) == CardsIn(rows0, j)
      decreases |rest|
    {
      var e :| e in rest;
      var pc := Resolve(lookup, e);
      ghost var before := db.rows;
      if pc.Some? {
        AddRowEverywhere(db.rows, pc.value, id);
        db.AddCard(id, pc.value);
      }
      ResolveStep(lookup, rest, e, CardsIn(before, id), CardsIn(db.rows, id),
        CardsIn(rows0, id) + ResolveAll(lookup, entries));
      rest := rest - multiset{e};
    }
  }

  /** One turn of the card loop keeps the cards made so far plus those still
      to make equal to the total. */
  lemma ResolveStep(lookup: CardLookup, rest: multiset<Entry>, e: Entry,
                    cur: multiset<PhysicalCard>, next: multiset<PhysicalCard>, total: multiset<PhysicalCard>)
    requires e in rest && cur + ResolveAll(lookup, rest) == total
    requires next == cur + ResolveOne(lookup, e)
    ensures next + ResolveAll(lookup, rest - multiset{e}) == total
  {
    ResolveAllPick(lookup, rest, e);
  }

  /** Adding a row for set id changes the cards of that set alone. */
  lemma AddRowEverywhere(rows: seq<MapRow>, pc: PhysicalCard, id: nat)
    ensures CardsIn(rows + [MapRow(pc, id)], id) == CardsIn(rows, id) + multiset{pc}
    ensures forall j :: j != id ==> CardsIn(rows + [MapRow(pc, id)], j) == CardsIn(rows, j)
  {
    assert (rows + [MapRow(pc, id)])[..|rows|] == rows;
  }

  /** A set that is not yet in the tables has no membership rows. */
  lemma {:induction false} NoRowsOfNewSet(rows: seq<MapRow>, id: nat)
    requires forall r :: r in rows ==> r.cardSet != id
    ensures CardsIn(rows, id) == multiset{}
  {
    if |rows| > 0 {
      assert rows[|rows| - 1] in rows;
      NoRowsOfNewSet(rows[..|rows| - 1], id);
    }
  }
}
