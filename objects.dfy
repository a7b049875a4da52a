/** Catalogue lookup and the object makers: looking an abstract card up by
    its canonical name with the article fallback, get-or-create for cards
    and discipline pairs, the discipline-pair adapter's memo cache and the
    cache flush. */
module Objects {
  import opened Wrappers
  import opened PyStr
  import opened Utility
  import opened Cards

  // ---------------------------------------------------------------------
  // Lookup by canonical name
  // ---------------------------------------------------------------------

  /** The canonical names of a card table are unique (the column is an
      alternate id). */
  predicate UniqueCanonical(cards: seq<AbstractCard>) {
    forall i, j :: 0 <= i < |cards| && 0 <= j < |cards| && i != j ==>
      cards[i].canonicalName != cards[j].canonicalName
  }

  /** `byCanonicalName`: the first card whose canonical name is `key`, or
      `None` (SQLObjectNotFound). */
  function ByCanonicalName(cards: seq<AbstractCard>, key: string): (r: Option<AbstractCard>)
    ensures r.Some? ==> r.value in cards && r.value.canonicalName == key
    ensures r.None? <==> forall i :: 0 <= i < |cards| ==> cards[i].canonicalName != key
  {
    if |cards| == 0 then None
    else if cards[0].canonicalName == key then Some(cards[0])
    else
      var r := ByCanonicalName(cards[1..], key);
      assert forall i :: 1 <= i < |cards| ==> cards[i] == cards[1..][i - 1];
      r
  }

  /** In a table with unique canonical names the lookup finds the one card
      that has the key. */
  lemma ByCanonicalNameUnique(cards: seq<AbstractCard>, i: nat)
    requires UniqueCanonical(cards) && i < |cards|
    ensures ByCanonicalName(cards, cards[i].canonicalName) == Some(cards[i])
  {
    var r := ByCanonicalName(cards, cards[i].canonicalName);
    assert r.Some?;
    var j :| 0 <= j < |cards| && cards[j] == r.value;
    assert j == i;
  }

  /** `AbstractCardAdapter`: look the lower-cased name up; on a miss, move
      the articles to the front and, only when that changed the name, look
      the lower-cased new name up instead. */
  function LookupAbstractCard(cards: seq<AbstractCard>, name: string): Option<AbstractCard> {
    match ByCanonicalName(cards, Lower(name))
    case Some(c) => Some(c)
    case None =>
      var newName := MoveArticlesToFront(name);
      if newName != name then ByCanonicalName(cards, Lower(newName)) else None
  }

  /** The lookup succeeds exactly when the lower-cased name is a canonical
      name, or the name with articles moved to the front differs from it
      and its lower-cased form is one; a direct hit wins. */
  lemma LookupAbstractCardSpec(cards: seq<AbstractCard>, name: string)
    ensures var r := LookupAbstractCard(cards, name);
      var front := MoveArticlesToFront(name);
      && (r.Some? <==>
            (exists i :: 0 <= i < |cards| && cards[i].canonicalName == Lower(name)) ||
            (front != name && exists i :: 0 <= i < |cards| && cards[i].canonicalName == Lower(front)))
      && (r.Some? ==>
            r.value in cards &&
            (r.value.canonicalName == Lower(name) || r.value.canonicalName == Lower(front)))
      && ((exists i :: 0 <= i < |cards| && cards[i].canonicalName == Lower(name)) ==>
            r == ByCanonicalName(cards, Lower(name)))
  {
    var direct := ByCanonicalName(cards, Lower(name));
    if direct.None? {
      var front := MoveArticlesToFront(name);
      if front != name {
        var r := ByCanonicalName(cards, Lower(front));
        if r.Some? {
          var k :| 0 <= k < |cards| && cards[k] == r.value;
        }
      }
    } else {
      var k :| 0 <= k < |cards| && cards[k] == direct.value;
    }
  }

  /** A name written with its article at the back in any letter case finds
      the card whose canonical name has the article at the front, when no
      card is stored under the name as written. */
  lemma LookupArticleAtBack(cards: seq<AbstractCard>, x: string, suffix: string, i: nat)
    requires Lower(suffix) == ", the"
    requires i < |cards| && UniqueCanonical(cards)
    requires cards[i].canonicalName == Lower("The " + x)
    requires forall j :: 0 <= j < |cards| ==> cards[j].canonicalName != Lower(x + suffix)
    ensures LookupAbstractCard(cards, x + suffix) == Some(cards[i])
  {
    ArticleSuffixAnyCase(x, suffix);
    var front := MoveArticlesToFront(x + suffix);
    assert front == "The " + x;
    assert |front| == |x| + 4;
    assert |x + suffix| == |x| + 5 by { assert |Lower(suffix)| == |suffix|; }
    assert front != x + suffix;
    ByCanonicalNameUnique(cards, i);
  }

  // ---------------------------------------------------------------------
  // make_abstract_card
  // ---------------------------------------------------------------------

  /** Why a database write was refused. */
  datatype DbError = DuplicateCanonicalName | InvalidLevel | UnknownDiscipline

  /** The card `make_abstract_card` creates: canonical name the stripped
      name lower-cased, display name the stripped name, empty text. */
  function NewCard(name: string): (c: AbstractCard)
    ensures c.canonicalName == Lower(Strip(name)) && c.name == Strip(name) && c.text == ""
  {
    var s := Strip(name);
    AbstractCard(Lower(s), s, "", "", None, None, None, None, None, None,
                 [], [], [], [], [], [], [], [], [], [])
  }

  /** The card table after a get-or-create call and the card returned. */
  datatype MakeResult = Made(cards: seq<AbstractCard>, card: AbstractCard) | Refused(error: DbError)

  /** `make_abstract_card` as written: the lookup uses the name as given,
      the creation the stripped name. Inserting a second card with the same
      canonical name violates the column's uniqueness and is refused. */
  function MakeAbstractCardAsWritten(cards: seq<AbstractCard>, name: string): MakeResult {
    match LookupAbstractCard(cards, name)
    case Some(c) => Made(cards, c)
    case None =>
      var c := NewCard(name);
      if ByCanonicalName(cards, c.canonicalName).Some? then Refused(DuplicateCanonicalName)
      else Made(cards + [c], c)
  }

  /** A name with padding whose stripped form is a stored card: the lookup
      of `Foo ` misses the stored `foo`, and the insertion of a second `foo`
      is refused instead of the stored card being returned. */
  lemma MakeAbstractCardPaddedName()
    ensures var stored := AbstractCard("foo", "Foo", "", "", None, None, None, None, None, None,
                                       [], [], [], [], [], [], [], [], [], []);
      MakeAbstractCardAsWritten([stored], "Foo ") == Refused(DuplicateCanonicalName)
  {
    var stored := AbstractCard("foo", "Foo", "", "", None, None, None, None, None, None,
                               [], [], [], [], [], [], [], [], [], []);
    PaddedNameStrips();
    PaddedNameLowers();
    assert MoveArticlesToFront("Foo ") == "Foo ";
    assert ByCanonicalName([stored], "foo ") == None;
    assert LookupAbstractCard([stored], "Foo ") == None;
    assert NewCard("Foo ").canonicalName == "foo";
  }

  lemma PaddedNameStrips()
    ensures Strip("Foo ") == "Foo"
  {
    var name := "Foo ";
    var foo := "Foo";
    assert name[..3] == foo;
    assert !IsSpace(name[0]);
    assert LStripBy(name, IsSpace) == name;
    assert IsSpace(name[3]);
    assert RStripBy(name, IsSpace) == RStripBy(foo, IsSpace);
    assert !IsSpace(foo[2]);
    assert RStripBy(foo, IsSpace) == foo;
  }

  lemma PaddedNameLowers()
    ensures Lower("Foo") == "foo" && Lower("Foo ") == "foo "
    ensures !EndsWith("foo ", ", the") && !EndsWith("foo ", ", an") && !EndsWith("foo ", ", a")
  {
    assert "foo "[3] == ' ';
  }

  /** `make_abstract_card` as intended: when the lookup of the name as given
      misses, a card already stored under the stripped canonical name is
      returned rather than a second one being inserted. */
  function MakeAbstractCard(cards: seq<AbstractCard>, name: string): (r: MakeResult)
    ensures r.Made?
    ensures UniqueCanonical(cards) ==> UniqueCanonical(r.cards)
    ensures r.card in r.cards
    ensures r.cards == cards || r.cards == cards + [r.card]
    ensures r.cards == cards + [r.card] ==> r.card == NewCard(name)
    ensures LookupAbstractCard(cards, name).Some? ==> r == Made(cards, LookupAbstractCard(cards, name).value)
    ensures LookupAbstractCard(cards, name).None? ==> r.card.canonicalName == Lower(Strip(name))
    ensures r.cards == cards + [r.card] <==>
      LookupAbstractCard(cards, name).None? && ByCanonicalName(cards, Lower(Strip(name))).None?
  {
    var found := LookupAbstractCard(cards, name);
    if found.Some? then
      LookupAbstractCardSpec(cards, name);
      Made(cards, found.value)
    else
      var c := NewCard(name);
      var existing := ByCanonicalName(cards, c.canonicalName);
      if existing.Some? then Made(cards, existing.value)
      else
        var cs := cards + [c];
        assert UniqueCanonical(cards) ==> UniqueCanonical(cs) by {
          assert forall i :: 0 <= i < |cards| ==> cs[i] == cards[i];
          assert cs[|cards|] == c;
        }
        assert cs[|cards|] == c;
        Made(cs, c)
  }

  /** Calling the maker twice with the same name creates at most one card,
      and the second call returns the card the first call made or found. */
  lemma MakeAbstractCardIdempotent(cards: seq<AbstractCard>, name: string)
    requires UniqueCanonical(cards)
    ensures var r1 := MakeAbstractCard(cards, name);
      var r2 := MakeAbstractCard(r1.cards, name);
      r2.cards == r1.cards && r2.card == r1.card
  {
    var r1 := MakeAbstractCard(cards, name);
    var key := Lower(Strip(name));
    if LookupAbstractCard(cards, name).Some? {
    } else if ByCanonicalName(cards, key).Some? {
      var e := ByCanonicalName(cards, key).value;
      var i :| 0 <= i < |cards| && cards[i] == e;
      ByCanonicalNameUnique(cards, i);
      LookupAbstractCardSpec(cards, name);
    } else {
      var c := NewCard(name);
      var n := |cards|;
      assert r1.cards == cards + [c];
      assert r1.cards[n] == c;
      ByCanonicalNameUnique(r1.cards, n);
      var r2 := MakeAbstractCard(r1.cards, name);
      LookupAbstractCardSpec(r1.cards, name);
      if LookupAbstractCard(r1.cards, name).Some? {
        var f := LookupAbstractCard(r1.cards, name).value;
        var k :| 0 <= k < |r1.cards| && r1.cards[k] == f;
        LookupAbstractCardSpec(cards, name);
        assert k == n;
      }
    }
  }

  // ---------------------------------------------------------------------
  // Discipline pairs
  // ---------------------------------------------------------------------

  /** The two levels a discipline pair can have. */
  predicate ValidLevel(level: string) {
    level == "inferior" || level == "superior"
  }

  /** The stored discipline pairs: each has a valid level, and no two share
      their discipline and level. */
  predicate ValidPairs(pairs: seq<DisciplinePair>) {
    && (forall i :: 0 <= i < |pairs| ==> ValidLevel(pairs[i].level))
    && (forall i, j :: 0 <= i < |pairs| && 0 <= j < |pairs| && i != j ==>
          (pairs[i].discipline.id, pairs[i].level) != (pairs[j].discipline.id, pairs[j].level))
  }

  /** `IDiscipline(name)`: the discipline with this name. The abbreviation
      table behind the real lookup is not part of this model: the name is
      matched exactly. */
  function FindDiscipline(discs: seq<Discipline>, name: string): (r: Option<Discipline>)
    ensures r.Some? ==> r.value in discs && r.value.name == name
    ensures r.None? ==> forall i :: 0 <= i < |discs| ==> discs[i].name != name
  {
    if |discs| == 0 then None
    else if discs[0].name == name then Some(discs[0])
    else
      var r := FindDiscipline(discs[1..], name);
      assert forall i :: 1 <= i < |discs| ==> discs[i] == discs[1..][i - 1];
      r
  }

  /** `DisciplinePair.selectBy(discipline, level).getOne()`. */
  function FindPair(pairs: seq<DisciplinePair>, disId: nat, level: string): (r: Option<DisciplinePair>)
    ensures r.Some? ==> r.value in pairs && r.value.discipline.id == disId && r.value.level == level
    ensures r.None? ==> forall i :: 0 <= i < |pairs| ==> (pairs[i].discipline.id, pairs[i].level) != (disId, level)
  {
    if |pairs| == 0 then None
    else if pairs[0].discipline.id == disId && pairs[0].level == level then Some(pairs[0])
    else
      var r := FindPair(pairs[1..], disId, level);
      assert forall i :: 1 <= i < |pairs| ==> pairs[i] == pairs[1..][i - 1];
      r
  }

  /** In a valid pair table the lookup returns the one stored pair with that
      discipline and level. */
  lemma FindPairUnique(pairs: seq<DisciplinePair>, i: nat)
    requires ValidPairs(pairs) && i < |pairs|
    ensures FindPair(pairs, pairs[i].discipline.id, pairs[i].level) == Some(pairs[i])
  {
    var r := FindPair(pairs, pairs[i].discipline.id, pairs[i].level);
    var j :| 0 <= j < |pairs| && pairs[j] == r.value;
    assert j == i;
  }

  /** The discipline and pair tables a maker reads and extends. Valid
      tables number their disciplines by position and store only pairs of
      known disciplines, with unique (discipline, level). */
  datatype DisciplineTables = DisciplineTables(discs: seq<Discipline>, pairs: seq<DisciplinePair>) {
    ghost predicate Valid() {
      && (forall i :: 0 <= i < |discs| ==> discs[i].id == i)
      && (forall i :: 0 <= i < |pairs| ==> pairs[i].discipline in discs)
      && ValidPairs(pairs)
    }
  }

  /** `make_discipline`: get-or-create by name; a new discipline takes the
      next free id. */
  function MakeDiscipline(t: DisciplineTables, name: string): (r: (DisciplineTables, Discipline))
    ensures r.1 in r.0.discs && r.1.name == name && r.0.pairs == t.pairs
    ensures r.0.discs == t.discs || r.0.discs == t.discs + [r.1]
    ensures t.Valid() ==> r.0.Valid()
    ensures FindDiscipline(r.0.discs, name) == Some(r.1)
  {
    match FindDiscipline(t.discs, name)
    case Some(d) => (t, d)
    case None =>
      var d := Discipline(|t.discs|, name, name);
      var t1 := DisciplineTables(t.discs + [d], t.pairs);
      assert forall i :: 0 <= i < |t.discs| ==> t1.discs[i] == t.discs[i];
      assert FindDiscipline(t1.discs, name) == Some(d) by {
        FindDisciplineAppend(t.discs, d, name);
      }
      (t1, d)
  }

  lemma {:induction false} FindDisciplineAppend(discs: seq<Discipline>, d: Discipline, name: string)
    requires FindDiscipline(discs, name).None? && d.name == name
    ensures FindDiscipline(discs + [d], name) == Some(d)
  {
    if |discs| > 0 {
      assert (discs + [d])[1..] == discs[1..] + [d];
      FindDisciplineAppend(discs[1..], d, name);
    }
  }

  /** `make_discipline_pair`: return the stored pair for the discipline and
      level; otherwise get or create the discipline and then create the
      pair. The level column accepts only inferior and superior, so another
      level is refused after the discipline has been made. The tables are
      returned also when the pair is refused. */
  function MakeDisciplinePair(t: DisciplineTables, name: string, level: string)
    : (r: (DisciplineTables, Result<DisciplinePair, DbError>))
    requires t.Valid()
    ensures r.0.Valid()
    ensures r.1.Ok? <==> ValidLevel(level) || FindPairByName(t, name, level).Some?
    ensures r.1.Ok? ==> r.1.value in r.0.pairs && r.1.value.level == level
    ensures r.1.Ok? ==> FindPairByName(r.0, name, level) == Some(r.1.value)
    ensures FindPairByName(t, name, level).Some? ==> r == (t, Ok(FindPairByName(t, name, level).value))
    ensures |t.discs| <= |r.0.discs| <= |t.discs| + 1 && r.0.discs[..|t.discs|] == t.discs
  {
    match FindPairByName(t, name, level)
    case Some(p) => (t, Ok(p))
    case None =>
      var (t1, d) := MakeDiscipline(t, name);
      if !ValidLevel(level) then (t1, Err(InvalidLevel))
      else
        NoPairYet(t, name, level);
        var (t2, p) := AddPair(t1, d, level);
        (t2, Ok(p))
  }

  /** Before a pair is created, the discipline got or made for it has no
      pair at that level. */
  lemma NoPairYet(t: DisciplineTables, name: string, level: string)
    requires t.Valid() && FindPairByName(t, name, level).None?
    ensures FindPair(MakeDiscipline(t, name).0.pairs, MakeDiscipline(t, name).1.id, level).None?
  {
    var (t1, d) := MakeDiscipline(t, name);
    if FindDiscipline(t.discs, name).Some? {
      assert FindDiscipline(t.discs, name).value == d;
    } else {
      assert d.id == |t.discs|;
      forall i | 0 <= i < |t1.pairs| ensures t1.pairs[i].discipline.id != d.id {
        assert t1.pairs[i].discipline in t.discs;
      }
    }
  }

  /** A new pair for a stored discipline at a valid level it has no pair
      for takes the next free id. */
  function AddPair(t: DisciplineTables, d: Discipline, level: string): (r: (DisciplineTables, DisciplinePair))
    requires t.Valid() && d in t.discs && ValidLevel(level) && FindPair(t.pairs, d.id, level).None?
    ensures r.0.Valid() && r.0.discs == t.discs && r.0.pairs == t.pairs + [r.1]
    ensures r.1 == DisciplinePair(|t.pairs|, d, level)
    ensures FindPair(r.0.pairs, d.id, level) == Some(r.1)
  {
    var p := DisciplinePair(|t.pairs|, d, level);
    var t2 := DisciplineTables(t.discs, t.pairs + [p]);
    assert forall i :: 0 <= i < |t.pairs| ==> t2.pairs[i] == t.pairs[i];
    FindPairAppend(t.pairs, p);
    (t2, p)
  }

  lemma {:induction false} FindPairAppend(pairs: seq<DisciplinePair>, p: DisciplinePair)
    requires FindPair(pairs, p.discipline.id, p.level).None?
    ensures FindPair(pairs + [p], p.discipline.id, p.level) == Some(p)
  {
    if |pairs| > 0 {
      assert (pairs + [p])[1..] == pairs[1..] + [p];
      FindPairAppend(pairs[1..], p);
    }
  }

  /** `IDisciplinePair((name, level))` on the stored tables: the discipline
      by name, then its pair at that level. */
  function FindPairByName(t: DisciplineTables, name: string, level: string): Option<DisciplinePair> {
    match FindDiscipline(t.discs, name)
    case Some(d) => FindPair(t.pairs, d.id, level)
    case None => None
  }

  lemma {:induction false} FindPairKeep(pairs: seq<DisciplinePair>, p: DisciplinePair, disId: nat, level: string)
    requires FindPair(pairs, disId, level).Some?
    ensures FindPair(pairs + [p], disId, level) == FindPair(pairs, disId, level)
  {
    if pairs[0].discipline.id != disId || pairs[0].level != level {
      assert (pairs + [p])[1..] == pairs[1..] + [p];
      FindPairKeep(pairs[1..], p, disId, level);
    }
  }

  // ---------------------------------------------------------------------
  // DisciplinePairAdapter cache
  // ---------------------------------------------------------------------

  /** Every cached pair is the stored pair for its (discipline id, level)
      key. */
  ghost predicate CacheConsistent(cache: map<(nat, string), DisciplinePair>, t: DisciplineTables) {
    forall k :: k in cache ==> FindPair(t.pairs, k.0, k.1) == Some(cache[k])
  }

  /** Pairs are only ever added and keys are unique, so a cache that agreed
      with the tables before `make_discipline_pair` still agrees after it. */
  lemma CacheSurvivesMake(cache: map<(nat, string), DisciplinePair>, t: DisciplineTables, name: string, level: string)
    requires t.Valid() && CacheConsistent(cache, t)
    ensures CacheConsistent(cache, MakeDisciplinePair(t, name, level).0)
  {
    var t2 := MakeDisciplinePair(t, name, level).0;
    if t2.pairs != t.pairs {
      var p := t2.pairs[|t2.pairs| - 1];
      assert t2.pairs == t.pairs + [p];
      forall k | k in cache ensures FindPair(t2.pairs, k.0, k.1) == Some(cache[k]) {
        FindPairKeep(t.pairs, p, k.0, k.1);
      }
    }
  }

  /** `DisciplinePairAdapter`: discipline-pair lookups memoised on
      (discipline id, level). */
  class DisciplinePairCache {
    var cache: map<(nat, string), DisciplinePair>

    ghost predicate Valid(t: DisciplineTables)
      reads this
    {
      CacheConsistent(cache, t)
    }

    constructor()
      ensures cache == map[]
    {
      cache := map[];
    }

    /** `make_object_cache`: forget every memoised pair. */
    method MakeObjectCache()
      modifies this
      ensures cache == map[]
    {
      cache := map[];
    }

    /** `DisciplinePairAdapter((name, level))`: resolve the discipline (a
        miss raises), then answer from the cache or look the pair up and
        remember it (a miss raises and caches nothing). The answer is the
        stored pair whether or not it came from the cache. */
    method Lookup(t: DisciplineTables, name: string, level: string) returns (r: Option<DisciplinePair>)
      requires Valid(t)
      modifies this
      ensures Valid(t)
      ensures r == FindPairByName(t, name, level)
      ensures r.Some? ==> cache == old(cache)[(FindDiscipline(t.discs, name).value.id, level) := r.value]
      ensures r.None? ==> cache == old(cache)
    {
      var d := FindDiscipline(t.discs, name);
      if d.None? {
        return None;
      }
      var key := (d.value.id, level);
      if key in cache {
        r := Some(cache[key]);
        assert cache == cache[key := r.value];
      } else {
        r := FindPair(t.pairs, key.0, key.1);
        if r.Some? {
          cache := cache[key := r.value];
        }
      }
    }
  }

  // ---------------------------------------------------------------------
  // flush_cache
  // ---------------------------------------------------------------------

  /** One join of the abstract card table: whether it caches, and its cached
      rows by card id. */
  datatype Join = Join(isCached: bool, rows: map<nat, seq<nat>>)

  /** What a flush leaves of a join: a cached join is emptied, any other
      join is untouched. */
  function Flushed(j: Join): (r: Join)
    ensures r.isCached == j.isCached
    ensures r.isCached ==> r.rows == map[]
    ensures !r.isCached ==> r == j
  {
    if j.isCached then Join(true, map[]) else j
  }

  /** The object caches: the joins of the abstract card table and the
      memo caches of the adaptors, each keyed by the name it adapts. */
  class ObjectCaches {
    var joins: seq<Join>
    var adaptorCaches: seq<map<string, nat>>

    /** `flush_cache(bMakeCache)`: flush every cached join, and rebuild
        (empty) every adaptor cache only when asked to. */
    method FlushCache(makeCache: bool)
      modifies this
      ensures |joins| == |old(joins)|
      ensures forall i :: 0 <= i < |joins| ==> joins[i] == Flushed(old(joins)[i])
      ensures makeCache ==> |adaptorCaches| == |old(adaptorCaches)|
      ensures makeCache ==> forall i :: 0 <= i < |adaptorCaches| ==> adaptorCaches[i] == map[]
      ensures !makeCache ==> adaptorCaches == old(adaptorCaches)
    {
      var i := 0;
      while i < |joins|
        invariant 0 <= i <= |joins| == |old(joins)|
        invariant forall k :: 0 <= k < i ==> joins[k] == Flushed(old(joins)[k])
        invariant forall k :: i <= k < |joins| ==> joins[k] == old(joins)[k]
        invariant adaptorCaches == old(adaptorCaches)
      {
        if joins[i].isCached {
          joins := joins[i := Flushed(joins[i])];
        }
        i := i + 1;
      }
      if makeCache {
        MakeAdaptorCaches();
      }
    }

    /** `make_adaptor_caches`: empty every adaptor cache. */
    method MakeAdaptorCaches()
      modifies this
      ensures joins == old(joins)
      ensures |adaptorCaches| == |old(adaptorCaches)|
      ensures forall i :: 0 <= i < |adaptorCaches| ==> adaptorCaches[i] == map[]
    {
      var i := 0;
      while i < |adaptorCaches|
        invariant 0 <= i <= |adaptorCaches| == |old(adaptorCaches)|
        invariant forall k :: 0 <= k < i ==> adaptorCaches[k] == map[]
        invariant joins == old(joins)
      {
        adaptorCaches := adaptorCaches[i := map[]];
        i := i + 1;
      }
    }
  }
}
