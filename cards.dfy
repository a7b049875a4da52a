/** The card catalogue's records: abstract cards with their scalar columns
    and their joins, as plain values. */
module Cards {
  import opened Wrappers

  /** A discipline: its short name and its full name. */
  datatype Discipline = Discipline(id: nat, name: string, fullName: string)

  /** A discipline at a level (`inferior` or `superior`). */
  datatype DisciplinePair = DisciplinePair(id: nat, discipline: Discipline, level: string)

  /** An expansion a card was printed in and the rarity it had there. */
  datatype RarityPair = RarityPair(expansion: string, rarity: string)

  /** An abstract card: one row of the card catalogue with the joins the
      groupings, filters and tabulator read. A missing column value is
      `None`. */
  datatype AbstractCard = AbstractCard(
    canonicalName: string,
    name: string,
    text: string,
    searchText: string,
    group: Option<int>,
    capacity: Option<int>,
    cost: Option<int>,
    life: Option<int>,
    costType: Option<string>,
    level: Option<string>,
    cardTypes: seq<string>,
    clans: seq<string>,
    creeds: seq<string>,
    disciplines: seq<DisciplinePair>,
    virtues: seq<string>,
    sects: seq<string>,
    titles: seq<string>,
    keywords: seq<string>,
    artists: seq<string>,
    rarities: seq<RarityPair>)

  /** The card types a crypt card can have. */
  const CryptTypes: seq<string> := ["Vampire", "Imbued"]

  /** `is_crypt_card`: the first card type is a crypt type. A card without
      any type has no first type, which the source would fail on. */
  predicate IsCryptCard(c: AbstractCard)
    requires |c.cardTypes| > 0
  {
    c.cardTypes[0] in CryptTypes
  }

  /** `is_vampire`: the first card type is `Vampire`. */
  predicate IsVampire(c: AbstractCard)
    requires |c.cardTypes| > 0
  {
    c.cardTypes[0] == "Vampire"
  }

  /** Every vampire is a crypt card, and a crypt card that is not a vampire
      is an imbued. */
  lemma VampireIsCrypt(c: AbstractCard)
    requires |c.cardTypes| > 0
    ensures IsVampire(c) ==> IsCryptCard(c)
    ensures IsCryptCard(c) <==> IsVampire(c) || c.cardTypes[0] == "Imbued"
  {
  }

  /** The card catalogue: the abstract cards, the disciplines, the
      discipline pairs and the keywords known to the database. */
  datatype Catalogue = Catalogue(
    cards: seq<AbstractCard>,
    disciplines: seq<Discipline>,
    pairs: seq<DisciplinePair>,
    keywords: set<string>)

  /** The largest value a column takes over the catalogue, as SQL's `MAX`:
      `None` when no card has a value in the column. */
  function MaxOf(vals: seq<Option<int>>): (r: Option<int>)
    ensures r.None? <==> forall i :: 0 <= i < |vals| ==> vals[i].None?
    ensures r.Some? ==> (exists i :: 0 <= i < |vals| && vals[i] == r)
    ensures r.Some? ==> forall i :: 0 <= i < |vals| && vals[i].Some? ==> vals[i].value <= r.value
  {
    if |vals| == 0 then None
    else
      var rest := MaxOf(vals[1..]);
      assert forall i :: 1 <= i < |vals| ==> vals[i] == vals[1..][i - 1];
      if vals[0].None? then rest
      else if rest.None? || rest.value <= vals[0].value then vals[0]
      else rest
  }
}
