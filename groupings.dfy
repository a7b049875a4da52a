/** The key functions of the card groupings: what keys each card is listed
    under when a card list is grouped by type, clan, discipline, expansion
    and rarity, crypt or library, cost, group or pair of groups. */
module Groupings {
  import opened Wrappers
  import opened PyStr
  import opened Cards

  /** `MultiTypeGrouping`: one key, the card's type names sorted and joined
      by ` / `. */
  function MultiTypeKeys(c: AbstractCard): (ks: seq<string>)
    ensures |ks| == 1
  {
    [Join(" / ", SortStrs(c.cardTypes))]
  }

  /** The multi-type key does not depend on the order the types are
      listed in. */
  lemma MultiTypeOrderFree(c: AbstractCard, d: AbstractCard)
    requires multiset(c.cardTypes) == multiset(d.cardTypes)
    ensures MultiTypeKeys(c) == MultiTypeKeys(d)
  {
    SortStrsPermutation(c.cardTypes, d.cardTypes);
  }

  /** `ClanGrouping`: the card's creeds when it has any, its clans
      otherwise. */
  function ClanKeys(c: AbstractCard): (ks: seq<string>)
    ensures forall k :: k in ks <==> (k in c.creeds || (|c.creeds| == 0 && k in c.clans))
  {
    if |c.creeds| > 0 then c.creeds else c.clans
  }

  /** The full names of the disciplines of a card, in order. */
  function DisciplineNames(ds: seq<DisciplinePair>): (ns: seq<string>)
    ensures |ns| == |ds| && forall i :: 0 <= i < |ds| ==> ns[i] == ds[i].discipline.fullName
  {
    if |ds| == 0 then [] else [ds[0].discipline.fullName] + DisciplineNames(ds[1..])
  }

  /** `DisciplineGrouping`: the card's virtues when it has any, the full
      names of its disciplines otherwise. */
  function DisciplineKeys(c: AbstractCard): (ks: seq<string>)
    ensures |c.virtues| > 0 ==> forall k :: k in ks <==> k in c.virtues
    ensures |c.virtues| == 0 ==>
      forall k :: k in ks <==> exists i :: 0 <= i < |c.disciplines| && k == c.disciplines[i].discipline.fullName
  {
    if |c.virtues| > 0 then c.virtues else DisciplineNames(c.disciplines)
  }

  /** `'%s (%s)' % (fullname, level)`. */
  function LevelName(p: DisciplinePair): string {
    p.discipline.fullName + " (" + p.level + ")"
  }

  /** The discipline-and-level names of a card, in order. */
  function LevelNames(ds: seq<DisciplinePair>): (ns: seq<string>)
    ensures |ns| == |ds| && forall i :: 0 <= i < |ds| ==> ns[i] == LevelName(ds[i])
  {
    if |ds| == 0 then [] else [LevelName(ds[0])] + LevelNames(ds[1..])
  }

  /** `DisciplineLevelGrouping`: the card's virtues when it has any, each
      discipline with its level otherwise. */
  function DisciplineLevelKeys(c: AbstractCard): (ks: seq<string>)
    ensures |c.virtues| > 0 ==> forall k :: k in ks <==> k in c.virtues
    ensures |c.virtues| == 0 ==>
      forall k :: k in ks <==> exists i :: 0 <= i < |c.disciplines| && k == LevelName(c.disciplines[i])
  {
    if |c.virtues| > 0 then c.virtues else LevelNames(c.disciplines)
  }

  /** The number of the card's rarities in expansion e. */
  function InExpansion(rs: seq<RarityPair>, e: string): (n: nat)
    ensures n <= |rs|
  {
    if |rs| == 0 then 0 else (if rs[0].expansion == e then 1 else 0) + InExpansion(rs[1..], e)
  }

  /** The expansion-rarity keys one rarity of a card contributes: `Promo`
      for a promotional expansion; otherwise the expansion with the rarity,
      and a `Precon Only` key when the rarity is Precon and it is the
      card's only rarity in that expansion. */
  function RarityKeysOf(all: seq<RarityPair>, r: RarityPair): seq<string> {
    if StartsWith(r.expansion, "Promo") then ["Promo"]
    else
      [r.expansion + " : " + r.rarity]
      + (if r.rarity == "Precon" && InExpansion(all, r.expansion) == 1 then [r.expansion + " : Precon Only"] else [])
  }

  /** The keys the rarities `rs` contribute, in order. */
  function RarityKeysAll(all: seq<RarityPair>, rs: seq<RarityPair>): (ks: seq<string>)
    ensures forall k :: k in ks <==> exists i :: 0 <= i < |rs| && k in RarityKeysOf(all, rs[i])
  {
    if |rs| == 0 then []
    else
      var rest := RarityKeysAll(all, rs[1..]);
      assert forall i :: 1 <= i < |rs| ==> rs[i] == rs[1..][i - 1];
      RarityKeysOf(all, rs[0]) + rest
  }

  /** `ExpansionRarityGrouping`: the keys of all of the card's rarities. */
  function ExpansionRarityKeys(c: AbstractCard): (ks: seq<string>)
    ensures forall k :: k in ks <==> exists i :: 0 <= i < |c.rarities| && k in RarityKeysOf(c.rarities, c.rarities[i])
  {
    RarityKeysAll(c.rarities, c.rarities)
  }

  /** A promotional printing is listed under `Promo`, any other under its
      expansion and rarity. */
  lemma ExpansionRarityListed(c: AbstractCard, i: nat)
    requires i < |c.rarities|
    ensures StartsWith(c.rarities[i].expansion, "Promo") ==> "Promo" in ExpansionRarityKeys(c)
    ensures !StartsWith(c.rarities[i].expansion, "Promo") ==>
      c.rarities[i].expansion + " : " + c.rarities[i].rarity in ExpansionRarityKeys(c)
  {
    var r := c.rarities[i];
    if StartsWith(r.expansion, "Promo") {
      assert "Promo" in RarityKeysOf(c.rarities, r);
    } else {
      assert (r.expansion + " : " + r.rarity) in RarityKeysOf(c.rarities, r);
    }
  }

  /** A card printed in expansion e only once, as a Precon, is listed as
      `e : Precon Only`; one printed in e more than once gets that key from
      no rarity of e that is not itself named `Precon Only`. */
  lemma PreconOnly(c: AbstractCard, i: nat)
    requires i < |c.rarities|
    requires !StartsWith(c.rarities[i].expansion, "Promo") && c.rarities[i].rarity == "Precon"
    ensures InExpansion(c.rarities, c.rarities[i].expansion) == 1 ==>
      c.rarities[i].expansion + " : Precon Only" in ExpansionRarityKeys(c)
    ensures InExpansion(c.rarities, c.rarities[i].expansion) > 1 ==>
      c.rarities[i].expansion + " : Precon Only" !in RarityKeysOf(c.rarities, c.rarities[i])
  {
    var r := c.rarities[i];
    if InExpansion(c.rarities, r.expansion) == 1 {
      assert RarityKeysOf(c.rarities, r)[1] == r.expansion + " : Precon Only";
    } else if InExpansion(c.rarities, r.expansion) > 1 {
      var k := r.expansion + " : Precon Only";
      var own := r.expansion + " : " + r.rarity;
      assert RarityKeysOf(c.rarities, r) == [own];
      assert |own| != |k|;
    }
  }

  /** `CryptLibraryGrouping`: `Crypt` for a card whose first type is a
      crypt type, `Library` otherwise. A card without any type has no
      first type, which the source would fail on. */
  function CryptLibraryKeys(c: AbstractCard): (ks: seq<string>)
    requires |c.cardTypes| > 0
    ensures ks == ["Crypt"] <==> c.cardTypes[0] == "Vampire" || c.cardTypes[0] == "Imbued"
    ensures ks == ["Library"] <==> !(c.cardTypes[0] == "Vampire" || c.cardTypes[0] == "Imbued")
  {
    [if IsCryptCard(c) then "Crypt" else "Library"]
  }

  /** `'%s' % costtype`: a missing cost type prints as `None`. */
  function CostTypeText(t: Option<string>): string {
    if t.None? then "None" else t.value
  }

  /** `CostGrouping`: `X <costtype>` for cost -1, `<n> <costtype>` for any
      other non-zero cost, and no key for a missing or zero cost. */
  function CostKeys(c: AbstractCard): (ks: seq<string>)
    ensures |ks| == 0 <==> c.cost.None? || c.cost.value == 0
    ensures c.cost == Some(-1) ==> ks == ["X " + CostTypeText(c.costType)]
  {
    if c.cost.None? || c.cost.value == 0 then []
    else if c.cost.value == -1 then ["X " + CostTypeText(c.costType)]
    else [IntToStr(c.cost.value) + " " + CostTypeText(c.costType)]
  }

  /** Decimal texts are equal only for equal numbers. */
  lemma IntToStrInjective(a: int, b: int)
    requires IntToStr(a) == IntToStr(b)
    ensures a == b
  {
    IntToStrParses(a);
    IntToStrParses(b);
  }

  /** Equal strings with equal tails have equal heads. */
  lemma SameTail(a: string, b: string, t: string)
    requires a + t == b + t
    ensures a == b
  {
    assert |a| == |b|;
    assert forall i :: 0 <= i < |a| ==> a[i] == (a + t)[i] && b[i] == (b + t)[i];
  }

  /** Two cards with the same cost type and a cost are in the same cost
      group exactly when their costs are equal. */
  lemma CostKeysSeparate(c: AbstractCard, d: AbstractCard)
    requires c.costType == d.costType
    requires c.cost.Some? && c.cost.value != 0 && d.cost.Some? && d.cost.value != 0
    ensures CostKeys(c) == CostKeys(d) <==> c.cost == d.cost
  {
    var t := " " + CostTypeText(c.costType);
    var x, y := c.cost.value, d.cost.value;
    if CostKeys(c) == CostKeys(d) {
      assert CostKeys(c)[0] == CostHead(x) + t;
      assert CostKeys(d)[0] == CostHead(y) + t;
      SameTail(CostHead(x), CostHead(y), t);
      CostHeadInjective(x, y);
    }
  }

  /** The cost part of a cost key. */
  function CostHead(x: int): string {
    if x == -1 then "X" else IntToStr(x)
  }

  /** Different costs have different cost parts. */
  lemma CostHeadInjective(x: int, y: int)
    requires CostHead(x) == CostHead(y)
    ensures x == y
  {
    if x != -1 && y != -1 {
      IntToStrInjective(x, y);
    }
  }

  /** `GroupGrouping`: `Any group` for group -1, `Group <n>` for any other
      non-zero group, and no key for a missing or zero group. */
  function GroupNumberKeys(c: AbstractCard): (ks: seq<string>)
    ensures |ks| == 0 <==> c.group.None? || c.group.value == 0
    ensures c.group == Some(-1) ==> ks == ["Any group"]
  {
    if c.group.None? || c.group.value == 0 then []
    else if c.group.value != -1 then ["Group " + IntToStr(c.group.value)]
    else ["Any group"]
  }

  /** Two cards with a group are in the same group's list exactly when
      their groups are equal. */
  lemma GroupKeysSeparate(c: AbstractCard, d: AbstractCard)
    requires c.group.Some? && c.group.value != 0 && d.group.Some? && d.group.value != 0
    ensures GroupNumberKeys(c) == GroupNumberKeys(d) <==> c.group == d.group
  {
    var x, y := c.group.value, d.group.value;
    assert x != -1 ==> GroupNumberKeys(c)[0][0] == 'G';
    assert y != -1 ==> GroupNumberKeys(d)[0][0] == 'G';
    assert "Any group"[0] == 'A';
    if GroupNumberKeys(c) == GroupNumberKeys(d) {
      if x != -1 && y != -1 {
        var kx, ky := "Group " + IntToStr(x), "Group " + IntToStr(y);
        assert GroupNumberKeys(c)[0] == kx && GroupNumberKeys(d)[0] == ky;
        assert IntToStr(x) == kx[6..] && IntToStr(y) == ky[6..];
        IntToStrInjective(x, y);
      }
    }
  }

  /** The adjacent pairs of groups a card of group g belongs to, with mx
      the largest group in the catalogue: group 1 is in (1, 2); a group
      below the maximum is in the pairs on both sides; any other group is
      in the pair below it; `Any group` (-1) is in every pair up to the
      maximum. */
  function GroupPairs(g: int, mx: int): (ps: seq<(int, int)>)
    requires g != 0
  {
    if g == -1 then seq(if mx > 1 then mx - 1 else 0, i => (i + 1, i + 2))
    else if g == 1 then [(1, 2)]
    else if g < mx then [(g - 1, g), (g, g + 1)]
    else [(g - 1, g)]
  }

  /** `'Groups %d, %d' % pair`. */
  function PairText(p: (int, int)): string {
    "Groups " + IntToStr(p.0) + ", " + IntToStr(p.1)
  }

  /** The texts of a list of pairs, in order. */
  function PairTexts(ps: seq<(int, int)>): (ts: seq<string>)
    ensures |ts| == |ps| && forall i :: 0 <= i < |ps| ==> ts[i] == PairText(ps[i])
  {
    if |ps| == 0 then [] else [PairText(ps[0])] + PairTexts(ps[1..])
  }

  /** `GroupPairGrouping`: the texts of the card's pairs of groups, and no
      key for a missing or zero group. */
  function GroupPairKeys(c: AbstractCard, mx: int): (ks: seq<string>)
    ensures |ks| == 0 <==> c.group.None? || c.group.value == 0 || (c.group.value == -1 && mx <= 1)
  {
    if c.group.None? || c.group.value == 0 then [] else PairTexts(GroupPairs(c.group.value, mx))
  }

  /** Every pair is two adjacent groups, and a card of a real group is
      only in pairs that include its group. */
  lemma GroupPairsAdjacent(g: int, mx: int)
    requires g != 0
    ensures forall p :: p in GroupPairs(g, mx) ==> p.1 == p.0 + 1
    ensures g != -1 ==> forall p :: p in GroupPairs(g, mx) ==> p.0 == g || p.1 == g
  {
  }

  /** A card of a group from 1 to the maximum is in every pair within
      range that includes its group. */
  lemma GroupPairsComplete(g: int, mx: int, a: int)
    requires 1 <= g <= mx && 1 <= a < mx && (a == g || a + 1 == g)
    ensures (a, a + 1) in GroupPairs(g, mx)
  {
    if g != 1 && g < mx {
      assert GroupPairs(g, mx)[if a == g then 1 else 0] == (a, a + 1);
    } else if g != 1 {
      assert GroupPairs(g, mx)[0] == (a, a + 1);
    }
  }

  /** `Any group` is in exactly the pairs from (1, 2) up to the maximum. */
  lemma AnyGroupPairs(mx: int, a: int, b: int)
    ensures (a, b) in GroupPairs(-1, mx) <==> 1 <= a < mx && b == a + 1
  {
    if 1 <= a < mx && b == a + 1 {
      assert GroupPairs(-1, mx)[a - 1] == (a, b);
    }
  }

  /** `SectGrouping` and `TitleGrouping`: the card's sects and titles. */
  function SectKeys(c: AbstractCard): seq<string> {
    c.sects
  }

  function TitleKeys(c: AbstractCard): seq<string> {
    c.titles
  }
}
