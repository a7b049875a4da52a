/** The mapping between physical cards and the physical card sets holding
    them, kept as an element tree for backups and database upgrades: under
    the root, one node per card name, under it one node per expansion,
    under that one node per physical card, and under that one node per
    card set the physical card belongs to. */
module PhysicalCardMapping {
  import opened Wrappers
  import opened PyStr

  /** The label of a physical card without an expansion. */
  const Unknown := "Unspecified Expansion"

  // ---------------------------------------------------------------------
  // Tag names
  // ---------------------------------------------------------------------

  /** `encode('ascii', 'xmlcharrefreplace')` of one character: ASCII stays,
      anything else becomes a decimal character reference. */
  function EncodeChar(c: char): string {
    if (c as int) < 128 then [c] else "&#" + NatToStr(c as int) + ";"
  }

  /** `encode('ascii', 'xmlcharrefreplace')`. */
  function EncodeAscii(s: string): string {
    if |s| == 0 then "" else EncodeChar(s[0]) + EncodeAscii(s[1..])
  }

  /** `_remap_names`: the name without spaces, encoded to ASCII, without
      punctuation, and with `a` in front when it starts with a digit; None
      where the source's `sResult[0]` raises IndexError on an empty
      result. */
  function Remapped(s: string): Option<string> {
    var t := Unpunct(EncodeAscii(Without(s, " ")));
    if |t| == 0 then None else if IsDigit(t[0]) then Some("a" + t) else Some(t)
  }

  /** The replace loop of `_remap_names`. */
  method RemapNames(s: string) returns (r: Option<string>)
    ensures r == Remapped(s)
  {
    var t := Replace(s, " ", "");
    ReplaceDeletes(s, ' ');
    t := EncodeAscii(t);
    ghost var e := t;
    t := ReplaceChars(t, Punctuation, "");
    ReplaceEachDeletes(e, Punctuation);
    UnpunctIsWithout(e);
    if |t| == 0 {
      return None;
    }
    if IsDigit(t[0]) {
      t := "a" + t;
    }
    return Some(t);
  }

  /** The characters of `string.punctuation`, by their ASCII ranges. */
  predicate IsPunct(c: char) {
    ('!' <= c <= '/') || (':' <= c <= '@') || ('[' <= c <= '`') || ('{' <= c <= '~')
  }

  lemma PunctMember(c: char)
    ensures c in Punctuation <==> IsPunct(c)
  {
    var p1, p2, p3, p4 := "!\"#$%&'()*+,-./", ":;<=>?@", "[\\]^_`", "{|}~";
    assert Punctuation == p1 + p2 + p3 + p4;
    assert c in p1 <==> '!' <= c <= '/';
    assert c in p2 <==> ':' <= c <= '@';
    assert c in p3 <==> '[' <= c <= '`';
    assert c in p4 <==> '{' <= c <= '~';
  }

  /** The string without punctuation. */
  function Unpunct(s: string): string {
    if |s| == 0 then "" else (if IsPunct(s[0]) then "" else [s[0]]) + Unpunct(s[1..])
  }

  lemma {:induction false} UnpunctIsWithout(s: string)
    ensures Without(s, Punctuation) == Unpunct(s)
  {
    if |s| > 0 {
      PunctMember(s[0]);
      UnpunctIsWithout(s[1..]);
    }
  }

  lemma {:induction false} UnpunctChars(s: string)
    ensures forall c :: c in Unpunct(s) <==> c in s && !IsPunct(c)
  {
    if |s| > 0 {
      UnpunctChars(s[1..]);
      assert s == [s[0]] + s[1..];
    }
  }

  lemma {:induction false} UnpunctConcat(a: string, b: string)
    ensures Unpunct(a + b) == Unpunct(a) + Unpunct(b)
  {
    if |a| > 0 {
      assert (a + b)[1..] == a[1..] + b;
      UnpunctConcat(a[1..], b);
    } else {
      assert a + b == b;
    }
  }

  /** Whether a character survives as part of a tag. */
  predicate TagChar(c: char) {
    (c as int) < 128 && c != ' ' && !IsPunct(c)
  }

  /** The characters of an encoded string: ASCII, and each either from
      the string or a digit or `&`, `#`, `;` of a character reference. */
  lemma {:induction false} EncodeAsciiChars(s: string)
    ensures forall c :: c in EncodeAscii(s) ==> (c as int) < 128 && (c in s || IsDigit(c) || c in "&#;")
  {
    if |s| > 0 {
      EncodeAsciiChars(s[1..]);
      var c := s[0];
      if (c as int) >= 128 {
        var ds := NatToStr(c as int);
        assert EncodeChar(c) == "&#" + ds + ";";
        assert forall d :: d in ds ==> IsDigit(d);
      }
      assert forall d :: d in s[1..] ==> d in s;
    }
  }

  /** Every character that is not punctuation leaves something behind
      once the string is encoded and stripped of punctuation. */
  lemma {:induction false} EncodeAsciiKeeps(s: string, i: nat)
    requires i < |s| && !IsPunct(s[i])
    ensures |Unpunct(EncodeAscii(s))| > 0
  {
    UnpunctConcat(EncodeChar(s[0]), EncodeAscii(s[1..]));
    if i == 0 {
      var c := s[0];
      UnpunctChars(EncodeChar(c));
      if (c as int) < 128 {
        assert c in EncodeChar(c);
      } else {
        var ds := NatToStr(c as int);
        assert EncodeChar(c) == "&#" + ds + ";";
        assert EncodeChar(c)[2] == ds[0];
        assert ds[0] in EncodeChar(c) && IsDigit(ds[0]);
      }
      assert exists x :: x in Unpunct(EncodeChar(c));
    } else {
      EncodeAsciiKeeps(s[1..], i - 1);
    }
  }

  /** The name stripped of spaces, encoded, and stripped of punctuation:
      what is left is ASCII with neither spaces nor punctuation, and it is
      empty exactly when the name is all spaces and punctuation. */
  lemma Stripped(s: string)
    ensures |Unpunct(EncodeAscii(Without(s, " ")))| == 0 <==>
      forall i :: 0 <= i < |s| ==> s[i] == ' ' || IsPunct(s[i])
    ensures forall c :: c in Unpunct(EncodeAscii(Without(s, " "))) ==> TagChar(c)
  {
    StrippedEmpty(s);
    StrippedChars(s);
  }

  /** What is left is empty exactly when the name is all spaces and
      punctuation. */
  lemma StrippedEmpty(s: string)
    ensures |Unpunct(EncodeAscii(Without(s, " ")))| == 0 <==>
      forall i :: 0 <= i < |s| ==> s[i] == ' ' || IsPunct(s[i])
  {
    WithoutChars(s, " ");
    if exists i :: 0 <= i < |s| && s[i] != ' ' && !IsPunct(s[i]) {
      var i :| 0 <= i < |s| && s[i] != ' ' && !IsPunct(s[i]);
      assert s[i] in Without(s, " ");
      var k :| 0 <= k < |Without(s, " ")| && Without(s, " ")[k] == s[i];
      EncodeAsciiKeeps(Without(s, " "), k);
    } else {
      assert forall c :: c in Without(s, " ") ==> IsPunct(c);
      EncodeAsciiPlain(Without(s, " "));
      UnpunctAllPunct(Without(s, " "));
    }
  }

  /** What is left is ASCII with neither spaces nor punctuation. */
  lemma StrippedChars(s: string)
    ensures forall c :: c in Unpunct(EncodeAscii(Without(s, " "))) ==> TagChar(c)
  {
    WithoutChars(s, " ");
    EncodeAsciiChars(Without(s, " "));
    UnpunctChars(EncodeAscii(Without(s, " ")));
  }

  /** Punctuation only leaves nothing. */
  lemma {:induction false} UnpunctAllPunct(s: string)
    requires forall c :: c in s ==> IsPunct(c)
    ensures Unpunct(s) == ""
  {
    if |s| > 0 {
      assert s[0] in s;
      assert forall c :: c in s[1..] ==> c in s;
      UnpunctAllPunct(s[1..]);
    }
  }

  /** ASCII text is left as it is by the encoding. */
  lemma {:induction false} EncodeAsciiPlain(s: string)
    requires forall c :: c in s ==> (c as int) < 128
    ensures EncodeAscii(s) == s
  {
    if |s| > 0 {
      assert s[0] in s;
      assert forall c :: c in s[1..] ==> c in s;
      EncodeAsciiPlain(s[1..]);
      assert s == [s[0]] + s[1..];
    }
  }

  /** A tag is never empty, holds only ASCII characters that are neither
      spaces nor punctuation, and does not start with a digit; there is no
      tag exactly when the name is all spaces and punctuation. */
  lemma RemappedTag(s: string)
    ensures Remapped(s).None? <==> forall i :: 0 <= i < |s| ==> s[i] == ' ' || IsPunct(s[i])
    ensures Remapped(s).Some? ==>
      var t := Remapped(s).value;
      |t| > 0 && !IsDigit(t[0]) && forall i :: 0 <= i < |t| ==> TagChar(t[i])
  {
    Stripped(s);
    var t := Unpunct(EncodeAscii(Without(s, " ")));
    if |t| > 0 {
      assert forall i :: 0 <= i < |t| ==> t[i] in t;
      var a := "a" + t;
      assert forall i :: 1 <= i < |a| ==> a[i] == t[i - 1];
    }
  }

  // ---------------------------------------------------------------------
  // The element tree
  // ---------------------------------------------------------------------

  /** A card set the physical card belongs to. */
  datatype SetNode = SetNode(tag: string, name: string)
  /** A physical card, tagged `a` and its id. */
  datatype IdNode = IdNode(tag: string, sets: seq<SetNode>)
  /** An expansion of a card, with the expansion's name. */
  datatype ExpNode = ExpNode(tag: string, name: string, ids: seq<IdNode>)
  /** A card, with its canonical name. */
  datatype CardNode = CardNode(tag: string, cardName: string, exps: seq<ExpNode>)

  /** `find(tag)` among card nodes: the first child with the tag. */
  function CardIndex(ns: seq<CardNode>, tag: string): (r: Option<nat>)
    ensures r.Some? ==> r.value < |ns| && ns[r.value].tag == tag
    ensures r.None? <==> forall i :: 0 <= i < |ns| ==> ns[i].tag != tag
  {
    if |ns| == 0 then None
    else if ns[0].tag == tag then Some(0)
    else match CardIndex(ns[1..], tag)
      case None => None
      case Some(i) => Some(i + 1)
  }

  /** `find(tag)` among expansion nodes. */
  function ExpIndex(ns: seq<ExpNode>, tag: string): (r: Option<nat>)
    ensures r.Some? ==> r.value < |ns| && ns[r.value].tag == tag
    ensures r.None? <==> forall i :: 0 <= i < |ns| ==> ns[i].tag != tag
  {
    if |ns| == 0 then None
    else if ns[0].tag == tag then Some(0)
    else match ExpIndex(ns[1..], tag)
      case None => None
      case Some(i) => Some(i + 1)
  }

  /** `find(tag)` is None among set nodes exactly when no node has the
      tag. */
  predicate HasSetTag(ns: seq<SetNode>, tag: string) {
    exists i :: 0 <= i < |ns| && ns[i].tag == tag
  }

  // ---------------------------------------------------------------------
  // The database
  // ---------------------------------------------------------------------

  /** A physical card: its id, its card's canonical name and its expansion. */
  datatype PhysCard = PhysCard(id: nat, card: string, expansion: Option<string>)

  /** One row of the mapping table: a physical card in a card set. */
  datatype Membership = Membership(card: nat, cardSet: string)

  /** The tables the mapping reads but does not change: the physical cards
      in table order, and the names of the card sets, cards and
      expansions. */
  datatype Catalog = Catalog(cards: seq<PhysCard>, setNames: set<string>,
                             cardNames: set<string>, expansionNames: set<string>)

  /** The database: the tables, and the mapping rows, which committing
      changes. */
  class CardDb {
    const catalog: Catalog
    var members: seq<Membership>

    constructor(catalog: Catalog, members: seq<Membership>)
      ensures this.catalog == catalog && this.members == members
    {
      this.catalog := catalog;
      this.members := members;
    }
  }

  /** The names of the card sets a physical card is in, in table order. */
  function SetsOf(ms: seq<Membership>, p: nat): seq<string> {
    if |ms| == 0 then []
    else SetsOf(ms[..|ms| - 1], p) + (if ms[|ms| - 1].card == p then [ms[|ms| - 1].cardSet] else [])
  }

  lemma {:induction false} SetsOfMembers(ms: seq<Membership>, p: nat)
    ensures forall s :: s in SetsOf(ms, p) <==> Membership(p, s) in ms
  {
    if |ms| > 0 {
      SetsOfMembers(ms[..|ms| - 1], p);
      assert ms == ms[..|ms| - 1] + [ms[|ms| - 1]];
    }
  }

  /** Every row except those equal to `m`. */
  function Drop(ms: seq<Membership>, m: Membership): (r: seq<Membership>)
    ensures forall x :: x in r <==> x in ms && x != m
  {
    if |ms| == 0 then []
    else Drop(ms[..|ms| - 1], m) + (if ms[|ms| - 1] == m then [] else [ms[|ms| - 1]])
  }

  // ---------------------------------------------------------------------
  // fill_from_db
  // ---------------------------------------------------------------------

  /** What can stop the mapping from being built or committed: a name with
      no tag, or a card, expansion or card set the database lacks. */
  datatype MappingError = BadName(name: string) | NoCard(name: string) | NoExpansion(name: string) | NoSet(name: string)

  /** The expansion label of a physical card. */
  function ExpLabel(e: Option<string>): string {
    if e.None? then Unknown else e.value
  }

  /** The set nodes of a physical card, one per card set in order. */
  function SetNodes(sets: seq<string>): Result<seq<SetNode>, MappingError> {
    if |sets| == 0 then Ok([])
    else match SetNodes(sets[..|sets| - 1])
      case Err(e) => Err(e)
      case Ok(ns) =>
        var s := sets[|sets| - 1];
        match Remapped(s)
        case None => Err(BadName(s))
        case Some(t) => Ok(ns + [SetNode(t, s)])
  }

  /** The set nodes are the card sets, each tagged by its name. */
  lemma {:induction false} SetNodesNamed(sets: seq<string>)
    requires SetNodes(sets).Ok?
    ensures |SetNodes(sets).value| == |sets|
    ensures forall i :: 0 <= i < |sets| ==>
      Remapped(sets[i]) == Some(SetNodes(sets).value[i].tag) && SetNodes(sets).value[i].name == sets[i]
  {
    if |sets| > 0 {
      SetNodesNamed(sets[..|sets| - 1]);
    }
  }

  /** Under one card node: the id node joins the expansion node with the
      tag, made when there is none. */
  function PlaceExp(exps: seq<ExpNode>, etag: string, ename: string, id: IdNode): seq<ExpNode> {
    match ExpIndex(exps, etag)
    case None => exps + [ExpNode(etag, ename, [id])]
    case Some(j) => exps[j := exps[j].(ids := exps[j].ids + [id])]
  }

  /** The id node joins the card node with the tag, made (with its card
      name) when there is none. */
  function Place(tree: seq<CardNode>, ctag: string, cname: string, etag: string, ename: string, id: IdNode)
    : seq<CardNode>
  {
    match CardIndex(tree, ctag)
    case None => tree + [CardNode(ctag, cname, [ExpNode(etag, ename, [id])])]
    case Some(i) => tree[i := tree[i].(exps := PlaceExp(tree[i].exps, etag, ename, id))]
  }

  /** One physical card of the loop of `fill_from_db`. */
  function InsertCard(tree: seq<CardNode>, c: PhysCard, sets: seq<string>): Result<seq<CardNode>, MappingError> {
    match Remapped(c.card)
    case None => Err(BadName(c.card))
    case Some(ctag) =>
      match Remapped(ExpLabel(c.expansion))
      case None => Err(BadName(ExpLabel(c.expansion)))
      case Some(etag) =>
        match SetNodes(sets)
        case Err(e) => Err(e)
        case Ok(ns) => Ok(Place(tree, ctag, c.card, etag, ExpLabel(c.expansion), IdNode("a" + NatToStr(c.id), ns)))
  }

  /** The tree `fill_from_db` builds from the physical cards, in table
      order, or the first name that has no tag. */
  function Fill(cards: seq<PhysCard>, ms: seq<Membership>): Result<seq<CardNode>, MappingError> {
    if |cards| == 0 then Ok([])
    else match Fill(cards[..|cards| - 1], ms)
      case Err(e) => Err(e)
      case Ok(t) => InsertCard(t, cards[|cards| - 1], SetsOf(ms, cards[|cards| - 1].id))
  }

  /** The id node sits under an expansion node with the tag. */
  predicate ListedExp(exps: seq<ExpNode>, etag: string, id: IdNode) {
    exists j :: 0 <= j < |exps| && exps[j].tag == etag && id in exps[j].ids
  }

  /** The id node sits under a card node and an expansion node with the
      tags. */
  predicate Listed(tree: seq<CardNode>, ctag: string, etag: string, id: IdNode) {
    exists i :: 0 <= i < |tree| && tree[i].tag == ctag && ListedExp(tree[i].exps, etag, id)
  }

  /** The node of a physical card: its tag and its card sets. */
  predicate NodeOf(id: IdNode, c: PhysCard, ms: seq<Membership>) {
    && id.tag == "a" + NatToStr(c.id)
    && |id.sets| == |SetsOf(ms, c.id)|
    && forall k :: 0 <= k < |id.sets| ==>
         Remapped(SetsOf(ms, c.id)[k]) == Some(id.sets[k].tag) && id.sets[k].name == SetsOf(ms, c.id)[k]
  }

  /** Tags are unique among the children of the root and of each card
      node. */
  predicate WellFormed(tree: seq<CardNode>) {
    && (forall i, k :: 0 <= i < k < |tree| ==> tree[i].tag != tree[k].tag)
    && forall i :: 0 <= i < |tree| ==> CardWellFormed(tree[i])
  }

  predicate CardWellFormed(n: CardNode) {
    forall j, k :: 0 <= j < k < |n.exps| ==> n.exps[j].tag != n.exps[k].tag
  }

  /** The number of id nodes. */
  function IdCount(tree: seq<CardNode>): nat {
    if |tree| == 0 then 0 else IdCount(tree[..|tree| - 1]) + ExpIdCount(tree[|tree| - 1].exps)
  }

  function ExpIdCount(exps: seq<ExpNode>): nat {
    if |exps| == 0 then 0 else ExpIdCount(exps[..|exps| - 1]) + |exps[|exps| - 1].ids|
  }

  lemma {:induction false} ExpIdCountUpdate(exps: seq<ExpNode>, j: nat, e: ExpNode)
    requires j < |exps|
    ensures ExpIdCount(exps[j := e]) == ExpIdCount(exps) - |exps[j].ids| + |e.ids|
  {
    var u := exps[j := e];
    if j < |exps| - 1 {
      assert u[..|u| - 1] == exps[..|exps| - 1][j := e];
      ExpIdCountUpdate(exps[..|exps| - 1], j, e);
    } else {
      assert u[..|u| - 1] == exps[..|exps| - 1];
    }
  }

  lemma {:induction false} IdCountUpdate(tree: seq<CardNode>, i: nat, n: CardNode)
    requires i < |tree|
    ensures IdCount(tree[i := n]) == IdCount(tree) - ExpIdCount(tree[i].exps) + ExpIdCount(n.exps)
  {
    var u := tree[i := n];
    if i < |tree| - 1 {
      assert u[..|u| - 1] == tree[..|tree| - 1][i := n];
      IdCountUpdate(tree[..|tree| - 1], i, n);
    } else {
      assert u[..|u| - 1] == tree[..|tree| - 1];
    }
  }

  /** Placing adds exactly one id node. */
  lemma PlaceCount(tree: seq<CardNode>, ctag: string, cname: string, etag: string, ename: string, id: IdNode)
    ensures IdCount(Place(tree, ctag, cname, etag, ename, id)) == IdCount(tree) + 1
  {
    var t := tree + [CardNode(ctag, cname, [ExpNode(etag, ename, [id])])];
    assert t[..|t| - 1] == tree;
    var e1 := [ExpNode(etag, ename, [id])];
    assert e1[..0] == [];
    assert ExpIdCount(e1) == 1;
    match CardIndex(tree, ctag)
    case None =>
    case Some(i) =>
      var exps := tree[i].exps;
      match ExpIndex(exps, etag)
      case None =>
        var u := exps + [ExpNode(etag, ename, [id])];
        assert u[..|u| - 1] == exps;
        IdCountUpdate(tree, i, tree[i].(exps := u));
      case Some(j) =>
        ExpIdCountUpdate(exps, j, exps[j].(ids := exps[j].ids + [id]));
        IdCountUpdate(tree, i, tree[i].(exps := PlaceExp(exps, etag, ename, id)));
  }

  /** Placing keeps every id node where it was and puts the new one under
      the card and expansion tags. */
  lemma PlaceListed(tree: seq<CardNode>, ctag: string, cname: string, etag: string, ename: string, id: IdNode)
    ensures Listed(Place(tree, ctag, cname, etag, ename, id), ctag, etag, id)
    ensures forall c, e, x :: Listed(tree, c, e, x) ==> Listed(Place(tree, ctag, cname, etag, ename, id), c, e, x)
  {
    var t := Place(tree, ctag, cname, etag, ename, id);
    match CardIndex(tree, ctag)
    case None =>
      assert t[|tree|].exps[0].ids == [id];
      assert ListedExp(t[|tree|].exps, etag, id);
      forall c, e, x | Listed(tree, c, e, x) ensures Listed(t, c, e, x) {
        var i :| 0 <= i < |tree| && tree[i].tag == c && ListedExp(tree[i].exps, e, x);
        assert t[i] == tree[i];
      }
    case Some(i) =>
      var exps := tree[i].exps;
      var ex := PlaceExp(exps, etag, ename, id);
      PlaceExpListed(exps, etag, ename, id);
      assert t[i].exps == ex;
      forall c, e, x | Listed(tree, c, e, x) ensures Listed(t, c, e, x) {
        var k :| 0 <= k < |tree| && tree[k].tag == c && ListedExp(tree[k].exps, e, x);
        if k != i {
          assert t[k] == tree[k];
        }
      }
  }

  lemma PlaceExpListed(exps: seq<ExpNode>, etag: string, ename: string, id: IdNode)
    ensures ListedExp(PlaceExp(exps, etag, ename, id), etag, id)
    ensures forall e, x :: ListedExp(exps, e, x) ==> ListedExp(PlaceExp(exps, etag, ename, id), e, x)
  {
    var u := PlaceExp(exps, etag, ename, id);
    match ExpIndex(exps, etag)
    case None =>
      assert u[|exps|].ids == [id];
      forall e, x | ListedExp(exps, e, x) ensures ListedExp(u, e, x) {
        var j :| 0 <= j < |exps| && exps[j].tag == e && x in exps[j].ids;
        assert u[j] == exps[j];
      }
    case Some(j) =>
      assert id in u[j].ids;
      forall e, x | ListedExp(exps, e, x) ensures ListedExp(u, e, x) {
        var k :| 0 <= k < |exps| && exps[k].tag == e && x in exps[k].ids;
        if k != j {
          assert u[k] == exps[k];
        } else {
          assert x in u[k].ids;
        }
      }
  }

  /** Placing keeps the tree well formed. */
  lemma PlaceWellFormed(tree: seq<CardNode>, ctag: string, cname: string, etag: string, ename: string, id: IdNode)
    requires WellFormed(tree)
    ensures WellFormed(Place(tree, ctag, cname, etag, ename, id))
  {
    match CardIndex(tree, ctag)
    case None =>
      AppendWellFormed(tree, CardNode(ctag, cname, [ExpNode(etag, ename, [id])]));
    case Some(i) =>
      var exps := tree[i].exps;
      match ExpIndex(exps, etag)
      case None =>
        ExpAppendWellFormed(exps, ExpNode(etag, ename, [id]));
      case Some(j) =>
        ExpUpdateWellFormed(exps, j, exps[j].(ids := exps[j].ids + [id]));
      UpdateWellFormed(tree, i, tree[i].(exps := PlaceExp(exps, etag, ename, id)));
  }

  lemma AppendWellFormed(tree: seq<CardNode>, n: CardNode)
    requires WellFormed(tree) && CardWellFormed(n)
    requires forall k :: 0 <= k < |tree| ==> tree[k].tag != n.tag
    ensures WellFormed(tree + [n])
  {
  }

  lemma UpdateWellFormed(tree: seq<CardNode>, i: nat, n: CardNode)
    requires WellFormed(tree) && CardWellFormed(n) && i < |tree| && n.tag == tree[i].tag
    ensures WellFormed(tree[i := n])
  {
  }

  lemma ExpAppendWellFormed(exps: seq<ExpNode>, e: ExpNode)
    requires forall j, k :: 0 <= j < k < |exps| ==> exps[j].tag != exps[k].tag
    requires forall k :: 0 <= k < |exps| ==> exps[k].tag != e.tag
    ensures CardWellFormed(CardNode("", "", exps + [e]))
  {
  }

  lemma ExpUpdateWellFormed(exps: seq<ExpNode>, j: nat, e: ExpNode)
    requires forall j, k :: 0 <= j < k < |exps| ==> exps[j].tag != exps[k].tag
    requires j < |exps| && e.tag == exps[j].tag
    ensures CardWellFormed(CardNode("", "", exps[j := e]))
  {
  }

  /** One physical card inserted: the tree stays well formed, gains one
      id node, keeps every id node it had, and lists the card's node under
      its tags. */
  lemma InsertStep(t: seq<CardNode>, c: PhysCard, ms: seq<Membership>)
    requires WellFormed(t) && InsertCard(t, c, SetsOf(ms, c.id)).Ok?
    ensures Remapped(c.card).Some? && Remapped(ExpLabel(c.expansion)).Some?
    ensures WellFormed(InsertCard(t, c, SetsOf(ms, c.id)).value)
    ensures IdCount(InsertCard(t, c, SetsOf(ms, c.id)).value) == IdCount(t) + 1
    ensures exists id :: (NodeOf(id, c, ms)
      && Listed(InsertCard(t, c, SetsOf(ms, c.id)).value, Remapped(c.card).value, Remapped(ExpLabel(c.expansion)).value, id))
    ensures forall a, e, x :: Listed(t, a, e, x) ==> Listed(InsertCard(t, c, SetsOf(ms, c.id)).value, a, e, x)
  {
    SetNodesNamed(SetsOf(ms, c.id));
    var id := IdNode("a" + NatToStr(c.id), SetNodes(SetsOf(ms, c.id)).value);
    assert NodeOf(id, c, ms);
    PlaceCount(t, Remapped(c.card).value, c.card, Remapped(ExpLabel(c.expansion)).value, ExpLabel(c.expansion), id);
    PlaceListed(t, Remapped(c.card).value, c.card, Remapped(ExpLabel(c.expansion)).value, ExpLabel(c.expansion), id);
    PlaceWellFormed(t, Remapped(c.card).value, c.card, Remapped(ExpLabel(c.expansion)).value, ExpLabel(c.expansion), id);
  }

  /** Whether a physical card's node is listed under its tags. */
  ghost predicate Placed(tree: seq<CardNode>, c: PhysCard, ms: seq<Membership>) {
    && Remapped(c.card).Some? && Remapped(ExpLabel(c.expansion)).Some?
    && exists id :: NodeOf(id, c, ms) && Listed(tree, Remapped(c.card).value, Remapped(ExpLabel(c.expansion)).value, id)
  }

  /** After filling, the tree is well formed, holds one id node per
      physical card, and each physical card's id node, with one set node
      per card set it is in, sits under the node of its card name and the
      node of its expansion, `Unspecified Expansion` for none. */
  lemma {:induction false} FillPlaces(cards: seq<PhysCard>, ms: seq<Membership>)
    requires Fill(cards, ms).Ok?
    ensures WellFormed(Fill(cards, ms).value)
    ensures IdCount(Fill(cards, ms).value) == |cards|
    ensures forall k :: 0 <= k < |cards| ==> Placed(Fill(cards, ms).value, cards[k], ms)
  {
    if |cards| > 0 {
      var init := cards[..|cards| - 1];
      FillPlaces(init, ms);
      InsertStep(Fill(init, ms).value, cards[|cards| - 1], ms);
      forall k | 0 <= k < |cards| - 1
        ensures Placed(Fill(cards, ms).value, cards[k], ms)
      {
        assert cards[k] == init[k];
        assert Placed(Fill(init, ms).value, init[k], ms);
      }
    }
  }

  // ---------------------------------------------------------------------
  // XML text
  // ---------------------------------------------------------------------

  /** An attribute value with `&`, `<`, `>` and `"` escaped. */
  function EscapeAttr(s: string): string {
    if |s| == 0 then ""
    else
      (match s[0]
       case '&' => "&amp;"
       case '<' => "&lt;"
       case '>' => "&gt;"
       case '"' => "&quot;"
       case _ => [s[0]]) + EscapeAttr(s[1..])
  }

  /** An element with one attribute (or none when `attr` is empty) and the
      given children's text. */
  function Element(tag: string, attr: string, value: string, inner: string): string {
    var open := "<" + tag + (if attr == "" then "" else " " + attr + "=\"" + EscapeAttr(value) + "\"");
    if inner == "" then open + " />" else open + ">" + inner + "</" + tag + ">"
  }

  function SetsXml(ns: seq<SetNode>): string {
    if |ns| == 0 then "" else SetsXml(ns[..|ns| - 1]) + Element(ns[|ns| - 1].tag, "name", ns[|ns| - 1].name, "")
  }

  function IdsXml(ns: seq<IdNode>): string {
    if |ns| == 0 then "" else IdsXml(ns[..|ns| - 1]) + Element(ns[|ns| - 1].tag, "", "", SetsXml(ns[|ns| - 1].sets))
  }

  function ExpsXml(ns: seq<ExpNode>): string {
    if |ns| == 0 then "" else ExpsXml(ns[..|ns| - 1]) + Element(ns[|ns| - 1].tag, "name", ns[|ns| - 1].name, IdsXml(ns[|ns| - 1].ids))
  }

  function CardsXml(ns: seq<CardNode>): string {
    if |ns| == 0 then "" else CardsXml(ns[..|ns| - 1]) + Element(ns[|ns| - 1].tag, "cardname", ns[|ns| - 1].cardName, ExpsXml(ns[|ns| - 1].exps))
  }

  // ---------------------------------------------------------------------
  // commit_to_db
  // ---------------------------------------------------------------------

  /** The rows so far, and why committing stopped if it did. */
  datatype Run = Run(members: seq<Membership>, stop: Option<Result<bool, MappingError>>)

  /** The first loop of `_fix_mapping`: each card set listed under the id
      node but not among the card's sets (read once, beforehand) gets the
      card; a card set the database lacks raises. */
  function AddMissing(sets: seq<SetNode>, names: seq<string>, p: nat, cat: Catalog, ms: seq<Membership>): Run {
    if |sets| == 0 then Run(ms, None)
    else
      var prev := AddMissing(sets[..|sets| - 1], names, p, cat, ms);
      var n := sets[|sets| - 1];
      if prev.stop.Some? || n.name in names then prev
      else if n.name !in cat.setNames then Run(prev.members, Some(Err(NoSet(n.name))))
      else Run(prev.members + [Membership(p, n.name)], None)
  }

  /** The second loop of `_fix_mapping`: each of the card's sets with no
      node of its tag under the id node loses the card. */
  function RemoveExtras(names: seq<string>, sets: seq<SetNode>, p: nat, ms: seq<Membership>): Run {
    if |names| == 0 then Run(ms, None)
    else
      var prev := RemoveExtras(names[..|names| - 1], sets, p, ms);
      var s := names[|names| - 1];
      if prev.stop.Some? then prev
      else match Remapped(s)
        case None => Run(prev.members, Some(Err(BadName(s))))
        case Some(t) => if HasSetTag(sets, t) then prev else Run(Drop(prev.members, Membership(p, s)), None)
  }

  /** `_fix_mapping` for one physical card and its id node. */
  function FixCard(id: IdNode, p: nat, cat: Catalog, ms: seq<Membership>): Run {
    var a := AddMissing(id.sets, SetsOf(ms, p), p, cat, ms);
    if a.stop.Some? then a else RemoveExtras(SetsOf(ms, p), id.sets, p, a.members)
  }

  /** `_fix_mapping`: the id nodes paired in order with the physical
      cards. */
  function FixAll(ids: seq<IdNode>, pcs: seq<PhysCard>, cat: Catalog, ms: seq<Membership>): Run
    requires |ids| == |pcs|
  {
    if |ids| == 0 then Run(ms, None)
    else
      var prev := FixAll(ids[..|ids| - 1], pcs[..|pcs| - 1], cat, ms);
      if prev.stop.Some? then prev else FixCard(ids[|ids| - 1], pcs[|pcs| - 1].id, cat, prev.members)
  }

  /** The physical cards of a card name and an expansion, in table order. */
  function CardsOf(cards: seq<PhysCard>, name: string, exp: Option<string>): seq<PhysCard> {
    if |cards| == 0 then []
    else
      var c := cards[|cards| - 1];
      CardsOf(cards[..|cards| - 1], name, exp) + (if c.card == name && c.expansion == exp then [c] else [])
  }

  /** The card name a card node stands for, through the lookup of renamed
      cards. */
  function LookedUp(card: CardNode, lookup: map<string, string>): string {
    if card.cardName in lookup then lookup[card.cardName] else card.cardName
  }

  /** `_get_phys_cards`: the card name through the lookup of renamed cards,
      the expansion by name (none for `Unspecified Expansion`), and the
      physical cards of both. The expansion is resolved first, so an
      unknown expansion raises even when the card is unknown too; an
      unknown card raises when the cards are selected. */
  function PhysCards(card: CardNode, exp: ExpNode, lookup: map<string, string>, cat: Catalog)
    : (r: Result<seq<PhysCard>, MappingError>)
    ensures exp.name != Unknown && exp.name !in cat.expansionNames ==> r == Err(NoExpansion(exp.name))
    ensures (exp.name == Unknown || exp.name in cat.expansionNames) ==>
      (r.Err? <==> LookedUp(card, lookup) !in cat.cardNames)
    ensures r.Err? && r.error.NoCard? ==> r.error == NoCard(LookedUp(card, lookup))
    ensures r.Ok? ==> r.value == CardsOf(cat.cards, LookedUp(card, lookup), if exp.name == Unknown then None else Some(exp.name))
  {
    var name := LookedUp(card, lookup);
    if exp.name != Unknown && exp.name !in cat.expansionNames then Err(NoExpansion(exp.name))
    else if name !in cat.cardNames then Err(NoCard(name))
    else if exp.name == Unknown then Ok(CardsOf(cat.cards, name, None))
    else Ok(CardsOf(cat.cards, name, Some(exp.name)))
  }

  /** One expansion node of `commit_to_db`: a single id node is left as
      it is; otherwise a count that differs from the database's stops with
      False, and an equal count is fixed. */
  function CommitExp(card: CardNode, exp: ExpNode, lookup: map<string, string>, cat: Catalog, ms: seq<Membership>): Run {
    if |exp.ids| == 1 then Run(ms, None)
    else match PhysCards(card, exp, lookup, cat)
      case Err(e) => Run(ms, Some(Err(e)))
      case Ok(pcs) =>
        if |pcs| != |exp.ids| then Run(ms, Some(Ok(false)))
        else FixAll(exp.ids, pcs, cat, ms)
  }

  function CommitExps(card: CardNode, exps: seq<ExpNode>, lookup: map<string, string>, cat: Catalog, ms: seq<Membership>): Run {
    if |exps| == 0 then Run(ms, None)
    else
      var prev := CommitExps(card, exps[..|exps| - 1], lookup, cat, ms);
      if prev.stop.Some? then prev else CommitExp(card, exps[|exps| - 1], lookup, cat, prev.members)
  }

  function CommitCards(tree: seq<CardNode>, lookup: map<string, string>, cat: Catalog, ms: seq<Membership>): Run {
    if |tree| == 0 then Run(ms, None)
    else
      var prev := CommitCards(tree[..|tree| - 1], lookup, cat, ms);
      if prev.stop.Some? then prev else CommitExps(tree[|tree| - 1], tree[|tree| - 1].exps, lookup, cat, prev.members)
  }

  /** `commit_to_db`: True when every expansion node went through. */
  function Commit(tree: seq<CardNode>, lookup: map<string, string>, cat: Catalog, ms: seq<Membership>)
    : (seq<Membership>, Result<bool, MappingError>)
  {
    var r := CommitCards(tree, lookup, cat, ms);
    (r.members, if r.stop.Some? then r.stop.value else Ok(true))
  }

  /** Whether a set node names the card set. */
  predicate NodeNamed(sets: seq<SetNode>, s: string) {
    exists j :: 0 <= j < |sets| && sets[j].name == s
  }

  /** Whether a card set of the card has no node of its tag. */
  predicate Extra(s: string, sets: seq<SetNode>) {
    match Remapped(s)
    case None => false
    case Some(t) => !HasSetTag(sets, t)
  }

  /** The first loop adds the card to exactly the named card sets it was
      not in, and a stop is always an exception. */
  lemma {:induction false} AddMissingEffect(sets: seq<SetNode>, names: seq<string>, p: nat, cat: Catalog, ms: seq<Membership>)
    ensures AddMissing(sets, names, p, cat, ms).stop.None? ==>
      forall m :: m in AddMissing(sets, names, p, cat, ms).members <==>
        m in ms || (m.card == p && NodeNamed(sets, m.cardSet) && m.cardSet !in names)
    ensures AddMissing(sets, names, p, cat, ms).stop.Some? ==> AddMissing(sets, names, p, cat, ms).stop.value.Err?
  {
    if |sets| > 0 {
      var init := sets[..|sets| - 1];
      AddMissingEffect(init, names, p, cat, ms);
      assert forall s :: NodeNamed(sets, s) <==> NodeNamed(init, s) || sets[|sets| - 1].name == s by {
        assert forall j :: 0 <= j < |init| ==> init[j] == sets[j];
      }
    }
  }

  /** The second loop removes the card from exactly its extra card sets,
      and a stop is always an exception. */
  lemma {:induction false} RemoveExtrasEffect(names: seq<string>, sets: seq<SetNode>, p: nat, ms: seq<Membership>)
    ensures RemoveExtras(names, sets, p, ms).stop.None? ==>
      forall m :: m in RemoveExtras(names, sets, p, ms).members <==>
        m in ms && !(m.card == p && m.cardSet in names && Extra(m.cardSet, sets))
    ensures RemoveExtras(names, sets, p, ms).stop.None? ==>
      forall k :: 0 <= k < |names| ==> Remapped(names[k]).Some?
    ensures RemoveExtras(names, sets, p, ms).stop.Some? ==> RemoveExtras(names, sets, p, ms).stop.value.Err?
  {
    if |names| > 0 {
      var init := names[..|names| - 1];
      RemoveExtrasEffect(init, sets, p, ms);
      assert names == init + [names[|names| - 1]];
      assert forall k :: 0 <= k < |init| ==> init[k] == names[k];
    }
  }

  /** `_fix_mapping` for one physical card, when it raises nothing: the
      card joins every card set named under its id node that it was not
      in, leaves every card set of its own with no node of that set's tag,
      and no other card's rows change. */
  lemma FixCardEffect(id: IdNode, p: nat, cat: Catalog, ms: seq<Membership>)
    requires FixCard(id, p, cat, ms).stop.None?
    ensures forall s :: Membership(p, s) in ms ==> Remapped(s).Some?
    ensures forall m :: m in FixCard(id, p, cat, ms).members <==>
      if m.card != p then m in ms
      else if m in ms then !Extra(m.cardSet, id.sets)
      else NodeNamed(id.sets, m.cardSet)
  {
    var names := SetsOf(ms, p);
    SetsOfMembers(ms, p);
    AddMissingEffect(id.sets, names, p, cat, ms);
    var a := AddMissing(id.sets, names, p, cat, ms);
    RemoveExtrasEffect(names, id.sets, p, a.members);
    forall s | Membership(p, s) in ms ensures Remapped(s).Some? {
      var k :| 0 <= k < |names| && names[k] == s;
    }
  }

  /** When the set nodes carry their names' tags and no other card set of
      the card shares a tag with a node, the card ends up in exactly the
      card sets named under its id node. */
  lemma FixCardExact(id: IdNode, p: nat, cat: Catalog, ms: seq<Membership>)
    requires FixCard(id, p, cat, ms).stop.None?
    requires forall j :: 0 <= j < |id.sets| ==> Remapped(id.sets[j].name) == Some(id.sets[j].tag)
    requires forall s, j :: Membership(p, s) in ms && 0 <= j < |id.sets| && Remapped(s) == Some(id.sets[j].tag) ==>
      s == id.sets[j].name
    ensures forall s :: Membership(p, s) in FixCard(id, p, cat, ms).members <==> NodeNamed(id.sets, s)
  {
    FixCardEffect(id, p, cat, ms);
    ExactFromEffect(FixCard(id, p, cat, ms).members, ms, p, id.sets);
  }

  lemma ExactFromEffect(after: seq<Membership>, ms: seq<Membership>, p: nat, sets: seq<SetNode>)
    requires forall s :: Membership(p, s) in ms ==> Remapped(s).Some?
    requires forall m :: m in after <==>
      if m.card != p then m in ms
      else if m in ms then !Extra(m.cardSet, sets)
      else NodeNamed(sets, m.cardSet)
    requires forall j :: 0 <= j < |sets| ==> Remapped(sets[j].name) == Some(sets[j].tag)
    requires forall s, j :: Membership(p, s) in ms && 0 <= j < |sets| && Remapped(s) == Some(sets[j].tag) ==>
      s == sets[j].name
    ensures forall s :: Membership(p, s) in after <==> NodeNamed(sets, s)
  {
    forall s ensures Membership(p, s) in after <==> NodeNamed(sets, s) {
      var m := Membership(p, s);
      if NodeNamed(sets, s) {
        var j :| 0 <= j < |sets| && sets[j].name == s;
        assert HasSetTag(sets, sets[j].tag);
      }
      if m in ms && !Extra(s, sets) {
        var t := Remapped(s).value;
        var j :| 0 <= j < |sets| && sets[j].tag == t;
      }
    }
  }

  /** `_fix_mapping` never stops with False: only an exception can stop it. */
  lemma {:induction false} FixAllRaises(ids: seq<IdNode>, pcs: seq<PhysCard>, cat: Catalog, ms: seq<Membership>)
    requires |ids| == |pcs|
    ensures FixAll(ids, pcs, cat, ms).stop.Some? ==> FixAll(ids, pcs, cat, ms).stop.value.Err?
  {
    if |ids| > 0 {
      var prev := FixAll(ids[..|ids| - 1], pcs[..|pcs| - 1], cat, ms);
      FixAllRaises(ids[..|ids| - 1], pcs[..|pcs| - 1], cat, ms);
      var id := ids[|ids| - 1];
      var q := pcs[|pcs| - 1].id;
      AddMissingEffect(id.sets, SetsOf(prev.members, q), q, cat, prev.members);
      var a := AddMissing(id.sets, SetsOf(prev.members, q), q, cat, prev.members);
      RemoveExtrasEffect(SetsOf(prev.members, q), id.sets, q, a.members);
    }
  }

  /** An expansion node passes when it has a single id node or the
      database holds as many of its physical cards as it has id nodes. */
  predicate Matches(card: CardNode, exp: ExpNode, lookup: map<string, string>, cat: Catalog) {
    |exp.ids| == 1 || (PhysCards(card, exp, lookup, cat).Ok? && |PhysCards(card, exp, lookup, cat).value| == |exp.ids|)
  }

  /** Committing one card node's expansion nodes goes through only if every
      one passes, and stops with False only at one whose count differs. */
  lemma {:induction false} CommitExpsChecks(card: CardNode, exps: seq<ExpNode>, lookup: map<string, string>, cat: Catalog, ms: seq<Membership>)
    ensures CommitExps(card, exps, lookup, cat, ms).stop.None? ==>
      forall j :: 0 <= j < |exps| ==> Matches(card, exps[j], lookup, cat)
    ensures CommitExps(card, exps, lookup, cat, ms).stop == Some(Ok(false)) ==>
      exists j :: 0 <= j < |exps| && !Matches(card, exps[j], lookup, cat) && PhysCards(card, exps[j], lookup, cat).Ok?
    ensures CommitExps(card, exps, lookup, cat, ms).stop != Some(Ok(true))
  {
    if |exps| > 0 {
      var init := exps[..|exps| - 1];
      var e := exps[|exps| - 1];
      CommitExpsChecks(card, init, lookup, cat, ms);
      var prev := CommitExps(card, init, lookup, cat, ms);
      if |e.ids| != 1 && PhysCards(card, e, lookup, cat).Ok? && |PhysCards(card, e, lookup, cat).value| == |e.ids| {
        FixAllRaises(e.ids, PhysCards(card, e, lookup, cat).value, cat, prev.members);
      }
      assert forall j :: 0 <= j < |init| ==> init[j] == exps[j];
    }
  }

  /** `commit_to_db` returns True only when every expansion node passed,
      and False only at an expansion node whose count differs from the
      database's. */
  lemma {:induction false} CommitChecks(tree: seq<CardNode>, lookup: map<string, string>, cat: Catalog, ms: seq<Membership>)
    ensures Commit(tree, lookup, cat, ms).1 == Ok(true) ==>
      forall i, j :: 0 <= i < |tree| && 0 <= j < |tree[i].exps| ==> Matches(tree[i], tree[i].exps[j], lookup, cat)
    ensures Commit(tree, lookup, cat, ms).1 == Ok(false) ==>
      exists i, j :: 0 <= i < |tree| && 0 <= j < |tree[i].exps| && !Matches(tree[i], tree[i].exps[j], lookup, cat)
        && PhysCards(tree[i], tree[i].exps[j], lookup, cat).Ok?
    ensures CommitCards(tree, lookup, cat, ms).stop != Some(Ok(true))
  {
    if |tree| > 0 {
      var init := tree[..|tree| - 1];
      var n := tree[|tree| - 1];
      CommitChecks(init, lookup, cat, ms);
      var prev := CommitCards(init, lookup, cat, ms);
      CommitExpsChecks(n, n.exps, lookup, cat, prev.members);
      assert forall i :: 0 <= i < |init| ==> init[i] == tree[i];
      if Commit(tree, lookup, cat, ms).1 == Ok(false) {
        if prev.stop.None? {
          var j :| 0 <= j < |n.exps| && !Matches(n, n.exps[j], lookup, cat) && PhysCards(n, n.exps[j], lookup, cat).Ok?;
          assert tree[|tree| - 1] == n;
        } else {
          var i, j :| 0 <= i < |init| && 0 <= j < |init[i].exps| && !Matches(init[i], init[i].exps[j], lookup, cat)
            && PhysCards(init[i], init[i].exps[j], lookup, cat).Ok?;
          assert tree[i] == init[i];
        }
      }
    }
  }

  // ---------------------------------------------------------------------
  // The holder
  // ---------------------------------------------------------------------

  /** `PhysicalCardMappingHolder`: the tree, or None before it is filled. */
  class MappingHolder {
    var mapping: Option<seq<CardNode>>

    constructor()
      ensures mapping.None?
    {
      mapping := None;
    }

    /** `get_string`: the tree's XML text, or `''` when there is no tree
        or, Element truthiness being its number of children, when the root
        is empty. */
    function GetString(): (r: string)
      reads this
      ensures r == "" <==> mapping.None? || |mapping.value| == 0
    {
      if mapping.None? || |mapping.value| == 0 then ""
      else Element("cardmapping", "", "", CardsXml(mapping.value))
    }

    /** `fill_from_db`: the tree of all physical cards. */
    method FillFromDb(db: CardDb) returns (err: Option<MappingError>)
      modifies this
      ensures Fill(db.catalog.cards, db.members).Ok? ==> err.None? && mapping == Some(Fill(db.catalog.cards, db.members).value)
      ensures Fill(db.catalog.cards, db.members).Err? ==> err == Some(Fill(db.catalog.cards, db.members).error)
    {
      var cards := db.catalog.cards;
      var tree: seq<CardNode> := [];
      mapping := Some(tree);
      var i := 0;
      while i < |cards|
        invariant 0 <= i <= |cards|
        invariant Fill(cards[..i], db.members) == Ok(tree) && mapping == Some(tree)
      {
        assert cards[..i + 1][..i] == cards[..i];
        var r := InsertOne(tree, cards[i], db.members);
        if r.Err? {
          FillStops(cards, db.members, i);
          return Some(r.error);
        }
        tree := r.value;
        mapping := Some(tree);
        i := i + 1;
      }
      assert cards[..i] == cards;
      return None;
    }

    /** `commit_to_db`: False without a tree; otherwise the mapping rows
        are fixed card node by card node and expansion node by expansion
        node, stopping with False at the first count that differs from the
        database's. */
    method CommitToDb(db: CardDb, lookup: map<string, string>) returns (r: Result<bool, MappingError>)
      modifies db
      ensures mapping.None? ==> r == Ok(false) && db.members == old(db.members)
      ensures mapping.Some? ==> (db.members, r) == Commit(mapping.value, lookup, db.catalog, old(db.members))
    {
      if mapping.None? {
        return Ok(false);
      }
      var tree := mapping.value;
      var i := 0;
      while i < |tree|
        invariant 0 <= i <= |tree|
        invariant CommitCards(tree[..i], lookup, db.catalog, old(db.members)) == Run(db.members, None)
      {
        assert tree[..i + 1][..i] == tree[..i];
        var stop := CommitCard(db, tree[i], lookup);
        if stop.Some? {
          CommitCardsStopped(tree, lookup, db.catalog, old(db.members), i);
          return stop.value;
        }
        i := i + 1;
      }
      assert tree[..i] == tree;
      return Ok(true);
    }
  }

  /** One physical card of `fill_from_db`: the tags of its card name and
      expansion, its id node with one set node per card set it is in, and
      the node placed in the tree. */
  method InsertOne(tree: seq<CardNode>, c: PhysCard, ms: seq<Membership>) returns (r: Result<seq<CardNode>, MappingError>)
    ensures r == InsertCard(tree, c, SetsOf(ms, c.id))
  {
    var ctag := RemapNames(c.card);
    if ctag.None? {
      return Err(BadName(c.card));
    }
    var ename := if c.expansion.None? then Unknown else c.expansion.value;
    var etag := RemapNames(ename);
    if etag.None? {
      return Err(BadName(ename));
    }
    var nodes := MakeSetNodes(SetsOf(ms, c.id));
    if nodes.Err? {
      return Err(nodes.error);
    }
    return Ok(Place(tree, ctag.value, c.card, etag.value, ename, IdNode("a" + NatToStr(c.id), nodes.value)));
  }

  /** Once a physical card fails, the whole fill fails the same way. */
  lemma {:induction false} FillStops(cards: seq<PhysCard>, ms: seq<Membership>, i: nat)
    requires i < |cards| && Fill(cards[..i + 1], ms).Err?
    ensures Fill(cards, ms) == Fill(cards[..i + 1], ms)
    decreases |cards| - i
  {
    if i + 1 < |cards| {
      var init := cards[..|cards| - 1];
      assert init[..i + 1] == cards[..i + 1];
      FillStops(init, ms, i);
    } else {
      assert cards[..i + 1] == cards;
    }
  }

  /** The loop of `fill_from_db` over the card sets of one physical card. */
  method MakeSetNodes(sets: seq<string>) returns (r: Result<seq<SetNode>, MappingError>)
    ensures r == SetNodes(sets)
  {
    var ns: seq<SetNode> := [];
    var i := 0;
    while i < |sets|
      invariant 0 <= i <= |sets| && SetNodes(sets[..i]) == Ok(ns)
    {
      assert sets[..i + 1][..i] == sets[..i];
      var t := RemapNames(sets[i]);
      if t.None? {
        SetNodesStop(sets, i);
        return Err(BadName(sets[i]));
      }
      ns := ns + [SetNode(t.value, sets[i])];
      i := i + 1;
    }
    assert sets[..i] == sets;
    return Ok(ns);
  }

  lemma {:induction false} SetNodesStop(sets: seq<string>, i: nat)
    requires i < |sets| && SetNodes(sets[..i + 1]).Err?
    ensures SetNodes(sets) == SetNodes(sets[..i + 1])
    decreases |sets| - i
  {
    if i + 1 < |sets| {
      var init := sets[..|sets| - 1];
      assert init[..i + 1] == sets[..i + 1];
      SetNodesStop(init, i);
    } else {
      assert sets[..i + 1] == sets;
    }
  }

  lemma {:induction false} CommitCardsStopped(tree: seq<CardNode>, lookup: map<string, string>, cat: Catalog, ms: seq<Membership>, i: nat)
    requires i < |tree| && CommitCards(tree[..i + 1], lookup, cat, ms).stop.Some?
    ensures CommitCards(tree, lookup, cat, ms) == CommitCards(tree[..i + 1], lookup, cat, ms)
    decreases |tree| - i
  {
    if i + 1 < |tree| {
      var init := tree[..|tree| - 1];
      assert init[..i + 1] == tree[..i + 1];
      CommitCardsStopped(init, lookup, cat, ms, i);
    } else {
      assert tree[..i + 1] == tree;
    }
  }

  /** The inner loop of `commit_to_db` over one card node's expansion
      nodes. */
  method CommitCard(db: CardDb, card: CardNode, lookup: map<string, string>) returns (stop: Option<Result<bool, MappingError>>)
    modifies db
    ensures Run(db.members, stop) == CommitExps(card, card.exps, lookup, db.catalog, old(db.members))
  {
    var exps := card.exps;
    var j := 0;
    while j < |exps|
      invariant 0 <= j <= |exps|
      invariant CommitExps(card, exps[..j], lookup, db.catalog, old(db.members)) == Run(db.members, None)
    {
      assert exps[..j + 1][..j] == exps[..j];
      stop := CommitExpansion(db, card, exps[j], lookup);
      if stop.Some? {
        CommitExpsStopped(card, exps, lookup, db.catalog, old(db.members), j);
        return;
      }
      j := j + 1;
    }
    assert exps[..j] == exps;
    return None;
  }

  lemma {:induction false} CommitExpsStopped(card: CardNode, exps: seq<ExpNode>, lookup: map<string, string>, cat: Catalog, ms: seq<Membership>, j: nat)
    requires j < |exps| && CommitExps(card, exps[..j + 1], lookup, cat, ms).stop.Some?
    ensures CommitExps(card, exps, lookup, cat, ms) == CommitExps(card, exps[..j + 1], lookup, cat, ms)
    decreases |exps| - j
  {
    if j + 1 < |exps| {
      var init := exps[..|exps| - 1];
      assert init[..j + 1] == exps[..j + 1];
      CommitExpsStopped(card, init, lookup, cat, ms, j);
    } else {
      assert exps[..j + 1] == exps;
    }
  }

  /** One expansion node: skipped with a single id node, stopped with False
      on a count mismatch, and otherwise fixed. */
  method CommitExpansion(db: CardDb, card: CardNode, exp: ExpNode, lookup: map<string, string>)
    returns (stop: Option<Result<bool, MappingError>>)
    modifies db
    ensures Run(db.members, stop) == CommitExp(card, exp, lookup, db.catalog, old(db.members))
  {
    if |exp.ids| == 1 {
      return None;
    }
    var pcs := PhysCards(card, exp, lookup, db.catalog);
    if pcs.Err? {
      return Some(Err(pcs.error));
    }
    if |pcs.value| != |exp.ids| {
      return Some(Ok(false));
    }
    stop := FixMapping(db, exp.ids, pcs.value);
  }

  /** `_fix_mapping`: the loop over the id nodes and physical cards
      together. */
  method FixMapping(db: CardDb, ids: seq<IdNode>, pcs: seq<PhysCard>) returns (stop: Option<Result<bool, MappingError>>)
    requires |ids| == |pcs|
    modifies db
    ensures Run(db.members, stop) == FixAll(ids, pcs, db.catalog, old(db.members))
  {
    var k := 0;
    while k < |ids|
      invariant 0 <= k <= |ids|
      invariant FixAll(ids[..k], pcs[..k], db.catalog, old(db.members)) == Run(db.members, None)
    {
      assert ids[..k + 1][..k] == ids[..k] && pcs[..k + 1][..k] == pcs[..k];
      stop := FixOne(db, ids[k], pcs[k].id);
      if stop.Some? {
        FixAllStopped(ids, pcs, db.catalog, old(db.members), k);
        return;
      }
      k := k + 1;
    }
    assert ids[..k] == ids && pcs[..k] == pcs;
    return None;
  }

  lemma {:induction false} FixAllStopped(ids: seq<IdNode>, pcs: seq<PhysCard>, cat: Catalog, ms: seq<Membership>, k: nat)
    requires |ids| == |pcs| && k < |ids| && FixAll(ids[..k + 1], pcs[..k + 1], cat, ms).stop.Some?
    ensures FixAll(ids, pcs, cat, ms) == FixAll(ids[..k + 1], pcs[..k + 1], cat, ms)
    decreases |ids| - k
  {
    if k + 1 < |ids| {
      var a := ids[..|ids| - 1];
      var b := pcs[..|pcs| - 1];
      assert a[..k + 1] == ids[..k + 1] && b[..k + 1] == pcs[..k + 1];
      FixAllStopped(a, b, cat, ms, k);
    } else {
      assert ids[..k + 1] == ids && pcs[..k + 1] == pcs;
    }
  }

  /** The body of `_fix_mapping` for one physical card: its card sets are
      read once, the missing ones get it, then the extra ones lose it. */
  method FixOne(db: CardDb, id: IdNode, p: nat) returns (stop: Option<Result<bool, MappingError>>)
    modifies db
    ensures Run(db.members, stop) == FixCard(id, p, db.catalog, old(db.members))
  {
    var names := SetsOf(db.members, p);
    var sets := id.sets;
    var j := 0;
    while j < |sets|
      invariant 0 <= j <= |sets|
      invariant AddMissing(sets[..j], names, p, db.catalog, old(db.members)) == Run(db.members, None)
    {
      assert sets[..j + 1][..j] == sets[..j];
      var n := sets[j];
      if n.name !in names {
        if n.name !in db.catalog.setNames {
          AddMissingStopped(sets, names, p, db.catalog, old(db.members), j);
          return Some(Err(NoSet(n.name)));
        }
        db.members := db.members + [Membership(p, n.name)];
      }
      j := j + 1;
    }
    assert sets[..j] == sets;
    ghost var added := db.members;
    var k := 0;
    while k < |names|
      invariant 0 <= k <= |names|
      invariant RemoveExtras(names[..k], sets, p, added) == Run(db.members, None)
    {
      assert names[..k + 1][..k] == names[..k];
      var t := RemapNames(names[k]);
      if t.None? {
        RemoveExtrasStopped(names, sets, p, added, k);
        return Some(Err(BadName(names[k])));
      }
      if !HasSetTag(sets, t.value) {
        db.members := Drop(db.members, Membership(p, names[k]));
      }
      k := k + 1;
    }
    assert names[..k] == names;
    return None;
  }

  lemma {:induction false} AddMissingStopped(sets: seq<SetNode>, names: seq<string>, p: nat, cat: Catalog, ms: seq<Membership>, j: nat)
    requires j < |sets| && AddMissing(sets[..j + 1], names, p, cat, ms).stop.Some?
    ensures AddMissing(sets, names, p, cat, ms) == AddMissing(sets[..j + 1], names, p, cat, ms)
    decreases |sets| - j
  {
    if j + 1 < |sets| {
      var init := sets[..|sets| - 1];
      assert init[..j + 1] == sets[..j + 1];
      AddMissingStopped(init, names, p, cat, ms, j);
    } else {
      assert sets[..j + 1] == sets;
    }
  }

  lemma {:induction false} RemoveExtrasStopped(names: seq<string>, sets: seq<SetNode>, p: nat, ms: seq<Membership>, k: nat)
    requires k < |names| && RemoveExtras(names[..k + 1], sets, p, ms).stop.Some?
    ensures RemoveExtras(names, sets, p, ms) == RemoveExtras(names[..k + 1], sets, p, ms)
    decreases |names| - k
  {
    if k + 1 < |names| {
      var init := names[..|names| - 1];
      assert init[..k + 1] == names[..k + 1];
      RemoveExtrasStopped(init, sets, p, ms, k);
    } else {
      assert names[..k + 1] == names;
    }
  }
}
