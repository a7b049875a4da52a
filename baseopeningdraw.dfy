/** The helpers shared by the opening-hand simulators: counting drawn cards
    into groups, formatting count dictionaries as text, and drawing cards
    without replacement. A card is represented by its name. */
module BaseOpeningDraw {
  import opened PyStr

  /** A (name, count) entry of a count dictionary. */
  datatype Item = Item(name: string, count: int)

  /** `d.get(k, 0)`. */
  function Get(d: map<string, int>, k: string): int {
    if k in d then d[k] else 0
  }

  // ---------------------------------------------------------------------
  // check_card
  // ---------------------------------------------------------------------

  /** `check_card`: for every group whose list holds the card, the card's
      count is added to that group's entry, which is created at 0 first;
      every other entry is left alone. The groups are visited in the
      dictionary's order, which the model leaves open. */
  method CheckCard(name: string, toCheck: map<string, set<string>>, count: map<string, int>, n: int)
    returns (r: map<string, int>)
    ensures forall g :: g in r <==> g in count || (g in toCheck && name in toCheck[g])
    ensures forall g :: g in r ==> r[g] == Get(count, g) + (if g in toCheck && name in toCheck[g] then n else 0)
  {
    r := count;
    var todo := toCheck.Keys;
    while todo != {}
      invariant todo <= toCheck.Keys
      invariant forall g :: g in r <==> g in count || (g in toCheck && g !in todo && name in toCheck[g])
      invariant forall g :: g in r ==>
        r[g] == Get(count, g) + (if g in toCheck && g !in todo && name in toCheck[g] then n else 0)
      decreases todo
    {
      var g :| g in todo;
      if name in toCheck[g] {
        r := r[g := Get(r, g) + n];
      }
      todo := todo - {g};
    }
  }

  // ---------------------------------------------------------------------
  // Dictionary items and their order
  // ---------------------------------------------------------------------

  /** `s` lists the entries of `d`, each once, in some order. */
  ghost predicate ItemsOf(s: seq<Item>, d: map<string, int>) {
    && (forall i :: 0 <= i < |s| ==> s[i].name in d && d[s[i].name] == s[i].count)
    && (forall k :: k in d ==> exists i :: 0 <= i < |s| && s[i].name == k)
    && (forall i, j :: 0 <= i < j < |s| ==> s[i].name != s[j].name)
  }

  /** `d.items()`: the entries in the dictionary's order, which the model
      leaves open. */
  method Items(d: map<string, int>) returns (s: seq<Item>)
    ensures ItemsOf(s, d)
  {
    s := [];
    var todo := d.Keys;
    while todo != {}
      invariant todo <= d.Keys
      invariant forall i :: 0 <= i < |s| ==> s[i].name in d && s[i].name !in todo && d[s[i].name] == s[i].count
      invariant forall k :: k in d && k !in todo ==> exists i :: 0 <= i < |s| && s[i].name == k
      invariant forall i, j :: 0 <= i < j < |s| ==> s[i].name != s[j].name
      decreases todo
    {
      var k :| k in todo;
      var s' := s + [Item(k, d[k])];
      assert forall i :: 0 <= i < |s| ==> s'[i] == s[i];
      assert s'[|s|].name == k;
      s := s';
      todo := todo - {k};
    }
  }

  /** `a` comes before `b` in `sorted(..., key=(count, name), reverse=True)`:
      a larger count first, and on equal counts the larger name first. */
  predicate Above(a: Item, b: Item) {
    a.count > b.count || (a.count == b.count && StrLe(b.name, a.name))
  }

  predicate SortedDown(s: seq<Item>) {
    forall i, j :: 0 <= i < j < |s| ==> Above(s[i], s[j])
  }

  lemma AboveTrans(a: Item, b: Item, c: Item)
    requires Above(a, b) && Above(b, c)
    ensures Above(a, c)
  {
    if a.count == b.count && b.count == c.count {
      StrLeTrans(c.name, b.name, a.name);
    }
  }

  lemma AboveTotal(a: Item, b: Item)
    ensures Above(a, b) || Above(b, a)
  {
    StrLeTotal(a.name, b.name);
  }

  lemma AboveAntisym(a: Item, b: Item)
    requires Above(a, b) && Above(b, a)
    ensures a == b
  {
    StrLeAntisym(a.name, b.name);
  }

  /** Insert `x` into a list sorted downwards, before the first entry it
      is above. */
  function InsertItem(x: Item, s: seq<Item>): (r: seq<Item>)
    requires SortedDown(s)
    ensures SortedDown(r)
    ensures multiset(r) == multiset(s) + multiset{x}
  {
    if |s| == 0 then [x]
    else if Above(x, s[0]) then
      AboveAll(x, s);
      ConsSorted(x, s);
      [x] + s
    else
      AboveTotal(x, s[0]);
      SortedDownTail(s);
      var t := InsertItem(x, s[1..]);
      HeadAboveInsert(s, x, t);
      ConsSorted(s[0], t);
      assert s == [s[0]] + s[1..];
      [s[0]] + t
  }

  /** An entry above the head of a list sorted downwards is above all of
      it. */
  lemma AboveAll(x: Item, s: seq<Item>)
    requires |s| > 0 && SortedDown(s) && Above(x, s[0])
    ensures forall j :: 0 <= j < |s| ==> Above(x, s[j])
  {
    forall j | 0 < j < |s| ensures Above(x, s[j]) {
      AboveTrans(x, s[0], s[j]);
    }
  }

  /** The head of a sorted list is above everything of its tail with an
      entry it is above inserted. */
  lemma HeadAboveInsert(s: seq<Item>, x: Item, t: seq<Item>)
    requires |s| > 0 && SortedDown(s) && Above(s[0], x)
    requires multiset(t) == multiset(s[1..]) + multiset{x}
    ensures forall j :: 0 <= j < |t| ==> Above(s[0], t[j])
  {
    forall j | 0 <= j < |t| ensures Above(s[0], t[j]) {
      assert t[j] in multiset(t);
      if t[j] != x {
        assert t[j] in multiset(s[1..]);
        var k :| 0 <= k < |s[1..]| && s[1..][k] == t[j];
        assert s[k + 1] == t[j];
      }
    }
  }

  /** An entry above all of a list sorted downwards heads a list sorted
      downwards. */
  lemma ConsSorted(a: Item, t: seq<Item>)
    requires SortedDown(t) && forall j :: 0 <= j < |t| ==> Above(a, t[j])
    ensures SortedDown([a] + t)
  {
    var r := [a] + t;
    forall i, j | 0 <= i < j < |r| ensures Above(r[i], r[j]) {
      if i == 0 {
        assert r[j] == t[j - 1];
      } else {
        assert r[i] == t[i - 1] && r[j] == t[j - 1];
      }
    }
  }

  /** `sorted(items, key=lambda x: (x[1], x[0]), reverse=True)`. */
  function SortItems(s: seq<Item>): (r: seq<Item>)
    ensures SortedDown(r)
    ensures multiset(r) == multiset(s)
  {
    if |s| == 0 then []
    else
      assert s == [s[0]] + s[1..];
      InsertItem(s[0], SortItems(s[1..]))
  }

  lemma SortedDownTail(s: seq<Item>)
    requires |s| > 0 && SortedDown(s)
    ensures SortedDown(s[1..])
  {
    assert forall k :: 0 <= k < |s| - 1 ==> s[1..][k] == s[k + 1];
  }

  /** The head of a list sorted downwards is above every entry of it. */
  lemma SortedDownHead(s: seq<Item>, i: nat)
    requires i < |s| && SortedDown(s)
    ensures Above(s[0], s[i])
  {
    if i == 0 {
      AboveTotal(s[0], s[0]);
    }
  }

  /** Two lists sorted downwards with the same entries start alike. */
  lemma SortedDownHeads(a: seq<Item>, b: seq<Item>)
    requires |a| > 0 && SortedDown(a) && SortedDown(b)
    requires multiset(a) == multiset(b)
    ensures |b| > 0 && a[0] == b[0]
  {
    assert a[0] in multiset(b);
    assert b[0] in multiset(a);
    var i :| 0 <= i < |b| && b[i] == a[0];
    var j :| 0 <= j < |a| && a[j] == b[0];
    SortedDownHead(b, i);
    SortedDownHead(a, j);
    AboveAntisym(a[0], b[0]);
  }

  lemma TailMultiset(a: seq<Item>)
    requires |a| > 0
    ensures multiset(a[1..]) == multiset(a) - multiset{a[0]}
  {
    assert a == [a[0]] + a[1..];
  }

  /** Two lists sorted downwards with the same entries are equal. */
  lemma {:induction false} SortedDownUnique(a: seq<Item>, b: seq<Item>)
    requires SortedDown(a) && SortedDown(b)
    requires multiset(a) == multiset(b)
    ensures a == b
    decreases |a|
  {
    if |a| > 0 {
      SortedDownHeads(a, b);
      TailMultiset(a);
      TailMultiset(b);
      SortedDownTail(a);
      SortedDownTail(b);
      SortedDownUnique(a[1..], b[1..]);
      assert a == [a[0]] + a[1..] && b == [b[0]] + b[1..];
    } else {
      assert |b| == 0 by { assert |multiset(b)| == 0; }
    }
  }

  /** A list without repeated names has each of its entries once. */
  lemma {:induction false} DistinctCounts(s: seq<Item>, x: Item)
    requires forall i, j :: 0 <= i < j < |s| ==> s[i].name != s[j].name
    ensures multiset(s)[x] == if x in s then 1 else 0
  {
    if |s| > 0 {
      var init := s[..|s| - 1];
      assert s == init + [s[|s| - 1]];
      DistinctCounts(init, x);
      if x == s[|s| - 1] {
        assert x !in init;
      }
    }
  }

  /** Any two listings of the same dictionary have the same entries. */
  lemma ItemsSameEntries(a: seq<Item>, b: seq<Item>, d: map<string, int>)
    requires ItemsOf(a, d) && ItemsOf(b, d)
    ensures multiset(a) == multiset(b)
  {
    forall x ensures multiset(a)[x] == multiset(b)[x] {
      DistinctCounts(a, x);
      DistinctCounts(b, x);
      if x in a {
        var i :| 0 <= i < |a| && a[i] == x;
        var j :| 0 <= j < |b| && b[j].name == x.name;
        assert b[j] == x;
      }
      if x in b {
        var j :| 0 <= j < |b| && b[j] == x;
        var i :| 0 <= i < |a| && a[i].name == x.name;
        assert a[i] == x;
      }
    }
  }

  /** The sorted entries do not depend on the dictionary's order: every
      listing of a dictionary sorts to the same list. */
  lemma SortedItemsUnique(a: seq<Item>, b: seq<Item>, d: map<string, int>)
    requires ItemsOf(a, d) && ItemsOf(b, d)
    ensures SortItems(a) == SortItems(b)
  {
    ItemsSameEntries(a, b, d);
    SortedDownUnique(SortItems(a), SortItems(b));
  }

  // ---------------------------------------------------------------------
  // format_dict and fill_string
  // ---------------------------------------------------------------------

  /** The line `'%d × %s\n' % (count, name)`. */
  function Line(it: Item): string {
    IntToStr(it.count) + " \U{D7} " + it.name + "\n"
  }

  /** The line `'<i>\t%d × %s</i>\n' % (count, name)`. */
  function MemberLine(it: Item): string {
    "<i>\t" + IntToStr(it.count) + " \U{D7} " + it.name + "</i>\n"
  }

  function Concat(parts: seq<string>): string {
    if |parts| == 0 then "" else parts[0] + Concat(parts[1..])
  }

  lemma {:induction false} ConcatSnoc(parts: seq<string>, x: string)
    ensures Concat(parts + [x]) == Concat(parts) + x
  {
    if |parts| > 0 {
      assert (parts + [x])[1..] == parts[1..] + [x];
      ConcatSnoc(parts[1..], x);
    }
  }

  /** The lines of `format_dict`: one per entry, in sorted order. */
  function DictLines(sorted: seq<Item>): (ls: seq<string>)
    ensures |ls| == |sorted|
    ensures forall i :: 0 <= i < |sorted| ==> ls[i] == Line(sorted[i])
  {
    seq(|sorted|, i requires 0 <= i < |sorted| => Line(sorted[i]))
  }

  /** The text `format_dict` writes for a listing of a dictionary. */
  function DictText(items: seq<Item>): string {
    Concat(DictLines(SortItems(items)))
  }

  /** `format_dict`: one line per entry of the dictionary, by count and
      then name, both descending. */
  method FormatDict(d: map<string, int>) returns (r: string, ghost items: seq<Item>)
    ensures ItemsOf(items, d)
    ensures r == DictText(items)
    ensures forall other :: ItemsOf(other, d) ==> r == DictText(other)
  {
    var its := Items(d);
    items := its;
    r := Render(SortItems(its));
    forall other | ItemsOf(other, d) ensures r == DictText(other) {
      SortedItemsUnique(its, other, d);
    }
  }

  /** The lines of the sorted entries, one after the other. */
  method Render(sorted: seq<Item>) returns (r: string)
    ensures r == Concat(DictLines(sorted))
  {
    r := "";
    for i := 0 to |sorted|
      invariant r == Concat(DictLines(sorted[..i]))
    {
      LinesSnoc(sorted, i);
      r := r + Line(sorted[i]);
    }
    assert sorted[..|sorted|] == sorted;
  }

  /** The text of one more entry is the text so far and its line. */
  lemma LinesSnoc(sorted: seq<Item>, i: nat)
    requires i < |sorted|
    ensures Concat(DictLines(sorted[..i + 1])) == Concat(DictLines(sorted[..i])) + Line(sorted[i])
  {
    var ls, ls' := DictLines(sorted[..i]), DictLines(sorted[..i + 1]);
    assert ls' == ls + [Line(sorted[i])];
    ConcatSnoc(ls, Line(sorted[i]));
  }

  /** `format_dict` writes the same text however the dictionary orders its
      entries, with one line per entry. */
  lemma FormatDictOrderFree(a: seq<Item>, b: seq<Item>, d: map<string, int>)
    requires ItemsOf(a, d) && ItemsOf(b, d)
    ensures DictText(a) == DictText(b)
    ensures |DictLines(SortItems(a))| == |a|
  {
    SortedItemsUnique(a, b, d);
    assert |multiset(SortItems(a))| == |multiset(a)|;
  }

  /** The entries of `sorted` whose card is among `members`, in order. */
  function Members(sorted: seq<Item>, members: set<string>): seq<Item> {
    if |sorted| == 0 then []
    else
      var last := sorted[|sorted| - 1];
      Members(sorted[..|sorted| - 1], members) + (if last.name in members then [last] else [])
  }

  /** The member entries are exactly the entries of the group's cards. */
  lemma {:induction false} MembersExactly(sorted: seq<Item>, members: set<string>, x: Item)
    ensures x in Members(sorted, members) <==> x in sorted && x.name in members
  {
    if |sorted| > 0 {
      var init := sorted[..|sorted| - 1];
      assert sorted == init + [sorted[|sorted| - 1]];
      MembersExactly(init, members, x);
    }
  }

  /** The member entries keep the sorted order. */
  lemma {:induction false} MembersSorted(sorted: seq<Item>, members: set<string>)
    requires SortedDown(sorted)
    ensures SortedDown(Members(sorted, members))
  {
    if |sorted| > 0 {
      var init := sorted[..|sorted| - 1];
      var last := sorted[|sorted| - 1];
      assert SortedDown(init) by {
        assert forall k :: 0 <= k < |init| ==> init[k] == sorted[k];
      }
      MembersSorted(init, members);
      var t := Members(init, members);
      if last.name in members {
        forall i | 0 <= i < |t| ensures Above(t[i], last) {
          MembersExactly(init, members, t[i]);
          var k :| 0 <= k < |init| && init[k] == t[i];
          assert sorted[k] == t[i];
        }
        assert Members(sorted, members) == t + [last];
      }
    }
  }

  /** The member lines of the given entries. */
  function MemberText(ms: seq<Item>): string {
    if |ms| == 0 then "" else MemberText(ms[..|ms| - 1]) + MemberLine(ms[|ms| - 1])
  }

  /** The text of one group of `fill_string`: the group's line, then a
      line for each card of the group in sorted order. */
  function GroupText(g: Item, sorted: seq<Item>, members: set<string>): string {
    Line(g) + MemberText(Members(sorted, members))
  }

  /** The text of `fill_string` over the groups in the given order. */
  function FillText(groups: seq<Item>, sorted: seq<Item>, toCheck: map<string, set<string>>): string
    requires forall i :: 0 <= i < |groups| ==> groups[i].name in toCheck
  {
    if |groups| == 0 then ""
    else
      var last := groups[|groups| - 1];
      FillText(groups[..|groups| - 1], sorted, toCheck) + GroupText(last, sorted, toCheck[last.name])
  }

  /** `fill_string`: each group's count line is followed by the cards of
      the hand that belong to the group, by count and then name, both
      descending. The groups come in the dictionary's order, returned as
      `groupItems`; the cards' order does not depend on the dictionary.
      Every group must be known to `toCheck`. */
  method FillString(groups: map<string, int>, info: map<string, int>, toCheck: map<string, set<string>>)
    returns (r: string, groupItems: seq<Item>, ghost infoItems: seq<Item>)
    requires forall g :: g in groups ==> g in toCheck
    ensures ItemsOf(groupItems, groups) && ItemsOf(infoItems, info)
    ensures forall i :: 0 <= i < |groupItems| ==> groupItems[i].name in toCheck
    ensures r == FillText(groupItems, SortItems(infoItems), toCheck)
    ensures forall other :: ItemsOf(other, info) ==> r == FillText(groupItems, SortItems(other), toCheck)
  {
    var infos := Items(info);
    infoItems := infos;
    var sorted := SortItems(infos);
    groupItems := Items(groups);
    r := Groups(groupItems, sorted, toCheck);
    forall other | ItemsOf(other, info) ensures r == FillText(groupItems, SortItems(other), toCheck) {
      SortedItemsUnique(infos, other, info);
    }
  }

  /** The text of the groups in the given order. */
  method Groups(gs: seq<Item>, sorted: seq<Item>, toCheck: map<string, set<string>>) returns (r: string)
    requires forall i :: 0 <= i < |gs| ==> gs[i].name in toCheck
    ensures r == FillText(gs, sorted, toCheck)
  {
    r := "";
    for i := 0 to |gs|
      invariant r == FillText(gs[..i], sorted, toCheck)
    {
      var part := Group(gs[i], sorted, toCheck[gs[i].name]);
      assert gs[..i + 1][..i] == gs[..i];
      r := r + part;
    }
    assert gs[..|gs|] == gs;
  }

  /** One group's text: its line, then the line of each of its cards. */
  method Group(g: Item, sorted: seq<Item>, members: set<string>) returns (part: string)
    ensures part == GroupText(g, sorted, members)
  {
    var text := "";
    for j := 0 to |sorted|
      invariant text == MemberText(Members(sorted[..j], members))
    {
      ghost var ms := Members(sorted[..j], members);
      assert sorted[..j + 1][..j] == sorted[..j];
      if sorted[j].name in members {
        assert Members(sorted[..j + 1], members) == ms + [sorted[j]];
        assert (ms + [sorted[j]])[..|ms|] == ms;
        text := text + MemberLine(sorted[j]);
      } else {
        assert Members(sorted[..j + 1], members) == ms;
      }
    }
    assert sorted[..|sorted|] == sorted;
    part := Line(g) + text;
  }

  // ---------------------------------------------------------------------
  // draw_x_cards
  // ---------------------------------------------------------------------

  /** `list.remove(x)`: drop the first element equal to `x`. */
  function RemoveFirst(s: seq<string>, x: string): (r: seq<string>)
    requires x in s
    ensures |r| == |s| - 1
    ensures multiset(r) == multiset(s) - multiset{x}
  {
    if s[0] == x then
      assert s == [s[0]] + s[1..];
      s[1..]
    else
      assert s == [s[0]] + s[1..];
      [s[0]] + RemoveFirst(s[1..], x)
  }

  /** `n` cards added, one at a time, to a count dictionary. */
  function AddAll(d: map<string, int>, s: seq<string>): map<string, int> {
    if |s| == 0 then d
    else
      var init := s[..|s| - 1];
      var x := s[|s| - 1];
      var e := AddAll(d, init);
      e[x := Get(e, x) + 1]
  }

  /** After adding `s`, a name has an entry when it had one or is in `s`,
      and its count is raised by its number of copies in `s`. */
  lemma {:induction false} AddAllCounts(d: map<string, int>, s: seq<string>, k: string)
    ensures k in AddAll(d, s) <==> k in d || k in s
    ensures Get(AddAll(d, s), k) == Get(d, k) + multiset(s)[k]
  {
    if |s| > 0 {
      var init := s[..|s| - 1];
      assert s == init + [s[|s| - 1]];
      AddAllCounts(d, init, k);
    }
  }

  /** `draw_x_cards`: draw `n` cards at random without replacement, each
      removed from the list and counted by name. The random choice is left
      open. When the list runs out first, `choice` raises IndexError: `ok`
      is false and every card has been drawn. */
  method DrawXCards(cards: seq<string>, n: nat, drawn: map<string, int>)
    returns (rest: seq<string>, drawn': map<string, int>, ok: bool, ghost taken: seq<string>)
    ensures ok <==> n <= |cards|
    ensures |taken| == (if ok then n else |cards|) && |rest| == |cards| - |taken|
    ensures multiset(cards) == multiset(rest) + multiset(taken)
    ensures drawn' == AddAll(drawn, taken)
  {
    rest, drawn', taken := cards, drawn, [];
    for i := 0 to n
      invariant |taken| == i && |rest| == |cards| - i
      invariant multiset(cards) == multiset(rest) + multiset(taken)
      invariant drawn' == AddAll(drawn, taken)
    {
      if |rest| == 0 {
        return rest, drawn', false, taken;
      }
      var card;
      rest, drawn', card := DrawOne(rest, drawn');
      AddAllSnoc(drawn, taken, card);
      taken := taken + [card];
    }
    ok := true;
  }

  /** One card drawn at random, removed and counted. */
  method DrawOne(cards: seq<string>, drawn: map<string, int>) returns (rest: seq<string>, drawn': map<string, int>, card: string)
    requires |cards| > 0
    ensures |rest| == |cards| - 1 && multiset(cards) == multiset(rest) + multiset{card}
    ensures drawn' == drawn[card := Get(drawn, card) + 1]
  {
    var k :| 0 <= k < |cards|;
    card := cards[k];
    rest := RemoveFirst(cards, card);
    drawn' := drawn[card := Get(drawn, card) + 1];
  }

  lemma AddAllSnoc(d: map<string, int>, s: seq<string>, x: string)
    ensures AddAll(d, s + [x]) == AddAll(d, s)[x := Get(AddAll(d, s), x) + 1]
  {
    assert (s + [x])[..|s|] == s;
  }

  /** The drawn cards are a sub-multiset of the list, and the drawn total
      rises by the number drawn. */
  lemma DrawnTotal(cards: seq<string>, rest: seq<string>, taken: seq<string>)
    requires multiset(cards) == multiset(rest) + multiset(taken)
    ensures multiset(taken) <= multiset(cards)
    ensures |taken| + |rest| == |cards|
  {
    assert |multiset(cards)| == |multiset(rest)| + |multiset(taken)|;
  }
}
