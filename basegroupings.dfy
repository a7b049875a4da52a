/** The generic grouping of a card list: every item goes under each of the
    distinct keys its key function gives, or under the missing key when it
    gives none, and the groups come out in sorted key order. */
module BaseGroupings {
  import opened Wrappers
  import opened PyStr
  import opened Cards

  /** A group key: a string, or `None` for the items without any key. */
  type Key = Option<string>

  /** The item with keys `ks` belongs to the group of key k. */
  predicate HasKey(ks: seq<string>, k: Key) {
    if k.None? then |ks| == 0 else k.value in ks
  }

  /** Python 2 orders `None` before every string. */
  predicate KeyLt(a: Key, b: Key) {
    if a.None? then b.Some? else b.Some? && StrLe(a.value, b.value) && a.value != b.value
  }

  /** The items of group k, in input order. */
  function Members<T>(items: seq<T>, f: T -> seq<string>, k: Key): (m: seq<T>)
    ensures |m| <= |items|
  {
    if |items| == 0 then []
    else
      var last := items[|items| - 1];
      Members(items[..|items| - 1], f, k) + (if HasKey(f(last), k) then [last] else [])
  }

  /** Every key of every item, in order. */
  function Flat<T>(items: seq<T>, f: T -> seq<string>): (ks: seq<string>)
    ensures forall k :: k in ks <==> exists i :: 0 <= i < |items| && k in f(items[i])
  {
    if |items| == 0 then []
    else
      var init := items[..|items| - 1];
      var r := Flat(init, f) + f(items[|items| - 1]);
      assert forall i :: 0 <= i < |init| ==> init[i] == items[i];
      r
  }

  /** The elements of s, each once, in the order they first appear. */
  function Dedup(s: seq<string>): (d: seq<string>)
    ensures forall x :: x in d <==> x in s
  {
    if |s| == 0 then []
    else
      var prev := Dedup(s[..|s| - 1]);
      assert s == s[..|s| - 1] + [s[|s| - 1]];
      if s[|s| - 1] in prev then prev else prev + [s[|s| - 1]]
  }

  /** Deduplicating leaves no element twice. */
  lemma {:induction false} DedupDistinct(s: seq<string>)
    ensures forall i, j :: 0 <= i < j < |Dedup(s)| ==> Dedup(s)[i] != Dedup(s)[j]
  {
    if |s| > 0 {
      DedupDistinct(s[..|s| - 1]);
    }
  }

  /** Some item has no key at all. */
  predicate Keyless<T>(items: seq<T>, f: T -> seq<string>) {
    exists i :: 0 <= i < |items| && |f(items[i])| == 0
  }

  /** The string keys wrapped as group keys, in the same order. */
  function Somes(s: seq<string>): (ks: seq<Key>)
    ensures |ks| == |s| && forall i :: 0 <= i < |s| ==> ks[i] == Some(s[i])
  {
    if |s| == 0 then [] else [Some(s[0])] + Somes(s[1..])
  }

  /** The keys of the groups, sorted: the missing key first when some item
      has no key, then the string keys in string order. */
  function GroupKeys<T>(items: seq<T>, f: T -> seq<string>): seq<Key> {
    (if Keyless(items, f) then [None] else []) + Somes(SortStrs(Dedup(Flat(items, f))))
  }

  /** What iterating over a grouping yields: each key with its items. */
  function Grouped<T>(items: seq<T>, f: T -> seq<string>): (gs: seq<(Key, seq<T>)>)
    ensures |gs| == |GroupKeys(items, f)|
    ensures forall i :: 0 <= i < |gs| ==> gs[i] == (GroupKeys(items, f)[i], Members(items, f, GroupKeys(items, f)[i]))
  {
    var ks := GroupKeys(items, f);
    seq(|ks|, i requires 0 <= i < |ks| => (ks[i], Members(items, f, ks[i])))
  }

  /** The items of a group that has none yet: `setdefault(key, [])`. */
  function Get<T>(d: map<Key, seq<T>>, k: Key): seq<T> {
    if k in d then d[k] else []
  }

  /** The group of a key grows by the last item exactly when that item has
      the key. */
  lemma MembersSnoc<T>(items: seq<T>, f: T -> seq<string>, i: nat, k: Key)
    requires i < |items|
    ensures Members(items[..i + 1], f, k) == Members(items[..i], f, k) + (if HasKey(f(items[i]), k) then [items[i]] else [])
    ensures Flat(items[..i + 1], f) == Flat(items[..i], f) + f(items[i])
  {
    assert items[..i + 1][..i] == items[..i];
  }

  /** Deduplicating one more element adds it when it is new. */
  lemma DedupSnoc(a: seq<string>, x: string)
    ensures Dedup(a + [x]) == if x in a then Dedup(a) else Dedup(a) + [x]
  {
    assert (a + [x])[..|a|] == a;
  }

  /** `dKeyItem.setdefault(key, []).append(x)` for a string key. */
  method AddToKey<T>(d: map<Key, seq<T>>, order: seq<string>, x: T, key: string, ghost seen: seq<string>)
    returns (d': map<Key, seq<T>>, order': seq<string>)
    requires order == Dedup(seen)
    requires forall k :: Some(k) in d <==> k in order
    ensures order' == Dedup(seen + [key])
    ensures forall k :: Some(k) in d' <==> k in order'
    ensures d' == d[Some(key) := Get(d, Some(key)) + [x]]
  {
    DedupSnoc(seen, key);
    order' := order;
    if Some(key) !in d {
      order' := order + [key];
    }
    d' := d[Some(key) := Get(d, Some(key)) + [x]];
  }

  /** The groups after visiting a key of an item not visited before. */
  lemma GetStepNew<T>(d: map<Key, seq<T>>, d1: map<Key, seq<T>>, x: T, ks: seq<string>, j: nat)
    requires j < |ks| && ks[j] !in ks[..j]
    requires forall k :: Get(d1, k) == Get(d, k) + (if k.Some? && k.value in ks[..j] then [x] else [])
    ensures forall k :: Get(d1[Some(ks[j]) := Get(d1, Some(ks[j])) + [x]], k)
                        == Get(d, k) + (if k.Some? && k.value in ks[..j + 1] then [x] else [])
  {
    assert ks[..j + 1] == ks[..j] + [ks[j]];
  }

  /** The groups after visiting a key of an item again. */
  lemma GetStepSeen<T>(d: map<Key, seq<T>>, d1: map<Key, seq<T>>, x: T, ks: seq<string>, j: nat)
    requires j < |ks| && ks[j] in ks[..j]
    requires forall k :: Get(d1, k) == Get(d, k) + (if k.Some? && k.value in ks[..j] then [x] else [])
    ensures forall k :: Get(d1, k) == Get(d, k) + (if k.Some? && k.value in ks[..j + 1] then [x] else [])
  {
    assert ks[..j + 1] == ks[..j] + [ks[j]];
  }

  /** One step of the loop over `set(ks)`: a key not visited before gets
      the item; a repeated one was visited already. */
  method VisitKey<T>(d: map<Key, seq<T>>, d1: map<Key, seq<T>>, order1: seq<string>, x: T, ks: seq<string>,
                     j: nat, ghost seen: seq<string>)
    returns (d2: map<Key, seq<T>>, order2: seq<string>)
    requires j < |ks|
    requires order1 == Dedup(seen + ks[..j])
    requires forall k :: Some(k) in d1 <==> k in order1
    requires None in d1 <==> None in d
    requires forall k :: Get(d1, k) == Get(d, k) + (if k.Some? && k.value in ks[..j] then [x] else [])
    ensures order2 == Dedup(seen + ks[..j + 1])
    ensures forall k :: Some(k) in d2 <==> k in order2
    ensures None in d2 <==> None in d
    ensures forall k :: Get(d2, k) == Get(d, k) + (if k.Some? && k.value in ks[..j + 1] then [x] else [])
  {
    var key := ks[j];
    assert seen + ks[..j + 1] == (seen + ks[..j]) + [key];
    if key !in ks[..j] {
      GetStepNew(d, d1, x, ks, j);
      d2, order2 := AddToKey(d1, order1, x, key, seen + ks[..j]);
    } else {
      GetStepSeen(d, d1, x, ks, j);
      DedupSnoc(seen + ks[..j], key);
      d2, order2 := d1, order1;
    }
  }

  /** The item added under each distinct key of a key list, visiting the
      keys as `set(ks)` does: each once. */
  method AddKeys<T>(d: map<Key, seq<T>>, order: seq<string>, x: T, ks: seq<string>, ghost seen: seq<string>)
    returns (d': map<Key, seq<T>>, order': seq<string>)
    requires order == Dedup(seen)
    requires forall k :: Some(k) in d <==> k in order
    ensures order' == Dedup(seen + ks)
    ensures forall k :: Some(k) in d' <==> k in order'
    ensures None in d' <==> None in d
    ensures forall k :: Get(d', k) == Get(d, k) + (if k.Some? && k.value in ks then [x] else [])
  {
    d', order' := d, order;
    var j := 0;
    assert seen + ks[..0] == seen;
    while j < |ks|
      invariant 0 <= j <= |ks|
      invariant order' == Dedup(seen + ks[..j])
      invariant forall k :: Some(k) in d' <==> k in order'
      invariant None in d' <==> None in d
      invariant forall k :: Get(d', k) == Get(d, k) + (if k.Some? && k.value in ks[..j] then [x] else [])
    {
      d', order' := VisitKey(d, d', order', x, ks, j, seen);
      j := j + 1;
    }
    assert ks[..j] == ks;
  }

  /** `__iter__` for one item: the item is added to the group of each of
      its distinct keys, or to the missing key's group when it has none.
      `order` lists the dictionary's string keys as first inserted. */
  method AddItem<T>(d: map<Key, seq<T>>, order: seq<string>, x: T, ks: seq<string>, ghost seen: seq<string>)
    returns (d': map<Key, seq<T>>, order': seq<string>)
    requires order == Dedup(seen)
    requires forall k :: Some(k) in d <==> k in order
    ensures order' == Dedup(seen + ks)
    ensures forall k :: Some(k) in d' <==> k in order'
    ensures None in d' <==> None in d || |ks| == 0
    ensures forall k :: Get(d', k) == Get(d, k) + (if HasKey(ks, k) then [x] else [])
  {
    if |ks| == 0 {
      assert seen + ks == seen;
      return d[None := Get(d, None) + [x]], order;
    }
    d', order' := AddKeys(d, order, x, ks, seen);
  }

  /** One more item has no key exactly when it, or an earlier one, has
      none. */
  lemma KeylessSnoc<T>(items: seq<T>, f: T -> seq<string>, i: nat)
    requires i < |items|
    ensures Keyless(items[..i + 1], f) <==> Keyless(items[..i], f) || |f(items[i])| == 0
  {
    var a, b := items[..i], items[..i + 1];
    assert forall m :: 0 <= m < |a| ==> a[m] == b[m];
    assert b[i] == items[i];
  }

  /** Every group after one more item. */
  lemma MembersSnocAll<T>(items: seq<T>, f: T -> seq<string>, i: nat)
    requires i < |items|
    ensures forall k :: Members(items[..i + 1], f, k)
                        == Members(items[..i], f, k) + (if HasKey(f(items[i]), k) then [items[i]] else [])
    ensures Flat(items[..i + 1], f) == Flat(items[..i], f) + f(items[i])
  {
    assert items[..i + 1][..i] == items[..i];
  }

  /** The wrapped keys are the wrapped strings, and never the missing key. */
  lemma {:induction false} SomesIn(s: seq<string>)
    ensures forall x :: Some(x) in Somes(s) <==> x in s
    ensures None !in Somes(s)
  {
    forall x ensures Some(x) in Somes(s) <==> x in s {
      if x in s {
        var n :| 0 <= n < |s| && s[n] == x;
        assert Somes(s)[n] == Some(x);
      }
    }
  }

  /** A key is a group key exactly when some item has it. */
  lemma GroupKeysIn<T>(items: seq<T>, f: T -> seq<string>)
    ensures forall x :: Some(x) in GroupKeys(items, f) <==> x in Flat(items, f)
    ensures None in GroupKeys(items, f) <==> Keyless(items, f)
  {
    var sorted := SortStrs(Dedup(Flat(items, f)));
    SomesIn(sorted);
    assert forall x :: x in sorted <==> x in multiset(Dedup(Flat(items, f)));
  }

  /** The last step of `__iter__`: the dictionary's keys, sorted, each with
      its items. */
  method YieldGroups<T>(d: map<Key, seq<T>>, order: seq<string>, ghost items: seq<T>, ghost f: T -> seq<string>)
    returns (groups: seq<(Key, seq<T>)>)
    requires order == Dedup(Flat(items, f))
    requires forall k :: Some(k) in d <==> k in order
    requires None in d <==> Keyless(items, f)
    requires forall k :: Get(d, k) == Members(items, f, k)
    ensures groups == Grouped(items, f)
  {
    var keys := (if None in d then [None] else []) + Somes(SortStrs(order));
    assert keys == GroupKeys(items, f);
    KeysStored(d, order, items, f);
    groups := seq(|keys|, m requires 0 <= m < |keys| => (keys[m], d[keys[m]]));
    ghost var want := Grouped(items, f);
    forall m | 0 <= m < |keys| ensures groups[m] == want[m] {
      assert d[keys[m]] == Get(d, keys[m]);
    }
  }

  /** Every group key is a key of the filled dictionary. */
  lemma KeysStored<T>(d: map<Key, seq<T>>, order: seq<string>, items: seq<T>, f: T -> seq<string>)
    requires order == Dedup(Flat(items, f))
    requires forall k :: Some(k) in d <==> k in order
    requires None in d <==> Keyless(items, f)
    ensures forall m :: 0 <= m < |GroupKeys(items, f)| ==> GroupKeys(items, f)[m] in d
  {
    var keys := GroupKeys(items, f);
    GroupKeysIn(items, f);
    forall m | 0 <= m < |keys| ensures keys[m] in d {
      var k := keys[m];
      assert k in keys;
      if k.Some? {
        assert k.value in Flat(items, f);
        assert k.value in order;
      }
    }
  }

  /** `IterGrouping.__iter__`: the dictionary from each key to its items
      is filled item by item, then its keys are sorted and each key is
      yielded with its items. */
  method IterGroup<T>(items: seq<T>, f: T -> seq<string>) returns (groups: seq<(Key, seq<T>)>)
    ensures groups == Grouped(items, f)
  {
    var d: map<Key, seq<T>> := map[];
    var order: seq<string> := [];
    var i := 0;
    while i < |items|
      invariant 0 <= i <= |items|
      invariant order == Dedup(Flat(items[..i], f))
      invariant forall k :: Some(k) in d <==> k in order
      invariant None in d <==> Keyless(items[..i], f)
      invariant forall k :: Get(d, k) == Members(items[..i], f, k)
    {
      MembersSnocAll(items, f, i);
      KeylessSnoc(items, f, i);
      d, order := AddItem(d, order, items[i], f(items[i]), Flat(items[..i], f));
      i := i + 1;
    }
    assert items[..i] == items;
    groups := YieldGroups(d, order, items, f);
  }

  /** A list without repeats holds each element at most once. */
  lemma {:induction false} DistinctCount(s: seq<string>, x: string)
    requires forall i, j :: 0 <= i < j < |s| ==> s[i] != s[j]
    ensures multiset(s)[x] <= 1
  {
    if |s| > 0 {
      var init := s[..|s| - 1];
      assert s == init + [s[|s| - 1]];
      DistinctCount(init, x);
      if x == s[|s| - 1] {
        assert x !in init;
      }
    }
  }

  /** An element at two positions occurs at least twice. */
  lemma TwiceCount(s: seq<string>, i: nat, j: nat)
    requires i < j < |s| && s[i] == s[j]
    ensures multiset(s)[s[i]] >= 2
  {
    assert s == s[..j] + [s[j]] + s[j + 1..];
    assert s[i] in s[..j];
  }

  /** Sorting a list without repeats gives a strictly increasing list. */
  lemma SortedDistinct(ds: seq<string>)
    requires forall i, j :: 0 <= i < j < |ds| ==> ds[i] != ds[j]
    ensures forall i, j :: 0 <= i < j < |SortStrs(ds)| ==> SortStrs(ds)[i] != SortStrs(ds)[j]
  {
    var sorted := SortStrs(ds);
    forall i, j | 0 <= i < j < |sorted| ensures sorted[i] != sorted[j] {
      if sorted[i] == sorted[j] {
        TwiceCount(sorted, i, j);
        DistinctCount(ds, sorted[i]);
        assert false;
      }
    }
  }

  /** The group keys are strictly increasing. */
  lemma GroupKeysSorted<T>(items: seq<T>, f: T -> seq<string>)
    ensures forall i, j :: 0 <= i < j < |GroupKeys(items, f)| ==> KeyLt(GroupKeys(items, f)[i], GroupKeys(items, f)[j])
  {
    var sorted := SortStrs(Dedup(Flat(items, f)));
    DedupDistinct(Flat(items, f));
    SortedDistinct(Dedup(Flat(items, f)));
    var ks := GroupKeys(items, f);
    var off := if Keyless(items, f) then 1 else 0;
    assert |ks| == |sorted| + off;
    forall i, j | 0 <= i < j < |ks| ensures KeyLt(ks[i], ks[j]) {
      if i >= off {
        assert ks[i] == Some(sorted[i - off]) && ks[j] == Some(sorted[j - off]);
      } else {
        assert ks[i] == None && ks[j] == Some(sorted[j - off]);
      }
    }
  }

  /** The groups come out with their keys strictly increasing: each key
      once, in sorted order, the missing key first. */
  lemma GroupedSorted<T>(items: seq<T>, f: T -> seq<string>)
    ensures forall i, j :: 0 <= i < j < |Grouped(items, f)| ==> KeyLt(Grouped(items, f)[i].0, Grouped(items, f)[j].0)
  {
    GroupKeysSorted(items, f);
  }

  /** The group of key k is non-empty exactly when some item has k. */
  lemma {:induction false} MembersNonEmpty<T>(items: seq<T>, f: T -> seq<string>, k: Key)
    ensures |Members(items, f, k)| > 0 <==> exists m :: 0 <= m < |items| && HasKey(f(items[m]), k)
  {
    if |items| > 0 {
      var init := items[..|items| - 1];
      MembersNonEmpty(init, f, k);
      assert forall m :: 0 <= m < |init| ==> init[m] == items[m];
    }
  }

  /** An item has key k exactly when k is a group key. */
  lemma HasKeyGroupKey<T>(items: seq<T>, f: T -> seq<string>, k: Key)
    ensures k in GroupKeys(items, f) <==> exists m :: 0 <= m < |items| && HasKey(f(items[m]), k)
  {
    GroupKeysIn(items, f);
    if k.Some? {
      assert k in GroupKeys(items, f) <==> k.value in Flat(items, f);
    }
  }

  /** The groups yielded are exactly those of the keys some item has. */
  lemma GroupedKeys<T>(items: seq<T>, f: T -> seq<string>, k: Key)
    ensures (exists i :: 0 <= i < |Grouped(items, f)| && Grouped(items, f)[i].0 == k)
            <==> exists m :: 0 <= m < |items| && HasKey(f(items[m]), k)
  {
    var ks := GroupKeys(items, f);
    var gs := Grouped(items, f);
    HasKeyGroupKey(items, f, k);
    if k in ks {
      var i :| 0 <= i < |ks| && ks[i] == k;
      assert gs[i].0 == k;
    }
  }

  /** No group yielded is empty. */
  lemma GroupsNonEmpty<T>(items: seq<T>, f: T -> seq<string>)
    ensures forall i :: 0 <= i < |Grouped(items, f)| ==> |Grouped(items, f)[i].1| > 0
  {
    var ks := GroupKeys(items, f);
    forall i | 0 <= i < |ks| ensures |Members(items, f, ks[i])| > 0 {
      MembersNonEmpty(items, f, ks[i]);
      HasKeyGroupKey(items, f, ks[i]);
    }
  }

  /** Each item is in the group of each key it has, as often as it is in
      the input, and in no other group. */
  lemma {:induction false} MembersCount<T>(items: seq<T>, f: T -> seq<string>, k: Key, x: T)
    ensures multiset(Members(items, f, k))[x] == if HasKey(f(x), k) then multiset(items)[x] else 0
  {
    if |items| > 0 {
      var init := items[..|items| - 1];
      assert items == init + [items[|items| - 1]];
      MembersCount(init, f, k, x);
    }
  }

  /** Within a group the items keep their input order: grouping two lists
      one after the other concatenates their groups. */
  lemma {:induction false} MembersConcat<T>(a: seq<T>, b: seq<T>, f: T -> seq<string>, k: Key)
    ensures Members(a + b, f, k) == Members(a, f, k) + Members(b, f, k)
  {
    if |b| > 0 {
      var init := b[..|b| - 1];
      MembersConcat(a, init, f, k);
      assert (a + b)[..|a + b| - 1] == a + init;
      assert (a + b)[|a + b| - 1] == b[|b| - 1];
    } else {
      assert a + b == a;
    }
  }

  /** The key functions of the generic groupings over abstract cards: card
      type, expansion, rarity, artist and keyword. */
  function CardTypeKeys(c: AbstractCard): seq<string> {
    c.cardTypes
  }

  function ExpansionKeys(c: AbstractCard): seq<string> {
    seq(|c.rarities|, i requires 0 <= i < |c.rarities| => c.rarities[i].expansion)
  }

  function RarityKeys(c: AbstractCard): seq<string> {
    seq(|c.rarities|, i requires 0 <= i < |c.rarities| => c.rarities[i].rarity)
  }

  function ArtistKeys(c: AbstractCard): seq<string> {
    c.artists
  }

  function KeywordKeys(c: AbstractCard): seq<string> {
    c.keywords
  }

  /** `NullGrouping`'s key function: the single key `All`. */
  function AllKey<T>(x: T): seq<string> {
    ["All"]
  }

  /** `NullGrouping` puts every item into the one group `All`, and yields
      nothing for no items. */
  lemma NullGroupingAll<T>(items: seq<T>)
    ensures Grouped(items, AllKey) == if |items| == 0 then [] else [(Some("All"), items)]
  {
    GroupKeysAll(items);
    if |items| > 0 {
      AllMembers(items);
    }
  }

  /** The one group key of `NullGrouping`. */
  lemma GroupKeysAll<T>(items: seq<T>)
    ensures GroupKeys(items, AllKey) == if |items| == 0 then [] else [Some("All")]
  {
    assert !Keyless(items, AllKey);
    if |items| == 0 {
      assert Flat(items, AllKey) == [];
    } else {
      AllKeysFlat(items);
      assert SortStrs(["All"]) == ["All"];
    }
  }

  lemma {:induction false} AllKeysFlat<T>(items: seq<T>)
    requires |items| > 0
    ensures Dedup(Flat(items, AllKey)) == ["All"]
  {
    var init := items[..|items| - 1];
    assert Flat(items, AllKey) == Flat(init, AllKey) + ["All"];
    DedupSnoc(Flat(init, AllKey), "All");
    if |init| > 0 {
      AllKeysFlat(init);
      assert "All" in Dedup(Flat(init, AllKey));
    } else {
      assert Flat(init, AllKey) == [];
    }
  }

  lemma {:induction false} AllMembers<T>(items: seq<T>)
    ensures Members(items, AllKey, Some("All")) == items
  {
    if |items| > 0 {
      var init := items[..|items| - 1];
      AllMembers(init);
      assert items == init + [items[|items| - 1]];
    }
  }
}
