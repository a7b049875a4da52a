/** The filter algebra: filters as predicates over abstract card records,
    the constructors that normalise the values a user picks, the lists of
    legal values, the card-function filter built out of other filters, and
    the best-guess name filter. */
module Filters {
  import opened Wrappers
  import opened PyStr
  import opened Cards
  import Objects

  /** What a filter constructor raises. */
  datatype FilterError =
    | NotAnInteger(value: string)   // int() raised ValueError
    | BadCostType(value: string)    // the cost-type assertion failed
    | BadLevel(level: string)       // the discipline-level assertion failed
    | UnknownDiscipline(name: string)  // the discipline lookup raised
    | EmptyList                     // the first element of an empty list was read

  /** A filter, as the state its constructor leaves behind. */
  datatype Filter =
    | NullFilter
    | AndBox(subs: seq<Filter>)
    | OrBox(subs: seq<Filter>)
    | NotFilter(sub: Filter)
    | GroupIs(group: Option<int>)
    | GroupIn(groups: seq<int>)
    | CapacityIs(capacity: Option<int>)
    | CapacityIn(capacities: seq<int>)
    | CostIs(cost: Option<int>)
    | CostIn(costs: seq<int>, zeroCost: bool)
    | CostTypeIs(costType: string)
    | CostTypeIn(costTypes: seq<Option<string>>)
    | LifeIs(life: Option<int>)
    | LifeIn(lives: seq<int>)
    | TextLike(pattern: string, braces: bool)
    | PairIdIn(pairIds: seq<nat>)
    | CardTypeIs(cardType: string)
    | KeywordIn(keywords: seq<string>)
    | NameLike(namePattern: string)

  /** SQL `col IN (...)`: a null column is in no list. */
  predicate ColumnIn<T(==)>(v: Option<T>, vs: seq<T>) {
    v.Some? && v.value in vs
  }

  /** Whether a card is selected by a filter. `col == None` is SQL's
      `IS NULL`; the boxes are conjunction, disjunction and negation; text
      searches are SQL LIKE on the lower-cased column. */
  predicate Matches(f: Filter, c: AbstractCard)
    decreases f
  {
    match f
    case NullFilter => true
    case AndBox(fs) => forall i :: 0 <= i < |fs| ==> Matches(fs[i], c)
    case OrBox(fs) => exists i :: 0 <= i < |fs| && Matches(fs[i], c)
    case NotFilter(g) => !Matches(g, c)
    case GroupIs(g) => c.group == g
    case GroupIn(gs) => ColumnIn(c.group, gs)
    case CapacityIs(v) => c.capacity == v
    case CapacityIn(vs) => ColumnIn(c.capacity, vs)
    case CostIs(v) => c.cost == v
    case CostIn(vs, zero) => ColumnIn(c.cost, vs) || (zero && c.cost.None?)
    case CostTypeIs(t) => c.costType == Some(t)
    case CostTypeIn(ts) => c.costType.Some? && c.costType in ts
    case LifeIs(v) => c.life == v
    case LifeIn(vs) => ColumnIn(c.life, vs)
    case TextLike(p, braces) => Like(Lower(if braces then c.text else c.searchText), "%" + p + "%")
    case PairIdIn(ids) => exists i :: 0 <= i < |c.disciplines| && c.disciplines[i].id in ids
    case CardTypeIs(t) => t in c.cardTypes
    case KeywordIn(ks) => exists i :: 0 <= i < |c.keywords| && c.keywords[i] in ks
    case NameLike(p) => Like(c.canonicalName, "%" + p + "%")
  }

  /** The positions of the catalogue's cards a filter selects. */
  function Select(cards: seq<AbstractCard>, f: Filter): (r: set<nat>)
    ensures forall i: nat :: i in r <==> i < |cards| && Matches(f, cards[i])
  {
    set i: nat | i < |cards| && Matches(f, cards[i])
  }

  /** An AND box selects the intersection, an OR box the union and a NOT
      the complement within the catalogue. */
  lemma {:induction false} SelectBoxes(cards: seq<AbstractCard>, a: Filter, b: Filter)
    ensures Select(cards, AndBox([a, b])) == Select(cards, a) * Select(cards, b)
    ensures Select(cards, OrBox([a, b])) == Select(cards, a) + Select(cards, b)
    ensures forall i: nat :: i in Select(cards, NotFilter(a)) <==> i < |cards| && i !in Select(cards, a)
  {
    forall i: nat | i < |cards|
      ensures Matches(AndBox([a, b]), cards[i]) <==> Matches(a, cards[i]) && Matches(b, cards[i])
      ensures Matches(OrBox([a, b]), cards[i]) <==> Matches(a, cards[i]) || Matches(b, cards[i])
    {
      var fs := [a, b];
      assert fs[0] == a && fs[1] == b;
      if Matches(a, cards[i]) || Matches(b, cards[i]) {
        var k := if Matches(a, cards[i]) then 0 else 1;
        assert Matches(fs[k], cards[i]);
      }
    }
  }

  // ---------------------------------------------------------------------
  // Integer lists and their parsing
  // ---------------------------------------------------------------------

  /** Whether a list comprehension's `if v != skip` leaves `v` out. */
  predicate Skipped(v: string, skip: Option<string>) {
    skip == Some(v)
  }

  /** `[int(v) for v in vals]`, or with `if v != skip` when a word is
      skipped: the first value `int()` rejects raises. */
  function ParseInts(vals: seq<string>, skip: Option<string>): Result<seq<int>, FilterError> {
    if |vals| == 0 then Ok([])
    else
      var rest := ParseInts(vals[1..], skip);
      if Skipped(vals[0], skip) then rest
      else match ParseInt(vals[0])
        case None => Err(NotAnInteger(vals[0]))
        case Some(v) =>
          match rest
          case Err(e) => Err(e)
          case Ok(vs) => Ok([v] + vs)
  }

  /** The parse fails exactly when a word that is not skipped is not an
      integer. */
  lemma {:induction false} ParseIntsFails(vals: seq<string>, skip: Option<string>)
    ensures ParseInts(vals, skip).Err? <==>
      exists i :: 0 <= i < |vals| && !Skipped(vals[i], skip) && ParseInt(vals[i]).None?
  {
    if |vals| > 0 {
      ParseIntsFails(vals[1..], skip);
      assert forall i :: 1 <= i < |vals| ==> vals[i] == vals[1..][i - 1];
    }
  }

  /** The parsed list holds exactly the values of the words kept. */
  lemma {:induction false} ParseIntsMembers(vals: seq<string>, skip: Option<string>, x: int)
    requires ParseInts(vals, skip).Ok?
    ensures x in ParseInts(vals, skip).value <==>
      exists i :: 0 <= i < |vals| && !Skipped(vals[i], skip) && ParseInt(vals[i]) == Some(x)
  {
    if |vals| > 0 {
      ParseIntsMembers(vals[1..], skip, x);
      assert forall i :: 1 <= i < |vals| ==> vals[i] == vals[1..][i - 1];
      if exists i :: 0 <= i < |vals| && !Skipped(vals[i], skip) && ParseInt(vals[i]) == Some(x) {
        var i :| 0 <= i < |vals| && !Skipped(vals[i], skip) && ParseInt(vals[i]) == Some(x);
        if i > 0 {
          assert vals[1..][i - 1] == vals[i];
        }
      }
    }
  }

  /** `list.remove(x)`: drop the first occurrence. */
  function RemoveFirst(s: seq<int>, x: int): (r: seq<int>)
    requires x in s
    ensures multiset(r) == multiset(s) - multiset{x}
  {
    if s[0] == x then
      assert s == [s[0]] + s[1..];
      s[1..]
    else
      assert s == [s[0]] + s[1..];
      [s[0]] + RemoveFirst(s[1..], x)
  }

  /** `range(lo, hi)`. */
  function Range(lo: int, hi: int): (r: seq<int>)
    ensures |r| == if lo < hi then hi - lo else 0
    ensures forall i :: 0 <= i < |r| ==> r[i] == lo + i
    decreases hi - lo
  {
    if lo >= hi then [] else [lo] + Range(lo + 1, hi)
  }

  /** Membership in a range. */
  lemma InRange(lo: int, hi: int, x: int)
    ensures x in Range(lo, hi) <==> lo <= x < hi
  {
    if lo <= x < hi {
      assert Range(lo, hi)[x - lo] == x;
    }
  }

  /** `[str(x) for x in xs]`. */
  function Strs(xs: seq<int>): (r: seq<string>)
    ensures |r| == |xs|
  {
    if |xs| == 0 then [] else [IntToStr(xs[0])] + Strs(xs[1..])
  }

  /** A word that is kept and parses puts its value in front. */
  lemma ParseIntsCons(v: string, rest: seq<string>, skip: Option<string>, x: int, ys: seq<int>)
    requires !Skipped(v, skip) && ParseInt(v) == Some(x)
    requires ParseInts(rest, skip) == Ok(ys)
    ensures ParseInts([v] + rest, skip) == Ok([x] + ys)
  {
    assert ([v] + rest)[0] == v && ([v] + rest)[1..] == rest;
  }

  /** The decimal texts of a list parse back to the list, whatever skipped
      word and well-formed tail follow. */
  lemma {:induction false} ParseStrs(xs: seq<int>, skip: Option<string>, tail: seq<string>)
    requires skip.Some? ==> |skip.value| > 0 && skip.value[0] != '-' && !IsDigit(skip.value[0])
    requires ParseInts(tail, skip) == Ok([])
    ensures ParseInts(Strs(xs) + tail, skip) == Ok(xs)
  {
    if |xs| == 0 {
      assert Strs(xs) + tail == tail;
    } else {
      ParseStrs(xs[1..], skip, tail);
      IntToStrParses(xs[0]);
      NumberNotSkipped(xs[0], skip);
      ParseStrsStep(xs[0], xs[1..], skip, tail);
      assert [xs[0]] + xs[1..] == xs;
    }
  }

  /** The first number's text in front of a list that parses. */
  lemma ParseStrsStep(x: int, ys: seq<int>, skip: Option<string>, tail: seq<string>)
    requires !Skipped(IntToStr(x), skip) && ParseInt(IntToStr(x)) == Some(x)
    requires ParseInts(Strs(ys) + tail, skip) == Ok(ys)
    ensures ParseInts(Strs([x] + ys) + tail, skip) == Ok([x] + ys)
  {
    assert ([x] + ys)[0] == x && ([x] + ys)[1..] == ys;
    assert Strs([x] + ys) + tail == [IntToStr(x)] + (Strs(ys) + tail);
    ParseIntsCons(IntToStr(x), Strs(ys) + tail, skip, x, ys);
  }

  /** A number's text is never the skipped word. */
  lemma NumberNotSkipped(x: int, skip: Option<string>)
    requires skip.Some? ==> |skip.value| > 0 && skip.value[0] != '-' && !IsDigit(skip.value[0])
    ensures !Skipped(IntToStr(x), skip)
  {
    IntToStrParses(x);
    if skip.Some? { assert IntToStr(x)[0] != skip.value[0]; }
  }

  /** A list holding only the skipped word parses to nothing. */
  lemma ParseSkipOnly(word: string)
    ensures ParseInts([word], Some(word)) == Ok([])
  {
    assert [word][1..] == [];
  }

  // ---------------------------------------------------------------------
  // Group filters
  // ---------------------------------------------------------------------

  /** `GroupFilter(g)`. */
  function GroupFilter(g: Option<int>): Filter {
    GroupIs(g)
  }

  /** `MultiGroupFilter(groups)`: the groups other than `Any` through int(),
      then -1 for `Any`. */
  function MultiGroupFilter(groups: seq<string>): Result<Filter, FilterError> {
    match ParseInts(groups, Some("Any"))
    case Err(e) => Err(e)
    case Ok(gs) => Ok(GroupIn(gs + (if "Any" in groups then [-1] else [])))
  }

  /** A multi-group filter selects exactly the cards whose group is one of
      the requested numbers, or -1 when `Any` was requested; a card without
      a group is never selected. */
  lemma MultiGroupMatches(groups: seq<string>, c: AbstractCard)
    requires MultiGroupFilter(groups).Ok?
    ensures Matches(MultiGroupFilter(groups).value, c) <==>
      c.group.Some? &&
      ((c.group.value == -1 && "Any" in groups) ||
       exists i :: 0 <= i < |groups| && groups[i] != "Any" && ParseInt(groups[i]) == c.group)
  {
    if c.group.Some? {
      ParseIntsMembers(groups, Some("Any"), c.group.value);
    }
  }

  /** `MultiGroupFilter.get_values`: 1 to the catalogue maximum, then `Any`. */
  function GroupValues(max: int): seq<string> {
    Strs(Range(1, max + 1)) + ["Any"]
  }

  /** Every legal group value is accepted, and the filter built from all of
      them selects every card of group 1 to the maximum or of any group. */
  lemma GroupValuesAccepted(max: int, c: AbstractCard)
    ensures MultiGroupFilter(GroupValues(max)).Ok?
    ensures Matches(MultiGroupFilter(GroupValues(max)).value, c) <==>
      c.group.Some? && (c.group.value == -1 || 1 <= c.group.value <= max)
  {
    var xs := Range(1, max + 1);
    ParseSkipOnly("Any");
    ParseStrs(xs, Some("Any"), ["Any"]);
    var vals := GroupValues(max);
    assert "Any" in vals by { assert vals[|vals| - 1] == "Any"; }
    assert MultiGroupFilter(vals) == Ok(GroupIn(xs + [-1]));
    if c.group.Some? {
      InRange(1, max + 1, c.group.value);
    }
  }

  // ---------------------------------------------------------------------
  // Capacity and life filters
  // ---------------------------------------------------------------------

  /** `CapacityFilter(v)`. */
  function CapacityFilter(v: Option<int>): Filter {
    CapacityIs(v)
  }

  /** `MultiCapacityFilter(caps)`: every value through int(). */
  function MultiCapacityFilter(caps: seq<string>): Result<Filter, FilterError> {
    match ParseInts(caps, None)
    case Err(e) => Err(e)
    case Ok(vs) => Ok(CapacityIn(vs))
  }

  /** `LifeFilter(v)`. */
  function LifeFilter(v: Option<int>): Filter {
    LifeIs(v)
  }

  /** `MultiLifeFilter(lives)`: every value through int(). */
  function MultiLifeFilter(lives: seq<string>): Result<Filter, FilterError> {
    match ParseInts(lives, None)
    case Err(e) => Err(e)
    case Ok(vs) => Ok(LifeIn(vs))
  }

  /** A multi-capacity (multi-life) filter selects exactly the cards whose
      value is one of the requested numbers. */
  lemma MultiCapacityLifeMatches(vals: seq<string>, c: AbstractCard)
    requires MultiCapacityFilter(vals).Ok?
    ensures Matches(MultiCapacityFilter(vals).value, c) <==>
      c.capacity.Some? && exists i :: 0 <= i < |vals| && ParseInt(vals[i]) == c.capacity
    ensures Matches(MultiLifeFilter(vals).value, c) <==>
      c.life.Some? && exists i :: 0 <= i < |vals| && ParseInt(vals[i]) == c.life
  {
    if c.capacity.Some? {
      ParseIntsMembers(vals, None, c.capacity.value);
    }
    if c.life.Some? {
      ParseIntsMembers(vals, None, c.life.value);
    }
  }

  /** `get_values` of the capacity and life filters: 1 to the maximum. */
  function OneToMaxValues(max: int): seq<string> {
    Strs(Range(1, max + 1))
  }

  /** Every legal capacity (life) value is accepted, and the filter built
      from all of them selects exactly the cards with a value from 1 to the
      maximum. */
  lemma OneToMaxParses(max: int)
    ensures ParseInts(OneToMaxValues(max), None) == Ok(Range(1, max + 1))
  {
    ParseStrs(Range(1, max + 1), None, []);
    assert OneToMaxValues(max) + [] == OneToMaxValues(max);
  }

  lemma OneToMaxAccepted(max: int, c: AbstractCard)
    ensures MultiCapacityFilter(OneToMaxValues(max)).Ok? && MultiLifeFilter(OneToMaxValues(max)).Ok?
    ensures Matches(MultiCapacityFilter(OneToMaxValues(max)).value, c) <==>
      c.capacity.Some? && 1 <= c.capacity.value <= max
    ensures Matches(MultiLifeFilter(OneToMaxValues(max)).value, c) <==>
      c.life.Some? && 1 <= c.life.value <= max
  {
    OneToMaxParses(max);
    if c.capacity.Some? {
      InRange(1, max + 1, c.capacity.value);
    }
    if c.life.Some? {
      InRange(1, max + 1, c.life.value);
    }
  }

  // ---------------------------------------------------------------------
  // Cost filters
  // ---------------------------------------------------------------------

  /** `CostFilter(v)`: a false value (0 or None) means "no cost". */
  function CostFilter(v: Option<int>): (f: Filter)
  {
    if v.None? || v.value == 0 then CostIs(None) else CostIs(v)
  }

  /** A cost filter for 0 (or None) selects exactly the cards with a null
      cost, never those of cost 0 or X; any other cost selects that cost. */
  lemma CostFilterMatches(v: Option<int>, c: AbstractCard)
    ensures v.None? || v.value == 0 ==> (Matches(CostFilter(v), c) <==> c.cost.None?)
    ensures v.Some? && v.value != 0 ==> (Matches(CostFilter(v), c) <==> c.cost == v)
  {
  }

  /** `MultiCostFilter(costs)` as a value: the costs other than `X` through
      int(), then -1 for `X`; a 0 is taken out (its first occurrence) and
      turned into the null-cost flag. */
  function MultiCostFilter(costs: seq<string>): Result<Filter, FilterError> {
    match ParseInts(costs, Some("X"))
    case Err(e) => Err(e)
    case Ok(vs) =>
      var all := vs + (if "X" in costs then [-1] else []);
      if 0 in all then Ok(CostIn(RemoveFirst(all, 0), true)) else Ok(CostIn(all, false))
  }

  /** `prefix + rest` for a parse that may have failed. */
  function Prefixed<T>(prefix: seq<T>, r: Result<seq<T>, FilterError>): Result<seq<T>, FilterError> {
    match r
    case Ok(vs) => Ok(prefix + vs)
    case Err(e) => Err(e)
  }

  /** The constructor, building the list step by step as the source does. */
  method NewMultiCostFilter(costs: seq<string>) returns (r: Result<Filter, FilterError>)
    ensures r == MultiCostFilter(costs)
  {
    var vs: seq<int> := [];
    var i := 0;
    assert costs[0..] == costs;
    assert forall t: Result<seq<int>, FilterError> :: Prefixed([], t) == t by {
      forall t: Result<seq<int>, FilterError> ensures Prefixed([], t) == t {
        if t.Ok? { assert [] + t.value == t.value; }
      }
    }
    while i < |costs|
      invariant 0 <= i <= |costs|
      invariant ParseInts(costs, Some("X")) == Prefixed(vs, ParseInts(costs[i..], Some("X")))
    {
      assert costs[i..][1..] == costs[i + 1..];
      ghost var rest := ParseInts(costs[i + 1..], Some("X"));
      if costs[i] != "X" {
        var v := ParseInt(costs[i]);
        if v.None? {
          return Err(NotAnInteger(costs[i]));
        }
        assert ParseInts(costs[i..], Some("X")) == Prefixed([v.value], rest);
        if rest.Ok? {
          assert vs + ([v.value] + rest.value) == (vs + [v.value]) + rest.value;
        }
        vs := vs + [v.value];
      }
      i := i + 1;
    }
    assert costs[i..] == [];
    assert vs + [] == vs;
    var zero := false;
    if "X" in costs {
      vs := vs + [-1];
    }
    if 0 in vs {
      zero := true;
      vs := RemoveFirst(vs, 0);
    }
    r := Ok(CostIn(vs, zero));
  }

  /** The multi-cost filter's list: the parsed costs and -1 for `X`, with
      0 turned into the null-cost flag. */
  lemma MultiCostShape(costs: seq<string>)
    requires MultiCostFilter(costs).Ok?
    ensures MultiCostFilter(costs).value.CostIn?
    ensures MultiCostFilter(costs).value.zeroCost <==> 0 in ParseInts(costs, Some("X")).value
    ensures forall x :: x != 0 ==>
      (x in MultiCostFilter(costs).value.costs <==>
       x in ParseInts(costs, Some("X")).value || (x == -1 && "X" in costs))
  {
    var vs := ParseInts(costs, Some("X")).value;
    var all := vs + (if "X" in costs then [-1] else []);
    if 0 in all {
      var rest := RemoveFirst(all, 0);
      forall x | x != 0
        ensures x in rest <==> x in all
      {
        assert x in multiset(rest) <==> x in multiset(all);
      }
    }
  }

  /** The multi-cost filter selects a null cost exactly when 0 was
      requested, X exactly when `X` (or -1) was requested, and any other
      non-zero cost exactly when it was requested. */
  lemma MultiCostMatches(costs: seq<string>, c: AbstractCard)
    requires MultiCostFilter(costs).Ok?
    ensures c.cost.None? ==> (Matches(MultiCostFilter(costs).value, c) <==>
      exists i :: 0 <= i < |costs| && costs[i] != "X" && ParseInt(costs[i]) == Some(0))
    ensures c.cost == Some(-1) ==> (Matches(MultiCostFilter(costs).value, c) <==>
      "X" in costs || exists i :: 0 <= i < |costs| && costs[i] != "X" && ParseInt(costs[i]) == Some(-1))
    ensures c.cost.Some? && c.cost.value != 0 && c.cost.value != -1 ==>
      (Matches(MultiCostFilter(costs).value, c) <==>
       exists i :: 0 <= i < |costs| && costs[i] != "X" && ParseInt(costs[i]) == c.cost)
  {
    MultiCostShape(costs);
    if c.cost.None? {
      ParseIntsMembers(costs, Some("X"), 0);
    } else if c.cost.value != 0 {
      ParseIntsMembers(costs, Some("X"), c.cost.value);
    }
  }

  /** `MultiCostFilter.get_values`: 0 to the maximum, then `X`. */
  function CostValues(max: int): seq<string> {
    Strs(Range(0, max + 1)) + ["X"]
  }

  /** Every legal cost value is accepted, and the filter built from all of
      them selects the cards with no cost, cost X, or a cost from 1 to the
      maximum. */
  lemma CostValuesFilter(max: int)
    requires max >= 0
    ensures MultiCostFilter(CostValues(max)) == Ok(CostIn(Range(1, max + 1) + [-1], true))
  {
    var xs := Range(0, max + 1);
    ParseSkipOnly("X");
    ParseStrs(xs, Some("X"), ["X"]);
    var vals := CostValues(max);
    assert "X" in vals by { assert vals[|vals| - 1] == "X"; }
    var all := xs + [-1];
    assert all == [0] + (Range(1, max + 1) + [-1]);
    assert RemoveFirst(all, 0) == Range(1, max + 1) + [-1];
  }

  lemma CostValuesAccepted(max: int, c: AbstractCard)
    requires max >= 0
    ensures MultiCostFilter(CostValues(max)).Ok?
    ensures Matches(MultiCostFilter(CostValues(max)).value, c) <==>
      c.cost.None? || c.cost == Some(-1) || (c.cost.Some? && 1 <= c.cost.value <= max)
  {
    CostValuesFilter(max);
    CostRangeMatches(max, c);
  }

  /** The filter on the costs from 1 to the maximum and X, with the cards
      of no cost. */
  lemma CostRangeMatches(max: int, c: AbstractCard)
    ensures Matches(CostIn(Range(1, max + 1) + [-1], true), c) <==>
      c.cost.None? || c.cost == Some(-1) || (c.cost.Some? && 1 <= c.cost.value <= max)
  {
    var f := CostIn(Range(1, max + 1) + [-1], true);
    assert Matches(f, c) <==> ColumnIn(c.cost, f.costs) || c.cost.None?;
    if c.cost.Some? {
      InRange(1, max + 1, c.cost.value);
      assert c.cost.value in f.costs <==> c.cost.value in Range(1, max + 1) || c.cost.value == -1;
    }
  }

  // ---------------------------------------------------------------------
  // Cost-type filters
  // ---------------------------------------------------------------------

  /** The cost types a card can have. */
  const CostTypes: seq<string> := ["blood", "pool", "conviction"]

  /** `CostTypeFilter(t)`: the lower-cased type, which must be a known one. */
  function CostTypeFilter(t: string): Result<Filter, FilterError> {
    var l := Lower(t);
    if l in CostTypes then Ok(CostTypeIs(l)) else Err(BadCostType(l))
  }

  /** A cost-type filter is accepted exactly for the known types in any
      case, and selects the cards whose cost type is the lower-cased one. */
  lemma CostTypeFilterMatches(t: string, c: AbstractCard)
    ensures CostTypeFilter(t).Ok? <==> Lower(t) in CostTypes
    ensures CostTypeFilter(t).Ok? ==> (Matches(CostTypeFilter(t).value, c) <==> c.costType == Some(Lower(t)))
    ensures CostTypeFilter(t) == CostTypeFilter(Lower(t))
  {
    LowerIdempotent(t);
  }

  /** `[x.lower() for x in types if x is not None]`. */
  function LowerSome(types: seq<Option<string>>): (r: seq<string>)
    ensures forall v :: v in r <==> exists i :: 0 <= i < |types| && types[i].Some? && Lower(types[i].value) == v
  {
    if |types| == 0 then []
    else
      var rest := LowerSome(types[1..]);
      assert forall i :: 1 <= i < |types| ==> types[i] == types[1..][i - 1];
      if types[0].Some? then [Lower(types[0].value)] + rest else rest
  }

  /** The first listed type that is not a known cost type. */
  function FirstUnknown(types: seq<string>): (r: Option<string>)
    ensures r.None? <==> forall i :: 0 <= i < |types| ==> types[i] in CostTypes
    ensures r.Some? ==> r.value in types && r.value !in CostTypes
  {
    if |types| == 0 then None
    else if types[0] !in CostTypes then Some(types[0])
    else
      var r := FirstUnknown(types[1..]);
      assert forall i :: 1 <= i < |types| ==> types[i] == types[1..][i - 1];
      r
  }

  /** `[Some(x) for x in xs]`. */
  function Somes(xs: seq<string>): (r: seq<Option<string>>)
    ensures |r| == |xs| && forall i :: 0 <= i < |xs| ==> r[i] == Some(xs[i])
  {
    if |xs| == 0 then [] else [Some(xs[0])] + Somes(xs[1..])
  }

  /** `MultiCostTypeFilter(types)`: the given types lower-cased, each of
      which must be known, then `None` again when it was given. */
  function MultiCostTypeFilter(types: seq<Option<string>>): Result<Filter, FilterError> {
    var ls := LowerSome(types);
    match FirstUnknown(ls)
    case Some(bad) => Err(BadCostType(bad))
    case None => Ok(CostTypeIn(Somes(ls) + (if None in types then [None] else [])))
  }

  /** The multi-cost-type filter is accepted exactly when every given type
      is known in some case; it keeps `None` in its list exactly when `None`
      was given, but, as SQL `IN` never matches a null, it selects exactly
      the cards whose cost type is one of the given ones lower-cased. */
  lemma MultiCostTypeMatches(types: seq<Option<string>>, c: AbstractCard)
    ensures MultiCostTypeFilter(types).Ok? <==>
      forall i :: 0 <= i < |types| && types[i].Some? ==> Lower(types[i].value) in CostTypes
    ensures MultiCostTypeFilter(types).Ok? ==>
      (None in MultiCostTypeFilter(types).value.costTypes <==> None in types)
    ensures MultiCostTypeFilter(types).Ok? ==>
      (Matches(MultiCostTypeFilter(types).value, c) <==>
       exists i :: 0 <= i < |types| && types[i].Some? && c.costType == Some(Lower(types[i].value)))
  {
    var ls := LowerSome(types);
    if FirstUnknown(ls).None? {
      var all := Somes(ls) + (if None in types then [None] else []);
      assert None in all <==> None in types;
      forall i | 0 <= i < |types| && types[i].Some?
        ensures Lower(types[i].value) in CostTypes
      {
        assert Lower(types[i].value) in ls;
      }
      if c.costType.Some? {
        assert c.costType in all <==> c.costType.value in ls;
      }
    } else {
      var bad := FirstUnknown(ls).value;
      var i :| 0 <= i < |types| && types[i].Some? && Lower(types[i].value) == bad;
    }
  }

  /** `MultiCostTypeFilter.get_values`. */
  function CostTypeValues(): seq<Option<string>> {
    Somes(CostTypes)
  }

  /** Every listed cost type is accepted, and the filter built from all of
      them selects exactly the cards that have a cost type. */
  lemma CostTypeValuesAccepted(c: AbstractCard)
    requires c.costType.Some? ==> c.costType.value in CostTypes
    ensures MultiCostTypeFilter(CostTypeValues()).Ok?
    ensures Matches(MultiCostTypeFilter(CostTypeValues()).value, c) <==> c.costType.Some?
  {
    var vs := CostTypeValues();
    assert vs == [Some("blood"), Some("pool"), Some("conviction")];
    assert Lower("blood") == "blood" && Lower("pool") == "pool" && Lower("conviction") == "conviction";
    MultiCostTypeMatches(vs, c);
    if c.costType.Some? {
      var k := if c.costType.value == "blood" then 0 else if c.costType.value == "pool" then 1 else 2;
      assert vs[k] == c.costType;
    }
  }

  // ---------------------------------------------------------------------
  // Card-text filter
  // ---------------------------------------------------------------------

  /** `CardTextFilter(p)`: the lower-cased pattern, searched in the raw
      text when it holds a brace and in the search text otherwise. */
  function CardTextFilter(p: string): Filter {
    var l := Lower(p);
    TextLike(l, '{' in l || '}' in l)
  }

  /** Lower-casing keeps the braces. */
  lemma LowerKeepsBraces(p: string)
    ensures ('{' in Lower(p) || '}' in Lower(p)) <==> ('{' in p || '}' in p)
  {
    if '{' in p || '}' in p {
      var i :| 0 <= i < |p| && (p[i] == '{' || p[i] == '}');
      assert Lower(p)[i] == p[i];
    }
  }

  /** A card-text filter with a pattern free of wildcards selects exactly
      the cards whose lower-cased raw text (when the pattern holds a brace)
      or lower-cased search text (otherwise) contains the lower-cased
      pattern. */
  lemma CardTextMatches(p: string, c: AbstractCard)
    requires Literal(p)
    ensures Matches(CardTextFilter(p), c) <==>
      Occurs(Lower(p), Lower(if '{' in p || '}' in p then c.text else c.searchText))
  {
    LowerKeepsBraces(p);
    var l := Lower(p);
    assert Literal(l) by {
      forall i | 0 <= i < |l| ensures l[i] != '%' && l[i] != '_' {
        assert l[i] == LowerChar(p[i]);
      }
    }
    LikeContains(Lower(if '{' in p || '}' in p then c.text else c.searchText), l);
  }

  // ---------------------------------------------------------------------
  // Discipline filters
  // ---------------------------------------------------------------------

  /** The levels a discipline can be held at. */
  const Levels: seq<string> := ["inferior", "superior"]

  /** Pair `p` is of discipline `d`, at `level` when one is given. */
  predicate PairOf(p: DisciplinePair, d: Discipline, level: Option<string>) {
    p.discipline == d && (level.None? || p.level == level.value)
  }

  /** `[oP.id for oP in d.pairs if oP.level == level]`, over the catalogue's
      pairs in their order. */
  function PairIdsOf(pairs: seq<DisciplinePair>, d: Discipline, level: Option<string>): (r: seq<nat>)
    ensures forall x :: x in r <==> exists k :: 0 <= k < |pairs| && pairs[k].id == x && PairOf(pairs[k], d, level)
  {
    if |pairs| == 0 then []
    else
      var rest := PairIdsOf(pairs[1..], d, level);
      assert forall k :: 1 <= k < |pairs| ==> pairs[k] == pairs[1..][k - 1];
      if PairOf(pairs[0], d, level) then [pairs[0].id] + rest else rest
  }

  /** The ids one requested discipline contributes: the level, when one is
      given, is lower-cased and must be a known one (checked first), then
      the discipline is looked up by name. */
  function DisciplineIds(cat: Catalogue, name: string, level: Option<string>): Result<seq<nat>, FilterError> {
    var l := if level.Some? then Some(Lower(level.value)) else None;
    if l.Some? && l.value !in Levels then Err(BadLevel(l.value))
    else match Objects.FindDiscipline(cat.disciplines, name)
      case None => Err(UnknownDiscipline(name))
      case Some(d) => Ok(PairIdsOf(cat.pairs, d, l))
  }

  /** `ids + rest` for two lists either of which may have failed, the first
      failure winning. */
  function Concat(first: Result<seq<nat>, FilterError>, rest: Result<seq<nat>, FilterError>): Result<seq<nat>, FilterError> {
    match first
    case Err(e) => Err(e)
    case Ok(ids) => Prefixed(ids, rest)
  }

  /** `DisciplineFilter(name)`. */
  function DisciplineFilter(cat: Catalogue, name: string): Result<Filter, FilterError> {
    match DisciplineIds(cat, name, None)
    case Err(e) => Err(e)
    case Ok(ids) => Ok(PairIdIn(ids))
  }

  /** `DisciplineLevelFilter((name, level))`. */
  function DisciplineLevelFilter(cat: Catalogue, name: string, level: string): Result<Filter, FilterError> {
    match DisciplineIds(cat, name, Some(level))
    case Err(e) => Err(e)
    case Ok(ids) => Ok(PairIdIn(ids))
  }

  /** The ids of a list of disciplines, in order. */
  function MultiDisciplineIds(cat: Catalogue, names: seq<string>): Result<seq<nat>, FilterError> {
    if |names| == 0 then Ok([])
    else Concat(DisciplineIds(cat, names[0], None), MultiDisciplineIds(cat, names[1..]))
  }

  /** `MultiDisciplineFilter(names)` as a value. */
  function MultiDisciplineFilter(cat: Catalogue, names: seq<string>): Result<Filter, FilterError> {
    match MultiDisciplineIds(cat, names)
    case Err(e) => Err(e)
    case Ok(ids) => Ok(PairIdIn(ids))
  }

  /** The ids of a list of (discipline, level) requests, in order. */
  function MultiLevelIds(cat: Catalogue, items: seq<(string, string)>): Result<seq<nat>, FilterError> {
    if |items| == 0 then Ok([])
    else Concat(DisciplineIds(cat, items[0].0, Some(items[0].1)), MultiLevelIds(cat, items[1..]))
  }

  /** `MultiDisciplineLevelFilter(items)` as a value, for a list of
      (discipline, level) pairs: its first element is read, so an empty list
      fails. */
  function MultiDisciplineLevelFilter(cat: Catalogue, items: seq<(string, string)>): Result<Filter, FilterError> {
    if |items| == 0 then Err(EmptyList)
    else match MultiLevelIds(cat, items)
      case Err(e) => Err(e)
      case Ok(ids) => Ok(PairIdIn(ids))
  }

  /** `Prefixed(a, Concat(f, r)) == Concat(Prefixed(a, f), r)`. */
  lemma PrefixedConcat(a: seq<nat>, f: Result<seq<nat>, FilterError>, r: Result<seq<nat>, FilterError>)
    ensures Prefixed(a, Concat(f, r)) == Concat(Prefixed(a, f), r)
  {
    if f.Ok? && r.Ok? {
      assert a + (f.value + r.value) == (a + f.value) + r.value;
    }
  }

  /** An empty prefix changes nothing. */
  lemma PrefixedEmpty(r: Result<seq<nat>, FilterError>)
    ensures Prefixed([], r) == r
  {
    if r.Ok? { assert [] + r.value == r.value; }
  }

  /** The constructor, extending the id list one discipline at a time as the
      source does. */
  method NewMultiDisciplineFilter(cat: Catalogue, names: seq<string>) returns (r: Result<Filter, FilterError>)
    ensures r == MultiDisciplineFilter(cat, names)
  {
    var ids: seq<nat> := [];
    var i := 0;
    assert names[0..] == names;
    PrefixedEmpty(MultiDisciplineIds(cat, names));
    while i < |names|
      invariant 0 <= i <= |names|
      invariant MultiDisciplineIds(cat, names) == Prefixed(ids, MultiDisciplineIds(cat, names[i..]))
    {
      assert names[i..][1..] == names[i + 1..];
      PrefixedConcat(ids, DisciplineIds(cat, names[i], None), MultiDisciplineIds(cat, names[i + 1..]));
      var step := DisciplineIds(cat, names[i], None);
      if step.Err? {
        return Err(step.error);
      }
      ids := ids + step.value;
      i := i + 1;
    }
    assert names[i..] == [];
    assert ids + [] == ids;
    r := Ok(PairIdIn(ids));
  }

  /** The constructor for (discipline, level) pairs, extending the id list
      one request at a time as the source does. */
  method NewMultiDisciplineLevelFilter(cat: Catalogue, items: seq<(string, string)>) returns (r: Result<Filter, FilterError>)
    ensures r == MultiDisciplineLevelFilter(cat, items)
  {
    if |items| == 0 {
      return Err(EmptyList);
    }
    var ids: seq<nat> := [];
    var i := 0;
    assert items[0..] == items;
    PrefixedEmpty(MultiLevelIds(cat, items));
    while i < |items|
      invariant 0 <= i <= |items|
      invariant MultiLevelIds(cat, items) == Prefixed(ids, MultiLevelIds(cat, items[i..]))
    {
      assert items[i..][1..] == items[i + 1..];
      var (name, level) := items[i];
      PrefixedConcat(ids, DisciplineIds(cat, name, Some(level)), MultiLevelIds(cat, items[i + 1..]));
      var step := DisciplineIds(cat, name, Some(level));
      if step.Err? {
        return Err(step.error);
      }
      ids := ids + step.value;
      i := i + 1;
    }
    assert items[i..] == [];
    assert ids + [] == ids;
    r := Ok(PairIdIn(ids));
  }

  /** What the discipline filters read from the catalogue: every pair a card
      has is one of the catalogue's, and pair ids are unique. */
  predicate PairsKnown(cat: Catalogue, c: AbstractCard) {
    && (forall j :: 0 <= j < |c.disciplines| ==> c.disciplines[j] in cat.pairs)
    && (forall i, k :: 0 <= i < |cat.pairs| && 0 <= k < |cat.pairs| && cat.pairs[i].id == cat.pairs[k].id ==> i == k)
  }

  /** A pair-id filter built from the catalogue's pairs of `d` selects
      exactly the cards holding a pair of `d` (at `level`). */
  lemma PairIdsMatch(cat: Catalogue, c: AbstractCard, d: Discipline, level: Option<string>)
    requires PairsKnown(cat, c)
    ensures Matches(PairIdIn(PairIdsOf(cat.pairs, d, level)), c) <==>
      exists j :: 0 <= j < |c.disciplines| && PairOf(c.disciplines[j], d, level)
  {
    forall j | 0 <= j < |c.disciplines|
      ensures c.disciplines[j].id in PairIdsOf(cat.pairs, d, level) <==> PairOf(c.disciplines[j], d, level)
    {
      PairIdUnique(cat, c, j, d, level);
    }
  }

  /** A discipline filter is accepted exactly for a known discipline, and
      selects the cards that hold that discipline at any level. */
  lemma DisciplineMatches(cat: Catalogue, name: string, c: AbstractCard)
    requires PairsKnown(cat, c)
    ensures DisciplineFilter(cat, name).Ok? <==> Objects.FindDiscipline(cat.disciplines, name).Some?
    ensures DisciplineFilter(cat, name).Ok? ==>
      (Matches(DisciplineFilter(cat, name).value, c) <==>
       exists j :: 0 <= j < |c.disciplines| &&
         Some(c.disciplines[j].discipline) == Objects.FindDiscipline(cat.disciplines, name))
  {
    var d := Objects.FindDiscipline(cat.disciplines, name);
    if d.Some? {
      PairIdsMatch(cat, c, d.value, None);
    }
  }

  /** A discipline-level filter fails on an unknown level before it looks
      the discipline up; otherwise it selects the cards holding the
      discipline at the lower-cased level. */
  lemma DisciplineLevelMatches(cat: Catalogue, name: string, level: string, c: AbstractCard)
    requires PairsKnown(cat, c)
    ensures Lower(level) !in Levels ==> DisciplineLevelFilter(cat, name, level) == Err(BadLevel(Lower(level)))
    ensures Lower(level) in Levels && Objects.FindDiscipline(cat.disciplines, name).None? ==>
      DisciplineLevelFilter(cat, name, level) == Err(UnknownDiscipline(name))
    ensures DisciplineLevelFilter(cat, name, level).Ok? ==>
      (Matches(DisciplineLevelFilter(cat, name, level).value, c) <==>
       exists j :: 0 <= j < |c.disciplines| &&
         Some(c.disciplines[j].discipline) == Objects.FindDiscipline(cat.disciplines, name) &&
         c.disciplines[j].level == Lower(level))
  {
    var d := Objects.FindDiscipline(cat.disciplines, name);
    if d.Some? && Lower(level) in Levels {
      PairIdsMatch(cat, c, d.value, Some(Lower(level)));
    }
  }

  /** The ids of a successful multi-discipline request are those of its
      disciplines. */
  lemma {:induction false} MultiDisciplineIdsMembers(cat: Catalogue, names: seq<string>, x: nat)
    requires MultiDisciplineIds(cat, names).Ok?
    ensures forall i :: 0 <= i < |names| ==> DisciplineIds(cat, names[i], None).Ok?
    ensures x in MultiDisciplineIds(cat, names).value <==>
      exists i :: 0 <= i < |names| && x in DisciplineIds(cat, names[i], None).value
  {
    if |names| > 0 {
      MultiDisciplineIdsMembers(cat, names[1..], x);
      assert forall i :: 1 <= i < |names| ==> names[i] == names[1..][i - 1];
      if exists i :: 0 <= i < |names| && x in DisciplineIds(cat, names[i], None).value {
        var i :| 0 <= i < |names| && x in DisciplineIds(cat, names[i], None).value;
        if i > 0 { assert names[1..][i - 1] == names[i]; }
      }
    }
  }

  /** A multi-discipline filter is accepted exactly when every discipline is
      known, and selects the cards holding at least one of them. */
  lemma MultiDisciplineMatches(cat: Catalogue, names: seq<string>, c: AbstractCard)
    requires PairsKnown(cat, c)
    ensures MultiDisciplineFilter(cat, names).Ok? <==>
      forall i :: 0 <= i < |names| ==> Objects.FindDiscipline(cat.disciplines, names[i]).Some?
    ensures MultiDisciplineFilter(cat, names).Ok? ==>
      (Matches(MultiDisciplineFilter(cat, names).value, c) <==>
       exists j, i :: 0 <= j < |c.disciplines| && 0 <= i < |names| &&
         Some(c.disciplines[j].discipline) == Objects.FindDiscipline(cat.disciplines, names[i]))
  {
    MultiDisciplineOk(cat, names);
    if MultiDisciplineIds(cat, names).Ok? {
      var ids := MultiDisciplineIds(cat, names).value;
      forall j | 0 <= j < |c.disciplines|
        ensures c.disciplines[j].id in ids <==>
          exists i :: 0 <= i < |names| && Some(c.disciplines[j].discipline) == Objects.FindDiscipline(cat.disciplines, names[i])
      {
        MultiDisciplineIdsMembers(cat, names, c.disciplines[j].id);
        forall i | 0 <= i < |names|
          ensures c.disciplines[j].id in DisciplineIds(cat, names[i], None).value <==>
            Some(c.disciplines[j].discipline) == Objects.FindDiscipline(cat.disciplines, names[i])
        {
          var d := Objects.FindDiscipline(cat.disciplines, names[i]).value;
          PairIdUnique(cat, c, j, d, None);
        }
      }
    }
  }

  /** A known card pair's id is among a discipline's ids exactly when the
      pair is of that discipline. */
  lemma PairIdUnique(cat: Catalogue, c: AbstractCard, j: nat, d: Discipline, level: Option<string>)
    requires PairsKnown(cat, c) && j < |c.disciplines|
    ensures c.disciplines[j].id in PairIdsOf(cat.pairs, d, level) <==> PairOf(c.disciplines[j], d, level)
  {
    var p := c.disciplines[j];
    var k :| 0 <= k < |cat.pairs| && cat.pairs[k] == p;
    if p.id in PairIdsOf(cat.pairs, d, level) {
      var k' :| 0 <= k' < |cat.pairs| && cat.pairs[k'].id == p.id && PairOf(cat.pairs[k'], d, level);
      assert k' == k;
    }
  }

  /** A multi-discipline request succeeds exactly when every name is a
      known discipline. */
  lemma {:induction false} MultiDisciplineOk(cat: Catalogue, names: seq<string>)
    ensures MultiDisciplineIds(cat, names).Ok? <==>
      forall i :: 0 <= i < |names| ==> Objects.FindDiscipline(cat.disciplines, names[i]).Some?
  {
    if |names| > 0 {
      MultiDisciplineOk(cat, names[1..]);
      assert forall i :: 1 <= i < |names| ==> names[i] == names[1..][i - 1];
    }
  }

  /** A request of a discipline at a level is well formed: the lower-cased
      level is a known one and the discipline is known. */
  predicate LevelRequestKnown(cat: Catalogue, item: (string, string)) {
    Lower(item.1) in Levels && Objects.FindDiscipline(cat.disciplines, item.0).Some?
  }

  /** A multi-discipline-level request succeeds exactly when every request
      in it is well formed. */
  lemma {:induction false} MultiLevelOk(cat: Catalogue, items: seq<(string, string)>)
    ensures MultiLevelIds(cat, items).Ok? <==> forall i :: 0 <= i < |items| ==> LevelRequestKnown(cat, items[i])
  {
    if |items| > 0 {
      MultiLevelOk(cat, items[1..]);
      assert forall i :: 1 <= i < |items| ==> items[i] == items[1..][i - 1];
    }
  }

  /** The ids of a successful multi-discipline-level request are those of
      its requests. */
  lemma {:induction false} MultiLevelIdsMembers(cat: Catalogue, items: seq<(string, string)>, x: nat)
    requires MultiLevelIds(cat, items).Ok?
    ensures x in MultiLevelIds(cat, items).value <==>
      exists i :: 0 <= i < |items| && DisciplineIds(cat, items[i].0, Some(items[i].1)).Ok?
                  && x in DisciplineIds(cat, items[i].0, Some(items[i].1)).value
  {
    if |items| > 0 {
      var rest := items[1..];
      ConcatMember(DisciplineIds(cat, items[0].0, Some(items[0].1)), MultiLevelIds(cat, rest), x);
      MultiLevelIdsMembers(cat, rest, x);
      if exists i :: 0 <= i < |items| && DisciplineIds(cat, items[i].0, Some(items[i].1)).Ok?
                     && x in DisciplineIds(cat, items[i].0, Some(items[i].1)).value {
        var i :| 0 <= i < |items| && DisciplineIds(cat, items[i].0, Some(items[i].1)).Ok?
                 && x in DisciplineIds(cat, items[i].0, Some(items[i].1)).value;
        if i > 0 { assert rest[i - 1] == items[i]; }
      }
      if x in MultiLevelIds(cat, rest).value {
        var i :| 0 <= i < |rest| && DisciplineIds(cat, rest[i].0, Some(rest[i].1)).Ok?
                 && x in DisciplineIds(cat, rest[i].0, Some(rest[i].1)).value;
        assert items[i + 1] == rest[i];
      }
    }
  }

  /** Two id lists joined hold the ids of either. */
  lemma ConcatMember(f: Result<seq<nat>, FilterError>, r: Result<seq<nat>, FilterError>, x: nat)
    requires Concat(f, r).Ok?
    ensures f.Ok? && r.Ok? && (x in Concat(f, r).value <==> x in f.value || x in r.value)
  {
  }

  /** A multi-discipline-level filter is accepted exactly when the list is
      not empty and every request names a known discipline at a known
      level, and it selects the cards holding at least one requested
      discipline at its requested, lower-cased level. */
  lemma MultiDisciplineLevelMatches(cat: Catalogue, items: seq<(string, string)>, c: AbstractCard)
    requires PairsKnown(cat, c)
    ensures MultiDisciplineLevelFilter(cat, items).Ok? <==>
      |items| > 0 && forall i :: 0 <= i < |items| ==> LevelRequestKnown(cat, items[i])
    ensures MultiDisciplineLevelFilter(cat, items).Ok? ==>
      (Matches(MultiDisciplineLevelFilter(cat, items).value, c) <==>
       exists j, i :: 0 <= j < |c.disciplines| && 0 <= i < |items| &&
         Some(c.disciplines[j].discipline) == Objects.FindDiscipline(cat.disciplines, items[i].0) &&
         c.disciplines[j].level == Lower(items[i].1))
  {
    MultiLevelOk(cat, items);
    if |items| > 0 && MultiLevelIds(cat, items).Ok? {
      var ids := MultiLevelIds(cat, items).value;
      forall j | 0 <= j < |c.disciplines|
        ensures c.disciplines[j].id in ids <==>
          exists i :: 0 <= i < |items| && Some(c.disciplines[j].discipline) == Objects.FindDiscipline(cat.disciplines, items[i].0)
                      && c.disciplines[j].level == Lower(items[i].1)
      {
        MultiLevelIdsMembers(cat, items, c.disciplines[j].id);
        forall i | 0 <= i < |items|
          ensures c.disciplines[j].id in DisciplineIds(cat, items[i].0, Some(items[i].1)).value <==>
            Some(c.disciplines[j].discipline) == Objects.FindDiscipline(cat.disciplines, items[i].0)
            && c.disciplines[j].level == Lower(items[i].1)
        {
          var d := Objects.FindDiscipline(cat.disciplines, items[i].0).value;
          PairIdUnique(cat, c, j, d, Some(Lower(items[i].1)));
        }
      }
    }
  }

  // ---------------------------------------------------------------------
  // Card-function filter
  // ---------------------------------------------------------------------

  /** The card functions, in the order the constructor tests them. */
  const FunctionNames: seq<string> := [
    "Stealth action modifiers",
    "Intercept reactions",
    "Untap reactions (Wake)",
    "Bleed redirection reactions (Bounce)",
    "Enter combat actions (Rush)",
    "Increased bleed action modifiers",
    "Increased bleed actions",
    "Bleed reduction reactions"]

  /** The filter that finds the cards of each function, in the same order. */
  const FunctionBoxList: seq<Filter> := [
    AndBox([CardTypeIs("Action Modifier"), CardTextFilter("+_ stealth")]),
    AndBox([CardTypeIs("Reaction"), CardTextFilter("+_ intercept")]),
    AndBox([CardTypeIs("Reaction"), OrBox([
      CardTextFilter("this vampire untaps"),
      CardTextFilter("this reacting vampire untaps"),
      CardTextFilter("untap this vampire"),
      CardTextFilter("untap this reacting vampire"),
      CardTextFilter("as though untapped")])]),
    AndBox([CardTypeIs("Reaction"), CardTextFilter("is now bleeding")]),
    AndBox([CardTypeIs("Action"), CardTextFilter("(D) Enter combat")]),
    AndBox([CardTypeIs("Action Modifier"), CardTextFilter("+_ bleed")]),
    AndBox([CardTypeIs("Action"), OrBox([
      CardTextFilter("(D) bleed%at +_ bleed"),
      CardTextFilter("(D) bleed%with +_ bleed")])]),
    AndBox([CardTypeIs("Reaction"), CardTextFilter("bleed"), CardTextFilter("reduce")])]

  /** The boxes whose names are requested, from the `k`-th on, in order. */
  function Chosen(types: seq<string>, names: seq<string>, boxes: seq<Filter>, k: nat): seq<Filter>
    requires |names| == |boxes| && k <= |names|
    decreases |names| - k
  {
    if k == |names| then []
    else (if names[k] in types then [boxes[k]] else []) + Chosen(types, names, boxes, k + 1)
  }

  /** `CardFunctionFilter(types)`: the OR of one box per requested function. */
  function CardFunctionFilter(types: seq<string>): Filter {
    OrBox(Chosen(types, FunctionNames, FunctionBoxList, 0))
  }

  /** An OR box over two lists is the disjunction of the two. */
  lemma OrBoxConcat(a: seq<Filter>, b: seq<Filter>, c: AbstractCard)
    ensures Matches(OrBox(a + b), c) <==> Matches(OrBox(a), c) || Matches(OrBox(b), c)
  {
    var fs := a + b;
    assert forall i :: 0 <= i < |a| ==> fs[i] == a[i];
    assert forall i :: 0 <= i < |b| ==> fs[|a| + i] == b[i];
    if Matches(OrBox(b), c) {
      var i :| 0 <= i < |b| && Matches(b[i], c);
      assert Matches(fs[|a| + i], c);
    }
    if Matches(OrBox(fs), c) {
      var i :| 0 <= i < |fs| && Matches(fs[i], c);
      if i >= |a| {
        assert Matches(b[i - |a|], c);
      }
    }
  }

  lemma {:induction false} ChosenMatch(types: seq<string>, names: seq<string>, boxes: seq<Filter>, k: nat, c: AbstractCard)
    requires |names| == |boxes| && k <= |names|
    ensures Matches(OrBox(Chosen(types, names, boxes, k)), c) <==>
      exists m :: k <= m < |names| && names[m] in types && Matches(boxes[m], c)
    decreases |names| - k
  {
    if k < |names| {
      ChosenMatch(types, names, boxes, k + 1, c);
      var head := if names[k] in types then [boxes[k]] else [];
      OrBoxConcat(head, Chosen(types, names, boxes, k + 1), c);
      if names[k] in types {
        assert Matches(OrBox(head), c) <==> Matches(boxes[k], c) by {
          assert head[0] == boxes[k];
        }
      }
    }
  }

  /** A card-function filter selects exactly the cards that one of the
      requested functions' boxes selects. */
  lemma CardFunctionMatches(types: seq<string>, c: AbstractCard)
    ensures Matches(CardFunctionFilter(types), c) <==>
      exists m :: 0 <= m < |FunctionNames| && FunctionNames[m] in types && Matches(FunctionBoxList[m], c)
  {
    ChosenMatch(types, FunctionNames, FunctionBoxList, 0, c);
  }

  lemma {:induction false} ChosenKnownOnly(a: seq<string>, b: seq<string>, names: seq<string>, boxes: seq<Filter>, k: nat)
    requires |names| == |boxes| && k <= |names|
    requires forall m :: 0 <= m < |names| ==> (names[m] in a <==> names[m] in b)
    ensures Chosen(a, names, boxes, k) == Chosen(b, names, boxes, k)
    decreases |names| - k
  {
    if k < |names| {
      ChosenKnownOnly(a, b, names, boxes, k + 1);
    }
  }

  /** The filter depends only on which known functions are requested:
      unknown names, repeats and order add nothing. */
  lemma CardFunctionKnownOnly(a: seq<string>, b: seq<string>)
    requires forall m :: 0 <= m < |FunctionNames| ==> (FunctionNames[m] in a <==> FunctionNames[m] in b)
    ensures CardFunctionFilter(a) == CardFunctionFilter(b)
  {
    ChosenKnownOnly(a, b, FunctionNames, FunctionBoxList, 0);
  }

  /** `CardFunctionFilter.get_values`: the function names sorted. */
  function FunctionValues(): (r: seq<string>)
    ensures SortedStrs(r) && multiset(r) == multiset(FunctionNames)
  {
    SortStrs(FunctionNames)
  }

  // ---------------------------------------------------------------------
  // The illegal-card filter and the best-guess name filter
  // ---------------------------------------------------------------------

  /** The keyword that marks cards banned from tournament play. */
  const BannedKeyword: string := "not for legal play"

  /** `make_illegal_filter()`: leave out the cards with the banned keyword,
      or, when the catalogue does not know that keyword yet, the cards whose
      text says they are banned. */
  function IllegalFilter(cat: Catalogue): Filter {
    if BannedKeyword in cat.keywords then NotFilter(KeywordIn([BannedKeyword]))
    else NotFilter(CardTextFilter(BanText))
  }

  /** The card text that marks a card banned. */
  const BanText: string := "Added to the V:EKN banned list"

  /** The ban text holds no wildcard and no brace. */
  lemma BanTextPlain()
    ensures Literal(BanText) && '{' !in BanText && '}' !in BanText
  {
  }

  /** The illegal-card filter keeps exactly the cards without the banned
      keyword, or, as a fallback, the cards whose lower-cased search text
      does not mention the ban. */
  lemma IllegalFilterMatches(cat: Catalogue, c: AbstractCard)
    ensures BannedKeyword in cat.keywords ==>
      (Matches(IllegalFilter(cat), c) <==> BannedKeyword !in c.keywords)
    ensures BannedKeyword !in cat.keywords ==>
      (Matches(IllegalFilter(cat), c) <==> !Occurs(Lower(BanText), Lower(c.searchText)))
  {
    if BannedKeyword !in cat.keywords {
      BanTextPlain();
      CardTextMatches(BanText, c);
    } else if BannedKeyword in c.keywords {
      var j :| 0 <= j < |c.keywords| && c.keywords[j] == BannedKeyword;
      assert c.keywords[j] in [BannedKeyword];
    }
  }

  /** The vowels turned into wildcards. */
  function Devowel(s: string): string {
    Replace(Replace(Replace(Replace(Replace(s, "a", "_"), "e", "_"), "i", "_"), "o", "_"), "u", "_")
  }

  /** The best-guess pattern for a name: lower-cased and padded with
      spaces, ` the ` dropped, commas turned into spaces, punctuation and
      vowels into single-character wildcards, runs of whitespace into one
      `%`, and `%` on both ends. */
  function BestGuessPattern(name: string): string {
    var s := " " + Lower(name) + " ";
    var s1 := Replace(s, " the ", " ");
    var s2 := Replace(s1, ",", " ");
    var s3 := ReplaceEach(s2, Punctuation, "_");
    var s4 := Devowel(s3);
    var s5 := Join(" ", SplitWs(s4));
    "%" + Replace(s5, " ", "%") + "%"
  }

  /** The loop over `string.punctuation`, turning each into `_`. */
  method ReplacePunctuation(s0: string) returns (s: string)
    ensures s == ReplaceEach(s0, Punctuation, "_")
  {
    s := ReplaceChars(s0, Punctuation, "_");
  }

  /** `best_guess_filter(name)`, rewriting the pattern step by step as the
      source does. */
  method BestGuess(cat: Catalogue, name: string) returns (f: Filter)
    ensures f == AndBox([NameLike(Lower(BestGuessPattern(name))), IllegalFilter(cat)])
  {
    var s := " " + Lower(name) + " ";
    s := Replace(s, " the ", " ");
    s := Replace(s, ",", " ");
    s := ReplacePunctuation(s);
    ghost var s3 := s;
    s := Replace(s, "a", "_");
    s := Replace(s, "e", "_");
    s := Replace(s, "i", "_");
    s := Replace(s, "o", "_");
    s := Replace(s, "u", "_");
    assert s == Devowel(s3);
    s := Join(" ", SplitWs(s));
    s := Replace(s, " ", "%");
    s := "%" + s + "%";
    f := AndBox([NameLike(Lower(s)), IllegalFilter(cat)]);
  }

  /** A character the best-guess pattern may hold: no whitespace, no vowel,
      and no punctuation but the two wildcards. */
  predicate GuessChar(c: char) {
    !IsSpace(c) && c !in "aeiou" && (c in Punctuation ==> c == '_' || c == '%')
  }

  /** A character after punctuation and vowels are replaced. */
  predicate Devowelled(c: char) {
    c !in "aeiou" && (c in Punctuation ==> c == '_')
  }

  /** Devowelling after the punctuation pass leaves only devowelled
      characters. */
  lemma DevowelChars(s3: string)
    requires forall i :: 0 <= i < |s3| ==> (s3[i] in Punctuation ==> s3[i] == '_')
    ensures forall i :: 0 <= i < |Devowel(s3)| ==> Devowelled(Devowel(s3)[i])
  {
    var a := Replace(s3, "a", "_");
    ReplaceCharAt(s3, 'a', '_');
    var e := Replace(a, "e", "_");
    ReplaceCharAt(a, 'e', '_');
    var i := Replace(e, "i", "_");
    ReplaceCharAt(e, 'i', '_');
    var o := Replace(i, "o", "_");
    ReplaceCharAt(i, 'o', '_');
    var u := Replace(o, "u", "_");
    ReplaceCharAt(o, 'u', '_');
    assert u == Devowel(s3);
  }

  /** The best-guess pattern starts and ends with `%` and holds no
      whitespace, no vowel, and no punctuation but `_` and `%`. */
  lemma BestGuessShape(name: string)
    ensures |BestGuessPattern(name)| >= 2
    ensures BestGuessPattern(name)[0] == '%' && BestGuessPattern(name)[|BestGuessPattern(name)| - 1] == '%'
    ensures forall i :: 0 <= i < |BestGuessPattern(name)| ==> GuessChar(BestGuessPattern(name)[i])
  {
    var s := " " + Lower(name) + " ";
    var s1 := Replace(s, " the ", " ");
    var s2 := Replace(s1, ",", " ");
    var s3 := ReplaceEach(s2, Punctuation, "_");
    ReplaceEachAt(s2, Punctuation, '_');
    var s4 := Devowel(s3);
    DevowelChars(s3);
    var ws := SplitWs(s4);
    SplitWsChars(s4, Devowelled);
    var s5 := Join(" ", ws);
    JoinChars(ws, Devowelled);
    JoinSpacesOnly(ws);
    var s6 := Replace(s5, " ", "%");
    ReplaceCharAt(s5, ' ', '%');
    var p := "%" + s6 + "%";
    assert p == BestGuessPattern(name);
    forall i | 0 <= i < |p| ensures GuessChar(p[i]) {
      if 0 < i < |p| - 1 {
        assert p[i] == s6[i - 1];
      }
    }
  }

  /** `CardNameFilter(p)`: the lower-cased pattern, matched anywhere in the
      canonical name. */
  function CardNameFilter(p: string): Filter {
    NameLike(Lower(p))
  }
}
