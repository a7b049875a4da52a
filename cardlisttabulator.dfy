/** The card-list tabulator: a table with one row per card and one column
    per named numeric property of the card. */
module CardListTabulator {
  import opened Wrappers
  import opened Cards

  /** A column value: the card's property as an integer. */
  type PropFunc = AbstractCard -> int

  /** `group`: the card's group, 0 when it has none. */
  function GroupColumn(c: AbstractCard): (v: int)
    ensures c.group.None? ==> v == 0
    ensures c.group.Some? ==> v == c.group.value
  {
    if c.group.Some? then c.group.value else 0
  }

  /** `capacity`: the card's capacity, 0 when it has none. */
  function CapacityColumn(c: AbstractCard): (v: int)
    ensures c.capacity.None? ==> v == 0
    ensures c.capacity.Some? ==> v == c.capacity.value
  {
    if c.capacity.Some? then c.capacity.value else 0
  }

  /** A cost column: the cost when the card's cost type is `t`, and 0
      otherwise or without a cost. X costs are stored as -1. */
  function CostColumn(c: AbstractCard, t: string): int {
    if c.costType == Some(t) && c.cost.Some? then c.cost.value else 0
  }

  function PoolCostColumn(c: AbstractCard): int {
    CostColumn(c, "pool")
  }

  function BloodCostColumn(c: AbstractCard): int {
    CostColumn(c, "blood")
  }

  function ConvictionCostColumn(c: AbstractCard): int {
    CostColumn(c, "conviction")
  }

  /** `advanced`: 1 for an advanced card and 0 for any other. */
  function AdvancedColumn(c: AbstractCard): (v: int)
    ensures v == 1 <==> c.level == Some("advanced")
    ensures v == 0 <==> c.level != Some("advanced")
  {
    if c.level == Some("advanced") then 1 else 0
  }

  /** At most one of the three cost columns is non-zero: the one of the
      card's cost type, which holds its cost. */
  lemma CostColumnsSplit(c: AbstractCard)
    ensures PoolCostColumn(c) + BloodCostColumn(c) + ConvictionCostColumn(c)
            == if c.cost.Some? && c.costType.Some? && c.costType.value in ["pool", "blood", "conviction"]
               then c.cost.value else 0
    ensures c.costType != Some("pool") ==> PoolCostColumn(c) == 0
    ensures c.costType != Some("blood") ==> BloodCostColumn(c) == 0
    ensures c.costType != Some("conviction") ==> ConvictionCostColumn(c) == 0
  {
  }

  /** The default scalar properties by column name. */
  function DefaultPropFuncs(): map<string, PropFunc> {
    map[
      "group" := GroupColumn,
      "capacity" := CapacityColumn,
      "pool cost" := PoolCostColumn,
      "blood cost" := BloodCostColumn,
      "conviction cost" := ConvictionCostColumn,
      "advanced" := AdvancedColumn
    ]
  }

  /** `tabulate` looks the column names up in order; the first one missing
      raises KeyError. */
  datatype TabulateError = KeyError(column: string)

  /** The first column name without a property function. */
  function FirstMissing(cols: seq<string>, props: map<string, PropFunc>): (r: Option<nat>)
    ensures r.None? <==> forall j :: 0 <= j < |cols| ==> cols[j] in props
    ensures r.Some? ==> r.value < |cols| && cols[r.value] !in props
    ensures r.Some? ==> forall j :: 0 <= j < r.value ==> cols[j] in props
  {
    if |cols| == 0 then None
    else
      var init := FirstMissing(cols[..|cols| - 1], props);
      if init.Some? then init
      else if cols[|cols| - 1] !in props then Some(|cols| - 1)
      else None
  }

  /** The column functions, in column order. */
  method ColumnFuncs(cols: seq<string>, props: map<string, PropFunc>) returns (r: Result<seq<PropFunc>, TabulateError>)
    ensures FirstMissing(cols, props).Some? ==> r == Err(KeyError(cols[FirstMissing(cols, props).value]))
    ensures FirstMissing(cols, props).None? ==>
      r.Ok? && |r.value| == |cols| && forall j :: 0 <= j < |cols| ==> r.value[j] == props[cols[j]]
  {
    var fs: seq<PropFunc> := [];
    var j := 0;
    while j < |cols|
      invariant 0 <= j <= |cols|
      invariant FirstMissing(cols[..j], props).None?
      invariant |fs| == j && forall m :: 0 <= m < j ==> fs[m] == props[cols[m]]
    {
      assert cols[..j + 1][..j] == cols[..j];
      if cols[j] !in props {
        assert FirstMissing(cols[..j + 1], props) == Some(j);
        FirstMissingPrefix(cols, props, j + 1);
        return Err(KeyError(cols[j]));
      }
      fs := fs + [props[cols[j]]];
      j := j + 1;
    }
    assert cols[..j] == cols;
    return Ok(fs);
  }

  /** A column missing in a prefix is the first missing of the whole. */
  lemma {:induction false} FirstMissingPrefix(cols: seq<string>, props: map<string, PropFunc>, n: nat)
    requires n <= |cols| && FirstMissing(cols[..n], props).Some?
    ensures FirstMissing(cols, props) == FirstMissing(cols[..n], props)
    decreases |cols| - n
  {
    if n < |cols| {
      assert cols[..n + 1][..n] == cols[..n];
      FirstMissingPrefix(cols, props, n + 1);
    } else {
      assert cols[..n] == cols;
    }
  }

  /** One row of the table: each column's function applied to the card. */
  method TabulateRow(fs: seq<PropFunc>, c: AbstractCard) returns (row: seq<int>)
    ensures |row| == |fs| && forall j :: 0 <= j < |fs| ==> row[j] == fs[j](c)
  {
    row := [];
    for j := 0 to |fs|
      invariant |row| == j && forall m :: 0 <= m < j ==> row[m] == fs[m](c)
    {
      row := row + [fs[j](c)];
    }
  }

  /** `CardListTabulator.tabulate`: one row per card in input order, and in
      each row column j holds property j of the card; a column name without
      a property fails before any row is built. */
  method Tabulate(cols: seq<string>, props: map<string, PropFunc>, cards: seq<AbstractCard>)
    returns (r: Result<seq<seq<int>>, TabulateError>)
    ensures r.Err? <==> exists j :: 0 <= j < |cols| && cols[j] !in props
    ensures r.Err? ==> r.error == KeyError(cols[FirstMissing(cols, props).value])
    ensures r.Ok? ==> |r.value| == |cards|
    ensures r.Ok? ==> forall i :: 0 <= i < |cards| ==>
      |r.value[i]| == |cols| && forall j :: 0 <= j < |cols| ==> r.value[i][j] == props[cols[j]](cards[i])
  {
    var funcs := ColumnFuncs(cols, props);
    if funcs.Err? {
      return Err(funcs.error);
    }
    var fs := funcs.value;
    var table: seq<seq<int>> := [];
    for i := 0 to |cards|
      invariant |table| == i
      invariant forall m :: 0 <= m < i ==>
        |table[m]| == |cols| && forall j :: 0 <= j < |cols| ==> table[m][j] == props[cols[j]](cards[m])
    {
      var row := TabulateRow(fs, cards[i]);
      table := table + [row];
    }
    return Ok(table);
  }
}
