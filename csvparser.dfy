/** The CSV card-list parser: each row of a CSV file names a card, a count
    and optionally an expansion, and each row with a name is staged in a
    card-set holder. The file is given as its rows, each a sequence of
    fields, one row per line. */
module CSVParser {
  import opened Wrappers
  import opened PyStr

  /** The kinds of card set a file can be committed as. */
  const PCL := 0
  const PCS := 1
  const ACS := 2

  /** The columns of the card name, the count and the expansion. */
  datatype Columns = Columns(name: nat, count: nat, expansion: Option<nat>)

  /** One call of the holder's `add`: a count, a card name and an
      expansion name or None. */
  datatype Staged = Staged(count: int, name: string, expansion: Option<string>)

  /** What `_process_row` raises: a row too short for a column, a count
      `int` refuses, or an expansion the expansion table does not know. */
  datatype RowError = IndexError | NotAnInt(text: string) | UnknownExpansion(name: string)

  /** What `parse` raises: a row error other than a bad count unchanged, a
      bad count as a ValueError with its line number, or the header read
      from an empty file. */
  datatype ParseError = Raised(error: RowError) | LineError(line: nat, text: string) | NoHeader

  /** The expansion text meaning no expansion. */
  const NoneSpecified := "None Specified"

  /** `_process_row`: a row whose stripped name is empty is skipped before
      anything else is read; otherwise the count is read with `int`, and
      the stripped expansion, or `None Specified` without an expansion
      column, is looked up unless it is `None Specified`. */
  function RowResult(cols: Columns, known: set<string>, row: seq<string>): (r: Result<Option<Staged>, RowError>)
  {
    if cols.name >= |row| then Err(IndexError)
    else
      var name := Strip(row[cols.name]);
      if name == "" then Ok(None)
      else if cols.count >= |row| then Err(IndexError)
      else match ParseInt(row[cols.count])
        case None => Err(NotAnInt(row[cols.count]))
        case Some(n) =>
          if cols.expansion.Some? && cols.expansion.value >= |row| then Err(IndexError)
          else
            var exp := if cols.expansion.Some? then Strip(row[cols.expansion.value]) else NoneSpecified;
            if exp == NoneSpecified then Ok(Some(Staged(n, name, None)))
            else if exp !in known then Err(UnknownExpansion(exp))
            else Ok(Some(Staged(n, name, Some(exp))))
  }

  /** What `_process_row` does with a row: a blank name skips it, a staged
      row carries its stripped name, the count `int` reads and the
      stripped expansion unless that is `None Specified`, and each error
      has its cause. */
  lemma RowMeaning(cols: Columns, known: set<string>, row: seq<string>) returns (r: Result<Option<Staged>, RowError>)
    ensures r == RowResult(cols, known, row)
    ensures cols.name < |row| && Strip(row[cols.name]) == "" ==> r == Ok(None)
    ensures r == Ok(None) ==> cols.name < |row| && Strip(row[cols.name]) == ""
    ensures r.Ok? && r.value.Some? ==>
      && cols.name < |row| && r.value.value.name == Strip(row[cols.name]) != ""
      && cols.count < |row| && ParseInt(row[cols.count]) == Some(r.value.value.count)
    ensures r.Ok? && r.value.Some? ==>
      (r.value.value.expansion.None? <==>
         cols.expansion.None? || (cols.expansion.value < |row| && Strip(row[cols.expansion.value]) == NoneSpecified))
    ensures r.Ok? && r.value.Some? && r.value.value.expansion.Some? ==>
      && cols.expansion.Some? && cols.expansion.value < |row|
      && r.value.value.expansion.value == Strip(row[cols.expansion.value])
      && r.value.value.expansion.value in known
    ensures r.Err? && r.error.NotAnInt? ==>
      cols.count < |row| && r.error.text == row[cols.count] && ParseInt(row[cols.count]).None?
    ensures r.Err? && r.error.UnknownExpansion? ==> r.error.name !in known && r.error.name != NoneSpecified
  {
    r := RowResult(cols, known, row);
    if cols.name < |row| && Strip(row[cols.name]) != "" && cols.count < |row| && ParseInt(row[cols.count]).Some? {
      if cols.expansion.Some? && cols.expansion.value < |row| {
        var exp := Strip(row[cols.expansion.value]);
        assert r.Ok? && r.value.Some? ==> (r.value.value.expansion.None? <==> exp == NoneSpecified);
      }
    }
  }

  /** The result of each row. */
  function Results(cols: Columns, known: set<string>, rows: seq<seq<string>>): (rs: seq<Result<Option<Staged>, RowError>>)
    ensures |rs| == |rows|
  {
    if |rows| == 0 then [] else Results(cols, known, rows[..|rows| - 1]) + [RowResult(cols, known, rows[|rows| - 1])]
  }

  /** The staged entries after a row whose result is `r`: one more for a
      staged row, the same otherwise. */
  function Added(prev: seq<Staged>, r: Result<Option<Staged>, RowError>): seq<Staged>
  {
    if r.Ok? && r.value.Some? then prev + [r.value.value] else prev
  }

  /** What `parse` raises for a row on line `line` whose result is `r`: a
      bad count as a ValueError with the line, any other error unchanged. */
  function RaisedAt(r: Result<Option<Staged>, RowError>, line: nat): Option<ParseError>
  {
    if r.Ok? then None
    else if r.error.NotAnInt? then Some(LineError(line, r.error.text))
    else Some(Raised(r.error))
  }

  /** The staged entries and the error after the row on line `line`,
      whose result is `r`, given the entries staged before it. */
  function Step(prev: seq<Staged>, r: Result<Option<Staged>, RowError>, line: nat): (seq<Staged>, Option<ParseError>)
  {
    (Added(prev, r), RaisedAt(r, line))
  }

  /** The staged entries and the error of parsing the rows whose results
      are `rs`, after the first `skip`, stopping at the first row that
      raises; row i is on line i + 1. */
  function Outcome(rs: seq<Result<Option<Staged>, RowError>>, skip: nat): (seq<Staged>, Option<ParseError>)
  {
    if |rs| <= skip then ([], None)
    else
      var prev := Outcome(rs[..|rs| - 1], skip);
      if prev.1.Some? then prev else Step(prev.0, rs[|rs| - 1], |rs|)
  }

  /** The parser: its settings and the holder it fills, of which the model
      keeps the set name and the `add` calls made so far. */
  class CSVParser {
    const cols: Columns
    const hasHeader: bool
    const fileType: int
    /** The holder's name. */
    var holderName: Option<string>
    /** The calls of the holder's `add`, in order. */
    var staged: seq<Staged>

    /** `__init__`: the file type must be one of the three known kinds. */
    constructor(cols: Columns, hasHeader: bool, fileType: int)
      requires fileType in {PCL, PCS, ACS}
      ensures this.cols == cols && this.hasHeader == hasHeader && this.fileType == fileType
      ensures holderName.None? && staged == []
    {
      this.cols := cols;
      this.hasHeader := hasHeader;
      this.fileType := fileType;
      holderName := None;
      staged := [];
    }

    /** `_process_row` on the holder: a staged row is added; a skipped row
        or one that raises adds nothing, and the error is the row's. */
    method ProcessRow(known: set<string>, row: seq<string>) returns (err: Option<RowError>)
      modifies this
      ensures holderName == old(holderName)
      ensures staged == Added(old(staged), RowResult(cols, known, row))
      ensures err.None? <==> RowResult(cols, known, row).Ok?
      ensures err.Some? ==> err.value == RowResult(cols, known, row).error
    {
      var r := RowResult(cols, known, row);
      if r.Err? {
        err := Some(r.error);
      } else {
        if r.value.Some? {
          staged := staged + [r.value.value];
        }
        err := None;
      }
    }

    /** `parse`: name the holder, skip the header when there is one, then
        stage the rows in order; a bad count is raised again as a
        ValueError carrying its line, and the rows staged before any error
        stay staged. */
    method Parse(rows: seq<seq<string>>, setName: string, known: set<string>) returns (err: Option<ParseError>)
      modifies this
      ensures holderName == Some(setName)
      ensures hasHeader && |rows| == 0 ==> err == Some(NoHeader) && staged == old(staged)
      ensures !(hasHeader && |rows| == 0) ==>
        var o := Outcome(Results(cols, known, rows), if hasHeader then 1 else 0);
        staged == old(staged) + o.0 && err == o.1
    {
      holderName := Some(setName);
      var skip := 0;
      if hasHeader {
        if |rows| == 0 {
          return Some(NoHeader);
        }
        skip := 1;
      }
      err := StageRows(rows, known, skip);
    }

    /** Row i of the file through `_process_row`, described by its entry in
        the results of all rows. */
    method StageRow(known: set<string>, rows: seq<seq<string>>, i: nat) returns (e: Option<RowError>)
      requires i < |rows|
      modifies this
      ensures holderName == old(holderName)
      ensures staged == Added(old(staged), Results(cols, known, rows)[i])
      ensures e.None? <==> Results(cols, known, rows)[i].Ok?
      ensures e.Some? ==> e.value == Results(cols, known, rows)[i].error
    {
      ResultAt(cols, known, rows, i);
      e := ProcessRow(known, rows[i]);
    }

    /** The loop of `parse`: the rows after the first `skip`, in order,
        until one raises. */
    method StageRows(rows: seq<seq<string>>, known: set<string>, skip: nat) returns (err: Option<ParseError>)
      requires skip <= |rows|
      modifies this
      ensures holderName == old(holderName)
      ensures staged == old(staged) + Outcome(Results(cols, known, rows), skip).0
      ensures err == Outcome(Results(cols, known, rows), skip).1
    {
      ghost var rs := Results(cols, known, rows);
      ghost var before := staged;
      var i := skip;
      while i < |rows|
        invariant skip <= i <= |rows| && holderName == old(holderName)
        invariant Outcome(rs[..i], skip).1.None?
        invariant staged == before + Outcome(rs[..i], skip).0
      {
        ghost var prev := staged;
        var e := StageRow(known, rows, i);
        RowStep(rs, skip, i, before, prev, staged, rs[i]);
        if e.Some? {
          return if e.value.NotAnInt? then Some(LineError(i + 1, e.value.text)) else Some(Raised(e.value));
        }
        i := i + 1;
      }
      assert rs[..i] == rs;
      return None;
    }
  }

  /** Row i's result in the results of all rows. */
  lemma {:induction false} ResultAt(cols: Columns, known: set<string>, rows: seq<seq<string>>, i: nat)
    requires i < |rows|
    ensures Results(cols, known, rows)[i] == RowResult(cols, known, rows[i])
  {
    if i < |rows| - 1 {
      var init := rows[..|rows| - 1];
      ResultAt(cols, known, init, i);
      assert init[i] == rows[i];
    }
  }

  /** One row of the loop of `parse`: when it raises, the loop's outcome is
      the outcome of all rows; otherwise the next prefix has no error. */
  lemma RowStep(rs: seq<Result<Option<Staged>, RowError>>, skip: nat, i: nat,
                before: seq<Staged>, prev: seq<Staged>, now: seq<Staged>, r: Result<Option<Staged>, RowError>)
    requires skip <= i < |rs| && Outcome(rs[..i], skip).1.None? && rs[i] == r
    requires prev == before + Outcome(rs[..i], skip).0 && now == Added(prev, r)
    ensures r.Ok? ==> Outcome(rs[..i + 1], skip).1.None? && now == before + Outcome(rs[..i + 1], skip).0
    ensures r.Err? ==> now == before + Outcome(rs, skip).0 && RaisedAt(r, i + 1) == Outcome(rs, skip).1
  {
    OutcomeNext(rs, skip, i);
    if r.Err? {
      OutcomeAll(rs, skip, i);
    }
  }

  /** Before any row raises, each row adds its step. */
  lemma OutcomeNext(rs: seq<Result<Option<Staged>, RowError>>, skip: nat, i: nat)
    requires skip <= i < |rs| && Outcome(rs[..i], skip).1.None?
    ensures Outcome(rs[..i + 1], skip) == Step(Outcome(rs[..i], skip).0, rs[i], i + 1)
  {
    var pre := rs[..i + 1];
    assert pre[..i] == rs[..i];
  }

  /** Once a prefix of the rows raises, the later rows change nothing. */
  lemma {:induction false} OutcomeAll(rs: seq<Result<Option<Staged>, RowError>>, skip: nat, i: nat)
    requires skip <= i < |rs|
    requires Outcome(rs[..i + 1], skip).1.Some?
    ensures Outcome(rs, skip) == Outcome(rs[..i + 1], skip)
  {
    if i + 1 < |rs| {
      var init := rs[..|rs| - 1];
      assert init[..i + 1] == rs[..i + 1];
      OutcomeAll(init, skip, i);
    } else {
      assert rs[..i + 1] == rs;
    }
  }

  /** A parse raises exactly when some row after the skipped ones raises. */
  lemma {:induction false} OutcomeClean(rs: seq<Result<Option<Staged>, RowError>>, skip: nat)
    ensures Outcome(rs, skip).1.None? <==> forall j :: skip <= j < |rs| ==> rs[j].Ok?
  {
    if |rs| > skip {
      var init := rs[..|rs| - 1];
      OutcomeClean(init, skip);
      assert forall j :: 0 <= j < |init| ==> init[j] == rs[j];
    }
  }

  /** A ValueError names the line of the first row that raises, and that
      row's count is the text `int` refused. */
  lemma {:induction false} OutcomeLine(rs: seq<Result<Option<Staged>, RowError>>, skip: nat)
    ensures Outcome(rs, skip).1.Some? && Outcome(rs, skip).1.value.LineError? ==>
      var l := Outcome(rs, skip).1.value.line;
      && skip < l <= |rs|
      && rs[l - 1] == Err(NotAnInt(Outcome(rs, skip).1.value.text))
      && forall j :: skip <= j < l - 1 ==> rs[j].Ok?
  {
    if |rs| > skip {
      var init := rs[..|rs| - 1];
      OutcomeLine(init, skip);
      OutcomeClean(init, skip);
      assert forall j :: 0 <= j < |init| ==> init[j] == rs[j];
    }
  }

  /** Every staged entry is the entry of a row after the skipped ones. */
  lemma {:induction false} StagedFrom(rs: seq<Result<Option<Staged>, RowError>>, skip: nat)
    ensures forall s :: s in Outcome(rs, skip).0 ==> exists j :: skip <= j < |rs| && rs[j] == Ok(Some(s))
  {
    if |rs| > skip {
      var init := rs[..|rs| - 1];
      StagedFrom(init, skip);
      assert forall j :: 0 <= j < |init| ==> init[j] == rs[j];
    }
  }

  /** Every staged entry has the non-empty stripped name of its row and the
      count `int` read from it. */
  lemma StagedNamed(cols: Columns, known: set<string>, rows: seq<seq<string>>, skip: nat, s: Staged)
    requires s in Outcome(Results(cols, known, rows), skip).0
    ensures s.name != ""
    ensures exists j :: skip <= j < |rows| && cols.name < |rows[j]| && s.name == Strip(rows[j][cols.name])
                        && cols.count < |rows[j]| && ParseInt(rows[j][cols.count]) == Some(s.count)
  {
    StagedFrom(Results(cols, known, rows), skip);
    var j :| skip <= j < |rows| && Results(cols, known, rows)[j] == Ok(Some(s));
    ResultAt(cols, known, rows, j);
    var _ := RowMeaning(cols, known, rows[j]);
  }

  /** The skipped header is never read: any first row gives the same
      outcome. */
  lemma {:induction false} HeaderIgnored(rs: seq<Result<Option<Staged>, RowError>>, header: Result<Option<Staged>, RowError>)
    requires |rs| > 0
    ensures Outcome([header] + rs[1..], 1) == Outcome(rs, 1)
  {
    var other := [header] + rs[1..];
    if |rs| > 1 {
      var init := rs[..|rs| - 1];
      HeaderIgnored(init, header);
      assert other[..|other| - 1] == [header] + init[1..];
      assert other[|other| - 1] == rs[|rs| - 1];
    }
  }
}
