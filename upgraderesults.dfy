/** How the generic database upgrade folds the results of its per-table
    copy functions together, and how the memory copy, the final copy and
    the whole upgrade attempt combine theirs. */
module UpgradeResults {
  import opened Wrappers

  /** The outcome of an upgrade step as its callers see it: whether it
      succeeded, and the messages it reports. */
  datatype Report = Report(ok: bool, messages: seq<string>)

  /** The exceptions that leave an upgrade step: an old table of a version
      the upgrade cannot read, and the NameError of calling a function the
      module does not define. */
  datatype UpgradeError = UnknownVersion(table: string) | NameError(name: string)

  /** What the version check of the old database answers: it can be read,
      or it raises for a table of unknown version. The check never answers
      that the database cannot be read. */
  datatype VersionCheck = Readable | VersionUnknown(table: string)

  /** One table the version check looks at: its name and whether the old
      database holds it at a version the upgrade can read. */
  datatype TableVersion = TableVersion(name: string, accepted: bool)

  /** `check_can_read_old_database`: the tables are checked in order, the
      first one at a version that cannot be read raises UnknownVersion with
      its name, and otherwise the answer is True. */
  function CheckCanRead(tables: seq<TableVersion>): (r: VersionCheck)
    ensures r.Readable? <==> forall i :: 0 <= i < |tables| ==> tables[i].accepted
    ensures r.VersionUnknown? ==>
      exists i :: 0 <= i < |tables| && !tables[i].accepted && tables[i].name == r.table
                  && forall j :: 0 <= j < i ==> tables[j].accepted
  {
    if |tables| == 0 then Readable
    else if !tables[0].accepted then VersionUnknown(tables[0].name)
    else
      var r := CheckCanRead(tables[1..]);
      assert forall i :: 1 <= i < |tables| ==> tables[i] == tables[1..][i - 1];
      if r.VersionUnknown? then
        var i :| 0 <= i < |tables[1..]| && !tables[1..][i].accepted && tables[1..][i].name == r.table
                 && forall j :: 0 <= j < i ==> tables[1..][j].accepted;
        assert !tables[i + 1].accepted && tables[i + 1].name == r.table;
        r
      else r
  }

  /** What one per-table copy function of `do_read_old_database` does: it
      returns its OK flag and messages, or raises SQLObjectNotFound with
      the given error text. */
  datatype CopyOutcome = Returned(ok: bool, messages: seq<string>) | NotFound(error: string)

  /** One entry of the list of copy functions: the table's name and what
      its copy function does. */
  datatype CopyStep = CopyStep(name: string, outcome: CopyOutcome)

  /** The flag and messages one copy function contributes: what it
      returned, or failure with one message naming the table and the
      error. */
  function StepReport(st: CopyStep): Report
  {
    match st.outcome
    case Returned(ok, messages) => Report(ok, messages)
    case NotFound(error) => Report(false, ["Unable to copy " + st.name + ": Error " + error])
  }

  /** Every copy function succeeded. */
  function AllOk(steps: seq<CopyStep>): bool
  {
    if |steps| == 0 then true
    else AllOk(steps[..|steps| - 1]) && StepReport(steps[|steps| - 1]).ok
  }

  /** The messages of every copy function, in order. */
  function AllMessages(steps: seq<CopyStep>): seq<string>
  {
    if |steps| == 0 then []
    else AllMessages(steps[..|steps| - 1]) + StepReport(steps[|steps| - 1]).messages
  }

  /** The fold succeeds exactly when each copy function returned true
      without raising. */
  lemma {:induction false} AllOkEach(steps: seq<CopyStep>)
    ensures AllOk(steps) <==> forall i :: 0 <= i < |steps| ==> steps[i].outcome.Returned? && steps[i].outcome.ok
  {
    if |steps| > 0 {
      var init := steps[..|steps| - 1];
      AllOkEach(init);
      assert forall i :: 0 <= i < |init| ==> init[i] == steps[i];
    }
  }

  /** Folding two lists of copy functions one after the other is folding
      their concatenation. */
  lemma {:induction false} FoldConcat(a: seq<CopyStep>, b: seq<CopyStep>)
    ensures AllOk(a + b) == (AllOk(a) && AllOk(b))
    ensures AllMessages(a + b) == AllMessages(a) + AllMessages(b)
  {
    if |b| > 0 {
      var init := b[..|b| - 1];
      FoldConcat(a, init);
      assert (a + b)[..|a + b| - 1] == a + init;
      assert (a + b)[|a + b| - 1] == b[|b| - 1];
    } else {
      assert a + b == a;
    }
  }

  /** Each copy function's messages appear in the folded messages. */
  lemma {:induction false} MessagesKept(steps: seq<CopyStep>, i: nat)
    requires i < |steps|
    ensures forall m :: m in StepReport(steps[i]).messages ==> m in AllMessages(steps)
  {
    assert steps == steps[..i] + [steps[i]] + steps[i + 1..];
    FoldConcat(steps[..i] + [steps[i]], steps[i + 1..]);
    FoldConcat(steps[..i], [steps[i]]);
    assert [steps[i]][..0] == [];
  }

  /** Every copy function's messages appear in the folded messages. */
  lemma EveryMessageKept(steps: seq<CopyStep>)
    ensures forall i, m :: 0 <= i < |steps| && m in StepReport(steps[i]).messages ==> m in AllMessages(steps)
  {
    forall i, m | 0 <= i < |steps| && m in StepReport(steps[i]).messages
      ensures m in AllMessages(steps)
    {
      MessagesKept(steps, i);
    }
  }

  /** The loop of `do_read_old_database`: every copy function runs; the
      flag is the conjunction of their flags and the messages are theirs,
      in order. */
  method FoldCopies(steps: seq<CopyStep>) returns (r: Report)
    ensures r == Report(AllOk(steps), AllMessages(steps))
  {
    var ok := true;
    var messages: seq<string> := [];
    var i := 0;
    while i < |steps|
      invariant 0 <= i <= |steps|
      invariant ok == AllOk(steps[..i]) && messages == AllMessages(steps[..i])
    {
      var st := steps[i];
      var stepOk, stepMessages;
      match st.outcome {
        case Returned(o, ms) =>
          stepOk, stepMessages := o, ms;
        case NotFound(error) =>
          stepOk, stepMessages := false, ["Unable to copy " + st.name + ": Error " + error];
      }
      ok := ok && stepOk;
      messages := messages + stepMessages;
      assert steps[..i + 1][..i] == steps[..i];
      i := i + 1;
    }
    assert steps[..i] == steps;
    r := Report(ok, messages);
  }

  /** The name the version check is called by in `do_read_old_database`. */
  const CheckName: string := "check_can_read_old_database"

  /** `do_read_old_database` as written: the module calls the version check
      by a name it neither defines nor imports, so the call raises NameError
      before anything is read, and the `except UnknownVersion` around it
      does not catch that. */
  function ReadOutcomeAsWritten(steps: seq<CopyStep>): (r: Result<Report, UpgradeError>)
    ensures r.Err? && r.error.NameError? && r.error.name == CheckName
  {
    Err(NameError(CheckName))
  }

  /** `do_read_old_database` with the version check in scope: an unknown
      version raises, and otherwise every copy function runs and their
      reports are folded. */
  function ReadOutcome(check: VersionCheck, steps: seq<CopyStep>): (r: Result<Report, UpgradeError>)
    ensures check.VersionUnknown? <==> r.Err?
    ensures r.Err? ==> r.error == UnknownVersion(check.table)
    ensures r.Ok? ==> (r.value.ok <==> forall i :: 0 <= i < |steps| ==> steps[i].outcome.Returned? && steps[i].outcome.ok)
    ensures r.Ok? ==> forall i, m :: 0 <= i < |steps| && m in StepReport(steps[i]).messages ==> m in r.value.messages
  {
    AllOkEach(steps);
    EveryMessageKept(steps);
    match check
    case VersionUnknown(table) => Err(UnknownVersion(table))
    case Readable => Ok(Report(AllOk(steps), AllMessages(steps)))
  }

  /** `do_read_old_database` with the version check in scope: the check,
      then the copy loop. */
  method ReadOldDatabase(check: VersionCheck, steps: seq<CopyStep>) returns (r: Result<Report, UpgradeError>)
    ensures r == ReadOutcome(check, steps)
    ensures r.Ok? ==> r.value == Report(AllOk(steps), AllMessages(steps))
  {
    match check {
      case VersionUnknown(table) =>
        return Err(UnknownVersion(table));
      case Readable =>
        var folded := FoldCopies(steps);
        return Ok(folded);
    }
  }

  /** One entry of the list of copy functions of `do_copy_database`: the
      table's name and the error text of the SQLObjectNotFound its copy
      function raises, if it raises. */
  datatype TableCopy = TableCopy(name: string, error: Option<string>)

  /** The position of the first copy function that raises. */
  function FirstFailure(steps: seq<TableCopy>): (r: Option<nat>)
    ensures r.Some? ==> r.value < |steps| && steps[r.value].error.Some?
    ensures r.Some? ==> forall j :: 0 <= j < r.value ==> steps[j].error.None?
    ensures r.None? ==> forall j :: 0 <= j < |steps| ==> steps[j].error.None?
  {
    if |steps| == 0 then None
    else
      var f := FirstFailure(steps[..|steps| - 1]);
      if f.Some? then f
      else if steps[|steps| - 1].error.Some? then Some(|steps| - 1)
      else None
  }

  /** The names of a list of copy functions. */
  function Names(steps: seq<TableCopy>): (ns: seq<string>)
    ensures |ns| == |steps| && forall i :: 0 <= i < |steps| ==> ns[i] == steps[i].name
  {
    if |steps| == 0 then [] else Names(steps[..|steps| - 1]) + [steps[|steps| - 1].name]
  }

  /** The message `do_copy_database` reports for the copy function that
      raised. */
  function AbortMessage(st: TableCopy): string
    requires st.error.Some?
  {
    "Unable to copy " + st.name + ": Aborting with error: " + st.error.value
  }

  /** `do_copy_database`: the copy functions run in order until one
      raises, and none runs after it; the copy succeeds exactly when none
      raised, with no messages, and otherwise reports the one that raised.
      `ran` lists the copy functions that ran. */
  method CopyDatabase(steps: seq<TableCopy>) returns (r: Report, ran: seq<string>)
    ensures r.ok <==> FirstFailure(steps).None?
    ensures FirstFailure(steps).None? ==> r.messages == [] && ran == Names(steps)
    ensures FirstFailure(steps).Some? ==>
      r.messages == [AbortMessage(steps[FirstFailure(steps).value])]
      && ran == Names(steps[..FirstFailure(steps).value + 1])
  {
    var ok := true;
    var messages: seq<string> := [];
    ran := [];
    var i := 0;
    while i < |steps|
      invariant 0 <= i <= |steps|
      invariant ok <==> FirstFailure(steps[..i]).None?
      invariant ok ==> messages == [] && ran == Names(steps[..i])
      invariant !ok ==> FirstFailure(steps[..i]).value < i
      invariant !ok ==>
        messages == [AbortMessage(steps[FirstFailure(steps[..i]).value])]
        && ran == Names(steps[..FirstFailure(steps[..i]).value + 1])
    {
      assert steps[..i + 1][..i] == steps[..i];
      if ok {
        ran := ran + [steps[i].name];
        if steps[i].error.Some? {
          ok := false;
          messages := messages + [AbortMessage(steps[i])];
        }
      }
      i := i + 1;
    }
    assert steps[..i] == steps;
    r := Report(ok, messages);
  }

  /** `do_create_memory_copy`: the read's outcome once the tables are
      created, and failure otherwise. */
  function CreateMemoryCopy(tablesCreated: bool, read: Result<Report, UpgradeError>): (r: Result<Report, UpgradeError>)
    ensures !tablesCreated ==> r == Ok(Report(false, ["Unable to create tables"]))
    ensures tablesCreated ==> r == read
  {
    if !tablesCreated then Ok(Report(false, ["Unable to create tables"])) else read
  }

  /** `do_create_final_copy`: the copy's report once the tables are
      created, and failure otherwise. */
  function CreateFinalCopy(tablesCreated: bool, copy: Report): (r: Report)
    ensures !tablesCreated ==> r == Report(false, ["Unable to create tables"])
    ensures tablesCreated ==> r == copy
  {
    if tablesCreated then copy else Report(false, ["Unable to create tables"])
  }

  /** What `do_attempt_database_upgrade` does: whether the upgrade
      succeeded, and whether the final copy was attempted. */
  datatype Attempt = Attempt(upgraded: bool, finalRan: bool)

  /** `do_attempt_database_upgrade`: the final copy runs only after a
      successful memory copy, and the upgrade succeeds only when both do;
      an exception from the memory copy leaves it. */
  function AttemptUpgrade(memory: Result<Report, UpgradeError>, final: Report): (r: Result<Attempt, UpgradeError>)
    ensures memory.Err? <==> r.Err?
    ensures r.Err? ==> r.error == memory.error
    ensures r.Ok? ==> (r.value.finalRan <==> memory.value.ok)
    ensures r.Ok? ==> (r.value.upgraded <==> memory.value.ok && final.ok)
  {
    match memory
    case Err(e) => Err(e)
    case Ok(m) => if m.ok then Ok(Attempt(final.ok, true)) else Ok(Attempt(false, false))
  }

  /** As written, no upgrade succeeds: once the memory tables are created
      the read raises NameError and the attempt ends in it, and otherwise
      the memory copy fails and the final copy is not attempted. */
  lemma AsWrittenNeverUpgrades(tablesCreated: bool, steps: seq<CopyStep>, final: Report)
    ensures var r := AttemptUpgrade(CreateMemoryCopy(tablesCreated, ReadOutcomeAsWritten(steps)), final);
      && (tablesCreated ==> r == Err(NameError(CheckName)))
      && (!tablesCreated ==> r == Ok(Attempt(false, false)))
  {
  }

  /** The upgrade succeeds only when the old database is readable, both
      sets of tables are created, every old table is copied and the final
      copy succeeds; the final copy is attempted only when the memory copy
      succeeded. */
  lemma {:induction false} UpgradeNeedsAll(check: VersionCheck, steps: seq<CopyStep>, memoryTables: bool,
                                           finalTables: bool, copy: Report)
    ensures var r := AttemptUpgrade(CreateMemoryCopy(memoryTables, ReadOutcome(check, steps)),
                                    CreateFinalCopy(finalTables, copy));
      && (r.Err? <==> memoryTables && check.VersionUnknown?)
      && (r.Ok? && r.value.finalRan ==> memoryTables && check.Readable? && AllOk(steps))
      && (r.Ok? && r.value.upgraded <==>
            memoryTables && check.Readable? && finalTables && copy.ok
            && forall i :: 0 <= i < |steps| ==> steps[i].outcome.Returned? && steps[i].outcome.ok)
  {
    AllOkEach(steps);
  }

  /** With the version check in scope the upgrade can succeed: it does
      exactly when every table is at a readable version, both sets of
      tables are created, every copy function returns true and the final
      copy succeeds; a table at an unknown version ends the attempt in
      UnknownVersion once the memory tables exist. */
  lemma {:induction false} CheckedUpgrade(tables: seq<TableVersion>, steps: seq<CopyStep>, memoryTables: bool,
                                          finalTables: bool, copy: Report)
    ensures var r := AttemptUpgrade(CreateMemoryCopy(memoryTables, ReadOutcome(CheckCanRead(tables), steps)),
                                    CreateFinalCopy(finalTables, copy));
      && (r.Err? <==> memoryTables && exists i :: 0 <= i < |tables| && !tables[i].accepted)
      && (r.Ok? && r.value.upgraded <==>
            memoryTables && finalTables && copy.ok
            && (forall i :: 0 <= i < |tables| ==> tables[i].accepted)
            && forall i :: 0 <= i < |steps| ==> steps[i].outcome.Returned? && steps[i].outcome.ok)
  {
    UpgradeNeedsAll(CheckCanRead(tables), steps, memoryTables, finalTables, copy);
  }
}
