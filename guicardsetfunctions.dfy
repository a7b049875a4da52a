/** The card-set management steps the interface performs on the tables:
    reparenting with loop checks, the delete confirmation, the import name
    handling and import itself, and the start-up loop breaking.  The user's
    answers to dialogs are parameters. */
module CardSetFunctions {
  import opened Wrappers
  import opened CardSetGraph
  import opened CardSets
  import opened CardSetHolder

  /** One reparenting attempt on the relation alone: the new link is kept
      unless it puts the set on or below a loop. */
  function ReparentOne(p: Parents, id: nat, np: Option<nat>): (q: Parents)
    requires id in p
    ensures q.Keys == p.Keys
    ensures q == p || q == p[id := np]
    ensures np.None? ==> q == p[id := None]
  {
    if np.Some? && DetectLoop(p[id := np], id) then p else p[id := np]
  }

  /** A reparenting attempt never puts a set of an acyclic relation on or
      below a loop. */
  lemma ReparentOneAcyclic(p: Parents, id: nat, np: Option<nat>)
    requires id in p && Acyclic(p)
    ensures Acyclic(ReparentOne(p, id, np))
  {
    if np.None? {
      assert Walk(p[id := None], id, |p[id := None]| + 1).None?;
    }
    if ReparentOne(p, id, np) != p {
      ReparentKeepsAcyclic(p, id, np);
    }
  }

  /** `reparent_card_set`: a new parent of None is always taken.  A real new
      parent is set, and set back to the old one when `detect_loop` then
      finds a loop; the result says whether the change was kept. */
  method ReparentCardSet(db: CardSetDb, id: nat, np: Option<nat>) returns (ok: bool)
    requires db.Valid() && id in db.names
    modifies db
    ensures db.Valid() && db.names == old(db.names) && db.rows == old(db.rows) && db.nextId == old(db.nextId)
    ensures np.None? ==> ok
    ensures np.Some? ==> (ok <==> !DetectLoop(old(db.parents)[id := np], id))
    ensures ok ==> db.parents == old(db.parents)[id := np]
    ensures !ok ==> db.parents == old(db.parents)
    ensures db.parents == ReparentOne(old(db.parents), id, np)
  {
    if np.Some? {
      var oldParent := db.parents[id];
      db.SetParent(id, np);
      if DetectLoop(db.parents, id) {
        db.SetParent(id, oldParent);
        assert db.parents == old(db.parents);
        ok := false;
      } else {
        ok := true;
      }
    } else {
      db.SetParent(id, np);
      ok := true;
    }
  }

  /** Reparenting each child in turn under t. */
  function ReparentAll(p: Parents, children: seq<nat>, t: nat): (q: Parents)
    requires forall c :: c in children ==> c in p
    ensures q.Keys == p.Keys
  {
    if |children| == 0 then p
    else
      var init := children[..|children| - 1];
      assert forall c :: c in init ==> c in children;
      ReparentOne(ReparentAll(p, init, t), children[|children| - 1], Some(t))
  }

  /** After reparenting a list of children, each child has either moved under
      t or kept its parent, every other set keeps its parent, and an acyclic
      relation stays acyclic. */
  lemma {:induction false} ReparentAllEffect(p: Parents, children: seq<nat>, t: nat)
    requires forall c :: c in children ==> c in p
    ensures forall c :: c in children ==> ReparentAll(p, children, t)[c] in {p[c], Some(t)}
    ensures forall x :: x in p && x !in children ==> ReparentAll(p, children, t)[x] == p[x]
    ensures Acyclic(p) ==> Acyclic(ReparentAll(p, children, t))
  {
    if |children| > 0 {
      var init := children[..|children| - 1];
      var last := children[|children| - 1];
      assert forall c :: c in init ==> c in children;
      ReparentAllEffect(p, init, t);
      assert forall c :: c in children ==> c in init || c == last;
      if Acyclic(p) {
        ReparentOneAcyclic(ReparentAll(p, init, t), last, Some(t));
      }
    }
  }

  /** `reparent_all_children`: nothing for an empty list; otherwise the named
      set is looked up, which raises when it is missing, and each child in
      turn is reparented under it. */
  method ReparentAllChildren(db: CardSetDb, name: string, children: seq<nat>) returns (err: Option<DbError>)
    requires db.Valid() && forall c :: c in children ==> c in db.names
    modifies db
    ensures db.Valid() && db.names == old(db.names) && db.rows == old(db.rows)
    ensures |children| == 0 ==> err.None? && db.parents == old(db.parents)
    ensures |children| > 0 && old(db.Named(name)).None? ==> err == Some(NotFound) && db.parents == old(db.parents)
    ensures |children| > 0 && old(db.Named(name)).Some? ==>
      (err.None? && db.parents == ReparentAll(old(db.parents), children, old(db.Named(name)).value))
  {
    err := None;
    if |children| == 0 {
      return;
    }
    var target := db.Named(name);
    if target.None? {
      return Some(NotFound);
    }
    var i := 0;
    while i < |children|
      invariant 0 <= i <= |children|
      invariant db.Valid() && db.names == old(db.names) && db.rows == old(db.rows)
      invariant db.parents == ReparentAll(old(db.parents), children[..i], target.value)
    {
      assert children[..i + 1][..i] == children[..i];
      var _ := ReparentCardSet(db, children[i], Some(target.value));
      i := i + 1;
    }
    assert children[..i] == children;
  }

  /** The warning `check_ok_to_delete` shows before deleting a set. */
  datatype DeletePrompt = NotEmptyWithChildren | NotEmpty | HasChildren

  /** The prompt for a set with the given numbers of cards and children:
      none for an empty set without children. */
  function DeletePromptFor(cards: nat, children: nat): (r: Option<DeletePrompt>)
    ensures r.None? <==> cards == 0 && children == 0
    ensures r == Some(NotEmptyWithChildren) <==> cards > 0 && children > 0
    ensures r == Some(NotEmpty) <==> cards > 0 && children == 0
    ensures r == Some(HasChildren) <==> cards == 0 && children > 0
  {
    if cards > 0 && children > 0 then Some(NotEmptyWithChildren)
    else if cards > 0 then Some(NotEmpty)
    else if children > 0 then Some(HasChildren)
    else None
  }

  /** `check_ok_to_delete`: true without asking for an empty set with no
      children, and otherwise the user's answer to the prompt. */
  function CheckOkToDelete(db: CardSetDb, id: nat, answer: bool): (ok: bool)
    reads db
    ensures |db.Cards(id)| == 0 && |db.Children(id)| == 0 ==> ok
    ensures |db.Cards(id)| > 0 || |db.Children(id)| > 0 ==> ok == answer
  {
    match DeletePromptFor(|db.Cards(id)|, |db.Children(id)|)
    case None => true
    case Some(_) => answer
  }

  /** `find_children`, as a list. */
  method FindChildren(db: CardSetDb, id: nat) returns (cs: seq<nat>)
    ensures forall c :: c in cs <==> c in db.Children(id)
    ensures |cs| == |db.Children(id)|
  {
    var rest := db.Children(id);
    cs := [];
    while rest != {}
      invariant forall c :: c in db.Children(id) <==> c in cs || c in rest
      invariant forall c :: c in cs ==> c !in rest
      invariant |cs| + |rest| == |db.Children(id)|
      decreases |rest|
    {
      var c :| c in rest;
      cs := cs + [c];
      rest := rest - {c};
    }
  }

  /** The user's answer to the rename dialog. */
  datatype RenameResponse = Rename(newName: string) | Replace | Cancel

  /** Whether an import must ask for a new name: the holder has no name, or
      a set already has it. */
  function NeedsRename(db: CardSetDb, name: Option<string>): bool
    reads db
    requires db.Valid()
  {
    !HasName(name) || db.Named(name.value).Some?
  }

  /** `get_import_name`: when a new name is needed, the answer decides.  A
      rename takes the new name, cancelling clears the name, and replacing
      deletes the existing set and returns its children; replacing a set that
      cannot be found raises. */
  method GetImportName(db: CardSetDb, holder: CardSetHolder, response: RenameResponse)
      returns (r: Result<seq<nat>, DbError>)
    requires db.Valid()
    modifies db, holder
    ensures db.Valid()
    ensures holder.parent == old(holder.parent) && holder.entries == old(holder.entries)
      && holder.warnings == old(holder.warnings)
    ensures !old(NeedsRename(db, holder.name)) || !response.Replace? ==>
      (db.names == old(db.names) && db.parents == old(db.parents) && db.rows == old(db.rows) && r == Ok([]))
    ensures !old(NeedsRename(db, holder.name)) ==> holder.name == old(holder.name)
    ensures old(NeedsRename(db, holder.name)) && response.Rename? ==> holder.name == Some(response.newName)
    ensures old(NeedsRename(db, holder.name)) && response.Cancel? ==> holder.name.None?
    ensures old(NeedsRename(db, holder.name)) && response.Replace? ==>
      holder.name == old(holder.name)
      && match (if holder.name.Some? then old(db.Named(holder.name.value)) else None)
         case None =>
           r == Err(NotFound) && db.names == old(db.names) && db.parents == old(db.parents)
           && db.rows == old(db.rows)
         case Some(oldId) =>
           r.Ok? && (forall c :: c in r.value <==> c in old(db.Children(oldId)))
           && db.names == old(db.names) - {oldId} && db.parents == old(db.parents) - {oldId}
           && db.rows == DropSet(old(db.rows), oldId)
  {
    r := Ok([]);
    if NeedsRename(db, holder.name) {
      match response
      case Rename(n) =>
        holder.name := Some(n);
      case Replace =>
        var target := if holder.name.Some? then db.Named(holder.name.value) else None;
        if target.None? {
          return Err(NotFound);
        }
        var cs := FindChildren(db, target.value);
        db.Delete(target.value);
        r := Ok(cs);
      case Cancel =>
        holder.name := None;
    }
  }

  /** How an import ends. */
  datatype ImportOutcome =
    | ParseFailed
    | NoCards
    | ReplaceFailed
    | Cancelled
    | LookupCancelled
    | CreateFailed(error: HolderError)
    | ReparentFailed
    | Imported(name: string)

  /** `import_cs`, after the parser has filled the holder (`parsed` says
      whether it finished): a failed parse or an empty holder aborts before
      anything changes; then the name is settled, and an import left without
      a name stops there (untouched, unless a set was replaced); a card
      lookup the user cancels (`lookupCancelled`) raises LookupFailed, which
      ends the import silently before the set is created; otherwise the set
      is created from the holder and the children of a replaced set are
      reparented under it. */
  method ImportCs(db: CardSetDb, holder: CardSetHolder, parsed: bool, response: RenameResponse,
                  lookup: CardLookup, lookupCancelled: bool) returns (outcome: ImportOutcome)
    requires db.Valid()
    modifies db, holder
    ensures db.Valid()
    ensures !parsed ==> outcome == ParseFailed
    ensures parsed && old(holder.NumEntries()) < 1 ==> outcome == NoCards
    ensures outcome in {ParseFailed, NoCards} || (outcome in {Cancelled, LookupCancelled} && !response.Replace?) ==>
      (db.names == old(db.names) && db.parents == old(db.parents) && db.rows == old(db.rows))
    ensures outcome == LookupCancelled ==> lookupCancelled && HasName(holder.name)
    ensures lookupCancelled ==> outcome in {ParseFailed, NoCards, ReplaceFailed, Cancelled, LookupCancelled}
    ensures outcome.Imported? ==>
      (!lookupCancelled && HasName(holder.name) && outcome.name == holder.name.value
       && db.Named(outcome.name).Some?
       && db.Cards(db.Named(outcome.name).value) == ResolveAll(lookup, old(holder.entries)))
  {
    if !parsed {
      return ParseFailed;
    }
    if holder.NumEntries() < 1 {
      return NoCards;
    }
    var children := GetImportName(db, holder, response);
    if children.Err? {
      return ReplaceFailed;
    }
    if !HasName(holder.name) {
      return Cancelled;
    }
    if lookupCancelled {
      return LookupCancelled;
    }
    outcome := CreateAndReparent(db, holder, lookup, children.value);
  }

  /** The last part of `import_cs`: the set is created from a named holder,
      and the children of a replaced set are reparented under it. */
  method CreateAndReparent(db: CardSetDb, holder: CardSetHolder, lookup: CardLookup, children: seq<nat>)
      returns (outcome: ImportOutcome)
    requires db.Valid() && HasName(holder.name)
    modifies db, holder
    ensures db.Valid()
    ensures outcome.CreateFailed? || outcome.ReparentFailed? || outcome == Imported(old(holder.name).value)
    ensures outcome.Imported? ==>
      (HasName(holder.name) && outcome.name == holder.name.value
       && db.Named(outcome.name).Some?
       && db.Cards(db.Named(outcome.name).value) == ResolveAll(lookup, old(holder.entries)))
  {
    var created := holder.CreatePcs(db, lookup);
    if created.Err? {
      return CreateFailed(created.error);
    }
    if exists c :: c in children && c !in db.names {
      // the replaced set was its own parent, so one child is gone
      return ReparentFailed;
    }
    ghost var id := created.value;
    ghost var cards := db.Cards(id);
    var _ := ReparentAllChildren(db, holder.name.value, children);
    assert db.names[id] == holder.name.value;
    assert db.Named(holder.name.value) == Some(id);
    assert db.Cards(id) == cards;
    return Imported(holder.name.value);
  }

  /** `break_existing_loops`: every set, in the order the table lists them,
      that `detect_loop` finds on or below a loop has the loop broken with
      `break_loop`.  Afterwards no set has a loop, only parent links were
      cleared, and a relation without loops is left alone. */
  method BreakExistingLoops(db: CardSetDb, all: seq<nat>) returns (broken: seq<nat>)
    requires db.Valid() && forall id :: id in db.names <==> id in all
    modifies db
    ensures db.Valid() && db.names == old(db.names) && db.rows == old(db.rows)
    ensures Acyclic(db.parents)
    ensures forall id :: id in db.parents ==> db.parents[id] in {old(db.parents)[id], None}
    ensures old(Acyclic(db.parents)) ==> db.parents == old(db.parents) && broken == []
  {
    broken := [];
    var i := 0;
    while i < |all|
      invariant 0 <= i <= |all|
      invariant db.Valid() && db.names == old(db.names) && db.rows == old(db.rows)
      invariant BreakProgress(old(db.parents), db.parents, all, i)
      invariant old(Acyclic(db.parents)) ==> db.parents == old(db.parents) && broken == []
    {
      var p := db.parents;
      BreakStep(old(db.parents), p, all, i);
      if DetectLoop(p, all[i]) {
        var x := BreakPoint(p, all[i]);
        db.SetParent(x, None);
        broken := broken + [x];
      }
      i := i + 1;
    }
    AllLoopFree(db.parents, all);
  }

  /** The relation after one step of the loop breaking at s. */
  function BreakNext(p: Parents, s: nat): (q: Parents)
    ensures q.Keys == p.Keys
  {
    if DetectLoop(p, s) then BreakLoop(p, s) else p
  }

  /** What the loop breaking keeps after its first i steps: every link of
      the original relation p0 is kept or cleared, and none of the first i
      sets is on or below a loop. */
  ghost predicate BreakProgress(p0: Parents, p: Parents, all: seq<nat>, i: nat)
  {
    p.Keys == p0.Keys
    && (forall id :: id in p ==> p[id] in {p0[id], None})
    && (forall k :: 0 <= k < i && k < |all| ==> !DetectLoop(p, all[k]))
  }

  /** One more step of the loop breaking keeps its progress. */
  lemma BreakStep(p0: Parents, p: Parents, all: seq<nat>, i: nat)
    requires i < |all| && BreakProgress(p0, p, all, i)
    ensures BreakProgress(p0, BreakNext(p, all[i]), all, i + 1)
    ensures Acyclic(p0) && p == p0 ==> BreakNext(p, all[i]) == p
  {
    if DetectLoop(p, all[i]) {
      BreakLoopFrees(p, all[i]);
    }
  }

  /** When every set was visited, no set is left on or below a loop. */
  lemma AllLoopFree(p: Parents, all: seq<nat>)
    requires forall id :: id in p ==> id in all
    requires forall k :: 0 <= k < |all| ==> !DetectLoop(p, all[k])
    ensures Acyclic(p)
  {
    forall t | t in p
      ensures !DetectLoop(p, t)
    {
      var k :| 0 <= k < |all| && all[k] == t;
    }
  }
}
