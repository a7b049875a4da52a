/** The generic part of the database upgrade: the parents-first rounds in
    which card sets are copied, the card-set holders made from the old
    sets, and how the per-table copy results are folded together. */
module DatabaseUpgrade {
  import opened Wrappers
  import opened CardSetGraph
  import opened CardSets
  import opened CardSetHolder
  import opened CardSetMembership
  import opened UpgradeResults

  /** A card set of the old database: its id, name, parent id and the
      physical cards it holds, in the order the old tables list them. */
  datatype OldSet = OldSet(id: nat, name: string, parent: Option<nat>, cards: seq<PhysicalCard>)

  /** The ids of a list of sets. */
  function Ids(sets: seq<OldSet>): set<nat>
  {
    set s | s in sets :: s.id
  }

  /** The parent relation of a list of sets. */
  function ParentsOf(sets: seq<OldSet>): (p: Parents)
    ensures p.Keys == Ids(sets)
  {
    if |sets| == 0 then map[]
    else
      var s := sets[|sets| - 1];
      assert forall t :: t in sets ==> t in sets[..|sets| - 1] || t == s;
      ParentsOf(sets[..|sets| - 1])[s.id := s.parent]
  }

  /** Each set's own parent link is the relation's link for its id, when ids
      are distinct. */
  lemma {:induction false} ParentsOfLink(sets: seq<OldSet>, k: nat)
    requires k < |sets| && forall i, j :: 0 <= i < j < |sets| ==> sets[i].id != sets[j].id
    ensures ParentsOf(sets)[sets[k].id] == sets[k].parent
  {
    if k < |sets| - 1 {
      ParentsOfLink(sets[..|sets| - 1], k);
    }
  }

  /** What the old database guarantees: ids and names are unique, every
      parent is one of the sets, and no set lies on or below a loop. */
  ghost predicate WellFormed(sets: seq<OldSet>)
  {
    (forall i, j :: 0 <= i < j < |sets| ==> sets[i].id != sets[j].id && sets[i].name != sets[j].name)
    && (forall s :: s in sets && s.parent.Some? ==> s.parent.value in Ids(sets))
    && Acyclic(ParentsOf(sets))
  }

  /** A set can be copied once its parent is absent or already copied. */
  predicate Ready(s: OldSet, done: set<nat>)
  {
    s.parent.None? || s.parent.value in done
  }

  /** One pass over the sets still to copy, given the ids already copied: the
      sets copied in this pass, in order (a set can rely on a parent copied
      earlier in the same pass), and the sets left for the next pass. */
  function Round(todo: seq<OldSet>, done: set<nat>): (r: (seq<OldSet>, seq<OldSet>))
    ensures |r.0| + |r.1| == |todo|
  {
    if |todo| == 0 then ([], [])
    else if Ready(todo[0], done) then
      var next := Round(todo[1..], done + {todo[0].id});
      ([todo[0]] + next.0, next.1)
    else
      var next := Round(todo[1..], done);
      (next.0, [todo[0]] + next.1)
  }

  /** A pass splits the sets it is given: each of them is copied or left. */
  lemma {:induction false} RoundSplits(todo: seq<OldSet>, done: set<nat>)
    ensures multiset(Round(todo, done).0) + multiset(Round(todo, done).1) == multiset(todo)
  {
    if |todo| > 0 {
      assert todo == [todo[0]] + todo[1..];
      if Ready(todo[0], done) {
        RoundSplits(todo[1..], done + {todo[0].id});
      } else {
        RoundSplits(todo[1..], done);
      }
    }
  }

  /** Every set a pass copies was ready when its turn came. */
  lemma {:induction false} RoundReady(todo: seq<OldSet>, done: set<nat>)
    ensures forall k :: 0 <= k < |Round(todo, done).0| ==>
      Ready(Round(todo, done).0[k], done + Ids(Round(todo, done).0[..k]))
  {
    if |todo| > 0 {
      if Ready(todo[0], done) {
        var x := todo[0];
        var d := done + {x.id};
        RoundReady(todo[1..], d);
        var c1 := Round(todo[1..], d).0;
        assert Ids([x]) == {x.id} && [x][..0] == [];
        ConcatReady([x], c1, done);
        assert Round(todo, done).0 == [x] + c1;
      } else {
        RoundReady(todo[1..], done);
      }
    }
  }

  /** A pass over sets of which one is ready copies at least one set. */
  lemma {:induction false} RoundProgress(todo: seq<OldSet>, done: set<nat>, k: nat)
    requires k < |todo| && Ready(todo[k], done)
    ensures |Round(todo, done).1| < |todo|
  {
    if !Ready(todo[0], done) {
      assert k > 0;
      RoundProgress(todo[1..], done, k - 1);
    }
  }

  /** A pass over sets whose parents all lie in a group x of sets none of
      which is copied copies nothing: the rounds over a loop never end. */
  lemma {:induction false} RoundStuck(todo: seq<OldSet>, done: set<nat>, x: set<nat>)
    requires forall s :: s in todo ==> s.parent.Some? && s.parent.value in x
    requires x !! done
    ensures Round(todo, done) == ([], todo)
  {
    if |todo| > 0 {
      assert todo[0] in todo;
      assert forall s :: s in todo[1..] ==> s in todo;
      RoundStuck(todo[1..], done, x);
      assert todo == [todo[0]] + todo[1..];
    }
  }

  /** The sets still to copy are consistent with the relation p: each is
      known to p with its own link and lies below no loop, and its parent
      is already copied or still to copy. */
  ghost predicate Consistent(p: Parents, todo: seq<OldSet>, done: set<nat>)
  {
    (forall s :: s in todo ==> s.id in p && p[s.id] == s.parent && !DetectLoop(p, s.id))
    && (forall s :: s in todo && s.parent.Some? ==> s.parent.value in done || s.parent.value in Ids(todo))
  }

  /** Among consistent sets to copy, the shallowest one is ready. */
  lemma ReadyExists(p: Parents, todo: seq<OldSet>, done: set<nat>) returns (k: nat)
    requires |todo| > 0 && Consistent(p, todo, done)
    ensures k < |todo| && Ready(todo[k], done)
  {
    k := Shallowest(p, todo);
    var m := todo[k];
    assert m in todo;
    if m.parent.Some? {
      var t := m.parent.value;
      DepthUp(p, m.id, t);
      assert forall s :: s in todo ==> s.id != t;
    }
  }

  /** A pass over consistent sets copies at least one of them. */
  lemma RoundAdvances(p: Parents, todo: seq<OldSet>, done: set<nat>)
    requires |todo| > 0 && Consistent(p, todo, done)
    ensures |Round(todo, done).1| < |todo|
  {
    var k := ReadyExists(p, todo, done);
    RoundProgress(todo, done, k);
  }

  /** The position of a set of least depth. */
  lemma {:induction false} Shallowest(p: Parents, todo: seq<OldSet>) returns (k: nat)
    requires |todo| > 0
    requires forall s :: s in todo ==> !DetectLoop(p, s.id)
    ensures k < |todo|
    ensures forall s :: s in todo ==> Depth(p, todo[k].id) <= Depth(p, s.id)
  {
    if |todo| == 1 {
      k := 0;
    } else {
      assert forall s :: s in todo[1..] ==> s in todo;
      var j := Shallowest(p, todo[1..]);
      assert todo[1..][j] == todo[j + 1];
      assert forall s :: s in todo ==> s == todo[0] || s in todo[1..];
      if Depth(p, todo[0].id) <= Depth(p, todo[j + 1].id) {
        k := 0;
      } else {
        k := j + 1;
      }
    }
  }

  /** The sets a pass leaves are consistent again, with the sets it copied
      counted as done. */
  lemma RoundConsistent(p: Parents, todo: seq<OldSet>, done: set<nat>)
    requires Consistent(p, todo, done)
    ensures Consistent(p, Round(todo, done).1, done + Ids(Round(todo, done).0))
  {
    var r := Round(todo, done);
    RoundSplits(todo, done);
    assert forall s :: s in todo <==> s in r.0 || s in r.1 by {
      forall s
        ensures s in todo <==> s in r.0 || s in r.1
      {
        assert s in multiset(todo) <==> s in multiset(r.0) || s in multiset(r.1);
      }
    }
  }

  /** The order in which the rounds copy the sets. */
  ghost function Rounds(p: Parents, todo: seq<OldSet>, done: set<nat>): seq<OldSet>
    requires Consistent(p, todo, done)
    decreases |todo|
  {
    if |todo| == 0 then []
    else
      var r := Round(todo, done);
      RoundAdvances(p, todo, done);
      RoundConsistent(p, todo, done);
      r.0 + Rounds(p, r.1, done + Ids(r.0))
  }

  /** The rounds copy each set exactly once, and each only after its parent. */
  lemma {:induction false} RoundsOrder(p: Parents, todo: seq<OldSet>, done: set<nat>)
    requires Consistent(p, todo, done)
    ensures multiset(Rounds(p, todo, done)) == multiset(todo)
    ensures forall k :: 0 <= k < |Rounds(p, todo, done)| ==>
      Ready(Rounds(p, todo, done)[k], done + Ids(Rounds(p, todo, done)[..k]))
    decreases |todo|
  {
    if |todo| > 0 {
      var r := Round(todo, done);
      RoundAdvances(p, todo, done);
      RoundConsistent(p, todo, done);
      RoundSplits(todo, done);
      RoundReady(todo, done);
      var d := done + Ids(r.0);
      RoundsOrder(p, r.1, d);
      ConcatReady(r.0, Rounds(p, r.1, d), done);
    }
  }

  /** Sets copied in order with their parents ready, followed by more sets
      copied in order once the first ones are done, are copied in order. */
  lemma ConcatReady(a: seq<OldSet>, b: seq<OldSet>, done: set<nat>)
    requires forall k :: 0 <= k < |a| ==> Ready(a[k], done + Ids(a[..k]))
    requires forall k :: 0 <= k < |b| ==> Ready(b[k], done + Ids(a) + Ids(b[..k]))
    ensures forall k :: 0 <= k < |a + b| ==> Ready((a + b)[k], done + Ids((a + b)[..k]))
  {
    forall j | 0 <= j < |a + b|
      ensures Ready((a + b)[j], done + Ids((a + b)[..j]))
    {
      if j < |a| {
        assert (a + b)[..j] == a[..j];
      } else {
        assert (a + b)[..j] == a + b[..j - |a|];
        assert Ids((a + b)[..j]) == Ids(a) + Ids(b[..j - |a|]);
      }
    }
  }

  /** The order in which the upgrade copies the old sets. */
  ghost function ParentsFirstOrder(sets: seq<OldSet>): seq<OldSet>
    requires WellFormed(sets)
  {
    StartConsistent(sets);
    Rounds(ParentsOf(sets), sets, {})
  }

  /** A well-formed old database is consistent before anything is copied. */
  lemma StartConsistent(sets: seq<OldSet>)
    requires WellFormed(sets)
    ensures Consistent(ParentsOf(sets), sets, {})
  {
    forall s | s in sets
      ensures ParentsOf(sets)[s.id] == s.parent
    {
      var k :| 0 <= k < |sets| && sets[k] == s;
      ParentsOfLink(sets, k);
    }
  }

  /** order lists the old sets, each as often as they do, and each after
      its parent. */
  ghost predicate CopyOrder(sets: seq<OldSet>, order: seq<OldSet>)
  {
    multiset(order) == multiset(sets)
    && forall k :: 0 <= k < |order| ==> Ready(order[k], Ids(order[..k]))
  }

  /** Every old set appears exactly once in the copy order, after its parent. */
  lemma ParentsFirst(sets: seq<OldSet>)
    requires WellFormed(sets)
    ensures CopyOrder(sets, ParentsFirstOrder(sets))
  {
    StartConsistent(sets);
    RoundsOrder(ParentsOf(sets), sets, {});
    assert {} + Ids(ParentsFirstOrder(sets)[..0]) == {};
    forall k | 0 <= k < |ParentsFirstOrder(sets)|
      ensures Ready(ParentsFirstOrder(sets)[k], Ids(ParentsFirstOrder(sets)[..k]))
    {
      assert {} + Ids(ParentsFirstOrder(sets)[..k]) == Ids(ParentsFirstOrder(sets)[..k]);
    }
  }

  /** Ids and names pick out one old set each. */
  lemma SameSet(sets: seq<OldSet>, x: OldSet, y: OldSet)
    requires WellFormed(sets) && x in sets && y in sets
    requires x.id == y.id || x.name == y.name
    ensures x == y
  {
    var i :| 0 <= i < |sets| && sets[i] == x;
    var j :| 0 <= j < |sets| && sets[j] == y;
    assert !(i < j) && !(j < i);
  }

  /** No old set is listed twice. */
  lemma {:induction false} ListedOnce(sets: seq<OldSet>)
    requires forall i, j :: 0 <= i < j < |sets| ==> sets[i].id != sets[j].id
    ensures forall x :: multiset(sets)[x] <= 1
  {
    if |sets| > 0 {
      var init := sets[..|sets| - 1];
      var last := sets[|sets| - 1];
      ListedOnce(init);
      assert sets == init + [last];
      assert last !in init;
    }
  }

  /** The parent a copy gets: the copy of the original's parent. */
  function CopyParent(parent: Option<nat>, copies: map<nat, nat>): (r: Option<nat>)
    ensures r.None? <==> parent.None? || parent.value !in copies
    ensures r.Some? ==> r.value == copies[parent.value]
  {
    if parent.Some? && parent.value in copies then Some(copies[parent.value]) else None
  }

  /** Each old set's cards, by id. */
  function OwnMap(sets: seq<OldSet>): (m: map<nat, multiset<PhysicalCard>>)
    ensures m.Keys == Ids(sets)
  {
    if |sets| == 0 then map[]
    else
      var s := sets[|sets| - 1];
      assert forall t :: t in sets ==> t in sets[..|sets| - 1] || t == s;
      OwnMap(sets[..|sets| - 1])[s.id := multiset(s.cards)]
  }

  /** With distinct ids, an old set's entry holds its own cards. */
  lemma {:induction false} OwnMapAt(sets: seq<OldSet>, k: nat)
    requires k < |sets| && forall i, j :: 0 <= i < j < |sets| ==> sets[i].id != sets[j].id
    ensures OwnMap(sets)[sets[k].id] == multiset(sets[k].cards)
  {
    if k < |sets| - 1 {
      OwnMapAt(sets[..|sets| - 1], k);
    }
  }

  /** want gives each old set's own cards. */
  ghost predicate Owns(sets: seq<OldSet>, want: map<nat, multiset<PhysicalCard>>)
  {
    forall s :: s in sets ==> s.id in want && want[s.id] == multiset(s.cards)
  }

  /** With distinct ids, each old set's entry holds its own cards. */
  lemma OwnsAll(sets: seq<OldSet>)
    requires WellFormed(sets)
    ensures Owns(sets, OwnMap(sets))
  {
    forall s | s in sets
      ensures s.id in OwnMap(sets) && OwnMap(sets)[s.id] == multiset(s.cards)
    {
      var k :| 0 <= k < |sets| && sets[k] == s;
      OwnMapAt(sets, k);
    }
  }

  /** The new tables (names, parents, rows) hold copies of the old sets
      `copied`, the k-th under id base + k, with the same name, the copy of
      its parent as parent, and its cards; `copies` maps each old id to its
      copy's id, and a parent's copy precedes its child's. */
  ghost predicate Mirrors(names: map<nat, string>, parents: Parents, rows: seq<MapRow>,
                          copied: seq<OldSet>, copies: map<nat, nat>, base: nat,
                   want: map<nat, multiset<PhysicalCard>>)
  {
    copies.Keys == Ids(copied)
    && (forall id :: id in names <==> base <= id < base + |copied|)
    && (forall id :: id in parents <==> base <= id < base + |copied|)
    && AllCopiedAt(names, parents, rows, copied, copies, base, want)
  }

  /** The k-th of the sets `copied` is copied under id base + k. */
  ghost predicate AllCopiedAt(names: map<nat, string>, parents: Parents, rows: seq<MapRow>,
                              copied: seq<OldSet>, copies: map<nat, nat>, base: nat,
                              want: map<nat, multiset<PhysicalCard>>)
  {
    forall k :: 0 <= k < |copied| ==> CopiedAt(names, parents, rows, copied[k], copies, base + k, want)
  }

  /** Old set s is copied under id. */
  ghost predicate CopiedAt(names: map<nat, string>, parents: Parents, rows: seq<MapRow>,
                           s: OldSet, copies: map<nat, nat>, id: nat,
                   want: map<nat, multiset<PhysicalCard>>)
  {
    s.id in copies && copies[s.id] == id
    && id in names && names[id] == s.name
    && id in parents && parents[id] == CopyParent(s.parent, copies)
    && s.id in want && CardsIn(rows, id) == want[s.id]
    && (s.parent.Some? ==> s.parent.value in copies && copies[s.parent.value] < id)
  }

  /** Copying one more ready set extends the mirror. */
  lemma MirrorStep(names: map<nat, string>, parents: Parents, rows: seq<MapRow>, rows': seq<MapRow>,
                   copied: seq<OldSet>, copies: map<nat, nat>, base: nat, s: OldSet,
                   want: map<nat, multiset<PhysicalCard>>)
    requires Mirrors(names, parents, rows, copied, copies, base, want)
    requires s.id !in copies && Ready(s, copies.Keys)
    requires s.id in want && CardsIn(rows', base + |copied|) == want[s.id]
    requires forall j :: j != base + |copied| ==> CardsIn(rows', j) == CardsIn(rows, j)
    ensures Mirrors(names[base + |copied| := s.name], parents[base + |copied| := CopyParent(s.parent, copies)],
                    rows', copied + [s], copies[s.id := base + |copied|], base, want)
  {
    var id := base + |copied|;
    var names' := names[id := s.name];
    var parents' := parents[id := CopyParent(s.parent, copies)];
    var copies' := copies[s.id := id];
    assert copies'.Keys == Ids(copied + [s]) by {
      IdsStep(copied, s);
    }
    assert forall j :: j in names' <==> base <= j < base + |copied + [s]|;
    assert forall j :: j in parents' <==> base <= j < base + |copied + [s]|;
    EveryCopyStep(names, parents, rows, rows', copied, copies, base, s, want);
  }

  /** The ids of one more set. */
  lemma IdsStep(copied: seq<OldSet>, s: OldSet)
    ensures Ids(copied + [s]) == Ids(copied) + {s.id}
  {
    assert forall t :: t in copied + [s] <==> t in copied || t == s;
  }

  /** Every copy, old and new, is mirrored after one more set is copied. */
  lemma EveryCopyStep(names: map<nat, string>, parents: Parents, rows: seq<MapRow>, rows': seq<MapRow>,
                      copied: seq<OldSet>, copies: map<nat, nat>, base: nat, s: OldSet,
                   want: map<nat, multiset<PhysicalCard>>)
    requires Mirrors(names, parents, rows, copied, copies, base, want)
    requires s.id !in copies && Ready(s, copies.Keys)
    requires s.id in want && CardsIn(rows', base + |copied|) == want[s.id]
    requires forall j :: j != base + |copied| ==> CardsIn(rows', j) == CardsIn(rows, j)
    ensures AllCopiedAt(names[base + |copied| := s.name], parents[base + |copied| := CopyParent(s.parent, copies)],
                        rows', copied + [s], copies[s.id := base + |copied|], base, want)
  {
    KeptAll(names, parents, rows, rows', copied, copies, base, s, want);
    NewCopied(names, parents, rows, rows', copied, copies, base, s, want);
    CopiedSnoc(names[base + |copied| := s.name], parents[base + |copied| := CopyParent(s.parent, copies)],
               rows', copied, s, copies[s.id := base + |copied|], base, want);
  }

  /** Copies of a list of sets and of one more set after them are copies of
      the longer list. */
  lemma CopiedSnoc(names: map<nat, string>, parents: Parents, rows: seq<MapRow>,
                   copied: seq<OldSet>, s: OldSet, copies: map<nat, nat>, base: nat,
                   want: map<nat, multiset<PhysicalCard>>)
    requires AllCopiedAt(names, parents, rows, copied, copies, base, want)
    requires CopiedAt(names, parents, rows, s, copies, base + |copied|, want)
    ensures AllCopiedAt(names, parents, rows, copied + [s], copies, base, want)
  {
    forall k | 0 <= k < |copied| + 1
      ensures CopiedAt(names, parents, rows, (copied + [s])[k], copies, base + k, want)
    {
      if k < |copied| {
        assert (copied + [s])[k] == copied[k];
      } else {
        assert (copied + [s])[k] == s;
      }
    }
  }

  /** The earlier copies are untouched by copying one more set. */
  lemma KeptAll(names: map<nat, string>, parents: Parents, rows: seq<MapRow>, rows': seq<MapRow>,
                copied: seq<OldSet>, copies: map<nat, nat>, base: nat, s: OldSet,
                want: map<nat, multiset<PhysicalCard>>)
    requires AllCopiedAt(names, parents, rows, copied, copies, base, want) && s.id !in copies
    requires forall j :: j != base + |copied| ==> CardsIn(rows', j) == CardsIn(rows, j)
    ensures AllCopiedAt(names[base + |copied| := s.name], parents[base + |copied| := CopyParent(s.parent, copies)],
                        rows', copied, copies[s.id := base + |copied|], base, want)
  {
    var id := base + |copied|;
    forall k | 0 <= k < |copied|
      ensures CopiedAt(names[id := s.name], parents[id := CopyParent(s.parent, copies)],
                       rows', copied[k], copies[s.id := id], base + k, want)
    {
      assert CopiedAt(names, parents, rows, copied[k], copies, base + k, want);
      CopiedKept(names, parents, rows, rows', copied[k], copies, base + k, s, id, want);
    }
  }

  /** The set copied last is mirrored under the next id. */
  lemma NewCopied(names: map<nat, string>, parents: Parents, rows: seq<MapRow>, rows': seq<MapRow>,
                  copied: seq<OldSet>, copies: map<nat, nat>, base: nat, s: OldSet,
                   want: map<nat, multiset<PhysicalCard>>)
    requires Mirrors(names, parents, rows, copied, copies, base, want)
    requires s.id !in copies && Ready(s, copies.Keys)
    requires s.id in want && CardsIn(rows', base + |copied|) == want[s.id]
    ensures CopiedAt(names[base + |copied| := s.name], parents[base + |copied| := CopyParent(s.parent, copies)],
                     rows', s, copies[s.id := base + |copied|], base + |copied|, want)
  {
    if s.parent.Some? {
      var t :| t in copied && t.id == s.parent.value;
      var j :| 0 <= j < |copied| && copied[j] == t;
      assert CopiedAt(names, parents, rows, copied[j], copies, base + j, want);
    }
    assert CopyParent(s.parent, copies[s.id := base + |copied|]) == CopyParent(s.parent, copies);
  }

  /** An earlier copy is untouched by copying one more set under a new id. */
  lemma CopiedKept(names: map<nat, string>, parents: Parents, rows: seq<MapRow>, rows': seq<MapRow>,
                   t: OldSet, copies: map<nat, nat>, k: nat, s: OldSet, id: nat,
                   want: map<nat, multiset<PhysicalCard>>)
    requires CopiedAt(names, parents, rows, t, copies, k, want)
    requires s.id !in copies && k != id && CardsIn(rows', k) == CardsIn(rows, k)
    ensures CopiedAt(names[id := s.name], parents[id := CopyParent(s.parent, copies)], rows', t,
                     copies[s.id := id], k, want)
  {
    assert CopyParent(t.parent, copies[s.id := id]) == CopyParent(t.parent, copies);
  }

  /** A new set holding the cards of old set s, under the given parent. */
  method CopySet(db: CardSetDb, s: OldSet, parent: Option<nat>) returns (id: nat)
    requires db.Valid() && db.Named(s.name).None?
    modifies db
    ensures db.Valid() && id == old(db.nextId) && id !in old(db.names) && db.nextId == id + 1
    ensures db.names == old(db.names)[id := s.name] && db.parents == old(db.parents)[id := parent]
    ensures CardsIn(db.rows, id) == multiset(s.cards)
    ensures forall j :: j != id ==> CardsIn(db.rows, j) == CardsIn(old(db.rows), j)
  {
    var r := db.Create(s.name, parent);
    id := r.value;
    NoRowsOfNewSet(db.rows, id);
    AddEach(db, id, s.cards);
  }

  /** The ids of two lists of sets together. */
  lemma IdsConcat(a: seq<OldSet>, b: seq<OldSet>)
    ensures Ids(a + b) == Ids(a) + Ids(b)
  {
    assert forall t :: t in a + b <==> t in a || t in b;
  }

  /** A set still to copy shares neither id nor name with a copied one. */
  lemma NotYetCopied(sets: seq<OldSet>, copied: seq<OldSet>, rest: seq<OldSet>, s: OldSet)
    requires WellFormed(sets) && multiset(copied) + multiset(rest) == multiset(sets) && s in rest
    ensures forall t :: t in copied ==> t.id != s.id && t.name != s.name
  {
    ListedOnce(sets);
    forall t | t in copied
      ensures t.id != s.id && t.name != s.name
    {
      assert t in multiset(sets) && s in multiset(sets);
      assert multiset(sets)[s] <= 1 && multiset(rest)[s] >= 1;
      assert s !in copied;
      if t.id == s.id || t.name == s.name {
        SameSet(sets, t, s);
      }
    }
  }

  /** A name no copied set has is free in mirrored tables. */
  lemma NameFree(names: map<nat, string>, parents: Parents, rows: seq<MapRow>,
                 copied: seq<OldSet>, copies: map<nat, nat>, base: nat, name: string,
                   want: map<nat, multiset<PhysicalCard>>)
    requires Mirrors(names, parents, rows, copied, copies, base, want)
    requires forall t :: t in copied ==> t.name != name
    ensures forall id :: id in names ==> names[id] != name
  {
    forall id | id in names
      ensures names[id] != name
    {
      var k := id - base;
      assert CopiedAt(names, parents, rows, copied[k], copies, base + k, want);
    }
  }

  /** A pass reached at position i with `added` copied and `left` kept so far. */
  ghost predicate PassAt(todo: seq<OldSet>, done0: set<nat>, i: nat, added: seq<OldSet>, left: seq<OldSet>)
    requires i <= |todo|
  {
    var r := Round(todo[i..], done0 + Ids(added));
    Round(todo, done0) == (added + r.0, left + r.1)
  }

  /** A pass starts with nothing copied and nothing kept. */
  lemma PassStart(todo: seq<OldSet>, done0: set<nat>)
    ensures PassAt(todo, done0, 0, [], [])
  {
    assert todo[0..] == todo;
    assert done0 + Ids([]) == done0;
    var r := Round(todo, done0);
    assert [] + r.0 == r.0 && [] + r.1 == r.1;
  }

  /** At the end of a pass its copied and kept sets are the round's. */
  lemma PassEnd(todo: seq<OldSet>, done0: set<nat>, added: seq<OldSet>, left: seq<OldSet>)
    requires PassAt(todo, done0, |todo|, added, left)
    ensures Round(todo, done0) == (added, left)
  {
    assert todo[|todo|..] == [];
    assert added + [] == added && left + [] == left;
  }

  /** A ready set is copied by the pass. */
  lemma PassCopies(todo: seq<OldSet>, done0: set<nat>, i: nat, added: seq<OldSet>, left: seq<OldSet>)
    requires i < |todo| && PassAt(todo, done0, i, added, left)
    requires Ready(todo[i], done0 + Ids(added))
    ensures PassAt(todo, done0, i + 1, added + [todo[i]], left)
  {
    var s := todo[i];
    var d := done0 + Ids(added);
    assert todo[i..][1..] == todo[i + 1..];
    IdsStep(added, s);
    assert d + {s.id} == done0 + Ids(added + [s]);
    var r := Round(todo[i + 1..], d + {s.id});
    assert Round(todo[i..], d) == ([s] + r.0, r.1);
    assert added + ([s] + r.0) == (added + [s]) + r.0;
    assert Round(todo, done0) == ((added + [s]) + r.0, left + r.1);
  }

  /** A set that is not ready is kept by the pass. */
  lemma PassKeeps(todo: seq<OldSet>, done0: set<nat>, i: nat, added: seq<OldSet>, left: seq<OldSet>)
    requires i < |todo| && PassAt(todo, done0, i, added, left)
    requires !Ready(todo[i], done0 + Ids(added))
    ensures PassAt(todo, done0, i + 1, added, left + [todo[i]])
  {
    var s := todo[i];
    var d := done0 + Ids(added);
    assert todo[i..][1..] == todo[i + 1..];
    var r := Round(todo[i + 1..], d);
    assert Round(todo[i..], d) == (r.0, [s] + r.1);
    assert left + ([s] + r.1) == (left + [s]) + r.1;
  }

  /** A set still to copy is not yet copied and its name is free. */
  lemma CanCopy(names: map<nat, string>, parents: Parents, rows: seq<MapRow>, sets: seq<OldSet>,
                copied: seq<OldSet>, rest: seq<OldSet>, copies: map<nat, nat>, base: nat, s: OldSet,
                   want: map<nat, multiset<PhysicalCard>>)
    requires WellFormed(sets) && multiset(copied) + multiset(rest) == multiset(sets) && s in rest
    requires Mirrors(names, parents, rows, copied, copies, base, want)
    ensures s.id !in copies && s in sets
    ensures forall id :: id in names ==> names[id] != s.name
  {
    assert s in multiset(rest);
    assert multiset(sets)[s] >= multiset(rest)[s] > 0;
    NotYetCopied(sets, copied, rest, s);
    NameFree(names, parents, rows, copied, copies, base, s.name, want);
  }

  /** The tables after copying a ready set under the next id mirror one
      more set. */
  lemma ReadyStep(names: map<nat, string>, parents: Parents, rows: seq<MapRow>,
                  names': map<nat, string>, parents': Parents, rows': seq<MapRow>,
                  copied: seq<OldSet>, copies: map<nat, nat>, base: nat,
                  want: map<nat, multiset<PhysicalCard>>, s: OldSet, id: nat, parent: Option<nat>)
    requires Mirrors(names, parents, rows, copied, copies, base, want)
    requires s.id !in copies && (s.parent.None? || s.parent.value in copies)
    requires parent == (if s.parent.Some? then Some(copies[s.parent.value]) else None)
    requires s.id in want && id == base + |copied|
    requires names' == names[id := s.name] && parents' == parents[id := parent]
    requires CardsIn(rows', id) == want[s.id]
    requires forall j :: j != id ==> CardsIn(rows', j) == CardsIn(rows, j)
    ensures Mirrors(names', parents', rows', copied + [s], copies[s.id := id], base, want)
  {
    assert parent == CopyParent(s.parent, copies);
    MirrorStep(names, parents, rows, rows', copied, copies, base, s, want);
  }

  /** The copy of one ready set, with the copy of its parent as parent. */
  method CopyReady(db: CardSetDb, sets: seq<OldSet>, s: OldSet, copies: map<nat, nat>,
                   ghost copied: seq<OldSet>, ghost rest: seq<OldSet>, ghost base: nat,
                   ghost want: map<nat, multiset<PhysicalCard>>)
      returns (copies': map<nat, nat>)
    requires db.Valid() && WellFormed(sets) && Owns(sets, want) && db.nextId == base + |copied|
    requires Mirrors(db.names, db.parents, db.rows, copied, copies, base, want)
    requires multiset(copied) + multiset(rest) == multiset(sets) && s in rest
    requires s.parent.None? || s.parent.value in copies
    modifies db
    ensures db.Valid() && db.nextId == base + |copied| + 1
    ensures Mirrors(db.names, db.parents, db.rows, copied + [s], copies', base, want)
  {
    CanCopy(db.names, db.parents, db.rows, sets, copied, rest, copies, base, s, want);
    ghost var names0, parents0, rows0 := db.names, db.parents, db.rows;
    var parent := if s.parent.Some? then Some(copies[s.parent.value]) else None;
    var id := CopySet(db, s, parent);
    assert s.id in want && want[s.id] == multiset(s.cards);
    ReadyStep(names0, parents0, rows0, db.names, db.parents, db.rows, copied, copies, base, want, s, id, parent);
    copies' := copies[s.id := id];
  }

  /** One pass of `copy_physical_card_set_loop`: each set in turn whose
      parent is absent or already copied is copied, with the copy of its
      parent as parent and its cards; the others are kept for the next pass. */
  method CopyRound(db: CardSetDb, sets: seq<OldSet>, todo: seq<OldSet>, copies: map<nat, nat>,
                   ghost copied: seq<OldSet>, ghost base: nat, ghost want: map<nat, multiset<PhysicalCard>>)
      returns (copies': map<nat, nat>, left: seq<OldSet>, ghost added: seq<OldSet>)
    requires db.Valid() && WellFormed(sets) && Owns(sets, want) && db.nextId == base + |copied|
    requires Mirrors(db.names, db.parents, db.rows, copied, copies, base, want)
    requires multiset(copied) + multiset(todo) == multiset(sets)
    modifies db
    ensures db.Valid() && db.nextId == base + |copied| + |added|
    ensures Mirrors(db.names, db.parents, db.rows, copied + added, copies', base, want)
    ensures added == Round(todo, Ids(copied)).0 && left == Round(todo, Ids(copied)).1
    ensures multiset(copied) + multiset(added) + multiset(left) == multiset(sets)
  {
    left := [];
    copies' := copies;
    added := [];
    ghost var done0 := Ids(copied);
    assert copied + added == copied;
    assert todo[0..] == todo;
    PassStart(todo, done0);
    var i := 0;
    while i < |todo|
      invariant 0 <= i <= |todo|
      invariant db.Valid() && db.nextId == base + |copied| + |added|
      invariant Mirrors(db.names, db.parents, db.rows, copied + added, copies', base, want)
      invariant Tally(sets, copied, added, left, todo[i..])
      invariant PassAt(todo, done0, i, added, left)
    {
      copies', left, added := Visit(db, sets, todo, i, copies', copied, base, want, added, left);
      i := i + 1;
    }
    TallyEnd(sets, copied, added, left, todo[i..]);
    PassEnd(todo, done0, added, left);
  }

  /** The step of a pass at position i: the set there is copied if its
      parent is absent or copied, and kept for the next pass otherwise. */
  method Visit(db: CardSetDb, sets: seq<OldSet>, todo: seq<OldSet>, i: nat, copies: map<nat, nat>,
               ghost copied: seq<OldSet>, ghost base: nat, ghost want: map<nat, multiset<PhysicalCard>>,
               ghost added: seq<OldSet>, left: seq<OldSet>)
      returns (copies': map<nat, nat>, left': seq<OldSet>, ghost added': seq<OldSet>)
    requires i < |todo| && db.Valid() && WellFormed(sets) && Owns(sets, want)
    requires db.nextId == base + |copied| + |added|
    requires Mirrors(db.names, db.parents, db.rows, copied + added, copies, base, want)
    requires Tally(sets, copied, added, left, todo[i..])
    requires PassAt(todo, Ids(copied), i, added, left)
    modifies db
    ensures db.Valid() && db.nextId == base + |copied| + |added'|
    ensures Mirrors(db.names, db.parents, db.rows, copied + added', copies', base, want)
    ensures Tally(sets, copied, added', left', todo[i + 1..])
    ensures PassAt(todo, Ids(copied), i + 1, added', left')
  {
    var s := todo[i];
    if s.parent.None? || s.parent.value in copies {
      StepCopies(sets, todo, i, copied, added, left, copies.Keys);
      copies' := CopyReady(db, sets, s, copies, copied + added, left + todo[i..], base, want);
      added' := added + [s];
      left' := left;
    } else {
      StepKeeps(sets, todo, i, copied, added, left, copies.Keys);
      copies' := copies;
      added' := added;
      left' := left + [s];
    }
  }

  /** The bookkeeping of a pass when the set at position i is copied. */
  lemma StepCopies(sets: seq<OldSet>, todo: seq<OldSet>, i: nat, copied: seq<OldSet>,
                   added: seq<OldSet>, left: seq<OldSet>, done: set<nat>)
    requires i < |todo| && done == Ids(copied + added) && Ready(todo[i], done)
    requires Tally(sets, copied, added, left, todo[i..])
    requires PassAt(todo, Ids(copied), i, added, left)
    ensures multiset(copied + added) + multiset(left + todo[i..]) == multiset(sets) && todo[i] in left + todo[i..]
    ensures copied + added + [todo[i]] == copied + (added + [todo[i]])
    ensures Tally(sets, copied, added + [todo[i]], left, todo[i + 1..])
    ensures PassAt(todo, Ids(copied), i + 1, added + [todo[i]], left)
  {
    IdsConcat(copied, added);
    assert todo[i..][0] == todo[i] && todo[i..][1..] == todo[i + 1..];
    TallyCopies(sets, copied, added, left, todo[i..]);
    PassCopies(todo, Ids(copied), i, added, left);
  }

  /** The bookkeeping of a pass when the set at position i is kept. */
  lemma StepKeeps(sets: seq<OldSet>, todo: seq<OldSet>, i: nat, copied: seq<OldSet>,
                  added: seq<OldSet>, left: seq<OldSet>, done: set<nat>)
    requires i < |todo| && done == Ids(copied + added) && !Ready(todo[i], done)
    requires Tally(sets, copied, added, left, todo[i..])
    requires PassAt(todo, Ids(copied), i, added, left)
    ensures Tally(sets, copied, added, left + [todo[i]], todo[i + 1..])
    ensures PassAt(todo, Ids(copied), i + 1, added, left + [todo[i]])
  {
    IdsConcat(copied, added);
    assert todo[i..][0] == todo[i] && todo[i..][1..] == todo[i + 1..];
    TallyKeeps(sets, copied, added, left, todo[i..]);
    PassKeeps(todo, Ids(copied), i, added, left);
  }

  /** The old sets are the copied ones, those copied in this pass, those
      kept for the next pass and those still to look at. */
  ghost predicate Tally(sets: seq<OldSet>, copied: seq<OldSet>, added: seq<OldSet>,
                        left: seq<OldSet>, rest: seq<OldSet>)
  {
    multiset(copied) + multiset(added) + multiset(left) + multiset(rest) == multiset(sets)
  }

  /** Copying the next set keeps the tally. */
  lemma TallyCopies(sets: seq<OldSet>, copied: seq<OldSet>, added: seq<OldSet>,
                    left: seq<OldSet>, rest: seq<OldSet>)
    requires Tally(sets, copied, added, left, rest) && |rest| > 0
    ensures Tally(sets, copied, added + [rest[0]], left, rest[1..])
    ensures multiset(copied + added) + multiset(left + rest) == multiset(sets) && rest[0] in left + rest
  {
    assert rest == [rest[0]] + rest[1..];
  }

  /** Keeping the next set for the next pass keeps the tally. */
  lemma TallyKeeps(sets: seq<OldSet>, copied: seq<OldSet>, added: seq<OldSet>,
                   left: seq<OldSet>, rest: seq<OldSet>)
    requires Tally(sets, copied, added, left, rest) && |rest| > 0
    ensures Tally(sets, copied, added, left + [rest[0]], rest[1..])
  {
    assert rest == [rest[0]] + rest[1..];
  }

  /** At the end of a pass nothing is left to look at. */
  lemma TallyEnd(sets: seq<OldSet>, copied: seq<OldSet>, added: seq<OldSet>,
                 left: seq<OldSet>, rest: seq<OldSet>)
    requires Tally(sets, copied, added, left, rest) && rest == []
    ensures multiset(copied) + multiset(added) + multiset(left) == multiset(sets)
  {
  }

  /** Between passes: the sets still to copy and the copied ones make up
      the old sets, and the rounds still to come finish the copy order. */
  ghost predicate Pending(p: Parents, sets: seq<OldSet>, copied: seq<OldSet>, todo: seq<OldSet>, order: seq<OldSet>)
  {
    multiset(copied) + multiset(todo) == multiset(sets)
    && Consistent(p, todo, Ids(copied))
    && copied + Rounds(p, todo, Ids(copied)) == order
  }

  /** Before the first pass every set is pending and the rounds to come
      are the whole copy order. */
  lemma StartPending(sets: seq<OldSet>)
    requires WellFormed(sets)
    ensures Pending(ParentsOf(sets), sets, [], sets, ParentsFirstOrder(sets))
  {
    var p := ParentsOf(sets);
    StartConsistent(sets);
    var none: seq<OldSet> := [];
    assert Ids(none) == {};
    assert multiset(none) + multiset(sets) == multiset(sets);
    assert Consistent(p, sets, Ids(none));
    assert none + Rounds(p, sets, Ids(none)) == ParentsFirstOrder(sets);
  }

  /** After one pass the rounds go on from the sets it left, or are done. */
  lemma RoundsNext(p: Parents, sets: seq<OldSet>, todo: seq<OldSet>, copied: seq<OldSet>, order: seq<OldSet>)
    requires Pending(p, sets, copied, todo, order)
    ensures var r := Round(todo, Ids(copied));
      && (r.1 != [] ==> Pending(p, sets, copied + r.0, r.1, order) && |r.1| < |todo|)
      && (r.1 == [] ==> copied + r.0 == order)
      && multiset(copied) + multiset(todo) == multiset(sets)
  {
    var r := Round(todo, Ids(copied));
    if r.1 != [] {
      NextPending(p, sets, todo, copied, order);
    } else {
      NextDone(p, todo, copied, order);
    }
  }

  /** A pass that leaves sets to copy leaves them pending. */
  lemma NextPending(p: Parents, sets: seq<OldSet>, todo: seq<OldSet>, copied: seq<OldSet>, order: seq<OldSet>)
    requires Pending(p, sets, copied, todo, order)
    ensures var r := Round(todo, Ids(copied));
      Pending(p, sets, copied + r.0, r.1, order) && (|todo| > 0 ==> |r.1| < |todo|)
  {
    var d := Ids(copied);
    var r := Round(todo, d);
    assert Ids(copied + r.0) == d + Ids(r.0) by {
      IdsConcat(copied, r.0);
    }
    assert multiset(copied + r.0) + multiset(r.1) == multiset(sets) by {
      RoundSplits(todo, d);
    }
    assert Consistent(p, r.1, d + Ids(r.0)) && Rounds(p, todo, d) == r.0 + Rounds(p, r.1, d + Ids(r.0))
        && (|todo| > 0 ==> |r.1| < |todo|) by {
      RoundsUnfold(p, todo, d);
    }
    Associative(copied, r.0, Rounds(p, r.1, d + Ids(r.0)));
  }

  /** Joining lists of sets is associative. */
  lemma Associative(a: seq<OldSet>, b: seq<OldSet>, c: seq<OldSet>)
    ensures a + (b + c) == (a + b) + c
  {
  }

  /** A pass that leaves nothing finishes the copy order. */
  lemma NextDone(p: Parents, todo: seq<OldSet>, copied: seq<OldSet>, order: seq<OldSet>)
    requires Consistent(p, todo, Ids(copied)) && copied + Rounds(p, todo, Ids(copied)) == order
    requires Round(todo, Ids(copied)).1 == []
    ensures copied + Round(todo, Ids(copied)).0 == order
  {
    var d := Ids(copied);
    var r := Round(todo, d);
    RoundsUnfold(p, todo, d);
    assert r.0 + Rounds(p, r.1, d + Ids(r.0)) == r.0;
  }

  /** The rounds are one pass followed by the rounds over what it left. */
  lemma RoundsUnfold(p: Parents, todo: seq<OldSet>, done: set<nat>)
    requires Consistent(p, todo, done)
    ensures var r := Round(todo, done);
      && Consistent(p, r.1, done + Ids(r.0))
      && Rounds(p, todo, done) == r.0 + Rounds(p, r.1, done + Ids(r.0))
      && (|todo| > 0 ==> |r.1| < |todo|)
  {
    RoundConsistent(p, todo, done);
    if |todo| > 0 {
      RoundAdvances(p, todo, done);
    } else {
      assert Round(todo, done) == ([], []);
    }
  }

  /** `copy_physical_card_set_loop`: passes over the sets still to copy
      until none is left.  The new tables then hold one copy of every old
      set, in parents-first order, each with its name, its cards and the
      copy of its parent as parent.  (On a relation with a loop the passes
      never end; see `RoundStuck`.) */
  method CopyPhysicalCardSetLoop(db: CardSetDb, sets: seq<OldSet>) returns (copies: map<nat, nat>)
    requires db.Valid() && db.names == map[] && WellFormed(sets)
    modifies db
    ensures db.Valid()
    ensures Mirrors(db.names, db.parents, db.rows, ParentsFirstOrder(sets), copies, old(db.nextId), OwnMap(sets))
  {
    ghost var base := db.nextId;
    ghost var p := ParentsOf(sets);
    ghost var order := ParentsFirstOrder(sets);
    ghost var want := OwnMap(sets);
    StartPending(sets);
    OwnsAll(sets);
    copies := map[];
    ghost var copied: seq<OldSet> := [];
    var todo := sets;
    var finished := false;
    while !finished
      invariant db.Valid() && db.nextId == base + |copied|
      invariant Mirrors(db.names, db.parents, db.rows, copied, copies, base, want)
      invariant !finished ==> Pending(p, sets, copied, todo, order)
      invariant finished ==> copied == order
      decreases if finished then 0 else |todo| + 1
    {
      RoundsNext(p, sets, todo, copied, order);
      var left;
      ghost var added;
      copies, left, added := CopyRound(db, sets, todo, copies, copied, base, want);
      copied := copied + added;
      if left == [] {
        finished := true;
      } else {
        todo := left;
      }
    }
  }

  /** The entry a holder stages for a physical card: the card's canonical
      name and its expansion's name. */
  function EntryOf(c: PhysicalCard): Entry
  {
    Entry(c.card, c.expansion)
  }

  /** The entries staged for a list of cards, one copy per card. */
  function Staged(cards: seq<PhysicalCard>): (m: multiset<Entry>)
    ensures |m| == |cards|
  {
    if |cards| == 0 then multiset{}
    else Staged(cards[..|cards| - 1]) + multiset{EntryOf(cards[|cards| - 1])}
  }

  /** Each card is staged as often as the set holds it, and nothing else is
      staged. */
  lemma StagedCounts(cards: seq<PhysicalCard>, c: PhysicalCard, e: Entry)
    ensures Staged(cards)[EntryOf(c)] == multiset(cards)[c]
    ensures e in Staged(cards) ==> PhysicalCard(e.name, e.expansion) in cards
  {
    StagedCount(cards, c);
    StagedOnly(cards, e);
  }

  /** A card is staged as often as the set holds it. */
  lemma {:induction false} StagedCount(cards: seq<PhysicalCard>, c: PhysicalCard)
    ensures Staged(cards)[EntryOf(c)] == multiset(cards)[c]
  {
    if |cards| > 0 {
      var init := cards[..|cards| - 1];
      var last := cards[|cards| - 1];
      assert cards == init + [last];
      assert multiset(cards) == multiset(init) + multiset{last};
      StagedCount(init, c);
      assert EntryOf(last) == EntryOf(c) <==> last == c;
    }
  }

  /** Only the entries of the set's cards are staged. */
  lemma {:induction false} StagedOnly(cards: seq<PhysicalCard>, e: Entry)
    ensures e in Staged(cards) ==> PhysicalCard(e.name, e.expansion) in cards
  {
    if |cards| > 0 {
      var init := cards[..|cards| - 1];
      var last := cards[|cards| - 1];
      assert cards == init + [last];
      StagedOnly(init, e);
    }
  }

  /** Adding one copy of an entry is a multiset union. */
  lemma AddedOne(m: multiset<Entry>, e: Entry)
    ensures Added(m, e, 1) == m + multiset{e}
  {
    assert forall d :: Added(m, e, 1)[d] == (m + multiset{e})[d];
  }

  /** Staging a card set and committing it with a lookup that knows every
      card under its own name and every expansion gives back exactly the
      set's cards. */
  lemma {:induction false} StagedResolves(lookup: CardLookup, cards: seq<PhysicalCard>)
    requires forall c :: c in cards ==> c.card in lookup.cards && lookup.cards[c.card] == c.card
    requires forall c :: c in cards && c.expansion.Some? ==> c.expansion.value in lookup.expansions
    ensures ResolveAll(lookup, Staged(cards)) == multiset(cards)
  {
    if |cards| > 0 {
      var init := cards[..|cards| - 1];
      var last := cards[|cards| - 1];
      assert cards == init + [last];
      StagedResolves(lookup, init);
      ResolveSnoc(lookup, Staged(init), EntryOf(last));
      assert last in cards;
      assert ResolveOne(lookup, EntryOf(last)) == multiset{last};
      assert multiset(cards) == multiset(init) + multiset{last};
    }
  }

  /** Committing one more entry adds what that entry resolves to. */
  lemma ResolveSnoc(lookup: CardLookup, m: multiset<Entry>, e: Entry)
    ensures ResolveAll(lookup, m + multiset{e}) == ResolveOne(lookup, e) + ResolveAll(lookup, m)
  {
    ResolveAllPick(lookup, m + multiset{e}, e);
    assert m + multiset{e} - multiset{e} == m;
  }

  /** The name of the set with the given id, if one is listed. */
  function NameOf(sets: seq<OldSet>, id: nat): (r: Option<string>)
    ensures r.Some? ==> exists k :: 0 <= k < |sets| && sets[k].id == id && sets[k].name == r.value
    ensures r.None? ==> forall s :: s in sets ==> s.id != id
  {
    if |sets| == 0 then None
    else if sets[0].id == id then Some(sets[0].name)
    else
      var r := NameOf(sets[1..], id);
      assert forall s :: s in sets ==> s == sets[0] || s in sets[1..];
      assert r.Some? ==> exists k :: 1 <= k < |sets| && sets[k].id == id && sets[k].name == r.value by {
        if r.Some? {
          var k :| 0 <= k < |sets[1..]| && sets[1..][k].id == id && sets[1..][k].name == r.value;
          assert sets[k + 1] == sets[1..][k];
        }
      }
      r
  }

  /** The holder `make_card_set_holder` makes for old set s: its name, the
      name of its parent and one entry per card. */
  ghost predicate MadeFrom(h: CardSetHolder, sets: seq<OldSet>, s: OldSet)
    reads h
  {
    h.name == Some(s.name)
    && h.parent == (if s.parent.Some? then NameOf(sets, s.parent.value) else None)
    && h.entries == Staged(s.cards)
    && h.warnings == []
  }

  /** `make_card_set_holder`: a new holder with the set's name and its
      parent's name, and one `add(1, card, expansion)` per card of the set. */
  method MakeCardSetHolder(sets: seq<OldSet>, s: OldSet) returns (h: CardSetHolder)
    ensures fresh(h) && MadeFrom(h, sets, s)
  {
    var parentName := if s.parent.Some? then NameOf(sets, s.parent.value) else None;
    h := new CardSetHolder();
    h.name := Some(s.name);
    h.parent := parentName;
    var i := 0;
    while i < |s.cards|
      invariant 0 <= i <= |s.cards|
      invariant h.name == Some(s.name) && h.parent == parentName && h.warnings == []
      invariant h.entries == Staged(s.cards[..i])
    {
      var c := s.cards[i];
      AddedOne(h.entries, EntryOf(c));
      h.Add(1, c.card, c.expansion);
      assert s.cards[..i + 1][..i] == s.cards[..i];
      i := i + 1;
    }
    assert s.cards[..i] == s.cards;
  }

  /** The holders made so far: one per set handled, in the same order, each
      made from its set, and no holder listed twice. */
  ghost predicate HoldersOf(hs: seq<CardSetHolder>, sets: seq<OldSet>, done: seq<OldSet>)
    reads hs
  {
    |hs| == |done|
    && (forall k :: 0 <= k < |hs| ==> MadeFrom(hs[k], sets, done[k]))
    && (forall j, k :: 0 <= j < k < |hs| ==> hs[j] != hs[k])
  }

  /** One more holder, made from set s, at the end of the list. */
  method AddHolder(sets: seq<OldSet>, s: OldSet, done: seq<OldSet>, holders: seq<CardSetHolder>)
      returns (holders': seq<CardSetHolder>)
    requires HoldersOf(holders, sets, done)
    ensures HoldersOf(holders', sets, done + [s])
    ensures forall h :: h in holders' ==> h in holders || fresh(h)
  {
    var h := MakeCardSetHolder(sets, s);
    holders' := holders + [h];
    assert forall k :: 0 <= k < |holders| ==> holders'[k] == holders[k] && (done + [s])[k] == done[k];
  }

  /** The step of a pass of the holder loop of
      `copy_to_new_abstract_card_db` at position i: the set there gets a
      holder if its parent is absent or already handled, and is kept for the
      next pass otherwise. */
  method HolderVisit(sets: seq<OldSet>, todo: seq<OldSet>, i: nat, done: seq<OldSet>,
                     holders: seq<CardSetHolder>, left: seq<OldSet>,
                     ghost copied: seq<OldSet>, ghost added: seq<OldSet>)
      returns (done': seq<OldSet>, holders': seq<CardSetHolder>, left': seq<OldSet>, ghost added': seq<OldSet>)
    requires i < |todo| && done == copied + added
    requires HoldersOf(holders, sets, done)
    requires PassAt(todo, Ids(copied), i, added, left)
    ensures done' == copied + added' && HoldersOf(holders', sets, done')
    ensures forall h :: h in holders' ==> h in holders || fresh(h)
    ensures PassAt(todo, Ids(copied), i + 1, added', left')
  {
    var s := todo[i];
    IdsConcat(copied, added);
    if s.parent.None? || s.parent.value in Ids(done) {
      PassCopies(todo, Ids(copied), i, added, left);
      holders' := AddHolder(sets, s, done, holders);
      done' := done + [s];
      added' := added + [s];
      left' := left;
    } else {
      PassKeeps(todo, Ids(copied), i, added, left);
      holders' := holders;
      done' := done;
      added' := added;
      left' := left + [s];
    }
  }

  /** One pass of the holder loop: like a pass of
      `copy_physical_card_set_loop`, with a holder made for each ready set. */
  method HolderRound(sets: seq<OldSet>, todo: seq<OldSet>, done: seq<OldSet>, holders: seq<CardSetHolder>)
      returns (done': seq<OldSet>, holders': seq<CardSetHolder>, left: seq<OldSet>, ghost added: seq<OldSet>)
    requires HoldersOf(holders, sets, done)
    ensures done' == done + added && HoldersOf(holders', sets, done')
    ensures forall h :: h in holders' ==> h in holders || fresh(h)
    ensures added == Round(todo, Ids(done)).0 && left == Round(todo, Ids(done)).1
  {
    done' := done;
    holders' := holders;
    left := [];
    added := [];
    ghost var done0 := Ids(done);
    assert done + added == done;
    PassStart(todo, done0);
    var i := 0;
    while i < |todo|
      invariant 0 <= i <= |todo|
      invariant done' == done + added && HoldersOf(holders', sets, done')
      invariant forall h :: h in holders' ==> h in holders || fresh(h)
      invariant PassAt(todo, done0, i, added, left)
    {
      done', holders', left, added := HolderVisit(sets, todo, i, done', holders', left, done, added);
      i := i + 1;
    }
    PassEnd(todo, done0, added, left);
  }

  /** The holder loop of `copy_to_new_abstract_card_db`: a holder for every
      old set, made in parents-first order. */
  method MemoryCopies(sets: seq<OldSet>) returns (holders: seq<CardSetHolder>)
    requires WellFormed(sets)
    ensures HoldersOf(holders, sets, ParentsFirstOrder(sets))
    ensures forall h :: h in holders ==> fresh(h)
  {
    ghost var p := ParentsOf(sets);
    ghost var order := ParentsFirstOrder(sets);
    StartConsistent(sets);
    holders := [];
    var done: seq<OldSet> := [];
    var todo := sets;
    var finished := false;
    StartPending(sets);
    while !finished
      invariant HoldersOf(holders, sets, done) && forall h :: h in holders ==> fresh(h)
      invariant !finished ==> Pending(p, sets, done, todo, order)
      invariant finished ==> done == order
      decreases if finished then 0 else |todo| + 1
    {
      RoundsNext(p, sets, todo, done, order);
      ghost var r := Round(todo, Ids(done));
      ghost var before := done;
      var left;
      ghost var added;
      done, holders, left, added := HolderRound(sets, todo, done, holders);
      assert done == before + r.0 && left == r.1;
      if left == [] {
        finished := true;
      } else {
        todo := left;
      }
    }
  }

  /** What committing each old set's holder stores, by id: the set's staged
      entries resolved through the lookup. */
  ghost function CommitMap(lookup: CardLookup, sets: seq<OldSet>): (m: map<nat, multiset<PhysicalCard>>)
    ensures m.Keys == Ids(sets)
  {
    if |sets| == 0 then map[]
    else
      var s := sets[|sets| - 1];
      assert forall t :: t in sets ==> t in sets[..|sets| - 1] || t == s;
      CommitMap(lookup, sets[..|sets| - 1])[s.id := ResolveAll(lookup, Staged(s.cards))]
  }

  /** With distinct ids, an old set's entry holds what its holder commits. */
  lemma {:induction false} CommitMapAt(lookup: CardLookup, sets: seq<OldSet>, k: nat)
    requires k < |sets| && forall i, j :: 0 <= i < j < |sets| ==> sets[i].id != sets[j].id
    ensures CommitMap(lookup, sets)[sets[k].id] == ResolveAll(lookup, Staged(sets[k].cards))
  {
    if k < |sets| - 1 {
      CommitMapAt(lookup, sets[..|sets| - 1], k);
    }
  }

  /** want gives what each old set's holder commits. */
  ghost predicate Commits(lookup: CardLookup, sets: seq<OldSet>, want: map<nat, multiset<PhysicalCard>>)
  {
    forall s :: s in sets ==> s.id in want && want[s.id] == ResolveAll(lookup, Staged(s.cards))
  }

  /** With distinct ids, each old set's entry holds what its holder commits. */
  lemma CommitsAll(lookup: CardLookup, sets: seq<OldSet>)
    requires WellFormed(sets)
    ensures Commits(lookup, sets, CommitMap(lookup, sets))
  {
    forall s | s in sets
      ensures s.id in CommitMap(lookup, sets)
      ensures CommitMap(lookup, sets)[s.id] == ResolveAll(lookup, Staged(s.cards))
    {
      var k :| 0 <= k < |sets| && sets[k] == s;
      CommitMapAt(lookup, sets, k);
    }
  }

  /** The lookup knows every card of the old sets under its own name, and
      every expansion they use. */
  ghost predicate Faithful(lookup: CardLookup, sets: seq<OldSet>)
  {
    forall s, c :: s in sets && c in s.cards ==>
      c.card in lookup.cards && lookup.cards[c.card] == c.card
      && (c.expansion.Some? ==> c.expansion.value in lookup.expansions)
  }

  /** Through a faithful lookup every holder commits exactly its set's cards. */
  lemma {:induction false} CommitFaithful(lookup: CardLookup, sets: seq<OldSet>)
    requires Faithful(lookup, sets)
    ensures CommitMap(lookup, sets) == OwnMap(sets)
  {
    if |sets| > 0 {
      var init := sets[..|sets| - 1];
      var s := sets[|sets| - 1];
      assert forall t :: t in init ==> t in sets;
      CommitFaithful(lookup, init);
      assert s in sets;
      StagedResolves(lookup, s.cards);
    }
  }

  /** In mirrored tables the copy of a copied set carries that set's name. */
  lemma ParentNamed(names: map<nat, string>, parents: Parents, rows: seq<MapRow>, sets: seq<OldSet>,
                    copied: seq<OldSet>, rest: seq<OldSet>, copies: map<nat, nat>, base: nat,
                    want: map<nat, multiset<PhysicalCard>>, p: nat)
    requires WellFormed(sets) && multiset(copied) + multiset(rest) == multiset(sets)
    requires Mirrors(names, parents, rows, copied, copies, base, want)
    requires p in copies
    ensures NameOf(sets, p).Some? && copies[p] in names && names[copies[p]] == NameOf(sets, p).value
  {
    var t := CopiedNamed(names, parents, rows, copied, copies, base, want, p);
    assert t in multiset(sets);
    var j :| 0 <= j < |sets| && sets[j].id == p && sets[j].name == NameOf(sets, p).value;
    SameSet(sets, sets[j], t);
  }

  /** A copied set is copied under its own name. */
  lemma CopiedNamed(names: map<nat, string>, parents: Parents, rows: seq<MapRow>,
                    copied: seq<OldSet>, copies: map<nat, nat>, base: nat,
                    want: map<nat, multiset<PhysicalCard>>, p: nat) returns (t: OldSet)
    requires Mirrors(names, parents, rows, copied, copies, base, want)
    requires p in copies
    ensures t in copied && t.id == p && copies[p] in names && names[copies[p]] == t.name
  {
    t :| t in copied && t.id == p;
    var k :| 0 <= k < |copied| && copied[k] == t;
    assert CopiedAt(names, parents, rows, copied[k], copies, base + k, want);
  }

  /** The copy order splits at every position into the sets before it and
      the sets from it on, and the set there is ready once those before it
      are copied. */
  lemma OrderSplit(sets: seq<OldSet>, order: seq<OldSet>, i: nat)
    requires CopyOrder(sets, order) && i < |order|
    ensures multiset(order[..i]) + multiset(order[i..]) == multiset(sets)
    ensures order[i] in order[i..] && Ready(order[i], Ids(order[..i]))
    ensures order[..i + 1] == order[..i] + [order[i]]
  {
    assert order == order[..i] + order[i..];
  }

  /** Set s can be created next: it is not copied yet, its name is free,
      its parent is copied under the parent's name, and want gives what its
      holder commits. */
  ghost predicate CanCreate(names: map<nat, string>, sets: seq<OldSet>, s: OldSet, copies: map<nat, nat>,
                            lookup: CardLookup, want: map<nat, multiset<PhysicalCard>>)
  {
    s.id !in copies && (forall id :: id in names ==> names[id] != s.name)
    && s.id in want && want[s.id] == ResolveAll(lookup, Staged(s.cards))
    && (s.parent.Some? ==>
          s.parent.value in copies && NameOf(sets, s.parent.value).Some?
          && copies[s.parent.value] in names
          && names[copies[s.parent.value]] == NameOf(sets, s.parent.value).value)
  }

  /** What mirrored tables tell about a set still to copy whose parent is
      copied: its name is free and its parent is copied under the
      parent's name. */
  lemma NextToCreate(names: map<nat, string>, parents: Parents, rows: seq<MapRow>, sets: seq<OldSet>,
                     copied: seq<OldSet>, rest: seq<OldSet>, copies: map<nat, nat>, base: nat, s: OldSet,
                     lookup: CardLookup, want: map<nat, multiset<PhysicalCard>>)
    requires WellFormed(sets) && Commits(lookup, sets, want)
    requires multiset(copied) + multiset(rest) == multiset(sets) && s in rest && Ready(s, Ids(copied))
    requires Mirrors(names, parents, rows, copied, copies, base, want)
    ensures CanCreate(names, sets, s, copies, lookup, want)
  {
    CanCopy(names, parents, rows, sets, copied, rest, copies, base, s, want);
    if s.parent.Some? {
      ParentNamed(names, parents, rows, sets, copied, rest, copies, base, want, s.parent.value);
    }
  }

  /** Once the sets before position i of the copy order are copied, the
      set at i can be created next. */
  lemma PrepareAt(names: map<nat, string>, parents: Parents, rows: seq<MapRow>, sets: seq<OldSet>,
                  order: seq<OldSet>, i: nat, copies: map<nat, nat>, base: nat,
                  lookup: CardLookup, want: map<nat, multiset<PhysicalCard>>)
    requires WellFormed(sets) && CopyOrder(sets, order) && Commits(lookup, sets, want)
    requires i < |order| && Mirrors(names, parents, rows, order[..i], copies, base, want)
    ensures CanCreate(names, sets, order[i], copies, lookup, want)
    ensures order[..i + 1] == order[..i] + [order[i]]
  {
    OrderSplit(sets, order, i);
    NextToCreate(names, parents, rows, sets, order[..i], order[i..], copies, base, order[i], lookup, want);
  }

  /** `create_pcs` for the holder made from set s, once the sets before it
      in parents-first order are created: without a name it fails and
      changes nothing; otherwise it finds its parent's copy by name, so it
      adds no warning, and the tables mirror one more set, holding what the
      holder commits. */
  method CreateOne(db: CardSetDb, h: CardSetHolder, lookup: CardLookup, ghost sets: seq<OldSet>, ghost s: OldSet,
                   ghost copies: map<nat, nat>, ghost copied: seq<OldSet>,
                   ghost base: nat, ghost want: map<nat, multiset<PhysicalCard>>)
      returns (err: Option<HolderError>, ghost copies': map<nat, nat>)
    requires db.Valid() && db.nextId == base + |copied|
    requires Mirrors(db.names, db.parents, db.rows, copied, copies, base, want)
    requires CanCreate(db.names, sets, s, copies, lookup, want) && MadeFrom(h, sets, s)
    modifies db, h
    ensures db.Valid() && MadeFrom(h, sets, s)
    ensures err.None? <==> s.name != ""
    ensures err.Some? ==> err == Some(NoName) && copies' == copies
    ensures err.Some? ==> db.names == old(db.names) && db.parents == old(db.parents) && db.rows == old(db.rows)
    ensures err.None? ==> db.nextId == base + |copied| + 1
    ensures err.None? ==> Mirrors(db.names, db.parents, db.rows, copied + [s], copies', base, want)
  {
    ghost var parent: Option<nat> := None;
    if s.parent.Some? {
      parent := Some(copies[s.parent.value]);
      assert db.Named(h.parent.value) == parent;
    }
    assert parent == if h.parent.Some? then db.Named(h.parent.value) else None;
    ghost var names0, parents0, rows0 := db.names, db.parents, db.rows;
    assert db.Named(s.name).None?;
    var r := h.CreatePcs(db, lookup);
    copies' := copies;
    if r.Err? {
      err := Some(r.error);
      return;
    }
    err := None;
    ReadyStep(names0, parents0, rows0, db.names, db.parents, db.rows, copied, copies, base, want, s, r.value, parent);
    copies' := copies[s.id := r.value];
  }

  /** Every set of ss has a name. */
  ghost predicate AllNamed(ss: seq<OldSet>)
  {
    forall t :: t in ss ==> t.name != ""
  }

  /** One more named set keeps every set named. */
  lemma NamedStep(ss: seq<OldSet>, s: OldSet)
    requires AllNamed(ss) && s.name != ""
    ensures AllNamed(ss + [s])
  {
  }

  /** The `create_pcs` loop of `copy_to_new_abstract_card_db` over the
      holders made in parents-first order: the first holder without a name
      raises, which ends the loop with the sets before it created; when
      every set has a name the new tables mirror every old set in
      parents-first order, holding what its holder commits. */
  method CreateAll(db: CardSetDb, holders: seq<CardSetHolder>, lookup: CardLookup, sets: seq<OldSet>)
      returns (err: Option<HolderError>, ghost copies: map<nat, nat>, ghost made: nat)
    requires db.Valid() && db.names == map[] && WellFormed(sets)
    requires HoldersOf(holders, sets, ParentsFirstOrder(sets))
    modifies db, set h | h in holders
    ensures db.Valid() && HoldersOf(holders, sets, ParentsFirstOrder(sets))
    ensures made <= |holders| && (err.None? <==> made == |holders|)
    ensures err.Some? ==> err == Some(NoName) && ParentsFirstOrder(sets)[made].name == ""
    ensures AllNamed(ParentsFirstOrder(sets)[..made])
    ensures Mirrors(db.names, db.parents, db.rows, ParentsFirstOrder(sets)[..made], copies, old(db.nextId),
                    CommitMap(lookup, sets))
  {
    ghost var order := ParentsFirstOrder(sets);
    ghost var want := CommitMap(lookup, sets);
    ghost var base := db.nextId;
    ParentsFirst(sets);
    CommitsAll(lookup, sets);
    copies := map[];
    assert order[..0] == [];
    var i := 0;
    while i < |holders|
      invariant 0 <= i <= |holders| && db.Valid() && db.nextId == base + i
      invariant Mirrors(db.names, db.parents, db.rows, order[..i], copies, base, want)
      invariant HoldersOf(holders, sets, order)
      invariant AllNamed(order[..i])
    {
      var e;
      e, copies := CreateAt(db, holders, lookup, sets, order, i, copies, base, want);
      if e.Some? {
        err := e;
        made := i;
        return;
      }
      NamedStep(order[..i], order[i]);
      i := i + 1;
    }
    err := None;
    made := i;
  }

  /** The step of the `create_pcs` loop at position i. */
  method CreateAt(db: CardSetDb, holders: seq<CardSetHolder>, lookup: CardLookup, ghost sets: seq<OldSet>,
                  ghost order: seq<OldSet>, i: nat, ghost copies: map<nat, nat>, ghost base: nat,
                  ghost want: map<nat, multiset<PhysicalCard>>)
      returns (err: Option<HolderError>, ghost copies': map<nat, nat>)
    requires WellFormed(sets) && CopyOrder(sets, order) && Commits(lookup, sets, want)
    requires |order| == |holders| && i < |holders|
    requires db.Valid() && db.nextId == base + i
    requires Mirrors(db.names, db.parents, db.rows, order[..i], copies, base, want)
    requires HoldersOf(holders, sets, order)
    modifies db, set h | h in holders
    ensures db.Valid() && HoldersOf(holders, sets, order)
    ensures err.None? <==> order[i].name != ""
    ensures err.Some? ==> err == Some(NoName) && copies' == copies
    ensures err.Some? ==> db.names == old(db.names) && db.parents == old(db.parents) && db.rows == old(db.rows)
    ensures err.None? ==> db.nextId == base + i + 1 && order[..i + 1] == order[..i] + [order[i]]
    ensures err.None? ==> Mirrors(db.names, db.parents, db.rows, order[..i + 1], copies', base, want)
  {
    PrepareAt(db.names, db.parents, db.rows, sets, order, i, copies, base, lookup, want);
    var h := holders[i];
    assert forall k :: 0 <= k < |holders| && k != i ==> holders[k] != h;
    err, copies' := CreateOne(db, h, lookup, sets, order[i], copies, order[..i], base, want);
  }

  /** The copy order lists a set without a name exactly when the old
      database has one. */
  lemma OrderNamed(sets: seq<OldSet>)
    requires WellFormed(sets)
    ensures AllNamed(ParentsFirstOrder(sets)) <==> forall s :: s in sets ==> s.name != ""
  {
    ParentsFirst(sets);
    var order := ParentsFirstOrder(sets);
    assert forall s :: s in sets <==> s in multiset(order);
  }

  /** `copy_to_new_abstract_card_db`: a holder for every old set, made
      parents first, then `create_pcs` for each in the same order.  It
      reports success with no messages, the new tables mirroring every old
      set with what its holder commits; a set without a name makes
      `create_pcs` raise. */
  method CopyToNewAbstractCardDb(db: CardSetDb, sets: seq<OldSet>, lookup: CardLookup)
      returns (r: Result<Report, HolderError>, ghost copies: map<nat, nat>)
    requires db.Valid() && db.names == map[] && WellFormed(sets)
    modifies db
    ensures db.Valid()
    ensures r.Ok? <==> forall s :: s in sets ==> s.name != ""
    ensures r.Ok? ==> r.value == Report(true, [])
    ensures r.Ok? ==>
      Mirrors(db.names, db.parents, db.rows, ParentsFirstOrder(sets), copies, old(db.nextId), CommitMap(lookup, sets))
    ensures r.Err? ==> r.error == NoName
  {
    var holders := MemoryCopies(sets);
    var err;
    ghost var made;
    err, copies, made := CreateAll(db, holders, lookup, sets);
    ghost var order := ParentsFirstOrder(sets);
    OrderNamed(sets);
    if err.Some? {
      assert order[made] in order && !AllNamed(order);
      r := Err(err.value);
      return;
    }
    assert order[..made] == order;
    r := Ok(Report(true, []));
  }
}
