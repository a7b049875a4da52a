/** The parent relation of the card sets and the loop rules over it.  A card
    set names at most one parent; following parents upwards from a set
    either ends at a top-level set or runs round a loop for ever.  Loop
    detection and loop breaking are defined here on the relation alone. */
module CardSetGraph {
  import opened Wrappers

  /** Each known card set's id maps to its parent's id, or None for a
      top-level set. */
  type Parents = map<nat, Option<nat>>

  /** One step up: the parent of a known set; None at a top-level set or a
      set the relation does not know. */
  function Up(p: Parents, x: nat): Option<nat>
  {
    if x in p then p[x] else None
  }

  /** The set reached after k steps up from s, or None once the chain of
      parents has ended. */
  function Walk(p: Parents, s: nat, k: nat): Option<nat>
    decreases k
  {
    if k == 0 then Some(s)
    else match Up(p, s)
      case None => None
      case Some(t) => Walk(p, t, k - 1)
  }

  /** The chain of parents above s never ends: s lies on a loop or below
      one. */
  ghost predicate Endless(p: Parents, s: nat)
  {
    forall k: nat :: Walk(p, s, k).Some?
  }

  /** `detect_loop`: walking up from s meets some set twice.  A walk of more
      steps than there are sets must do so, and a walk that meets a set twice
      goes on for ever, so the test is that the walk lasts |p| + 1 steps. */
  predicate DetectLoop(p: Parents, s: nat)
  {
    Walk(p, s, |p| + 1).Some?
  }

  /** No known set lies on or below a loop. */
  ghost predicate Acyclic(p: Parents)
  {
    forall t :: t in p ==> !DetectLoop(p, t)
  }

  /** Walking a + b steps is walking a steps, then b more from there. */
  lemma {:induction false} WalkAdd(p: Parents, s: nat, a: nat, b: nat)
    ensures Walk(p, s, a + b) == match Walk(p, s, a) case None => None case Some(t) => Walk(p, t, b)
    decreases a
  {
    if a > 0 {
      match Up(p, s)
      case None =>
      case Some(u) =>
        WalkAdd(p, u, a - 1, b);
        assert Walk(p, s, a + b) == Walk(p, u, a - 1 + b);
    }
  }

  /** Once the chain has ended it stays ended. */
  lemma WalkEnded(p: Parents, s: nat, a: nat, b: nat)
    requires Walk(p, s, a).None? && a <= b
    ensures Walk(p, s, b).None?
  {
    WalkAdd(p, s, a, b - a);
  }

  /** A step beyond k exists only from a known set reached at step k. */
  lemma WalkStep(p: Parents, s: nat, k: nat)
    requires Walk(p, s, k + 1).Some?
    ensures Walk(p, s, k).Some? && Walk(p, s, k).value in p
    ensures Walk(p, s, k + 1) == Up(p, Walk(p, s, k).value)
  {
    WalkAdd(p, s, k, 1);
  }

  /** A sequence longer than the set its elements come from has a repeat. */
  lemma {:induction false} Pigeonhole(ws: seq<nat>, S: set<nat>)
    requires forall i :: 0 <= i < |ws| ==> ws[i] in S
    requires |ws| > |S|
    ensures exists i, j :: 0 <= i < j < |ws| && ws[i] == ws[j]
    decreases |ws|
  {
    var x := ws[0];
    if j :| 1 <= j < |ws| && ws[j] == x {
      assert ws[0] == ws[j];
    } else {
      var rest := ws[1..];
      forall i | 0 <= i < |rest|
        ensures rest[i] in S - {x}
      {
        assert rest[i] == ws[i + 1];
      }
      Pigeonhole(rest, S - {x});
      var i, j :| 0 <= i < j < |rest| && rest[i] == rest[j];
      assert ws[i + 1] == ws[j + 1];
    }
  }

  /** A walk that meets the same set at steps i < j repeats itself with
      period j - i from step i on. */
  lemma Periodic(p: Parents, s: nat, i: nat, j: nat, m: nat)
    requires i < j && Walk(p, s, i).Some? && Walk(p, s, i) == Walk(p, s, j)
    ensures Walk(p, s, i + m) == Walk(p, s, j + m)
  {
    WalkAdd(p, s, i, m);
    WalkAdd(p, s, j, m);
  }

  /** A walk that meets a set twice never ends. */
  lemma {:induction false} RepeatEndless(p: Parents, s: nat, i: nat, j: nat, k: nat)
    requires i < j && Walk(p, s, i).Some? && Walk(p, s, i) == Walk(p, s, j)
    ensures Walk(p, s, k).Some?
    decreases k
  {
    if k <= j {
      if Walk(p, s, k).None? {
        WalkEnded(p, s, k, j);
      }
    } else {
      var m := k - j;
      Periodic(p, s, i, j, m);
      RepeatEndless(p, s, i, j, i + m);
    }
  }

  /** A walk that lasts |p| + 1 steps meets some set twice, at steps
      i < j <= |p|. */
  lemma LongWalkRepeats(p: Parents, s: nat) returns (i: nat, j: nat)
    requires DetectLoop(p, s)
    ensures i < j <= |p| && Walk(p, s, i).Some? && Walk(p, s, i) == Walk(p, s, j)
  {
    var n := |p|;
    var ws := seq(n + 1, k requires 0 <= k <= n =>
      if Walk(p, s, k).Some? then Walk(p, s, k).value else 0);
    forall k | 0 <= k <= n
      ensures Walk(p, s, k).Some? && ws[k] == Walk(p, s, k).value && ws[k] in p.Keys
    {
      if Walk(p, s, k + 1).None? {
        WalkEnded(p, s, k + 1, n + 1);
      }
      WalkStep(p, s, k);
    }
    Pigeonhole(ws, p.Keys);
    var a, b :| 0 <= a < b < |ws| && ws[a] == ws[b];
    i, j := a, b;
  }

  /** `detect_loop` holds exactly when the chain of parents never ends. */
  lemma DetectLoopEndless(p: Parents, s: nat)
    ensures DetectLoop(p, s) <==> Endless(p, s)
  {
    if DetectLoop(p, s) {
      var i, j := LongWalkRepeats(p, s);
      forall k: nat
        ensures Walk(p, s, k).Some?
      {
        RepeatEndless(p, s, i, j, k);
      }
    }
  }

  /** Walks in two relations that agree everywhere but at x coincide until
      the walk reaches x. */
  lemma {:induction false} WalkAvoiding(p: Parents, q: Parents, x: nat, t: nat, k: nat)
    requires forall y :: y != x ==> Up(p, y) == Up(q, y)
    requires forall m :: 0 <= m < k ==> Walk(q, t, m) != Some(x)
    ensures Walk(q, t, k) == Walk(p, t, k)
    decreases k
  {
    if k > 0 {
      assert Walk(q, t, 0) == Some(t);
      match Up(q, t)
      case None =>
      case Some(u) =>
        forall m | 0 <= m < k - 1
          ensures Walk(q, u, m) != Some(x)
        {
          assert Walk(q, t, m + 1) == Walk(q, u, m);
        }
        WalkAvoiding(p, q, x, u, k - 1);
    }
  }

  /** Changing the link out of x alone can give a loop-free set t a loop
      only if the walk from t reaches x and x's own new chain never ends. */
  lemma Relink(p: Parents, q: Parents, x: nat, t: nat)
    requires forall y :: y != x ==> Up(p, y) == Up(q, y)
    requires !Endless(p, t)
    requires !Endless(q, x)
    ensures !Endless(q, t)
  {
    var k0: nat :| Walk(q, x, k0).None?;
    var k1: nat :| Walk(p, t, k1).None?;
    if m :| 0 <= m < k1 && Walk(q, t, m) == Some(x) {
      WalkAdd(q, t, m, k0);
      assert Walk(q, t, m + k0).None?;
    } else {
      WalkAvoiding(p, q, x, t, k1);
      assert Walk(q, t, k1).None?;
    }
  }

  /** Giving a set of an acyclic relation a parent that does not put it on a
      loop leaves the relation acyclic. */
  lemma ReparentKeepsAcyclic(p: Parents, s: nat, np: Option<nat>)
    requires Acyclic(p) && s in p
    requires !DetectLoop(p[s := np], s)
    ensures Acyclic(p[s := np])
  {
    var q := p[s := np];
    DetectLoopEndless(q, s);
    forall t | t in q
      ensures !DetectLoop(q, t)
    {
      DetectLoopEndless(p, t);
      DetectLoopEndless(q, t);
      if t != s {
        Relink(p, q, s, t);
      }
    }
  }

  /** Making x a top-level set never gives a loop-free set a loop. */
  lemma CutKeepsLoopFree(p: Parents, x: nat, t: nat)
    requires x in p && !DetectLoop(p, t)
    ensures !DetectLoop(p[x := None], t)
  {
    var q := p[x := None];
    assert Walk(q, x, 1).None?;
    DetectLoopEndless(p, t);
    DetectLoopEndless(q, t);
    Relink(p, q, x, t);
  }

  /** Making a set on the walk from s a top-level set ends that walk. */
  lemma CutOnWalk(p: Parents, s: nat, x: nat, j: nat)
    requires x in p && Walk(p, s, j) == Some(x)
    ensures !DetectLoop(p[x := None], s)
  {
    var q := p[x := None];
    var m: nat := j;
    if h :| 0 <= h < j && Walk(q, s, h) == Some(x) {
      m := h;
    } else {
      WalkAvoiding(p, q, x, s, j);
    }
    WalkAdd(q, s, m, 1);
    assert Walk(q, s, m + 1).None?;
    DetectLoopEndless(q, s);
  }

  /** `break_loop`'s choice of where to break: the set reached after as many
      steps up from s as there are sets, which lies on the loop. */
  function BreakPoint(p: Parents, s: nat): (x: nat)
    requires DetectLoop(p, s)
    ensures x in p
  {
    WalkStep(p, s, |p|);
    Walk(p, s, |p|).value
  }

  /** `break_loop`: the set at the break point becomes a top-level set. */
  function BreakLoop(p: Parents, s: nat): (q: Parents)
    requires DetectLoop(p, s)
    ensures q.Keys == p.Keys
  {
    p[BreakPoint(p, s) := None]
  }

  /** The break point lies on the loop: walking up from it returns to it. */
  lemma BreakPointOnLoop(p: Parents, s: nat) returns (d: nat)
    requires DetectLoop(p, s)
    ensures d > 0 && Walk(p, BreakPoint(p, s), d) == Some(BreakPoint(p, s))
  {
    var i, j := LongWalkRepeats(p, s);
    var n := |p|;
    d := j - i;
    Periodic(p, s, i, j, n - i);
    WalkStep(p, s, n);
    WalkAdd(p, s, n, d);
    assert Walk(p, s, n + d) == Walk(p, s, n);
  }

  /** Breaking the loop above s frees s, and every set that had no loop
      still has none. */
  lemma BreakLoopFrees(p: Parents, s: nat)
    requires DetectLoop(p, s)
    ensures !DetectLoop(BreakLoop(p, s), s)
    ensures forall t :: !DetectLoop(p, t) ==> !DetectLoop(BreakLoop(p, s), t)
  {
    var x := BreakPoint(p, s);
    WalkStep(p, s, |p|);
    CutOnWalk(p, s, x, |p|);
    forall t | !DetectLoop(p, t)
      ensures !DetectLoop(BreakLoop(p, s), t)
    {
      CutKeepsLoopFree(p, x, t);
    }
  }

  /** The number of steps from s up to its top-level ancestor, given enough
      fuel for the walk to end. */
  function DepthIn(p: Parents, s: nat, fuel: nat): nat
    requires Walk(p, s, fuel + 1).None?
    decreases fuel
  {
    match Up(p, s)
    case None => 0
    case Some(t) =>
      assert Walk(p, s, 1) == Some(t);
      1 + DepthIn(p, t, fuel - 1)
  }

  /** The depth does not depend on the fuel, once there is enough. */
  lemma {:induction false} DepthFuel(p: Parents, s: nat, f: nat, g: nat)
    requires Walk(p, s, f + 1).None? && f <= g
    ensures Walk(p, s, g + 1).None? && DepthIn(p, s, f) == DepthIn(p, s, g)
    decreases f
  {
    WalkEnded(p, s, f + 1, g + 1);
    match Up(p, s)
    case None =>
    case Some(t) =>
      assert Walk(p, s, 1) == Some(t);
      DepthFuel(p, t, f - 1, g - 1);
  }

  /** The depth of a set with no loop above it. */
  function Depth(p: Parents, s: nat): nat
    requires !DetectLoop(p, s)
  {
    DepthIn(p, s, |p|)
  }

  /** A parent of a loop-free set is loop-free and one level shallower. */
  lemma DepthUp(p: Parents, s: nat, t: nat)
    requires !DetectLoop(p, s) && Up(p, s) == Some(t)
    ensures !DetectLoop(p, t) && Depth(p, t) + 1 == Depth(p, s)
  {
    assert Walk(p, s, |p| + 1) == Walk(p, t, |p|);
    WalkEnded(p, t, |p|, |p| + 1);
    DepthFuel(p, t, |p| - 1, |p|);
  }
}
