/**
 The order in which a drained queue runs its steps (first in, first out, each step's
 submissions queued behind what is already pending), and the effect of a sequence of
 steps on the shared state: the store, the host-errors mark and the result flag.
 */
module Traces {
  import opened Workflows
  import opened Extraction
  import opened Steps

  /** The steps that draining `q` runs, in order. */
  ghost function Trace(q: seq<Node>): seq<Node>
    decreases Work(q)
  {
    if q == [] then []
    else
      DequeueMeasures(q);
      [q[0]] + Trace(q[1..] + Children(q[0]))
  }

  lemma TraceStep(q: seq<Node>)
    requires q != []
    ensures Trace(q) == [q[0]] + Trace(q[1..] + Children(q[0]))
  {
  }

  /** The trace of a queue has exactly as many steps as the queue's work. */
  lemma {:induction false} TraceLength(q: seq<Node>)
    ensures |Trace(q)| == Work(q)
    decreases Work(q)
  {
    if q != [] {
      DequeueMeasures(q);
      TraceLength(q[1..] + Children(q[0]));
    }
  }

  /** Every step a well-formed queue runs is well formed. */
  lemma {:induction false} TraceWellFormed(q: seq<Node>)
    requires forall i | 0 <= i < |q| :: WellFormed(q[i])
    ensures forall i | 0 <= i < |Trace(q)| :: WellFormed(Trace(q)[i])
    decreases Work(q)
  {
    if q != [] {
      var t, rest := q[0], q[1..];
      DequeueMeasures(q);
      ChildrenWellFormed(t);
      assert forall i | 0 <= i < |rest| :: rest[i] == q[i + 1];
      AllWellFormedAppend(rest, Children(t));
      TraceWellFormed(rest + Children(t));
      AllWellFormedAppend([t], Trace(rest + Children(t)));
    }
  }

  /** Every step a well-formed queue runs is step-ready. */
  lemma TraceReady(q: seq<Node>)
    requires forall i | 0 <= i < |q| :: WellFormed(q[i])
    ensures AllReady(Trace(q))
  {
    TraceWellFormed(q);
  }

  /** The queue's verdict is true exactly when one of the steps it runs publishes. */
  lemma {:induction false} TraceVerdict(q: seq<Node>)
    ensures AnyMatches(q) == AnyPublishes(Trace(q))
    decreases Work(q)
  {
    if q != [] {
      var t, r := q[0], q[1..] + Children(q[0]);
      DequeueMeasures(q);
      TraceVerdict(r);
      assert [t][..0] == [];
      AnyPublishesAppend([t], Trace(r));
    }
  }

  /**
   Running `a` as steps of their own and then draining `b` followed by what `a` submitted
   runs the same steps, in the same order, as draining `a` before `b`.
   */
  lemma {:induction false} TraceTopLevel(a: seq<Node>, b: seq<Node>)
    ensures Trace(a + b) == a + Trace(b + AllChildren(a))
    decreases |a|
  {
    if a == [] {
      assert a + b == b && b + AllChildren(a) == b;
    } else {
      TraceTopLevel(a[1..], b + Children(a[0]));
      HeadTail(a);
      TopLevelStep(a[0], a[1..], b);
    }
  }

  /** One step of the induction above: `x` runs first and its children join `b`. */
  lemma TopLevelStep(x: Node, a: seq<Node>, b: seq<Node>)
    requires Trace(a + (b + Children(x))) == a + Trace((b + Children(x)) + AllChildren(a))
    ensures Trace([x] + a + b) == [x] + a + Trace(b + AllChildren([x] + a))
  {
    var c := Children(x);
    var rest := b + AllChildren([x] + a);
    assert Trace([x] + a + b) == [x] + Trace(a + (b + c)) by {
      AppendTail([x] + a, b);
      ConsTail(x, a);
      TraceStep([x] + a + b);
      AppendAssoc(a, b, c);
    }
    assert (b + c) + AllChildren(a) == rest by {
      ConsTail(x, a);
      FoldsCons([x] + a);
      AppendAssoc(b, c, AllChildren(a));
    }
    AppendAssoc([x], a, Trace(rest));
  }

  lemma {:induction false} AllChildrenAppend(a: seq<Node>, b: seq<Node>)
    ensures AllChildren(a + b) == AllChildren(a) + AllChildren(b)
  {
    if b == [] {
      assert a + b == a;
    } else {
      var p := b[..|b| - 1];
      assert (a + b)[..|a + b| - 1] == a + p;
      AllChildrenAppend(a, p);
      AppendAssoc(AllChildren(a), AllChildren(p), Children(b[|b| - 1]));
    }
  }

  // ---------------------------------------------------------------- effects of a sequence of steps

  /** Every step of the sequence is step-ready. */
  predicate AllReady(s: seq<Node>) {
    forall i | 0 <= i < |s| :: StepReady(s[i])
  }

  /** The store after the steps of `s`, run in order. */
  function StepsStore(store: Store, s: seq<Node>): Store
    requires AllReady(s)
  {
    if s == [] then store else StepStore(StepsStore(store, s[..|s| - 1]), s[|s| - 1])
  }

  /** Some step of the sequence marks the host failed. */
  predicate AnyMarks(s: seq<Node>) {
    s != [] && (AnyMarks(s[..|s| - 1]) || MarksFailed(s[|s| - 1]))
  }

  lemma {:induction false} AnyPublishesAppend(a: seq<Node>, b: seq<Node>)
    ensures AnyPublishes(a + b) == (AnyPublishes(a) || AnyPublishes(b))
  {
    if b == [] {
      assert a + b == a;
    } else {
      var p := b[..|b| - 1];
      assert (a + b)[..|a + b| - 1] == a + p;
      AnyPublishesAppend(a, p);
    }
  }

  lemma {:induction false} AnyMarksAppend(a: seq<Node>, b: seq<Node>)
    ensures AnyMarks(a + b) == (AnyMarks(a) || AnyMarks(b))
  {
    if b == [] {
      assert a + b == a;
    } else {
      var p := b[..|b| - 1];
      assert (a + b)[..|a + b| - 1] == a + p;
      AnyMarksAppend(a, p);
    }
  }

  /** A sequence of steps marks the host exactly when one of its steps does. */
  lemma {:induction false} AnyMarksExists(s: seq<Node>)
    ensures AnyMarks(s) <==> exists i | 0 <= i < |s| :: MarksFailed(s[i])
  {
    if s != [] {
      var p := s[..|s| - 1];
      AnyMarksExists(p);
      if i :| 0 <= i < |p| && MarksFailed(p[i]) {
        assert s[i] == p[i];
      }
      if i :| 0 <= i < |s| - 1 && MarksFailed(s[i]) {
        assert p[i] == s[i];
      }
    }
  }

  /** Running two sequences of steps one after the other composes their store effects. */
  lemma {:induction false} StepsStoreAppend(store: Store, a: seq<Node>, b: seq<Node>)
    requires AllReady(a) && AllReady(b)
    ensures AllReady(a + b)
    ensures StepsStore(store, a + b) == StepsStore(StepsStore(store, a), b)
  {
    assert forall i | 0 <= i < |a + b| :: (a + b)[i] == if i < |a| then a[i] else b[i - |a|];
    if b == [] {
      assert a + b == a;
    } else {
      var p := b[..|b| - 1];
      assert (a + b)[..|a + b| - 1] == a + p;
      StepsStoreAppend(store, a, p);
    }
  }

  /**
   A whole run: the top-level nodes as steps of their own, then the drain of what they
   submitted, runs exactly the trace of the top-level queue, and its effects compose.
   */
  lemma TopLevelThenDrain(store: Store, tops: seq<Node>)
    requires AllReady(tops) && AllReady(Trace(AllChildren(tops)))
    ensures Trace(tops) == tops + Trace(AllChildren(tops))
    ensures AllReady(Trace(tops))
    ensures |Trace(tops)| == Work(tops)
    ensures |tops| <= |Trace(tops)| && Trace(tops)[..|tops|] == tops
    ensures StepsStore(store, Trace(tops)) == StepsStore(StepsStore(store, tops), Trace(AllChildren(tops)))
    ensures AnyMarks(Trace(tops)) == (AnyMarks(tops) || AnyMarks(Trace(AllChildren(tops))))
    ensures AnyMatches(tops) == AnyPublishes(Trace(tops)) == (AnyPublishes(tops) || AnyPublishes(Trace(AllChildren(tops))))
  {
    var rest := Trace(AllChildren(tops));
    TraceTopLevel(tops, []);
    assert tops + [] == tops && [] + AllChildren(tops) == AllChildren(tops);
    StepsStoreAppend(store, tops, rest);
    AnyMarksAppend(tops, rest);
    AnyPublishesAppend(tops, rest);
    TraceLength(tops);
    TraceVerdict(tops);
    assert (tops + rest)[..|tops|] == tops;
  }

  /**
   The state after the top-level steps and after the drain, in terms of the state before
   the run: together they run the trace of the top-level queue, and their effects compose.
   */
  lemma RunComposes(vars0: Store, vars1: Store, vars2: Store, cached: bool, failed0: set<string>, failed1: set<string>, failed2: set<string>,
                 target: string, tops: seq<Node>, ran1: seq<Node>, ran2: seq<Node>, r1: bool, r2: bool)
    requires AllReady(tops) && AllReady(Trace(AllChildren(tops)))
    requires ran1 == tops && ran2 == ran1 + Trace(AllChildren(tops))
    requires vars1 == StepsStore(vars0, tops) && vars2 == StepsStore(vars1, Trace(AllChildren(tops)))
    requires cached ==> failed1 == failed0 + (if AnyMarks(tops) then {target} else {})
    requires cached ==> failed2 == failed1 + (if AnyMarks(Trace(AllChildren(tops))) then {target} else {})
    requires r1 == AnyPublishes(tops) && r2 == (r1 || AnyPublishes(Trace(AllChildren(tops))))
    ensures ran2 == Trace(tops) && AllReady(ran2)
    ensures |ran2| == Work(tops)
    ensures |tops| <= |ran2| && ran2[..|tops|] == tops
    ensures r2 == AnyMatches(tops) == AnyPublishes(ran2)
    ensures vars2 == StepsStore(vars0, ran2)
    ensures cached ==> failed2 == failed0 + (if AnyMarks(ran2) then {target} else {})
  {
    TopLevelThenDrain(vars0, tops);
    AddWhen(failed0, AnyMarks(tops), AnyMarks(Trace(AllChildren(tops))), target);
  }

  /** Running the first step and then the others leaves the store the whole sequence leaves. */
  lemma StepsCons(store: Store, s: seq<Node>)
    requires s != [] && AllReady(s)
    ensures StepReady(s[0]) && AllReady(s[1..])
    ensures StepsStore(StepStore(store, s[0]), s[1..]) == StepsStore(store, s)
  {
    var t, r := s[0], s[1..];
    assert s == [t] + r;
    assert forall i | 0 <= i < |r| :: r[i] == s[i + 1];
    assert [t][..0] == [];
    StepsStoreAppend(store, [t], r);
  }

  /** The first step's marks, publications and submissions come before those of the others. */
  lemma FoldsCons(s: seq<Node>)
    requires s != []
    ensures AnyMarks(s) == (MarksFailed(s[0]) || AnyMarks(s[1..]))
    ensures AnyPublishes(s) == (Publishes(s[0]) || AnyPublishes(s[1..]))
    ensures AllChildren(s) == Children(s[0]) + AllChildren(s[1..])
  {
    var t, r := s[0], s[1..];
    assert s == [t] + r;
    assert [t][..0] == [];
    assert AnyMarks(s) == (MarksFailed(t) || AnyMarks(r)) by {
      AnyMarksAppend([t], r);
    }
    assert AnyPublishes(s) == (Publishes(t) || AnyPublishes(r)) by {
      AnyPublishesAppend([t], r);
    }
    assert AllChildren(s) == Children(t) + AllChildren(r) by {
      AllChildrenAppend([t], r);
    }
  }

  /**
   Running the head of a queue and then the trace of what is left after it (the rest of
   the queue followed by the head's submissions) has the same effects as the queue's trace.
   */
  lemma DrainStep(store: Store, q: seq<Node>)
    requires q != [] && AllReady(Trace(q))
    ensures StepReady(q[0]) && AllReady(Trace(q[1..] + Children(q[0])))
    ensures Trace(q) == [q[0]] + Trace(q[1..] + Children(q[0]))
    ensures StepsStore(StepStore(store, q[0]), Trace(q[1..] + Children(q[0]))) == StepsStore(store, Trace(q))
    ensures AnyMarks(Trace(q)) == (MarksFailed(q[0]) || AnyMarks(Trace(q[1..] + Children(q[0]))))
    ensures AnyPublishes(Trace(q)) == (Publishes(q[0]) || AnyPublishes(Trace(q[1..] + Children(q[0]))))
  {
    TraceStep(q);
    StepsCons(store, Trace(q));
    FoldsCons(Trace(q));
  }
}
