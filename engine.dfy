/**
 The scheduler itself, run sequentially: the shared scan context, the host-errors cache,
 and one workflow run holding the shared result flag and the work-list that stands in
 for the sized wait group's goroutines.
 */
module Engine {
  import opened Workflows
  import opened Extraction
  import opened Steps
  import opened Traces

  /** The scan context: the target's identity and the variable store its input carries. */
  class ScanContext {
    const target: string
    var vars: Store

    constructor (target: string, vars: Store)
      ensures this.target == target && this.vars == vars
    {
      this.target := target;
      this.vars := vars;
    }

    /** `ctx.Input.Set(k, v)`. */
    method Set(k: string, v: Value)
      modifies this
      ensures vars == old(vars)[k := v]
    {
      vars := vars[k := v];
    }

    /** The normalization of lines 99-116, ranging over the extractions in the given order. */
    method SetNormalized(exts: seq<Extract>)
      requires NonEmptyValues(exts)
      modifies this
      ensures vars == Normalized(old(vars), exts)
    {
      for j := 0 to |exts|
        invariant NonEmptyValues(exts[..j])
        invariant vars == Normalized(old(vars), exts[..j])
      {
        var e := exts[j];
        ghost var before := vars;
        if |e.values| <= 1 {
          Set(e.name, Scalar(e.values[0]));
        } else {
          for i := 0 to |e.values|
            invariant vars == IndexedWrites(before, e.name, e.values, i)
          {
            Set(IndexedKey(e.name, i), Scalar(e.values[i]));
          }
          Set(e.name, List(e.values));
        }
        assert exts[..j + 1][..j] == exts[..j];
      }
      assert exts[..|exts|] == exts;
    }

    /** Lines 160-164: every extraction stored under its name as the full list. */
    method SetLists(exts: seq<Extract>)
      modifies this
      ensures vars == Listed(old(vars), exts)
    {
      for j := 0 to |exts|
        invariant vars == Listed(old(vars), exts[..j])
      {
        Set(exts[j].name, List(exts[j].values));
        assert exts[..j + 1][..j] == exts[..j];
      }
      assert exts[..|exts|] == exts;
    }
  }

  /** The host-errors cache, seen only as the set of target IDs marked failed. */
  class HostErrorsCache {
    var failed: set<string>

    constructor (failed: set<string>)
      ensures this.failed == failed
    {
      this.failed := failed;
    }

    method MarkFailed(id: string, err: Error)
      modifies this
      ensures failed == old(failed) + {id}
    {
      failed := failed + {id};
    }
  }

  /** A workflow: its top-level nodes and the run-wide options the scheduler reads. */
  datatype Workflow = Workflow(workflows: seq<Node>, templateThreads: int, hostErrorsCache: HostErrorsCache?)

  /** The wait-group size: a configured 1 becomes 2, any other value is kept. */
  function TemplateThreads(configured: int): (threads: int)
    ensures threads != 1
    ensures configured != 1 ==> threads == configured
    ensures configured == 1 ==> threads == 2
  {
    if configured == 1 then configured + 1 else configured
  }

  /**
   One workflow run: the shared result flag, the tasks submitted to the wait group and
   not yet run (first in, first out), and, for the proofs, the log of step calls.
   */
  class Run {
    const ctx: ScanContext
    const cache: HostErrorsCache?
    const threads: int
    var results: bool
    var pending: seq<Node>
    ghost var ran: seq<Node>

    constructor (ctx: ScanContext, cache: HostErrorsCache?, threads: int)
      ensures this.ctx == ctx && this.cache == cache && this.threads == threads
      ensures !results && pending == [] && ran == []
    {
      this.ctx := ctx;
      this.cache := cache;
      this.threads := threads;
      results := false;
      pending := [];
      ran := [];
    }

    /** `swg.Add()` followed by `go runWorkflowStep(subtemplate, ...)`, for each subtemplate in order. */
    method SubmitAll(subs: seq<Node>)
      modifies this`pending
      ensures pending == old(pending) + subs
    {
      for s := 0 to |subs|
        invariant pending == old(pending) + subs[..s]
      {
        pending := pending + [subs[s]];
        assert subs[..s + 1] == subs[..s] + [subs[s]];
      }
      assert subs[..|subs|] == subs;
    }

    /** The callback of lines 91-117, applied to the events one streaming execution delivers. */
    method OnPlainEvents(events: seq<Event>) returns (matched: bool)
      requires EventsNonEmpty(events)
      modifies ctx
      ensures matched == exists k | 0 <= k < |events| :: EventMatched(events[k])
      ensures ctx.vars == PlainEventsStore(old(ctx.vars), events)
    {
      matched := false;
      for k := 0 to |events|
        invariant EventsNonEmpty(events[..k])
        invariant matched == exists k' | 0 <= k' < k :: EventMatched(events[k'])
        invariant ctx.vars == PlainEventsStore(old(ctx.vars), events[..k])
      {
        var ev := events[k];
        if ev.operatorsResult.Some? {
          if ev.results > 0 {
            matched := true;
          }
          ctx.SetNormalized(ev.operatorsResult.value.extracts);
        }
        assert events[..k + 1][..k] == events[..k];
      }
      assert events[..|events|] == events;
    }

    /** Lines 166-182 for one operators result: each satisfied matcher's subtemplates, in matcher order. */
    method SubmitMatched(matchers: seq<Matcher>, o: OperatorsResult)
      modifies this`pending
      ensures pending == old(pending) + MatchedSubtemplates(matchers, o)
    {
      for j := 0 to |matchers|
        invariant pending == old(pending) + MatchedSubtemplates(matchers[..j], o)
      {
        if matchers[j].accepts(o) {
          SubmitAll(matchers[j].subtemplates);
        }
        assert matchers[..j + 1][..j] == matchers[..j];
      }
      assert matchers[..|matchers|] == matchers;
    }

    /** The callback of lines 151-183: store extractions, then enqueue satisfied matchers' subtemplates. */
    method OnMatcherEvents(matchers: seq<Matcher>, events: seq<Event>)
      modifies this`pending, ctx
      ensures ctx.vars == MatcherEventsStore(old(ctx.vars), events)
      ensures pending == old(pending) + EventsChildren(matchers, events)
    {
      for k := 0 to |events|
        invariant ctx.vars == MatcherEventsStore(old(ctx.vars), events[..k])
        invariant pending == old(pending) + EventsChildren(matchers, events[..k])
      {
        var ev := events[k];
        if ev.operatorsResult.Some? {
          ctx.SetLists(ev.operatorsResult.value.extracts);
          SubmitMatched(matchers, ev.operatorsResult.value);
        }
        assert events[..k + 1][..k] == events[..k];
      }
      assert events[..|events|] == events;
    }

    /** One executer of a plain node (lines 84-137): run it, note a match, record a failure. */
    method RunPlainExecuter(n: Node, ex: Executer) returns (matched: bool, err: Option<Error>)
      requires Plain(n) && (|n.subtemplates| > 0 ==> EventsNonEmpty(ex.executeWithResults.events))
      modifies ctx, cache
      ensures matched == ExecuterMatched(n, ex)
      ensures err == ExecuterError(n, ex)
      ensures ctx.vars == if |n.subtemplates| > 0 then PlainEventsStore(old(ctx.vars), ex.executeWithResults.events) else old(ctx.vars)
      ensures cache != null ==> cache.failed == old(cache.failed) + (if err.Some? then {ctx.target} else {})
    {
      if |n.subtemplates| > 0 {
        matched := OnPlainEvents(ex.executeWithResults.events);
        err := ex.executeWithResults.err;
      } else {
        matched := ex.execute.matched;
        err := ex.execute.err;
      }
      if err.Some? && cache != null {
        cache.MarkFailed(ctx.target, err.value);
      }
    }

    /** The plain-mode executer loop of lines 82-138. */
    method RunPlain(n: Node) returns (firstMatched: bool, mainErr: Option<Error>)
      requires Plain(n) && StepReady(n)
      modifies ctx, cache
      ensures firstMatched == PlainMatched(n)
      ensures ctx.vars == if |n.subtemplates| > 0 then PlainStore(old(ctx.vars), n.executers) else old(ctx.vars)
      ensures cache != null ==> cache.failed == old(cache.failed) + (if MarksFailed(n) then {ctx.target} else {})
      ensures mainErr == if |n.executers| == 1 then ExecuterError(n, n.executers[0]) else None
    {
      firstMatched, mainErr := false, None;
      var exs := n.executers;
      ghost var vars0 := ctx.vars;
      ghost var failed0 := if cache != null then cache.failed else {};
      for i := 0 to |exs|
        invariant firstMatched == MatchedBefore(n, i)
        invariant ctx.vars == if |n.subtemplates| > 0 then PlainStore(vars0, exs[..i]) else vars0
        invariant cache != null ==> cache.failed == failed0 + (if ErredBefore(n, i) then {ctx.target} else {})
        invariant mainErr == if |exs| == 1 && i == 1 then ExecuterError(n, exs[0]) else None
      {
        if |n.subtemplates| > 0 {
          PlainStoreSnoc(vars0, exs, i);
        }
        var matched, err := RunPlainExecuter(n, exs[i]);
        AddWhen(failed0, ErredBefore(n, i), err.Some?, ctx.target);
        if matched {
          firstMatched := true;
        }
        if err.Some? && |exs| == 1 {
          mainErr := err;
        }
        // any other error is only logged as a warning
      }
      assert exs[..|exs|] == exs;
      MatchedBeforeExists(n, |exs|);
      ErredBeforeExists(n, |exs|);
    }

    /** One executer of a matcher-gated node: stream it through the callback, return its error. */
    method RunMatcherExecuter(matchers: seq<Matcher>, ex: Executer) returns (err: Option<Error>)
      modifies ctx, this`pending
      ensures ctx.vars == MatcherEventsStore(old(ctx.vars), ex.executeWithResults.events)
      ensures pending == old(pending) + EventsChildren(matchers, ex.executeWithResults.events)
      ensures err == ex.executeWithResults.err
    {
      OnMatcherEvents(matchers, ex.executeWithResults.events);
      err := ex.executeWithResults.err;
    }

    /** The matcher-gated executer loop of lines 144-195; it never touches the host-errors cache. */
    method RunMatchers(ms: seq<Matcher>, exs: seq<Executer>) returns (mainErr: Option<Error>)
      modifies ctx, this`pending
      ensures ctx.vars == MatcherStore(old(ctx.vars), exs)
      ensures pending == old(pending) + ExecutersChildren(ms, exs)
      ensures mainErr == if |exs| == 1 then exs[0].executeWithResults.err else None
    {
      mainErr := None;
      ghost var vars0, pending0 := ctx.vars, pending;
      ghost var enqueued: seq<Node> := [];
      for i := 0 to |exs|
        invariant ctx.vars == MatcherStore(vars0, exs[..i])
        invariant enqueued == ExecutersChildren(ms, exs[..i])
        invariant pending == pending0 + enqueued
        invariant mainErr == if |exs| == 1 && i == 1 then exs[0].executeWithResults.err else None
      {
        ghost var children := EventsChildren(ms, exs[i].executeWithResults.events);
        ExecutersChildrenSnoc(ms, exs, i);
        MatcherStoreSnoc(vars0, exs, i);
        AppendAssoc(pending0, enqueued, children);
        var err := RunMatcherExecuter(ms, exs[i]);
        enqueued := enqueued + children;
        if err.Some? {
          if |exs| == 1 {
            mainErr := err;
          }
          // otherwise the error is only logged as a warning
        }
      }
      assert exs[..|exs|] == exs;
    }

    /** `runWorkflowStep`: one node's executers, the result flag, and its children's submission. */
    method RunStep(n: Node) returns (err: Option<Error>)
      requires StepReady(n)
      modifies this, ctx, cache
      ensures ran == old(ran) + [n]
      ensures ctx.vars == StepStore(old(ctx.vars), n)
      ensures results == (old(results) || Publishes(n))
      ensures pending == old(pending) + Children(n)
      ensures cache != null ==> cache.failed == old(cache.failed) + (if MarksFailed(n) then {ctx.target} else {})
      ensures |n.executers| == 1 ==> err == ExecuterError(n, n.executers[0])
      ensures |n.executers| != 1 ==> err == None
    {
      ran := ran + [n];
      var firstMatched := false;
      var mainErr: Option<Error> := None;
      if |n.matchers| == 0 {
        firstMatched, mainErr := RunPlain(n);
      }
      if |n.subtemplates| == 0 {
        // the flag is published only while it is still false (line 141)
        if !results {
          results := firstMatched;
        }
      }
      if |n.matchers| > 0 {
        mainErr := RunMatchers(n.matchers, n.executers);
        return mainErr;
      }
      if |n.subtemplates| > 0 && firstMatched {
        SubmitAll(n.subtemplates);
      }
      return mainErr;
    }

    /** Lines 51-65: each top-level node runs as a step of its own, in order, without waiting for what it submits. */
    method RunTopLevel(tops: seq<Node>)
      requires AllReady(tops)
      modifies this, ctx, cache
      ensures ran == old(ran) + tops
      ensures pending == old(pending) + AllChildren(tops)
      ensures results == (old(results) || AnyPublishes(tops))
      ensures ctx.vars == StepsStore(old(ctx.vars), tops)
      ensures cache != null ==> cache.failed == old(cache.failed) + (if AnyMarks(tops) then {ctx.target} else {})
    {
      ghost var p0, r0, ran0, vars0 := pending, results, ran, ctx.vars;
      ghost var failed0 := if cache != null then cache.failed else {};
      // The steps still to run, and the state they will produce from here, stay the same.
      var todo := tops;
      while todo != []
        invariant AllReady(todo)
        invariant ran + todo == ran0 + tops
        invariant pending + AllChildren(todo) == p0 + AllChildren(tops)
        invariant (results || AnyPublishes(todo)) == (r0 || AnyPublishes(tops))
        invariant StepsStore(ctx.vars, todo) == StepsStore(vars0, tops)
        invariant cache != null ==>
          cache.failed + (if AnyMarks(todo) then {ctx.target} else {})
          == failed0 + (if AnyMarks(tops) then {ctx.target} else {})
      {
        var t := todo[0];
        HeadTail(todo);
        StepsCons(ctx.vars, todo);
        FoldsCons(todo);
        AppendAssoc(ran, [t], todo[1..]);
        AppendAssoc(pending, Children(t), AllChildren(todo[1..]));
        if cache != null {
          AddWhen(cache.failed, MarksFailed(t), AnyMarks(todo[1..]), ctx.target);
        }
        todo := todo[1..];
        var _ := RunStep(t);
      }
    }

    /** `swg.Wait()`: run pending tasks, first in first out, including those they submit, until none is left. */
    method Drain()
      requires forall i | 0 <= i < |pending| :: WellFormed(pending[i])
      modifies this, ctx, cache
      ensures pending == []
      ensures ran == old(ran) + Trace(old(pending))
      ensures |ran| == |old(ran)| + Work(old(pending)) && ran[..|old(ran)|] == old(ran)
      ensures results == (old(results) || AnyMatches(old(pending)))
      ensures AllReady(Trace(old(pending)))
      ensures results == (old(results) || AnyPublishes(Trace(old(pending))))
      ensures ctx.vars == StepsStore(old(ctx.vars), Trace(old(pending)))
      ensures cache != null ==> cache.failed == old(cache.failed) + (if AnyMarks(Trace(old(pending))) then {ctx.target} else {})
    {
      ghost var p0, r0, ran0, vars0 := pending, results, ran, ctx.vars;
      ghost var failed0 := if cache != null then cache.failed else {};
      TraceReady(p0);
      // As for the top-level nodes: what is left to run, and the state it will produce, stay the same.
      while pending != []
        invariant AllReady(Trace(pending))
        invariant ran + Trace(pending) == ran0 + Trace(p0)
        invariant (results || AnyPublishes(Trace(pending))) == (r0 || AnyPublishes(Trace(p0)))
        invariant StepsStore(ctx.vars, Trace(pending)) == StepsStore(vars0, Trace(p0))
        invariant cache != null ==>
          cache.failed + (if AnyMarks(Trace(pending)) then {ctx.target} else {})
          == failed0 + (if AnyMarks(Trace(p0)) then {ctx.target} else {})
        decreases |Trace(pending)|
      {
        var t := pending[0];
        DrainStep(ctx.vars, pending);
        AppendAssoc(ran, [t], Trace(pending[1..] + Children(t)));
        if cache != null {
          AddWhen(cache.failed, MarksFailed(t), AnyMarks(Trace(pending[1..] + Children(t))), ctx.target);
        }
        pending := pending[1..];
        var _ := RunStep(t);
      }
      AppendPrefix(ran0, Trace(p0));
      TraceLength(p0);
      TraceVerdict(p0);
    }
  }

  /**
   `executeWorkflow`: runs every top-level node in order, then waits for every task they
   transitively submit, and returns the shared result flag. Step errors are only logged.
   */
  method ExecuteWorkflow(ctx: ScanContext, w: Workflow) returns (matched: bool, ghost ran: seq<Node>)
    requires forall i | 0 <= i < |w.workflows| :: WellFormed(w.workflows[i])
    modifies ctx, w.hostErrorsCache
    ensures ran == Trace(w.workflows) && AllReady(ran)
    ensures |ran| == Work(w.workflows)
    ensures ran == w.workflows + Trace(AllChildren(w.workflows))
    ensures |w.workflows| <= |ran| && ran[..|w.workflows|] == w.workflows
    ensures matched == AnyMatches(w.workflows) == AnyPublishes(ran)
    ensures ctx.vars == StepsStore(old(ctx.vars), ran)
    ensures w.hostErrorsCache != null ==>
      w.hostErrorsCache.failed == old(w.hostErrorsCache.failed) + (if AnyMarks(ran) then {ctx.target} else {})
  {
    var run := new Run(ctx, w.hostErrorsCache, TemplateThreads(w.templateThreads));
    var tops := w.workflows;
    forall i | 0 <= i < |tops| ensures StepReady(tops[i]) {
      assert WellFormed(tops[i]);
    }
    ghost var vars0 := ctx.vars;
    ghost var failed0 := if run.cache != null then run.cache.failed else {};
    run.RunTopLevel(tops);
    ghost var vars1, failed1, ran1, r1 := ctx.vars, (if run.cache != null then run.cache.failed else {}), run.ran, run.results;
    assert run.pending == AllChildren(tops);
    AllChildrenWellFormed(tops);
    run.Drain();
    ghost var vars2, failed2 := ctx.vars, (if run.cache != null then run.cache.failed else {});
    RunComposes(vars0, vars1, vars2, run.cache != null, failed0, failed1, failed2, ctx.target, tops, ran1, run.ran, r1, run.results);
    matched := run.results;
    ran := run.ran;
  }
}
