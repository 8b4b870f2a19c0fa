/**
 The meaning of one `runWorkflowStep` call as functions of the node and its executers'
 outcomes: what it writes to the store, whether it publishes a match, its error, whether
 it marks the host failed, and which tasks it enqueues. Also the measures (node size,
 number of tasks a subtree spawns) and the workflow verdict a whole run computes.
 */
module Steps {
  import opened Workflows
  import opened Extraction

  /** Plain mode: the node has no matchers. */
  predicate Plain(n: Node) { |n.matchers| == 0 }

  /** The node's executers run in streaming mode: matcher-gated, or plain with subtemplates. */
  predicate Streams(n: Node) { |n.matchers| > 0 || |n.subtemplates| > 0 }

  /** Plain mode with subtemplates: the only mode that normalizes extractions. */
  predicate PlainStreaming(n: Node) { Plain(n) && |n.subtemplates| > 0 }

  predicate EventNonEmpty(ev: Event) {
    ev.operatorsResult.Some? ==> NonEmptyValues(ev.operatorsResult.value.extracts)
  }

  predicate EventsNonEmpty(evs: seq<Event>) {
    forall k | 0 <= k < |evs| :: EventNonEmpty(evs[k])
  }

  predicate ExecutersNonEmpty(exs: seq<Executer>) {
    forall i | 0 <= i < |exs| :: EventsNonEmpty(exs[i].executeWithResults.events)
  }

  /** A node whose step does not index an empty extraction list. */
  predicate StepReady(n: Node) {
    PlainStreaming(n) ==> ExecutersNonEmpty(n.executers)
  }

  /** Every node of the tree is step-ready. */
  ghost predicate WellFormed(n: Node) {
    && StepReady(n)
    && (forall c | c in n.subtemplates :: WellFormed(c))
    && (forall m | m in n.matchers :: forall c | c in m.subtemplates :: WellFormed(c))
  }

  // ---------------------------------------------------------------- plain mode

  /** A streamed event that sets `firstMatched`: non-nil operators result and at least one result. */
  predicate EventMatched(ev: Event) {
    ev.operatorsResult.Some? && ev.results > 0
  }

  /** Whether an executer of plain node `n` reports a match, in the mode `n` selects. */
  predicate ExecuterMatched(n: Node, ex: Executer) {
    if |n.subtemplates| > 0 then
      exists k | 0 <= k < |ex.executeWithResults.events| :: EventMatched(ex.executeWithResults.events[k])
    else ex.execute.matched
  }

  /** The final value of `firstMatched` for a plain node: some executer reported a match. */
  predicate PlainMatched(n: Node) {
    exists i | 0 <= i < |n.executers| :: ExecuterMatched(n, n.executers[i])
  }

  /** The error an executer of `n` returns, in the mode `n` selects. */
  function ExecuterError(n: Node, ex: Executer): Option<Error> {
    if Streams(n) then ex.executeWithResults.err else ex.execute.err
  }

  /** The step marks the target in the host-errors cache (when there is one). */
  predicate MarksFailed(n: Node) {
    Plain(n) && exists i | 0 <= i < |n.executers| :: ExecuterError(n, n.executers[i]).Some?
  }

  /** The step sets the shared result flag (when it is still false). */
  predicate Publishes(n: Node) {
    Plain(n) && |n.subtemplates| == 0 && PlainMatched(n)
  }

  // ---------------------------------------------------------------- store

  function PlainEventStore(store: Store, ev: Event): Store
    requires EventNonEmpty(ev)
  {
    match ev.operatorsResult
    case None => store
    case Some(o) => Normalized(store, o.extracts)
  }

  function PlainEventsStore(store: Store, evs: seq<Event>): Store
    requires EventsNonEmpty(evs)
  {
    if evs == [] then store
    else PlainEventStore(PlainEventsStore(store, evs[..|evs| - 1]), evs[|evs| - 1])
  }

  function PlainStore(store: Store, exs: seq<Executer>): Store
    requires ExecutersNonEmpty(exs)
  {
    if exs == [] then store
    else PlainEventsStore(PlainStore(store, exs[..|exs| - 1]), exs[|exs| - 1].executeWithResults.events)
  }

  function MatcherEventStore(store: Store, ev: Event): Store {
    match ev.operatorsResult
    case None => store
    case Some(o) => Listed(store, o.extracts)
  }

  function MatcherEventsStore(store: Store, evs: seq<Event>): Store {
    if evs == [] then store
    else MatcherEventStore(MatcherEventsStore(store, evs[..|evs| - 1]), evs[|evs| - 1])
  }

  function MatcherStore(store: Store, exs: seq<Executer>): Store {
    if exs == [] then store
    else MatcherEventsStore(MatcherStore(store, exs[..|exs| - 1]), exs[|exs| - 1].executeWithResults.events)
  }

  /** The store after one step: single-shot plain nodes do not touch it. */
  function StepStore(store: Store, n: Node): Store
    requires StepReady(n)
  {
    if !Plain(n) then MatcherStore(store, n.executers)
    else if |n.subtemplates| > 0 then PlainStore(store, n.executers)
    else store
  }

  // ---------------------------------------------------------------- scheduling

  /** `c` is a subtemplate of one of the matchers. */
  ghost predicate IsMatcherChild(ms: seq<Matcher>, c: Node) {
    exists j | 0 <= j < |ms| :: c in ms[j].subtemplates
  }

  /** The subtemplates one event enqueues: those of every satisfied matcher, in matcher order. */
  function MatchedSubtemplates(ms: seq<Matcher>, o: OperatorsResult): seq<Node> {
    if ms == [] then []
    else MatchedSubtemplates(ms[..|ms| - 1], o) + (if ms[|ms| - 1].accepts(o) then ms[|ms| - 1].subtemplates else [])
  }

  function EventChildren(ms: seq<Matcher>, ev: Event): seq<Node> {
    match ev.operatorsResult
    case None => []
    case Some(o) => MatchedSubtemplates(ms, o)
  }

  function EventsChildren(ms: seq<Matcher>, evs: seq<Event>): seq<Node> {
    if evs == [] then []
    else EventsChildren(ms, evs[..|evs| - 1]) + EventChildren(ms, evs[|evs| - 1])
  }

  function ExecutersChildren(ms: seq<Matcher>, exs: seq<Executer>): seq<Node> {
    if exs == [] then []
    else ExecutersChildren(ms, exs[..|exs| - 1]) + EventsChildren(ms, exs[|exs| - 1].executeWithResults.events)
  }

  /**
   The tasks one step enqueues. A plain node with subtemplates enqueues each of them once
   if it matched; a matcher-gated node enqueues, per event, the subtemplates of the
   matchers that event satisfies.
   */
  function Children(n: Node): seq<Node> {
    if Plain(n) then
      if |n.subtemplates| > 0 && PlainMatched(n) then n.subtemplates else []
    else ExecutersChildren(n.matchers, n.executers)
  }

  /** A node is enqueued for an operators result exactly when a matcher it belongs to is satisfied by it. */
  lemma {:induction false} MatchedSubtemplatesMember(ms: seq<Matcher>, o: OperatorsResult, c: Node)
    ensures c in MatchedSubtemplates(ms, o) <==> exists j | 0 <= j < |ms| :: ms[j].accepts(o) && c in ms[j].subtemplates
  {
    if ms != [] {
      var p := ms[..|ms| - 1];
      MatchedSubtemplatesMember(p, o, c);
      if j :| 0 <= j < |p| && p[j].accepts(o) && c in p[j].subtemplates {
        assert ms[j] == p[j];
      }
      if j :| 0 <= j < |ms| - 1 && ms[j].accepts(o) && c in ms[j].subtemplates {
        assert p[j] == ms[j];
      }
    }
  }

  lemma {:induction false} EventsChildrenOrigin(ms: seq<Matcher>, evs: seq<Event>)
    ensures forall i | 0 <= i < |EventsChildren(ms, evs)| :: IsMatcherChild(ms, EventsChildren(ms, evs)[i])
  {
    if evs != [] {
      EventsChildrenOrigin(ms, evs[..|evs| - 1]);
      var last := evs[|evs| - 1];
      if last.operatorsResult.Some? {
        var r := MatchedSubtemplates(ms, last.operatorsResult.value);
        forall i | 0 <= i < |r| ensures IsMatcherChild(ms, r[i]) {
          MatchedSubtemplatesMember(ms, last.operatorsResult.value, r[i]);
        }
      }
    }
  }

  lemma {:induction false} ExecutersChildrenOrigin(ms: seq<Matcher>, exs: seq<Executer>)
    ensures forall i | 0 <= i < |ExecutersChildren(ms, exs)| :: IsMatcherChild(ms, ExecutersChildren(ms, exs)[i])
  {
    if exs != [] {
      ExecutersChildrenOrigin(ms, exs[..|exs| - 1]);
      EventsChildrenOrigin(ms, exs[|exs| - 1].executeWithResults.events);
    }
  }

  /**
   Where children come from: a plain node enqueues only its own subtemplates, a
   matcher-gated node only subtemplates of its matchers.
   */
  lemma ChildrenOrigin(n: Node)
    ensures Plain(n) ==> forall i | 0 <= i < |Children(n)| :: Children(n)[i] in n.subtemplates
    ensures !Plain(n) ==> forall i | 0 <= i < |Children(n)| :: IsMatcherChild(n.matchers, Children(n)[i])
  {
    if !Plain(n) {
      ExecutersChildrenOrigin(n.matchers, n.executers);
    }
  }

  /** When only matcher `j` accepts `o`, an event carrying `o` enqueues exactly its subtemplates. */
  lemma {:induction false} SoleMatcher(ms: seq<Matcher>, o: OperatorsResult, j: nat)
    requires j < |ms| && ms[j].accepts(o)
    requires forall k | 0 <= k < |ms| && k != j :: !ms[k].accepts(o)
    ensures MatchedSubtemplates(ms, o) == ms[j].subtemplates
  {
    var p := ms[..|ms| - 1];
    if j < |ms| - 1 {
      SoleMatcher(p, o, j);
      assert !ms[|ms| - 1].accepts(o);
    } else {
      NoMatcher(p, o);
    }
  }

  /** When no matcher accepts `o`, an event carrying `o` enqueues nothing. */
  lemma {:induction false} NoMatcher(ms: seq<Matcher>, o: OperatorsResult)
    requires forall k | 0 <= k < |ms| :: !ms[k].accepts(o)
    ensures MatchedSubtemplates(ms, o) == []
  {
    if ms != [] {
      NoMatcher(ms[..|ms| - 1], o);
    }
  }

  /** Scheduling in matcher mode is per event: a stream split in two enqueues the two halves' tasks, in order. */
  lemma {:induction false} EventsChildrenAppend(ms: seq<Matcher>, a: seq<Event>, b: seq<Event>)
    ensures EventsChildren(ms, a + b) == EventsChildren(ms, a) + EventsChildren(ms, b)
  {
    if b == [] {
      assert a + b == a;
    } else {
      var p := b[..|b| - 1];
      assert (a + b)[..|a + b| - 1] == a + p;
      EventsChildrenAppend(ms, a, p);
      AppendAssoc(EventsChildren(ms, a), EventsChildren(ms, p), EventChildren(ms, b[|b| - 1]));
    }
  }

  /** `s` repeated `k` times. */
  function Repeat(s: seq<Node>, k: nat): seq<Node> {
    if k == 0 then [] else Repeat(s, k - 1) + s
  }

  /** The number of events whose operators result is non-nil and satisfies `m`. */
  function AcceptingEvents(m: Matcher, evs: seq<Event>): nat {
    if evs == [] then 0
    else
      var ev := evs[|evs| - 1];
      AcceptingEvents(m, evs[..|evs| - 1]) + (if ev.operatorsResult.Some? && m.accepts(ev.operatorsResult.value) then 1 else 0)
  }

  /** With a single matcher, its subtemplates are enqueued once per event that satisfies it. */
  lemma {:induction false} OncePerMatchingEvent(m: Matcher, evs: seq<Event>)
    ensures EventsChildren([m], evs) == Repeat(m.subtemplates, AcceptingEvents(m, evs))
  {
    if evs != [] {
      var p, ev := evs[..|evs| - 1], evs[|evs| - 1];
      OncePerMatchingEvent(m, p);
      var k := AcceptingEvents(m, p);
      assert [m][..0] == [];
      if ev.operatorsResult.Some? {
        var o := ev.operatorsResult.value;
        assert MatchedSubtemplates([m], o) == if m.accepts(o) then m.subtemplates else [];
        if m.accepts(o) {
          assert AcceptingEvents(m, evs) == k + 1;
          assert Repeat(m.subtemplates, k + 1) == Repeat(m.subtemplates, k) + m.subtemplates;
        } else {
          assert EventsChildren([m], evs) == EventsChildren([m], p) + [];
        }
      } else {
        assert EventsChildren([m], evs) == EventsChildren([m], p) + [];
      }
    }
  }

  /** The events that carry an operators result. */
  function Delivered(evs: seq<Event>): seq<Event> {
    if evs == [] then []
    else Delivered(evs[..|evs| - 1]) + (if evs[|evs| - 1].operatorsResult.Some? then [evs[|evs| - 1]] else [])
  }

  lemma {:induction false} DeliveredNonEmpty(evs: seq<Event>)
    requires EventsNonEmpty(evs)
    ensures EventsNonEmpty(Delivered(evs))
  {
    if evs != [] {
      var p, ev := evs[..|evs| - 1], evs[|evs| - 1];
      assert EventsNonEmpty(p);
      DeliveredNonEmpty(p);
      var d := Delivered(p);
      if ev.operatorsResult.Some? {
        var d' := d + [ev];
        assert Delivered(evs) == d';
        forall k | 0 <= k < |d'| ensures EventNonEmpty(d'[k]) {
          if k < |d| {
            assert d'[k] == d[k];
          }
        }
      } else {
        assert Delivered(evs) == d;
      }
    }
  }

  lemma {:induction false} DeliveredPlainStore(store: Store, evs: seq<Event>)
    requires EventsNonEmpty(evs)
    ensures EventsNonEmpty(Delivered(evs))
    ensures PlainEventsStore(store, Delivered(evs)) == PlainEventsStore(store, evs)
  {
    DeliveredNonEmpty(evs);
    if evs != [] {
      var p, ev := evs[..|evs| - 1], evs[|evs| - 1];
      assert EventsNonEmpty(p);
      DeliveredPlainStore(store, p);
      var d := Delivered(p);
      if ev.operatorsResult.Some? {
        assert (d + [ev])[..|d|] == d;
      } else {
        assert Delivered(evs) == d;
      }
    }
  }

  lemma {:induction false} DeliveredMatcherStore(store: Store, evs: seq<Event>)
    ensures MatcherEventsStore(store, Delivered(evs)) == MatcherEventsStore(store, evs)
  {
    if evs != [] {
      var p, ev := evs[..|evs| - 1], evs[|evs| - 1];
      DeliveredMatcherStore(store, p);
      var d := Delivered(p);
      if ev.operatorsResult.Some? {
        assert (d + [ev])[..|d|] == d;
      } else {
        assert Delivered(evs) == d;
      }
    }
  }

  lemma {:induction false} DeliveredChildren(ms: seq<Matcher>, evs: seq<Event>)
    ensures EventsChildren(ms, Delivered(evs)) == EventsChildren(ms, evs)
  {
    if evs != [] {
      var p, ev := evs[..|evs| - 1], evs[|evs| - 1];
      DeliveredChildren(ms, p);
      var d := Delivered(p);
      if ev.operatorsResult.Some? {
        assert (d + [ev])[..|d|] == d;
      } else {
        assert Delivered(evs) == d;
        assert EventsChildren(ms, evs) == EventsChildren(ms, p) + [];
      }
    }
  }

  /** Every element of `Delivered(evs)` is an event of `evs` with an operators result, and conversely. */
  lemma {:induction false} DeliveredMember(evs: seq<Event>, ev: Event)
    ensures ev in Delivered(evs) <==> ev in evs && ev.operatorsResult.Some?
  {
    if evs != [] {
      var p := evs[..|evs| - 1];
      DeliveredMember(p, ev);
      assert evs == p + [evs[|evs| - 1]];
    }
  }

  lemma DeliveredMatched(evs: seq<Event>)
    ensures (exists k | 0 <= k < |evs| :: EventMatched(evs[k])) <==> (exists k | 0 <= k < |Delivered(evs)| :: EventMatched(Delivered(evs)[k]))
  {
    var d := Delivered(evs);
    if k :| 0 <= k < |evs| && EventMatched(evs[k]) {
      DeliveredMember(evs, evs[k]);
      var k' :| 0 <= k' < |d| && d[k'] == evs[k];
    }
    if k :| 0 <= k < |d| && EventMatched(d[k]) {
      DeliveredMember(evs, d[k]);
      var k' :| 0 <= k' < |evs| && evs[k'] == d[k];
    }
  }

  /**
   Events with a nil operators result are inert: dropping them from a stream changes
   neither the store writes (in either mode), nor the tasks enqueued, nor whether the
   stream matched.
   */
  lemma NilEventsInert(store: Store, ms: seq<Matcher>, evs: seq<Event>)
    requires EventsNonEmpty(evs)
    ensures EventsNonEmpty(Delivered(evs))
    ensures PlainEventsStore(store, Delivered(evs)) == PlainEventsStore(store, evs)
    ensures MatcherEventsStore(store, Delivered(evs)) == MatcherEventsStore(store, evs)
    ensures EventsChildren(ms, Delivered(evs)) == EventsChildren(ms, evs)
    ensures (exists k | 0 <= k < |evs| :: EventMatched(evs[k])) <==> (exists k | 0 <= k < |Delivered(evs)| :: EventMatched(Delivered(evs)[k]))
  {
    DeliveredPlainStore(store, evs);
    DeliveredMatcherStore(store, evs);
    DeliveredChildren(ms, evs);
    DeliveredMatched(evs);
  }

  /**
   A matcher-gated node neither enqueues nor publishes through its own subtemplates:
   replacing them changes nothing the step does.
   */
  lemma MatcherIgnoresSubtemplates(store: Store, n: Node, subs: seq<Node>)
    requires !Plain(n)
    ensures Children(n.(subtemplates := subs)) == Children(n)
    ensures StepStore(store, n.(subtemplates := subs)) == StepStore(store, n)
    ensures !Publishes(n) && !MarksFailed(n)
  {
  }

  // ---------------------------------------------------------------- measures

  function Size(n: Node): (s: nat)
    ensures s >= 1
  {
    1 + SumSizes(n.subtemplates) + MatcherSizes(n.matchers)
  }

  function SumSizes(s: seq<Node>): nat {
    if s == [] then 0 else SumSizes(s[..|s| - 1]) + Size(s[|s| - 1])
  }

  function MatcherSizes(ms: seq<Matcher>): nat {
    if ms == [] then 0 else MatcherSizes(ms[..|ms| - 1]) + SumSizes(ms[|ms| - 1].subtemplates)
  }

  lemma {:induction false} SubtemplateSize(s: seq<Node>, c: Node)
    requires c in s
    ensures Size(c) <= SumSizes(s)
  {
    if s[|s| - 1] != c {
      assert c in s[..|s| - 1];
      SubtemplateSize(s[..|s| - 1], c);
    }
  }

  lemma {:induction false} MatcherChildSize(ms: seq<Matcher>, c: Node)
    requires IsMatcherChild(ms, c)
    ensures Size(c) <= MatcherSizes(ms)
  {
    var j :| 0 <= j < |ms| && c in ms[j].subtemplates;
    if j == |ms| - 1 {
      SubtemplateSize(ms[j].subtemplates, c);
    } else {
      assert ms[..|ms| - 1][j] == ms[j];
      MatcherChildSize(ms[..|ms| - 1], c);
    }
  }

  /** Every enqueued task is a strict subtree of the node that enqueued it. */
  lemma ChildrenSmaller(n: Node)
    ensures forall i | 0 <= i < |Children(n)| :: Size(Children(n)[i]) < Size(n)
  {
    ChildrenOrigin(n);
    var r := Children(n);
    forall i | 0 <= i < |r| ensures Size(r[i]) < Size(n) {
      if Plain(n) {
        SubtemplateSize(n.subtemplates, r[i]);
      } else {
        MatcherChildSize(n.matchers, r[i]);
      }
    }
  }

  /** Children of a well-formed node are well-formed. */
  lemma ChildrenWellFormed(n: Node)
    requires WellFormed(n)
    ensures forall i | 0 <= i < |Children(n)| :: WellFormed(Children(n)[i])
  {
    ChildrenOrigin(n);
    var r := Children(n);
    forall i | 0 <= i < |r| ensures WellFormed(r[i]) {
      if !Plain(n) {
        var j :| 0 <= j < |n.matchers| && r[i] in n.matchers[j].subtemplates;
        assert n.matchers[j] in n.matchers;
      }
    }
  }

  function MaxSize(q: seq<Node>): nat {
    if q == [] then 0
    else
      var m := MaxSize(q[..|q| - 1]);
      if Size(q[|q| - 1]) > m then Size(q[|q| - 1]) else m
  }

  lemma {:induction false} MaxSizeBelow(q: seq<Node>, b: nat)
    requires b > 0 && forall i | 0 <= i < |q| :: Size(q[i]) < b
    ensures MaxSize(q) < b
  {
    if q != [] {
      MaxSizeBelow(q[..|q| - 1], b);
    }
  }

  /** The number of step calls the subtree rooted at `n` makes: itself and every task it spawns. */
  ghost function Weight(n: Node): nat
    decreases Size(n), 0
  {
    ChildrenSmaller(n);
    MaxSizeBelow(Children(n), Size(n));
    1 + Work(Children(n))
  }

  /** The number of step calls needed to drain a queue of pending tasks. */
  ghost function Work(q: seq<Node>): nat
    decreases MaxSize(q), 1, |q|
  {
    if q == [] then 0 else Work(q[..|q| - 1]) + Weight(q[|q| - 1])
  }

  /** Some task of the subtree rooted at `n` publishes a match. */
  ghost predicate TreeMatches(n: Node)
    decreases Size(n), 0
  {
    ChildrenSmaller(n);
    MaxSizeBelow(Children(n), Size(n));
    Publishes(n) || AnyMatches(Children(n))
  }

  /** Some subtree of the queue publishes a match. */
  ghost predicate AnyMatches(q: seq<Node>)
    decreases MaxSize(q), 1, |q|
  {
    q != [] && (AnyMatches(q[..|q| - 1]) || TreeMatches(q[|q| - 1]))
  }

  lemma {:induction false} WorkAppend(a: seq<Node>, b: seq<Node>)
    ensures Work(a + b) == Work(a) + Work(b)
  {
    if b != [] {
      var p := b[..|b| - 1];
      assert (a + b)[..|a + b| - 1] == a + p;
      WorkAppend(a, p);
    } else {
      assert a + b == a;
    }
  }

  lemma {:induction false} AnyMatchesAppend(a: seq<Node>, b: seq<Node>)
    ensures AnyMatches(a + b) == (AnyMatches(a) || AnyMatches(b))
  {
    if b != [] {
      var p := b[..|b| - 1];
      assert (a + b)[..|a + b| - 1] == a + p;
      AnyMatchesAppend(a, p);
    } else {
      assert a + b == a;
    }
  }

  /** The queue matches exactly when one of its subtrees does. */
  lemma {:induction false} AnyMatchesExists(q: seq<Node>)
    ensures AnyMatches(q) <==> exists i | 0 <= i < |q| :: TreeMatches(q[i])
  {
    if q != [] {
      var p := q[..|q| - 1];
      AnyMatchesExists(p);
      if i :| 0 <= i < |p| && TreeMatches(p[i]) {
        assert q[i] == p[i];
      }
      if i :| 0 <= i < |q| - 1 && TreeMatches(q[i]) {
        assert p[i] == q[i];
      }
    }
  }

  /** Well-formed queues stay well-formed when concatenated. */
  lemma AllWellFormedAppend(a: seq<Node>, b: seq<Node>)
    requires forall i | 0 <= i < |a| :: WellFormed(a[i])
    requires forall i | 0 <= i < |b| :: WellFormed(b[i])
    ensures forall i | 0 <= i < |a + b| :: WellFormed((a + b)[i])
  {
    forall i | 0 <= i < |a + b| ensures WellFormed((a + b)[i]) {
      if i < |a| {
        assert (a + b)[i] == a[i];
      } else {
        assert (a + b)[i] == b[i - |a|];
      }
    }
  }

  /** One publishing task decides the verdict of the whole queue, whatever its siblings (and their errors) do. */
  lemma SiblingSuccess(q: seq<Node>, i: nat)
    requires i < |q| && Publishes(q[i])
    ensures AnyMatches(q)
  {
    AnyMatchesExists(q);
    assert TreeMatches(q[i]);
  }

  /** The tasks a sequence of top-level steps submits, in the order they are submitted. */
  function AllChildren(q: seq<Node>): seq<Node> {
    if q == [] then [] else AllChildren(q[..|q| - 1]) + Children(q[|q| - 1])
  }

  /** Some step of the sequence publishes a match itself. */
  predicate AnyPublishes(q: seq<Node>) {
    q != [] && (AnyPublishes(q[..|q| - 1]) || Publishes(q[|q| - 1]))
  }

  lemma {:induction false} AllChildrenWellFormed(q: seq<Node>)
    requires forall i | 0 <= i < |q| :: WellFormed(q[i])
    ensures forall i | 0 <= i < |AllChildren(q)| :: WellFormed(AllChildren(q)[i])
  {
    if q != [] {
      var p, t := q[..|q| - 1], q[|q| - 1];
      AllChildrenWellFormed(p);
      ChildrenWellFormed(t);
      var a, b := AllChildren(p), Children(t);
      assert AllChildren(q) == a + b;
      forall i | 0 <= i < |a + b| ensures WellFormed((a + b)[i]) {
        if i < |a| {
          assert (a + b)[i] == a[i];
        } else {
          assert (a + b)[i] == b[i - |a|];
        }
      }
    }
  }

  /** Running the head of the queue and enqueueing its children: one step fewer, same verdict. */
  lemma DequeueMeasures(q: seq<Node>)
    requires q != []
    ensures Work(q) == 1 + Work(q[1..] + Children(q[0]))
    ensures AnyMatches(q) == (Publishes(q[0]) || AnyMatches(q[1..] + Children(q[0])))
  {
    var t, rest := q[0], q[1..];
    assert q == [t] + rest;
    assert [t][..0] == [];
    WorkAppend([t], rest);
    AnyMatchesAppend([t], rest);
    WorkAppend(rest, Children(t));
    AnyMatchesAppend(rest, Children(t));
  }

  /** One more executer in matcher mode appends what its events enqueue. */
  lemma ExecutersChildrenSnoc(ms: seq<Matcher>, exs: seq<Executer>, i: nat)
    requires i < |exs|
    ensures ExecutersChildren(ms, exs[..i + 1]) == ExecutersChildren(ms, exs[..i]) + EventsChildren(ms, exs[i].executeWithResults.events)
  {
    assert exs[..i + 1][..i] == exs[..i];
  }

  lemma MatcherStoreSnoc(store: Store, exs: seq<Executer>, i: nat)
    requires i < |exs|
    ensures MatcherStore(store, exs[..i + 1]) == MatcherEventsStore(MatcherStore(store, exs[..i]), exs[i].executeWithResults.events)
  {
    assert exs[..i + 1][..i] == exs[..i];
  }

  lemma PlainStoreSnoc(store: Store, exs: seq<Executer>, i: nat)
    requires i < |exs| && ExecutersNonEmpty(exs)
    ensures ExecutersNonEmpty(exs[..i]) && ExecutersNonEmpty(exs[..i + 1])
    ensures PlainStore(store, exs[..i + 1]) == PlainEventsStore(PlainStore(store, exs[..i]), exs[i].executeWithResults.events)
  {
    assert exs[..i + 1][..i] == exs[..i];
  }

  /** Whether one of the first `i` executers of `n` reported a match. */
  predicate MatchedBefore(n: Node, i: nat)
    requires i <= |n.executers|
  {
    i > 0 && (MatchedBefore(n, i - 1) || ExecuterMatched(n, n.executers[i - 1]))
  }

  /** Whether one of the first `i` executers of `n` returned an error. */
  predicate ErredBefore(n: Node, i: nat)
    requires i <= |n.executers|
  {
    i > 0 && (ErredBefore(n, i - 1) || ExecuterError(n, n.executers[i - 1]).Some?)
  }

  lemma {:induction false} MatchedBeforeExists(n: Node, i: nat)
    requires i <= |n.executers|
    ensures MatchedBefore(n, i) <==> exists i' | 0 <= i' < i :: ExecuterMatched(n, n.executers[i'])
  {
    if i > 0 {
      MatchedBeforeExists(n, i - 1);
    }
  }

  lemma {:induction false} ErredBeforeExists(n: Node, i: nat)
    requires i <= |n.executers|
    ensures ErredBefore(n, i) <==> exists i' | 0 <= i' < i :: ExecuterError(n, n.executers[i']).Some?
  {
    if i > 0 {
      ErredBeforeExists(n, i - 1);
    }
  }
}
