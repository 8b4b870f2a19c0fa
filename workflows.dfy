/**
 The data a workflow run consumes: the immutable workflow tree and the outcomes its
 check executers report. Executers are not code here: each one is the data it would
 hand back to the scheduler in either of its two modes.
 */
module Workflows {

  datatype Option<T> = None | Some(value: T)

  /** An error returned by a check executer; the scheduler never looks inside it. */
  datatype Error = Error(message: string)

  /** A value of the scan-variable store: Go's `Set` receives either a string or a []string. */
  datatype Value = Scalar(s: string) | List(items: seq<string>)

  /** One entry of an operators result's `Extracts` map: extraction name to extracted values. */
  datatype Extract = Extract(name: string, values: seq<string>)

  /**
   The parts of an operators result the scheduler touches. `extracts` lists the entries of
   the Go map in the order one `range` over it visits them (a nil map is the empty list);
   `matches` is what a matcher inspects.
   */
  datatype OperatorsResult = OperatorsResult(extracts: seq<Extract>, matches: map<string, seq<string>>)

  /**
   One event delivered to the `ExecuteWithResults` callback: an optional operators result
   (None is Go's nil) and the number of result events it carries (`len(result.Results)`).
   */
  datatype Event = Event(operatorsResult: Option<OperatorsResult>, results: nat)

  /** What `Execute` returns: whether the check matched, and its error. */
  datatype Shot = Shot(matched: bool, err: Option<Error>)

  /** What `ExecuteWithResults` does: the events it streams, in order, then its error. */
  datatype Stream = Stream(events: seq<Event>, err: Option<Error>)

  /** A check executer, given by its outcome in single-shot and in streaming mode. */
  datatype Executer = Executer(execute: Shot, executeWithResults: Stream)

  /** A workflow matcher: an abstract predicate over an operators result, and its own children. */
  datatype Matcher = Matcher(accepts: OperatorsResult -> bool, subtemplates: seq<Node>)

  /** A workflow template node. */
  datatype Node = Node(template: string, executers: seq<Executer>, matchers: seq<Matcher>, subtemplates: seq<Node>)

  /** Concatenation regroups; called where a sequence grows by a piece per iteration. */
  lemma AppendAssoc<T>(a: seq<T>, b: seq<T>, c: seq<T>)
    ensures (a + b) + c == a + (b + c)
  {
  }

  /** Dequeuing from a concatenation whose first part is not empty dequeues from that part. */
  lemma AppendTail<T>(a: seq<T>, b: seq<T>)
    requires a != []
    ensures (a + b)[0] == a[0] && (a + b)[1..] == a[1..] + b
  {
  }

  /** A concatenation starts with its first part. */
  lemma AppendPrefix<T>(a: seq<T>, b: seq<T>)
    ensures |a + b| == |a| + |b| && (a + b)[..|a|] == a
  {
  }

  /** A non-empty sequence is its head followed by its tail. */
  lemma HeadTail<T>(s: seq<T>)
    requires s != []
    ensures s == [s[0]] + s[1..]
  {
  }

  /** Dequeuing from a queue with `x` at its head yields `x` and leaves the rest. */
  lemma ConsTail<T>(x: T, s: seq<T>)
    ensures ([x] + s)[0] == x && ([x] + s)[1..] == s
  {
  }

  /** Adding `x` under one condition and then another is adding it under either. */
  lemma AddWhen<T>(s: set<T>, b1: bool, b2: bool, x: T)
    ensures (s + (if b1 then {x} else {})) + (if b2 then {x} else {}) == s + (if b1 || b2 then {x} else {})
  {
  }
}
