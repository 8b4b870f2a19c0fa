# Workflow-tree scheduler of the nuclei scan engine, modelled in Dafny

A nuclei *workflow* is a tree of templates. Each node has:

- check **executers**;
- optional **matchers**, each carrying subtemplates of its own;
- optional **subtemplates**.

`executeWorkflow` runs the top-level nodes against one target. Each run is a
`runWorkflowStep` call, and each step may submit further steps to a sized wait group.
When the wait group is drained, `executeWorkflow` returns a shared "some template
matched" flag. A step works in one of three modes:

- **Plain single-shot.** The node has no matchers and no subtemplates. Each executer
  runs once and reports `(matched, err)`. A match publishes to the shared flag
  (`CompareAndSwap(false, firstMatched)`).
- **Plain streaming.** The node has no matchers but has subtemplates. Each executer
  streams events. Every event with an operators result has its extractions
  *normalized* into the target's variable store:
  - one value is stored as a scalar;
  - several values are stored as the full list, and each element is stored once
    more under `name + decimal(index)`.

  An event with at least one result marks the node matched. A matched node submits
  each of its subtemplates once.
- **Matcher-gated.** The node has matchers. Each executer streams events. Every event
  with an operators result has its extractions stored as full lists, without
  normalization. Then, per event, the subtemplates of every matcher that accepts the
  event's operators result are submitted, in matcher order. The step then returns; it
  never submits the node's own subtemplates.

Errors follow the same rule in all modes:

- a node with exactly one executer returns that executer's error;
- a node with several executers only logs errors and returns none.

In plain mode only, an error also marks the target in the host-errors cache, when
there is one.

The model is a sequential work-list interpreter over an immutable tree:

- `Workflows` holds the data model. Executers are oracle data: their single-shot
  outcome, their event stream and its final error. A matcher is an abstract predicate
  over an operators result.
- `Decimal` models `fmt.Sprintf("%d")` and its inverse.
- `Extraction` holds the two store-writing disciplines as functions, with their
  properties.
- `Steps` gives the meaning of one step as functions of the node: its store writes,
  publication, error, failure marking and the tasks it submits. It also holds the
  measures that make the recursion terminate (node size, number of steps in a subtree)
  and the verdict of a queue.
- `Engine` holds the imperative part, in classes:
  - the scan context with its store;
  - the host-errors cache as a set of failed IDs;
  - a `Run` with the shared flag and the FIFO queue of submitted tasks that stands in
    for the wait group.

  The per-executer loops of `runWorkflowStep` are methods proved against the `Steps`
  functions. `ExecuteWorkflow` runs the top level and drains the queue.
- `Traces` gives the order in which a drained queue runs its steps (`Trace`: first in,
  first out, each step's submissions queued behind what is already pending) and folds
  the effects of a sequence of steps: the store (`StepsStore`), the host-errors mark
  (`AnyMarks`) and the result flag (`AnyPublishes`). The run-level methods of `Engine`
  are proved against these.

## Model

| member | source | states |
|---|---|---|
| Decimal.FormatInt | pkg/core/workflow_execute.go:109 | the `%d` rendering of an index is a canonical digit string (no leading zero unless it is "0"), one character long exactly when the index is below 10 |
| Decimal.ParseFormat | pkg/core/workflow_execute.go:109 | reading the decimal rendering back gives the index |
| Decimal.FormatParse | pkg/core/workflow_execute.go:109 | every canonical digit string is the rendering of the number it denotes |
| Decimal.FormatInjective | pkg/core/workflow_execute.go:109 | two indices render to the same string only when they are equal |
| Extraction.IndexedKey | pkg/core/workflow_execute.go:109 | definition: the name followed by the decimal rendering of the index; its injectivity is `Extraction.IndexedKeyDistinct` |
| Extraction.IndexedKeyDistinct | pkg/core/workflow_execute.go:108-110 | the keys `k0`, `k1`, … of one extraction are pairwise distinct and never equal `k` itself |
| Extraction.IndexedWrites | pkg/core/workflow_execute.go:108-111 | definition: the `for vIdx, vVal := range v` loop over the first n values, writing `k+i` to `Scalar(values[i])`; what it writes is `Extraction.IndexedWritesSpec` |
| Extraction.IndexedWritesSpec | pkg/core/workflow_execute.go:108-111 | after the indexed loop over the first n values, each `k+i` holds `Scalar(values[i])` and every other key is as before |
| Extraction.NormalizeEntry | pkg/core/workflow_execute.go:102-114 | definition of the `switch len(v)` for one extraction; what it writes is `Extraction.NormalizeEntrySpec` |
| Extraction.NormalizeEntrySpec | pkg/core/workflow_execute.go:102-114 | one value leaves `k` bound to that scalar; two or more leave `k` bound to the whole list and each `k+i` to element i; exactly the entry's keys are added and no other key changes |
| Extraction.EntryValueAnyStore | pkg/core/workflow_execute.go:102-114 | the value a key of an entry ends with does not depend on the store the entry was written into |
| Extraction.Normalized | pkg/core/workflow_execute.go:99-116 | definition: the extractions of one event normalized in range order; its frame, ownership and order properties are the `Normalized*` lemmas below |
| Extraction.WrittenKeysMember | pkg/core/workflow_execute.go:100-115 | a key is written by the normalization loop exactly when it belongs to the keys of one of the extractions |
| Extraction.NormalizedFrame | pkg/core/workflow_execute.go:99-116 | a key written by no extraction keeps its binding (or its absence) |
| Extraction.NormalizedOwned | pkg/core/workflow_execute.go:99-116 | with non-colliding keys, every key an extraction writes ends with the value that extraction gives it, whatever the other extractions and their order |
| Extraction.NormalizedScalar | pkg/core/workflow_execute.go:103-105 | with non-colliding keys, a single-value extraction leaves its name bound to that scalar |
| Extraction.NormalizedList | pkg/core/workflow_execute.go:106-113 | with non-colliding keys, an extraction of n ≥ 2 values leaves its name bound to the list and name+i bound to element i for every i < n |
| Extraction.PermutationKeepsNoCollisions | pkg/core/workflow_execute.go:100 | reordering the extractions, as Go's map range may, keeps them non-colliding and writes the same set of keys |
| Extraction.NormalizedOrderIrrelevant | pkg/core/workflow_execute.go:100-115 | with non-colliding keys, the store after normalization is the same in every iteration order of the extracts map |
| Extraction.NormalizedExamples | pkg/core/workflow_execute.go:104-113 | `ip: [10.0.0.1]` stores the scalar; `ip: [10.0.0.1, 10.0.0.2]` stores `ip0`, `ip1` and the list under `ip` |
| Extraction.CollidingKeysDependOnOrder | pkg/core/workflow_execute.go:100-115 | with colliding keys (`ip` with two values beside `ip0`) the value left under `ip0` depends on the iteration order |
| Extraction.Listed | pkg/core/workflow_execute.go:160-164 | definition: every extraction of one event bound to its full list, in range order; its property is `Extraction.ListedSpec` |
| Extraction.ListedSpec | pkg/core/workflow_execute.go:160-164 | matcher mode leaves every key that names no extraction unchanged (so no indexed key is written), and with distinct names binds each name to its full list |
| Steps.Plain | pkg/core/workflow_execute.go:81 | definition: the node runs in plain mode exactly when it has no matchers (`len(template.Matchers) == 0`); `Engine.Run.RunStep` dispatches on it and `Steps.StepStore`, `Steps.Children` and `Steps.MarksFailed` are split by it |
| Steps.Streams | pkg/core/workflow_execute.go:86-151 | definition: the node's executers stream events (`ExecuteWithResults`) when it has matchers (lines 143-151) or, in plain mode, subtemplates (line 86), and run single-shot (`Execute`, line 122) otherwise; `Steps.ExecuterError` is written in it |
| Steps.PlainStreaming | pkg/core/workflow_execute.go:86-117 | definition: a plain node with subtemplates, the only mode that normalizes extractions and so the only one `Steps.StepReady` demands non-empty extraction lists of |
| Steps.EventMatched | pkg/core/workflow_execute.go:92-97 | definition: a streamed event that sets `firstMatched` (non-nil operators result and at least one result); `Steps.DeliveredMatched` and `Engine.Run.OnPlainEvents` state its use |
| Steps.ExecuterMatched | pkg/core/workflow_execute.go:86-125 | definition: an executer of a plain node reports a match, through some matching event when the node streams and through `Execute`'s result otherwise; `Engine.Run.RunPlainExecuter` is proved against it |
| Steps.PlainMatched | pkg/core/workflow_execute.go:73-126 | definition: the final `firstMatched` of a plain node, which decides publication (line 141) and scheduling (line 198); `Steps.MatchedBeforeExists` and `Engine.Run.RunPlain` connect it to the loop |
| Steps.ExecuterError | pkg/core/workflow_execute.go:91-151 | definition: the error an executer returns in the mode its node selects (`ExecuteWithResults` when streaming, `Execute` otherwise); `Engine.Run.RunPlain` and `Engine.Run.RunMatchers` are proved against it |
| Steps.MarksFailed | pkg/core/workflow_execute.go:127-130 | definition: a plain node some executer of which errs; `Steps.ErredBeforeExists` and `Engine.Run.RunPlain` connect it to the loop |
| Steps.Publishes | pkg/core/workflow_execute.go:140-141 | definition: a plain node without subtemplates some executer of which matched; `Engine.Run.RunStep` raises the flag exactly for it |
| Steps.StepStore | pkg/core/workflow_execute.go:81-196 | definition: matcher nodes store lists, plain streaming nodes normalize, single-shot nodes write nothing; `Engine.Run.RunStep` is proved against it |
| Steps.PlainEventsStore | pkg/core/workflow_execute.go:91-117 | definition: the plain callback's writes over a stream, each event's extractions normalized in stream order; `Engine.Run.OnPlainEvents` is proved equal to it and `Steps.DeliveredPlainStore` states that nil-result events add nothing |
| Steps.PlainStore | pkg/core/workflow_execute.go:82-138 | definition: the plain executer loop's writes, every executer's stream in executer order; `Engine.Run.RunPlain` is proved equal to it |
| Steps.MatcherEventsStore | pkg/core/workflow_execute.go:160-164 | definition: the matcher callback's writes over a stream, each event's extractions stored as lists; `Engine.Run.OnMatcherEvents` is proved equal to it and `Steps.DeliveredMatcherStore` states that nil-result events add nothing |
| Steps.MatcherStore | pkg/core/workflow_execute.go:144-195 | definition: the matcher executer loop's writes, every executer's stream in executer order; `Engine.Run.RunMatchers` is proved equal to it |
| Steps.MatchedSubtemplates | pkg/core/workflow_execute.go:166-182 | definition: the subtemplates of the accepting matchers, in matcher order; `Steps.MatchedSubtemplatesMember`, `Steps.SoleMatcher` and `Steps.NoMatcher` state its meaning |
| Steps.Children | pkg/core/workflow_execute.go:166-209 | definition: the tasks one step submits; `Steps.ChildrenOrigin`, `Steps.ChildrenSmaller` and `Engine.Run.RunStep` state its meaning |
| Steps.EventsChildren | pkg/core/workflow_execute.go:166-182 | definition: the tasks a stream submits, per event the accepting matchers' subtemplates; `Engine.Run.OnMatcherEvents` is proved against it and `Steps.EventsChildrenOrigin`, `Steps.EventsChildrenAppend` and `Steps.OncePerMatchingEvent` state its meaning |
| Steps.ExecutersChildren | pkg/core/workflow_execute.go:144-195 | definition: the tasks all executers of a matcher node submit, in executer order; `Engine.Run.RunMatchers` is proved against it and `Steps.ExecutersChildrenOrigin` states its meaning |
| Steps.MatchedSubtemplatesMember | pkg/core/workflow_execute.go:166-182 | a node is submitted for an operators result exactly when some matcher holding it accepts that result |
| Steps.EventsChildrenOrigin | pkg/core/workflow_execute.go:151-183 | every task a matcher node's stream submits is a subtemplate of one of its matchers |
| Steps.ExecutersChildrenOrigin | pkg/core/workflow_execute.go:144-195 | the same for all executers of a matcher node |
| Steps.ChildrenOrigin | pkg/core/workflow_execute.go:143-209 | a plain node submits only its own subtemplates; a matcher node submits only its matchers' subtemplates |
| Steps.SoleMatcher | pkg/core/workflow_execute.go:166-182 | when exactly one matcher accepts an event, the event submits exactly that matcher's subtemplates, in order |
| Steps.NoMatcher | pkg/core/workflow_execute.go:166-169 | when no matcher accepts an event, the event submits nothing |
| Steps.EventsChildrenAppend | pkg/core/workflow_execute.go:151-183 | scheduling is per event: a stream split in two submits the first half's tasks followed by the second half's |
| Steps.OncePerMatchingEvent | pkg/core/workflow_execute.go:151-183 | with one matcher, its subtemplates are submitted once per event that satisfies it (k satisfying events, k copies) |
| Steps.DeliveredNonEmpty | pkg/core/workflow_execute.go:92-94 | dropping nil-result events keeps a stream free of empty extraction lists |
| Steps.DeliveredPlainStore | pkg/core/workflow_execute.go:92-116 | nil-result events write nothing in plain mode |
| Steps.DeliveredMatcherStore | pkg/core/workflow_execute.go:154-164 | nil-result events write nothing in matcher mode |
| Steps.DeliveredChildren | pkg/core/workflow_execute.go:154-182 | nil-result events submit nothing |
| Steps.DeliveredMember | pkg/core/workflow_execute.go:92-94 | the delivered events are exactly the stream's events with a non-nil operators result |
| Steps.DeliveredMatched | pkg/core/workflow_execute.go:92-97 | nil-result events never set `firstMatched` |
| Steps.NilEventsInert | pkg/core/workflow_execute.go:92-97 | dropping the nil-result events from a stream changes neither mode's store, nor the tasks submitted, nor whether the stream matched |
| Steps.MatcherIgnoresSubtemplates | pkg/core/workflow_execute.go:143-197 | a matcher node's own subtemplates affect neither what it submits nor the store it leaves, from any earlier store; it never publishes and never marks the host failed |
| Steps.Size | pkg/core/workflow_execute.go:171-208 | every node has a positive size (the measure of the recursion) |
| Steps.SubtemplateSize | pkg/core/workflow_execute.go:199-208 | a subtemplate's size is at most the sizes of its siblings summed |
| Steps.MatcherChildSize | pkg/core/workflow_execute.go:171-181 | a matcher's subtemplate's size is at most the sizes of the matchers summed |
| Steps.ChildrenSmaller | pkg/core/workflow_execute.go:171-208 | every task a step submits is strictly smaller than the node that submitted it, so the recursion terminates |
| Steps.ChildrenWellFormed | pkg/core/workflow_execute.go:171-208 | the tasks of a well-formed node are well formed |
| Steps.MaxSizeBelow | pkg/core/workflow_execute.go:171-208 | a queue of nodes each below a bound has its largest size below that bound |
| Steps.TreeMatches | pkg/core/workflow_execute.go:61-67 | definition: some step of the subtree rooted at a node publishes; `Steps.AnyMatchesExists` and `Traces.TraceVerdict` state its meaning |
| Steps.AnyMatches | pkg/core/workflow_execute.go:66-67 | definition: the verdict `results.Load()` of a queue, some subtree of which matches; `Steps.AnyMatchesExists`, `Traces.TraceVerdict` and `Engine.ExecuteWorkflow` state its meaning |
| Steps.WorkAppend | pkg/core/workflow_execute.go:66 | the steps needed to drain two queues one after the other add up |
| Steps.AnyMatchesAppend | pkg/core/workflow_execute.go:66-67 | the concatenation of two queues matches exactly when one of them does |
| Steps.AnyMatchesExists | pkg/core/workflow_execute.go:66-67 | a queue's verdict is true exactly when one of its subtrees contains a publishing step |
| Steps.SiblingSuccess | pkg/core/workflow_execute.go:61-67 | one publishing task makes the workflow verdict true whatever its siblings do, erroring ones included |
| Steps.AllChildren | pkg/core/workflow_execute.go:51-65 | definition: the tasks a sequence of steps submits, in step order; `Engine.Run.RunTopLevel`, `Traces.TraceTopLevel` and `Engine.ExecuteWorkflow` are written in it and `Traces.AllChildrenAppend` states it composes |
| Steps.AnyPublishes | pkg/core/workflow_execute.go:140-141 | definition: some step of a sequence raises the shared flag; `Engine.Run.RunTopLevel`, `Engine.Run.Drain` and `Engine.ExecuteWorkflow` give the flag as it and `Traces.TraceVerdict` ties it to `Steps.AnyMatches` |
| Steps.AllChildrenWellFormed | pkg/core/workflow_execute.go:51-65 | what the top-level steps submit is well formed |
| Steps.AllWellFormedAppend | pkg/core/workflow_execute.go:66 | concatenated well-formed queues are well formed |
| Steps.DequeueMeasures | pkg/core/workflow_execute.go:66 | running the head of the queue and queuing its children takes one step off the remaining work and keeps the verdict |
| Steps.MatchedBeforeExists | pkg/core/workflow_execute.go:82-126 | `firstMatched` after i executers is true exactly when one of them reported a match |
| Steps.ErredBeforeExists | pkg/core/workflow_execute.go:127-130 | the host is marked after i executers exactly when one of them returned an error |
| Traces.Trace | pkg/core/workflow_execute.go:66 | definition: the steps that draining a queue runs, first in first out, each step's submissions queued behind what is pending |
| Traces.TraceLength | pkg/core/workflow_execute.go:66 | draining a queue runs exactly as many steps as the queue's subtrees need |
| Traces.TraceWellFormed | pkg/core/workflow_execute.go:66 | every step a well-formed queue runs is well formed |
| Traces.TraceReady | pkg/core/workflow_execute.go:66 | every step a well-formed queue runs is step-ready |
| Traces.TraceVerdict | pkg/core/workflow_execute.go:66-67 | a queue's verdict is true exactly when one of the steps its drain runs publishes |
| Traces.TraceTopLevel | pkg/core/workflow_execute.go:51-66 | running some nodes as steps of their own and then draining the rest followed by what they submitted runs the same steps, in the same order, as draining them all |
| Traces.AllChildrenAppend | pkg/core/workflow_execute.go:51-65 | what two runs of steps submit, one after the other, is what the first submits followed by what the second submits |
| Traces.AnyPublishesAppend | pkg/core/workflow_execute.go:140-141 | two runs of steps one after the other publish exactly when one of them does |
| Traces.AnyMarksAppend | pkg/core/workflow_execute.go:127-130 | two runs of steps one after the other mark the host exactly when one of them does |
| Traces.AnyMarksExists | pkg/core/workflow_execute.go:127-130 | a run of steps marks the host exactly when one of its steps does |
| Traces.StepsStoreAppend | pkg/core/workflow_execute.go:99-164 | the store effects of two runs of steps compose |
| Traces.StepsStore | pkg/core/workflow_execute.go:51-66 | definition: the store after a sequence of steps, each step's `Steps.StepStore` in order; `Engine.Run.RunTopLevel`, `Engine.Run.Drain` and `Engine.ExecuteWorkflow` give `ctx.vars` as it and `Traces.StepsStoreAppend` states it composes |
| Traces.AnyMarks | pkg/core/workflow_execute.go:127-130 | definition: some step of a sequence marks the host failed; `Engine.Run.RunTopLevel`, `Engine.Run.Drain` and `Engine.ExecuteWorkflow` give the failed set through it and `Traces.AnyMarksExists` states it as an existential |
| Traces.StepsCons | pkg/core/workflow_execute.go:51-65 | running the first step and then the others leaves the store the whole sequence leaves |
| Traces.FoldsCons | pkg/core/workflow_execute.go:51-65 | the first step's mark, publication and submissions come before those of the others |
| Traces.DrainStep | pkg/core/workflow_execute.go:66 | running the head of the queue and then the trace of what is left produces the queue trace's store, mark and flag |
| Traces.TopLevelThenDrain | pkg/core/workflow_execute.go:51-67 | the top-level steps followed by the drain of their submissions are the trace of the top-level queue, its work in number, with the effects composed |
| Traces.RunComposes | pkg/core/workflow_execute.go:51-67 | the states after the top-level steps and after the drain, given each in terms of the one before, compose into the effects of the whole trace |
| Engine.ScanContext.Set | pkg/core/workflow_execute.go:105 | `ctx.Input.Set(k, v)` binds k to v and changes nothing else |
| Engine.ScanContext.SetNormalized | pkg/core/workflow_execute.go:99-116 | the nested loops leave the store equal to the normalization of the extractions in iteration order |
| Engine.ScanContext.SetLists | pkg/core/workflow_execute.go:160-164 | the loop leaves the store equal to every extraction bound to its full list |
| Engine.HostErrorsCache.MarkFailed | pkg/core/workflow_execute.go:129 | the target ID joins the failed set |
| Engine.TemplateThreads | pkg/core/workflow_execute.go:45-48 | the wait-group size is never 1: a configured 1 becomes 2, any other value is kept |
| Engine.Run.constructor | pkg/core/workflow_execute.go:35 | a run starts with the flag false and nothing submitted |
| Engine.Run.SubmitAll | pkg/core/workflow_execute.go:199-208 | each subtemplate is submitted exactly once, in order |
| Engine.Run.OnPlainEvents | pkg/core/workflow_execute.go:91-117 | the plain callback marks a match exactly when some event has a non-nil result and at least one result, and normalizes each event's extractions in stream order |
| Engine.Run.SubmitMatched | pkg/core/workflow_execute.go:166-182 | the subtemplates of the accepting matchers are submitted, in matcher order |
| Engine.Run.OnMatcherEvents | pkg/core/workflow_execute.go:151-183 | the matcher callback stores every event's extractions as lists and submits, per event, the accepting matchers' subtemplates |
| Engine.Run.RunPlainExecuter | pkg/core/workflow_execute.go:83-137 | one plain executer reports a match and an error according to the node's mode; the store changes only in streaming mode; the host is marked exactly when the executer errs |
| Engine.Run.RunPlain | pkg/core/workflow_execute.go:81-139 | `firstMatched` is true exactly when some executer matched; the host is marked exactly when some executer erred; the returned error is the only executer's error, or none with several executers; the store is the fold of every executer's stream in order |
| Engine.Run.RunMatcherExecuter | pkg/core/workflow_execute.go:151-194 | one matcher-mode executer stores its stream's extractions as lists, submits its events' matched subtemplates and returns its stream's error |
| Engine.Run.RunMatchers | pkg/core/workflow_execute.go:143-196 | every executer's stream is applied in order, with no host marking; the returned error is the only executer's error, or none with several executers |
| Engine.Run.RunStep | pkg/core/workflow_execute.go:72-211 | one step selects plain or matcher mode by whether the node has matchers (line 81) and, in plain mode, single-shot or streaming by subtemplates (line 86); it writes the node's store effect, submits exactly `Children(n)`, sets the flag only when the node publishes and never clears it, marks the host exactly on a plain-mode error, and returns the single executer's error or none |
| Engine.Run.RunTopLevel | pkg/core/workflow_execute.go:51-65 | the top-level nodes run in order, each once, and leave their submitted tasks queued in order; the store ends as the fold of their store effects in order; the host is marked exactly when one of them marks it; the flag is raised exactly when one of them publishes |
| Engine.Run.Drain | pkg/core/workflow_execute.go:66 | `swg.Wait`: the queue empties after running exactly the steps of its first-in-first-out trace, in that order, as many as its subtrees need; the store, the failed set and the flag end as the folds of those steps' effects, the flag being the verdict of the queue |
| Engine.ExecuteWorkflow | pkg/core/workflow_execute.go:34-68 | the steps run are exactly the trace of the top-level queue: the top-level nodes in order, then the drain of what they submitted; their number is the work of the whole tree; the returned flag is true exactly when some step of the tree publishes; the store and the failed set end as the folds of the steps' effects; step errors are never returned |

## Left out

- Goroutines and the sized wait group's blocking. Submitted steps run one at a time from a first-in-first-out queue. `Engine.Run.threads` is kept but bounds nothing. The deadlock argument behind the thread floor is not modelled.
- Races on the shared store between concurrent steps.
- Engine.Run.Drain: runs the queue in first-in-first-out order. Go could match this order only while the wait group's limit never binds. With a limit of 2, a step that holds a slot blocks in `swg.Add` (lines 172 and 200) until a child finishes, so a child's store writes can land before the next top-level node's. Go can even deadlock: a template holds one slot, its child holds the other, and both block in `swg.Add`. The model never blocks and always terminates.
- The protocol executers (`Execute`, `ExecuteWithResults`, `Requests`) are foreign calls. Their outcomes are fixed input data, so a node reached twice sees the same outcomes both times. In particular the outcomes do not depend on the variable store: the model writes `ctx.vars` and proves what it holds, but no executer reads it, so how extracted values feed the requests of later checks is outside the model.
- `matcher.Match` is an abstract predicate (`Matcher.accepts`).
- Progress accounting (`AddToTotal`, lines 83 and 145) and the `gologger` warnings (lines 62, 134, 178, 191 and 204) are side channels and are left out.
- The cookie jar and the context arguments built at lines 38-41 are never used, so they are left out. The model passes the same scan context to every step, as line 61 does.
- The host-errors cache internals are left out. The cache is only the set of failed target IDs, and the error passed to `MarkFailed` is ignored.
- Engine.ScanContext.SetNormalized: requires every extraction list to be non-empty. At line 105, Go indexes `v[0]` on an empty slice and panics; the panic is not modelled. `Steps.StepReady` carries the same requirement for plain streaming nodes only. `Engine.Run.Drain` and `Engine.ExecuteWorkflow` require `Steps.WellFormed` of the whole tree, so they also exclude an empty list in a node that never runs (such as a subtemplate of a node that did not match), where Go would not panic, because it reaches line 105 only in a node it runs.
- Go map iteration order over `Extracts` is part of the input: a sequence in range order. Order independence is proved only for non-colliding keys. The colliding case is shown to depend on the order.
- Engine.Run.RunPlain: keeps no log of executer calls. That every executer runs, in order, shows only through the folds in its contract (the store, `firstMatched` and the failed set depend on every executer).
- Engine.ExecuteWorkflow: keeps no record of the errors that `runWorkflowStep` returns. Go logs them at line 62; the model drops them, as Go does for control flow.
- Unlike plain mode, matcher mode stores the raw list (line 162) and never calls `MarkFailed` (lines 187-193). The model does the same.
- The top-level steps are called directly at lines 54-64, without `go`, so they run in order before the drain. The model does the same.
- The shared flag is set only by nodes without subtemplates (line 140). Plain nodes without subtemplates always run single-shot, and matcher-gated nodes reach line 141 with `firstMatched` still false, so a streamed event's result count never reaches the flag directly. `Steps.Publishes` therefore speaks of single-shot matches only.
