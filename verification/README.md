# Proofs about the trading fleet's plumbing

The repository runs a trading fleet over a graph that doubles as its queue. This project models the
parts of `kernel/`, `orchestration/` and `contracts/` whose correctness is not obvious from reading
one function, and proves what they promise over every input, every run and every reachable state.

| files | component |
|---|---|
| `Props`, `GraphStore`, `Traversal`, `CreatedAt` | the append-only store and its two backends: the merge as a loop and as an upsert under SQL's three truth values, the walk as a breadth-first loop and as a recursive query with path pruning, and the text filter on creation times |
| `Debate`, `Replay`, `ReplayRefinement`, `ReplayEndings`, `ReplayWitness`, `Chunks` | debates held one at a time, and the same debates replayed round by round through a batch gateway; how each debate ends, reply by reply; a judge on whom the two differ; the chunks a round is sent in |
| `FleetReadiness`, `Dispatch`, `DispatchLaws`, `DispatchSafety`, `AnswerFinality`, `DispatchWitness` | one fire of the scheduled dispatcher as a step over arbitrary readiness, answers and messaging failures, under either backend's listing of facts; what a fire changes, and exactly when; the invariants of all histories of fires; exactly when an answer is final; two histories in which a promise fails |
| `WorkLoop`, `WorkLoopRuns` | the retry ledger with backoff and quarantine, one pass at a time and over all runs |
| `Resume`, `ResumeLaws`, `ResumeChain`, `ResumeListing`, `ResumeQuery`, `ResumeSignatures` | placing a child run that shares a prefix of another run's chain, what that writes edge by edge and property by property, and reading it back on either backend |
| `ContainerSensor`, `FaultCollapse`, `FaultConservation` | the container alarms, and the collapsing of repeated faults |
| `Probing`, `BrokerStops` | probing numbered keys, the LLM call ledger, and the resting broker stops of a position |
| `Wilson`, `PairCounting`, `EhloRetry` | the agreement figures and the resend budget |

Code that updates objects in place is modelled by classes and loops whose contracts tie the new state
to a function of the old one (`GraphStore.InMemoryGraphStore`, `Replay.DebateState`,
`Dispatch.DispatchFacts`, `WorkLoop.WorkLoopState`, `FaultCollapse.GraphFaultSink`,
`ContainerSensor.Sensor`, `Probing.CallLedger`, and the methods of `Resume` over the graph class);
the results over whole runs are lemmas about those functions, and laws beside them say what the functions
compute in terms of fields, positions and sets. Everything outside the process - models,
gateways, Telegram, brokers, log queries, clocks - is an arbitrary parameter. One call, one fire, one
pass and one read are each a single step.

## Findings

Where a promise turned out not to hold of the code, the model keeps the code and states exactly when
the promise holds.

- The two merges are not the same. SQL's exemption is NULL when a status is missing, and a NULL test
  refuses nothing: `Props.SqlIsLooserExactly` says when SQL takes a merge that Python refuses,
  `GraphStore.SqlStepKeepsExactly` when a merge SQL takes keeps the row's properties, and
  `GraphStore.SqlRowDrifts` shows a row without a status taking any number of prices in turn. A status
  on the row and on every merge is enough for the promise over whole runs
  (`GraphStore.SqlPropertyChangesAtMostOnce`). In the other direction a boolean stored against the
  number it equals in Python is refused by jsonb alone (`Props.SqlIsStricterExactly`).
- The two traversals differ on cycles through the start, and a label with a colon can make the
  recursive query lose a node. `Traversal.AgreeExactlyWhenNamed` gives the exact condition.
- The two traversals also order the nodes of one depth differently. A repeated resume call on PostgreSQL
  reads its first two references back exchanged, because the clone of the market data sorts before the
  clone of the position sync by key; the order is the first call's exactly when the stage requires at
  most the position sync, or both sources are one node (`ResumeQuery.RepeatOnQueryExchanges`).
- A replayed judge's answer is stripped of outer whitespace before it is parsed; a live one is not.
  `ReplayRefinement.ReplayMatchesDeliberate` says that this is the only difference, and
  `ReplayWitness.ReplayFinishesWhatLiveRefuses` gives a judge whose verdict only the replay accepts.
- A release can leave a run unplaced: the hold is released before an empty universe raises
  (`DispatchSafety.ReleaseMeansPlacing`, `DispatchWitness.ReleasedButNotPlaced`).
- An answer is not always final where facts are listed by key, as the PostgreSQL backend does: a
  dashboard answer in the second of an effective Telegram answer takes its place, since `dashboard` sorts
  before `telegram`. `AnswerFinality.AnswerIsFinalExactly` shows that nothing else does, and
  `DispatchWitness.SkippedRunIsPlaced` is a history in which a skipped run is placed that way. It takes
  a button of one day read by a fire of another, and later a fire whose date is overridden to the first.
  When every button read names the fire's own run, answers are final on both backends
  (`AnswerFinality.OwnButtonsAreFinal`); when every fire acts for the date of its clock, a skipped run is
  never placed on either (`AnswerFinality.SkipMeansNeverOnClock`).
- Two different errors of one origin in one instant share a node key, and the second submission
  raises (`FaultConservation.SameInstantIsRefused`, `FaultConservation.CountedExactlyWhen`).
- A stop that is dead only because of a Fill found by broker id comes back to life when a Fill is
  written under its own key (`BrokerStops.DeadForGoodExactly`). And a stop follows the Fill of the
  submission that placed it exactly when that submission took the first slot
  (`BrokerStops.FollowsItsFillExactly`): retried after a rejection and then filled, it still counts as
  live (`BrokerStops.FilledRetryStaysLive`).
- `resume_edge_signatures` calls itself every edge shape resume can write; it leaves out the link to
  the source run and the re-linked side branches (`ResumeSignatures.WrittenAreDeclared`).
- The EHLO budget can be overrun by up to a second, exactly by an attempt that starts with less than
  the minimum timeout left (`EhloRetry.MayOverrunExactly`, `EhloRetry.BudgetCanBeOverrun`).

## Model

| member | source | states |
|---|---|---|
| Props.AppendProps | kernel/graph_support.py:76-89 | the merge loop accepts exactly when no incoming name is refused, then yields the union with every incoming value frozen; otherwise it names the first refused property in dict order |
| Props.FreezeIdempotent | kernel/graph_support.py:56-65 | freezing a frozen value changes nothing, at any depth |
| Props.PyEqualExactly | kernel/graph_support.py:56-65 | the merge's comparison: numbers and booleans by their number, lists and tuples alike and dicts member by member, everything else by being the same |
| Props.JsonEqualExactly | kernel/graph_postgres_queries.py:18-42 | the upsert's comparison of JSON images: the same, but a boolean never equals a number |
| Props.SameResult | kernel/graph_postgres_queries.py:18-42 | a merge both backends take leaves the same JSON image |
| Props.ConflictCases | kernel/graph_postgres_queries.py:18-42 | for every incoming key: SQL sees a conflict exactly when the JSON images differ and the exemption does not reach the key; Python refuses it exactly when the frozen values differ and the exemption is not true |
| Props.SqlIsLooserExactly | kernel/graph_postgres_queries.py:18-42 | SQL takes a merge Python refuses exactly when the exemption is unknown, there is a conflict, and every conflict is on a completion property |
| Props.SqlIsStricterExactly | kernel/graph_postgres_queries.py:18-42 | Python takes a merge SQL refuses exactly when every conflict it sees is exempt and a boolean meets the number it equals where the SQL exemption does not reach |
| Props.BackendsAgree | kernel/graph_support.py:76-97 | with a non-null status on both sides, or no conflict on a completion property, and no boolean against its number, both backends take the same merges |
| Props.MissingStatusDiverges | kernel/graph_postgres_queries.py:18-42 | without a stored status SQL overwrites a price that Python refuses to |
| Props.TrueOverOneDiverges | kernel/graph_postgres_queries.py:18-42 | True over 1 is taken by Python and refused by SQL |
| GraphStore.InMemoryGraphStore.MergeNode | kernel/graph_memory.py:125-140 | a merge stores the frozen union exactly when the version is valid and unchanged and nothing is overwritten, appends a new node to the listing order, and leaves the table alone when it raises |
| GraphStore.InMemoryGraphStore.AddEdge | kernel/graph_memory.py:48-59 | an edge is accepted exactly when both ends are stored; the first of a (parent, child, kind) stays and a later one changes nothing |
| GraphStore.InMemoryGraphStore.WalkFrom | kernel/graph_memory.py:146-176 | the frontier loop returns the breadth-first levels, and only stored nodes |
| GraphStore.InMemoryGraphStore.KeysWithoutEdge | kernel/graph_memory.py:75-101 | returns, in listing order, exactly the wanted nodes with no edge of the kind on that side that pass the creation bound |
| GraphStore.MergeKeeps | kernel/graph_support.py:76-97 | an accepted merge keeps every property, up to one partial fill becoming filled |
| GraphStore.RunKeeps | kernel/graph_support.py:76-97 | over any run of merges nodes never go away and keep their properties, up to one completion |
| GraphStore.PropertyChangesAtMostOnce | kernel/graph_support.py:92-97 | over any run of merges a property once set changes value at most once, and then only as a completion property of a fill that became filled; the changing merge found the fill partial |
| GraphStore.SqlStepKeepsExactly | kernel/graph_postgres_queries.py:18-42 | an upsert SQL takes keeps every property, up to a partial fill's completion, exactly when its exemption is known or it meets no conflict |
| GraphStore.SqlRunKeeps | kernel/graph_postgres_queries.py:18-42 | with a status on the row and on every upsert, a SQL row keeps the JSON image of its properties between any two points of a run, up to one completion |
| GraphStore.SqlPropertyChangesAtMostOnce | kernel/graph_postgres_queries.py:18-42 | under the same guard the JSON image of a property of a SQL row changes at most once, and then only as a completion property of a fill that became filled |
| GraphStore.SqlRowDrifts | kernel/graph_postgres_queries.py:18-42 | on the SQL backend a row without a status can take any sequence of prices, one after another |
| Traversal.WalkIsTheBall | kernel/graph_memory.py:146-176 | the walk returns, each once and nearest first, exactly the nodes other than the start whose shortest distance is between 1 and the bound |
| Traversal.SameDepthInEdgeOrder | kernel/graph_memory.py:155-174 | of two nodes at one distance the walk returns the one first that an earlier edge enters from the distance before |
| Traversal.DescendantsAre | kernel/graph_memory.py:146-176 | descendants are exactly the other nodes that a chain of at most the bounded number of wanted edges, each joined parent to child, leads down to |
| Traversal.AncestorsAre | kernel/graph_memory.py:146-176 | ancestors are exactly the other nodes from which such a chain leads down to the start |
| Traversal.OneLevelIs | kernel/graph_memory.py:155-174 | at depth 1, field by field: below a node its children, above it its parents, over edges of the wanted kinds |
| Traversal.UpstreamIsConverse | kernel/graph_memory.py:162-166 | a node is at a distance upstream of another exactly when the other is at that distance downstream of it |
| Traversal.QueryIsShortest | kernel/graph_postgres_queries.py:71-125 | the recursive query selects a node at a depth exactly when that is within the bound and is the length of a shortest walk that takes a step |
| Traversal.CutLoop | kernel/graph_postgres_queries.py:71-125 | cutting the loop between two visits of a node leaves a walk to the same end |
| Traversal.TraversalsAgree | kernel/graph_postgres_queries.py:71-125 | the query returns the nodes of the walk at their distances, and the start too exactly when it lies on a cycle no longer than the bound |
| Traversal.AgreeExactlyWhenNamed | kernel/graph_postgres_queries.py:71-125 | over a set of nodes the two agree on every graph exactly when path entries name nodes |
| Traversal.ColonFreeLabelsAgree | kernel/graph_postgres_queries.py:71-125 | labels without a colon are enough for the traversals to agree |
| Traversal.ColonLosesNode | kernel/graph_postgres_queries.py:71-125 | a label with a colon can make the query lose a node the walk returns |
| CreatedAt.TextOrderIsTimeOrder | kernel/graph_support.py:104-113 | on UTC isoformat stamps, with or without a fraction, byte order is time order, both ways |
| CreatedAt.BoundKeepsExactly | kernel/graph_support.py:116-121 | the text filter keeps a stamped node exactly when it was created at or after the bound |
| Debate.Deliberate | kernel/deliberation.py:144-182 | the nested loops compute the deliberation: every round of both arguing roles on the growing transcript, then the judge, failing at the first blank turn or unreadable verdict |
| Debate.FinishedDebateIsComplete | kernel/deliberation.py:144-182 | a finished debate holds the two turns of every round in order, none blank |
| Debate.StripIs | orchestration/replay_rounds.py:107-127 | stripping cuts off exactly the outer whitespace, and all of it |
| Debate.SpacesAre | orchestration/replay_rounds.py:107-127 | the characters stripped are the 29 of Python's whitespace |
| Debate.ArguingStepsAt | orchestration/replay_types.py:46-54 | step k of an arm argues round k/2 by the role k%2 says |
| Replay.DebateState.ApplyOne | orchestration/replay_rounds.py:107-127 | one answer extends the transcript, sets the verdict, or records the failure, as the pure step says |
| Replay.ApplyResults | orchestration/replay_rounds.py:94-104 | a round applies to each participating debate the answer to its own key and touches no other |
| Replay.RoundRequests | orchestration/replay_rounds.py:72-91 | a round asks for exactly one prompt per participating debate, in order, and raises exactly when two share a key |
| Replay.BuildArms | orchestration/replay_rounds.py:48-57 | the debates built are every arm, repeat and subject, in order, each fresh |
| Replay.ReplayDebates | orchestration/replay_batch.py:66-105 | the round loop computes the replay of the plan, raising when a round has a duplicate key or an answer has no request |
| ReplayRefinement.PlanCoversArm | orchestration/replay_rounds.py:60-69 | the steps of a debate are exactly the plan steps it takes part in, in order |
| ReplayRefinement.PlanHasNoRepeats | orchestration/replay_rounds.py:60-69 | no step is planned twice |
| ReplayEndings.PlanIsNeeded | orchestration/replay_rounds.py:60-69 | every planned step is a turn of some arm |
| ReplayRefinement.ReplayIsSolo | orchestration/replay_batch.py:66-89 | every debate of a batched replay ends in the state it reaches alone, by its own steps against the answers addressed to it |
| ReplayRefinement.OthersDoNotMatter | orchestration/replay_batch.py:66-89 | two replays that give a shared debate the same answers leave it in the same state, whatever else they replay and however that goes |
| ReplayRefinement.EveryDebateEndsOnce | orchestration/replay_batch.py:46-63 | every debate ends completed or failed, never both |
| ReplayEndings.EveryDebateIsBuilt | orchestration/replay_rounds.py:48-57 | every subject is debated in every repeat by every arm, at the place its three numbers give, and there are no other debates |
| ReplayEndings.DebateEnds | orchestration/replay_rounds.py:107-127 | with any gateway, a debate ends after some number of its own replies that are there, succeeded and not blank: it holds their stripped texts in order, and fails on the first reply that is missing, failed or blank, or as the judge's text says |
| ReplayEndings.CompletedExactly | orchestration/replay_batch.py:46-63 | with any gateway, a debate has a verdict exactly when every reply of its own is there, succeeded and not blank and the judge's reads; it then holds every arguing turn of its arm, in order, each its own reply's stripped text, and that ruling |
| ReplayEndings.EveryRequestIsAnswered | orchestration/replay_batch.py:66-105 | requests are conserved: each one sent is a turn of a debate, or its verdict or failure |
| ReplayEndings.PlannedTwiceExactly | orchestration/replay_rounds.py:72-91 | a replay is refused for a duplicate key exactly when one debate was built twice |
| ReplayEndings.ReplayGoesThrough | orchestration/replay_batch.py:66-105 | with a gateway that answers only what it is asked, the replay of debates that differ goes through to the end |
| ReplayEndings.NothingUnasked | orchestration/replay_batch.py:92-105 | a replay that goes through heard no reply that is not addressed to the turn of some debate |
| ReplayRefinement.ReplayMatchesDeliberate | kernel/deliberation.py:144-182 | with a gateway that answers as the models do, a debate ends as the sequential one ends - same transcript and verdict, or failure on both sides - exactly when the judge reads the same stripped and unstripped |
| ReplayWitness.ReplayFinishesWhatLiveRefuses | orchestration/replay_rounds.py:107-127 | a judge that puts a no-break space before its JSON is refused live and finishes in the replay |
| Chunks.ChunkByBytes | orchestration/replay_chunks.py:40-65 | the chunks joined are the requests in order, each chunk is nonempty and one request or within both limits, and no such splitting has fewer chunks |
| Chunks.PackIsOptimal | orchestration/replay_chunks.py:40-65 | greedy packing is optimal from any state of the loop |
| FleetReadiness.ReadFleet | orchestration/fleet_readiness.py:30-57 | readiness is read from the first listed of the preflights checked last, unknown when there is none; by its fields, it is unknown exactly when older than the limit, ready exactly when it passed, degraded exactly when it did not and every failure, of which there is one, reads as a degradable agent's |
| FleetReadiness.DegradableExactly | orchestration/fleet_readiness.py:76-95 | a failure is degradable exactly when it reads as kind, declared agent, nonempty check and nonempty reason, the reason free to hold colons |
| Dispatch.ActionTimeIsWindow | orchestration/scheduled_dispatch_actions.py:51-58 | a fire may act exactly from 22:30:00 up to, not including, 23:20:00 |
| Dispatch.DispatchFacts.RecordAnswer | orchestration/hold_answers.py:22-52 | an answer is appended under the next ordinal of its run and source, unless its update was recorded before |
| Dispatch.DispatchFacts.PollAnswers | orchestration/scheduled_dispatch_polling.py:27-59 | records every callback in order and returns the greatest update id newly recorded, or 0 when there is none |
| Dispatch.DispatchFacts.HoldUnreadyRun | orchestration/scheduled_dispatch_gate.py:30-77 | a fleet that may run releases the active hold; otherwise the active hold stays or a hold of a fresh ordinal is written |
| Dispatch.DispatchFacts.NotifyDegradedRun | orchestration/scheduled_dispatch_human.py:145-170 | a degraded run is marked notified exactly when its notice went out |
| Dispatch.DispatchFacts.NotifyNewHold | orchestration/scheduled_dispatch_human.py:114-142 | a hold is marked notified exactly when its notice went out, and never notified twice |
| Dispatch.DispatchFacts.PlaceScheduledRun | orchestration/scheduled_dispatch.py:112-179 | the unanswered path: a hold in force and its one notice, or the release, then the universe, the run request and a degraded run's notice |
| Dispatch.DispatchFacts.FireOnce | orchestration/scheduled_dispatch_human.py:41-100 | one fire leaves the facts, outcome and notice of the specified fire, which the laws of `DispatchLaws` describe change by change |
| DispatchLaws.OutcomeExactly | orchestration/scheduled_dispatch_human.py:52-100 | each outcome of a fire, exactly: placed when the run was not there and now is; empty universe, held, already placed and calendar exceeded by what the fire and its facts say |
| DispatchSafety.FirePlacesRight | orchestration/scheduled_dispatch_human.py:52-100 | a fire places its run exactly when the day is open, the clock in the window, the universe not empty, the run not there, and it saw `run_now`, or no answer and a fleet that may run; with the fire's universe, and a degraded unanswered fleet's failures |
| DispatchLaws.DegradedNoticeExactly | orchestration/scheduled_dispatch_human.py:145-170 | a degraded notice goes out exactly when a fire in the window acts on a degraded run not notified before and the send succeeds; the run then remembers it, and no other run changes |
| DispatchLaws.NewHoldExactly | orchestration/scheduled_dispatch_gate.py:58-77 | a hold is written exactly when a deciding fire sees a fleet that may not run, no answer and no hold in force; it carries the fleet's failures and whether its notice went out |
| DispatchLaws.HoldChangesExactly | orchestration/scheduled_dispatch_gate.py:50-62 | of the holds there are a fire changes only its run's hold in force: marked with the answer seen, released for a fleet that may run, or remembering its notice |
| DispatchLaws.OtherwiseNoNotice | orchestration/scheduled_dispatch_human.py:114-170 | no notice goes out but for the fire's own run, about a degraded run or a hold not notified before |
| DispatchLaws.PollsExactly | orchestration/scheduled_dispatch_human.py:59-64 | a fire reads the buttons exactly on an open day with a hold of its run in force |
| DispatchLaws.PolledExactly | orchestration/scheduled_dispatch_polling.py:27-59 | every new button becomes one Telegram fact at the time of the fire, in the order of the buttons |
| DispatchLaws.PolledIds | orchestration/scheduled_dispatch_polling.py:27-59 | after a poll an update is recorded exactly when it was before or one of the buttons carries it |
| DispatchLaws.NumberedInOrder | orchestration/scheduled_dispatch_gate.py:43-63 | over every history a run's holds are numbered 0, 1, 2, ... and its answers of one source 1, 2, 3, ... as they were written |
| DispatchSafety.NewFactTakesOver | orchestration/hold_answers.py:55-65 | a new fact changes the effective one exactly when it is the run's first, strictly earlier, or, where facts are listed by key, of the same second under a smaller key |
| DispatchSafety.Reachable | orchestration/scheduled_dispatch_human.py:41-100 | every history of fires and answers keeps holds in one-active order and answers in time order |
| DispatchSafety.KeysAreFresh | orchestration/scheduled_dispatch_gate.py:43-77 | no two holds and no two answers share a key |
| DispatchSafety.OneActiveHold | orchestration/scheduled_dispatch_gate.py:43-77 | at most one hold of a run is active |
| AnswerFinality.AnswerIsFinalExactly | orchestration/hold_answers.py:55-65 | under either listing the effective answer, once there is one, stays exactly as long as no dashboard answer of the second of an effective Telegram answer follows it under the key order; in insertion order it always stays |
| DispatchSafety.PlacedOnce | orchestration/scheduled_dispatch_human.py:52-100 | a run in the graph was placed by one fire of its trading date, at a clock time in the action window, on a nonempty universe, that saw `run_now`, or no answer and a fleet that may run; it carries that fire's failures exactly when its fleet was degraded and unanswered |
| DispatchSafety.PlacedForGood | orchestration/scheduled_dispatch_actions.py:73-89 | a placed run keeps its tickers and posture; no later fire places it again, holds it or releases its holds |
| AnswerFinality.SkipMeansNever | orchestration/scheduled_dispatch_human.py:52-100 | an effective `skip_today` before placement that is not displaced means the run is never placed |
| DispatchSafety.ReleaseMeansPlacing | orchestration/scheduled_dispatch_gate.py:43-57 | a hold is released only by a fire of its day that saw a fleet that may run and no answer; that fire places the run exactly when the universe is not empty |
| DispatchWitness.ReleasedButNotPlaced | orchestration/scheduled_dispatch_gate.py:43-57 | a history of two fires that releases a hold and leaves the run unplaced |
| DispatchSafety.NoticeAtMostOnce | orchestration/scheduled_dispatch_human.py:114-170 | each hold and each degraded run gets at most one notice that went out |
| AnswerFinality.SoonerExactly | orchestration/hold_answers.py:55-65 | where facts are listed by key, a later fact precedes the effective one exactly when the dashboard gave it in the second of an effective Telegram fact |
| AnswerFinality.KeyListingIsByKey | kernel/graph_postgres_queries.py:50-55 | on any listing of the facts in key order the first of the earliest is the one the model calls effective by key |
| AnswerFinality.OwnButtonsAreFinal | surfaces/dashboard/hold_answer_route.py:23-60 | when every button read names the fire's own run, the effective answer is final on both backends: a marked hold closes the dashboard |
| AnswerFinality.SkipMeansNeverOnClock | scripts/dispatch_scheduled_run.py:41-90 | when every fire acts for the date of its clock, an effective `skip_today` before placement means the run is never placed, on both backends |
| DispatchWitness.SkippedRunIsPlaced | surfaces/dashboard/hold_answer_route.py:23-60 | a history of five events in which a run answered `skip_today` is placed where facts are listed by key, and is not in insertion order |
| WorkLoop.BackoffBounds | kernel/work_loop_state.py:156-160 | every delay lies between base and ceiling and never shrinks with another failure |
| WorkLoop.BackoffGrows | kernel/work_loop_state.py:156-160 | the first delay is the base, each later one the smaller of the ceiling and the multiplier times the one before |
| WorkLoop.WorkLoopState.EligibleItems | kernel/work_loop_state.py:66-82 | returns in order exactly the items neither quarantined, nor marked, nor waiting past now |
| WorkLoop.WorkLoopState.RecordFailure | kernel/work_loop_state.py:97-125 | a failure adds one to the attempts, or quarantines at the cap; the first delay is the base, each later one the smaller of the ceiling and the multiplier times the one before |
| WorkLoop.WorkLoopState.NextReadyDelay | kernel/work_loop_state.py:127-137 | the least wait ahead of the listed items, each the time from now to the item's next retry; none when none waits |
| WorkLoop.WorkLoopState.RunOnce | kernel/work_loop.py:34-111 | one pass leaves the ledger its specification says and counts what it did, the advanced items as those completed and no longer pending; the next delay is the one `WorkLoopRuns.NextDelayExactly` describes; the idle sleep is that delay when it is sooner than the poll interval, else the interval |
| WorkLoopRuns.PassEntry | kernel/work_loop.py:34-111 | a pass touches each item on its own, by that item's fate in the pass |
| WorkLoopRuns.PassStartsExactly | kernel/work_loop_state.py:66-91 | a pass not asked to stop starts exactly the items that are neither quarantined nor waiting |
| WorkLoopRuns.DelaysExactly | kernel/work_loop.py:56-93 | the delays a pass gives out are exactly the waits on record of the items it tried in vain and did not quarantine |
| WorkLoopRuns.NextDelayExactly | kernel/work_loop.py:94-98 | the next delay is the least a pass gave out, or, when it gave out none, the least wait still ahead of its items |
| WorkLoopRuns.RunFaithful | kernel/work_loop_state.py:66-125 | over every run the ledger entry of an item counts its tries since it last advanced |
| WorkLoopRuns.AttemptsAreCapped | kernel/work_loop_state.py:97-125 | over every run an item is processed at most the capped number of times since it last advanced |
| WorkLoopRuns.QuarantineIsFinal | kernel/work_loop_state.py:66-91 | a quarantined item stays quarantined and is never processed again |
| WorkLoopRuns.RetriesAreSpaced | kernel/work_loop_state.py:119-124 | after c tries that did not advance it an item is tried again no earlier than the first of them plus the sum of the first c delays |
| WorkLoopRuns.WorkIsBounded | kernel/work_loop.py:34-111 | over any number of passes on a shrinking pool the calls number at most the cap times the pool |
| Resume.WalkChain | orchestration/batch_chain.py:32-75 | the walk computes the chain that `ResumeLaws.ChainExactly` describes |
| ResumeLaws.ChainExactly | orchestration/batch_chain.py:32-75 | by the stored edges: the request; the first child by a sync edge that is a monitor run of the sync phase; each artifact the first child by its edge type of the entry before, as long as there is one; a PMRun's first deliberation |
| Resume.ResumeRun | orchestration/resume.py:29-75 | every outcome keeps the stored nodes, merging at most into the child's regime context, and adds only edges leaving from added nodes or from that context; it refuses an unknown source and the first missing artifact, and otherwise places or reads back the child, whose request then holds the child's run id, the source's tickers and requested time, the stage's name, the source's run id and the given instant, and nothing else; a cloned context holds the child's run, the key it was cloned from and the rest of its source |
| Resume.Create | orchestration/resume.py:50-75 | the child's request holds the child's run id, the source's tickers and requested time, the stage, the source's run id and the given instant; the child gets a clone of every required artifact, each linked to its parent clone and its source, with side branch and regime context re-linked; the references returned are the sources in artifact order; it stops at a PMRun without an order set or at a stored context it may not merge into |
| Resume.LinkArtifact | orchestration/resume.py:93-116 | one artifact adds its clone and exactly its edges, failing only when a PMRun has no order set |
| ResumeLaws.ChildEdgesExactly | orchestration/resume.py:93-116 | a placed child's edges, and no others: to the source's request, and for each clone one below its parent, one to its source, a scan's to the market data, and one to the first side branch the source has |
| ResumeLaws.ContextExactly | orchestration/resume.py:156-173 | the context cloned is the one stored for the run that the market data names, if it is stored |
| ResumeLaws.ContextEdgesExactly | orchestration/resume.py:156-173 | its link is written exactly when there is a context and no such link yet |
| ResumeLaws.NoOrdersExactly | orchestration/resume.py:119-144 | a PMRun stops the placement exactly when it has no order set with a provenance, both dicts |
| Resume.LinkRegime | orchestration/resume.py:156-173 | when the market data's run has a regime context, it is merged under the child's key and linked, unless linked already; a stored context that refuses the merge stops the step |
| Resume.LinkedRefs | orchestration/resume.py:176-188 | a repeated call's references are the sources of the clones the breadth-first walk finds |
| Resume.FirstMissing | orchestration/resume_plan.py:95-97 | names the first required artifact the chain lacks |
| Resume.KeysNameIds | orchestration/resume.py:101-104 | the key formats resume writes name their nodes: equal keys are one node |
| Resume.ChildRunNames | orchestration/resume.py:43-44 | a child run's name tells its source and stage, even when either holds dashes |
| ResumeChain.DescendantsUnchanged | orchestration/resume.py:93-116 | what lies downstream of any node stored before is unchanged by a resume, at every depth and for every edge filter, unless source links are followed into a regime context stored for the child beforehand |
| ResumeChain.DownstreamUnchangedExactly | orchestration/resume.py:156-173 | after a placement all that is downstream of stored nodes is as it was, exactly when no regime context stored for the child beforehand gets a link to another context |
| ResumeChain.ExistingRunsUnchanged | orchestration/batch_chain.py:32-54 | on the in-memory backend, which takes the first child by edge order, the chain of every run placed before reads as it did, whatever the resume did |
| ResumeChain.ChildSeesExactlyThePrefix | orchestration/batch_chain.py:32-54 | on the in-memory backend the child's chain is its request, its clones of exactly the required artifacts, and the source's deliberation exactly when the PMRun was cloned and had one |
| ResumeListing.InEdgeOrderIsTheChain | orchestration/batch_chain.py:32-75 | the chain walk over an arbitrary listing of children is the in-memory one when they are listed by edge |
| ResumeListing.ExistingRunsUnchangedBy | orchestration/batch_chain.py:32-54 | in whichever order a backend lists children, the chain of every run placed before reads as it did, whatever the resume did |
| ResumeListing.ChildSeesExactlyThePrefixBy | orchestration/batch_chain.py:32-54 | in whichever order a backend lists children, the child's chain is exactly the cloned prefix with the source's deliberation |
| ResumeListing.ByKeyLists | kernel/graph_postgres_queries.py:99-125 | sorting by key lists the same children |
| ResumeListing.ByKeyIsTheQuery | kernel/graph_postgres_queries.py:99-125 | where a node has no edge to itself, its children sorted by key are the rows of the depth-1 query |
| ResumeChain.TreeIsClones | orchestration/resume.py:176-188 | the breadth-first walk of the in-memory backend finds the clones of a child in artifact order |
| ResumeChain.RepeatReadsTheSameRefs | orchestration/resume.py:44-48 | on the in-memory backend a repeated call reads back the first call's references in the same order, all but the regime context's |
| ResumeQuery.QueryTree | kernel/graph_postgres_queries.py:99-125 | the recursive query, ordered by depth and key, returns exactly the child's clones in artifact order with the first two exchanged |
| ResumeQuery.RepeatOnQueryExchanges | orchestration/resume.py:44-48 | on the query a repeated call reads back the first call's references with the first two exchanged; they are equal exactly when the stage requires at most the position sync or both sources are one node |
| ResumeChain.CloneCarriesProps | orchestration/resume.py:119-144 | a clone has exactly its source's properties and its own, and every property not its own is the source's, frozen |
| ResumeChain.CloneNamesTheChild | orchestration/resume.py:119-144 | a clone's own properties: the key it was linked from, the child run, and the child run or the child's PMRun and ExecutionRun clones where its source named the runs they stand for |
| ResumeChain.OrderSetNamesTheClone | orchestration/resume.py:119-144 | the order set of a PMRun clone, and its provenance, name the clone; all else in them is the source's |
| ResumeSignatures.EdgeSignatures | orchestration/resume_plan.py:71-92 | the declared shapes are those of the artifact table and the regime context |
| ResumeSignatures.WrittenAreDeclared | orchestration/resume_plan.py:71-92 | of the edges a child gets, exactly those that are neither the link to the source run nor a side branch are declared |
| ContainerSensor.Sensor.RecordNew | orchestration/container_sensor.py:119-127 | each row whose key is new becomes one event, in order, rows of known keys none |
| ContainerSensor.Sensor.SenseSafely | orchestration/container_sensor.py:69-116 | one read leaves the events, read record and told edges its specification says; a failed query only records a failed read |
| ContainerSensor.Sensor.AddTold | orchestration/container_sensor.py:157-179 | every alarm told gets its edge from this read |
| ContainerSensor.NewEventsExactly | orchestration/container_sensor.py:119-127 | the events a read adds are exactly those of the first rows of new keys, each with its row's alarm and the time of the read |
| ContainerSensor.TellsExactly | orchestration/container_sensor_graph.py:57-68 | an alarm is told by a read exactly when a message goes out with the alarm untold and within the look-back; the read keeps the message's id exactly when it had something to tell |
| ContainerSensor.WindowExactly | orchestration/container_sensor_graph.py:35-54 | a read starts an overlap before the end of the latest successful read, or the first read's length before now, unless the look-back cuts it, and is flagged exactly then |
| ContainerSensor.OneReadPerInstant | orchestration/container_sensor.py:69-116 | the first read of an instant writes its one read node, with that window and the flags of its rows; a later one writes none and tells only under a node that carries the message; the events are recorded either way |
| ContainerSensor.Reachable | orchestration/container_sensor.py:69-116 | in every reachable state a platform row is one event and an alarm is told by at most one read |
| ContainerSensor.RowsAreRecorded | orchestration/container_sensor.py:119-127 | a row of a successful read is an event from then on |
| ContainerSensor.SendingTellsAll | orchestration/container_sensor_graph.py:57-68 | a read whose message goes out leaves no alarm recorded within the look-back untold |
| ContainerSensor.FailureKeepsWindow | orchestration/container_sensor_guard.py:80-101 | a failed read moves no window, event or told edge |
| ContainerSensor.NoSilentGap | orchestration/container_sensor_graph.py:35-54 | successful windows leave no instant of ingestion time uncovered that no read is flagged for |
| ContainerSensor.HistoryHasNoSilentGap | orchestration/container_sensor_graph.py:35-54 | the same for the reads of every history |
| ContainerSensor.NoSilentLoss | orchestration/container_sensor.py:69-116 | a sensed row the platform ingested between the start of the first successful window and the end of the last is an event, or a read is flagged for it: its window was cut, or its rows hit the row cap |
| FaultCollapse.GraphFaultSink.Submit | kernel/fault_graph.py:52-66 | one submission leaves the windows, nodes and summaries its specification says |
| FaultCollapse.GraphFaultSink.Flush | kernel/fault_graph.py:68-71 | a flush summarises every open window in turn, up to the first merge refused |
| FaultCollapse.FaultCountInWindow | kernel/fault_query.py:53-101 | the query with its dict of counts adds up the occurrences of the faults in range |
| FaultConservation.RangesAdd | kernel/fault_query.py:53-60 | the query takes in its start and leaves out its end: adjacent ranges add up |
| FaultConservation.InstantCounts | kernel/fault_query.py:53-101 | a range of one instant counts exactly the fault first seen then with what it swallowed |
| FaultConservation.SwallowedWithinWindow | kernel/fault_collapse.py:76-81 | a submission is swallowed only by the window of an earlier submission of its signature, within that window |
| FaultConservation.SwallowedExactly | kernel/fault_collapse.py:76-81 | a submission is swallowed exactly when the window of an earlier submission of the same error is open and it falls within that window |
| FaultConservation.OpenWindowSwallows | kernel/fault_graph.py:52-66 | in every history, same instants included, a submission is swallowed exactly when a window of the same error is open and began no more than the window's length before |
| FaultConservation.SummaryExactly | kernel/fault_graph.py:84-91 | a closed window writes its summary exactly when it swallowed something and none of the same error and start is stored; one that is stored must be the same |
| FaultConservation.OpenWindowsExactly | kernel/fault_graph.py:52-71 | over every history the windows open are exactly those opened and not closed or flushed since |
| FaultConservation.TellsThroughout | kernel/fault_graph.py:84-91 | over every history each window and each summary counts the submissions its fault swallowed and names the last of them |
| FaultConservation.EachFaultIsCounted | kernel/fault_query.py:92-101 | each fault node counts itself and everything its window swallowed, at every moment |
| FaultConservation.NothingIsLost | kernel/fault_graph.py:52-91 | counted occurrences plus what open windows hold equal the submissions, at every moment |
| FaultConservation.FlushedQueryIsExact | kernel/fault_query.py:53-60 | after a flush the query counts every submission exactly |
| FaultConservation.CountedExactlyWhen | kernel/fault_graph.py:73-81 | a submission is counted once exactly when a window swallows it or no node has its key |
| FaultConservation.SameInstantIsRefused | kernel/fault_graph.py:94-104 | two errors of one origin in one instant: the second raises |
| Probing.FirstFree | kernel/llm_ledger.py:130-134 | the probe ends in every finite store, at the first key never used |
| Probing.ProbesFit | kernel/llm_ledger.py:130-134 | probed keys all differ, so a finite store runs out of them |
| Probing.CallLedger.WriteLlmCall | kernel/llm_ledger.py:102-154 | a call is written under the first free key of its base and changes nothing else |
| Probing.EveryCallIsItsOwnRow | kernel/llm_ledger.py:102-154 | over any sequence of calls every row stands unmerged under its own key |
| BrokerStops.NextKey | contracts/broker_stops.py:42-54 | a key is withheld exactly when some attempt, with all before it recorded, is live; otherwise it is the first free one |
| BrokerStops.FreeKey | contracts/broker_stops.py:57-66 | the probe ends at the first attempt with no fact |
| BrokerStops.DeadExactly | contracts/broker_lifecycle.py:59-88 | a stop is dead exactly when it carries a time of cancellation or replacement, or its Fill spells filled or rejected in any case: the Fill under its own key, or else the first listed with its broker id |
| BrokerStops.DeadForGoodExactly | contracts/broker_lifecycle.py:59-88 | a stop is dead after every further run of merges exactly when a marker or a terminal Fill under its own key ended it |
| BrokerStops.HistoryInOrder | contracts/broker_stops.py:42-66 | over every history a position's attempts are numbered without a gap, each has a Fill under its own key, and all but the latest are over for good |
| BrokerStops.OneLiveStop | contracts/broker_lifecycle.py:59-70 | at most one stop of a position is live, and it is the latest |
| BrokerStops.PlacementWaitsExactly | contracts/broker_stops.py:42-54 | the next key is withheld exactly while the position has a live stop |
| BrokerStops.OverStaysOver | contracts/broker_lifecycle.py:59-70 | an attempt once over stays over through everything that can follow |
| BrokerStops.MarkingEnds | agents/execution/broker_stop_writes.py:93-103 | marking a live stop replaced is never refused and ends it |
| BrokerStops.OwnKeys | contracts/broker_stops.py:107-113 | attempts of two positions whose keys hold no `#` never share a key |
| BrokerStops.FollowsItsFillExactly | agents/execution/fill_attempts.py:33-50 | a stop keeps reading the Fill its own submission wrote, whatever is later merged into it, exactly when that submission took the first slot |
| BrokerStops.FilledRetryStaysLive | agents/execution/fill_attempts.py:33-50 | a history of three events in which a retried stop's Fill is terminal and the stop still live |
| Wilson.IntervalIsScoreTest | orchestration/agreement.py:25-43 | x lies in the interval exactly when compared*(p-x)^2 <= z^2*x*(1-x) |
| Wilson.IntervalInUnit | orchestration/agreement.py:25-43 | without clamping, 0 <= low <= proportion <= high <= 1 |
| Wilson.MonotoneInMatches | orchestration/agreement.py:25-43 | more matches never lower either bound |
| Wilson.WilsonIntervalHolds | orchestration/agreement.py:25-43 | the reported interval is there exactly when something was compared; at the 95% critical value it is the score test, lies in [0, 1] around the proportion and grows with the matches |
| PairCounting.SelfAgreement | orchestration/verdict_metrics.py:53-76 | compared and matched are the numbers of index pairs with equal decision, and equal decision and ruling; usable plus excluded is selected; no_counterpart counts the verdicts whose decision was ruled on once |
| PairCounting.RulingsExactly | orchestration/verdict_metrics.py:100-105 | the verdicts counted are the usable ones of the selected arm, each with its decision and ruling, in order |
| PairCounting.SelectedCounts | orchestration/verdict_metrics.py:100-105 | the verdicts selected are those of the arm, or all without one |
| PairCounting.PairsByKey | orchestration/verdict_metrics.py:61-70 | pairs with equal keys number the sum over the keys of occurrences over 2 |
| PairCounting.MatchesByDecision | orchestration/verdict_metrics.py:61-70 | comparing only within a decision finds every agreeing pair |
| PairCounting.MatchedAtMostCompared | orchestration/verdict_metrics.py:53-76 | no more pairs agree than are compared |
| PairCounting.FiguresPermute | orchestration/verdict_metrics.py:53-76 | reordering the verdicts changes no figure |
| PairCounting.AgreementWith | orchestration/verdict_metrics.py:79-97 | compared are the rulings the second source has too, matched those it shares, and every selected verdict is excluded, without counterpart or compared |
| EhloRetry.TransientExactly | kernel/ehlo_retry.py:69-81 | a failure is resent exactly when, behind all URL errors, it is a transport failure or one of the three gateway statuses |
| EhloRetry.BackoffInRange | kernel/ehlo_retry.py:84-92 | the delay lies in [0, ceiling), the ceiling within the cap |
| EhloRetry.CeilingGrows | kernel/ehlo_retry.py:84-92 | the ceiling of the first wait is the base, each later one twice the one before, both up to the cap; a wait is the drawn share of its ceiling |
| EhloRetry.TimeoutsExactly | kernel/ehlo_retry.py:109-118 | an attempt gets its full timeout while the budget has that much left, then what is left, and never less than the minimum |
| EhloRetry.SendWithRetry | kernel/ehlo_retry.py:95-136 | the loop computes the run its specification unfolds to: at most the allowed sends, each started inside the budget after the one before and exactly its drawn backoff; it ends in a reply, a final failure on its own attempt, or exhaustion naming the last cause |
| EhloRetry.MayOverrunExactly | kernel/ehlo_retry.py:109-118 | an attempt may run past the budget exactly when it starts with less than the minimum timeout left; it then ends within that minimum of the budget and is the last |
| EhloRetry.BudgetCanBeOverrun | kernel/ehlo_retry.py:109-118 | a run of the loop that ends in a reply after its budget |
| EhloRetry.AttemptsInOrder | kernel/ehlo_retry.py:95-136 | no attempt starts before every earlier one has ended |

## Left out

- PostgreSQL connections, locks, Azure, Celery, HTTP, Telegram and LLM clients, brokers and log queries: external calls; their answers are parameters.
- Crash atomicity inside one step: a crash between a sent message and its TOLD edges, between a child run and its links, or between the two nodes of a stop placement is not modelled.
- Sets among property values, float rounding and NaN; numbers are reals and compare by value.
- Database collations: keys of one depth and of one listing compare by bytes; among rows of equal depth and equal key the query may order as it likes.
- The PostgreSQL listing order of nodes other than hold answers.
- Two node tables with one text key: node identities are tuples or constructors, one per key format the source builds, except where the key text itself is the subject (`Traversal.PathText`, `Probing`, `BrokerStops`).
- `list_nodes` and `get_node`: lookups.
- Platform rows that become readable only after their window was read and past the overlap: the log's rows are taken as readable once ingested.
- Prompt, briefing and alarm wording, the order alarms are worded in, stderr lines and log texts.
- SHA-256 digests and the UTF-8 size of a request: opaque parts of a fault, a parameter of the chunking.
- Verdict JSON and its errors: an arbitrary parser; the text of a failure reason is not compared.
- Quarantine markers other processes add while a pass runs, and the work loop's stop and signal handling.
- Square roots: the Wilson bounds take the root as a given nonnegative number with the right square; the z value is any positive number, of which the source's is one.
- Threshold rules, quantities and prices of stops: a placement's properties are arbitrary apart from the replacement markers, which only a replacement writes.
- Broker stop bases holding `#`: the two positions' keys could then meet; `BrokerStops.OwnKeys` names the condition.
- ResumeListing.ChildSeesExactlyThePrefixBy: the placement it reads was made with the source's chain and side branches as the in-memory backend picks them.
- Resume.Create: requires the same of clone keys as `Resume.ResumeRun`.
- Resume.ResumeRun: requires that clone keys of a run not placed yet are unused (`Resume.Owned`), which every resume keeps, as only resume writes them; when a PMRun has no order set, or a stored regime context refuses the merge, the child stays half-linked, as in the source.
- ResumeChain.RepeatReadsTheSameRefs: states the repeat on the graph the first call left (so does `ResumeQuery.RepeatOnQueryExchanges`); artifacts the resumed stages add later have no source link and are passed over.
- DispatchSafety.PlacedOnce: does not tie the clock's date to the trading date, which the command takes as an argument of its own.
- EhloRetry.SendWithRetry: takes sends that honour their timeout and exact sleeps; a send that overruns is outside its promise.
- Wilson.IntervalIsScoreTest: over the reals, where the source computes in floats.
- ContainerSensor.Sensor.SenseSafely: a read node's row counts are not modelled; a second read of one instant that differs from the first in them alone is taken, where the source refuses the merge.
- FaultCollapse.GraphFaultSink.Submit: a refused merge sets a flag where the source raises; later operations of a sink that raised are not constrained.
- A request's tickers are a list, which the child's request then shares; the source's `list(...)` would also take other iterables.
- `validate_alignment`, `act_by_text`, `answer_as_of`, `poll_interval_from_env`, chain and marker readers for tracing: easy members.
