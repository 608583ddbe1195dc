# Ankaios: a verified model of its core

Ankaios orchestrates workloads: one server holds the desired state, and agents
run the workloads of their node. This project models the parts of it with the
most branching and state, and proves what they keep over every input and run.

| files | part of the system |
|---|---|
| `Utf8`, `MessageSize`, `Encoding` | the splitter that packs log entries into gRPC messages of about 2 MiB |
| `NameOrder`, `CycleCheck`, `CycleCheckGap`, `ServerState` | the server's desired state: what an update adds and deletes, the incremental cycle check, delete conditions |
| `Workloads`, `Operations`, `Scheduler`, `ServerHello`, `Listings`, `RuntimeManager`, `Releases` | the agent's workload map: reconciliation with existing containers, workload operations, the waiting queue and when it lets them go |
| `Grouping`, `Distribution`, `WorkloadStates` | the way from the server to the agents, and the states that come back |
| `LogFacade`, `SubscriptionStore` | log collection under every interleaving of its tasks |
| `RequestId`, `Authorizer`, `Session`, `Lifecycle` | the control interface of a workload |
| `AgentSenders` | the connections of agents to the server |
| `Options`, `Sequences` | shared helpers |

The results reach across these parts. `Distribution.AgentRunsWhatServerWantsIff`
goes from a desired state at the server through the added and deleted lists, the
split by agent, the workload operations and the waiting queue to the workload
map of an agent, and `Releases.AgentNeverActsEarly` says when each step of it may
happen. `Session.AnswersComeBack` goes from a request in a pipe to the
response under the workload's own id. `MessageSize.TwoPassesAreOneIff` covers
both passes of the splitter.

Objects that the source updates in place are classes, loops are loops with
invariants, and each such method is proved against a function that the lemmas
speak about. Hash maps are walked in any order. Concurrent tasks are state
machines over their steps. Message sizes follow the sections "Base 128 Varints"
and "Length-Delimited Records" of the Protocol Buffers encoding specification;
code points and their boundaries follow sections 3 and 4 of RFC 3629.

Where the code falls short of what is promised of it, the model follows the
code, a lemma names an input, and another says exactly when the promise holds:

- The design (server/doc/swdesign/README.md:929) wants every cyclic state
  refused. The search can take a workload off its path too early and then miss a
  cycle (`CycleCheckGap.ExampleMissed`). What it reports is always a cycle, and
  it misses none if no dependency is also reachable through a sibling listed
  after it (`CycleCheck.CheckResult`); this condition is exact for updates that
  close a loop with a dependency that sorts first
  (`ServerState.ClosingUpdatesRefusedIff`).
- A chunk of log entries may exceed the limit by up to 5 bytes
  (`MessageSize.SplitBoundIsTight`), and a pair made from a cut entry fits only
  if its workload name leaves room for the notices (`MessageSize.CutFitsIff`).
- An operation that is ready does not remove an older one that waits under the
  same name, so a deleted workload can come back
  (`Scheduler.DeletedWorkloadComesBack`). Under a name the agent owes what it was
  told last unless it was overtaken in this way or, at a hello, lost as described
  next, and what it was told last is what the server wants unless that changed
  untold (`Distribution.AgentRunsWhatServerWantsIff`). A change goes untold when
  no sender is registered for the agent or sending fails
  (grpc/src/from_server_proxy.rs:345-351), and a deletion also when the workload
  is in its first state and the server does not know the agent
  (server/src/ankaios_server.rs:823-832, `Distribution.KeptBackIff`), which can
  happen to an agent that is connected (`AgentSenders.LateReportHidesAgent`).
- A name that two runtimes list can cost a resumed workload its place, depending
  on who answers first (`ServerHello.OrderDecides`); an entry that nobody asks for
  survives a hello if no runtime lists it (`ServerHello.OldEntrySurvivesUnlisted`,
  `ServerHello.HelloKeysIff`, `RuntimeManager.HelloHonouredAtIff`).
- A workload added and deleted twice in one message is lost
  (`Operations.UpdateReachesFinalMapIff`).
- The design (agent/doc/swdesign/README.md:4020-4024) wants a log rule to match
  if any entry does. The loop stops at the first entry with a wildcard
  (`Authorizer.ExampleLaterEntryIgnored`, `Authorizer.LogRuleIsAnyEntryIff`).
- The design (agent/doc/swdesign/README.md:4107-4110) wants an allow rule to be
  the same as or a prefix of the mask. A rule that begins with a wildcard also
  matches shorter masks (`Authorizer.ExampleOpenAtTop`,
  `Authorizer.AllowMeansCoverageIff`).
- A log collector that is done can stop a newer one with the same request id
  (`SubscriptionStore.FinishedTaskStopsItsSuccessor`,
  `SubscriptionStore.RegistrationIsSafeIff`).
- The design (agent/doc/swdesign/README.md:4411-4415) wants the entry of a log
  collection deleted when there are no more logs. A task that is done before it is
  registered keeps its entry (`SubscriptionStore.FinishedEntryStays`), and only
  such a task does (`SubscriptionStore.FinishedEntryIff`), until one of the steps
  that `SubscriptionStore.EntryStaysIff` lists.
- A connection that notices late that it is broken cuts off the agent that is
  back (`AgentSenders.LateRemovalCutsOff`, `AgentSenders.StaysReachableIff`), and
  a late report hides it from the server (`AgentSenders.LateReportHidesAgent`,
  `AgentSenders.StaysKnownIff`).
- A dependent that outlives the removal of what it needs is no longer waited for
  (`ServerState.DependentForgotten`, `ServerState.DeleteGraphHistory`).

## Model

| member | source | states |
|---|---|---|
| `Utf8.BoundaryNearby` | common/src/message_size.rs:94-98 | in valid UTF-8 there is a character boundary at most 3 bytes before any position |
| `MessageSize.TruncateLogEntry` | common/src/message_size.rs:70-111 | the backwards scan gives the cut entry and the info entry |
| `MessageSize.TruncationPoint` | common/src/message_size.rs:94-103 | the cut keeps the longest whole-character prefix within the budget, drops at most 3 further bytes and leaves valid UTF-8 |
| `MessageSize.CutUsesTheRoom` | common/src/message_size.rs:78-103 | the pair made from a cut entry is at most 8 bytes and the length prefix of the message below the limit, 12 bytes for messages under 256 MiB: hardly anything that would fit is cut off |
| `MessageSize.CutPairSays` | common/src/message_size.rs:70-111 | a cut entry becomes a prefix of its message with the notice, followed by the info text, both under the name of the entry |
| `MessageSize.ProcessLogEntriesResponse` | common/src/message_size.rs:24-68 | the loop over the entries, with its three branches, packs as the recursive definition does |
| `MessageSize.SplitKeepsContent` | common/src/message_size.rs:29-67 | joined again, the chunks are the input in order, with just the oversized entries replaced by a cut entry and its notice |
| `MessageSize.PackMaximal` | common/src/message_size.rs:44-62 | of two neighbouring chunks one is a cut pair, or the second starts with an entry that the greedy test would not add to the first |
| `MessageSize.CutFitsIff` | common/src/message_size.rs:78-100 | a cut pair is within the limit if and only if the pair with an empty message is, saturating subtractions included |
| `MessageSize.SplitBound` | common/src/message_size.rs:34-65 | no chunk is empty when the input is too large, and every chunk is at most 5 bytes over the limit, except cut pairs whose name leaves no room |
| `MessageSize.SplitBoundIsTight` | common/src/message_size.rs:48-62 | an entry of exactly the limit gives a chunk of the limit plus 5 |
| `MessageSize.FixedPointIff` | common/src/message_size.rs:24-68 | a response passes the splitter unchanged if and only if it is empty or passes the greedy test |
| `MessageSize.SplitIdempotentIff` | common/src/message_size.rs:24-111 | all chunks pass a second time unchanged if and only if the names of the cut entries leave room for the notices |
| `MessageSize.RoomForSmallNames` | common/src/message_size.rs:86-92 | a name that encodes to 60 bytes less than half the limit leaves room |
| `MessageSize.LogEntriesResponseCalls` | common/src/to_server_interface.rs:195-211 | every response is split and its chunks are sent in order, until all are sent or the channel refuses one |
| `MessageSize.TwoPassesAreOneIff` | grpc/src/to_server_proxy.rs:138-145 | splitting at the agent and again at the server is the same as splitting once, if and only if the names of the cut entries leave room for the notices |
| `Encoding.ResponseSize` | common/src/message_size.rs:25 | the size by which the splitter decides is the number of bytes of the encoded response |
| `Encoding.ResponseRoundTrip` | ankaios_api/proto/ank_base.proto:85-116 | reading the bytes of a response gives the response back |
| `CycleCheck.ScanDependencies` | server/src/ankaios_server/cycle_check.rs:83-97 | the scan reports the first dependency on the path, or pushes the unvisited ones |
| `CycleCheck.FirstBackEdge` | server/src/ankaios_server/cycle_check.rs:88-96 | the dependency that is reported is the first one on the path |
| `CycleCheck.SearchFrom` | server/src/ankaios_server/cycle_check.rs:63-105 | the search ends, and its result is that of the run of the step relation from the start workloads over the sorted dependencies |
| `CycleCheck.Dfs` | server/src/ankaios_server/cycle_check.rs:30-105 | the search runs from the given workloads, or from all, in sort order |
| `CycleCheck.FullCheckResult` | server/src/ankaios_server/cycle_check.rs:48-58 | the check of a whole state without late shortcuts reports something if and only if the state has a cycle |
| `CycleCheck.RunsAgree` | server/src/ankaios_server/cycle_check.rs:30-105 | the result depends on the graph and the start workloads alone |
| `CycleCheck.CheckResult` | server/src/ankaios_server/cycle_check.rs:30-105 | what is reported is on a cycle; without late shortcuts something is reported if and only if a cycle is reachable from a start workload |
| `CycleCheckGap.LoopMissed` | server/src/ankaios_server/cycle_check.rs:71-105 | every late shortcut at a workload lets a loop through it pass unnoticed |
| `CycleCheckGap.LoopsNoticedIff` | server/src/ankaios_server/cycle_check.rs:71-105 | on acyclic dependencies every loop closed by a new first dependency is noticed if and only if there is no late shortcut |
| `CycleCheckGap.ExampleMissed` | server/src/ankaios_server/cycle_check.rs:71-105 | four workloads with a cycle that is not reported |
| `ServerState.ExtractAddedAndDeletedWorkloads` | server/src/ankaios_server/server_state.rs:43-87 | in whatever order the maps are walked, added are exactly the new and changed workloads, deleted exactly the gone and changed ones, each once |
| `ServerState.ExactlyTheChanges` | server/src/ankaios_server/server_state.rs:43-87 | a workload is added just if it is new or changed, and deleted just if it is gone or changed; one that stays as it is is never touched |
| `ServerState.EdgesAreDependencies` | server/src/ankaios_server/cycle_check.rs:83-86 | the edges that are searched are the dependencies, whatever their conditions |
| `NameOrder.SortNames` | server/src/ankaios_server/cycle_check.rs:59-61 | the start workloads in order, none lost or repeated |
| `NameOrder.SortSet` | server/src/ankaios_server/cycle_check.rs:83-86 | the dependencies of a workload in the one order that is sorted |
| `NameOrder.NameOrderIff` | server/src/ankaios_server/cycle_check.rs:61-86 | the order is that of strings: a prefix comes first, otherwise the first difference decides |
| `ServerState.IncrementalCheckIsComplete` | server/src/ankaios_server/server_state.rs:280-300 | if the old state has no cycle, searching from the changed workloads with dependencies finds a cycle just when the new state has one |
| `ServerState.ClosingUpdatesRefusedIff` | server/src/ankaios_server/server_state.rs:292-300 | updates that make two workloads depend on each other are all refused if and only if there is no late shortcut; the states are sorted as the source sorts them when the new dependency sorts first |
| `ServerState.InsertIntoDeleteGraph` | server/src/ankaios_server/delete_graph.rs:31-47 | exactly the added workloads that need a dependency running are recorded for it |
| `ServerState.ApplyDeleteConditionsTo` | server/src/ankaios_server/delete_graph.rs:50-59 | each deleted workload gets the recorded conditions of its name |
| `ServerState.DeleteGraphHistory` | server/src/ankaios_server/delete_graph.rs:29-77 | over every history, a deletion waits for exactly those recorded since the workload was last removed |
| `ServerState.DependentForgotten` | server/src/ankaios_server/delete_graph.rs:62-76 | a dependent that stays while its dependency is removed and added again is not waited for |
| `ServerState.ServerState.Update` | server/src/ankaios_server/server_state.rs:251-317 | a refused update changes nothing and names a workload on a cycle; an accepted one stores the state and gives the exact difference with its delete conditions; from an acyclic state without late shortcuts it is refused if and only if the new state has a cycle |
| `Operations.TransformIntoWorkloadOperations` | agent/src/runtime_manager.rs:412-477 | deletions and updates in message order, then each remaining added workload once in any order |
| `Operations.TransformOnePerNameIff` | agent/src/runtime_manager.rs:412-477 | at most one operation per name if and only if no name is deleted twice |
| `Operations.TransformAt` | agent/src/runtime_manager.rs:412-477 | workload by workload: an update to the version added last if it is also deleted or already known, a creation if it is new, a deletion if it is only deleted, nothing otherwise |
| `Operations.HappensAt` | agent/src/runtime_manager.rs:479-619 | what the only operation on a workload leaves in the map |
| `Operations.OrderDoesNotMatter` | agent/src/runtime_manager.rs:479-500 | operations that do not work against each other give the same map in any order |
| `Operations.UpdateReachesFinalMapIff` | agent/src/runtime_manager.rs:412-609 | the map the message means (deleted names gone, added names with their new version, the rest untouched) is reached, by the emitted operations and by every other order of them, if and only if no added workload is deleted twice |
| `Operations.OnlyReplaced` | agent/src/runtime_manager.rs:427-448 | when all that is deleted is also added, each deletion becomes one update and nothing is only deleted |
| `Scheduler.WorkloadScheduler.Handle` | agent/src/workload_scheduler/scheduler.rs:187-319 | what is released, what goes back to the queue and what is reported as waiting, for each kind of entry |
| `Scheduler.WorkloadScheduler.NextWorkloadOperations` | agent/src/workload_scheduler/scheduler.rs:121-185 | a pass in any order releases each ready entry once and keeps the others; the last report about each workload that waits still says what it waits for |
| `Scheduler.WorkloadScheduler.EnqueueFilteredWorkloadOperations` | agent/src/workload_scheduler/scheduler.rs:65-118 | new operations are released or queued, then the queue is passed over; the last report about each workload that waits says what it waits for |
| `Scheduler.ReportedIffNews` | agent/src/workload_scheduler/scheduler.rs:187-319 | a waiting workload is reported just when there is news about it: it has to wait from now on, or only its new version has to wait |
| `Releases.ReleasedAreAllowed` | agent/src/workload_scheduler/scheduler.rs:65-185 | all that a pass or a batch releases has its dependencies fulfilled then; an update may have had its old version deleted before |
| `Releases.NothingTooEarly` | agent/src/workload_scheduler/scheduler.rs:65-307 | over every run of the queue: nothing is created or deleted before its dependencies allow it, and a new version starts only when its old one may go now or went at an earlier turn that allowed it |
| `Releases.WaitingIsReleasedIff` | agent/src/workload_scheduler/scheduler.rs:121-307 | an entry that waits goes, and leaves the queue, exactly at a turn that allows it; for an update whose old version alone may go, that goes and the new one waits on |
| `Releases.NewIsReleasedIff` | agent/src/workload_scheduler/scheduler.rs:65-118 | a new operation goes at once exactly if it is allowed, whatever waits under its name, and otherwise waits in place of it |
| `Releases.KeepsWaiting` | agent/src/workload_scheduler/scheduler.rs:121-307 | over a run an entry waits, and nothing happens to its workload, as long as nothing allows or replaces it |
| `Scheduler.PassKeepsSettled` | agent/src/workload_scheduler/scheduler.rs:121-185 | a pass never changes the map the agent ends up with |
| `Scheduler.DeferredOperationsConverge` | agent/src/workload_scheduler/scheduler.rs:121-307 | over any passes with any dependencies fulfilled the agent owes the same map, and has it once the queue is empty |
| `Scheduler.BatchHonouredIff` | agent/src/workload_scheduler/scheduler.rs:65-118 | a batch decides about its workloads if and only if no ready operation finds a different older entry waiting |
| `Scheduler.DeletedWorkloadComesBack` | agent/src/workload_scheduler/scheduler.rs:283-307 | a deletion that is ready at once leaves a waiting creation in the queue |
| `ServerHello.ReconcileConserves` | agent/src/runtime_manager.rs:206-383 | with no assumption on names: at every point the added workloads are those resumed, those handed on and those unmatched, and all that is deleted is also handed on |
| `ServerHello.HandedOnConserves` | agent/src/runtime_manager.rs:376-383 | the added workloads are exactly those resumed and those in the returned list, each as often, and whatever is deleted is in that list by name |
| `ServerHello.ReconcileByFate` | agent/src/runtime_manager.rs:226-374 | from any workload map, what becomes of each added workload depends on the listings of its own name alone, and map, added and deleted lists agree with it |
| `ServerHello.OldEntrySurvivesUnlisted` | agent/src/runtime_manager.rs:355-368 | an entry that is not asked for goes if a runtime lists it and survives if none does |
| `ServerHello.HelloReachesOutcome` | agent/src/runtime_manager.rs:147-163 | from any workload map, in any order of the operations: the added workloads that were not lost in their new version, the other old entries unless listed, and nothing is only deleted |
| `ServerHello.NoBareDelete` | agent/src/runtime_manager.rs:304-354 | each replaced instance becomes one update that pairs it with its successor |
| `ServerHello.HelloKeysIff` | agent/src/runtime_manager.rs:226-374 | the names in the map are the added names if and only if no resumed workload is listed again afterwards and every old entry that is not asked for is listed |
| `ServerHello.ListedOnceNeverLost` | agent/src/runtime_manager.rs:226-374 | names listed once only are never lost |
| `ServerHello.ListingOrderDoesNotMatter` | agent/src/runtime_manager.rs:226-374 | with names listed once the order of the runtimes changes nothing |
| `ServerHello.OrderDecides` | agent/src/runtime_manager.rs:226-374 | with a name listed by two runtimes the order decides whether a running workload is kept |
| `Listings.EveryListingAccounted` | agent/src/runtime_manager.rs:206-383 | from any workload map and any added workloads, by the positions of the listings: which container is taken over, reused, replaced, ended with its entry or stopped at the runtime, and what the map then holds under every name |
| `Listings.OutcomesPartition` | agent/src/runtime_manager.rs:226-374 | every listed container has one of these outcomes, as often as it is listed |
| `Listings.OrphansAreStopped` | agent/src/runtime_manager.rs:355-374 | with every name listed once, exactly the containers that match no added workload and that the agent does not manage are stopped at their runtime |
| `Listings.ReusedAsListed` | agent/src/runtime_manager.rs:290-303 | a container is reused only for the very instance it ran, when that has succeeded, and under its own id |
| `Listings.FoundIsListed` | agent/src/runtime_manager.rs:221-235 | everything a runtime lists is looked at, and nothing else |
| `Grouping.GroupBy` | agent/src/runtime_manager.rs:207-220 | a map of vectors that keeps every element under its key, in order |
| `Grouping.Flatten` | agent/src/runtime_manager.rs:57-66 | draining the map in any order loses and repeats nothing |
| `RuntimeManager.RuntimeManager.AddWorkload` | agent/src/runtime_manager.rs:502-545 | the effect of a create operation on the map |
| `RuntimeManager.RuntimeManager.DeleteWorkload` | agent/src/runtime_manager.rs:547-575 | the effect of a delete operation; what is gone already is reported as removed |
| `RuntimeManager.RuntimeManager.UpdateWorkload` | agent/src/runtime_manager.rs:578-609 | the effect of an update operation; a missing workload is created |
| `RuntimeManager.RuntimeManager.UpdateDeleteOnly` | agent/src/runtime_manager.rs:612-619 | the workload stays in the map without a version to run; a missing one stays missing |
| `RuntimeManager.RuntimeManager.ExecuteWorkloadOperations` | agent/src/runtime_manager.rs:479-500 | the loop has the effects of the operations one after the other, and reports as removed what a deletion does not find |
| `RuntimeManager.GoneAlreadyCounts` | agent/src/runtime_manager.rs:547-575 | an instance is reported as removed once for every deletion of it that finds nothing under its name when it is executed |
| `RuntimeManager.RuntimeManager.ReconcileExisting` | agent/src/runtime_manager.rs:236-368 | searching and removing in the vector of one runtime is searching and removing in the list of all added workloads |
| `RuntimeManager.RuntimeManager.ResumeAndRemoveFromAddedWorkloads` | agent/src/runtime_manager.rs:200-383 | the nested loops over listings and per-runtime vectors reconcile as the definition does, failed listings skipped |
| `RuntimeManager.RuntimeManager.ExecuteWorkloads` | agent/src/runtime_manager.rs:126-144 | transform, filter through the queue, execute what is ready |
| `RuntimeManager.RuntimeManager.HandleUpdateWorkload` | agent/src/runtime_manager.rs:166-182 | an update message is one such step |
| `RuntimeManager.RuntimeManager.HandleServerHello` | agent/src/runtime_manager.rs:147-163 | a hello is the reconciliation followed by one such step |
| `RuntimeManager.RuntimeManager.UpdateWorkloadsOnFulfilledDependencies` | agent/src/runtime_manager.rs:112-124 | changed states lead to one pass over the queue |
| `RuntimeManager.MessageHonouredAtIff` | agent/src/runtime_manager.rs:126-144 | whatever has to wait, at every name a message changes what the agent owes as it means, if and only if no ready operation for that name finds a different older one waiting |
| `RuntimeManager.MessageHonouredIff` | agent/src/runtime_manager.rs:126-144 | the same for the whole map |
| `RuntimeManager.AgentConvergesAtIff` | agent/src/runtime_manager.rs:112-182 | over any run of passes, hellos and messages that delete no name twice, the agent owes at a name what it was told, if and only if the last event about that name met no different older operation and, if a hello, did not lose it |
| `RuntimeManager.AgentConvergesIff` | agent/src/runtime_manager.rs:112-182 | the agent owes the whole map it was told if and only if that holds of every name, and has it when nothing waits |
| `Releases.AgentRunIsQueueRun` | agent/src/runtime_manager.rs:112-182 | every run of an agent is a run of its queue, whose released operations are what changes its map |
| `Releases.AgentNeverActsEarly` | agent/src/runtime_manager.rs:112-182 | over every run of messages, hellos and passes: a workload is started, stopped or left without a version only at an event at which its dependencies allow just that, and its old version may go then or went before |
| `Releases.AgentActsAtOnceIff` | agent/src/runtime_manager.rs:112-182 | what waits for a workload is done at an event if and only if that allows it, and is in the map right after it |
| `RuntimeManager.HelloOutcomeAt` | agent/src/runtime_manager.rs:147-163 | from any map and any queue: under names for which nothing waited the agent owes the outcome of the hello; names handed on get it if and only if no ready operation finds a different older one waiting; under the others what waited still decides |
| `RuntimeManager.HelloOutcome` | agent/src/runtime_manager.rs:147-163 | with nothing waiting the agent owes the outcome everywhere, and has it at once if everything is ready |
| `RuntimeManager.HelloHonouredAtIff` | agent/src/runtime_manager.rs:147-163 | from any map and queue, at every name: after a hello the agent owes what the server wants if and only if what is handed on meets no different older operation, what waits otherwise leads to the same, and with nothing waiting no resumed workload was listed again and every old entry that is not asked for was listed |
| `Distribution.GetWorkloadsPerAgent` | grpc/src/from_server_proxy.rs:285-308 | each agent's message is the added and deleted workloads of that agent in order, no message is empty, and agents without any get none |
| `Distribution.DistributionIsPartition` | grpc/src/from_server_proxy.rs:285-308 | nothing is lost, repeated or sent to the wrong agent |
| `Distribution.GroupWorkloadInstanceNamesByAgent` | grpc/src/from_server_proxy.rs:415-423 | the instance names of a log request are split by agent in order |
| `Distribution.DistributeWorkloadStates` | grpc/src/from_server_proxy.rs:232-275 | one message per agent with something to tell that has not gone meanwhile |
| `Distribution.NoOwnStates` | grpc/src/from_server_proxy.rs:238-251 | every message goes to an agent that stays and has something to tell: exactly the states of the other agents, each as often |
| `Distribution.EveryAgentHears` | grpc/src/from_server_proxy.rs:238-270 | every agent that stays hears of every state of another agent |
| `Distribution.MessageMeansNewState` | grpc/src/from_server_proxy.rs:285-354 | the message an agent gets for an update means the new desired state at that agent, moves between agents included |
| `Distribution.HandleNotStartedDeletedWorkloads` | server/src/ankaios_server.rs:799-832 | the walk over the deletions, which takes entries from the states while it looks at them |
| `Distribution.KeptBackIff` | server/src/ankaios_server.rs:799-832 | of different workloads, exactly those without an agent, or with an unknown one and still in their first state, are not sent on, are reported as removed and lose their entry |
| `Distribution.ForgetsWhatItReports` | server/src/ankaios_server.rs:805-818 | the states that are left are those that processing the reports would leave, and every deletion is either sent on or reported |
| `Distribution.RetainedIsPart` | server/src/ankaios_server.rs:805-832 | what is sent on was deleted, and at an agent the server knows it is all that was, in order |
| `Distribution.MessageTells` | server/src/ankaios_server.rs:786-789 | whatever deletions are kept back, what a message names is what the server wants of the agent; with none of that agent kept back it names all that changed there |
| `Distribution.AgentRunsWhatServerWantsIff` | server/src/ankaios_server/server_state.rs:251-317 | over every run of passes, hellos and messages, with messages dropped and deletions kept back: the agent owes under a name what the server wanted when it last told of it, if and only if that event was kept, and then what the server wants now exactly if nothing changed untold since; what does not wait is what it runs |
| `Distribution.AgentRunsAllServerWantsIff` | server/src/ankaios_server/server_state.rs:251-317 | with every change told, the agent owes exactly what the server wants of it if and only if the last event about every name was kept, and runs it when nothing waits |
| `ServerState.ServerState.GetWorkloadsForAgent` | server/src/ankaios_server/server_state.rs:230-236 | every workload of the agent, each once |
| `WorkloadStates.StateStore.RemoveState` | ankaios_api/src/ank_base/workload_states_map.rs:148-165 | the nested removal with its cleanup |
| `WorkloadStates.StateStore.ProcessNewStates` | ankaios_api/src/ank_base/workload_states_map.rs:167-184 | states are inserted and removed one after the other |
| `WorkloadStates.ProcessAt` | ankaios_api/src/ank_base/workload_states_map.rs:148-184 | the nested map behaves as a flat one from instance names to states |
| `WorkloadStates.SameStates` | ankaios_api/src/ank_base/workload_states_map.rs:148-184 | without empty paths the entries determine the nested map |
| `WorkloadStates.NoEmptyPathsEver` | ankaios_api/src/ank_base/workload_states_map.rs:148-184 | no run leaves an agent without workloads or a workload without instances |
| `WorkloadStates.StateStore.StoreAndForwardOwnWorkloadState` | agent/src/agent_manager.rs:221-252 | an own report passes the hysteresis, and the entry afterwards is what is forwarded to the server |
| `WorkloadStates.OwnEntriesAreOwnReports` | agent/src/agent_manager.rs:137-165 | whatever the server distributes, an agent's own entries are the fold of its own reports |
| `WorkloadStates.PendingStopSticks` | ankaios_api/src/ank_base/workload_state.rs:53-71 | a pending stop outlasts any number of outdated reports and server messages |
| `WorkloadStates.LastReportDecidesIff` | ankaios_api/src/ank_base/workload_state.rs:53-71 | over every run, an own entry is its last report, or gone if that says removed, if and only if it is not an outdated report while a stop was pending; then the entry is as before |
| `LogFacade.ConvertLogReceiversToFutures` | agent/src/workload_log_facade.rs:107-121 | with nothing sent yet, each receiver has one read under way that accounts for all it will give |
| `LogFacade.ConsumeFuturesAndForwardLogsUntilStop` | agent/src/workload_log_facade.rs:124-170 | whichever receiver is ready next, the loop ends, each receiver's batches arrive in order followed by one stop, and the last message is a stop |
| `LogFacade.OneStopAtTheEnd` | agent/src/workload_log_facade.rs:124-170 | what a receiver is expected to give: its batches by position, then one stop |
| `LogFacade.EachWorkloadCompletely` | agent/src/workload_log_facade.rs:124-170 | the messages under a name interleave what the receivers of that workload give, each complete and in order; with one receiver they are its own |
| `SubscriptionStore.SubscriptionStore.AddSubscription` | agent/src/subscription_store.rs:50-52 | a replaced entry has its task aborted |
| `SubscriptionStore.SubscriptionStore.DeleteSubscription` | agent/src/subscription_store.rs:55-57 | a removed entry has its task aborted |
| `SubscriptionStore.SubscriptionStore.DeleteAllSubscriptions` | agent/src/subscription_store.rs:60-63 | all entries have their tasks aborted |
| `SubscriptionStore.NoLeakedCollector` | agent/src/workload_log_facade.rs:57-104 | over all interleavings, a registered task that is neither finished nor aborted is stored under its id |
| `SubscriptionStore.ServerGoneStopsAll` | agent/src/agent_manager.rs:208-217 | when the server is gone no task goes on collecting |
| `SubscriptionStore.UnwantedStopHasCause` | agent/src/workload_log_facade.rs:77-104 | over every run, a collector that is stopped without a cancel, a lost server or a newer request was registered while another task of its id was removing itself |
| `SubscriptionStore.RegistrationIsSafeIff` | agent/src/workload_log_facade.rs:77-104 | over all that can follow, a collector is stopped only on request, if and only if no other task of its id was removing itself when it was registered |
| `SubscriptionStore.FinishedTaskStopsItsSuccessor` | agent/src/workload_log_facade.rs:90-104 | a run in which a finished task stops a newer collector that nobody cancelled |
| `SubscriptionStore.FinishedEntryIff` | agent/src/workload_log_facade.rs:77-104 | over every run, a task that has an entry is done if and only if it was done already when it was registered |
| `SubscriptionStore.EntryStaysIff` | agent/src/subscription_store.rs:34-63 | an entry stays exactly until a cancel of its id, the loss of the server, or the registration or self-removal of a task with that id |
| `SubscriptionStore.FinishedEntryStays` | agent/src/workload_log_facade.rs:77-104 | a run in which a task is done before it is registered, and its entry stays |
| `RequestId.DetachPrependIff` | common/src/request_id_prepending.rs:19-40 | exactly when a prefix can be taken off again |
| `RequestId.RoundTripIff` | grpc/src/from_server_proxy.rs:185-200 | agent, workload and id come back from both hops if and only if the names are routable, whatever the id |
| `RequestId.NeverConfused` | grpc/src/to_server_proxy.rs:60-68 | two routable requests share an id at the server only if they are the same |
| `RequestId.ResponseReachesRequester` | agent/src/runtime_manager.rs:185-197 | a response goes to the workload that asked, under its own id, and to nobody else |
| `Authorizer.MatchRuleWithPath` | agent/src/control_interface/authorizer/path_pattern.rs:141-161 | the loop compares the sections that both have |
| `Authorizer.MatchAllowPattern` | agent/src/control_interface/authorizer/path_pattern.rs:52-60 | the length test comes before the comparison |
| `Authorizer.SplitIsJoin` | agent/src/control_interface/authorizer/path.rs:23-33 | a path is cut at every separator: its sections have none, and joined they are the text again |
| `Authorizer.WrittenRuleCovers` | agent/src/control_interface/authorizer/path_pattern.rs:34-60 | a rule as it is written covers a path if each of its sections is `*` or the text of the path there |
| `Authorizer.DenyMatchesIffOverlap` | agent/src/control_interface/authorizer/path_pattern.rs:86-88 | a deny pattern matches a path if and only if it covers something below it |
| `Authorizer.AllowMeansCoverageIff` | agent/src/control_interface/authorizer/path_pattern.rs:52-60 | an allow pattern matches just the paths below which it covers everything, if and only if it does not begin with a wildcard and go on |
| `Authorizer.ExampleOpenAtTop` | agent/src/control_interface/authorizer/path_pattern.rs:52-60 | a pattern that matches the empty path without covering it |
| `Authorizer.Split` | agent/src/control_interface/authorizer.rs:193-230 | the loop sorts the rules into read, write and log rules |
| `Authorizer.CreateAuthorizer` | agent/src/control_interface/authorizer.rs:185-243 | the authorizer built from the rules permits exactly the requests the rules as written permit |
| `Authorizer.AuthorizeIsPermitted` | agent/src/control_interface/authorizer.rs:67-181 | the split lists decide as the rules as written: every mask element allowed and none denied, an empty mask read as the empty path |
| `Authorizer.ReadAndWriteRules` | agent/src/control_interface/authorizer.rs:67-230 | a request for the state is permitted if and only if for every mask element a rule for reading or for both allows it and none of these denies it; an update likewise with rules for writing |
| `Authorizer.ReadersDoNotWrite` | agent/src/control_interface/authorizer.rs:193-230 | a single rule for reading never permits an update and permits reading its own masks, and the other way round |
| `Authorizer.PermittedGrows` | agent/src/control_interface/authorizer.rs:67-181 | more allow rules and fewer deny rules never refuse what was permitted |
| `Authorizer.OnlyTheRulesCount` | agent/src/control_interface/authorizer.rs:193-230 | order, repetition and rules for nothing do not matter |
| `Authorizer.GrantIsForTheWholeSubtree` | agent/src/control_interface/authorizer.rs:140-181 | a path is granted if and only if one rule covers all of the state below it, or begins with a wildcard and agrees with a shorter path, and no deny rule covers any of that state |
| `Authorizer.MatchLogRule` | agent/src/control_interface/authorizer/rules.rs:63-77 | the loop over the entries of a log rule |
| `Authorizer.FitsWildcardIff` | agent/src/control_interface/authorizer/rules.rs:68-74 | a wildcard in a log entry stands for any text in its place, also for none |
| `Authorizer.LogRuleDecides` | agent/src/control_interface/authorizer/rules.rs:63-77 | the names before the first wildcard entry and that entry decide |
| `Authorizer.LogRuleIsAnyEntryIff` | agent/src/control_interface/authorizer/rules.rs:63-77 | a rule permits the names of all its entries if and only if every entry behind the first wildcard is subsumed |
| `Authorizer.ExampleLaterEntryIgnored` | agent/src/control_interface/authorizer/rules.rs:63-77 | a rule whose second entry has no effect |
| `Session.ControlInterfaceTask.CheckInitialHello` | agent/src/control_interface/control_interface_task.rs:82-98 | only a compatible hello opens a session |
| `Session.ControlInterfaceTask.Run` | agent/src/control_interface/control_interface_task.rs:100-252 | the session with its early returns and failing writes gives the trace that the lemmas speak about |
| `Session.NothingBeforeAccepted` | agent/src/control_interface/control_interface_task.rs:100-116 | nothing goes to the server unless a compatible hello was answered, successfully and once, before |
| `Session.NothingAfterClosed` | agent/src/control_interface/control_interface_task.rs:163-169 | nothing follows the closing of the connection |
| `Session.ClosedIff` | agent/src/control_interface/control_interface_task.rs:82-187 | a session is closed at once if it does not begin with a compatible hello, later by the first incompatible one, and for no other reason |
| `Session.LogOnlyGrows` | agent/src/control_interface/control_interface_task.rs:118-187 | the trace of a longer session extends that of a shorter one |
| `Session.SessionAnswersInOrder` | agent/src/control_interface/control_interface_task.rs:118-187 | each request is forwarded once with the prefix or denied once with its own id, responses are passed on, and just the log entries without a reader are cancelled, all in order |
| `Session.AnswersComeBack` | agent/src/control_interface/control_interface_task.rs:145-151 | a response to a forwarded request comes back to this workload under the id it used |
| `Lifecycle.Workload.constructor` | agent/src/runtime_connectors/runtime_facade.rs:189-212 | a new workload has the interface it asks for, if creating it works |
| `Lifecycle.Workload.ExchangeControlInterface` | agent/src/workload.rs:112-144 | the old interface is aborted before a new one is created |
| `Lifecycle.Workload.Update` | agent/src/workload.rs:159-186 | only a changed configuration exchanges the interface |
| `Lifecycle.Workload.Delete` | agent/src/workload.rs:189-200 | the interface is aborted |
| `Lifecycle.AtMostOneTask` | agent/src/workload.rs:112-200 | over any updates, failing creations included, just the held interface has a running task, and deletion leaves none |
| `Lifecycle.HeldIsLatest` | agent/src/workload.rs:159-186 | a held interface has the path and the authorizer of the latest update |
| `Lifecycle.StartsCountChanges` | agent/src/workload.rs:112-186 | over any updates, failing creations included, the configuration follows from what was asked for, and a task is started exactly as often as an interface that is not the present one is asked for and created |
| `Lifecycle.UnchangedNeverRestarts` | agent/src/control_interface/control_interface_info.rs:70-79 | an unchanged configuration never restarts the task |
| `AgentSenders.AgentConnections.StoreSender` | grpc/src/grpc_agent_connection.rs:131-134 | a hello adds a connection and puts its sender under the agent's name, in place of an older one |
| `AgentSenders.AgentConnections.ForwardHello` | grpc/src/grpc_agent_connection.rs:135-142 | the server is told of the agent before the connection is served |
| `AgentSenders.AgentConnections.ForwardingEnds` | grpc/src/grpc_agent_connection.rs:145-155 | only an error leads on to the removal; an orderly end leaves the sender |
| `AgentSenders.AgentConnections.RemoveSender` | grpc/src/grpc_agent_connection.rs:157-160 | the entry of the name goes, whoever it belongs to |
| `AgentSenders.AgentConnections.InformServer` | grpc/src/grpc_agent_connection.rs:161-165 | the server is told that the agent is gone, after the removal |
| `AgentSenders.AgentConnections.Route` | grpc/src/agent_senders_map.rs:43-49 | if connections came one after the other, a message for an agent goes to its open connection |
| `AgentSenders.OpenConnectionsAreReachable` | grpc/src/grpc_agent_connection.rs:132-168 | if old connections are over before the next begins, each open one finds its own sender under its name and the server knows of it |
| `AgentSenders.ConnectIsSafeIff` | grpc/src/grpc_agent_connection.rs:132-168 | the next step after a new connection takes nobody's entry and leaves its own if and only if no other connection of the agent still holds or will remove the entry |
| `AgentSenders.StaysReachableIff` | grpc/src/grpc_agent_connection.rs:132-168 | over all that can follow short of another hello, a new connection has its sender while it is open if and only if every older connection of the agent has given up its own |
| `AgentSenders.StaysKnownIff` | grpc/src/grpc_agent_connection.rs:132-168 | over all that can follow short of another hello, the server knows of the agent while the new connection is open if and only if every older connection of the agent is over |
| `AgentSenders.LateRemovalCutsOff` | grpc/src/grpc_agent_connection.rs:145-168 | a run in which an old task removes the sender of an open connection |
| `AgentSenders.LateReportHidesAgent` | grpc/src/grpc_agent_connection.rs:145-168 | a run in which a late report hides an agent that is connected and has its sender |
| `AgentSenders.SenderStaysIff` | grpc/src/grpc_agent_connection.rs:132-168 | over every run, the sender of a connection is registered if and only if since it was stored the agent said no new hello and none of its connections was removed |
| `AgentSenders.EndLeavesSender` | grpc/src/grpc_agent_connection.rs:145-168 | over every run, after an orderly end the sender is registered if and only if it was before and none of these steps has come since |
| `AgentSenders.OneRemovalOneReport` | grpc/src/grpc_agent_connection.rs:145-168 | over every run, an interrupted connection gives one removal and then one report that the agent is gone, any other neither |

## Left out

- ServerState.ServerState.Update: rendering of configuration templates and validation of fields are not modelled; their result is a parameter, required to keep names and dependencies.
- RuntimeManager.RuntimeManager.AddWorkload: the choice of the runtime, with its fallback for an unknown one, and the control interface are not modelled here; a workload in the map is what it was last told to run.
- RuntimeManager.RuntimeManager.UpdateWorkload: the control interface of the workload is modelled in `Lifecycle` alone.
- RuntimeManager.RuntimeManager.ExecuteWorkloadOperations: creation, retries and deletion at a runtime are not modelled.
- Which dependencies are fulfilled is an arbitrary function at every pass, so the results hold whatever the workload states are.
- `Workloads.WorkloadSpec` holds the fields that are only compared and passed on as one string.
- Log text and error strings, except the notices whose length matters.
- The version check is an arbitrary predicate.
- gRPC, TLS and pipes: a write to a pipe may fail in any way; channels keep their order and have no capacity.
- State comparison and events, field masks and wildcards of state requests, the command line client, configuration files.
- The polling state checker and the resource monitor.
