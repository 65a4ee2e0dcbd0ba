# A verified model of the cluster scheduler

Skipper is a small cluster manager: a control plane keeps nodes and jobs in two SQL tables, a scheduler
periodically assigns pending jobs to nodes and devices with EASY backfill, agents on the nodes poll for
work, run it and report, and a few clocked loops watch for idle devices, dead nodes and noisy alerts.
This project models the parts whose correctness is not visible from reading one function, and proves
what the repository promises about them. `dafny verify dfyconfig.toml` checks all of it.

## How it is organised

| file | what it holds |
|---|---|
| `Types.dfy`, `Slices.dfy`, `Order.dfy` | entities and machine widths; permutations and the library sort; the node order and the aged queue order |
| `Resources.dfy` | what a set of jobs holds on a node: CPUs, memory and matching devices, measured by one function |
| `FreeView.dfy` | the mutable per-node free view: built, searched and debited in place |
| `Reservation.dfy` | the earliest start of a blocked job: the declarative answer and the release sweep |
| `Starts.dfy` | that answer against what placement accepts: when the sweep is exact, too early or too late |
| `Plan.dfy` | one pass: its specification as a fold over the ranked queue, and the method that runs it |
| `PlanProperties.dfy`, `PlanOrder.dfy` | what a pass guarantees; what it does not depend on |
| `Backfill.dfy`, `Fillers.dfy`, `Waits.dfy` | the promise of backfill within a pass; when it is broken; how long the head of the queue waits over a run of passes, and when that is bounded |
| `Store.dfy`, `Services.dfy` | the two tables with their statements, and the server code that calls them |
| `Protocol.dfy`, `ProtocolRuns.dfy` | the scheduler's stale three-read pass interleaved with every other writer |
| `Executor.dfy`, `Execution.dfy`, `ExecutionRuns.dfy` | the agent's executor; server and agents together with polls in flight; exactly when a run goes wrong |
| `Isolation.dfy`, `Handover.dfy` | scheduler and agents joined: which live runs may see the same device, and when a device is handed on |
| `Cooldowns.dfy`, `Engine.dfy`, `Diagnoser.dfy`, `Detector.dfy` | rate limits and idle detection, each tied to the history it has seen |

Code that works by updating things is a class or a method with loops, proved against a specification
function; the main results are lemmas about those functions and about all runs of the state machines.
The state of a pass is reduced to the jobs placed so far and the reservation: `FreeOf` rebuilds a node's
view from the occupants, and the in-place debits are shown to keep every view equal to that rebuilding.

Time is an integer number of nanoseconds and the zero time is `None`. Widths matter and are written out:
counters are 32 and 64 bits wide, additions in the release sweep wrap, and a walltime turned into a
duration wraps at 64 bits. `AgeWeight` and utilizations are reals.

## What the code turned out to do

- The release sweep works with counts, placement with devices and with CPUs and memory that saturate at
  zero. `SweepExactIff` says when they agree, for every job an UP node could hold and every instant from now
  on: if and only if the claims of the active jobs expected to last are distinct devices of the inventory,
  and CPUs and memory are each not overcommitted, or not there at all, or held until one and the same end.
  Where it holds, the reservation is the first instant at which placement accepts the job
  (`ReservationIsTrueStart`). Overcommit makes the sweep promise too much (`SweepOverstates`);
  `ReservationTooEarly` is a node cut down to one CPU on which the blocked job does not fit for ten seconds
  after its reservation. Claims of devices that have left the inventory make it deny what is there
  (`SweepUnderstatesDevices`); `ReservationTooLate` is a node that no longer lists one of its devices, with
  a reservation ten seconds after the blocked job first fits. It is never too late if and only if the
  lasting claims are well-formed (`NeverLateIff`).
- The reservation is estimated from the active jobs alone, without the jobs placed earlier in the same pass.
  Backfill does not delay the reserved job provided the lasting claims on the nodes that could hold it are
  well-formed: `BackfillNeverDelays` compares the instants at which placement would accept it, beside the
  earlier placements, with and without everything placed later. Without that the promise is broken:
  `BackfillDelays` is a pass over the node of `ReservationTooLate` that backfills a job under the late
  reservation and so puts off the reserved one by five seconds. A reservation is a safe limit, whatever is
  placed under it, if and only if the job it is held for could not start before it (`ReservationIsSafeIff`).
- The walltime test of backfill means "ends by the reservation" for exactly the walltimes up to 9223372036
  seconds (`BackfillTestIsExact`). Longer ones wrap, to a past or a future instant; the ones that may then
  jump every reservation are those that wrap to zero or below (`WrappedWalltimeIsAllowed`). The no-delay
  theorem holds for all of them, because the estimated end of an occupant wraps alike.
- The wait of the head of the queue is bounded if and only if some node that could hold it has room for it
  beside its unbounded jobs (`WaitIsBoundedIff`). Otherwise it waits while they stay, and every pass puts its
  reservation a century ahead (`StuckForever`). A reservation can move by as much as jobs start later than
  the pass that placed them, once a pass; `BoundedWait` counts that in, and `BoundedRounds` bounds the number
  of passes when they come further apart than that.
- `FinishJob` has no guard on the state, and an agent forgets a job when its run is over. A start is stale if
  the job is forgotten and made its final report after the poll read the assigned rows (`StaleIffReported`).
  Without stale starts a terminal label never changes and a command starts at most once; the executor begins
  every job at most once if and only if no start is stale (`OnceIffFresh`). For labels and commands the exact
  conditions are about what one start puts at risk: it can lead to a terminal label being overwritten if and
  only if it is stale (`LabelAtRiskIffStale`), and to the command starting again if and only if it is stale
  and the first run got as far as starting it (`CommandRepeatsIffStale`). `StalePollStartsTwice` is a run in
  which a command starts twice and COMPLETED becomes FAILED.
- A CANCELLING row can still end if and only if its job is running or listed in a poll that is to start it
  (`CancelCompletesIffNotStranded`). A job cancelled between its assignment and the next poll is neither
  (`StrandedIsReachable`), and stays CANCELLING for ever (`StrandedForever`).
- CANCELLING rows hold nothing in the scheduler's accounting, so a device can be handed on before the process
  that holds it is dead (`DeviceHandedOnTooEarly`). Two live runs never share a device otherwise
  (`SharedOnlyWhileCancelling`). Between passes, some submissions make the next pass plan a job on the device
  of a live run if and only if the run's row is CANCELLING and the device is not handed on already
  (`HandedOnIffCancelling`).
- The scheduler document describes best-fit placement and a CONFIGURING state; the code places first-fit
  in name order and has no such state. The model follows the code.

## Assumptions

- Node ids and names are unique (a primary key and a UNIQUE column); `Plan` requires this, and that
  request totals fit their counters, and `PassesAreReadable` shows both hold at every pass of every run.
- For the bounded wait: the nodes and their inventories are fixed, device keys are unique within a node and
  fewer than 2^32, the job heads the queue at every pass, and a job with a walltime starts no more than a
  given lag after a pass that expected it to, and is gone once its walltime is over. The
  converse, and the results on the first reservation, also need nodes that are not overcommitted at the
  first pass and devices held by one job each.
- For backfill not to delay: the claims of the active jobs expected to last, on the nodes that could hold the
  reserved job, are distinct devices of the current inventory, each held by one job.
- For the execution results: reports are delivered, agents do not restart, and one agent polls per node id.
- For the results on live runs, moreover: node ids are not empty, and no start is stale.

## Model

| member | source | states |
|---|---|---|
| FreeViews.BuildFree | internal/scheduler/plan.go:87-110 | Every UP node, and no other, gets a view; debiting the active jobs one at a time with saturating subtraction gives what subtracting their totals at once gives |
| FreeViews.FreeOfSnoc | internal/scheduler/plan.go:100-108 | One saturating step for one more job agrees with the view rebuilt from all of them, so folding and totalling never differ |
| FreeViews.RemoveFreeDevices | internal/scheduler/plan.go:169-185 | Exactly the devices whose key is in use are removed, the rest keep their order |
| FreeViews.PickDevices | internal/scheduler/plan.go:141-156 | Some devices exactly when at least n stand at positions whose name the constraint accepts; then the kinds and indices of the first n of them in inventory order |
| FreeViews.OfferIs | internal/scheduler/plan.go:123-138 | When a node is offered for a job and with which devices, in the fields of both |
| FreeViews.FirstFit | internal/scheduler/plan.go:123-138 | The chosen node can take the job and no node before it can; no choice exactly when no node can |
| FreeViews.SelectFit | internal/scheduler/plan.go:123-138 | The search over mutable nodes returns the first fitting one with the devices it offers |
| FreeViews.Consume | internal/scheduler/plan.go:158-162 | The node's view after placing a job |
| Planning.DebitRebuilds | internal/scheduler/plan.go:53-62 | After the chosen node is debited in place every view equals one rebuilt with the placed job among the active ones |
| Resources.CountingAgreesWithPicking | internal/scheduler/plan.go:245-255 | With well-formed claims, inventory matches minus the summed counts of the jobs is the number of matching devices left once their devices are removed |
| Resources.CountingNeverOverstates | internal/scheduler/plan.go:300-312 | With unique device keys, whatever jobs claim, the devices left are never fewer than the count says |
| PlanProperties.FitsIffOffered | internal/scheduler/plan.go:256-261 | With well-formed claims the sweep's test at once holds exactly when placement on that node succeeds |
| Reservations.CountMatchingDevices | internal/scheduler/plan.go:290-298 | The number of positions whose name the constraint accepts || Reservations.CountJobMatching | internal/scheduler/plan.go:300-312 | The number of claimed devices accepted by the name the inventory records, last entry winning, empty when missing |
| Resources.NameOfIs | internal/scheduler/plan.go:301-304 | The recorded name is that of the last device with the kind and index, empty when there is none |
| Resources.CountClaimsGrows | internal/scheduler/plan.go:305-311 | One more claim counts exactly if the constraint accepts the name recorded under it |
| Resources.LoadIs | internal/scheduler/plan.go:238-255 | What one more job adds to each total of a node, now and of what is still held at an instant |
| Reservations.EarliestStart | internal/scheduler/plan.go:203-227 | The least instant from now on at which some eligible node is ready, or none if there is none |
| Reservations.NodeReservationTime | internal/scheduler/plan.go:236-272 | The sweep returns the least ready instant and fails only if there is none, for any order among equal ends, unless the totals already exceed the counters |
| Reservations.CounterStaysInRange | internal/scheduler/plan.go:263-266 | Giving an occupation back never takes a counter above the larger of capacity and total request, so no addition wraps |
| Reservations.ReservationTime | internal/scheduler/plan.go:203-227 | The minimum over the nodes is the declarative earliest start |
| Starts.SweepOverstates | internal/scheduler/plan.go:251-266 | For CPUs and memory the sweep reckons exactly the overcommit more than placement would find, or all that has ended if that is less |
| Starts.SweepUnderstatesDevices | internal/scheduler/plan.go:245-266 | For devices it never reckons more than placement would find |
| Starts.DevicesExactIff | internal/scheduler/plan.go:300-312 | It reckons devices exactly, for every type and from now on, if and only if the claims of the jobs expected to last are distinct devices of the inventory held by one job each |
| Starts.SweepExactIff | internal/scheduler/plan.go:236-272 | On an UP node with unique device keys the sweep agrees with placement, for every job the node could hold and every instant from now on, if and only if CPUs and memory are even and those claims are well-formed |
| Starts.NeverLateIff | internal/scheduler/plan.go:28-30 | The sweep denies nothing placement would accept if and only if those claims are well-formed |
| Starts.ReservationIsTrueStart | internal/scheduler/plan.go:203-227 | Where every node the job could be on is in that state, the reservation is the first instant at which placement accepts it somewhere |
| Starts.ReservationTooEarly | internal/scheduler/plan.go:251-270 | A node cut down to one CPU under two jobs: the blocked job's reservation is the end of the first, though it fits only from the end of the second |
| Starts.ReservationTooLate | internal/scheduler/plan.go:245-270 | A node that no longer lists a claimed device: the reservation is the end of the second job, though placement accepts the blocked job from the end of the first |
| Reservations.FoundIffLargeEnough | internal/scheduler/plan.go:206-226 | A reservation is found exactly when some UP node in the partition has the CPUs, the memory and, cut to 32 bits, the matching devices when empty |
| Reservations.ReadyIs | internal/scheduler/plan.go:251-266 | A node is ready when each request is met by its capacity, or by what it holds if that is more, less what is still held |
| Resources.EstEndIs | internal/scheduler/plan.go:275-288 | An unbounded job is estimated to end 3153600000000000000 ns from now; a bounded one by an instant exactly if that is not in the past and a walltime after its start, or after now without one |
| Orders.RankedByPriority | internal/scheduler/plan.go:39-46 | The queue is by priority plus, for a positive weight, the weight for each minute since a submit time in the past; equals by submit time with a missing time first |
| Orders.RankedWithoutAging | internal/scheduler/plan.go:112-120 | Without aging it is by priority, highest first, equals by submit time |
| Orders.StrLtIff | internal/scheduler/plan.go:37 | Names compare by the first character that differs, a proper prefix first |
| Orders.RankedPermutes | internal/scheduler/plan.go:39-46 | Sorting loses and invents no job |
| Orders.RankedIsStable | internal/scheduler/plan.go:40-46 | Jobs of equal rank keep the order they were listed in |
| Orders.AgingKeepsOrder | internal/scheduler/plan.go:112-120 | The relative order of two queued jobs is the same at every later pass |
| Orders.OvertakingIsBounded | internal/scheduler/plan.go:112-120 | A job is ahead of a later one in effective priority exactly when it came more than gap over weight minutes earlier |
| Orders.FleetSorted | internal/scheduler/plan.go:32-37 | The nodes considered are exactly the UP ones, strictly by name |
| Planning.Plan | internal/scheduler/plan.go:31-71 | The in-place pass decides exactly what the specification decides, whatever the map order and the order among equal ends |
| Planning.Turn | internal/scheduler/plan.go:53-69 | One turn of the loop: place, hold back under the reservation, or reserve |
| Planning.BackfillTestIsExact | internal/scheduler/plan.go:195-200 | For a given walltime the test is "ends by the reservation", for all instants and jobs, if and only if the walltime is at most 9223372036 seconds |
| Planning.WrappedWalltimeIsAllowed | internal/scheduler/plan.go:199 | A walltime passes the test for every reservation if and only if its duration wraps to zero or to the past |
| PlanProperties.PassIsSound | internal/scheduler/plan.go:53-62 | Every placement is on an UP node in its partition, within the CPUs and memory left, with exactly the requested number of free, matching, distinct inventory devices |
| PlanProperties.PlacementIs | internal/scheduler/plan.go:53-62 | The same field by field: each device of a placement is the kind and index of an inventory device whose name the job's constraint accepts, and nobody else's |
| PlanProperties.ChoiceIs | internal/scheduler/plan.go:123-138 | A job goes to the first UP node by name that makes it an offer, with what that node offers |
| PlanProperties.PlacedOnce | internal/scheduler/plan.go:53-62 | A pass decides no job twice |
| PlanProperties.DevicesAreExclusive | internal/scheduler/plan.go:100-108 | No placement gets a device of an active job or of another placement on the node |
| PlanProperties.CapacityBound | internal/scheduler/plan.go:158-162 | The requests placed on a node never exceed what the active jobs leave of it, nor anything if they overcommit it |
| PlanProperties.ClaimsStayWellFormed | internal/scheduler/plan.go:53-62 | A pass keeps claims distinct, in the inventory and disjoint from job to job |
| PlanProperties.PlacedFromQueue | internal/scheduler/plan.go:53-60 | Only jobs of the queue are placed, with what they asked for unchanged |
| PlanProperties.WorkConservation | internal/scheduler/plan.go:53-69 | A job passed over fits nowhere even beside the final placements, or a reservation held when it was reached forbids it |
| PlanProperties.ReservationHolder | internal/scheduler/plan.go:63-68 | The one reservation belongs to the first blocked job that some node could ever hold, and there is one if there is such a job |
| PlanOrder.OrderIndependence | internal/scheduler/plan.go:31-37 | Permuting the node list and the active list changes nothing in a pass |
| PlanOrder.LowerRankedCannotInterfere | internal/scheduler/plan.go:39-70 | Removing jobs a job outranks leaves every placement up to it identical, nodes and devices included |
| Backfilling.BackfilledEndInTime | internal/scheduler/plan.go:55-58 | Once a reservation is held it stays, and everything placed ends by it |
| Backfilling.BackfillNeverDelays | internal/scheduler/plan.go:28-30 | With well-formed lasting claims on the nodes that could hold the reserved job, the instants at which placement accepts it somewhere are the same with and without everything placed after it |
| Fillers.BackfillDelays | internal/scheduler/plan.go:53-69 | A concrete pass, over a claim of a device gone from the inventory, that backfills a job and so puts off the reserved one from the tenth to the fifteenth second |
| Fillers.LimitIsSafeIff | internal/scheduler/plan.go:195-200 | Adding any occupants that end by a limit changes nothing about when a demanding job can start if and only if it can start nowhere before the limit |
| Fillers.ReservationIsSafeIff | internal/scheduler/plan.go:53-69 | The reservation a pass holds is such a limit if and only if its job could not start before it beside the active jobs and the placements made first |
| Fillers.FitsIffChosen | internal/scheduler/plan.go:123-138 | Accepted somewhere once the occupants that end by an instant are gone means chosen by a pass that has only the others |
| Backfilling.NextRound | internal/scheduler/plan.go:195-288 | From one pass to the next the instant from which a node has room for the waiting head is put off by at most the start lag, the reservation stays within it or the pass time, and once it is past some node has room |
| Backfilling.ReservationNeverRecedes | internal/scheduler/plan.go:195-288 | Over any number of passes the head's reservation never moves past the pass time or the instant room was first seen to come, plus one start lag a pass |
| Backfilling.BoundedWait | internal/scheduler/plan.go:53-69 | The head of the queue is the first job placed no later than the first pass at or after that instant, one start lag a pass later, whatever is backfilled |
| Backfilling.RoomComesIffBesideUnbounded | internal/scheduler/plan.go:276-278 | There is such an instant for a node if and only if the job fits beside the node's unbounded jobs |
| Waits.ReservationStep | internal/scheduler/plan.go:195-288 | From one pass to the next the reservation moves past neither the pass time nor its old value by more than the start lag |
| Waits.PlacedByFirstReservation | internal/scheduler/plan.go:53-69 | If the first reservation is less than a century away or all active jobs are bounded, the head is placed no later than the first pass at or after it, one start lag a pass later |
| Waits.BoundedRounds | internal/scheduler/plan.go:53-69 | With passes further apart than jobs take to start, the number of passes the head waits is bounded |
| Waits.StuckForever | internal/scheduler/plan.go:275-278 | If no eligible node has room beside its unbounded jobs, then while they stay the head is blocked and its reservation 100 years ahead at every pass of every run |
| Waits.ShortJobsPassBehindUnbounded | internal/scheduler/plan.go:195-200 | Under such a reservation every job with a walltime of 1 to 3153600000 seconds may be backfilled |
| Waits.WaitIsBoundedIff | internal/scheduler/plan.go:53-69 | There is an instant by which every run has placed the head if and only if some eligible node has room for it beside its unbounded jobs |
| Stores.JobStore.CreateJob | internal/store/sqlite_jobs.go:83-102 | A new row as submitted, times cut to whole seconds, refused if the id exists; all other rows stay |
| Stores.StoredIs | internal/store/sqlite_jobs.go:69-81 | A stored time is the whole seconds of it, none before the first second of the epoch |
| Stores.JobStore.AssignJob | internal/store/sqlite_jobs.go:161-176 | Only a pending row is assigned, its request unchanged; otherwise an error and no change; all other rows stay |
| Stores.JobStore.MarkJobRunning | internal/store/sqlite_jobs.go:178-185 | Only an assigned row starts running, with its start time; its request and claim and all other rows stay |
| Stores.JobStore.FinishJob | internal/store/sqlite_jobs.go:187-194 | The row takes the label whatever its state was; its request and claim and all other rows stay |
| Stores.JobStore.CancelJob | internal/store/sqlite_jobs.go:196-229 | Pending rows are cancelled, assigned and running ones marked, others left, claims and all other rows unchanged; the new state is returned |
| Stores.JobStore.RegisterNode | internal/store/sqlite.go:59-91 | A known name keeps its id and takes the new columns; ids and names stay unique |
| Stores.JobStore.Heartbeat | internal/store/sqlite.go:93-110 | The node becomes UP with the reported resources, if it exists; its id, name and partition and all other nodes stay |
| Stores.JobStore.MarkStaleDown | internal/store/sqlite.go:178-185 | Exactly the nodes not heard from since the cutoff go down, nothing else changes, and their number is returned |
| Stores.JobStore.ListNodes | internal/store/sqlite.go:112-146 | Every node once, by name |
| Stores.JobStore.ListActiveJobs | internal/store/sqlite_jobs.go:153-155 | Every assigned or running row once |
| Stores.JobStore.ListPendingJobs | internal/store/sqlite_jobs.go:149-151 | Every pending row once, in queue order |
| Stores.JobStore.ListJobsByNodeState | internal/store/sqlite_jobs.go:157-159 | Every row of the node in that state once, by submit time and then id |
| Services.TablesAlways | internal/scheduler/scheduler.go:42-65 | Every state of every interleaving has the tables a pass requires: keyed, with exclusive devices and totals that fit the counters |
| Services.Scheduler.Pass | internal/scheduler/scheduler.go:42-65 | A pass without other writers turns every row the plan of what it read places from PENDING to ASSIGNED on the planned node with the planned devices, changes no other row, and leaves tables fit for the next pass |
| Services.AgentService.PollAssignments | internal/server/agentjobs.go:15-44 | A known node is told exactly its assigned rows to start and its cancelling rows to cancel, each once and by submit time; the two refusals |
| Services.EntriesAreListed | internal/server/agentjobs.go:27-42 | What the answer lists is what the agent's half takes a poll to read |
| Services.AgentService.UpdateJobStatus | internal/server/agentjobs.go:46-67 | RUNNING moves an assigned row only; the four terminal labels are written with exit code and reason whatever the row's state; anything else is refused and changes nothing |
| Protocol.OnlyCommitGrants | internal/store/sqlite_jobs.go:83-229 | No statement but the guarded assignment makes a row active or changes an active claim |
| Protocol.PlanIsCommittable | internal/scheduler/scheduler.go:42-65 | A plan made from stale lists gives each job devices that no active row and no other decision holds |
| Protocol.InvNext | internal/scheduler/scheduler.go:42-65 | Every step of every writer keeps the protocol invariant |
| Protocol.DevicesNeverShared | internal/store/sqlite_jobs.go:153-176 | In every state of every interleaving no two ASSIGNED or RUNNING rows on a node hold the same device, even when inventories change |
| ProtocolRuns.CapacityNeverExceeded | internal/store/sqlite_jobs.go:153-176 | In every run the requests of the rows listed as ASSIGNED or RUNNING on a node stay within the largest capacity it has had, hence within a fixed one |
| ProtocolRuns.PassesAreReadable | internal/scheduler/scheduler.go:43-58 | What a pass reads always has unique nodes and totals that fit the counters |
| ProtocolRuns.ListingLoad | internal/store/sqlite_jobs.go:153-155 | A list of the active rows accounts for exactly what the table says is held |
| ProtocolRuns.RowsNeverGoBack | internal/store/sqlite_jobs.go:161-229 | Over any run: which states a row can be in given where it was, that what was asked for never changes, and that node and devices never change once the row is not PENDING |
| ProtocolRuns.CancelledWhilePendingStaysSo | internal/store/sqlite_jobs.go:211-218 | A job cancelled while pending is never assigned, even if an older plan contains it |
| Executors.Classify | internal/agent/executor.go:179-198 | Exactly when a finished process is labelled cancelled, timed out or completed, and its exit code and reason |
| Executors.Executor.Start | internal/agent/executor.go:56-66 | A job already running is not started again |
| Executors.Executor.Cancel | internal/agent/executor.go:69-80 | Marks a running job as killed by the user, ignores others |
| Executors.Executor.HandlePoll | internal/agent/agent.go:115-122 | Afterwards the old runs and those of the answer are running; old ones keep their stage and timer, new ones are about to launch, and exactly those named in the cancels get the kill mark |
| Execution.RelaunchIffTerminal | internal/agent/executor.go:56-66 | Among the entries of a poll, one that is not running was launched before exactly when its row is terminal |
| Execution.InvNext | internal/agent/executor.go:82-152 | Every step of server, agents and processes keeps the invariant, stale starts excepted |
| Execution.AtMostOnce | internal/agent/executor.go:56-152 | Without stale starts every job's run and its command start at most once, only on its assigned node, with exactly one final report once it is over |
| Execution.OnceIffFresh | internal/agent/agent.go:98-125 | In a run the executor begins every job at most once if and only if none of its starts is stale |
| ExecutionRuns.StaleIffReported | internal/agent/agent.go:110-118 | The first start that can be stale is so exactly when the job is no longer known as running and made its final report since the poll read the assigned rows |
| ExecutionRuns.TimelyPollsAreFresh | internal/agent/agent.go:110-118 | If no job is started from a poll read before that job's final report, no start is stale, whatever else comes between |
| ExecutionRuns.LabelAtRiskIffStale | internal/server/agentjobs.go:56-60 | Events of the run a start begins can overwrite a terminal label if and only if the start is stale |
| ExecutionRuns.CommandRepeatsIffStale | internal/agent/executor.go:82-128 | They can start the job's command a second time if and only if the start is stale and the first run started it |
| ExecutionRuns.StalePollStartsTwice | internal/agent/agent.go:110-118 | A concrete run in which a poll answer handled after the job completed starts its command again, and the label becomes FAILED |
| Execution.ReportsAre | internal/server/agentjobs.go:46-67 | What each report writes, column by column |
| ExecutionRuns.EntriesMakeThePoll | internal/agent/agent.go:115-122 | Started and cancelled entry by entry without interruption, an answer leaves the agent as one turn of the poll loop does |
| Execution.TerminalIsFinal | internal/server/agentjobs.go:56-60 | Although the final report is unguarded, a terminal label never changes in a run without stale starts |
| Execution.LabelsAreDeserved | internal/agent/executor.go:188-192 | Without stale starts a run ends CANCELLED only if its row was being cancelled, and TIMEOUT only if the job has a walltime |
| Execution.LabelIs | internal/agent/executor.go:130-152 | In any run: CANCELLED exactly if a cancel of the job was handled while it ran, TIMEOUT exactly if its timer went off and none was, COMPLETED exactly after a clean exit with neither; a failed wait is FAILED |
| ExecutionRuns.StrandedForever | internal/store/sqlite_jobs.go:219-224 | A row cancelled after assignment and before any poll listed it stays CANCELLING in every continuation |
| ExecutionRuns.StrandedIsReachable | internal/store/sqlite_jobs.go:219-224 | A concrete run that gets there: submit, assign, cancel |
| ExecutionRuns.CancelCompletesIffNotStranded | internal/agent/executor.go:69-80 | After any run without stale starts, a CANCELLING row can still end if and only if its job is running or listed in a poll that is to start it |
| Isolation.InvNext | internal/scheduler/scheduler.go:42-65 | Scheduler, tables, agents and processes together keep both halves' invariants at every step |
| Isolation.SharedOnlyWhileCancelling | internal/store/sqlite_jobs.go:153-155 | In every run of everything together, two live runs on a node hold the same device only if one of their rows is CANCELLING |
| Isolation.DeviceHandedOnTooEarly | internal/store/sqlite_jobs.go:153-155 | A concrete run in which they do |
| Handovers.HandedOnIffCancelling | internal/scheduler/plan.go:100-108 | Between passes, for a live run holding a device its UP node lists: some submissions make the next pass plan a job on that device if and only if the run's row is CANCELLING and no active row has the device already |
| Handovers.EnoughSeekers | internal/scheduler/plan.go:123-138 | Enough copies of a job for all the free devices of a node fill the nodes before it and reach it |
| Cooldowns.FiredIff | internal/notify/engine.go:79-92 | An attempt passes exactly when none passed before it since the last reset, or the last one was recorded at least the cooldown ago |
| Cooldowns.FiringsApart | internal/server/diagnose.go:61-71 | Two diagnoses with no reset between them are at least a cooldown apart |
| Cooldowns.RateLimit | internal/notify/engine.go:79-92 | In any window of a given span the number of attempts that pass is at most one plus span over cooldown |
| Engines.Engine.Allow | internal/notify/engine.go:79-92 | An attempt passes exactly if there is no cooldown, the key has no mark, or the mark is old enough; passing sets the mark; the table agrees with the history of attempts |
| Diagnosers.Diagnoser.Check | internal/server/diagnose.go:50-76 | With distinct nodes, exactly the managed, undrained ones silent for long enough and not diagnosed within the cooldown are diagnosed; the table agrees with the history of attempts and resets |
| Detectors.IdleMatchesHistory | internal/notify/detector.go:104-115 | An event is due exactly when the latest unbroken run of low readings began at an earlier reading at least the duration ago |
| Detectors.Detector.CheckDevices | internal/notify/detector.go:98-136 | In a scan that reads every device once, exactly the low readings of devices low for long enough raise events, each saying who holds the device |
| Detectors.DeviceKeyIs | internal/notify/detector.go:103 | A device is known by node name, kind and index in decimal |
| Detectors.AllocationOf | internal/notify/detector.go:139-151 | Whether an active job holds the device, and the owner of the first that does |

## Left out

- Handlers, generated protocol code, JSON columns, metrics export, the web interface and the command line: plumbing and display.
- Device names: a gpu_type constraint is known by the set of names it accepts; case folding and substring search are not modelled.
- Floating-point rounding of effective priorities, and the saturation of a time difference beyond 292 years.
- Processes, signals, pipes and logs: only start, expiry, exit, the kill mark and reports remain; that a kill ends the process is not modelled.
- Lost reports and restarting agents: a report whose call fails is only logged by the agent, so a run with lost reports is outside the execution results.
- Stores.JobStore.RegisterNode: an id that is already in the table is refused in every case; ids are random and fresh, so the source never gets there.
- Reservations.NodeReservationTime: nothing is stated when the totals held on a node exceed the width of a counter; no run of the protocol reaches that.
- Backfilling.BoundedWait: passes are assumed to run one after another on fixed nodes; jobs submitted in between may only rank below the head.
- Isolation.SharedOnlyWhileCancelling: a run counts as live until its final report, which comes after its process was waited for; what a process does with the devices it sees is not modelled.
- Disk alerts, node-down events, recipient resolution, rule matching, delivery and retries: easy and independent of the results above.
- SSH tunnels, provisioning and the remote probe: network calls; the diagnoser keeps only its decision to trigger.
- Preemption, fair share, HELD jobs and best-fit packing are described in the documents and not in the code.
