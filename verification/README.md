# Block layer and task exit, verified

A Dafny model of the parts of the Linux 6.6 block layer and process life cycle whose correctness
rests on an invariant, and proofs that the code keeps it. `dafny verify dfyconfig.toml` checks
everything.

- `Basics`: optional values and integers of fixed width, which the others share.
- `FinishTree`, `ActiveTree`, `SchedulerQueues`, `SchedulerSteps`, `FlatScheduler`: the B-WF2Q+ scheduler of
  BFQ over one level of queues. `FinishTree` has the service trees as values; `ActiveTree` has the pointer
  tree with its cached `min_start`, proved against it. `SchedulerQueues` has the queues and their timestamps,
  `SchedulerSteps` what a run makes a queue pay and which queue is next, and `FlatScheduler` the whole
  scheduler and all its runs.
- `Budget`, `PeakRate`: the budgets that BFQ hands out, and its estimate of the device's peak rate.
- `BadBlockRanges`, `BadBlockMerge`, `BadBlockAcks`, `BadBlockRuns`, `BadBlocks`: the bad-block table. The
  first four have tables as values and what the operations mean, one and many; the last has the page
  that is edited in place.
- `DiskClaims`: exclusive claims on a disk and its partitions.
- `BioSubmit`, `BioChain`, `ChainedBios`: stacked submission and chained completion of bios.
- `WalkTree`, `ExitReap`: the walk over a process tree; exit, wait and release of tasks.

Where the code does less than its own description says, the code is modelled as it is. A lemma gives
an input on which the description fails, and another says exactly when it holds:

- `bfq_first_active_entity` does not always return the eligible entity with the smallest finish time
  (`SearchMissesEarlierFinish`; exactly when it does: `SearchMinimal`).
- The queue that is taken into service is not always eligible (`ServedEarly`); it is exactly when some
  waiting queue of its class is (`NextEligible`, `GetNextQueue`).
- `last_idle` may become NULL although idle entities are left (`LastIdleLost`, `LastIdleExact`).
- `badblocks_clear` spoils the order of the table when the rounded window ends before it starts, inside
  a range (`ClearSpoilsOrder`, `ClearOrderIff`).
- `badblocks_set` loses blocks when the new range covers later ones, and stores several new ranges in
  reverse order (`SetLosesBlocks`, `SetSpoilsOrder`, `SetIff`). It may acknowledge blocks that nobody
  acknowledged (`SpillHappens`, `UnackedKept`, `FlagAfter`).
- A maximum budget above INT_MAX / 4 lets the budget of a queue become negative: on an expiration
  (`AboveLimitOverdraws`, for every larger maximum `LimitIsLargest`) and, from 2^30 on but for INT_MAX,
  at once (`CreatedNegative`). Exactly when is said for each of the places where a bound or a budget is set
  (`InitialBoundSign`, `ActivatedSign`, `FollowedSign`, `RecalculatedSign`) and over all runs
  (`Budgets.Run`).

Clocks, heuristics and the answers of drivers, visitors and signal handlers are parameters of the
steps, so the results hold for all of them. A section under a lock is one step. Where the source drops
a lock in the middle of an operation, the operation is two steps with anything in between.

## Model

| member | source | states |
|---|---|---|
| FinishTree.InsertInOrder | linux-6.6/block/bfq-wf2q.c:379-399 | inserting in the tree is inserting in the list of its items in order, behind equal finish times |
| FinishTree.RemoveInOrder | linux-6.6/block/bfq-wf2q.c:338-342 | erasing takes exactly that entity out of the list and keeps the order of the others |
| FinishTree.EditsKeepOrder | linux-6.6/block/bfq-wf2q.c:338-399 | both edits keep finish times non-decreasing from left to right |
| FinishTree.MinStartExact | linux-6.6/block/bfq-wf2q.c:411-437 | the minimum start of a subtree is at most vtime if and only if the subtree has an eligible entity |
| FinishTree.JumpIsEarliest | linux-6.6/block/bfq-wf2q.c:1266-1274 | the vtime jump is the earliest time, from vtime on, at which some entity is eligible |
| FinishTree.SearchFindsEligible | linux-6.6/block/bfq-wf2q.c:1296-1322 | if some entity is eligible the search returns a member of the tree that is eligible |
| FinishTree.SearchExact | linux-6.6/block/bfq-wf2q.c:1296-1322 | the search returns the leftmost eligible entity if and only if the node on which it stops is itself eligible |
| FinishTree.SearchMinimal | linux-6.6/block/bfq-wf2q.c:1284-1322 | the result has the smallest finish time among eligible entities if and only if the search stops on an eligible node or nothing eligible right below that node finishes earlier; in particular if no ineligible entity finishes before an eligible one |
| FinishTree.SearchMissesEarlierFinish | linux-6.6/block/bfq-wf2q.c:1284-1322 | three insertions of entities that finish after they start, after which the search returns an eligible entity although another one finishes earlier |
| FinishTree.WrapGtExact | linux-6.6/block/bfq-wf2q.c:18-21 | the wrapping 64-bit comparison agrees with the order of unbounded timestamps when they are less than 2^63 apart |
| ActiveTree.RefreshedExact | linux-6.6/block/bfq-wf2q.c:411-437 | recomputing a node from its children gives the exact minimum of its subtree |
| ActiveTree.DeepestSpot | linux-6.6/block/bfq-wf2q.c:544-563 | the chosen node lies in the tree left by the removal, and every subtree off its way to the root is unchanged |
| ActiveTree.ActiveTree.UpdateTree | linux-6.6/block/bfq-wf2q.c:449-467 | walking up from a node and refreshing each node and its sibling repairs every cached minimum, and changes no link |
| ActiveTree.ActiveTree.Insert | linux-6.6/block/bfq-wf2q.c:480-499 | the pointer tree becomes the insertion into the old tree, every cached minimum exact |
| ActiveTree.ActiveTree.FindDeepest | linux-6.6/block/bfq-wf2q.c:544-563 | returns the root of the deepest subtree that the coming removal changes |
| ActiveTree.ActiveTree.Extract | linux-6.6/block/bfq-wf2q.c:570-585 | the pointer tree becomes the old tree without the entity, every cached minimum exact |
| ActiveTree.ActiveTree.FirstActive | linux-6.6/block/bfq-wf2q.c:1296-1322 | the search on the pointers with the cached minima is the search on the tree |
| ActiveTree.ActiveTree.LookupNext | linux-6.6/block/bfq-wf2q.c:1348-1379 | on a non-empty tree, a member eligible at the jumped vtime |
| SchedulerQueues.TreesReweighted | linux-6.6/block/bfq-wf2q.c:700-775 | moving a weight between classes keeps every wsum equal to the sum of the weights of its class |
| SchedulerQueues.LastIdleExact | linux-6.6/block/bfq-wf2q.c:349-369 | extracting last_idle leaves an idle entity with the largest finish time if and only if it was alone, rightmost, or tied with its left neighbour |
| SchedulerQueues.LastIdleLost | linux-6.6/block/bfq-wf2q.c:349-369 | two idle entities with equal finish times after which last_idle is NULL with one still idle |
| SchedulerQueues.LastIdleInserted | linux-6.6/block/bfq-wf2q.c:592-609 | an insertion always leaves last_idle an idle entity with the largest finish time |
| SchedulerQueues.OneTree | linux-6.6/block/bfq-wf2q.c:927-1070 | in every valid state an entity is on at most one of the six trees |
| SchedulerQueues.FlagExact | linux-6.6/block/bfq-wf2q.c:524-533 | on_st_or_in_serv holds exactly for entities on a tree or in service, and exactly those hold the service reference |
| SchedulerQueues.DeltaPaid | linux-6.6/block/bfq-wf2q.c:286-289 | the advance of virtual time times the weight is the service times 2^22, less than one weight short |
| SchedulerQueues.RequeuedPays | linux-6.6/block/bfq-wf2q.c:986-1050 | a served queue that is put back has paid in this way for its service by the advance of its start, whatever weight it gets next; in another class it starts at the virtual time there |
| SchedulerQueues.EnteringTimes | linux-6.6/block/bfq-wf2q.c:902-969 | where a queue that comes back starts: at vtime, not before its last finish time if it was idle, from there pushed up by the distance to vtime over wr_coeff if it was waited for, and at vtime in another class |
| SchedulerQueues.DepartedMeans | linux-6.6/block/bfq-wf2q.c:1108-1152 | a queue that stops being scheduled is idle exactly if it may be and finishes after vtime once it has paid; otherwise on no tree, and freed exactly with its last reference |
| SchedulerQueues.FellBackMeans | linux-6.6/block/bfq-wf2q.c:656-668 | vtime becomes the smaller of itself and the finish time of last_idle while no queue waits, and stays otherwise |
| SchedulerQueues.FirstForgottenMeans | linux-6.6/block/bfq-wf2q.c:669-672 | the first idle queue, if finished by vtime, loses the service reference, and is gone exactly if that was its last; no other queue changes |
| SchedulerSteps.ServicePaid | linux-6.6/block/bfq-wf2q.c:787-1050 | over any stretch of a run in which a queue stays busy at one weight and class, weight times the advance of its start is the service charged, but for that of its present round, times 2^22, short by less than one weight for each expiration |
| FlatScheduler.Scheduler.Forget | linux-6.6/block/bfq-wf2q.c:625-635 | the weight leaves wsum and the service reference is dropped unless the entity is in service |
| FlatScheduler.Scheduler.PutIdle | linux-6.6/block/bfq-wf2q.c:642-647 | an idle entity leaves its tree and is forgotten; no other queue changes |
| FlatScheduler.Scheduler.ForgetIdle | linux-6.6/block/bfq-wf2q.c:656-672 | vtime falls back to the last idle finish time exactly when the active tree is empty, and the first idle entity, and no other queue, goes exactly when it finished by then |
| FlatScheduler.Scheduler.UpdateWeightPrio | linux-6.6/block/bfq-wf2q.c:700-775 | weight and class change together with both weight sums; the new weight is the base weight times wr_coeff |
| FlatScheduler.Scheduler.Enqueue | linux-6.6/block/bfq-wf2q.c:855-913 | the queue is on the active tree of its new class, with a stretch of virtual time of budget over weight, pushed up when back-shifted behind vtime |
| SchedulerQueues.StampedBounds | linux-6.6/block/bfq-wf2q.c:902-910 | pushing timestamps up never goes beyond vtime, and reaches it unless the weight is raised |
| FlatScheduler.Scheduler.ActivateEntity | linux-6.6/block/bfq-wf2q.c:927-969 | from idle or unknown to the active tree, starting as EnteringTimes says; reference and weight taken only once |
| FlatScheduler.Scheduler.RequeueEntity | linux-6.6/block/bfq-wf2q.c:986-1050 | back to the active tree; the start of a served queue moves by its service over the weight it was served with, less than one weight short, a waiting one keeps its start |
| FlatScheduler.Scheduler.ActivateRequeue | linux-6.6/block/bfq-wf2q.c:1052-1096 | either of the two, after which next_in_service is right, its class included |
| FlatScheduler.Scheduler.DeactivateEntity | linux-6.6/block/bfq-wf2q.c:1108-1152 | it finishes where its service takes it; idle exactly if asked for and that is after vtime, forgotten otherwise; no other queue changes |
| FlatScheduler.Scheduler.LookupClass | linux-6.6/block/bfq-wf2q.c:1348-1379 | a class with a non-empty active tree yields what the search finds at the jumped vtime, to which vtime moves unless a queue is in service; an empty class changes nothing |
| FlatScheduler.Scheduler.Lookup | linux-6.6/block/bfq-wf2q.c:1390-1442 | a queue if and only if some active tree is not empty: of the idle class on its turn, else of the first class that has one; eligible unless another queue is in service |
| FlatScheduler.Scheduler.OvertakesIff | linux-6.6/block/bfq-wf2q.c:74-141 | with no next_in_service a moved queue takes over; otherwise exactly if it is in the same class, eligible and finishes earlier |
| FlatScheduler.Scheduler.UpdateNext | linux-6.6/block/bfq-wf2q.c:74-141 | a moved queue takes over without a lookup exactly if none was set, or it is in the same class, eligible and finishes earlier; otherwise the lookup decides, which changes nothing else while a queue is in service. next_in_service is NULL exactly when all active trees are empty, no class before its own has a waiting queue unless the idle class had its turn, and it is eligible as soon as any queue of its class is |
| FlatScheduler.Scheduler.NextExists | linux-6.6/block/bfq-wf2q.c:1454-1544 | when a queue is busy and none is served, next_in_service is set |
| SchedulerSteps.NextEligible | linux-6.6/block/bfq-wf2q.c:1359-1376 | in every valid state next_in_service is eligible if and only if some waiting queue of its class is |
| FlatScheduler.ServedEarly | linux-6.6/block/bfq-wf2q.c:1363-1372 | a run after which the queue in service starts after the virtual time of its class |
| FlatScheduler.Scheduler.GetNextQueue | linux-6.6/block/bfq-wf2q.c:1454-1544 | with none in service, returns the cached queue as soon as the 32-bit count of busy queues is not zero; no more urgent class had a waiting queue unless the idle class had its turn; the queue is eligible if and only if some waiting queue of its class is; no other queue and no virtual time changes |
| FlatScheduler.Scheduler.ResetInService | linux-6.6/block/bfq-wf2q.c:1547-1585 | the service reference of a queue forgotten in service is dropped here, once, and nothing else changes |
| FlatScheduler.Scheduler.DelBusy | linux-6.6/block/bfq-wf2q.c:1644-1669 | the queue is not busy; it waits on the idle tree if its finish time is after vtime and is forgotten otherwise; next_in_service is looked up again exactly if it was this queue |
| FlatScheduler.Scheduler.AddBusy | linux-6.6/block/bfq-wf2q.c:1674-1701 | the queue is busy and on the active tree with the timestamps of an activation; of the other queues at most idle ones are forgotten, and none if no lookup moves a virtual time |
| FlatScheduler.Scheduler.Reposition | linux-6.6/block/bfq-wf2q.c:1604-1611 | a waiting queue is on the active tree with the timestamps of its new budget; of the other queues at most idle ones are forgotten |
| FlatScheduler.Scheduler.Expire | linux-6.6/block/bfq-iosched.c:3892-3949 | nothing is in service; a queue with requests is requeued, pays for its service by the advance of its start and begins again with no service; another is idle if its finish time is after vtime, and otherwise is freed exactly if nothing else refers to it; it keeps its service exactly if it is waited for |
| FlatScheduler.Scheduler.WsumCovers | linux-6.6/block/bfq-wf2q.c:787-808 | the weight sum that divides a charge is at least the weight of the charged queue, so never zero |
| FlatScheduler.Scheduler.Served | linux-6.6/block/bfq-wf2q.c:787-808 | service grows by the charge, and vtime times the weight sum by the charge times 2^22, less than one weight sum short; vtime falls back on an empty active tree, and the first idle queue is forgotten if it finished by then |
| FlatScheduler.Scheduler.PutRef | linux-6.6/block/bfq-wf2q.c:625-635 | a queue is freed exactly when its last reference goes, and is then on no tree, not served and not busy |
| FlatScheduler.Scheduler.Run | linux-6.6/block/bfq-wf2q.c:1454-1701 | every run keeps all of this: one tree each, exact flags, references, weight sums, next_in_service with its class and eligibility, and busy count; while the idle class gets no turn, no class before that of next_in_service has a waiting queue; and the states between the operations are such a run as ServicePaid speaks of |
| Budget.FitsMeans | linux-6.6/block/bfq-iosched.c:4845-4847 | the unsigned comparison with the budget left never sees a negative number and means what it says |
| Budget.ChargeIsCost | linux-6.6/block/bfq-iosched.c:1043-1051 | a request costs its sectors, and three times as many if it is asynchronous, not weight-raised, and the scenario is symmetric |
| Budget.ActivatedOk | linux-6.6/block/bfq-iosched.c:1584-1642 | the rest of the old budget if the request came in time, otherwise enough for the next request; no service spent; under any ceiling up to INT_MAX |
| Budget.FollowedOk | linux-6.6/block/bfq-iosched.c:1064-1091 | the budget of a queue out of service is the largest of its bound, its next request and its service |
| Budget.InitialBoundSign | linux-6.6/block/bfq-iosched.c:5635 | the bound of a new queue is two thirds of a maximum below 2^30, and is not negative if and only if the maximum is below 2^30 or is INT_MAX |
| Budget.ActivatedSign | linux-6.6/block/bfq-iosched.c:1584-1642 | the budget of an activation is not negative if and only if the bound is not, or the rest of the old budget is used |
| Budget.FollowedSign | linux-6.6/block/bfq-iosched.c:1064-1091 | the budget that follows a next request is not negative if and only if bound and service are not |
| Budget.CreatedNegative | linux-6.6/block/bfq-iosched.c:5635 | under a maximum of 2^30 the first budget of a new queue is negative and every request seems to fit |
| Budget.ChargedTimeOk | linux-6.6/block/bfq-wf2q.c:837-853 | charging time raises the service to the share of the maximum, and the budget no less |
| Budget.AdaptedDirection | linux-6.6/block/bfq-iosched.c:3986-4081 | after timeouts, exhaustion and outstanding requests the bound falls at most to the current maximum; idleness may lower it, but not below the minimum; without requests it is the service received, or the minimum |
| Budget.RecalculatedOk | linux-6.6/block/bfq-iosched.c:3960-4119 | for every ceiling: if the bound does not overflow it stays in range and a backlogged queue gets enough for its next request; if it does the bound is negative; an empty queue keeps its budget |
| Budget.RecalculatedIdeal | linux-6.6/block/bfq-iosched.c:3960-4114 | in plain integers: the bound is the maximum for an asynchronous queue, twice the minimum for a weight-raised one, and otherwise, under the limit, what the reason for the expiration says, capped by the maximum once the statistics are in use; the budget is the larger of it and the cost of the next request |
| Budget.RecalculatedSign | linux-6.6/block/bfq-iosched.c:3960-4114 | for any values of 32 bits, the new budget is not negative if and only if the bound can be doubled, or quadrupled, modulo 2^32 as the reason for the expiration requires; a preempted queue keeps its budget |
| Budget.AboveLimitOverdraws | linux-6.6/block/bfq-iosched.c:4045-4114 | with a larger maximum, an exhausted queue gets a negative budget and every request seems to fit |
| Budget.LimitIsLargest | linux-6.6/block/bfq-iosched.c:3960-4114 | INT_MAX / 4 is the largest safe maximum: with any larger one, a timeout and an exhaustion make the budget of a regular queue negative |
| Budget.Expired | linux-6.6/block/bfq-iosched.c:4337-4434 | an empty queue keeps service and budget for its return, any other starts from zero; bound and budget are those of RecalculatedIdeal for the service charged; no overdraft if the bound does not overflow, a negative bound if it does |
| Budget.Extended | linux-6.6/block/bfq-iosched.c:2296-2328 | an arrival resets the service of an idle queue and gives it the rest of its old budget or enough for the request, cut to twice the minimum when weight raising starts; it never changes the budget of the queue in service |
| Budget.Budgets.Create | linux-6.6/block/bfq-iosched.c:5611-5637 | a new queue is empty, with a bound of 10922 sectors before the statistics are in use and of two thirds of the maximum from then on |
| Budget.Budgets.SetInService | linux-6.6/block/bfq-iosched.c:3303-3309 | the queue is in service, and the count of assigned budgets moves one part in eight of its way to 256 |
| Budget.Budgets.SetMaxBudget | linux-6.6/block/bfq-iosched.c:7486-7509 | the maximum is the new one, and nothing else changes |
| Budget.Budgets.AddRequest | linux-6.6/block/bfq-iosched.c:2296-2328 | the same on the set of queues, with the minimum written out; every queue stays free of overdraft |
| Budget.Budgets.RemoveRequest | linux-6.6/block/bfq-iosched.c:2380-2425 | a queue that runs empty out of service loses budget and service; one that does not gets a budget for its next request; the queue in service keeps both |
| Budget.Budgets.Dispatch | linux-6.6/block/bfq-iosched.c:5103-5145 | dispatching or injecting a request that fits charges what it costs and overdraws nothing; a queue out of service then gets a budget for its next request, or loses both when it runs empty |
| Budget.Budgets.CheckServing | linux-6.6/block/bfq-iosched.c:4836-4880 | the queue in service goes on if and only if its next request fits in its budget, otherwise it expires, in order if and only if its bound does not overflow |
| Budget.Budgets.Expire | linux-6.6/block/bfq-iosched.c:4337-4455 | no queue is in service, only the expired one changed, and it is in order if and only if its bound does not overflow |
| Budget.Budgets.Run | linux-6.6/block/bfq-iosched.c:4801-5145 | under any ceiling of the maxima, a run has 0 <= service <= budget for every queue as long as each step is safe, and the first step that is not makes a bound negative; with maxima up to INT_MAX / 4 every step is safe |
| PeakRate.DivisorRange | linux-6.6/block/bfq-iosched.c:3517-3531 | with fewer sequential samples than samples, the first weight is at most 8 and the divisor is 2 to 10 |
| PeakRate.WeightMeans | linux-6.6/block/bfq-iosched.c:3517-3525 | the weight is nine times the sequential share, rounded down, times the seconds of the interval, but at most 8 |
| PeakRate.SmoothedBetween | linux-6.6/block/bfq-iosched.c:3533-3551 | the new estimate lies between the smaller less one and the larger of old estimate and rate, is at least 1, and closes its part of the gap but for rounding |
| PeakRate.NextPeakOk | linux-6.6/block/bfq-iosched.c:3450-3553 | an observation leaves the estimate in 1..20<<16, and moves it only between its old value and the rate measured from its sectors and interval |
| PeakRate.NextPeakIff | linux-6.6/block/bfq-iosched.c:3462-3551 | the estimate moves exactly if there are 32 samples over 0.3 seconds and the rate is at most 20 sectors per microsecond, and above the estimate or three in four samples were sequential; it then closes at least one part in ten of the gap, but for rounding |
| PeakRate.RateMeans | linux-6.6/block/bfq-iosched.c:3478-3480 | the rate is the sectors over the microseconds of the interval, with 16 fractional bits, rounded down |
| PeakRate.IntervalMeans | linux-6.6/block/bfq-iosched.c:3470-3475 | the interval ends with the later of the last dispatch and the last completion |
| PeakRate.SequentialIff | linux-6.6/block/bfq-iosched.c:3431-3624 | which dispatches are sequential, and that the first of an observation is not counted as one |
| PeakRate.SampledMeans | linux-6.6/block/bfq-iosched.c:3618-3635 | what a further sample adds to each field, with the largest request taken afresh every 32 samples |
| PeakRate.ClosesIff | linux-6.6/block/bfq-iosched.c:3613-3642 | an observation is closed by a dispatch after 0.1 idle seconds or one second after the first, and by a late completion, and by nothing else |
| PeakRate.AfterOk | linux-6.6/block/bfq-iosched.c:3591-3648 | every dispatch or completion keeps all fields in order, and moves the estimate only between its old value and the rate which that event measures |
| PeakRate.Estimator.UpdateRateReset | linux-6.6/block/bfq-iosched.c:3450-3557 | the fields become those of a closed observation, with no overflow of 32 bits and no zero divisor, and the estimate stays between its old value and the measured rate |
| PeakRate.Estimator.UpdatePeakRate | linux-6.6/block/bfq-iosched.c:3591-3648 | when a dispatch starts, extends or closes an observation, what it does to all fields, and the bound on the step of the estimate |
| PeakRate.Estimator.Completed | linux-6.6/block/bfq-iosched.c:6382-6403 | a late completion, and no other, closes the observation, with the same bound |
| PeakRate.Estimator.constructor | linux-6.6/block/bfq-iosched.c:7325-7327 | the estimate starts at two thirds of the reference rate |
| PeakRate.Estimator.Run | linux-6.6/block/bfq-iosched.c:3591-3648 | in every run the estimate stays in range, sequential samples stay below samples, and each step of the estimate is between its old value and the rate measured in that step |
| BadBlockRanges.OuterBlocks | linux-6.6/block/badblocks.c:174-182 | rounding outwards selects exactly the blocks that hold some requested sector |
| BadBlockRanges.InnerBlocks | linux-6.6/block/badblocks.c:337-347 | every sector of a block in the inward window was requested, so no other sector is cleared |
| BadBlockRanges.InnerWindow | linux-6.6/block/badblocks.c:337-347 | the inward window is at most one block short of empty |
| BadBlockRanges.ClearExact | linux-6.6/block/badblocks.c:330-421 | clearing removes exactly the window from the set of bad blocks and keeps the acknowledgement of the rest |
| BadBlockRanges.ClearWellFormed | linux-6.6/block/badblocks.c:330-421 | order, disjointness and lengths of 1 to 512 survive clearing a window that is not negative |
| BadBlockRanges.ClearShortWindow | linux-6.6/block/badblocks.c:330-421 | with a window one short of empty the table is spoilt if and only if some range straddles its end, and unchanged otherwise |
| BadBlockRanges.ClearOrderIff | linux-6.6/block/badblocks.c:330-421 | on every request the cleared table is in order if and only if the rounded window is not negative or no range straddles its end |
| BadBlockRanges.ClearSpoilsOrder | linux-6.6/block/badblocks.c:337-421 | a request of six sectors, with eight to a block, that leaves two overlapping ranges |
| BadBlocks.BadBlockTable.Check | linux-6.6/block/badblocks.c:53-124 | binary search and backward walk answer 0, 1 or -1 exactly as a full scan would, and report the lowest overlapping range |
| BadBlocks.BadBlockTable.UpdateAcked | linux-6.6/block/badblocks.c:127-145 | unacked_exist is dropped exactly when no range is unacknowledged |
| BadBlocks.BadBlockTable.AckAll | linux-6.6/block/badblocks.c:431-453 | every range is acknowledged, unless the table has changed or nothing was unacknowledged |
| BadBlocks.BadBlockTable.Clear | linux-6.6/block/badblocks.c:330-421 | the page becomes the cleared table, or -ENOSPC and no change exactly when the table is full and a range must be split |
| BadBlocks.BadBlockTable.Set | linux-6.6/block/badblocks.c:162-313 | the page and the return value are those of SetRange on the rounded range; disabled tables are left alone |
| BadBlocks.BadBlockTable.FindPlace | linux-6.6/block/badblocks.c:186-200 | the search ends behind the last range that starts at or before the new one |
| BadBlocks.BadBlockTable.MergeWithPrevious | linux-6.6/block/badblocks.c:202-233 | the page and the rest of the request after the first phase |
| BadBlocks.BadBlockTable.MergeWithNext | linux-6.6/block/badblocks.c:234-263 | the page and the rest of the request after the second phase |
| BadBlocks.BadBlockTable.CombineNeighbours | linux-6.6/block/badblocks.c:264-281 | the page after the third phase |
| BadBlocks.BadBlockTable.FillIn | linux-6.6/block/badblocks.c:282-303 | the page and the return value after the rest was inserted |
| BadBlockMerge.AfterMerging | linux-6.6/block/badblocks.c:202-263 | after the merging phases, table and rest of the request together stand for old blocks and new ones |
| BadBlockMerge.SetIff | linux-6.6/block/badblocks.c:162-313 | badblocks_set succeeds and leaves an ordered table of exactly the old and the new blocks if and only if Unites holds of table and request |
| BadBlockMerge.SimpleUnites | linux-6.6/block/badblocks.c:162-313 | Unites holds for at most 512 blocks that overlap no range starting after them, if a slot is free |
| BadBlockMerge.SetLosesBlocks | linux-6.6/block/badblocks.c:264-281 | a request that covers two later ranges loses blocks |
| BadBlockMerge.SetSpoilsOrder | linux-6.6/block/badblocks.c:282-303 | a request that needs two new ranges stores them in reverse order |
| BadBlockAcks.NeverAcknowledges | linux-6.6/block/badblocks.c:202-303 | an unacknowledged request acknowledges nothing: every acknowledged range is an old one |
| BadBlockAcks.FlagAfter | linux-6.6/block/badblocks.c:202-303 | which blocks are acknowledged after a request that unites, inside the request and outside it |
| BadBlockAcks.MarkedAgain | linux-6.6/block/badblocks.c:202-281 | marking a range again as acknowledged acknowledges every block of it, exactly unless the range is combined with an unacknowledged one right behind it |
| BadBlockAcks.MarkedOver | linux-6.6/block/badblocks.c:234-263 | an acknowledged request that covers the next range and touches no other acknowledges all its blocks |
| BadBlockAcks.UnackedKept | linux-6.6/block/badblocks.c:202-303 | an unacknowledged block outside the request stays unacknowledged, unless the request is acknowledged and the block spills into a new range |
| BadBlockAcks.SpillHappens | linux-6.6/block/badblocks.c:234-303 | a request for two blocks that acknowledges two others |
| BadBlockRuns.SetAllAcked | linux-6.6/block/badblocks.c:202-303 | an acknowledged request on a table without unacknowledged ranges leaves none |
| BadBlockRuns.AppliedOk | linux-6.6/block/badblocks.c:162-453 | under its condition every operation keeps the table in order, and unacked_exist set while a range is not acknowledged |
| BadBlockRuns.AppliedMeans | linux-6.6/block/badblocks.c:162-453 | and does to each block, and to its flag, what it does to a plain set of blocks with flags |
| BadBlocks.BadBlockTable.Run | linux-6.6/block/badblocks.c:162-453 | after any run whose operations meet their conditions the page stands for the set of blocks that the operations leave, each step with the flags of AppliedMeans |
| DiskClaims.MayClaimExact | linux-6.6/block/bdev.c:458-485 | the test on the holder fields succeeds exactly when no outstanding claim excludes the new one |
| DiskClaims.HoldersAddUp | linux-6.6/block/bdev.c:552-572 | the whole disk counts all claims on partitions and its own twice |
| DiskClaims.NeverBoth | linux-6.6/block/bdev.c:458-485 | a whole-disk holder and a partition holder never coexist |
| DiskClaims.ConsistentExclusive | linux-6.6/block/bdev.c:458-485 | no two outstanding claims exclude each other |
| DiskClaims.Disk.PrepareToClaim | linux-6.6/block/bdev.c:500-531 | -EINVAL, -EBUSY, wait or success exactly as the list of claims demands |
| DiskClaims.Disk.FinishClaiming | linux-6.6/block/bdev.c:534-572 | the claim is added; neither BUG_ON fires, whatever ended in between |
| DiskClaims.Disk.AbortClaiming | linux-6.6/block/bdev.c:583-588 | the preparation is gone and nothing else |
| DiskClaims.Disk.EndClaim | linux-6.6/block/bdev.c:591-615 | the claim is removed, no warning is due, and a holder is NULL exactly when its count is zero |
| DiskClaims.Disk.Run | linux-6.6/block/bdev.c:458-624 | in every matched run replies and claims are those of the plain list of claims |
| BioSubmit.ReorderedParts | linux-6.6/block/blk-core.c:648-666 | sorting new bios into lower and same queue loses and repeats none of all that is below them |
| BioSubmit.ReorderedOrder | linux-6.6/block/blk-core.c:648-666 | it puts every bio for another queue before every bio for the same queue, and keeps the order of submission on either side |
| BioSubmit.PreorderOnce | linux-6.6/block/blk-core.c:627-669 | the recursive walk meets every bio of the tree exactly once |
| BioSubmit.LowerWalkedFirst | linux-6.6/block/blk-core.c:627-669 | after a bio comes everything below its children for other queues, and only then everything below those for its own |
| BioSubmit.FifoIsLevels | linux-6.6/block/blk-core.c:671-682 | first in, first out is level by level |
| BioSubmit.LevelsOnce | linux-6.6/block/blk-core.c:671-682 | which meets every bio exactly once |
| BioSubmit.Task.Submit | linux-6.6/block/blk-core.c:684-710 | while a driver is active a bio is only queued; otherwise its whole tree is handled in the order of its walk |
| BioSubmit.Task.Handle | linux-6.6/block/blk-core.c:593-606 | never are two drivers of a task active; what the driver submits is queued in order |
| BioSubmit.Task.SubmitStacked | linux-6.6/block/blk-core.c:627-669 | the two-list loop handles the bios in the order of the recursive walk: the bio, all that is below its children for lower queues, then all that is below those for the same queue |
| BioSubmit.Task.SubmitMq | linux-6.6/block/blk-core.c:671-682 | the one-list loop handles them level by level |
| BioChain.DoneIff | linux-6.6/block/bio.c:1539-1556 | in an acyclic forest a bio is done exactly when its own completion and those of all bios below it have come in |
| BioChain.ErrorReaches | linux-6.6/block/bio.c:312-321 | an error below a bio that is done shows in its status, unless an owner on the way cleared it |
| BioChain.ErrorComes | linux-6.6/block/bio.c:312-321 | an error in a status is that of an owner below |
| BioChain.FirstErrorsNext | linux-6.6/block/bio.c:312-321 | every status is the first error among what its owner last set and what has come up since, and no error is overwritten |
| BioChain.NowDone | linux-6.6/block/bio.c:1539-1556 | the last completion of a chained bio turns into one on its way to the parent |
| ChainedBios.Bios.ChainBios | linux-6.6/block/bio.c:338-345 | the parent waits for one completion more |
| ChainedBios.Bios.RemainingDone | linux-6.6/block/bio.c:1539-1556 | true exactly for the last completion; the BUG_ON does not fire |
| ChainedBios.Bios.ChainEndio | linux-6.6/block/bio.c:312-321 | the parent keeps an error that it has and takes the status otherwise; the bio is put |
| ChainedBios.Bios.Arrive | linux-6.6/block/bio.c:1571-1604 | one turn of the climbing loop keeps the balance of counters, completions and errors, and overwrites no error |
| ChainedBios.Bios.BioEndio | linux-6.6/block/bio.c:1571-1605 | the climb ends, nothing is left on its way, and no error is overwritten |
| ChainedBios.Bios.EndsOnce | linux-6.6/block/bio.c:1561-1605 | the callback has run once, with the final status, exactly when all completions below have come in; so for the put of a chained bio |
| ChainedBios.Bios.Run | linux-6.6/block/bio.c:1571-1605 | any interleaving of chaining, completions and turns of the loop keeps all of this; every status is the first error since its owner last set it, and only the owner changes an error |
| WalkTree.WalkProcessTree | linux-6.6-scheduler-study/kernel/fork.c:3214-3244 | terminates and calls the visitor in the order of the recursive preorder walk, for every visitor with memory, and on the tasks that PreorderMeans says |
| WalkTree.PreorderMeans | linux-6.6-scheduler-study/kernel/fork.c:3214-3244 | the walk stops with the first negative answer, visits nothing but the children of the top and of tasks with a positive answer, and all of these if it is not stopped |
| WalkTree.KnowsBack | linux-6.6-scheduler-study/kernel/fork.c:3223-3229 | parent and leader pointers of a child lead back to where the loops stood |
| WalkTree.LinkedPop | linux-6.6-scheduler-study/kernel/fork.c:3235-3240 | the leader is the top exactly when no process is left to go back to |
| ExitReap.ExitedGood | linux-6.6-scheduler-study/kernel/exit.c:727-767 | exit keeps the invariant of tasks, owners, notifications and counters |
| ExitReap.ExitedLife | linux-6.6-scheduler-study/kernel/exit.c:727-767 | a thread that is no leader, or a leader on its own whose parent ignores its children, is dead and to be released; any other leader is a zombie |
| ExitReap.ReleasedGood | linux-6.6-scheduler-study/kernel/exit.c:239-287 | so does a release, with the notification by the last thread |
| ExitReap.ReleasedLife | linux-6.6-scheduler-study/kernel/exit.c:239-287 | the thread is released; a zombie leader then on its own is dead and to be released exactly if the parent ignores its children |
| ExitReap.ReparentedGood | linux-6.6-scheduler-study/kernel/exit.c:659-678 | so does reparenting, after which a zombie that can be waited for was last told to the process of its new parent |
| ExitReap.ClaimedGood | linux-6.6-scheduler-study/kernel/exit.c:1121-1130 | so does the step of a waiter that takes a zombie |
| ExitReap.CollectsTotal | linux-6.6-scheduler-study/kernel/exit.c:1136-1176 | what a waiter adds up is all that the child, and those it waited for, ever made |
| ExitReap.EndsInOrder | linux-6.6-scheduler-study/kernel/exit.c:239-287 | no task is released twice, no leader before its threads; without reparenting the parent is notified exactly once, when leader and threads are through; and a zombie that can be waited for was last told to the process of its present parent |
| ExitReap.Conservation | linux-6.6-scheduler-study/kernel/exit.c:185-200 | the counters of processes nobody waited for add up to all faults ever made |
| ExitReap.TaskTable.Fork | linux-6.6-scheduler-study/kernel/fork.c:1848-1863 | a new process is a running child of the forking thread with empty counters |
| ExitReap.TaskTable.CloneThread | linux-6.6-scheduler-study/kernel/fork.c:1712-1713 | a new thread starts with empty counters |
| ExitReap.NoChildLeft | linux-6.6-scheduler-study/kernel/exit.c:702-720 | no unreleased process is left with its old parent |
| ExitReap.AllHandedOver | linux-6.6-scheduler-study/kernel/exit.c:659-721 | exactly the children of the father get the new parent; if that is in another process and the child is a zombie on its own, it is notified once more, and the child is dead and to be released exactly if the new parent ignores its children; otherwise nothing else happens |
| ExitReap.TaskTable.ForgetOriginalParent | linux-6.6-scheduler-study/kernel/exit.c:688-721 | every child not yet released gets the new parent, with the notifications and deaths of AllHandedOver; no other process changes |
| ExitReap.TaskTable.ExitNotify | linux-6.6-scheduler-study/kernel/exit.c:727-767 | children given away, then zombie or dead exactly as ExitedLife says, with the notification of a leader on its own |
| ExitReap.TaskTable.ReleaseTask | linux-6.6-scheduler-study/kernel/exit.c:239-287 | the thread is gone, its counter is with the process, and a zombie leader left alone is notified of, and dead exactly if the parent ignores its children |
| ExitReap.TaskTable.ConsiderTask | linux-6.6-scheduler-study/kernel/exit.c:1121-1130 | a child is taken exactly if it is a zombie leader on its own, by one waiter only |
| ExitReap.TaskTable.CollectChild | linux-6.6-scheduler-study/kernel/exit.c:1136-1189 | the total of the child is added to the waiter's process, once, and its release is due |
| ExitReap.TaskTable.Run | linux-6.6-scheduler-study/kernel/exit.c:727-767 | in every interleaving the outstanding counters grow by exactly the faults made |

## Left out

- Group scheduling and cgroups: the scheduler has one level, where `for_each_entity` runs once.
- Rebalancing of the red-black trees: they are plain search trees. In one of them a node just linked has no child, so the branch of `bfq_active_insert` that starts the repair below it is not modelled.
- FlatScheduler.Scheduler.Run: timestamps are unbounded; WrapGtExact says when that makes no difference.
- FlatScheduler.Scheduler.PutIdle: last_idle is only some idle entity or NULL, because the stronger promise is false.
- FlatScheduler.Scheduler.Expire: budgets are arbitrary there; what they are is in Budget.
- Burst detection, wakers, injection limits, weight-raising durations and wr_busy_queues: these heuristics enter as parameters.
- Merging of queues and of requests: a next request that grows in place is not a step of Budget.
- Budget.Budgets.Run: request sizes above INT_MAX / 12 sectors are excluded; a run ends with the first step that makes a bound negative.
- PeakRate.RateMeans: for rates that fit in 32 bits, of less than 65536 sectors per microsecond; of a higher one the code keeps the low 32 bits.
- PeakRate.WeightMeans: for intervals up to 5 * 10^17 nanoseconds, where the product does not wrap.
- PeakRate.NextPeakIff: for up to INT_MAX / 3 samples, where three times their number does not wrap.
- BadBlocks.BadBlockTable.Run: ends before the first operation that does not meet its condition; what such an operation does is in SetIff and ClearOrderIff.
- Packing of a bad-block range into 64 bits: a range of length zero or less, which a failing badblocks_set can store, has no faithful packed form.
- BadBlockMerge.SetIff: the flags are treated apart, in BadBlockAcks.
- Locks, seqlock retries, RCU and memory barriers: a locked section is one step.
- DiskClaims.Disk.PrepareToClaim: the sleep is one reply; that it ends is not stated.
- Freeing of a bio by its last put: the put is recorded, the record stays.
- Crypto and integrity preparation of bios: a bio that stops there has no children in the tree.
- ptrace, namespaces, exec, stopped and continued children, and the choice of the new parent: any running thread may be the reaper.
- ExitReap.Conservation: one fault counter stands for the counters that are added up alike; maximum resident size and times are not modelled.
