# OpenHive: verified models of the hub's hard parts

OpenHive is a hub for swarms of coding agents. This project models the parts of it where branching, shared state
or interleaving decide what happens, and proves what they promise over every input and every run.

| Part | Modules |
|---|---|
| The two walkers over the forest of cascade streams | `Streams`, `LinearStack`, `PrStack`, `PrPlan`, `PrWalker`, `PrTermination`, `PrBranches`, `PrOrder`, `StackRelation` |
| The slot semaphore per repository | `RepoSlots`, `SwarmCodexRuntime`, `ArrivalOrder` |
| The diff cache racing with stream events | `DiffCache`, `DiffCacheRuns`, `DiffRequests` |
| The hand-over of loadouts and permission overlays to streams | `LoadoutHandover`, `LoadoutRelease`, `OverlayStaging`, `Keys` |
| Single-flight creation of conversations | `SingleFlight`, `MailTransport`, `DispatchConversation` |
| The life of a dispatch and its turn budgets | `AttemptHistory`, `Finalize`, `DispatchLifecycle`, `DispatchEndings`, `EventBridge`, `Continuation` |
| The config merge | `DeepMerge` |
| The desktop app's registries and parsers, and git's status listing | `HiveSlug`, `HiveRegistry`, `RecentHives`, `DirtyPaths` |

Concurrent code is a state machine whose steps run from one `await` to the next, which is what the event loop
guarantees; a run is any sequence of steps in which each can happen when it does. Where the source keeps state in
maps or fields that its functions update, a class keeps the same fields, and its methods are proved to perform the
steps. Where a promise of the source holds only under a condition, the condition is proved exact: an "exactly"
lemma says the promise holds if and only if the condition does.

Results that a reader of the code may not expect:

- `PrTermination.EndsExactly`, `PrTermination.TableOrderDecides`: on a cycle of skipped streams `leadsToLive` can
  recurse without end, even from a row that leads to a live one, and whether it does depends on the order of the
  table; the `visited` set does not protect it.
- `ArrivalOrder.BargingExactly`: waiters for a repository are served in arrival order except when a newcomer finds
  the slot of a waiter that was woken and has not resumed.
- `DiffCacheRuns.TransparentExactly`, `DiffCacheRuns.StrandsNothingExactly`: an empty base and a missing base share a
  cache row, and two swarms that use one stream id, one of them open, can strand a row for a closed stream.
- `DispatchLifecycle.ReleaseRevivesCancelled`: giving a claim back with its fence queues a cancelled dispatch again,
  because cancelling leaves the lease in the row.
- `LoadoutHandover.FailuresShift`, `LoadoutHandover.UnloadedTakesAnothersExactly`: after one failed creation in
  a run otherwise in order, every later stream of that target gets its predecessor's loadout, and a stream of a
  dispatch without a loadout takes another's whenever one is queued.
- `DiffCacheRuns.FlagsRightExactly`: a truncated diff is served as complete from then on.
- `Continuation.PendingOnlyShortens`: messages in a thread never lengthen a session.

Where the code and its comments differ, the model follows the code:

- The header of `src/cascade/pr-stack-walker.ts` (lines 14-18) falls back to `branch_name`; line 175 falls back to the
  name generated from the stream's name.
- `src/dispatch/mail-completion.ts` (lines 96-98) says an empty reply fails the dispatch; lines 187-191 ignore it.
- `src/dispatch/setup.ts` (lines 113-116) speaks of extra turns for pending messages; lines 117-140 grant none that a
  silent thread would not get.
- `src/dispatch/mail-completion.ts` (lines 100-101) calls `finalizeDispatch` idempotent; what makes a second reply
  harmless is that only open dispatches are looked up (lines 77-84).

## Model

| member | source | states |
|---|---|---|
| Streams.ChildrenMember | src/cascade/stack-resolver.ts:226-238 | the children of a stream are exactly the rows of its swarm whose parent is its stream id |
| LinearStack.GetActiveChildren | src/cascade/stack-resolver.ts:231-251 | re-reading each child and dropping skipped ones yields exactly the live children, in table order |
| LinearStack.ActiveChildrenMember | src/cascade/stack-resolver.ts:226-251 | a row is an active child exactly when it is live, of the same swarm, and names this stream as parent |
| LinearStack.ResolveLinearStack | src/cascade/stack-resolver.ts:156-209 | the loop ends on every projection, cyclic ones included, and returns the outcome of the unique maximal sole-child path |
| LinearStack.FrameChain | src/cascade/stack-resolver.ts:192-209 | the checks after the loop: no base at the root, no commits at the leaf, else the framed chain |
| LinearStack.MaximalPathUnique | src/cascade/stack-resolver.ts:156-190 | there is one maximal path from a root in which each row is the sole active child of the one before |
| LinearStack.PathsAgree | src/cascade/stack-resolver.ts:164-190 | two sole-child walks from one row agree as far as both go |
| LinearStack.LinearExactly | src/cascade/stack-resolver.ts:156-209 | the walker succeeds exactly on a path that ends in a leaf and is framed by a base and a head; it is non-linear exactly when the maximal path ends in a fork |
| LinearStack.NonLinearExactly | src/cascade/stack-resolver.ts:175-188 | the fork error is raised exactly when some sole-child walk from the root reaches a row with two or more active children |
| LinearStack.ForkReported | src/cascade/stack-resolver.ts:177-188 | the error names the forking row and exactly its active children |
| LinearStack.CycleReported | src/cascade/stack-resolver.ts:165-169 | a walk that closes on itself is reported as having no commits, at the row met again |
| LinearStack.OutcomeAnswers | src/cascade/stack-resolver.ts:192-223 | on the maximal path: a chain answers with its root's base, its leaf's newest commit and its rows field by field; a missing base, missing commits, a fork and a cycle each name their row, and each is raised under its own condition |
| LinearStack.UnknownRoot | src/cascade/stack-resolver.ts:157-158 | "not found" is answered exactly for an unknown row |
| PrStack.Sanitize | src/db/dal/cascade-streams.ts:1563-1565 | a generated branch name holds only safe characters and no double dash |
| PrStack.SiblingsDisjoint | src/cascade/pr-stack-walker.ts:117-120 | two siblings never lead to the same row below their parent |
| PrPlan.WalkSound | src/cascade/pr-stack-walker.ts:148-194 | every entry of a walk belongs to a live row on a path without repetition, and is the entry that path prescribes |
| PrPlan.WalkComplete | src/cascade/pr-stack-walker.ts:148-194 | every path without repetition to a live row has its entry in the walk |
| PrPlan.SimplePath | src/cascade/pr-stack-walker.ts:143-155 | whatever is reachable is reachable without repetition, so the `visited` set hides nothing |
| PrPlan.PlanListsLiveReachable | src/cascade/pr-stack-walker.ts:127-201 | the plan lists exactly the live streams reachable from the root by parent edges, each exactly once |
| PrPlan.EntryFollowsPath | src/cascade/pr-stack-walker.ts:148-194 | each entry's ancestors are exactly the live rows above it on its path, in order; its base is the head of the last of them, or trunk when there is none, however many skipped rows lie between |
| PrPlan.PathEntryInPlan | src/cascade/pr-stack-walker.ts:148-194 | conversely, every path from the root to a live row has that entry in the plan |
| PrPlan.AncestorsComeFirst | src/cascade/pr-stack-walker.ts:85-90 | all ancestors of an entry appear before it |
| PrBranches.EntryShowsRow | src/cascade/pr-stack-walker.ts:174-186 | each entry carries its row's own fields; its head is the row's publish branch, or "cascade/" and the cleaned-up name when it has none; its base is that branch of the nearest row above that is not merged, abandoned or paused, or the trunk when there is none |
| PrBranches.TrunkIsTrunk | src/cascade/pr-stack-walker.ts:255-264 | the trunk is the swarm's setting when it is not empty, else "main" |
| PrBranches.SanitizeIsTwoPasses | src/db/dal/cascade-streams.ts:1563-1565 | the clean-up of a name is the two replacements of the source, one after the other |
| PrBranches.CleanNamesStay | src/db/dal/cascade-streams.ts:1563-1565 | exactly the names over safe characters without a double dash are left as they are |
| PrOrder.ChildrenInTableOrder | src/cascade/pr-stack-walker.ts:226-243 | children of one stream keep the order of the table |
| PrOrder.PlanInPreorder | src/cascade/pr-stack-walker.ts:143-200 | of two listed streams the one above the other comes first, and of two in different families the one whose family starts earlier in the table |
| PrWalker.BuildChildrenIndex | src/cascade/pr-stack-walker.ts:213-245 | the index built in one pass holds, for each parent, its children of that swarm in table order |
| PrWalker.Walker.LeadsToLiveMemo | src/cascade/pr-stack-walker.ts:127-139 | wherever it is not stuck, the memoised recursion ends and answers whether the row or anything below it is live |
| PrWalker.Walker.ProductiveChildren | src/cascade/pr-stack-walker.ts:157-162 | filters the children down to those leading to a live row, in order |
| PrWalker.Walker.Descend | src/cascade/pr-stack-walker.ts:148-194 | the closure with its shared list, set and memo appends exactly the unpruned walk |
| PrWalker.Walker.DescendAll | src/cascade/pr-stack-walker.ts:168-170 | the loop over the children appends their walks in order |
| PrWalker.BuildPrStackPlan | src/cascade/pr-stack-walker.ts:111-202 | from every root that is not stuck, whatever cycles the table holds, the whole builder returns the unpruned plan and the trunk, or that the root is missing |
| PrWalker.DeadWalkIsEmpty | src/cascade/pr-stack-walker.ts:122-139 | a row that leads to no live row contributes no entry |
| PrWalker.PruningLosesNothing | src/cascade/pr-stack-walker.ts:157-170 | walking only the productive children equals walking all of them |
| PrWalker.SkippedLeads | src/cascade/pr-stack-walker.ts:135-138 | a skipped row leads to a live one exactly when some child does |
| PrWalker.StuckParent | src/cascade/pr-stack-walker.ts:128-146 | parents are unique, so the parent of a stuck row is stuck with it |
| PrWalker.SafeExactly | src/cascade/pr-stack-walker.ts:148-194 | a walk meets a stuck row exactly when it starts at one |
| PrWalker.AskRankDecreases | src/cascade/pr-stack-walker.ts:128-139 | at a row that is not stuck the recursion has a well-founded rank, and only asks about rows that are not stuck |
| PrTermination.AnswerIsRight | src/cascade/pr-stack-walker.ts:128-139 | on any projection, an answer of the recursion is right |
| PrTermination.EndsExactly | src/cascade/pr-stack-walker.ts:128-139 | at every row of every table the recursion ends exactly when the row is not on a cycle of skipped rows on which no row lists, before its child on the cycle, a child that leads to a live row |
| PrTermination.BuilderEndsExactly | src/cascade/pr-stack-walker.ts:148-199 | every question of the plan builder ends exactly when its root is not stuck; at a stuck root already one about a child of the root does not |
| PrTermination.TableOrderDecides | src/cascade/pr-stack-walker.ts:128-146 | an input: two merged streams that are each other's parent, with an active one below, loop in one table order and end in the other |
| StackRelation.ChainEntry | src/cascade/stack-resolver.ts:156-209 | the plan's entry for each row of a linear chain: based on its predecessor's head, with the earlier rows as ancestors |
| StackRelation.LinearChainIsSpineExactly | src/cascade/stack-resolver.ts:156-209 | from a live root, the linear chain is a subsequence of the plan, each row based on its predecessor's head, whatever else the plan holds: exactly when no row of it but the last has an empty stream id, which the plan's index skips |
| RepoSlots.StepKeeps | src/dispatch/swarm-codex-runtime.ts:247-268 | the bound, the queues and the absence of lost wake-ups survive every step, `stopAll` included |
| RepoSlots.RunKeeps | src/dispatch/swarm-codex-runtime.ts:247-268 | in every interleaving a parked spawn waits behind a full repository, counting wakes on their way; the count never passes the limit; queues hold exactly the parked spawns |
| RepoSlots.RunConserves | src/dispatch/swarm-codex-runtime.ts:257-268 | with fresh agent ids no slot is overcounted, and without `stopAll` the count equals holding spawns plus running agents |
| RepoSlots.FreshExactly | src/dispatch/swarm-codex-runtime.ts:354-359 | recording a spawn keeps that equality exactly when the agent id is not mapped yet |
| RepoSlots.StepUse | src/dispatch/swarm-codex-runtime.ts:257-268 | each step with a fresh agent id keeps "no slot is counted that is not in use", and keeps the count equal to the use |
| RepoSlots.ClampNeverActs | src/dispatch/swarm-codex-runtime.ts:261 | wherever such a run gives a slot back, at least one is counted |
| RepoSlots.WaitsOnlyWhileFull | src/dispatch/swarm-codex-runtime.ts:250-256 | with a waiter parked and no wake on its way, exactly `limit` spawns and agents use the repository |
| RepoSlots.MappedExactly | src/dispatch/swarm-codex-runtime.ts:325-359 | over every run, an agent is mapped to a repository exactly from the spawn that reported it there until it stopped or all were stopped |
| RepoSlots.UnlimitedNeverParks | src/dispatch/swarm-codex-runtime.ts:248-249 | with a limit of zero or less nobody is ever parked and no slot is counted |
| ArrivalOrder.OvertakesExactly | src/dispatch/swarm-codex-runtime.ts:247-258 | after any run, a step takes a slot before someone who came earlier exactly when it is a newcomer finding a free slot while a wake is on its way, or a woken spawn resumed out of turn |
| ArrivalOrder.ArrivalOrderExactly | src/dispatch/swarm-codex-runtime.ts:247-268 | over every run, slots of a repository are taken in arrival order exactly when no step overtakes; then who came is who took a slot, followed by who waits |
| ArrivalOrder.BargingExactly | src/dispatch/swarm-codex-runtime.ts:247-268 | when woken spawns resume in the order of their wakes, and short of `stopAll`, slots are taken in arrival order exactly when no newcomer finds a free slot while a wake is on its way |
| RepoSlots.BargingOvertakes | src/dispatch/swarm-codex-runtime.ts:250-267 | an input: a run in which the longest-parked waiter falls behind a later one |
| RepoSlots.SomethingDrains | src/dispatch/swarm-codex-runtime.ts:250-268 | while anything is left, some draining step is possible: no waiter depends on a lost wake |
| RepoSlots.DrainingDecreases | src/dispatch/swarm-codex-runtime.ts:250-268 | each draining step leaves less to do, whoever barges in |
| RepoSlots.DrainsInBoundedTime | src/dispatch/swarm-codex-runtime.ts:250-268 | once spawns stop arriving, every continuation is bounded |
| RepoSlots.DrainedExactly | src/dispatch/swarm-codex-runtime.ts:250-268 | nothing can drain any more exactly when no spawn is in progress and no agent is mapped |
| RepoSlots.EveryoneIsServed | src/dispatch/swarm-codex-runtime.ts:250-268 | drained to the end, every run ends within that bound with nobody parked and no slot counted |
| SwarmCodexRuntime.Slots.WaitForRepoSlot | src/dispatch/swarm-codex-runtime.ts:247-258 | one pass of the waiting loop on the real maps is one entering step; limits of zero or less let everything through |
| SwarmCodexRuntime.Slots.ReleaseRepoSlot | src/dispatch/swarm-codex-runtime.ts:260-268 | gives a slot back and wakes the head of the queue |
| SwarmCodexRuntime.Slots.RecordSpawn | src/dispatch/swarm-codex-runtime.ts:354-359 | a successful spawn maps its agent and keeps its slot |
| SwarmCodexRuntime.Slots.FailSpawn | src/dispatch/swarm-codex-runtime.ts:360-363 | a failed spawn gives its slot back |
| SwarmCodexRuntime.Slots.OnStopped | src/dispatch/swarm-codex-runtime.ts:325-333 | a stopped agent gives its slot back once |
| SwarmCodexRuntime.Slots.StopAll | src/dispatch/swarm-codex-runtime.ts:394-401 | clears the counts and wakes exactly the parked spawns |
| DiffCache.Resolver.BeginCommitDiff | src/cascade/diff-resolver.ts:116-152 | a commit request up to its fetch: refused, answered from the cache, gated, or fetching |
| DiffCache.Resolver.BeginRangeDiff | src/cascade/diff-resolver.ts:349-380 | the same for a range |
| DiffCache.Resolver.BeginStreamDiff | src/cascade/diff-resolver.ts:237-266 | the same for a stream, from its base to its latest commit |
| DiffCache.Resolver.BeginStackDiff | src/cascade/diff-resolver.ts:288-333 | the same for a stack: walker errors become refusals and the root keys the cache |
| DiffCache.Resolver.FinishFetch | src/cascade/diff-resolver.ts:160-180 | after the fetch: re-check the status, write at most once, and answer with what was fetched |
| DiffRequests.LocatedRight | src/cascade/diff-resolver.ts:237-333 | a commit request is about the commit and base asked for, a stream from its base to its newest commit, a stack from its root's base to its leaf's newest commit; a refusal says that the row is unknown or has no such range |
| DiffRequests.BeginGoesRight | src/cascade/diff-resolver.ts:116-152 | what a request does before its fetch: a cached diff is served whatever the swarm's state, else the swarm must be online, then capable; what is sent is what was asked |
| DiffRequests.RunAsksRight | src/cascade/diff-resolver.ts:116-180 | over every run, whatever is being fetched or was answered is for what its request asked of the table as it stood |
| DiffRequests.KeysMeetExactly | src/db/dal/cascade-diff-cache.ts:94-112 | two requests share a cache row exactly when they agree on stream, head, path and base, an empty base being none |
| DiffRequests.CacheStep | src/db/dal/cascade-diff-cache.ts:139-191 | a row enters the cache exactly when a whole diff returned for a known, open stream under a free key and the write worked; it stays as it is until its stream is evicted |
| DiffCacheRuns.RunTransparent | src/cascade/diff-resolver.ts:116-180 | over every run of requests, failures and evictions, answers carry what an uncached fetch would give |
| DiffCacheRuns.TransparentExactly | src/cascade/diff-resolver.ts:349-405 | that holds over all runs exactly when a fetch is determined by its cache key |
| DiffCacheRuns.CollisionServesWrongContent | src/db/dal/cascade-diff-cache.ts:94-112 | two arguments with one key and different contents have a run that serves the wrong one |
| DiffCacheRuns.FlagsRightExactly | src/cascade/diff-resolver.ts:116-180 | answers carry the truncation flag an uncached fetch would give, over all runs, exactly when nothing that can be cached is ever truncated |
| DiffCacheRuns.TruncationForgotten | src/cascade/diff-resolver.ts:116-180 | an input for any fetch that truncates: the diff is served later as complete |
| DiffCacheRuns.RunStrandsNothing | src/cascade/diff-resolver.ts:415-425 | while only closed streams share a stream id, no interleaving leaves a row for a merged or abandoned stream, stack diffs included |
| DiffCacheRuns.SharedStreamIdStrands | src/map/cascade-handler.ts:301-308 | two streams sharing a runtime id have a run that strands a row |
| DiffCacheRuns.StrandsNothingExactly | src/cascade/diff-resolver.ts:42-52 | from any projection, no run strands a row exactly when streams that share a stream id are all closed |
| LoadoutHandover.Runtime.ResolveTarget | src/dispatch/openhive-runtime.ts:297-302 | a loadout joins the end of its target's queue |
| LoadoutHandover.Runtime.CreateStream | src/dispatch/openhive-runtime.ts:349-355 | a new stream takes the head of its target's queue |
| LoadoutHandover.Runtime.CloseStream | src/dispatch/openhive-runtime.ts:397-398 | a closed stream lets its loadout go |
| LoadoutHandover.RunKeeps | src/dispatch/openhive-runtime.ts:224-231 | each loadout is in its own target's queue, or held by exactly one stream of that target, or released, and nowhere else |
| LoadoutHandover.SoundExactly | src/dispatch/openhive-runtime.ts:232 | that holds over all runs of a family of targets exactly when their keys differ |
| LoadoutHandover.TargetKeyInjective | src/dispatch/openhive-runtime.ts:232 | keys differ whenever server ids hold no colon |
| LoadoutHandover.SharedKeyMisdelivers | src/dispatch/openhive-runtime.ts:232 | two targets with one key have a run that hands a loadout to the wrong target |
| LoadoutHandover.TakenInResolveOrder | src/dispatch/openhive-runtime.ts:349-355 | what was pushed for a target is what was taken, in order, then what waits |
| LoadoutHandover.StreamTakes | src/dispatch/openhive-runtime.ts:349-355 | which loadout a new stream gets, by counting events: with k creations before it that found one, the k-th loadout pushed, and none exactly when no more were pushed |
| LoadoutHandover.EachGetsItsOwnExactly | src/dispatch/openhive-runtime.ts:224-231 | when every dispatch to a target carries a loadout, each stream gets its own dispatch's exactly when the tasks of the streams created are, at every point, the first of the tasks resolved, in order |
| LoadoutHandover.KeptUntilClosed | src/dispatch/openhive-runtime.ts:378-398 | a stream keeps its loadout until it is closed |
| LoadoutRelease.HeldExactly | src/dispatch/openhive-runtime.ts:349-398 | a stream holds exactly the loadout whose turn it was at its creation, counted on the events, until it is closed |
| LoadoutRelease.ClosedHoldsNothing | src/dispatch/openhive-runtime.ts:397-398 | once created and then closed, a stream holds nothing for the rest of the run |
| LoadoutRelease.ReleasedExactly | src/dispatch/openhive-runtime.ts:397-398 | exactly the loadouts given to streams that were closed later have been released |
| LoadoutHandover.FailuresShift | src/dispatch/openhive-runtime.ts:346-355 | in every run otherwise in order, a stream created after f failed creations gets the loadout of the dispatch resolved f places before its own |
| LoadoutHandover.UnloadedTakesAnothersExactly | src/dispatch/openhive-runtime.ts:297-302 | a stream of a dispatch that carried no loadout takes another dispatch's exactly when more were pushed than taken |
| OverlayStaging.Overlays.StagePendingOverlay | src/dispatch/openhive-runtime.ts:157-159 | staging fills the agent's slot |
| OverlayStaging.Overlays.TakePendingOverlay | src/dispatch/openhive-runtime.ts:161-169 | a stream empties the slot and takes what was in it |
| OverlayStaging.Overlays.OverlaySet | src/dispatch/openhive-runtime.ts:190-193 | once set, the overlay is active on that stream |
| OverlayStaging.Overlays.DeactivateOverlay | src/dispatch/openhive-runtime.ts:196-199 | closing removes it and says what to clear |
| OverlayStaging.RunKeepsPlaces | src/dispatch/openhive-runtime.ts:115-134 | an overlay waits for one agent, or is being set for or active on one stream, no more than one in all; none stays active on a closed stream |
| OverlayStaging.PendingIsLatest | src/dispatch/openhive-runtime.ts:130-134 | the slot holds what was staged last since the agent's last stream |
| OverlayStaging.OwnOverlayExactly | src/dispatch/openhive-runtime.ts:346-364 | a stream gets its own dispatch's rules exactly when those are what was staged last since the agent's last stream |
| OverlayStaging.OverlayFollowsCalls | src/dispatch/openhive-runtime.ts:161-199 | over every run, a stream's overlay is the one it took: being set until its call returns, active from success to close, nowhere after a failure |
| OverlayStaging.PendingKeyInjective | src/dispatch/openhive-runtime.ts:153-155 | agents have different slots when swarm ids hold no colon |
| OverlayStaging.RestagingOverwrites | src/dispatch/openhive-runtime.ts:130-134 | a second staging overwrites the first: one stream takes the other's rules and the other none |
| SingleFlight.StepKeepsFlight | src/dispatch/mail-transport.ts:96-118 | every step keeps in-flight entries, live creations and waiting creators in one-to-one relation |
| SingleFlight.OneInFlight | src/dispatch/mail-transport.ts:96-118 | in every interleaving at most one creation per key is pending, and no entry outlives its creator |
| SingleFlight.CreatedOnceWhenNonEmpty | src/dispatch/mail-transport.ts:93-119 | when no creation answers with an empty id, each key has at most one that succeeds |
| SingleFlight.RunAgrees | src/dispatch/dispatch-conversation.ts:116-127 | when creations answer with the id already known, if any, everyone who returns got the known id |
| SingleFlight.KnownForever | src/dispatch/dispatch-conversation.ts:53-54 | in such a run a known id never changes |
| SingleFlight.CallEnters | src/dispatch/mail-transport.ts:91-97 | a call gets the known id, or waits for a creation of its own key |
| SingleFlight.WaitersGetOutcome | src/dispatch/mail-transport.ts:96-118 | over any continuation, whoever waited for a creation gets its id if it succeeds and fails if it is rejected |
| MailTransport.Transport.EnsureConversation | src/dispatch/mail-transport.ts:91-113 | hit, join or create, on the cache and the in-flight map |
| MailTransport.Transport.Created | src/dispatch/mail-transport.ts:109-110 | the creation's continuation caches and resolves in one step |
| MailTransport.Transport.CreatorResumes | src/dispatch/mail-transport.ts:116-118 | only the creator clears the entry |
| MailTransport.SingleFlightHolds | src/dispatch/mail-transport.ts:91-119 | with non-empty ids, over every interleaving `mail/create` succeeds at most once per key and all callers get the same id |
| MailTransport.CreatedOnceExactly | src/dispatch/mail-transport.ts:93-94 | at most one success per key over all runs exactly when the server answers no empty id |
| MailTransport.SameIdsExactly | src/dispatch/mail-transport.ts:91-119 | all callers agree over all runs exactly when no id is empty or the empty one is the only one |
| MailTransport.EmptyIdCreatesAgain | src/dispatch/mail-transport.ts:93-94 | an empty id is cached but not taken for one, so the next caller creates again |
| MailTransport.ConversationKeyInjective | src/dispatch/mail-transport.ts:61-63 | different agents and swarms have different keys when swarm ids hold no colon |
| DispatchConversation.Threads.EnsureDispatchConversation | src/dispatch/dispatch-conversation.ts:59-79 | known id, joined promise, or new creation, leaving the rows alone |
| DispatchConversation.Threads.SetConversationId | src/db/dal/dispatches.ts:800-810 | only a row without an id takes one |
| DispatchConversation.Threads.WriteBack | src/dispatch/dispatch-conversation.ts:116-127 | write back, read again: returns the row's id, the earlier one if there was one |
| DispatchConversation.Threads.CreatorResumes | src/dispatch/dispatch-conversation.ts:74-78 | only the creator clears the entry |
| DispatchConversation.FirstWriterWins | src/dispatch/dispatch-conversation.ts:51-55 | with other writers interleaved: a row's id never changes once set, and every returning caller gets exactly it |
| DispatchConversation.AloneGetsOwnThread | src/dispatch/dispatch-conversation.ts:85 | when nobody else writes, every caller that returns gets the id made of the dispatch's own |
| DispatchConversation.CreatedOnceExactly | src/dispatch/dispatch-conversation.ts:40-46 | one successful creation per dispatch in every run exactly when the ids others write are not empty |
| DispatchConversation.EmptyWriteCreatesAgain | src/dispatch/dispatch-conversation.ts:63-65 | an empty id in the row makes every caller create anew |
| AttemptHistory.SortAt | src/db/dal/dispatches.ts:648 | the stable sort keeps, for every number, the first attempt with it |
| AttemptHistory.SortSorts | src/db/dal/dispatches.ts:648 | and leaves the attempts in order |
| AttemptHistory.PutAt | src/db/dal/dispatches.ts:642-648 | from any history: afterwards the record is found under its number, and every other number finds what it found before |
| AttemptHistory.PutInOrder | src/db/dal/dispatches.ts:642-648 | an ordered history without repeated numbers stays so |
| Finalize.DedupByKindRef | src/dispatch/finalize.ts:72-82 | keeps exactly the artifacts whose key no earlier one has, in order |
| Finalize.FirstsMember | src/dispatch/finalize.ts:72-82 | an artifact stays exactly when it is the first with its key |
| Finalize.FirstsOnce | src/dispatch/finalize.ts:72-82 | no key stays twice |
| Finalize.FirstsGrow | src/dispatch/finalize.ts:72-82 | artifacts are kept in order: more behind change nothing of what was kept before |
| Finalize.NothingLostExactly | src/dispatch/finalize.ts:76 | no artifact is lost exactly when different artifacts of the list have different keys |
| Finalize.PlainKindsDiffer | src/dispatch/finalize.ts:76 | artifacts whose kinds hold no colon have different keys |
| Finalize.ColonCollides | src/dispatch/finalize.ts:76 | an input of the other kind, for any three strings: two artifacts with one key, of which one is lost |
| Finalize.FinalOutcomeKeepsArtifacts | src/dispatch/finalize.ts:30-42 | for every cascade artifact the outcome holds one with its key, nothing is invented, no key repeats, and the outcome is absent exactly when neither side had anything |
| Finalize.FinalOutcomeKeepsReport | src/dispatch/finalize.ts:30-42 | what the agent said otherwise is kept, and its artifacts come before the hub's |
| DispatchLifecycle.Classify | src/dispatch/mail-completion.ts:184-226 | a reply is skipped exactly when absent or blank; any other ends the dispatch as complete or failed |
| DispatchLifecycle.TerminalChangesExactly | src/db/dal/dispatches.ts:537-585 | over all writers, a terminal dispatch changes status in a step exactly when the task source writes it unfenced or with the lease still in the row |
| DispatchLifecycle.StableExactly | src/dispatch/openhive-source.ts:528-531 | a run of all writers leaves terminal dispatches alone exactly when each release and transition in it is harmless |
| DispatchLifecycle.GuardedIsHarmless | src/dispatch/setup.ts:249-361 | orchestrator events, mail replies, cancellations, reports and claims are harmless in any order |
| DispatchLifecycle.TerminalStays | src/dispatch/setup.ts:254-361 | once terminal, status and outcome stay for the rest of the run |
| DispatchLifecycle.FinalisedOnce | src/dispatch/setup.ts:254-361 | each dispatch is finalised at most once, whichever writers race for it |
| DispatchEndings.EndsAsSaid | src/dispatch/setup.ts:254-361 | over every harmless run, an open dispatch ends with a status and outcome exactly when an event said so while it was open: completed as complete, dead as failed, a cancellation as cancelled, a report as reported, a reply as it states |
| DispatchEndings.ReplyClassified | src/dispatch/mail-completion.ts:184-226 | a reply that is there and not blank states failure by its status, or by its error unless its status states success; else success |
| DispatchEndings.OpenGoesOn | src/db/dal/dispatches.ts:517-585 | an open row that no event ends goes on: claimed to running, reported running, released to queued, started to running, else as it was |
| DispatchEndings.OtherRowsStay | src/dispatch/setup.ts:181-363 | an event leaves the rows of other dispatches as they are |
| DispatchEndings.DispatchedRecorded | src/dispatch/setup.ts:198-222 | a dispatched attempt runs, keeps what was recorded of it, and is delivered as the event and the hint say, the event first |
| DispatchEndings.RetryingRecorded | src/dispatch/setup.ts:315-330 | a retried attempt is closed with its error and the time of the next |
| DispatchEndings.CompletedRecorded | src/dispatch/setup.ts:260-273 | the tracked attempt of an open dispatch is closed as completed and keeps its error |
| DispatchEndings.DeadRecorded | src/dispatch/setup.ts:294-308 | the last attempt of an open dispatch is closed as failed with the last error |
| DispatchEndings.UpsertLeaves | src/db/dal/dispatches.ts:642-647 | merging changes what the entry gives, in its attempt, and nothing else |
| DispatchEndings.HintIsLatest | src/dispatch/delivery-tracker.ts:28-36 | the hint at hand is always the last one marked and not yet taken |
| DispatchLifecycle.ReleaseHarmlessExactly | src/db/dal/dispatches.ts:537-550 | after any run, giving a claim on a terminal dispatch back is harmless exactly when it is fenced with something else than the token of the last claim won and not given back |
| DispatchLifecycle.StaleFencesAreHarmless | src/db/dal/dispatches.ts:537-585 | a run in which every release and transition carries a fence that is not that token leaves every terminal dispatch alone |
| DispatchLifecycle.ReleaseRevivesCancelled | src/db/dal/dispatches.ts:537-550 | from any state: a claimed dispatch that is cancelled and then released with its fence is queued again and can end twice |
| DispatchLifecycle.StartNeverMoves | src/dispatch/setup.ts:195-206 | over any run of all writers, from any history, an attempt never leaves the history and its start never changes |
| DispatchLifecycle.HistoryInOrder | src/db/dal/dispatches.ts:616-653 | the history stays in attempt order with no number twice |
| EventBridge.Bridge.ClaimDelivery | src/dispatch/delivery-tracker.ts:32-36 | reads the hint and clears it |
| EventBridge.Bridge.UpsertDispatchAttempt | src/db/dal/dispatches.ts:625-653 | merges into the attempt of that number or adds one; missing rows change nothing |
| EventBridge.Bridge.RecordAttemptDelivery | src/db/dal/dispatches.ts:713-750 | the same for a delivery, with a running stub when the attempt is new |
| EventBridge.Bridge.UpdateDispatchStatus | src/db/dal/dispatches.ts:475-496 | writes the status, and the outcome only if one is given |
| EventBridge.Bridge.FinalizeDispatch | src/dispatch/finalize.ts:25-54 | ends the dispatch with the deduplicated outcome |
| EventBridge.Bridge.PairDelivery | src/dispatch/setup.ts:207-222 | pairs the event with the adapter's hint and records what is known |
| EventBridge.Bridge.OnDispatched | src/dispatch/setup.ts:198-222 | performs the `dispatched` step |
| EventBridge.Bridge.OnCompleted | src/dispatch/setup.ts:254-278 | performs the `completed` step, only on an open dispatch |
| EventBridge.Bridge.OnDead | src/dispatch/setup.ts:286-312 | performs the `dead` step, only on an open dispatch |
| EventBridge.Bridge.OnRetrying | src/dispatch/setup.ts:315-330 | performs the `retrying` step |
| EventBridge.Bridge.Cancel | src/dispatch/setup.ts:356-362 | cancels an open dispatch and leaves any other alone |
| EventBridge.Bridge.FindRunningByConversation | src/db/dal/dispatches.ts:775-789 | finds an open dispatch of the conversation exactly when there is one, and of several the one updated last |
| EventBridge.Bridge.OnTurn | src/dispatch/mail-completion.ts:63-126 | performs the mail step on the open dispatch of the conversation updated last, if there is one |
| Continuation.DeliveryTracker.Increment | src/dispatch/delivery-tracker.ts:50-55 | raises the task's counter by one and returns it |
| Continuation.DeliveryTracker.ClearCount | src/dispatch/delivery-tracker.ts:61-63 | forgets the task's counter |
| Continuation.DeliveryTracker.Policy | src/dispatch/setup.ts:117-140 | decides as the budgets say and spends the thread budget exactly on thread-driven turns |
| Continuation.ThreadBudget | src/dispatch/delivery-tracker.ts:42-63 | over every interleaving of tasks the counter is the number of thread-driven turns since the task last ended, and never passes the limit |
| Continuation.PendingOnlyShortens | src/dispatch/setup.ts:130-139 | with messages pending a turn is granted exactly when it would be without them and the thread budget is not spent |
| Continuation.SessionEnds | src/dispatch/setup.ts:117-119 | whatever the thread and other tasks do, a session is granted at most what `maxTurns` leaves |
| Continuation.BusyThreadExactly | src/dispatch/setup.ts:117-140 | a session with messages always pending gets exactly the smaller remainder of the two budgets |
| Continuation.SilentThreadExactly | src/dispatch/setup.ts:139 | a silent session gets exactly what the turn budget leaves |
| Continuation.SessionExactly | src/dispatch/setup.ts:117-140 | for any mixture of turns a session is granted exactly the turns before the first that uses up a budget or has a codex worker behind it |
| DeepMerge.DeepMerge | src/config-persistence.ts:48-77 | the loop that assigns to and deletes from a copy computes the recursive merge |
| DeepMerge.MergeIsMergePatchExactly | src/config-persistence.ts:48-77 | the merge is JSON Merge Patch (RFC 7396, section 2) exactly when no patch null sits inside an object copied verbatim |
| DeepMerge.MergeIdempotentExactly | src/config-persistence.ts:48-77 | applying a patch twice equals applying it once exactly under the same condition |
| DeepMerge.MergeOntoItself | src/config-persistence.ts:48-77 | merging an object into itself gives it back exactly when it holds no null |
| DeepMerge.PatchOntoNothing | src/config-persistence.ts:60-74 | copying an object patch verbatim agrees with Merge Patch exactly when it holds no null |
| DeepMerge.UnmentionedIsKept | src/config-persistence.ts:48-77 | every path the patch does not mention keeps its value or its absence |
| DeepMerge.LeafIsSet | src/config-persistence.ts:48-77 | a leaf of the patch is what the merge holds at its path |
| DeepMerge.NullRemoves | src/config-persistence.ts:48-77 | a null of the patch removes its path, unless it was copied verbatim |
| DeepMerge.VerbatimNullSurvives | src/config-persistence.ts:48-77 | the smallest place where the two differ |
| HiveSlug.SlugifyIsSlug | electron-app/src/main.ts:564-571 | the result is non-empty, over lower-case letters, digits and single inner dashes |
| HiveSlug.SlugsAreFixed | electron-app/src/main.ts:564-571 | exactly the slugs are left as they are |
| HiveSlug.SlugifyIdempotent | electron-app/src/main.ts:564-571 | slugifying twice is slugifying once |
| HiveSlug.SlugKeepsLettersAndDigits | electron-app/src/main.ts:564-571 | every letter and digit of the lower-cased basename stays, in order; only a name with none becomes "hive" |
| HiveSlug.SlugIsWordsJoined | electron-app/src/main.ts:564-571 | the slug is the words of the lower-cased basename joined by single dashes; "hive" if there are none |
| HiveSlug.BasenameIsLastName | electron-app/src/main.ts:565 | the basename is the last name of the path, whatever directory and however many slashes |
| HiveRegistry.FirstFree | electron-app/src/main.ts:580-581 | the first free candidate exists: candidates are pairwise distinct and the taken set is finite |
| HiveRegistry.CandidatesDiffer | electron-app/src/main.ts:581 | numbered candidates of one base are pairwise distinct |
| HiveRegistry.Settings.EnsureHiveId | electron-app/src/main.ts:575-585 | the suffix loop ends, and issues the first free candidate to a directory without an id |
| HiveRegistry.Settings.ResolveHiveId | electron-app/src/main.ts:588-593 | finds a directory with that id exactly when there is one |
| HiveRegistry.IssueKeeps | electron-app/src/main.ts:575-585 | one request keeps the registry injective and every other id as it was |
| HiveRegistry.IssuedIsOwnSlug | electron-app/src/main.ts:578-582 | a directory without an id gets its own slug with the least free number, written in decimal |
| HiveRegistry.DigitsAreDecimal | electron-app/src/main.ts:581 | numbers are written in decimal without leading zeros |
| HiveRegistry.RegistryIsStable | electron-app/src/main.ts:575-585 | any sequence of requests keeps the registry injective and every issued id; every directory asked for has an id |
| HiveRegistry.ResolveIsInverse | electron-app/src/main.ts:588-593 | after any sequence of requests, resolving the id of a directory asked for gives that directory back |
| HiveRegistry.IssuableIsOpaque | electron-app/src/main.ts:580-583 | no id that can be issued is empty or holds a slash |
| HiveRegistry.ParseDeepLinkExactly | electron-app/src/main.ts:838-843 | a link of the reserved form parses to its id and route |
| HiveRegistry.OnlyTargetsHaveIds | electron-app/src/main.ts:838-843 | any other link is forwarded as it came, without an id |
| HiveRegistry.DeepLinkRoundTrip | electron-app/src/main.ts:838-843 | for every issuable id and one-line route the link parses back to both |
| RecentHives.RecentList.RecordRecentHive | electron-app/src/main.ts:408-414 | moves the directory to the front, drops its other spellings and caps the list |
| RecentHives.CapForgetsNothingShown | electron-app/src/main.ts:408-414 | over any sequence of openings the capped list is the front of the uncapped one |
| RecentHives.ShowsTen | electron-app/src/main.ts:411 | ten directories are shown, or as many as were opened |
| RecentHives.UncappedIsByRecency | electron-app/src/main.ts:407-411 | that list is ordered by last use |
| RecentHives.UncappedHoldsAllOpened | electron-app/src/main.ts:407-411 | and holds exactly what was opened |
| DirtyPaths.ParseDirtyPaths | src/git-store.ts:168-181 | the index loop with its extra step computes the path list of the non-empty pieces between NULs |
| DirtyPaths.TokensOfPrint | src/git-store.ts:168-181 | cutting a listing at its NULs gives back its tokens |
| DirtyPaths.PathsInTokensExactly | src/git-store.ts:168-181 | tokens yield exactly the paths and origins exactly when renames are marked in the first column |
| DirtyPaths.RoundTripExactly | src/git-store.ts:168-181 | parsing what git prints returns every path and every rename origin, in order, exactly under that condition |
| DirtyPaths.StatusIsCutOff | src/git-store.ts:168-181 | an origin taken for an entry loses its first three characters |
| DirtyPaths.CutOffRename | src/git-store.ts:168-181 | input that ends after a rename's own path yields an undefined origin behind it |

## Left out

- SQL, git, the file system, mail RPC and the codex runtime: tables are maps and sequences, calls are steps that succeed or fail.
- Order of query results: the queries give none; the model takes the order of the table, and results about order speak of that.
- Row deletion and re-parenting: streams change status and commits during a run, but rows neither disappear nor move; dispatch rows exist throughout, as the callers of the conversation factory look them up first.
- PrWalker.BuildPrStackPlan: is proved from every root at which the source ends; at the others it recurses without end (PrTermination.BuilderEndsExactly), up to the stack's own limit, which is not modelled.
- DiffCacheRuns.RunTransparent: leaves the flag `truncated` to FlagsRightExactly, since the source serves hits as not truncated.
- DiffCacheRuns.RunStrandsNothing: covers merged and abandoned streams; after a rebase the stream stays active and the source accepts a leftover row. Other changes of the projection during a run never let an open stream share an id.
- Failing evictions: the source swallows them; the model's evictions succeed together with the status change.
- RepoSlots.RunConserves: assumes fresh agent ids and a delivery recorder that does not throw; after `stopAll` only the bound and the absence of lost wake-ups are kept.
- SwarmCodexRuntime.Slots.StopAll: models the synchronous end of `stopAll`; its earlier awaits are covered by arbitrary stop steps.
- Two spawns that build the runtime of one directory at the same time: runtime objects are not modelled, only slots.
- OverlayStaging: the remote effect of setting and clearing rules is not modelled.
- MailTransport.SingleFlightHolds: speaks of one key; two agents whose ids join to the same key share a conversation, and `destroy` is not part of the model.
- Time: attempts carry whatever timestamp their event had; lease expiry and renewal do not affect status and are left out.
- EventBridge.Bridge.FindRunningByConversation: is given the rows in the order of their last update, which the model does not keep.
- ArrivalOrder.BargingExactly: takes from the event loop that resolved waits resume in the order of their wakes; what holds in any order of resumption is OvertakesExactly and ArrivalOrderExactly.
- JSON.parse and lower-casing in mail replies: a reply carries what parsing made of it, with its status in lower case.
- Malformed stored JSON: an unreadable attempt history reads as empty in the source; the model's histories are readable.
- Review verdicts, spec-thread turns, terminal hooks, invitations and broadcasts of the event handlers: they do not touch the modelled state.
- HiveSlug.SlugifyIsSlug: covers POSIX paths; lower-casing is a parameter, required to leave slugs alone where that matters.
- DeepMerge.MergeIsMergePatchExactly: a member named `__proto__` and undefined values, which JSON cannot carry, are not modelled; numbers are reals.
- RecentHives.CapForgetsNothingShown: assumes that canonicalising is idempotent and does not change between openings.
- Loadout side channel, prompt building, routing, roster, policy resolvers, review inbox: easy members that would add little.
- Bridge manager, server bootstrap, command line, Electron windows and menus, credentials: not modelled.
