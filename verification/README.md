# Verified models of libdatadog components

This project models parts of libdatadog in Dafny and proves what they guarantee over
all inputs and all runs. `dafny verify dfyconfig.toml` checks all of it.

| files | what they model |
|---|---|
| `PoolSteps`, `PoolRuns`, `PoolInvariant`, `PoolTheorems`, `PoolProgress` | the shared-memory limiter pool as a transition system of atomic steps: one allocator, any number of other threads |
| `PoolOps`, `PoolMemory` | the same pool one whole operation at a time, as objects, tied to the steps |
| `SlidingWindow` | the sliding-window rate limiter |
| `SketchStore`, `Sketch`, `SketchMapping` | the DDSketch: its bounded store, ranks read from it, and the logarithmic mapping |
| `ProbeExpr`, `ProbeSemantics`, `ProbeResidue`, `ProbeEval`, `ProbeLaws`, `ProbeFacts`, `ProbeMain` | the probe-expression evaluator, as an object that overwrites its iterator variable, against an environment-passing semantics |
| `Layouts`, `Linear`, `Chain`, `Pages` | the arena allocators and page rounding |
| `Batching`, `Aggregator`, `Tags` | metric payloads, the metric aggregator and tag lists |
| `Arith`, `Texts`, `Wrappers` | shared arithmetic, splitting and joining of text, Option and Result |

## What is assumed

- The pool has one allocator: `next_free` takes an exclusive reference, and its compare-and-swap
  carries no version tag. Threads drop only handles that exist. Steps are sequentially consistent.
- Never-written shared memory reads as zero.
- The clock of the limiter does not run backwards, and its granularity is positive.
- The logarithmic mapping is exact: bin bounds are positive and each is gamma times the one below.
- The evaluator's callbacks are pure functions.
- The backing allocator answers with fresh, disjoint, aligned, large enough memory, or fails.
- The hash of a context is an arbitrary function; where a statement needs it not to collide, it says so.

## Where the code does less than it says

- Pool, `get`: on giving up, it drops the handle it has built, which lowers the count of a slot that
  nobody holds. A later `get` then takes the negative count for a live slot, and a `get` that
  gives up late can free a slot that was allocated again. `AccountedIffCareful` states exactly
  when a run is free of this, and `HeldIsCareful` that callers whose slot is held are safe.
- Pool, `next_free`: its temporary handle leaves a free slot with a negative count when its
  compare-and-swap loses a race (`FreeSlotWithNegativeCount`). `CountIsHandlesLessLowered` says what every count is, and
  `GetTestRightIffNotLowered` exactly when `get` judges a slot rightly.
- Limiter: a call with limit zero can be accepted (`ZeroLimitAcceptedIff`).
- Sketch: a rank that falls in the lowest bin is inaccurate exactly for points below the window (`RankAccurateIff`),
  and every mapping has such a rank (`CollapsedRankIsInaccurate`).
- Evaluator: a failure inside an iteration leaves its item behind, and the next part of a template can read it (`ItemLeaks`);
  `IndependentIff` states exactly which templates are free of this.
- Sketch: the documentation of `add_with_count` asks for a positive count; the code accepts every finite one, negative
  ones included (`AddWithCount`). The theorems on ranks speak of counts that are not negative.
- Tags: the documentation of `id` says duplicates are removed; that holds only for duplicates next to each other (`DuplicatesRemovedIff`).

## Model

| member | source | states |
|---|---|---|
| PoolSteps.SlotIffCongruent | ipc/src/rate_limiter.rs:41 | The offsets of slots are exactly those at or above the start offset and congruent to it modulo the slot size. |
| PoolSteps.SlotsDisjoint | ipc/src/rate_limiter.rs:41-50 | Two slots never overlap each other, and no slot overlaps the four bytes of the list head. |
| PoolSteps.GetAssertion | ipc/src/rate_limiter.rs:139-143 | The assertion at the start of `get` accepts slot offsets if and only if the alignment is smaller than the slot size. |
| PoolInvariant.DropTempKeeps | ipc/src/rate_limiter.rs:75-81 | The temporary handle inside `next_free` lowers the count of a free slot, and the pool invariant survives it. |
| PoolInvariant.PopKeeps | ipc/src/rate_limiter.rs:72-100 | The untagged compare-and-swap of the single allocator has no ABA problem: when the head is still the slot that was read, the target is still that slot's successor, so popping keeps the invariant. |
| PoolInvariant.PopMovesFrontier | ipc/src/rate_limiter.rs:82-89 | Popping the never-used slot makes the slot above it the new frontier, and that slot is mapped, free and unlinked. |
| PoolInvariant.InitKeeps | ipc/src/rate_limiter.rs:106-120 | Storing a count of one over whatever the popped slot held makes the count equal to its one handle. |
| PoolInvariant.GetKeeps | ipc/src/rate_limiter.rs:139-163 | A `get` that raises a positive count, or lowers the count of a slot nobody holds, keeps the invariant, whoever else is running. |
| PoolInvariant.DropKeeps | ipc/src/rate_limiter.rs:274-285 | The thread that takes the count from one to zero, and only that thread, becomes the one pusher of the slot. |
| PoolInvariant.LinkKeeps | ipc/src/rate_limiter.rs:242-248 | A pusher writes the link of its own slot only, and nothing on the free chain changes. |
| PoolInvariant.PushKeeps | ipc/src/rate_limiter.rs:242-257 | A successful push puts the slot on top of the free chain; a failed one changes nothing but what the pusher has seen. |
| PoolInvariant.StepKeeps | ipc/src/rate_limiter.rs:72-163 | Every atomic step of the allocator and of any other thread keeps the invariant, given that a `get` step is careful. |
| PoolTheorems.RunInv | ipc/src/rate_limiter.rs:72-163 | Every state of every careful run from the creation of the pool has a consistent free chain and one owner for every slot. |
| PoolTheorems.EverySlotAccountedFor | ipc/src/rate_limiter.rs:72-285 | In every careful interleaving each slot below the frontier is in exactly one place: on the acyclic free chain, held with a count equal to its handles, popped and being initialised, or being pushed by exactly one thread. |
| PoolTheorems.NeverHandedOutTwice | ipc/src/rate_limiter.rs:106-120 | A slot about to be handed out has no handle and no pusher; handing it out gives it exactly one handle and a count of one. |
| PoolTheorems.TemporaryNeverFrees | ipc/src/rate_limiter.rs:75-81 | The temporary handle never sees a count of one, so dropping it never pushes a slot. |
| PoolTheorems.CarelessMiscounts | ipc/src/rate_limiter.rs:150-163 | A `get` that raises a negative count, or lowers the count of a held slot when it gives up, leaves a slot whose count is not the number of its handles. |
| PoolTheorems.StepAccountedIff | ipc/src/rate_limiter.rs:139-163 | From a consistent state, a step leaves every slot accounted for if and only if it is careful. |
| PoolTheorems.AccountedIffCareful | ipc/src/rate_limiter.rs:72-285 | Along a run every slot stays accounted for if and only if no `get` of the run is careless; this is the exact limit of the pool's guarantee. |
| PoolTheorems.HeldIsCareful | ipc/src/rate_limiter.rs:139-163 | If somebody holds the slot at every step of a `get`, the run is careful, no `get` of it gives up, and each one that ends has one more handle to its slot and one more count. |
| PoolProgress.AllocFinishesAlone | ipc/src/rate_limiter.rs:72-120 | From every state of every careful run, however stale the head it has read, the allocator left alone ends within ten steps, with one more handle to a slot and a count of one on it. |
| PoolProgress.GetFinishesAlone | ipc/src/rate_limiter.rs:148-163 | From every state of every run, a `get` that has read a count ends within two steps once left alone: with one more handle and one more count, or giving up on a count of zero. |
| PoolProgress.PushFinishesAlone | ipc/src/rate_limiter.rs:242-257 | From every state of every careful run, a push left alone ends within four steps with its slot as the head, linked to the head it replaces, and no count or handle changed. |
| PoolTheorems.GetTestRightIffNotNegative | ipc/src/rate_limiter.rs:150-154 | A slot is live if and only if its count is positive, so the test of `get` for a non-zero count is right if and only if the count is not negative. |
| PoolTheorems.CountIsHandlesLessLowered | ipc/src/rate_limiter.rs:72-163 | In every careful run the count of a slot is the number of its handles less the times that a temporary handle of the allocator or a `get` that gave up has lowered it since it was last handed out. |
| PoolTheorems.GetTestRightIffNotLowered | ipc/src/rate_limiter.rs:150-154 | In every careful run the test of `get` for a non-zero count is right for a slot if and only if nothing has lowered its count that way since it was last handed out. |
| PoolTheorems.FreeSlotWithNegativeCount | ipc/src/rate_limiter.rs:72-100 | A run without any `get` in which a free slot is left with count -1: another thread pushes between the decrement and the compare-and-swap of `next_free`. |
| PoolTheorems.SecondGetRevives | ipc/src/rate_limiter.rs:145-163 | A run in which two `get` calls for the same free slot hand it out while it is the head of the free list, because the first one lowers the count when it gives up. |
| PoolTheorems.FailedGetFreesLive | ipc/src/rate_limiter.rs:145-163 | A run in which a `get` that saw a free slot drops its unused handle after the slot was allocated again, and starts pushing the live slot. |
| PoolTheorems.AccessesInBounds | ipc/src/rate_limiter.rs:72-100 | Every slot access of every careful run, the read of the frontier slot included, lies inside mapped memory. |
| PoolTheorems.GettersInBounds | ipc/src/rate_limiter.rs:122-145 | Once `ensure_index` has let a `get` through, its slot stays inside mapped memory in every run. |
| PoolOps.SettledCount | ipc/src/rate_limiter.rs:148-154 | Between operations a slot is live if and only if its count is positive, and then the count is the number of its handles. |
| PoolRuns.AllocSteps | ipc/src/rate_limiter.rs:72-120 | With nothing in between, the six atomic steps of an allocation hand out the head slot with a count of one and leave its successor as the head, whatever the other threads are in the middle of. |
| PoolRuns.PushSteps | ipc/src/rate_limiter.rs:242-257 | With nothing in between, the three atomic steps of a push link the slot to the old head and make it the head. |
| PoolRuns.LastDropSteps | ipc/src/rate_limiter.rs:226-285 | The ordinary and the conditional drop of a last handle, each as a run of four atomic steps, lead to the same state. |
| PoolRuns.GetSteps | ipc/src/rate_limiter.rs:139-163 | The two atomic steps of a `get` that finds a count other than zero raise it by one; they are careful if and only if the count was positive. |
| PoolRuns.GetFailSteps | ipc/src/rate_limiter.rs:145-163 | The two atomic steps of a `get` that finds zero leave -1; they are careful if and only if nobody holds the slot. |
| PoolRuns.GetStarts | ipc/src/rate_limiter.rs:148-154 | A `get` starts by giving up on a count of zero and by remembering any other count. |
| PoolRuns.GetEnds | ipc/src/rate_limiter.rs:155-163 | Whoever runs in between, a `get` ends only by its own compare-and-swap, exactly when the count is the one it read last, and then with one more handle and one more count; otherwise it retries with the count it finds, or gives up on zero. |
| PoolRuns.AllocEnds | ipc/src/rate_limiter.rs:91-120 | The allocator becomes idle only by handing out the slot it has popped, with one more handle and a count of one. |
| PoolRuns.PushEnds | ipc/src/rate_limiter.rs:242-257 | A push ends only by its own compare-and-swap, with its slot as the head. |
| PoolRuns.DropsEnd | ipc/src/rate_limiter.rs:226-285 | A drop takes away one handle and one count; the conditional drop does the same as the ordinary one on a count of one, and on any other count changes nothing. |
| PoolOps.AllocSettles | ipc/src/rate_limiter.rs:106-120 | Running the six atomic steps of an allocation from a settled pool reaches the allocated state, which is settled, with the top of the chain handed out. |
| PoolOps.LastDropSettles | ipc/src/rate_limiter.rs:226-285 | Running the four atomic steps of either last drop from a settled pool reaches a settled pool with the slot on top of the free chain. |
| PoolOps.GetSettles | ipc/src/rate_limiter.rs:139-163 | Running the load and the compare-and-swap of a `get` of a live slot reaches a settled pool with one more handle and one more count. |
| PoolOps.GetFailSettles | ipc/src/rate_limiter.rs:145-154 | Running the load and the decrement of a `get` that finds zero reaches a settled pool with the slot still free and its count at -1. |
| PoolOps.DropSettles | ipc/src/rate_limiter.rs:274-285 | The one atomic step of dropping a handle that is not the last reaches a settled pool. |
| PoolOps.SlotNumberOffset | ipc/src/rate_limiter.rs:41-50 | A slot's offset is the start offset plus its number times the slot size. |
| PoolOps.LivePlusFree | ipc/src/rate_limiter.rs:72-100 | Between operations the live slots and the free slots together are all the slots below the frontier. |
| PoolMemory.ShmLimiterMemory.Create | ipc/src/rate_limiter.rs:43-50 | A new pool has no live handle and one free slot, at the start offset; it is consistent if and only if that slot fits the 0x1000 bytes mapped at creation. |
| PoolMemory.ShmLimiterMemory.NextFree | ipc/src/rate_limiter.rs:72-100 | Pops the head: the new head is its successor, or the next slot up when it was never used, and its count is one lower. |
| PoolMemory.ShmLimiterMemory.Alloc | ipc/src/rate_limiter.rs:106-120 | Hands out the top of the free list, which nobody held and which is mapped; live handles grow by exactly that one and the rest of the list is unchanged; the six atomic steps reach the same state. |
| PoolMemory.ShmLimiterMemory.EnsureIndex | ipc/src/rate_limiter.rs:122-137 | Succeeds if and only if the slot ends inside the mapping afterwards; the mapping never shrinks and no slot changes. |
| PoolMemory.ShmLimiterMemory.Get | ipc/src/rate_limiter.rs:139-163 | Some handle if and only if the count is not zero; with a count that is not negative, if and only if the slot is live, and the pool stays consistent; giving up leaves a zero count at -1; the atomic steps reach the same state. |
| PoolMemory.ShmLimiterMemory.ActualFree | ipc/src/rate_limiter.rs:242-257 | The slot becomes the head and links to the old head. |
| PoolMemory.ShmLimiter.Drop | ipc/src/rate_limiter.rs:274-285 | One handle goes away; the slot goes on top of the free list if and only if it was the last one; a spent handle does nothing; the atomic steps reach the same state. |
| PoolMemory.ShmLimiter.DropIfRc1 | ipc/src/rate_limiter.rs:226-240 | Drops if and only if this is the last handle, frees the slot then, and spends the handle; otherwise nothing changes. |
| PoolMemory.ShmLimiter.DropIfRc1ThenDrop | ipc/src/rate_limiter.rs:226-285 | The conditional drop followed by the ordinary one removes one handle and frees the slot at most once. |
| SlidingWindow.LocalLimiter.constructor | ddcommon/src/rate_limiter.rs:62-79 | A new limiter has no hits and the granularity asked for. |
| SlidingWindow.LocalLimiter.Reset | ddcommon/src/rate_limiter.rs:82-87 | A reset limiter is indistinguishable from a new one. |
| SlidingWindow.LocalLimiter.Update | ddcommon/src/rate_limiter.rs:89-104 | Drains the elapsed time and adds the increment; reports the hits before draining, or at most zero when the counter ran dry. |
| SlidingWindow.LocalLimiter.TryInc | ddcommon/src/rate_limiter.rs:108-122 | Refines the pure decision and transition on which the bounds below are proved. |
| SlidingWindow.IncMeans | ddcommon/src/rate_limiter.rs:89-122 | In every state, with d the elapsed time times the larger of the limit and the one last granted: a call with a positive limit is accepted if and only if the counter and one hit are below d or the counter is below the limit; with any limit the counter loses d, or restarts at zero when it ran dry, and an accepted call adds one hit. |
| SlidingWindow.IncKeepsRange | ddcommon/src/rate_limiter.rs:108-122 | Whatever limit is asked for, the counter stays at or above minus one granularity and below one granularity more than the limit last granted. |
| SlidingWindow.RunInRange | ddcommon/src/rate_limiter.rs:108-122 | The range holds after every run of `inc` with any mix of limits. |
| SlidingWindow.RunSpends | ddcommon/src/rate_limiter.rs:89-122 | Over any run the weight of the accepted calls is at most the growth of the counter plus limit times elapsed time. |
| SlidingWindow.WindowThroughput | ddcommon/src/rate_limiter.rs:108-122 | In any window of any run with limits at most m, the accepted calls weigh less than m + 2 granularities plus m times the elapsed time. |
| SlidingWindow.FreshThroughput | ddcommon/src/rate_limiter.rs:108-122 | From a fresh limiter the accepted calls weigh less than m + 1 granularities plus m times the elapsed time. |
| SlidingWindow.BurstIsAttained | ddcommon/src/rate_limiter.rs:108-122 | The throughput bound is attained: m + 1 calls can be accepted within a nanosecond. |
| SlidingWindow.Recovers | ddcommon/src/rate_limiter.rs:89-122 | A call with a positive limit is accepted once the elapsed time drains the limit in force plus two granularities. |
| SlidingWindow.RecoversAfterThree | ddcommon/src/rate_limiter.rs:89-122 | After three granularities of silence any call with a positive limit is accepted, in any reachable state. |
| SlidingWindow.ThreeIsTight | ddcommon/src/rate_limiter.rs:89-122 | For every granularity above one there is a run after which a call one nanosecond short of three granularities is rejected. |
| SlidingWindow.ZeroLimitAcceptedIff | ddcommon/src/rate_limiter.rs:108-112 | With limit zero a call is accepted if and only if the counter is exactly one granularity below zero, an effect of division toward zero. |
| SlidingWindow.ZeroLimitCanBeAccepted | ddcommon/src/rate_limiter.rs:108-112 | Such a counter is reachable: a run exists after which a call with limit zero is accepted. |
| SlidingWindow.UpdateFitsIff | ddcommon/src/rate_limiter.rs:89-104 | Every intermediate value of `update`, the elapsed time included, fits a signed 64-bit integer if and only if the time does, elapsed time times limit does, and the counter with the new hit does. |
| SketchStore.AddAgrees | ddsketch/src/lib.rs:148-200 | Adding through the window agrees with adding to the full histogram: top, offset, collapsed first bin and exact other bins. |
| SketchStore.CollapsesIff | ddsketch/src/lib.rs:154-200 | The store has as many bins as the indices seen span, or its maximum; bins are collapsed if and only if the span is larger than the maximum. |
| SketchStore.CollapseKeepsWeights | ddsketch/src/lib.rs:203-214 | Collapsing moves the start of the window up; the first bin then holds all weight at or below it and every other bin stays exact. |
| SketchStore.WidenAbove | ddsketch/src/lib.rs:177-195 | Making room for a higher bin, collapsing if needed, keeps every weight where the histogram has it. |
| SketchStore.OrderIndependent | ddsketch/src/lib.rs:148-214 | Two stores fed the same additions in different orders are equal, bins and offset. |
| SketchStore.NothingLost | ddsketch/src/lib.rs:148-214 | The bins of the store sum to the weight of everything added. |
| SketchStore.LowCollapsingDenseStore.CollapseLowBins | ddsketch/src/lib.rs:203-214 | The loop over pops folds the lowest bins, or all of them, into the new lowest bin and moves the offset. |
| SketchStore.LowCollapsingDenseStore.BinIdxToStoreIdx | ddsketch/src/lib.rs:154-200 | The loops that push and pop compute the widened window and the place of the bin in it, in every branch. |
| SketchStore.LowCollapsingDenseStore.AddTo | ddsketch/src/lib.rs:148-151 | The store equals the closed form of the histogram of all additions, after any sequence of them. |
| Sketch.AccuracyBalance | ddsketch/src/lib.rs:257-259 | The relative accuracy lies strictly between zero and one and balances both ends of a bin. |
| Sketch.AccuracyIff | ddsketch/src/lib.rs:257-259 | The relative accuracy is a if and only if gamma is (1 + a) / (1 - a), which is if and only if a is (gamma - 1) / (gamma + 1). |
| Sketch.AccurateMeans | ddsketch/src/lib.rs:257-259 | An error of at most (gamma - 1) / (gamma + 1) of the point is an error within the relative accuracy. |
| Sketch.OnlyValueIsAccurate | ddsketch/src/lib.rs:262-270 | The value of a bin is the only one that is accurate at both ends of the bin. |
| Sketch.ValueIsAccurate | ddsketch/src/lib.rs:262-270 | The error of the value of a point's bin is at most (gamma - 1) / (gamma + 1) of the point, which is the relative accuracy. |
| Sketch.IndexMonotone | ddsketch/src/lib.rs:262-264 | A larger point never has a lower bin. |
| Sketch.CountsAddUp | ddsketch/src/lib.rs:60-77 | The zero counter and the additions that reach the store together weigh what was accepted. |
| Sketch.RankFindsBin | ddsketch/src/lib.rs:39-45 | The entry that holds rank k from the top is the bin of the true k-th largest point, or the lowest bin with that point collapsed into it. |
| Sketch.RankAccurateIff | ddsketch/src/lib.rs:39-45 | Whatever the counts, as long as none is negative, the entry that holds rank k is within the relative accuracy of the true k-th largest point if and only if the point is not below the window. |
| Sketch.CollapsedRankIsInaccurate | ddsketch/src/lib.rs:203-214 | With every mapping, the points v and gamma times v in a store of one bin make the rank of v inaccurate. |
| Sketch.RankIsHeldOnce | ddsketch/src/lib.rs:39-45 | Every rank below the total count is held by exactly one entry. |
| Sketch.KthLargestExists | ddsketch/src/lib.rs:39-45 | Every rank below the total count has a true point. |
| Sketch.EveryRankIsRead | ddsketch/src/lib.rs:39-45 | For every run of additions without negative counts and every rank below their total, exactly one entry holds the rank; it is the zero bin of a point too small to index, or accurate if and only if the true point is not below the window. |
| Sketch.UnitRanks | ddsketch/src/lib.rs:53-56 | For points that each count once, ranks are positions in the descending list of points, and their total is their number. |
| Sketch.RanksAreAccurate | ddsketch/src/lib.rs:39-45 | Every rank is accurate above the lowest bin, and in the lowest bin too when nothing was collapsed. |
| Sketch.ZeroBinRanks | ddsketch/src/lib.rs:39-45 | When the zero bin holds rank k, the true k-th largest point is too small to index. |
| Sketch.HigherBinIsInaccurate | ddsketch/src/lib.rs:262-270 | The value of any bin above a point's own bin is outside the relative accuracy of the point. |
| Sketch.OrderedBinsSorted | ddsketch/src/lib.rs:39-45 | The bins come out in strictly ascending order of value, so the final sort changes nothing. |
| Sketch.DDSketch.constructor | ddsketch/src/lib.rs:126-138 | An empty sketch, which keeps its promises if and only if its store may hold a bin. |
| Sketch.DDSketch.AddWithCount | ddsketch/src/lib.rs:60-77 | Accepts exactly finite counts and finite points that are not negative, remembers them, and on an error changes nothing; a bad count is reported before a bad point. |
| Sketch.DDSketch.Count | ddsketch/src/lib.rs:48-50 | The count is the total weight accepted: collapsing loses none of it. |
| Sketch.DDSketch.GetOrderedBins | ddsketch/src/lib.rs:39-45 | The entries are sorted by value, weigh what was accepted, and are those the rank theorems speak about, with accuracy in terms of gamma alone. |
| SketchMapping.PowersMap | ddsketch/src/lib.rs:232-250 | For every gamma above one and every index offset a mapping with the assumed properties exists: the powers of gamma, moved. |
| ProbeResidue.AfterFilter | live-debugger/src/expr_eval.rs:396-403 | A filter loop leaves the iterator variable as it was if it succeeds, and set to something if it fails. |
| ProbeResidue.AfterCollection | live-debugger/src/expr_eval.rs:390-407 | A collection leaves the iterator variable alone when it succeeds or has no filter, any or all in it, and never unsets it. |
| ProbeResidue.AfterMatch | live-debugger/src/expr_eval.rs:460-489 | An `any` or `all` loop leaves the iterator variable as it was if it succeeds, and set to something if it fails. |
| ProbeResidue.AfterCondition | live-debugger/src/expr_eval.rs:432-508 | A condition leaves the iterator variable alone when it succeeds or has no filter, any or all in it, and never unsets it. |
| ProbeResidue.AfterReference | live-debugger/src/expr_eval.rs:337-388 | A reference leaves the iterator variable alone when it succeeds or has no filter, any or all in it, and never unsets it. |
| ProbeEval.Eval.GetValue | live-debugger/src/expr_eval.rs:243-251 | The mutating evaluator returns the result or error of the environment-passing semantics, and leaves in `it` exactly the residue. |
| ProbeEval.Eval.GetNumber | live-debugger/src/expr_eval.rs:253-269 | As the semantics, for numbers and collection sizes. |
| ProbeEval.Eval.GetIndex | live-debugger/src/expr_eval.rs:290-294 | As the semantics, for numbers used as an index, with the error wrapped. |
| ProbeEval.Eval.GetStringSource | live-debugger/src/expr_eval.rs:296-321 | As the semantics, for strings and substrings, bounds errors included. |
| ProbeEval.Eval.GetText | live-debugger/src/expr_eval.rs:427-430 | As the semantics, for a string used as text. |
| ProbeEval.Eval.GetReference | live-debugger/src/expr_eval.rs:337-388 | As the semantics, for references: the dimension before the collection, and unresolved references kept apart from errors; FilterIndex, EnumeratedIndex and PathIsWalk say what that selects. |
| ProbeEval.Eval.GetItems | live-debugger/src/expr_eval.rs:323-335 | As the semantics, for the items of a reference. |
| ProbeEval.Eval.GetCollection | live-debugger/src/expr_eval.rs:390-407 | The filter loop, which overwrites `it`, returns the filtered items of the semantics and restores `it` on success. |
| ProbeEval.Eval.MatchAll | live-debugger/src/expr_eval.rs:465-474 | The loop of `all`, with its early exits, returns what the semantics does. |
| ProbeEval.Eval.MatchAny | live-debugger/src/expr_eval.rs:475-484 | The loop of `any`, with its early exits, returns what the semantics does. |
| ProbeEval.Eval.Holds | live-debugger/src/expr_eval.rs:432-508 | For every condition the evaluator returns the semantics' result or error and leaves exactly the residue in `it`. |
| ProbeSemantics.Slice | live-debugger/src/expr_eval.rs:300-316 | A substring exists if and only if its start is not past its end and lies inside the string, or both are at its very end; it is the stretch from the start, cut off where the string ends. |
| ProbeSemantics.HasInfix | live-debugger/src/expr_eval.rs:441 | Contains holds if and only if the needle starts somewhere in the haystack. |
| ProbeSemantics.FloatToIndex | live-debugger/src/expr_eval.rs:274 | A number in range becomes the index just at or below it, negative numbers become zero, and numbers out of range the largest index. |
| ProbeLaws.FilterFilter | live-debugger/src/expr_eval.rs:390-407 | Two nested filters succeed if and only if one filter by the conjunction does, with the same items. |
| ProbeLaws.NotAny | live-debugger/src/expr_eval.rs:460-502 | Not any is all not, with the same errors. |
| ProbeLaws.DeMorgan | live-debugger/src/expr_eval.rs:495-502 | Both De Morgan laws hold with the same errors. |
| ProbeLaws.FilterDecides | live-debugger/src/expr_eval.rs:390-407 | A filter that succeeds decides any and all: something was kept, or nothing was removed. |
| ProbeFacts.FilterSucceedsIff | live-debugger/src/expr_eval.rs:390-407 | A filter succeeds if and only if its condition does on every item. |
| ProbeFacts.FilterFailsFirst | live-debugger/src/expr_eval.rs:390-407 | A filter that fails has the error of the first item on which its condition fails. |
| ProbeFacts.FilterSelects | live-debugger/src/expr_eval.rs:390-407 | Entry k of a filter is the item on which the condition holds for the (k + 1)-th time. |
| ProbeFacts.FilterIndex | live-debugger/src/expr_eval.rs:344-359 | An index into a filter selects the item on which the condition holds for the (index + 1)-th time, and is unresolved, not an error, if and only if the condition holds on no more items than the index. |
| ProbeFacts.EnumeratedIndex | live-debugger/src/expr_eval.rs:344-359 | An index into a filter that keeps everything is the item at that place of the enumerated collection. |
| ProbeFacts.FilterSize | live-debugger/src/expr_eval.rs:256-266 | The size of a filter is the number of items its condition holds on. |
| ProbeFacts.FirstDecides | live-debugger/src/expr_eval.rs:475-484 | Any is decided by the first item on which its condition is not false, error or success, and nothing after it matters; with NotAny the same follows for all. |
| ProbeFacts.NoneDecides | live-debugger/src/expr_eval.rs:475-484 | Any is false when its condition is false on every item. |
| ProbeFacts.Units | live-debugger/src/expr_eval.rs:494-502 | A constant operand decides a conjunction or disjunction, whatever the other operand does, or drops out of it; a double negation does too. |
| ProbeFacts.FirstErrorWins | live-debugger/src/expr_eval.rs:337-388 | An error in an index, a member name or a left operand is the error of the whole, whatever the rest is. |
| ProbeFacts.ComparesAsNumbers | live-debugger/src/expr_eval.rs:449-459 | When the callbacks compare two operands as numbers do, the six comparisons are those of the numbers, in this order of operands. |
| ProbeFacts.ComparesStrings | live-debugger/src/expr_eval.rs:436-448 | Starts-with, ends-with and contains hold if and only if the haystack is the needle with something after it, before it, or around it; matches is the library's answer for that pattern and text. |
| ProbeFacts.EmptyIffSizeZero | live-debugger/src/expr_eval.rs:490-493 | Is-empty is the comparison of the size with zero, with the same errors. |
| ProbeFacts.SubstringSplits | live-debugger/src/expr_eval.rs:296-321 | A string is its substring up to k followed by its substring from k to its length. |
| ProbeFacts.ConvertsIndex | live-debugger/src/expr_eval.rs:271-288 | A text is the index it parses to, a program value the one its callback gives, a whole number itself, null is zero, and a boolean is none. |
| ProbeFacts.PathIsWalk | live-debugger/src/expr_eval.rs:337-388 | A path of member names and element numbers is resolved if and only if every fetch along it is, to the value where the fetches end. |
| ProbeFacts.DefinedIffWalk | live-debugger/src/expr_eval.rs:489 | Is-defined of a variable's path holds if and only if the variable exists and the walk along the path ends, and it never fails. |
| ProbeFacts.PathIsUsed | live-debugger/src/expr_eval.rs:197-231 | Where a path ends is what instance-of, size, value and iteration see; a path that ends nowhere is an error for each of them. |
| ProbeLaws.ClosedConditionIgnoresIt | live-debugger/src/expr_eval.rs:432-508 | A condition that does not mention the iterator variable outside an iteration does not depend on it. |
| ProbeMain.EvalCondition | live-debugger/src/expr_eval.rs:511-521 | A probe condition means what the semantics says with no iterator variable. |
| ProbeMain.EvalValue | live-debugger/src/expr_eval.rs:583-597 | A probe value means what the semantics says with no iterator variable; the ProbeFacts rows say what that is. |
| ProbeMain.EvalPart | live-debugger/src/expr_eval.rs:541-570 | One part of a template, with the iterator variable its predecessors left behind. |
| ProbeMain.EvalString | live-debugger/src/expr_eval.rs:523-581 | A template: failed parts read UNDEFINED and are reported in order, and later parts are still evaluated. |
| ProbeMain.RendersInOrder | live-debugger/src/expr_eval.rs:523-581 | The rendering of a template is, read from the front, the text of each part or UNDEFINED in its place, and the list of every failed part with its error, in order. |
| ProbeMain.PartsShow | live-debugger/src/expr_eval.rs:409-430 | Text parts show their text, null nothing, numbers what the library prints, booleans true or false, and a reference the same as its value. |
| ProbeMain.ListShows | live-debugger/src/expr_eval.rs:559-567 | A filtered collection shows as a bracketed list of its items, separated by commas. |
| ProbeMain.QuietPartLeavesNothing | live-debugger/src/expr_eval.rs:541-570 | A part that succeeds, or that has no filter, any or all in it, leaves nothing in the iterator variable. |
| ProbeMain.CleanIff | live-debugger/src/expr_eval.rs:523-581 | A template leaves nothing in the iterator variable if and only if none of its parts would on its own. |
| ProbeMain.PartsAreIndependent | live-debugger/src/expr_eval.rs:523-581 | When every part is closed or comes after parts that leave nothing behind, the template reads as if each part were evaluated alone. |
| ProbeMain.NextIsIndependentIff | live-debugger/src/expr_eval.rs:523-581 | After parts that read as if alone, every possible next part does too if and only if nothing was left behind. |
| ProbeMain.IndependentIff | live-debugger/src/expr_eval.rs:523-581 | The parts of a template are independent of each other, whatever follows any of them, if and only if each part on its own leaves nothing behind. |
| ProbeMain.ItemLeaks | live-debugger/src/expr_eval.rs:523-581 | A template whose second part reads the item its failed first part left behind, instead of failing. |
| Layouts.AlignOffset | alloc/src/linear.rs:102-104 | The offset is below the alignment, reaches an aligned address, and is zero on aligned addresses. |
| Linear.LinearAllocator.constructor | alloc/src/linear.rs:32-44 | A new bump allocator uses the whole chunk it was given and has handed out nothing. |
| Linear.LinearAllocator.Allocate | alloc/src/linear.rs:94-131 | A block of the size and alignment asked for, inside the chunk and apart from all earlier blocks; none if and only if the size is zero or the capacity query says no; the block starts at the first aligned address. |
| Linear.LinearAllocator.CapacityIff | alloc/src/linear.rs:70-80 | The capacity query says yes if and only if some aligned address past the used part has room for the block inside the chunk. |
| Chain.ChainAllocator.constructor | alloc/src/chain.rs:96-107 | A new chain has no chunk and a chunk size of at least four headers. |
| Chain.ChainAllocator.Grow | alloc/src/chain.rs:111-153 | Adds one chunk with its header in place and linked to the old top, newly lent by the backing allocator; fails if and only if the larger of the bytes asked for and the chunk size, rounded up, leaves the signed range, or the backing allocator fails, and then changes nothing. |
| Chain.FreshHasRoom | alloc/src/chain.rs:235-253 | A chunk of the size `allocate` asks for always has room for header, worst-case padding and block. |
| Chain.ChainAllocator.MakeRoom | alloc/src/chain.rs:235-256 | Room is made if and only if the top chunk had it, or the chunk size is representable and the backing allocator delivers; the request never turns out too small, and the backing allocator lends that one chunk or none. |
| Chain.ChainAllocator.RequestIff | alloc/src/chain.rs:111-125 | A chunk is asked for if and only if the larger of the chunk size and padded size + header + alignment - 1, rounded up to the header's alignment, stays in the signed range; the size asked for is that larger one, rounded up by less than an alignment. |
| Chain.ChainAllocator.RoomyIff | alloc/src/chain.rs:219-231 | The newest chunk has room if and only if an aligned address past its used part has the padded block inside the chunk. |
| Chain.ChainAllocator.Bump | alloc/src/chain.rs:258-268 | The block is apart from every block handed out before, in any chunk, and bytes in use do not shrink. |
| Chain.ChainAllocator.Allocate | alloc/src/chain.rs:235-269 | Blocks are pairwise disjoint, aligned, large enough, inside their chunk; failure happens if and only if the size is zero, or the top chunk is full and the chunk to ask for is not representable (in numbers) or the backing allocator fails; the backing allocator lends the one chunk the chain grows by, or none. |
| Chain.ChainAllocator.BlocksAvoidHeaders | alloc/src/chain.rs:129-147 | No block handed out touches the header of any chunk. |
| Chain.ChainAllocator.AllocateAll | alloc/src/chain.rs:235-269 | For every run of requests and every fair sequence of answers: all blocks, those from before the run included, are pairwise disjoint, aligned, large enough, inside a chunk and clear of every header; a request goes unserved only for a zero size, a chunk size that is not representable or a failing answer to what was lent out at that moment; the backing allocator lends exactly the chunks the chain has grown by. |
| Chain.ChainAllocator.CapacityHelper | alloc/src/chain.rs:155-164 | Walking the links from a node adds up the lengths of its chunk and all older ones. |
| Chain.ChainAllocator.ReservedBytes | alloc/src/chain.rs:200-203 | Reserved bytes are the sum of the chunk lengths. |
| Chain.ChainAllocator.UsedBytes | alloc/src/chain.rs:176-196 | Used bytes never exceed reserved bytes. |
| Chain.ChainAllocator.Drop | alloc/src/chain.rs:276-309 | Dropping terminates and gives every chunk back exactly once, as it was lent. |
| Chain.ChainAllocator.Lifetime | alloc/src/chain.rs:96-309 | Creating a chain, serving any run of requests and dropping the chain leaves the backing allocator with what it had lent out before: every chunk goes back exactly once. |
| Pages.MaskIsRemainder | alloc/src/virtual_alloc.rs:38-49 | Masking with a power of two less one is the remainder. |
| Pages.PadIsLeastMultiple | alloc/src/virtual_alloc.rs:31-58 | Rounding gives the least multiple at or above the larger of number and page size, and fails if and only if that is not representable. |
| Pages.PadIsIdempotent | alloc/src/virtual_alloc.rs:31-58 | Rounding a rounded number changes nothing. |
| Pages.PageSizeIff | alloc/src/virtual_alloc.rs:15-27 | A layout gets whole pages if and only if it has a size, an alignment of at most one page, and a representable multiple of the page at or above its size; it gets the least such multiple. |
| Pages.UnmapsWhatWasMapped | alloc/src/virtual_alloc.rs:96-131 | The length unmapped is the length mapped, for the requested layout and for the one the bump allocator records. |
| Pages.VirtualAllocatorIsFair | alloc/src/virtual_alloc.rs:15-27 | Page-aligned fresh memory is aligned and large enough for every layout served, so the arena's assumption on its backing allocator holds. |
| Batching.Batch | dogstatsd/src/aggregator.rs:147-179 | The payload loop of consume_distributions keeps every sketch in order; with positive sizes each payload is a single item or within both limits, and no contiguous partition within the limits is shorter. |
| Batching.BatchSerialized | dogstatsd/src/aggregator.rs:200-248 | The payload loop of consume_metrics partitions exactly what serialized, in order, within the limits, and no contiguous partition within the limits is shorter. |
| Batching.GreedyConcat | dogstatsd/src/aggregator.rs:147-179 | The batches concatenate to the items, whatever their sizes. |
| Batching.GreedyFits | dogstatsd/src/aggregator.rs:165-174 | With positive sizes every batch is a single item or within both limits. |
| Batching.GreedyStaysAhead | dogstatsd/src/aggregator.rs:165-174 | The greedy partition of the end of a stretch never needs more batches than any partition of the whole stretch. |
| Batching.GreedyIsLeast | dogstatsd/src/aggregator.rs:147-179 | The greedy partition is a shortest one. |
| Batching.SerializedKeeps | dogstatsd/src/aggregator.rs:217-225 | What fails to serialize is left out, and every other item is kept as often as it occurs. |
| Aggregator.New | dogstatsd/src/aggregator.rs:72-86 | Refused if and only if the bound on contexts exceeds 65536; otherwise an empty aggregator with the given hash, tags and bound. |
| Aggregator.Aggregator.Insert | dogstatsd/src/aggregator.rs:93-112 | Refused if and only if the context is new and the table is full, and then nothing changes; contexts never exceed the bound. |
| Aggregator.Aggregator.Extract | dogstatsd/src/aggregator.rs:151-160 | Takes out exactly the distributions, or exactly the rest, each as it stood, and leaves the others untouched. |
| Aggregator.Aggregator.ConsumeMetrics | dogstatsd/src/aggregator.rs:199-249 | Counts and gauges leave the table; the payloads hold, in order and in as few payloads as the limits allow, exactly the shipments the history records as shipped, and are added to all that payloads have held; distributions stay. |
| Aggregator.Aggregator.ConsumeDistributions | dogstatsd/src/aggregator.rs:140-180 | Distributions leave the table and all of them are in the payloads, in order and in as few payloads as the limits allow; the rest stays. |
| Aggregator.BuildHasAllTags | dogstatsd/src/aggregator.rs:257-308 | A shipment has the printed form of every tag of the aggregator and of the entry, and no other. |
| Aggregator.SerializedIsShipped | dogstatsd/src/aggregator.rs:214-225 | What the payloads of counts and gauges hold is what serializes, and nothing else is recorded as shipped. |
| Aggregator.NothingLostOrInvented | dogstatsd/src/aggregator.rs:19-32 | After any history of inserts and consumes, and for every id, what was shipped, what did not serialize and what is resident add up to what was accepted: counts by amount, distributions by points. |
| Aggregator.ShippedPlusResident | dogstatsd/src/aggregator.rs:93-112 | When everything serializes, what was shipped for an id and what is resident are what was accepted for it. |
| Aggregator.PositiveSizesShip | dogstatsd/src/aggregator.rs:217-225 | A consume whose shipments all have a serialized size ships everything it takes out. |
| Aggregator.ContextIsConserved | dogstatsd/src/aggregator.rs:93-112 | The same per context, as long as no other context of the history shares its id. |
| Aggregator.ShipmentAt | dogstatsd/src/aggregator.rs:257-308 | The payload entry of whatever was shipped has the name and the value that was taken out of the table. |
| Aggregator.PayloadsHoldShipped | dogstatsd/src/aggregator.rs:257-308 | The payload entries with the name and tags of a context that looks like no other add up to what was shipped for it. |
| Aggregator.PayloadsConserve | dogstatsd/src/aggregator.rs:93-308 | For such a context, the values in all payloads and what is resident add up to what was accepted: counts by amount, distributions by points. |
| Aggregator.GaugeIsLastAccepted | dogstatsd/src/aggregator.rs:24 | A resident gauge is the last one accepted since its last consume. |
| Aggregator.ShippedGaugeIsLastAccepted | dogstatsd/src/aggregator.rs:199-249 | The value a payload shows for a gauge is the last one accepted before it was taken out. |
| Aggregator.ResidentIsOfKind | dogstatsd/src/aggregator.rs:93-112 | A resident entry has the kind of what was accepted for its id. |
| Tags.Parse | dogstatsd/src/metric.rs:67-86 | Fails if and only if there are more than 32 non-empty parts; otherwise gives the canonical tags of the text. |
| Tags.SortedTags.Extend | dogstatsd/src/metric.rs:57-61 | The result is sorted and holds exactly the tags of both lists. |
| Tags.SortedTags.ToStrings | dogstatsd/src/metric.rs:104-118 | Prints every tag in order, without a colon when the value is empty. |
| Tags.SortedIsUnique | dogstatsd/src/metric.rs:81-82 | A collection of tags has exactly one sorted list, so an unstable sort determines it. |
| Tags.TextBelowIff | dogstatsd/src/metric.rs:82 | Texts are ordered by the character at the first place where they differ, a text that ends there coming first. |
| Tags.KeyComesFirst | dogstatsd/src/metric.rs:82 | Tags are ordered by key, and by value only between equal keys. |
| Tags.SameTagsIff | dogstatsd/src/metric.rs:81-82 | Two texts parse to the same tags if and only if dropping adjacent repeats leaves the same collection. |
| Tags.OrderDoesNotMatter | dogstatsd/src/metric.rs:247-258 | With equal tags next to each other, two lists parse to the same tags if and only if they hold the same set of tags. |
| Tags.DuplicatesRemovedIff | dogstatsd/src/metric.rs:81-82 | Duplicates are removed if and only if equal tags were next to each other, since repeats are dropped before sorting. |
| Tags.DuplicateKept | dogstatsd/src/metric.rs:247-258 | For any two different tags that text can express, the text a, b, a keeps both copies of a and parses differently from a, b. |
| Tags.ParsedIsCanonical | dogstatsd/src/metric.rs:67-86 | Parsed tags are sorted, at most 32, printable, and exactly those read. |
| Tags.ReadPrinted | dogstatsd/src/metric.rs:104-118 | Reading the comma-joined text of a list of tags gives the list back without the wholly empty tag. |
| Tags.RoundTripIff | dogstatsd/src/metric.rs:67-118 | Printing parsed tags and parsing the text again gives the same tags if and only if the first text had no wholly empty tag and no duplicates apart from each other. |
| Tags.ComputeId | dogstatsd/src/metric.rs:261-272 | The id is the state of the hasher after the interned name and then the bytes of each key and value in order; absent tags add nothing. |
| Tags.IdIgnoresOrder | dogstatsd/src/metric.rs:247-272 | Whatever the hasher, texts with the same set of tags and equal tags next to each other have the same id. |
| Tags.IdsTellApart | dogstatsd/src/metric.rs:261-272 | With a hasher that tells apart what it is fed, two contexts share an id only when they have the same name and the same tags. |

## Left out

- `find` on the pool: it stops at a zero link, which live slots have too, so it promises no completeness.
- Pools with several concurrent allocators, memory orderings weaker than sequential consistency, and 32-bit wrap-around of offsets and counts.
- The payload of a pool slot: the limiter that `alloc` resets and the user data beside it.
- Separate mappings of one pool in several processes: the model has one mapping that only grows.
- SlidingWindow.LocalLimiter.TryInc: one call at a time; interleaved atomic steps of concurrent calls on one limiter are not modelled.
- SlidingWindow.LocalLimiter.Update: machine overflow is stated apart, in UpdateFitsIff; the model computes with unbounded integers.
- `rate` and `update_rate` of the limiter: floating-point reporting.
- Sketch.DDSketch.AddWithCount: asks for a store that may hold a bin; with a maximum size of zero the source fails on a later addition.
- Rounding of 64-bit floats, overflow of the 32-bit bin index for huge points, and the protobuf encoding of the sketch.
- ProbeMain.PartsAreIndependent: one direction, for one given template; the exact condition over all continuations is IndependentIff.
- ProbeSemantics.Slice: positions count characters; byte offsets and their character boundaries are not modelled.
- Error-message text and regular expressions in the evaluator: errors are abstract values, regex matching is a callback.
- Opening and resizing shared memory, mapping pages, and reading clocks: their answers are parameters.
- The Windows branch of the virtual allocator.
- Aggregator.Aggregator.ConsumeMetrics: a shipment is name, value and printed tags; its resources and timestamp are not modelled.
- Aggregator.Aggregator.ConsumeDistributions: the same, and the encoding of the sketch itself is not modelled.
- The branch of `consume_metrics` for a metric that fails to serialize is modelled, although shipments of strings and numbers always serialize.
- The agent's sketch inside a distribution metric is represented by the points it was given.
- `clear`, `to_series`, `distributions_to_protobuf` and `get_entry_by_id` of the aggregator: they would only add easy members.
- Parsing of whole metric lines by regular expression, and `to_resources`.
- The FFI crates, HTTP senders, exporters, remote configuration and the other crates of the repository.
