# Verified model of the jump table, ladder quotes, transfer taxes and log batching

This project models four computations of the AMM library and proves what they are for.

* **The tick-span jump table.** An exact-in swap walks one 256-tick word at a time and rounds at
  every word. The table records the steps that run all the way to the next word boundary, keeps
  prefix sums and a running maximum, and later skips many of them after one binary search. The
  main result is that the walk with recorder, cache and jumps ends exactly like the plain loop wherever
  that one ends, for every pool, amount, direction, price limit and cache content. It holds in one
  system in which walks run step by step on a shared cache while other pools are written, copied,
  dropped and added at used addresses (`LiveSystem.EveryQuoteExact`). The plain loop in turn keeps its
  liquidity equal to the net liquidity of all ticks passed (`ActiveLiquidity.RunKeepsPlaced`) and never
  pays out more than its input is worth at the first price (`FairPrices.NeverBetterThanStart`). And the
  table is used: unknown runs are stored, stored runs are jumped over.
* **The ladder quotes.** Two loops of rounded rational pricing over a ladder of rungs. They are
  monotone and bounded, and a round trip never profits.
* **Transfer taxes.** Net and gross-up, and cost and nominal, are two adjoint pairs of integer maps;
  and the event-driven balance of a taxed token is insensitive to replays.
* **Log batching.** Logs of a block are buffered and handed on together; nothing is lost, repeated or
  reordered within a block.

## How it is built

| file | content |
|---|---|
| SwapMath, TickBitmap, ReferenceWalk | the exact-in swap step, the bitmap search and the plain loop |
| Q96Math | the fixed-point formulas of Uniswap v3 Core as an instance of the abstract price library |
| SpanChains, SpanTables, SpanJump | what a recorded chain means, its lookup tables, and the jump |
| ActiveLiquidity, FairPrices | what the liquidity of the loop means, and what it may pay out |
| SpanCaches, Recorders | the sharded cache and the recorder |
| RecordingWalk, SpanWalk | the walk that uses both, on values and in place |
| PoolSpace | pools and cached chains sharing bitmaps by reference count |
| SharedWalk | many walks at once over the one cache, step by step |
| LiveSystem | those walks and the changes of the pools in one system |
| StepBudget, StepSums | the step counter under interleaved threads |
| Caliber, CaliberLoops | the ladder quotes, and the loops that compute them on every book |
| CaliberVectors | quotes recorded on chain |
| FotTax, SwapBack | tax arithmetic and the balance ledger |
| BlockLogs | the block log accumulator |

State that the source updates in place is kept in classes (`SpanChain`, `SpanCache`, `Recorder`,
`AmmState`, `Ledger`, `BlockLogAccumulator`); each method equates the new state with a function of the
old one, and the properties are lemmas about those functions.

The price library of the walk (tick to price, amounts, next price) is a record of functions with four
laws (`SwapMath.Lawful`): the price increases strictly with the tick; moving the price with liquidity
costs at least one unit; no single amount inside the tick range reaches 2^200; an input too small for
the whole way ends short of the target. `Q96Math.LibraryIsLawful` proves all four for the formulas of
section 6.2.3 of the Uniswap v3 Core whitepaper, given only a strictly increasing tick-to-price
function between 2^32 and 2^160. What the liquidity means takes two more (`SwapMath.Placing`): too little
input stops between price and target and pays for the way, and the tick of a price is the last one it has
reached; what a walk pays out takes `FairPrices.Fair`. `Q96Math.LibraryIsPlacing` and
`FairPrices.LibraryIsFair` prove them for the same formulas, given a tick function that locates prices.

## Where code and comments differ

* src/amms/tick_span_table.rs:690-697 allows any price limit. The loop stops on all pools exactly when
  the limit lies in the tick range (`ReferenceWalk.HaltsExactlyInRange`); production passes the extremes,
  which do. Beyond that range the main results hold on every walk that ends.
* src/amms/tick_span_table.rs:440-454 describes a second alignment, for a recording that starts where the
  stored chain ends. The index always holds the last end tick, so the first alignment covers it; the
  second branch is never taken (`SpanTables.EndIsIndexed`) and the model leaves it out.
* src/amms/tick_span_table.rs:198-202 says a full fee makes the swap step fail. It fails exactly when the
  price is at the step's target already; otherwise the price stays and the whole amount becomes the fee
  (`SwapMath.FullFeeStep`, and for the concrete formulas on all inputs `Q96Math.FullFeeExactly`; an input
  on which the step succeeds is in `Q96Math.FullFeeSucceeds`). Such a step with liquidity lies on no chain
  and ends the walk (`ReferenceWalk.FullFeeIteration`), so that building no chain is right in either case.
* src/amms/fot.rs:152-157 says the net amount is rounded down. The code deducts a rounded-down tax, so the
  net amount is rounded up (`FotTax.NetIsRoundedUp`), as src/amms/fot.rs:453-457 says.
* src/amms/fot.rs:41-44 and 204 describe the payer's cost as a gross-up; the code adds the tax on top. The
  gross-up is no smaller exactly below a full fee, where it becomes 0 (`FotTax.GrossUpCoversCost`).
* src/state_space/logs_push.rs:41-44 lets a block settle a window after its own last log. A late log of an
  older block restarts the window, too, so a stream of them postpones the current block for as long as it
  lasts (`BlockLogs.LatePatchesPostpone`); the rule holds exactly when no log came later than the block's
  own last one (`BlockLogs.OwnWindowExactly`).
* docs/caliber_prop_re/model.py:32-35 charges a rung only if its two discounts are positive on average
  (`CaliberLoops.RungCostsExactly`). If they cancel out it fails; beyond that the rung is free, and a round
  trip may profit (`CaliberLoops.FreeRoundTrip`).

## Model

| member | source | states |
|---|---|---|
| SpanWalk.Run | src/amms/tick_span_table.rs:726-901 | Wherever the plain word-by-word loop ends, for any price limit, the walk with recorder and jump table ends with exactly its result (amount out, tick, liquidity, remaining input, price, or the error), on every sound cache content and in no more passes; its passes, and the cache afterwards, are those of the walk on values |
| SpanWalk.OnePass | src/amms/tick_span_table.rs:748-892 | One pass of the loop is the pass of the walk on values, and a run of at least one plain iteration |
| RecordingWalk.StoredRunIsJumped | src/amms/tick_span_table.rs:863-892 | If the cache holds a longest admissible run for a walk after its first two chainable words, two passes cover those words and the whole run |
| RecordingWalk.PassTakesJump | src/amms/tick_span_table.rs:863-885 | Behind the gate a pass takes the jump that the cache offers |
| RecordingWalk.UnknownRunIsStored | src/amms/tick_span_table.rs:840-901 | A walk over at least seven chainable words of a run the cache does not know leaves it there, complete from the second word on up to the maximum, if the budget has room |
| SpanWalk.JumpStep | src/amms/tick_span_table.rs:854-892 | One jump attempt of the walk: the plain loop runs from the old to the new state in exactly the returned number of iterations, recorder and cache stay in step, and the result is the attempt on values |
| SpanWalk.JumpStays | src/amms/tick_span_table.rs:854-892 | A jump comes exactly as many iterations closer to the end of the plain loop as it skips, and never beyond it |
| SpanWalk.ObserveStep | src/amms/tick_span_table.rs:846-862 | Recording one iteration keeps recorder, cache and walk in agreement, and is the observation on values |
| SpanWalk.CachedJumpIsRun | src/amms/tick_span_table.rs:509-603 | A jump offered by a sound cache for the walk's own key is a run of the plain loop that ends in an arrival state |
| SpanWalk.PublishUsable | src/amms/tick_span_table.rs:348-367 | Publishing what a tracking recorder holds keeps every cached chain sound and anchored at the pool's bitmap |
| SpanJump.JumpIsRun | src/amms/tick_span_table.rs:543-602 | A jump of n steps is n iterations of the plain loop: the guard is open before each, nothing is overspent, and consumed, amount out, end tick and end price are exact |
| SpanJump.JumpIsRunExactly | src/amms/uniswap_v4/mod.rs:855-868 | In the loop that gives up in a void, two words into one, a jump equals the iterations it skips if and only if the liquidity gate at its call is passed; the words it skips are counted one by one |
| SpanJump.JumpExactly | src/amms/tick_span_table.rs:524-602 | The jump offered by a sound chain is the one over the longest run that passes the test from the boundary of this tick and price, with exact cost, gain, last tick and price; none is offered if and only if there is no such run of two steps or more within the limit |
| SpanJump.FeasibleExactly | src/amms/tick_span_table.rs:539-562 | The table test passes if and only if, after exactly paying for the steps before, the rest pays for every input recorded so far at the fee, without overflow |
| SpanJump.RunAlong | src/amms/tick_span_table.rs:22-25 | If each step of a sound chain is affordable in turn and the limit lies outside, the loop runs along the chain for any remaining amount |
| SpanJump.WordStepIsBody | src/amms/tick_span_table.rs:748-827 | An affordable whole-word step and one loop iteration have the same effect: the step's constants do not depend on the remaining amount |
| SpanJump.WordStepAmounts | src/amms/tick_span_table.rs:27-30 | The integer test of the jump table makes the swap step take its price-limited branch, with cost at most the remaining amount |
| SpanJump.FeasibleAffords | src/amms/tick_span_table.rs:539-562 | The envelope test at step i implies that step i is affordable after everything before it has been paid |
| SpanJump.FarthestPayable | src/amms/tick_span_table.rs:563-577 | Every step up to the farthest feasible one is payable in turn |
| SpanJump.FeasibleDownward | src/amms/tick_span_table.rs:534-562 | Once the first step is feasible, feasibility is downward closed, the checked-multiplication exits included |
| SpanJump.FarthestIsGreatest | src/amms/tick_span_table.rs:563-577 | The end of the feasible run is the greatest feasible index of the whole chain |
| SpanJump.JumpSums | src/amms/tick_span_table.rs:582-583 | The prefix differences a jump announces are the exact cost and gain of the skipped steps |
| SwapMath.PriceLimitedTest | src/amms/tick_span_table.rs:27-30 | The floor test of the swap step is equivalent to the integer inequality the table uses |
| SwapMath.NeverOverspends | src/amms/tick_span_table.rs:546-562 | The floor test holds exactly when the remaining amount covers the input plus its rounded-up fee |
| SwapMath.StepAffordable | src/amms/tick_span_table.rs:16-20 | A swap step either reaches its target at an affordable cost, or its fee is all that is left over |
| SwapMath.WrappedIsRemainder | src/amms/tick_span_table.rs:794-799 | The wrap-around of the remaining amount is the remainder modulo 2^256, for either sign |
| SwapMath.StepAccount | src/amms/tick_span_table.rs:16-20 | Both amounts of a step are those of the interval the price moved over; the target is reached exactly if the input after the fee covers it; otherwise everything is spent and the price is that of the net input; the fee is never below its rate |
| SwapMath.FeeIsLeast | src/amms/tick_span_table.rs:27-30 | The fee of a whole step is the least one that leaves its input after deduction |
| Q96Math.LibraryIsPlacing | src/amms/tick_span_table.rs:16-20 | The formulas of Uniswap v3 stop between price and target for too little input and never charge more than that input |
| Q96Math.IntervalIsFair | src/amms/tick_span_table.rs:16-20 | The rounded amounts of an interval trade no better than at the geometric mean of its prices, in both directions |
| FairPrices.LibraryIsFair | src/amms/tick_span_table.rs:16-20 | So does the whole library |
| FairPrices.NeverBetterThanStart | src/amms/tick_span_table.rs:748-827 | Over every run the price only moves ahead and the total output is worth at most the total input at the first price |
| SwapMath.FullFeeStep | src/amms/tick_span_table.rs:198-202 | At a full fee the swap step divides by zero exactly when it is at its target already; any other step succeeds, stays where it is and takes all that remains as the fee |
| Q96Math.FullFeeExactly | src/amms/tick_span_table.rs:198-202 | With the formulas of Uniswap v3, on all inputs, a full-fee step fails if and only if there is no liquidity, a price is zero or the price is the target; otherwise everything becomes the fee |
| Q96Math.FullFeeSucceeds | src/amms/tick_span_table.rs:198-202 | A concrete full-fee step that succeeds: at price 1 towards half of it, with liquidity 1 and input 5 |
| Q96Math.LibraryStandsStill | src/amms/tick_span_table.rs:198-202 | With the formulas of Uniswap v3 no net input leaves the price where it is and moves no amounts |
| ReferenceWalk.FullFeeIteration | src/amms/tick_span_table.rs:198-202 | At a full fee an iteration with liquidity fails at its target, and one that succeeds ends the walk at the same price and is never chainable |
| TickBitmap.SearchMoves | src/amms/tick_span_table.rs:754-760 | The next tick is at or below the current one going down and above it going up |
| TickBitmap.SearchSkipsNothing | src/amms/tick_span_table.rs:754-760 | The search returns the nearest set bit of the word in its direction, or the word's edge when there is none |
| TickBitmap.NearestTick | src/amms/tick_span_table.rs:754-760 | The search finds the nearest set tick of the word in its direction, read off the words by plain division, or the last tick of the word, and calls it initialized exactly if it is set |
| ReferenceWalk.StepKinds | src/amms/tick_span_table.rs:16-20 | Every iteration is price limited with exact accounting, or leaves nothing; the remaining amount never grows |
| ActiveLiquidity.BodyKeepsPlaced | src/amms/tick_span_table.rs:787-827 | Every iteration, crossing, landing or stopping between boundaries, leaves the liquidity equal to the net liquidity of all ticks at or below the current one, which is the tick of the price |
| ActiveLiquidity.RunKeepsPlaced | src/amms/tick_span_table.rs:787-827 | So does every run, in both directions |
| ActiveLiquidity.OutcomePlaced | src/amms/tick_span_table.rs:787-827 | A finished walk ends with the liquidity active at its last tick |
| ActiveLiquidity.CrossingSucceeds | src/amms/tick_span_table.rs:800-822 | Crossing an initialized tick leaves the active liquidity beyond it, and never misses tick data or underflows |
| ActiveLiquidity.CrossedActive | src/amms/tick_span_table.rs:800-822 | Landing on the tick the search found changes the active liquidity by exactly what is crossed there |
| ActiveLiquidity.BetweenBoundaries | src/amms/tick_span_table.rs:823-827 | A price strictly between two boundaries lies in a tick with the same active liquidity |
| ReferenceWalk.NothingSwapped | src/amms/tick_span_table.rs:739-750 | A walk without input ends where its pool stands, with nothing paid |
| ReferenceWalk.WordsSinceTick | src/amms/uniswap_v4/mod.rs:855-860 | The words counted are those passed since the last initialized tick |
| ReferenceWalk.WalkShape | src/amms/tick_span_table.rs:16-20 | Every walk that ends without an error, for any price limit, is a run of price-limited steps followed by at most one step, after which nothing remains |
| ReferenceWalk.BodyUsesFuel | src/amms/tick_span_table.rs:748-827 | Each iteration uses up the tick distance still ahead, for every limit in the tick range |
| ReferenceWalk.HaltsInRange | src/amms/tick_span_table.rs:748-827 | With its price limit in the tick range every walk ends, within as many iterations as ticks lie ahead plus one |
| ReferenceWalk.HaltsExactlyInRange | src/amms/tick_span_table.rs:690-697 | The loop stops on every pool and amount if and only if the price limit lies in the tick range; beyond it a pool without liquidity is a concrete endless loop |
| ReferenceWalk.EdgePoolStuck | src/amms/tick_span_table.rs:748-827 | With a limit beyond the tick range, the loop never ends on a pool without liquidity at the last tick |
| ReferenceWalk.RunKeepsOutcome | src/amms/tick_span_table.rs:748-827 | Running part of a loop that ends changes neither that it ends nor its result |
| ReferenceWalk.OutcomeIs | src/amms/tick_span_table.rs:748-827 | The loop is deterministic: whatever end a run reaches is its result |
| ReferenceWalk.EndAfterRun | src/amms/tick_span_table.rs:748-827 | Every run is the beginning of the run to the end, and never longer |
| SpanChains.WordStepFacts | src/amms/tick_span_table.rs:146-153 | A word step lands on the next boundary, moves tick and price strictly, and costs at least one unit if there is liquidity |
| SpanChains.ArrivalAt | src/amms/tick_span_table.rs:171-181 | Every boundary of a sound chain is an arrival state, where the tick fixes the price |
| SpanChains.ChainMonotone | src/amms/tick_span_table.rs:180-181 | Along a sound chain tick and price move strictly, the tick by at least one per step |
| SpanChains.ChainLength | src/amms/tick_span_table.rs:54-55 | The tick range bounds the length of every sound chain, however often it is extended |
| SpanChains.AppendSound | src/amms/tick_span_table.rs:323-331 | Appending the next word step keeps a chain an iterate of the step function |
| SpanChains.ChainsAgree | src/amms/tick_span_table.rs:460-483 | Two chains of one key and bitmap that meet in a tick agree on all overlapping steps, which the debug probes only sample |
| SpanChains.MergedReads | src/amms/tick_span_table.rs:484-493 | The merged chain begins with all old steps and reads like the new recording from the meeting boundary on |
| SpanChains.MergeSound | src/amms/tick_span_table.rs:439-494 | Merging an overlapping recording keeps the chain an iterate of one step function under the same bitmap |
| SpanTables.SpanChain.Rebuild | src/amms/tick_span_table.rs:220-247 | One pass fills both prefix tables, the envelope and the tick index with exactly their defining values |
| SpanTables.SpanChain.constructor | src/amms/tick_span_table.rs:201-216 | A new chain object has correct tables and the fee denominator of its key |
| SpanTables.SpanChain.Extend | src/amms/tick_span_table.rs:488-493 | Extending appends the steps and rebuilds all tables |
| SpanTables.Build | src/amms/tick_span_table.rs:188-217 | A chain is built exactly from a non-empty recording below a full fee |
| SpanTables.PrefixesExact | src/amms/tick_span_table.rs:228-239 | On a sound chain the saturating prefix sums never saturate and equal the exact sums |
| SpanTables.CostSplits | src/amms/tick_span_table.rs:174-178 | Costs and gains of a chain split at any boundary, so prefix differences are segment sums |
| SpanTables.EnvelopeCovers | src/amms/tick_span_table.rs:178-179 | The envelope is a non-decreasing upper bound of the inputs |
| SpanTables.EnvelopeAttained | src/amms/tick_span_table.rs:240-243 | The envelope is attained by a recorded input |
| SpanTables.IndexIsFirst | src/amms/tick_span_table.rs:235-246 | The index holds exactly the boundary ticks, each at its first boundary |
| SpanTables.IndexUnique | src/amms/tick_span_table.rs:180-181 | On a sound chain each boundary tick names its own boundary and no other |
| SpanTables.EndIsIndexed | src/amms/tick_span_table.rs:440-454 | The index always holds the end tick of the chain, so the second alignment is never needed |
| SpanCaches.SpanCache.InsertOrExtend | src/amms/tick_span_table.rs:421-494 | Inserting changes the cache exactly as specified: eviction of a full shard, a new entry, an extension past the end of the stored chain, or nothing |
| SpanCaches.NewKeyExactly | src/amms/tick_span_table.rs:427-437 | A recording under a new key is held afterwards, exactly as made, if and only if the budget has room once a full shard is emptied; the counter counts what is held |
| SpanCaches.StoredKeyExactly | src/amms/tick_span_table.rs:446-494 | A recording under a stored key extends the chain if and only if it begins at one of its boundaries, reaches past its end and fits the budget; the chain then reads as the recording from there on, and otherwise nothing changes |
| SpanCaches.InsertLeavesOthers | src/amms/tick_span_table.rs:427-437 | No other key or shard changes, except that a full shard of other keys is emptied |
| SpanCaches.SpanCache.Evict | src/amms/tick_span_table.rs:427-431 | A full shard without the key is emptied and its steps are given back |
| SpanCaches.SpanCache.StoreNew | src/amms/tick_span_table.rs:432-437 | A new chain is stored and counted if the budget allows |
| SpanCaches.SpanCache.ExtendStored | src/amms/tick_span_table.rs:484-493 | A stored chain is extended in place and counted if the budget allows; no other chain changes |
| SpanCaches.SpanCache.ReserveSteps | src/amms/tick_span_table.rs:395-407 | Reservation succeeds exactly within the budget (one thread alone) |
| SpanCaches.SpanCache.ReleaseSteps | src/amms/tick_span_table.rs:410-415 | Release subtracts at most the counter (one thread alone) |
| SpanCaches.SpanCache.constructor | src/amms/tick_span_table.rs:374-385 | The cache starts empty, with nothing counted |
| SpanCaches.LiveSteps | src/amms/tick_span_table.rs:417-419 | The loop adds up the lengths of all chains of a shard |
| SpanCaches.SpanCache.TryJump | src/amms/tick_span_table.rs:509-524 | A disabled cache, a missing key or no input gives no jump; otherwise the stored chain's jump |
| SpanCaches.SearchJump | src/amms/tick_span_table.rs:525-602 | The binary search returns the jump over the greatest feasible index, or none for a wrong price, a short jump or a limit inside |
| SpanCaches.IsFeasible | src/amms/tick_span_table.rs:546-562 | The checked test read off the tables equals the feasibility predicate |
| SpanCaches.InsertKeepsSound | src/amms/tick_span_table.rs:421-494 | Inserting a sound recording keeps every stored chain sound and every bitmap one of the old ones or the recording's |
| SpanCaches.InsertKeepsBudget | src/amms/tick_span_table.rs:427-494 | Inserting keeps the counter equal to the stored steps, within the budget, with at most four chains per shard |
| SpanCaches.InsertLengthens | src/amms/tick_span_table.rs:446-456 | An entry present before and after an insert only got longer |
| Recorders.NoHoles | src/amms/tick_span_table.rs:263-268 | Over every sequence of iterations and jumps each published chain is a contiguous run of whole-word steps under one key from an arrival state, with 6 to 8192 steps |
| Recorders.WholeRunPublished | src/amms/tick_span_table.rs:309-367 | Every whole run of at least six chainable iterations from an arrival state is published, complete up to the maximum, under its key and from its first state |
| Recorders.RunBegins | src/amms/tick_span_table.rs:309-338 | A run begins behind the first chainable iteration after a break |
| Recorders.ObserveTracks | src/amms/tick_span_table.rs:309-338 | Observing an iteration keeps what the recorder holds a sound chain that ends in the walk's state or was cut at the maximum |
| Recorders.FlushTracks | src/amms/tick_span_table.rs:284-295 | After a jump to an arrival state a fresh run may start there |
| Recorders.ChainableIsWordStep | src/amms/tick_span_table.rs:841-845 | A chainable iteration is the word step of the current key and lands in an arrival state |
| Recorders.ChainableExactly | src/amms/tick_span_table.rs:835-845 | An iteration is chainable if and only if there is a word step of the current key that can be paid for and stays within the limit |
| Recorders.Recorder.constructor | src/amms/tick_span_table.rs:272-282 | A recorder starts empty, recording exactly when enabled |
| Recorders.Recorder.PublishRun | src/amms/tick_span_table.rs:348-367 | Publishing empties the recorder and inserts the run exactly when it is keyed, long enough and below a full fee |
| Recorders.Recorder.Observe | src/amms/tick_span_table.rs:310-338 | The whole new recorder state after an observation, and that the cache changes exactly when a run breaks |
| Recorders.Recorder.Flush | src/amms/tick_span_table.rs:290-295 | A jump publishes the recorded prefix and sets the boundary flag |
| Recorders.Recorder.Finish | src/amms/tick_span_table.rs:341-345 | The end of a walk publishes what is recorded |
| PoolSpace.AmmState.Swap | src/amms/tick_span_table.rs:726-901 | In every state the system can reach, a quote on any pool through the shared cache equals the plain loop on the pool's present bitmap wherever that one ends, and the system stays coherent |
| PoolSpace.AmmState.WriteBitmap | src/amms/tick_span_table.rs:36-41 | A bitmap write happens in place for the only holder and otherwise in a new allocation, and keeps the system coherent |
| PoolSpace.AmmState.CountHolders | src/amms/tick_span_table.rs:38-40 | The strong count is the number of pools and cached chains holding the allocation |
| PoolSpace.AmmState.AddPool | src/amms/tick_span_table.rs:90-93 | A new pool may get any address nobody holds, used before or not |
| PoolSpace.AmmState.SharePool | src/amms/tick_span_table.rs:90-93 | Copies of a pool and new prices in place share its bitmap |
| PoolSpace.AmmState.DropPool | src/amms/tick_span_table.rs:168-170 | Dropping a pool keeps the system coherent; cached chains keep their bitmap alive |
| PoolSpace.AmmState.constructor | src/amms/tick_span_table.rs:371-385 | The system starts without pools, with an empty cache and nothing counted, and coherent |
| PoolSpace.WriteKeepsContent | src/amms/tick_span_table.rs:36-41 | A write never makes an address that is still held mean other words |
| PoolSpace.WriteExactly | src/amms/tick_span_table.rs:36-41 | A write gives the pool its new words, at its old address if and only if no other pool and no chain holds that one, and changes nothing else |
| PoolSpace.SoleHolder | src/amms/tick_span_table.rs:38-40 | A strong count of one means no other pool and no cached chain holds the allocation |
| PoolSpace.OpKeepsCoherent | src/amms/tick_span_table.rs:36-41 | Writes, new pools, copies, drops, publications and evictions each keep the system coherent |
| PoolSpace.RunKeepsCoherent | src/amms/tick_span_table.rs:36-41 | Over every run of those operations, address reuse included, the system stays coherent |
| PoolSpace.RunsFromNothing | src/amms/tick_span_table.rs:36-41 | The empty system is coherent, and so is everything that can become of it |
| PoolSpace.HitIsCurrent | src/amms/tick_span_table.rs:358-365 | A cached key that matches a pool's address was recorded under the words the pool has now, and every cached address is live |
| SharedWalk.EveryWalkExact | src/amms/tick_span_table.rs:421-438 | From an empty cache, over every interleaving of the walks (iterations, jumps, insertions waiting for their lock, new walks and a moving counter), each walk is at every moment exactly where the plain loop is after the iterations it has covered, and one at its end has the plain loop's result; a new walk's bitmap must mean the same words wherever it is in use, which LiveSystem derives |
| SharedWalk.NeverBeyondEnd | src/amms/tick_span_table.rs:748-892 | No walk covers more iterations than the plain loop makes, and it is at its end exactly when it has covered them all |
| SharedWalk.ActKeepsInv | src/amms/tick_span_table.rs:421-438 | Every action of every walk keeps all recorders, waiting recordings and cached chains sound and every address in use at one content |
| SharedWalk.IterateKeeps | src/amms/tick_span_table.rs:748-862 | An iteration keeps the recorder in step and covers one more iteration of the plain loop |
| SharedWalk.SkipKeeps | src/amms/tick_span_table.rs:509-524 | A jump looked up under the lock, whatever the others have stored by then, covers at least two iterations of the plain loop |
| SharedWalk.InsertKeeps | src/amms/tick_span_table.rs:421-494 | A waiting recording stays sound to store although the cache has changed since it was made, and the insertion only brings in chains under the walk's own bitmap |
| SharedWalk.InsertKeepsAnchored | src/amms/tick_span_table.rs:358-365 | An insertion by one walk never makes a cached key of another walk's bitmap mean other words |
| SharedWalk.BeginFits | src/amms/tick_span_table.rs:128-142 | In a coherent system a walk of any pool may begin among the walks under way |
| SharedWalk.StoreIsCached | src/amms/tick_span_table.rs:358-365 | Storing a recording in the middle of other walks is one of the operations the system of pools stays coherent under |
| LiveSystem.EveryQuoteExact | src/amms/tick_span_table.rs:36-41 | From an empty process, over every interleaving of steps of walks with writes, copies, additions, replacements and drops of pools nobody is walking, address reuse included, each walk on its pool as it is now is exactly where the plain loop is, and has its result at the end |
| LiveSystem.EveryQuotePlaced | src/amms/tick_span_table.rs:36-41 | On pools whose bitmap, ticks and liquidity agree, every such walk keeps liquidity, tick and price together and pays no more than its input is worth at the price of its pool |
| LiveSystem.NeverStuck | src/amms/tick_span_table.rs:748-892 | A walk under way can always store what waits for its lock or run its next iteration |
| LiveSystem.MayAlwaysJump | src/amms/tick_span_table.rs:509-524 | A walk may take the jump the cache holds for it at any moment, and covers exactly its steps |
| LiveSystem.OthersStay | src/amms/tick_span_table.rs:36-41 | Writing, adding, copying and dropping change the one pool they name, as they say, and neither the others nor the cache |
| LiveSystem.NextKeepsInv | src/amms/tick_span_table.rs:36-41 | Every event of every walk and pool keeps the pools coherent, the walks in step and each walk on the present content of its pool |
| LiveSystem.EnterKeeps | src/amms/tick_span_table.rs:128-142 | A walk may begin on any pool at any moment, with no condition on its bitmap |
| LiveSystem.ProceedKeeps | src/amms/tick_span_table.rs:421-438 | A step of a walk under way, the insertion of its recording included, keeps pools and walks in order |
| LiveSystem.ChangeKeeps | src/amms/tick_span_table.rs:36-41 | Changing a pool nobody walks disturbs no walk under way and no recording waiting to be stored |
| StepBudget.BudgetHolds | src/amms/tick_span_table.rs:394-415 | Over every interleaving of atomic operations from the start the counter is the stored plus in-flight steps, within the budget, with at most four chains per shard |
| StepBudget.StepKeepsInv | src/amms/tick_span_table.rs:421-494 | Every atomic operation of every thread keeps that invariant and the lock discipline |
| StepBudget.StepConserves | src/amms/tick_span_table.rs:427-437 | No atomic operation creates or loses counted steps |
| StepBudget.StepBounded | src/amms/tick_span_table.rs:398-407 | A stale load or a failed exchange, whatever value it sees, never lets the counter exceed the budget |
| StepBudget.StepExcludes | src/amms/tick_span_table.rs:422-426 | No two threads work in one shard |
| StepBudget.ReleaseNeverTruncates | src/amms/tick_span_table.rs:410-415 | Although the load in the release is relaxed and may see an old value, the minimum never bites and the subtraction never underflows |
| StepBudget.LoadCovers | src/amms/tick_span_table.rs:410-415 | Whatever value of the counter since the last change under the shard's lock the load sees, it is at least what was cleared |
| StepBudget.StepPart | src/amms/tick_span_table.rs:395-415 | The steps of a shard, stored or in the hands of its lock holder, are part of every value of the counter since a holder last changed it |
| StepBudget.AloneIsInsert | src/amms/tick_span_table.rs:421-494 | A thread alone comes through, and its atomic operations leave exactly the chain lengths and the counter that the sequential insertion leaves |
| StepBudget.InsertsAlone | src/amms/tick_span_table.rs:395-438 | What an uncontended insertion leaves in its shard and the counter, in every case |
| CaliberLoops.QuoteForward | docs/caliber_prop_re/model.py:23-44 | On every book and input, the forward loop returns the recursive quote with its rounding towards minus infinity, or fails where a divisor is zero or the ladder empty |
| CaliberLoops.QuoteReverse | docs/caliber_prop_re/model.py:46-82 | On every book and input, the reverse loop, with its skipping, offset, early break and tail, returns the recursive quote or fails |
| CaliberLoops.StalePositionIgnored | docs/caliber_prop_re/model.py:49-50 | The position of another block changes no quote on any book: it counts as position 0 of this one |
| CaliberLoops.FloorDivExactly | docs/caliber_prop_re/model.py:32-39 | Every division rounds towards minus infinity for either sign and fails exactly on a zero divisor |
| CaliberVectors.QuotesAtPosition | src/amms/caliber_prop/mod.rs:2174-2189 | The reverse quotes of 1 and 10^9 units recorded on chain at a position of the current block |
| CaliberVectors.QuotesOfOldPosition | src/amms/caliber_prop/mod.rs:2263-2278 | The reverse quotes of 1 and 10^8 units recorded on chain with a position of an older block |
| CaliberVectors.QuotesForward | src/amms/caliber_prop/mod.rs:2322-2337 | The forward quotes of 1, 10^7 and 10^8 units recorded on chain: part of a rung, all rungs and the extrapolation, and the reserve |
| CaliberLoops.ForwardAgrees | docs/caliber_prop_re/model.py:23-44 | Where the ladder quote exists the forward loop returns it, however the rungs beyond it are priced; if no rung's discounts are negative on average it fails everywhere else |
| CaliberLoops.ReverseAgrees | docs/caliber_prop_re/model.py:46-82 | On rising ladders without negative marks the reverse loop never fails and returns the ladder quote, early break included |
| CaliberLoops.ForwardRestAgrees | docs/caliber_prop_re/model.py:27-43 | The same from any rung on |
| CaliberLoops.NoProfitableLoops | docs/caliber_prop_re/model.py:23-82 | The loops themselves never return more than was put in, in both orders and at any positions, where no rung is free or no free one is reached, the price beyond the ladder negative or not |
| CaliberLoops.RungCostsExactly | docs/caliber_prop_re/model.py:32-35 | The loop fails at a rung exactly if its discounts cancel out, and charges at least its worth at the mid price exactly if they are positive on average; otherwise the rung costs nothing |
| CaliberLoops.FreeRoundTrip | docs/caliber_prop_re/model.py:23-82 | A concrete book with a free rung on which the round trip of nothing gives one unit |
| Caliber.NoQuoteExactly | docs/caliber_prop_re/model.py:27-35 | There is no ladder quote if and only if the input pays for every rung before the first one whose discounts are not positive on average |
| Caliber.NoProfitableRoundTrip | docs/caliber_prop_re/model.py:23-82 | Quoting one way and back never returns more than the input, in both orders, whatever the position at either quote, wherever the forward quote exists |
| Caliber.QuotesAtMid | docs/caliber_prop_re/model.py:23-82 | Each quote is worth at most its input at the mid price |
| Caliber.ForwardMonotone | docs/caliber_prop_re/model.py:23-44 | The forward quote never exceeds the reserve, and if an input has a quote, so has every smaller one; it is non-decreasing unless it is extrapolated at a negative price |
| Caliber.MonotoneExactly | docs/caliber_prop_re/model.py:23-44 | The forward quote is non-decreasing on all inputs if and only if the discount at the far end is not negative, or that end is never reached because of a rung without a price or a full fee |
| Caliber.ForwardFromMonotone | docs/caliber_prop_re/model.py:27-43 | More input never buys less from any rung on, unless it is extrapolated at a negative price |
| Caliber.PartialAtMostRung | docs/caliber_prop_re/model.py:32-39 | Below the rounded-up threshold the partial fill is never more than the whole rung |
| Caliber.ForwardAtMid | docs/caliber_prop_re/model.py:27-43 | What an input buys from any rung on is worth at most the input at the mid price |
| Caliber.RungAtMid | docs/caliber_prop_re/model.py:32-35 | A whole rung costs at least its output at the mid price |
| Caliber.WholeRungs | docs/caliber_prop_re/model.py:34-35 | Paying the thresholds of consecutive rungs buys exactly those rungs and goes on, or fails, behind them |
| Caliber.ReverseMonotone | docs/caliber_prop_re/model.py:46-82 | The reverse quote is non-decreasing in the input and never exceeds the reserve |
| Caliber.ReverseAtMid | docs/caliber_prop_re/model.py:54-81 | What an input gives from any rung and position on is worth at most the input at the mid price |
| Caliber.ReverseFillFraction | docs/caliber_prop_re/model.py:64-71 | A reverse fill is the single fraction of the source, with a positive divisor |
| Caliber.ReverseFillMonotone | docs/caliber_prop_re/model.py:64-71 | A reverse fill grows with its input |
| Caliber.EarlyBreak | docs/caliber_prop_re/model.py:74-75 | With nothing left the remaining rungs and the tail give nothing, so breaking early loses nothing |
| Caliber.SkippedPrefix | docs/caliber_prop_re/model.py:49-61 | Rungs behind the position of the current block are skipped without touching the input |
| Caliber.QuoteSplits | docs/caliber_prop_re/model.py:54-81 | The quote is what the rungs give for what they take plus the tail of the left-over input |
| Caliber.LeftOverClosed | docs/caliber_prop_re/model.py:49-76 | The rungs take exactly what lies between the position of the current block, or the bottom, and the top of the ladder |
| Caliber.ReverseExactly | docs/caliber_prop_re/model.py:46-82 | The whole reverse quote: what the rungs ahead of the position give, plus the extrapolation, up to the reserve |
| Caliber.ForwardExactly | docs/caliber_prop_re/model.py:23-44 | The whole forward quote: the rungs paid for, plus part of the next or the extrapolation, up to the reserve |
| Caliber.ThresholdExactly | docs/caliber_prop_re/model.py:29-34 | In the fields: a rung is bought exactly from the input whose mid-price output is its height over the mean discount of its ends |
| Caliber.PartialBetween | docs/caliber_prop_re/model.py:37-38 | In the fields: a partial fill pays between the first and the mean discount of its rung, rounded down |
| Caliber.ForwardTailExactly | docs/caliber_prop_re/model.py:41-42 | In the fields: beyond the ladder each input buys at the discount `win` behind the last rung, rounded down |
| Caliber.ReverseTailExactly | docs/caliber_prop_re/model.py:77-80 | In the fields: beyond the ladder each input gives at the mark-up `win` behind the last rung, rounded down |
| Caliber.MarkupOnLine | docs/caliber_prop_re/model.py:66-70 | In the fields: the mark-up inside a rung lies on the line between its ends, rounded down |
| Caliber.NetExactly | docs/caliber_prop_re/model.py:25 | The net input is the input less the fee, rounded up |
| FotTax.FeeAdjunction | src/amms/fot.rs:392-407 | Below a full fee, net at least n exactly for gross amounts from the gross-up of n on |
| FotTax.NetOfGrossUp | src/amms/fot.rs:465-477 | The gross-up of n nets exactly n |
| FotTax.NetIsRoundedUp | src/amms/fot.rs:453-459 | Deducting the rounded-down tax rounds the net amount up |
| FotTax.AdjointExactlyBelowFullFee | src/amms/fot.rs:392-407 | The two maps are adjoint on all amounts if and only if the fee is below the whole |
| FotTax.TaxAdjunctions | src/amms/fot.rs:343-390 | Both laws in both directions of all three tax variants |
| FotTax.FeesBySide | src/amms/fot.rs:343-390 | Over the fields: outputs of a two-sided tax bear the buy fee and its inputs the sell fee, a symmetric one bears its fee on both sides and a flat one on outputs alone; net, gross-up and cost are the exact shares of that fee |
| FotTax.SidesAreIndependent | src/amms/fot.rs:343-390 | No output amount depends on the sell fee and no input amount on the buy fee |
| FotTax.OnTopAdjunction | src/amms/fot.rs:426-451 | A cost fits a balance exactly for nominal amounts up to the inverse of the balance |
| FotTax.NominalOfCost | src/amms/fot.rs:434-451 | The nominal amount of a cost is the amount it came from |
| FotTax.SlackBelowStep | src/amms/fot.rs:434-438 | What a balance leaves unspent is less than the cost of one more unit |
| FotTax.SlackAtMostOneExactly | src/amms/fot.rs:434-451 | At most one unit stays unspent on every balance if and only if the fee is at most the whole |
| FotTax.GrossUpCoversCost | src/amms/fot.rs:384-390 | Grossing up a deduction asks for no less than the on-top cost if and only if the fee is below the whole or the amount is zero |
| FotTax.TokenFeeAdjunctions | src/amms/mod.rs:181-215 | The net and gross-up laws through the pool-filtered token methods, each side under its own fee alone |
| FotTax.TokenOnTopAdjunction | src/amms/mod.rs:217-247 | The cost and nominal laws through the pool-filtered token methods for every fee, and exactly when the gross-up covers the cost |
| FotTax.PoolFilter | src/amms/mod.rs:181-247 | Without a tax, or at a pool a two-sided tax does not list, all six amounts are untouched; elsewhere they are the tax's |
| SwapBack.ReplayEquivalence | src/amms/fot.rs:604-642 | However an orderly stream repeats itself, the balance is one pass over the distinct transfers after the snapshot: inflows since the last dump, or snapshot plus all inflows |
| SwapBack.HeldInFields | src/amms/fot.rs:630-641 | The balance is what came from others to the token since it last sent anything, or the snapshot and all that came, cut at 256 bits |
| SwapBack.OrderOfPositions | src/amms/fot.rs:604-612 | Positions are ordered as the numbers block, transaction, log |
| SwapBack.UnseenToken | src/amms/fot.rs:624-629 | A token never seen before starts from nothing at the first position |
| SwapBack.DumpForgetsSnapshot | src/amms/fot.rs:613-614 | After a dump the balance no longer depends on the snapshot |
| SwapBack.DeliveredHolds | src/amms/fot.rs:630-641 | Whatever arrives in whatever order, the entry is one pass over the arrivals beyond everything before them |
| SwapBack.OrderlyFresh | src/amms/fot.rs:608-612 | In an orderly stream no transfer after the snapshot is lost |
| SwapBack.SnapshotCoversBlock | src/amms/fot.rs:593-602 | After a snapshot exactly the transfers of later blocks count: the others may be struck from the stream, and the entry stays the snapshot until one of a later block arrives |
| SwapBack.AscendingUnique | src/amms/fot.rs:604-612 | A position-ordered sequence of given transfers is unique |
| SwapBack.Ledger.InitSnapshot | src/amms/fot.rs:593-602 | A snapshot sets one token's balance with the watermark at the end of its block |
| SwapBack.Ledger.ApplyTransfer | src/amms/fot.rs:615-642 | One transfer changes only its own token's entry, as specified, and only beyond the watermark |
| SwapBack.Ledger.ApplyAll | src/amms/fot.rs:516-521 | A delivered stream is the fold of its transfers, from the token's entry or the one created on first use |
| BlockLogs.BlockLogAccumulator.constructor | src/state_space/logs_push.rs:73-75 | The accumulator starts empty |
| BlockLogs.BlockLogAccumulator.Feed | src/state_space/logs_push.rs:77-97 | The whole new state and outcome of a fed log: buffered, flush of the old block, or late patch |
| BlockLogs.BlockLogAccumulator.Take | src/state_space/logs_push.rs:100-104 | Taking hands on the current block and clears block, buffer and clock, or does nothing |
| BlockLogs.BlockLogAccumulator.SettleDeadline | src/state_space/logs_push.rs:108-112 | The deadline is the last arrival plus the settle window, or far away |
| BlockLogs.Conservation | src/state_space/logs_push.rs:77-104 | Over every run, for every block, what was handed on followed by what is buffered is exactly what was fed, in order |
| BlockLogs.StepConserves | src/state_space/logs_push.rs:77-104 | One operation neither loses, repeats nor reorders logs of any block |
| BlockLogs.FlushesIncrease | src/state_space/logs_push.rs:89-94 | Between two takes flushed block numbers strictly increase and stay below the current block |
| BlockLogs.HeldIsHighest | src/state_space/logs_push.rs:77-97 | Over every run the block held is the highest one fed since the last take: a newer block always takes over |
| BlockLogs.OthersHandedOn | src/state_space/logs_push.rs:89-97 | Of every other block everything fed so far has been handed on |
| BlockLogs.HeldBack | src/state_space/logs_push.rs:77-97 | Of the block held everything fed since the last take is held back, and nothing else |
| BlockLogs.BatchIsWholeRest | src/state_space/logs_push.rs:89-104 | A batch is non-empty, holds one block, and is all of that block not yet handed on |
| BlockLogs.WellFormed | src/state_space/logs_push.rs:99-112 | The buffer is empty exactly between blocks, and then no settle deadline is pending |
| BlockLogs.ClockIsLastArrival | src/state_space/logs_push.rs:77-112 | Over every run the deadline follows from the last operation alone: any arrival restarts the window, a take or nothing leaves none |
| BlockLogs.LatePatchesPostpone | src/state_space/logs_push.rs:41-44 | Any number of late logs of older blocks leave the buffered block as it is and are handed on one by one, but it is due a window after the last of them |
| BlockLogs.OwnWindowExactly | src/state_space/logs_push.rs:41-44 | The buffered block is due a window after its own last log if and only if nothing arrived at a later time, in particular when the last arrival was no late one |

## Left out

- Exact-out swaps and amounts of 2^255 and more, which the signed 256-bit type reads as exact-out.
- The tick-to-price formula itself: any strictly increasing function is allowed.
- 32-bit wrap-around of tick arithmetic, and two's-complement wrap-around of the accumulated output: ticks
  and outputs are unbounded integers. The wrap-around of the remaining amount, of the liquidity and of the
  bitmap's word position is modelled.
- The loops of the pool modules line by line. Those of src/amms/uniswap_v3/mod.rs:464-653 differ from the
  modelled loop in chaining steps without liquidity too, which the field `needsLiquidity` covers, and in
  caching the key and the tick prices. The one of src/amms/uniswap_v4/mod.rs:831-1016 counts words without
  an initialized tick instead of chainable ones, gives up in a void and jumps only at enough liquidity,
  which the field `stopsInVoid` covers; its hook fee on the output is left out.
- SpanWalk.Run: has the cache to itself for one walk; what other walks do to the cache in between is in
  SharedWalk and LiveSystem, where a walk may try a jump at any time, not only behind the gate, and where
  a pool is not changed while it is being walked, because a quote borrows it.
- The environment switch, the hash that chooses a shard (an arbitrary function here) and the statistics.
- Poisoned locks, and `clear`, which resets the counter without regard to steps in flight.
- SpanCaches.SpanCache.ReserveSteps: describes one thread; the compare-exchange loop is in StepBudget.
- SpanCaches.SpanCache.ReleaseSteps: describes one thread; the two atomic operations are in StepBudget.
- Caliber.NoProfitableRoundTrip: like all laws of the quotes, stated for rising ladders with marks that are
  not negative and a fee of at most the whole, where prices are never better than the mid; the loops
  themselves are modelled on all books. A negative quote, from beyond the ladder, is not fed back.
- CaliberLoops.NoProfitableLoops: nothing is said where a free rung is reached; there a round trip may
  profit or not, depending on the rounding.
- ActiveLiquidity.RunKeepsPlaced: for pools whose bitmap, ticks and liquidity agree, and a price limit that
  does not lie behind the price; towards a limit behind it the step would pass ticks it has not looked for.
- 256-bit wrap-around in the tax and ladder arithmetic; the balance ledger's saturation is modelled.
- SwapBack.ReplayEquivalence: first arrivals out of position order are dropped by the watermark; the
  property is stated for streams whose first arrivals are in order, and SwapBack.DeliveredHolds says what
  happens to all others.
- Refresh times and staleness of the ledger, log decoding and the registry of monitored tokens.
- The stream around the accumulator: subscriptions, reconnects, deduplication and applying a batch.
- Websocket, RPC and synchronisation code, factories, and the other pool types.
