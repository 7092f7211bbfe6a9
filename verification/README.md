# Verified model of mysya-server

This project models the parts of the mysya server library and its tutorials that carry
real algorithms, and proves what they promise. The model follows the code: where a
comment or a name in the code promises more than the code does, the model does what the
code does, and a lemma says exactly when the promise holds.

* **Path search** (`Grid`, `OpenList`, `SearchInvariant`, `PathSearch`, `SearchRuns`): the grid search of
  the path generator with its binary heap of nodes that know their own heap position,
  re-opening of closed nodes, and the parent chain. `Scene.SearchPath` finds a path exactly
  when there is one, the path is a walk of king moves over walkable cells, and it is at most
  the square root of two longer than any other walk; the search ends on every map.
* **Timing wheel** (`Timestamps`, `WheelArithmetic`, `WheelBuckets`, `TimerLedger`,
  `WheelState`, `WheelDrain`, `TimerCommands`, `TimingWheel`, `TimingTheorems`, `TimingRuns`): the five
  wheels, the cascade through left-over ticks, the clock that turns nanoseconds into ticks, and
  callbacks that start and stop timers while a bucket is being drained. A ghost ledger holds
  the flat list "timer id, due tick"; every step of the wheel is proved to agree with it, no
  timer appears or disappears but by a command, and none is called after it was stopped.
* **Byte buffer and message queue** (`Bytes`, `DynamicBuffer`, `QueueProtocol`,
  `MessageQueue`): the growable buffer is a plain byte queue; the two-buffer queue is a state
  machine over Push, Pop and Exchange, and the class over the byte buffers refines it: a drain,
  whatever producers push before each of its steps, is exactly the run of its pops and those
  pushes (`MessageQueues.DrainIsARun`).
* **Protobuf framing** (`ProtobufFraming`, `ProtobufCodec`): the streaming decoder gives the
  same messages however the stream is cut, up to the first frame whose lengths do not fit it,
  and undoes the encoder.
* **Base64** (`Base64`): encoder and decoder over output buffers of a given size, undoing each
  other, and both said character by character and byte by byte.
* **AES** (`AesTables`, `AesField`, `AesBox`, `AesRounds`, `AesKeys`, `Aes`, `AesKnownBlock`):
  the rounds and the key expansion are those of FIPS 197 cell by cell, the byte table is the
  affine image of the inverse in the field, and the standard's known block comes out. The
  inverse of MixColumns is proved through the arithmetic of the field, and the inverse of the
  block cipher is lifted to buffers of every length.

Results that differ from what one might expect of the code:

* A delay counted in the middle of a tick goes to the bucket served exactly that long after the
  tick if and only if the wheel it needs has already moved in this tick or does not move
  (`TimingTheorems.MidTickDelay`); otherwise the bucket is served one step of that wheel early.
* So a timer whose first call was put off, because the clock had not reached its expire time in
  its due tick, is called again exactly one period later if and only if the period is below 256
  ticks or the first call did not come in a tick divisible by 256; otherwise 256 ticks too early
  (`TimingTheorems.LateFirstCall`). `TimingRuns.PutOffPeriodComesEarly` is such a run from an
  empty wheel: period 300, first call in tick 512, second in tick 556. All other calls on a
  steady clock are exactly one period apart (`TimingTheorems.CallsArePeriodic`).
* A placement goes back into the bucket being drained if and only if it has no delay and the
  bucket is one of the first wheel (`WheelBuckets.IntoDrained`), so a timer without period is
  called in one tick as often as its limit says. With callbacks that start and stop nothing, the
  drain of a bucket comes to an end if and only if no due timer in it has neither a period nor a
  limit (`WheelDrain.DrainEnds`).
* Callbacks may start timers without delay, as long as they do not go on for ever in one tick:
  from call to call of a tick some quota must cover what they start (`TimerCommands.Restrained`).
  A callback that starts its own timer anew without delay has no such quota
  (`TimerCommands.EndlessRestart`).
* The root of the heap may keep a stale position after a delete. When its f value goes down
  later, sifting starts at a wrong index, which may be one past the end of the list, where the
  removed pointer still lies; the heap stays in order all the same (`OpenList.StaleStart`).
  `SearchRuns.StaleStartIsReached` is a run on a small map that comes to such a start.
  `OpenList.Indexed` states the invariant the code really keeps, and
  `PathSearch.Scene.DeleteMinFScoreNodeInOpenList` says exactly when the root goes stale.
* An empty message ends a drain early, is never delivered, and can turn later messages round
  (`QueueProtocol.EmptyMessageReorders`). Over every run the messages with data keep their order
  all along if and only if every exchange finds the data on its two sides the same either way
  round (`QueueProtocol.OrderIsKept`); a drain delivers exactly up to the first empty message
  (`QueueProtocol.DrainDelivers`).
* A frame comes back if and only if its type name is shorter than 2^15 bytes
  (`ProtobufFraming.FrameComesBack`): the decoder reads two of the four length bytes.
* Where the name length runs out of the frame, and only there, the name read depends on the
  memory behind the frame (`ProtobufFraming.MalformedReadsOn`), so how a stream is cut can matter
  from such a frame on; the model stops at it.
* `operator+=` may leave 10^9 in the nanosecond field; `operator<` agrees with the number of
  nanoseconds except in exactly one situation (`Timestamps.LessIsByNanos`).
* `FFmul` is the product of the field if and only if its first factor has four bits
  (`AesField.FourBitsSuffice`); every factor used has.
* The AES buffer calls lose a length of zero: `Encode` then looks for the terminator, `Decode`
  does nothing (`AesBuffers.ZeroLengthIsLost`).

## Model

| member | source | states |
|---|---|---|
| Grid.RowMajor | src/tutorial/tools/generate_path_config/generate_path_config.cc:677-679 | the recursive cell number is y * width + x, so the fast node lookup is the row by row order |
| Grid.SamePosition | src/tutorial/tools/generate_path_config/generate_path_config.cc:537-550 | two cells of the map with the same number are the same cell |
| Grid.RowOrder | src/tutorial/tools/generate_path_config/generate_path_config.cc:689-690 | the cell number orders cells by row, then by column, both directions |
| Grid.EstimateBound | src/tutorial/tools/generate_path_config/generate_path_config.cc:530-535 | the estimate h between the ends of a walk of m steps satisfies h * h <= 200 * m * m |
| Grid.EstimateIs | src/tutorial/tools/generate_path_config/generate_path_config.cc:530-535 | the estimate is h if and only if h * h is at most a hundred times the squared distance and (h + 1) * (h + 1) is more |
| Grid.WalkSpans | src/tutorial/tools/generate_path_config/generate_path_config.cc:681-699 | a walk of m king moves moves each coordinate by at most m |
| Grid.CostBound | src/tutorial/tools/generate_path_config/generate_path_config.cc:526-535 | n steps that cost no more than k steps done and an estimate for the other m - k satisfy n * n <= 2 * m * m |
| OpenList.SwapKeepsLinks | src/tutorial/tools/generate_path_config/generate_path_config.cc:725-727 | a swap with both positions rewritten keeps every listed node's position right, the members and their payload |
| OpenList.RootIsLeast | src/tutorial/tools/generate_path_config/generate_path_config.cc:733-739 | in an ordered heap no listed node has a smaller f than the node at index 1 |
| OpenList.DetachRoot | src/tutorial/tools/generate_path_config/generate_path_config.cc:746-748 | taking the root out and moving the last node up leaves a list in order but below the root, minus exactly the old root |
| OpenList.SiftUpStep | src/tutorial/tools/generate_path_config/generate_path_config.cc:714-730 | one round upwards keeps order everywhere but above the moving node |
| OpenList.SiftDownStep | src/tutorial/tools/generate_path_config/generate_path_config.cc:752-773 | one round downwards keeps order everywhere but below the moving node |
| OpenList.StaleStart | src/tutorial/tools/generate_path_config/generate_path_config.cc:776-777 | starting to sift up from the stale position of the root is harmless: the place found there still holds the root |
| OpenList.CheaperKeepsOrder | src/tutorial/tools/generate_path_config/generate_path_config.cc:614-618 | lowering the f of a listed node breaks the order above that node only |
| SearchInvariant.CloseStep | src/tutorial/tools/generate_path_config/generate_path_config.cc:598-599 | closing the node taken out keeps the search sound while its neighbours are relaxed, and leaves the potential as it is |
| SearchInvariant.ReparentStep | src/tutorial/tools/generate_path_config/generate_path_config.cc:614-618 | a cheaper parent keeps all costs and parent links right (parent g + 10 <= g) and strictly lowers the potential, also when a closed node is re-opened |
| SearchInvariant.MeasureStep | src/tutorial/tools/generate_path_config/generate_path_config.cc:606-626 | by how much exactly a new or cheaper node changes the potential |
| SearchInvariant.ExpandedFully | src/tutorial/tools/generate_path_config/generate_path_config.cc:603-626 | after all neighbours are relaxed, the closed node has all walkable neighbours discovered at g + 10 or less |
| SearchInvariant.Frontier | src/tutorial/tools/generate_path_config/generate_path_config.cc:591-627 | on any walk from the start to a node not expanded lies an open node whose g is at most 10 per step taken |
| SearchInvariant.ExhaustedMeansUnreachable | src/tutorial/tools/generate_path_config/generate_path_config.cc:629 | with the open list empty and the end never met, no walk leads to the end |
| SearchInvariant.LeastEndIsClose | src/tutorial/tools/generate_path_config/generate_path_config.cc:591-596 | when the end has the least f of all open nodes, its path of n steps has n * n <= 2 * m * m against any walk of m steps |
| PathSearch.Scene.constructor | src/tutorial/tools/generate_path_config/generate_path_config.cc:537-550 | one node per cell, row by row, walkable exactly where the map has '0' |
| PathSearch.Scene.GetNode | src/tutorial/tools/generate_path_config/generate_path_config.cc:673-679 | the node found is the node of that cell |
| PathSearch.Scene.GetNeighborNodes | src/tutorial/tools/generate_path_config/generate_path_config.cc:681-699 | exactly the walkable king-move neighbours, each once, in row order |
| PathSearch.Scene.InsertOpenList | src/tutorial/tools/generate_path_config/generate_path_config.cc:709-731 | the heap stays in order, gains exactly this node, no payload changes |
| PathSearch.Scene.DeleteMinFScoreNodeInOpenList | src/tutorial/tools/generate_path_config/generate_path_config.cc:741-774 | the heap stays in order and loses exactly its root, a least node; the new root's position is stale exactly when nothing was swapped |
| PathSearch.Scene.SiftDown | src/tutorial/tools/generate_path_config/generate_path_config.cc:750-773 | order is restored below the moved node, members and payload stay |
| PathSearch.Scene.ResortOpenList | src/tutorial/tools/generate_path_config/generate_path_config.cc:776-795 | after a decrease of f the heap is in order again, members and payload unchanged |
| PathSearch.Scene.RelaxNeighbor | src/tutorial/tools/generate_path_config/generate_path_config.cc:603-626 | one neighbour more is relaxed: it gets the new parent and cost exactly if it is neither closed nor open at no more than that, else nothing changes; the invariants of the search stay, the potential goes down or nothing changes |
| PathSearch.Scene.Expand | src/tutorial/tools/generate_path_config/generate_path_config.cc:598-626 | one round keeps the search invariant and lowers (potential, list size) |
| PathSearch.Scene.ConstructResultPath | src/tutorial/tools/generate_path_config/generate_path_config.cc:805-812 | the parent chain ends at the start, is a walk from it to the end, and has at most g(end) / 10 steps; older entries of the vector end up reversed behind it |
| PathSearch.Scene.StartSearch | src/tutorial/tools/generate_path_config/generate_path_config.cc:569-586 | the search starts with the start node open and every node's old state gone |
| PathSearch.Scene.ResetNodes | src/tutorial/tools/generate_path_config/generate_path_config.cc:569-576 | every node keeps its cell and loses all search state |
| PathSearch.Scene.ReachEnd | src/tutorial/tools/generate_path_config/generate_path_config.cc:591-627 | the main loop ends with the end at the root of the heap, or with an empty list and the end out of reach |
| PathSearch.Scene.ReportPath | src/tutorial/tools/generate_path_config/generate_path_config.cc:593-596 | with the end at the root, the path built is a walk and nearly shortest |
| PathSearch.Scene.SearchPath | src/tutorial/tools/generate_path_config/generate_path_config.cc:554-630 | true exactly when both ends are on the map and the end can be reached; the result is a walk from begin to end of n steps with n * n <= 2 * m * m for every walk of m steps; it always ends |
| SearchRuns.Expand | src/tutorial/tools/generate_path_config/generate_path_config.cc:598-626 | what one expansion does to the costs of all open and closed nodes: its node is closed, and its walkable neighbours, in the order of their cells, are offered its cost plus one step |
| SearchRuns.StaleStartIsReached | src/tutorial/tools/generate_path_config/generate_path_config.cc:776-777 | a run on a map of six by three cells up to a decrease of f whose sift-up starts one past the end of the list |
| Timestamps.PlusAddsNanos | src/mysya/util/timestamp.cc:117-127 | adding milliseconds adds exactly that many nanoseconds to the total, and leaves a nanosecond field of 0 to 10^9 after a normal time |
| Timestamps.LessIsByNanos | src/mysya/util/timestamp.cc:102-108 | operator< agrees with the nanosecond totals except exactly when a full 10^9 field stands against the next second's zero |
| Timestamps.NormalLess | src/mysya/util/timestamp.cc:102-108 | against a normal clock reading operator< is the order of nanosecond totals |
| Timestamps.DistanceIsAbsolute | src/mysya/util/timestamp.cc:79-93 | the nanosecond distance is the absolute difference of the totals, whichever side comes first |
| Timestamps.MillisecondRounding | src/mysya/util/timestamp.cc:47-62 | for any two times, in either order, the millisecond distance is the exact one rounded down if and only if no borrow from the seconds leaves a fraction; then it is one more |
| WheelArithmetic.StepValues | src/mysya/ioevent/timing_wheel.cc:22-24 | the wheels step by 1, 256, 256*64, 256*64*64 and 256*64*64*64 ticks and turn in 2^32 |
| WheelArithmetic.BucketFor | src/mysya/ioevent/timing_wheel.cc:136-142 | the bucket computed is a bucket of the wheel |
| WheelArithmetic.StepsAhead | src/mysya/ioevent/timing_wheel.cc:136-142 | a bucket chosen k steps ahead is the k-th to be served, a full turn for k = 0 |
| WheelArithmetic.LowIsRemainder | src/mysya/ioevent/timing_wheel.cc:345-348 | the cursors of the lower wheels, weighted by their steps, read the tick count modulo the step |
| WheelArithmetic.MidTickReading | src/mysya/ioevent/timing_wheel.cc:345-348 | what the cursors read in the middle of a tick: the tick count, less one step of the wheel that waits for its carry |
| WheelArithmetic.PendingReading | src/mysya/ioevent/timing_wheel.cc:345-348 | what they read when a carry still waits: one step of the waiting wheel too little |
| WheelArithmetic.PlacementIsExact | src/mysya/ioevent/timing_wheel.cc:330-354 | ticks until the chosen bucket is served plus the left-over ticks is the delay asked for, measured from the tick the cursors read |
| WheelArithmetic.UndoIsBounded | src/mysya/ioevent/timing_wheel.cc:351-353 | the left-over ticks stay below the range of the wheels |
| WheelBuckets.FileTimer | src/mysya/ioevent/timing_wheel.cc:144-145 | pushing a timer onto its bucket keeps every timer in exactly the bucket it records |
| WheelBuckets.PopTimer | src/mysya/ioevent/timing_wheel.cc:166-168 | taking the first timer of a bucket leaves only that timer in flight |
| WheelBuckets.UnfileTimer | src/mysya/ioevent/timing_wheel.cc:148-160 | erasing a timer from the bucket it records removes it from all buckets |
| WheelBuckets.ServeKeepsDues | src/mysya/ioevent/timing_wheel.cc:162-164 | moving a cursor makes the timers of the bucket left due now or after their left-over ticks, and no other timer's due tick moves |
| WheelBuckets.IntoDrained | src/mysya/ioevent/timing_wheel.cc:136-145 | a placement goes into the bucket being drained if and only if it has no delay and the first wheel is drained |
| WheelBuckets.LowerHop | src/mysya/ioevent/timing_wheel.cc:171-174 | left-over ticks that go to a lower wheel than the drained one never land in its last bucket, and leave less than one of its steps over |
| WheelState.CancelKeeps | src/mysya/ioevent/timing_wheel.cc:307-320 | stopping a timer at any moment, also from a callback, keeps buckets, due ticks and history |
| WheelState.StartKeeps | src/mysya/ioevent/timing_wheel.cc:299-300 | so does starting one |
| WheelState.HopKeeps | src/mysya/ioevent/timing_wheel.cc:171-174 | a cascade step keeps the due tick and leaves the drained bucket |
| WheelState.RetryKeeps | src/mysya/ioevent/timing_wheel.cc:175-179 | a timer found not expired is due one tick later, on the first wheel with nothing left over, and everything else stays |
| WheelState.RearmKeeps | src/mysya/ioevent/timing_wheel.cc:185-187 | a called timer with calls left goes back on a wheel, is next due as its calls so far say, and never into the drained bucket |
| WheelState.RearmIsDue | src/mysya/ioevent/timing_wheel.cc:185-187 | the tick the placement aims at is one period after the call, short of it by one turn of the first wheel only after a put-off to a tick in which that wheel wraps |
| WheelState.CallContinues | src/mysya/ioevent/timing_wheel.cc:385-395 | one more tick of the same call of OnExpired: a timer due in it is called in it, unless the clock is before its expire time or it was stopped |
| WheelState.SettledRearmsOnTime | src/mysya/ioevent/timing_wheel.cc:185-187 | a timer that was never put off is re-armed for exactly one period later |
| WheelState.RetireKeeps | src/mysya/ioevent/timing_wheel.cc:188-190 | the last call drops the timer from map and buckets |
| TimerLedger.CallMovesNext | src/mysya/ioevent/timing_wheel.cc:180-187 | how one more call moves the tick a timer is due in next |
| WheelState.ServeEnds | src/mysya/ioevent/timing_wheel.cc:166-196 | once its bucket is empty the wheel is through this tick and no pending timer of it was due |
| WheelState.TickEnds | src/mysya/ioevent/timing_wheel.cc:390-394 | stopping at the first wheel that has not wrapped serves every wheel whose turn it is |
| TimerCommands.TicksFor | src/mysya/ioevent/timing_wheel.cc:275-278 | milliseconds to ticks, rounded up: the least number of ticks that covers the delay, none for a delay not above zero |
| TimerCommands.StartsInTime | src/mysya/ioevent/timing_wheel.cc:275-293 | rounding up and counting from the last tick never misses the first tick after the expire time |
| TimerCommands.RanStart | src/mysya/ioevent/timing_wheel.cc:280-304 | a start in a callback gives the next id a timer with the asked expire time, period and calls, due its delay after the tick of the start, or one step of a wheel that moves in that tick earlier; without delay in that tick or a turn of the first wheel later |
| TimerCommands.RanStop | src/mysya/ioevent/timing_wheel.cc:307-320 | a stop leaves that timer out from the call it comes in on, and touches no other |
| TimerCommands.RanOn | src/mysya/ioevent/timing_wheel.cc:192 | what two stretches did for their orders, together they did for both; stops of timers the first started, given in the second, included |
| TimerCommands.CallObeys | src/mysya/ioevent/timing_wheel.cc:180-193 | a call and its callback do what the callback asks and nothing else; a timer it starts and then stops is gone |
| TimerCommands.TurnEnds | src/mysya/ioevent/timing_wheel.cc:166-194 | one round of a drain obeys its callback and comes closer to the end of the drain: first call of the tick, calls left without period, timers left |
| TimerCommands.EndlessRestart | src/mysya/ioevent/timing_wheel.cc:166-194 | no quota covers a callback that starts its timer anew without delay |
| WheelDrain.RoundReturns | src/mysya/ioevent/timing_wheel.cc:166-191 | exactly a called timer without period that has calls left goes back into the drained bucket, behind the others and with one call less to go |
| WheelDrain.RoundSpends | src/mysya/ioevent/timing_wheel.cc:166-191 | what one round takes off the calls left in the bucket, and off its length |
| WheelDrain.DrainEnds | src/mysya/ioevent/timing_wheel.cc:166-194 | rounds without commands of callbacks empty the bucket in the end if and only if no due timer in it is without period and without limit |
| TimerCommands.ObeysOn | src/mysya/ioevent/timing_wheel.cc:166-196 | obedience to the callbacks of a stretch of calls adds up over stretches |
| TimingWheels.TimingWheel.constructor | src/mysya/ioevent/timing_wheel.cc:200-229 | an empty wheel at tick zero satisfies the invariant |
| TimingWheels.TimingWheel.AddTimer | src/mysya/ioevent/timing_wheel.cc:273-305 | a new id; due exactly its delay, rounded up to ticks, from now, a full first wheel for delay zero; nothing else changes |
| TimingWheels.TimingWheel.RemoveTimer | src/mysya/ioevent/timing_wheel.cc:307-320 | exactly this timer goes, and is entered as stopped after the calls made so far; unknown ids change nothing |
| TimingWheels.TimingWheel.WheelAddTimer | src/mysya/ioevent/timing_wheel.cc:125-146 | the timer is behind all others in the bucket computed, no other bucket changes |
| TimingWheels.TimingWheel.AddWheel | src/mysya/ioevent/timing_wheel.cc:330-354 | the loop finds the shortest wheel for the delay and leaves it the left-over ticks of the placement |
| TimingWheels.TimingWheel.RemoveFromBucket | src/mysya/ioevent/timing_wheel.cc:148-160 | the search loop erases that id from that bucket and nothing else |
| TimingWheels.TimingWheel.RunCallback | src/mysya/ioevent/timing_wheel.cc:192 | the commands of a callback are carried out one by one, and nothing else: the n-th start gives the n-th new id, a stop takes effect on any timer known or started before it; the invariant is kept, and the drained bucket gets fuller only by starts without delay |
| TimingWheels.TimingWheel.RunCommand | src/mysya/ioevent/timing_wheel.cc:192 | one command in any state a callback can see |
| TimingWheels.TimingWheel.Rearm | src/mysya/ioevent/timing_wheel.cc:185-187 | the timer is placed by its period with one call less to go, and the call is logged: the whole new state |
| TimingWheels.TimingWheel.Retire | src/mysya/ioevent/timing_wheel.cc:188-190 | the timer is gone from the map, no bucket changes, and the call is logged: the whole new state |
| TimingWheels.TimingWheel.Hop | src/mysya/ioevent/timing_wheel.cc:171-174 | the timer is placed by its left-over ticks: the whole new state |
| TimingWheels.TimingWheel.Retry | src/mysya/ioevent/timing_wheel.cc:175-179 | the timer is placed one tick ahead: the whole new state |
| TimingWheels.TimingWheel.Count | src/mysya/ioevent/timing_wheel.cc:185-190 | the timer called is re-armed exactly if it has calls left; one call is logged, in the current tick: the whole new state, consistent |
| TimingWheels.TimingWheel.Postpone | src/mysya/ioevent/timing_wheel.cc:171-179 | the timer is placed by its left-over ticks, or put off by one: the whole new state, consistent |
| TimingWheels.TimingWheel.Fire | src/mysya/ioevent/timing_wheel.cc:180-193 | the timer is counted, and from that state its callback's commands are carried out |
| TimingWheels.TimingWheel.DrainOne | src/mysya/ioevent/timing_wheel.cc:166-194 | one round takes the first timer out and places, puts off or calls it, with the commands of the callback carried out in the state that leaves; the drain comes closer to its end |
| TimingWheels.TimingWheel.Drain | src/mysya/ioevent/timing_wheel.cc:166-194 | the drain ends, with the bucket empty, for every restrained reaction of callbacks |
| TimingWheels.TimingWheel.ServeWheel | src/mysya/ioevent/timing_wheel.cc:162-197 | the wheel moves and its bucket is drained, and the result is zero exactly when the next wheel has to move; otherwise the tick is complete |
| TimingWheels.TimingWheel.Tick | src/mysya/ioevent/timing_wheel.cc:386-394 | one tick: every timer due in it is called, put off or stopped, none before; only what callbacks ordered is started or stopped, and what is stopped is called no more, in this tick too |
| TimingWheels.TimingWheel.OnExpired | src/mysya/ioevent/timing_wheel.cc:375-398 | for every clock, ticks issued times tick length plus the new remainder is what the old remainder and the time passed wrap round to in an int, the remainder below a tick and of its sign; each timer pending before keeps its due tick, is put off to the next tick if the clock is before its expire time, or was called exactly in its due tick, unless a callback of this call stopped it; timers are started and stopped exactly as these callbacks ordered, and only timers pending or newly started, and not stopped before, are called |
| TimingWheels.TimingWheel.Elapse | src/mysya/ioevent/timing_wheel.cc:376-383 | for every clock, the ticks to issue and the new remainder make up the wrapped total of the old remainder and the time passed |
| TimingWheels.SplitsOneWay | src/mysya/ioevent/timing_wheel.cc:381-383 | a total wraps and splits into ticks and a remainder in one way only |
| TimingWheels.TimingWheel.Punctual | src/mysya/ioevent/timing_wheel.cc:375-398 | on a steady clock no promptly started timer still waits for its first call one tick after its expire time |
| TimingTheorems.Odometer | src/mysya/ioevent/timing_wheel.cc:162-164 | the five cursors are the mixed-radix digits of the tick count modulo 2^32 |
| TimingTheorems.OneBucketEach | src/mysya/ioevent/timing_wheel.cc:299-320 | a timer is in a bucket exactly when it is pending and records that bucket, and at most once |
| TimingTheorems.BucketMeetsDueTick | src/mysya/ioevent/timing_wheel.cc:330-354 | tick at which its bucket is next served plus left-over ticks is the due tick, always still to come |
| TimingTheorems.CallsAreCounted | src/mysya/ioevent/timing_wheel.cc:180-192 | at most n calls for a limit n (one for 0), fewer while pending, exactly n when gone without being stopped |
| TimingTheorems.UnlimitedStays | src/mysya/ioevent/timing_wheel.cc:185-187 | a timer without limit is pending until it is stopped |
| TimingTheorems.CallsAreOnTime | src/mysya/ioevent/timing_wheel.cc:171-193 | no call comes before the tick its timer's calls so far make it due in; on a steady clock only a first call can come later |
| TimingTheorems.CallsArePeriodic | src/mysya/ioevent/timing_wheel.cc:185-187 | on a steady clock, for every period: a call comes one period after the one before, unless that was the first call and did not come in its due tick |
| TimingTheorems.LateFirstCall | src/mysya/ioevent/timing_wheel.cc:175-187 | after a late first call the second is one period later if and only if the period is below 256 ticks or the tick of the first is not divisible by 256; else 256 ticks short |
| TimingTheorems.ShortPeriodsAreExact | src/mysya/ioevent/timing_wheel.cc:180-192 | on a steady clock calls with a period below 256 ticks are exactly one period apart |
| TimingTheorems.DueAfterCalls | src/mysya/ioevent/timing_wheel.cc:185-187 | on a steady clock a timer that was called is due exactly as its calls say |
| TimingTheorems.RestartIsPrompt | src/mysya/ioevent/timing_wheel.cc:192 | a timer started by a callback at the time of its call is started promptly |
| TimingTheorems.NeverEarly | src/mysya/ioevent/timing_wheel.cc:175-192 | no call of any timer comes before its expire timestamp |
| TimingTheorems.NeverLate | src/mysya/ioevent/timing_wheel.cc:375-398 | an uncalled prompt timer means the clock is less than one tick past its expire time |
| TimingTheorems.MidTickDelay | src/mysya/ioevent/timing_wheel.cc:345 | a delay is placed so that it is due exactly then if and only if it is shorter than a step of the next wheel to move, that wheel does not move in this tick, or all have moved; else it is one step of that wheel early |
| TimingTheorems.StoppedIsSilent | src/mysya/ioevent/timing_wheel.cc:307-320 | in every state: a timer stopped after the first n calls of the log is gone and has none of the calls behind them |
| TimingTheorems.GoneIsSilent | src/mysya/ioevent/timing_wheel.cc:307-320 | a timer that is gone stays gone and is not called by anything that comes after |
| TimingTheorems.StopIsObeyed | src/mysya/ioevent/timing_wheel.cc:307-320 | an order of a callback to stop a timer, there before or started by an order before it, is followed by no call of it, in the same tick neither |
| TimingTheorems.NotStopped | src/mysya/ioevent/timing_wheel.cc:307-320 | a pending timer no callback of a stretch orders to stop is not stopped by it |
| TimingTheorems.OrderComesFrom | src/mysya/ioevent/timing_wheel.cc:192 | every order of a stretch was given by one of its calls, in the tick of that call, and is marked with the number of calls up to it |
| TimingTheorems.OneShotCalled | src/mysya/ioevent/timing_wheel.cc:162-197 | a prompt timer for one call that was not stopped has been called one tick after its expire time |
| TimingTheorems.CalledUnlessStopped | src/mysya/ioevent/timing_wheel.cc:375-398 | the same for any stretch of the run whose callbacks do not order it to stop |
| TimingRuns.RestartIsBorn | src/mysya/ioevent/timing_wheel.cc:192 | when every callback starts one timer anew, every call has its successor, promptly started and not stopped |
| TimingRuns.RestartIsCalled | src/mysya/ioevent/timing_wheel.cc:192 | and that successor has been called one tick after its expire time |
| TimingRuns.Calls | src/mysya/ioevent/timing_wheel.cc:375-398 | one call of OnExpired past the due tick and expire time makes exactly one callback, in the due tick |
| TimingRuns.Follow | src/mysya/ioevent/timing_wheel.cc:375-398 | any number of readings of a clock that does not go back, with gaps below 2^31 ns, keep the clock account steady and obey the callbacks |
| TimingRuns.OneShotIsCalled | src/mysya/ioevent/timing_wheel.cc:273-398 | a new wheel, callbacks that stop nothing, one timer for one call with any delay, the clock read any number of times: called exactly once |
| TimingRuns.StopForGood | src/mysya/ioevent/timing_wheel.cc:307-320 | a timer stopped between readings is never called again, whatever the callbacks do and however the clock goes |
| TimingRuns.StoppedIsNotCalled | src/mysya/ioevent/timing_wheel.cc:307-320 | started and stopped at once: not called at all |
| TimingRuns.PutOffPeriodComesEarly | src/mysya/ioevent/timing_wheel.cc:175-187 | a run from an empty wheel in which a timer of period 300 is called in ticks 512 and 556 |
| Bytes.LittleRoundTrip | src/mysya/codec/protobuf_codec.cc:56 | the bytes of a number in memory order read back as that number |
| Bytes.LittleAt | src/mysya/codec/protobuf_codec.cc:108-109 | byte i of a number in memory is its i-th digit to the base 256, lowest first |
| Bytes.Int32RoundTrip | src/mysya/codec/protobuf_codec.cc:56 | so do the four bytes of any signed 32-bit number |
| Bytes.Int32Value | src/mysya/codec/protobuf_codec.cc:49-56 | four bytes read as an int: the lowest first, the sign in the top bit of the last |
| Bytes.Int16Value | src/mysya/codec/protobuf_codec.cc:63 | the same for two bytes |
| DynamicBuffers.DynamicBuffer.constructor | src/mysya/ioevent/dynamic_buffer.cc:8-10 | an empty queue with the initial capacity |
| DynamicBuffers.DynamicBuffer.ReadBytes | src/mysya/ioevent/dynamic_buffer.cc:44-51 | drops up to that many bytes from the front of the queue; read to the end, the whole capacity is writable again |
| DynamicBuffers.DynamicBuffer.WrittenBytes | src/mysya/ioevent/dynamic_buffer.cc:57-59 | appends what was written behind the contents, as far as there is room |
| DynamicBuffers.DynamicBuffer.Append | src/mysya/ioevent/dynamic_buffer.cc:61-69 | appends exactly the data, whatever room there was |
| DynamicBuffers.DynamicBuffer.Read | src/mysya/ioevent/dynamic_buffer.cc:71-79 | copies the front, the queue keeps it |
| DynamicBuffers.DynamicBuffer.ReserveWritableBytes | src/mysya/ioevent/dynamic_buffer.cc:81-107 | keeps the contents, guarantees the room; whenever it moves or grows, all of the capacity but the contents is room; capacity stays init + n * expand and grows only when moving down is not enough, by at most expand too much |
| QueueProtocol.FirstInFirstOut | src/mysya/qservice/message_queue.cc:102-125 | over every run without empty messages: delivered, consumer side and producer side put together are the pushed sequence |
| QueueProtocol.DeliveredByNextDrain | src/mysya/qservice/message_queue.cc:102-125 | all that was pushed before an exchange, and no more, is delivered when the following drain ends, if and only if none of the messages handed over is empty |
| QueueProtocol.RunConserves | src/mysya/qservice/message_queue.cc:102-125 | with empty messages too, every message with data is delivered or waiting exactly once, and no empty one is delivered |
| QueueProtocol.PushAndPopKeepOrder | src/mysya/qservice/message_queue.cc:36-75 | a push or pop, of empty messages too, does not change whether the messages with data are in the order pushed |
| QueueProtocol.ExchangeKeepsOrder | src/mysya/qservice/message_queue.cc:54-58 | an exchange keeps that order if and only if the data on the two sides is the same either way round |
| QueueProtocol.OrderIsKept | src/mysya/qservice/message_queue.cc:102-125 | over every run the order is kept all along if and only if every exchange is of that kind |
| QueueProtocol.DrainDelivers | src/mysya/qservice/message_queue.cc:110-121 | a drain delivers its side exactly up to the first empty message and leaves what stands behind, whatever is pushed meanwhile |
| QueueProtocol.DrainedIsComplete | src/mysya/qservice/message_queue.cc:111-114 | with both sides empty, everything pushed was delivered in order if and only if no empty message was pushed |
| QueueProtocol.EmptyMessageReorders | src/mysya/qservice/message_queue.cc:111-114 | a run with one empty message in which two others swap places |
| MessageQueues.HeaderOf | src/mysya/qservice/message_queue.cc:65-69 | the header of the first frame gives its host and size, and its data lies behind |
| MessageQueues.FramesAreUnique | src/mysya/qservice/message_queue.cc:36-75 | bytes are frames of at most one list of messages: no tearing |
| MessageQueues.FramedAppend | src/mysya/qservice/message_queue.cc:41-49 | a frame behind frames is the frames of one message more |
| MessageQueues.WriteElement | src/mysya/qservice/message_queue.cc:41-49 | writing host, size and data through the write pointer appends one frame |
| MessageQueues.ReadElement | src/mysya/qservice/message_queue.cc:65-72 | reading through the read pointer gives the first message and drops its frame |
| MessageQueues.MessageQueue.constructor | src/mysya/qservice/message_queue.cc:20-30 | two separate empty buffers |
| MessageQueues.MessageQueue.Push | src/mysya/qservice/message_queue.cc:36-52 | is the protocol's Push, on the bytes of the producer's buffer only |
| MessageQueues.MessageQueue.Exchange | src/mysya/qservice/message_queue.cc:54-58 | is the protocol's Exchange, by the pointers only |
| MessageQueues.MessageQueue.Pop | src/mysya/qservice/message_queue.cc:60-75 | the data of the oldest frame goes to the read buffer; zero without a frame |
| MessageQueues.DrainIsARun | src/mysya/qservice/message_queue.cc:102-125 | a drain is the run of the protocol made of its pops, the arrivals pushed before each, and one exchange |
| MessageQueues.MessageQueue.PopOnce | src/mysya/qservice/message_queue.cc:110-121 | one round of the drain is the protocol's Pop and goes on exactly when it delivered |
| MessageQueues.MessageQueue.OnPendingRead | src/mysya/qservice/message_queue.cc:102-125 | with any pushes arriving before every step: everything up to the first empty message is delivered, the rest behind it stays, and exactly what was pushed before and meanwhile, in order, is to be read next: the whole new queue, and it ends |
| ProtobufFraming.TakenExactly | src/mysya/codec/protobuf_codec.cc:49-75 | what the decoder takes: exactly a frame of a known type, whatever the upper two bytes of its name length are |
| ProtobufFraming.MalformedReadsOn | src/mysya/codec/protobuf_codec.cc:63-65 | for a frame with both length fields, not negative: it is malformed if and only if the name read depends on the memory behind it |
| ProtobufFraming.FrontIs | src/mysya/codec/protobuf_codec.cc:49-75 | each of the four decisions of the decoder, by an iff over the bytes alone: it waits without a length field, with a length below four or of more than is there; it meets an unknown type at a whole frame with a name not known |
| ProtobufFraming.FirstIsStable | src/mysya/codec/protobuf_codec.cc:49-75 | once decided, more bytes change nothing |
| ProtobufFraming.DecodeInParts | src/mysya/codec/protobuf_codec.cc:45-95 | decoding in two goes is decoding in one, up to the first frame whose lengths do not fit it |
| ProtobufFraming.ChunksDoNotMatter | src/mysya/codec/protobuf_codec.cc:45-95 | messages, leftover and outcome do not depend on how a stream is cut, up to the first frame whose lengths do not fit it |
| ProtobufFraming.FrameComesBack | src/mysya/codec/protobuf_codec.cc:63-65 | a frame is read as its message if and only if the type name is shorter than 2^15 bytes |
| ProtobufFraming.PartialFrameWaits | src/mysya/codec/protobuf_codec.cc:49-61 | a proper prefix of a frame makes the decoder wait and is kept |
| ProtobufFraming.StreamRoundTrip | src/mysya/codec/protobuf_codec.cc:45-127 | the frames of any messages plus a part of one more, in any chunks: exactly those messages in order, and exactly that part left |
| ProtobufFraming.FrameFields | src/mysya/codec/protobuf_codec.cc:100-112 | a frame by its fields: its length in four bytes, the name length in four, the name, the payload |
| ProtobufCodecs.ProtobufCodec.OnMessage | src/mysya/codec/protobuf_codec.cc:45-95 | the loop takes out all whole frames, calls back for those that parse, keeps the rest, and returns the bytes taken or -1; by the bytes left, -1 comes exactly at a whole frame whose name is not known; no result is claimed at a frame whose lengths do not fit it |
| ProtobufCodecs.ProtobufCodec.Receive | src/mysya/codec/protobuf_codec.cc:45-95 | chunks appended and decoded one by one give the messages and the rest of the stream as a whole |
| ProtobufCodecs.ProtobufCodec.ReceiveFrames | src/mysya/codec/protobuf_codec.cc:45-127 | the frames of any messages and a part of one more, in any chunks: the callback gets exactly those that parse, in order, and exactly that part is left |
| ProtobufCodecs.ProtobufCodec.Take | src/mysya/codec/protobuf_codec.cc:73-91 | a frame that does not parse is dropped without a callback |
| ProtobufCodecs.ProtobufCodec.SendMessage | src/mysya/codec/protobuf_codec.cc:97-127 | of the bytes handed to the socket the first four are their number, the next four the length of the type name, then the name, then the payload |
| Base64.CharRoundTrip | src/tutorial/orcas/combat/base64.cc:10-22 | the decoding table undoes the encoding table |
| Base64.GroupRoundTrip | src/tutorial/orcas/combat/base64.cc:58-67 | four characters decode to the one, two or three bytes they came from |
| Base64.LengthOfEncoded | src/tutorial/orcas/combat/base64.cc:31-70 | four characters for every three bytes begun |
| Base64.RoundTrip | src/tutorial/orcas/combat/base64.cc:24-134 | decoding undoes encoding for all byte strings |
| Base64.Accepts | src/tutorial/orcas/combat/base64.cc:96-131 | the decoder accepts exactly whole groups with two counting characters each, and gives at most three bytes a group |
| Base64.AlphabetAt | src/tutorial/orcas/combat/base64.cc:10-12 | the encoding table is the literal alphabet |
| Base64.CountsFor | src/tutorial/orcas/combat/base64.cc:13-22 | a character counts if and only if it is between 43 and 122 and no padding; one of the alphabet stands for its index there, a hole for all bits, one that does not count for zero |
| Base64.EncodeIsText | src/tutorial/orcas/combat/base64.cc:31-68 | character p of the encoding is the alphabet at the six bits number p of the input, and padding exactly in the one or two places behind the last bits |
| Base64.DecodeIsBytes | src/tutorial/orcas/combat/base64.cc:96-131 | the decoded bytes are, group by group, the first eights of the four values side by side, as many as characters count less one |
| Base64.EncodeGroups | src/tutorial/orcas/combat/base64.cc:31-68 | the loop writes the whole encoding, each character the alphabet at its six bits and padding behind, or stops exactly when it does not fit |
| Base64.EncodeInto | src/tutorial/orcas/combat/base64.cc:24-71 | the text of the input is written and its length returned, or -1 exactly when the buffer is too small |
| Base64.EncodeString | src/tutorial/orcas/combat/base64.cc:73-87 | a buffer of max(5, 2n) always holds the text of the input |
| Base64.DecodeGroups | src/tutorial/orcas/combat/base64.cc:96-131 | the loop writes what the text decodes to, or stops exactly where it must |
| Base64.DecodeInto | src/tutorial/orcas/combat/base64.cc:89-134 | the bytes of the text are written and their number returned, or -1 exactly when the text is not whole groups with two counting characters each, or the buffer too small for their bytes |
| Base64.DecodeString | src/tutorial/orcas/combat/base64.cc:136-150 | a buffer as long as the text always holds its bytes; a text that is not accepted gives none |
| AesTables.BoxInverse | src/tutorial/orcas/gateway/aes.cc:11-47 | the second byte table undoes the first |
| AesTables.BoxOnto | src/tutorial/orcas/gateway/aes.cc:11-47 | and the first the second |
| AesBox.BoxIs | src/tutorial/orcas/gateway/aes.cc:11-28 | an entry of the byte table is the affine image of y if and only if y is the inverse of its index in the field, zero its own |
| AesField.DoubleByBranch | src/tutorial/orcas/gateway/aes.cc:190-195 | shifting and adding 0x1b on overflow is multiplication by x modulo the field polynomial |
| AesField.FFmul | src/tutorial/orcas/gateway/aes.cc:185-204 | the two loops give the sum of the doublings the four low bits select |
| AesField.ProductSum | src/tutorial/orcas/gateway/aes.cc:185-204 | the product distributes over sums of its second factor |
| AesField.FactorSum | src/tutorial/orcas/gateway/aes.cc:185-204 | and over sums of its first |
| AesField.FourBitsSuffice | src/tutorial/orcas/gateway/aes.cc:190-201 | four doublings give the whole field product for every second factor if and only if the first is below 16 |
| AesField.ComposeAll | src/tutorial/orcas/gateway/aes.cc:285-288 | a combination of multiples of one byte is one multiple of it, with the factors composed |
| AesField.MixIs | src/tutorial/orcas/gateway/aes.cc:235-240 | a mixed cell is twice its own, three times the next and once each of the other two |
| AesField.MixInverse | src/tutorial/orcas/gateway/aes.cc:228-243 | a column mixed and unmixed is the column again |
| AesRounds.RowsByAt | src/tutorial/orcas/gateway/aes.cc:215-226 | row r of a shifted state is row r rotated by r, forth or back |
| AesRounds.RoundsAre | src/tutorial/orcas/gateway/aes.cc:66-73 | every state of the encoder cell by cell from the one before: the sum with the first round key, nine rounds that substitute, shift, mix and add, one that does not mix |
| AesKeys.PowersOfX | src/tutorial/orcas/gateway/aes.cc:156 | the round constants are the powers of x in the field |
| AesKeys.EveryKeyTells | src/tutorial/orcas/gateway/aes.cc:154-183 | two cipher keys have a round key of one number in common if and only if they are the same key |
| AesKnownBlock.KnownBlock | src/tutorial/orcas/gateway/aes.cc:56-183 | under the key of Appendix B of FIPS 197 its block becomes the block printed there, and back |
| AesBuffers.Aes.KeyExpansion | src/tutorial/orcas/gateway/aes.cc:154-183 | the loops fill the eleven round keys as section 5.2 of FIPS 197 defines them |
| AesBuffers.Aes.ExpandKey | src/tutorial/orcas/gateway/aes.cc:157-182 | in place, round key by round key and column by column |
| AesBuffers.Aes.TurnWord | src/tutorial/orcas/gateway/aes.cc:169-176 | in place, the last column is turned by one cell, substituted, and its first cell gets the round constant |
| AesBuffers.Aes.constructor | src/tutorial/orcas/gateway/aes.cc:10-52 | the cipher holds the round keys of its key |
| AesRounds.ShiftInverse | src/tutorial/orcas/gateway/aes.cc:263-274 | shifting the rows back undoes shifting them |
| AesRounds.BoxesInverse | src/tutorial/orcas/gateway/aes.cc:254-261 | substituting back undoes substituting |
| AesRounds.ColumnsInverse | src/tutorial/orcas/gateway/aes.cc:276-291 | unmixing all columns undoes mixing them |
| AesRounds.AddedTwice | src/tutorial/orcas/gateway/aes.cc:245-252 | adding a round key twice changes nothing |
| AesRounds.RoundsMeet | src/tutorial/orcas/gateway/aes.cc:96-103 | each round of the decoder arrives at the encoder's state in the round of that number |
| AesRounds.CipherInverse | src/tutorial/orcas/gateway/aes.cc:56-112 | decoding undoes encoding for every state and every schedule of round keys |
| AesBuffers.BlockInverse | src/tutorial/orcas/gateway/aes.cc:56-112 | the same with the bytes taken in and put back column by column |
| AesBuffers.Aes.SubBytes | src/tutorial/orcas/gateway/aes.cc:206-213 | in place, every cell becomes its entry of the table |
| AesBuffers.Aes.InvSubBytes | src/tutorial/orcas/gateway/aes.cc:254-261 | in place, every cell becomes its entry of the inverse table |
| AesBuffers.Aes.ShiftRows | src/tutorial/orcas/gateway/aes.cc:215-226 | in place, cell (r, c) becomes the old cell (r, (c + r) % 4) |
| AesBuffers.Aes.InvShiftRows | src/tutorial/orcas/gateway/aes.cc:263-274 | in place, cell (r, c) becomes the old cell (r, (c - r + 4) % 4) |
| AesBuffers.Aes.MixColumns | src/tutorial/orcas/gateway/aes.cc:228-243 | in place, every cell becomes the 2, 3, 1, 1 sum of its old column, its own row first |
| AesBuffers.Aes.InvMixColumns | src/tutorial/orcas/gateway/aes.cc:276-291 | in place, every column unmixed from its old cells |
| AesBuffers.Aes.AddRoundKey | src/tutorial/orcas/gateway/aes.cc:245-252 | in place, every cell becomes the exclusive or of the old one and its cell of the round key |
| AesBuffers.Aes.Load | src/tutorial/orcas/gateway/aes.cc:60-64 | the state is the block turned from columns to rows |
| AesBuffers.TurnedAt | src/tutorial/orcas/gateway/aes.cc:60-64 | cell (r, c) of the turned block is byte 4c + r of the block |
| AesBuffers.Aes.Store | src/tutorial/orcas/gateway/aes.cc:75-79 | the block is put back turned, no other byte of the buffer changes |
| AesBuffers.SplicedAt | src/tutorial/orcas/gateway/aes.cc:75-79 | byte 4c + r of the block put back is cell (r, c) of the state |
| AesBuffers.Aes.EncodeAt | src/tutorial/orcas/gateway/aes.cc:56-82 | the sixteen bytes become their encoding under the round keys, no other byte changes |
| AesBuffers.Aes.DecodeAt | src/tutorial/orcas/gateway/aes.cc:84-112 | the sixteen bytes become their decoding, no other byte changes |
| AesBuffers.Aes.FlipBytes | src/tutorial/orcas/gateway/aes.cc:122-127 | every byte before n becomes its exclusive or with 6, every other byte stays |
| AesBuffers.Aes.FindTerminator | src/tutorial/orcas/gateway/aes.cc:117-120 | a length of zero becomes the place of the first zero byte plus one |
| AesBuffers.Aes.Encode | src/tutorial/orcas/gateway/aes.cc:114-134 | up to 16 bytes are flipped byte by byte; of more, every block that begins more than 16 bytes before the end becomes its encoding, and every other byte of the buffer stays |
| AesBuffers.Aes.Decode | src/tutorial/orcas/gateway/aes.cc:136-152 | the same with decoding, without the search for the terminator |
| AesBuffers.DecodeUndoes | src/tutorial/orcas/gateway/aes.cc:114-152 | for all lengths, Decode gives the whole buffer back when told how far Encode reached |
| AesBuffers.ZeroLengthIsLost | src/tutorial/orcas/gateway/aes.cc:117-120 | with the same length on both calls, short data comes back if and only if the length is not zero |

## Left out

* Square root and machine arithmetic of the path search: the estimate is the floor of ten times the distance over the integers, without rounding of `double`; g, f and sizes are unbounded.
* The memory behind the open list: the model keeps the removed entry behind the list's end, where the stale root position can point; that the library's vector leaves it there is not modelled.
* `PrintSearchPath`, map loading and the path configuration writer: input and output only.
* Timer objects: a timer is its id in a map, not a heap object; the id allocator never runs out or repeats.
* Callbacks: each is a function of the calls made so far that returns starts and stops. Those that start timers without delay for ever in one tick are left out, because `OnExpired` does not return from that tick; so are starts without delay and without limit.
- TimingWheels.TimingWheel.AddTimer: a timer without delay needs a limit of calls, because by `WheelDrain.DrainEnds` the drain it comes up in does not end otherwise; delays of minus one tick and below, which the code's assertion on the tick count rejects, are not allowed either.
* Ticks above 2147 ms, whose nanoseconds overflow the code's `int`.
* The tick counter kept for debugging is always there, and its bound is not modelled.
* TimingWheels.TimingWheel.OnExpired: the ticks are accounted for on every clock, the punctuality only while the clock does not go back and no gap with the carried remainder reaches 2^31 ns; after such a gap the code loses time.
* timerfd, the event loop, epoll, threads, sockets and the lock objects: the locks of the message queue appear as the atomicity of the protocol's steps.
* `SetPendingReadTimer` and the pacing of the pending read.
* The message queue's buffers as members: the two pointers are modelled, not which member each points to; pointer alignment is not modelled.
* `DynamicBuffer::Swap` and `ReduceWritableBytes`, which is unfinished in the code.
- ProtobufFraming.DecodeInParts: at a frame whose lengths do not fit it the model stops as malformed; what the code makes of the memory behind the frame, and of the bytes after it, is not modelled.
- ProtobufFraming.ChunksDoNotMatter: the same; from such a frame on the cut of the stream can matter.
- ProtobufCodecs.ProtobufCodec.OnMessage: the same; the result at such a frame is left open.
* Protobuf itself: a message is its type name and payload, with a fixed predicate for known names and another for payloads that parse.
* The loop of the gateway codec around AES and compression.
* Event and vote dispatchers, observers, combat and match-making handlers.
