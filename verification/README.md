# Proofs about the allocator and the small engines of this repository

Six pieces of the repository, each with its own state and its own way to go wrong, modelled in Dafny:

1. **The private-area allocator of YAMI4.** First fit inside one buffer; two doubly linked lists run through the
   same headers. `Allocator.dfy` has the code statement by statement over an array of headers indexed by offset.
   `Segments.dfy` has the sequence of segments it is meant to keep, `Headers.dfy` and `LinkSteps.dfy` prove that
   each pointer update is the matching step on that sequence, `FreeChain.dfy` what the search finds,
   `AllocatorRuns.dfy` what holds after whole runs, `LiteralSplit.dfy` what the code does wrong.
2. **Raphael's path rewriters** (`Paths.dfy`, `RelativePaths.dfy`, `ImpliedControls.dfy`): the absolute form
   draws the same picture (in the sense of section 8.3 of SVG 1.1); in the relative form the points that are
   given drift by a bounded amount, the control points that smooth commands imply by more.
3. **Raphael's event dispatcher** (`Eve.dfy`, `EveDispatch.dfy`): in which order listeners fire, and what a stop
   does.
4. **Raphael's bounded memo wrapper** (`Memo.dfy`) and **z-order list** (`ZOrder.dfy`).
5. **jsAnim's animation chain** (`AnimationChain.dfy`).
6. **YAMI4's channel slots and descriptors** (`Channels.dfy`).

## Where the code does not do what it should

* **The split in `allocate` forgets a link** (`allocator.cpp:151-153`): the free segment behind the one that is
  split keeps naming its old predecessor. Once it is allocated in its turn, it is unlinked from the wrong place,
  stays on the free list, and is handed out again. `FreeChain.AllocateIsRightExactlyWhen` gives the exact
  condition, which a caller can check before the call: the segment found is split and has a free segment behind
  it. `LiteralSplit.LiteralRun` is a concrete run, for any header size that is a multiple of 8 up to 56:
  allocate 128, 8, 256, 8; give back the first and third; allocate 8, 256, 256: the last two calls return the
  same block. The class `PrivateArea.Allocator` carries a constant `relinks`: false is the code as it stands,
  true adds the one missing line. A stale back-link does no harm until its segment is itself taken, and a
  release can mend it first: `FreeChain.AllocateKeepsListsExactlyWhen` gives the exact condition for each call,
  and `AllocatorRuns.Execute` covers every run, of either code, in which no request takes a stale segment; for
  the repaired code these are all legal runs (`AllocatorRuns.NothingStale`).
* **A request for one of the 7 largest sizes is rounded to 0**, because the addition wraps around, and is then
  met by any free segment (`Segments.RoundUpCovers`, `Segments.FitsExactlyWhenBiggestDoes`).
* **`eve.stop` is not always honoured.** When a listener that had been held back for its zIndex stops the event,
  the `break` leaves only the inner loop, and the next listener without zIndex fires all the same
  (`EveDispatch.Outcome`, `EveDispatch.StopIsIgnored`). It is never more than one listener too many
  (`EveDispatch.Dispatch`).
* **Listeners that share a zIndex can be lost, or fire twice.** Without stops, every listener fires exactly once
  if and only if no two of them clash: share a zIndex that is negative, or that makes the first of the two wait
  for a smaller one matched later (`EveDispatch.Dispatch`; `EveDispatch.FiresTwice` is an example). Pairwise
  distinct values never clash.
* **The relative form drifts with each closed subpath**: `z` returns the tracked point to the unrounded start.
  The relative form draws the same as the given path if and only if every absolute command, but a first move,
  has all its offsets from the current point left alone by the rounding: at most three decimals, or 10^21 and
  more (`RelativePaths.RelativeDrawsTheSameExactlyWhen`). `RelativePaths.RelativeStaysClose` bounds the drift of
  the given points for all other paths, and `RelativePaths.BoundIsAttained` shows that the bound cannot be
  improved.
* **The relative rewriter throws on the empty path**, where the absolute one returns a single move.
* **The control points that `S` and `T` imply drift further**, and along a run of `T` without any close: each
  reflection adds twice the error of the current point. `ImpliedControls.ImpliedStaysClose` is the bound, linear
  in the length of the run, and `ImpliedControls.ReflectionsAddUp` shows that it is attained.
* **The memo wrapper keeps its results in a plain object and looks keys up by calling that object's own
  `hasOwnProperty`.** One call whose key is `hasOwnProperty` replaces the lookup by its result, and every later
  call throws (`Memo.LookupReplaced`, `Memo.WorksExactlyWhen`). A result stored under `__proto__` becomes the
  prototype instead of a key: it is computed and listed anew each time (`Memo.ProtoListedTwice`), a number or
  string is not returned, and `null` takes the lookup away as well. `Memo.Safe` is the condition on the calls.
* **It also mixes up argument lists with the same joined key** (`Memo.KeysCollide`). That a call agrees with the
  function exactly when it is safe holds of precisely those functions whose result the joined key decides, the
  two keys above aside (`Memo.AgreesExactlyWhen`). Lists that are not empty and in which no argument contains the separator never
  share a key, so on such calls it holds of every function (`Memo.AgreesOnSeparable`).
* **Inserting an element next to itself** links it to itself (`ZOrder.Paper.InsertAfter`).
* **A descriptor is mistaken for a later one** exactly when the slot has been filled a multiple of 2^w times
  since, `w` being the width of `size_t` (`Channels.DescriptorLifetime`); the descriptor type documents equality
  as "the same physical channel" (`channel_descriptor.h:66-72`) without that reservation.

## Model

| member | source | states |
|---|---|---|
| Segments.RoundUpCovers | lib/yami4-gpl-1.6.0/src/core/allocator.cpp:118-120 | a request becomes the least multiple of 8 that covers it, unless the addition wraps around: then it becomes 0 and covers nothing |
| Segments.EndsBefore | lib/yami4-gpl-1.6.0/src/core/allocator.cpp:27-43 | segments that tile the area lie in address order and do not overlap |
| Segments.FirstFit | lib/yami4-gpl-1.6.0/src/core/allocator.cpp:122-162 | the segment chosen is free, big enough, and no lower one is both |
| Segments.CutTiles | lib/yami4-gpl-1.6.0/src/core/allocator.cpp:131-149 | a split leaves a tiling of the area with aligned headers |
| Segments.FuseTiles | lib/yami4-gpl-1.6.0/src/core/allocator.cpp:257-299 | a join leaves a tiling of the area with aligned headers |
| Segments.TakeWellFormed | lib/yami4-gpl-1.6.0/src/core/allocator.cpp:127-185 | allocation keeps the area tiled and aligned, with no two free segments touching |
| Segments.ReleaseWellFormed | lib/yami4-gpl-1.6.0/src/core/allocator.cpp:191-300 | deallocation keeps the area tiled and aligned, and joining both ways leaves no two free segments touching |
| Segments.ReleaseUndoesTake | lib/yami4-gpl-1.6.0/src/core/allocator.cpp:105-301 | deallocating what has just been allocated gives back the very sequence of segments there was, split or not |
| Segments.TakeAddsOne | lib/yami4-gpl-1.6.0/src/core/allocator.cpp:118-185 | allocation adds one new live block, of at least the rounded request and less than that plus 64, and leaves every other live block alone |
| Segments.TakeSplitsExactlyWhen | lib/yami4-gpl-1.6.0/src/core/allocator.cpp:45-185 | the segment found is handed out whole when fewer than 64 bytes would be left over; otherwise the block has exactly the rounded size and the rest, less one header, is a new free segment behind it |
| Segments.ReleaseRemovesOne | lib/yami4-gpl-1.6.0/src/core/allocator.cpp:191-300 | deallocation removes that live block and leaves every other alone |
| Segments.Canonical | lib/yami4-gpl-1.6.0/src/core/allocator.cpp:191-301 | the live blocks alone decide all segments: free segments can only be the maximal gaps |
| Segments.BytesConserved | lib/yami4-gpl-1.6.0/src/core/allocator.cpp:51-71 | live bytes, free bytes and one header per segment add up to the size of the area |
| Segments.FitsExactlyWhenBiggestDoes | lib/yami4-gpl-1.6.0/src/core/allocator.cpp:118-162 | some free segment fits a non-empty request exactly when the biggest one does; an empty one needs any free segment |
| Headers.SplitCells | lib/yami4-gpl-1.6.0/src/core/allocator.cpp:137-153 | what every header holds after the split's stores, in order and in spite of aliasing |
| Headers.UnlinkCells | lib/yami4-gpl-1.6.0/src/core/allocator.cpp:169-184 | what every header holds after the unlink's stores |
| Headers.RelinkCells | lib/yami4-gpl-1.6.0/src/core/allocator.cpp:203-254 | what every header holds after a header is put back on the free list |
| Headers.JoinCells | lib/yami4-gpl-1.6.0/src/core/allocator.cpp:265-275 | what every header holds after a join's stores |
| Headers.CutAfter | lib/yami4-gpl-1.6.0/src/core/allocator.cpp:131-153 | free neighbours of segments behind a split stay the same segments, one place on |
| Headers.FuseAfter | lib/yami4-gpl-1.6.0/src/core/allocator.cpp:257-299 | free neighbours of segments behind a join stay the same segments, one place back |
| Headers.MarkAfter | lib/yami4-gpl-1.6.0/src/core/allocator.cpp:164-184 | segments behind one that is taken look past it to its own free predecessor |
| LinkSteps.SplitRepresents | lib/yami4-gpl-1.6.0/src/core/allocator.cpp:131-154 | the split's stores turn memory for the old segments into memory for the cut ones, except for the free header behind when the back-link is missing |
| LinkSteps.UnlinkRepresents | lib/yami4-gpl-1.6.0/src/core/allocator.cpp:164-185 | unlinking marks one segment live in both lists and repairs the back-link of the next free header |
| LinkSteps.RelinkRepresents | lib/yami4-gpl-1.6.0/src/core/allocator.cpp:203-255 | storing the right free neighbours puts one segment back on the free list and disturbs no other header |
| LinkSteps.JoinRepresents | lib/yami4-gpl-1.6.0/src/core/allocator.cpp:257-299 | the join's stores turn memory for two free neighbours into memory for one, in both lists |
| LinkSteps.FirstBefore | lib/yami4-gpl-1.6.0/src/core/allocator.cpp:212-213 | comparing with the first free segment decides whether there is a free segment below |
| FreeChain.ChainIsUnique | lib/yami4-gpl-1.6.0/src/core/allocator.cpp:122-160 | the free list from a given header is one sequence of headers only |
| FreeChain.RepresentedChain | lib/yami4-gpl-1.6.0/src/core/allocator.cpp:122-160 | the free list is exactly the free segments in address order, also when back-links are stale |
| FreeChain.SearchFindsFirstFit | lib/yami4-gpl-1.6.0/src/core/allocator.cpp:122-162 | the search finds the lowest free segment that fits, or none when there is none, also when back-links are stale |
| FreeChain.AllocateTakes | lib/yami4-gpl-1.6.0/src/core/allocator.cpp:127-185 | split and unlink together take a segment that is not stale; at most one more back-link is stale afterwards, and one that was can be mended |
| FreeChain.AllocateIsRightExactlyWhen | lib/yami4-gpl-1.6.0/src/core/allocator.cpp:127-185 | from a good state, the state after an allocation is the right one if and only if the back-link is there or no segment with a free one behind it was split |
| FreeChain.AllocateKeepsListsExactlyWhen | lib/yami4-gpl-1.6.0/src/core/allocator.cpp:127-185 | from a state with any wrong back-links, an allocation leaves both lists right, up to back-links, if and only if the back-link of the segment it takes is right |
| FreeChain.AllocateServes | lib/yami4-gpl-1.6.0/src/core/allocator.cpp:105-189 | both outcomes of a request that finds no stale segment: nothing changes and NULL, or the lowest fit is taken |
| FreeChain.ReleaseMends | lib/yami4-gpl-1.6.0/src/core/allocator.cpp:203-277 | giving a block back at once restores the segments and leaves no back-link stale that was not stale before |
| FreeChain.AllocateStores | lib/yami4-gpl-1.6.0/src/core/allocator.cpp:137-184 | an allocation writes to headers only, the new one included |
| FreeChain.PayloadUntouched | lib/yami4-gpl-1.6.0/src/core/allocator.cpp:27-43 | writing headers changes nothing inside a payload |
| PrivateArea.Allocator.constructor | lib/yami4-gpl-1.6.0/src/core/allocator.cpp:75-78 | a new allocator has no area |
| PrivateArea.Allocator.SetWorkingArea | lib/yami4-gpl-1.6.0/src/core/allocator.cpp:80-103 | the area becomes one free segment with its header in place; a NULL buffer or zero size changes nothing |
| PrivateArea.Allocator.BufferSizeAt | lib/yami4-gpl-1.6.0/src/core/allocator.cpp:51-71 | the payload size is the distance to the next header, or to the end of the area |
| PrivateArea.Allocator.Search | lib/yami4-gpl-1.6.0/src/core/allocator.cpp:122-162 | the loop returns the first header on the free list that is big enough, whatever that list is |
| PrivateArea.Allocator.Split | lib/yami4-gpl-1.6.0/src/core/allocator.cpp:131-154 | the stores of the split, as one function of memory |
| PrivateArea.Allocator.Unlink | lib/yami4-gpl-1.6.0/src/core/allocator.cpp:164-185 | the stores of the unlink, as one function of memory |
| PrivateArea.Allocator.Allocate | lib/yami4-gpl-1.6.0/src/core/allocator.cpp:105-189 | what a request does in any state, also a spoilt one; when it finds no stale segment it takes the lowest fit, whole when fewer than 64 bytes would be left over and cut to size otherwise, returns its payload, writes to headers only, and leaves the links right up to the back-links named |
| PrivateArea.Allocator.EarlierFree | lib/yami4-gpl-1.6.0/src/core/allocator.cpp:230-237 | the backward scan ends, at the nearest free segment below, and never runs off the area |
| PrivateArea.Allocator.FurtherFree | lib/yami4-gpl-1.6.0/src/core/allocator.cpp:242-248 | the forward scan ends, at the nearest free segment above or at NULL |
| PrivateArea.Allocator.Relink | lib/yami4-gpl-1.6.0/src/core/allocator.cpp:199-255 | both branches put the segment between its free neighbours |
| PrivateArea.Allocator.JoinWithNext | lib/yami4-gpl-1.6.0/src/core/allocator.cpp:257-277 | a free segment above is swallowed, else nothing changes |
| PrivateArea.Allocator.JoinWithPrevious | lib/yami4-gpl-1.6.0/src/core/allocator.cpp:279-299 | the segment is swallowed by a free one below, else nothing changes |
| PrivateArea.Allocator.Deallocate | lib/yami4-gpl-1.6.0/src/core/allocator.cpp:191-301 | any live block is released and joined both ways with all links right again, writing to headers only; stale back-links do not hinder it, and those it comes across are mended |
| PrivateArea.Allocator.GetFreeSize | lib/yami4-gpl-1.6.0/src/core/allocator.cpp:303-325 | reports the biggest free segment and the sum of all, whatever back-links are stale; 0 and 0 without an area |
| PrivateArea.Allocator.AllocateThenDeallocate | lib/yami4-gpl-1.6.0/src/core/allocator.cpp:105-301 | with or without the missing line, allocating any size and giving it back restores every segment and every link in use, from every good state and from every other in which the request finds no stale segment |
| AllocatorRuns.RunWellFormed | lib/yami4-gpl-1.6.0/src/core/allocator.cpp:80-301 | after any legal run the segments tile the area, are aligned, and no two free ones touch |
| AllocatorRuns.PayloadsApart | lib/yami4-gpl-1.6.0/src/core/allocator.cpp:118-185 | live payloads are 8-aligned, inside the area, and share no byte with each other or with any header |
| AllocatorRuns.BlockSurvives | lib/yami4-gpl-1.6.0/src/core/allocator.cpp:105-301 | a block keeps its address and capacity through every run that does not give it back |
| AllocatorRuns.RequestSplitsExactlyWhen | lib/yami4-gpl-1.6.0/src/core/allocator.cpp:118-185 | the same for a request: the number of segments, the size of the block returned, and how many free bytes it costs |
| AllocatorRuns.GrantLives | lib/yami4-gpl-1.6.0/src/core/allocator.cpp:105-301 | the block a request returns stays alive at its place, with at least the rounded request and less than 64 bytes more, until it is itself given back |
| AllocatorRuns.BlocksAreGranted | lib/yami4-gpl-1.6.0/src/core/allocator.cpp:46-301 | alive after a run are exactly the blocks of the start not given back and the answers to the run's requests not given back since; each answer fits its request |
| AllocatorRuns.OnlyLiveBlocksMatter | lib/yami4-gpl-1.6.0/src/core/allocator.cpp:191-301 | two runs that leave the same blocks alive leave the same segments, whatever the calls were |
| AllocatorRuns.AllGivenBack | lib/yami4-gpl-1.6.0/src/core/allocator.cpp:87-102 | once every block has been given back, in whatever order, the area is the single initial segment and both free sizes are the size less one header |
| AllocatorRuns.OrderDoesNotMatter | lib/yami4-gpl-1.6.0/src/core/allocator.cpp:191-301 | giving back a set of blocks in any two orders gives the same segments |
| AllocatorRuns.RequestsAscend | lib/yami4-gpl-1.6.0/src/core/tests/allocator-test.cpp:33-45 | as long as nothing is given back, each block lies above all earlier ones |
| AllocatorRuns.LinksDetermined | lib/yami4-gpl-1.6.0/src/core/allocator.cpp:27-43 | the segments decide the head of the free list and every link in use |
| AllocatorRuns.WriteIsHarmless | lib/yami4-gpl-1.6.0/src/core/allocator.cpp:27-43 | a client writing any byte inside a block it holds disturbs no list, whatever becomes of the readings that cover the byte |
| AllocatorRuns.NothingStale | lib/yami4-gpl-1.6.0/src/core/allocator.cpp:131-154 | with the missing line, or without any split before a free segment, no back-link is stale at any time of a run |
| AllocatorRuns.Perform | lib/yami4-gpl-1.6.0/src/core/allocator.cpp:80-301 | one call or client write: its result, the segments and links after it, and the contents of blocks |
| AllocatorRuns.Execute | lib/yami4-gpl-1.6.0/src/core/allocator.cpp:80-301 | any legal run of calls and client writes in which no request takes a stale segment, performed by either code, ends with exactly the segments and links of the abstract run, hands out exactly its blocks in order, and leaves the contents of blocks alone |
| LiteralSplit.UnlinkMisses | lib/yami4-gpl-1.6.0/src/core/allocator.cpp:171-184 | unlinking a header whose back-link is stale leaves the whole free list as it was |
| LiteralSplit.SameBlockTwice | lib/yami4-gpl-1.6.0/src/core/allocator.cpp:151-184 | after a split before a free segment, a request that uses that segment up finds it, and so does the same request again |
| LiteralSplit.SplitThenTwice | lib/yami4-gpl-1.6.0/src/core/allocator.cpp:105-189 | the same as three calls on the code as it stands: two successful calls return one block |
| LiteralSplit.LiteralRun | lib/yami4-gpl-1.6.0/src/core/allocator.cpp:80-301 | a run of nine calls, from any fresh area of 1024 bytes or more, in which two successful requests return the same block |
| Paths.OneMore | WebSocket/public/javascripts/raphael-min.js:9 | what a path draws grows by one mark per command, from the current point reached so far |
| Paths.ToAbsolute | WebSocket/public/javascripts/raphael-min.js:9 | the upper-case command for one command, with the offsets each letter needs |
| Paths.PathToAbsolute | WebSocket/public/javascripts/raphael-min.js:9 | the loop of `_pathToAbsolute`, with its special first move and its double bookkeeping of the subpath start, computes the absolute form |
| Paths.AbsCommandDraws | WebSocket/public/javascripts/raphael-min.js:9 | as long as the running point is the current point, a command and its absolute form draw the same mark |
| Paths.AbsCursorFollows | WebSocket/public/javascripts/raphael-min.js:9 | and the running point stays the current point, the subpath start included |
| Paths.AbsoluteDrawsTheSame | WebSocket/public/javascripts/raphael-min.js:9 | the absolute form has the same letters in upper case and draws the same marks, control points included, with the same current point and subpath start after every prefix |
| Paths.NothingBecomesOneMove | WebSocket/public/javascripts/raphael-min.js:9 | the absolute form of the empty path draws one move, to the origin |
| Paths.StartsAtOrigin | WebSocket/public/javascripts/raphael-min.js:9 | a relative move at the start of a path counts from the origin, in what is drawn and in the rewriting |
| Paths.AbsoluteTwice | WebSocket/public/javascripts/raphael-min.js:9 | making a path absolute twice changes nothing, whatever it starts with, also on the empty path |
| RelativePaths.RoundingError | WebSocket/public/javascripts/raphael-min.js:9 | rounding to three decimals gives a multiple of 0.001 at most 0.0005 away |
| RelativePaths.RoundsToNearest | WebSocket/public/javascripts/raphael-min.js:9 | below 10^21 in size a number is rounded to the nearest thousandth, to the one further from zero when two are as near; from 10^21 on it is left as it is; no other result fits this description |
| RelativePaths.RelCommandRounds | WebSocket/public/javascripts/raphael-min.js:9 | an absolute command becomes the one lower-case command whose arguments are the offsets from the running point, each rounded in this way; the five arguments of an arc's shape are kept |
| RelativePaths.PathToRelative | WebSocket/public/javascripts/raphael-min.js:9 | the loop of `_pathToRelative` computes the relative form, in which a first absolute move and all relative commands are kept and every offset of another absolute command is rounded in this way, from where the running point has come to; it throws on the empty path |
| RelativePaths.RelCommandDrifts | WebSocket/public/javascripts/raphael-min.js:9 | one command moves the given points no further than the slack, which only a close lets grow |
| RelativePaths.RelativeDrifts | WebSocket/public/javascripts/raphael-min.js:9 | the three points (rewritten path, tracked point, given path) stay within their bounds over every path |
| RelativePaths.RelativeStaysClose | WebSocket/public/javascripts/raphael-min.js:9 | every end point and every control point that is given is, in the relative form, within 0.0005 times (1 + closes so far) per coordinate, with the same kinds of marks and the same arc shapes |
| RelativePaths.RelativeIsLower | WebSocket/public/javascripts/raphael-min.js:9 | all commands but a first absolute move become relative, in order; relative ones are copied unchanged |
| RelativePaths.RelativeTwice | WebSocket/public/javascripts/raphael-min.js:9 | making a path relative twice changes nothing |
| RelativePaths.ThereAndBack | WebSocket/public/javascripts/raphael-min.js:9 | going relative and back to absolute moves no given point further than the bound |
| RelativePaths.DriftGrows | WebSocket/public/javascripts/raphael-min.js:9 | for every n there is a path with n closes whose relative form ends n times 0.0005 away, so the factor cannot be dropped |
| RelativePaths.BoundIsAttained | WebSocket/public/javascripts/raphael-min.js:9 | for every n there is a path with n closes whose relative form ends (n + 1) times 0.0005 away: the bound itself |
| RelativePaths.RelativeDrawsTheSameExactlyWhen | WebSocket/public/javascripts/raphael-min.js:9 | the relative form draws the same marks if and only if every absolute command but a first move has all its offsets from the current point at three decimals at most, or at 10^21 or more in size |
| RelativePaths.ThreeDecimalsDrawTheSame | WebSocket/public/javascripts/raphael-min.js:9 | a path whose arguments all have at most three decimals loses nothing |
| ImpliedControls.CubicNear | WebSocket/public/javascripts/raphael-min.js:9 | the control point that a smooth cubic command implies is off by at most three times the bound of the given points |
| ImpliedControls.QuadNear | WebSocket/public/javascripts/raphael-min.js:9 | the one that a smooth quadratic command implies by the bound times one more than twice its number of reflections |
| ImpliedControls.ImpliedStaysClose | WebSocket/public/javascripts/raphael-min.js:9 | both, for every command of every path and its relative form, and for the absolute form of that |
| ImpliedControls.ReflectionsAddUp | WebSocket/public/javascripts/raphael-min.js:9 | for every n there is a path without a close whose control point, reflected n times, is off by exactly (1 + 2n) times 0.0005 |
| Eve.Sort | WebSocket/public/javascripts/raphael-min.js:9 | the zIndex values in ascending order, each as often as before |
| EveDispatch.Collect | WebSocket/public/javascripts/raphael-min.js:9 | the first pass: all zIndex values in ascending order, each as often as it is used, and for each negative one the listener matched last with it |
| EveDispatch.FireNegatives | WebSocket/public/javascripts/raphael-min.js:9 | the negative listeners fire in ascending order until one of them stops |
| Eve.AllFired | WebSocket/public/javascripts/raphael-min.js:9 | once `s` of the sorted values have each made a listener with that value fire, and none twice, all listeners with smaller values have fired |
| Eve.SomeLeft | WebSocket/public/javascripts/raphael-min.js:9 | and the next value belongs to a listener that has not fired, also when values repeat |
| Eve.PushValue | WebSocket/public/javascripts/raphael-min.js:9 | firing the first listener left with the next value, held back or not, continues the intended order |
| Eve.StandingIsPrefix | WebSocket/public/javascripts/raphael-min.js:9 | wherever the dispatcher stands, what has fired is the start of the intended order, with nothing left out |
| EveDispatch.DrainNow | WebSocket/public/javascripts/raphael-min.js:9 | the inner loop fires what is next for as long as it is in the table |
| EveDispatch.DrainOk | WebSocket/public/javascripts/raphael-min.js:9 | the inner loop keeps the order, or ends in the state where a stop goes unnoticed |
| EveDispatch.FireRest | WebSocket/public/javascripts/raphael-min.js:9 | the main loop with its three ways out |
| EveDispatch.MainLoopOk | WebSocket/public/javascripts/raphael-min.js:9 | when no listeners clash, the main loop ends, from any state it can reach, in order up to the first stop, with the one exception told in `Outcome` |
| EveDispatch.CleanLoop | WebSocket/public/javascripts/raphael-min.js:9 | when two listeners clash on a zIndex that makes the first wait, either some listener fires twice or neither of the two fires |
| EveDispatch.NegativesFired | WebSocket/public/javascripts/raphael-min.js:9 | of the listeners sharing a negative zIndex exactly the one matched last fires |
| EveDispatch.MainLoopSoonOver | WebSocket/public/javascripts/raphael-min.js:9 | whatever the zIndex values, at most one listener fires after the first one that stops |
| EveDispatch.MainLoopStops | WebSocket/public/javascripts/raphael-min.js:9 | who fires after the first stop, from any state the main loop can reach and whatever the zIndex values: nobody, unless the one that stops had been held back; then the next listener matched that has no zIndex or the same one |
| EveDispatch.Dispatch | WebSocket/public/javascripts/raphael-min.js:9 | with no clash: all listeners in the intended order, or up to the first stop, plus exactly one more listener when the one that stopped had been held back; without stops: every listener fires exactly once if and only if there is no clash; in any case at most one listener fires after the first that stops: when that one had been held back, the next one matched without zIndex or with the same one, if there is any |
| Eve.PrecedesIsTotal | WebSocket/public/javascripts/raphael-min.js:9 | of two listeners exactly one comes first in the intended order |
| Eve.OrderIsUnique | WebSocket/public/javascripts/raphael-min.js:9 | there is one way only to fire everything in order, and in it each listener fires once |
| EveDispatch.StopIsIgnored | WebSocket/public/javascripts/raphael-min.js:9 | three listeners, the first of which is held back and stops the event; in a dispatch of them the third still fires |
| EveDispatch.FiresTwice | WebSocket/public/javascripts/raphael-min.js:9 | three listeners, the first two of which share a zIndex and are held back; in a dispatch of them the second fires twice, the first never |
| EveDispatch.Surprises | WebSocket/public/javascripts/raphael-min.js:9 | both as calls of the dispatcher |
| Memo.NewestStep | WebSocket/public/javascripts/raphael-min.js:9 | keeping only the 1000 newest keys commutes with one more call |
| Memo.RecencyHasAll | WebSocket/public/javascripts/raphael-min.js:9 | the keys in order of last use are exactly the keys of the history |
| Memo.WorksExactlyWhen | WebSocket/public/javascripts/raphael-min.js:9 | every call throws if and only if an earlier one had the key `hasOwnProperty`, or the key `__proto__` and the result `null` |
| Memo.OnlyEffectiveCount | WebSocket/public/javascripts/raphael-min.js:9 | calls after the first of these change nothing |
| Memo.KeepsTheNewest | WebSocket/public/javascripts/raphael-min.js:9 | `count` lists the 1000 keys used last by the calls that count, in order and without repeats but for `__proto__`; the cache holds exactly these keys without `__proto__`; so the key dropped is the one used longest ago |
| Memo.AgreesExactlyWhen | WebSocket/public/javascripts/raphael-min.js:9 | a call agrees with the function exactly when no earlier call spoilt the lookup and its own result can be read back: for all histories this holds if and only if the joined key decides the result, these two keys aside |
| Memo.KeysCollide | WebSocket/public/javascripts/raphael-min.js:9 | two arguments, and one argument that contains the separator, share a key |
| Memo.JoinInjective | WebSocket/public/javascripts/raphael-min.js:9 | two non-empty argument lists without the separator in any argument share a key only if they are equal |
| Memo.AgreesOnSeparable | WebSocket/public/javascripts/raphael-min.js:9 | on histories of such calls that holds of every function |
| Memo.LookupReplaced | WebSocket/public/javascripts/raphael-min.js:9 | one call with the key `hasOwnProperty`, and every later call throws |
| Memo.ProtoListedTwice | WebSocket/public/javascripts/raphael-min.js:9 | two calls with the key `__proto__` list it twice and cache nothing; a primitive result is not returned |
| Memo.Wrapper.Touch | WebSocket/public/javascripts/raphael-min.js:9 | a listed key moves to the end of the list, another leaves it alone |
| Memo.Wrapper.Apply | WebSocket/public/javascripts/raphael-min.js:9 | a call does to the object and returns, post-processed, or throws, what the history says |
| ZOrder.RemoveSpares | WebSocket/public/javascripts/raphael-min.js:9 | taking an element out leaves all others and no copy of it |
| ZOrder.MoveSparesOthers | WebSocket/public/javascripts/raphael-min.js:9 | a move is a permutation and leaves the order of all other elements as it was |
| ZOrder.Paper.Append | WebSocket/public/javascripts/raphael-min.js:10 | a new element goes on top; the list stays doubly linked from bottom to top |
| ZOrder.Paper.Tear | WebSocket/public/javascripts/raphael-min.js:9 | unlinking an element leaves a good list of the others; its own links stay |
| ZOrder.Paper.ToFront | WebSocket/public/javascripts/raphael-min.js:9-10 | the element moves to the top, the others keep their order, the list stays good |
| ZOrder.Paper.ToBack | WebSocket/public/javascripts/raphael-min.js:9-10 | the element moves to the bottom, the others keep their order, the list stays good |
| ZOrder.Paper.InsertAfter | WebSocket/public/javascripts/raphael-min.js:9-10 | the element moves right above another one in a list that stays good; put after itself, it ends up linked to itself |
| ZOrder.Paper.InsertBefore | WebSocket/public/javascripts/raphael-min.js:9-10 | the same, right below another one |
| AnimationChain.TicksExactly | WebSocket/app/assets/jsAnim/jsAnim.js:328-337 | the clock of an entry reaches its duration after exactly the ceiling of duration over timestep, at once for durations of zero or less |
| AnimationChain.TimesIsProduct | WebSocket/app/assets/jsAnim/jsAnim.js:138-155 | the steps of an entry are its loops times one more than its ticks |
| AnimationChain.StepDoesTheNextThing | WebSocket/app/assets/jsAnim/jsAnim.js:138-155 | every step does the next thing due and takes one off the steps that remain |
| AnimationChain.RunsOut | WebSocket/app/assets/jsAnim/jsAnim.js:138-155 | from any point of a run, n steps do the first n steps' worth of what is due, and the chain is empty exactly when n is what remains |
| AnimationChain.Drains | WebSocket/app/assets/jsAnim/jsAnim.js:138-155 | a fresh chain drains in exactly the sum of loops times (ticks + 1) steps, not earlier, entry after entry, with onLoop once a loop and onComplete once before the next entry shows anything |
| AnimationChain.Blocks | WebSocket/app/assets/jsAnim/jsAnim.js:138-155 | an entry with a negative loop count is never completed and no later entry ever starts |
| AnimationChain.LoopsForever | WebSocket/app/assets/jsAnim/jsAnim.js:138-155 | such an entry does whole loops, each in its ticks and one step more, with every update and one onLoop |
| AnimationChain.Idles | WebSocket/app/assets/jsAnim/jsAnim.js:138-155 | a paused chain, or an empty one, does nothing and stays as it is, however often it is stepped |
| AnimationChain.FrontDrains | WebSocket/app/assets/jsAnim/jsAnim.js:138-155 | from any point of a run, finite entries drain as if nothing came behind them, and the next entry then starts afresh |
| AnimationChain.FiniteThenForever | WebSocket/app/assets/jsAnim/jsAnim.js:138-155 | finite entries before one that loops forever do their part in exactly the sum of their steps, in order; then the chain is stuck at that one |
| AnimationChain.AddGoesLast | WebSocket/app/assets/jsAnim/jsAnim.js:170-198 | an entry added at any time with a count of zero or more does its part after all others and delays none of them; zero means one loop |
| AnimationChain.AddedForever | WebSocket/app/assets/jsAnim/jsAnim.js:170-198 | an entry added at any time with a negative loop count lets all others do their part, in exactly the steps that remain; then the chain is stuck at it, with that count |
| AnimationChain.SkipStartsTheNext | WebSocket/app/assets/jsAnim/jsAnim.js:203-209 | skipping drops the running entry, also one that loops forever, and the next starts afresh |
| AnimationChain.SkipDropsLowest | WebSocket/app/assets/jsAnim/jsAnim.js:203-209 | skipping drops the entry with the lowest key and nothing else, also in a paused chain |
| AnimationChain.Animator.AddEntry | WebSocket/app/assets/jsAnim/jsAnim.js:170-198 | adds at the end with its clock at 0, in a paused chain too; a missing or zero loop count means one loop, any other is kept, also a negative one |
| AnimationChain.Animator.SkipEntry | WebSocket/app/assets/jsAnim/jsAnim.js:203-209 | drops the first entry, if there is one |
| AnimationChain.Animator.StepEntry | WebSocket/app/assets/jsAnim/jsAnim.js:324-340 | shows progress 1 and finishes once the clock has reached the duration, else shows the fraction and moves the clock |
| AnimationChain.Animator.StepOnce | WebSocket/app/assets/jsAnim/jsAnim.js:138-155 | one step of the manager: the whole new state and the callbacks made, in order; none when paused |
| Channels.AdvancedIsModular | lib/yami4-gpl-1.6.0/src/core/channel_holder.cpp:38 | n increments of the counter are one addition modulo the word size |
| Channels.SequenceCounts | lib/yami4-gpl-1.6.0/src/core/channel_holder.cpp:30-50 | over any legal run, a slot's sequence number counts how often it has been filled, and nothing else moves it |
| Channels.StaysUntilVacated | lib/yami4-gpl-1.6.0/src/core/channel_holder.cpp:30-50 | a filled slot keeps its channel and number until its next `clean` |
| Channels.OccupiedAgain | lib/yami4-gpl-1.6.0/src/core/channel_holder.cpp:30-50 | a slot that was cleaned and is full has been filled since |
| Channels.ReservedExactlyWhen | lib/yami4-gpl-1.6.0/src/core/channel_holder.cpp:23-50 | over any legal run, a slot is reserved exactly when it was reserved, in the run or before, and not cleaned since |
| Channels.HoldsExactlyWhen | lib/yami4-gpl-1.6.0/src/core/channel_holder.cpp:30-50 | and holds a channel exactly when that channel was put there and the slot not cleaned since |
| Channels.UnusedExactlyWhen | lib/yami4-gpl-1.6.0/src/core/channel_group.cpp:1380-1458 | so a slot can be found again exactly when all reservations and channels it had have been cleaned away |
| Channels.CleanedIsUnused | lib/yami4-gpl-1.6.0/src/core/channel_holder.cpp:41-50 | as right after its `clean` |
| Channels.DescriptorLifetime | lib/yami4-gpl-1.6.0/src/core/channel_group.cpp:930-945 | a descriptor names its channel until the slot's next `clean`; after that it names something exactly when the slot is full again and was filled a multiple of the word size times, so never before the counter wraps |
| Channels.DefaultNamesNothing | lib/yami4-gpl-1.6.0/src/core/channel_descriptor.h:42-50 | the default descriptor names nothing after any run, unless slot 0 is full with its counter wrapped back to 0 |
| Channels.ChannelHolder.Init | lib/yami4-gpl-1.6.0/src/core/channel_holder.cpp:23-28 | an empty, unreserved slot with number 0 |
| Channels.ChannelHolder.Set | lib/yami4-gpl-1.6.0/src/core/channel_holder.cpp:30-39 | fills the slot, moves the counter and reports its new value; the reservation stays |
| Channels.ChannelHolder.ReserveSlot | lib/yami4-gpl-1.6.0/src/core/channel_holder.h:38 | reserves, and nothing else |
| Channels.ChannelHolder.Clean | lib/yami4-gpl-1.6.0/src/core/channel_holder.cpp:41-50 | empties and unreserves the slot; the number stays |
| Channels.FindUnused | lib/yami4-gpl-1.6.0/src/core/channel_group.cpp:1380-1458 | returns the lowest unused slot, or the first new one of a table grown to 10 or to twice its size; fails only when there is none and no memory; no other slot changes and no slot is filled or cleaned |

## Left out

- Allocator without a working area: `allocate` and `deallocate` then only call `malloc` and `free`.
- `fatal_failure` in the allocator and in the channel holder: the calls that reach it are excluded by preconditions (a second working area, a block that is not live, `set` on a full slot, `clean` on an empty one).
- PrivateArea.Allocator.SetWorkingArea: requires an area of at least one header, where the code accepts a smaller one and then stores outside it; what those stores hit is not part of the model. Areas that are not 8-aligned and a `size_t` of fewer than 16 bits are not covered either.
- The header size is any multiple of 8 up to 56, the word size is open. Platforms that align `double` to 4 bytes have other header sizes and are not covered.
- Headers are one cell per offset: a store to a header is not split into bytes, and stores to one header are not seen in overlapping readings at other offsets; a client's write changes all readings that cover the byte. The fields of a header nobody relies on (free links of a live segment) are not tracked.
- PrivateArea.Allocator.Relink: runs both scans of `deallocate` before its stores, where the code has stores between them; the scans read no field that is stored to.
- EveDispatch.Dispatch: when listeners clash, the contract does not give the order in which they fire: with stops, only who fires after the first that stops; without, only that not every listener fires once. Which listeners match an event name, wildcards, registration and removal, `eve.nt`, the arguments and the collected results are not part of this model, nor are listeners that dispatch or register while an event runs. Infinite zIndex values are excluded: zIndex is a real number.
- Paths: the R command (Catmull-Rom curves), parsing, and the caching of results are not part of this model; arguments have the count their letter asks for, which is what the parser delivers. Coordinates are reals, so rounding of binary floating point, NaN and infinities are not covered.
- Memo: functions that throw or call their own wrapper, arguments that are not strings, and the separate `apply` receiver. Results that can be called (one of them under `hasOwnProperty` would be called as the lookup), and result objects that, as a prototype, hide `hasOwnProperty` or intercept stores. What is returned for a primitive result under `__proto__` is only said not to be the result.
- Z-order: the document nodes that move along with the list, element sets, and `remove`.
- AnimationChain.TicksExactly: the clock is a sum of reals. In binary floating point the sum of timesteps is rounded, so that with a timestep such as 0.1 and a duration of 1 the code needs one more tick; this is not part of the model, here or in the results that count ticks.
- jsAnim: capture of the start value, easing, property updates, timers, pause and resume, fractional or NaN loop counts, and callbacks that change the chain. Entries are values in the chain's map rather than objects of their own. `jsAnimUtil.interp` is left out: it would add one linear formula.
- Channels.FindUnused: works on the table as a value where the code copies memory; whether memory is available is a parameter. Locks, the selector, the channels themselves and the reference counts are not part of this model.
- Agents, parameters, serialisers, and everything else in the repository that is not named above.
