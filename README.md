# Sorting visualizer: step-trace engine and playback

The sorting visualizer animates six sorting algorithms over a small integer
array: Bubble, Selection, Insertion, Merge, Quick (Lomuto partition, last
element as pivot) and Counting Sort. Each generator copies its input into a
working array, sorts the copy in place and records a snapshot (a *step*)
after every comparison, swap, write or milestone. A step holds the whole
working array, the indices being compared, the indices just swapped or
written, the indices shown as sorted and, for Merge Sort and Quick Sort, a
recursion record tagged by its `type` (`divide`, `recurse_left`,
`partition_swap`, `merge_place`, ...), with its level and ranges. A small
playback controller generates the trace of the selected algorithm and then
shows one step per timer tick.

The model has one module per generator plus a shared module and the
controller:

- `Steps` (steps.dfy): the `Step` and `RecInfo` values and the common
  promise `EndsSorted`: the last step shows a sorted rearrangement of the
  input with every index marked.
- `Bubble`, `Selection`, `Insertion`, `Quick`, `Merge` and `Counting`: each
  generator is a method that takes the input as a value, so the caller's
  array cannot change. It copies the input into an `array<int>` and runs the
  source's loops or recursion over it. Every loop and every recursive call
  is proved against a function on sequences that spells out what that piece
  of the source does: the array it leaves and the steps it records, in order
  (`BubbleSteps`, `SelectSteps`, `InsertionSteps`, `QuickRun`, `MergeRun`,
  and the tally and placement steps of Counting Sort). Each method's
  contract says that the array afterwards and the steps it appended to the
  trace so far are exactly those of its function, so every comparison,
  swap, write and marker of the source is in the trace, in the source's
  order.
- The properties of the traces are then proved as lemmas about those
  functions, against two predicates of each module. `StepOk` says what each
  step shows, for example that the suffix marked by a Bubble Sort pass
  holds the largest values in order. `PairOk` says how two consecutive steps
  relate, for example that a swap step exchanges exactly the pair the step
  before compared, and only when that pair was out of order. Separate lemmas
  show that every pass or iteration leaves its marker in the trace.
- `Playback` (playback.dfy): the `Player` class holds the visualizer's
  state. Its methods are the Start/Pause button (`Start`), one firing of the
  animation timer (`Tick`), `Reset` and the speed slider (`SetSpeed`). The
  invariant `Valid` keeps the index within the trace and the display equal
  to the step last shown.

## Model

| member | source | states |
|---|---|---|
| Steps.Swapped | src/components/SortingVisualizer.jsx:44 | exchanging two positions swaps their values, keeps every other position and rearranges the array (same multiset) |
| Bubble.BubbleUp | src/components/SortingVisualizer.jsx:43-44 | swapping an out-of-order neighbour pair keeps the settled suffix settled and carries the largest value seen so far one place right |
| Bubble.PushCompare | src/components/SortingVisualizer.jsx:36-41 | recording the test of the pair `j, j+1` inside pass `i` keeps the trace valid |
| Bubble.KeepPair | src/components/SortingVisualizer.jsx:35-43 | a pair found in order is left alone, and the largest value seen so far is then at `j + 1` |
| Bubble.SwapPair | src/components/SortingVisualizer.jsx:43-50 | exchanging a pair found out of order, and recording the swap after its comparison, keeps the trace valid and carries the running maximum to `j + 1` |
| Bubble.SwapOk | src/components/SortingVisualizer.jsx:43-50 | the swap step of an out-of-order pair is valid and may follow the comparison of that pair |
| Bubble.RoundForm | src/components/SortingVisualizer.jsx:36-51 | the test at `j` records the comparison and then the swap when `a[j] > a[j+1]`, and only the comparison otherwise |
| Bubble.PassNext | src/components/SortingVisualizer.jsx:35-52 | one test of pass `i` consumes the head of the rest of the pass, both of its array and of its steps |
| Bubble.PassDone | src/components/SortingVisualizer.jsx:35 | the pass records nothing more once `j` reaches `n - 1 - i` |
| Bubble.BubbleNext | src/components/SortingVisualizer.jsx:34-59 | a pass and its marker consume the head of what remains of the trace |
| Bubble.BubbleDone | src/components/SortingVisualizer.jsx:61-66 | after the last pass only the step marking every index remains |
| Bubble.PassMarkers | src/components/SortingVisualizer.jsx:53-58 | every pass `i` leaves a step marking exactly the trailing `i + 1` indices `n-1, ..., n-1-i` |
| Bubble.RoundKeeps | src/components/SortingVisualizer.jsx:36-51 | one test keeps the partial-pass state (valid trace, settled suffix, running maximum) and moves it on to `j + 1` |
| Bubble.PassKeeps | src/components/SortingVisualizer.jsx:35-52 | the rest of a pass keeps the partial-pass state up to the pass's last position |
| Bubble.PassSettles | src/components/SortingVisualizer.jsx:34-58 | at the end of pass `i` the largest remaining value sits at `n - 1 - i`, so `i + 1` positions are settled |
| Bubble.MarkerOk | src/components/SortingVisualizer.jsx:53-58 | the marker closing pass `i` is valid (its suffix holds the largest values in order) and may follow the pass's last step |
| Bubble.PassClosed | src/components/SortingVisualizer.jsx:34-59 | a whole pass and its marker keep the array a rearrangement of the input and the trace valid, and settle one more position |
| Bubble.Closing | src/components/SortingVisualizer.jsx:61-66 | the final step marks every index over a sorted rearrangement of the input |
| Bubble.BubbleKeeps | src/components/SortingVisualizer.jsx:34-66 | the passes from `i` on, appended to a valid trace with `i` settled positions, give a valid trace ending sorted with every index marked |
| Bubble.NextPass | src/components/SortingVisualizer.jsx:34-66 | the inductive step of the above: pass `i`, its marker, then the later passes |
| Bubble.TraceOk | src/components/SortingVisualizer.jsx:29-69 | the trace `bubbleSort` records ends with the input sorted and every index marked; every step is a rearrangement of the input, every swap follows the comparison of the same pair and happens exactly when that pair is out of order, and every pass marker names a suffix holding the largest values in order |
| Bubble.CompareAndSwap | src/components/SortingVisualizer.jsx:35-51 | the pair `j, j+1` is exchanged exactly when `a[j] > a[j+1]` and nothing else changes; the trace so far is kept and the comparison, then the swap when there is one, are appended |
| Bubble.Pass | src/components/SortingVisualizer.jsx:34-59 | pass `i` leaves the array of the pass's specification and appends, after the trace so far, the tests of the pass and the marker of the trailing `i + 1` indices |
| Bubble.Passes | src/components/SortingVisualizer.jsx:34-59 | the outer loop records every pass and its marker; with the step marking every index it is the whole trace |
| Bubble.BubbleSort | src/components/SortingVisualizer.jsx:29-69 | the trace is exactly the sequence of tests, swaps and markers `bubbleSort` records, so the properties of `TraceOk` and `PassMarkers` hold of it |
| Bubble.AfterRound | src/components/SortingVisualizer.jsx:43-44 | after the test at `j` the pair `j, j+1` is in order and the array keeps its length |
| Bubble.RoundSteps | src/components/SortingVisualizer.jsx:36-50 | the test at `j` records one step comparing `[j, j+1]`, or two when `a[j] > a[j+1]`, and its last step shows the array after the test |
| Bubble.PassFrom | src/components/SortingVisualizer.jsx:35-52 | the rest of pass `i` from `j` keeps the array's length (what it does to the values is stated by `PassLeads`, `PassKeeps` and `PassSettles`) |
| Bubble.PassLeads | src/components/SortingVisualizer.jsx:35-52 | resumed at `j` with the running maximum at `j`, pass `i` leaves the largest of `a[..n-i]` at position `n-1-i` |
| Bubble.PassSteps | src/components/SortingVisualizer.jsx:35-52 | the rest of pass `i` records at least one step per remaining test, and its last step shows the array the pass leaves |
| Bubble.BubbleSteps | src/components/SortingVisualizer.jsx:34-66 | the trace from pass `i` on is never empty and ends with the step marking every index sorted |
| Bubble.PassOn | src/components/SortingVisualizer.jsx:34-59 | one iteration of the outer loop appends exactly its pass and marker, so the rest of the trace is what remains of it |
| Selection.Place | src/components/SortingVisualizer.jsx:93-94 | swapping the leftmost minimum of the rest into position `i` extends the sorted prefix of smallest values by one |
| Selection.SwapStep | src/components/SortingVisualizer.jsx:93-100 | the swap step exchanges `i` with the minimum found, only when that minimum is elsewhere, and the prefix `[0, i+1)` is then settled |
| Selection.KeepStep | src/components/SortingVisualizer.jsx:102-108 | when `a[i]` already is the minimum the marker of `[0, i+1)` follows the scan with the array unchanged |
| Selection.ScanNext | src/components/SortingVisualizer.jsx:80-91 | one comparison of the scan consumes the head of the rest of the scan, and the minimum found does not change |
| Selection.ScanDone | src/components/SortingVisualizer.jsx:80 | the scan records nothing once `j` reaches `n`, and its answer is the candidate held |
| Selection.SelectNext | src/components/SortingVisualizer.jsx:77-109 | one iteration consumes the head of what remains of the trace |
| Selection.SelectDone | src/components/SortingVisualizer.jsx:111-116 | after the last iteration only the step marking every index remains |
| Selection.IterForm | src/components/SortingVisualizer.jsx:77-108 | iteration `i` records the scan, then the swap of `i` with the minimum only when they differ, then the marker of `[0, i+1)` |
| Selection.IterMarkers | src/components/SortingVisualizer.jsx:103-108 | every iteration `i` leaves a step marking exactly `0, ..., i` |
| Selection.BetterLeftmost | src/components/SortingVisualizer.jsx:88-90 | the strict `<` test keeps the candidate the leftmost minimum of the part scanned so far |
| Selection.ScanMinLeftmost | src/components/SortingVisualizer.jsx:80-91 | the scan ends with the leftmost minimum of `a[i..n)` |
| Selection.PushCompare | src/components/SortingVisualizer.jsx:81-86 | recording the comparison of the candidate with `j` keeps the scan state valid |
| Selection.ScanKeeps | src/components/SortingVisualizer.jsx:80-91 | the rest of the scan keeps the scan state and ends with the leftmost minimum |
| Selection.NextCompare | src/components/SortingVisualizer.jsx:80-91 | the inductive step of the above |
| Selection.CloseSwap | src/components/SortingVisualizer.jsx:93-108 | the swap and the marker after a scan whose minimum is elsewhere keep the trace valid and settle `[0, i+1)` |
| Selection.CloseKeep | src/components/SortingVisualizer.jsx:102-108 | the marker after a scan whose minimum is at `i` keeps the trace valid and settles `[0, i+1)` |
| Selection.IterKeeps | src/components/SortingVisualizer.jsx:77-108 | a whole iteration keeps the trace valid and the array a rearrangement, and extends the settled prefix by one |
| Selection.Closing | src/components/SortingVisualizer.jsx:111-116 | the final step marks every index over a sorted rearrangement of the input |
| Selection.SelectKeeps | src/components/SortingVisualizer.jsx:77-116 | the iterations from `i` on, appended to a valid trace with `i` settled positions, give a valid trace ending sorted with every index marked |
| Selection.NextIter | src/components/SortingVisualizer.jsx:77-116 | the inductive step of the above |
| Selection.TraceOk | src/components/SortingVisualizer.jsx:72-119 | the trace `selectionSort` records ends with the input sorted and every index marked; each marked prefix holds the smallest values in order, each comparison shows the leftmost minimum found so far, and each swap moves the leftmost minimum of the rest into place |
| Selection.Scan | src/components/SortingVisualizer.jsx:78-91 | returns the leftmost minimum of `a[i..n)` (ties keep the earlier index) and appends exactly the scan's comparisons to the trace so far |
| Selection.SelectMin | src/components/SortingVisualizer.jsx:77-108 | iteration `i` leaves the array with the minimum of the rest moved to `i`, and appends the scan, the swap when there is one and the marker of `[0, i+1)` after the trace so far |
| Selection.Iterations | src/components/SortingVisualizer.jsx:77-109 | the outer loop records every iteration; with the step marking every index it is the whole trace |
| Selection.SelectionSort | src/components/SortingVisualizer.jsx:72-119 | the trace is exactly the sequence of comparisons, swaps and markers `selectionSort` records, so the properties of `TraceOk` and `IterMarkers` hold of it |
| Selection.Better | src/components/SortingVisualizer.jsx:88-90 | the index kept is `minIdx` or `j` and holds the smaller of the two values; `j` replaces `minIdx` only when strictly smaller, so the first minimum wins |
| Selection.ScanMin | src/components/SortingVisualizer.jsx:80-91 | the scan from `j` ends on an index in range, `minIdx` itself or one at or after `j`, whose value is at most `a[minIdx]` |
| Selection.ScanSteps | src/components/SortingVisualizer.jsx:80-86 | the scan records one comparison per remaining `j`; the first compares `[minIdx, j]` on the array as it stands |
| Selection.Selected | src/components/SortingVisualizer.jsx:93-100 | after iteration `i` position `i` holds the minimum the scan found and the positions before `i` are unchanged |
| Selection.IterSteps | src/components/SortingVisualizer.jsx:78-108 | iteration `i` records at least `n - i` steps and its last step shows the array after the exchange with `[0..i]` marked sorted |
| Selection.SelectSteps | src/components/SortingVisualizer.jsx:77-116 | the trace from iteration `i` on is never empty and ends with every index marked sorted |
| Selection.SelectOn | src/components/SortingVisualizer.jsx:77-109 | one iteration of the outer loop appends exactly its scan, exchange and marker, so the rest of the trace is what remains of it |
| Insertion.InsertOrdered | src/components/SortingVisualizer.jsx:138-157 | inserting the key after the last element not larger than it leaves the first `i + 1` positions in ascending order |
| Insertion.InsertPermutes | src/components/SortingVisualizer.jsx:138-157 | the insertion rearranges exactly the first `i + 1` input values and leaves the rest of the input untouched |
| Insertion.KeyPlaced | src/components/SortingVisualizer.jsx:157 | writing the key into the hole left by the shifts extends the inserted prefix by one |
| Insertion.Finished | src/components/SortingVisualizer.jsx:127-164 | an array whose every position has been inserted is the input sorted |
| Insertion.ShiftSteps | src/components/SortingVisualizer.jsx:139-154 | the test of `[j, j+1]` and the shift that copies `a[j]` into `a[j+1]` are valid consecutive steps that report the same pair |
| Insertion.ShiftedAt | src/components/SortingVisualizer.jsx:146 | after the shifts down to `j + 1`, the positions `j + 2 .. i` hold the elements one place left of them and every other position is unchanged |
| Insertion.ShiftedNone | src/components/SortingVisualizer.jsx:129 | before the first shift the array is unchanged |
| Insertion.ShiftedNext | src/components/SortingVisualizer.jsx:146-147 | shifting `a[j]` into the hole leaves everything left of the hole in place and moves the hole one position left |
| Insertion.ShiftPair | src/components/SortingVisualizer.jsx:139-154 | appending the test and the shift of one pair keeps the trace valid |
| Insertion.ShiftsNext | src/components/SortingVisualizer.jsx:138-155 | one more round of the shift loop appends its test and its shift |
| Insertion.ShiftsTraced | src/components/SortingVisualizer.jsx:138-155 | the steps of the shift loop extend a valid trace into a valid trace that ends with the shifted array |
| Insertion.ShiftOne | src/components/SortingVisualizer.jsx:139-154 | one round of the shift loop moves the hole one place left and records the test and the shift |
| Insertion.HoleFrom | src/components/SortingVisualizer.jsx:138 | the shift loop stops at a hole `p`: every element in `[p, j]` is larger than the key, and the one before `p`, if any, is not |
| Insertion.IterForm | src/components/SortingVisualizer.jsx:127-164 | iteration `i` records the step comparing `[i]`, the shifts down to the hole, and the marker of `[0, i+1)` |
| Insertion.InsertNext | src/components/SortingVisualizer.jsx:127-164 | one iteration consumes the head of what remains of the trace |
| Insertion.InsertionDone | src/components/SortingVisualizer.jsx:127 | once `i` reaches `n` nothing more is recorded (there is no final step) |
| Insertion.IterMarkers | src/components/SortingVisualizer.jsx:158-163 | every iteration `i` leaves a step marking exactly `0, ..., i` |
| Insertion.IterKeeps | src/components/SortingVisualizer.jsx:127-164 | a whole iteration keeps the trace valid, extends the inserted prefix by one and ends with the marker of `[0, i+1)` |
| Insertion.InsertKeeps | src/components/SortingVisualizer.jsx:127-164 | the iterations from `i` on, appended to a valid trace over an inserted prefix of length `i`, give a valid trace ending sorted with every index marked |
| Insertion.NextInsert | src/components/SortingVisualizer.jsx:127-164 | the inductive step of the above |
| Insertion.Untouched | src/components/SortingVisualizer.jsx:127 | a single element is an inserted prefix of the input |
| Insertion.Complete | src/components/SortingVisualizer.jsx:122-167 | the whole trace of an input of two or more elements is valid and ends sorted with every index marked |
| Insertion.TraceOk | src/components/SortingVisualizer.jsx:122-167 | fewer than two elements give no steps; otherwise the trace ends with the input sorted and every index marked, every shift is preceded by the test of the same pair, and every marked prefix is sorted and a rearrangement of the first inputs |
| Insertion.ShiftRight | src/components/SortingVisualizer.jsx:138-155 | the shift loop stops at the hole `p` of `HoleFrom`, having moved the elements of `[p, i)` one place right, and appends its tests and shifts after the trace so far |
| Insertion.StartShifts | src/components/SortingVisualizer.jsx:131-155 | the step comparing `[i]` and the shifts that follow it extend a valid trace |
| Insertion.InsertDone | src/components/SortingVisualizer.jsx:131-163 | an iteration's start step, shifts and closing marker extend the trace validly, and the prefix `[0, i+1)` is then sorted and a rearrangement of the first `i + 1` inputs |
| Insertion.InsertKey | src/components/SortingVisualizer.jsx:127-164 | iteration `i` leaves the array with `a[i]` inserted into the sorted prefix, and appends its start step, shifts and marker after the trace so far |
| Insertion.InsertionSort | src/components/SortingVisualizer.jsx:122-167 | the trace is exactly the sequence of start steps, tests, shifts and markers `insertionSort` records, so the properties of `TraceOk` and `IterMarkers` hold of it |
| Insertion.Shifted | src/components/SortingVisualizer.jsx:138-155 | the array after the inner loop keeps its length (its values are stated by `ShiftedAt`, `ShiftedNone` and `ShiftedNext`) |
| Insertion.Shifts | src/components/SortingVisualizer.jsx:138-155 | when the inner loop shifts anything, its last step shows the shifted array and reports the final shift `[j+1, j+2]` |
| Insertion.Inserted | src/components/SortingVisualizer.jsx:157 | after iteration `i` the key sits in the hole the loop stopped at and the positions after `i` are unchanged |
| Insertion.IterSteps | src/components/SortingVisualizer.jsx:127-163 | iteration `i` starts with the step comparing `[i]` on the array as given, records at least two steps and ends showing the array with the key inserted and `[0..i]` marked sorted |
| Insertion.InsertionSteps | src/components/SortingVisualizer.jsx:127-164 | the trace from iteration `i` on is empty exactly when no iteration remains, and holds at least two steps per remaining iteration |
| Insertion.InsertOn | src/components/SortingVisualizer.jsx:127-164 | one iteration of the outer loop appends exactly its steps, so the rest of the trace is what remains of it |
| Insertion.Iterations | src/components/SortingVisualizer.jsx:127-164 | the outer loop records exactly the steps of every iteration from `i = 1` |
| Quick.CompareStep | src/components/SortingVisualizer.jsx:193-207 | the `partition_compare` step of `j` against the pivot `high` is valid after the partition start or after an earlier compare or swap |
| Quick.SwapStep | src/components/SortingVisualizer.jsx:209-226 | the `partition_swap` step exchanges `i` with the element just compared, only when that element is below the pivot |
| Quick.ScanSwapOrder | src/components/SortingVisualizer.jsx:209-214 | swapping a smaller element to `i + 1` keeps `[low, i]` below the pivot and `(i, j]` at least the pivot |
| Quick.ScanOrder | src/components/SortingVisualizer.jsx:209-227 | one test of the scan, swapping or not, keeps `[low, i]` below the pivot and `(i, j]` at least the pivot |
| Quick.PivotPlaced | src/components/SortingVisualizer.jsx:230-231 | exchanging the boundary with the pivot partitions the range around the pivot's original value and moves nothing outside the range |
| Quick.PlacementSteps | src/components/SortingVisualizer.jsx:231-259 | the `pivot_placement` step (swapping `[p, high]`) and the `partition_complete` step (sorted `[p]`) follow one another validly |
| Quick.RangePermuted | src/components/SortingVisualizer.jsx:264-327 | a rearrangement that keeps everything outside `[lo, hi]` rearranges `[lo, hi]` itself |
| Quick.BoundKept | src/components/SortingVisualizer.jsx:264-327 | rearranging a range keeps any bound that all its elements satisfied |
| Quick.SidesBounded | src/components/SortingVisualizer.jsx:279-313 | after both recursive calls the pivot is unmoved, the left side is still below it and the right side still at least it |
| Quick.Conquered | src/components/SortingVisualizer.jsx:264-327 | a partitioned range whose two sides have been sorted is sorted |
| Quick.PushDivide | src/components/SortingVisualizer.jsx:266-277 | recording the `divide` of a range of two or more elements keeps the trace valid |
| Quick.PushRecurse | src/components/SortingVisualizer.jsx:281-313 | a `recurse_left`/`recurse_right` step is valid and may only be followed by the `divide` of that very call |
| Quick.PushConquer | src/components/SortingVisualizer.jsx:315-326 | a `conquer_complete` step over a sorted range keeps the trace valid |
| Quick.PartitionFrom | src/components/SortingVisualizer.jsx:193-261 | the pivot position returned lies after the boundary `i` and no further than `high` |
| Quick.Placed | src/components/SortingVisualizer.jsx:230-259 | the partition ends with two steps over the same array, the second marking the pivot position |
| Quick.PartitionOf | src/components/SortingVisualizer.jsx:174-262 | `partition(low, high)` returns a position within `[low, high]` |
| Quick.CallSteps | src/components/SortingVisualizer.jsx:264-327 | a call on two or more elements starts with its `divide` and ends with its `conquer_complete` |
| Quick.PartitionNext | src/components/SortingVisualizer.jsx:193-228 | one test of the scan consumes the head of the rest of the partition, of its steps, array and pivot |
| Quick.ScanAdvance | src/components/SortingVisualizer.jsx:193-228 | the same, stated on the partition's result after the trace so far |
| Quick.QuickForm | src/components/SortingVisualizer.jsx:264-327 | a call records `divide`, the partition, the left side, the right side and `conquer_complete`, in that order |
| Quick.PartitionStep | src/components/SortingVisualizer.jsx:193-228 | one test does not change where the partition ends, and keeps the array a rearrangement |
| Quick.ScanPlaced | src/components/SortingVisualizer.jsx:230-261 | once the scan is over the pivot is placed: the range is partitioned around the old pivot value, rearranged, and nothing outside it has moved |
| Quick.ScanResult | src/components/SortingVisualizer.jsx:193-261 | the rest of the scan and the placement partition the range around the old pivot value |
| Quick.PartitionCorrect | src/components/SortingVisualizer.jsx:174-262 | `partition` rearranges `[low, high]`, moves nothing outside it, and leaves the old `a[high]` at the returned position with everything left of it smaller and everything right of it not smaller |
| Quick.QuickCorrect | src/components/SortingVisualizer.jsx:264-328 | `quickSortHelper(low, high)` sorts `[low, high]` as a rearrangement and moves nothing outside it |
| Quick.CallCorrect | src/components/SortingVisualizer.jsx:265-327 | the partition followed by both sides sorts the range |
| Quick.SideCorrect | src/components/SortingVisualizer.jsx:281-313 | a side, recursed into or skipped by its guard, ends sorted with nothing outside it moved |
| Quick.KeepTraced | src/components/SortingVisualizer.jsx:193-207 | recording a comparison keeps the trace valid |
| Quick.SwapTraced | src/components/SortingVisualizer.jsx:209-226 | recording a comparison and the swap of a smaller element keeps the trace valid |
| Quick.ScanOne | src/components/SortingVisualizer.jsx:193-228 | one test keeps the scan state (valid trace, partial partition) and moves it on to `j + 1` |
| Quick.PlaceTraced | src/components/SortingVisualizer.jsx:230-259 | the placement and completion steps of a partitioned range keep the trace valid |
| Quick.PartitionEnd | src/components/SortingVisualizer.jsx:230-261 | at the end of the scan the partition exchanges `i + 1` with `high` and returns `i + 1` |
| Quick.ScanTraced | src/components/SortingVisualizer.jsx:193-261 | the rest of the scan and the placement extend a valid trace |
| Quick.ScanTest | src/components/SortingVisualizer.jsx:193-261 | the inductive step of the above |
| Quick.PartitionTraced | src/components/SortingVisualizer.jsx:174-262 | a whole partition after its `divide` extends a valid trace |
| Quick.OpenCall | src/components/SortingVisualizer.jsx:266-279 | a call's `divide` and its partition extend a valid trace |
| Quick.QuickCall | src/components/SortingVisualizer.jsx:264-327 | a whole call on two or more elements extends a valid trace |
| Quick.SideTraced | src/components/SortingVisualizer.jsx:281-313 | a side, announced or skipped, extends a valid trace |
| Quick.QuickEmpty | src/components/SortingVisualizer.jsx:265 | a range of fewer than two elements records nothing and changes nothing |
| Quick.QuickClosed | src/components/SortingVisualizer.jsx:330 | the top call records a valid trace that does not end inside an unfinished call |
| Quick.QuickTop | src/components/SortingVisualizer.jsx:330 | the top call on two or more elements records a valid trace |
| Quick.Finished | src/components/SortingVisualizer.jsx:332-342 | the `complete` step after a sorted top call ends the trace validly |
| Quick.Finish | src/components/SortingVisualizer.jsx:170-345 | the whole trace is valid and ends sorted with every index marked |
| Quick.TraceOk | src/components/SortingVisualizer.jsx:170-345 | the trace `quickSort` records ends with the input sorted, every index marked and a `complete` record; every `conquer_complete` range is sorted, every `partition_complete` range is partitioned around its pivot, every swap moves an element below the pivot, and every `divide` is followed by its `partition_start` |
| Quick.Partition | src/components/SortingVisualizer.jsx:174-262 | returns the position and leaves the array that `partition` gives, and appends exactly its `partition_start`, comparisons, swaps, placement and completion after the trace so far |
| Quick.QuickSortHelper | src/components/SortingVisualizer.jsx:264-328 | leaves the array of `quickSortHelper(low, high)` and appends exactly its steps after the trace so far; `QuickCorrect` shows the range is then sorted |
| Quick.SortSide | src/components/SortingVisualizer.jsx:281-313 | a side of two or more elements is announced by `recurse_left`/`recurse_right` and sorted by a recursive call; a shorter side records nothing; the trace so far is kept |
| Quick.QuickSort | src/components/SortingVisualizer.jsx:170-345 | the trace is exactly the sequence of steps `quickSort` records, so the properties of `TraceOk` hold of it |
| Quick.CompareOf | src/components/SortingVisualizer.jsx:193-207 | the comparison step shows the array as it stands and compares `j` with the pivot position `high` |
| Quick.Tested | src/components/SortingVisualizer.jsx:209-226 | the test at `j` keeps the pivot in place and, when `a[j] < pivot`, puts `a[j]` at `i + 1` |
| Quick.Boundary | src/components/SortingVisualizer.jsx:208-210 | the boundary `i` advances by one exactly when `a[j] < pivot` |
| Quick.SwapOf | src/components/SortingVisualizer.jsx:209-226 | the test records at most one swap step, and one exactly when `a[j] < pivot` and `i + 1 != j` |
| Quick.QuickFrom | src/components/SortingVisualizer.jsx:264-328 | `quickSortHelper` on `[low, high]` keeps the array's length (what it does is stated by `QuickCorrect`) |
| Quick.SideFrom | src/components/SortingVisualizer.jsx:281-313 | a recursive call announced as `recurse_left` or `recurse_right` keeps the array's length (what it does is stated by `SideCorrect`) |
| Quick.QuickRun | src/components/SortingVisualizer.jsx:330-342 | the whole trace is never empty; its last step marks every index sorted and carries `complete` at level 0 |
| Quick.Test | src/components/SortingVisualizer.jsx:193-226 | one test of the scan leaves exactly the array of `Tested`, returns the boundary of `Boundary` and appends the comparison and, if any, the swap |
| Quick.ScanAll | src/components/SortingVisualizer.jsx:192-227 | the scan loop of `partition` leaves the array and appends the steps that the partition from its start prescribes up to the placement |
| Quick.ScanSwapOne | src/components/SortingVisualizer.jsx:209-226 | an element below the pivot exchanged with the one past the boundary keeps the scan state and moves it to `j + 1` |
| Quick.ScanKeepOne | src/components/SortingVisualizer.jsx:193-207 | an element that stays put keeps the scan state and moves it to `j + 1` |
| Merge.Mid | src/components/SortingVisualizer.jsx:475 | the split point lies in the range and halves it, the left half getting the extra element |
| Merge.HalvesOf | src/components/SortingVisualizer.jsx:484-489 | the reported halves are adjacent and cover the range |
| Merge.Entry | src/components/SortingVisualizer.jsx:477-540 | a call's first step marks nothing exactly when its range has two or more elements (a `divide`); a single element is a `base_case` |
| Merge.MergePermutes | src/components/SortingVisualizer.jsx:380-456 | merging loses and duplicates no element of the two runs |
| Merge.MergeHead | src/components/SortingVisualizer.jsx:398-404 | the merge starts with the head of one of the runs |
| Merge.MergeSorted | src/components/SortingVisualizer.jsx:380-456 | merging two sorted runs gives a sorted run |
| Merge.LeftOrigin | src/components/SortingVisualizer.jsx:398-400 | an element the merge takes from the left run belongs to the left run |
| Merge.MergeStable | src/components/SortingVisualizer.jsx:398 | the merge is stable: of two equal elements, one from the right run never precedes one from the left run |
| Merge.RightHeadFirst | src/components/SortingVisualizer.jsx:398-403 | when the right head is strictly smaller it is written first, before anything taken from the left run |
| Merge.StartMerge | src/components/SortingVisualizer.jsx:362-375 | `merge_start` after a finished call, over two sorted halves, opens a merge with nothing written yet |
| Merge.StartStep | src/components/SortingVisualizer.jsx:362-375 | the `merge_start` step is valid, may follow a finished call, and writes nothing |
| Merge.StartProgress | src/components/SortingVisualizer.jsx:359-377 | before the first write, nothing of the merge is in place and nothing has moved |
| Merge.HeadNext | src/components/SortingVisualizer.jsx:398-404 | the next value written is the smaller head, the left one on ties |
| Merge.RestNext | src/components/SortingVisualizer.jsx:423-455 | once one run is exhausted the next value written is the head of the other |
| Merge.Written | src/components/SortingVisualizer.jsx:399-419 | writing the next merged value at `left + i + j` advances the merge by one position |
| Merge.HeadsFrom | src/components/SortingVisualizer.jsx:380-420 | the main loop stops exactly when one run is used up, and never uses up both: if either run had elements left, one of them still does |
| Merge.HeadsNext | src/components/SortingVisualizer.jsx:380-420 | one round of the main loop consumes the head of the rest of the loop, of its steps and of its array |
| Merge.HeadsUnfold | src/components/SortingVisualizer.jsx:380-420 | a round of the main loop records the comparison of the heads and the write of the smaller one, then the later rounds |
| Merge.RestStep | src/components/SortingVisualizer.jsx:423-456 | one round of the remaining-elements loops consumes the head of the rest of them |
| Merge.RestUnfold | src/components/SortingVisualizer.jsx:423-456 | a round of the remaining-elements loops records its `merge_remaining` write, then the later rounds |
| Merge.CompareSteps | src/components/SortingVisualizer.jsx:384-418 | the `merge_compare` of the heads and the `merge_place` of the write are valid consecutive steps inside a merge |
| Merge.PushCompare | src/components/SortingVisualizer.jsx:384-418 | appending them keeps the merge's trace valid, its writes now running `left .. left + i + j` |
| Merge.PushRest | src/components/SortingVisualizer.jsx:423-456 | appending a `merge_remaining` write at the next position keeps the merge's trace valid and its writes in order |
| Merge.Embedded | src/components/SortingVisualizer.jsx:352-471 | rearranging a range and keeping everything else rearranges the whole array |
| Merge.Merged | src/components/SortingVisualizer.jsx:352-471 | after the last write `[left, right]` holds the merge of the two runs |
| Merge.MergedPermutes | src/components/SortingVisualizer.jsx:352-471 | the merge keeps the whole array a rearrangement |
| Merge.MergedSorted | src/components/SortingVisualizer.jsx:352-471 | merging two sorted halves leaves the range sorted |
| Merge.CompleteMerge | src/components/SortingVisualizer.jsx:458-470 | `merge_complete` after the last write over a sorted range keeps the trace valid and adds the range to the positions marked |
| Merge.Begin | src/components/SortingVisualizer.jsx:359-377 | the copies of both halves and `merge_start` set up the merge with nothing written |
| Merge.Finish | src/components/SortingVisualizer.jsx:458-470 | after the last write the range is the merge of the runs and sorted, the array a rearrangement of the input, and `merge_complete` ends the merge validly |
| Merge.HeadsOk | src/components/SortingVisualizer.jsx:380-420 | the main loop keeps the merge state: the array agrees with the merge so far, the trace is valid and the writes are `left, left+1, ...` in order |
| Merge.RestRound | src/components/SortingVisualizer.jsx:423-456 | one round of the remaining-elements loops keeps the merge state |
| Merge.RestOk | src/components/SortingVisualizer.jsx:423-456 | the remaining-elements loops keep the merge state up to the last element, and their last step is a `merge_remaining` |
| Merge.MergeOk | src/components/SortingVisualizer.jsx:352-471 | `merge(left, mid, right)` over two sorted halves leaves `[left, right]` the merge of the old halves, sorted, the array a rearrangement with nothing outside the range moved; its writes are exactly `left, left+1, ..., right` in that order and it ends with `merge_complete` marking the range |
| Merge.MergeForm | src/components/SortingVisualizer.jsx:352-471 | a merge records `merge_start`, the main loop, the remaining-elements loops and `merge_complete`, in that order |
| Merge.PushEntry | src/components/SortingVisualizer.jsx:477-540 | a call's first step, `divide` or `base_case`, keeps the trace valid |
| Merge.PushAnnounce | src/components/SortingVisualizer.jsx:494-522 | a `recurse_left`/`recurse_right` step is valid and may only be followed by the first step of that very call |
| Merge.HalvesSorted | src/components/SortingVisualizer.jsx:507-522 | sorting the right half keeps the sorted left half |
| Merge.Confined | src/components/SortingVisualizer.jsx:494-525 | the two halves and the merge together move nothing outside `[left, right]` |
| Merge.SortOk | src/components/SortingVisualizer.jsx:473-541 | `mergeSortHelper(left, right)` sorts `[left, right]` as a rearrangement, moves nothing outside it, and extends a valid trace so that it ends with a finished call |
| Merge.SplitOk | src/components/SortingVisualizer.jsx:474-525 | after `divide`, both halves and the merge sort the range and extend the trace validly |
| Merge.BothHalves | src/components/SortingVisualizer.jsx:494-522 | after both recursive calls each half is sorted, nothing outside the range has moved, and the trace is valid |
| Merge.RightHalf | src/components/SortingVisualizer.jsx:509-522 | the right half, after a sorted left half, leaves both halves sorted |
| Merge.LeftReady | src/components/SortingVisualizer.jsx:494-506 | the left half may be announced right after `divide` |
| Merge.RightReady | src/components/SortingVisualizer.jsx:509-521 | the right half may be announced right after the left half's call finished |
| Merge.HalvedOf | src/components/SortingVisualizer.jsx:494-522 | two sorted halves, each sorted by its own call, give the state the merge needs |
| Merge.Joined | src/components/SortingVisualizer.jsx:524-525 | merging two sorted halves sorts the range and extends the trace validly |
| Merge.SplitForm | src/components/SortingVisualizer.jsx:494-525 | a call on two or more elements records, after `divide`, the left half, the right half and the merge, in that order |
| Merge.HalfOk | src/components/SortingVisualizer.jsx:494-522 | an announced half is sorted by its call and extends the trace validly |
| Merge.FinalOk | src/components/SortingVisualizer.jsx:543-555 | the `complete` step after a sorted top call ends the trace sorted with every index marked |
| Merge.TraceOk | src/components/SortingVisualizer.jsx:348-557 | the trace `mergeSort` records ends with the input sorted, every index marked and a `complete` record; every step outside a merge's writes is a rearrangement of the input, each merge starts with both halves sorted and completes with its range sorted, and each write changes exactly the position it reports |
| Merge.CopyOut | src/components/SortingVisualizer.jsx:359-360 | the temporary run is the slice of the array it copies |
| Merge.PlaceHead | src/components/SortingVisualizer.jsx:380-420 | one round of the main loop writes the left head exactly when `L[i] <= R[j]` (the right head otherwise) at `left + i + j`, advances that run, and appends the comparison and the write after the trace so far |
| Merge.PlaceRest | src/components/SortingVisualizer.jsx:423-456 | one round of a remaining-elements loop writes the next element of the run that is left and appends its `merge_remaining` after the trace so far |
| Merge.MergeHeads | src/components/SortingVisualizer.jsx:380-420 | the main loop leaves the array and the counts of the loop's specification, and appends exactly its comparisons and writes after the trace so far |
| Merge.CopyRest | src/components/SortingVisualizer.jsx:422-456 | the remaining-elements loops leave the array of their specification and append exactly their writes after the trace so far |
| Merge.Merge | src/components/SortingVisualizer.jsx:352-471 | leaves the array that `merge` gives and appends exactly its steps after the trace so far; `MergeOk` states what that merge achieves |
| Merge.MergeSortHelper | src/components/SortingVisualizer.jsx:473-541 | leaves the array of `mergeSortHelper(left, right)` and appends exactly its steps after the trace so far; `SortOk` shows the range is then sorted |
| Merge.SplitMerge | src/components/SortingVisualizer.jsx:474-525 | after `divide`, both halves and the merge: the array and the steps of that part of the call, after the trace so far |
| Merge.SortHalf | src/components/SortingVisualizer.jsx:494-522 | a half is announced by `recurse_left`/`recurse_right` and then sorted by its call: exactly those steps are appended after the trace so far |
| Merge.MergeSort | src/components/SortingVisualizer.jsx:348-557 | on a non-empty input the trace is exactly the sequence of steps `mergeSort` records, and it has the properties of `TraceOk` |
| Merge.MergeRuns | src/components/SortingVisualizer.jsx:380-456 | the stable merge of two runs has as many elements as both (its contents are stated by `MergePermutes`, `MergeSorted` and `MergeStable`) |
| Merge.CompareStep | src/components/SortingVisualizer.jsx:384-396 | the comparison step shows the array, compares `left + i` with `mid + 1 + j` and marks nothing as swapped or sorted |
| Merge.PlaceStep | src/components/SortingVisualizer.jsx:406-418 | the placement step shows the array after the write and reports the written position `k` alone |
| Merge.RemainStep | src/components/SortingVisualizer.jsx:422-456 | a write of the remaining-element loops shows the array after it, reports the written position `k` and carries `merge_remaining` |
| Merge.RestFrom | src/components/SortingVisualizer.jsx:422-456 | the remaining-element loops record one step per element of either run not yet written |
| Merge.MergeOf | src/components/SortingVisualizer.jsx:352-471 | `merge` keeps the array's length (what it does is stated by `MergeOk`) |
| Merge.SortFrom | src/components/SortingVisualizer.jsx:473-541 | `mergeSortHelper` keeps the array's length (what it does is stated by `SortOk`) |
| Merge.SplitFrom | src/components/SortingVisualizer.jsx:477-525 | the divide, both recursive calls and the merge keep the array's length (what they do is stated by `SplitOk`) |
| Merge.HalfFrom | src/components/SortingVisualizer.jsx:494-522 | an announced recursive call keeps the array's length (what it does is stated by `HalfOk`) |
| Merge.Announce | src/components/SortingVisualizer.jsx:494-522 | the announcement shows the array unchanged with no indices and carries `recurse_left` exactly for the left half, `recurse_right` otherwise, with the half's range and the level |
| Merge.MergeRun | src/components/SortingVisualizer.jsx:543-555 | the whole trace is never empty and ends with every index marked sorted |
| Merge.RestWrite | src/components/SortingVisualizer.jsx:422-456 | a write of the next merged element at the next position keeps the merge state |
| Merge.SortAll | src/components/SortingVisualizer.jsx:543-555 | the top call and the final step record exactly the whole trace of `mergeSort` |
| Counting.Max | src/components/SortingVisualizer.jsx:563 | the maximum bounds every element and is one of them |
| Counting.SmallerNext | src/components/SortingVisualizer.jsx:578-580 | the running total up to `v` is the total up to `v - 1` plus the copies of `v` |
| Counting.Rank | src/components/SortingVisualizer.jsx:585-587 | the position of `s[i]` lies in the band of positions its value occupies: after every smaller element, and below the end of its value's band |
| Counting.RankStable | src/components/SortingVisualizer.jsx:585-587 | the sort is stable: of two equal elements the earlier one is placed first |
| Counting.RankOrdered | src/components/SortingVisualizer.jsx:585-587 | a smaller element is placed before a larger one |
| Counting.Expected | src/components/SortingVisualizer.jsx:583-601 | each position of the result holds the value whose band (elements smaller than it up to elements not larger) contains that position |
| Counting.ExpectedSorted | src/components/SortingVisualizer.jsx:583-601 | the counting-sort result is sorted |
| Counting.ExpectedBand | src/components/SortingVisualizer.jsx:583-601 | the result holds `x` exactly on the band of `x`, whose width is the number of copies of `x` |
| Counting.ExpectedPermutes | src/components/SortingVisualizer.jsx:583-601 | the result is a rearrangement of the input |
| Counting.ExpectedAtRank | src/components/SortingVisualizer.jsx:585-586 | the result holds `s[i]` at the position computed for it |
| Counting.AssembledAll | src/components/SortingVisualizer.jsx:585-601 | once every element has been placed the working array is the sorted result |
| Counting.PlaceTotals | src/components/SortingVisualizer.jsx:586-587 | the running total of `s[i]` minus one is its position, and decrementing it leaves the totals of the elements before it |
| Counting.FillSlot | src/components/SortingVisualizer.jsx:586-587 | the slot written was still empty, and writing it keeps the buffer in step with the totals |
| Counting.PlaceAssembled | src/components/SortingVisualizer.jsx:589-593 | copying the buffer over the working array yields the array with one more element placed |
| Counting.Tally | src/components/SortingVisualizer.jsx:567-576 | counts the copies of every value and records one step per element, comparing it, over the unchanged array |
| Counting.PrefixSums | src/components/SortingVisualizer.jsx:578-581 | turns the counts into running totals: entry `v` becomes the number of elements at most `v` |
| Counting.CopyPlaced | src/components/SortingVisualizer.jsx:589-593 | every defined slot of the buffer is copied over the working array, every other position is kept |
| Counting.PlacementReportsWrite | src/components/SortingVisualizer.jsx:595-600 | the step recorded for `s[i]` reports the position just written, and that position holds `s[i]` |
| Counting.PlaceNext | src/components/SortingVisualizer.jsx:585-601 | one round places `input[i]`, decrements its total, refreshes the working array and records the decremented total |
| Counting.Place | src/components/SortingVisualizer.jsx:583-601 | the placement loop leaves the working array equal to the sorted result and records one step per element, from the right |
| Counting.TraceWellFormed | src/components/SortingVisualizer.jsx:567-608 | every step of the trace shows an array of the input's length and names only its indices |
| Counting.FinalStep | src/components/SortingVisualizer.jsx:603-608 | the final step shows the sorted rearrangement of the input with every index marked |
| Counting.CountingSort | src/components/SortingVisualizer.jsx:561-611 | on a non-empty non-negative input the trace is the tally steps, the placement steps and the final step, and ends with the input sorted and every index marked |
| Counting.Tallies | src/components/SortingVisualizer.jsx:567-576 | the tally loop records one step per element, comparing `[i]` on the array as given |
| Counting.Placements | src/components/SortingVisualizer.jsx:583-601 | the placement loop records one step per element still to place (`PlacementAt` and `PlacementReportsWrite` give each step) |
| Counting.Assembled | src/components/SortingVisualizer.jsx:583-593 | the working array during placement keeps its length (its values are stated by `AssembledNone`, `AssembledAll` and `AssembledAtRank`) |
| Counting.Overlay | src/components/SortingVisualizer.jsx:589-593 | copying the output buffer overwrites exactly the defined entries and keeps the others |
| Playback.Generate | src/components/SortingVisualizer.jsx:649-671 | each of the six keys yields exactly the trace of its own generator and every other key that of Bubble Sort; the trace keeps every step within the array, is empty only for Insertion Sort on fewer than two elements, and otherwise ends sorted |
| Playback.DelayOf | src/components/SortingVisualizer.jsx:781 | the slider shows `1000` minus the delay |
| Playback.Player.constructor | src/components/SortingVisualizer.jsx:5-17 | the initial array `[64, 34, 25, 12, 22, 11, 90]`, Bubble Sort, delay 500, no trace, nothing marked |
| Playback.Player.Reset | src/components/SortingVisualizer.jsx:629-638 | stops playback and clears the trace, the index and every marking, keeping the bars |
| Playback.Player.Start | src/components/SortingVisualizer.jsx:640-675 | while animating it only pauses, keeping the trace and index; otherwise it shows the selected algorithm's name, generates that algorithm's own trace from the displayed array (Bubble Sort's for a key without a generator), rewinds to 0 and starts playing |
| Playback.Player.Tick | src/components/SortingVisualizer.jsx:677-696 | while animating over a non-empty trace it shows step `currentStep` and advances the index by exactly one, or past the end stops playback; the index never exceeds the trace length |
| Playback.Player.Finished | src/components/SortingVisualizer.jsx:677-691 | once the last step has been shown the bars are the generated input sorted, with every index marked |
| Playback.Player.SetSpeed | src/components/SortingVisualizer.jsx:781-783 | the slider, usable only while not animating, turns a position between 100 and 900 into a delay between 100 and 900 |
| Playback.NameOf | src/components/SortingVisualizer.jsx:19-26 | exactly the six keys with a generator of their own have a display name |
| Playback.Runnable | src/components/SortingVisualizer.jsx:649-670 | only Merge Sort and Counting Sort restrict their input; every other key runs on any array, and on the empty array exactly those two refuse |
| Playback.Generated | src/components/SortingVisualizer.jsx:649-670 | the trace for a key is the one its generator records (Bubble Sort's for a key without one), and it is empty exactly for Insertion Sort on fewer than two elements |
| Playback.GeneratedUnique | src/components/SortingVisualizer.jsx:649-670 | the trace is determined by the key and the array: every generator is deterministic |
| Playback.Player.Valid | src/components/SortingVisualizer.jsx:677-696 | once a step has been shown, the bars on display are as many as in the generating array and every marked index names one of them |
| Playback.Player.Load | src/components/SortingVisualizer.jsx:672-674 | arming playback stores the trace, rewinds to step 0, starts animating and shows the selected algorithm's name, leaving the display as it is |

## Left out

- Human-readable `message` strings of the recursion records are dropped; the records keep their tag, level, ranges and pivot.
- `partitionInfo` is not modelled: no generator ever sets it, so the display always clears it.
- Absent `comparing`, `swapping` and `sorted` fields are modelled as empty sequences, which is what the timer body substitutes for them.
- Rendering, bar colours, the legend and the recursion panels are presentation only.
- Parsing the text input into a new array (`handleArraySubmit`) and the algorithm dropdown are not modelled; the fields they set are plain fields of `Player`.
- The `setTimeout`/`clearTimeout` scheduling is not modelled: a timer firing is a call to `Tick`, and the delay is a field.
- Merge.MergeSort: requires a non-empty input. On an empty array the source records a `base_case` step for the range `[0, -1]` and marks index 0, which does not exist.
- Counting.CountingSort: requires a non-empty input of non-negative values. The source takes the maximum of an empty array and indexes its count table by negative values, and neither has a meaning over integers. The model also returns a full trace for every such input, however large its maximum; the source's `new Array(max + 1)` (SortingVisualizer.jsx:564) throws a `RangeError` when `max + 1` exceeds 2^32 - 1 or `max` is `Infinity`, and that error path is not modelled.
- Playback.Player.Start: requires the selected algorithm to accept the displayed array (`Runnable`), for the reasons given for Merge.MergeSort and Counting.CountingSort. Insertion Sort on fewer than two elements yields an empty trace; `Start` then leaves playback armed with nothing to show, and `Tick` does nothing, as in the source.
- Playback.Player.SetSpeed: requires that no animation is running, because the slider is disabled while animating; a change of speed in the middle of playback cannot happen in the source and is not modelled.
- Bubble.PassFrom: its own `ensures` states only the length of the array; what it computes is proved in `PassLeads`, `PassKeeps` and `PassSettles` instead, because stated on the function it would enter every proof that unfolds it and make those too costly for the solver.
- Insertion.Shifted: its own `ensures` states only the length of the array; what it computes is proved in `ShiftedAt`, `ShiftedNone` and `ShiftedNext` instead, because stated on the function it would enter every proof that unfolds it and make those too costly for the solver.
- Quick.QuickFrom: its own `ensures` states only the length of the array; what it computes is proved in `QuickCorrect` instead, because stated on the function it would enter every proof that unfolds it and make those too costly for the solver.
- Quick.SideFrom: its own `ensures` states only the length of the array; what it computes is proved in `SideCorrect` instead, because stated on the function it would enter every proof that unfolds it and make those too costly for the solver.
- Merge.MergeRuns: its own `ensures` states only the length of the array; what it computes is proved in `MergePermutes`, `MergeSorted` and `MergeStable` instead, because stated on the function it would enter every proof that unfolds it and make those too costly for the solver.
- Merge.MergeOf: its own `ensures` states only the length of the array; what it computes is proved in `MergeOk` instead, because stated on the function it would enter every proof that unfolds it and make those too costly for the solver.
- Merge.SortFrom: its own `ensures` states only the length of the array; what it computes is proved in `SortOk` instead, because stated on the function it would enter every proof that unfolds it and make those too costly for the solver.
- Merge.SplitFrom: its own `ensures` states only the length of the array; what it computes is proved in `SplitOk` instead, because stated on the function it would enter every proof that unfolds it and make those too costly for the solver.
- Merge.HalfFrom: its own `ensures` states only the length of the array; what it computes is proved in `HalfOk` instead, because stated on the function it would enter every proof that unfolds it and make those too costly for the solver.
- Counting.Assembled: its own `ensures` states only the length of the array; what it computes is proved in `AssembledNone`, `AssembledAll` and `AssembledAtRank` instead, because stated on the function it would enter every proof that unfolds it and make those too costly for the solver.
- Array values are unbounded integers. The source's values come from `parseInt` on free text (SortingVisualizer.jsx:619), so they are arbitrary whole numbers held as floating point: above 2^53 they lose precision, and a long enough digit string parses to `Infinity`. Neither rounding nor `Infinity` is modelled; comparisons and swaps are exact on the integers the model holds.
