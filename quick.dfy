/**
 * Quick Sort trace generator (Lomuto partition, the last element of the
 * range as pivot), with the recursion level threaded through every step.
 */
module Quick {
  import opened Steps

  /** What `partition(low, high)` leaves: the array, the pivot's final index and the steps it recorded. */
  datatype Parted = Parted(arr: seq<int>, pivot: nat, steps: seq<Step>)

  /** Everything in `[lo, p)` is below `a[p]`, everything in `(p, hi]` is at least `a[p]`. */
  ghost predicate Partitioned(a: seq<int>, lo: int, p: int, hi: int)
  {
    && 0 <= lo <= p <= hi < |a|
    && (forall x :: lo <= x < p ==> a[x] < a[p])
    && (forall x :: p < x <= hi ==> a[p] <= a[x])
  }

  /**
   * What every single step of a Quick Sort trace satisfies: a snapshot of a
   * permutation of the input, carrying recursion metadata whose ranges are
   * proper, and the per-tag facts (a conquered range is sorted, a completed
   * partition has its pivot in place, the final step shows the sorted array).
   */
  ghost predicate StepOk(s: Step, input: seq<int>)
  {
    match s.info
    case None => false
    case Some(m) =>
      var n := |input|;
      && WellFormed(s, n)
      && multiset(s.arr) == multiset(input)
      && match m
       case Divide(_, r, h) => h == None && Proper(r, n) && NoIndices(s)
       case RecurseLeft(l, r) => l >= 1 && Proper(r, n) && NoIndices(s)
       case RecurseRight(l, r) => l >= 1 && Proper(r, n) && NoIndices(s)
       case ConquerComplete(_, r) => Proper(r, n) && NoIndices(s) && SortedRange(s.arr, r.lo, r.hi)
       case PartitionStart(_, r, pv) => Proper(r, n) && pv == r.hi && NoIndices(s)
       case PartitionCompare(_, r, pv, cur) =>
         && Proper(r, n) && pv == r.hi && r.lo <= cur < r.hi
         && s.comparing == [cur, pv] && s.swapping == [] && s.sorted == []
       case PartitionSwap(_, r, pv) =>
         && Proper(r, n) && pv == r.hi && |s.swapping| == 2
         && r.lo <= s.swapping[0] < s.swapping[1] < r.hi
         && s.comparing == [] && s.sorted == []
       case PivotPlacement(_, r, pv) =>
         && Proper(r, n) && r.lo <= pv <= r.hi
         && s.swapping == [pv, r.hi] && s.comparing == [] && s.sorted == []
       case PartitionComplete(_, r, pv) =>
         && Proper(r, n) && r.lo <= pv <= r.hi
         && s.sorted == [pv] && s.comparing == [] && s.swapping == []
         && Partitioned(s.arr, r.lo, pv, r.hi)
       case Complete(l) =>
         && l == 0 && s.comparing == [] && s.swapping == []
         && s.sorted == Upto(n) && Sorted(s.arr)
       case _ => false
  }

  /**
   * What every two consecutive steps satisfy: a recursion marker is followed
   * by the `divide` of that very call, a `divide` by the start of its
   * partition; a swap follows the comparison of the element it moves, and
   * only when that element is below the pivot; the pivot placement exchanges
   * the boundary with the pivot, and the completion follows it.
   */
  ghost predicate PairOk(prev: Step, s: Step)
  {
    && (prev.info.Some? && (prev.info.value.RecurseLeft? || prev.info.value.RecurseRight?) ==>
          s.info == Some(Divide(prev.info.value.level, prev.info.value.range, None)) && s.arr == prev.arr)
    && (prev.info.Some? && prev.info.value.Divide? ==>
          s.info == Some(PartitionStart(prev.info.value.level, prev.info.value.range, prev.info.value.range.hi))
          && s.arr == prev.arr)
    && (s.info.Some? && s.info.value.PartitionSwap? ==>
          && prev.info.Some? && prev.info.value.PartitionCompare?
          && |s.swapping| == 2 && s.swapping[1] == prev.info.value.current
          && s.swapping[0] < |prev.arr| && s.swapping[1] < |prev.arr| && prev.info.value.pivot < |prev.arr|
          && prev.arr[s.swapping[1]] < prev.arr[prev.info.value.pivot]
          && s.arr == Swapped(prev.arr, s.swapping[0], s.swapping[1]))
    && (s.info.Some? && s.info.value.PivotPlacement? ==>
          && s.info.value.pivot < |prev.arr| && s.info.value.range.hi < |prev.arr|
          && 0 <= s.info.value.range.hi
          && s.arr == Swapped(prev.arr, s.info.value.pivot, s.info.value.range.hi))
    && (s.info.Some? && s.info.value.PartitionComplete? ==>
          && prev.info == Some(PivotPlacement(s.info.value.level, s.info.value.range, s.info.value.pivot))
          && s.arr == prev.arr)
  }

  /** A partial trace whose last step shows the working array `a`. */
  ghost predicate Traced(steps: seq<Step>, a: seq<int>, input: seq<int>)
  {
    && (forall k :: 0 <= k < |steps| ==> StepOk(steps[k], input))
    && (forall k :: 0 <= k < |steps| - 1 ==> PairOk(steps[k], steps[k + 1]))
    && (steps != [] ==> Last(steps).arr == a)
  }

  lemma {:induction false} Append(steps: seq<Step>, a: seq<int>, x: Step, input: seq<int>)
    requires Traced(steps, a, input) && StepOk(x, input)
    requires steps != [] ==> PairOk(Last(steps), x)
    ensures Traced(steps + [x], x.arr, input)
  {
    var t := steps + [x];
    forall k | 0 <= k < |t| - 1
      ensures PairOk(t[k], t[k + 1])
    {
      if k < |steps| - 1 {
        assert t[k] == steps[k] && t[k + 1] == steps[k + 1];
      }
    }
  }

  /**
   * A step that dictates the step after it: a call announcement is
   * followed by that call's `divide`, a `divide` by its partition's start.
   */
  ghost predicate Opens(s: Step)
  {
    s.info.Some? && (s.info.value.RecurseLeft? || s.info.value.RecurseRight? || s.info.value.Divide?)
  }

  /** The comparison of `arr[j]` with the pivot `arr[r.hi]` may follow any step of the scan. */
  lemma CompareStep(prev: Step, arr: seq<int>, level: nat, r: Range, j: nat, input: seq<int>)
    requires |arr| == |input| && multiset(arr) == multiset(input)
    requires Proper(r, |input|) && r.lo <= j < r.hi && !Opens(prev)
    ensures StepOk(Step(arr, [j, r.hi], [], [], Some(PartitionCompare(level, r, r.hi, j))), input)
    ensures PairOk(prev, Step(arr, [j, r.hi], [], [], Some(PartitionCompare(level, r, r.hi, j))))
  {
  }

  /** Moving `a[j]`, found below the pivot `a[high]`, to the boundary `i`. */
  lemma SwapStep(prev: Step, a: seq<int>, level: nat, low: nat, high: nat, i: nat, j: nat, input: seq<int>)
    requires prev == CompareOf(a, level, low, high, j) && StepOk(prev, input)
    requires low <= i < j < high && a[j] < a[high]
    ensures
      var swap := Step(Swapped(a, i, j), [], [i, j], [], Some(PartitionSwap(level, Range(low, high), high)));
      StepOk(swap, input) && PairOk(prev, swap)
  {
  }

  /**
   * The scan's state before testing `a[j]`: `a[low..i]` lies below the
   * pivot `a[high]`, `a[i + 1..j)` does not, and nothing outside
   * `[low, high)` has moved from `orig`.
   */
  ghost predicate Scanned(a: seq<int>, orig: seq<int>, low: nat, high: nat, i: int, j: nat)
  {
    && |a| == |orig| && low <= j <= high < |a| && low - 1 <= i < j
    && (forall x :: low <= x <= i ==> a[x] < a[high])
    && (forall x :: i < x < j ==> a[high] <= a[x])
    && (forall x :: 0 <= x < |a| && !(low <= x < high) ==> a[x] == orig[x])
  }

  /** The comparison step of `a[j]` against the pivot. */
  function CompareOf(a: seq<int>, level: nat, low: nat, high: nat, j: nat): (s: Step)
    ensures s.comparing == [j, high] && s.arr == a
  {
    Step(a, [j, high], [], [], Some(PartitionCompare(level, Range(low, high), high, j)))
  }

  /** The exchange moves the boundary on by one and keeps both sides in order. */
  lemma ScanSwapOrder(a: seq<int>, orig: seq<int>, low: nat, high: nat, i: int, j: nat)
    requires Scanned(a, orig, low, high, i, j) && j < high && a[j] < a[high] && i + 1 < j
    ensures Scanned(Swapped(a, i + 1, j), orig, low, high, i + 1, j + 1)
  {
    var b := Swapped(a, i + 1, j);
    assert b[high] == a[high];
    forall x | low <= x <= i + 1
      ensures b[x] < b[high]
    {
      if x == i + 1 { assert b[x] == a[j]; } else { assert b[x] == a[x]; }
    }
    forall x | i + 1 < x < j + 1
      ensures b[high] <= b[x]
    {
      if x == j { assert b[x] == a[i + 1]; } else { assert b[x] == a[x]; }
    }
  }

  /** The test of `a[j]`, with its swap if any, keeps the scan's invariant. */
  lemma ScanOrder(a: seq<int>, orig: seq<int>, low: nat, high: nat, i: int, j: nat)
    requires Scanned(a, orig, low, high, i, j) && j < high
    ensures Scanned(Tested(a, high, i, j), orig, low, high, Boundary(a, high, i, j), j + 1)
  {
    if a[j] < a[high] && i + 1 != j {
      SwapIsSwapped(a, i + 1, j);
      ScanSwapOrder(a, orig, low, high, i, j);
    }
  }

  /** Swapping the pivot into the boundary `p` partitions `[low, high]` around it. */
  lemma PivotPlaced(a: seq<int>, orig: seq<int>, low: nat, high: nat, p: nat)
    requires Scanned(a, orig, low, high, p - 1, high) && low <= p
    ensures Partitioned(Swapped(a, p, high), low, p, high)
    ensures Swapped(a, p, high)[p] == orig[high]
    ensures forall x :: 0 <= x < |orig| && !(low <= x <= high) ==> Swapped(a, p, high)[x] == orig[x]
  {
    var b := Swapped(a, p, high);
    forall x | low <= x < p
      ensures b[x] < b[p]
    {
      assert b[x] == a[x];
    }
    forall x | p < x <= high
      ensures b[p] <= b[x]
    {
      if x == high { assert b[x] == a[p]; } else { assert b[x] == a[x]; }
    }
  }

  /** The placement step and the completion step are valid, one after the other. */
  lemma PlacementSteps(prev: Step, b: seq<int>, input: seq<int>, level: nat, low: nat, high: nat, p: nat)
    requires |prev.arr| == |input| && low <= p <= high && Proper(Range(low, high), |input|)
    requires b == Swapped(prev.arr, p, high) && multiset(prev.arr) == multiset(input)
    requires Partitioned(b, low, p, high)
    requires !Opens(prev)
    ensures
      var placement := Step(b, [], [p, high], [], Some(PivotPlacement(level, Range(low, high), p)));
      var complete := Step(b, [], [], [p], Some(PartitionComplete(level, Range(low, high), p)));
      StepOk(placement, input) && PairOk(prev, placement) && StepOk(complete, input) && PairOk(placement, complete)
  {
  }

  /** A permutation that fixes everything outside `[lo, hi]` permutes `[lo, hi]` itself. */
  lemma RangePermuted(b: seq<int>, c: seq<int>, lo: nat, hi: int)
    requires |b| == |c| && lo <= hi + 1 <= |b| && multiset(b) == multiset(c)
    requires forall x :: 0 <= x < |b| && !(lo <= x <= hi) ==> b[x] == c[x]
    ensures multiset(b[lo..hi + 1]) == multiset(c[lo..hi + 1])
  {
    assert b == b[..lo] + b[lo..hi + 1] + b[hi + 1..];
    assert c == c[..lo] + c[lo..hi + 1] + c[hi + 1..];
    assert b[..lo] == c[..lo];
    assert b[hi + 1..] == c[hi + 1..];
    calc {
      multiset(b[lo..hi + 1]);
      multiset(b) - multiset(b[..lo]) - multiset(b[hi + 1..]);
      multiset(c) - multiset(c[..lo]) - multiset(c[hi + 1..]);
      multiset(c[lo..hi + 1]);
    }
  }

  /** A bound that holds for every element of a range survives a permutation of that range. */
  lemma BoundKept(b: seq<int>, c: seq<int>, lo: nat, hi: int, v: int, below: bool)
    requires |b| == |c| && lo <= hi + 1 <= |b| && multiset(b[lo..hi + 1]) == multiset(c[lo..hi + 1])
    requires forall x :: lo <= x <= hi ==> if below then b[x] < v else v <= b[x]
    ensures forall x :: lo <= x <= hi ==> if below then c[x] < v else v <= c[x]
  {
    forall x | lo <= x <= hi
      ensures if below then c[x] < v else v <= c[x]
    {
      assert c[x] == c[lo..hi + 1][x - lo];
      assert c[x] in multiset(b[lo..hi + 1]);
      var k :| 0 <= k < hi + 1 - lo && b[lo..hi + 1][k] == c[x];
      assert b[lo + k] == c[x];
    }
  }

  /** The two recursive sorts keep each side of the pivot on its side. */
  lemma SidesBounded(parted: seq<int>, lefted: seq<int>, c: seq<int>, low: nat, p: nat, high: nat)
    requires Partitioned(parted, low, p, high) && |lefted| == |c| == |parted|
    requires multiset(lefted) == multiset(parted) && multiset(c) == multiset(lefted)
    requires forall x :: 0 <= x < |parted| && !(low <= x <= p - 1) ==> lefted[x] == parted[x]
    requires forall x :: 0 <= x < |parted| && !(p + 1 <= x <= high) ==> c[x] == lefted[x]
    ensures c[p] == parted[p]
    ensures forall x :: low <= x <= p - 1 ==> lefted[x] < parted[p]
    ensures forall x :: p + 1 <= x <= high ==> parted[p] <= c[x]
  {
    RangePermuted(parted, lefted, low, p - 1);
    BoundKept(parted, lefted, low, p - 1, parted[p], true);
    RangePermuted(lefted, c, p + 1, high);
    BoundKept(lefted, c, p + 1, high, parted[p], false);
  }

  /**
   * After the partition around `p` and the two recursive sorts, which each
   * permute only their own side, the whole range `[low, high]` is sorted.
   */
  lemma Conquered(A: seq<int>, parted: seq<int>, lefted: seq<int>, c: seq<int>, low: nat, p: nat, high: nat)
    requires SplitsRange(parted, A, low, p, high)
    requires SortsRange(lefted, parted, low, p - 1) && SortsRange(c, lefted, p + 1, high)
    ensures SortsRange(c, A, low, high)
  {
    SidesBounded(parted, lefted, c, low, p, high);
    forall x, y | low <= x < y <= high
      ensures c[x] <= c[y]
    {
      if y <= p - 1 {
        assert c[x] == lefted[x] && c[y] == lefted[y];
      } else if x < p {
        assert c[x] == lefted[x];
      }
    }
    forall x | 0 <= x < |A| && !(low <= x <= high)
      ensures c[x] == A[x]
    {
      assert c[x] == lefted[x] == parted[x];
    }
  }


  /** Recording the `divide` of a call on `[low, high]`. */
  lemma PushDivide(steps: seq<Step>, A: seq<int>, input: seq<int>, level: nat, low: nat, high: nat)
    requires Traced(steps, A, input) && |A| == |input| && multiset(A) == multiset(input)
    requires low < high < |A|
    requires steps != [] ==> PairOk(Last(steps), Marker(A, Divide(level, Range(low, high), None)))
    ensures Traced(steps + [Marker(A, Divide(level, Range(low, high), None))], A, input)
  {
    Append(steps, A, Marker(A, Divide(level, Range(low, high), None)), input);
  }

  /** Announcing a recursive call on `[lo, hi]` one level deeper, ready for that call's `divide`. */
  lemma PushRecurse(steps: seq<Step>, A: seq<int>, input: seq<int>, level: nat, lo: nat, hi: nat, left: bool)
    requires Closed(steps, A, input) && lo < hi < |A|
    ensures
      var call := Marker(A, if left then RecurseLeft(level + 1, Range(lo, hi)) else RecurseRight(level + 1, Range(lo, hi)));
      Traced(steps + [call], A, input) && PairOk(call, Marker(A, Divide(level + 1, Range(lo, hi), None)))
  {
    Append(steps, A, Marker(A, if left then RecurseLeft(level + 1, Range(lo, hi)) else RecurseRight(level + 1, Range(lo, hi))), input);
  }

  /** Recording `conquer_complete` for a range that is sorted. */
  lemma PushConquer(steps: seq<Step>, A: seq<int>, input: seq<int>, level: nat, low: nat, high: nat)
    requires Closed(steps, A, input) && low < high < |A| && SortedRange(A, low, high)
    ensures Closed(steps + [Marker(A, ConquerComplete(level, Range(low, high)))], A, input)
  {
    Append(steps, A, Marker(A, ConquerComplete(level, Range(low, high))), input);
  }

  /*
   * The generator as functions of the array it starts from. The scan state
   * is the array `A`, the boundary `i` (the last index known to be below the
   * pivot) and the next index `j` to test.
   */

  /** The array after the scan tests `A[j]`: swapped to the new boundary when below the pivot and not already there. */
  function Tested(A: seq<int>, high: nat, i: int, j: nat): (r: seq<int>)
    requires -1 <= i < j < high < |A|
    ensures |r| == |A| && r[high] == A[high] && (A[j] < A[high] ==> r[i + 1] == A[j])
  {
    if A[j] < A[high] && i + 1 != j then A[i + 1 := A[j]][j := A[i + 1]] else A
  }

  /** The boundary after the scan tests `A[j]`. */
  function Boundary(A: seq<int>, high: nat, i: int, j: nat): (b: int)
    requires j < high < |A|
    ensures i <= b <= i + 1 && (b == i + 1 <==> A[j] < A[high])
  {
    if A[j] < A[high] then i + 1 else i
  }

  /** The swap step, if any, that the test of `A[j]` records. */
  function SwapOf(A: seq<int>, level: nat, low: nat, high: nat, i: int, j: nat): (r: seq<Step>)
    requires -1 <= i < j < high < |A|
    ensures |r| <= 1 && (r != [] <==> A[j] < A[high] && i + 1 != j)
  {
    if A[j] < A[high] && i + 1 != j then [Step(Tested(A, high, i, j), [], [i + 1, j], [], Some(PartitionSwap(level, Range(low, high), high)))]
    else []
  }

  /**
   * The rest of `partition(low, high)` from scan state `(i, j)` on: the
   * remaining tests, then the pivot swapped into `i + 1` with its placement
   * and completion steps.
   */
  function PartitionFrom(A: seq<int>, level: nat, low: nat, high: nat, i: int, j: nat): (r: Parted)
    requires low <= j <= high < |A| && low - 1 <= i < j
    ensures |r.arr| == |A| && i < r.pivot <= high
    decreases high - j
  {
    if j == high then
      var B := A[i + 1 := A[high]][high := A[i + 1]];
      Parted(B, i + 1, Placed(B, level, low, high, i + 1))
    else
      var r := PartitionFrom(Tested(A, high, i, j), level, low, high, Boundary(A, high, i, j), j + 1);
      Parted(r.arr, r.pivot, [CompareOf(A, level, low, high, j)] + SwapOf(A, level, low, high, i, j) + r.steps)
  }

  /** The pivot placement into `p` and the completion, both showing `B`. */
  function Placed(B: seq<int>, level: nat, low: nat, high: nat, p: nat): (r: seq<Step>)
    ensures |r| == 2 && r[0].arr == r[1].arr == B && r[1].sorted == [p]
  {
    [Step(B, [], [p, high], [], Some(PivotPlacement(level, Range(low, high), p))),
     Step(B, [], [], [p], Some(PartitionComplete(level, Range(low, high), p)))]
  }

  /** `partition(low, high)`: its start step, then the scan from `(low - 1, low)`. */
  function PartitionOf(A: seq<int>, level: nat, low: nat, high: nat): (r: Parted)
    requires low < high < |A|
    ensures |r.arr| == |A| && low <= r.pivot <= high
  {
    var r := PartitionFrom(A, level, low, high, low - 1, low);
    Parted(r.arr, r.pivot, [Marker(A, PartitionStart(level, Range(low, high), high))] + r.steps)
  }

  /** `quickSortHelper(low, high, level)`. */
  function QuickFrom(A: seq<int>, low: nat, high: int, level: nat): (r: Run)
    requires high < |A| && low <= high + 1
    ensures |r.arr| == |A|
    decreases high - low, 1
  {
    if low < high then
      var P := PartitionOf(A, level, low, high);
      var L := SideFrom(P.arr, low, P.pivot as int - 1, level, true);
      var R := SideFrom(L.arr, P.pivot + 1, high, level, false);
      Run(R.arr, CallSteps(A, level, low, high, P.steps, L.steps, R))
    else Run(A, [])
  }

  /** The steps of a call on `[low, high]`: its `divide`, the partition's, both sides', and its `conquer_complete`. */
  function CallSteps(A: seq<int>, level: nat, low: nat, high: nat, parted: seq<Step>, left: seq<Step>, R: Run): (r: seq<Step>)
    ensures r != [] && r[0] == Marker(A, Divide(level, Range(low, high), None))
    ensures Last(r) == Marker(R.arr, ConquerComplete(level, Range(low, high)))
  {
    [Marker(A, Divide(level, Range(low, high), None))] + parted + left + R.steps + [Marker(R.arr, ConquerComplete(level, Range(low, high)))]
  }

  /** One side `[lo, hi]` of a partition: nothing, or the announcement and the call one level deeper. */
  function SideFrom(A: seq<int>, lo: nat, hi: int, level: nat, left: bool): (r: Run)
    requires hi < |A| && lo <= hi + 1
    ensures |r.arr| == |A|
    decreases hi - lo, 2
  {
    if lo < hi then
      var Q := QuickFrom(A, lo, hi, level + 1);
      Run(Q.arr, [Marker(A, if left then RecurseLeft(level + 1, Range(lo, hi)) else RecurseRight(level + 1, Range(lo, hi)))] + Q.steps)
    else Run(A, [])
  }

  /** The whole trace `quickSort(arr)` records. */
  function QuickRun(input: seq<int>): (r: seq<Step>)
    ensures r != [] && Last(r).sorted == Upto(|input|) && Last(r).info == Some(Complete(0))
  {
    var Q := QuickFrom(input, 0, |input| - 1, 0);
    Q.steps + [Step(Q.arr, [], [], Upto(|input|), Some(Complete(0)))]
  }

  /** One test consumes the head of what remains of the partition. */
  lemma PartitionNext(A: seq<int>, level: nat, low: nat, high: nat, i: int, j: nat,
                      before: seq<Step>, steps: seq<Step>, G: seq<Step>, B: seq<int>, b: int)
    requires low <= j < high < |A| && low - 1 <= i < j
    requires G == before + PartitionFrom(A, level, low, high, i, j).steps
    requires B == Tested(A, high, i, j) && b == Boundary(A, high, i, j)
    requires steps == before + [CompareOf(A, level, low, high, j)] + SwapOf(A, level, low, high, i, j)
    ensures steps + PartitionFrom(B, level, low, high, b, j + 1).steps == G
    ensures PartitionFrom(B, level, low, high, b, j + 1).arr == PartitionFrom(A, level, low, high, i, j).arr
    ensures PartitionFrom(B, level, low, high, b, j + 1).pivot == PartitionFrom(A, level, low, high, i, j).pivot
  {
    var c, w := [CompareOf(A, level, low, high, j)], SwapOf(A, level, low, high, i, j);
    var rest := PartitionFrom(B, level, low, high, b, j + 1).steps;
    Assoc(before, c + w, rest);
    Assoc(before, c, w);
  }

  /** The rest `r` of a partition, recorded after the steps `before`. */
  function Resume(before: seq<Step>, r: Parted): Parted
  {
    Parted(r.arr, r.pivot, before + r.steps)
  }

  /** The test of `A[j]`, recorded after `before`, leaves the same partition to finish from the next scan state. */
  lemma ScanAdvance(A: seq<int>, level: nat, low: nat, high: nat, i: int, j: nat, before: seq<Step>, steps: seq<Step>, B: seq<int>, k: int)
    requires low <= j < high < |A| && low - 1 <= i < j
    requires steps == before + [CompareOf(A, level, low, high, j)] + SwapOf(A, level, low, high, i, j)
    requires B == Tested(A, high, i, j) && k == Boundary(A, high, i, j)
    ensures Resume(steps, PartitionFrom(B, level, low, high, k, j + 1)) == Resume(before, PartitionFrom(A, level, low, high, i, j))
  {
    var G := before + PartitionFrom(A, level, low, high, i, j).steps;
    PartitionNext(A, level, low, high, i, j, before, steps, G, B, k);
  }

  /** The steps of a call on a range of two or more elements, spelled out, after a trace `t`. */
  lemma QuickForm(t: seq<Step>, A: seq<int>, low: nat, high: nat, level: nat, P: Parted, L: Run, R: Run)
    requires low < high < |A|
    requires P == PartitionOf(A, level, low, high)
    requires L == SideFrom(P.arr, low, P.pivot as int - 1, level, true)
    requires R == SideFrom(L.arr, P.pivot + 1, high, level, false)
    ensures QuickFrom(A, low, high, level).arr == R.arr
    ensures t + QuickFrom(A, low, high, level).steps
         == t + [Marker(A, Divide(level, Range(low, high), None))] + P.steps + L.steps + R.steps
            + [Marker(R.arr, ConquerComplete(level, Range(low, high)))]
  {
    var d, c := [Marker(A, Divide(level, Range(low, high), None))], [Marker(R.arr, ConquerComplete(level, Range(low, high)))];
    QuickUnfold(A, low, high, level, P, L, R);
    Regroup(t, d, P.steps, L.steps, R.steps, c);
  }

  /** The array a call leaves is the one its right side leaves. */
  lemma QuickArr(A: seq<int>, low: nat, high: nat, level: nat, P: Parted, L: Run, R: Run)
    requires low < high < |A|
    requires P == PartitionOf(A, level, low, high)
    requires L == SideFrom(P.arr, low, P.pivot as int - 1, level, true)
    requires R == SideFrom(L.arr, P.pivot + 1, high, level, false)
    ensures QuickFrom(A, low, high, level).arr == R.arr
  {
  }

  /** One unfolding of `QuickFrom` on a range of two or more elements. */
  lemma QuickUnfold(A: seq<int>, low: nat, high: nat, level: nat, P: Parted, L: Run, R: Run)
    requires low < high < |A|
    requires P == PartitionOf(A, level, low, high)
    requires L == SideFrom(P.arr, low, P.pivot as int - 1, level, true)
    requires R == SideFrom(L.arr, P.pivot + 1, high, level, false)
    ensures QuickFrom(A, low, high, level).arr == R.arr
    ensures QuickFrom(A, low, high, level).steps == CallSteps(A, level, low, high, P.steps, L.steps, R)
  {
  }

  /** Appending five pieces at once or one after the other. */
  lemma Regroup(t: seq<Step>, d: seq<Step>, p: seq<Step>, l: seq<Step>, r: seq<Step>, c: seq<Step>)
    ensures t + (d + p + l + r + c) == t + d + p + l + r + c
  {
    Assoc(t, d + p + l + r, c);
    Assoc(t, d + p + l, r);
    Assoc(t, d + p, l);
    Assoc(t, d, p);
  }

  /*
   * What the functions promise about the array: the partition puts the
   * pivot in place and the recursion sorts its range.
   */

  /**
   * What the rest of a partition `r` from the scan state `A` promises: the
   * old `orig[high]` at the pivot index, smaller values left of it and the
   * others right of it, a permutation of `A`, and nothing moved outside
   * `[low, high]`.
   */
  ghost predicate PartDone(r: Parted, A: seq<int>, orig: seq<int>, low: nat, high: nat)
  {
    && |r.arr| == |A| == |orig|
    && Partitioned(r.arr, low, r.pivot, high)
    && r.arr[r.pivot] == orig[high]
    && (forall x :: 0 <= x < |A| && !(low <= x <= high) ==> r.arr[x] == orig[x])
    && multiset(r.arr) == multiset(A)
  }

  /** The test of `A[j]` leaves the rest of the partition to the next scan state. */
  lemma PartitionStep(A: seq<int>, level: nat, low: nat, high: nat, i: int, j: nat)
    requires low <= j < high < |A| && low - 1 <= i < j
    ensures PartitionFrom(A, level, low, high, i, j).arr
         == PartitionFrom(Tested(A, high, i, j), level, low, high, Boundary(A, high, i, j), j + 1).arr
    ensures PartitionFrom(A, level, low, high, i, j).pivot
         == PartitionFrom(Tested(A, high, i, j), level, low, high, Boundary(A, high, i, j), j + 1).pivot
    ensures multiset(Tested(A, high, i, j)) == multiset(A)
  {
    if A[j] < A[high] && i + 1 != j {
      assert Tested(A, high, i, j) == Swapped(A, i + 1, j);
    }
  }

  /** Once every index has been tested, swapping the pivot into `i + 1` finishes the partition. */
  lemma ScanPlaced(A: seq<int>, orig: seq<int>, level: nat, low: nat, high: nat, i: int, r: Parted)
    requires Scanned(A, orig, low, high, i, high) && r == PartitionFrom(A, level, low, high, i, high)
    ensures PartDone(r, A, orig, low, high)
  {
    assert r.arr == Swapped(A, i + 1, high);
    PivotPlaced(A, orig, low, high, i + 1);
  }

  /** From a scan state that keeps its invariant, the rest of the partition finishes it. */
  lemma {:induction false} ScanResult(A: seq<int>, orig: seq<int>, level: nat, low: nat, high: nat, i: int, j: nat, r: Parted)
    requires Scanned(A, orig, low, high, i, j) && r == PartitionFrom(A, level, low, high, i, j)
    ensures PartDone(r, A, orig, low, high)
    decreases high - j
  {
    if j == high {
      ScanPlaced(A, orig, level, low, high, i, r);
    } else {
      var B, b := Tested(A, high, i, j), Boundary(A, high, i, j);
      ScanOrder(A, orig, low, high, i, j);
      PartitionStep(A, level, low, high, i, j);
      ScanResult(B, orig, level, low, high, b, j + 1, PartitionFrom(B, level, low, high, b, j + 1));
    }
  }

  /**
   * `partition(low, high)` leaves the old `A[high]` at the returned index,
   * smaller values left of it and the others right of it, permutes the
   * array and touches nothing outside `[low, high]`.
   */
  lemma PartitionCorrect(A: seq<int>, level: nat, low: nat, high: nat)
    requires low < high < |A|
    ensures SplitsRange(PartitionOf(A, level, low, high).arr, A, low, PartitionOf(A, level, low, high).pivot, high)
    ensures PartitionOf(A, level, low, high).arr[PartitionOf(A, level, low, high).pivot] == A[high]
  {
    ScanResult(A, A, level, low, high, low - 1, low, PartitionFrom(A, level, low, high, low - 1, low));
  }

  /** `r` is `A` with `[lo, hi]` sorted: a permutation that moves nothing outside that range. */
  ghost predicate SortsRange(r: seq<int>, A: seq<int>, lo: nat, hi: int)
  {
    // One name for the whole conjunction, so that a caller hands it on as one fact.
    var sorts :=
      && |r| == |A|
      && SortedRange(r, lo, hi)
      && multiset(r) == multiset(A)
      && (forall x :: 0 <= x < |A| && !(lo <= x <= hi) ==> r[x] == A[x]);
    sorts
  }

  /** `r` is `A` partitioned around `p` within `[lo, hi]`: a permutation that moves nothing outside that range. */
  ghost predicate SplitsRange(r: seq<int>, A: seq<int>, lo: nat, p: nat, hi: nat)
  {
    // One name for the whole conjunction, so that a caller hands it on as one fact.
    var splits :=
      && |r| == |A|
      && Partitioned(r, lo, p, hi)
      && multiset(r) == multiset(A)
      && (forall x :: 0 <= x < |A| && !(lo <= x <= hi) ==> r[x] == A[x]);
    splits
  }

  /**
   * `quickSortHelper(low, high)` sorts `[low, high]`, permutes the array
   * and touches nothing outside `[low, high]`.
   */
  lemma {:induction false} QuickCorrect(A: seq<int>, low: nat, high: int, level: nat)
    requires high < |A| && low <= high + 1
    ensures SortsRange(QuickFrom(A, low, high, level).arr, A, low, high)
    decreases high - low, 1
  {
    if low < high {
      var P := PartitionOf(A, level, low, high);
      var L := SideFrom(P.arr, low, P.pivot as int - 1, level, true);
      var R := SideFrom(L.arr, P.pivot + 1, high, level, false);
      CallCorrect(A, low, high, level, P, L, R);
      QuickArr(A, low, high, level, P, L, R);
    }
  }

  /** The partition of a call, then its two sides, sort the range of the call. */
  lemma {:induction false} CallCorrect(A: seq<int>, low: nat, high: nat, level: nat, P: Parted, L: Run, R: Run)
    requires low < high < |A|
    requires P == PartitionOf(A, level, low, high)
    requires L == SideFrom(P.arr, low, P.pivot as int - 1, level, true)
    requires R == SideFrom(L.arr, P.pivot + 1, high, level, false)
    ensures SortsRange(R.arr, A, low, high)
    decreases high - low, 0
  {
    PartitionCorrect(A, level, low, high);
    SideCorrect(P.arr, low, P.pivot as int - 1, level, true);
    SideCorrect(L.arr, P.pivot + 1, high, level, false);
    Conquered(A, P.arr, L.arr, R.arr, low, P.pivot, high);
  }

  /** Either side of a partition comes back sorted, permuted within itself. */
  lemma {:induction false} SideCorrect(A: seq<int>, lo: nat, hi: int, level: nat, left: bool)
    requires hi < |A| && lo <= hi + 1
    ensures SortsRange(SideFrom(A, lo, hi, level, left).arr, A, lo, hi)
    decreases hi - lo, 2
  {
    if lo < hi {
      QuickCorrect(A, lo, hi, level + 1);
    }
  }

  /*
   * What the functions promise about the trace: every step and every two
   * consecutive steps are valid. The trace of the scan needs no ordering
   * facts until its completion step, which takes them from
   * `PartitionCorrect`.
   */

  /**
   * A valid trace, showing a permutation `a` of the input, whose last step
   * dictates nothing next. The conjunction is bound to one name so that a
   * caller hands it on as one fact.
   */
  ghost predicate Closed(T: seq<Step>, a: seq<int>, input: seq<int>)
  {
    var closed := Traced(T, a, input) && T != [] && !Opens(Last(T)) && |a| == |input| && multiset(a) == multiset(input);
    closed
  }

  /** What the trace of the scan keeps between two tests. */
  ghost predicate InScan(t: seq<Step>, A: seq<int>, input: seq<int>, low: nat, high: nat, i: int, j: nat)
  {
    // One name for the whole conjunction, so that a caller hands it on as one fact.
    var scanning := low <= j <= high < |A| && low - 1 <= i < j && low < high && Closed(t, A, input);
    scanning
  }

  /** The two assignments of a destructuring swap exchange the two elements. */
  lemma SwapIsSwapped(A: seq<int>, i: nat, j: nat)
    requires i < |A| && j < |A|
    ensures A[i := A[j]][j := A[i]] == Swapped(A, i, j)
  {
  }

  /** The comparison of `A[j]` alone extends a valid trace of the scan. */
  lemma KeepTraced(t: seq<Step>, A: seq<int>, input: seq<int>, level: nat, low: nat, high: nat, j: nat)
    requires Closed(t, A, input) && low <= j < high < |A|
    ensures Closed(t + [CompareOf(A, level, low, high, j)], A, input)
  {
    CompareStep(Last(t), A, level, Range(low, high), j, input);
    Append(t, A, CompareOf(A, level, low, high, j), input);
  }

  /** The comparison of `A[j]` and its swap to the boundary `i` extend a valid trace of the scan. */
  lemma SwapTraced(t: seq<Step>, A: seq<int>, input: seq<int>, level: nat, low: nat, high: nat, i: nat, j: nat)
    requires Closed(t, A, input) && low <= i < j < high < |A| && A[j] < A[high]
    ensures
      var B := A[i := A[j]][j := A[i]];
      Closed(t + [CompareOf(A, level, low, high, j), Step(B, [], [i, j], [], Some(PartitionSwap(level, Range(low, high), high)))], B, input)
  {
    var c := CompareOf(A, level, low, high, j);
    var B := A[i := A[j]][j := A[i]];
    SwapIsSwapped(A, i, j);
    CompareStep(Last(t), A, level, Range(low, high), j, input);
    SwapStep(c, A, level, low, high, i, j, input);
    AppendTwo(t, A, c, Step(B, [], [i, j], [], Some(PartitionSwap(level, Range(low, high), high))), input);
  }

  /** The test of `A[j]` and its swap, if any, keep the trace of the scan valid. */
  lemma ScanOne(t: seq<Step>, A: seq<int>, input: seq<int>, level: nat, low: nat, high: nat, i: int, j: nat)
    requires InScan(t, A, input, low, high, i, j) && j < high
    ensures InScan(t + [CompareOf(A, level, low, high, j)] + SwapOf(A, level, low, high, i, j),
                   Tested(A, high, i, j), input, low, high, Boundary(A, high, i, j), j + 1)
  {
    if A[j] < A[high] && i + 1 != j {
      ScanSwapOne(t, A, input, level, low, high, i, j);
    } else {
      ScanKeepOne(t, A, input, level, low, high, i, j);
    }
  }

  /** `ScanOne` for an element below the pivot that is exchanged with the one past the boundary. */
  lemma ScanSwapOne(t: seq<Step>, A: seq<int>, input: seq<int>, level: nat, low: nat, high: nat, i: int, j: nat)
    requires InScan(t, A, input, low, high, i, j) && j < high && A[j] < A[high] && i + 1 != j
    ensures InScan(t + [CompareOf(A, level, low, high, j)] + SwapOf(A, level, low, high, i, j),
                   Tested(A, high, i, j), input, low, high, Boundary(A, high, i, j), j + 1)
  {
    var c := CompareOf(A, level, low, high, j);
    var B := A[i + 1 := A[j]][j := A[i + 1]];
    var w := Step(B, [], [i + 1, j], [], Some(PartitionSwap(level, Range(low, high), high)));
    SwapTraced(t, A, input, level, low, high, i + 1, j);
    assert t + [c] + SwapOf(A, level, low, high, i, j) == t + [c, w];
    assert Tested(A, high, i, j) == B;
  }

  /** `ScanOne` for an element that stays where it is. */
  lemma ScanKeepOne(t: seq<Step>, A: seq<int>, input: seq<int>, level: nat, low: nat, high: nat, i: int, j: nat)
    requires InScan(t, A, input, low, high, i, j) && j < high && !(A[j] < A[high] && i + 1 != j)
    ensures InScan(t + [CompareOf(A, level, low, high, j)] + SwapOf(A, level, low, high, i, j),
                   Tested(A, high, i, j), input, low, high, Boundary(A, high, i, j), j + 1)
  {
    var c := CompareOf(A, level, low, high, j);
    assert SwapOf(A, level, low, high, i, j) == [];
    assert Tested(A, high, i, j) == A;
    KeepTraced(t, A, input, level, low, high, j);
    assert t + [c] + [] == t + [c];
  }

  /** The placement of the pivot into `p` and the completion extend a valid trace of the scan. */
  lemma PlaceTraced(t: seq<Step>, A: seq<int>, input: seq<int>, level: nat, low: nat, high: nat, p: nat)
    requires Closed(t, A, input) && low <= p <= high < |A| && low < high && Partitioned(Swapped(A, p, high), low, p, high)
    ensures Closed(t + Placed(Swapped(A, p, high), level, low, high, p), Swapped(A, p, high), input)
  {
    var B := Swapped(A, p, high);
    PlacementSteps(Last(t), B, input, level, low, high, p);
    var placement := Step(B, [], [p, high], [], Some(PivotPlacement(level, Range(low, high), p)));
    var complete := Step(B, [], [], [p], Some(PartitionComplete(level, Range(low, high), p)));
    AppendTwo(t, A, placement, complete, input);
  }

  /** Two valid steps, valid one after the other, extend a valid trace. */
  lemma AppendTwo(steps: seq<Step>, a: seq<int>, x: Step, y: Step, input: seq<int>)
    requires Traced(steps, a, input) && StepOk(x, input) && StepOk(y, input) && PairOk(x, y)
    requires steps != [] ==> PairOk(Last(steps), x)
    ensures Traced(steps + [x, y], y.arr, input)
  {
    Append(steps, a, x, input);
    Append(steps + [x], x.arr, y, input);
    assert steps + [x, y] == steps + [x] + [y];
  }

  /** Once every index has been tested, what remains of the partition is the placement and the completion. */
  lemma PartitionEnd(A: seq<int>, level: nat, low: nat, high: nat, i: int)
    requires low <= high < |A| && low - 1 <= i < high
    ensures PartitionFrom(A, level, low, high, i, high)
         == Parted(Swapped(A, i + 1, high), i + 1, Placed(Swapped(A, i + 1, high), level, low, high, i + 1))
  {
  }

  /**
   * What the scan from test `j` on is to reach: the steps `T`, the array `X`
   * and the pivot `p` the rest of the partition leaves, `X` partitioned.
   */
  ghost predicate ScanGoal(t: seq<Step>, A: seq<int>, input: seq<int>, level: nat, low: nat, high: nat,
                           i: int, j: nat, T: seq<Step>, X: seq<int>, p: nat)
  {
    // One name for the whole conjunction, so that a caller hands it on as one fact.
    var goal := && InScan(t, A, input, low, high, i, j)
                && T == t + PartitionFrom(A, level, low, high, i, j).steps
                && X == PartitionFrom(A, level, low, high, i, j).arr && p == PartitionFrom(A, level, low, high, i, j).pivot
                && Partitioned(X, low, p, high);
    goal
  }

  /**
   * The rest of the partition from scan state `(i, j)`, which leaves `X`
   * partitioned around `p`, extends a valid trace of the scan; it ends with
   * the completion.
   */
  lemma {:induction false} ScanTraced(t: seq<Step>, A: seq<int>, input: seq<int>, level: nat, low: nat, high: nat,
                                      i: int, j: nat, T: seq<Step>, X: seq<int>, p: nat)
    requires ScanGoal(t, A, input, level, low, high, i, j, T, X, p)
    ensures Closed(T, X, input)
    decreases high - j, 1
  {
    if j == high {
      PartitionEnd(A, level, low, high, i);
      PlaceTraced(t, A, input, level, low, high, i + 1);
    } else {
      ScanTest(t, A, input, level, low, high, i, j, T, X, p);
    }
  }

  /** The inductive step of `ScanTraced`: the test of `A[j]`, then the rest of the partition. */
  lemma {:induction false} ScanTest(t: seq<Step>, A: seq<int>, input: seq<int>, level: nat, low: nat, high: nat,
                                    i: int, j: nat, T: seq<Step>, X: seq<int>, p: nat)
    requires ScanGoal(t, A, input, level, low, high, i, j, T, X, p) && j < high
    ensures Closed(T, X, input)
    decreases high - j, 0
  {
    var B, b := Tested(A, high, i, j), Boundary(A, high, i, j);
    var u := t + [CompareOf(A, level, low, high, j)] + SwapOf(A, level, low, high, i, j);
    ScanOne(t, A, input, level, low, high, i, j);
    PartitionNext(A, level, low, high, i, j, t, u, T, B, b);
    ScanTraced(u, B, input, level, low, high, b, j + 1, T, X, p);
  }

  /** The steps of `partition(low, high)` extend a valid trace that ends with its `divide`. */
  lemma PartitionTraced(t: seq<Step>, A: seq<int>, input: seq<int>, level: nat, low: nat, high: nat, T: seq<Step>)
    requires low < high < |A| == |input| && multiset(A) == multiset(input)
    requires Traced(t, A, input) && t != [] && Last(t) == Marker(A, Divide(level, Range(low, high), None))
    requires T == t + PartitionOf(A, level, low, high).steps
    ensures Closed(T, PartitionOf(A, level, low, high).arr, input)
  {
    var start := Marker(A, PartitionStart(level, Range(low, high), high));
    var r := PartitionFrom(A, level, low, high, low - 1, low);
    PartitionCorrect(A, level, low, high);
    Append(t, A, start, input);
    Assoc(t, [start], r.steps);
    ScanTraced(t + [start], A, input, level, low, high, low - 1, low, T, r.arr, r.pivot);
  }


  /**
   * The steps of `quickSortHelper(low, high, level)` over a range of two or
   * more elements (divide, partition, the two sides, conquer) extend a valid
   * trace and end with the `conquer_complete` of the range.
   */
  lemma {:induction false} QuickCall(t: seq<Step>, A: seq<int>, input: seq<int>, low: nat, high: nat, level: nat, T: seq<Step>)
    requires low < high < |A| == |input| && multiset(A) == multiset(input)
    requires Traced(t, A, input)
    requires t != [] ==> PairOk(Last(t), Marker(A, Divide(level, Range(low, high), None)))
    requires T == t + QuickFrom(A, low, high, level).steps
    ensures Closed(T, QuickFrom(A, low, high, level).arr, input)
    decreases high - low, 0
  {
    var P := PartitionOf(A, level, low, high);
    var p := P.pivot;
    var L := SideFrom(P.arr, low, p as int - 1, level, true);
    var R := SideFrom(L.arr, p + 1, high, level, false);
    QuickForm(t, A, low, high, level, P, L, R);
    var t2 := t + [Marker(A, Divide(level, Range(low, high), None))] + P.steps;
    OpenCall(t, A, input, level, low, high, t2);
    SideTraced(t2, P.arr, input, low, p as int - 1, level, true, t2 + L.steps);
    SideTraced(t2 + L.steps, L.arr, input, p + 1, high, level, false, t2 + L.steps + R.steps);
    QuickCorrect(A, low, high, level);
    PushConquer(t2 + L.steps + R.steps, R.arr, input, level, low, high);
  }

  /** The `divide` of a call and the steps of its partition extend a valid trace. */
  lemma OpenCall(t: seq<Step>, A: seq<int>, input: seq<int>, level: nat, low: nat, high: nat, T: seq<Step>)
    requires low < high < |A| == |input| && multiset(A) == multiset(input)
    requires Traced(t, A, input)
    requires t != [] ==> PairOk(Last(t), Marker(A, Divide(level, Range(low, high), None)))
    requires T == t + [Marker(A, Divide(level, Range(low, high), None))] + PartitionOf(A, level, low, high).steps
    ensures Closed(T, PartitionOf(A, level, low, high).arr, input)
  {
    PushDivide(t, A, input, level, low, high);
    PartitionTraced(t + [Marker(A, Divide(level, Range(low, high), None))], A, input, level, low, high, T);
  }


  /** The steps of one side `[lo, hi]` extend a valid trace whose last step dictates nothing next. */
  lemma {:induction false} SideTraced(t: seq<Step>, A: seq<int>, input: seq<int>, lo: nat, hi: int, level: nat, left: bool, T: seq<Step>)
    requires hi < |A| && lo <= hi + 1 && Closed(t, A, input)
    requires T == t + SideFrom(A, lo, hi, level, left).steps
    ensures Closed(T, SideFrom(A, lo, hi, level, left).arr, input)
    decreases hi - lo, 2
  {
    if lo < hi {
      var call := Marker(A, if left then RecurseLeft(level + 1, Range(lo, hi)) else RecurseRight(level + 1, Range(lo, hi)));
      PushRecurse(t, A, input, level, lo, hi, left);
      Assoc(t, [call], QuickFrom(A, lo, hi, level + 1).steps);
      QuickCall(t + [call], A, input, lo, hi, level + 1, T);
    }
  }

  /** A finished trace: valid throughout, ending with the `complete` step over the array sorted. */
  ghost predicate Whole(T: seq<Step>, input: seq<int>)
  {
    T != [] && Traced(T, Last(T).arr, input) && EndsSorted(T, input) && Last(T).info == Some(Complete(0))
  }

  /** The whole trace `quickSort` records is finished. */
  lemma Finish(input: seq<int>, steps: seq<Step>)
    requires steps == QuickRun(input)
    ensures Whole(steps, input)
  {
    var Q := QuickFrom(input, 0, |input| - 1, 0);
    QuickCorrect(input, 0, |input| - 1, 0);
    QuickClosed(input, Q);
    Finished(Q, input);
  }

  /** The top call `quickSortHelper(0, n - 1, 0)` leaves a valid trace that dictates nothing next. */
  lemma QuickClosed(input: seq<int>, Q: Run)
    requires Q == QuickFrom(input, 0, |input| - 1, 0)
    ensures Traced(Q.steps, Q.arr, input) && (Q.steps != [] ==> !Opens(Last(Q.steps)))
  {
    if 1 < |input| {
      QuickTop(input);
      assert Traced(Q.steps, Q.arr, input);
    } else {
      QuickEmpty(input, 0, |input| - 1, 0);
      EmptyTraced(Q.arr, input);
    }
  }

  /** Over two or more elements the top call starts the trace, so it needs no earlier step. */
  lemma QuickTop(input: seq<int>)
    requires 1 < |input|
    ensures Closed(QuickFrom(input, 0, |input| - 1, 0).steps, QuickFrom(input, 0, |input| - 1, 0).arr, input)
  {
    var T := QuickFrom(input, 0, |input| - 1, 0).steps;
    NoPrefix(T);
    EmptyTraced(input, input);
    QuickCall([], input, input, 0, |input| - 1, 0, T);
  }

  lemma EmptyTraced(a: seq<int>, input: seq<int>)
    ensures Traced([], a, input)
  {
  }

  lemma NoPrefix(s: seq<Step>)
    ensures [] + s == s
  {
  }

  /** A range of fewer than two elements records nothing and moves nothing. */
  lemma QuickEmpty(A: seq<int>, low: nat, high: int, level: nat)
    requires high < |A| && low <= high + 1 && high <= low
    ensures QuickFrom(A, low, high, level) == Run(A, [])
  {
  }

  /** A sorting run with a valid trace, closed by the `complete` step, is finished. */
  lemma Finished(Q: Run, input: seq<int>)
    requires SortsRange(Q.arr, input, 0, |input| - 1)
    requires Traced(Q.steps, Q.arr, input) && (Q.steps != [] ==> !Opens(Last(Q.steps)))
    ensures Whole(Q.steps + [Step(Q.arr, [], [], Upto(|input|), Some(Complete(0)))], input)
  {
    assert Sorted(Q.arr) by {
      forall x, y | 0 <= x < y < |Q.arr|
        ensures Q.arr[x] <= Q.arr[y]
      {
      }
    }
    Append(Q.steps, Q.arr, Step(Q.arr, [], [], Upto(|input|), Some(Complete(0))), input);
  }

  /**
   * The trace `quickSort` records ends with the `complete` step over the
   * input sorted; every step and every two consecutive steps are valid.
   */
  lemma TraceOk(input: seq<int>, steps: seq<Step>)
    requires steps == QuickRun(input)
    ensures EndsSorted(steps, input)
    ensures forall k :: 0 <= k < |steps| ==> StepOk(steps[k], input)
    ensures forall k :: 0 <= k < |steps| - 1 ==> PairOk(steps[k], steps[k + 1])
    ensures Last(steps).info == Some(Complete(0))
  {
    Finish(input, steps);
  }

  /**
   * One test of the scan: records the comparison of `a[j]` with the pivot
   * and, when `a[j]` is below it, moves the boundary on and exchanges the
   * two elements, recording the exchange unless they are the same element.
   */
  method Test(a: array<int>, low: nat, high: nat, level: nat, pivot: int, i: int, j: nat, steps0: seq<Step>)
    returns (k: int, steps: seq<Step>)
    requires low <= j < high < a.Length && low - 1 <= i < j && pivot == a[high]
    modifies a
    ensures a[..] == Tested(old(a[..]), high, i, j) && k == Boundary(old(a[..]), high, i, j)
    ensures steps == steps0 + [CompareOf(old(a[..]), level, low, high, j)] + SwapOf(old(a[..]), level, low, high, i, j)
  {
    steps := steps0 + [Step(a[..], [j, high], [], [], Some(PartitionCompare(level, Range(low, high), high, j)))];
    k := i;
    if a[j] < pivot {
      k := i + 1;
      if k != j {
        a[k], a[j] := a[j], a[k];
        steps := steps + [Step(a[..], [], [k, j], [], Some(PartitionSwap(level, Range(low, high), high)))];
      }
    }
  }

  /**
   * The scan loop of `partition`: tests `a[low .. high - 1]` against the
   * pivot `a[high]`, leaving the boundary `i` from which only the placement
   * of the pivot remains.
   */
  method ScanAll(a: array<int>, low: nat, high: nat, level: nat, steps0: seq<Step>) returns (i: int, steps: seq<Step>)
    requires low < high < a.Length
    modifies a
    ensures low - 1 <= i < high
    ensures Resume(steps, PartitionFrom(a[..], level, low, high, i, high))
         == Resume(steps0, PartitionFrom(old(a[..]), level, low, high, low - 1, low))
  {
    var pivot := a[high];
    i := low - 1;
    steps := steps0;
    ghost var Goal := Resume(steps, PartitionFrom(a[..], level, low, high, low - 1, low));
    var j := low;
    while j < high
      invariant low <= j <= high && low - 1 <= i < j && a[high] == pivot
      invariant Resume(steps, PartitionFrom(a[..], level, low, high, i, j)) == Goal
    {
      ghost var A, before, i0 := a[..], steps, i;
      i, steps := Test(a, low, high, level, pivot, i, j, steps);
      ScanAdvance(A, level, low, high, i0, j, before, steps, a[..], i);
      j := j + 1;
    }
  }

  /**
   * `partition(low, high)`: records the start; for every `j` in `[low,
   * high)` records the comparison with the pivot `a[high]`, and an element
   * below the pivot advances the boundary `i` and, when `i != j`, is swapped
   * to it; finally swaps the pivot into `i + 1` and records the placement and
   * the completion. Returns `i + 1`, the pivot's final index.
   */
  method Partition(a: array<int>, low: nat, high: nat, level: nat, steps0: seq<Step>) returns (p: nat, steps: seq<Step>)
    requires low < high < a.Length
    modifies a
    ensures p == PartitionOf(old(a[..]), level, low, high).pivot
    ensures a[..] == PartitionOf(old(a[..]), level, low, high).arr
    ensures steps == steps0 + PartitionOf(old(a[..]), level, low, high).steps
  {
    ghost var A0 := a[..];
    var i: int;
    i, steps := ScanAll(a, low, high, level, steps0 + [Marker(a[..], PartitionStart(level, Range(low, high), high))]);
    ghost var A1 := a[..];
    PartitionEnd(A1, level, low, high, i);
    p := i + 1;
    a[p], a[high] := a[high], a[p];
    assert a[..] == Swapped(A1, p, high);
    steps := steps + Placed(a[..], level, low, high, p);
    Assoc(steps0, [Marker(A0, PartitionStart(level, Range(low, high), high))], PartitionFrom(A0, level, low, high, low - 1, low).steps);
  }

  /**
   * `quickSortHelper(low, high, level)`: a range of at least two elements
   * records its `divide`, is partitioned, recurses (one level deeper) into
   * each side that has at least two elements, announcing each call, and
   * records `conquer_complete`; a shorter range records nothing.
   */
  method QuickSortHelper(a: array<int>, low: nat, high: int, level: nat, steps0: seq<Step>) returns (steps: seq<Step>)
    requires high < a.Length && low <= high + 1
    modifies a
    decreases high - low, 1
    ensures a[..] == QuickFrom(old(a[..]), low, high, level).arr
    ensures steps == steps0 + QuickFrom(old(a[..]), low, high, level).steps
  {
    steps := steps0;
    if low < high {
      ghost var A := a[..];
      ghost var P := PartitionOf(A, level, low, high);
      var p;
      p, steps := Partition(a, low, high, level, steps + [Marker(a[..], Divide(level, Range(low, high), None))]);
      ghost var L := SideFrom(a[..], low, p as int - 1, level, true);
      steps := SortSide(a, low, p as int - 1, level, steps, true);
      ghost var R := SideFrom(a[..], p + 1, high, level, false);
      steps := SortSide(a, p + 1, high, level, steps, false);
      steps := steps + [Marker(a[..], ConquerComplete(level, Range(low, high)))];
      QuickForm(steps0, A, low, high, level, P, L, R);
    }
  }

  /**
   * One side of the partition, `[lo, hi]`: when it holds at least two
   * elements, the call is announced (`recurse_left` or `recurse_right`, one
   * level deeper) and made; otherwise nothing happens.
   */
  method SortSide(a: array<int>, lo: nat, hi: int, level: nat, steps0: seq<Step>, left: bool) returns (steps: seq<Step>)
    requires hi < a.Length && lo <= hi + 1
    modifies a
    decreases hi - lo, 2
    ensures a[..] == SideFrom(old(a[..]), lo, hi, level, left).arr
    ensures steps == steps0 + SideFrom(old(a[..]), lo, hi, level, left).steps
  {
    steps := steps0;
    if lo < hi {
      var call := Marker(a[..], if left then RecurseLeft(level + 1, Range(lo, hi)) else RecurseRight(level + 1, Range(lo, hi)));
      Assoc(steps0, [call], QuickFrom(a[..], lo, hi, level + 1).steps);
      steps := QuickSortHelper(a, lo, hi, level + 1, steps + [call]);
    }
  }

  /**
   * `quickSort(arr)`: sorts a copy of the input with `quickSortHelper(0,
   * n - 1, 0)` and closes the trace with a `complete` step that marks every
   * index sorted.
   */
  method QuickSort(input: seq<int>) returns (steps: seq<Step>)
    ensures steps == QuickRun(input)
  {
    var n := |input|;
    var a := new int[n](x requires 0 <= x < n => input[x]);
    assert a[..] == input;
    steps := QuickSortHelper(a, 0, n - 1, 0, []);
    steps := steps + [Step(a[..], [], [], Upto(n), Some(Complete(0)))];
  }
}
