/**
 * The value types every trace generator emits and the playback controller
 * consumes: one `Step` per visually meaningful operation, with optional
 * divide-and-conquer metadata (`RecInfo`) for Merge Sort and Quick Sort.
 */
module Steps {

  datatype Option<+T> = None | Some(value: T)

  /** An inclusive index range `[lo, hi]`, as the visualizer records ranges. */
  datatype Range = Range(lo: nat, hi: nat)

  /** The split that Merge Sort's `divide` step reports besides its range. */
  datatype Halves = Halves(mid: nat, leftRange: Range, rightRange: Range)

  /**
   * Recursion metadata, one variant per `type` tag. Every variant carries the
   * recursion `level` (root = 0); the other fields are the ones the generator
   * fills in for that tag. The human-readable message is not modelled.
   */
  datatype RecInfo =
    | Divide(level: nat, range: Range, halves: Option<Halves>)
    | RecurseLeft(level: nat, range: Range)
    | RecurseRight(level: nat, range: Range)
    | ConquerComplete(level: nat, range: Range)
    | BaseCase(level: nat, range: Range)
    | MergeStart(level: nat, leftRange: Range, rightRange: Range)
    | MergeCompare(level: nat, leftRange: Range, rightRange: Range)
    | MergePlace(level: nat, leftRange: Range, rightRange: Range)
    | MergeRemaining(level: nat)
    | MergeComplete(level: nat, range: Range)
    | PartitionStart(level: nat, range: Range, pivot: nat)
    | PartitionCompare(level: nat, range: Range, pivot: nat, current: nat)
    | PartitionSwap(level: nat, range: Range, pivot: nat)
    | PivotPlacement(level: nat, range: Range, pivot: nat)
    | PartitionComplete(level: nat, range: Range, pivot: nat)
    | Complete(level: nat)

  /**
   * One snapshot: the whole working array after the operation, the indices
   * being compared, the indices just written or swapped, the indices shown
   * as sorted, and the recursion metadata (absent for the iterative sorts).
   */
  datatype Step = Step(
    arr: seq<int>,
    comparing: seq<nat>,
    swapping: seq<nat>,
    sorted: seq<nat>,
    info: Option<RecInfo>)

  /** What a call of a recursive generator leaves: the working array and the steps it recorded. */
  datatype Run = Run(arr: seq<int>, steps: seq<Step>)

  /** A step without recursion metadata. */
  function Plain(arr: seq<int>, comparing: seq<nat>, swapping: seq<nat>, sorted: seq<nat>): (s: Step)
    ensures s.info == None
  {
    Step(arr, comparing, swapping, sorted, None)
  }

  /** A step that only carries recursion metadata over the current array. */
  function Marker(arr: seq<int>, info: RecInfo): (s: Step)
    ensures s.comparing == [] && s.swapping == [] && s.sorted == []
  {
    Step(arr, [], [], [], Some(info))
  }

  /** `[lo, lo + 1, ..., lo + count - 1]` */
  function Span(lo: nat, count: nat): (r: seq<nat>)
    ensures |r| == count
    ensures forall i :: 0 <= i < count ==> r[i] == lo + i
  {
    seq(count, i requires 0 <= i < count => lo + i)
  }

  /** `[0, 1, ..., count - 1]`: the index list `Array.from({length: count}, (_, idx) => idx)`. */
  function Upto(count: nat): (r: seq<nat>)
    ensures |r| == count
    ensures forall i :: 0 <= i < count ==> r[i] == i
  {
    Span(0, count)
  }

  /** `[n - 1, n - 2, ..., n - count]`: the trailing `count` indices, from the end. */
  function Downfrom(n: nat, count: nat): (r: seq<nat>)
    requires count <= n
    ensures |r| == count
    ensures forall i :: 0 <= i < count ==> r[i] == n - 1 - i
  {
    seq(count, i requires 0 <= i < count => n - 1 - i)
  }

  function Last(steps: seq<Step>): Step
    requires steps != []
  {
    steps[|steps| - 1]
  }

  /** `s` with the elements at `i` and `j` exchanged. */
  function Swapped(s: seq<int>, i: nat, j: nat): (r: seq<int>)
    requires i < |s| && j < |s|
    ensures |r| == |s| && r[i] == s[j] && r[j] == s[i]
    ensures forall k :: 0 <= k < |s| && k != i && k != j ==> r[k] == s[k]
    ensures multiset(r) == multiset(s)
  {
    s[i := s[j]][j := s[i]]
  }

  predicate Sorted(s: seq<int>)
  {
    forall i, j :: 0 <= i < j < |s| ==> s[i] <= s[j]
  }

  predicate Below(xs: seq<nat>, n: int)
  {
    forall i :: 0 <= i < |xs| ==> xs[i] < n
  }

  /** The step records no indices. */
  predicate NoIndices(s: Step)
  {
    s.comparing == [] && s.swapping == [] && s.sorted == []
  }

  /** A range of at least two indices inside an array of length `n`. */
  predicate Proper(r: Range, n: int)
  {
    r.lo < r.hi < n
  }

  /** `a[lo..hi]` (inclusive) is in ascending order. */
  ghost predicate SortedRange(a: seq<int>, lo: int, hi: int)
  {
    forall x, y :: lo <= x < y <= hi && 0 <= x && y < |a| ==> a[x] <= a[y]
  }

  /** The step describes an array of length `n` and names only its indices. */
  predicate WellFormed(s: Step, n: nat)
  {
    |s.arr| == n && Below(s.comparing, n) && Below(s.swapping, n) && Below(s.sorted, n)
  }

  /**
   * The common promise of every generator on a non-empty trace: the last
   * step's array is the input sorted ascending and every index is marked.
   */
  predicate EndsSorted(steps: seq<Step>, input: seq<int>)
  {
    && steps != []
    && Sorted(Last(steps).arr)
    && multiset(Last(steps).arr) == multiset(input)
    && Last(steps).sorted == Upto(|input|)
  }

  /** Some step of the trace shows exactly the indices `sorted` as sorted. */
  ghost predicate Marks(steps: seq<Step>, sorted: seq<nat>)
  {
    exists k :: 0 <= k < |steps| && steps[k].sorted == sorted
  }

  /** Concatenation of traces is associative. */
  lemma Assoc(a: seq<Step>, b: seq<Step>, c: seq<Step>)
    ensures a + (b + c) == a + b + c
  {
  }

  /** Every step is well formed for an input of length `n`. */
  predicate AllWellFormed(steps: seq<Step>, n: nat)
  {
    forall k :: 0 <= k < |steps| ==> WellFormed(steps[k], n)
  }

  /** Well-formedness of two traces carries over to their concatenation. */
  lemma ConcatWellFormed(a: seq<Step>, b: seq<Step>, n: nat)
    requires AllWellFormed(a, n) && AllWellFormed(b, n)
    ensures AllWellFormed(a + b, n)
  {
    forall k | 0 <= k < |a + b|
      ensures WellFormed((a + b)[k], n)
    {
      if k < |a| {
        assert (a + b)[k] == a[k];
      } else {
        assert (a + b)[k] == b[k - |a|];
      }
    }
  }
}
