/**
 * Merge Sort trace generator: top-down recursion on inclusive ranges, split
 * at `mid = floor((left + right) / 2)`; `merge` copies both halves into
 * temporary arrays `L` and `R` and writes them back into `[left, right]`,
 * taking from the left run on ties.
 */
module Merge {
  import opened Steps

  /** The split point `Math.floor((left + right) / 2)` of a non-empty range. */
  function Mid(r: Range): (m: nat)
    requires r.lo <= r.hi
    ensures r.lo <= m <= r.hi && (r.lo < r.hi ==> m < r.hi)
    ensures m - r.lo == r.hi - m || m - r.lo + 1 == r.hi - m
  {
    (r.lo + r.hi) / 2
  }

  /** The halves a `divide` step reports: `[lo, mid]` and `[mid + 1, hi]`. */
  function HalvesOf(r: Range): (h: Halves)
    requires r.lo <= r.hi
    ensures h.leftRange.lo == r.lo && h.rightRange.hi == r.hi && h.leftRange.hi + 1 == h.rightRange.lo
  {
    Halves(Mid(r), Range(r.lo, Mid(r)), Range(Mid(r) + 1, r.hi))
  }

  /** The step a call on `r` records first: `divide` for two or more elements, `base_case` for one. */
  function Entry(A: seq<int>, level: nat, r: Range): (s: Step)
    requires r.lo <= r.hi
    ensures s.arr == A && s.comparing == [] && s.swapping == []
    ensures r.lo < r.hi <==> s.sorted == []
  {
    if r.lo < r.hi then Marker(A, Divide(level, r, Some(HalvesOf(r))))
    else Step(A, [], [], [r.lo], Some(BaseCase(level, r)))
  }

  /**
   * The functional merge of two runs: repeatedly takes the smaller head,
   * the left one when the heads are equal.
   */
  function MergeRuns(L: seq<int>, R: seq<int>): (r: seq<int>)
    ensures |r| == |L| + |R|
    decreases |L| + |R|
  {
    if L == [] then R
    else if R == [] then L
    else if L[0] <= R[0] then [L[0]] + MergeRuns(L[1..], R)
    else [R[0]] + MergeRuns(L, R[1..])
  }

  /** For each position of `MergeRuns(L, R)`, whether its element came from the left run. */
  function FromLeft(L: seq<int>, R: seq<int>): (r: seq<bool>)
    ensures |r| == |L| + |R|
    decreases |L| + |R|
  {
    if L == [] then seq(|R|, _ => false)
    else if R == [] then seq(|L|, _ => true)
    else if L[0] <= R[0] then [true] + FromLeft(L[1..], R)
    else [false] + FromLeft(L, R[1..])
  }

  /** The merge rearranges the two runs: nothing is lost or duplicated. */
  lemma {:induction false} MergePermutes(L: seq<int>, R: seq<int>)
    ensures multiset(MergeRuns(L, R)) == multiset(L) + multiset(R)
    decreases |L| + |R|
  {
    if L == [] || R == [] {
    } else if L[0] <= R[0] {
      var rest := MergeRuns(L[1..], R);
      MergePermutes(L[1..], R);
      assert MergeRuns(L, R) == [L[0]] + rest;
      assert multiset(MergeRuns(L, R)) == multiset([L[0]]) + multiset(rest);
      assert L == [L[0]] + L[1..];
      assert multiset(L) == multiset([L[0]]) + multiset(L[1..]);
    } else {
      var rest := MergeRuns(L, R[1..]);
      MergePermutes(L, R[1..]);
      assert MergeRuns(L, R) == [R[0]] + rest;
      assert multiset(MergeRuns(L, R)) == multiset([R[0]]) + multiset(rest);
      assert R == [R[0]] + R[1..];
      assert multiset(R) == multiset([R[0]]) + multiset(R[1..]);
    }
  }

  /** Every element of a sorted run is at least its head. */
  lemma HeadIsLeast(s: seq<int>, v: int)
    requires Sorted(s) && v in multiset(s)
    ensures s[0] <= v
  {
    var k :| 0 <= k < |s| && s[k] == v;
  }

  /** The merge starts with the head of one of the runs. */
  lemma MergeHead(L: seq<int>, R: seq<int>)
    requires L != [] || R != []
    ensures (L != [] && MergeRuns(L, R)[0] == L[0]) || (R != [] && MergeRuns(L, R)[0] == R[0])
  {
  }

  /** Putting a value no larger than its head in front of a sorted run keeps it sorted. */
  lemma ConsSorted(h: int, rest: seq<int>)
    requires Sorted(rest) && (rest != [] ==> h <= rest[0])
    ensures Sorted([h] + rest)
  {
    var s := [h] + rest;
    forall x, y | 0 <= x < y < |s|
      ensures s[x] <= s[y]
    {
      if x == 0 {
        assert s[y] == rest[y - 1] && rest[0] <= rest[y - 1];
      } else {
        assert s[x] == rest[x - 1] && s[y] == rest[y - 1];
      }
    }
  }

  /** Merging two sorted runs gives a sorted run. */
  lemma {:induction false} MergeSorted(L: seq<int>, R: seq<int>)
    requires Sorted(L) && Sorted(R)
    ensures Sorted(MergeRuns(L, R))
    decreases |L| + |R|
  {
    if L == [] || R == [] {
    } else if L[0] <= R[0] {
      var L' := L[1..];
      assert Sorted(L') by {
        forall x, y | 0 <= x < y < |L'| ensures L'[x] <= L'[y] { assert L'[x] == L[x + 1] && L'[y] == L[y + 1]; }
      }
      MergeSorted(L', R);
      MergeHead(L', R);
      assert L' != [] ==> L[0] <= L'[0] by { if L' != [] { assert L'[0] == L[1]; } }
      ConsSorted(L[0], MergeRuns(L', R));
    } else {
      var R' := R[1..];
      assert Sorted(R') by {
        forall x, y | 0 <= x < y < |R'| ensures R'[x] <= R'[y] { assert R'[x] == R[x + 1] && R'[y] == R[y + 1]; }
      }
      MergeSorted(L, R');
      MergeHead(L, R');
      assert R' != [] ==> R[0] <= R'[0] by { if R' != [] { assert R'[0] == R[1]; } }
      ConsSorted(R[0], MergeRuns(L, R'));
    }
  }

  /** An element the merge took from the left run is an element of the left run. */
  lemma {:induction false} LeftOrigin(L: seq<int>, R: seq<int>, q: nat)
    requires q < |L| + |R| && FromLeft(L, R)[q]
    ensures MergeRuns(L, R)[q] in multiset(L)
    decreases |L| + |R|
  {
    if L == [] {
    } else if R == [] {
    } else if L[0] <= R[0] {
      if q > 0 {
        LeftOrigin(L[1..], R, q - 1);
        assert L == [L[0]] + L[1..];
      }
    } else {
      LeftOrigin(L, R[1..], q - 1);
    }
  }

  /**
   * The merge is stable: of two equal elements of the result, one from the
   * right run never comes before one from the left run.
   */
  lemma {:induction false} MergeStable(L: seq<int>, R: seq<int>, p: nat, q: nat)
    requires Sorted(L) && p < q < |L| + |R|
    requires MergeRuns(L, R)[p] == MergeRuns(L, R)[q] && FromLeft(L, R)[q]
    ensures FromLeft(L, R)[p]
    decreases |L| + |R|
  {
    if L == [] {
    } else if R == [] {
    } else if L[0] <= R[0] {
      if p > 0 {
        MergeStable(L[1..], R, p - 1, q - 1);
      }
    } else {
      if p == 0 {
        RightHeadFirst(L, R, q);
        assert false;
      } else {
        MergeStable(L, R[1..], p - 1, q - 1);
      }
    }
  }

  /**
   * When the right head is the smaller one, the merge starts with it, and
   * everything the merge takes from the left run later is larger.
   */
  lemma RightHeadFirst(L: seq<int>, R: seq<int>, q: nat)
    requires Sorted(L) && L != [] && R != [] && R[0] < L[0]
    requires 0 < q < |L| + |R| && FromLeft(L, R)[q]
    ensures MergeRuns(L, R)[0] < MergeRuns(L, R)[q]
  {
    LeftOrigin(L, R[1..], q - 1);
    HeadIsLeast(L, MergeRuns(L, R)[q]);
  }

  /** The two halves of a merge: adjacent, non-empty, inside an array of length `n`. */
  predicate Split(lr: Range, rr: Range, n: int)
  {
    lr.lo <= lr.hi && lr.hi + 1 == rr.lo && rr.lo <= rr.hi < n
  }

  /** The step's array is a rearrangement of the input. */
  ghost predicate Perm(s: Step, input: seq<int>)
  {
    multiset(s.arr) == multiset(input)
  }

  /**
   * What every single step of a Merge Sort trace satisfies. Outside a
   * merge's writes the array is a rearrangement of the input; when a merge
   * starts both halves are sorted, and when it completes the whole range is.
   */
  ghost predicate StepOk(s: Step, input: seq<int>)
  {
    var n := |input|;
    && WellFormed(s, n)
    && s.info.Some?
    && match s.info.value
       case Divide(_, r, h) => Proper(r, n) && h == Some(HalvesOf(r)) && NoIndices(s) && Perm(s, input)
       case RecurseLeft(l, r) => l >= 1 && r.lo <= r.hi < n && NoIndices(s) && Perm(s, input)
       case RecurseRight(l, r) => l >= 1 && r.lo <= r.hi < n && NoIndices(s) && Perm(s, input)
       case BaseCase(_, r) =>
         && r.lo == r.hi < n && s.sorted == [r.lo] && s.comparing == [] && s.swapping == []
         && Perm(s, input)
       case MergeStart(_, lr, rr) =>
         && Split(lr, rr, n) && NoIndices(s) && Perm(s, input)
         && SortedRange(s.arr, lr.lo, lr.hi) && SortedRange(s.arr, rr.lo, rr.hi)
       case MergeCompare(_, lr, rr) =>
         && Split(lr, rr, n) && |s.comparing| == 2
         && lr.lo <= s.comparing[0] <= lr.hi && rr.lo <= s.comparing[1] <= rr.hi
         && s.swapping == [] && s.sorted == []
       case MergePlace(_, lr, rr) =>
         && Split(lr, rr, n) && |s.swapping| == 1 && lr.lo <= s.swapping[0] <= rr.hi
         && s.comparing == [] && s.sorted == []
       case MergeRemaining(_) => |s.swapping| == 1 && s.comparing == [] && s.sorted == []
       case MergeComplete(_, r) =>
         && Proper(r, n) && s.sorted == Span(r.lo, r.hi - r.lo + 1)
         && s.comparing == [] && s.swapping == [] && Perm(s, input)
         && SortedRange(s.arr, r.lo, r.hi)
       case Complete(l) =>
         && l == 0 && s.sorted == Upto(n) && s.comparing == [] && s.swapping == []
         && Perm(s, input) && Sorted(s.arr)
       case _ => false
  }

  /** A step after which the next call may be announced or a merge may start. */
  ghost predicate Settled(s: Step)
  {
    s.info.Some? && (s.info.value.MergeComplete? || s.info.value.BaseCase?)
  }

  /** A step written by a merge: `merge_place` or `merge_remaining`, naming one position. */
  ghost predicate IsWrite(s: Step)
  {
    s.info.Some? && (s.info.value.MergePlace? || s.info.value.MergeRemaining?) && |s.swapping| == 1
  }

  /**
   * What every two consecutive steps satisfy: a call announcement is
   * followed by that call's first step, a `divide` by the announcement of
   * its left half; every comparison is followed by a `merge_place`, and
   * every `merge_place` follows a comparison; a write changes exactly the
   * position it reports; a merge starts after a finished call and completes
   * right after writing its last remaining element.
   */
  ghost predicate PairOk(prev: Step, s: Step)
  {
    && (prev.info.Some? && (prev.info.value.RecurseLeft? || prev.info.value.RecurseRight?) ==>
          prev.info.value.range.lo <= prev.info.value.range.hi
          && s == Entry(prev.arr, prev.info.value.level, prev.info.value.range))
    && (prev.info.Some? && prev.info.value.Divide? ==>
          && prev.info.value.range.lo <= prev.info.value.range.hi
          && s == Marker(prev.arr, RecurseLeft(prev.info.value.level + 1, HalvesOf(prev.info.value.range).leftRange)))
    && (prev.info.Some? && prev.info.value.MergeCompare? ==>
          s.info == Some(MergePlace(prev.info.value.level, prev.info.value.leftRange, prev.info.value.rightRange)))
    && (s.info.Some? && s.info.value.MergePlace? ==>
          prev.info == Some(MergeCompare(s.info.value.level, s.info.value.leftRange, s.info.value.rightRange)))
    && (IsWrite(s) ==>
          s.swapping[0] < |prev.arr| == |s.arr| && s.arr == prev.arr[s.swapping[0] := s.arr[s.swapping[0]]])
    && (s.info.Some? && s.info.value.MergeStart? ==> Settled(prev) && s.arr == prev.arr)
    && (s.info.Some? && s.info.value.MergeComplete? ==>
          prev.info == Some(MergeRemaining(s.info.value.level)) && s.arr == prev.arr)
  }

  /** A partial trace whose last step shows the working array `a`. */
  ghost predicate Traced(steps: seq<Step>, a: seq<int>, input: seq<int>)
  {
    && (forall k :: 0 <= k < |steps| ==> StepOk(steps[k], input))
    && (forall k :: 0 <= k < |steps| - 1 ==> PairOk(steps[k], steps[k + 1]))
    && (steps != [] ==> Last(steps).arr == a)
  }

  lemma {:induction false} Append(steps: seq<Step>, a: seq<int>, x: Step, input: seq<int>)
    requires Traced(steps, a, input) && StepOk(x, input)
    requires steps != [] ==> PairOk(Last(steps), x)
    ensures Traced(steps + [x], x.arr, input)
  {
    var t := steps + [x];
    forall k | 0 <= k < |t| - 1
      ensures PairOk(t[k], t[k + 1])
    {
      if k < |steps| - 1 {
        assert t[k] == steps[k] && t[k + 1] == steps[k + 1];
      }
    }
  }

  /** The positions written by a trace's merges, in the order they were written. */
  ghost function Writes(steps: seq<Step>): seq<nat>
  {
    if steps == [] then []
    else Writes(steps[..|steps| - 1]) + (if IsWrite(Last(steps)) then [Last(steps).swapping[0]] else [])
  }

  lemma WritesAppend(steps: seq<Step>, x: Step)
    ensures Writes(steps + [x]) == Writes(steps) + (if IsWrite(x) then [x.swapping[0]] else [])
  {
    assert (steps + [x])[..|steps|] == steps;
  }

  /**
   * The contents of `merge(left, mid, right)` after `i` elements of `L` and
   * `j` of `R` have been written back: `a[left .. left + i + j)` followed by
   * the merge of what is left of both runs is the merge of both runs, and
   * nothing outside `[left, right]` has moved.
   */
  ghost predicate Progress(A: seq<int>, orig: seq<int>, L: seq<int>, R: seq<int>,
                           left: nat, mid: nat, right: nat, i: nat, j: nat)
  {
    && |A| == |orig| && left <= mid < right < |A|
    && L == orig[left..mid + 1] && R == orig[mid + 1..right + 1]
    && i <= |L| && j <= |R|
    && A[left..left + i + j] + MergeRuns(L[i..], R[j..]) == MergeRuns(L, R)
    && (forall x :: 0 <= x < |A| && !(left <= x <= right) ==> A[x] == orig[x])
  }

  /** A step inside a merge after which a comparison or a write may come. */
  ghost predicate InMerge(s: Step)
  {
    s.info.Some? && (s.info.value.MergeStart? || s.info.value.MergePlace? || s.info.value.MergeRemaining?)
  }

  /**
   * The trace of a merge so far: valid, inside the merge, and its writes
   * since `w` are exactly `left, left + 1, ..., left + written - 1`.
   */
  ghost predicate Trail(t: seq<Step>, A: seq<int>, input: seq<int>, left: nat, written: nat, w: seq<nat>)
  {
    Traced(t, A, input) && t != [] && InMerge(Last(t)) && Writes(t) == w + Span(left, written)
  }

  /** Recording `merge_start` once both halves are sorted. */
  lemma StartMerge(t: seq<Step>, A: seq<int>, input: seq<int>, level: nat, left: nat, mid: nat, right: nat)
    requires Traced(t, A, input) && t != [] && Settled(Last(t))
    requires |A| == |input| && multiset(A) == multiset(input) && left <= mid < right < |A|
    requires SortedRange(A, left, mid) && SortedRange(A, mid + 1, right)
    ensures Trail(t + [Marker(A, MergeStart(level, Range(left, mid), Range(mid + 1, right)))], A, input, left, 0, Writes(t))
  {
    var start := Marker(A, MergeStart(level, Range(left, mid), Range(mid + 1, right)));
    StartStep(Last(t), A, input, level, left, mid, right);
    Append(t, A, start, input);
    WritesAppend(t, start);
    assert Span(left, 0) == [];
  }

  /** The `merge_start` step is valid after a finished call on the same array. */
  lemma StartStep(prev: Step, A: seq<int>, input: seq<int>, level: nat, left: nat, mid: nat, right: nat)
    requires Settled(prev) && prev.arr == A
    requires |A| == |input| && multiset(A) == multiset(input) && left <= mid < right < |A|
    requires SortedRange(A, left, mid) && SortedRange(A, mid + 1, right)
    ensures StepOk(Marker(A, MergeStart(level, Range(left, mid), Range(mid + 1, right))), input)
    ensures PairOk(prev, Marker(A, MergeStart(level, Range(left, mid), Range(mid + 1, right))))
    ensures !IsWrite(Marker(A, MergeStart(level, Range(left, mid), Range(mid + 1, right))))
  {
  }

  /** Before the first write, nothing has been merged yet. */
  lemma StartProgress(A: seq<int>, left: nat, mid: nat, right: nat)
    requires left <= mid < right < |A|
    ensures Progress(A, A, A[left..mid + 1], A[mid + 1..right + 1], left, mid, right, 0, 0)
  {
    assert A[left..mid + 1][0..] == A[left..mid + 1];
    assert A[mid + 1..right + 1][0..] == A[mid + 1..right + 1];
  }

  /** The head of what is left to merge is the smaller head, the left one on ties. */
  lemma HeadNext(L: seq<int>, R: seq<int>, i: nat, j: nat, v: int, i': nat, j': nat)
    requires i < |L| && j < |R|
    requires if L[i] <= R[j] then v == L[i] && i' == i + 1 && j' == j else v == R[j] && i' == i && j' == j + 1
    ensures MergeRuns(L[i..], R[j..]) == [v] + MergeRuns(L[i'..], R[j'..])
  {
    assert L[i..][0] == L[i] && L[i..][1..] == L[i + 1..];
    assert R[j..][0] == R[j] && R[j..][1..] == R[j + 1..];
  }

  /** Once one run is exhausted, the head of what is left is the next element of the other. */
  lemma RestNext(L: seq<int>, R: seq<int>, i: nat, j: nat, v: int, i': nat, j': nat)
    requires (i < |L| && j == |R|) || (i == |L| && j < |R|)
    requires if i < |L| then v == L[i] && i' == i + 1 && j' == j else v == R[j] && i' == i && j' == j + 1
    ensures MergeRuns(L[i..], R[j..]) == [v] + MergeRuns(L[i'..], R[j'..])
  {
    if i < |L| {
      assert R[j..] == [] && R[j'..] == [] && L[i..] == [L[i]] + L[i + 1..];
    } else {
      assert L[i..] == [] && L[i'..] == [] && R[j..] == [R[j]] + R[j + 1..];
    }
  }

  /** Writing `v`, the head of what is left to merge, at `left + i + j` advances the merge by one. */
  lemma Written(A: seq<int>, orig: seq<int>, L: seq<int>, R: seq<int>, left: nat, mid: nat, right: nat,
                i: nat, j: nat, i': nat, j': nat, v: int, B: seq<int>)
    requires Progress(A, orig, L, R, left, mid, right, i, j)
    requires i' + j' == i + j + 1 && i <= i' <= |L| && j <= j' <= |R|
    requires MergeRuns(L[i..], R[j..]) == [v] + MergeRuns(L[i'..], R[j'..])
    requires B == A[left + i + j := v]
    ensures Progress(B, orig, L, R, left, mid, right, i', j')
  {
    assert B[left..left + i' + j'] == A[left..left + i + j] + [v];
    Regroup(A[left..left + i + j], v, MergeRuns(L[i'..], R[j'..]), MergeRuns(L, R));
  }

  lemma Regroup(P: seq<int>, v: int, rest: seq<int>, whole: seq<int>)
    requires P + ([v] + rest) == whole
    ensures (P + [v]) + rest == whole
  {
    assert (P + [v]) + rest == P + ([v] + rest);
  }

  /** The `merge_compare` step for the heads `L[i]` (at `left + i`) and `R[j]` (at `mid + 1 + j`). */
  function CompareStep(A: seq<int>, level: nat, left: nat, mid: nat, right: nat, i: nat, j: nat): (s: Step)
    ensures s.arr == A && s.comparing == [left + i, mid + 1 + j] && s.swapping == [] && s.sorted == []
  {
    Step(A, [left + i, mid + 1 + j], [], [], Some(MergeCompare(level, Range(left, mid), Range(mid + 1, right))))
  }

  /** The `merge_place` step for the write at `k`. */
  function PlaceStep(B: seq<int>, level: nat, left: nat, mid: nat, right: nat, k: nat): (s: Step)
    ensures s.arr == B && s.comparing == [] && s.swapping == [k] && s.sorted == []
  {
    Step(B, [], [k], [], Some(MergePlace(level, Range(left, mid), Range(mid + 1, right))))
  }

  /** The `merge_remaining` step for the write at `k`. */
  function RemainStep(B: seq<int>, level: nat, k: nat): (s: Step)
    ensures s.arr == B && s.comparing == [] && s.swapping == [k] && s.info == Some(MergeRemaining(level))
  {
    Step(B, [], [k], [], Some(MergeRemaining(level)))
  }

  /** Where the main loop of `merge` stops: the array, how much of `L` and of `R` it used, and its steps. */
  datatype Heads = Heads(arr: seq<int>, i: nat, j: nat, steps: seq<Step>)

  /**
   * The main loop of `merge` from the point where `i` elements of `L` and
   * `j` of `R` have been written back into `A`: while both runs have
   * elements left, record the comparison of their heads, write the smaller
   * one (the left one on ties) at `left + i + j` and record the write.
   */
  function HeadsFrom(A: seq<int>, L: seq<int>, R: seq<int>, level: nat, left: nat, mid: nat, right: nat, i: nat, j: nat): (h: Heads)
    requires i <= |L| && j <= |R| && left + |L| + |R| <= |A|
    ensures |h.arr| == |A| && i <= h.i <= |L| && j <= h.j <= |R| && (h.i == |L| || h.j == |R|)
    ensures i < |L| || j < |R| ==> h.i < |L| || h.j < |R|
    decreases |L| + |R| - i - j
  {
    if i < |L| && j < |R| then
      var B := A[left + i + j := if L[i] <= R[j] then L[i] else R[j]];
      var h := HeadsFrom(B, L, R, level, left, mid, right, if L[i] <= R[j] then i + 1 else i, if L[i] <= R[j] then j else j + 1);
      Heads(h.arr, h.i, h.j, [CompareStep(A, level, left, mid, right, i, j), PlaceStep(B, level, left, mid, right, left + i + j)] + h.steps)
    else Heads(A, i, j, [])
  }

  /**
   * The two loops of `merge` that copy what is left: first the rest of `L`,
   * then the rest of `R`, each write at `left + i + j` recorded as
   * `merge_remaining`.
   */
  function RestFrom(A: seq<int>, L: seq<int>, R: seq<int>, level: nat, left: nat, i: nat, j: nat): (r: Run)
    requires i <= |L| && j <= |R| && left + |L| + |R| <= |A|
    ensures |r.arr| == |A| && |r.steps| == |L| + |R| - i - j
    decreases |L| + |R| - i - j
  {
    if i < |L| then
      var B := A[left + i + j := L[i]];
      var r := RestFrom(B, L, R, level, left, i + 1, j);
      Run(r.arr, [RemainStep(B, level, left + i + j)] + r.steps)
    else if j < |R| then
      var B := A[left + i + j := R[j]];
      var r := RestFrom(B, L, R, level, left, i, j + 1);
      Run(r.arr, [RemainStep(B, level, left + i + j)] + r.steps)
    else Run(A, [])
  }

  /**
   * `merge(left, mid, right, level)` on the array `A`: `merge_start`, the
   * main loop over copies of both halves, the remaining-element loops and
   * `merge_complete` over the whole range.
   */
  function MergeOf(A: seq<int>, level: nat, left: nat, mid: nat, right: nat): (r: Run)
    requires left <= mid < right < |A|
    ensures |r.arr| == |A|
  {
    var L, R := A[left..mid + 1], A[mid + 1..right + 1];
    var H := HeadsFrom(A, L, R, level, left, mid, right, 0, 0);
    var T := RestFrom(H.arr, L, R, level, left, H.i, H.j);
    Run(T.arr, [Marker(A, MergeStart(level, Range(left, mid), Range(mid + 1, right)))] + H.steps + T.steps
               + [Step(T.arr, [], [], Span(left, right - left + 1), Some(MergeComplete(level, Range(left, right))))])
  }

  /**
   * `mergeSortHelper(left, right, level)` on the array `A`: `base_case` for
   * one element; otherwise `divide`, then both halves and the merge.
   */
  function SortFrom(A: seq<int>, left: nat, right: nat, level: nat): (r: Run)
    requires left <= right < |A|
    ensures |r.arr| == |A|
    decreases right - left, 2
  {
    if left < right then
      var S := SplitFrom(A, left, Mid(Range(left, right)), right, level);
      Run(S.arr, [Entry(A, level, Range(left, right))] + S.steps)
    else Run(A, [Entry(A, level, Range(left, right))])
  }

  /** What a call on two or more elements does after its `divide`: sort each half one level down, then merge. */
  function SplitFrom(A: seq<int>, left: nat, mid: nat, right: nat, level: nat): (r: Run)
    requires left <= mid < right < |A|
    ensures |r.arr| == |A|
    decreases right - left, 1
  {
    var Lh := HalfFrom(A, left, mid, level + 1, true);
    var Rh := HalfFrom(Lh.arr, mid + 1, right, level + 1, false);
    var M := MergeOf(Rh.arr, level, left, mid, right);
    Run(M.arr, Lh.steps + Rh.steps + M.steps)
  }

  /** One half: its `recurse_left` or `recurse_right` announcement, then the call on it. */
  function HalfFrom(A: seq<int>, lo: nat, hi: nat, level: nat, left: bool): (r: Run)
    requires lo <= hi < |A|
    ensures |r.arr| == |A|
    decreases hi - lo, 3
  {
    var S := SortFrom(A, lo, hi, level);
    Run(S.arr, [Announce(A, level, Range(lo, hi), left)] + S.steps)
  }

  /** The whole trace `mergeSort(input)` returns: the top call, then `complete`. */
  function MergeRun(input: seq<int>): (r: seq<Step>)
    requires |input| >= 1
    ensures r != [] && Last(r).sorted == Upto(|input|)
  {
    var S := SortFrom(input, 0, |input| - 1, 0);
    S.steps + [Step(S.arr, [], [], Upto(|input|), Some(Complete(0)))]
  }

  function HeadsAfter(before: seq<Step>, h: Heads): Heads
  {
    Heads(h.arr, h.i, h.j, before + h.steps)
  }

  function RestAfter(before: seq<Step>, r: Run): Run
  {
    Run(r.arr, before + r.steps)
  }

  /** One round of the main loop, as `HeadsFrom` unfolds it. */
  lemma HeadsNext(A: seq<int>, L: seq<int>, R: seq<int>, level: nat, left: nat, mid: nat, right: nat, i: nat, j: nat,
                  before: seq<Step>, steps: seq<Step>, B: seq<int>, i': nat, j': nat)
    requires i < |L| && j < |R| && left + |L| + |R| <= |A|
    requires B == A[left + i + j := if L[i] <= R[j] then L[i] else R[j]]
    requires i' == (if L[i] <= R[j] then i + 1 else i) && j' == (if L[i] <= R[j] then j else j + 1)
    requires steps == before + [CompareStep(A, level, left, mid, right, i, j), PlaceStep(B, level, left, mid, right, left + i + j)]
    ensures HeadsAfter(steps, HeadsFrom(B, L, R, level, left, mid, right, i', j')) == HeadsAfter(before, HeadsFrom(A, L, R, level, left, mid, right, i, j))
  {
    var c, p := CompareStep(A, level, left, mid, right, i, j), PlaceStep(B, level, left, mid, right, left + i + j);
    HeadsUnfold(A, L, R, level, left, mid, right, i, j, B, i', j');
    Assoc(before, [c, p], HeadsFrom(B, L, R, level, left, mid, right, i', j').steps);
  }

  lemma HeadsUnfold(A: seq<int>, L: seq<int>, R: seq<int>, level: nat, left: nat, mid: nat, right: nat, i: nat, j: nat,
                    B: seq<int>, i': nat, j': nat)
    requires i < |L| && j < |R| && left + |L| + |R| <= |A|
    requires B == A[left + i + j := if L[i] <= R[j] then L[i] else R[j]]
    requires i' == (if L[i] <= R[j] then i + 1 else i) && j' == (if L[i] <= R[j] then j else j + 1)
    ensures
      var h := HeadsFrom(B, L, R, level, left, mid, right, i', j');
      HeadsFrom(A, L, R, level, left, mid, right, i, j)
      == Heads(h.arr, h.i, h.j, [CompareStep(A, level, left, mid, right, i, j), PlaceStep(B, level, left, mid, right, left + i + j)] + h.steps)
  {
  }

  /** One round of the remaining-element loops, as `RestFrom` unfolds it. */
  lemma RestStep(A: seq<int>, L: seq<int>, R: seq<int>, level: nat, left: nat, i: nat, j: nat,
                 before: seq<Step>, steps: seq<Step>, B: seq<int>, i': nat, j': nat)
    requires (i < |L| || j < |R|) && i <= |L| && j <= |R| && left + |L| + |R| <= |A|
    requires B == A[left + i + j := if i < |L| then L[i] else R[j]]
    requires i' == (if i < |L| then i + 1 else i) && j' == (if i < |L| then j else j + 1)
    requires steps == before + [RemainStep(B, level, left + i + j)]
    ensures RestAfter(steps, RestFrom(B, L, R, level, left, i', j')) == RestAfter(before, RestFrom(A, L, R, level, left, i, j))
  {
    RestUnfold(A, L, R, level, left, i, j, B, i', j');
    Assoc(before, [RemainStep(B, level, left + i + j)], RestFrom(B, L, R, level, left, i', j').steps);
  }

  lemma RestUnfold(A: seq<int>, L: seq<int>, R: seq<int>, level: nat, left: nat, i: nat, j: nat, B: seq<int>, i': nat, j': nat)
    requires (i < |L| || j < |R|) && i <= |L| && j <= |R| && left + |L| + |R| <= |A|
    requires B == A[left + i + j := if i < |L| then L[i] else R[j]]
    requires i' == (if i < |L| then i + 1 else i) && j' == (if i < |L| then j else j + 1)
    ensures
      var r := RestFrom(B, L, R, level, left, i', j');
      RestFrom(A, L, R, level, left, i, j) == Run(r.arr, [RemainStep(B, level, left + i + j)] + r.steps)
  {
  }

  /** The comparison and the write that follows it are valid steps, one after the other. */
  lemma CompareSteps(prev: Step, A: seq<int>, B: seq<int>, input: seq<int>, level: nat, left: nat, mid: nat, right: nat, i: nat, j: nat)
    requires |A| == |B| == |input| && left + i <= mid < mid + 1 + j <= right < |A|
    requires left + i + j <= right && B == A[left + i + j := B[left + i + j]]
    requires InMerge(prev)
    ensures
      var compare := CompareStep(A, level, left, mid, right, i, j);
      var place := PlaceStep(B, level, left, mid, right, left + i + j);
      StepOk(compare, input) && PairOk(prev, compare) && StepOk(place, input) && PairOk(compare, place)
  {
  }

  /** Recording one round of the main merge loop: the comparison of the heads, then the write. */
  lemma PushCompare(t: seq<Step>, A: seq<int>, B: seq<int>, input: seq<int>, level: nat, left: nat, mid: nat, right: nat,
                    i: nat, j: nat, w: seq<nat>, next: nat)
    requires Trail(t, A, input, left, i + j, w) && next == i + j + 1
    requires |A| == |B| == |input| && left + i <= mid < mid + 1 + j <= right < |A|
    requires left + i + j <= right && B == A[left + i + j := B[left + i + j]]
    ensures
      var compare := CompareStep(A, level, left, mid, right, i, j);
      var place := PlaceStep(B, level, left, mid, right, left + i + j);
      Trail(t + [compare, place], B, input, left, next, w)
  {
    var compare := CompareStep(A, level, left, mid, right, i, j);
    var place := PlaceStep(B, level, left, mid, right, left + i + j);
    CompareSteps(Last(t), A, B, input, level, left, mid, right, i, j);
    Append(t, A, compare, input);
    Append(t + [compare], A, place, input);
    assert t + [compare, place] == t + [compare] + [place];
    WritesAppend(t, compare);
    WritesAppend(t + [compare], place);
    assert Span(left, i + j) + [left + i + j] == Span(left, next);
  }

  /** Recording one round of a remaining-elements loop: the write of position `k`. */
  lemma PushRest(t: seq<Step>, A: seq<int>, B: seq<int>, input: seq<int>, level: nat, left: nat, k: nat,
                 w: seq<nat>, written: nat, next: nat)
    requires k == left + written && next == written + 1 && Trail(t, A, input, left, written, w)
    requires |A| == |B| == |input| && k < |A| && B == A[k := B[k]]
    ensures Trail(t + [RemainStep(B, level, k)], B, input, left, next, w)
  {
    var step := RemainStep(B, level, k);
    Append(t, A, step, input);
    WritesAppend(t, step);
    assert Span(left, written) + [k] == Span(left, next);
  }

  /** Rearranging `[lo, hi]` and keeping everything else rearranges the whole array. */
  lemma Embedded(A: seq<int>, orig: seq<int>, lo: nat, hi: nat)
    requires |A| == |orig| && lo <= hi < |A|
    requires forall x :: 0 <= x < |A| && !(lo <= x <= hi) ==> A[x] == orig[x]
    requires multiset(A[lo..hi + 1]) == multiset(orig[lo..hi + 1])
    ensures multiset(A) == multiset(orig)
  {
    assert A == A[..lo] + A[lo..hi + 1] + A[hi + 1..];
    assert orig == orig[..lo] + orig[lo..hi + 1] + orig[hi + 1..];
    assert A[..lo] == orig[..lo];
    assert A[hi + 1..] == orig[hi + 1..];
  }

  /** After the last write, `[left, right]` holds the merge of the two runs. */
  lemma Merged(A: seq<int>, orig: seq<int>, L: seq<int>, R: seq<int>, left: nat, mid: nat, right: nat)
    requires Progress(A, orig, L, R, left, mid, right, |L|, |R|)
    ensures A[left..right + 1] == MergeRuns(L, R)
  {
    assert L[|L|..] == [] && R[|R|..] == [];
  }

  /** The merge rearranges the range it writes, so the whole array stays a rearrangement. */
  lemma MergedPermutes(A: seq<int>, orig: seq<int>, left: nat, mid: nat, right: nat)
    requires |A| == |orig| && left <= mid < right < |A|
    requires forall x :: 0 <= x < |A| && !(left <= x <= right) ==> A[x] == orig[x]
    requires A[left..right + 1] == MergeRuns(orig[left..mid + 1], orig[mid + 1..right + 1])
    ensures multiset(A) == multiset(orig)
  {
    var L, R := orig[left..mid + 1], orig[mid + 1..right + 1];
    MergePermutes(L, R);
    assert L + R == orig[left..right + 1];
    assert multiset(A[left..right + 1]) == multiset(L) + multiset(R) == multiset(L + R);
    Embedded(A, orig, left, right);
  }

  /** Merging the two sorted halves of a range leaves the range sorted. */
  lemma MergedSorted(A: seq<int>, orig: seq<int>, left: nat, mid: nat, right: nat)
    requires |A| == |orig| && left <= mid < right < |A|
    requires SortedRange(orig, left, mid) && SortedRange(orig, mid + 1, right)
    requires A[left..right + 1] == MergeRuns(orig[left..mid + 1], orig[mid + 1..right + 1])
    ensures SortedRange(A, left, right)
  {
    var L, R := orig[left..mid + 1], orig[mid + 1..right + 1];
    assert Sorted(L) by {
      forall x, y | 0 <= x < y < |L| ensures L[x] <= L[y] { assert L[x] == orig[left + x] && L[y] == orig[left + y]; }
    }
    assert Sorted(R) by {
      forall x, y | 0 <= x < y < |R| ensures R[x] <= R[y] { assert R[x] == orig[mid + 1 + x] && R[y] == orig[mid + 1 + y]; }
    }
    MergeSorted(L, R);
    forall x, y | left <= x < y <= right
      ensures A[x] <= A[y]
    {
      assert A[x] == A[left..right + 1][x - left] && A[y] == A[left..right + 1][y - left];
    }
  }

  /** Recording `merge_complete` once every position of the range has been written. */
  lemma CompleteMerge(t: seq<Step>, A: seq<int>, input: seq<int>, level: nat, left: nat, right: nat, w: seq<nat>)
    requires left < right < |A| == |input| && Trail(t, A, input, left, right - left + 1, w)
    requires Last(t).info == Some(MergeRemaining(level))
    requires multiset(A) == multiset(input) && SortedRange(A, left, right)
    ensures
      var complete := Step(A, [], [], Span(left, right - left + 1), Some(MergeComplete(level, Range(left, right))));
      Traced(t + [complete], A, input) && Writes(t + [complete]) == w + Span(left, right - left + 1)
  {
    var complete := Step(A, [], [], Span(left, right - left + 1), Some(MergeComplete(level, Range(left, right))));
    Append(t, A, complete, input);
    WritesAppend(t, complete);
  }

  /** The merge's state right after `merge_start`: nothing written yet. */
  lemma Begin(t: seq<Step>, A: seq<int>, input: seq<int>, level: nat, left: nat, mid: nat, right: nat)
    requires Traced(t, A, input) && t != [] && Settled(Last(t))
    requires |A| == |input| && multiset(A) == multiset(input) && left <= mid < right < |A|
    requires SortedRange(A, left, mid) && SortedRange(A, mid + 1, right)
    ensures Progress(A, A, A[left..mid + 1], A[mid + 1..right + 1], left, mid, right, 0, 0)
    ensures Trail(t + [Marker(A, MergeStart(level, Range(left, mid), Range(mid + 1, right)))], A, input, left, 0, Writes(t))
  {
    StartMerge(t, A, input, level, left, mid, right);
    StartProgress(A, left, mid, right);
  }

  /** The merge's result once both runs are used up, and its `merge_complete` step. */
  lemma Finish(t: seq<Step>, A: seq<int>, orig: seq<int>, L: seq<int>, R: seq<int>, input: seq<int>,
               level: nat, left: nat, mid: nat, right: nat, w: seq<nat>)
    requires |A| == |input| && multiset(orig) == multiset(input)
    requires SortedRange(orig, left, mid) && SortedRange(orig, mid + 1, right)
    requires Progress(A, orig, L, R, left, mid, right, |L|, |R|) && Trail(t, A, input, left, |L| + |R|, w)
    requires Last(t).info == Some(MergeRemaining(level))
    ensures A[left..right + 1] == MergeRuns(L, R)
    ensures multiset(A) == multiset(input) && SortedRange(A, left, right)
    ensures
      var complete := Step(A, [], [], Span(left, right - left + 1), Some(MergeComplete(level, Range(left, right))));
      Traced(t + [complete], A, input) && Writes(t + [complete]) == w + Span(left, right - left + 1)
  {
    Merged(A, orig, L, R, left, mid, right);
    MergedPermutes(A, orig, left, mid, right);
    MergedSorted(A, orig, left, mid, right);
    CompleteMerge(t, A, input, level, left, right, w);
  }

  /** A merge in progress: `i` elements of `L` and `j` of `R` written back, and the trace `T` so far. */
  ghost predicate Merging(T: seq<Step>, a: seq<int>, orig: seq<int>, L: seq<int>, R: seq<int>, input: seq<int>,
                          left: nat, mid: nat, right: nat, i: nat, j: nat, w: seq<nat>)
  {
    // One name for the whole conjunction, so that a caller hands it on as one fact.
    var merging := |a| == |input| && Progress(a, orig, L, R, left, mid, right, i, j) && Trail(T, a, input, left, i + j, w);
    merging
  }

  /**
   * The main loop of `merge` from `i`, `j` on leaves a valid trace that
   * stays inside the merge, writes `left + i + j, left + i + j + 1, ...` in
   * order and keeps the merge on track.
   */
  lemma {:induction false} HeadsOk(t: seq<Step>, A: seq<int>, orig: seq<int>, L: seq<int>, R: seq<int>, input: seq<int>,
                                   level: nat, left: nat, mid: nat, right: nat, i: nat, j: nat, w: seq<nat>)
    requires Merging(t, A, orig, L, R, input, left, mid, right, i, j, w)
    ensures
      var H := HeadsFrom(A, L, R, level, left, mid, right, i, j);
      Merging(t + H.steps, H.arr, orig, L, R, input, left, mid, right, H.i, H.j, w)
    decreases |L| + |R| - i - j
  {
    if i < |L| && j < |R| {
      var v := if L[i] <= R[j] then L[i] else R[j];
      var i', j' := if L[i] <= R[j] then i + 1 else i, if L[i] <= R[j] then j else j + 1;
      var B := A[left + i + j := v];
      HeadNext(L, R, i, j, v, i', j');
      Written(A, orig, L, R, left, mid, right, i, j, i', j', v, B);
      PushCompare(t, A, B, input, level, left, mid, right, i, j, w, i' + j');
      var c, p := CompareStep(A, level, left, mid, right, i, j), PlaceStep(B, level, left, mid, right, left + i + j);
      HeadsOk(t + [c, p], B, orig, L, R, input, level, left, mid, right, i', j', w);
      HeadsNext(A, L, R, level, left, mid, right, i, j, t, t + [c, p], B, i', j');
    } else {
      assert t + [] == t;
    }
  }

  /**
   * The remaining-element loops from `i`, `j` on (one run already used up)
   * write the rest of the merge, each write recorded as `merge_remaining`.
   */
  lemma {:induction false} RestOk(t: seq<Step>, A: seq<int>, orig: seq<int>, L: seq<int>, R: seq<int>, input: seq<int>,
                                  level: nat, left: nat, mid: nat, right: nat, i: nat, j: nat, w: seq<nat>)
    requires Merging(t, A, orig, L, R, input, left, mid, right, i, j, w) && (i < |L| ==> j == |R|)
    ensures
      var T := RestFrom(A, L, R, level, left, i, j);
      && Merging(t + T.steps, T.arr, orig, L, R, input, left, mid, right, |L|, |R|, w)
      && (T.steps != [] ==> Last(t + T.steps).info == Some(MergeRemaining(level)))
    decreases |L| + |R| - i - j
  {
    if i < |L| || j < |R| {
      var v := if i < |L| then L[i] else R[j];
      var i', j' := if i < |L| then i + 1 else i, if i < |L| then j else j + 1;
      var B := A[left + i + j := v];
      var step := RemainStep(B, level, left + i + j);
      RestRound(t, A, orig, L, R, input, level, left, mid, right, i, j, w, v, B, i', j');
      RestOk(t + [step], B, orig, L, R, input, level, left, mid, right, i', j', w);
      var r := RestFrom(B, L, R, level, left, i', j');
      RestStep(A, L, R, level, left, i, j, t, t + [step], B, i', j');
      if r.steps == [] {
        assert t + [step] + r.steps == t + [step];
      }
    } else {
      assert t + [] == t;
    }
  }

  /** One write of the remaining-element loops keeps the merge on track. */
  lemma RestRound(t: seq<Step>, A: seq<int>, orig: seq<int>, L: seq<int>, R: seq<int>, input: seq<int>,
                  level: nat, left: nat, mid: nat, right: nat, i: nat, j: nat, w: seq<nat>,
                  v: int, B: seq<int>, i': nat, j': nat)
    requires Merging(t, A, orig, L, R, input, left, mid, right, i, j, w) && (i < |L| ==> j == |R|) && (i < |L| || j < |R|)
    requires if i < |L| then v == L[i] && i' == i + 1 && j' == j else v == R[j] && i' == i && j' == j + 1
    requires B == A[left + i + j := v]
    ensures Merging(t + [RemainStep(B, level, left + i + j)], B, orig, L, R, input, left, mid, right, i', j', w)
  {
    RestNext(L, R, i, j, v, i', j');
    RestWrite(t, A, orig, L, R, input, level, left, mid, right, i, j, w, v, B, i', j');
  }

  /** A write of `v`, the next element of the merge, at the next position keeps the merge on track. */
  lemma RestWrite(t: seq<Step>, A: seq<int>, orig: seq<int>, L: seq<int>, R: seq<int>, input: seq<int>,
                  level: nat, left: nat, mid: nat, right: nat, i: nat, j: nat, w: seq<nat>,
                  v: int, B: seq<int>, i': nat, j': nat)
    requires Merging(t, A, orig, L, R, input, left, mid, right, i, j, w)
    requires i' + j' == i + j + 1 && i <= i' <= |L| && j <= j' <= |R|
    requires MergeRuns(L[i..], R[j..]) == [v] + MergeRuns(L[i'..], R[j'..])
    requires B == A[left + i + j := v]
    ensures Merging(t + [RemainStep(B, level, left + i + j)], B, orig, L, R, input, left, mid, right, i', j', w)
  {
    Written(A, orig, L, R, left, mid, right, i, j, i', j', v, B);
    PushRest(t, A, B, input, level, left, left + i + j, w, i + j, i' + j');
  }

  /** The whole array after `MergeOf`: what changed from `A`, and that it is still a rearrangement of the input. */
  ghost predicate MergedInto(M: seq<int>, A: seq<int>, input: seq<int>, left: nat, mid: nat, right: nat)
    requires left <= mid < right < |A|
  {
    // One name for the whole conjunction, so that a caller hands it on as one fact.
    var merged :=
      && |M| == |A| && M[left..right + 1] == MergeRuns(A[left..mid + 1], A[mid + 1..right + 1])
      && (forall x :: 0 <= x < |A| && !(left <= x <= right) ==> M[x] == A[x])
      && multiset(M) == multiset(input) && SortedRange(M, left, right);
    merged
  }

  /**
   * `merge` on two sorted halves: `[left, right]` becomes the stable merge
   * of the halves and is sorted, nothing else moves, and the steps it
   * records extend a valid trace, write each position of the range once,
   * in order, and end with `merge_complete` over the range.
   */
  lemma MergeOk(t: seq<Step>, A: seq<int>, input: seq<int>, level: nat, left: nat, mid: nat, right: nat)
    requires |A| == |input| && multiset(A) == multiset(input) && left <= mid < right < |A|
    requires SortedRange(A, left, mid) && SortedRange(A, mid + 1, right)
    requires Traced(t, A, input) && t != [] && Settled(Last(t))
    ensures MergedInto(MergeOf(A, level, left, mid, right).arr, A, input, left, mid, right)
    ensures
      var M := MergeOf(A, level, left, mid, right);
      && Traced(t + M.steps, M.arr, input) && Writes(t + M.steps) == Writes(t) + Span(left, right - left + 1)
      && Last(t + M.steps) == Step(M.arr, [], [], Span(left, right - left + 1), Some(MergeComplete(level, Range(left, right))))
  {
    var L, R := A[left..mid + 1], A[mid + 1..right + 1];
    var w := Writes(t);
    Begin(t, A, input, level, left, mid, right);
    var t1 := t + [Marker(A, MergeStart(level, Range(left, mid), Range(mid + 1, right)))];
    assert Merging(t1, A, A, L, R, input, left, mid, right, 0, 0, w);
    HeadsOk(t1, A, A, L, R, input, level, left, mid, right, 0, 0, w);
    var H := HeadsFrom(A, L, R, level, left, mid, right, 0, 0);
    RestOk(t1 + H.steps, H.arr, A, L, R, input, level, left, mid, right, H.i, H.j, w);
    var T := RestFrom(H.arr, L, R, level, left, H.i, H.j);
    assert T.steps != [];
    Finish(t1 + H.steps + T.steps, T.arr, A, L, R, input, level, left, mid, right, w);
    MergeForm(t, A, level, left, mid, right, H, T);
  }

  /** `MergeOf` in terms of its main loop `H` and its remaining-element loops `T`, after the steps `t`. */
  lemma MergeForm(t: seq<Step>, A: seq<int>, level: nat, left: nat, mid: nat, right: nat, H: Heads, T: Run)
    requires left <= mid < right < |A|
    requires H == HeadsFrom(A, A[left..mid + 1], A[mid + 1..right + 1], level, left, mid, right, 0, 0)
    requires T == RestFrom(H.arr, A[left..mid + 1], A[mid + 1..right + 1], level, left, H.i, H.j)
    ensures MergeOf(A, level, left, mid, right).arr == T.arr
    ensures t + MergeOf(A, level, left, mid, right).steps
            == t + [Marker(A, MergeStart(level, Range(left, mid), Range(mid + 1, right)))] + H.steps + T.steps
               + [Step(T.arr, [], [], Span(left, right - left + 1), Some(MergeComplete(level, Range(left, right))))]
  {
    var a, b, c := [Marker(A, MergeStart(level, Range(left, mid), Range(mid + 1, right)))], H.steps, T.steps;
    var d := [Step(T.arr, [], [], Span(left, right - left + 1), Some(MergeComplete(level, Range(left, right))))];
    Assoc(t, a + b + c, d);
    Assoc(t, a + b, c);
    Assoc(t, a, b);
  }

  /** Recording the first step of a call on `r`: `divide` or `base_case`. */
  lemma PushEntry(t: seq<Step>, A: seq<int>, input: seq<int>, level: nat, r: Range)
    requires |A| == |input| && multiset(A) == multiset(input) && r.lo <= r.hi < |A|
    requires Traced(t, A, input) && (t != [] ==> PairOk(Last(t), Entry(A, level, r)))
    ensures Traced(t + [Entry(A, level, r)], A, input)
  {
    Append(t, A, Entry(A, level, r), input);
  }

  /** The `recurse_left` or `recurse_right` step announcing a call at `level` on `r`. */
  function Announce(A: seq<int>, level: nat, r: Range, left: bool): (s: Step)
    ensures s.arr == A && NoIndices(s) && s.info.Some? && s.info.value.level == level
    ensures (s.info.value.RecurseLeft? <==> left) && (s.info.value.RecurseLeft? || s.info.value.RecurseRight?) && s.info.value.range == r
  {
    Marker(A, if left then RecurseLeft(level, r) else RecurseRight(level, r))
  }

  /**
   * A step after which a call at `level` on `[lo, hi]` may be announced: the
   * left half right after its parent's `divide`, the right half after the
   * left half's call has finished.
   */
  ghost predicate CanAnnounce(prev: Step, level: nat, lo: nat, hi: nat, left: bool)
  {
    if left then
      && prev.info.Some? && prev.info.value.Divide? && level == prev.info.value.level + 1
      && prev.info.value.range.lo <= prev.info.value.range.hi
      && Range(lo, hi) == HalvesOf(prev.info.value.range).leftRange
    else Settled(prev)
  }

  /** Recording a call announcement, which the call's first step may follow. */
  lemma PushAnnounce(t: seq<Step>, A: seq<int>, input: seq<int>, level: nat, lo: nat, hi: nat, left: bool)
    requires |A| == |input| && multiset(A) == multiset(input) && lo <= hi < |A| && level >= 1
    requires Traced(t, A, input) && t != [] && CanAnnounce(Last(t), level, lo, hi, left)
    ensures Traced(t + [Announce(A, level, Range(lo, hi), left)], A, input)
    ensures PairOk(Announce(A, level, Range(lo, hi), left), Entry(A, level, Range(lo, hi)))
  {
    Append(t, A, Announce(A, level, Range(lo, hi), left), input);
  }

  /** Sorting the right half leaves the sorted left half as it was. */
  lemma HalvesSorted(b: seq<int>, c: seq<int>, left: nat, mid: nat, right: nat)
    requires |b| == |c| && left <= mid < right < |b|
    requires SortedRange(b, left, mid) && SortedRange(c, mid + 1, right)
    requires forall x :: 0 <= x < |b| && !(mid + 1 <= x <= right) ==> c[x] == b[x]
    ensures SortedRange(c, left, mid) && SortedRange(c, mid + 1, right)
  {
    forall x, y | left <= x < y <= mid
      ensures c[x] <= c[y]
    {
      assert c[x] == b[x] && c[y] == b[y];
    }
  }

  /** Changes confined to the two halves and then to the whole range leave everything outside it unmoved. */
  lemma Confined(A0: seq<int>, A1: seq<int>, A2: seq<int>, A3: seq<int>, left: nat, mid: nat, right: nat)
    requires |A0| == |A1| == |A2| == |A3| && left <= mid < right
    requires forall x :: 0 <= x < |A0| && !(left <= x <= mid) ==> A1[x] == A0[x]
    requires forall x :: 0 <= x < |A0| && !(mid + 1 <= x <= right) ==> A2[x] == A1[x]
    requires forall x :: 0 <= x < |A0| && !(left <= x <= right) ==> A3[x] == A2[x]
    ensures forall x :: 0 <= x < |A0| && !(left <= x <= right) ==> A3[x] == A0[x]
  {
  }

  /**
   * A finished call on `[lo, hi]` that started from `A`: the array is still
   * a rearrangement of the input with `[lo, hi]` sorted and everything else
   * where it was, and the trace so far is valid and ends with a step after
   * which a merge may start or the next call may be announced.
   */
  ghost predicate Sorts(T: seq<Step>, a: seq<int>, A: seq<int>, input: seq<int>, lo: nat, hi: nat)
  {
    // One name for the whole conjunction, so that a caller hands it on as one fact.
    var sorts :=
      && |a| == |A| && multiset(a) == multiset(input) && SortedRange(a, lo, hi)
      && (forall x :: 0 <= x < |a| && !(lo <= x <= hi) ==> a[x] == A[x])
      && Traced(T, a, input) && T != [] && Settled(Last(T));
    sorts
  }

  /** A call of `mergeSortHelper` on `[left, right]` sorts it, leaving a valid trace. */
  lemma {:induction false} SortOk(t: seq<Step>, A: seq<int>, input: seq<int>, left: nat, right: nat, level: nat)
    requires |A| == |input| && left <= right < |A| && multiset(A) == multiset(input)
    requires Traced(t, A, input) && (t != [] ==> PairOk(Last(t), Entry(A, level, Range(left, right))))
    ensures Sorts(t + SortFrom(A, left, right, level).steps, SortFrom(A, left, right, level).arr, A, input, left, right)
    decreases right - left, 3
  {
    var entry := Entry(A, level, Range(left, right));
    PushEntry(t, A, input, level, Range(left, right));
    if left < right {
      var mid := Mid(Range(left, right));
      SplitOk(t + [entry], A, input, left, mid, right, level);
      Assoc(t, [entry], SplitFrom(A, left, mid, right, level).steps);
    }
  }

  /** The state right after a call on `[left, right]` has recorded its `divide`. */
  ghost predicate Divided(t: seq<Step>, A: seq<int>, input: seq<int>, left: nat, mid: nat, right: nat, level: nat)
  {
    // One name for the whole conjunction, so that a caller hands it on as one fact.
    var divided :=
      && |A| == |input| && left <= mid < right < |A| && mid == Mid(Range(left, right))
      && multiset(A) == multiset(input) && Traced(t, A, input)
      && t != [] && Last(t) == Entry(A, level, Range(left, right));
    divided
  }

  /** Sorting both halves of `[left, right]` and merging them sorts the range, leaving a valid trace. */
  lemma {:induction false} SplitOk(t: seq<Step>, A: seq<int>, input: seq<int>, left: nat, mid: nat, right: nat, level: nat)
    requires Divided(t, A, input, left, mid, right, level)
    ensures Sorts(t + SplitFrom(A, left, mid, right, level).steps, SplitFrom(A, left, mid, right, level).arr, A, input, left, right)
    decreases right - left, 2
  {
    var Lh := HalfFrom(A, left, mid, level + 1, true);
    var Rh := HalfFrom(Lh.arr, mid + 1, right, level + 1, false);
    BothHalves(t, A, input, left, mid, right, level);
    Joined(t + Lh.steps + Rh.steps, Rh.arr, A, input, level, left, mid, right);
    SplitForm(t, A, left, mid, right, level);
  }

  /**
   * Both halves of `[left, right]` sorted by calls that started from `A`:
   * the state in which `merge` may start.
   */
  ghost predicate Halved(T: seq<Step>, a: seq<int>, A: seq<int>, input: seq<int>, left: nat, mid: nat, right: nat)
  {
    // One name for the whole conjunction, so that a caller hands it on as one fact.
    var halved :=
      && |a| == |A| == |input| && left <= mid < right < |a| && multiset(a) == multiset(input)
      && SortedRange(a, left, mid) && SortedRange(a, mid + 1, right)
      && (forall x :: 0 <= x < |a| && !(left <= x <= right) ==> a[x] == A[x])
      && Traced(T, a, input) && T != [] && Settled(Last(T));
    halved
  }

  /** The two announced calls on the halves of `[left, right]`, one after the other. */
  lemma {:induction false} BothHalves(t: seq<Step>, A: seq<int>, input: seq<int>, left: nat, mid: nat, right: nat, level: nat)
    requires Divided(t, A, input, left, mid, right, level)
    ensures
      var Lh := HalfFrom(A, left, mid, level + 1, true);
      var Rh := HalfFrom(Lh.arr, mid + 1, right, level + 1, false);
      Halved(t + Lh.steps + Rh.steps, Rh.arr, A, input, left, mid, right)
    decreases right - left, 1
  {
    var Lh := HalfFrom(A, left, mid, level + 1, true);
    LeftReady(t, A, input, left, mid, right, level);
    HalfOk(t, A, input, left, mid, level + 1, true);
    RightHalf(t + Lh.steps, Lh.arr, A, input, left, mid, right, level + 1);
  }

  /** The announced call on the right half, once the left half is sorted. */
  lemma {:induction false} RightHalf(T: seq<Step>, a: seq<int>, A: seq<int>, input: seq<int>, left: nat, mid: nat, right: nat, level: nat)
    requires left <= mid < right < |a| && level >= 1 && |A| == |input| && Sorts(T, a, A, input, left, mid)
    ensures
      var Rh := HalfFrom(a, mid + 1, right, level, false);
      Halved(T + Rh.steps, Rh.arr, A, input, left, mid, right)
    decreases right - left, 0
  {
    var Rh := HalfFrom(a, mid + 1, right, level, false);
    RightReady(T, a, A, input, left, mid, right, level);
    HalfOk(T, a, input, mid + 1, right, level, false);
    HalvedOf(T, a, T + Rh.steps, Rh.arr, A, input, left, mid, right);
  }

  /** Right after `divide`, the call on the left half may be announced. */
  lemma LeftReady(t: seq<Step>, A: seq<int>, input: seq<int>, left: nat, mid: nat, right: nat, level: nat)
    requires Divided(t, A, input, left, mid, right, level)
    ensures Announceable(t, A, input, left, mid, level + 1, true)
  {
  }

  /** Once the left half is sorted, the call on the right half may be announced. */
  lemma RightReady(T: seq<Step>, a: seq<int>, A: seq<int>, input: seq<int>, left: nat, mid: nat, right: nat, level: nat)
    requires mid < right < |a| && level >= 1 && |A| == |input| && Sorts(T, a, A, input, left, mid)
    ensures Announceable(T, a, input, mid + 1, right, level, false)
  {
  }

  /** The left half sorted from `A`, then the right half sorted from there. */
  lemma HalvedOf(T1: seq<Step>, a1: seq<int>, T2: seq<Step>, a2: seq<int>, A: seq<int>, input: seq<int>, left: nat, mid: nat, right: nat)
    requires left <= mid < right < |A| == |input|
    requires Sorts(T1, a1, A, input, left, mid) && Sorts(T2, a2, a1, input, mid + 1, right)
    ensures Halved(T2, a2, A, input, left, mid, right)
  {
    HalvesSorted(a1, a2, left, mid, right);
  }

  /** Merging two sorted halves finishes the call on `[left, right]`. */
  lemma Joined(T: seq<Step>, a: seq<int>, A: seq<int>, input: seq<int>, level: nat, left: nat, mid: nat, right: nat)
    requires Halved(T, a, A, input, left, mid, right)
    ensures Sorts(T + MergeOf(a, level, left, mid, right).steps, MergeOf(a, level, left, mid, right).arr, A, input, left, right)
  {
    MergeOk(T, a, input, level, left, mid, right);
  }

  /** `SplitFrom` as its two halves and the merge, after the steps `t`. */
  lemma SplitForm(t: seq<Step>, A: seq<int>, left: nat, mid: nat, right: nat, level: nat)
    requires left <= mid < right < |A|
    ensures
      var Lh := HalfFrom(A, left, mid, level + 1, true);
      var Rh := HalfFrom(Lh.arr, mid + 1, right, level + 1, false);
      var M := MergeOf(Rh.arr, level, left, mid, right);
      SplitFrom(A, left, mid, right, level).arr == M.arr
      && t + SplitFrom(A, left, mid, right, level).steps == t + Lh.steps + Rh.steps + M.steps
  {
    var Lh := HalfFrom(A, left, mid, level + 1, true);
    var Rh := HalfFrom(Lh.arr, mid + 1, right, level + 1, false);
    var M := MergeOf(Rh.arr, level, left, mid, right);
    Assoc(t, Lh.steps + Rh.steps, M.steps);
    Assoc(t, Lh.steps, Rh.steps);
  }

  /** The state in which a call at `level` on `[lo, hi]` may be announced. */
  ghost predicate Announceable(t: seq<Step>, A: seq<int>, input: seq<int>, lo: nat, hi: nat, level: nat, left: bool)
  {
    // One name for the whole conjunction, so that a caller hands it on as one fact.
    var ready :=
      && |A| == |input| && lo <= hi < |A| && level >= 1 && multiset(A) == multiset(input)
      && Traced(t, A, input) && t != [] && CanAnnounce(Last(t), level, lo, hi, left);
    ready
  }

  /** Announcing a call on one half and making it sorts that half, leaving a valid trace. */
  lemma {:induction false} HalfOk(t: seq<Step>, A: seq<int>, input: seq<int>, lo: nat, hi: nat, level: nat, left: bool)
    requires Announceable(t, A, input, lo, hi, level, left)
    ensures Sorts(t + HalfFrom(A, lo, hi, level, left).steps, HalfFrom(A, lo, hi, level, left).arr, A, input, lo, hi)
    decreases hi - lo, 4
  {
    var announce := Announce(A, level, Range(lo, hi), left);
    PushAnnounce(t, A, input, level, lo, hi, left);
    SortOk(t + [announce], A, input, lo, hi, level);
    Assoc(t, [announce], SortFrom(A, lo, hi, level).steps);
  }

  /**
   * The trace of `mergeSort` on a non-empty input is valid step by step and
   * pair by pair, and ends with `complete` over a sorted rearrangement of
   * the input.
   */
  lemma TraceOk(input: seq<int>, steps: seq<Step>)
    requires |input| >= 1 && steps == MergeRun(input)
    ensures EndsSorted(steps, input)
    ensures forall k :: 0 <= k < |steps| ==> StepOk(steps[k], input)
    ensures forall k :: 0 <= k < |steps| - 1 ==> PairOk(steps[k], steps[k + 1])
    ensures Last(steps).info == Some(Complete(0))
  {
    var S := SortFrom(input, 0, |input| - 1, 0);
    EmptyTraced(input, input);
    SortOk([], input, input, 0, |input| - 1, 0);
    assert [] + S.steps == S.steps;
    FinalOk(S.steps, S.arr, input);
  }

  /** Recording `complete` after the top call has sorted the whole array. */
  lemma FinalOk(T: seq<Step>, a: seq<int>, input: seq<int>)
    requires |input| >= 1 && Sorts(T, a, input, input, 0, |input| - 1)
    ensures
      var steps := T + [Step(a, [], [], Upto(|input|), Some(Complete(0)))];
      && EndsSorted(steps, input) && Last(steps).info == Some(Complete(0))
      && (forall k :: 0 <= k < |steps| ==> StepOk(steps[k], input))
      && (forall k :: 0 <= k < |steps| - 1 ==> PairOk(steps[k], steps[k + 1]))
  {
    var final := Step(a, [], [], Upto(|input|), Some(Complete(0)));
    assert Sorted(a);
    Append(T, a, final, input);
  }

  lemma EmptyTraced(a: seq<int>, input: seq<int>)
    ensures Traced([], a, input)
  {
  }

  /** The temporary copy of one run: the `to - from` elements starting at `from`. */
  method CopyOut(a: array<int>, from: nat, to: nat) returns (t: seq<int>)
    requires from <= to <= a.Length
    ensures t == a[from..to]
  {
    t := [];
    var i := from;
    while i < to
      invariant from <= i <= to && t == a[from..i]
    {
      t := t + [a[i]];
      i := i + 1;
    }
  }

  /**
   * One round of the main loop of `merge`: records the comparison of the
   * heads `L[i]` and `R[j]`, writes the smaller one (the left one on ties)
   * at `k = left + i + j`, records the write and advances past it.
   */
  method PlaceHead(a: array<int>, L: seq<int>, R: seq<int>, left: nat, mid: nat, right: nat, level: nat,
                   i: nat, j: nat, steps0: seq<Step>)
    returns (i': nat, j': nat, steps: seq<Step>)
    requires i < |L| && j < |R| && left + |L| + |R| <= a.Length
    modifies a
    ensures i' == (if L[i] <= R[j] then i + 1 else i) && j' == (if L[i] <= R[j] then j else j + 1)
    ensures a[..] == old(a[..])[left + i + j := if L[i] <= R[j] then L[i] else R[j]]
    ensures steps == steps0 + [CompareStep(old(a[..]), level, left, mid, right, i, j), PlaceStep(a[..], level, left, mid, right, left + i + j)]
  {
    var k := left + i + j;
    var compare := CompareStep(a[..], level, left, mid, right, i, j);
    if L[i] <= R[j] {
      a[k] := L[i];
      i', j' := i + 1, j;
    } else {
      a[k] := R[j];
      i', j' := i, j + 1;
    }
    steps := steps0 + [compare, PlaceStep(a[..], level, left, mid, right, k)];
  }

  /**
   * One round of the loops that copy what is left: writes the next element
   * of `L` (or, once `L` is used up, of `R`) at `k = left + i + j` and
   * records the write.
   */
  method PlaceRest(a: array<int>, L: seq<int>, R: seq<int>, left: nat, level: nat, i: nat, j: nat, steps0: seq<Step>)
    returns (i': nat, j': nat, steps: seq<Step>)
    requires (i < |L| || j < |R|) && i <= |L| && j <= |R| && left + |L| + |R| <= a.Length
    modifies a
    ensures i' == (if i < |L| then i + 1 else i) && j' == (if i < |L| then j else j + 1)
    ensures a[..] == old(a[..])[left + i + j := if i < |L| then L[i] else R[j]]
    ensures steps == steps0 + [RemainStep(a[..], level, left + i + j)]
  {
    var k := left + i + j;
    if i < |L| {
      a[k] := L[i];
      i', j' := i + 1, j;
    } else {
      a[k] := R[j];
      i', j' := i, j + 1;
    }
    steps := steps0 + [RemainStep(a[..], level, k)];
  }

  /**
   * The main loop of `merge`: while both runs have elements left, compare
   * their heads and write the smaller one back. Stops when one run is used up.
   */
  method MergeHeads(a: array<int>, L: seq<int>, R: seq<int>, left: nat, mid: nat, right: nat, level: nat, steps0: seq<Step>)
    returns (i: nat, j: nat, steps: seq<Step>)
    requires left + |L| + |R| <= a.Length
    modifies a
    ensures Heads(a[..], i, j, steps) == HeadsAfter(steps0, HeadsFrom(old(a[..]), L, R, level, left, mid, right, 0, 0))
  {
    i, j := 0, 0;
    steps := steps0;
    ghost var Goal := HeadsAfter(steps0, HeadsFrom(a[..], L, R, level, left, mid, right, 0, 0));
    while i < |L| && j < |R|
      decreases |L| + |R| - i - j
      invariant i <= |L| && j <= |R|
      invariant HeadsAfter(steps, HeadsFrom(a[..], L, R, level, left, mid, right, i, j)) == Goal
    {
      ghost var A, before, i0, j0 := a[..], steps, i, j;
      i, j, steps := PlaceHead(a, L, R, left, mid, right, level, i, j, steps);
      HeadsNext(A, L, R, level, left, mid, right, i0, j0, before, steps, a[..], i, j);
    }
    assert steps + [] == steps;
  }

  /**
   * The two loops of `merge` that copy what is left of `L`, then of `R`;
   * after the main loop at most one of them runs.
   */
  method CopyRest(a: array<int>, L: seq<int>, R: seq<int>, left: nat, level: nat, i0: nat, j0: nat, steps0: seq<Step>)
    returns (steps: seq<Step>)
    requires i0 <= |L| && j0 <= |R| && left + |L| + |R| <= a.Length
    modifies a
    ensures Run(a[..], steps) == RestAfter(steps0, RestFrom(old(a[..]), L, R, level, left, i0, j0))
  {
    var i, j := i0, j0;
    steps := steps0;
    ghost var Goal := RestAfter(steps0, RestFrom(a[..], L, R, level, left, i0, j0));
    while i < |L|
      invariant i0 <= i <= |L| && j == j0
      invariant RestAfter(steps, RestFrom(a[..], L, R, level, left, i, j)) == Goal
    {
      ghost var A, before, i1, j1 := a[..], steps, i, j;
      i, j, steps := PlaceRest(a, L, R, left, level, i, j, steps);
      RestStep(A, L, R, level, left, i1, j1, before, steps, a[..], i, j);
    }
    while j < |R|
      invariant i == |L| && j0 <= j <= |R|
      invariant RestAfter(steps, RestFrom(a[..], L, R, level, left, i, j)) == Goal
    {
      ghost var A, before, i1, j1 := a[..], steps, i, j;
      i, j, steps := PlaceRest(a, L, R, left, level, i, j, steps);
      RestStep(A, L, R, level, left, i1, j1, before, steps, a[..], i, j);
    }
    assert steps + [] == steps;
  }

  /**
   * `merge(left, mid, right, level)`: copies both halves out, records
   * `merge_start`, writes the smaller head back at `k = left, left + 1, ...`
   * (recording the comparison and the write), copies what is left of either
   * run, and records `merge_complete` for the range (see `MergeOk`).
   */
  method Merge(a: array<int>, left: nat, mid: nat, right: nat, level: nat, steps0: seq<Step>)
    returns (steps: seq<Step>)
    requires left <= mid < right < a.Length
    modifies a
    ensures a[..] == MergeOf(old(a[..]), level, left, mid, right).arr
    ensures steps == steps0 + MergeOf(old(a[..]), level, left, mid, right).steps
  {
    ghost var orig := a[..];
    var L := CopyOut(a, left, mid + 1);
    var R := CopyOut(a, mid + 1, right + 1);
    var start := Marker(a[..], MergeStart(level, Range(left, mid), Range(mid + 1, right)));
    steps := steps0 + [start];
    var i, j;
    i, j, steps := MergeHeads(a, L, R, left, mid, right, level, steps);
    ghost var H := HeadsFrom(orig, L, R, level, left, mid, right, 0, 0);
    steps := CopyRest(a, L, R, left, level, i, j, steps);
    ghost var T := RestFrom(H.arr, L, R, level, left, H.i, H.j);
    var complete := Step(a[..], [], [], Span(left, right - left + 1), Some(MergeComplete(level, Range(left, right))));
    steps := steps + [complete];
    MergeForm(steps0, orig, level, left, mid, right, H, T);
  }

  /**
   * `mergeSortHelper(left, right, level)`: a range of two or more elements
   * records `divide` and is split and merged (see `SplitMerge`); a single
   * element records `base_case`.
   */
  method MergeSortHelper(a: array<int>, left: nat, right: nat, level: nat, steps0: seq<Step>)
    returns (steps: seq<Step>)
    requires left <= right < a.Length
    modifies a
    decreases right - left, 1
    ensures a[..] == SortFrom(old(a[..]), left, right, level).arr
    ensures steps == steps0 + SortFrom(old(a[..]), left, right, level).steps
  {
    ghost var A := a[..];
    if left < right {
      var mid := (left + right) / 2;
      var divide := Marker(a[..], Divide(level, Range(left, right), Some(Halves(mid, Range(left, mid), Range(mid + 1, right)))));
      assert divide == Entry(a[..], level, Range(left, right));
      steps := SplitMerge(a, left, mid, right, level, steps0 + [divide]);
      Assoc(steps0, [divide], SplitFrom(A, left, mid, right, level).steps);
    } else {
      steps := steps0 + [Step(a[..], [], [], [left], Some(BaseCase(level, Range(left, right))))];
    }
  }

  /**
   * The recursive case of `mergeSortHelper`, after its `divide` step: sorts
   * `[left, mid]` and `[mid + 1, right]` one level down (each announced by
   * `recurse_left` / `recurse_right`) and merges them.
   */
  method SplitMerge(a: array<int>, left: nat, mid: nat, right: nat, level: nat, steps0: seq<Step>)
    returns (steps: seq<Step>)
    requires left <= mid < right < a.Length
    modifies a
    decreases right - left, 0
    ensures a[..] == SplitFrom(old(a[..]), left, mid, right, level).arr
    ensures steps == steps0 + SplitFrom(old(a[..]), left, mid, right, level).steps
  {
    ghost var A := a[..];
    steps := SortHalf(a, left, mid, level + 1, steps0, true);
    ghost var Lh := HalfFrom(A, left, mid, level + 1, true);
    steps := SortHalf(a, mid + 1, right, level + 1, steps, false);
    ghost var Rh := HalfFrom(Lh.arr, mid + 1, right, level + 1, false);
    steps := Merge(a, left, mid, right, level, steps);
    Assoc(steps0, Lh.steps + Rh.steps, MergeOf(Rh.arr, level, left, mid, right).steps);
    Assoc(steps0, Lh.steps, Rh.steps);
  }

  /**
   * Records the announcement of a call on one half (`recurse_left` when
   * `left`, else `recurse_right`) and makes that call.
   */
  method SortHalf(a: array<int>, lo: nat, hi: nat, level: nat, steps0: seq<Step>, left: bool)
    returns (steps: seq<Step>)
    requires lo <= hi < a.Length
    modifies a
    decreases hi - lo, 2
    ensures a[..] == HalfFrom(old(a[..]), lo, hi, level, left).arr
    ensures steps == steps0 + HalfFrom(old(a[..]), lo, hi, level, left).steps
  {
    ghost var A := a[..];
    var announce := Announce(a[..], level, Range(lo, hi), left);
    steps := MergeSortHelper(a, lo, hi, level, steps0 + [announce]);
    Assoc(steps0, [announce], SortFrom(A, lo, hi, level).steps);
  }

  /**
   * `mergeSort(array)`: sorts `[0, n - 1]` from level 0 and records the final
   * `complete` step marking every position sorted. The input must not be
   * empty (a call on an empty array would record `base_case` for index 0).
   */
  method MergeSort(input: seq<int>) returns (steps: seq<Step>)
    requires |input| >= 1
    ensures steps == MergeRun(input)
    ensures EndsSorted(steps, input)
    ensures forall k :: 0 <= k < |steps| ==> StepOk(steps[k], input)
    ensures forall k :: 0 <= k < |steps| - 1 ==> PairOk(steps[k], steps[k + 1])
    ensures Last(steps).info == Some(Complete(0))
  {
    var n := |input|;
    var a := new int[n](x requires 0 <= x < n => input[x]);
    assert a[..] == input;
    steps := SortAll(a);
    TraceOk(input, steps);
  }

  /** The top call of `mergeSort` on the whole array, then the step marking every index. */
  method SortAll(a: array<int>) returns (steps: seq<Step>)
    requires a.Length >= 1
    modifies a
    ensures steps == MergeRun(old(a[..]))
  {
    ghost var S := SortFrom(a[..], 0, a.Length - 1, 0);
    steps := MergeSortHelper(a, 0, a.Length - 1, 0, []);
    assert steps == S.steps by {
      assert [] + S.steps == S.steps;
    }
    steps := steps + [Step(a[..], [], [], Upto(a.Length), Some(Complete(0)))];
  }
}
