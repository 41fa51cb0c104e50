/**
 * Selection Sort trace generator: iteration `i` scans `i + 1 .. n - 1` for
 * the leftmost minimum (recording every comparison against the current
 * candidate), swaps it into position `i` when it is elsewhere, and marks the
 * prefix `[0, i + 1)` as sorted.
 */
module Selection {
  import opened Steps

  /** The first `m` positions hold the `m` smallest values in ascending order. */
  ghost predicate PrefixSettled(a: seq<int>, m: nat)
  {
    forall x, y :: 0 <= x < y < |a| && x < m ==> a[x] <= a[y]
  }

  /**
   * `a[k]` is the leftmost minimum of `a[lo..hi)`: no later element is
   * smaller and every earlier element is strictly larger, so ties keep the
   * earlier index.
   */
  ghost predicate LeftmostMin(a: seq<int>, lo: int, hi: int, k: int)
  {
    && 0 <= lo <= k < hi <= |a|
    && (forall x :: lo <= x < hi ==> a[k] <= a[x])
    && (forall x :: lo <= x < k ==> a[k] < a[x])
  }

  /**
   * A comparison step of iteration `i` (the step marks `[0, i)` sorted)
   * shows `[minIdx, j]`, where `minIdx` is the leftmost minimum of `a[i..j)`.
   */
  ghost predicate CompareOk(s: Step)
  {
    s.comparing != [] ==>
      var i, m := |s.sorted|, s.comparing[0];
      |s.comparing| == 2 && m < s.comparing[1] && LeftmostMin(s.arr, i, s.comparing[1], m)
  }

  /** What every single step of a Selection Sort trace satisfies. */
  ghost predicate StepOk(s: Step, input: seq<int>)
  {
    && WellFormed(s, |input|)
    && s.info == None
    && multiset(s.arr) == multiset(input)
    && s.sorted == Upto(|s.sorted|)
    && PrefixSettled(s.arr, |s.sorted|)
    && CompareOk(s)
  }

  /**
   * A swap step of iteration `i` follows the scan and exchanges `i` with the
   * leftmost minimum `m` of the rest, which is never `i` itself; a marker
   * that follows the scan directly means `a[i]` already was that minimum.
   */
  ghost predicate PairOk(prev: Step, s: Step)
  {
    && (s.swapping != [] ==>
          var i := |s.sorted|;
          && |s.swapping| == 2 && s.swapping[0] == i && i < s.swapping[1]
          && prev.comparing != [] && |prev.sorted| == i
          && LeftmostMin(prev.arr, i, |prev.arr|, s.swapping[1])
          && s.arr == Swapped(prev.arr, i, s.swapping[1]))
    && (s.comparing == [] && s.swapping == [] && prev.comparing != [] ==>
          var i := |prev.sorted|;
          && |s.sorted| == i + 1
          && LeftmostMin(prev.arr, i, |prev.arr|, i)
          && s.arr == prev.arr)
  }

  /** A partial trace whose last step shows the working array `a`. */
  ghost predicate Traced(steps: seq<Step>, a: seq<int>, input: seq<int>)
  {
    && (forall k :: 0 <= k < |steps| ==> StepOk(steps[k], input))
    && (forall k :: 0 <= k < |steps| - 1 ==> PairOk(steps[k], steps[k + 1]))
    && (steps != [] ==> steps[0].swapping == [] && Last(steps).arr == a)
  }

  lemma {:induction false} Append(steps: seq<Step>, a: seq<int>, x: Step, input: seq<int>)
    requires Traced(steps, a, input) && StepOk(x, input)
    requires steps == [] ==> x.swapping == []
    requires steps != [] ==> PairOk(Last(steps), x)
    ensures Traced(steps + [x], x.arr, input)
  {
    var t := steps + [x];
    forall k | 0 <= k < |t| - 1
      ensures PairOk(t[k], t[k + 1])
    {
      if k < |steps| - 1 {
        assert t[k] == steps[k] && t[k + 1] == steps[k + 1];
      }
    }
  }

  /** Moving the leftmost minimum of the unsettled part to its front extends the settled prefix. */
  lemma Place(a: seq<int>, b: seq<int>, i: nat, m: nat)
    requires PrefixSettled(a, i) && LeftmostMin(a, i, |a|, m) && b == Swapped(a, i, m)
    ensures PrefixSettled(b, i + 1)
  {
    forall x, y | 0 <= x < y < |b| && x < i + 1
      ensures b[x] <= b[y]
    {
      if x < i {
        assert b[x] == a[x];
        if y == i { assert b[y] == a[m]; }
        else if y == m { assert b[y] == a[i]; }
        else { assert b[y] == a[y]; }
      }
    }
  }

  /** The swap step that moves the leftmost minimum `m` of the scan into position `i`. */
  lemma SwapStep(prev: Step, i: nat, m: nat, input: seq<int>)
    requires StepOk(prev, input) && prev.comparing != [] && |prev.sorted| == i
    requires LeftmostMin(prev.arr, i, |prev.arr|, m) && i < m
    ensures StepOk(Plain(Swapped(prev.arr, i, m), [], [i, m], Upto(i)), input)
    ensures PairOk(prev, Plain(Swapped(prev.arr, i, m), [], [i, m], Upto(i)))
    ensures PrefixSettled(Swapped(prev.arr, i, m), i + 1)
  {
    Place(prev.arr, Swapped(prev.arr, i, m), i, m);
  }

  /** The marker that closes iteration `i` when `a[i]` already was the minimum. */
  lemma KeepStep(prev: Step, i: nat, input: seq<int>)
    requires StepOk(prev, input) && prev.comparing != [] && |prev.sorted| == i
    requires LeftmostMin(prev.arr, i, |prev.arr|, i)
    ensures StepOk(Plain(prev.arr, [], [], Upto(i + 1)), input)
    ensures PairOk(prev, Plain(prev.arr, [], [], Upto(i + 1)))
  {
    assert prev.arr == Swapped(prev.arr, i, i);
    Place(prev.arr, prev.arr, i, i);
  }

  /** The candidate after testing `j`: `j` replaces `m` only when strictly smaller. */
  function Better(A: seq<int>, m: nat, j: nat): (r: nat)
    requires m < |A| && j < |A|
    ensures (r == m || r == j) && A[r] <= A[m] && A[r] <= A[j]
    ensures r == j && j != m ==> A[j] < A[m]
  {
    if A[j] < A[m] then j else m
  }

  /** The index the scan of iteration `i` settles on, resumed at `j` with candidate `m`. */
  function ScanMin(A: seq<int>, i: nat, m: nat, j: nat): (r: nat)
    requires m < j <= |A|
    ensures r < |A| && (r == m || j <= r) && A[r] <= A[m]
    decreases |A| - j
  {
    if j == |A| then m else ScanMin(A, i, Better(A, m, j), j + 1)
  }

  /** The comparisons the scan of iteration `i` records, resumed at `j` with candidate `m`. */
  function ScanSteps(A: seq<int>, i: nat, m: nat, j: nat): (r: seq<Step>)
    requires m < j <= |A|
    ensures |r| == |A| - j && (r != [] ==> r[0].comparing == [m, j] && r[0].arr == A)
    decreases |A| - j
  {
    if j == |A| then [] else [Plain(A, [m, j], [], Upto(i))] + ScanSteps(A, i, Better(A, m, j), j + 1)
  }

  /** The array after iteration `i`: the minimum exchanged into position `i` when it is elsewhere. */
  function Selected(A: seq<int>, i: nat): (r: seq<int>)
    requires i + 1 < |A|
    ensures |r| == |A| && r[i] == A[ScanMin(A, i, i, i + 1)]
    ensures forall x :: 0 <= x < i ==> r[x] == A[x]
  {
    var m := ScanMin(A, i, i, i + 1);
    if m != i then A[i := A[m]][m := A[i]] else A
  }

  /** The steps of iteration `i`: the scan, the swap step when there is a swap, and the marker of `[0, i + 1)`. */
  function IterSteps(A: seq<int>, i: nat): (r: seq<Step>)
    requires i + 1 < |A|
    ensures |r| >= |A| - i && Last(r).arr == Selected(A, i) && Last(r).sorted == Upto(i + 1)
  {
    var m := ScanMin(A, i, i, i + 1);
    ScanSteps(A, i, i, i + 1)
      + (if m != i then [Plain(Selected(A, i), [], [i, m], Upto(i))] else [])
      + [Plain(Selected(A, i), [], [], Upto(i + 1))]
  }

  /**
   * The whole trace `selectionSort` records from iteration `i` on, ending
   * with the step marking every index.
   */
  function SelectSteps(A: seq<int>, i: nat): (r: seq<Step>)
    ensures r != [] && Last(r).sorted == Upto(|A|)
    decreases |A| - i
  {
    if i + 1 >= |A| then [Plain(A, [], [], Upto(|A|))]
    else IterSteps(A, i) + SelectSteps(Selected(A, i), i + 1)
  }

  /** One comparison consumes the head of what remains of the scan. */
  lemma ScanNext(A: seq<int>, i: nat, m: nat, j: nat, t: seq<Step>)
    requires m < j < |A|
    ensures t + ScanSteps(A, i, m, j) == t + [Plain(A, [m, j], [], Upto(i))] + ScanSteps(A, i, Better(A, m, j), j + 1)
    ensures ScanMin(A, i, m, j) == ScanMin(A, i, Better(A, m, j), j + 1)
  {
  }

  /** A finished scan records nothing more. */
  lemma ScanDone(A: seq<int>, i: nat, m: nat, t: seq<Step>)
    requires m < |A|
    ensures t + ScanSteps(A, i, m, |A|) == t && ScanMin(A, i, m, |A|) == m
  {
  }

  /** One iteration consumes the head of what remains of the trace. */
  lemma SelectNext(A: seq<int>, i: nat, before: seq<Step>, steps: seq<Step>, G: seq<Step>, B: seq<int>)
    requires i + 1 < |A| && G == before + SelectSteps(A, i)
    requires steps == before + IterSteps(A, i) && B == Selected(A, i)
    ensures steps + SelectSteps(B, i + 1) == G
  {
    Assoc(before, IterSteps(A, i), SelectSteps(B, i + 1));
  }

  /** After the last iteration only the step marking every index remains. */
  lemma SelectDone(A: seq<int>, i: nat, t: seq<Step>, G: seq<Step>, n: nat)
    requires i + 1 >= |A| == n && t + SelectSteps(A, i) == G
    ensures t + [Plain(A, [], [], Upto(n))] == G
  {
  }

  /** The steps of iteration `i`, spelled out after the scan. */
  lemma IterForm(A: seq<int>, i: nat, t: seq<Step>)
    requires i + 1 < |A|
    ensures var m, B := ScanMin(A, i, i, i + 1), Selected(A, i);
            var u := t + ScanSteps(A, i, i, i + 1);
            && (m != i ==> t + IterSteps(A, i) == u + [Plain(B, [], [i, m], Upto(i))] + [Plain(B, [], [], Upto(i + 1))])
            && (m == i ==> t + IterSteps(A, i) == u + [Plain(B, [], [], Upto(i + 1))])
  {
  }

  /** Every iteration from `i` on leaves a step marking the prefix it has settled. */
  lemma {:induction false} IterMarkers(A: seq<int>, i: nat)
    ensures forall m :: i < m <= |A| ==> Marks(SelectSteps(A, i), Upto(m))
    decreases |A| - i
  {
    var t := SelectSteps(A, i);
    if i + 1 >= |A| {
      assert t[0].sorted == Upto(|A|);
    } else {
      var B := Selected(A, i);
      var I := IterSteps(A, i);
      var rest := SelectSteps(B, i + 1);
      assert t == I + rest;
      IterMarkers(B, i + 1);
      forall m | i < m <= |A|
        ensures Marks(t, Upto(m))
      {
        if m == i + 1 {
          assert t[|I| - 1] == I[|I| - 1];
        } else {
          assert Marks(rest, Upto(m));
          var k :| 0 <= k < |rest| && rest[k].sorted == Upto(m);
          assert t[|I| + k] == rest[k];
        }
      }
    }
  }

  /** A candidate kept or replaced by the test at `j` is the leftmost minimum of one more position. */
  lemma BetterLeftmost(A: seq<int>, i: nat, m: nat, j: nat)
    requires j < |A| && LeftmostMin(A, i, j, m)
    ensures LeftmostMin(A, i, j + 1, Better(A, m, j))
  {
  }

  /** The scan settles on the leftmost minimum of `A[i..n)`. */
  lemma {:induction false} ScanMinLeftmost(A: seq<int>, i: nat, m: nat, j: nat)
    requires m < j <= |A| && LeftmostMin(A, i, j, m)
    ensures LeftmostMin(A, i, |A|, ScanMin(A, i, m, j))
    decreases |A| - j
  {
    if j < |A| {
      BetterLeftmost(A, i, m, j);
      ScanMinLeftmost(A, i, Better(A, m, j), j + 1);
    }
  }

  /** The state of a trace during the scan of iteration `i`, with candidate `m` before testing `j`. */
  ghost predicate Scanning(t: seq<Step>, A: seq<int>, input: seq<int>, i: nat, m: nat, j: nat)
  {
    && i < j <= |A| == |input| && multiset(A) == multiset(input) && PrefixSettled(A, i)
    && LeftmostMin(A, i, j, m) && Traced(t, A, input)
    && (j > i + 1 ==> t != [] && Last(t).comparing != [] && |Last(t).sorted| == i)
  }

  /** Recording the comparison of the candidate `m` with `j`. */
  lemma PushCompare(t: seq<Step>, A: seq<int>, input: seq<int>, i: nat, m: nat, j: nat)
    requires j < |A| && Scanning(t, A, input, i, m, j)
    ensures Scanning(t + [Plain(A, [m, j], [], Upto(i))], A, input, i, Better(A, m, j), j + 1)
  {
    Append(t, A, Plain(A, [m, j], [], Upto(i)), input);
    BetterLeftmost(A, i, m, j);
  }

  /** The rest of the scan, appended to a trace in the scanning state, keeps it valid. */
  lemma {:induction false} ScanKeeps(t: seq<Step>, A: seq<int>, input: seq<int>, i: nat, m: nat, j: nat, T: seq<Step>)
    requires Scanning(t, A, input, i, m, j) && T == t + ScanSteps(A, i, m, j)
    ensures Scanning(T, A, input, i, ScanMin(A, i, m, j), |A|)
    decreases |A| - j, 1
  {
    if j == |A| {
      ScanDone(A, i, m, t);
    } else {
      NextCompare(t, A, input, i, m, j, T);
    }
  }

  /** The inductive step of `ScanKeeps`. */
  lemma {:induction false} NextCompare(t: seq<Step>, A: seq<int>, input: seq<int>, i: nat, m: nat, j: nat, T: seq<Step>)
    requires j < |A| && Scanning(t, A, input, i, m, j) && T == t + ScanSteps(A, i, m, j)
    ensures Scanning(T, A, input, i, ScanMin(A, i, m, j), |A|)
    decreases |A| - j, 0
  {
    var u := t + [Plain(A, [m, j], [], Upto(i))];
    var m' := Better(A, m, j);
    PushCompare(t, A, input, i, m, j);
    ScanNext(A, i, m, j, t);
    assert T == u + ScanSteps(A, i, m', j + 1);
    ScanKeeps(u, A, input, i, m', j + 1, T);
    assert ScanMin(A, i, m, j) == ScanMin(A, i, m', j + 1);
  }

  /** The state between iterations: the prefix `[0, i)` settled and a valid trace that is not mid-scan. */
  ghost predicate Between(t: seq<Step>, A: seq<int>, input: seq<int>, i: nat)
  {
    && |A| == |input| && multiset(A) == multiset(input) && PrefixSettled(A, i)
    && Traced(t, A, input) && (t != [] ==> Last(t).comparing == [])
  }

  /** The swap step and the marker after a scan that found the minimum at `m != i`. */
  lemma CloseSwap(u: seq<Step>, A: seq<int>, input: seq<int>, i: nat, m: nat)
    requires Scanning(u, A, input, i, m, |A|) && i < m && i + 1 < |A|
    ensures Between(u + [Plain(Swapped(A, i, m), [], [i, m], Upto(i))] + [Plain(Swapped(A, i, m), [], [], Upto(i + 1))],
                    Swapped(A, i, m), input, i + 1)
  {
    var B := Swapped(A, i, m);
    var swap := Plain(B, [], [i, m], Upto(i));
    SwapStep(Last(u), i, m, input);
    Append(u, A, swap, input);
    Append(u + [swap], B, Plain(B, [], [], Upto(i + 1)), input);
  }

  /** The marker after a scan that found the minimum already at `i`. */
  lemma CloseKeep(u: seq<Step>, A: seq<int>, input: seq<int>, i: nat)
    requires Scanning(u, A, input, i, i, |A|) && i + 1 < |A|
    ensures Between(u + [Plain(A, [], [], Upto(i + 1))], A, input, i + 1)
  {
    KeepStep(Last(u), i, input);
    Place(A, Swapped(A, i, i), i, i);
    assert Swapped(A, i, i) == A;
    Append(u, A, Plain(A, [], [], Upto(i + 1)), input);
  }

  /** Iteration `i`, appended to a trace between iterations, settles one more position. */
  lemma IterKeeps(t: seq<Step>, A: seq<int>, input: seq<int>, i: nat)
    requires i + 1 < |A| && Between(t, A, input, i)
    ensures Between(t + IterSteps(A, i), Selected(A, i), input, i + 1)
  {
    var m := ScanMin(A, i, i, i + 1);
    var u := t + ScanSteps(A, i, i, i + 1);
    ScanKeeps(t, A, input, i, i, i + 1, u);
    IterForm(A, i, t);
    if m != i {
      CloseSwap(u, A, input, i, m);
    } else {
      CloseKeep(u, A, input, i);
    }
  }

  /** A finished trace: valid throughout, ending with the array sorted and every index marked. */
  ghost predicate Whole(T: seq<Step>, input: seq<int>)
  {
    T != [] && Traced(T, Last(T).arr, input) && EndsSorted(T, input) && Last(T).comparing == []
  }

  /** The last step of the trace: every index marked over a sorted array. */
  lemma Closing(t: seq<Step>, A: seq<int>, input: seq<int>, i: nat)
    requires i + 1 >= |A| && Between(t, A, input, i)
    ensures Whole(t + SelectSteps(A, i), input)
  {
    Append(t, A, Plain(A, [], [], Upto(|A|)), input);
  }

  /**
   * The trace from iteration `i` on, appended to a trace between
   * iterations, is a valid trace ending with the input sorted.
   */
  lemma {:induction false} SelectKeeps(t: seq<Step>, A: seq<int>, input: seq<int>, i: nat, T: seq<Step>)
    requires Between(t, A, input, i) && T == t + SelectSteps(A, i)
    ensures Whole(T, input)
    decreases |A| - i, 1
  {
    if i + 1 >= |A| {
      Closing(t, A, input, i);
    } else {
      NextIter(t, A, input, i, T);
    }
  }

  /** The inductive step of `SelectKeeps`. */
  lemma {:induction false} NextIter(t: seq<Step>, A: seq<int>, input: seq<int>, i: nat, T: seq<Step>)
    requires i + 1 < |A| && Between(t, A, input, i) && T == t + SelectSteps(A, i)
    ensures Whole(T, input)
    decreases |A| - i, 0
  {
    var u := t + IterSteps(A, i);
    IterKeeps(t, A, input, i);
    SelectNext(A, i, t, u, T, Selected(A, i));
    SelectKeeps(u, Selected(A, i), input, i + 1, T);
  }

  /**
   * The trace `selectionSort` records ends with the input sorted; every
   * step and every two consecutive steps are valid.
   */
  lemma TraceOk(input: seq<int>, steps: seq<Step>)
    requires steps == SelectSteps(input, 0)
    ensures EndsSorted(steps, input)
    ensures forall k :: 0 <= k < |steps| ==> StepOk(steps[k], input)
    ensures forall k :: 0 <= k < |steps| - 1 ==> PairOk(steps[k], steps[k + 1])
    ensures steps[0].swapping == [] && Last(steps).comparing == []
  {
    SelectKeeps([], input, input, 0, steps);
  }

  /**
   * The inner scan of iteration `i`: records a comparison of the current
   * candidate with every later position and returns the leftmost minimum of
   * `a[i..n)`; the array is only read.
   */
  method Scan(a: array<int>, i: nat, steps0: seq<Step>) returns (minIdx: nat, steps: seq<Step>)
    requires i < a.Length - 1
    ensures LeftmostMin(a[..], i, a.Length, minIdx)
    ensures minIdx == ScanMin(a[..], i, i, i + 1)
    ensures steps == steps0 + ScanSteps(a[..], i, i, i + 1)
  {
    var n := a.Length;
    steps := steps0;
    minIdx := i;
    var j := i + 1;
    while j < n
      invariant i < j <= n && minIdx < j
      invariant LeftmostMin(a[..], i, j, minIdx)
      invariant ScanMin(a[..], i, minIdx, j) == ScanMin(a[..], i, i, i + 1)
      invariant steps + ScanSteps(a[..], i, minIdx, j) == steps0 + ScanSteps(a[..], i, i, i + 1)
    {
      ScanNext(a[..], i, minIdx, j, steps);
      steps := steps + [Plain(a[..], [minIdx, j], [], Upto(i))];
      if a[j] < a[minIdx] {
        minIdx := j;
      }
      j := j + 1;
    }
    ScanDone(a[..], i, minIdx, steps);
  }

  /**
   * Iteration `i`: the scan, then the swap (only when the minimum is not
   * already at `i`) and the marker for the prefix `[0, i + 1)`.
   */
  method SelectMin(a: array<int>, i: nat, steps0: seq<Step>) returns (steps: seq<Step>)
    requires i < a.Length - 1
    modifies a
    ensures a[..] == Selected(old(a[..]), i)
    ensures steps == steps0 + IterSteps(old(a[..]), i)
  {
    ghost var A := a[..];
    var minIdx;
    minIdx, steps := Scan(a, i, steps0);
    if minIdx != i {
      a[i], a[minIdx] := a[minIdx], a[i];
      assert a[..] == Swapped(A, i, minIdx);
      steps := steps + [Plain(a[..], [], [i, minIdx], Upto(i))];
    }
    steps := steps + [Plain(a[..], [], [], Upto(i + 1))];
  }

  /** Iteration `i` consumes its part of what remains of the trace `G`. */
  method SelectOn(a: array<int>, i: nat, steps0: seq<Step>, ghost G: seq<Step>) returns (steps: seq<Step>)
    requires i < a.Length - 1 && steps0 + SelectSteps(a[..], i) == G
    modifies a
    ensures steps + SelectSteps(a[..], i + 1) == G
  {
    ghost var A := a[..];
    steps := SelectMin(a, i, steps0);
    SelectNext(A, i, steps0, steps, G, a[..]);
  }

  /**
   * The outer loop of `selectionSort`: iterations `0 .. n - 2`, each ending
   * with its marker; only the step marking every index is left to record.
   */
  method Iterations(a: array<int>) returns (steps: seq<Step>)
    modifies a
    ensures steps + [Plain(a[..], [], [], Upto(a.Length))] == SelectSteps(old(a[..]), 0)
  {
    ghost var G := SelectSteps(a[..], 0);
    var n := a.Length;
    steps := [];
    var i := 0;
    while i < n - 1
      invariant 0 <= i && (n > 0 ==> i <= n - 1)
      invariant steps + SelectSteps(a[..], i) == G
    {
      steps := SelectOn(a, i, steps, G);
      i := i + 1;
    }
    SelectDone(a[..], i, steps, G, a.Length);
  }

  /** `selectionSort(array)`: the iterations over a copy of the input, then the step marking every index. */
  method SelectionSort(input: seq<int>) returns (steps: seq<Step>)
    ensures steps == SelectSteps(input, 0)
  {
    var n := |input|;
    var a := new int[n](x requires 0 <= x < n => input[x]);
    assert a[..] == input;
    steps := Iterations(a);
    steps := steps + [Plain(a[..], [], [], Upto(n))];
  }
}
