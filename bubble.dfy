/**
 * Bubble Sort trace generator: pass `i` bubbles the largest remaining value
 * to position `n - 1 - i`, recording a comparison before every test, a swap
 * step after every exchange and a pass marker after every pass.
 */
module Bubble {
  import opened Steps

  /**
   * The last `m` positions hold the `m` largest values in ascending order:
   * every pair whose right element lies in the suffix is ordered.
   */
  ghost predicate SuffixSettled(a: seq<int>, m: nat)
  {
    forall x, y :: 0 <= x < y < |a| && |a| - m <= y ==> a[x] <= a[y]
  }

  /**
   * If step `s` compares, it compares neighbours `j, j + 1`, and the step
   * after it swaps them exactly when they are out of order and otherwise
   * leaves the array alone.
   */
  ghost predicate CompareResolved(s: Step, next: Step)
  {
    s.comparing != [] ==>
      var j := s.comparing[0];
      && s.comparing == [j, j + 1]
      && j + 1 < |s.arr|
      && (s.arr[j] > s.arr[j + 1] ==> next.swapping == [j, j + 1] && next.arr == Swapped(s.arr, j, j + 1))
      && (s.arr[j] <= s.arr[j + 1] ==> next.swapping == [] && next.arr == s.arr)
  }

  /** A swap step is always announced, just before, by the comparison of the same pair. */
  ghost predicate SwapAnnounced(prev: Step, s: Step)
  {
    s.swapping != [] ==> prev.comparing == s.swapping
  }

  /**
   * A pass marker (a step marking fewer than all `n` indices, but some) names
   * the trailing `m` indices, and those hold the `m` largest values in order.
   */
  ghost predicate PassMarked(s: Step, n: nat)
  {
    var m := |s.sorted|;
    0 < m < n ==>
      && s.comparing == [] && s.swapping == []
      && s.sorted == Downfrom(n, m)
      && SuffixSettled(s.arr, m)
  }

  /** What every single step of a Bubble Sort trace satisfies. */
  ghost predicate StepOk(s: Step, input: seq<int>)
  {
    && WellFormed(s, |input|)
    && s.info == None
    && multiset(s.arr) == multiset(input)
    && PassMarked(s, |input|)
  }

  /** What every two consecutive steps of a Bubble Sort trace satisfy. */
  ghost predicate PairOk(s: Step, next: Step)
  {
    CompareResolved(s, next) && SwapAnnounced(s, next)
  }

  /** A partial trace whose last step shows the working array `a`. */
  ghost predicate Traced(steps: seq<Step>, a: seq<int>, input: seq<int>)
  {
    && (forall k :: 0 <= k < |steps| ==> StepOk(steps[k], input))
    && (forall k :: 0 <= k < |steps| - 1 ==> PairOk(steps[k], steps[k + 1]))
    && (steps != [] ==> steps[0].swapping == [] && Last(steps).arr == a)
  }

  lemma {:induction false} Append(steps: seq<Step>, a: seq<int>, x: Step, input: seq<int>)
    requires Traced(steps, a, input) && StepOk(x, input)
    requires steps == [] ==> x.swapping == []
    requires steps != [] ==> PairOk(Last(steps), x)
    ensures Traced(steps + [x], x.arr, input)
  {
    var t := steps + [x];
    forall k | 0 <= k < |t| - 1
      ensures PairOk(t[k], t[k + 1])
    {
      if k < |steps| - 1 {
        assert t[k] == steps[k] && t[k + 1] == steps[k + 1];
      }
    }
  }

  /** Exchanging an out-of-order pair below the settled suffix carries the running maximum along. */
  lemma BubbleUp(a: seq<int>, b: seq<int>, i: nat, j: nat)
    requires j + 1 < |a| - i && a[j] > a[j + 1] && b == Swapped(a, j, j + 1)
    requires SuffixSettled(a, i) && forall x :: 0 <= x < j ==> a[x] <= a[j]
    ensures SuffixSettled(b, i)
    ensures forall x :: 0 <= x < j + 1 ==> b[x] <= b[j + 1]
  {
  }

  /** The partial-pass state between two comparisons at position `j` of pass `i`. */
  ghost predicate InPass(steps: seq<Step>, a: seq<int>, input: seq<int>, i: nat, j: nat)
    requires j < |a|
  {
    && multiset(a) == multiset(input)
    && SuffixSettled(a, i)
    && (forall x :: 0 <= x < j ==> a[x] <= a[j])
    && Traced(steps, a, input)
    && (steps != [] && Last(steps).comparing != [] ==>
          0 < j && Last(steps).comparing == [j - 1, j] && a[j - 1] <= a[j])
  }

  /** Recording the test of the pair `j, j + 1` keeps the trace valid. */
  lemma PushCompare(steps: seq<Step>, A: seq<int>, input: seq<int>, i: nat, j: nat)
    requires j + 1 < |A| - i && |A| == |input| && InPass(steps, A, input, i, j)
    ensures Traced(steps + [Plain(A, [j, j + 1], [], [])], A, input)
  {
    Append(steps, A, Plain(A, [j, j + 1], [], []), input);
  }

  /** A pair found in order is left alone: the running maximum moves on to `j + 1`. */
  lemma KeepPair(steps: seq<Step>, A: seq<int>, input: seq<int>, i: nat, j: nat)
    requires j + 1 < |A| - i && |A| == |input| && InPass(steps, A, input, i, j) && A[j] <= A[j + 1]
    requires Traced(steps + [Plain(A, [j, j + 1], [], [])], A, input)
    ensures InPass(steps + [Plain(A, [j, j + 1], [], [])], A, input, i, j + 1)
  {
  }

  /** A pair found out of order is exchanged, and the exchange is recorded. */
  lemma SwapPair(t: seq<Step>, A: seq<int>, input: seq<int>, i: nat, j: nat)
    requires j + 1 < |A| - i && |A| == |input| && A[j] > A[j + 1]
    requires multiset(A) == multiset(input) && SuffixSettled(A, i) && forall x :: 0 <= x < j ==> A[x] <= A[j]
    requires Traced(t, A, input) && t != [] && Last(t) == Plain(A, [j, j + 1], [], [])
    ensures InPass(t + [Plain(Swapped(A, j, j + 1), [], [j, j + 1], [])], Swapped(A, j, j + 1), input, i, j + 1)
  {
    var B := Swapped(A, j, j + 1);
    BubbleUp(A, B, i, j);
    SwapOk(A, input, j);
    Append(t, A, Plain(B, [], [j, j + 1], []), input);
  }

  /** The swap step of an out-of-order pair is valid and may follow the pair's comparison. */
  lemma SwapOk(A: seq<int>, input: seq<int>, j: nat)
    requires j + 1 < |A| == |input| && A[j] > A[j + 1] && multiset(A) == multiset(input)
    ensures StepOk(Plain(Swapped(A, j, j + 1), [], [j, j + 1], []), input)
    ensures PairOk(Plain(A, [j, j + 1], [], []), Plain(Swapped(A, j, j + 1), [], [j, j + 1], []))
  {
  }

  /** No element before position `k` exceeds `a[k]`: `a[k]` is the running maximum. */
  predicate Leads(a: seq<int>, k: nat)
    requires k < |a|
  {
    forall x :: 0 <= x < k ==> a[x] <= a[k]
  }

  /** The array after the test at `j`: the pair exchanged exactly when it is out of order. */
  function AfterRound(A: seq<int>, j: nat): (r: seq<int>)
    requires j + 1 < |A|
    ensures |r| == |A| && r[j] <= r[j + 1]
  {
    if A[j] > A[j + 1] then A[j := A[j + 1]][j + 1 := A[j]] else A
  }

  /** The steps of the test at `j`: the comparison, then the swap step when the pair is exchanged. */
  function RoundSteps(A: seq<int>, j: nat): (r: seq<Step>)
    requires j + 1 < |A|
    ensures |r| == (if A[j] > A[j + 1] then 2 else 1) && r[0].comparing == [j, j + 1] && Last(r).arr == AfterRound(A, j)
  {
    [Plain(A, [j, j + 1], [], [])] + (if A[j] > A[j + 1] then [Plain(AfterRound(A, j), [], [j, j + 1], [])] else [])
  }

  /** The array pass `i` leaves when it is resumed at position `j`. */
  function PassFrom(A: seq<int>, i: nat, j: nat): (r: seq<int>)
    requires i + j < |A|
    ensures |r| == |A|
    decreases |A| - i - j
  {
    if i + j + 1 == |A| then A else PassFrom(AfterRound(A, j), i, j + 1)
  }

  /** Resumed at `j` with the running maximum at `j`, pass `i` carries the largest of `A[..n - i]` to position `n - 1 - i`. */
  lemma {:induction false} PassLeads(A: seq<int>, i: nat, j: nat)
    requires i + j < |A| && Leads(A, j)
    ensures Leads(PassFrom(A, i, j), |A| - i - 1)
    decreases |A| - i - j
  {
    if i + j + 1 < |A| {
      var B := AfterRound(A, j);
      assert A[j] <= B[j + 1];
      assert Leads(B, j + 1) by {
        forall x | 0 <= x < j + 1
          ensures B[x] <= B[j + 1]
        {
          if x < j { assert B[x] == A[x] && A[x] <= A[j]; }
        }
      }
      PassLeads(B, i, j + 1);
      assert PassFrom(A, i, j) == PassFrom(B, i, j + 1);
    }
  }

  /** The steps pass `i` records from position `j` on, up to (not including) its marker. */
  function PassSteps(A: seq<int>, i: nat, j: nat): (r: seq<Step>)
    requires i + j < |A|
    ensures |r| >= |A| - i - 1 - j && (r != [] ==> Last(r).arr == PassFrom(A, i, j))
    decreases |A| - i - j
  {
    if i + j + 1 == |A| then [] else RoundSteps(A, j) + PassSteps(AfterRound(A, j), i, j + 1)
  }

  /**
   * The whole trace `bubbleSort` records from pass `i` on: each pass's tests
   * followed by the marker of the trailing `i + 1` indices, and finally the
   * step marking every index.
   */
  function BubbleSteps(A: seq<int>, i: nat): (r: seq<Step>)
    ensures |r| > 0 && r[|r| - 1].sorted == Upto(|A|)
    decreases |A| - i
  {
    if i + 1 >= |A| then [Plain(A, [], [], Upto(|A|))]
    else
      var B := PassFrom(A, i, 0);
      PassSteps(A, i, 0) + [Plain(B, [], [], Downfrom(|A|, i + 1))] + BubbleSteps(B, i + 1)
  }

  /** One test of pass `i` consumes the head of what remains of the pass. */
  lemma PassNext(A: seq<int>, i: nat, j: nat, before: seq<Step>, steps: seq<Step>, G: seq<Step>)
    requires i + j + 1 < |A| && steps == before + RoundSteps(A, j) && G == before + PassSteps(A, i, j)
    ensures PassFrom(AfterRound(A, j), i, j + 1) == PassFrom(A, i, j)
    ensures steps + PassSteps(AfterRound(A, j), i, j + 1) == G
  {
    var rest := PassSteps(AfterRound(A, j), i, j + 1);
    assert PassSteps(A, i, j) == RoundSteps(A, j) + rest;
    Assoc(before, RoundSteps(A, j), rest);
  }

  /** One pass consumes the head of what remains of the trace. */
  lemma BubbleNext(A: seq<int>, i: nat, before: seq<Step>, steps: seq<Step>, G: seq<Step>, B: seq<int>, n: nat)
    requires i + 1 < |A| == n && G == before + BubbleSteps(A, i) && B == PassFrom(A, i, 0)
    requires steps == before + PassSteps(A, i, 0) + [Plain(B, [], [], Downfrom(n, i + 1))]
    ensures steps + BubbleSteps(B, i + 1) == G
  {
    var P, rest := PassSteps(A, i, 0), BubbleSteps(PassFrom(A, i, 0), i + 1);
    var marker := Plain(PassFrom(A, i, 0), [], [], Downfrom(|A|, i + 1));
    assert BubbleSteps(A, i) == P + [marker] + rest;
    Assoc(P, [marker], rest);
    Assoc(before, P + [marker], rest);
    Assoc(before, P, [marker]);
  }

  /** After the last pass only the step marking every index remains. */
  lemma BubbleDone(A: seq<int>, i: nat, t: seq<Step>, G: seq<Step>, n: nat)
    requires i + 1 >= |A| == n && t + BubbleSteps(A, i) == G
    ensures t + [Plain(A, [], [], Upto(n))] == G
  {
  }

  /** Every pass from `i` on leaves a step marking its trailing indices. */
  lemma {:induction false} PassMarkers(A: seq<int>, i: nat)
    ensures forall m :: i < m < |A| ==> Marks(BubbleSteps(A, i), Downfrom(|A|, m))
    decreases |A| - i
  {
    if i + 1 < |A| {
      var B := PassFrom(A, i, 0);
      var P := PassSteps(A, i, 0);
      var marker := Plain(B, [], [], Downfrom(|A|, i + 1));
      var rest := BubbleSteps(B, i + 1);
      var t := BubbleSteps(A, i);
      assert t == P + [marker] + rest;
      PassMarkers(B, i + 1);
      forall m | i < m < |A|
        ensures Marks(t, Downfrom(|A|, m))
      {
        if m == i + 1 {
          assert t[|P|] == marker;
        } else {
          assert Marks(rest, Downfrom(|B|, m));
          var k :| 0 <= k < |rest| && rest[k].sorted == Downfrom(|B|, m);
          assert t[|P| + 1 + k] == rest[k];
        }
      }
    }
  }

  /** The steps of the test at `j`, spelled out, after a trace `t`. */
  lemma RoundForm(t: seq<Step>, A: seq<int>, j: nat)
    requires j + 1 < |A|
    ensures A[j] > A[j + 1] ==>
              t + RoundSteps(A, j) == t + [Plain(A, [j, j + 1], [], [])] + [Plain(Swapped(A, j, j + 1), [], [j, j + 1], [])]
    ensures A[j] <= A[j + 1] ==> t + RoundSteps(A, j) == t + [Plain(A, [j, j + 1], [], [])]
  {
  }

  /** The end of a pass records nothing more. */
  lemma PassDone(t: seq<Step>, A: seq<int>, i: nat, j: nat)
    requires i + j + 1 == |A|
    ensures t + PassSteps(A, i, j) == t && PassFrom(A, i, j) == A
  {
  }

  /** A test, as `RoundSteps` records it, keeps the partial-pass state and moves it on to `j + 1`. */
  lemma RoundKeeps(t: seq<Step>, A: seq<int>, input: seq<int>, i: nat, j: nat)
    requires j + 1 < |A| - i && |A| == |input| && InPass(t, A, input, i, j)
    ensures InPass(t + RoundSteps(A, j), AfterRound(A, j), input, i, j + 1)
  {
    PushCompare(t, A, input, i, j);
    RoundForm(t, A, j);
    if A[j] > A[j + 1] {
      SwapPair(t + [Plain(A, [j, j + 1], [], [])], A, input, i, j);
    } else {
      KeepPair(t, A, input, i, j);
    }
  }

  /** The rest of pass `i` from position `j` keeps the partial-pass state up to the pass's last position. */
  lemma {:induction false} PassKeeps(t: seq<Step>, A: seq<int>, input: seq<int>, i: nat, j: nat)
    requires i + j < |A| == |input| && InPass(t, A, input, i, j)
    ensures InPass(t + PassSteps(A, i, j), PassFrom(A, i, j), input, i, |input| - i - 1)
    decreases |A| - i - j
  {
    if i + j + 1 == |A| {
      PassDone(t, A, i, j);
    } else {
      var B := AfterRound(A, j);
      var u := t + RoundSteps(A, j);
      RoundKeeps(t, A, input, i, j);
      PassKeeps(u, B, input, i, j + 1);
      PassNext(A, i, j, t, u, t + PassSteps(A, i, j));
    }
  }

  /** At the end of pass `i` the largest remaining value has reached position `n - 1 - i`. */
  lemma PassSettles(a: seq<int>, i: nat)
    requires i + 1 < |a| && SuffixSettled(a, i)
    requires forall x :: 0 <= x < |a| - i - 1 ==> a[x] <= a[|a| - i - 1]
    ensures SuffixSettled(a, i + 1)
  {
  }

  /** The marker closing pass `i` may follow the pass's last step. */
  lemma MarkerOk(u: seq<Step>, B: seq<int>, input: seq<int>, i: nat)
    requires i + 1 < |B| == |input| && InPass(u, B, input, i, |input| - i - 1)
    ensures SuffixSettled(B, i + 1) && StepOk(Plain(B, [], [], Downfrom(|B|, i + 1)), input)
    ensures u != [] ==> PairOk(Last(u), Plain(B, [], [], Downfrom(|B|, i + 1)))
  {
    PassSettles(B, i);
  }

  /** A whole pass and its marker, appended to a valid trace, keep it valid and settle one more position. */
  lemma PassClosed(t: seq<Step>, A: seq<int>, input: seq<int>, i: nat)
    requires i + 1 < |A| == |input| && multiset(A) == multiset(input) && SuffixSettled(A, i)
    requires Traced(t, A, input) && (t != [] ==> Last(t).comparing == [])
    ensures multiset(PassFrom(A, i, 0)) == multiset(input) && SuffixSettled(PassFrom(A, i, 0), i + 1)
    ensures Traced(t + PassSteps(A, i, 0) + [Plain(PassFrom(A, i, 0), [], [], Downfrom(|A|, i + 1))], PassFrom(A, i, 0), input)
    ensures Last(t + PassSteps(A, i, 0) + [Plain(PassFrom(A, i, 0), [], [], Downfrom(|A|, i + 1))]).comparing == []
  {
    var B := PassFrom(A, i, 0);
    var u := t + PassSteps(A, i, 0);
    PassKeeps(t, A, input, i, 0);
    MarkerOk(u, B, input, i);
    Append(u, B, Plain(B, [], [], Downfrom(|A|, i + 1)), input);
  }

  /** A finished trace: valid throughout, ending with the array sorted and every index marked. */
  ghost predicate Whole(T: seq<Step>, input: seq<int>)
  {
    T != [] && Traced(T, Last(T).arr, input) && EndsSorted(T, input) && Last(T).comparing == []
  }

  /** The last step of the trace: every index marked over a sorted array. */
  lemma Closing(t: seq<Step>, A: seq<int>, input: seq<int>, i: nat)
    requires i + 1 >= |A| == |input| && multiset(A) == multiset(input) && SuffixSettled(A, i)
    requires Traced(t, A, input) && (t != [] ==> Last(t).comparing == [])
    ensures Whole(t + BubbleSteps(A, i), input)
  {
    Append(t, A, Plain(A, [], [], Upto(|A|)), input);
  }

  /**
   * The trace from pass `i` on, appended to a valid trace over an array
   * whose trailing `i` positions are settled, is a valid trace that ends
   * with the array sorted and every index marked.
   */
  lemma {:induction false} BubbleKeeps(t: seq<Step>, A: seq<int>, input: seq<int>, i: nat, T: seq<Step>)
    requires |A| == |input| && multiset(A) == multiset(input) && SuffixSettled(A, i)
    requires Traced(t, A, input) && (t != [] ==> Last(t).comparing == [])
    requires T == t + BubbleSteps(A, i)
    ensures Whole(T, input)
    decreases |A| - i, 1
  {
    if i + 1 >= |A| {
      Closing(t, A, input, i);
    } else {
      NextPass(t, A, input, i, T);
    }
  }

  /** The inductive step of `BubbleKeeps`: pass `i` and its marker, then the passes after it. */
  lemma {:induction false} NextPass(t: seq<Step>, A: seq<int>, input: seq<int>, i: nat, T: seq<Step>)
    requires i + 1 < |A| == |input| && multiset(A) == multiset(input) && SuffixSettled(A, i)
    requires Traced(t, A, input) && (t != [] ==> Last(t).comparing == [])
    requires T == t + BubbleSteps(A, i)
    ensures Whole(T, input)
    decreases |A| - i, 0
  {
    var B := PassFrom(A, i, 0);
    var u := t + PassSteps(A, i, 0) + [Plain(B, [], [], Downfrom(|A|, i + 1))];
    PassClosed(t, A, input, i);
    BubbleNext(A, i, t, u, T, B, |A|);
    BubbleKeeps(u, B, input, i + 1, T);
  }

  /**
   * The trace `bubbleSort` records ends with the input sorted; every step
   * and every two consecutive steps are valid.
   */
  lemma TraceOk(input: seq<int>, steps: seq<Step>)
    requires steps == BubbleSteps(input, 0)
    ensures EndsSorted(steps, input)
    ensures forall k :: 0 <= k < |steps| ==> StepOk(steps[k], input)
    ensures forall k :: 0 <= k < |steps| - 1 ==> PairOk(steps[k], steps[k + 1])
    ensures steps[0].swapping == [] && Last(steps).comparing == []
  {
    BubbleKeeps([], input, input, 0, steps);
  }

  /**
   * Records the comparison of `a[j]` and `a[j + 1]`, and exchanges them,
   * recording the swap, when `a[j] > a[j + 1]`.
   */
  method CompareAndSwap(a: array<int>, j: nat, steps0: seq<Step>) returns (steps: seq<Step>)
    requires j + 1 < a.Length
    modifies a
    ensures a[..] == if old(a[j]) > old(a[j + 1]) then Swapped(old(a[..]), j, j + 1) else old(a[..])
    ensures steps == steps0 + RoundSteps(old(a[..]), j)
  {
    ghost var before := a[..];
    var compare := Plain(a[..], [j, j + 1], [], []);
    steps := steps0 + [compare];
    if a[j] > a[j + 1] {
      a[j], a[j + 1] := a[j + 1], a[j];
      assert a[..] == Swapped(before, j, j + 1);
      steps := steps + [Plain(a[..], [], [j, j + 1], [])];
    }
  }

  /**
   * One outer pass `i`: compares every neighbouring pair below `n - 1 - i`,
   * swapping those out of order, then records the marker of the trailing
   * `i + 1` indices.
   */
  method Pass(a: array<int>, i: nat, steps0: seq<Step>) returns (steps: seq<Step>)
    requires i < a.Length - 1
    modifies a
    ensures a[..] == PassFrom(old(a[..]), i, 0)
    ensures steps == steps0 + PassSteps(old(a[..]), i, 0) + [Plain(a[..], [], [], Downfrom(a.Length, i + 1))]
  {
    ghost var A0 := a[..];
    ghost var F, G := PassFrom(A0, i, 0), steps0 + PassSteps(A0, i, 0);
    var n := a.Length;
    steps := steps0;
    var j := 0;
    while j < n - i - 1
      invariant 0 <= j <= n - i - 1
      invariant PassFrom(a[..], i, j) == F
      invariant steps + PassSteps(a[..], i, j) == G
    {
      ghost var A := a[..];
      ghost var before := steps;
      steps := CompareAndSwap(a, j, steps);
      PassNext(A, i, j, before, steps, G);
      j := j + 1;
    }
    PassDone(steps, a[..], i, j);
    steps := steps + [Plain(a[..], [], [], Downfrom(a.Length, i + 1))];
  }

  /** Pass `i` consumes its part of what remains of the trace `G`. */
  method PassOn(a: array<int>, i: nat, steps0: seq<Step>, ghost G: seq<Step>) returns (steps: seq<Step>)
    requires i < a.Length - 1 && steps0 + BubbleSteps(a[..], i) == G
    modifies a
    ensures steps + BubbleSteps(a[..], i + 1) == G
  {
    ghost var A := a[..];
    steps := Pass(a, i, steps0);
    BubbleNext(A, i, steps0, steps, G, a[..], a.Length);
  }

  /**
   * The outer loop of `bubbleSort`: passes `0 .. n - 2`, each ending with
   * its marker; only the step marking every index is left to record.
   */
  method Passes(a: array<int>) returns (steps: seq<Step>)
    modifies a
    ensures steps + [Plain(a[..], [], [], Upto(a.Length))] == BubbleSteps(old(a[..]), 0)
  {
    ghost var G := BubbleSteps(a[..], 0);
    var n := a.Length;
    steps := [];
    var i := 0;
    while i < n - 1
      invariant 0 <= i && (n > 0 ==> i <= n - 1)
      invariant steps + BubbleSteps(a[..], i) == G
    {
      steps := PassOn(a, i, steps, G);
      i := i + 1;
    }
    BubbleDone(a[..], i, steps, G, a.Length);
  }

  /** `bubbleSort(array)`: the passes over a copy of the input, then the step marking every index. */
  method BubbleSort(input: seq<int>) returns (steps: seq<Step>)
    ensures steps == BubbleSteps(input, 0)
  {
    var n := |input|;
    var a := new int[n](x requires 0 <= x < n => input[x]);
    assert a[..] == input;
    steps := Passes(a);
    steps := steps + [Plain(a[..], [], [], Upto(n))];
  }
}
