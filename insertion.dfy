/**
 * Insertion Sort trace generator: iteration `i` takes `key = a[i]`, shifts
 * every larger element of the sorted prefix one place right (recording the
 * comparison before and the shift after each move), writes the key into the
 * hole and marks `[0, i + 1)` as sorted. There is no final step: an input of
 * fewer than two elements produces an empty trace.
 */
module Insertion {
  import opened Steps

  /**
   * After `m` insertions: `a[..m]` is sorted and holds exactly the first `m`
   * input values, and `a[m..]` is still the untouched rest of the input.
   */
  ghost predicate PrefixInserted(a: seq<int>, input: seq<int>, m: nat)
  {
    && m <= |a| == |input|
    && (forall x, y :: 0 <= x < y < m ==> a[x] <= a[y])
    && multiset(a[..m]) == multiset(input[..m])
    && a[m..] == input[m..]
  }

  /**
   * The shapes of the steps: a start step shows `comparing = [i]` over the
   * prefix `[0, i)`, a shift test shows a neighbouring pair `[j, j + 1]`, and
   * every step that marks indices marks a prefix that has been inserted.
   */
  ghost predicate StepOk(s: Step, input: seq<int>)
  {
    && WellFormed(s, |input|)
    && s.info == None
    && (|s.comparing| == 1 ==> s.comparing[0] == |s.sorted| && s.swapping == [])
    && (|s.comparing| == 2 ==> s.comparing[1] == s.comparing[0] + 1 && s.swapping == [] && s.sorted == [])
    && |s.comparing| <= 2
    && (s.sorted != [] ==> s.sorted == Upto(|s.sorted|) && PrefixInserted(s.arr, input, |s.sorted|))
  }

  /**
   * Every shift test `[j, j + 1]` is followed by the shift itself, which
   * copies `a[j]` into `a[j + 1]` and reports those same two positions; and
   * nothing else reports a swap.
   */
  ghost predicate PairOk(prev: Step, s: Step)
  {
    && (|prev.comparing| == 2 ==>
          var j := prev.comparing[0];
          && s.swapping == prev.comparing
          && j + 1 < |prev.arr|
          && s.arr == prev.arr[j + 1 := prev.arr[j]]
          && s.comparing == [] && s.sorted == [])
    && (s.swapping != [] ==> |prev.comparing| == 2)
  }

  /** A partial trace whose last step shows the working array `a`. */
  ghost predicate Traced(steps: seq<Step>, a: seq<int>, input: seq<int>)
  {
    && (forall k :: 0 <= k < |steps| ==> StepOk(steps[k], input))
    && (forall k :: 0 <= k < |steps| - 1 ==> PairOk(steps[k], steps[k + 1]))
    && (steps != [] ==> steps[0].swapping == [] && Last(steps).arr == a)
  }

  lemma {:induction false} Append(steps: seq<Step>, a: seq<int>, x: Step, input: seq<int>)
    requires Traced(steps, a, input) && StepOk(x, input)
    requires steps == [] ==> x.swapping == []
    requires steps != [] ==> PairOk(Last(steps), x)
    ensures Traced(steps + [x], x.arr, input)
  {
    var t := steps + [x];
    forall k | 0 <= k < |t| - 1
      ensures PairOk(t[k], t[k + 1])
    {
      if k < |steps| - 1 {
        assert t[k] == steps[k] && t[k + 1] == steps[k + 1];
      }
    }
  }

  /** The insertion leaves the first `i + 1` positions in ascending order. */
  lemma InsertOrdered(A: seq<int>, i: nat, p: nat, b: seq<int>)
    requires i < |A| && p <= i && |b| == |A|
    requires forall x, y :: 0 <= x < y < i ==> A[x] <= A[y]
    requires p > 0 ==> A[p - 1] <= A[i]
    requires forall x :: p <= x < i ==> A[x] > A[i]
    requires forall x :: 0 <= x < p ==> b[x] == A[x]
    requires b[p] == A[i]
    requires forall x :: p < x <= i ==> b[x] == A[x - 1]
    ensures forall x, y :: 0 <= x < y < i + 1 ==> b[x] <= b[y]
  {
  }

  /** The insertion rearranges the first `i + 1` input values and keeps the rest. */
  lemma InsertPermutes(A: seq<int>, input: seq<int>, i: nat, p: nat, b: seq<int>)
    requires i < |A| == |input| == |b| && p <= i
    requires multiset(A[..i]) == multiset(input[..i]) && A[i..] == input[i..]
    requires forall x :: 0 <= x < p ==> b[x] == A[x]
    requires b[p] == A[i]
    requires forall x :: p < x <= i ==> b[x] == A[x - 1]
    requires forall x :: i < x < |b| ==> b[x] == A[x]
    ensures multiset(b[..i + 1]) == multiset(input[..i + 1])
    ensures b[i + 1..] == input[i + 1..]
  {
    assert b[..i + 1] == A[..p] + [A[i]] + A[p..i];
    assert A[..i] == A[..p] + A[p..i];
    assert input[..i + 1] == input[..i] + [input[i]];
    assert A[i] == input[i] by { assert A[i..][0] == input[i..][0]; }
    assert b[i + 1..] == A[i + 1..] == A[i..][1..];
  }

  /** Writing the key into the hole extends the inserted prefix by one. */
  lemma KeyPlaced(A: seq<int>, input: seq<int>, i: nat, p: nat, b: seq<int>)
    requires i < |A| == |b| && PrefixInserted(A, input, i) && p <= i
    requires p > 0 ==> A[p - 1] <= A[i]
    requires forall x :: p <= x < i ==> A[x] > A[i]
    requires b == Shifted(A, p - 1, i)[p := A[i]]
    ensures PrefixInserted(b, input, i + 1)
  {
    ShiftedAt(A, p - 1, i);
    InsertOrdered(A, i, p, b);
    InsertPermutes(A, input, i, p, b);
  }

  /** A fully inserted array is the input sorted. */
  lemma Finished(a: seq<int>, input: seq<int>)
    requires PrefixInserted(a, input, |a|)
    ensures Sorted(a) && multiset(a) == multiset(input)
  {
    assert a[..|a|] == a && input[..|input|] == input;
  }

  /** The step pair that records one shift of `a[j]` into `a[j + 1]`. */
  lemma ShiftSteps(arr: seq<int>, j: nat, input: seq<int>)
    requires |arr| == |input| && j + 1 < |arr|
    ensures StepOk(Plain(arr, [j, j + 1], [], []), input)
    ensures StepOk(Plain(arr[j + 1 := arr[j]], [], [j, j + 1], []), input)
    ensures PairOk(Plain(arr, [j, j + 1], [], []), Plain(arr[j + 1 := arr[j]], [], [j, j + 1], []))
  {
  }

  /**
   * The array after the inner loop has moved `A[j + 1 .. i - 1]` one place
   * right: position `j + 1` is the hole (still holding its old value) and
   * the key's old position `i` has been overwritten.
   */
  function Shifted(A: seq<int>, j: int, i: nat): (r: seq<int>)
    requires -1 <= j < i < |A|
    ensures |r| == |A|
  {
    seq(|A|, x requires 0 <= x < |A| => if x <= j + 1 || i < x then A[x] else A[x - 1])
  }

  lemma ShiftedAt(A: seq<int>, j: int, i: nat)
    requires -1 <= j < i < |A|
    ensures forall x :: 0 <= x < |A| ==> Shifted(A, j, i)[x] == if x <= j + 1 || i < x then A[x] else A[x - 1]
  {
  }

  /** Before the first shift nothing has moved. */
  lemma ShiftedNone(A: seq<int>, i: nat)
    requires 0 < i < |A|
    ensures Shifted(A, i - 1, i) == A
  {
    ShiftedAt(A, i - 1, i);
  }

  /** Left of the hole nothing has moved; shifting `A[j]` into the hole moves the hole one place left. */
  lemma ShiftedNext(A: seq<int>, j: nat, i: nat)
    requires j < i < |A|
    ensures Shifted(A, j, i)[j] == A[j]
    ensures Shifted(A, j, i)[j + 1 := A[j]] == Shifted(A, j - 1, i)
  {
    ShiftedAt(A, j, i);
    ShiftedAt(A, j - 1, i);
  }

  /**
   * The steps the inner loop records while the hole moves from `i` down to
   * `j + 1`: for each shifted position a test of the pair and the shift.
   */
  ghost function Shifts(A: seq<int>, j: int, i: nat): (r: seq<Step>)
    requires -1 <= j < i < |A|
    ensures r != [] ==> Last(r).arr == Shifted(A, j, i) && Last(r).swapping == [j + 1, j + 2]
    decreases i - j
  {
    if j == i - 1 then []
    else Shifts(A, j + 1, i) + [Plain(Shifted(A, j + 1, i), [j + 1, j + 2], [], []), Plain(Shifted(A, j, i), [], [j + 1, j + 2], [])]
  }

  /** The test of `[j, j + 1]` and the shift of `a[j]` extend a trace that ends with `a`. */
  lemma ShiftPair(t: seq<Step>, a: seq<int>, j: nat, input: seq<int>, b: seq<int>)
    requires |a| == |input| && j + 1 < |a| && b == a[j + 1 := a[j]]
    requires Traced(t, a, input) && t != [] && |Last(t).comparing| != 2
    ensures var t' := t + [Plain(a, [j, j + 1], [], []), Plain(b, [], [j, j + 1], [])];
      Traced(t', b, input) && |Last(t').comparing| != 2
  {
    ShiftSteps(a, j, input);
    var compare := Plain(a, [j, j + 1], [], []);
    Append(t, a, compare, input);
    Append(t + [compare], a, Plain(b, [], [j, j + 1], []), input);
    assert t + [compare, Plain(b, [], [j, j + 1], [])] == t + [compare] + [Plain(b, [], [j, j + 1], [])];
  }

  /** One more round of the inner loop appends its test and its shift. */
  lemma ShiftsNext(steps0: seq<Step>, A: seq<int>, j: nat, i: nat)
    requires j < i < |A|
    ensures steps0 + Shifts(A, j - 1, i)
         == steps0 + Shifts(A, j, i) + [Plain(Shifted(A, j, i), [j, j + 1], [], []), Plain(Shifted(A, j - 1, i), [], [j, j + 1], [])]
  {
  }

  /** The recorded shifts extend a trace that ends with the array `A`. */
  lemma {:induction false} ShiftsTraced(steps0: seq<Step>, A: seq<int>, j: int, i: nat, input: seq<int>)
    requires -1 <= j < i < |A| == |input| && 0 < i
    requires Traced(steps0, A, input) && steps0 != [] && |Last(steps0).comparing| != 2
    ensures var t := steps0 + Shifts(A, j, i); Traced(t, Shifted(A, j, i), input) && |Last(t).comparing| != 2
    decreases i - j
  {
    if j == i - 1 {
      ShiftedNone(A, i);
      assert steps0 + Shifts(A, j, i) == steps0;
    } else {
      ShiftsTraced(steps0, A, j + 1, i, input);
      ShiftedNext(A, j + 1, i);
      ShiftsNext(steps0, A, j + 1, i);
      ShiftPair(steps0 + Shifts(A, j + 1, i), Shifted(A, j + 1, i), j + 1, input, Shifted(A, j, i));
    }
  }

  /**
   * One round of the inner loop: records the test of `[j, j + 1]`, copies
   * `a[j]` into the hole at `j + 1` and records the shift.
   */
  method ShiftOne(a: array<int>, i: nat, j: nat, steps: seq<Step>, ghost steps0: seq<Step>, ghost A: seq<int>)
    returns (steps': seq<Step>)
    requires j < i < a.Length == |A| && a[..] == Shifted(A, j, i) && steps == steps0 + Shifts(A, j, i)
    modifies a
    ensures a[..] == Shifted(A, j - 1, i) && steps' == steps0 + Shifts(A, j - 1, i)
  {
    ShiftedNext(A, j, i);
    ShiftsNext(steps0, A, j, i);
    var compare := Plain(a[..], [j, j + 1], [], []);
    a[j + 1] := a[j];
    assert a[..] == Shifted(A, j - 1, i);
    steps' := steps + [compare, Plain(a[..], [], [j, j + 1], [])];
    assert steps' == steps0 + Shifts(A, j, i) + [Plain(Shifted(A, j, i), [j, j + 1], [], []), Plain(Shifted(A, j - 1, i), [], [j, j + 1], [])];
  }

  /**
   * Where the inner loop of iteration `i` leaves the hole once it has tested
   * the positions from `j` down: one past the nearest position at or below
   * `j` whose value does not exceed the key `A[i]`, or `0` when there is none.
   */
  function HoleFrom(A: seq<int>, i: nat, j: int): (p: nat)
    requires -1 <= j < i < |A|
    ensures p <= j + 1
    ensures p > 0 ==> A[p - 1] <= A[i]
    ensures forall x :: p <= x <= j ==> A[x] > A[i]
    decreases j + 1
  {
    if j < 0 then 0 else if A[j] <= A[i] then j + 1 else HoleFrom(A, i, j - 1)
  }

  /** The array after iteration `i`: the larger prefix elements moved right and the key in the hole. */
  function Inserted(A: seq<int>, i: nat): (r: seq<int>)
    requires 0 < i < |A|
    ensures |r| == |A| && r[HoleFrom(A, i, i - 1)] == A[i] && r[i + 1..] == A[i + 1..]
  {
    var p := HoleFrom(A, i, i - 1);
    Shifted(A, p - 1, i)[p := A[i]]
  }

  /** The steps iteration `i` records: its start, the tests and shifts, and the marker of `[0, i + 1)`. */
  ghost function IterSteps(A: seq<int>, i: nat): (r: seq<Step>)
    requires 0 < i < |A|
    ensures |r| >= 2 && r[0].comparing == [i] && r[0].arr == A && Last(r).arr == Inserted(A, i) && Last(r).sorted == Upto(i + 1)
  {
    [Plain(A, [i], [], Upto(i))] + Shifts(A, HoleFrom(A, i, i - 1) - 1, i) + [Plain(Inserted(A, i), [], [], Upto(i + 1))]
  }

  /** The steps `insertionSort` records from iteration `i` on. */
  ghost function InsertionSteps(A: seq<int>, i: nat): (r: seq<Step>)
    requires 0 < i
    ensures (r == []) == (i >= |A|) && |r| >= 2 * (|A| - i)
    decreases |A| - i
  {
    if i >= |A| then [] else IterSteps(A, i) + InsertionSteps(Inserted(A, i), i + 1)
  }

  /** The steps of iteration `i`, spelled out, after a trace `t`. */
  lemma IterForm(t: seq<Step>, A: seq<int>, i: nat)
    requires 0 < i < |A|
    ensures t + IterSteps(A, i)
         == t + [Plain(A, [i], [], Upto(i))] + Shifts(A, HoleFrom(A, i, i - 1) - 1, i) + [Plain(Inserted(A, i), [], [], Upto(i + 1))]
  {
  }

  /** One iteration consumes the head of what remains of the trace. */
  lemma InsertNext(A: seq<int>, i: nat, before: seq<Step>, steps: seq<Step>, G: seq<Step>, B: seq<int>)
    requires 0 < i < |A| && G == before + InsertionSteps(A, i) && B == Inserted(A, i)
    requires steps == before + IterSteps(A, i)
    ensures steps + InsertionSteps(B, i + 1) == G
  {
    assert InsertionSteps(A, i) == IterSteps(A, i) + InsertionSteps(B, i + 1);
    Assoc(before, IterSteps(A, i), InsertionSteps(B, i + 1));
  }

  /** After the last iteration nothing remains of the trace. */
  lemma InsertionDone(A: seq<int>, i: nat, t: seq<Step>, G: seq<Step>)
    requires 0 < i && i >= |A| && t + InsertionSteps(A, i) == G
    ensures t == G
  {
  }

  /** Every iteration from `i` on ends with a step marking the prefix it has inserted. */
  lemma {:induction false} IterMarkers(A: seq<int>, i: nat)
    requires 0 < i
    ensures forall m :: i < m <= |A| ==> Marks(InsertionSteps(A, i), Upto(m))
    decreases |A| - i
  {
    if i < |A| {
      var B := Inserted(A, i);
      var I := IterSteps(A, i);
      var rest := InsertionSteps(B, i + 1);
      var t := InsertionSteps(A, i);
      assert t == I + rest;
      IterMarkers(B, i + 1);
      forall m | i < m <= |A|
        ensures Marks(t, Upto(m))
      {
        if m == i + 1 {
          assert t[|I| - 1] == I[|I| - 1] == Plain(B, [], [], Upto(i + 1));
        } else {
          assert Marks(rest, Upto(m));
          var k :| 0 <= k < |rest| && rest[k].sorted == Upto(m);
          assert t[|I| + k] == rest[k];
        }
      }
    }
  }

  /** Iteration `i` extends a valid trace and the inserted prefix by one. */
  lemma IterKeeps(t: seq<Step>, A: seq<int>, input: seq<int>, i: nat)
    requires 0 < i < |A| == |input| && PrefixInserted(A, input, i)
    requires Traced(t, A, input) && (t != [] ==> Last(t).comparing == [])
    ensures PrefixInserted(Inserted(A, i), input, i + 1)
    ensures Traced(t + IterSteps(A, i), Inserted(A, i), input)
    ensures Last(t + IterSteps(A, i)).comparing == [] && Last(t + IterSteps(A, i)).sorted == Upto(i + 1)
  {
    IterForm(t, A, i);
    InsertDone(t, A, HoleFrom(A, i, i - 1), i, input, Inserted(A, i));
  }

  /** A finished trace: valid throughout, empty for fewer than two values, else ending with the array sorted. */
  ghost predicate Whole(T: seq<Step>, input: seq<int>)
  {
    && (forall k :: 0 <= k < |T| ==> StepOk(T[k], input))
    && (forall k :: 0 <= k < |T| - 1 ==> PairOk(T[k], T[k + 1]))
    && (|input| < 2 ==> T == [])
    && (|input| >= 2 ==> EndsSorted(T, input) && T[0].swapping == [] && Last(T).comparing == [])
  }

  /**
   * The trace from iteration `i` on, appended to a valid trace over an array
   * whose first `i` positions are inserted, is a valid trace that ends with
   * the array sorted and every index marked.
   */
  lemma {:induction false} InsertKeeps(t: seq<Step>, A: seq<int>, input: seq<int>, i: nat, T: seq<Step>)
    requires 0 < i <= |A| == |input| && 2 <= |input| && PrefixInserted(A, input, i)
    requires Traced(t, A, input) && (i > 1 ==> t != [])
    requires t != [] ==> Last(t).comparing == [] && Last(t).sorted == Upto(i)
    requires T == t + InsertionSteps(A, i)
    ensures Whole(T, input)
    decreases |A| - i, 1
  {
    if i == |A| {
      Finished(A, input);
    } else {
      NextInsert(t, A, input, i, T);
    }
  }

  /** The inductive step of `InsertKeeps`: iteration `i`, then the iterations after it. */
  lemma {:induction false} NextInsert(t: seq<Step>, A: seq<int>, input: seq<int>, i: nat, T: seq<Step>)
    requires 0 < i < |A| == |input| && PrefixInserted(A, input, i)
    requires Traced(t, A, input)
    requires t != [] ==> Last(t).comparing == []
    requires T == t + InsertionSteps(A, i)
    ensures Whole(T, input)
    decreases |A| - i, 0
  {
    var B := Inserted(A, i);
    var u := t + IterSteps(A, i);
    IterKeeps(t, A, input, i);
    InsertNext(A, i, t, u, T, B);
    InsertKeeps(u, B, input, i + 1, T);
  }

  /** Before the first iteration the one-element prefix counts as inserted. */
  lemma Untouched(input: seq<int>)
    requires 0 < |input|
    ensures PrefixInserted(input, input, 1)
  {
  }

  /** The whole trace `insertionSort` records is finished. */
  lemma Complete(input: seq<int>, steps: seq<Step>)
    requires steps == InsertionSteps(input, 1)
    ensures Whole(steps, input)
  {
    if |input| >= 2 {
      Untouched(input);
      InsertKeeps([], input, input, 1, steps);
    }
  }

  /**
   * The trace `insertionSort` records is empty for fewer than two values and
   * otherwise ends with the input sorted; every step and every two
   * consecutive steps are valid.
   */
  lemma TraceOk(input: seq<int>, steps: seq<Step>)
    requires steps == InsertionSteps(input, 1)
    ensures |input| < 2 ==> steps == []
    ensures |input| >= 2 ==> EndsSorted(steps, input)
    ensures forall k :: 0 <= k < |steps| ==> StepOk(steps[k], input)
    ensures forall k :: 0 <= k < |steps| - 1 ==> PairOk(steps[k], steps[k + 1])
    ensures steps != [] ==> steps[0].swapping == [] && Last(steps).comparing == []
  {
    Complete(input, steps);
  }

  /**
   * The inner loop of iteration `i`: as long as the left neighbour of the
   * hole exceeds `key`, records the test of the pair, moves that neighbour into
   * the hole and records the shift. Returns the final hole position `p`.
   */
  method ShiftRight(a: array<int>, i: nat, key: int, steps0: seq<Step>, ghost A: seq<int>)
    returns (p: nat, steps: seq<Step>)
    requires 0 < i < a.Length == |A| && a[..] == Shifted(A, i - 1, i) && key == A[i]
    modifies a
    ensures p == HoleFrom(A, i, i - 1) && a[..] == Shifted(A, p - 1, i)
    ensures steps == steps0 + Shifts(A, p - 1, i)
  {
    var j := i - 1;
    steps := steps0;
    while j >= 0
      invariant -1 <= j <= i - 1 && a.Length == |A|
      invariant a[..] == Shifted(A, j, i)
      invariant HoleFrom(A, i, j) == HoleFrom(A, i, i - 1)
      invariant steps == steps0 + Shifts(A, j, i)
    {
      ShiftedNext(A, j, i);
      if a[j] <= key {
        break;
      }
      steps := ShiftOne(a, i, j, steps, steps0, A);
      j := j - 1;
    }
    p := j + 1;
  }

  /** The start step of iteration `i` and its recorded shifts extend the trace. */
  lemma StartShifts(steps0: seq<Step>, A: seq<int>, p: nat, i: nat, input: seq<int>)
    requires 0 < i < |A| == |input| && p <= i
    requires PrefixInserted(A, input, i) && Traced(steps0, A, input)
    requires steps0 != [] ==> Last(steps0).comparing == []
    ensures var t := steps0 + [Plain(A, [i], [], Upto(i))] + Shifts(A, p - 1, i);
      Traced(t, Shifted(A, p - 1, i), input) && |Last(t).comparing| != 2
  {
    var start := Plain(A, [i], [], Upto(i));
    Append(steps0, A, start, input);
    ShiftsTraced(steps0 + [start], A, p - 1, i, input);
  }

  /**
   * The bookkeeping of iteration `i`: the start step, the recorded shifts and
   * the marker extend the trace, and writing the key into the hole at `p`
   * extends the inserted prefix.
   */
  lemma InsertDone(steps0: seq<Step>, A: seq<int>, p: nat, i: nat, input: seq<int>, B: seq<int>)
    requires 0 < i < |A| == |input| && p <= i
    requires PrefixInserted(A, input, i) && Traced(steps0, A, input)
    requires steps0 != [] ==> Last(steps0).comparing == []
    requires p > 0 ==> A[p - 1] <= A[i]
    requires forall x :: p <= x < i ==> A[x] > A[i]
    requires B == Shifted(A, p - 1, i)[p := A[i]]
    ensures PrefixInserted(B, input, i + 1)
    ensures var t := steps0 + [Plain(A, [i], [], Upto(i))] + Shifts(A, p - 1, i) + [Plain(B, [], [], Upto(i + 1))];
      Traced(t, B, input) && Last(t).comparing == [] && Last(t).sorted == Upto(i + 1)
  {
    StartShifts(steps0, A, p, i, input);
    KeyPlaced(A, input, i, p, B);
    var t := steps0 + [Plain(A, [i], [], Upto(i))] + Shifts(A, p - 1, i);
    Append(t, Shifted(A, p - 1, i), Plain(B, [], [], Upto(i + 1)), input);
  }

  /**
   * Iteration `i`: records the start step, shifts the larger elements of
   * the sorted prefix right (see `ShiftRight`), writes the key into the hole
   * and records the marker for `[0, i + 1)`.
   */
  method InsertKey(a: array<int>, i: nat, steps0: seq<Step>) returns (steps: seq<Step>)
    requires 0 < i < a.Length
    modifies a
    ensures a[..] == Inserted(old(a[..]), i)
    ensures steps == steps0 + IterSteps(old(a[..]), i)
  {
    ghost var A := a[..];
    var key := a[i];
    var start := Plain(a[..], [i], [], Upto(i));
    ShiftedNone(A, i);
    var p: int;
    p, steps := ShiftRight(a, i, key, steps0 + [start], A);
    ghost var shifted := a[..];
    a[p] := key;
    assert a[..] == shifted[p := key];
    steps := steps + [Plain(a[..], [], [], Upto(i + 1))];
    IterForm(steps0, A, i);
  }

  /** Iteration `i` consumes its part of what remains of the trace `G`. */
  method InsertOn(a: array<int>, i: nat, steps0: seq<Step>, ghost G: seq<Step>) returns (steps: seq<Step>)
    requires 0 < i < a.Length && steps0 + InsertionSteps(a[..], i) == G
    modifies a
    ensures steps + InsertionSteps(a[..], i + 1) == G
  {
    ghost var A := a[..];
    steps := InsertKey(a, i, steps0);
    InsertNext(A, i, steps0, steps, G, a[..]);
  }

  /** The outer loop of `insertionSort`: iterations `1 .. n - 1`, in place. */
  method Iterations(a: array<int>) returns (steps: seq<Step>)
    modifies a
    ensures steps == InsertionSteps(old(a[..]), 1)
  {
    ghost var G := InsertionSteps(a[..], 1);
    steps := [];
    var i := 1;
    while i < a.Length
      invariant 1 <= i
      invariant steps + InsertionSteps(a[..], i) == G
    {
      steps := InsertOn(a, i, steps, G);
      i := i + 1;
    }
    InsertionDone(a[..], i, steps, G);
  }

  /** `insertionSort(array)`: iterations `1 .. n - 1` over a copy of the input. */
  method InsertionSort(input: seq<int>) returns (steps: seq<Step>)
    ensures steps == InsertionSteps(input, 1)
  {
    var n := |input|;
    var a := new int[n](x requires 0 <= x < n => input[x]);
    assert a[..] == input;
    steps := Iterations(a);
  }
}
