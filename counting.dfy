/**
 * Counting Sort trace generator: tallies how often each value occurs
 * (one `comparing = [i]` step per element, array unchanged), turns the tally
 * into running totals, then scans the input from the right, writing each
 * element into an output buffer at its total minus one and decrementing the
 * total. After every placement the assembled part of the buffer is copied
 * over the working array and a step reports the decremented total. A final
 * step marks every index sorted. Values must be non-negative, because they
 * index the tally.
 */
module Counting {
  import opened Steps

  predicate NonNegative(s: seq<int>)
  {
    forall k :: 0 <= k < |s| ==> s[k] >= 0
  }

  /** The largest element. */
  function Max(s: seq<int>): (m: int)
    requires s != []
    ensures forall k :: 0 <= k < |s| ==> s[k] <= m
    ensures m in s
  {
    if |s| == 1 then s[0]
    else
      var r := Max(s[1..]);
      if s[0] >= r then s[0] else r
  }

  /** How many elements of `s` equal `v`. */
  function Occurrences(s: seq<int>, v: int): nat
  {
    if s == [] then 0 else Occurrences(s[..|s| - 1], v) + (if s[|s| - 1] == v then 1 else 0)
  }

  /** How many elements of `s` are smaller than `v`. */
  function Smaller(s: seq<int>, v: int): nat
  {
    if s == [] then 0 else Smaller(s[..|s| - 1], v) + (if s[|s| - 1] < v then 1 else 0)
  }

  lemma {:induction false} SmallerNext(s: seq<int>, v: int)
    ensures Smaller(s, v + 1) == Smaller(s, v) + Occurrences(s, v)
  {
    if s != [] {
      SmallerNext(s[..|s| - 1], v);
    }
  }

  lemma {:induction false} SmallerMono(s: seq<int>, v: int, w: int)
    requires v <= w
    ensures Smaller(s, v) <= Smaller(s, w)
  {
    if s != [] {
      SmallerMono(s[..|s| - 1], v, w);
    }
  }

  lemma {:induction false} SmallerAtMost(s: seq<int>, v: int)
    ensures Smaller(s, v) <= |s|
  {
    if s != [] {
      SmallerAtMost(s[..|s| - 1], v);
    }
  }

  /** No element is below 0, since none is negative. */
  lemma {:induction false} SmallerNone(s: seq<int>)
    requires NonNegative(s)
    ensures Smaller(s, 0) == 0
  {
    if s != [] {
      SmallerNone(s[..|s| - 1]);
    }
  }

  /** Every element is below `m + 1` when `m` bounds them all. */
  lemma {:induction false} SmallerAll(s: seq<int>, m: int)
    requires forall k :: 0 <= k < |s| ==> s[k] <= m
    ensures Smaller(s, m + 1) == |s|
  {
    if s != [] {
      SmallerAll(s[..|s| - 1], m);
    }
  }

  /** A prefix holds no more copies of `v` than the whole sequence. */
  lemma {:induction false} OccurrencesPrefix(s: seq<int>, i: nat, v: int)
    requires i <= |s|
    ensures Occurrences(s[..i], v) <= Occurrences(s, v)
    decreases |s|
  {
    if i < |s| {
      assert s[..|s| - 1][..i] == s[..i];
      OccurrencesPrefix(s[..|s| - 1], i, v);
    } else {
      assert s[..i] == s;
    }
  }

  /** Extending a prefix by `s[i]` adds one copy of `s[i]` and none of any other value. */
  lemma OccurrencesStep(s: seq<int>, i: nat, v: int)
    requires i < |s|
    ensures Occurrences(s[..i + 1], v) == Occurrences(s[..i], v) + (if s[i] == v then 1 else 0)
  {
    assert s[..i + 1][..i] == s[..i];
  }

  /**
   * Where counting sort puts `s[i]`: after every smaller element and after
   * every equal element that comes earlier in the input. It lies in the
   * band of positions that its value occupies.
   */
  function Rank(s: seq<int>, i: nat): (r: nat)
    requires i < |s|
    ensures Smaller(s, s[i]) <= r < Smaller(s, s[i] + 1) <= |s|
  {
    OccurrencesStep(s, i, s[i]);
    OccurrencesPrefix(s, i + 1, s[i]);
    SmallerNext(s, s[i]);
    SmallerAtMost(s, s[i] + 1);
    Smaller(s, s[i]) + Occurrences(s[..i], s[i])
  }

  /** Stability: of two equal elements, the earlier one is placed first. */
  lemma RankStable(s: seq<int>, i: nat, k: nat)
    requires i < k < |s| && s[i] == s[k]
    ensures Rank(s, i) < Rank(s, k)
  {
    OccurrencesStep(s, i, s[i]);
    assert s[..k][..i + 1] == s[..i + 1];
    OccurrencesPrefix(s[..k], i + 1, s[i]);
  }

  /** A smaller element is placed before a larger one. */
  lemma RankOrdered(s: seq<int>, i: nat, k: nat)
    requires i < |s| && k < |s| && s[i] < s[k]
    ensures Rank(s, i) < Rank(s, k)
  {
    SmallerMono(s, s[i] + 1, s[k]);
  }

  /**
   * The value whose band holds position `p`, searching upwards from `v`: the
   * first `b` whose band ends after `p`.
   */
  function Owner(s: seq<int>, p: nat, v: int): (b: int)
    requires s != [] && NonNegative(s) && p < |s| && 0 <= v <= Max(s) && Smaller(s, v) <= p
    ensures v <= b <= Max(s) && Smaller(s, b) <= p < Smaller(s, b + 1)
    decreases Max(s) - v
  {
    SmallerAll(s, Max(s));
    if p < Smaller(s, v + 1) then v else Owner(s, p, v + 1)
  }

  /**
   * The sorted arrangement counting sort produces: each value's band of
   * positions, in increasing order of value, holds that value.
   */
  function Expected(s: seq<int>): (r: seq<int>)
    requires s != [] && NonNegative(s)
    ensures |r| == |s|
    ensures forall p :: 0 <= p < |r| ==> 0 <= r[p] <= Max(s) && Smaller(s, r[p]) <= p < Smaller(s, r[p] + 1)
  {
    SmallerNone(s);
    seq(|s|, p requires 0 <= p < |s| => Owner(s, p, 0))
  }

  /** Bands do not overlap: a position lies in the band of one value only. */
  lemma BandOwner(s: seq<int>, p: int, v: int, w: int)
    requires Smaller(s, v) <= p < Smaller(s, v + 1) && Smaller(s, w) <= p < Smaller(s, w + 1)
    ensures v == w
  {
    if v < w {
      SmallerMono(s, v + 1, w);
    } else if w < v {
      SmallerMono(s, w + 1, v);
    }
  }

  lemma ExpectedSorted(s: seq<int>)
    requires s != [] && NonNegative(s)
    ensures Sorted(Expected(s))
  {
    var e := Expected(s);
    forall p, q | 0 <= p < q < |e|
      ensures e[p] <= e[q]
    {
      if e[q] < e[p] {
        SmallerMono(s, e[q] + 1, e[p]);
      }
    }
  }

  lemma {:induction false} MultisetCount(s: seq<int>, x: int)
    ensures multiset(s)[x] == Occurrences(s, x)
  {
    if s != [] {
      MultisetCount(s[..|s| - 1], x);
      assert s == s[..|s| - 1] + [s[|s| - 1]];
    }
  }

  /** The copies of `x` among the first `k` positions of `e`, when `e` holds `x` exactly at `[lo, hi)`. */
  lemma {:induction false} CountBand(e: seq<int>, x: int, lo: int, hi: int, k: nat)
    requires 0 <= lo <= hi <= |e| && k <= |e|
    requires forall p :: 0 <= p < |e| ==> (e[p] == x <==> lo <= p < hi)
    ensures multiset(e[..k])[x] == if k <= lo then 0 else if k <= hi then k - lo else hi - lo
  {
    if k > 0 {
      CountBand(e, x, lo, hi, k - 1);
      assert e[..k] == e[..k - 1] + [e[k - 1]];
    }
  }

  /** The sorted result holds `x` exactly at the positions of the band of `x`. */
  lemma ExpectedBand(s: seq<int>, x: int)
    requires s != [] && NonNegative(s)
    ensures Smaller(s, x + 1) == Smaller(s, x) + Occurrences(s, x) <= |s|
    ensures forall p :: 0 <= p < |s| ==> (Expected(s)[p] == x <==> Smaller(s, x) <= p < Smaller(s, x + 1))
  {
    SmallerNext(s, x);
    SmallerAtMost(s, x + 1);
    var e := Expected(s);
    forall p | 0 <= p < |e|
      ensures e[p] == x <==> Smaller(s, x) <= p < Smaller(s, x + 1)
    {
      if Smaller(s, x) <= p < Smaller(s, x + 1) {
        BandOwner(s, p, e[p], x);
      }
    }
  }

  lemma ExpectedPermutes(s: seq<int>)
    requires s != [] && NonNegative(s)
    ensures multiset(Expected(s)) == multiset(s)
  {
    var e := Expected(s);
    forall x
      ensures multiset(e)[x] == multiset(s)[x]
    {
      MultisetCount(s, x);
      if 0 <= x <= Max(s) {
        ExpectedBand(s, x);
        CountBand(e, x, Smaller(s, x), Smaller(s, x + 1), |e|);
        assert e[..|e|] == e;
      } else {
        assert x !in s;
        assert x !in e;
      }
    }
  }

  /** The running total of value `v` once the elements `s[i..]` have been placed. */
  function Threshold(s: seq<int>, i: nat, v: int): nat
    requires i <= |s|
  {
    Smaller(s, v) + Occurrences(s[..i], v)
  }

  /**
   * The working array after the elements `s[i..]` have been placed: the
   * positions already written hold their final value, the others still hold
   * the input's.
   */
  ghost function Assembled(s: seq<int>, i: nat): (r: seq<int>)
    requires s != [] && NonNegative(s) && i <= |s|
    ensures |r| == |s|
  {
    var e := Expected(s);
    seq(|s|, p requires 0 <= p < |s| => if p >= Threshold(s, i, e[p]) then e[p] else s[p])
  }

  /** Before any placement the working array is the input. */
  lemma AssembledNone(s: seq<int>)
    requires s != [] && NonNegative(s)
    ensures Assembled(s, |s|) == s
  {
    assert s[..|s|] == s;
    forall p | 0 <= p < |s|
      ensures Assembled(s, |s|)[p] == s[p]
    {
      SmallerNext(s, Expected(s)[p]);
    }
  }

  /** After every placement the working array is the sorted result. */
  lemma AssembledAll(s: seq<int>)
    requires s != [] && NonNegative(s)
    ensures Assembled(s, 0) == Expected(s)
  {
    forall p | 0 <= p < |s|
      ensures Assembled(s, 0)[p] == Expected(s)[p]
    {
    }
  }

  /** The sorted result holds `s[i]` at `Rank(s, i)`. */
  lemma ExpectedAtRank(s: seq<int>, i: nat)
    requires s != [] && NonNegative(s) && i < |s|
    ensures Rank(s, i) < |s| && Expected(s)[Rank(s, i)] == s[i]
  {
    BandOwner(s, Rank(s, i), Expected(s)[Rank(s, i)], s[i]);
  }

  /** Every placement step describes an array of the input's length and names one of its positions. */
  lemma {:induction false} PlacementsWellFormed(s: seq<int>, i: nat)
    requires s != [] && NonNegative(s) && i <= |s|
    ensures AllWellFormed(Placements(s, i), |s|)
    decreases |s| - i
  {
    if i < |s| {
      PlacementsWellFormed(s, i + 1);
      var t := Placements(s, i + 1);
      var x := Plain(Assembled(s, i), [], [Rank(s, i)], []);
      assert WellFormed(x, |s|);
      assert Placements(s, i) == t + [x];
    }
  }

  /** Every tally step names one index of the input. */
  lemma TalliesWellFormed(s: seq<int>)
    ensures AllWellFormed(Tallies(s), |s|)
  {
    var tallies := Tallies(s);
    forall k | 0 <= k < |tallies|
      ensures WellFormed(tallies[k], |s|)
    {
      assert tallies[k] == Plain(s, [k], [], []);
    }
  }

  /** Appending a final step over an array of the right length keeps a trace well formed. */
  lemma FinalWellFormed(t: seq<Step>, e: seq<int>, n: nat)
    requires AllWellFormed(t, n) && |e| == n
    ensures AllWellFormed(t + [Plain(e, [], [], Upto(n))], n)
  {
    ConcatWellFormed(t, [Plain(e, [], [], Upto(n))], n);
  }

  /** The whole counting-sort trace names only indices of the input. */
  lemma TraceWellFormed(s: seq<int>)
    requires s != [] && NonNegative(s)
    ensures AllWellFormed(Tallies(s) + Placements(s, 0) + [Plain(Expected(s), [], [], Upto(|s|))], |s|)
  {
    TalliesWellFormed(s);
    PlacementsWellFormed(s, 0);
    ConcatWellFormed(Tallies(s), Placements(s, 0), |s|);
    FinalWellFormed(Tallies(s) + Placements(s, 0), Expected(s), |s|);
  }

  /** The step that places `s[i]` shows `s[i]` at `Rank(s, i)`. */
  lemma AssembledAtRank(s: seq<int>, i: nat)
    requires s != [] && NonNegative(s) && i < |s|
    ensures Rank(s, i) < |s| && Assembled(s, i)[Rank(s, i)] == s[i]
  {
    ExpectedAtRank(s, i);
  }

  /** The tally `c` holds the running totals once the elements `s[i..]` have been placed. */
  ghost predicate Totals(c: seq<int>, s: seq<int>, i: nat)
    requires s != [] && i <= |s|
  {
    |c| == Max(s) + 1 && forall v :: 0 <= v < |c| ==> c[v] == Threshold(s, i, v)
  }

  /** The output buffer holds the final value at every position at or above its value's running total. */
  ghost predicate Filled(out: seq<Option<int>>, s: seq<int>, c: seq<int>)
    requires s != [] && NonNegative(s) && |c| == Max(s) + 1
  {
    && |out| == |s|
    && forall p :: 0 <= p < |s| ==>
         out[p] == if p >= c[Expected(s)[p]] then Some(Expected(s)[p]) else None
  }

  /** `base` with every defined entry of `out` copied over it. */
  function Overlay(base: seq<int>, out: seq<Option<int>>): (r: seq<int>)
    requires |out| == |base|
    ensures |r| == |base|
    ensures forall j :: 0 <= j < |base| && out[j].Some? ==> r[j] == out[j].value
    ensures forall j :: 0 <= j < |base| && out[j].None? ==> r[j] == base[j]
  {
    seq(|base|, j requires 0 <= j < |base| => if out[j].Some? then out[j].value else base[j])
  }

  /**
   * Placing `s[i]`: its running total minus one is its rank, and
   * decrementing the total leaves the totals of the elements before it.
   */
  lemma PlaceTotals(s: seq<int>, i: nat, c: seq<int>, pos: int)
    requires s != [] && NonNegative(s) && i < |s| && Totals(c, s, i + 1)
    requires pos == c[s[i]] - 1
    ensures pos == Rank(s, i)
    ensures Totals(c[s[i] := pos], s, i)
  {
    OccurrencesStep(s, i, s[i]);
    forall w | 0 <= w < |c|
      ensures c[s[i] := pos][w] == Threshold(s, i, w)
    {
      OccurrencesStep(s, i, w);
    }
  }

  /** Filling the slot and decrementing the total of its value keeps the buffer in step with the totals. */
  lemma FillSlot(s: seq<int>, c: seq<int>, out: seq<Option<int>>, pos: nat, v: int)
    requires s != [] && NonNegative(s) && |c| == Max(s) + 1 && Filled(out, s, c)
    requires pos < |s| && Expected(s)[pos] == v && c[v] == pos + 1
    ensures out[pos] == None
    ensures Filled(out[pos := Some(v)], s, c[v := pos])
  {
    var e, out', c' := Expected(s), out[pos := Some(v)], c[v := pos];
    forall p | 0 <= p < |s|
      ensures out'[p] == if p >= c'[e[p]] then Some(e[p]) else None
    {
      if p != pos && e[p] == v {
        assert out'[p] == out[p] && c'[e[p]] == pos && c[e[p]] == pos + 1;
      }
    }
  }

  /** Copying the buffer over the working array after placing `s[i]` yields the next assembled array. */
  lemma PlaceAssembled(s: seq<int>, i: nat, c: seq<int>, out: seq<Option<int>>, tmp: seq<int>)
    requires s != [] && NonNegative(s) && i < |s|
    requires Totals(c, s, i) && Filled(out, s, c) && tmp == Assembled(s, i + 1)
    ensures Overlay(tmp, out) == Assembled(s, i)
  {
    forall p | 0 <= p < |s|
      ensures Overlay(tmp, out)[p] == Assembled(s, i)[p]
    {
      OccurrencesStep(s, i, Expected(s)[p]);
    }
  }

  /** The steps of the tally loop: one per element, comparing it, over the unchanged array. */
  function Tallies(s: seq<int>): (r: seq<Step>)
    ensures |r| == |s| && forall i :: 0 <= i < |s| ==> r[i] == Plain(s, [i], [], [])
  {
    seq(|s|, i requires 0 <= i < |s| => Plain(s, [i], [], []))
  }

  /**
   * The tally loop: counts every value and records a step per element with
   * the element under comparison and the array as given.
   */
  method Tally(input: seq<int>, count: array<int>, tempArr: array<int>) returns (steps: seq<Step>)
    requires count != tempArr && tempArr[..] == input
    requires forall k :: 0 <= k < |input| ==> 0 <= input[k] < count.Length
    requires forall v :: 0 <= v < count.Length ==> count[v] == 0
    modifies count
    ensures forall v :: 0 <= v < count.Length ==> count[v] == Occurrences(input, v)
    ensures steps == Tallies(input)
  {
    steps := [];
    var i := 0;
    while i < |input|
      invariant 0 <= i <= |input|
      invariant forall v :: 0 <= v < count.Length ==> count[v] == Occurrences(input[..i], v)
      invariant |steps| == i && forall k :: 0 <= k < i ==> steps[k] == Plain(input, [k], [], [])
    {
      forall v | 0 <= v < count.Length
        ensures Occurrences(input[..i + 1], v) == Occurrences(input[..i], v) + (if input[i] == v then 1 else 0)
      {
        OccurrencesStep(input, i, v);
      }
      count[input[i]] := count[input[i]] + 1;
      steps := steps + [Plain(tempArr[..], [i], [], [])];
      i := i + 1;
    }
    assert input[..i] == input;
    assert steps == Tallies(input);
  }

  /** Turns the tally into running totals: `count[v]` becomes the number of elements at most `v`. */
  method PrefixSums(count: array<int>, ghost input: seq<int>)
    requires count.Length >= 1 && NonNegative(input)
    requires forall v :: 0 <= v < count.Length ==> count[v] == Occurrences(input, v)
    modifies count
    ensures forall v :: 0 <= v < count.Length ==> count[v] == Smaller(input, v + 1)
  {
    SmallerNone(input);
    SmallerNext(input, 0);
    var i := 1;
    while i < count.Length
      invariant 1 <= i <= count.Length
      invariant forall v :: 0 <= v < i ==> count[v] == Smaller(input, v + 1)
      invariant forall v :: i <= v < count.Length ==> count[v] == Occurrences(input, v)
    {
      SmallerNext(input, i);
      count[i] := count[i] + count[i - 1];
      i := i + 1;
    }
  }

  /** Copies every defined entry of the output buffer over the working array. */
  method CopyPlaced(output: array<Option<int>>, tempArr: array<int>)
    requires output.Length == tempArr.Length
    modifies tempArr
    ensures tempArr[..] == Overlay(old(tempArr[..]), output[..])
  {
    var j := 0;
    while j < output.Length
      invariant 0 <= j <= output.Length
      invariant forall x :: 0 <= x < j ==> tempArr[x] == if output[x].Some? then output[x].value else old(tempArr[x])
      invariant forall x :: j <= x < tempArr.Length ==> tempArr[x] == old(tempArr[x])
    {
      if output[j].Some? {
        tempArr[j] := output[j].value;
      }
      j := j + 1;
    }
  }

  /**
   * The steps of the placement loop once it has placed `s[i..]`, from the
   * right: each shows the assembled array and the rank of the element placed.
   */
  ghost function Placements(s: seq<int>, i: nat): (r: seq<Step>)
    requires s != [] && NonNegative(s) && i <= |s|
    ensures |r| == |s| - i
    decreases |s| - i
  {
    if i == |s| then [] else Placements(s, i + 1) + [Plain(Assembled(s, i), [], [Rank(s, i)], [])]
  }

  /**
   * The step that places `s[i]` reports the position it wrote, and that
   * position now holds `s[i]`.
   */
  lemma PlacementReportsWrite(s: seq<int>, i: nat)
    requires s != [] && NonNegative(s) && i < |s|
    ensures |Placements(s, 0)| == |s| && Rank(s, i) < |s| && |Placements(s, 0)[|s| - 1 - i].arr| == |s|
    ensures Placements(s, 0)[|s| - 1 - i].swapping == [Rank(s, i)]
    ensures Placements(s, 0)[|s| - 1 - i].arr[Rank(s, i)] == s[i]
  {
    PlacementAt(s, 0, i);
    AssembledAtRank(s, i);
  }

  lemma PlacementsNext(pre: seq<Step>, s: seq<int>, i: nat)
    requires s != [] && NonNegative(s) && i < |s|
    ensures pre + Placements(s, i + 1) + [Plain(Assembled(s, i), [], [Rank(s, i)], [])] == pre + Placements(s, i)
  {
  }

  /** The placement of `s[j]` is the `(|s| - 1 - j)`-th placement step. */
  lemma {:induction false} PlacementAt(s: seq<int>, i: nat, j: nat)
    requires s != [] && NonNegative(s) && i <= j < |s|
    ensures |Placements(s, i)| == |s| - i
    ensures Placements(s, i)[|s| - 1 - j] == Plain(Assembled(s, j), [], [Rank(s, j)], [])
    decreases |s| - i
  {
    if i < j {
      PlacementAt(s, i + 1, j);
    } else if j + 1 < |s| {
      PlacementAt(s, j + 1, j + 1);
    }
  }

  /** Before any placement the totals count every element, the buffer is empty and the working array is the input. */
  lemma PlaceStart(s: seq<int>, c: seq<int>, out: seq<Option<int>>)
    requires s != [] && NonNegative(s) && |c| == Max(s) + 1 && |out| == |s|
    requires forall v :: 0 <= v < |c| ==> c[v] == Smaller(s, v + 1)
    requires forall p :: 0 <= p < |out| ==> out[p] == None
    ensures Totals(c, s, |s|) && Filled(out, s, c) && Assembled(s, |s|) == s
  {
    AssembledNone(s);
    assert s[..|s|] == s;
    forall v | 0 <= v < |c|
      ensures c[v] == Threshold(s, |s|, v)
    {
      SmallerNext(s, v);
    }
    forall p | 0 <= p < |s|
      ensures p < c[Expected(s)[p]]
    {
    }
  }

  /**
   * One round of the placement loop for `input[i]`: writes it at its
   * running total minus one, decrements the total, copies the buffer over the
   * working array and records the decremented total.
   */
  method PlaceNext(input: seq<int>, count: array<int>, output: array<Option<int>>, tempArr: array<int>,
                   i: nat, steps0: seq<Step>) returns (steps: seq<Step>)
    requires input != [] && NonNegative(input) && count != tempArr && i < |input|
    requires output.Length == tempArr.Length == |input|
    requires Totals(count[..], input, i + 1) && Filled(output[..], input, count[..])
    requires tempArr[..] == Assembled(input, i + 1)
    modifies count, output, tempArr
    ensures Totals(count[..], input, i) && Filled(output[..], input, count[..])
    ensures tempArr[..] == Assembled(input, i)
    ensures steps == steps0 + [Plain(Assembled(input, i), [], [Rank(input, i)], [])]
  {
    var v := input[i];
    var pos := count[v] - 1;
    ghost var c := count[..];
    PlaceTotals(input, i, c, pos);
    ExpectedAtRank(input, i);
    FillSlot(input, c, output[..], pos, v);
    output[pos] := Some(v);
    count[v] := count[v] - 1;
    assert count[..] == c[v := pos];
    ghost var tmp := tempArr[..];
    CopyPlaced(output, tempArr);
    PlaceAssembled(input, i, count[..], output[..], tmp);
    steps := steps0 + [Plain(tempArr[..], [], [count[v]], [])];
  }

  /**
   * The placement loop: from the right, writes each element at its running
   * total minus one, decrements the total, copies the buffer over the
   * working array and records the decremented total as the swap index.
   */
  method Place(input: seq<int>, count: array<int>, output: array<Option<int>>, tempArr: array<int>,
               steps0: seq<Step>) returns (steps: seq<Step>)
    requires input != [] && NonNegative(input) && count != tempArr
    requires count.Length == Max(input) + 1 && output.Length == tempArr.Length == |input|
    requires forall v :: 0 <= v < count.Length ==> count[v] == Smaller(input, v + 1)
    requires forall p :: 0 <= p < output.Length ==> output[p] == None
    requires tempArr[..] == input
    modifies count, output, tempArr
    ensures tempArr[..] == Expected(input)
    ensures steps == steps0 + Placements(input, 0)
  {
    var n := |input|;
    PlaceStart(input, count[..], output[..]);
    steps := steps0;
    var i := n - 1;
    while i >= 0
      invariant -1 <= i < n
      invariant Totals(count[..], input, i + 1)
      invariant Filled(output[..], input, count[..])
      invariant tempArr[..] == Assembled(input, i + 1)
      invariant steps == steps0 + Placements(input, i + 1)
    {
      PlacementsNext(steps0, input, i);
      steps := PlaceNext(input, count, output, tempArr, i, steps);
      i := i - 1;
    }
    AssembledAll(input);
  }

  /** The final step shows the sorted result and marks every index. */
  lemma FinalStep(steps: seq<Step>, s: seq<int>)
    requires s != [] && NonNegative(s)
    ensures EndsSorted(steps + [Plain(Expected(s), [], [], Upto(|s|))], s)
  {
    ExpectedSorted(s);
    ExpectedPermutes(s);
  }

  method CountingSort(input: seq<int>) returns (steps: seq<Step>)
    requires input != [] && NonNegative(input)
    ensures steps == Tallies(input) + Placements(input, 0) + [Plain(Expected(input), [], [], Upto(|input|))]
    ensures EndsSorted(steps, input)
  {
    var n := |input|;
    var max := Max(input);
    var count := new int[max + 1](_ => 0);
    var tempArr := new int[n](x requires 0 <= x < n => input[x]);
    assert tempArr[..] == input;
    steps := Tally(input, count, tempArr);
    PrefixSums(count, input);
    var output := new Option<int>[n](_ => None);
    steps := Place(input, count, output, tempArr, steps);
    FinalStep(steps, input);
    steps := steps + [Plain(tempArr[..], [], [], Upto(n))];
  }
}
