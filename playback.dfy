/**
 * The playback controller of the visualizer. `Start` (the Start/Pause
 * button) either pauses a running animation or generates the trace of the
 * selected algorithm over the displayed array and arms playback; `Tick` is
 * one firing of the animation timer, which shows the next step; `Reset`
 * clears playback. Timers and rendering are not modelled: a tick is a plain
 * call.
 */
module Playback {
  import opened Steps
  import Bubble
  import Selection
  import Insertion
  import Merge
  import Quick
  import Counting

  /** The display names of the algorithm keys. */
  const Names: map<string, string> := map[
    "bubble" := "Bubble Sort",
    "selection" := "Selection Sort",
    "insertion" := "Insertion Sort",
    "merge" := "Merge Sort",
    "quick" := "Quick Sort",
    "counting" := "Counting Sort"]

  /**
   * The name shown for `key`: absent (`undefined`) for a key without an
   * entry. Exactly the keys with a generator of their own have a name.
   */
  function NameOf(key: string): (r: Option<string>)
    ensures r.Some? <==> key in Generators
  {
    if key in Names then Some(Names[key]) else None
  }

  /**
   * What the generators assume of their input: Merge Sort and Counting Sort
   * need a non-empty array, Counting Sort also non-negative values. Every
   * other key runs on any array, the empty one included.
   */
  predicate Runnable(key: string, arr: seq<int>)
    ensures key != "merge" && key != "counting" ==> Runnable(key, arr)
    ensures arr == [] ==> (Runnable(key, arr) <==> key != "merge" && key != "counting")
  {
    && (key == "merge" ==> arr != [])
    && (key == "counting" ==> arr != [] && Counting.NonNegative(arr))
  }

  /** The keys with a generator of their own; every other key runs Bubble Sort. */
  const Generators: set<string> := {"bubble", "selection", "insertion", "merge", "quick", "counting"}

  /**
   * What every generator promises about its trace: every step describes an
   * array of the input's length and names only its indices, and a non-empty
   * trace ends with the input sorted and every index marked. Only Insertion
   * Sort on fewer than two elements records nothing.
   */
  ghost predicate Played(key: string, arr: seq<int>, steps: seq<Step>)
  {
    && AllWellFormed(steps, |arr|)
    && (steps == [] ==> key == "insertion" && |arr| < 2)
    && (steps != [] ==> EndsSorted(steps, arr))
  }

  /**
   * The trace `Generate` returns for `key` on `arr`: exactly the one its
   * generator records (Bubble Sort's for a key without a generator), which
   * has the properties above. The trace is empty exactly for Insertion
   * Sort on fewer than two elements.
   */
  ghost predicate Generated(key: string, arr: seq<int>, steps: seq<Step>)
    ensures Generated(key, arr, steps) ==> (steps == [] <==> key == "insertion" && |arr| < 2)
  {
    && (key == "bubble" || key !in Generators ==> steps == Bubble.BubbleSteps(arr, 0))
    && (key == "selection" ==> steps == Selection.SelectSteps(arr, 0))
    && (key == "insertion" ==> steps == Insertion.InsertionSteps(arr, 1))
    && (key == "merge" ==> arr != [] && steps == Merge.MergeRun(arr))
    && (key == "quick" ==> steps == Quick.QuickRun(arr))
    && (key == "counting" ==>
          && arr != [] && Counting.NonNegative(arr)
          && steps == Counting.Tallies(arr) + Counting.Placements(arr, 0)
                      + [Plain(Counting.Expected(arr), [], [], Upto(|arr|))])
    && Played(key, arr, steps)
  }

  /** A key and an array determine the trace: every generator is deterministic. */
  lemma GeneratedUnique(key: string, arr: seq<int>, steps: seq<Step>, other: seq<Step>)
    requires Generated(key, arr, steps) && Generated(key, arr, other)
    ensures steps == other
  {
  }

  /** Runs the generator of `key` on `arr`; a key without a generator falls back to Bubble Sort. */
  method Generate(key: string, arr: seq<int>) returns (steps: seq<Step>)
    requires Runnable(key, arr)
    ensures Generated(key, arr, steps)
  {
    if key == "bubble" {
      steps := Bubble.BubbleSort(arr);
      Bubble.TraceOk(arr, steps);
    } else if key == "selection" {
      steps := Selection.SelectionSort(arr);
      Selection.TraceOk(arr, steps);
    } else if key == "insertion" {
      steps := Insertion.InsertionSort(arr);
      Insertion.TraceOk(arr, steps);
    } else if key == "merge" {
      steps := Merge.MergeSort(arr);
    } else if key == "quick" {
      steps := Quick.QuickSort(arr);
      Quick.TraceOk(arr, steps);
    } else if key == "counting" {
      steps := Counting.CountingSort(arr);
      Counting.TraceWellFormed(arr);
    } else {
      steps := Bubble.BubbleSort(arr);
      Bubble.TraceOk(arr, steps);
    }
  }

  /** The delay between two ticks for a slider position: the slider shows `1000 - delay`. */
  function DelayOf(slider: int): (delay: int)
    ensures 1000 - delay == slider
  {
    1000 - slider
  }

  class Player {
    /** The values on display. */
    var arr: seq<int>
    var selectedAlgorithm: string
    var isAnimating: bool
    var animationSpeed: int
    var currentStep: nat
    var animationSteps: seq<Step>
    var comparingIndices: seq<nat>
    var swappingIndices: seq<nat>
    var sortedIndices: seq<nat>
    var currentAlgorithmName: Option<string>
    var recursionInfo: Option<RecInfo>
    /** The key and the array the current trace was generated from. */
    ghost var playedKey: string
    ghost var source: seq<int>

    /** The display shows step `s`. */
    ghost predicate Shows(s: Step)
      reads this
    {
      && arr == s.arr
      && comparingIndices == s.comparing
      && swappingIndices == s.swapping
      && sortedIndices == s.sorted
      && recursionInfo == s.info
    }

    /**
     * The playback index never passes the end of the trace, the display
     * shows the step last played, and the trace is what the generator of
     * `playedKey` promises for `source`. Once a step has been shown, the
     * bars on display are as many as in `source` and every marked index
     * names one of them.
     */
    ghost predicate Valid()
      reads this
      ensures Valid() && currentStep > 0 ==>
        && |arr| == |source|
        && Below(comparingIndices, |arr|) && Below(swappingIndices, |arr|) && Below(sortedIndices, |arr|)
    {
      && currentStep <= |animationSteps|
      && (currentStep > 0 ==> Shows(animationSteps[currentStep - 1]))
      && (animationSteps != [] ==> Played(playedKey, source, animationSteps))
      && AllWellFormed(animationSteps, |source|)
    }

    /** The visualizer's initial state. */
    constructor ()
      ensures Valid()
      ensures arr == [64, 34, 25, 12, 22, 11, 90] && selectedAlgorithm == "bubble"
      ensures !isAnimating && animationSpeed == 500 && currentStep == 0 && animationSteps == []
      ensures comparingIndices == [] && swappingIndices == [] && sortedIndices == []
      ensures currentAlgorithmName == Some("") && recursionInfo == None
    {
      arr := [64, 34, 25, 12, 22, 11, 90];
      selectedAlgorithm := "bubble";
      isAnimating := false;
      animationSpeed := 500;
      currentStep := 0;
      animationSteps := [];
      comparingIndices := [];
      swappingIndices := [];
      sortedIndices := [];
      currentAlgorithmName := Some("");
      recursionInfo := None;
      playedKey := "bubble";
      source := [];
    }

    /** Stops playback and clears the trace, the index and every marking; the bars keep their values. */
    method Reset()
      requires Valid()
      modifies this
      ensures Valid()
      ensures !isAnimating && currentStep == 0 && animationSteps == []
      ensures comparingIndices == [] && swappingIndices == [] && sortedIndices == [] && recursionInfo == None
      ensures arr == old(arr) && selectedAlgorithm == old(selectedAlgorithm)
      ensures animationSpeed == old(animationSpeed) && currentAlgorithmName == old(currentAlgorithmName)
    {
      isAnimating := false;
      currentStep := 0;
      animationSteps := [];
      comparingIndices := [];
      swappingIndices := [];
      sortedIndices := [];
      recursionInfo := None;
    }

    /**
     * The Start/Pause button. While animating it only pauses. Otherwise it
     * generates the trace of the selected algorithm over the array now on
     * display, rewinds to its first step and starts playing.
     */
    method Start()
      requires Valid()
      requires !isAnimating ==> Runnable(selectedAlgorithm, arr)
      modifies this
      ensures Valid()
      ensures old(isAnimating) ==>
        && !isAnimating && animationSteps == old(animationSteps) && currentStep == old(currentStep)
        && arr == old(arr) && comparingIndices == old(comparingIndices)
        && swappingIndices == old(swappingIndices) && sortedIndices == old(sortedIndices)
        && recursionInfo == old(recursionInfo) && currentAlgorithmName == old(currentAlgorithmName)
      ensures !old(isAnimating) ==>
        && isAnimating && currentStep == 0
        && Generated(old(selectedAlgorithm), old(arr), animationSteps)
        && currentAlgorithmName == NameOf(old(selectedAlgorithm))
        && arr == old(arr) && comparingIndices == old(comparingIndices)
        && swappingIndices == old(swappingIndices) && sortedIndices == old(sortedIndices)
        && recursionInfo == old(recursionInfo)
      ensures selectedAlgorithm == old(selectedAlgorithm) && animationSpeed == old(animationSpeed)
    {
      if isAnimating {
        isAnimating := false;
      } else {
        var steps := Generate(selectedAlgorithm, arr);
        Load(steps);
      }
    }

    /** Arms playback of `steps`, a trace of the selected algorithm over the array on display. */
    method Load(steps: seq<Step>)
      requires Valid() && Played(selectedAlgorithm, arr, steps)
      modifies this
      ensures Valid()
      ensures isAnimating && currentStep == 0 && animationSteps == steps
      ensures currentAlgorithmName == NameOf(selectedAlgorithm)
      ensures arr == old(arr) && comparingIndices == old(comparingIndices)
      ensures swappingIndices == old(swappingIndices) && sortedIndices == old(sortedIndices)
      ensures recursionInfo == old(recursionInfo)
      ensures selectedAlgorithm == old(selectedAlgorithm) && animationSpeed == old(animationSpeed)
    {
      currentAlgorithmName := NameOf(selectedAlgorithm);
      playedKey := selectedAlgorithm;
      source := arr;
      animationSteps := steps;
      currentStep := 0;
      isAnimating := true;
    }

    /**
     * One firing of the animation timer. It fires only while animating over
     * a non-empty trace: it shows step `currentStep` and advances the index
     * by one or, past the last step, stops playback.
     */
    method Tick()
      requires Valid()
      modifies this
      ensures Valid()
      ensures animationSteps == old(animationSteps) && selectedAlgorithm == old(selectedAlgorithm)
      ensures animationSpeed == old(animationSpeed) && currentAlgorithmName == old(currentAlgorithmName)
      ensures !old(isAnimating && |animationSteps| > 0) ==>
        && isAnimating == old(isAnimating) && currentStep == old(currentStep)
        && arr == old(arr) && comparingIndices == old(comparingIndices)
        && swappingIndices == old(swappingIndices) && sortedIndices == old(sortedIndices)
        && recursionInfo == old(recursionInfo)
      ensures old(isAnimating && |animationSteps| > 0 && currentStep < |animationSteps|) ==>
        isAnimating && currentStep == old(currentStep) + 1 && Shows(old(animationSteps[currentStep]))
      ensures old(isAnimating && |animationSteps| > 0 && currentStep == |animationSteps|) ==>
        !isAnimating && currentStep == old(currentStep) && arr == old(arr)
        && comparingIndices == old(comparingIndices) && swappingIndices == old(swappingIndices)
        && sortedIndices == old(sortedIndices) && recursionInfo == old(recursionInfo)
    {
      if isAnimating && |animationSteps| > 0 {
        if currentStep < |animationSteps| {
          var step := animationSteps[currentStep];
          arr := step.arr;
          comparingIndices := step.comparing;
          swappingIndices := step.swapping;
          sortedIndices := step.sorted;
          recursionInfo := step.info;
          currentStep := currentStep + 1;
        } else {
          isAnimating := false;
        }
      }
    }

    /** Once the last step has been shown, the bars show the input sorted, all of them marked. */
    lemma Finished()
      requires Valid() && currentStep == |animationSteps| > 0
      ensures Sorted(arr) && multiset(arr) == multiset(source) && sortedIndices == Upto(|source|)
    {
    }

    /**
     * The speed slider, which is disabled while animating: position `slider`
     * (100 to 900) sets the delay `1000 - slider`.
     */
    method SetSpeed(slider: int)
      requires !isAnimating && 100 <= slider <= 900
      modifies this`animationSpeed
      ensures animationSpeed == DelayOf(slider) && 100 <= animationSpeed <= 900
    {
      animationSpeed := DelayOf(slider);
    }
  }
}
