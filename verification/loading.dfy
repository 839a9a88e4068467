/** The loading screen: a progress counter on a 50 ms interval, a status
    message on a 400 ms interval walking through six steps, and an animated
    ellipsis on a 300 ms interval. Each interval is a tick method; ghost tick
    counters tie the state to closed forms. */
module LoadingScreen {

  /** A step's message and its nominal duration in milliseconds, which
      nothing reads: the message changes on a fixed interval. */
  datatype LoadingStep = LoadingStep(text: string, duration: nat)

  const Steps: seq<LoadingStep> := [
    LoadingStep("Initializing terminal...", 800),
    LoadingStep("Loading system modules...", 600),
    LoadingStep("Connecting to portfolio database...", 700),
    LoadingStep("Loading command interface...", 500),
    LoadingStep("Preparing user experience...", 400),
    LoadingStep("Terminal ready!", 300)
  ]

  /** The message shown before the first text tick. */
  const InitialText: string := "Initializing terminal..."

  const Full: int := 100

  /** `setProgress`'s updater: the new value, and whether it schedules `onComplete`. */
  function NextProgress(prev: int): (r: (int, bool))
    ensures r.1 <==> prev + 2 >= Full
    ensures r.0 == Min(prev + 2, Full)
    ensures prev % 2 == 0 && 0 <= prev <= Full ==> r.0 % 2 == 0 && prev <= r.0 <= Full
  {
    var newProgress := prev + 2;
    if newProgress >= Full then (Full, true) else (newProgress, false)
  }

  function Min(a: int, b: int): int {
    if a <= b then a else b
  }

  function Max(a: int, b: int): int {
    if a >= b then a else b
  }

  /** Progress and the number of `onComplete` timers scheduled after `n`
      progress ticks from 0: two points per tick up to 100, and one
      completion per tick from the fiftieth on. */
  function ProgressAfter(n: nat): (r: (int, nat))
    ensures r.0 == Min(2 * n, Full)
    ensures r.0 % 2 == 0 && 0 <= r.0 <= Full
    ensures r.1 == Max(0, n - 49)
  {
    if n == 0 then (0, 0)
    else
      var prev := ProgressAfter(n - 1);
      var next := NextProgress(prev.0);
      (next.0, prev.1 + if next.1 then 1 else 0)
  }

  /** `updateText`: while steps remain, show the current one and move on. */
  function NextText(step: nat, text: string): (r: (nat, string))
    ensures step <= |Steps| ==> r.0 <= |Steps|
    ensures r.0 == step || r.0 == step + 1
    ensures r.0 == step <==> step >= |Steps|
    ensures r.0 == step ==> r.1 == text
    ensures r.0 == step + 1 ==> r.1 == Steps[r.0 - 1].text
  {
    if step < |Steps| then (step + 1, Steps[step].text) else (step, text)
  }

  /** The step counter and the message after `n` text ticks. */
  function TextAfter(n: nat): (r: (nat, string))
    ensures r.0 == Min(n, |Steps|)
    ensures n == 0 ==> r.1 == Steps[0].text
    ensures n > 0 ==> r.1 == Steps[Min(n, |Steps|) - 1].text
  {
    if n == 0 then (0, InitialText)
    else
      var prev := TextAfter(n - 1);
      NextText(prev.0, prev.1)
  }

  /** After six text ticks the message rests on the last step. */
  lemma {:induction false} TextEndsReady(n: nat)
    requires n >= |Steps|
    ensures TextAfter(n) == (6, "Terminal ready!")
  {
  }

  /** The dots updater: one more dot, or none after three. */
  function NextDots(prev: string): (r: string)
    ensures |prev| <= 3 ==> |r| == (|prev| + 1) % 4
    ensures AllDots(prev) ==> AllDots(r)
  {
    if |prev| >= 3 then "" else prev + "."
  }

  predicate AllDots(s: string) {
    forall k :: 0 <= k < |s| ==> s[k] == '.'
  }

  /** The ellipsis after `n` dot ticks: `n mod 4` dots. */
  function DotsAfter(n: nat): (r: string)
    ensures |r| == n % 4 && |r| <= 3
    ensures AllDots(r)
  {
    if n == 0 then "" else NextDots(DotsAfter(n - 1))
  }

  /** The ellipsis cycles with period four. */
  lemma {:induction false} DotsCycle(n: nat)
    ensures DotsAfter(n + 4) == DotsAfter(n)
    ensures DotsAfter(n) == ["", ".", "..", "..."][n % 4]
  {
    var r := DotsAfter(n);
    var s := ["", ".", "..", "..."][n % 4];
    assert |r| == |s| && forall k :: 0 <= k < |r| ==> r[k] == s[k];
    var r4 := DotsAfter(n + 4);
    assert |r4| == |r| && forall k :: 0 <= k < |r| ==> r4[k] == r[k];
  }

  class Loader {
    var progress: int
    /** How many `setTimeout(onComplete, 500)` calls have been made. */
    var completionsScheduled: nat
    var loadingText: string
    var currentStep: nat
    var dots: string
    ghost var progressTicks: nat
    ghost var textTicks: nat
    ghost var dotTicks: nat

    ghost predicate Valid()
      reads this
    {
      && (progress, completionsScheduled) == ProgressAfter(progressTicks)
      && (currentStep, loadingText) == TextAfter(textTicks)
      && dots == DotsAfter(dotTicks)
    }

    constructor ()
      ensures Valid()
      ensures progress == 0 && completionsScheduled == 0
      ensures loadingText == InitialText && currentStep == 0 && dots == ""
      ensures progressTicks == 0 && textTicks == 0 && dotTicks == 0
    {
      progress := 0;
      completionsScheduled := 0;
      loadingText := InitialText;
      currentStep := 0;
      dots := "";
      progressTicks := 0;
      textTicks := 0;
      dotTicks := 0;
    }

    /** `updateProgress`. */
    method TickProgress()
      requires Valid()
      modifies this`progress, this`completionsScheduled, this`progressTicks
      ensures Valid() && progressTicks == old(progressTicks) + 1
      ensures progress == Min(old(progress) + 2, Full)
      ensures completionsScheduled == old(completionsScheduled) + (if old(progress) + 2 >= Full then 1 else 0)
    {
      var newProgress := progress + 2;
      if newProgress >= Full {
        completionsScheduled := completionsScheduled + 1;
        progress := Full;
      } else {
        progress := newProgress;
      }
      progressTicks := progressTicks + 1;
    }

    /** `updateText`. */
    method TickText()
      requires Valid()
      modifies this`loadingText, this`currentStep, this`textTicks
      ensures Valid() && textTicks == old(textTicks) + 1
      ensures old(currentStep) < |Steps| ==>
                loadingText == Steps[old(currentStep)].text && currentStep == old(currentStep) + 1
      ensures old(currentStep) >= |Steps| ==>
                loadingText == old(loadingText) && currentStep == old(currentStep)
    {
      if currentStep < |Steps| {
        loadingText := Steps[currentStep].text;
        currentStep := currentStep + 1;
      }
      textTicks := textTicks + 1;
    }

    /** The dot interval's callback. */
    method TickDots()
      requires Valid()
      modifies this`dots, this`dotTicks
      ensures Valid() && dotTicks == old(dotTicks) + 1
      ensures |dots| == (|old(dots)| + 1) % 4 && AllDots(dots)
    {
      dots := if |dots| >= 3 then "" else dots + ".";
      dotTicks := dotTicks + 1;
    }
  }
}
