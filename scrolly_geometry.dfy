/** The scroll sampler of the scrollytelling demo: among the scroll targets (the tabs, or
    the sentinels on mobile) it picks the one whose centre lies nearest to a focus line
    drawn across the viewport. Layout values are exact reals here. */
module ScrollyGeometry {
  import opened Wrappers
  import opened ScrollySteps

  /** The vertical extent of an element as `getBoundingClientRect()` reports it, relative
      to the top of the viewport; its bottom is `top + height`. */
  datatype Box = Box(top: real, height: real)

  /** A scroll target: its box and the step number in its `data-step` attribute. */
  datatype Target = Target(box: Box, step: int)

  /** Pairs each box with the step number of the element it was measured on. */
  function Targets(boxes: seq<Box>, steps: seq<int>): (ts: seq<Target>)
    requires |boxes| == |steps|
  {
    seq(|boxes|, i requires 0 <= i < |boxes| => Target(boxes[i], steps[i]))
  }

  /** An element counts unless it lies wholly above or wholly below the viewport. */
  predicate OnScreen(b: Box, viewportH: real) {
    !(b.top + b.height < 0.0 || b.top > viewportH)
  }

  /** The focus line sits at 42% of the viewport height on mobile and 45% otherwise. */
  function FocusLine(viewportH: real, mobile: bool): real {
    viewportH * (if mobile then 0.42 else 0.45)
  }

  /** Distance from the centre of the box to the focus line. */
  function Distance(b: Box, focusY: real): (d: real)
    ensures d >= 0.0
    ensures d == b.top + b.height / 2.0 - focusY || d == focusY - (b.top + b.height / 2.0)
  {
    var c := b.top + b.height / 2.0;
    if c - focusY < 0.0 then focusY - c else c - focusY
  }

  /** `k` is the on-screen target nearest to the focus line and no earlier on-screen target
      is as near: the earliest of the nearest wins a tie. */
  ghost predicate IsFirstNearest(ts: seq<Target>, viewportH: real, focusY: real, k: int) {
    0 <= k < |ts| && OnScreen(ts[k].box, viewportH) &&
    (forall j :: 0 <= j < |ts| && OnScreen(ts[j].box, viewportH) ==>
       Distance(ts[k].box, focusY) <= Distance(ts[j].box, focusY)) &&
    (forall j :: 0 <= j < k && OnScreen(ts[j].box, viewportH) ==>
       Distance(ts[k].box, focusY) < Distance(ts[j].box, focusY))
  }

  /** The position of the winning target, found by scanning left to right and replacing the
      best so far only on a strictly smaller distance; `None` when nothing is on screen. */
  function NearestIndex(ts: seq<Target>, viewportH: real, focusY: real): (r: Option<nat>)
    ensures r.Some? ==> r.value < |ts| && OnScreen(ts[r.value].box, viewportH)
  {
    if |ts| == 0 then None
    else
      var last := |ts| - 1;
      var p := NearestIndex(ts[..last], viewportH, focusY);
      if OnScreen(ts[last].box, viewportH) &&
         (p.None? || Distance(ts[last].box, focusY) < Distance(ts[p.value].box, focusY))
      then Some(last)
      else p
  }

  /** The scan finds nothing exactly when no target is on screen, and otherwise the earliest
      of the nearest on-screen targets. */
  lemma {:induction false} NearestIndexIsFirstNearest(ts: seq<Target>, viewportH: real, focusY: real)
    ensures var r := NearestIndex(ts, viewportH, focusY);
            (r.None? <==> forall j :: 0 <= j < |ts| ==> !OnScreen(ts[j].box, viewportH)) &&
            (r.Some? ==> IsFirstNearest(ts, viewportH, focusY, r.value))
  {
    if |ts| > 0 {
      var last := |ts| - 1;
      var init := ts[..last];
      NearestIndexIsFirstNearest(init, viewportH, focusY);
      assert forall j :: 0 <= j < last ==> init[j] == ts[j];
    }
  }

  /** One more step of the scan: the target at position `i` replaces the best of the
      earlier ones only when it is on screen and strictly nearer. */
  lemma NearestIndexExtend(ts: seq<Target>, viewportH: real, focusY: real, i: nat)
    requires i < |ts|
    ensures var p := NearestIndex(ts[..i], viewportH, focusY);
            NearestIndex(ts[..i + 1], viewportH, focusY) ==
              if OnScreen(ts[i].box, viewportH) &&
                 (p.None? || Distance(ts[i].box, focusY) < Distance(ts[p.value].box, focusY))
              then Some(i) else p
  {
    assert ts[..i + 1][..i] == ts[..i];
  }

  /** There is only one earliest nearest target, so the scan's answer is the answer. */
  lemma FirstNearestUnique(ts: seq<Target>, viewportH: real, focusY: real, k: int)
    requires IsFirstNearest(ts, viewportH, focusY, k)
    ensures NearestIndex(ts, viewportH, focusY) == Some(k)
  {
    NearestIndexIsFirstNearest(ts, viewportH, focusY);
    var r := NearestIndex(ts, viewportH, focusY);
    assert OnScreen(ts[k].box, viewportH);
    assert r.Some?;
  }

  /** The step the sampler settles on before clamping: the winner's `data-step`, or the
      current step when nothing is on screen. */
  function PickedStep(ts: seq<Target>, viewportH: real, focusY: real, currentStep: int): int {
    match NearestIndex(ts, viewportH, focusY)
    case None => currentStep
    case Some(k) => ts[k].step
  }

  /** The scan of `pickActiveFromScroll`: the result is the picked step clamped into the
      range of the `n` tabs. */
  method PickActiveFromScroll(targets: seq<Target>, viewportH: real, mobile: bool,
                              currentStep: int, n: nat) returns (step: int)
    ensures step == Clamp(PickedStep(targets, viewportH, FocusLine(viewportH, mobile), currentStep), 0, n - 1)
    ensures InStepRange(step, n)
  {
    var focusY := viewportH * (if mobile then 0.42 else 0.45);
    var bestIndex := currentStep;
    var found := false;  // false while the best distance is still Infinity
    var bestDist := 0.0;
    for i := 0 to |targets|
      invariant var r := NearestIndex(targets[..i], viewportH, focusY);
                found == r.Some? &&
                (found ==> bestIndex == targets[r.value].step &&
                           bestDist == Distance(targets[r.value].box, focusY)) &&
                (!found ==> bestIndex == currentStep)
    {
      NearestIndexExtend(targets, viewportH, focusY, i);
      var r := targets[i].box;
      if r.top + r.height < 0.0 || r.top > viewportH {
        continue;
      }
      var cy := r.top + r.height / 2.0;
      var dist := if cy - focusY < 0.0 then focusY - cy else cy - focusY;
      if !found || dist < bestDist {
        bestDist := dist;
        bestIndex := targets[i].step;
        found := true;
      }
    }
    assert targets[..|targets|] == targets;
    step := Clamp(bestIndex, 0, n - 1);
  }

  /** The three-tab example: centres at 100, 300 and 500 with the focus line at 320 pick
      the middle tab. */
  lemma PickMiddleExample()
    ensures var ts := [Target(Box(50.0, 100.0), 0), Target(Box(250.0, 100.0), 1), Target(Box(450.0, 100.0), 2)];
            PickedStep(ts, 800.0, 320.0, 0) == 1
  {
    var ts := [Target(Box(50.0, 100.0), 0), Target(Box(250.0, 100.0), 1), Target(Box(450.0, 100.0), 2)];
    assert IsFirstNearest(ts, 800.0, 320.0, 1);
    FirstNearestUnique(ts, 800.0, 320.0, 1);
  }
}
