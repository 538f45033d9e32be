/** The pure decision logic of the scrollytelling demo: clamping a step index, the
    presentation that each active step projects onto the tabs, controls, toast and chat
    messages, the roving-focus arithmetic of the tab list, and the list of scroll
    sentinels built for the mobile layout. */
module ScrollySteps {
  import opened Wrappers
  import opened StepLabel

  // ---------------------------------------------------------------------------
  // Clamping
  // ---------------------------------------------------------------------------

  /** `Math.max(lo, Math.min(x, hi))`. When the range is empty (`hi < lo`, which happens
      for `tabs.length - 1` with no tabs) the lower bound wins. */
  function Clamp(x: int, lo: int, hi: int): (r: int)
    ensures lo <= hi ==> lo <= r <= hi
    ensures hi < lo ==> r == lo
    ensures lo <= x <= hi ==> r == x
    ensures x < lo ==> r == lo
    ensures lo <= hi < x ==> r == hi
  {
    var m := if x < hi then x else hi;
    if lo > m then lo else m
  }

  /** A step index the tracker may hold with `n` tabs: inside `[0, n)`, or 0 when there
      are no tabs at all. */
  predicate InStepRange(i: int, n: nat) {
    0 <= i && (i < n || i == 0)
  }

  lemma ClampIdempotent(x: int, lo: int, hi: int)
    ensures Clamp(Clamp(x, lo, hi), lo, hi) == Clamp(x, lo, hi)
  {
  }

  lemma ClampStepInRange(x: int, n: nat)
    ensures InStepRange(Clamp(x, 0, n - 1), n)
    ensures InStepRange(x, n) ==> Clamp(x, 0, n - 1) == x
  {
  }

  // ---------------------------------------------------------------------------
  // Presentation of one active step
  // ---------------------------------------------------------------------------

  /** The calendar toast belongs to the third step (index 2). */
  const ToastGate: int := 2

  /** The value of a chat message's `data-show-from` attribute after `Number(...)`:
      `From(k)` for a number (an absent attribute reads as 0; a fractional number x acts as
      its ceiling, since it is only ever compared with an integer index), `Never` for a
      value that parses to NaN or to +Infinity, against which `>=` is always false. */
  datatype Threshold = From(k: int) | Never

  /** The message is revealed when the active index has reached its threshold. */
  predicate Reaches(active: int, t: Threshold) {
    match t
    case From(k) => active >= k
    case Never => false
  }

  /** Whether a message is visible: all of them outside progressive mode. */
  predicate MessageShown(progressive: bool, active: int, t: Threshold) {
    !progressive || Reaches(active, t)
  }

  /** The toast follows the reduced-motion preference, not the `progressive` option of the
      request: under reduced motion it is always shown. */
  predicate ToastVisible(reducedMotion: bool, active: int) {
    reducedMotion || active >= ToastGate
  }

  /** The roving tab index: only the active tab is in the tab order. */
  function RovingTabIndex(i: int, active: int): int {
    if i == active then 0 else -1
  }

  /** Everything the tracker writes into the page for one step. */
  datatype Projection = Projection(
    selected: seq<bool>,      // `aria-selected` and the `is-active` class of each tab
    tabIndex: seq<int>,       // `tabindex` of each tab
    hidden: seq<bool>,        // `hidden` attribute of each chat message
    toastVisible: bool,       // `is-visible` class of the calendar toast
    toastAriaHidden: bool,    // its `aria-hidden` attribute
    prevDisabled: bool,
    nextDisabled: bool,
    stepLabel: string,        // text of the step label
    labelledBy: Option<nat>)  // the tab whose id labels the chat panel

  /** The projection of `active` onto a page with `n` tabs and messages with thresholds
      `msgFrom`; `labelledBy` is the panel's label before the update, kept when no tab
      exists at `active`. */
  function Project(active: nat, n: nat, progressive: bool, reducedMotion: bool,
                   msgFrom: seq<Threshold>, labelledBy: Option<nat>): (p: Projection)
    ensures |p.selected| == |p.tabIndex| == n && |p.hidden| == |msgFrom|
  {
    Projection(
      seq(n, i => i == active),
      seq(n, i => RovingTabIndex(i, active)),
      seq(|msgFrom|, j requires 0 <= j < |msgFrom| => !MessageShown(progressive, active, msgFrom[j])),
      ToastVisible(reducedMotion, active),
      !ToastVisible(reducedMotion, active),
      active <= 0,
      active >= n - 1,
      Label(active, n),
      if active < n then Some(active) else labelledBy)
  }

  /** After an update exactly one tab, the active one, is selected and in the tab order. */
  lemma {:induction false} ExactlyOneTabSelected(active: nat, n: nat, progressive: bool, reducedMotion: bool,
                                                 msgFrom: seq<Threshold>, labelledBy: Option<nat>)
    requires active < n
    ensures var p := Project(active, n, progressive, reducedMotion, msgFrom, labelledBy);
            (set i | 0 <= i < n && p.selected[i]) == {active} &&
            (set i | 0 <= i < n && p.tabIndex[i] == 0) == {active} &&
            forall i :: 0 <= i < n && i != active ==> !p.selected[i] && p.tabIndex[i] == -1
  {
    var p := Project(active, n, progressive, reducedMotion, msgFrom, labelledBy);
    assert p.selected[active];
    assert p.tabIndex[active] == 0;
  }

  /** In progressive mode a message is shown exactly when the active index has reached its
      threshold; outside it every message is shown. */
  lemma MessageVisibility(active: nat, n: nat, progressive: bool, reducedMotion: bool,
                          msgFrom: seq<Threshold>, labelledBy: Option<nat>, j: nat)
    requires j < |msgFrom|
    ensures var p := Project(active, n, progressive, reducedMotion, msgFrom, labelledBy);
            (progressive ==> (!p.hidden[j] <==> Reaches(active, msgFrom[j]))) &&
            (!progressive ==> !p.hidden[j])
  {
  }

  /** Moving forward never hides a message and moving backward never reveals one. */
  lemma RevealMonotone(a: nat, b: nat, n: nat, progressive: bool, reducedMotion: bool,
                       msgFrom: seq<Threshold>, l1: Option<nat>, l2: Option<nat>, j: nat)
    requires a <= b && j < |msgFrom|
    ensures !Project(a, n, progressive, reducedMotion, msgFrom, l1).hidden[j] ==>
            !Project(b, n, progressive, reducedMotion, msgFrom, l2).hidden[j]
  {
  }

  /** A message whose threshold is 2 is hidden at steps 0 and 1 and shown at step 2, so
      going back from step 2 to step 1 hides it again; a message with threshold 0 stays
      visible throughout. */
  lemma BackwardRehides(n: nat, reducedMotion: bool, l: Option<nat>)
    ensures var msgs := [From(0), From(2)];
            Project(0, n, true, reducedMotion, msgs, l).hidden == [false, true] &&
            Project(1, n, true, reducedMotion, msgs, l).hidden == [false, true] &&
            Project(2, n, true, reducedMotion, msgs, l).hidden == [false, false]
  {
  }

  /** The toast is hidden before step index 2 and shown from it on, unless motion is
      reduced; `aria-hidden` always says the opposite of the visibility. */
  lemma ToastGateAtTwo(active: nat, n: nat, progressive: bool, reducedMotion: bool,
                       msgFrom: seq<Threshold>, l: Option<nat>)
    ensures var p := Project(active, n, progressive, reducedMotion, msgFrom, l);
            (p.toastVisible <==> reducedMotion || active >= 2) && p.toastAriaHidden == !p.toastVisible
  {
  }

  /** For an index inside the range, "previous" is disabled exactly at the first step and
      "next" exactly at the last. */
  lemma ControlsAtBounds(active: nat, n: nat, progressive: bool, reducedMotion: bool,
                         msgFrom: seq<Threshold>, l: Option<nat>)
    requires active < n
    ensures var p := Project(active, n, progressive, reducedMotion, msgFrom, l);
            (p.prevDisabled <==> active == 0) && (p.nextDisabled <==> active == n - 1) &&
            p.stepLabel == Decimal(active + 1) + "/" + Decimal(n) + " step"
  {
  }

  // ---------------------------------------------------------------------------
  // Roving focus in the tab list
  // ---------------------------------------------------------------------------

  /** The keys the tab elements and the tab list listen to. */
  datatype Key = ArrowRight | ArrowDown | ArrowLeft | ArrowUp | Home | End | Enter | Space | OtherKey

  predicate IsNavKey(k: Key) {
    k.ArrowRight? || k.ArrowDown? || k.ArrowLeft? || k.ArrowUp? || k.Home? || k.End?
  }

  /** Enter and Space activate the focused tab. */
  predicate IsActivationKey(k: Key) {
    k.Enter? || k.Space?
  }

  /** The tab that receives focus when `key` is pressed in the tab list while the tab at
      `focusIndex` has focus (`-1`: focus is outside the tabs, as `findIndex` reports it).
      `None` means the handler returns without moving focus. It never activates a step. */
  function ArrowFocus(key: Key, focusIndex: int, n: nat): (r: Option<int>)
    requires -1 <= focusIndex < n
    ensures r.Some? <==> IsNavKey(key) && focusIndex >= 0
    ensures r.Some? ==> 0 <= r.value < n
    ensures r.Some? && (key.ArrowRight? || key.ArrowDown?) ==>
              if focusIndex < n - 1 then r.value == focusIndex + 1 else r.value == focusIndex
    ensures r.Some? && (key.ArrowLeft? || key.ArrowUp?) ==>
              if focusIndex > 0 then r.value == focusIndex - 1 else r.value == focusIndex
    ensures r.Some? && key.Home? ==> r.value == 0
    ensures r.Some? && key.End? ==> r.value == n - 1
  {
    if !IsNavKey(key) || focusIndex < 0 then None
    else
      var next :=
        if key.ArrowRight? || key.ArrowDown? then Clamp(focusIndex + 1, 0, n - 1)
        else if key.ArrowLeft? || key.ArrowUp? then Clamp(focusIndex - 1, 0, n - 1)
        else if key.Home? then 0
        else n - 1;
      Some(next)
  }

  // ---------------------------------------------------------------------------
  // Scroll sentinels (mobile layout)
  // ---------------------------------------------------------------------------

  /** An invisible marker in the scroll track carrying a step number in `data-step`;
      `tail` marks the extra one at the end. */
  datatype Sentinel = Sentinel(step: int, tail: bool)

  /** The markers built for `n` tabs: one per step in order, then a tail that repeats the
      last step so that scrolling past the end keeps it active. */
  ghost predicate IsSentinelList(s: seq<Sentinel>, n: nat) {
    |s| == n + 1 &&
    (forall i :: 0 <= i < n ==> s[i] == Sentinel(i, false)) &&
    s[n] == Sentinel(n - 1, true)
  }

  /** The step numbers carried by the markers, in document order. */
  function SentinelSteps(s: seq<Sentinel>): (r: seq<int>)
  {
    seq(|s|, i requires 0 <= i < |s| => s[i].step)
  }

  /** In a freshly built list the sampler reads the steps 0 to n - 1 in order, then the
      tail's n - 1 again. */
  lemma SentinelStepsOfFreshList(s: seq<Sentinel>, n: nat)
    requires IsSentinelList(s, n)
    ensures SentinelSteps(s) == seq(n, i => i) + [n - 1]
  {
    var r := SentinelSteps(s);
    var e := seq(n, i => i) + [n - 1];
    assert |r| == |e|;
    forall k | 0 <= k < |r|
      ensures r[k] == e[k]
    {
      if k < n {
        assert s[k] == Sentinel(k, false);
      }
    }
  }

  /** `querySelector('.scrolly-sentinel[data-step="<step>"]')` started at position `from`:
      the first marker at or after `from` carrying `step`. */
  function FindSentinel(s: seq<Sentinel>, step: int, from: nat): (r: Option<nat>)
    requires from <= |s|
    ensures r.Some? ==> from <= r.value < |s| && s[r.value].step == step &&
                        forall k :: from <= k < r.value ==> s[k].step != step
    ensures r.None? ==> forall k :: from <= k < |s| ==> s[k].step != step
    decreases |s| - from
  {
    if from == |s| then None
    else if s[from].step == step then Some(from)
    else FindSentinel(s, step, from + 1)
  }

  /** In a freshly built list the marker found for a step is that step's own marker, never
      the tail, and every step number lies in the clamped range of the tabs. */
  lemma SentinelForStep(s: seq<Sentinel>, n: nat, i: int)
    requires IsSentinelList(s, n) && 0 <= i < n
    ensures FindSentinel(s, i, 0) == Some(i)
    ensures forall k :: 0 <= k < |s| ==> Clamp(s[k].step, 0, n - 1) == s[k].step
  {
    var r := FindSentinel(s, i, 0);
    assert s[i].step == i;
    if r.Some? && r.value < i {
      assert false;
    }
  }
}
