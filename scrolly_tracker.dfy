/** The scrollytelling step tracker: one current step, changed only by `SetActiveStep`,
    and the page attributes it rewrites on every change. The tabs and the chat messages
    are arrays of the attributes the tracker writes; the reads of the page (layout, the
    reduced-motion preference, the mobile breakpoint) arrive as parameters. */
module ScrollyTracker {
  import opened Wrappers
  import opened ScrollySteps
  import opened ScrollyGeometry

  /** Who asked for a step: a tab or a control, the scroll sampler, or start-up. */
  datatype Source = Ui | Scroll | Init

  /** The element scrolled into view for a step: a sentinel (by its position in the
      scroll track) or a tab. */
  datatype ViewTarget = SentinelView(pos: nat) | TabView(index: nat)

  class Tracker {
    /** `tabs.length` */
    const tabCount: nat
    /** The `prefers-reduced-motion` media query, read once at start-up. */
    const reducedMotion: bool
    /** The `data-show-from` threshold of each chat message. */
    const msgFrom: seq<Threshold>
    /** The `data-step` number of each tab (0 when the attribute is absent). */
    const tabSteps: seq<int>
    /** Whether the page has a scroll track to hold sentinels. */
    const hasTrack: bool

    /** `aria-selected` (and the `is-active` class) of each tab. */
    const tabSelected: array<bool>
    /** `tabindex` of each tab. */
    const tabIndex: array<int>
    /** `hidden` of each chat message. */
    const msgHidden: array<bool>

    var currentStep: int
    var toastVisible: bool
    var toastAriaHidden: bool
    var prevDisabled: bool
    var nextDisabled: bool
    var stepLabel: string
    var panelLabelledBy: Option<nat>
    /** The sentinels in the scroll track, in document order. */
    var sentinels: seq<Sentinel>
    /** Whether the scroll and resize listeners that sample the layout are attached. */
    var scrollSampling: bool

    ghost predicate Valid()
      reads this
    {
      tabSelected.Length == tabCount && tabIndex.Length == tabCount &&
      msgHidden.Length == |msgFrom| && tabSelected != msgHidden &&
      |tabSteps| == tabCount &&
      InStepRange(currentStep, tabCount)
    }

    /** Everything the tracker has written into the page. */
    ghost function Page(): Projection
      reads this, tabSelected, tabIndex, msgHidden
    {
      Projection(tabSelected[..], tabIndex[..], msgHidden[..], toastVisible, toastAriaHidden,
                 prevDisabled, nextDisabled, stepLabel, panelLabelledBy)
    }

    /** The markup before start-up; `currentStep` starts at 0. */
    constructor (tabCount: nat, reducedMotion: bool, msgFrom: seq<Threshold>, tabSteps: seq<int>, hasTrack: bool)
      requires |tabSteps| == tabCount
      ensures Valid() && fresh(tabSelected) && fresh(tabIndex) && fresh(msgHidden)
      ensures this.tabCount == tabCount && this.reducedMotion == reducedMotion && this.msgFrom == msgFrom
      ensures this.tabSteps == tabSteps && this.hasTrack == hasTrack
      ensures currentStep == 0 && !scrollSampling && sentinels == []
    {
      this.tabCount := tabCount;
      this.reducedMotion := reducedMotion;
      this.msgFrom := msgFrom;
      this.tabSteps := tabSteps;
      this.hasTrack := hasTrack;
      tabSelected := new bool[tabCount](_ => false);
      tabIndex := new int[tabCount](_ => -1);
      msgHidden := new bool[|msgFrom|](_ => false);
      currentStep := 0;
      toastVisible, toastAriaHidden := false, true;
      prevDisabled, nextDisabled := false, false;
      stepLabel := "";
      panelLabelledBy := None;
      sentinels := [];
      scrollSampling := false;
    }

    /** `updateCalendarToast` */
    method UpdateCalendarToast(active: int)
      modifies this`toastVisible, this`toastAriaHidden
      ensures toastVisible == ToastVisible(reducedMotion, active)
      ensures toastAriaHidden == !toastVisible
    {
      var shouldShow := if reducedMotion then true else active >= ToastGate;
      toastVisible := shouldShow;
      toastAriaHidden := !shouldShow;
    }

    /** `updateControlsUI` */
    method UpdateControlsUI(active: nat)
      modifies this`stepLabel, this`prevDisabled, this`nextDisabled
      ensures stepLabel == StepLabel.Label(active, tabCount)
      ensures prevDisabled == (active <= 0) && nextDisabled == (active >= tabCount - 1)
    {
      stepLabel := StepLabel.Label(active, tabCount);
      var atStart := active <= 0;
      var atEnd := active >= tabCount - 1;
      prevDisabled := atStart;
      nextDisabled := atEnd;
    }

    /** `updateTabsUI`: the roving selection, the panel's label, then the controls and the
        toast. */
    method UpdateTabsUI(active: nat)
      requires Valid()
      modifies tabSelected, tabIndex, this`panelLabelledBy, this`stepLabel, this`prevDisabled,
               this`nextDisabled, this`toastVisible, this`toastAriaHidden
      ensures forall i :: 0 <= i < tabCount ==>
                tabSelected[i] == (i == active) && tabIndex[i] == RovingTabIndex(i, active)
      ensures panelLabelledBy == if active < tabCount then Some(active) else old(panelLabelledBy)
      ensures stepLabel == StepLabel.Label(active, tabCount)
      ensures prevDisabled == (active <= 0) && nextDisabled == (active >= tabCount - 1)
      ensures toastVisible == ToastVisible(reducedMotion, active) && toastAriaHidden == !toastVisible
    {
      for i := 0 to tabCount
        modifies tabSelected, tabIndex
        invariant forall k :: 0 <= k < i ==>
                    tabSelected[k] == (k == active) && tabIndex[k] == RovingTabIndex(k, active)
      {
        var isActive := i == active;
        tabSelected[i] := isActive;
        tabIndex[i] := if isActive then 0 else -1;
      }
      if active < tabCount {
        panelLabelledBy := Some(active);
      }
      UpdateControlsUI(active);
      UpdateCalendarToast(active);
    }

    /** `updateMessagesUI`: outside progressive mode every message is revealed; in it each
        message is revealed or hidden according to its threshold, touching only those whose
        state is wrong. */
    method UpdateMessagesUI(active: int, progressive: bool)
      requires Valid()
      modifies msgHidden
      ensures forall j :: 0 <= j < |msgFrom| ==> msgHidden[j] == !MessageShown(progressive, active, msgFrom[j])
    {
      if !progressive {
        for j := 0 to msgHidden.Length
          invariant forall k :: 0 <= k < j ==> !msgHidden[k]
        {
          msgHidden[j] := false;
        }
        return;
      }
      for j := 0 to msgHidden.Length
        invariant forall k :: 0 <= k < j ==> msgHidden[k] == !Reaches(active, msgFrom[k])
      {
        var shouldShow := Reaches(active, msgFrom[j]);
        var isHidden := msgHidden[j];
        if shouldShow && isHidden {
          msgHidden[j] := false;  // revealMsg
        }
        if !shouldShow && !isHidden {
          msgHidden[j] := true;   // hideMsg
        }
      }
    }

    /** `setActiveStep`: the single place where the current step changes. A scroll sample
        naming the current step does nothing; every other request stores the clamped index
        and re-renders, even when the index is unchanged. The chat is scrolled to the bottom
        (`autoScroll`) only in progressive mode and only when not going backward. */
    method SetActiveStep(idx: int, source: Source, progressiveOpt: Option<bool>) returns (applied: bool, autoScroll: bool)
      requires Valid()
      modifies this, tabSelected, tabIndex, msgHidden
      ensures Valid()
      ensures applied == !(source == Scroll && Clamp(idx, 0, tabCount - 1) == old(currentStep))
      ensures !applied ==> unchanged(this, tabSelected, tabIndex, msgHidden) && !autoScroll
      ensures applied ==> currentStep == Clamp(idx, 0, tabCount - 1)
      ensures applied ==> Page() == Project(currentStep, tabCount, progressiveOpt.GetOr(!reducedMotion),
                                            reducedMotion, msgFrom, old(panelLabelledBy))
      ensures applied ==> autoScroll == (progressiveOpt.GetOr(!reducedMotion) && currentStep >= old(currentStep))
      ensures sentinels == old(sentinels) && scrollSampling == old(scrollSampling)
    {
      var activeIndex := Clamp(idx, 0, tabCount - 1);
      if source == Scroll && activeIndex == currentStep {
        return false, false;
      }
      var prevIndex := currentStep;
      currentStep := activeIndex;
      var progressive := progressiveOpt.GetOr(!reducedMotion);
      UpdateTabsUI(activeIndex);
      UpdateMessagesUI(activeIndex, progressive);
      applied := true;
      autoScroll := progressive && activeIndex >= prevIndex;
      ghost var p := Project(activeIndex, tabCount, progressive, reducedMotion, msgFrom, old(panelLabelledBy));
      assert tabSelected[..] == p.selected;
      assert tabIndex[..] == p.tabIndex;
      assert msgHidden[..] == p.hidden;
    }

    /** A click on tab `i`, or Enter or Space while it has focus. */
    method ActivateTab(i: nat) returns (autoScroll: bool)
      requires Valid() && i < tabCount
      modifies this, tabSelected, tabIndex, msgHidden
      ensures Valid()
      ensures currentStep == i
      ensures Page() == Project(i, tabCount, !reducedMotion, reducedMotion, msgFrom, old(panelLabelledBy))
      ensures autoScroll == (!reducedMotion && i >= old(currentStep))
      ensures sentinels == old(sentinels) && scrollSampling == old(scrollSampling)
    {
      var applied;
      applied, autoScroll := SetActiveStep(i, Ui, None);
    }

    /** A key pressed on tab `i`: only Enter and Space activate it. */
    method TabKeyDown(i: nat, key: Key) returns (autoScroll: bool)
      requires Valid() && i < tabCount
      modifies this, tabSelected, tabIndex, msgHidden
      ensures Valid()
      ensures !IsActivationKey(key) ==> unchanged(this, tabSelected, tabIndex, msgHidden) && !autoScroll
      ensures IsActivationKey(key) ==>
                currentStep == i &&
                Page() == Project(i, tabCount, !reducedMotion, reducedMotion, msgFrom, old(panelLabelledBy)) &&
                autoScroll == (!reducedMotion && i >= old(currentStep))
      ensures sentinels == old(sentinels) && scrollSampling == old(scrollSampling)
    {
      autoScroll := false;
      if key == Enter || key == Space {
        autoScroll := ActivateTab(i);
      }
    }

    /** The element `scrollStepIntoView` centres for step `index`: on mobile the first
        sentinel carrying that step, otherwise (or when there is none) the tab itself. */
    function StepIntoView(index: int, mobile: bool): (v: Option<ViewTarget>)
      reads this
      ensures v.Some? && v.value.SentinelView? ==> v.value.pos < |sentinels| && sentinels[v.value.pos].step == index
      ensures v.Some? && v.value.SentinelView? ==>
                hasTrack && mobile && forall k :: 0 <= k < v.value.pos ==> sentinels[k].step != index
      ensures v.Some? && v.value.TabView? ==> v.value.index == index < tabCount
      ensures v.Some? && v.value.TabView? ==> !(hasTrack && mobile) || FindSentinel(sentinels, index, 0).None?
      ensures v.None? ==> !(0 <= index < tabCount) &&
                          (!(hasTrack && mobile) || FindSentinel(sentinels, index, 0).None?)
    {
      var s := if hasTrack && mobile then FindSentinel(sentinels, index, 0) else None;
      if s.Some? then Some(SentinelView(s.value))
      else if 0 <= index < tabCount then Some(TabView(index))
      else None
    }

    /** Once the sentinels are built, every step on mobile is centred through its own
        sentinel, never through the tail or the (possibly hidden) tab. */
    lemma MobileStepUsesOwnSentinel(i: int)
      requires hasTrack && IsSentinelList(sentinels, tabCount) && 0 <= i < tabCount
      ensures StepIntoView(i, true) == Some(SentinelView(i))
    {
      SentinelForStep(sentinels, tabCount, i);
    }

    /** `go(delta)`, behind the previous (-1) and next (+1) buttons: a UI request for the
        neighbouring step, clamped, which is then scrolled into view. */
    method Go(delta: int, mobile: bool) returns (view: Option<ViewTarget>, autoScroll: bool)
      requires Valid()
      modifies this, tabSelected, tabIndex, msgHidden
      ensures Valid()
      ensures currentStep == Clamp(old(currentStep) + delta, 0, tabCount - 1)
      ensures Page() == Project(currentStep, tabCount, !reducedMotion, reducedMotion, msgFrom, old(panelLabelledBy))
      ensures autoScroll == (!reducedMotion && currentStep >= old(currentStep))
      ensures view == StepIntoView(currentStep, mobile)
      ensures sentinels == old(sentinels) && scrollSampling == old(scrollSampling)
    {
      var nextIdx := Clamp(currentStep + delta, 0, tabCount - 1);
      var applied;
      applied, autoScroll := SetActiveStep(nextIdx, Ui, None);
      view := StepIntoView(nextIdx, mobile);
    }

    /** `ensureSentinels`: on mobile, and only once, fill the scroll track with one sentinel
        per step plus a tail repeating the last step. */
    method EnsureSentinels(mobile: bool)
      modifies this`sentinels
      ensures if hasTrack && mobile && old(sentinels) == [] then IsSentinelList(sentinels, tabCount)
              else sentinels == old(sentinels)
    {
      if !hasTrack || !mobile || |sentinels| > 0 {
        return;
      }
      var frag: seq<Sentinel> := [];
      for i := 0 to tabCount
        invariant |frag| == i && forall k :: 0 <= k < i ==> frag[k] == Sentinel(k, false)
      {
        frag := frag + [Sentinel(i, false)];
      }
      frag := frag + [Sentinel(tabCount - 1, true)];
      sentinels := sentinels + frag;
    }

    /** The step numbers of the elements the sampler measures: the sentinels on mobile when
        there are any, the tabs otherwise. Once the sentinels are built, the sampler on
        mobile sees the steps 0 to n - 1 and then the tail's n - 1, whatever the tabs' own
        `data-step` values are. */
    function ScrollTargetSteps(mobile: bool): (r: seq<int>)
      reads this
      ensures !(hasTrack && mobile && |sentinels| > 0) ==> r == tabSteps
      ensures hasTrack && mobile && IsSentinelList(sentinels, tabCount) ==>
                r == seq(tabCount, i => i) + [tabCount - 1]
    {
      if hasTrack && mobile && |sentinels| > 0 then SentinelSteps(sentinels) else tabSteps
    }

    /** One scroll sample: when the listeners are attached and the section overlaps the
        viewport, the nearest target's step is requested as a scroll-sourced, progressive
        update. `boxes` are the measured boxes of the elements of `ScrollTargetSteps`. */
    method OnScrollSample(section: Box, viewportH: real, mobile: bool, boxes: seq<Box>) returns (applied: bool, autoScroll: bool)
      requires Valid() && |boxes| == |ScrollTargetSteps(mobile)|
      modifies this, tabSelected, tabIndex, msgHidden
      ensures Valid()
      ensures var picked := Clamp(PickedStep(Targets(boxes, old(ScrollTargetSteps(mobile))), viewportH,
                                             FocusLine(viewportH, mobile), old(currentStep)), 0, tabCount - 1);
              applied == (old(scrollSampling) && OnScreen(section, viewportH) && picked != old(currentStep)) &&
              (applied ==> currentStep == picked)
      ensures !applied ==> unchanged(this, tabSelected, tabIndex, msgHidden) && !autoScroll
      ensures applied ==> Page() == Project(currentStep, tabCount, true, reducedMotion, msgFrom, old(panelLabelledBy)) &&
                          autoScroll == (currentStep >= old(currentStep))
      ensures sentinels == old(sentinels) && scrollSampling == old(scrollSampling)
    {
      if !scrollSampling || section.top + section.height < 0.0 || section.top > viewportH {
        return false, false;
      }
      var targets := Targets(boxes, ScrollTargetSteps(mobile));
      var picked := PickActiveFromScroll(targets, viewportH, mobile, currentStep, tabCount);
      applied, autoScroll := SetActiveStep(picked, Scroll, Some(true));
    }

    /** Start-up: build the sentinels; with no tabs stop there; otherwise activate step 0 and
        scroll the chat to the bottom, and attach the scroll sampling unless motion is
        reduced (then every message stays visible). */
    method Start(mobile: bool) returns (chatScrolled: bool)
      requires Valid() && currentStep == 0 && !scrollSampling && sentinels == []
      modifies this, tabSelected, tabIndex, msgHidden
      ensures Valid()
      ensures if hasTrack && mobile then IsSentinelList(sentinels, tabCount) else sentinels == []
      ensures tabCount == 0 ==> unchanged(tabSelected, tabIndex, msgHidden) && Page() == old(Page()) &&
                                currentStep == 0 && !scrollSampling && !chatScrolled
      ensures tabCount > 0 ==> currentStep == 0 && chatScrolled && scrollSampling == !reducedMotion &&
                               Page() == Project(0, tabCount, !reducedMotion, reducedMotion, msgFrom, old(panelLabelledBy))
    {
      EnsureSentinels(mobile);
      if tabCount == 0 {
        return false;
      }
      var applied, autoScroll;
      if reducedMotion {
        applied, autoScroll := SetActiveStep(0, Init, Some(false));
        chatScrolled := true;
      } else {
        applied, chatScrolled := SetActiveStep(0, Init, Some(true));
        scrollSampling := true;
      }
    }
  }

  /** Start-up with four steps and full motion, then "next" three times, then once more at
      the end. Of two messages, the one shown from step 2 appears only at step 2. The last
      press calls `Go` directly to exercise the clamp: on the page the "next" button is
      disabled at the last step, so a click there never reaches `go`. */
  method FourStepWalkthrough()
  {
    var t := new Tracker(4, false, [From(0), From(2)], [0, 1, 2, 3], false);
    var scrolled := t.Start(false);
    assert t.currentStep == 0 && scrolled;
    assert !t.toastVisible && t.prevDisabled && !t.nextDisabled;
    assert t.stepLabel == StepLabel.Label(0, 4);
    assert t.msgHidden[..] == [false, true];
    var view, auto := t.Go(1, false);
    assert t.msgHidden[..] == [false, true];
    view, auto := t.Go(1, false);
    assert t.msgHidden[..] == [false, false] && t.toastVisible;
    view, auto := t.Go(1, false);
    assert t.currentStep == 3 && view == Some(TabView(3)) && auto;
    assert t.toastVisible && t.nextDisabled && !t.prevDisabled;
    assert t.stepLabel == StepLabel.Label(3, 4);
    view, auto := t.Go(1, false);
    assert t.currentStep == 3 && t.stepLabel == StepLabel.Label(3, 4);
  }
}
