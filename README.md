# Salon landing page: scrollytelling tracker, contact-form validator, FAQ accordion

This project is a Dafny model of the interactive core of the landing page script
`app.js`. It has three parts.

- **The scrollytelling step tracker** drives the "how it works" demo section. There is one
  current step. It changes only through `setActiveStep`. Every change re-renders the
  tabs (`aria-selected`, `tabindex`, the `is-active` class), the chat panel's
  `aria-labelledby`, the step label (`"2/4 step"`), the previous and next buttons, the
  calendar toast, and which chat messages are hidden. Steps are requested by:
  - tab clicks and Enter/Space on a tab;
  - the previous and next buttons (`go`);
  - start-up;
  - a scroll sampler. It picks the tab, or on mobile the invisible sentinel, whose centre
    lies nearest to a focus line across the viewport.

  The arrow keys in the tab list only move focus.
- **The contact-form validator** checks six fields against their rules (minimum
  lengths, a phone pattern, an e-mail pattern) on the trimmed values. It flags every
  invalid field it finds and reports the first one.
- **The FAQ accordion**: opening one `<details>` item closes all the others.

Modules:

- `ScrollySteps` (`scrolly_steps.dfy`) holds the pure rules of the tracker:
  - `Clamp`;
  - `Project`, the page state the tracker writes for one active step, with lemmas about
    that state;
  - the arrow-key focus rule;
  - the sentinel list.
- `StepLabel` (`step_label.dfy`) holds the decimal step label and proves that the label
  determines the step and the count.
- `ScrollyGeometry` (`scrolly_geometry.dfy`) holds the scroll sampler's nearest-target
  scan. It is a loop, proved against a recursive specification.
- `ScrollyTracker` (`scrolly_tracker.dfy`) has the class `Tracker`:
  - its fields are the tracker's state and the attributes it writes;
  - its methods are `setActiveStep`, the four `update…UI` renderers, `go`, the tab
    handlers, `ensureSentinels`, one scroll sample and start-up.

  The main postcondition ties the new page state to `Project`.
- `ContactForm` (`contact_form.dfy`) holds:
  - ECMAScript `trim`;
  - the UTF-16 length;
  - the two regular expressions, written as predicates (the e-mail one is proved equal to
    a decision procedure);
  - the field table;
  - `ValidateForm`, a loop over the table.
- `FaqAccordion` (`faq_accordion.dfy`) holds the toggle handler over an array of open
  flags, and the invariant "at most one item open".
- `Wrappers` (`wrappers.dfy`) holds `Option`.

Inputs from the browser become parameters of the methods:
- the viewport height and element boxes from `getBoundingClientRect`;
- `prefers-reduced-motion`;
- the mobile breakpoint;
- which elements exist.

Side effects that leave the page state alone become results:
- whether the chat is scrolled to the bottom;
- which element is scrolled into view;
- which tab receives focus.

Some choices follow the code:
- The calendar toast follows the reduced-motion preference: it is always visible under
  reduced motion. It does not follow the `progressive` option passed to
  `setActiveStep`.
- A tab click or Enter/Space activates the step but does not scroll anything into view.
  Only the previous and next buttons do.
- With zero tabs, start-up still builds the sentinels (one tail with step -1) and then
  stops without rendering anything.
- `firstInvalid` is only ever a field whose input exists. A missing input reads as `''`,
  fails its rule and makes the form invalid, but `input` is then `null`, so assigning it
  leaves `firstInvalid` at `null`.

`ScrollyTracker.FourStepWalkthrough` is a worked example. It has four steps, full motion
and two messages, shown from steps 0 and 2. It starts up and presses "next" four times,
asserting the step, the label, the buttons, the toast and the hidden messages along the
way. The last press stays on the fourth step. That press calls `Go` directly to exercise
the clamp; on the page the "next" button is disabled at the last step, so a click there
never reaches `go`.

## Model

| member | source | states |
|---|---|---|
| ScrollySteps.Clamp | app.js:567 | the result lies in `[lo, hi]` when the range is non-empty, equals `x` inside it, saturates at either end, and is `lo` when `hi < lo` (zero tabs give index 0) |
| ScrollySteps.ClampIdempotent | app.js:567 | clamping twice is clamping once |
| ScrollySteps.ClampStepInRange | app.js:641-642 | a clamped index is a valid step index (0 when there are no tabs), and a valid index is left unchanged |
| ScrollySteps.Project | app.js:591-639 | the page state for one step has one selection flag and one tab index per tab and one hidden flag per message |
| ScrollySteps.ExactlyOneTabSelected | app.js:608-614 | after an update exactly one tab is selected and exactly one has `tabindex` 0, both the active one; the others are unselected with `tabindex` -1 |
| ScrollySteps.MessageVisibility | app.js:625-639 | in progressive mode a message is visible exactly when the active index has reached its `data-show-from`; otherwise every message is visible |
| ScrollySteps.RevealMonotone | app.js:625-639 | moving to a later step never hides a message that was visible |
| ScrollySteps.BackwardRehides | app.js:630-638 | a message with threshold 2 is hidden at steps 0 and 1 and shown at step 2, so going back hides it again; threshold 0 is always visible |
| ScrollySteps.ToastGateAtTwo | app.js:591-596 | the toast is visible exactly when motion is reduced or the active index is at least 2, and `aria-hidden` is its negation |
| ScrollySteps.ControlsAtBounds | app.js:598-606 | within range, "previous" is disabled exactly at step 0 and "next" exactly at the last step; the label reads `<active+1>/<count> step` |
| ScrollySteps.ArrowFocus | app.js:698-714 | navigation keys move focus only while a tab has focus: right/down to the next tab and left/up to the previous one, stopping at the ends; Home to the first tab and End to the last; the target is always a tab; other keys do nothing |
| ScrollySteps.SentinelStepsOfFreshList | app.js:520-545 | a freshly built sentinel list carries the steps 0 to n - 1 in order, then the tail's n - 1 |
| ScrollySteps.FindSentinel | app.js:664 | the result is the first sentinel at or after the start that carries the requested step; `None` when there is none |
| ScrollySteps.SentinelForStep | app.js:520-545 | in a freshly built sentinel list the lookup for step `i` finds the `i`-th sentinel, never the tail, and every sentinel's step is already in the clamped range |
| StepLabel.DigitChar | app.js:599 | a digit below ten is written as a decimal digit character |
| StepLabel.DigitValue | app.js:599 | reading a digit character back gives the digit |
| StepLabel.Decimal | app.js:599 | a numeral is non-empty, all digits, and starts with `0` only for zero |
| StepLabel.ParseDecimalOfDecimal | app.js:599 | reading a written numeral back gives the number |
| StepLabel.DecimalInjective | app.js:599 | different numbers are written differently |
| StepLabel.LabelDetermines | app.js:599 | two step labels are equal only for the same step and the same tab count |
| ScrollyGeometry.Distance | app.js:756-757 | the distance from a box's centre to the focus line is non-negative and is one of the two signed differences |
| ScrollyGeometry.NearestIndex | app.js:749-763 | the scan's answer, when there is one, is a target that is on screen |
| ScrollyGeometry.NearestIndexIsFirstNearest | app.js:749-763 | the scan finds nothing exactly when no target is on screen; otherwise it finds an on-screen target no farther than any other on-screen target and strictly nearer than every earlier one (ties go to the first) |
| ScrollyGeometry.NearestIndexExtend | app.js:752-763 | one more target replaces the best so far only when it is on screen and strictly nearer |
| ScrollyGeometry.FirstNearestUnique | app.js:749-763 | the earliest nearest on-screen target is unique, so the scan finds it |
| ScrollyGeometry.PickActiveFromScroll | app.js:745-766 | the loop returns the `data-step` of the earliest nearest on-screen target, or the current step when none is on screen, clamped into the tab range |
| ScrollyGeometry.PickMiddleExample | app.js:745-766 | with centres at 100, 300 and 500 and the focus line at 320, the middle target's step is picked |
| ScrollyTracker.Tracker.constructor | app.js:565 | the tracker starts at step 0 with no sentinels and no scroll sampling |
| ScrollyTracker.Tracker.UpdateCalendarToast | app.js:591-596 | the toast is shown under reduced motion or from index 2 on, and `aria-hidden` is always its negation |
| ScrollyTracker.Tracker.UpdateControlsUI | app.js:598-606 | the label is the decimal step label; "previous" is disabled at or below 0 and "next" at or beyond the last tab |
| ScrollyTracker.Tracker.UpdateTabsUI | app.js:608-623 | only the active tab is selected and has `tabindex` 0; the panel is labelled by the active tab if it exists and keeps its old label otherwise; controls and toast are re-rendered |
| ScrollyTracker.Tracker.UpdateMessagesUI | app.js:625-639 | every message's hidden flag becomes "not shown" under the progressive threshold rule, or all are revealed outside progressive mode |
| ScrollyTracker.Tracker.SetActiveStep | app.js:641-659 | a scroll request for the current step changes nothing; every other request stores the clamped index, renders exactly `Project` of it, keeps the step in range, and scrolls the chat only when progressive and not moving backward |
| ScrollyTracker.Tracker.ActivateTab | app.js:683-686 | a tab click makes that tab's step current and renders it, without the scroll guard |
| ScrollyTracker.Tracker.TabKeyDown | app.js:688-693 | Enter and Space activate the tab as a UI request: it becomes the current step, the page is `Project` of it, and the chat is scrolled when motion is not reduced and the step does not go back; every other key leaves the page unchanged and scrolls nothing |
| ScrollyTracker.Tracker.StepIntoView | app.js:661-680 | on mobile with a scroll track, the first sentinel carrying the step is centred; sentinels are used nowhere else; a tab is centred only when no sentinel is used, and it is the tab with that index; nothing is centred only when there is no such tab and no sentinel |
| ScrollyTracker.Tracker.MobileStepUsesOwnSentinel | app.js:661-672 | once the sentinels exist, every step on mobile is centred through its own sentinel |
| ScrollyTracker.Tracker.Go | app.js:718-725 | the new step is the old one plus `delta`, clamped; it is rendered as a UI request and scrolled into view |
| ScrollyTracker.Tracker.EnsureSentinels | app.js:520-545 | on mobile with a scroll track and no sentinels yet, builds one sentinel per step plus a tail repeating the last step; otherwise (including every later resize) changes nothing |
| ScrollyTracker.Tracker.ScrollTargetSteps | app.js:737-743 | off mobile, without a track or before any sentinel exists the sampler measures the tabs; on mobile with a track, once the sentinels are built, it sees the steps 0 to n - 1 and then the tail's n - 1 |
| ScrollyTracker.Tracker.OnScrollSample | app.js:769-779 | when sampling is on and the section overlaps the viewport, the picked step is applied as a progressive scroll request, so it changes the page only when it differs from the current step |
| ScrollyTracker.Tracker.Start | app.js:727-786 | builds the sentinels; with no tabs nothing is rendered; otherwise step 0 is rendered (progressively unless motion is reduced), the chat is scrolled to the bottom, and scroll sampling is attached exactly when motion is not reduced |
| FaqAccordion.AfterToggle | app.js:198-208 | the handler keeps the number of items |
| FaqAccordion.OnToggle | app.js:198-208 | the in-place pass leaves the flags as `AfterToggle` says: unchanged if the item was closed, otherwise only that item open |
| FaqAccordion.OpenCount | app.js:198-208 | the number of open items is at most the number of items and is zero exactly when none is open |
| FaqAccordion.OpenCountOnlyOne | app.js:202-206 | a list where only one item is open has one open item |
| FaqAccordion.OpenCountClose | app.js:198-208 | closing an item never increases the number of open items |
| FaqAccordion.OpeningLeavesOne | app.js:199-206 | after an item is opened, exactly that item is open |
| FaqAccordion.UserToggleKeepsAtMostOne | app.js:198-208 | whatever the user opens or closes, at most one item stays open if at most one was open |
| FaqAccordion.HandlerSettles | app.js:199-206 | the `toggle` events fired by the items the handler closes change nothing, and running the handler again changes nothing |
| ContactForm.TrimStartCuts | app.js:244 | stripping the leading white space leaves a suffix; everything cut is white space, and the result does not start with white space |
| ContactForm.TrimEndCuts | app.js:244 | stripping the trailing white space leaves a prefix; everything cut is white space, and the result does not end with white space |
| ContactForm.TrimCutsSpace | app.js:244 | `trim()` leaves a contiguous piece of the input with only white space cut on either side, and the piece neither starts nor ends with white space |
| ContactForm.TrimIdempotent | app.js:244 | trimming a trimmed string changes nothing |
| ContactForm.Utf16Length | app.js:244 | `length` counts UTF-16 code units: between one and two per character |
| ContactForm.FindChar | app.js:260 | a position found lies at or after the start and holds the character |
| ContactForm.FindCharFirst | app.js:260 | the position found is the first such one, and `None` means the character does not occur from the start on |
| ContactForm.EmailDecision | app.js:260 | the left-to-right check equals the pattern `^[^\s@]+@[^\s@]+\.[^\s@]+$` |
| ContactForm.Position | app.js:241-266 | each field has its row in the table |
| ContactForm.PositionInTable | app.js:241-266 | each row's field has that row's position |
| ContactForm.RuleOfEachField | app.js:241-266 | name, salon and city need at least 2 UTF-16 units after trimming; the message needs at least 10; the phone must match `^[\d\s+()-]{6,}$`; the e-mail must match its pattern |
| ContactForm.RuleSeesTrimmed | app.js:241-266 | every rule sees only the trimmed value, and the empty value breaks every rule |
| ContactForm.AllOkUpToMeaning | app.js:276-284 | after `k` rows, `valid` still holds exactly when every field in those rows passes its rule |
| ContactForm.FlaggedUpToMeaning | app.js:272-278 | after `k` rows, the wrappers marked `is-invalid` are exactly those of the present fields in those rows that fail |
| ContactForm.FirstBadUpToMeaning | app.js:280-282 | after `k` rows, `firstInvalid` is the earliest present failing field among them, and it is unset only when every present field among them passes |
| ContactForm.NotYetFlagged | app.js:272-278 | a row's field is not yet marked when its row comes up, since every field has one row |
| ContactForm.OutcomeMeaning | app.js:238-286 | after the whole table: valid exactly when every field passes; flagged exactly the present failing fields; `firstInvalid` the earliest present failing field |
| ContactForm.ValidateForm | app.js:238-286 | no form means valid. Otherwise: valid exactly when every field passes its rule (a missing input reads as `''`); the flagged fields are exactly the present, failing ones; `firstInvalid` is the earliest present failing field, and `None` only when every present field passes |

## Left out

- Browser scheduling is not modelled:
  - the `requestAnimationFrame` coalescing of scroll samples (each sample is one call of
    `OnScrollSample`), including the first sample queued at start-up;
  - the two-frame `is-enter` animation class added by `revealMsg`;
  - the `passive` listener options.
- The geometry uses exact reals. The floating-point rounding of layout values and of the
  focus line products is not modelled.
- `Number(data-step)` is taken to be an integer. A `data-step` that reads as NaN or a
  fraction, which would then be passed to `clamp`, is not modelled. Tabs without the
  attribute read as step 0.
- The tracker assumes that every optional element exists: the calendar toast, the step
  label, the previous and next buttons, and the chat panel. Every tab is assumed to have
  an `id`, so the panel label is recorded as the tab index. The `if (el)` guards on
  missing elements are not modelled.
- `scrollIntoView`, `scrollTo` and `focus()` are returned as results rather than
  performed. Their `'smooth'`/`'auto'` behaviour and `preventDefault` are not modelled.
- The initial markup before start-up is not known. The constructor fixes one arbitrary
  initial state.
- The reduced-motion and mobile media queries are read by the caller. The reduced-motion
  preference is fixed at start-up, as in the code.
- The rest of `app.js` is not part of this model:
  - the mobile navigation;
  - smooth anchor scrolling;
  - the reveal-on-scroll observers;
  - the phone mock-up scaling and the stage height variable;
  - the `is-ending` state;
  - the form's status messages, input listeners and `fetch` submission;
  - the footer year.
- ContactForm.ValidateForm: the `is-invalid` class is modelled as the set of flagged
  fields. The `.form-field` wrapper is assumed to exist for every present input, and
  focus moving to `firstInvalid` is not modelled.
- Strings are sequences of Unicode scalar values, so a lone UTF-16 surrogate cannot
  occur. An input value in the browser can hold one; `.length` would count it as one
  unit and `[^\s@]` would match it. No rule depends on this.
- ContactForm.IsSpace: it covers the ECMAScript white space and line terminators listed
  by the standard. The Unicode `Zs` category is spelled out for the code points it held
  when written.
