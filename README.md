# Portfolio site: typewriter banner and scroll-reveal directive

A Dafny model of the two pieces of behaviour in an Angular portfolio site:

- **The hero banner's typewriter** (`HeroComponent`). A fixed, non-empty list of
  role strings is cycled for ever. One role is typed one character per step,
  held, then deleted one character per step, held again, and the next role
  (cyclically) follows. Each timer callback (`typeText`) performs one step and
  schedules the next after a delay chosen by the step taken: 100 ms while
  typing, 2000 ms after completing a role, 50 ms while deleting, and 500 ms
  after emptying the text. Text is cut with JavaScript's
  `String.prototype.substring`, whose clamping of out-of-range indices is
  modelled (`Hero.Substring`, over code points rather than UTF-16 code units). With it an empty role flips mode and
  advances like any other role. Tearing the view down cancels the pending
  timer when a truthy handle is set.
- **The scroll-reveal directive** (`ScrollAnimationDirective`). On init the
  host element is hidden (`opacity: 0`), given a transition that embeds the
  configured delay, and, for the slide animations, offset by 50px. Then it is
  checked at once. A check reveals the element (`opacity: 1`,
  `transform: translate(0, 0)`) and sets the one-way latch `hasAnimated` when
  the element's top is at most 80% of the window height and its bottom is not
  above the viewport. Scroll events re-check only while the latch is unset.

Layout:

- `hero.dfy` (module `Hero`): the step function `Step`, its iterates `Iterate`
  and `Delays`, lemmas about whole typing/deleting runs and cycles, and the
  class `HeroComponent` whose methods update the fields in place.
- `scroll_animation.dfy` (module `ScrollAnimation`): the visibility predicate,
  the style updates as functions on a style map, the latch over any sequence
  of scroll events, and the class `ScrollAnimationDirective`.
- `decimal.dfy` (module `Decimal`): how an integer renders inside the
  transition's template literal, and its inverse.
- `wrappers.dfy`: `Option`, used for the timer handle (`None` is `undefined`)
  and the optional initial transform.

Geometry is integral. `top <= 0.8 * windowHeight` is written
`5 * top <= 4 * windowHeight`, and the contract of `ScrollAnimation.Visible`
states this agrees with the comparison against `0.8` over the reals. The
element's rectangle and the window's heights are arguments of each check. The
renderer's `setStyle` is a write into the `style` map.

## Model

| member | source | states |
|---|---|---|
| Hero.Clamp | src/app/components/hero/hero.component.ts:42-53 | a substring index is clamped into [0, length]: negative to 0, past the end to the length, in range unchanged |
| Hero.Substring | src/app/components/hero/hero.component.ts:42-53 | agrees with slicing for in-range indices; from 0 it yields a prefix of the string whose length is the clamped end |
| Hero.Step | src/app/components/hero/hero.component.ts:37-62 | one callback keeps the text a prefix of the current role and the index in range; the index advances to (i+1) mod n only when a deletion empties the text; typing adds exactly one character before the role is complete, deleting removes exactly the last one while non-empty, deleting from "" stays at "" and advances, and typing on a complete role only flips to deleting; the mode flips to deleting exactly when the text equals the role and back to typing exactly when it is empty; the delay is the one of the branch taken |
| Hero.Iterate | src/app/components/hero/hero.component.ts:37-62 | any number of callbacks keeps the index in range |
| Hero.IterateConsistent | src/app/components/hero/hero.component.ts:37-62 | from a consistent state, or after at least one callback from any state, the text is a prefix of the current role |
| Hero.Delays | src/app/components/hero/hero.component.ts:47-59 | k callbacks schedule exactly k delays |
| Hero.IterateLast | src/app/components/hero/hero.component.ts:37-62 | callback k+1 acts on the state left by the first k callbacks |
| Hero.DelaysLast | src/app/components/hero/hero.component.ts:37-62 | callback k+1 adds its delay at the end of the schedule of the first k |
| Hero.IterateAdd | src/app/components/hero/hero.component.ts:37-62 | the state after a+b callbacks is the state after b callbacks from the state after a |
| Hero.DelaysAdd | src/app/components/hero/hero.component.ts:37-62 | the delays of a+b callbacks are those of the first a followed by those of the next b |
| Hero.TypingRun | src/app/components/hero/hero.component.ts:53-60 | from a proper prefix of length j in typing mode, len(role)-j callbacks type the full role and switch to deleting, with delays 100 ms each and 2000 ms last |
| Hero.DeletingRun | src/app/components/hero/hero.component.ts:42-50 | from a non-empty prefix of length j in deleting mode, j callbacks empty the text, switch to typing and move to role (i+1) mod n, with delays 50 ms each and 500 ms last |
| Hero.TypePhase | src/app/components/hero/hero.component.ts:53-60 | from "" in typing mode, max(len(role), 1) callbacks display the whole role and switch to deleting, empty role included |
| Hero.DeletePhase | src/app/components/hero/hero.component.ts:42-50 | from the full role in deleting mode, max(len(role), 1) callbacks empty it and move to the next role, empty role included |
| Hero.RoleCycle | src/app/components/hero/hero.component.ts:37-62 | from "" at role i the role is shown in full after max(len(role),1) callbacks and the text is "" at role (i+1) mod n after twice as many |
| Hero.FirstRole | src/app/components/hero/hero.component.ts:12-62 | from the initial state ("", 0, typing) the first role is typed after max(len(roles[0]),1) callbacks with the mode deleting, and after as many more the text is "" at index 1 mod n |
| Hero.Cycles | src/app/components/hero/hero.component.ts:44-46 | roles are visited in order: c full cycles from role i end with "" at role (i+c) mod n |
| Hero.CycleShows | src/app/components/hero/hero.component.ts:37-62 | cycle j of those starting at role i displays role (i+j) mod n in full, in deleting mode |
| Hero.ReturnToStart | src/app/components/hero/hero.component.ts:44-46 | n·N full cycles from role i come back to "" at role i, typing |
| Hero.ShownOrderDisplayed | src/app/components/hero/hero.component.ts:37-62 | entry j of the order of roles counted by ShownEvenly is an index in range whose role the typewriter, started at "" on role i, displays in full, in deleting mode, at the end of the typing phase of cycle j |
| Hero.ShownEvenly | src/app/components/hero/hero.component.ts:44-46 | over n·N cycles every role index occurs exactly N times among the roles shown |
| Hero.EmptyRole | src/app/components/hero/hero.component.ts:42-57 | an empty role does not stall: typing yields "" equal to the role and flips to deleting after 2000 ms; deleting yields "" by clamping and advances the index after 500 ms |
| Hero.GoTrace | src/app/components/hero/hero.component.ts:37-62 | with the single role "Go" the text runs "G", "Go", "G", "", "G", "Go" with delays 100, 2000, 50, 500, 100, 2000 |
| Hero.Consistent | src/app/components/hero/hero.component.ts:12-25 | the component's invariant: the index is in range and the text is the first len(text) characters of the current role |
| Hero.Truthy | src/app/components/hero/hero.component.ts:32 | a timer handle counts as set unless it is undefined or 0, so every positive handle counts |
| Hero.HeroComponent.constructor | src/app/components/hero/hero.component.ts:12-25 | a new component shows "", is at role 0, is typing and has no timer |
| Hero.HeroComponent.TypeText | src/app/components/hero/hero.component.ts:37-62 | the fields become the state Step computes from their old values, the returned delay is Step's, the new timer handle is stored, and the invariant (index in range, text a prefix of its role) is kept |
| Hero.HeroComponent.OnInit | src/app/components/hero/hero.component.ts:27-29 | mounting performs exactly one step |
| Hero.HeroComponent.OnDestroy | src/app/components/hero/hero.component.ts:31-35 | the pending timer is cancelled exactly when its handle is truthy, the cancelled handle is the stored one, and no field changes |
| Hero.HeroComponent.Run | src/app/components/hero/hero.component.ts:37-62 | a chain of k timer callbacks leaves the state k steps on, returns the k delays chosen and keeps the last handle |
| Hero.MountAndUnmount | src/app/components/hero/hero.component.ts:27-35 | after mounting and any number of callbacks with positive handles, tearing down cancels the last scheduled timer |
| Decimal.NatToString | src/app/directives/scroll-animation.directive.ts:21 | a natural number renders as a non-empty digit string with no leading zero, one digit below ten, so 0 renders as "0" |
| Decimal.ParseNatToString | src/app/directives/scroll-animation.directive.ts:21 | parsing the rendered digits gives the number back |
| Decimal.IntToString | src/app/directives/scroll-animation.directive.ts:21 | an integer renders as digits, with a leading '-' exactly when negative |
| Decimal.IntToStringRoundTrip | src/app/directives/scroll-animation.directive.ts:21 | parsing the rendered integer gives it back, so distinct delays render distinctly |
| ScrollAnimation.InitialTransform | src/app/directives/scroll-animation.directive.ts:24-34 | only fade-in sets no initial transform |
| ScrollAnimation.InitialTransformDistinct | src/app/directives/scroll-animation.directive.ts:24-34 | distinct animation types start from distinct transforms, none equal to the revealed translate(0, 0) |
| ScrollAnimation.Transition | src/app/directives/scroll-animation.directive.ts:21 | the transition starts with "all 0.8s ease-out " and ends with "ms" |
| ScrollAnimation.TransitionRoundTrip | src/app/directives/scroll-animation.directive.ts:21 | the text between that prefix and "ms" is the delay in decimal and parses back to it |
| ScrollAnimation.WindowHeight | src/app/directives/scroll-animation.directive.ts:49 | the window height is innerHeight, or clientHeight when innerHeight is 0 |
| ScrollAnimation.Visible | src/app/directives/scroll-animation.directive.ts:52 | the visibility test, computed as 5·top <= 4·h and bottom >= 0 on integers, holds exactly when top <= 0.8·h and bottom >= 0 |
| ScrollAnimation.VisibilityBand | src/app/directives/scroll-animation.directive.ts:47-54 | with a positive height and bottom >= 0: top at the viewport's bottom edge is not visible, top at or above the viewport top is, and top at 79% of the height is |
| ScrollAnimation.InitStyle | src/app/directives/scroll-animation.directive.ts:18-34 | init sets opacity "0", the transition with the delay, and the type's transform (fade-in leaves transform alone); every other property is kept |
| ScrollAnimation.Revealed | src/app/directives/scroll-animation.directive.ts:57-61 | the reveal sets opacity "1" and transform translate(0, 0) and keeps every other property, the transition included |
| ScrollAnimation.RevealedIdempotent | src/app/directives/scroll-animation.directive.ts:57-61 | revealing twice is revealing once |
| ScrollAnimation.Check | src/app/directives/scroll-animation.directive.ts:47-54 | a check sets the latch exactly when it was set or the element is visible, and reveals the style exactly when visible |
| ScrollAnimation.CheckIdempotent | src/app/directives/scroll-animation.directive.ts:47-61 | a second check at the same layout changes nothing further |
| ScrollAnimation.Scroll | src/app/directives/scroll-animation.directive.ts:40-45 | a scroll event changes nothing once revealed; otherwise it reveals exactly when visible and leaves the element alone when not |
| ScrollAnimation.Init | src/app/directives/scroll-animation.directive.ts:18-38 | after init the opacity is "1" if the immediate check saw the element in the band and "0" otherwise, the transition embeds the delay, and the transform is translate(0, 0) if revealed, else the type's initial one; when not revealed the style is exactly init's writes, and no property other than these three changes |
| ScrollAnimation.ScrollAll | src/app/directives/scroll-animation.directive.ts:40-45 | a run of scroll events leaves a revealed element as it is, and an element still unrevealed after it unchanged |
| ScrollAnimation.ScrollAllLatch | src/app/directives/scroll-animation.directive.ts:40-61 | over any sequence of scroll events the latch is set exactly when it was set before or some event saw the element visible; a revealed element is never changed again, and an unrevealed one ends with its style revealed once or unchanged |
| ScrollAnimation.ScrollAnimationDirective.constructor | src/app/directives/scroll-animation.directive.ts:8-16 | a new directive has the latch unset and the element's style as it was |
| ScrollAnimation.ScrollAnimationDirective.WithDefaults | src/app/directives/scroll-animation.directive.ts:8-11 | a directive whose inputs are left unset is a fade-in with delay 0 and the latch unset |
| ScrollAnimation.ScrollAnimationDirective.SetStyle | src/app/directives/scroll-animation.directive.ts:20-21 | a style write sets one property and nothing else |
| ScrollAnimation.ScrollAnimationDirective.OnInit | src/app/directives/scroll-animation.directive.ts:18-38 | the latch and style become what Init gives |
| ScrollAnimation.ScrollAnimationDirective.OnScroll | src/app/directives/scroll-animation.directive.ts:40-45 | nothing changes once the latch is set; otherwise the state becomes what Scroll gives |
| ScrollAnimation.ScrollAnimationDirective.CheckVisibility | src/app/directives/scroll-animation.directive.ts:47-55 | the state becomes what Check gives, and a set latch stays set |
| ScrollAnimation.ScrollAnimationDirective.AnimateIn | src/app/directives/scroll-animation.directive.ts:57-61 | the latch is set and the style becomes the revealed style |
| ScrollAnimation.ScrollAnimationDirective.ScrollEvents | src/app/directives/scroll-animation.directive.ts:40-45 | a run of scroll events leaves the state ScrollAll gives and never unsets the latch |
| ScrollAnimation.MountInView | src/app/directives/scroll-animation.directive.ts:36-37 | an element already inside the band at init is revealed with opacity "1" without any scroll event |
| ScrollAnimation.ScrollIntoView | src/app/directives/scroll-animation.directive.ts:40-54 | an element whose top is at the viewport's bottom stays hidden at init, is revealed by a scroll event that brings its top to 79% of the height, and stays revealed after any later events |

## Left out

- Hero.Substring, Hero.Step: a role is a sequence of Unicode code points, while JavaScript's `length` and `substring` count UTF-16 code units. For a role with a character outside the Basic Multilingual Plane the source takes two callbacks for that character, showing a lone surrogate in between, and the model takes one; the phase lengths in `Hero.TypePhase`, `Hero.DeletePhase` and `Hero.RoleCycle` count code points. The roles in `Hero.DefaultRoles` are ASCII, where the two counts agree.
- Timers and real time: `setTimeout` is not modelled. `TypeText` returns the delay it would schedule and takes the handle the scheduler would return as a parameter. `clearTimeout` is represented by the handle `OnDestroy` returns.
- Angular's wiring: decorators, `ElementRef`, `Renderer2`, and the registration and removal of the `window:scroll` listener by `@HostListener`. The directive has no teardown code of its own, so "a detached target is no longer updated" is not modelled.
- `getBoundingClientRect`, `innerHeight` and `clientHeight` are read by the host. They are the `Layout` argument of each check and are integers. Fractional pixel values and a `NaN` (also falsy) `innerHeight` are not modelled.
- The directive's `animationDelay` is an integer. JavaScript's rendering of fractional numbers, and its exponent notation for very large ones, are not modelled.
- The directive's inputs are constructor arguments. In the source Angular assigns them after construction and before `ngOnInit`. An input left unbound keeps its default (`fade-in`, delay 0); `ScrollAnimation.ScrollAnimationDirective.WithDefaults` is that case.
- The roles list is a constructor argument, required to be non-empty. The source's list is a fixed, non-empty literal, `Hero.DefaultRoles`. An empty list, which would index `undefined`, is not modelled.
- CSS transition timing, easing, rendering, templates and styles.
- `ProjectsComponent`, `AccessibilityComponent`, `SkillsComponent` and `ContactComponent` hold constant data or nothing at all, and have no behaviour to model.
