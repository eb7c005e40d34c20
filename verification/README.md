# DotenkoV3 navigation engine, modelled in Dafny

DotenkoV3 is a SwiftUI app. Its only component with real logic is the
navigation engine in `DotenkoV3/Managers/Navigation.swift`. The engine has
three parts:

- **`ViewWrapper`**: an opaque view paired with a fresh `UUID`. `==` and
  `hash` look at the id only.
- **`NavigationStateManager`**: the primary screen stack. Its state is
  `viewStack` and the busy latch `isNavigating`.
- **`NavigationAllViewStateManager`**: the full-screen overlay. Its state is
  `currentFullScreenView`, `isFullScreenPresented`, the busy latch
  `isTransitioning` and a private back-stack `viewStack`.

Every navigation call (push, pop, popToRoot, replace on the stack;
present, dismiss, replace on the overlay) does nothing while the manager's
latch is set. An accepted call sets the latch and changes the state at
once. A timer releases the latch about 0.1 s later. The two resets
(`resetToInitial`, `forceResetForTesting`) bypass the latch and clear it.

The model has four modules:

- `ViewWrappers` (`view_wrapper.dfy`): `Wrapper<T>(id, content)`, the
  id-only `Equals` and `Hash`, and `IdSource`. `IdSource` is a counter that
  stands in for `UUID()`: no id is ever handed out twice.
- `PrimaryNavigation` (`navigation_state.dfy`) and `FullScreenNavigation`
  (`full_screen_state.dfy`): each has a pure state datatype and one
  `After*` function per operation, which together are the specification.
  Each also has the manager as a Dafny class with the source's fields. Every
  public method of the class is proved to change the state exactly as its
  `After*` function says, and every method keeps the class invariant
  `Valid()`. The `perform*` helpers state directly the change an accepted
  call makes; constructors state the initial state. For the
  overlay, `Valid()` includes "presented implies a current screen". Both
  invariants require that held wrappers have pairwise distinct, issued ids.
  A `Command` datatype and `Run` replay sequences of calls, so that lemmas
  can state properties of whole call sequences.
- `Scenarios` (`scenarios.dfy`): callers of the managers. These are
  `setupInitialView` from `MainNavigationView.swift`, call sequences taken
  from the test suite, and further illustrative call sequences (a pop at
  the root, two pushes or two presents in one busy window, an overlay
  round trip), each stated as what the caller observes.

The deferred latch release (`DispatchQueue.main.asyncAfter`) is the
explicit method `Settle`. It clears the latch and nothing else.

The model follows the code in these places:

- The primary stack can be empty. `setupInitialScreen` empties it, and only
  `setupInitialView` in `MainNavigationView.swift` seeds Home. So the model
  states "pop and popToRoot never empty a non-empty stack"
  (`RunNeverEmpties`), not "the stack is never empty".
- The latch is set whether or not the call is animated.
- The reset does not seed an initial screen. It only empties the stack.
- `replaceFullScreen` has no presented guard. On a closed overlay it makes
  the new screen current without showing it. A later `presentFullScreen`
  then pauses that never-shown screen on the back-stack, so a present on a
  closed overlay that still has a current screen gives depth two; only
  with no current screen does it give depth one
  (`FullScreenNavigation.DepthMoves`).

One observation about the tests. In the replace test, the replace comes
50 ms after the push, inside the 100 ms busy window. It is therefore
dropped. The depth the test checks is the same either way
(`Scenarios.ReplaceKeepsDepth`). The same holds for the replace right after
the present in the full-screen replace test (`Scenarios.PresentThenReplace`).

## Model

| member | source | states |
|---|---|---|
| `ViewWrappers.Equals` | DotenkoV3/Managers/Navigation.swift:50-52 | identical wrappers are equal, and equal wrappers with the same content are identical: `==` sees the id and nothing else |
| `ViewWrappers.Hash` | DotenkoV3/Managers/Navigation.swift:56-58 | the hash of a wrapper is the hasher applied to the id of any wrapper equal to it |
| `ViewWrappers.EqualsIsIdEquivalence` | DotenkoV3/Managers/Navigation.swift:50-52 | wrapper equality is an equivalence (reflexive, symmetric, transitive) and holds between wrappers with the same id but different contents |
| `ViewWrappers.HashRespectsEquals` | DotenkoV3/Managers/Navigation.swift:56-58 | equal wrappers hash alike under every hasher, because only the id is hashed |
| `ViewWrappers.AppendFresh` | DotenkoV3/Managers/Navigation.swift:32-34 | appending a wrapper whose id was never issued keeps every slot pairwise unequal and all ids issued |
| `ViewWrappers.KeySet` | DotenkoV3Tests/ViewWrapperTests.swift:63-90 | the keys of a `Set` (or dictionary) of wrappers are exactly the ids of the inserted wrappers, and there are at most as many keys as insertions |
| `ViewWrappers.KeySetMembership` | DotenkoV3Tests/ViewWrapperTests.swift:63-76 | a wrapper is in a `Set` of wrappers iff an equal (same-id) wrapper was inserted; inserting it again adds no key |
| `ViewWrappers.DistinctSlotsAreDistinctKeys` | DotenkoV3Tests/ViewWrapperTests.swift:78-90 | wrappers in pairwise distinct slots give as many distinct `Set`/dictionary keys as slots |
| `ViewWrappers.IdSource.Wrap` | DotenkoV3/Managers/Navigation.swift:32-43 | the new wrapper carries the content and an id above every earlier one |
| `PrimaryNavigation.Top` | DotenkoV3/Views/MainNavigationView.swift:66-68 | the rendered screen is the last stack element, and there is none iff the stack is empty |
| `PrimaryNavigation.AfterPush` | DotenkoV3/Managers/Navigation.swift:92-106 | when busy, nothing changes; otherwise the old stack is a prefix of the new one, the depth grows by one, the new wrapper is on top, and the latch ends set |
| `PrimaryNavigation.AfterPop` | DotenkoV3/Managers/Navigation.swift:110-122 | no-op when busy or depth <= 1; otherwise exactly the top is removed and the latch set; the result is a prefix and never empty if the input was non-empty |
| `PrimaryNavigation.AfterPopToRoot` | DotenkoV3/Managers/Navigation.swift:126-138 | no-op when busy or depth <= 1; otherwise exactly `[old[0]]` is left and the latch set; a non-empty stack ends with depth 1 or unchanged |
| `PrimaryNavigation.AfterReplace` | DotenkoV3/Managers/Navigation.swift:144-158 | when busy, nothing changes; otherwise the new wrapper is on top, an empty stack becomes `[w]`, a non-empty one keeps its depth, and every slot below the top is unchanged |
| `PrimaryNavigation.AfterSettle` | DotenkoV3/Managers/Navigation.swift:181-185 | the deferred release clears the latch and keeps the stack |
| `PrimaryNavigation.AfterReset` | DotenkoV3/Managers/Navigation.swift:161-178 | the reset empties the stack and clears the latch from any state |
| `PrimaryNavigation.GuardedCallSetsLatchOrIsRejected` | DotenkoV3/Managers/Navigation.swift:92-219 | an accepted push/pop/popToRoot/replace leaves the latch set; a rejected one changes nothing |
| `PrimaryNavigation.OnlySettleOrResetReleases` | DotenkoV3/Managers/Navigation.swift:175-185 | a set latch is cleared only by the deferred release or by the reset |
| `PrimaryNavigation.BusyRunIsNoOp` | DotenkoV3/Managers/Navigation.swift:92-158 | while the latch is set, any sequence of guarded calls leaves the whole state unchanged |
| `PrimaryNavigation.BackToBackAppliesOnlyFirst` | DotenkoV3/Managers/Navigation.swift:92-185 | of an accepted call followed by guarded calls with no release in between, only the first takes effect |
| `PrimaryNavigation.RunNeverEmpties` | DotenkoV3/Managers/Navigation.swift:110-138 | no sequence of calls without a reset turns a non-empty stack into an empty one |
| `PrimaryNavigation.RootKept` | DotenkoV3/Managers/Navigation.swift:189-219 | push, pop, popToRoot and the release keep the bottom screen; replace keeps it too when it is not the only screen |
| `PrimaryNavigation.PopToRootIdempotent` | DotenkoV3/Managers/Navigation.swift:126-138 | on a one-screen stack popToRoot changes nothing, so popToRoot, release, popToRoot equals popToRoot, release |
| `PrimaryNavigation.DepthChangesByAtMostOne` | DotenkoV3/Managers/Navigation.swift:189-219 | push, pop and replace change the depth by at most one |
| `PrimaryNavigation.NavigationStateManager.constructor` | DotenkoV3/Managers/Navigation.swift:71-84 | a new manager has an empty stack and a clear latch |
| `PrimaryNavigation.NavigationStateManager.Push` | DotenkoV3/Managers/Navigation.swift:92-106 | the state moves as `AfterPush` with a freshly issued wrapper; an id is used only when accepted; `Valid` is kept |
| `PrimaryNavigation.NavigationStateManager.Pop` | DotenkoV3/Managers/Navigation.swift:110-122 | the state moves as `AfterPop`; `Valid` is kept |
| `PrimaryNavigation.NavigationStateManager.PopToRoot` | DotenkoV3/Managers/Navigation.swift:126-138 | the state moves as `AfterPopToRoot`; `Valid` is kept |
| `PrimaryNavigation.NavigationStateManager.Replace` | DotenkoV3/Managers/Navigation.swift:144-158 | the state moves as `AfterReplace` with a freshly issued wrapper; `Valid` is kept |
| `PrimaryNavigation.NavigationStateManager.ResetToInitial` | DotenkoV3/Managers/Navigation.swift:161-178 | the state moves as `AfterReset`, even while busy |
| `PrimaryNavigation.NavigationStateManager.Settle` | DotenkoV3/Managers/Navigation.swift:181-185 | the state moves as `AfterSettle` |
| `PrimaryNavigation.NavigationStateManager.PerformPush` | DotenkoV3/Managers/Navigation.swift:189-192 | sets the latch and appends the wrapper |
| `PrimaryNavigation.NavigationStateManager.PerformPop` | DotenkoV3/Managers/Navigation.swift:195-198 | sets the latch and removes the last element of a non-empty stack |
| `PrimaryNavigation.NavigationStateManager.PerformPopToRoot` | DotenkoV3/Managers/Navigation.swift:201-207 | sets the latch and keeps only the first element when there are several |
| `PrimaryNavigation.NavigationStateManager.PerformReplace` | DotenkoV3/Managers/Navigation.swift:211-219 | sets the latch; appends to an empty stack, otherwise overwrites the last slot |
| `FullScreenNavigation.Visible` | DotenkoV3/Views/MainNavigationView.swift:47-49 | the overlay draws the current screen iff it is presented and one is current |
| `FullScreenNavigation.Initial` | DotenkoV3/Managers/Navigation.swift:240-259 | a new overlay is consistent and shows nothing |
| `FullScreenNavigation.AfterPresent` | DotenkoV3/Managers/Navigation.swift:267-281 | when busy, nothing changes; otherwise the new wrapper is current and presented, and the old current screen is appended to the back-stack iff there was one (growth at most 1); consistency is kept |
| `FullScreenNavigation.AfterDismiss` | DotenkoV3/Managers/Navigation.swift:285-301 | no-op when busy or closed; with paused screens, the last one becomes current and the overlay stays presented; with none, the overlay closes with nothing current; consistency is kept |
| `FullScreenNavigation.AfterReplace` | DotenkoV3/Managers/Navigation.swift:307-321 | only the current screen (and the latch) changes; back-stack and presented flag stay, even on a closed overlay |
| `FullScreenNavigation.AfterSettle` | DotenkoV3/Managers/Navigation.swift:343-347 | the deferred release clears the latch and keeps everything else |
| `FullScreenNavigation.AfterForceReset` | DotenkoV3/Managers/Navigation.swift:333-338 | the forced reset clears current, presented, latch and back-stack from any state |
| `FullScreenNavigation.GuardedCallSetsLatchOrIsRejected` | DotenkoV3/Managers/Navigation.swift:267-321 | an accepted present/dismiss/replace leaves the latch set; a rejected one changes nothing |
| `FullScreenNavigation.OnlySettleOrResetReleases` | DotenkoV3/Managers/Navigation.swift:333-347 | a set latch is cleared only by the deferred release or the forced reset |
| `FullScreenNavigation.BusyRunIsNoOp` | DotenkoV3/Managers/Navigation.swift:267-321 | while the latch is set, any sequence of guarded calls leaves the whole state unchanged |
| `FullScreenNavigation.BackToBackAppliesOnlyFirst` | DotenkoV3/Managers/Navigation.swift:267-347 | of an accepted call followed by guarded calls with no release in between, only the first takes effect |
| `FullScreenNavigation.RunKeepsConsistent` | DotenkoV3/Managers/Navigation.swift:333-381 | every sequence of calls keeps "presented implies a current screen, closed implies an empty back-stack", so a presented overlay always has something to draw |
| `FullScreenNavigation.DepthMoves` | DotenkoV3/Managers/Navigation.swift:351-381 | an accepted present goes one level deeper (or to depth 2 after a replace on a closed overlay), dismiss one level back, replace keeps the depth |
| `FullScreenNavigation.PresentPresentDismissRestores` | DotenkoV3/Managers/Navigation.swift:351-374 | present A, present B, dismiss brings A back presented, with the back-stack as after present A; from a closed, empty overlay a further dismiss closes it |
| `FullScreenNavigation.DoublePresentPausesOnce` | DotenkoV3/Managers/Navigation.swift:267-281 | two presents in one busy window on current A append A to the back-stack once, whatever was already paused, and leave the first new screen current |
| `FullScreenNavigation.NavigationAllViewStateManager.constructor` | DotenkoV3/Managers/Navigation.swift:240-259 | a new manager is in the initial state |
| `FullScreenNavigation.NavigationAllViewStateManager.PresentFullScreen` | DotenkoV3/Managers/Navigation.swift:267-281 | the state moves as `AfterPresent` with a freshly issued wrapper; `Valid` is kept |
| `FullScreenNavigation.NavigationAllViewStateManager.DismissFullScreen` | DotenkoV3/Managers/Navigation.swift:285-301 | the state moves as `AfterDismiss`; `Valid` is kept |
| `FullScreenNavigation.NavigationAllViewStateManager.ReplaceFullScreen` | DotenkoV3/Managers/Navigation.swift:307-321 | the state moves as `AfterReplace` with a freshly issued wrapper; `Valid` is kept |
| `FullScreenNavigation.NavigationAllViewStateManager.ForceResetForTesting` | DotenkoV3/Managers/Navigation.swift:333-338 | the state moves as `AfterForceReset` and is valid |
| `FullScreenNavigation.NavigationAllViewStateManager.Settle` | DotenkoV3/Managers/Navigation.swift:343-347 | the state moves as `AfterSettle` |
| `FullScreenNavigation.NavigationAllViewStateManager.PerformPresentFullScreen` | DotenkoV3/Managers/Navigation.swift:351-360 | appends the old current screen (if any) to the back-stack, then sets the latch, the new current screen and the presented flag |
| `FullScreenNavigation.NavigationAllViewStateManager.PerformDismissFullScreen` | DotenkoV3/Managers/Navigation.swift:363-374 | sets the latch; pops the back-stack into current, or clears current and presented when the back-stack is empty |
| `FullScreenNavigation.NavigationAllViewStateManager.PerformReplaceFullScreen` | DotenkoV3/Managers/Navigation.swift:378-381 | sets the latch and the current screen; back-stack and presented flag unchanged |
| `Scenarios.WrapSameContentTwice` | DotenkoV3Tests/ViewWrapperTests.swift:52-59 | two wrappers of the same content are unequal |
| `Scenarios.WrappersInSet` | DotenkoV3Tests/ViewWrapperTests.swift:63-76 | inserting w1, w2, w1 into a set gives two keys containing both |
| `Scenarios.SetupInitialView` | DotenkoV3/Views/MainNavigationView.swift:94-99 | Home is pushed only onto an empty stack (as an ordinary push: dropped if the latch is set); a non-empty stack, its latch and the id source are untouched; one id is spent exactly when the push is accepted |
| `Scenarios.PushPopAtRoot` | DotenkoV3/Managers/Navigation.swift:92-122 | Home, push Help, pop, pop gives depths 1, 2, 1, 1 with Home on top |
| `Scenarios.PopToRootFromThree` | DotenkoV3/Managers/Navigation.swift:126-138 | popToRoot on [Home, Help, Test2] leaves [Home] |
| `Scenarios.DoublePush` | DotenkoV3/Managers/Navigation.swift:92-106 | two pushes with no release between them: only the first lands |
| `Scenarios.ReplaceKeepsDepth` | DotenkoV3Tests/DotenkoV3Tests.swift:42-62 | replace after push keeps depth 1; inside the busy window it is dropped, after the release it changes the top |
| `Scenarios.EmptyStackSafety` | DotenkoV3Tests/DotenkoV3Tests.swift:129-141 | pop and popToRoot on an empty stack leave it empty and the latch clear |
| `Scenarios.FullScreenBasic` | DotenkoV3Tests/DotenkoV3Tests.swift:143-151 | after a forced reset nothing is current, presented or busy |
| `Scenarios.PresentThenReplace` | DotenkoV3Tests/DotenkoV3Tests.swift:80-97 | after present then replace, the overlay is presented with a current screen and nothing paused; the replace lands only after a release |
| `Scenarios.OverlayRoundTrip` | DotenkoV3/Managers/Navigation.swift:267-301 | from a closed overlay, present Matching, present Game pauses exactly Matching; dismiss makes that paused Matching current again; a second dismiss leaves the closed, empty, idle state |
| `Scenarios.DoublePresent` | DotenkoV3/Managers/Navigation.swift:267-281 | with A current, two presents of B in one busy window pause A exactly once |
| `Scenarios.PrimaryUnaffectedByOverlay` | DotenkoV3Tests/DotenkoV3Tests.swift:101-125 | presenting an overlay leaves the primary stack depth unchanged |

## Left out

- SwiftUI animation (`withAnimation`) and the `animated` parameter. Both
  branches of every call have the same state effect, so the parameter is
  dropped.
- Timing of `DispatchQueue.main.asyncAfter`. The release is the step
  `Settle`, and a caller may issue it at any moment. The model therefore
  also covers a stale release that fires early, after a reset. It does not
  force a release to happen.
- `@MainActor`, `ObservableObject` and `@Published`. All calls are taken as
  sequential on one thread, and change notification is not modelled.
- The `shared` singletons. Managers are constructed explicitly and share
  one `IdSource`.
- `AnyView` and `UUID()`. The payload is a type parameter, and ids come
  from the `IdSource` counter. The Swift `Hasher` is a parameter function on
  ids.
- The test `viewWrapperCreation` (ViewWrapperTests.swift:18-25). It checks
  for a non-nil view and a non-zero UUID, which have no counterpart for
  `nat` ids.
- `printStackState` and `printFullScreenState`: console output only.
- `Constants.swift`, `Appearance.swift`, `ContentView.swift`,
  `DotenkoV3App.swift` and the screen views: layout, styling, ads and app
  start-up, with no navigation state.
- Test timing (`Task.sleep`). The scenarios place `Settle` where the
  sleeps outlast the 0.1 s release, and leave it out where they do not.
