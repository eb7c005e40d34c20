/** Callers of the two managers: the start-up seeding of the primary stack,
    the call sequences of the test suite, and further illustrative call
    sequences, each run on freshly made managers and stated as what the
    caller observes. */
module Scenarios {
  import opened ViewWrappers
  import opened PrimaryNavigation
  import opened FullScreenNavigation

  /** Two wrappers made from the same content are distinct: unequal, and
      two separate slots once stacked. */
  method WrapSameContentTwice<T>(content: T) returns (w1: Wrapper<T>, w2: Wrapper<T>)
    ensures w1.content == content && w2.content == content
    ensures !Equals(w1, w2) && !Equals(w2, w1)
    ensures Equals(w1, w1)
  {
    var ids := new IdSource();
    w1 := ids.Wrap(content);
    w2 := ids.Wrap(content);
  }

  /** Two wrappers inserted into a `Set`, the first one twice: the set
      holds two keys and contains both. */
  method WrappersInSet<T>(c1: T, c2: T) returns (w1: Wrapper<T>, w2: Wrapper<T>, keys: set<nat>)
    ensures |keys| == 2 && w1.id in keys && w2.id in keys
  {
    var ids := new IdSource();
    w1 := ids.Wrap(c1);
    w2 := ids.Wrap(c2);
    keys := KeySet([w1, w2, w1]);
    DistinctSlotsAreDistinctKeys([w1, w2]);
    KeySetMembership([w1, w2], w1);
    KeySetMembership([w1, w2], w2);
    assert [w1, w2] + [w1] == [w1, w2, w1];
  }

  /** `setupInitialView`: push the home screen only if the stack is
      empty. */
  method SetupInitialView<T>(nav: NavigationStateManager<T>, home: T)
    requires nav.Valid()
    modifies nav, nav.ids
    ensures nav.Valid()
    ensures old(nav.viewStack) != [] ==> nav.viewStack == old(nav.viewStack)
    ensures old(nav.viewStack) == [] && !old(nav.isNavigating) ==>
      nav.viewStack == [Wrapper(old(nav.ids.next), home)]
    ensures nav.viewStack != [] || old(nav.isNavigating)
    ensures nav.State() == if old(nav.viewStack) == []
      then AfterPush(old(nav.State()), Wrapper(old(nav.ids.next), home))
      else old(nav.State())
    ensures nav.ids.next == if old(nav.viewStack) == [] && !old(nav.isNavigating)
      then old(nav.ids.next) + 1 else old(nav.ids.next)
  {
    if nav.viewStack == [] {
      nav.Push(home);
    }
  }

  /** Home, push Help, pop, pop again: the second pop finds one screen and
      is ignored, so Home stays on screen. `depths` records the depth after
      each call. */
  method PushPopAtRoot<T>(home: T, help: T) returns (depths: seq<nat>, top: Option<Wrapper<T>>)
    ensures depths == [1, 2, 1, 1]
    ensures top.Some? && top.value.content == home
  {
    var ids := new IdSource();
    var nav := new NavigationStateManager<T>(ids);
    SetupInitialView(nav, home);
    nav.Settle();
    assert nav.State() == PrimaryState([Wrapper(0, home)], false);
    depths := [|nav.viewStack|];
    nav.Push(help);
    nav.Settle();
    depths := depths + [|nav.viewStack|];
    nav.Pop();
    nav.Settle();
    depths := depths + [|nav.viewStack|];
    nav.Pop();
    nav.Settle();
    depths := depths + [|nav.viewStack|];
    top := Top(nav.State());
  }

  /** [Home, Help, Test2], popToRoot: only Home is left. */
  method PopToRootFromThree<T>(home: T, help: T, test2: T) returns (stack: seq<Wrapper<T>>)
    ensures |stack| == 1 && stack[0].content == home
  {
    var ids := new IdSource();
    var nav := new NavigationStateManager<T>(ids);
    nav.Push(home);
    nav.Settle();
    nav.Push(help);
    nav.Settle();
    nav.Push(test2);
    nav.Settle();
    nav.PopToRoot();
    stack := nav.viewStack;
  }

  /** Two pushes with no release between them: only the first lands. */
  method DoublePush<T>(home: T, a: T, b: T) returns (stack: seq<Wrapper<T>>)
    ensures |stack| == 2 && stack[0].content == home && stack[1].content == a
  {
    var ids := new IdSource();
    var nav := new NavigationStateManager<T>(ids);
    nav.Push(home);
    nav.Settle();
    nav.Push(a);
    nav.Push(b);
    stack := nav.viewStack;
  }

  /** The replace test: reset, push, replace. Issued inside the busy window
      the replace is dropped; issued after the release it overwrites the
      top. Either way the depth is unchanged. */
  method ReplaceKeepsDepth<T>(first: T, replacement: T, settled: bool)
    returns (depthBefore: nat, depthAfter: nat, top: Option<Wrapper<T>>)
    ensures depthBefore == depthAfter == 1
    ensures top.Some? && top.value.content == if settled then replacement else first
  {
    var ids := new IdSource();
    var nav := new NavigationStateManager<T>(ids);
    nav.ResetToInitial();
    nav.Push(first);
    if settled {
      nav.Settle();
    }
    depthBefore := |nav.viewStack|;
    nav.Replace(replacement);
    depthAfter := |nav.viewStack|;
    top := Top(nav.State());
  }

  /** Pop and popToRoot on an empty stack are ignored. */
  method EmptyStackSafety<T>() returns (stack: seq<Wrapper<T>>, busy: bool)
    ensures stack == [] && !busy
  {
    var ids := new IdSource();
    var nav := new NavigationStateManager<T>(ids);
    nav.ResetToInitial();
    nav.Pop();
    nav.PopToRoot();
    stack, busy := nav.viewStack, nav.isNavigating;
  }

  /** A forced reset leaves nothing shown, nothing presented and no latch. */
  method FullScreenBasic<T>(content: T) returns (current: Option<Wrapper<T>>, presented: bool, busy: bool)
    ensures current == None && !presented && !busy
  {
    var ids := new IdSource();
    var overlay := new NavigationAllViewStateManager<T>(ids);
    overlay.PresentFullScreen(content);
    overlay.ForceResetForTesting();
    current, presented, busy :=
      overlay.currentFullScreenView, overlay.isFullScreenPresented, overlay.isTransitioning;
  }

  /** Present then, without a release, replace: the overlay shows the first
      screen, presented; the replace fell in the busy window and was
      dropped. After a release the replace takes effect and the overlay
      stays presented. */
  method PresentThenReplace<T>(first: T, replacement: T, settled: bool)
    returns (current: Option<Wrapper<T>>, presented: bool, paused: nat)
    ensures current.Some? && presented && paused == 0
    ensures current.value.content == if settled then replacement else first
  {
    var ids := new IdSource();
    var overlay := new NavigationAllViewStateManager<T>(ids);
    overlay.ForceResetForTesting();
    overlay.PresentFullScreen(first);
    if settled {
      overlay.Settle();
    }
    overlay.ReplaceFullScreen(replacement);
    current, presented, paused :=
      overlay.currentFullScreenView, overlay.isFullScreenPresented, |overlay.viewStack|;
  }

  /** Closed overlay; present Matching, present Game, dismiss, dismiss, with
      the latch released after each call: Game pauses Matching, the first
      dismiss brings Matching back, the second closes the overlay. */
  method OverlayRoundTrip<T>(matching: T, game: T)
    returns (pausedUnderGame: seq<Wrapper<T>>, restored: Option<Wrapper<T>>, closed: OverlayState<T>)
    ensures |pausedUnderGame| == 1 && pausedUnderGame[0].content == matching
    ensures restored == Some(pausedUnderGame[0])
    ensures closed == OverlayState(None, false, false, [])
  {
    var ids := new IdSource();
    var overlay := new NavigationAllViewStateManager<T>(ids);
    overlay.PresentFullScreen(matching);
    overlay.Settle();
    overlay.PresentFullScreen(game);
    overlay.Settle();
    pausedUnderGame := overlay.viewStack;
    overlay.DismissFullScreen();
    overlay.Settle();
    restored := overlay.currentFullScreenView;
    assert overlay.isFullScreenPresented && overlay.viewStack == [];
    overlay.DismissFullScreen();
    overlay.Settle();
    closed := overlay.State();
  }

  /** With A current, present B twice inside one busy window: A is paused
      once, not twice, and B is current. */
  method DoublePresent<T>(a: T, b: T) returns (paused: seq<Wrapper<T>>, current: Option<Wrapper<T>>)
    ensures |paused| == 1 && paused[0].content == a
    ensures current.Some? && current.value.content == b
  {
    var ids := new IdSource();
    var overlay := new NavigationAllViewStateManager<T>(ids);
    overlay.PresentFullScreen(a);
    overlay.Settle();
    overlay.PresentFullScreen(b);
    overlay.PresentFullScreen(b);
    paused, current := overlay.viewStack, overlay.currentFullScreenView;
  }

  /** The two managers are independent: presenting an overlay leaves the
      primary stack as it was. */
  method PrimaryUnaffectedByOverlay<T>(normal: T, full: T) returns (depthBefore: nat, depthAfter: nat, presented: bool)
    ensures depthBefore == depthAfter == 1 && presented
  {
    var ids := new IdSource();
    var nav := new NavigationStateManager<T>(ids);
    var overlay := new NavigationAllViewStateManager<T>(ids);
    nav.ResetToInitial();
    overlay.ForceResetForTesting();
    nav.Push(normal);
    depthBefore := |nav.viewStack|;
    overlay.PresentFullScreen(full);
    depthAfter := |nav.viewStack|;
    presented := overlay.isFullScreenPresented && overlay.currentFullScreenView.Some?;
  }
}
