/** `NavigationAllViewStateManager`: the full-screen overlay.

    The published state is the current overlay screen (if any), the flag
    `isFullScreenPresented` and the busy latch `isTransitioning`; a private
    back-stack holds the screens paused beneath the current one. Presenting
    pauses the current screen on the back-stack; dismissing restores the
    most recently paused one, or closes the overlay when none is paused;
    replacing swaps the current screen and records nothing.

    As for the primary stack, the `After*` functions are the specification
    and the public methods of the class are proved against them. The
    latch guards present, dismiss and replace; the forced reset bypasses
    it. */
module FullScreenNavigation {
  import opened ViewWrappers

  /** What `NavigationAllViewStateManager` holds. `back` is its private
      `viewStack`, bottom first. */
  datatype OverlayState<T> = OverlayState(
    current: Option<Wrapper<T>>,
    presented: bool,
    transitioning: bool,
    back: seq<Wrapper<T>>)

  /** The invariant every overlay operation keeps: a presented overlay has a
      current screen, and a closed overlay has nothing paused beneath it. */
  predicate Consistent<T>(s: OverlayState<T>)
  {
    (s.presented ==> s.current.Some?) && (!s.presented ==> s.back == [])
  }

  /** The overlay screen the renderer draws: the current screen, but only
      while the overlay is presented. */
  function Visible<T>(s: OverlayState<T>): (r: Option<Wrapper<T>>)
    ensures r.Some? <==> s.presented && s.current.Some?
    ensures r.Some? ==> r == s.current
  {
    if s.presented then s.current else None
  }

  /** How many screens a dismiss sequence would walk back through before the
      overlay closes. */
  function Depth<T>(s: OverlayState<T>): nat
  {
    if s.presented then |s.back| + 1 else 0
  }

  /** Every wrapper the overlay holds, paused ones first. */
  function Held<T>(s: OverlayState<T>): seq<Wrapper<T>>
  {
    s.back + (if s.current.Some? then [s.current.value] else [])
  }

  /** `presentFullScreen`: unless busy, pauses the current screen (if any)
      on the back-stack and presents `w`. */
  function AfterPresent<T>(s: OverlayState<T>, w: Wrapper<T>): (r: OverlayState<T>)
    ensures r.transitioning
    ensures s.transitioning ==> r == s
    ensures !s.transitioning ==> r.current == Some(w) && r.presented
    ensures !s.transitioning ==> r.back == s.back + (if s.current.Some? then [s.current.value] else [])
    ensures s.back <= r.back && |r.back| <= |s.back| + 1
    ensures !s.transitioning || Consistent(s) ==> Consistent(r)
  {
    if s.transitioning then s
    else
      var back := if s.current.Some? then s.back + [s.current.value] else s.back;
      OverlayState(Some(w), true, true, back)
  }

  /** `dismissFullScreen`: unless busy or closed, restores the most recently
      paused screen, or closes the overlay when none is paused. */
  function AfterDismiss<T>(s: OverlayState<T>): (r: OverlayState<T>)
    ensures s.transitioning || !s.presented ==> r == s
    ensures !s.transitioning && s.presented && s.back != [] ==>
      r.transitioning && r.presented && r.current == Some(s.back[|s.back| - 1]) &&
      r.back == s.back[..|s.back| - 1]
    ensures !s.transitioning && s.presented && s.back == [] ==>
      r.transitioning && !r.presented && r.current == None && r.back == []
    ensures Consistent(s) ==> Consistent(r)
  {
    if s.transitioning || !s.presented then s
    else if s.back != [] then
      OverlayState(Some(s.back[|s.back| - 1]), s.presented, true, s.back[..|s.back| - 1])
    else
      OverlayState(None, false, true, s.back)
  }

  /** `replaceFullScreen`: unless busy, swaps the current screen for `w`.
      Neither the back-stack nor the presented flag changes, so on a closed
      overlay `w` becomes current without being shown. */
  function AfterReplace<T>(s: OverlayState<T>, w: Wrapper<T>): (r: OverlayState<T>)
    ensures r.transitioning
    ensures r.back == s.back && r.presented == s.presented
    ensures !s.transitioning ==> r.current == Some(w)
    ensures s.transitioning ==> r.current == s.current
    ensures Consistent(s) ==> Consistent(r)
  {
    if s.transitioning then s else s.(current := Some(w), transitioning := true)
  }

  /** The deferred release of `resetTransitionState`: clears the latch and
      nothing else. */
  function AfterSettle<T>(s: OverlayState<T>): (r: OverlayState<T>)
    ensures !r.transitioning
    ensures r.current == s.current && r.presented == s.presented && r.back == s.back
  {
    s.(transitioning := false)
  }

  /** `forceResetForTesting`: closes the overlay, forgets every paused
      screen and clears the latch, whatever the state. */
  function AfterForceReset<T>(s: OverlayState<T>): (r: OverlayState<T>)
    ensures r.current == None && !r.presented && !r.transitioning && r.back == []
    ensures Consistent(r)
  {
    OverlayState(None, false, false, [])
  }

  /** One call on the manager, as a caller issues it. */
  datatype Command<T> =
    | PresentCmd(w: Wrapper<T>)
    | DismissCmd
    | ReplaceCmd(w: Wrapper<T>)
    | SettleCmd
    | ForceResetCmd

  /** The three calls that the busy latch guards. */
  predicate Guarded<T>(c: Command<T>)
  {
    !c.SettleCmd? && !c.ForceResetCmd?
  }

  /** Whether `c` passes its guard in state `s`. */
  predicate Accepts<T>(s: OverlayState<T>, c: Command<T>)
  {
    Guarded(c) && !s.transitioning && (c.DismissCmd? ==> s.presented)
  }

  function Step<T>(s: OverlayState<T>, c: Command<T>): OverlayState<T>
  {
    match c
    case PresentCmd(w) => AfterPresent(s, w)
    case DismissCmd => AfterDismiss(s)
    case ReplaceCmd(w) => AfterReplace(s, w)
    case SettleCmd => AfterSettle(s)
    case ForceResetCmd => AfterForceReset(s)
  }

  /** The state after issuing `cs` in order, one after another. */
  function Run<T>(s: OverlayState<T>, cs: seq<Command<T>>): OverlayState<T>
    decreases |cs|
  {
    if cs == [] then s else Run(Step(s, cs[0]), cs[1..])
  }

  /** The state of a freshly made manager. */
  function Initial<T>(): (r: OverlayState<T>)
    ensures Consistent(r) && Visible(r) == None
  {
    OverlayState(None, false, false, [])
  }

  /** A guarded call either is rejected and changes nothing, or is accepted
      and leaves the latch set. */
  lemma GuardedCallSetsLatchOrIsRejected<T>(s: OverlayState<T>, c: Command<T>)
    requires Guarded(c)
    ensures Accepts(s, c) ==> Step(s, c).transitioning
    ensures !Accepts(s, c) ==> Step(s, c) == s
  {
  }

  /** Only the deferred release and the forced reset clear a set latch. */
  lemma OnlySettleOrResetReleases<T>(s: OverlayState<T>, c: Command<T>)
    requires s.transitioning && !Step(s, c).transitioning
    ensures c.SettleCmd? || c.ForceResetCmd?
  {
  }

  /** While the latch is set, any run of guarded calls changes nothing. */
  lemma {:induction false} BusyRunIsNoOp<T>(s: OverlayState<T>, cs: seq<Command<T>>)
    requires s.transitioning
    requires forall i :: 0 <= i < |cs| ==> Guarded(cs[i])
    ensures Run(s, cs) == s
    decreases |cs|
  {
    if cs != [] {
      assert Step(s, cs[0]) == s;
      BusyRunIsNoOp(s, cs[1..]);
    }
  }

  /** Calls issued back to back with no release in between: only the first
      one takes effect. */
  lemma BackToBackAppliesOnlyFirst<T>(s: OverlayState<T>, c: Command<T>, cs: seq<Command<T>>)
    requires Accepts(s, c)
    requires forall i :: 0 <= i < |cs| ==> Guarded(cs[i])
    ensures Run(s, [c] + cs) == Step(s, c)
  {
    var s1 := Step(s, c);
    assert ([c] + cs)[1..] == cs;
    assert s1.transitioning;
    BusyRunIsNoOp(s1, cs);
  }

  /** Every run of calls keeps the overlay consistent: whenever it is
      presented there is a screen to show. */
  lemma {:induction false} RunKeepsConsistent<T>(s: OverlayState<T>, cs: seq<Command<T>>)
    requires Consistent(s)
    ensures Consistent(Run(s, cs))
    ensures Run(s, cs).presented ==> Visible(Run(s, cs)) == Run(s, cs).current
    decreases |cs|
  {
    if cs != [] {
      var s1 := Step(s, cs[0]);
      assert Consistent(s1);
      RunKeepsConsistent(s1, cs[1..]);
    }
  }

  /** On a consistent state, an accepted present goes one level deeper and
      an accepted dismiss one level back; replace keeps the depth. A present
      on a closed overlay starts at depth one only when no screen was left
      current by a replace while closed. */
  lemma DepthMoves<T>(s: OverlayState<T>, w: Wrapper<T>)
    requires Consistent(s) && !s.transitioning
    ensures s.presented || s.current.None? ==> Depth(AfterPresent(s, w)) == Depth(s) + 1
    ensures !s.presented && s.current.Some? ==> Depth(AfterPresent(s, w)) == 2
    ensures s.presented ==> Depth(AfterDismiss(s)) == Depth(s) - 1
    ensures Depth(AfterReplace(s, w)) == Depth(s)
  {
  }

  /** present(A), present(B), dismiss brings A back, still presented; a
      second dismiss closes the overlay when it was closed, with nothing
      current, to begin with. */
  lemma PresentPresentDismissRestores<T>(s: OverlayState<T>, a: Wrapper<T>, b: Wrapper<T>)
    requires !s.transitioning
    ensures
      var s1 := AfterSettle(AfterPresent(s, a));
      var s2 := AfterSettle(AfterPresent(s1, b));
      var s3 := AfterSettle(AfterDismiss(s2));
      && s3.current == Some(a) && s3.presented && s3.back == s1.back
      && (Consistent(s) && s.current.None? ==> var s4 := AfterDismiss(s3); s4.current == None && !s4.presented)
  {
  }

  /** Two presents inside one busy window on a screen A: the back-stack gains
      A once, not twice. */
  lemma DoublePresentPausesOnce<T>(s: OverlayState<T>, a: Wrapper<T>, b: Wrapper<T>, b': Wrapper<T>)
    requires !s.transitioning && s.current == Some(a)
    ensures AfterPresent(AfterPresent(s, b), b').back == s.back + [a]
    ensures AfterPresent(AfterPresent(s, b), b').current == Some(b)
  {
  }

  /** The overlay manager. `ids` is the process-wide source of wrapper
      identifiers (`UUID()`), shared with other managers. */
  class NavigationAllViewStateManager<T> {
    var currentFullScreenView: Option<Wrapper<T>>
    var isFullScreenPresented: bool
    var isTransitioning: bool
    var viewStack: seq<Wrapper<T>>
    const ids: IdSource

    function State(): OverlayState<T>
      reads this
    {
      OverlayState(currentFullScreenView, isFullScreenPresented, isTransitioning, viewStack)
    }

    /** The state is consistent, every held wrapper was issued by `ids`,
        and no two of them are equal. */
    ghost predicate Valid()
      reads this, ids
    {
      Consistent(State()) && FreshBelow(Held(State()), ids.next)
    }

    constructor (ids: IdSource)
      ensures this.ids == ids
      ensures State() == Initial()
      ensures Valid()
    {
      currentFullScreenView := None;
      isFullScreenPresented := false;
      isTransitioning := false;
      viewStack := [];
      this.ids := ids;
    }

    /** `presentFullScreen(_:animated:)`. A fresh wrapper is made only when
        the call is accepted. */
    method PresentFullScreen(content: T)
      requires Valid()
      modifies this, ids
      ensures Valid()
      ensures State() == AfterPresent(old(State()), Wrapper(old(ids.next), content))
      ensures ids.next == if old(isTransitioning) then old(ids.next) else old(ids.next) + 1
    {
      if isTransitioning {
        return;
      }
      var wrapper := ids.Wrap(content);
      PerformPresentFullScreen(wrapper);
      assert Held(State()) == Held(old(State())) + [wrapper];
      AppendFresh(Held(old(State())), wrapper, old(ids.next), ids.next);
    }

    /** `dismissFullScreen(animated:)`. */
    method DismissFullScreen()
      requires Valid()
      modifies this
      ensures Valid()
      ensures State() == AfterDismiss(old(State()))
    {
      if isTransitioning || !isFullScreenPresented {
        return;
      }
      PerformDismissFullScreen();
      ghost var held := Held(old(State()));
      assert Held(State()) == held[..|Held(State())|];
      PrefixFresh(held, |Held(State())|, ids.next);
    }

    /** `replaceFullScreen(with:animated:)`; there is no presented guard. */
    method ReplaceFullScreen(content: T)
      requires Valid()
      modifies this, ids
      ensures Valid()
      ensures State() == AfterReplace(old(State()), Wrapper(old(ids.next), content))
      ensures ids.next == if old(isTransitioning) then old(ids.next) else old(ids.next) + 1
    {
      if isTransitioning {
        return;
      }
      var wrapper := ids.Wrap(content);
      PerformReplaceFullScreen(wrapper);
      ghost var held := Held(old(State()));
      assert viewStack == held[..|viewStack|];
      PrefixFresh(held, |viewStack|, old(ids.next));
      AppendFresh(viewStack, wrapper, old(ids.next), ids.next);
    }

    /** `forceResetForTesting`. */
    method ForceResetForTesting()
      modifies this
      ensures Valid()
      ensures State() == AfterForceReset(old(State()))
    {
      currentFullScreenView := None;
      isFullScreenPresented := false;
      isTransitioning := false;
      viewStack := [];
    }

    /** The timer of `resetTransitionState` (or its inline copy in
        `dismissFullScreen`) firing. */
    method Settle()
      requires Valid()
      modifies this
      ensures Valid()
      ensures State() == AfterSettle(old(State()))
    {
      isTransitioning := false;
    }

    /** `performPresentFullScreen`. */
    method PerformPresentFullScreen(wrapper: Wrapper<T>)
      modifies this
      ensures viewStack == old(viewStack) +
        (if old(currentFullScreenView).Some? then [old(currentFullScreenView).value] else [])
      ensures isTransitioning && isFullScreenPresented && currentFullScreenView == Some(wrapper)
    {
      if currentFullScreenView.Some? {
        viewStack := viewStack + [currentFullScreenView.value];
      }
      isTransitioning := true;
      currentFullScreenView := Some(wrapper);
      isFullScreenPresented := true;
    }

    /** `performDismissFullScreen`. */
    method PerformDismissFullScreen()
      modifies this
      ensures isTransitioning
      ensures old(viewStack) != [] ==>
        currentFullScreenView == Some(old(viewStack)[|old(viewStack)| - 1]) &&
        viewStack == old(viewStack)[..|old(viewStack)| - 1] &&
        isFullScreenPresented == old(isFullScreenPresented)
      ensures old(viewStack) == [] ==>
        currentFullScreenView == None && !isFullScreenPresented && viewStack == []
    {
      isTransitioning := true;
      if viewStack != [] {
        currentFullScreenView := Some(viewStack[|viewStack| - 1]);
        viewStack := viewStack[..|viewStack| - 1];
      } else {
        currentFullScreenView := None;
        isFullScreenPresented := false;
      }
    }

    /** `performReplaceFullScreen`. */
    method PerformReplaceFullScreen(wrapper: Wrapper<T>)
      modifies this
      ensures isTransitioning && currentFullScreenView == Some(wrapper)
      ensures viewStack == old(viewStack) && isFullScreenPresented == old(isFullScreenPresented)
    {
      isTransitioning := true;
      currentFullScreenView := Some(wrapper);
    }
  }
}
