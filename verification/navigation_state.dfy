/** `NavigationStateManager`: the primary screen stack.

    The published state is the stack (bottom first, top = visible screen)
    and the busy latch `isNavigating`. Every navigation call (push, pop,
    popToRoot, replace) is a silent no-op while the latch is set; an
    accepted one sets the latch and changes the stack. The reset bypasses
    the latch. The latch is released by a timer scheduled on every accepted
    call, modelled here as the explicit step `Settle`.

    The pure part (`PrimaryState` and the `After*` functions) is the
    specification; the class `NavigationStateManager` is the imperative
    model, each of whose public methods is proved to move its state exactly
    as the corresponding `After*` function says. */
module PrimaryNavigation {
  import opened ViewWrappers

  /** What `NavigationStateManager` publishes. */
  datatype PrimaryState<T> = PrimaryState(stack: seq<Wrapper<T>>, navigating: bool)

  /** The screen the renderer draws: the top of the stack, if any. */
  function Top<T>(s: PrimaryState<T>): (r: Option<Wrapper<T>>)
    ensures r.None? <==> s.stack == []
    ensures r.Some? ==> r.value == s.stack[|s.stack| - 1]
  {
    if s.stack == [] then None else Some(s.stack[|s.stack| - 1])
  }

  /** `push`: unless busy, appends `w` on top and sets the latch. */
  function AfterPush<T>(s: PrimaryState<T>, w: Wrapper<T>): (r: PrimaryState<T>)
    ensures r.navigating
    ensures s.navigating ==> r == s
    ensures !s.navigating ==> |r.stack| == |s.stack| + 1 && s.stack <= r.stack && Top(r) == Some(w)
  {
    if s.navigating then s else PrimaryState(s.stack + [w], true)
  }

  /** `pop`: unless busy or at most one screen is stacked, removes the top. */
  function AfterPop<T>(s: PrimaryState<T>): (r: PrimaryState<T>)
    ensures r.stack <= s.stack
    ensures s.navigating || |s.stack| <= 1 ==> r == s
    ensures !s.navigating && |s.stack| > 1 ==> r.navigating && |r.stack| == |s.stack| - 1
    ensures |s.stack| > 0 ==> |r.stack| > 0
  {
    if s.navigating || |s.stack| <= 1 then s
    else PrimaryState(s.stack[..|s.stack| - 1], true)
  }

  /** `popToRoot`: unless busy or at most one screen is stacked, keeps only
      the bottom screen. */
  function AfterPopToRoot<T>(s: PrimaryState<T>): (r: PrimaryState<T>)
    ensures r.stack <= s.stack
    ensures s.navigating || |s.stack| <= 1 ==> r == s
    ensures !s.navigating && |s.stack| > 1 ==> r.navigating && r.stack == [s.stack[0]]
    ensures |s.stack| > 0 ==> |r.stack| == 1 || r == s
  {
    if s.navigating || |s.stack| <= 1 then s
    else PrimaryState(s.stack[..1], true)
  }

  /** `replace(with:)`: unless busy, overwrites the top slot with `w`, or
      makes `w` the only screen of an empty stack. */
  function AfterReplace<T>(s: PrimaryState<T>, w: Wrapper<T>): (r: PrimaryState<T>)
    ensures r.navigating
    ensures s.navigating ==> r == s
    ensures !s.navigating ==> Top(r) == Some(w)
    ensures !s.navigating && s.stack == [] ==> r.stack == [w]
    ensures s.stack != [] ==> |r.stack| == |s.stack|
    ensures forall i :: 0 <= i < |s.stack| - 1 ==> r.stack[i] == s.stack[i]
  {
    if s.navigating then s
    else if s.stack == [] then PrimaryState([w], true)
    else PrimaryState(s.stack[..|s.stack| - 1] + [w], true)
  }

  /** The deferred release of `resetNavigatingState`: clears the latch and
      nothing else. */
  function AfterSettle<T>(s: PrimaryState<T>): (r: PrimaryState<T>)
    ensures !r.navigating && r.stack == s.stack
  {
    s.(navigating := false)
  }

  /** `setupInitialScreen` (reached from `resetToInitial` and
      `resetToInitialForTesting`): empties the stack and clears the latch,
      whether or not it was set. */
  function AfterReset<T>(s: PrimaryState<T>): (r: PrimaryState<T>)
    ensures r.stack == [] && !r.navigating
  {
    PrimaryState([], false)
  }

  /** One call on the manager, as a caller issues it. */
  datatype Command<T> =
    | PushCmd(w: Wrapper<T>)
    | PopCmd
    | PopToRootCmd
    | ReplaceCmd(w: Wrapper<T>)
    | SettleCmd
    | ResetCmd

  /** The four calls that the busy latch guards. */
  predicate Guarded<T>(c: Command<T>)
  {
    !c.SettleCmd? && !c.ResetCmd?
  }

  /** Whether `c` passes its guard in state `s`. */
  predicate Accepts<T>(s: PrimaryState<T>, c: Command<T>)
  {
    Guarded(c) && !s.navigating && ((c.PopCmd? || c.PopToRootCmd?) ==> |s.stack| > 1)
  }

  function Step<T>(s: PrimaryState<T>, c: Command<T>): PrimaryState<T>
  {
    match c
    case PushCmd(w) => AfterPush(s, w)
    case PopCmd => AfterPop(s)
    case PopToRootCmd => AfterPopToRoot(s)
    case ReplaceCmd(w) => AfterReplace(s, w)
    case SettleCmd => AfterSettle(s)
    case ResetCmd => AfterReset(s)
  }

  /** The state after issuing `cs` in order, one after another. */
  function Run<T>(s: PrimaryState<T>, cs: seq<Command<T>>): PrimaryState<T>
    decreases |cs|
  {
    if cs == [] then s else Run(Step(s, cs[0]), cs[1..])
  }

  /** A guarded call either is rejected and changes nothing, or is accepted
      and leaves the latch set. */
  lemma GuardedCallSetsLatchOrIsRejected<T>(s: PrimaryState<T>, c: Command<T>)
    requires Guarded(c)
    ensures Accepts(s, c) ==> Step(s, c).navigating
    ensures !Accepts(s, c) ==> Step(s, c) == s
  {
  }

  /** Only the deferred release and the reset clear a set latch. */
  lemma OnlySettleOrResetReleases<T>(s: PrimaryState<T>, c: Command<T>)
    requires s.navigating && !Step(s, c).navigating
    ensures c.SettleCmd? || c.ResetCmd?
  {
  }

  /** While the latch is set, any run of guarded calls changes nothing. */
  lemma {:induction false} BusyRunIsNoOp<T>(s: PrimaryState<T>, cs: seq<Command<T>>)
    requires s.navigating
    requires forall i :: 0 <= i < |cs| ==> Guarded(cs[i])
    ensures Run(s, cs) == s
  {
    if cs != [] {
      assert Step(s, cs[0]) == s;
      BusyRunIsNoOp(s, cs[1..]);
    }
  }

  /** Calls issued back to back with no release in between: only the first
      one takes effect. */
  lemma BackToBackAppliesOnlyFirst<T>(s: PrimaryState<T>, c: Command<T>, cs: seq<Command<T>>)
    requires Accepts(s, c)
    requires forall i :: 0 <= i < |cs| ==> Guarded(cs[i])
    ensures Run(s, [c] + cs) == Step(s, c)
  {
    var s1 := Step(s, c);
    assert ([c] + cs)[1..] == cs;
    assert s1.navigating;
    BusyRunIsNoOp(s1, cs);
  }

  /** No run without a reset empties a non-empty stack: the screen seeded
      first stays reachable. */
  lemma {:induction false} RunNeverEmpties<T>(s: PrimaryState<T>, cs: seq<Command<T>>)
    requires s.stack != []
    requires forall i :: 0 <= i < |cs| ==> !cs[i].ResetCmd?
    ensures Run(s, cs).stack != []
    decreases |cs|
  {
    if cs != [] {
      var s1 := Step(s, cs[0]);
      assert s1.stack != [];
      RunNeverEmpties(s1, cs[1..]);
    }
  }

  /** The bottom screen survives push, pop and popToRoot; replace overwrites
      it only when it is the sole screen. */
  lemma RootKept<T>(s: PrimaryState<T>, c: Command<T>)
    requires s.stack != [] && !c.ResetCmd?
    requires c.ReplaceCmd? ==> |s.stack| > 1
    ensures Step(s, c).stack != [] && Step(s, c).stack[0] == s.stack[0]
  {
  }

  /** Once the stack holds one screen, popToRoot changes nothing; so an
      accepted popToRoot repeated after the release changes nothing more. */
  lemma PopToRootIdempotent<T>(s: PrimaryState<T>)
    requires s.stack != []
    ensures |s.stack| == 1 ==> AfterPopToRoot(s) == s
    ensures !s.navigating ==> AfterPopToRoot(AfterSettle(AfterPopToRoot(s))) == AfterSettle(AfterPopToRoot(s))
  {
  }

  /** A guarded call never changes the stack depth by more than one, except
      popToRoot. */
  lemma DepthChangesByAtMostOne<T>(s: PrimaryState<T>, c: Command<T>)
    requires Guarded(c) && !c.PopToRootCmd?
    ensures |s.stack| - 1 <= |Step(s, c).stack| <= |s.stack| + 1
  {
  }

  /** The primary navigation manager. `ids` is the process-wide source of
      wrapper identifiers (`UUID()`), shared with other managers. */
  class NavigationStateManager<T> {
    var viewStack: seq<Wrapper<T>>
    var isNavigating: bool
    const ids: IdSource

    function State(): PrimaryState<T>
      reads this
    {
      PrimaryState(viewStack, isNavigating)
    }

    /** Every stacked wrapper was issued by `ids`, and no two slots hold
        equal wrappers. */
    ghost predicate Valid()
      reads this, ids
    {
      FreshBelow(viewStack, ids.next)
    }

    constructor (ids: IdSource)
      ensures this.ids == ids
      ensures State() == PrimaryState([], false)
      ensures Valid()
    {
      viewStack := [];
      isNavigating := false;
      this.ids := ids;
    }

    /** `push(_:animated:)`. A fresh wrapper is made only when the call is
        accepted. */
    method Push(content: T)
      requires Valid()
      modifies this, ids
      ensures Valid()
      ensures State() == AfterPush(old(State()), Wrapper(old(ids.next), content))
      ensures ids.next == if old(isNavigating) then old(ids.next) else old(ids.next) + 1
    {
      if isNavigating {
        return;
      }
      var wrapper := ids.Wrap(content);
      PerformPush(wrapper);
      AppendFresh(old(viewStack), wrapper, old(ids.next), ids.next);
    }

    /** `pop(animated:)`. */
    method Pop()
      requires Valid()
      modifies this
      ensures Valid()
      ensures State() == AfterPop(old(State()))
    {
      if isNavigating || |viewStack| <= 1 {
        return;
      }
      PerformPop();
      PrefixFresh(old(viewStack), |viewStack|, ids.next);
    }

    /** `popToRoot(animated:)`. */
    method PopToRoot()
      requires Valid()
      modifies this
      ensures Valid()
      ensures State() == AfterPopToRoot(old(State()))
    {
      if isNavigating || |viewStack| <= 1 {
        return;
      }
      PerformPopToRoot();
      PrefixFresh(old(viewStack), 1, ids.next);
    }

    /** `replace(with:animated:)`. */
    method Replace(content: T)
      requires Valid()
      modifies this, ids
      ensures Valid()
      ensures State() == AfterReplace(old(State()), Wrapper(old(ids.next), content))
      ensures ids.next == if old(isNavigating) then old(ids.next) else old(ids.next) + 1
    {
      if isNavigating {
        return;
      }
      var wrapper := ids.Wrap(content);
      PerformReplace(wrapper);
      var below := if old(viewStack) == [] then 0 else |old(viewStack)| - 1;
      PrefixFresh(old(viewStack), below, old(ids.next));
      AppendFresh(old(viewStack)[..below], wrapper, old(ids.next), ids.next);
    }

    /** `resetToInitial` and `resetToInitialForTesting`; they differ only in
        the animation around `setupInitialScreen`. */
    method ResetToInitial()
      modifies this
      ensures Valid()
      ensures State() == AfterReset(old(State()))
    {
      viewStack := [];
      isNavigating := false;
    }

    /** The timer of `resetNavigatingState` firing. */
    method Settle()
      requires Valid()
      modifies this
      ensures Valid()
      ensures State() == AfterSettle(old(State()))
    {
      isNavigating := false;
    }

    /** `performPush`. */
    method PerformPush(wrapper: Wrapper<T>)
      modifies this
      ensures isNavigating
      ensures viewStack == old(viewStack) + [wrapper]
    {
      isNavigating := true;
      viewStack := viewStack + [wrapper];
    }

    /** `performPop`; `removeLast` traps on an empty array. */
    method PerformPop()
      requires viewStack != []
      modifies this
      ensures isNavigating
      ensures viewStack == old(viewStack)[..|old(viewStack)| - 1]
    {
      isNavigating := true;
      viewStack := viewStack[..|viewStack| - 1];
    }

    /** `performPopToRoot`. */
    method PerformPopToRoot()
      modifies this
      ensures isNavigating
      ensures viewStack == if |old(viewStack)| > 1 then [old(viewStack)[0]] else old(viewStack)
    {
      isNavigating := true;
      if |viewStack| > 1 {
        viewStack := viewStack[..1];
      }
    }

    /** `performReplace`. */
    method PerformReplace(wrapper: Wrapper<T>)
      modifies this
      ensures isNavigating
      ensures old(viewStack) == [] ==> viewStack == [wrapper]
      ensures old(viewStack) != [] ==> viewStack == old(viewStack)[|old(viewStack)| - 1 := wrapper]
    {
      isNavigating := true;
      if viewStack == [] {
        viewStack := viewStack + [wrapper];
      } else {
        viewStack := viewStack[|viewStack| - 1 := wrapper];
      }
    }
  }
}
