/** The `ViewWrapper` value of the navigation engine: an opaque screen payload
    tagged with an identifier that is unique in the process. Equality and
    hashing look at the identifier only, so a screen shown twice occupies two
    distinct stack slots.

    `UUID()` is modelled by `IdSource`, a counter that never hands out the
    same identifier twice; the SwiftUI `AnyView` payload is the type
    parameter `T`. */
module ViewWrappers {

  datatype Option<+T> = None | Some(value: T)

  /** A wrapped screen. Only `id` takes part in `Equals` and `Hash`. */
  datatype Wrapper<T> = Wrapper(id: nat, content: T)

  /** `ViewWrapper.==`: two wrappers are equal when their ids are equal,
      whatever their contents. */
  predicate Equals<T>(a: Wrapper<T>, b: Wrapper<T>)
    ensures a == b ==> Equals(a, b)
    ensures Equals(a, b) && a.content == b.content ==> a == b
  {
    a.id == b.id
  }

  /** `ViewWrapper.hash(into:)`: only the id is fed to the hasher. The
      hasher's mixing function is a parameter, since Swift seeds it per
      process. `T(!new)` records that the SwiftUI payload is a value, so
      the contract may quantify over all wrappers. */
  function Hash<T(!new)>(w: Wrapper<T>, combine: nat -> int): (r: int)
    ensures forall v :: Equals(v, w) ==> r == combine(v.id)
  {
    combine(w.id)
  }

  /** `Equals` is an equivalence relation that ignores the payload. */
  lemma EqualsIsIdEquivalence<T>(a: Wrapper<T>, b: Wrapper<T>, c: Wrapper<T>)
    ensures Equals(a, a)
    ensures Equals(a, b) <==> Equals(b, a)
    ensures Equals(a, b) && Equals(b, c) ==> Equals(a, c)
    ensures a.content != b.content && a.id == b.id ==> Equals(a, b)
  {
  }

  /** `Hash` is consistent with `Equals`, as `Hashable` demands: equal
      wrappers hash alike under every hasher. */
  lemma HashRespectsEquals<T(!new)>(a: Wrapper<T>, b: Wrapper<T>, combine: nat -> int)
    requires Equals(a, b)
    ensures Hash(a, combine) == Hash(b, combine)
  {
  }

  /** Every wrapper in `ws` has an id below `bound`, i.e. was issued before
      an `IdSource` reached `bound`. */
  ghost predicate IdsBelow<T>(ws: seq<Wrapper<T>>, bound: nat)
  {
    forall i :: 0 <= i < |ws| ==> ws[i].id < bound
  }

  /** No two slots of `ws` hold equal wrappers. */
  ghost predicate DistinctIds<T>(ws: seq<Wrapper<T>>)
  {
    forall i, j :: 0 <= i < j < |ws| ==> ws[i].id != ws[j].id
  }

  /** The wrappers in `ws` are pairwise unequal and all older than `bound`. */
  ghost predicate FreshBelow<T>(ws: seq<Wrapper<T>>, bound: nat)
  {
    IdsBelow(ws, bound) && DistinctIds(ws)
  }

  /** Appending a wrapper whose id was never issued before keeps all slots
      pairwise unequal. */
  lemma AppendFresh<T>(ws: seq<Wrapper<T>>, w: Wrapper<T>, bound: nat, bound': nat)
    requires FreshBelow(ws, bound)
    requires bound <= w.id < bound'
    ensures FreshBelow(ws + [w], bound')
  {
  }

  /** Dropping slots from the top keeps the rest pairwise unequal. */
  lemma PrefixFresh<T>(ws: seq<Wrapper<T>>, n: nat, bound: nat)
    requires FreshBelow(ws, bound)
    requires n <= |ws|
    ensures FreshBelow(ws[..n], bound)
  {
  }

  /** The keys a Swift `Set<ViewWrapper>` (or the key set of a
      `[ViewWrapper: V]`) holds after inserting the wrappers of `ws` in
      order: since `==` and `hash` see only ids, one key per id. */
  function KeySet<T>(ws: seq<Wrapper<T>>): (r: set<nat>)
    ensures forall i :: 0 <= i < |ws| ==> ws[i].id in r
    ensures forall k :: k in r ==> exists i :: 0 <= i < |ws| && ws[i].id == k
    ensures |r| <= |ws|
    decreases |ws|
  {
    if ws == [] then {} else KeySet(ws[..|ws| - 1]) + {ws[|ws| - 1].id}
  }

  /** A wrapper is found in the set exactly when one with its id was
      inserted; inserting an equal wrapper again adds nothing. */
  lemma {:induction false} KeySetMembership<T>(ws: seq<Wrapper<T>>, w: Wrapper<T>)
    ensures w.id in KeySet(ws) <==> exists i :: 0 <= i < |ws| && Equals(ws[i], w)
    ensures w.id in KeySet(ws) ==> KeySet(ws + [w]) == KeySet(ws)
    decreases |ws|
  {
    if ws != [] {
      var init := ws[..|ws| - 1];
      KeySetMembership(init, w);
      if w.id in KeySet(init) {
        var i :| 0 <= i < |init| && Equals(init[i], w);
        assert ws[i] == init[i];
      }
      if exists i :: 0 <= i < |ws| && Equals(ws[i], w) {
        var i :| 0 <= i < |ws| && Equals(ws[i], w);
        if i < |ws| - 1 {
          assert init[i] == ws[i];
        }
      }
    }
    assert (ws + [w])[..|ws + [w]| - 1] == ws;
  }

  /** Wrappers in pairwise distinct slots make that many distinct keys, as
      when two wrappers made from any contents go into one `Set`. */
  lemma {:induction false} DistinctSlotsAreDistinctKeys<T>(ws: seq<Wrapper<T>>)
    requires DistinctIds(ws)
    ensures |KeySet(ws)| == |ws|
    decreases |ws|
  {
    if ws != [] {
      var init := ws[..|ws| - 1];
      var last := ws[|ws| - 1];
      DistinctSlotsAreDistinctKeys(init);
      forall i | 0 <= i < |init| ensures !Equals(init[i], last) {
        assert init[i] == ws[i];
      }
      KeySetMembership(init, last);
    }
  }

  /** Stand-in for `UUID()`: hands out identifiers that were never handed
      out before. */
  class IdSource {
    var next: nat

    constructor ()
      ensures next == 0
    {
      next := 0;
    }

    /** `ViewWrapper(view:)`: wraps `content` under an id no earlier
        wrapper has. */
    method Wrap<T>(content: T) returns (w: Wrapper<T>)
      modifies this
      ensures w.content == content
      ensures w.id == old(next) && next == old(next) + 1
    {
      w := Wrapper(next, content);
      next := next + 1;
    }
  }
}
