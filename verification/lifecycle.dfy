/** Properties of the ownership protocol as a whole: what each topology
    keeps alive, how `delete_self` breaks the self-owned cycle, that strong
    counts are exactly the strong references, and that a re-entrant mutable
    borrow panics instead of aliasing. */
module Lifecycle {
  import opened Outcome
  import opened Rc
  import RH = RustPeerHolder
  import CH = CppPeerHolder
  import opened CppSubclass

  /** The peers that hold a strong `Rc` to `o`. */
  ghost function StrongHolders<S>(h: Heap<S>, o: ObjId): set<PeerId> {
    set p | p in h.peers && h.peers[p] == RH.Owned(o)
  }

  /** In a valid heap an object's strong count is exactly the number of
      strong references to it: one per peer holding an `Rc`, one per Rust
      handle. At most one peer ever holds such an `Rc`. */
  lemma StrongCountIsExact<S>(h: Heap<S>, o: ObjId)
    requires Valid(h) && o in h.objs
    ensures h.objs[o].strong == |StrongHolders(h, o)| + h.handles[o]
    ensures |StrongHolders(h, o)| <= 1
  {
    var c := Cpp(h, o);
    forall p | p in StrongHolders(h, o)
      ensures !c.Empty? && p == c.peer
    {
      assert h.peers[p].obj == o;
    }
    if PeerStrong(h, o) == 1 {
      assert StrongHolders(h, o) == {c.peer};
    } else {
      assert StrongHolders(h, o) == {};
    }
  }

  /** In every topology, right after construction, `peer()` and `peer_mut()`
      succeed and name the new peer. */
  lemma AccessorsSucceedAfterConstruction<S>(h: Heap<S>, me: S)
    requires Valid(h)
    ensures var (h1, o) := NewRustOwned(h, me);
            Peer(h1.objs[o].value) == Success(h.nextPeer) && PeerMut(h1.objs[o].value) == Success(h.nextPeer)
    ensures var (h1, o) := NewSelfOwned(h, me);
            Peer(h1.objs[o].value) == Success(h.nextPeer) && PeerMut(h1.objs[o].value) == Success(h.nextPeer)
    ensures var (h1, p) := NewCppOwned(h, me);
            h.nextObj in h1.objs &&
            Peer(h1.objs[h.nextObj].value) == Success(p) && PeerMut(h1.objs[h.nextObj].value) == Success(p)
  {
  }

  /** Rust-owned: dropping the one handle frees the object, and with it the
      peer it owned. */
  lemma RustOwnedDropFreesPair<S>(h: Heap<S>, me: S)
    requires Valid(h)
    ensures var (h1, o) := NewRustOwned(h, me);
            o in h1.handles &&
            var h2 := DropHandle(h1, o);
            !Alive(h2.objs, o) && h.nextPeer !in h2.peers
  {
    var (h1, o) := NewRustOwned(h, me);
    assert Cpp(h1, o) == CH.Owned(h.nextPeer);
  }

  /** C++-owned: destroying the peer drops the only strong reference, so the
      object goes with it. */
  lemma CppOwnedDestroyFreesObject<S>(h: Heap<S>, me: S)
    requires Valid(h)
    ensures var (h1, p) := NewCppOwned(h, me);
            p in h1.uniquePtrs &&
            var h2 := DestroyPeer(h1, p);
            h.nextObj in h2.objs && !Alive(h2.objs, h.nextObj) && p !in h2.peers
  {
  }

  /** Self-owned: dropping the returned handle leaves the peer's `Rc`, so
      the pair stays alive and self-owned. */
  lemma SelfOwnedSurvivesHandleDrop<S>(h: Heap<S>, me: S)
    requires Valid(h)
    ensures var (h1, o) := NewSelfOwned(h, me);
            o in h1.handles &&
            var h2 := DropHandle(h1, o);
            && o in h2.objs && h2.objs[o].strong == 1 && h2.handles[o] == 0
            && h.nextPeer in h2.peers && TopologyOf(h2, o) == Some(SelfOwned)
  {
    var (h1, o) := NewSelfOwned(h, me);
    var h2 := DropHandle(h1, o);
    assert h2.peers == h1.peers;
  }

  /** `delete_self` on a self-owned pair: the peer's holder becomes a `Weak`,
      the count drops by one, and the pair is now Rust-owned. */
  lemma DeleteSelfEndsSelfOwnership<S>(h: Heap<S>, o: ObjId)
    requires Valid(h) && o in h.handles && TopologyOf(h, o) == Some(SelfOwned)
    ensures DeleteSelf(h, o).Success?
    ensures var h1 := DeleteSelf(h, o).value;
            && o in h1.objs && h1.objs[o].strong + 1 == h.objs[o].strong
            && Cpp(h1, o) == Cpp(h, o)
            && TopologyOf(h1, o) == Some(RustOwned)
  {
  }

  /** A second `delete_self` changes nothing: it finds a `Weak` holder. */
  lemma DeleteSelfIdempotent<S>(h: Heap<S>, o: ObjId)
    requires Valid(h) && o in h.handles && DeleteSelf(h, o).Success?
    ensures var h1 := DeleteSelf(h, o).value;
            Valid(h1) && o in h1.handles && DeleteSelf(h1, o) == Success(h1)
  {
    var h1 := DeleteSelf(h, o).value;
    var p := Cpp(h, o).peer;
    assert Cpp(h1, o) == Cpp(h, o);
    assert h1.peers[p] == RH.Unowned(o);
  }

  /** The whole self-owned life cycle: the returned handle is dropped and
      the pair lives on; a C++ virtual call reaches the object and calls
      `delete_self` (twice, harmlessly); when that call's handle is dropped
      the object and its peer are gone, and a weak holder to the object
      resolves to nothing. */
  lemma SelfOwnedLifecycle<S>(h: Heap<S>, me: S)
    requires Valid(h)
    ensures var (h1, o) := NewSelfOwned(h, me);
            var p := h.nextPeer;
            o in h1.handles &&
            var h2 := DropHandle(h1, o);
            p in h2.peers &&
            var (h3, got) := PeerGet(h2, p);
            got == Some(o) && o in h3.handles &&
            DeleteSelf(h3, o).Success? &&
            var h4 := DeleteSelf(h3, o).value;
            && h4.objs[o].strong == 1
            && h4.peers[p] == RH.Unowned(o)
            && DeleteSelf(h4, o) == Success(h4)
            && o in h4.handles
            && var h5 := DropHandle(h4, o);
               && !Alive(h5.objs, o) && p !in h5.peers
               && RH.Get(RH.Unowned(o), h5.objs).1 == None
  {
    var (h1, o) := NewSelfOwned(h, me);
    var p := h.nextPeer;
    SelfOwnedSurvivesHandleDrop(h, me);
    var h2 := DropHandle(h1, o);
    var (h3, got) := PeerGet(h2, p);
    assert TopologyOf(h3, o) == Some(SelfOwned);
    DeleteSelfEndsSelfOwnership(h3, o);
    var h4 := DeleteSelf(h3, o).value;
    DeleteSelfIdempotent(h3, o);
    assert Cpp(h4, o) == CH.Owned(p);
  }

  /** C++-owned after `delete_self`: the peer keeps only a `Weak`, so once
      the Rust handles are gone the object is dropped while C++ still owns
      the peer, and the peer's `get` reports the absence. */
  lemma CppOwnedDeleteSelfOrphansPeer<S>(h: Heap<S>, me: S)
    requires Valid(h)
    ensures var (h1, p) := NewCppOwned(h, me);
            var o := h.nextObj;
            var (h2, got) := PeerGet(h1, p);
            got == Some(o) && DeleteSelf(h2, o).Success? &&
            var h3 := DeleteSelf(h2, o).value;
            o in h3.handles &&
            var h4 := DropHandle(h3, o);
            && !Alive(h4.objs, o) && p in h4.peers && p in h4.uniquePtrs
            && PeerGet(h4, p) == (h4, None)
  {
    var (h1, p) := NewCppOwned(h, me);
    var o := h.nextObj;
    var (h2, got) := PeerGet(h1, p);
    var h3 := DeleteSelf(h2, o).value;
    assert Cpp(h3, o) == CH.Unowned(p);
  }

  /** Re-entrancy: while Rust code holds a mutable borrow of an object, a C++
      virtual call that reaches the same object through its peer and asks
      for another borrow panics; it never obtains a second reference. */
  lemma ReentrantBorrowPanics<S>(h: Heap<S>, o: ObjId, p: PeerId)
    requires Valid(h) && o in h.handles && BorrowMut(h, o).Success?
    requires p in h.peers && h.peers[p].obj == o
    ensures var h1 := BorrowMut(h, o).value;
            var (h2, got) := PeerGet(h1, p);
            && got == Some(o)
            && BorrowMut(h2, o) == Failure(AlreadyBorrowed)
            && Borrow(h2, o) == Failure(AlreadyMutablyBorrowed)
  {
  }

  /** A change made through the caller's handle is what a virtual call
      arriving through the peer sees: both reach the same object. */
  lemma CallbackSeesMutation<S>(h: Heap<S>, me: S, s: S)
    requires Valid(h)
    ensures var (h1, o) := NewRustOwned(h, me);
            o in h1.handles && BorrowMut(h1, o).Success? &&
            var h2 := CppSubclass.EndBorrowMut(WriteState(BorrowMut(h1, o).value, o, s), o);
            h.nextPeer in h2.peers &&
            var (h3, got) := PeerGet(h2, h.nextPeer);
            got == Some(o) && h3.objs[o].value.state == s && h3.objs[o].borrow == Unborrowed
  {
  }

  /** The raw pointer of a C++-owned object can outlive its peer: when Rust
      code keeps a handle obtained during a virtual call and C++ then
      destroys the peer, the object is still alive and `peer()` still names
      the destroyed peer, so `delete_self` would follow a dangling pointer. */
  lemma DanglingPeerReachable<S>(h: Heap<S>, me: S)
    requires Valid(h)
    ensures var (h1, p) := NewCppOwned(h, me);
            var o := h.nextObj;
            var (h2, got) := PeerGet(h1, p);
            got == Some(o) && p in h2.uniquePtrs &&
            var h3 := DestroyPeer(h2, p);
            && Alive(h3.objs, o) && p !in h3.peers
            && Peer(h3.objs[o].value) == Success(p)
            && o in h3.handles && DeleteSelf(h3, o) == Failure(DanglingPeer)
  {
  }

  /** Shared borrows nest: two `borrow`s through a handle, each ended again,
      leave the heap exactly as it was, and while both are open `borrow_mut`
      panics. */
  lemma NestedSharedBorrows<S>(h: Heap<S>, o: ObjId)
    requires Valid(h) && o in h.handles && h.objs[o].borrow == Unborrowed
    ensures Borrow(h, o).Success?
    ensures var h1 := Borrow(h, o).value;
            Borrow(h1, o).Success? &&
            var h2 := Borrow(h1, o).value;
            && h2.objs[o].borrow == Reading(2)
            && BorrowMut(h2, o) == Failure(AlreadyBorrowed)
            && var h3 := CppSubclass.EndBorrow(h2, o);
               h3 == h1 && CppSubclass.EndBorrow(h3, o) == h
  {
    var h1 := Borrow(h, o).value;
    var h2 := Borrow(h1, o).value;
    BorrowEndBorrowRoundTrip(h1.objs, o);
    BorrowEndBorrowRoundTrip(h.objs, o);
    var h3 := CppSubclass.EndBorrow(h2, o);
    assert h3.objs == h1.objs;
    assert CppSubclass.EndBorrow(h3, o).objs == h.objs;
  }
}
