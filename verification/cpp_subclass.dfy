/** The ownership protocol of `CppSubclass` and `CppSubclassSelfOwned`: how a
    Rust subclass object and its C++ peer are wired together, who holds a
    strong reference to whom, and how the pair comes apart again. Everything
    runs over an abstract heap that holds the Rust objects (as `Rc`
    allocations), the live C++ peers, and the handles that code outside this
    library holds. */
module CppSubclass {
  import opened Outcome
  import opened Rc
  import RH = RustPeerHolder
  import CH = CppPeerHolder

  type PeerId = CH.PeerId

  /** A Rust subclass object: the user's own fields (`state`) plus the
      peer-holder field that `#[is_subclass]` adds. */
  datatype Subclass<S> = Subclass(state: S, peerHolder: CH.Holder)

  /** The abstract heap.
      - `objs`: the `Rc<RefCell<..>>` allocations of the Rust objects;
      - `peers`: the C++ peers not yet destroyed, each with the Rust peer
        holder it stores;
      - `handles`: the `Rc` handles held by Rust code (one entry per handle);
      - `uniquePtrs`: the peers whose `UniquePtr` is held by C++ code;
      - `nextObj`, `nextPeer`: where the next allocations go. */
  datatype Heap<S> = Heap(
    objs: Store<Subclass<S>>,
    peers: map<PeerId, RH.Holder>,
    handles: multiset<ObjId>,
    uniquePtrs: set<PeerId>,
    nextObj: nat,
    nextPeer: nat)

  /** The heap before any pair exists. */
  function EmptyHeap<S>(): (h: Heap<S>)
    ensures Valid(h)
    ensures h.objs == map[] && h.peers == map[] && h.handles == multiset{}
  {
    Heap(map[], map[], multiset{}, {}, 0, 0)
  }

  /** The C++ peer holder of object `o`. */
  function Cpp<S>(h: Heap<S>, o: ObjId): CH.Holder
    requires o in h.objs
  {
    h.objs[o].value.peerHolder
  }

  /** The strong references to `o` held on the C++ side: 1 when the peer
      paired with `o` is alive and holds an `Rc` to it, else 0. */
  function PeerStrong<S>(h: Heap<S>, o: ObjId): nat
    requires o in h.objs
  {
    var c := Cpp(h, o);
    if !c.Empty? && c.peer in h.peers && h.peers[c.peer] == RH.Owned(o) then 1 else 0
  }

  // ---------------------------------------------------------------------
  // The heap invariant

  /** Allocation counters lie beyond every identity in use. */
  ghost predicate FreshIds<S>(h: Heap<S>) {
    && (forall o :: o in h.objs ==> o < h.nextObj)
    && (forall p :: p in h.peers ==> p < h.nextPeer)
    && (forall o :: o in h.objs && !Cpp(h, o).Empty? ==> Cpp(h, o).peer < h.nextPeer)
  }

  /** Objects and peers come in pairs: every live peer refers to an object
      whose holder refers back to that peer, and vice versa. */
  ghost predicate Paired<S>(h: Heap<S>) {
    && (forall p :: p in h.peers ==>
          && h.peers[p].obj in h.objs
          && !Cpp(h, h.peers[p].obj).Empty?
          && Cpp(h, h.peers[p].obj).peer == p)
    && (forall o :: o in h.objs && !Cpp(h, o).Empty? && Cpp(h, o).peer in h.peers ==>
          h.peers[Cpp(h, o).peer].obj == o)
  }

  /** Every live peer has exactly one owner: C++ code through a `UniquePtr`,
      or its Rust object through an `Owned` holder. A live owner's peer is
      alive; so is a dead owner's, but only for the objects in `dying`,
      whose last `Rc` has just been dropped and whose value is about to go. */
  ghost predicate OwnersExcept<S>(h: Heap<S>, dying: set<ObjId>) {
    && h.uniquePtrs <= h.peers.Keys
    && (forall o :: o in h.objs && Cpp(h, o).Owned? && Alive(h.objs, o) ==> Cpp(h, o).peer in h.peers)
    && (forall o :: o in h.objs && Cpp(h, o).Owned? && Cpp(h, o).peer in h.peers && o !in dying ==>
          Alive(h.objs, o))
    && (forall o :: o in h.objs && Cpp(h, o).Owned? ==> Cpp(h, o).peer !in h.uniquePtrs)
    && (forall p :: p in h.peers && p !in h.uniquePtrs ==>
          h.peers[p].obj in h.objs && Cpp(h, h.peers[p].obj).Owned?)
  }

  /** Strong counts are exact: an object's count is the number of strong
      references to it, from its peer and from Rust handles. */
  ghost predicate Counted<S>(h: Heap<S>) {
    && (forall o :: o in h.handles ==> o in h.objs)
    && (forall o :: o in h.objs ==> h.objs[o].strong == PeerStrong(h, o) + h.handles[o])
  }

  /** The invariant every operation of the protocol preserves. */
  ghost predicate Valid<S>(h: Heap<S>) {
    FreshIds(h) && Paired(h) && OwnersExcept(h, {}) && Counted(h)
  }

  /** A peer's `Owned` holder is a live `Rc`: its object's count is positive. */
  lemma OwnedHolderKeepsAlive<S>(h: Heap<S>, p: PeerId)
    requires Valid(h) && p in h.peers
    ensures RH.Resolvable(h.peers[p], h.objs)
    ensures h.peers[p].Owned? ==> PeerStrong(h, h.peers[p].obj) == 1
  {
  }

  /** The invariant depends on the heap only through counts, peer holders,
      handles, owners and counters; borrow flags and the user's fields do
      not matter. */
  ghost predicate SameOwnership<S>(h: Heap<S>, h': Heap<S>) {
    && h'.peers == h.peers && h'.handles == h.handles && h'.uniquePtrs == h.uniquePtrs
    && h'.nextObj == h.nextObj && h'.nextPeer == h.nextPeer
    && h'.objs.Keys == h.objs.Keys
    && (forall o :: o in h.objs ==> h'.objs[o].strong == h.objs[o].strong && Cpp(h', o) == Cpp(h, o))
  }

  lemma SameOwnershipValid<S>(h: Heap<S>, h': Heap<S>)
    requires Valid(h) && SameOwnership(h, h')
    ensures Valid(h')
  {
    forall o | o in h'.objs
      ensures PeerStrong(h', o) == PeerStrong(h, o)
      ensures Alive(h'.objs, o) == Alive(h.objs, o)
    {
    }
  }

  /** Dropping a handle leaves the heap one step short of valid: only the
      value of `o` may still have to be dropped. */
  lemma DropHandleReady<S>(h: Heap<S>, o: ObjId)
    requires Valid(h) && o in h.handles
    ensures Alive(h.objs, o)
    ensures var h1 := h.(objs := Release(h.objs, o), handles := h.handles - multiset{o});
            FreshIds(h1) && Paired(h1) && OwnersExcept(h1, {o}) && Counted(h1)
  {
    var h1 := h.(objs := Release(h.objs, o), handles := h.handles - multiset{o});
    forall x | x in h1.objs
      ensures Cpp(h1, x) == Cpp(h, x) && PeerStrong(h1, x) == PeerStrong(h, x)
      ensures x != o ==> h1.objs[x] == h.objs[x]
    {
    }
  }

  /** C++ destroying a peer it owns leaves the heap one step short of valid:
      only the value of the peer's object may still have to be dropped. */
  lemma DestroyPeerReady<S>(h: Heap<S>, p: PeerId)
    requires Valid(h) && p in h.uniquePtrs && h.peers[p].Owned?
    ensures Alive(h.objs, h.peers[p].obj)
    ensures var o := h.peers[p].obj;
            var h1 := h.(peers := h.peers - {p}, uniquePtrs := h.uniquePtrs - {p}, objs := Release(h.objs, o));
            o in h1.objs && FreshIds(h1) && Paired(h1) && OwnersExcept(h1, {o}) && Counted(h1)
    ensures !Cpp(h, h.peers[p].obj).Owned?
  {
    var o := h.peers[p].obj;
    OwnedHolderKeepsAlive(h, p);
    var h1 := h.(peers := h.peers - {p}, uniquePtrs := h.uniquePtrs - {p}, objs := Release(h.objs, o));
    forall x | x in h1.objs
      ensures Cpp(h1, x) == Cpp(h, x)
      ensures x != o ==> h1.objs[x] == h.objs[x] && PeerStrong(h1, x) == PeerStrong(h, x)
      ensures x == o ==> PeerStrong(h1, x) == 0 && PeerStrong(h, x) == 1
    {
    }
  }

  /** C++ destroying a peer that holds only a `Weak` changes no count. */
  lemma DestroyWeakPeerValid<S>(h: Heap<S>, p: PeerId)
    requires Valid(h) && p in h.uniquePtrs && h.peers[p].Unowned?
    ensures Valid(h.(peers := h.peers - {p}, uniquePtrs := h.uniquePtrs - {p}))
  {
    var h1 := h.(peers := h.peers - {p}, uniquePtrs := h.uniquePtrs - {p});
    forall x | x in h1.objs
      ensures Cpp(h1, x) == Cpp(h, x) && PeerStrong(h1, x) == PeerStrong(h, x)
    {
    }
  }

  /** A peer giving up its `Rc` leaves the heap one step short of valid:
      only the value of its object may still have to be dropped. */
  lemma RelinquishReady<S>(h: Heap<S>, p: PeerId)
    requires Valid(h) && p in h.peers && h.peers[p].Owned?
    ensures Alive(h.objs, h.peers[p].obj)
    ensures var o := h.peers[p].obj;
            var h1 := h.(objs := Release(h.objs, o), peers := h.peers[p := RH.Unowned(o)]);
            o in h1.objs && FreshIds(h1) && Paired(h1) && OwnersExcept(h1, {o}) && Counted(h1)
    ensures var o := h.peers[p].obj;
            Cpp(h, o).Owned? ==> Cpp(h, o).peer == p
  {
    var o := h.peers[p].obj;
    OwnedHolderKeepsAlive(h, p);
    var h1 := h.(objs := Release(h.objs, o), peers := h.peers[p := RH.Unowned(o)]);
    forall x | x in h1.objs
      ensures Cpp(h1, x) == Cpp(h, x)
      ensures x != o ==> h1.objs[x] == h.objs[x] && PeerStrong(h1, x) == PeerStrong(h, x)
      ensures x == o ==> PeerStrong(h1, x) == 0 && PeerStrong(h, x) == 1
    {
    }
  }

  /** A resolved `get` adds one handle and one strong count together. */
  lemma NewHandleValid<S>(h: Heap<S>, o: ObjId)
    requires Valid(h) && Alive(h.objs, o)
    ensures Valid(h.(objs := Clone(h.objs, o), handles := h.handles + multiset{o}))
  {
    var h1 := h.(objs := Clone(h.objs, o), handles := h.handles + multiset{o});
    forall x | x in h1.objs
      ensures Cpp(h1, x) == Cpp(h, x) && PeerStrong(h1, x) == PeerStrong(h, x)
      ensures x != o ==> h1.objs[x] == h.objs[x]
    {
    }
  }

  /** `h'` is `h` plus a fresh pair: the object `h.nextObj` with allocation
      `b`, the peer `h.nextPeer` storing `holder`. The two halves refer to
      each other, exactly one side owns the peer (C++ when `cppOwned`), and
      the object's count is the peer's strong reference, if any, plus the
      caller's handle, if any. */
  ghost predicate AddsPair<S>(h: Heap<S>, h': Heap<S>, b: RcBox<Subclass<S>>, holder: RH.Holder,
                              handle: bool, cppOwned: bool) {
    && h'.objs == h.objs[h.nextObj := b] && h'.peers == h.peers[h.nextPeer := holder]
    && h'.handles == (if handle then h.handles + multiset{h.nextObj} else h.handles)
    && h'.uniquePtrs == (if cppOwned then h.uniquePtrs + {h.nextPeer} else h.uniquePtrs)
    && h'.nextObj == h.nextObj + 1 && h'.nextPeer == h.nextPeer + 1
    && holder.obj == h.nextObj
    && b.value.peerHolder == (if cppOwned then CH.Unowned(h.nextPeer) else CH.Owned(h.nextPeer))
    && b.strong == (if holder.Owned? then 1 else 0) + (if handle then 1 else 0) > 0
  }

  lemma AddsPairKeepsOthers<S>(h: Heap<S>, h': Heap<S>, b: RcBox<Subclass<S>>, holder: RH.Holder,
                               handle: bool, cppOwned: bool, x: ObjId)
    requires Valid(h) && AddsPair(h, h', b, holder, handle, cppOwned) && x in h.objs
    ensures x != h.nextObj && x in h'.objs && h'.objs[x] == h.objs[x]
    ensures Cpp(h', x) == Cpp(h, x) && PeerStrong(h', x) == PeerStrong(h, x)
    ensures h'.handles[x] == h.handles[x]
    ensures !Cpp(h, x).Empty? ==> Cpp(h, x).peer != h.nextPeer
  {
  }

  lemma AddsPairValid<S>(h: Heap<S>, h': Heap<S>, b: RcBox<Subclass<S>>, holder: RH.Holder,
                         handle: bool, cppOwned: bool)
    requires Valid(h) && AddsPair(h, h', b, holder, handle, cppOwned)
    ensures Valid(h')
  {
    AddsPairFreshIds(h, h', b, holder, handle, cppOwned);
    AddsPairPaired(h, h', b, holder, handle, cppOwned);
    AddsPairOwners(h, h', b, holder, handle, cppOwned);
    AddsPairCounted(h, h', b, holder, handle, cppOwned);
  }

  lemma AddsPairFreshIds<S>(h: Heap<S>, h': Heap<S>, b: RcBox<Subclass<S>>, holder: RH.Holder,
                            handle: bool, cppOwned: bool)
    requires Valid(h) && AddsPair(h, h', b, holder, handle, cppOwned)
    ensures FreshIds(h')
  {
  }

  lemma AddsPairPaired<S>(h: Heap<S>, h': Heap<S>, b: RcBox<Subclass<S>>, holder: RH.Holder,
                          handle: bool, cppOwned: bool)
    requires Valid(h) && AddsPair(h, h', b, holder, handle, cppOwned)
    ensures Paired(h')
  {
    forall x | x in h.objs
      ensures !Cpp(h, x).Empty? ==> Cpp(h, x).peer != h.nextPeer
    {
      AddsPairKeepsOthers(h, h', b, holder, handle, cppOwned, x);
    }
  }

  lemma AddsPairOwners<S>(h: Heap<S>, h': Heap<S>, b: RcBox<Subclass<S>>, holder: RH.Holder,
                          handle: bool, cppOwned: bool)
    requires Valid(h) && AddsPair(h, h', b, holder, handle, cppOwned)
    ensures OwnersExcept(h', {})
  {
    var (o, p) := (h.nextObj, h.nextPeer);
    forall x | x in h'.objs
      ensures Cpp(h', x).Owned? && Alive(h'.objs, x) ==> Cpp(h', x).peer in h'.peers
      ensures Cpp(h', x).Owned? && Cpp(h', x).peer in h'.peers ==> Alive(h'.objs, x)
      ensures Cpp(h', x).Owned? ==> Cpp(h', x).peer !in h'.uniquePtrs
    {
      if x != o {
        AddsPairKeepsOthers(h, h', b, holder, handle, cppOwned, x);
      }
    }
    forall q | q in h'.peers && q !in h'.uniquePtrs
      ensures h'.peers[q].obj in h'.objs && Cpp(h', h'.peers[q].obj).Owned?
    {
      if q != p {
        AddsPairKeepsOthers(h, h', b, holder, handle, cppOwned, h.peers[q].obj);
      }
    }
  }

  lemma AddsPairCounted<S>(h: Heap<S>, h': Heap<S>, b: RcBox<Subclass<S>>, holder: RH.Holder,
                           handle: bool, cppOwned: bool)
    requires Valid(h) && AddsPair(h, h', b, holder, handle, cppOwned)
    ensures Counted(h')
  {
    var o := h.nextObj;
    forall x | x in h.objs
      ensures PeerStrong(h', x) == PeerStrong(h, x) && h'.handles[x] == h.handles[x]
    {
      AddsPairKeepsOthers(h, h', b, holder, handle, cppOwned, x);
    }
    assert h.handles[o] == 0;
    assert PeerStrong(h', o) == (if holder.Owned? then 1 else 0);
  }

  // ---------------------------------------------------------------------
  // The two foreign operations, taken as assumptions

  /** `CppPeerConstructor::make_peer`, whose generated C++ body is not part of
      this model. Assumed: it constructs a fresh C++ peer that stores
      `holder`, and touches nothing else. */
  function MakePeer<S>(h: Heap<S>, holder: RH.Holder): (r: (Heap<S>, PeerId))
    ensures r.1 == h.nextPeer
    ensures r.0 == h.(peers := h.peers[r.1 := holder], nextPeer := h.nextPeer + 1)
  {
    (h.(peers := h.peers[h.nextPeer := holder], nextPeer := h.nextPeer + 1), h.nextPeer)
  }

  /** The C++ peer's `relinquish_ownership`, whose generated C++ body is not
      part of this model. Assumed: it replaces the holder the peer stores by
      the result of relinquishing that holder. The `Rc` given up is dropped.
      If it was the object's last, the object's value goes, and with it the
      peer the object owned, which may be this very peer. `delete_self` never
      reaches that case: it runs on `&self`, so its caller holds another `Rc`
      (`DeleteSelf` requires a handle). In Rust it would free `self` while
      `self` is still borrowed. */
  function PeerRelinquish<S>(h: Heap<S>, p: PeerId): (h': Heap<S>)
    requires Valid(h) && p in h.peers
    ensures Valid(h')
    ensures h.peers[p].Unowned? ==> h' == h
    ensures h.peers[p].Owned? ==>
              var o := h.peers[p].obj;
              && h'.objs == Release(h.objs, o)
              && (Alive(h'.objs, o) ==> h'.peers == h.peers[p := RH.Unowned(o)])
              && (!Alive(h'.objs, o) && Cpp(h, o).Owned? ==> h'.peers == h.peers - {p})
              && (!Alive(h'.objs, o) && !Cpp(h, o).Owned? ==> h'.peers == h.peers[p := RH.Unowned(o)])
    ensures h'.handles == h.handles && h'.uniquePtrs == h.uniquePtrs
    ensures h'.nextObj == h.nextObj && h'.nextPeer == h.nextPeer
  {
    OwnedHolderKeepsAlive(h, p);
    var r := RH.RelinquishOwnership(h.peers[p], h.objs);
    match h.peers[p]
    case Owned(o) =>
      RelinquishReady(h, p);
      var h1 := h.(objs := r.1, peers := h.peers[p := r.0]);
      assert Cpp(h1, o) == Cpp(h, o);
      assert h1.peers - {p} == h.peers - {p};
      AfterRelease(h1, o)
    case Unowned(_) =>
      h
  }

  // ---------------------------------------------------------------------
  // Dropping references

  /** What follows the drop of one strong reference to `o` (whose count is
      already decremented): when it was the last, the value is dropped, and
      an `Owned` peer holder in it destroys the peer. That peer's own holder
      is then necessarily a `Weak`, so no further count changes. */
  function AfterRelease<S>(h: Heap<S>, o: ObjId): (h': Heap<S>)
    requires o in h.objs
    requires FreshIds(h) && Paired(h) && OwnersExcept(h, {o}) && Counted(h)
    ensures Valid(h')
    ensures h'.objs == h.objs && h'.handles == h.handles && h'.uniquePtrs == h.uniquePtrs
    ensures h'.nextObj == h.nextObj && h'.nextPeer == h.nextPeer
    ensures !Alive(h.objs, o) && Cpp(h, o).Owned? ==> h'.peers == h.peers - {Cpp(h, o).peer}
    ensures Alive(h.objs, o) || !Cpp(h, o).Owned? ==> h'.peers == h.peers
    ensures !Alive(h.objs, o) && Cpp(h, o).Owned? && Cpp(h, o).peer in h.peers ==>
              h.peers[Cpp(h, o).peer] == RH.Unowned(o)
  {
    if h.objs[o].strong == 0 && Cpp(h, o).Owned? then
      h.(peers := h.peers - {Cpp(h, o).peer})
    else
      h
  }

  /** Rust code drops one of its `Rc` handles to `o`. */
  function DropHandle<S>(h: Heap<S>, o: ObjId): (h': Heap<S>)
    requires Valid(h) && o in h.handles
    ensures Valid(h')
    ensures h'.handles == h.handles - multiset{o}
    ensures h'.objs == Release(h.objs, o)
    ensures Alive(h'.objs, o) || !Cpp(h, o).Owned? ==> h'.peers == h.peers
    ensures !Alive(h'.objs, o) && Cpp(h, o).Owned? ==> h'.peers == h.peers - {Cpp(h, o).peer}
    ensures h'.uniquePtrs == h.uniquePtrs
  {
    DropHandleReady(h, o);
    AfterRelease(h.(objs := Release(h.objs, o), handles := h.handles - multiset{o}), o)
  }

  /** C++ code destroys a peer it owns through a `UniquePtr`. The peer's
      Rust holder goes with it; if it was an `Rc`, that reference is
      dropped. */
  function DestroyPeer<S>(h: Heap<S>, p: PeerId): (h': Heap<S>)
    requires Valid(h) && p in h.uniquePtrs
    ensures Valid(h')
    ensures p !in h'.peers && h'.peers == h.peers - {p} && h'.uniquePtrs == h.uniquePtrs - {p}
    ensures h.peers[p].Owned? ==> h'.objs == Release(h.objs, h.peers[p].obj)
    ensures h.peers[p].Unowned? ==> h'.objs == h.objs
    ensures h'.handles == h.handles
  {
    OwnedHolderKeepsAlive(h, p);
    var h1 := h.(peers := h.peers - {p}, uniquePtrs := h.uniquePtrs - {p});
    match h.peers[p]
    case Owned(o) => DestroyPeerReady(h, p); AfterRelease(h1.(objs := Release(h.objs, o)), o)
    case Unowned(_) => DestroyWeakPeerValid(h, p); h1
  }

  /** A C++ virtual call reaching its Rust half: the peer's holder `get`. A
      resolved object comes with a new `Rc` handle for the caller. */
  function PeerGet<S>(h: Heap<S>, p: PeerId): (r: (Heap<S>, Option<ObjId>))
    requires Valid(h) && p in h.peers
    ensures Valid(r.0)
    ensures h.peers[p].Owned? ==> r.1 == Some(h.peers[p].obj)
    ensures r.1.Some? <==> Alive(h.objs, h.peers[p].obj)
    ensures r.1.Some? ==> r.1.value == h.peers[p].obj
    ensures r.1.Some? ==> r.0 == h.(objs := Clone(h.objs, r.1.value), handles := h.handles + multiset{r.1.value})
    ensures r.1.None? ==> r.0 == h
  {
    OwnedHolderKeepsAlive(h, p);
    var (objs, res) := RH.Get(h.peers[p], h.objs);
    match res
    case Some(o) => NewHandleValid(h, o); (h.(objs := objs, handles := h.handles + multiset{o}), res)
    case None => (h, res)
  }

  // ---------------------------------------------------------------------
  // Borrowing the `RefCell` through a handle

  /** `borrow_mut` on the object behind a handle: panics when any borrow is
      outstanding, as a re-entrant non-const virtual call does. */
  function BorrowMut<S>(h: Heap<S>, o: ObjId): (r: Result<Heap<S>>)
    requires Valid(h) && o in h.handles
    ensures r.Success? <==> h.objs[o].borrow == Unborrowed
    ensures r.Failure? ==> r.fault == AlreadyBorrowed
    ensures r.Success? ==> Valid(r.value) && o in r.value.objs && r.value.objs[o].borrow == Writing
    ensures r.Success? ==> r.value == h.(objs := h.objs[o := h.objs[o].(borrow := Writing)])
  {
    match TryBorrowMut(h.objs, o)
    case Success(objs) => SameOwnershipValid(h, h.(objs := objs)); Success(h.(objs := objs))
    case Failure(f) => Failure(f)
  }

  /** `borrow` on the object behind a handle: panics while it is mutably
      borrowed. */
  function Borrow<S>(h: Heap<S>, o: ObjId): (r: Result<Heap<S>>)
    requires Valid(h) && o in h.handles
    ensures r.Success? <==> h.objs[o].borrow != Writing
    ensures r.Failure? ==> r.fault == AlreadyMutablyBorrowed
    ensures r.Success? ==> Valid(r.value) && o in r.value.objs
    ensures r.Success? ==> r.value.objs[o].borrow == Reading(Readers(h.objs[o].borrow) + 1)
    ensures r.Success? ==> r.value == h.(objs := h.objs[o := h.objs[o].(borrow := r.value.objs[o].borrow)])
  {
    match TryBorrow(h.objs, o)
    case Success(objs) => SameOwnershipValid(h, h.(objs := objs)); Success(h.(objs := objs))
    case Failure(f) => Failure(f)
  }

  /** Dropping one `Ref` guard: one reader fewer, and the cell is free again
      once the last reader is gone. Nothing else in the heap changes. */
  function EndBorrow<S>(h: Heap<S>, o: ObjId): (h': Heap<S>)
    requires Valid(h) && o in h.objs && h.objs[o].borrow.Reading?
    ensures Valid(h')
    ensures o in h'.objs && (h'.objs[o].borrow == Unborrowed <==> h.objs[o].borrow.readers == 1)
    ensures Readers(h'.objs[o].borrow) + 1 == Readers(h.objs[o].borrow)
    ensures h' == h.(objs := h.objs[o := h.objs[o].(borrow := h'.objs[o].borrow)])
  {
    var h' := h.(objs := Rc.EndBorrow(h.objs, o));
    SameOwnershipValid(h, h');
    h'
  }

  /** Dropping the `RefMut` guard. */
  function EndBorrowMut<S>(h: Heap<S>, o: ObjId): (h': Heap<S>)
    requires Valid(h) && o in h.objs && h.objs[o].borrow == Writing
    ensures Valid(h')
    ensures o in h'.objs && h'.objs[o].borrow == Unborrowed
    ensures h' == h.(objs := h.objs[o := h.objs[o].(borrow := Unborrowed)])
  {
    var h' := h.(objs := Rc.EndBorrowMut(h.objs, o));
    SameOwnershipValid(h, h');
    h'
  }

  /** Assigning the user's fields through an outstanding `RefMut`. */
  function WriteState<S>(h: Heap<S>, o: ObjId, s: S): (h': Heap<S>)
    requires Valid(h) && o in h.objs && h.objs[o].borrow == Writing
    ensures Valid(h')
    ensures o in h'.objs && h'.objs[o].value == Subclass(s, Cpp(h, o))
    ensures h' == h.(objs := h.objs[o := h'.objs[o]])
    ensures h'.objs[o].strong == h.objs[o].strong && h'.objs[o].borrow == Writing
  {
    var h' := h.(objs := h.objs[o := h.objs[o].(value := h.objs[o].value.(state := s))]);
    SameOwnershipValid(h, h');
    h'
  }

  // ---------------------------------------------------------------------
  // Access to the peer

  /** `peer`: the C++ half, read through the holder field. Panics while the
      holder is Empty. */
  function Peer<S>(x: Subclass<S>): (r: Result<PeerId>)
    ensures r.Success? <==> !x.peerHolder.Empty?
    ensures r.Failure? ==> r.fault == PeerNotSetUp
    ensures r.Success? ==> r.value == x.peerHolder.peer
  {
    CH.Get(x.peerHolder)
  }

  /** `peer_mut`: the C++ half for mutation. Panics while the holder is
      Empty. */
  function PeerMut<S>(x: Subclass<S>): (r: Result<PeerId>)
    ensures r.Success? <==> !x.peerHolder.Empty?
    ensures r.Failure? ==> r.fault == PeerNotSetUp
    ensures r.Success? ==> r.value == x.peerHolder.peer
  {
    CH.PinMut(x.peerHolder)
  }

  // ---------------------------------------------------------------------
  // Topologies

  /** The three supported ownership topologies. */
  datatype Topology =
    | CppOwned   // C++ owns the peer; the peer owns the object through an Rc
    | RustOwned  // Rust handles own the object; the object owns the peer
    | SelfOwned  // object and peer own each other until delete_self

  /** The topology is not stored: it follows from the two holders. */
  function Classify(c: CH.Holder, r: RH.Holder): (t: Option<Topology>)
    ensures t == Some(CppOwned) <==> c.Unowned? && r.Owned?
    ensures t == Some(RustOwned) <==> c.Owned? && r.Unowned?
    ensures t == Some(SelfOwned) <==> c.Owned? && r.Owned?
    ensures t.None? <==> c.Empty? || (c.Unowned? && r.Unowned?)
  {
    match (c, r)
    case (Owned(_), Owned(_)) => Some(SelfOwned)
    case (Owned(_), Unowned(_)) => Some(RustOwned)
    case (Unowned(_), Owned(_)) => Some(CppOwned)
    case _ => None
  }

  /** The topology object `o` and its live peer are in, if any. */
  function TopologyOf<S>(h: Heap<S>, o: ObjId): Option<Topology>
    requires o in h.objs
  {
    var c := Cpp(h, o);
    if !c.Empty? && c.peer in h.peers then Classify(c, h.peers[c.peer]) else None
  }

  // ---------------------------------------------------------------------
  // Constructors

  /** The two `peer_boxer` closures: `new_rust_owned` downgrades the clone it
      is given to a `Weak`; `new_self_owned` keeps it as a strong holder. */
  datatype PeerBoxer = Downgrade | KeepStrong

  /** The boxer applied to a clone of the object's `Rc`: the holder the new
      peer is to store, and the store once the clone handed to the boxer has
      been kept in that holder (strong) or downgraded and dropped (weak). */
  function BoxClone<T>(boxer: PeerBoxer, s: Store<T>, o: ObjId): (r: (RH.Holder, Store<T>))
    requires Alive(s, o)
    ensures r.0.obj == o && (r.0.Owned? <==> boxer == KeepStrong)
    ensures r.1 == s[o := s[o].(strong := s[o].strong + (if boxer == KeepStrong then 1 else 0))]
  {
    var cloned := Clone(s, o);
    match boxer
    case KeepStrong => (RH.Owned(o), cloned)
    case Downgrade => (RH.Unowned(o), Release(cloned, o))
  }

  /** `make_owning_peer`: a new Rust object owning a new C++ peer, the peer
      holding whatever the boxer made of a clone of the object's `Rc`. The
      caller receives the original `Rc`. */
  function MakeOwningPeer<S>(h: Heap<S>, me: S, boxer: PeerBoxer): (r: (Heap<S>, ObjId))
    requires h.nextObj !in h.objs && h.nextPeer !in h.peers
    ensures r.1 == h.nextObj
    ensures r.0.objs == h.objs[r.1 := RcBox(if boxer == KeepStrong then 2 else 1, Unborrowed,
                                            Subclass(me, CH.Owned(h.nextPeer)))]
    ensures r.0.peers == h.peers[h.nextPeer := if boxer == KeepStrong then RH.Owned(r.1) else RH.Unowned(r.1)]
    ensures r.0.handles == h.handles + multiset{r.1}
    ensures r.0.uniquePtrs == h.uniquePtrs
    ensures r.0.nextObj == h.nextObj + 1 && r.0.nextPeer == h.nextPeer + 1
  {
    var o := h.nextObj;
    // Allocate the object with one strong reference and an Empty holder.
    var objs1 := New(h.objs, o, Subclass(me, CH.Default()));
    // Box a clone of the handle for the peer.
    var (holder, objs3) := BoxClone(boxer, objs1, o);
    var n := if boxer == KeepStrong then 2 else 1;
    assert objs3 == h.objs[o := RcBox(n, Unborrowed, Subclass(me, CH.Empty))];
    // Borrow mutably and make the peer; the borrow ends with the statement.
    var objs4 := TryBorrowMut(objs3, o).value;
    var (h5, p) := MakePeer(h.(objs := objs4, handles := h.handles + multiset{o}, nextObj := o + 1), holder);
    var objs6 := Rc.EndBorrowMut(h5.objs, o);
    // Borrow mutably again and store the peer as owned.
    var objs7 := TryBorrowMut(objs6, o).value;
    var objs8 := objs7[o := objs7[o].(value := objs7[o].value.(peerHolder := CH.SetOwned(objs7[o].value.peerHolder, p)))];
    assert objs8 == h.objs[o := RcBox(n, Writing, Subclass(me, CH.Owned(p)))];
    var h' := h5.(objs := Rc.EndBorrowMut(objs8, o));
    (h', o)
  }

  /** `new_cpp_owned`: a new object whose new peer holds the object's only
      strong reference, while the object keeps a raw pointer to the peer.
      The peer's `UniquePtr` goes to the C++ caller; no Rust handle remains. */
  function NewCppOwned<S>(h: Heap<S>, me: S): (r: (Heap<S>, PeerId))
    requires Valid(h)
    ensures Valid(r.0)
    ensures var (h', p) := r; var o := h.nextObj;
            && o !in h.objs && p !in h.peers && p == h.nextPeer
            && h'.objs == h.objs[o := RcBox(1, Unborrowed, Subclass(me, CH.Unowned(p)))]
            && h'.peers == h.peers[p := RH.Owned(o)]
            && h'.handles == h.handles
            && h'.uniquePtrs == h.uniquePtrs + {p}
            && h'.nextObj == h.nextObj + 1 && h'.nextPeer == h.nextPeer + 1
  {
    var o := h.nextObj;
    // Allocate the object with one strong reference and an Empty holder.
    var objs1 := New(h.objs, o, Subclass(me, CH.Default()));
    // Give the peer a strong clone of the handle.
    var objs2 := Clone(objs1, o);
    var holder := RH.Owned(o);
    // Borrow mutably for the rest of the constructor.
    var objs3 := TryBorrowMut(objs2, o).value;
    // Make the peer.
    var (h4, p) := MakePeer(h.(objs := objs3, nextObj := o + 1), holder);
    // Keep only a raw pointer to the peer.
    var objs5 := h4.objs[o := h4.objs[o].(value := h4.objs[o].value.(peerHolder := CH.SetUnowned(h4.objs[o].value.peerHolder, p)))];
    // The peer goes to the C++ caller; the borrow and the local handle end.
    var objs6 := Release(Rc.EndBorrowMut(objs5, o), o);
    var h' := h4.(objs := objs6, uniquePtrs := h4.uniquePtrs + {p});
    AddsPairValid(h, h', RcBox(1, Unborrowed, Subclass(me, CH.Unowned(p))), holder, false, true);
    (h', p)
  }

  /** What `make_owning_peer` leaves behind, in the terms the constructors
      promise: the new pair, its counts, and everything else untouched. */
  lemma OwningPeerShape<S>(h: Heap<S>, me: S, boxer: PeerBoxer)
    requires h.nextObj !in h.objs && h.nextPeer !in h.peers && h.handles[h.nextObj] == 0
    ensures var (h', o) := MakeOwningPeer(h, me, boxer); var p := h.nextPeer;
            && o == h.nextObj && o in h'.objs && p in h'.peers
            && Cpp(h', o) == CH.Owned(p)
            && h'.peers[p] == (if boxer == KeepStrong then RH.Owned(o) else RH.Unowned(o))
            && h'.objs[o].strong == (if boxer == KeepStrong then 2 else 1)
            && h'.handles[o] == 1
            && PeerStrong(h', o) == (if boxer == KeepStrong then 1 else 0)
            && h'.objs[o].borrow == Unborrowed && h'.objs[o].value.state == me
            && TopologyOf(h', o) == Some(if boxer == KeepStrong then SelfOwned else RustOwned)
            && (forall x :: x in h.objs ==> x in h'.objs && h'.objs[x] == h.objs[x])
            && (forall q :: q in h.peers ==> q in h'.peers && h'.peers[q] == h.peers[q])
            && h'.peers.Keys == h.peers.Keys + {p}
            && h'.uniquePtrs == h.uniquePtrs
  {
  }

  /** `new_rust_owned`: a new object, owned by the one `Rc` handed to the
      caller, owning a new peer that keeps only a `Weak` back. */
  function NewRustOwned<S>(h: Heap<S>, me: S): (r: (Heap<S>, ObjId))
    requires Valid(h)
    ensures Valid(r.0)
    ensures var (h', o) := r; var p := h.nextPeer;
            && o == h.nextObj && o !in h.objs && p !in h.peers
            && o in h'.objs && p in h'.peers
            && Cpp(h', o) == CH.Owned(p)
            && h'.peers[p] == RH.Unowned(o)
            && h'.objs[o].strong == 1 && h'.handles[o] == 1 && PeerStrong(h', o) == 0
            && h'.objs[o].borrow == Unborrowed && h'.objs[o].value.state == me
            && TopologyOf(h', o) == Some(RustOwned)
            && (forall x :: x in h.objs ==> x in h'.objs && h'.objs[x] == h.objs[x])
            && (forall q :: q in h.peers ==> q in h'.peers && h'.peers[q] == h.peers[q])
            && h'.peers.Keys == h.peers.Keys + {p}
            && h'.uniquePtrs == h.uniquePtrs
  {
    var r := MakeOwningPeer(h, me, Downgrade);
    AddsPairValid(h, r.0, r.0.objs[r.1], r.0.peers[h.nextPeer], true, false);
    OwningPeerShape(h, me, Downgrade);
    r
  }

  /** `new_self_owned`: a new object and a new peer that own each other, so
      the pair outlives the `Rc` handed to the caller until `delete_self`. */
  function NewSelfOwned<S>(h: Heap<S>, me: S): (r: (Heap<S>, ObjId))
    requires Valid(h)
    ensures Valid(r.0)
    ensures var (h', o) := r; var p := h.nextPeer;
            && o == h.nextObj && o !in h.objs && p !in h.peers
            && o in h'.objs && p in h'.peers
            && Cpp(h', o) == CH.Owned(p)
            && h'.peers[p] == RH.Owned(o)
            && h'.objs[o].strong == 2 && h'.handles[o] == 1 && PeerStrong(h', o) == 1
            && h'.objs[o].borrow == Unborrowed && h'.objs[o].value.state == me
            && TopologyOf(h', o) == Some(SelfOwned)
            && (forall x :: x in h.objs ==> x in h'.objs && h'.objs[x] == h.objs[x])
            && (forall q :: q in h.peers ==> q in h'.peers && h'.peers[q] == h.peers[q])
            && h'.peers.Keys == h.peers.Keys + {p}
            && h'.uniquePtrs == h.uniquePtrs
  {
    var r := MakeOwningPeer(h, me, KeepStrong);
    AddsPairValid(h, r.0, r.0.objs[r.1], r.0.peers[h.nextPeer], true, false);
    OwningPeerShape(h, me, KeepStrong);
    r
  }

  /** `delete_self`, called through a Rust handle to `o` (the only way to
      reach `&self`): asks the peer to relinquish ownership. The peer's
      holder becomes a `Weak`, the `Rc` it held is dropped, and nothing
      else changes. Panics while the peer holder is Empty; following a raw
      pointer to a peer C++ already destroyed is reported as `DanglingPeer`. */
  function DeleteSelf<S>(h: Heap<S>, o: ObjId): (r: Result<Heap<S>>)
    requires Valid(h) && o in h.handles
    ensures Cpp(h, o).Empty? ==> r == Failure(PeerNotSetUp)
    ensures r.Failure? <==> Cpp(h, o).Empty? || Cpp(h, o).peer !in h.peers
    ensures r.Failure? && !Cpp(h, o).Empty? ==> r.fault == DanglingPeer
    ensures r.Success? ==>
              var (h', p) := (r.value, Cpp(h, o).peer);
              && Valid(h')
              && h'.peers == h.peers[p := RH.Unowned(o)]
              && h'.objs == (if h.peers[p].Owned? then Release(h.objs, o) else h.objs)
              && Alive(h'.objs, o)
              && h'.handles == h.handles && h'.uniquePtrs == h.uniquePtrs
              && h'.nextObj == h.nextObj && h'.nextPeer == h.nextPeer
  {
    match Peer(h.objs[o].value)
    case Failure(f) => Failure(f)
    case Success(p) =>
      if p !in h.peers then Failure(DanglingPeer)
      else Success(PeerRelinquish(h, p))
  }

  // ---------------------------------------------------------------------
  // The `Default` conveniences; `dflt` is `Self::default()`.

  /** `default_rust_owned`: `new_rust_owned` of the default value. */
  function DefaultRustOwned<S>(h: Heap<S>, dflt: S): (r: (Heap<S>, ObjId))
    requires Valid(h)
    ensures Valid(r.0)
    ensures r.1 == h.nextObj && r.1 in r.0.objs && TopologyOf(r.0, r.1) == Some(RustOwned)
    ensures r.0.objs[r.1].value.state == dflt && r.0.objs[r.1].strong == 1 && r.0.handles[r.1] == 1
  {
    NewRustOwned(h, dflt)
  }

  /** `default_cpp_owned`: `new_cpp_owned` of the default value. */
  function DefaultCppOwned<S>(h: Heap<S>, dflt: S): (r: (Heap<S>, PeerId))
    requires Valid(h)
    ensures Valid(r.0)
    ensures h.nextObj in r.0.objs && TopologyOf(r.0, h.nextObj) == Some(CppOwned)
    ensures r.0.objs[h.nextObj].value.state == dflt && r.0.objs[h.nextObj].strong == 1
    ensures r.1 in r.0.uniquePtrs && r.0.peers[r.1] == RH.Owned(h.nextObj)
  {
    NewCppOwned(h, dflt)
  }

  /** `default_self_owned`: `new_self_owned` of the default value. */
  function DefaultSelfOwned<S>(h: Heap<S>, dflt: S): (r: (Heap<S>, ObjId))
    requires Valid(h)
    ensures Valid(r.0)
    ensures r.1 == h.nextObj && r.1 in r.0.objs && TopologyOf(r.0, r.1) == Some(SelfOwned)
    ensures r.0.objs[r.1].value.state == dflt && r.0.objs[r.1].strong == 2 && r.0.handles[r.1] == 1
  {
    NewSelfOwned(h, dflt)
  }
}
