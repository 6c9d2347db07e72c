# Ownership life cycle of Rust subclasses of C++ classes

A model of the ownership core of `src/subclass.rs`, in Dafny. A Rust subclass of a
C++ class is really two objects. One is the Rust object, an `Rc<RefCell<..>>`. The
other is its C++ peer. Each half holds a holder that points at the other:

- the C++ peer stores a `CppSubclassRustPeerHolder`. It is `Owned` (a strong `Rc`)
  or `Unowned` (a `Weak`);
- the Rust object stores a `CppSubclassCppPeerHolder`. It is `Empty`, `Owned` (a
  boxed `UniquePtr`) or `Unowned` (a raw pointer).

`new_cpp_owned`, `new_rust_owned` and `new_self_owned` wire a new pair into one of
three topologies: C++-owned, Rust-owned and self-owned. `delete_self` breaks the
self-owned cycle.

The model works over an abstract heap (`CppSubclass.Heap`) with these parts:

- Rust objects are allocation ids. Each has a strong count and a `RefCell` borrow flag.
- Live C++ peers are ids, each storing one Rust peer holder.
- `handles` counts the `Rc` handles held by Rust code. `uniquePtrs` lists the peers
  whose `UniquePtr` is held by C++ code.

`Rc::clone`, `Weak::upgrade` and dropping an `Rc` are explicit count updates. When a
count reaches 0, the object's value is dropped. If its peer holder is `Owned`, the
peer it owns is destroyed too.

The invariant `CppSubclass.Valid` holds in every reachable heap. It holds in the
empty heap, and every operation on a valid heap keeps it. There are two exceptions,
both intermediate steps of the constructors:

- `CppSubclass.MakePeer` adds a peer whose object does not point back to it yet;
- `CppSubclass.MakeOwningPeer` is the shared middle step of two constructors.

`NewCppOwned`, `NewRustOwned` and `NewSelfOwned` re-establish the invariant after
these steps. It says four things:

- allocation counters lie beyond every id in use;
- objects and peers come in pairs that point at each other;
- every live peer has exactly one owner;
- every strong count equals the number of strong references to that object.

Panics are outcomes of the model, not preconditions. `Outcome.Fault` has a value for
each one: `PeerNotSetUp` (accessing an `Empty` holder), `AlreadyBorrowed` and
`AlreadyMutablyBorrowed` (`RefCell`). `DanglingPeer` stands for following a raw peer
pointer whose peer has been destroyed, which is undefined behaviour in Rust.

Two operations have C++ bodies that are generated, and they are not part of this
model. Each is a fixed function whose contract is an assumption:

- `CppSubclass.MakePeer` (`make_peer`) creates a fresh peer that stores the holder
  it is given. It changes nothing else.
- `CppSubclass.PeerRelinquish` (the peer's `relinquish_ownership`) replaces the
  peer's holder with `holder.relinquish_ownership()`.

Three points of the code matter for the model:

- `CppSubclassRustPeerHolder::relinquish_ownership` (src/subclass.rs:61-68) changes
  a count. `match self` moves the `Rc` out of `Owned` (src/subclass.rs:63-65), and
  the `Rc` is dropped at the end of the arm. So the object's strong count goes down
  by one. This drop is what lets `delete_self` free a self-owned pair.
- `set_owned` and `set_unowned` (src/subclass.rs:101-108) assign `*self` without
  checking the holder's previous state (`CppPeerHolder.SettersOverwrite`).
- `delete_self` is documented for self-owned pairs (src/subclass.rs:285-287,
  304-306). But any `CppSubclassSelfOwned` type can also be built with
  `new_rust_owned` or `new_cpp_owned`, and `delete_self` then works in those
  topologies too:
  - on a Rust-owned pair it does nothing;
  - on a C++-owned pair the peer is left holding only a `Weak`
    (`Lifecycle.CppOwnedDeleteSelfOrphansPeer`).

There is also an observation. In the C++-owned topology, the Rust object's raw
pointer can outlive its peer. This happens when Rust code keeps an `Rc` to the object
after C++ destroys the peer. `peer()` then still returns the destroyed peer
(`Lifecycle.DanglingPeerReachable`).

## Model

| member | source | states |
|---|---|---|
| `RustPeerHolder.Get` | src/subclass.rs:55-60 | An `Owned` holder always yields its own object. An `Unowned` holder yields that same object exactly when the object is alive, and `None` otherwise. A yielded handle adds exactly one strong reference; `None` changes nothing. |
| `RustPeerHolder.RelinquishOwnership` | src/subclass.rs:61-68 | The result is always `Unowned` of the same object. `Owned` loses one strong count (the dropped `Rc`). An `Unowned` holder is returned unchanged, and so is the store. |
| `RustPeerHolder.RelinquishIdempotent` | src/subclass.rs:61-68 | Applying relinquish twice is the same as applying it once, for both the holder and the counts. |
| `RustPeerHolder.RelinquishThenGet` | src/subclass.rs:55-68 | After relinquish, the weak holder still resolves to the original object while it is alive, and to `None` once it is dead. |
| `CppPeerHolder.Default` | src/subclass.rs:78-82 | A default holder is Empty, so accessing it panics with "Peer not set up". |
| `CppPeerHolder.PinMut` | src/subclass.rs:85-93 | Succeeds exactly when the holder is not Empty, and returns the held peer. Otherwise it panics. |
| `CppPeerHolder.Get` | src/subclass.rs:94-100 | Succeeds exactly when the holder is not Empty, and returns the held peer. Otherwise it panics. |
| `CppPeerHolder.GetAgreesWithPinMut` | src/subclass.rs:85-100 | Read access and mutable access agree on the peer and on the panic. |
| `CppPeerHolder.SetOwned` | src/subclass.rs:101-103 | The holder becomes owning, and both accessors then return the given peer. |
| `CppPeerHolder.SetUnowned` | src/subclass.rs:104-108 | The holder becomes non-owning, and both accessors then return the given peer. |
| `CppPeerHolder.SettersOverwrite` | src/subclass.rs:101-108 | The prior state, Empty or not, has no effect on the result of either setter. |
| `Rc.New` | src/subclass.rs:123 | `Rc::new(RefCell::new(..))` makes a live allocation at a fresh id, with count 1 and no borrow, holding the given value. Every existing allocation is unchanged. |
| `Rc.Clone` | src/subclass.rs:57 | `Rc::clone` adds exactly one strong count to a live allocation. Its borrow and value, and every other allocation, are unchanged. |
| `Rc.Release` | src/subclass.rs:63-65 | Dropping an `Rc` removes exactly one strong count. Its borrow and value, and every other allocation, are unchanged. |
| `Rc.EndBorrowMut` | src/subclass.rs:125-129 | Dropping a `RefMut` guard frees the cell. Its count and value, and every other allocation, are unchanged. |
| `Rc.Upgrade` | src/subclass.rs:58 | `Weak::upgrade` yields the object exactly while it is alive, adding one strong count. When it yields nothing, the store is unchanged. |
| `Rc.CloneReleaseRoundTrip` | src/subclass.rs:124 | Cloning an `Rc` and then dropping the clone restores the store exactly. |
| `Rc.TryBorrowMut` | src/subclass.rs:125-127 | `borrow_mut` succeeds exactly when no borrow is outstanding, and then marks the cell as mutably borrowed. Otherwise it panics. |
| `Rc.MutableBorrowIsExclusive` | src/subclass.rs:215-219 | While a mutable borrow is outstanding, a second `borrow_mut` panics and so does a `borrow`. Ending the mutable borrow restores the cell. |
| `Rc.SharedBorrowExcludesMutable` | src/subclass.rs:173-174 | A shared borrow blocks `borrow_mut` but allows more shared borrows. |
| `Rc.TryBorrow` | src/subclass.rs:173-174 | `borrow` succeeds exactly when no mutable borrow is outstanding, and then records exactly one more reader. Otherwise it panics with `AlreadyMutablyBorrowed`. |
| `Rc.EndBorrow` | src/subclass.rs:173-174 | Dropping a `Ref` guard removes exactly one reader. The cell is free exactly when that was the last reader, and the count and value are unchanged. |
| `Rc.BorrowEndBorrowRoundTrip` | src/subclass.rs:173-174 | A shared borrow that is taken and then ended leaves the cell exactly as it was, whether it was free or already shared. |
| `CppSubclass.MakePeer` | src/subclass.rs:142-149 | Assumption: `make_peer` creates a peer at a fresh id that stores the given holder, and changes nothing else. |
| `CppSubclass.PeerRelinquish` | src/subclass.rs:43-46 | Assumption: the peer's holder is replaced by its relinquished form. If it was `Owned`, the object loses one count. If that was the last count, the object's own peer is destroyed. The invariant is kept. |
| `CppSubclass.AfterRelease` | src/subclass.rs:201-206 | When a count reaches 0, the object's value is dropped and the peer it owned is destroyed. That peer held only a `Weak`, so no other count changes. |
| `CppSubclass.DropHandle` | src/subclass.rs:273-275 | Dropping a Rust handle removes one handle and one strong count. If the count reaches 0 and the object owned its peer, the peer is destroyed. The invariant is kept. |
| `CppSubclass.DestroyPeer` | src/subclass.rs:261-263 | C++ destroying a peer it owns removes that peer. If the peer held an `Rc`, that strong count is dropped. The invariant is kept. |
| `CppSubclass.PeerGet` | src/subclass.rs:181-184 | A C++ virtual call reaches the peer's object: always when the peer holds an `Rc`, and exactly while the object is alive otherwise. The caller gets one new handle. |
| `CppSubclass.BorrowMut` | src/subclass.rs:215-219 | A mutable borrow through a handle succeeds exactly when no borrow is outstanding, and panics with `AlreadyBorrowed` otherwise. |
| `CppSubclass.Borrow` | src/subclass.rs:173-174 | A shared borrow through a handle succeeds exactly when no mutable borrow is outstanding, and panics with `AlreadyMutablyBorrowed` otherwise. It records exactly one more reader; nothing else in the heap changes and the invariant is kept. |
| `CppSubclass.EndBorrow` | src/subclass.rs:173-174 | Dropping a `Ref` guard removes exactly one reader, and frees the cell once the last reader is gone. Nothing else changes and the invariant is kept. |
| `CppSubclass.EndBorrowMut` | src/subclass.rs:173-174 | Dropping the `RefMut` guard clears the flag and changes nothing else. |
| `CppSubclass.WriteState` | src/subclass.rs:173-179 | Writing through a `RefMut` replaces the user's fields. The peer holder, the counts and the flag are unchanged. |
| `CppSubclass.Peer` | src/subclass.rs:251-253 | `peer()` returns the peer named by the holder field, and panics while that holder is Empty. |
| `CppSubclass.PeerMut` | src/subclass.rs:257-259 | `peer_mut()` returns the peer named by the holder field, and panics while that holder is Empty. |
| `CppSubclass.Classify` | src/subclass.rs:194-211 | The topology follows from the two holders: raw plus `Rc` is C++-owned, owning plus `Weak` is Rust-owned, owning plus `Rc` is self-owned. Any other pairing is no topology. |
| `CppSubclass.BoxClone` | src/subclass.rs:121-124 | A holder made by a `peer_boxer` refers to the object. It is strong exactly for the self-owned boxer, and the object's count goes up by one for the strong case only. |
| `CppSubclass.MakeOwningPeer` | src/subclass.rs:111-131 | Makes a fresh object that owns a fresh peer, with no borrow left open. The caller gets one handle. The object's count is 2 with a strong boxer and 1 with a weak boxer. The peer stores the boxed holder. |
| `CppSubclass.NewCppOwned` | src/subclass.rs:264-271 | The peer holds the object's only strong reference, and the object keeps a raw pointer to the peer. C++ owns the peer, no Rust handle remains, the count is 1 and the invariant is kept. |
| `CppSubclass.NewRustOwned` | src/subclass.rs:276-282 | The object owns the peer, and the peer holds only a `Weak`. The count is 1, and that reference is the returned handle. No borrow is outstanding, the topology is Rust-owned, and nothing else changes. |
| `CppSubclass.NewSelfOwned` | src/subclass.rs:296-302 | Both holders are owning and the count is 2: one from the peer, one from the returned handle. The topology is self-owned and nothing else changes. |
| `CppSubclass.DeleteSelf` | src/subclass.rs:307-309 | The peer's holder becomes `Weak`. The count drops by one if it was `Rc`, and the object stays alive because the caller holds a handle. Nothing else changes. It panics on an Empty holder, and fails on a destroyed peer. |
| `CppSubclass.DefaultRustOwned` | src/subclass.rs:316-318 | Builds a Rust-owned pair whose state is the default value, with one strong count held by the returned handle. |
| `CppSubclass.DefaultCppOwned` | src/subclass.rs:322-324 | Builds a C++-owned pair whose state is the default value. The only strong count is the peer's, and C++ owns the peer. |
| `CppSubclass.DefaultSelfOwned` | src/subclass.rs:334-336 | Builds a self-owned pair whose state is the default value, with strong count 2. |
| `Lifecycle.StrongCountIsExact` | src/subclass.rs:194-211 | In a valid heap, the strong count is exactly the number of peers holding an `Rc` to the object plus the number of Rust handles to it. At most one peer holds such an `Rc`. |
| `Lifecycle.AccessorsSucceedAfterConstruction` | src/subclass.rs:249-259 | After each of the three constructors, `peer()` and `peer_mut()` succeed and return the new peer. |
| `Lifecycle.RustOwnedDropFreesPair` | src/subclass.rs:201-206 | In the Rust-owned topology, dropping the returned handle frees the object and destroys its peer. |
| `Lifecycle.CppOwnedDestroyFreesObject` | src/subclass.rs:197-200 | In the C++-owned topology, destroying the peer frees the object. |
| `Lifecycle.SelfOwnedSurvivesHandleDrop` | src/subclass.rs:294-295 | In the self-owned topology, dropping the returned handle leaves count 1. The peer stays alive and the topology stays self-owned. |
| `Lifecycle.DeleteSelfEndsSelfOwnership` | src/subclass.rs:304-309 | On a self-owned pair, `delete_self` succeeds and the count drops by one. The object's peer holder is unchanged, and the topology becomes Rust-owned. |
| `Lifecycle.DeleteSelfIdempotent` | src/subclass.rs:304-309 | A second `delete_self` succeeds and leaves the heap exactly as it was. |
| `Lifecycle.SelfOwnedLifecycle` | src/subclass.rs:207-211 | The full sequence is: new, drop the handle, reach the object from a virtual call, `delete_self` twice, drop that call's handle. At the end the object is dead, its peer is destroyed, and a weak holder yields `None`. |
| `Lifecycle.CppOwnedDeleteSelfOrphansPeer` | src/subclass.rs:304-309 | After `delete_self` on a C++-owned pair and dropping the handle, the object is dead. C++ still owns the peer, and the peer's `get` returns `None` without changing anything. |
| `Lifecycle.ReentrantBorrowPanics` | src/subclass.rs:215-219 | While a mutable borrow is outstanding, a virtual call that reaches the same object through its peer panics on `borrow_mut` and on `borrow`. |
| `Lifecycle.CallbackSeesMutation` | src/subclass.rs:171-184 | A write made through the returned handle is what a later virtual call, arriving through the peer, finds in the object. |
| `Lifecycle.DanglingPeerReachable` | src/subclass.rs:94-100 | In the C++-owned topology, a Rust handle kept past the peer's destruction leaves the object alive, while its holder names the destroyed peer. `delete_self` then reports `DanglingPeer`. |
| `Lifecycle.NestedSharedBorrows` | src/subclass.rs:173-174 | Two shared borrows through a handle can be open together, and `borrow_mut` panics while they are. Ending both restores the heap exactly. |

## Left out

- The `Pin` and `unsafe` pointer conversions, and address stability (src/subclass.rs:89-91, 98, 105-107). Peers are stable ids.
- The cxx `UniquePtr`/`UniquePtrTarget` FFI. The generated C++ bodies of `make_peer` and of the peer's `relinquish_ownership` are foreign code. They are the assumptions `CppSubclass.MakePeer` and `CppSubclass.PeerRelinquish`. A hand-written `make_peer` that does more than create a peer storing the holder is not modelled.
- The macro re-exports and the prelude (src/subclass.rs:26-41). They generate code and contain no ownership logic.
- The `peer_holder` and `peer_holder_mut` accessors (src/subclass.rs:242, 247). They are plain field access, so they are the `peerHolder` field of `CppSubclass.Subclass`.
- Thread safety (src/subclass.rs:228-231). The model is sequential.
- Weak counts, and freeing the `Rc` allocation itself. Only strong counts decide whether a value is alive.
- C++ destructor side effects beyond dropping the peer's holder.
- User-defined virtual methods. A virtual call is modelled only as the peer's `get` plus a `RefCell` borrow.
- CppSubclass.DeleteSelf: requires the caller to hold a handle, because `&self` can only be reached through an `Rc`. So the final drop happens in `DropHandle`, never inside `delete_self`.
- CppSubclass.Peer: takes the object's value. It does not model the shared or mutable borrow of `self` that `peer()` and `peer_mut()` need in Rust.
- CppSubclass.DropHandle: does not check the borrow flag. So it also allows dropping the last `Rc` while a `RefCell` borrow is outstanding. Rust's borrow checker rules that out, because a `Ref` or `RefMut` guard borrows from the `Rc` it was taken through.
- CppSubclass.MakeOwningPeer: `me` stands for the user's fields only, and its peer holder is taken to be Empty. Callers that pass a `Self` whose holder is already set are not covered. Overwriting such a holder drops it, and an `Owned` holder destroys its peer; this is not modelled.
- CppSubclass.NewRustOwned: the same applies, because it passes `me` to `make_owning_peer` (src/subclass.rs:277).
- CppSubclass.NewSelfOwned: the same applies, because it passes `me` to `make_owning_peer` (src/subclass.rs:297).
- CppSubclass.NewCppOwned: the same applies. `me`'s peer holder is taken to be Empty, and dropping an overwritten holder is not modelled.
