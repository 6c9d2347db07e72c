/** An abstract heap of `Rc<RefCell<T>>` allocations. Each allocation has an
    identity, a strong count and a `RefCell` borrow flag. `Rc::clone`,
    `Weak::upgrade` and dropping an `Rc` are explicit updates of the strong
    count; an allocation whose strong count is 0 has had its value dropped,
    and no `Weak` can upgrade to it any more. Weak counts are not tracked:
    they never decide whether a value is alive. */
module Rc {
  import opened Outcome

  type ObjId = nat

  /** A count that is at least one. */
  type Positive = n: int | n >= 1 witness 1

  /** The borrow state of a `RefCell`: no borrow, `readers` shared borrows
      (at least one, since the last reader leaving frees the cell), or one
      mutable borrow. */
  datatype BorrowFlag = Unborrowed | Reading(readers: Positive) | Writing

  /** One `Rc<RefCell<T>>` allocation. */
  datatype RcBox<T> = RcBox(strong: nat, borrow: BorrowFlag, value: T)

  type Store<T> = map<ObjId, RcBox<T>>

  /** The allocation exists and its value has not been dropped. */
  predicate Alive<T>(s: Store<T>, o: ObjId) {
    o in s && s[o].strong > 0
  }

  /** `Rc::new(RefCell::new(v))` at the fresh identity `o`: one strong
      reference, no borrow, nothing else in the store changes. */
  function New<T>(s: Store<T>, o: ObjId, v: T): (s': Store<T>)
    requires o !in s
    ensures Alive(s', o) && s'[o].strong == 1
    ensures s'[o].borrow == Unborrowed && s'[o].value == v
    ensures s'.Keys == s.Keys + {o}
    ensures forall x :: x in s ==> s'[x] == s[x]
  {
    s[o := RcBox(1, Unborrowed, v)]
  }

  /** `Rc::clone`: one more strong reference to a live allocation. */
  function Clone<T>(s: Store<T>, o: ObjId): (s': Store<T>)
    requires Alive(s, o)
    ensures s'.Keys == s.Keys
    ensures s'[o].strong == s[o].strong + 1
    ensures s'[o].borrow == s[o].borrow && s'[o].value == s[o].value
    ensures forall x :: x in s && x != o ==> s'[x] == s[x]
  {
    s[o := s[o].(strong := s[o].strong + 1)]
  }

  /** Dropping one `Rc`: one strong reference fewer. When the count reaches
      0 the value is dropped; what that destroys is up to the caller. */
  function Release<T>(s: Store<T>, o: ObjId): (s': Store<T>)
    requires Alive(s, o)
    ensures s'.Keys == s.Keys
    ensures s'[o].strong + 1 == s[o].strong
    ensures s'[o].borrow == s[o].borrow && s'[o].value == s[o].value
    ensures forall x :: x in s && x != o ==> s'[x] == s[x]
  {
    s[o := s[o].(strong := s[o].strong - 1)]
  }

  /** `Weak::upgrade`: a new strong reference when the value is still alive,
      `None` (and no change) once it has been dropped. */
  function Upgrade<T>(s: Store<T>, o: ObjId): (r: (Store<T>, Option<ObjId>))
    requires o in s
    ensures r.1.Some? <==> Alive(s, o)
    ensures r.1.Some? ==> r.1.value == o && r.0 == Clone(s, o)
    ensures r.1.None? ==> r.0 == s
  {
    if s[o].strong > 0 then (Clone(s, o), Some(o)) else (s, None)
  }

  /** `RefCell::borrow_mut`: succeeds only when no borrow at all is
      outstanding, and then marks the cell as mutably borrowed; otherwise it
      panics. */
  function TryBorrowMut<T>(s: Store<T>, o: ObjId): (r: Result<Store<T>>)
    requires o in s
    ensures r.Success? <==> s[o].borrow == Unborrowed
    ensures r.Failure? ==> r.fault == AlreadyBorrowed
    ensures r.Success? ==> r.value == s[o := s[o].(borrow := Writing)]
  {
    if s[o].borrow == Unborrowed then Success(s[o := s[o].(borrow := Writing)])
    else Failure(AlreadyBorrowed)
  }

  /** Dropping the `RefMut` guard: the cell is free again; its count, its
      value and every other allocation are untouched. */
  function EndBorrowMut<T>(s: Store<T>, o: ObjId): (s': Store<T>)
    requires o in s && s[o].borrow == Writing
    ensures s'.Keys == s.Keys
    ensures s'[o].borrow == Unborrowed
    ensures s'[o].strong == s[o].strong && s'[o].value == s[o].value
    ensures forall x :: x in s && x != o ==> s'[x] == s[x]
  {
    s[o := s[o].(borrow := Unborrowed)]
  }

  /** The number of outstanding shared borrows a flag records. */
  function Readers(b: BorrowFlag): nat {
    if b.Reading? then b.readers else 0
  }

  /** `RefCell::borrow`: succeeds unless a mutable borrow is outstanding, and
      then counts exactly one more reader; nothing else changes. */
  function TryBorrow<T>(s: Store<T>, o: ObjId): (r: Result<Store<T>>)
    requires o in s
    ensures r.Success? <==> s[o].borrow != Writing
    ensures r.Failure? ==> r.fault == AlreadyMutablyBorrowed
    ensures r.Success? ==> r.value.Keys == s.Keys
    ensures r.Success? ==> r.value[o].borrow == Reading(Readers(s[o].borrow) + 1)
    ensures r.Success? ==> r.value == s[o := s[o].(borrow := r.value[o].borrow)]
  {
    match s[o].borrow
    case Writing => Failure(AlreadyMutablyBorrowed)
    case Unborrowed => Success(s[o := s[o].(borrow := Reading(1))])
    case Reading(n) => Success(s[o := s[o].(borrow := Reading(n + 1))])
  }

  /** Dropping one `Ref` guard: one reader fewer, and the cell is free again
      once the last reader is gone. */
  function EndBorrow<T>(s: Store<T>, o: ObjId): (s': Store<T>)
    requires o in s && s[o].borrow.Reading?
    ensures s'.Keys == s.Keys
    ensures s'[o].borrow != Writing
    ensures Readers(s'[o].borrow) + 1 == Readers(s[o].borrow)
    ensures s'[o].borrow == Unborrowed <==> s[o].borrow.readers == 1
    ensures s' == s[o := s'[o]] && s'[o].strong == s[o].strong && s'[o].value == s[o].value
  {
    var n := s[o].borrow.readers;
    s[o := s[o].(borrow := if n <= 1 then Unborrowed else Reading(n - 1))]
  }

  /** Cloning an `Rc` and dropping the clone leaves the store as it was. */
  lemma CloneReleaseRoundTrip<T>(s: Store<T>, o: ObjId)
    requires Alive(s, o)
    ensures Release(Clone(s, o), o) == s
  {
    assert Release(Clone(s, o), o)[o] == s[o];
  }

  /** A mutable borrow excludes every other borrow until it ends, and ending
      it makes the cell borrowable again. */
  lemma MutableBorrowIsExclusive<T>(s: Store<T>, o: ObjId)
    requires o in s && TryBorrowMut(s, o).Success?
    ensures TryBorrowMut(TryBorrowMut(s, o).value, o) == Failure(AlreadyBorrowed)
    ensures TryBorrow(TryBorrowMut(s, o).value, o) == Failure(AlreadyMutablyBorrowed)
    ensures EndBorrowMut(TryBorrowMut(s, o).value, o) == s
  {
    var s1 := TryBorrowMut(s, o).value;
    assert EndBorrowMut(s1, o)[o] == s[o];
  }

  /** While a shared borrow is outstanding, `borrow_mut` panics, but further
      shared borrows succeed. */
  lemma SharedBorrowExcludesMutable<T>(s: Store<T>, o: ObjId)
    requires o in s && TryBorrow(s, o).Success?
    ensures TryBorrowMut(TryBorrow(s, o).value, o) == Failure(AlreadyBorrowed)
    ensures TryBorrow(TryBorrow(s, o).value, o).Success?
  {
  }

  /** A shared borrow that ends leaves the cell as it was, whether it was
      free or already shared. */
  lemma BorrowEndBorrowRoundTrip<T>(s: Store<T>, o: ObjId)
    requires o in s && s[o].borrow != Writing
    ensures EndBorrow(TryBorrow(s, o).value, o) == s
  {
    var s1 := TryBorrow(s, o).value;
    assert EndBorrow(s1, o)[o] == s[o];
  }
}
