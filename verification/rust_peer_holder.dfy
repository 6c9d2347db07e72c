/** `CppSubclassRustPeerHolder`: the field of a C++ peer that refers back to
    its Rust subclass object, either through a strong `Rc` (`Owned`) or
    through a `Weak` (`Unowned`). Both are handles into an `Rc` store. */
module RustPeerHolder {
  import opened Outcome
  import opened Rc

  datatype Holder = Owned(obj: ObjId) | Unowned(obj: ObjId)

  /** The holder can be used against the store: its allocation exists, and
      when it is an `Rc` it is one of that allocation's strong references,
      so the count is positive. */
  predicate Resolvable<T>(h: Holder, s: Store<T>) {
    h.obj in s && (h.Owned? ==> s[h.obj].strong > 0)
  }

  /** `get`: an `Owned` holder always yields its object (cloning the `Rc`); an
      `Unowned` holder yields it exactly while the object is alive
      (`Weak::upgrade`). A yielded handle is one more strong reference. */
  function Get<T>(h: Holder, s: Store<T>): (r: (Store<T>, Option<ObjId>))
    requires Resolvable(h, s)
    ensures h.Owned? ==> r.1 == Some(h.obj)
    ensures h.Unowned? ==> (r.1.Some? <==> Alive(s, h.obj))
    ensures r.1.Some? ==> r.1.value == h.obj && r.0 == Clone(s, h.obj)
    ensures r.1.None? ==> r.0 == s
  {
    match h
    case Owned(o) => (Clone(s, o), Some(o))
    case Unowned(o) => Upgrade(s, o)
  }

  /** `relinquish_ownership`: an `Owned` holder becomes `Unowned` of the same
      object, and the `Rc` it held is dropped (one strong reference fewer);
      an `Unowned` holder is returned as it is. */
  function RelinquishOwnership<T>(h: Holder, s: Store<T>): (r: (Holder, Store<T>))
    requires Resolvable(h, s)
    ensures r.0.Unowned? && r.0.obj == h.obj
    ensures h.Owned? ==> r.1 == Release(s, h.obj)
    ensures h.Unowned? ==> r.1 == s
  {
    match h
    case Owned(o) => (Unowned(o), Release(s, o))
    case Unowned(_) => (h, s)
  }

  /** Relinquishing twice is relinquishing once: the second call finds a weak
      holder and changes neither the holder nor any count. */
  lemma RelinquishIdempotent<T>(h: Holder, s: Store<T>)
    requires Resolvable(h, s)
    ensures Resolvable(RelinquishOwnership(h, s).0, RelinquishOwnership(h, s).1)
    ensures var (h1, s1) := RelinquishOwnership(h, s);
            RelinquishOwnership(h1, s1) == (h1, s1)
  {
  }

  /** Relinquishing keeps the identity: the weak holder still resolves to the
      original object while it is alive, and to nothing once its last strong
      reference is gone. */
  lemma RelinquishThenGet<T>(h: Holder, s: Store<T>)
    requires Resolvable(h, s)
    ensures var (h1, s1) := RelinquishOwnership(h, s);
            Resolvable(h1, s1) &&
            (Get(h1, s1).1 == Some(h.obj) <==> Alive(s1, h.obj)) &&
            (Get(h1, s1).1 == None <==> !Alive(s1, h.obj))
  {
  }
}
