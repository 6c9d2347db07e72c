/** `CppSubclassCppPeerHolder`: the field of a Rust subclass object that
    refers to its C++ peer. A peer is a stable identity here; where the Rust
    code pins a boxed `UniquePtr` or keeps a raw pointer, the model keeps the
    peer's identity and records which of the two it is. */
module CppPeerHolder {
  import opened Outcome

  type PeerId = nat

  /** `Empty` before the peer is made, `Owned` when this object owns the peer
      through a boxed `UniquePtr`, `Unowned` when it only keeps a raw pointer
      to a peer owned elsewhere in C++. */
  datatype Holder = Empty | Owned(peer: PeerId) | Unowned(peer: PeerId)

  /** `Default::default()`: a holder starts out Empty. */
  function Default(): (h: Holder)
    ensures Get(h) == Failure(PeerNotSetUp)
  {
    Empty
  }

  /** `pin_mut`: the peer for mutation. An Empty holder panics. */
  function PinMut(h: Holder): (r: Result<PeerId>)
    ensures r.Success? <==> !h.Empty?
    ensures r.Failure? ==> r.fault == PeerNotSetUp
    ensures r.Success? ==> r.value == h.peer
  {
    match h
    case Empty => Failure(PeerNotSetUp)
    case Owned(p) => Success(p)
    case Unowned(p) => Success(p)
  }

  /** `get`: the peer for reading. An Empty holder panics. */
  function Get(h: Holder): (r: Result<PeerId>)
    ensures r.Success? <==> !h.Empty?
    ensures r.Failure? ==> r.fault == PeerNotSetUp
    ensures r.Success? ==> r.value == h.peer
  {
    match h
    case Empty => Failure(PeerNotSetUp)
    case Owned(p) => Success(p)
    case Unowned(p) => Success(p)
  }

  /** `set_owned`: the holder now owns `p`, whatever it held before (there is
      no check that it was Empty). */
  function SetOwned(h: Holder, p: PeerId): (h': Holder)
    ensures Get(h') == Success(p) && PinMut(h') == Success(p)
    ensures h'.Owned?
  {
    Owned(p)
  }

  /** `set_unowned`: the holder now points at `p` without owning it, whatever
      it held before. */
  function SetUnowned(h: Holder, p: PeerId): (h': Holder)
    ensures Get(h') == Success(p) && PinMut(h') == Success(p)
    ensures h'.Unowned?
  {
    Unowned(p)
  }

  /** Reading and mutable access always agree on which peer is meant, and on
      whether the holder was set up at all. */
  lemma GetAgreesWithPinMut(h: Holder)
    ensures Get(h) == PinMut(h)
  {
  }

  /** The setters overwrite unconditionally: the prior state of the holder
      (Empty, or a peer already set) has no influence on the result. */
  lemma SettersOverwrite(h1: Holder, h2: Holder, p: PeerId)
    ensures SetOwned(h1, p) == SetOwned(h2, p)
    ensures SetUnowned(h1, p) == SetUnowned(h2, p)
    ensures SetOwned(h1, p) != SetUnowned(h2, p)
  {
  }
}
