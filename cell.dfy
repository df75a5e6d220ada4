/**
 * The erased storage cell (`src/libresult.cpp`): `ResultBase` owns one small
 * `Impl` object whose only field is the untyped pointer to the payload of a
 * `Result` node. The cell never looks at, copies or releases what the pointer
 * designates; that is left to the variant that stored it.
 *
 * The pointer type is the type parameter `H`: the cell is written once and
 * works for every handle type, which is what the type erasure buys.
 */
module Cell {

  /** `ResultBase::Impl`: one mutable slot holding the handle. */
  class Impl<H> {
    var v: H

    /** `new Impl` followed by `set(v)`. */
    constructor (v: H)
      ensures Unwrap() == v
    {
      this.v := v;
    }

    /** `Impl::unwrap`: a pure read of the slot, which gives back the handle last stored. */
    function Unwrap(): (h: H)
      reads this
      ensures h == v
    {
      v
    }

    /** `Impl::set`: overwrite the slot; the old handle is not released. */
    method Set(v: H)
      modifies this
      ensures Unwrap() == v
    {
      this.v := v;
    }
  }

  /** `ResultBase`: the part of every node that owns the `Impl` cell. */
  class ResultBase<H> {
    const pimpl: Impl<H>

    constructor (v: H)
      ensures fresh(pimpl)
      ensures Unwrap() == v
    {
      pimpl := new Impl(v);
    }

    /** `ResultBase::unwrap`: the stored handle, read through the cell and nowhere else. */
    function Unwrap(): (h: H)
      reads pimpl
      ensures h == pimpl.v
    {
      pimpl.Unwrap()
    }

    /** `ResultBase::set`: only the cell changes. */
    method Set(v: H)
      modifies pimpl
      ensures Unwrap() == v
    {
      pimpl.Set(v);
    }

    /**
     * `~ResultBase`: the objects it deletes, in order. Only the cell goes;
     * the handle inside it is not followed.
     */
    method Destroy() returns (freed: seq<object>)
      ensures freed == [pimpl]
    {
      freed := [pimpl];
    }
  }
}
