/** The optionally owning handle (maybeowner.h): it always refers to an object and may also own
    it. The handled type is represented by `Item`, whose clone is a fresh copy. */
module MaybeOwners {
  import opened Wrappers

  /** An object that can be cloned; `payload` stands for its contents. */
  class Item {
    var payload: int

    constructor (payload: int)
      ensures this.payload == payload
    {
      this.payload := payload;
    }

    /** A fresh object with the same contents. */
    method Clone() returns (c: Item)
      ensures fresh(c) && c.payload == payload
    {
      c := new Item(payload);
    }
  }

  class MaybeOwner {
    /** m_owned: the owned object, if any. */
    var owned: Option<Item>
    /** m_ref: the object referred to, returned by get() and the conversion to a reference. */
    var ref: Item

    /** An owned object is the one referred to. */
    ghost predicate Valid()
      reads this
    {
      owned.Some? ==> owned.value == ref
    }

    /** owns(): whether the handle owns an object. */
    predicate Owns()
      reads this
    {
      owned.Some?
    }

    /** From a unique_ptr: the handle owns the object and refers to it. */
    constructor Own(own: Item)
      ensures owned == Some(own) && ref == own && Valid()
    {
      owned := Some(own);
      ref := own;
    }

    /** From a reference: the handle refers to the object without owning it. */
    constructor Borrow(reference: Item)
      ensures owned == None && ref == reference && Valid()
    {
      owned := None;
      ref := reference;
    }

    /** release: the owned object is handed out; the handle keeps referring to it. */
    method Release() returns (r: Item)
      requires Owns()
      modifies this`owned
      ensures r == old(owned).value && owned == None && !Owns()
      ensures old(Valid()) ==> r == ref
    {
      r := owned.value;
      owned := None;
    }

    /** capture_by_copy: the handle owns a fresh clone of the object it referred to and now
        refers to that clone. */
    method CaptureByCopy() returns (r: Item)
      modifies this`owned, this`ref
      ensures fresh(r) && r.payload == old(ref.payload)
      ensures owned == Some(r) && ref == r && Valid()
    {
      var c := ref.Clone();
      owned := Some(c);
      ref := c;
      r := ref;
    }

    /** capture: a handle that does not own the object it refers to takes ownership of it. */
    method Capture(own: Item) returns (r: Item)
      requires !Owns() && ref == own
      modifies this`owned
      ensures owned == Some(own) && Owns() && Valid() && r == ref
    {
      owned := Some(own);
      r := ref;
    }
  }
}
