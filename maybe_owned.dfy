/**
 * MaybeOwned<T> (c10/util/MaybeOwned.h): a smart pointer that either borrows a T living
 * elsewhere or owns a T of its own. The tag isBorrowed says which member of the union is
 * live; every operation keeps the tag and the live member in step.
 */
module MaybeOwnedPointers {

  /** A T that lives outside the MaybeOwned and can be borrowed from. */
  class Cell<T> {
    var value: T

    constructor(v: T)
      ensures value == v
    {
      value := v;
    }
  }

  /** The union: a borrow (a pointer, null for the default borrow) or an owned T. */
  datatype Payload<T> = Borrow(ref: Cell?<T>) | Own(value: T)

  class MaybeOwned<T> {
    var isBorrowed: bool
    var payload: Payload<T>

    /** The tag names the live member. */
    ghost predicate Valid()
      reads this
    {
      isBorrowed <==> payload.Borrow?
    }

    /** The borrow is usable: dereferencing a borrow needs a non-null pointer (a debug-only assert). */
    ghost predicate Dereferenceable()
      reads this
    {
      Valid() && (isBorrowed ==> payload.ref != null)
    }

    /** The public default constructor: a borrow of nothing. */
    constructor()
      ensures Valid() && isBorrowed && payload == Borrow(null)
    {
      isBorrowed := true;
      payload := Borrow(null);
    }

    /** borrowed(t): a borrow of t, which the caller keeps alive. */
    constructor Borrowed(t: Cell<T>)
      ensures Dereferenceable() && isBorrowed && payload.ref == t
    {
      isBorrowed := true;
      payload := Borrow(t);
    }

    /** owned(t): an owned copy of t. */
    constructor Owned(t: T)
      ensures Dereferenceable() && !isBorrowed && payload.value == t
    {
      isBorrowed := false;
      payload := Own(t);
    }

    /**
     * The copy constructor: a borrow stays a borrow of the same original, an owned value is
     * copied into a new owned value (no chains of borrows).
     */
    constructor Copy(rhs: MaybeOwned<T>)
      requires rhs.Valid()
      ensures Valid() && isBorrowed == rhs.isBorrowed && payload == rhs.payload
    {
      isBorrowed := rhs.isBorrowed;
      if rhs.isBorrowed {
        payload := Borrow(rhs.payload.ref);
      } else {
        payload := Own(rhs.payload.value);
      }
    }

    /** The move constructor: the same tag and the same borrow or owned value as rhs. */
    constructor Move(rhs: MaybeOwned<T>)
      requires rhs.Valid()
      ensures Valid() && isBorrowed == rhs.isBorrowed && payload == rhs.payload
    {
      isBorrowed := rhs.isBorrowed;
      if rhs.isBorrowed {
        payload := Borrow(rhs.payload.ref);
      } else {
        payload := Own(rhs.payload.value);
      }
    }

    /**
     * Copy assignment: self-assignment changes nothing; otherwise, whichever of the four
     * combinations of old and new tags applies, this ends with rhs's tag and rhs's member.
     */
    method Assign(rhs: MaybeOwned<T>)
      requires Valid() && rhs.Valid()
      modifies this
      ensures rhs == this ==> isBorrowed == old(isBorrowed) && payload == old(payload)
      ensures Valid() && isBorrowed == old(rhs.isBorrowed) && payload == old(rhs.payload)
    {
      if this == rhs {
        return;
      }
      if !isBorrowed {
        if rhs.isBorrowed {
          payload := Borrow(rhs.payload.ref);
          isBorrowed := true;
        } else {
          payload := Own(rhs.payload.value);
        }
      } else {
        if rhs.isBorrowed {
          payload := Borrow(rhs.payload.ref);
        } else {
          payload := Own(rhs.payload.value);
          isBorrowed := false;
        }
      }
    }

    /** Move assignment: the same four cases and the same outcome as copy assignment. */
    method MoveAssign(rhs: MaybeOwned<T>)
      requires Valid() && rhs.Valid()
      modifies this
      ensures rhs == this ==> isBorrowed == old(isBorrowed) && payload == old(payload)
      ensures Valid() && isBorrowed == old(rhs.isBorrowed) && payload == old(rhs.payload)
    {
      if this == rhs {
        return;
      }
      if !isBorrowed {
        if rhs.isBorrowed {
          payload := Borrow(rhs.payload.ref);
          isBorrowed := true;
        } else {
          payload := Own(rhs.payload.value);
        }
      } else {
        if rhs.isBorrowed {
          payload := Borrow(rhs.payload.ref);
        } else {
          payload := Own(rhs.payload.value);
          isBorrowed := false;
        }
      }
    }

    /** unsafeIsBorrowed */
    function UnsafeIsBorrowed(): (r: bool)
      reads this
      requires Valid()
      ensures r <==> payload.Borrow?
    {
      isBorrowed
    }

    /** operator* on an lvalue: the borrowed-from value, or the owned one. */
    function Deref(): (r: T)
      reads this, if payload.Borrow? then {payload.ref} else {}
      requires Dereferenceable()
      ensures payload.Borrow? ==> r == payload.ref.value
      ensures payload.Own? ==> r == payload.value
    {
      if isBorrowed then payload.ref.value else payload.value
    }

    /**
     * operator* on an rvalue: a copy of the borrowed-from value, or the owned value moved out.
     * The tag and the borrow are unchanged.
     */
    method TakeValue() returns (v: T)
      requires Dereferenceable()
      ensures v == Deref()
    {
      if isBorrowed {
        v := payload.ref.value;
      } else {
        v := payload.value;
      }
    }
  }
}
