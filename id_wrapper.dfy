/**
 * IdWrapper (c10/util/IdWrapper.h): a type-safe wrapper around an id that offers only
 * equality and hashing.
 */
module IdWrappers {

  datatype IdWrapper<U> = IdWrapper(id: U)

  /** The constructor. */
  function Wrap<U>(id: U): (w: IdWrapper<U>)
    ensures UnderlyingId(w) == id
  {
    IdWrapper(id)
  }

  /** underlyingId */
  function UnderlyingId<U>(w: IdWrapper<U>): U
  {
    w.id
  }

  /** operator==: the wrapped ids are equal. */
  predicate Equal<U(==)>(a: IdWrapper<U>, b: IdWrapper<U>)
  {
    a.id == b.id
  }

  /** operator!= */
  predicate NotEqual<U(==)>(a: IdWrapper<U>, b: IdWrapper<U>)
  {
    !Equal(a, b)
  }

  /** hash_value: std::hash of the id, given as a parameter; the hash specialisation the macro defines calls it. */
  function HashValue<U>(hash: U -> nat, w: IdWrapper<U>): nat
  {
    hash(w.id)
  }

  /** Wrapping is injective: == holds exactly for wrappers of equal ids, and != is its negation. */
  lemma EqualIffSameId<U>(a: U, b: U)
    ensures Equal(Wrap(a), Wrap(b)) <==> a == b
    ensures NotEqual(Wrap(a), Wrap(b)) <==> a != b
  {
  }

  /** Equal wrappers hash equally. */
  lemma EqualWrappersHashEqually<U>(hash: U -> nat, a: IdWrapper<U>, b: IdWrapper<U>)
    requires Equal(a, b)
    ensures HashValue(hash, a) == HashValue(hash, b)
  {
  }
}
