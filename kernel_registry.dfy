/**
 * The per-operator registry `kernels_` of OperatorEntry
 * (aten/src/ATen/core/dispatch/OperatorEntry.cpp): for each dispatch key, the list of
 * annotated kernels registered to it, newest first. The front of a list is the active
 * kernel; the others are inactive until the ones in front of them are deregistered.
 */
module KernelRegistry {
  import opened Wrappers
  import opened DispatchKeys

  /** A function schema, compared only through the schema-difference predicate callers supply. */
  type Schema = nat
  /** A C++ call signature, compared by equality. */
  type CppSignature = nat
  /** The handle registerKernel returns and deregisterKernel_ takes back (an iterator in the source). */
  type RegistrationId = nat

  /** A KernelFunction, reduced to the distinctions the dispatcher makes. */
  datatype Kernel = Missing | Valid(id: nat) | Fallthrough(id: nat) | AmbiguousAutogradOther
  {
    /** isValid: a kernel with a function to call; only the default-constructed kernel is not. */
    predicate IsValid() { !Missing? }
    /** isFallthrough */
    predicate IsFallthrough() { Fallthrough? }
  }

  datatype AnnotatedKernel = AnnotatedKernel(kernel: Kernel, inferredSchema: Option<Schema>, debug: string)

  /** One element of a key's kernel list, with the handle that identifies it. */
  datatype Registration = Registration(id: RegistrationId, annotated: AnnotatedKernel)

  type Registry = map<DispatchKey, seq<Registration>>

  /** The static missingKernel(): a default-constructed, invalid kernel. */
  const MissingKernel: AnnotatedKernel := AnnotatedKernel(Missing, None, "")

  /** The static ambiguousAutogradOtherKernel(). */
  const AmbiguousAutogradOtherKernel: AnnotatedKernel :=
    AnnotatedKernel(AmbiguousAutogradOther, None, "ambiguous_autogradother")

  /**
   * The shape of the registry: Undefined has no list and no list is empty, as checkInvariants
   * asserts; and every registered kernel is valid. The lookup asserts validity only of the
   * front kernel, but any kernel can reach the front once the ones before it are deregistered,
   * so registration demands a valid kernel and the whole registry keeps it.
   */
  ghost predicate WellFormed(kernels: Registry)
  {
    && Undefined !in kernels
    && (forall k :: k in kernels ==> |kernels[k]| > 0)
    && (forall k, i :: k in kernels && 0 <= i < |kernels[k]| ==> kernels[k][i].annotated.kernel.IsValid())
  }

  /** Every handle in the registry was issued before `next`. */
  ghost predicate IdsBelow(kernels: Registry, next: nat)
  {
    forall k, i :: k in kernels && 0 <= i < |kernels[k]| ==> kernels[k][i].id < next
  }

  /**
   * No two list elements carry the same handle: a handle names one element of one list, as the
   * iterator registerKernel returns does.
   */
  ghost predicate IdsDistinct(kernels: Registry)
  {
    forall k1, i1, k2, i2 ::
      (&& k1 in kernels && k2 in kernels && 0 <= i1 < |kernels[k1]| && 0 <= i2 < |kernels[k2]|
       && kernels[k1][i1].id == kernels[k2][i2].id)
      ==> k1 == k2 && i1 == i2
  }

  // ---------------------------------------------------------------------------
  // Lookups

  /** getKernelForDispatchKey: the active (front) kernel of k, if k has a list. */
  function GetKernelForDispatchKey(kernels: Registry, k: DispatchKey): (r: Option<AnnotatedKernel>)
    requires WellFormed(kernels)
    ensures r.Some? <==> k in kernels
    ensures r.Some? ==> r.value == kernels[k][0].annotated && r.value.kernel.IsValid()
  {
    if k in kernels then Some(kernels[k][0].annotated) else None
  }

  /** hasKernelForDispatchKey */
  predicate HasKernelForDispatchKey(kernels: Registry, k: DispatchKey)
    requires Undefined !in kernels
  {
    k in kernels
  }

  /** hasKernelForAnyDispatchKey: some non-alias key of the set has a list. */
  predicate HasKernelForAnyDispatchKey(kernels: Registry, ks: set<DispatchKey>)
    requires Undefined !in kernels
  {
    exists k :: k in kernels && !IsAliasDispatchKey(k) && k in ks
  }

  // ---------------------------------------------------------------------------
  // Updates of the lists

  /** kernels_[key].emplace_front(reg), creating the list when key has none. */
  function PushKernel(kernels: Registry, key: DispatchKey, reg: Registration): (r: Registry)
    ensures r.Keys == kernels.Keys + {key}
    ensures r[key] == [reg] + (if key in kernels then kernels[key] else [])
    ensures forall k :: k in kernels && k != key ==> r[k] == kernels[k]
  {
    kernels[key := [reg] + (if key in kernels then kernels[key] else [])]
  }

  /** Whether a handle occurs in a list. */
  predicate HasId(list: seq<Registration>, id: RegistrationId)
  {
    exists i :: 0 <= i < |list| && list[i].id == id
  }

  /** list.erase(it): the list without the first element carrying the handle. */
  function RemoveRegistration(list: seq<Registration>, id: RegistrationId): (r: seq<Registration>)
    ensures |r| <= |list|
  {
    if list == [] then []
    else if list[0].id == id then list[1..]
    else [list[0]] + RemoveRegistration(list[1..], id)
  }

  /**
   * deregisterKernel_ on the registry: erase the entry carrying the handle from key's list,
   * and erase the key when its list becomes empty.
   */
  function EraseKernel(kernels: Registry, key: DispatchKey, id: RegistrationId): (r: Registry)
    requires key in kernels
    ensures forall k :: k != key ==> (k in r <==> k in kernels)
    ensures forall k :: k in kernels && k != key ==> r[k] == kernels[k]
    ensures key in r <==> RemoveRegistration(kernels[key], id) != []
    ensures key in r ==> r[key] == RemoveRegistration(kernels[key], id)
  {
    var list := RemoveRegistration(kernels[key], id);
    if list == [] then kernels - {key} else kernels[key := list]
  }

  // ---------------------------------------------------------------------------
  // Properties

  /** Erasing the handle at its first position i removes exactly that element. */
  lemma {:induction false} RemoveRegistrationAt(list: seq<Registration>, id: RegistrationId, i: nat)
    requires i < |list| && list[i].id == id
    requires forall j :: 0 <= j < i ==> list[j].id != id
    ensures RemoveRegistration(list, id) == list[..i] + list[i + 1..]
  {
    if i > 0 {
      RemoveRegistrationAt(list[1..], id, i - 1);
      assert list[..i] == [list[0]] + list[1..][..i - 1];
    }
  }

  /** Erasing a handle the list does not hold leaves it unchanged. */
  lemma {:induction false} RemoveAbsentRegistration(list: seq<Registration>, id: RegistrationId)
    requires !HasId(list, id)
    ensures RemoveRegistration(list, id) == list
  {
    if list != [] {
      assert list[0].id != id;
      RemoveAbsentRegistration(list[1..], id);
    }
  }

  /** Erasing never adds an element. */
  lemma {:induction false} RemoveRegistrationSubset(list: seq<Registration>, id: RegistrationId)
    ensures multiset(RemoveRegistration(list, id)) <= multiset(list)
  {
    if list != [] {
      RemoveRegistrationSubset(list[1..], id);
      assert list == [list[0]] + list[1..];
    }
  }

  /** Registering puts the new kernel in front: it becomes the active kernel of its key, nothing else changes. */
  lemma PushMakesNewestActive(kernels: Registry, key: DispatchKey, reg: Registration, k: DispatchKey)
    requires WellFormed(kernels)
    requires key != Undefined && reg.annotated.kernel.IsValid()
    ensures WellFormed(PushKernel(kernels, key, reg))
    ensures GetKernelForDispatchKey(PushKernel(kernels, key, reg), key) == Some(reg.annotated)
    ensures k != key ==> GetKernelForDispatchKey(PushKernel(kernels, key, reg), k) == GetKernelForDispatchKey(kernels, k)
  {
  }

  /** Erasing keeps the registry well formed: no list becomes empty, Undefined gets no list. */
  lemma {:induction false} EraseKeepsWellFormed(kernels: Registry, key: DispatchKey, id: RegistrationId)
    requires WellFormed(kernels) && key in kernels
    ensures WellFormed(EraseKernel(kernels, key, id))
  {
    var list: seq<Registration> := kernels[key];
    var r: Registry := EraseKernel(kernels, key, id);
    if key in r {
      forall i | 0 <= i < |r[key]| ensures r[key][i].annotated.kernel.IsValid() {
        RemoveRegistrationSubset(list, id);
        assert r[key][i] in multiset(list);
      }
    }
  }

  /** Handles issued from a counter stay below it. */
  lemma PushKeepsIdsBelow(kernels: Registry, key: DispatchKey, annotated: AnnotatedKernel, next: nat)
    requires IdsBelow(kernels, next)
    ensures IdsBelow(PushKernel(kernels, key, Registration(next, annotated)), next + 1)
  {
  }

  lemma {:induction false} EraseKeepsIdsBelow(kernels: Registry, key: DispatchKey, id: RegistrationId, next: nat)
    requires IdsBelow(kernels, next) && key in kernels
    ensures IdsBelow(EraseKernel(kernels, key, id), next)
  {
    var list: seq<Registration> := kernels[key];
    var r: Registry := EraseKernel(kernels, key, id);
    if key in r {
      forall i | 0 <= i < |r[key]| ensures r[key][i].id < next {
        RemoveRegistrationSubset(list, id);
        assert r[key][i] in multiset(list);
      }
    }
  }

  /** A registration under a handle from the counter keeps handles distinct. */
  lemma PushKeepsIdsDistinct(kernels: Registry, key: DispatchKey, annotated: AnnotatedKernel, next: nat)
    requires IdsBelow(kernels, next) && IdsDistinct(kernels)
    ensures IdsDistinct(PushKernel(kernels, key, Registration(next, annotated)))
  {
    var r: Registry := PushKernel(kernels, key, Registration(next, annotated));
    // every element but the new front is an element of the original registry, with a handle below next
    assert forall k, i :: k in r && 0 <= i < |r[k]| && (k != key || i > 0) ==>
      && k in kernels && r[k][i] == kernels[k][if k == key then i - 1 else i]
      && r[k][i].id < next;
  }

  /** With distinct handles, erasing a handle removes exactly the element at its position i. */
  lemma EraseRemovesThatRegistration(kernels: Registry, key: DispatchKey, id: RegistrationId, i: nat)
    requires IdsDistinct(kernels) && key in kernels
    requires i < |kernels[key]| && kernels[key][i].id == id
    ensures RemoveRegistration(kernels[key], id) == kernels[key][..i] + kernels[key][i + 1..]
  {
    RemoveRegistrationAt(kernels[key], id, i);
  }

  /** Deregistration keeps handles distinct. */
  lemma EraseKeepsIdsDistinct(kernels: Registry, key: DispatchKey, id: RegistrationId)
    requires IdsDistinct(kernels) && key in kernels
    ensures IdsDistinct(EraseKernel(kernels, key, id))
  {
    var list: seq<Registration> := kernels[key];
    var r: Registry := EraseKernel(kernels, key, id);
    if !HasId(list, id) {
      RemoveAbsentRegistration(list, id);
      assert r == kernels || r == kernels - {key};
    } else {
      var i :| 0 <= i < |list| && list[i].id == id;
      EraseRemovesThatRegistration(kernels, key, id, i);
      // position p of the erased list is position Old(p) of the original one
      forall k1, i1, k2, i2 |
        k1 in r && k2 in r && 0 <= i1 < |r[k1]| && 0 <= i2 < |r[k2]| && r[k1][i1].id == r[k2][i2].id
        ensures k1 == k2 && i1 == i2
      {
        var j1 := if k1 == key && i1 >= i then i1 + 1 else i1;
        var j2 := if k2 == key && i2 >= i then i2 + 1 else i2;
        assert r[k1][i1] == kernels[k1][j1] && r[k2][i2] == kernels[k2][j2];
      }
    }
  }

  /**
   * Registering a kernel under a fresh handle and then deregistering that handle restores
   * the registry exactly, including the removal of a list the registration had created.
   */
  lemma {:induction false} RegisterThenDeregisterRestores(kernels: Registry, key: DispatchKey, annotated: AnnotatedKernel, next: nat)
    requires WellFormed(kernels) && IdsBelow(kernels, next)
    ensures EraseKernel(PushKernel(kernels, key, Registration(next, annotated)), key, next) == kernels
  {
    var pushed: Registry := PushKernel(kernels, key, Registration(next, annotated));
    var old_list := if key in kernels then kernels[key] else [];
    assert pushed[key][1..] == old_list;
    assert RemoveRegistration(pushed[key], next) == old_list;
    var r: Registry := EraseKernel(pushed, key, next);
    assert r.Keys == kernels.Keys;
  }
}
