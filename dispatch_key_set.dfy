/**
 * The DispatchKeySet helpers that OperatorEntry.cpp calls but whose definitions are not part
 * of this model (getRuntimeDispatchKeySet, isIncludedInAlias, getBackendKeySetFromAutograd,
 * autogradother_backends, isBackendDispatchKey, getAutogradKeyFromBackend,
 * getDispatchTableIndexForDispatchKey and the iteration of DispatchKeySet(FULL)).
 *
 * They are bundled in one value that callers pass in. Its well-formedness predicate holds
 * only the facts the operator-entry code relies on. A key set is a finite set of keys,
 * and `has` is membership.
 */
module DispatchKeySets {
  import opened DispatchKeys

  datatype KeySets = KeySets(
    /** getRuntimeDispatchKeySet(k): the runtime keys a registration to k applies to. */
    runtimeKeySet: DispatchKey -> set<DispatchKey>,
    /** isIncludedInAlias(k, alias) */
    includedInAlias: (DispatchKey, DispatchKey) -> bool,
    /** getBackendKeySetFromAutograd(k) */
    backendKeySetFromAutograd: DispatchKey -> set<DispatchKey>,
    /** autogradother_backends */
    autogradOtherBackends: set<DispatchKey>,
    /** isBackendDispatchKey(k) */
    isBackendDispatchKey: DispatchKey -> bool,
    /** getAutogradKeyFromBackend(b) */
    autogradKeyFromBackend: BackendComponent -> DispatchKey,
    /** getDispatchTableIndexForDispatchKey(k): a slot of the table, or -1 */
    tableIndex: DispatchKey -> int,
    /** the keys DispatchKeySet(FULL) iterates over (Undefined is not among them) */
    full: set<DispatchKey>)
  {
    /** The keys that own a slot in the dispatch table: Undefined plus every key of FULL. */
    function TableKeys(): set<DispatchKey>
    {
      full + {Undefined}
    }

    /** Every index is -1 or a slot of the num_runtime_entries-long table. */
    ghost predicate IndicesInRange()
    {
      forall k: DispatchKey :: tableIndex(k) == -1 || 0 <= tableIndex(k) < NumRuntimeEntries()
    }

    /** Distinct table keys never share a slot. */
    ghost predicate IndicesInjective()
    {
      forall j1, j2 ::
        j1 in TableKeys() && j2 in TableKeys() && tableIndex(j1) == tableIndex(j2) != -1 ==> j1 == j2
    }

    /** The iterated sets only hold keys of FULL, and a key of FULL refreshes at least itself. */
    ghost predicate SetsWithinFull()
    {
      && Undefined !in full
      && (forall k: DispatchKey :: runtimeKeySet(k) <= full)
      && (forall b: BackendComponent :: autogradKeyFromBackend(b) in full)
      && (forall k :: k in full ==> k in runtimeKeySet(k))
    }

    /**
     * The alias helpers: FULL holds no alias key (an alias is not representable in a key set),
     * no alias is a backend key, and isIncludedInAlias(k, alias) is membership of k in the
     * runtime key set of the alias.
     */
    ghost predicate AliasesConsistent()
    {
      && (forall k :: k in full ==> !IsAliasDispatchKey(k))
      && (forall k: DispatchKey :: IsAliasDispatchKey(k) ==> !isBackendDispatchKey(k))
      && (forall k, alias :: includedInAlias(k, alias) ==> k in runtimeKeySet(alias))
    }

    /**
     * The backend helpers: every key in the backend set of an autograd key is a backend key of
     * FULL whose autograd key is that autograd key, and every autogradother backend is a backend
     * key of FULL whose autograd key is AutogradOther.
     */
    ghost predicate BackendsConsistent()
    {
      && (forall j, x :: x in backendKeySetFromAutograd(j) ==>
            x in full && isBackendDispatchKey(x) && autogradKeyFromBackend(ToBackendComponent(x)) == j)
      && (forall x :: x in autogradOtherBackends ==>
            x in full && isBackendDispatchKey(x) && autogradKeyFromBackend(ToBackendComponent(x)) == AutogradOther)
    }

    ghost predicate Valid()
    {
      IndicesInRange() && IndicesInjective() && SetsWithinFull() && AliasesConsistent() && BackendsConsistent()
    }

    /** The table slots written for a set of keys. */
    ghost function Slots(keys: set<DispatchKey>): set<int>
    {
      set k | k in keys && tableIndex(k) != -1 :: tableIndex(k)
    }
  }
}
