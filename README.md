# PyTorch operator-dispatch bookkeeping, modelled in Dafny

This project models the core of PyTorch's per-operator dispatch state and the small helper
types around it:

- **Dispatch keys** (`dispatch_key.dfy`, module `DispatchKeys`). The `DispatchKey` and
  `BackendComponent` numberings are integers with named constants:
  - `Undefined`, then the functionality keys up to `EndOfFunctionalityKeys` (40);
  - five blocks of 15 per-backend runtime keys (Dense, Quantized, Sparse, NestedTensor, Autograd);
  - the four alias keys.

  The module also holds the constant maps between keys and their (functionality, backend)
  parts, and the counts `numPerBackendFunctionalityKeys` and `num_runtime_entries`.
- **The operator entry** (`kernel_registry.dfy`, `resolution.dfy`, `operator_entry.dfy`).
  - The registry `kernels_` maps each dispatch key to a non-empty list of annotated kernels.
    The newest kernel is at the front and is the active one.
  - `computeDispatchTableEntryWithDebug` is the fixed precedence that resolves a runtime key
    from the registry and the backend fallbacks.
  - `OperatorEntry` is a class holding the schema, the first C++ signature, the registry, a
    dispatch table (an array with one slot per runtime entry) and the fallthrough flags.
  - Its methods register and deregister schemas and kernels. They refresh the table slot by
    slot, key set by key set, or in full, and they check the table against a fresh resolution.
- **Helpers**:
  - `MaybeOwned` (`maybe_owned.dfy`): a borrowed-or-owned tagged union with copy and move rules.
  - `StorageImpl` (`storage_impl.dfy`): a mutable record whose invariant is "resizable ⇒ has an
    allocator".
  - `IterArgs` (`variadic.dfy`): an ordered visitor that stops after the first visit that
    makes `short_circuit()` true.
  - `Edge` (`edge.dfy`) and `IdWrapper` (`id_wrapper.dfy`): equality-and-hash wrappers.

The DispatchKeySet helpers that the operator entry calls are not part of this model. They are
`getRuntimeDispatchKeySet`, `isIncludedInAlias`, `getBackendKeySetFromAutograd`,
`autogradother_backends`, `isBackendDispatchKey`, `getAutogradKeyFromBackend`,
`getDispatchTableIndexForDispatchKey` and iteration over `DispatchKeySet(FULL)`.

Instead, they are the fields of a value `KeySets` (`dispatch_key_set.dfy`) that callers pass in.
`KeySets.Valid()` holds only what the operator entry relies on:
- an index is -1 or a slot of the 105-entry table;
- distinct table keys never share a slot;
- runtime key sets lie inside FULL;
- a key of FULL is in its own runtime set;
- FULL holds no alias key, and no alias is a backend key;
- `isIncludedInAlias(k, alias)` implies that k is in the runtime key set of the alias;
- every key in the backend set of an autograd key is a backend key of FULL whose autograd key is
  that autograd key, and every autogradother backend is a backend key of FULL whose autograd key
  is AutogradOther.

Two more things come in as parameters:
- the dispatcher's backend fallback array is a sequence of 105 annotated kernels;
- `findSchemaDifferences` is a predicate `differs`.

Internal asserts (`TORCH_INTERNAL_ASSERT`) become preconditions. User-facing checks
(`TORCH_CHECK`) become error results whose effect on the state is stated exactly.

The central property is `checkInvariants`: every slot of the dispatch table equals a fresh
resolution of its key. `OperatorEntry.Consistent` states it, together with the rule that a key
carries the fallthrough flag exactly when its slot holds a fallthrough kernel.
- The constructor and every catch-all registration do a full update, which establishes it
  unconditionally.
- `updateFallback` re-establishes it after a change to one fallback slot.
- A registration or deregistration at a key `k` refreshes only `RefreshedKeys(k)`.
  - `Resolution.Deps(j)` is the set of lists that the resolution of `j` reads. An alias list is in
    it only when the alias applies to `j`. The backend lists and the CompositeExplicitAutograd list
    read by `has_backend_kernel` are in it only once step 2.3 has found an implicit composite
    kernel.
  - `Resolution.RefreshCoversExactly` proves that every table key reading `k`'s list is refreshed,
    with one exception. The exception, `ExplicitAfterImplicit`, is a change to the
    CompositeExplicitAutograd list while a CompositeImplicitAutograd kernel is registered, when
    some key included in the implicit alias lies outside the explicit alias's runtime set.
  - So registration and deregistration keep the table consistent in every other case. This
    includes the Autograd alias, the other composite aliases, backend keys and catch-all
    deregistration.
  - In the exceptional case, `Resolution.ExplicitAfterImplicitLeavesStaleEntry` exhibits a stale
    entry (see Findings).

## Model

| member | source | states |
|---|---|---|
| DispatchKeys.ToBackendComponent | c10/core/DispatchKey.h:741-774 | a per-backend runtime key maps to its offset in its block (the same offset in every block); every other key maps to InvalidBit |
| DispatchKeys.ToFunctionalityKey | c10/core/DispatchKey.h:776-792 | identity up to EndOfFunctionalityKeys; a per-backend runtime key maps to the functionality owning its block; keys above the Autograd block (the aliases) map to Undefined |
| DispatchKeys.ToRuntimePerBackendFunctionalityKey | c10/core/DispatchKey.h:796-825 | Undefined for a functionality without per-backend keys; otherwise a per-backend runtime key from which toBackendComponent and toFunctionalityKey recover both arguments |
| DispatchKeys.IsAliasDispatchKey | c10/core/DispatchKey.h:634-636 | the range StartOfAliasKeys..EndOfAliasKeys is exactly Autograd and the three composite aliases, all numbered above every runtime key |
| DispatchKeys.IsPerBackendFunctionalityKey | c10/core/DispatchKey.h:656-664 | holds exactly for the functionalities owning the five per-backend blocks, all strictly between Undefined and EndOfFunctionalityKeys |
| DispatchKeys.CountPerBackendFunctionalityKeysAt | c10/core/DispatchKey.h:691-698 | the counting loop over keys 0..n finds one per-backend functionality for each of Dense, Quantized, Sparse, NestedTensor, AutogradFunctionality at or below n |
| DispatchKeys.RuntimeEntryCount | c10/core/DispatchKey.h:688-713 | numPerBackendFunctionalityKeys() is 5, and num_runtime_entries is num_functionality_keys + 5 * (num_backends - 1) |
| DispatchKeys.NumRuntimeEntries | c10/core/DispatchKey.h:704-713 | num_runtime_entries is 105 |
| DispatchKeys.FullBackendMask | c10/core/DispatchKey.h:717-719 | (1 << num_backends) - 1 in 16 bits is 0x3FFF |
| DispatchKeys.BitBudget | c10/core/DispatchKey.h:625-686 | the static asserts hold: backend and functionality keys fit 64 bits, and there are at most 16 backends |
| DispatchKeys.PerBackendBlocksAreContiguous | c10/core/DispatchKey.h:431-587 | each per-backend block spans EndOfBackendKeys keys past its Start marker; the blocks follow the functionality keys and each other without gaps, and the aliases follow them |
| DispatchKeys.BackendComponentRoundTrip | c10/core/DispatchKey.h:741-825 | toBackendComponent(toRuntimePerBackendFunctionalityKey(f, b)) == b for every per-backend functionality f |
| DispatchKeys.FunctionalityKeyRoundTrip | c10/core/DispatchKey.h:776-825 | toFunctionalityKey(toRuntimePerBackendFunctionalityKey(f, b)) == f for every per-backend functionality f |
| DispatchKeys.PerBackendKeyDecomposition | c10/core/DispatchKey.h:741-825 | the converse: every per-backend runtime key is rebuilt from its functionality and its backend component |
| DispatchKeys.InvalidConversions | c10/core/DispatchKey.h:771-791 | the error values: Undefined for a non-per-backend functionality, InvalidBit outside the blocks, and both for alias keys |
| KernelRegistry.GetKernelForDispatchKey | aten/src/ATen/core/dispatch/OperatorEntry.cpp:212-220 | a kernel is found exactly when the key has a list, and it is the valid front of that list |
| KernelRegistry.PushKeepsIdsDistinct | aten/src/ATen/core/dispatch/OperatorEntry.cpp:152-154 | a registration under the counter's handle keeps every handle naming one element of one list |
| KernelRegistry.EraseRemovesThatRegistration | aten/src/ATen/core/dispatch/OperatorEntry.cpp:178 | with distinct handles, erasing a handle found at position i removes exactly position i, as erasing through the iterator does |
| KernelRegistry.EraseKeepsIdsDistinct | aten/src/ATen/core/dispatch/OperatorEntry.cpp:178-183 | deregistration keeps handles distinct |
| KernelRegistry.PushKernel | aten/src/ATen/core/dispatch/OperatorEntry.cpp:130-152 | emplace_front: the key's list gains the new registration in front (the list is created if missing); every other list is unchanged |
| KernelRegistry.RemoveRegistration | aten/src/ATen/core/dispatch/OperatorEntry.cpp:178 | erasing never lengthens a list |
| KernelRegistry.EraseKernel | aten/src/ATen/core/dispatch/OperatorEntry.cpp:171-183 | only the target key's list changes; the key disappears exactly when its list becomes empty |
| KernelRegistry.RemoveRegistrationAt | aten/src/ATen/core/dispatch/OperatorEntry.cpp:178 | erasing the handle found first at position i removes exactly that element |
| KernelRegistry.RemoveAbsentRegistration | aten/src/ATen/core/dispatch/OperatorEntry.cpp:178 | erasing a handle the list does not hold changes nothing |
| KernelRegistry.RemoveRegistrationSubset | aten/src/ATen/core/dispatch/OperatorEntry.cpp:178 | the erased list is a sub-multiset of the original |
| KernelRegistry.PushMakesNewestActive | aten/src/ATen/core/dispatch/OperatorEntry.cpp:152-154 | after emplace_front the new kernel is the active one of its key, the active kernels of other keys are unchanged, and the registry stays well formed |
| KernelRegistry.EraseKeepsWellFormed | aten/src/ATen/core/dispatch/OperatorEntry.cpp:178-183 | after deregistration no list is empty and Undefined has no list (what checkInvariants asserts at 432-435), and every kernel stays valid (so the front-kernel assert at 216 keeps holding whichever kernel reaches the front) |
| KernelRegistry.PushKeepsIdsBelow | aten/src/ATen/core/dispatch/OperatorEntry.cpp:152-154 | handles issued from the counter stay below it after a registration |
| KernelRegistry.EraseKeepsIdsBelow | aten/src/ATen/core/dispatch/OperatorEntry.cpp:178-183 | deregistration keeps every handle below the counter |
| KernelRegistry.RegisterThenDeregisterRestores | aten/src/ATen/core/dispatch/OperatorEntry.cpp:152-183 | registering under a fresh handle and deregistering it restores the registry exactly, including removing a list the registration created |
| Resolution.ComputeDispatchTableEntryWithDebug | aten/src/ATen/core/dispatch/OperatorEntry.cpp:230-339 | the provenance is "kernel" exactly when the key has a list; the kernel is valid exactly when the result is neither the no-slot nor the missing case; a backend-fallback result is the fallback of the key's own slot |
| Resolution.ComputeDispatchTableEntry | aten/src/ATen/core/dispatch/OperatorEntry.cpp:191-193 | the kernel of a direct registration is the key's front kernel; the kernel is invalid exactly when the resolution ended in the no-slot or missing case |
| Resolution.DirectRegistrationWins | aten/src/ATen/core/dispatch/OperatorEntry.cpp:274-276 | a direct registration beats every alias and every fallback |
| Resolution.PrecedenceOrder | aten/src/ATen/core/dispatch/OperatorEntry.cpp:273-338 | each provenance implies which earlier steps found nothing: default-backend prefers the non-functional alias; math only without backend or explicit kernels; autograd only after the composites; fallback or missing only when no applicable alias has a kernel |
| Resolution.AutogradOtherAmbiguity | aten/src/ATen/core/dispatch/OperatorEntry.cpp:297-318 | for AutogradOther with an implicit composite kernel, a kernel on any autogradother backend gives the ambiguity kernel; otherwise the math kernel is used exactly when there is no backend kernel |
| Resolution.HasKernelForAnyAgree | aten/src/ATen/core/dispatch/OperatorEntry.cpp:195-202 | hasKernelForAnyDispatchKey of a set depends only on which keys of that set have lists |
| Resolution.ResolutionDependsOnlyOnDeps | aten/src/ATen/core/dispatch/OperatorEntry.cpp:273-338 | two registries that agree on Deps(k) give k the same resolution; Deps(k) holds k, each alias only when the alias applies to k, and the has_backend_kernel lists (backend set, CompositeExplicitAutograd, autogradother backends for AutogradOther) only once an implicit composite kernel is found |
| Resolution.RefreshedKeys | aten/src/ATen/core/dispatch/OperatorEntry.cpp:366-393 | updateDispatchTable_ refreshes only Undefined for Undefined; otherwise the runtime set, plus Undefined for the three composite aliases, plus the autograd key of a backend key |
| Resolution.RefreshedKeysAreTableKeys | aten/src/ATen/core/dispatch/OperatorEntry.cpp:366-393 | every refreshed key owns a table slot or is skipped by the -1 check |
| Resolution.RefreshReachesReader | aten/src/ATen/core/dispatch/OperatorEntry.cpp:366-393 | outside the explicit-after-implicit case, every table key whose resolution reads k's list is among the keys updateDispatchTable_(k) refreshes |
| Resolution.RefreshCoversExactly | aten/src/ATen/core/dispatch/OperatorEntry.cpp:366-393 | updateDispatchTable_(k) covers a change to k's list if and only if the change is not the explicit-after-implicit one |
| Resolution.UnrefreshedResolutionsUnchanged | aten/src/ATen/core/dispatch/OperatorEntry.cpp:366-393 | a change confined to k's list leaves the resolution of every table key outside a covering refresh unchanged |
| Resolution.ExplicitAfterImplicitLeavesStaleEntry | aten/src/ATen/core/dispatch/OperatorEntry.cpp:297-318 | with only an implicit composite kernel registered, a key with a table slot the implicit alias includes and the explicit alias's runtime set misses resolves to the math kernel, is not refreshed by a CompositeExplicitAutograd registration, and afterwards resolves elsewhere |
| Resolution.CorrectedRefreshedKeys | aten/src/ATen/core/dispatch/OperatorEntry.cpp:366-393 | the refresh with the missing keys added: it contains RefreshedKeys(k), and differs from it only for CompositeExplicitAutograd |
| Resolution.CorrectedRefreshCovers | aten/src/ATen/core/dispatch/OperatorEntry.cpp:366-393 | the corrected refresh is made of table keys and covers a change to any key's list, whatever is registered |
| OperatorEntries.TargetKey | aten/src/ATen/core/dispatch/OperatorEntry.cpp:130 | a catch-all registration goes to CompositeImplicitAutograd, a keyed one to its key |
| OperatorEntries.OutsideSlots | aten/src/ATen/core/dispatch/OperatorEntry.cpp:351-358 | a table key outside a refreshed set shares no slot with it |
| OperatorEntries.OutsideRefreshStaysFresh | aten/src/ATen/core/dispatch/OperatorEntry.cpp:351-358 | a slot not rewritten, of a key whose flag was not touched, stays equal to its resolution |
| OperatorEntries.RefreshKeepsTableFresh | aten/src/ATen/core/dispatch/OperatorEntry.cpp:366-393 | after a change and a refresh of a set of keys, the table is consistent again when every key outside the set resolves as before |
| OperatorEntries.CoveredRefreshKeepsTableFresh | aten/src/ATen/core/dispatch/OperatorEntry.cpp:157-184 | a change to one key's list followed by a covering refresh keeps a consistent table consistent |
| OperatorEntries.KeyedRefreshKeepsTableFresh | aten/src/ATen/core/dispatch/OperatorEntry.cpp:157-184 | a change to one key's list followed by updateDispatchTable_ of that key keeps a consistent table consistent, unless it is the explicit-after-implicit change |
| OperatorEntries.CorrectedRefreshKeepsTableFresh | aten/src/ATen/core/dispatch/OperatorEntry.cpp:157-184 | with the corrected refresh, every change to one key's list keeps a consistent table consistent |
| OperatorEntries.FallbackChangeIsLocal | aten/src/ATen/core/dispatch/OperatorEntry.cpp:329-335 | a change to one fallback slot changes the resolution of no other table key |
| OperatorEntries.DumpLinesListEveryKernel | aten/src/ATen/core/dispatch/OperatorEntry.cpp:540-563 | the dump lists every registered kernel under its key, marks inactive exactly those behind the front, flags alias keys, and is in key order |
| OperatorEntries.OperatorEntry.constructor | aten/src/ATen/core/dispatch/OperatorEntry.cpp:19-34 | no schema, no signature, no kernels, and a consistent table that picks up the fallbacks |
| OperatorEntries.OperatorEntry.UpdateDispatchTableEntry | aten/src/ATen/core/dispatch/OperatorEntry.cpp:351-358 | a key without a slot changes nothing; otherwise only its slot and its flag change, and both agree with its resolution |
| OperatorEntries.OperatorEntry.UpdateDispatchTable | aten/src/ATen/core/dispatch/OperatorEntry.cpp:366-393 | every key of RefreshedKeys(k) is fresh afterwards; no other slot and no other flag changes |
| OperatorEntries.OperatorEntry.Refresh | aten/src/ATen/core/dispatch/OperatorEntry.cpp:374-376 | one step of the refresh loop keeps the keys already refreshed fresh |
| OperatorEntries.OperatorEntry.UpdateDispatchTableFull | aten/src/ATen/core/dispatch/OperatorEntry.cpp:407-425 | after refreshing Undefined and every key of FULL, every table key's slot and flag match its resolution |
| OperatorEntries.OperatorEntry.HasKernelForDispatchKey | aten/src/ATen/core/dispatch/OperatorEntry.cpp:204-210 | the scan of the registry finds the key exactly when it has a list |
| OperatorEntries.OperatorEntry.HasKernelForAnyDispatchKey | aten/src/ATen/core/dispatch/OperatorEntry.cpp:195-202 | the scan finds a kernel exactly when some non-alias key of the set has a list |
| OperatorEntries.OperatorEntry.FindSchemaConflict | aten/src/ATen/core/dispatch/OperatorEntry.cpp:65-71 | reports a conflict exactly when some registered kernel's inferred schema differs from the new schema, and the reported schema is such a one |
| OperatorEntries.OperatorEntry.RegisterSchema | aten/src/ATen/core/dispatch/OperatorEntry.cpp:63-78 | requires no schema; fails with a schema mismatch, leaving the schema unset, exactly when a registered kernel conflicts; otherwise installs the schema |
| OperatorEntries.OperatorEntry.DeregisterSchema | aten/src/ATen/core/dispatch/OperatorEntry.cpp:80-84 | requires a schema and clears it |
| OperatorEntries.OperatorEntry.RegisterKernel | aten/src/ATen/core/dispatch/OperatorEntry.cpp:87-163 | a differing C++ signature fails with no change; the first signature is recorded even when the schema check then fails; an inferred-schema mismatch fails without touching kernels or table; on success the kernel is in front of its target key's list under a fresh handle and is active; a catch-all registration leaves the table consistent; a keyed one makes RefreshedKeys(key) fresh, leaves every other slot and flag unchanged, and keeps a consistent table consistent unless it is the explicit-after-implicit registration |
| OperatorEntries.OperatorEntry.AddKernel | aten/src/ATen/core/dispatch/OperatorEntry.cpp:130-162 | the insertion and refresh part of registerKernel: the same registry, table frame and consistency outcome |
| OperatorEntries.OperatorEntry.DeregisterKernel | aten/src/ATen/core/dispatch/OperatorEntry.cpp:165-185 | requires the handle in the target key's list; that list loses exactly the element at the handle's position and is dropped when it empties; the signature and schema stay; RefreshedKeys(key) is fresh, every other slot and flag unchanged, and a consistent table stays consistent unless the removal is the explicit-after-implicit one |
| OperatorEntries.OperatorEntry.UpdateFallback | aten/src/ATen/core/dispatch/OperatorEntry.cpp:187-189 | the keys of RefreshedKeys(k) become fresh and no other slot or flag changes; after the fallback of one table key changed, refreshing it makes a consistent table consistent again |
| OperatorEntries.OperatorEntry.CheckInvariants | aten/src/ATen/core/dispatch/OperatorEntry.cpp:427-446 | passes exactly when every key of FULL with a slot finds its resolution in that slot; a consistent entry always passes |
| OperatorEntries.OperatorEntry.DumpState | aten/src/ATen/core/dispatch/OperatorEntry.cpp:528-563 | the lines go over keys Undefined..EndOfAliasKeys in order, list every registered kernel, and mark the inactive ones |
| MaybeOwnedPointers.MaybeOwned.constructor | c10/util/MaybeOwned.h:92 | the default state is a borrow (of nothing) |
| MaybeOwnedPointers.MaybeOwned.Borrowed | c10/util/MaybeOwned.h:77-79 | borrowed(t) is borrowed, refers to t, and can be dereferenced |
| MaybeOwnedPointers.MaybeOwned.Owned | c10/util/MaybeOwned.h:81-84 | owned(t) is owned and holds t |
| MaybeOwnedPointers.MaybeOwned.Copy | c10/util/MaybeOwned.h:100-106 | a copy has rhs's tag; a borrow refers to the same original, an owned value is copied |
| MaybeOwnedPointers.MaybeOwned.Move | c10/util/MaybeOwned.h:133-141 | the move constructor keeps rhs's tag and member |
| MaybeOwnedPointers.MaybeOwned.Assign | c10/util/MaybeOwned.h:108-131 | self-assignment changes nothing; in all four old/new combinations the result has rhs's tag and rhs's member, and the tag names the live member |
| MaybeOwnedPointers.MaybeOwned.MoveAssign | c10/util/MaybeOwned.h:143-167 | the same as copy assignment |
| MaybeOwnedPointers.MaybeOwned.UnsafeIsBorrowed | c10/util/MaybeOwned.h:194-196 | the tag says whether the borrow member is live |
| MaybeOwnedPointers.MaybeOwned.Deref | c10/util/MaybeOwned.h:198-206 | the value of the borrowed-from object, or the owned value |
| MaybeOwnedPointers.MaybeOwned.TakeValue | c10/util/MaybeOwned.h:218-230 | the rvalue dereference yields what Deref yields and keeps the tag and the borrow |
| Storages.DataPtr.Cleared | c10/core/StorageImpl.h:82 | clearing nulls the address and keeps the device |
| Storages.StorageImpl.constructor | c10/core/StorageImpl.h:43-58 | resizable storage needs an allocator; the fields are stored and received_cuda starts false |
| Storages.StorageImpl.Reset | c10/core/StorageImpl.h:81-84 | clears the data pointer and zeroes the size; the invariant is kept |
| Storages.StorageImpl.ReleaseResources | c10/core/StorageImpl.h:98-100 | clears only the data pointer |
| Storages.StorageImpl.SetNbytes | c10/core/StorageImpl.h:111-113 | sets only the size |
| Storages.StorageImpl.SetDataPtr | c10/core/StorageImpl.h:127-132 | returns the previous pointer and installs the new one |
| Storages.StorageImpl.SetDataPtrNoswap | c10/core/StorageImpl.h:134-136 | installs the new pointer only |
| Storages.StorageImpl.SetAllocator | c10/core/StorageImpl.h:163-165 | replaces the allocator; the invariant holds afterwards exactly when the storage is fixed-size or the new allocator is present |
| Storages.StorageImpl.SetResizable | c10/core/StorageImpl.h:171-177 | making storage resizable requires an allocator; making it fixed always succeeds and establishes the invariant |
| Storages.StorageImpl.UniqueStorageShareExternalPointer | c10/core/StorageImpl.h:193-200 | installs pointer and size, drops the allocator, becomes fixed-size, so the invariant holds whatever came before |
| Storages.StorageImpl.UniqueStorageShareExternalAddress | c10/core/StorageImpl.h:182-188 | the raw-pointer overload: the same, with a pointer on the current device |
| Storages.StorageImpl.SetReceivedCuda | c10/core/StorageImpl.h:204-206 | changes only received_cuda |
| Variadic.Run | aten/src/ATen/core/Variadic.h:27-42 | a visit covers a prefix of the arguments that is empty exactly when there are no arguments |
| Variadic.RunVisitsPrefix | aten/src/ATen/core/Variadic.h:34-42 | the visited prefix is visited left to right; no visit before its last one short-circuits; it stops before the end only because the last visit short-circuited |
| Variadic.DefaultShortCircuit | aten/src/ATen/core/Variadic.h:80-82 | the default short_circuit is false |
| Variadic.DefaultVisitsAll | aten/src/ATen/core/Variadic.h:80-82 | with the default short_circuit every argument is visited, in order |
| Variadic.IterArgs.Call | aten/src/ATen/core/Variadic.h:36 | one visitor call updates the state and logs the argument |
| Variadic.IterArgs.Apply | aten/src/ATen/core/Variadic.h:27-42 | the recursive apply ends in Run's state and has called the visitor on Run's prefix, in order |
| Variadic.IterArgs.ApplyArrayRef | aten/src/ATen/core/Variadic.h:55-62 | the ArrayRef loop has the same outcome as apply |
| Variadic.IterArgs.ApplyList | aten/src/ATen/core/Variadic.h:64-71 | the List loop has the same outcome as apply |
| Variadic.IterArgs.ApplyVector | aten/src/ATen/core/Variadic.h:75-78 | the vector overload behaves exactly as the ArrayRef one |
| Edges.DefaultEdge | torch/csrc/autograd/edge.h:17 | a default edge has a null function and input 0, so it is invalid |
| Edges.MakeEdge | torch/csrc/autograd/edge.h:19-25 | both fields are stored as given; the edge is valid exactly when the function is non-null |
| Edges.EqualIsIdentity | torch/csrc/autograd/edge.h:28-34 | == holds exactly for identical edges, so it is an equivalence; != is its negation |
| Edges.EqualEdgesHashEqually | torch/csrc/autograd/edge.h:56-58 | the hash reads only the two fields, so equal edges hash equally |
| IdWrappers.Wrap | c10/util/IdWrapper.h:33-40 | underlyingId returns the id given to the constructor |
| IdWrappers.EqualIffSameId | c10/util/IdWrapper.h:50-63 | == holds exactly when the wrapped ids are equal; != is its negation |
| IdWrappers.EqualWrappersHashEqually | c10/util/IdWrapper.h:43-45 | hash_value reads only the id, so equal wrappers hash equally (the std::hash the macro at 70-78 defines calls it) |

## Left out

- RegisterKernel: consistency after a keyed registration is not promised for a CompositeExplicitAutograd registration made while a CompositeImplicitAutograd kernel is registered, because the source does not refresh the affected keys (see Findings).
- DeregisterKernel: the same exception, for the removal of a CompositeExplicitAutograd kernel.
- AddKernel: the same exception as RegisterKernel.
- The correctness of the refresh rests on the facts `KeySets.Valid` states about the DispatchKeySet helpers; those helpers are not part of this model. In particular, that the explicit-after-implicit change is the only one the refresh misses rests on the `BackendsConsistent` clause that every key of `autogradother_backends` is a backend key whose autograd key is AutogradOther; if that set held a key with its own autograd key, a registration there would leave AutogradOther's slot stale in the same way.
- Registry validity: the model requires every registered kernel to be valid (`RegisterKernel`'s precondition, kept by `WellFormed`), where the source asserts validity only of the front kernel when it is looked up; any kernel can reach the front after deregistrations, so the lookup's assert needs the same.
- Deregistration takes a registration handle instead of a list iterator; a handle not in the target key's list is refused by precondition, where the source has undefined behaviour.
- The DispatchKeySet helpers (`getRuntimeDispatchKeySet`, `isIncludedInAlias`, `getBackendKeySetFromAutograd`, `autogradother_backends`, `isBackendDispatchKey`, `getAutogradKeyFromBackend`, `getDispatchTableIndexForDispatchKey`, FULL iteration) are not part of this model; they are inputs with only the properties listed above.
- `findSchemaDifferences`, `FunctionSchema`, `CppSignature` and `KernelFunction` are not part of this model; schemas and signatures are opaque numbers, and a kernel is only its kind (missing, valid, fallthrough, ambiguous).
- The text of warnings and errors, `dumpComputedTable`, `listAllDispatchKeys`, `reportError` and `reportSignatureError`; `DumpState` keeps only the lines' keys, alias marks, inactive marks and kernels.
- Tags, the operator name, the name check in `checkInvariants`, `ObservedOperators`, and the dispatch key extractor beyond the fallthrough flag.
- CheckInvariants: returns whether the asserts would pass instead of aborting; the registry-shape asserts are a precondition (`Valid`).
- The `C10_MOBILE` and one-kernel-per-key build variants; the `Dispatcher` singleton (the fallbacks are an argument).
- MaybeOwned.Move, MaybeOwned.MoveAssign, MaybeOwned.TakeValue: a move is modelled as a copy; the moved-from state of the source object's `T` is not modelled.
- MaybeOwned: `operator->` and the destructor are not modelled; borrowing is a reference to a `Cell`, so lifetimes are not checked.
- StorageImpl: the allocating constructor, `DataPtr` deleters and contexts, devices beyond an opaque number, symbolic sizes (`SymInt`), and the getters are left out; sizes are natural numbers.
- IterArgs: the arguments of one `apply` call share one type, and a visitor call cannot itself recurse into a container.
- Edge and IdWrapper: the concrete hash mixing (`c10::get_hash`, `std::hash`) is a parameter.
- Concurrency: registration is assumed to be serialised by the caller.

## Findings

| source | as written | input that shows it | evidently intended | confidence | as-written member | corrected member |
|---|---|---|---|---|---|---|
| aten/src/ATen/core/dispatch/OperatorEntry.cpp:366-393 | updateDispatchTable_(CompositeExplicitAutograd) refreshes the explicit alias's runtime set and Undefined only, yet step 2.3 of every key included in CompositeImplicitAutograd reads the explicit list through has_backend_kernel (lines 297-318) | register a CompositeImplicitAutograd kernel, then a CompositeExplicitAutograd kernel; a key included in the implicit alias but not in the explicit alias's runtime set (an autograd key such as AutogradCPU) keeps the math kernel in its slot while it now resolves to the Autograd kernel or its fallback | every slot equals a fresh resolution, as checkInvariants asserts (lines 427-446) | not executed; medium (the note at lines 267-270 says the two composite kernels should not coexist for one operator) | Resolution.ExplicitAfterImplicitLeavesStaleEntry | OperatorEntries.CorrectedRefreshKeepsTableFresh |
