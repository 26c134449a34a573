/**
 * How OperatorEntry resolves the kernel of one runtime key from the registry
 * (computeDispatchTableEntryWithDebug), which registrations that result depends on,
 * and which table entries updateDispatchTable_ refreshes after a change to one key
 * (aten/src/ATen/core/dispatch/OperatorEntry.cpp).
 */
module Resolution {
  import opened Wrappers
  import opened DispatchKeys
  import opened DispatchKeySets
  import opened KernelRegistry

  /** The provenance tag of a computed entry, as dumpComputedTable prints it. */
  datatype Provenance =
    | FromKernel                  // "kernel"
    | FromDefaultBackend          // "default backend kernel"
    | FromAmbiguousAutogradOther  // "ambiguous autogradother"
    | FromMath                    // "math kernel"
    | FromAutograd                // "autograd kernel"
    | FromNoFallbackSlot          // "backend fallback not registered on mobile"
    | FromBackendFallback         // "backend fallback"
    | FromMissing                 // "missing"

  /** The facts about the environment the resolution itself needs. */
  ghost predicate Resolvable(ks: KeySets, fallbacks: seq<AnnotatedKernel>, kernels: Registry)
  {
    ks.IndicesInRange() && |fallbacks| == NumRuntimeEntries() && WellFormed(kernels)
  }

  /** Whether step 2.1, 2.2 or 2.3 considers key k for the given composite alias. */
  predicate AliasApplies(ks: KeySets, k: DispatchKey, alias: DispatchKey)
  {
    k == Undefined || ks.includedInAlias(k, alias)
  }

  /** has_backend_kernel: a kernel on a backend of k's autograd group, or a CompositeExplicitAutograd kernel. */
  predicate HasBackendKernel(ks: KeySets, kernels: Registry, k: DispatchKey)
    requires Undefined !in kernels
  {
    HasKernelForAnyDispatchKey(kernels, ks.backendKeySetFromAutograd(k))
    || HasKernelForDispatchKey(kernels, CompositeExplicitAutograd)
  }

  /**
   * computeDispatchTableEntryWithDebug: the kernel a runtime key resolves to, tried in a
   * fixed order, each step only when the previous ones found nothing:
   * 1. a kernel registered to k itself;
   * 2.1/2.2 CompositeExplicitAutogradNonFunctional, then CompositeExplicitAutograd
   *     (for Undefined or keys the alias includes);
   * 2.3 CompositeImplicitAutograd, ambiguous for AutogradOther when one of its backends has a
   *     kernel, otherwise used only without a backend kernel;
   * 2.4 the Autograd alias;
   * 3. a valid backend fallback; 4. missing.
   */
  function ComputeDispatchTableEntryWithDebug(
    ks: KeySets, fallbacks: seq<AnnotatedKernel>, kernels: Registry, k: DispatchKey
  ): (r: (AnnotatedKernel, Provenance))
    requires Resolvable(ks, fallbacks, kernels)
    ensures r.1 == FromKernel <==> k in kernels
    ensures r.0.kernel.IsValid() <==> r.1 != FromNoFallbackSlot && r.1 != FromMissing
    ensures r.1 == FromBackendFallback ==> ks.tableIndex(k) >= 0 && r.0 == fallbacks[ks.tableIndex(k)]
  {
    var direct := GetKernelForDispatchKey(kernels, k);
    if direct.Some? then (direct.value, FromKernel)
    else
      var nonFunctional := GetKernelForDispatchKey(kernels, CompositeExplicitAutogradNonFunctional);
      if AliasApplies(ks, k, CompositeExplicitAutogradNonFunctional) && nonFunctional.Some? then
        (nonFunctional.value, FromDefaultBackend)
      else
        var explicit := GetKernelForDispatchKey(kernels, CompositeExplicitAutograd);
        if AliasApplies(ks, k, CompositeExplicitAutograd) && explicit.Some? then
          (explicit.value, FromDefaultBackend)
        else
          var math := GetKernelForDispatchKey(kernels, CompositeImplicitAutograd);
          if AliasApplies(ks, k, CompositeImplicitAutograd) && math.Some?
             && k == AutogradOther && HasKernelForAnyDispatchKey(kernels, ks.autogradOtherBackends) then
            (AmbiguousAutogradOtherKernel, FromAmbiguousAutogradOther)
          else if AliasApplies(ks, k, CompositeImplicitAutograd) && math.Some?
                  && !HasBackendKernel(ks, kernels, k) then
            (math.value, FromMath)
          else
            var autograd := GetKernelForDispatchKey(kernels, Autograd);
            if ks.includedInAlias(k, Autograd) && autograd.Some? then
              (autograd.value, FromAutograd)
            else
              var ix := ks.tableIndex(k);
              if ix < 0 then (MissingKernel, FromNoFallbackSlot)
              else if fallbacks[ix].kernel.IsValid() then (fallbacks[ix], FromBackendFallback)
              else (MissingKernel, FromMissing)
  }

  /** computeDispatchTableEntry: the kernel part of the resolution. */
  function ComputeDispatchTableEntry(
    ks: KeySets, fallbacks: seq<AnnotatedKernel>, kernels: Registry, k: DispatchKey
  ): (r: Kernel)
    requires Resolvable(ks, fallbacks, kernels)
    ensures k in kernels ==> r == kernels[k][0].annotated.kernel
    ensures !r.IsValid() <==>
      ComputeDispatchTableEntryWithDebug(ks, fallbacks, kernels, k).1 in {FromNoFallbackSlot, FromMissing}
  {
    ComputeDispatchTableEntryWithDebug(ks, fallbacks, kernels, k).0.kernel
  }

  // ---------------------------------------------------------------------------
  // Precedence

  /** A kernel registered directly to k beats every alias and every fallback. */
  lemma DirectRegistrationWins(ks: KeySets, fallbacks: seq<AnnotatedKernel>, kernels: Registry, k: DispatchKey)
    requires Resolvable(ks, fallbacks, kernels)
    requires k in kernels
    ensures ComputeDispatchTableEntryWithDebug(ks, fallbacks, kernels, k) == (kernels[k][0].annotated, FromKernel)
  {
  }

  /**
   * Every step applies only when the steps before it found nothing: the provenance of the
   * result tells which registrations were absent or did not apply.
   */
  lemma PrecedenceOrder(ks: KeySets, fallbacks: seq<AnnotatedKernel>, kernels: Registry, k: DispatchKey)
    requires Resolvable(ks, fallbacks, kernels)
    ensures var (a, p) := ComputeDispatchTableEntryWithDebug(ks, fallbacks, kernels, k);
      var nonFunctional := AliasApplies(ks, k, CompositeExplicitAutogradNonFunctional)
                           && CompositeExplicitAutogradNonFunctional in kernels;
      var explicit := AliasApplies(ks, k, CompositeExplicitAutograd) && CompositeExplicitAutograd in kernels;
      var math := AliasApplies(ks, k, CompositeImplicitAutograd) && CompositeImplicitAutograd in kernels;
      var autograd := ks.includedInAlias(k, Autograd) && Autograd in kernels;
      && (p == FromDefaultBackend ==>
            k !in kernels
            && (if nonFunctional then a == kernels[CompositeExplicitAutogradNonFunctional][0].annotated
                else explicit && a == kernels[CompositeExplicitAutograd][0].annotated))
      && (p == FromAmbiguousAutogradOther ==>
            k !in kernels && !nonFunctional && !explicit && math && k == AutogradOther
            && HasKernelForAnyDispatchKey(kernels, ks.autogradOtherBackends))
      && (p == FromMath ==>
            k !in kernels && !nonFunctional && !explicit && math
            && a == kernels[CompositeImplicitAutograd][0].annotated
            && CompositeExplicitAutograd !in kernels
            && !HasKernelForAnyDispatchKey(kernels, ks.backendKeySetFromAutograd(k)))
      && (p == FromAutograd ==>
            k !in kernels && !nonFunctional && !explicit && autograd
            && a == kernels[Autograd][0].annotated
            && (math ==> HasBackendKernel(ks, kernels, k)))
      && (p in {FromNoFallbackSlot, FromBackendFallback, FromMissing} ==>
            k !in kernels && !nonFunctional && !explicit && !autograd
            && (math ==> HasBackendKernel(ks, kernels, k)))
  {
  }

  /**
   * CompositeImplicitAutograd at AutogradOther: with a kernel on any autogradother backend the
   * result is the ambiguity kernel, otherwise the implicit kernel is used only when no backend
   * kernel and no CompositeExplicitAutograd kernel exists.
   */
  lemma AutogradOtherAmbiguity(ks: KeySets, fallbacks: seq<AnnotatedKernel>, kernels: Registry)
    requires Resolvable(ks, fallbacks, kernels)
    requires AutogradOther !in kernels
    requires !(AliasApplies(ks, AutogradOther, CompositeExplicitAutogradNonFunctional)
               && CompositeExplicitAutogradNonFunctional in kernels)
    requires !(AliasApplies(ks, AutogradOther, CompositeExplicitAutograd) && CompositeExplicitAutograd in kernels)
    requires AliasApplies(ks, AutogradOther, CompositeImplicitAutograd) && CompositeImplicitAutograd in kernels
    ensures var r := ComputeDispatchTableEntryWithDebug(ks, fallbacks, kernels, AutogradOther);
      && (HasKernelForAnyDispatchKey(kernels, ks.autogradOtherBackends) ==>
            r == (AmbiguousAutogradOtherKernel, FromAmbiguousAutogradOther))
      && (!HasKernelForAnyDispatchKey(kernels, ks.autogradOtherBackends) ==>
            (r.1 == FromMath <==> !HasBackendKernel(ks, kernels, AutogradOther)))
  {
  }

  // ---------------------------------------------------------------------------
  // What a resolution depends on

  /**
   * The registry keys whose lists computeDispatchTableEntryWithDebug(k) reads: k itself; each
   * composite alias only for Undefined or a key the alias includes; the backend set of k, the
   * CompositeExplicitAutograd list (has_backend_kernel) and, for AutogradOther, its backends only
   * once step 2.3 has found an implicit composite kernel; the Autograd alias only for a key it
   * includes.
   */
  function Deps(ks: KeySets, kernels: Registry, k: DispatchKey): set<DispatchKey>
  {
    var readsMath := AliasApplies(ks, k, CompositeImplicitAutograd) && CompositeImplicitAutograd in kernels;
    {k}
    + (if AliasApplies(ks, k, CompositeExplicitAutogradNonFunctional) then {CompositeExplicitAutogradNonFunctional} else {})
    + (if AliasApplies(ks, k, CompositeExplicitAutograd) then {CompositeExplicitAutograd} else {})
    + (if AliasApplies(ks, k, CompositeImplicitAutograd) then {CompositeImplicitAutograd} else {})
    + (if readsMath then {CompositeExplicitAutograd} + ks.backendKeySetFromAutograd(k) else {})
    + (if readsMath && k == AutogradOther then ks.autogradOtherBackends else {})
    + (if ks.includedInAlias(k, Autograd) then {Autograd} else {})
  }

  /** The front registration of a key's list, if it has a non-empty one. */
  function Front(kernels: Registry, x: DispatchKey): Option<Registration>
  {
    if x in kernels && |kernels[x]| > 0 then Some(kernels[x][0]) else None
  }

  /** Two registries have the same keys and the same active kernels on the keys of D. */
  ghost predicate AgreeOn(k1: Registry, k2: Registry, d: set<DispatchKey>)
  {
    forall x :: x in d ==> (x in k1 <==> x in k2) && Front(k1, x) == Front(k2, x)
  }

  /** Two registries differ at most in the list of key k. */
  ghost predicate AgreeExcept(k1: Registry, k2: Registry, k: DispatchKey)
  {
    forall x :: x != k ==> (x in k1 <==> x in k2) && Front(k1, x) == Front(k2, x)
  }

  lemma HasKernelForAnyAgree(k1: Registry, k2: Registry, s: set<DispatchKey>, d: set<DispatchKey>)
    requires Undefined !in k1 && Undefined !in k2
    requires s <= d && AgreeOn(k1, k2, d)
    ensures HasKernelForAnyDispatchKey(k1, s) == HasKernelForAnyDispatchKey(k2, s)
  {
    if HasKernelForAnyDispatchKey(k1, s) {
      var x :| x in k1 && !IsAliasDispatchKey(x) && x in s;
      assert x in k2;
    }
    if HasKernelForAnyDispatchKey(k2, s) {
      var x :| x in k2 && !IsAliasDispatchKey(x) && x in s;
      assert x in k1;
    }
  }

  /** The resolution of k depends only on the active kernels of Deps(k) (and on the fallbacks). */
  lemma ResolutionDependsOnlyOnDeps(
    ks: KeySets, fallbacks: seq<AnnotatedKernel>, k1: Registry, k2: Registry, k: DispatchKey)
    requires Resolvable(ks, fallbacks, k1) && Resolvable(ks, fallbacks, k2)
    requires AgreeOn(k1, k2, Deps(ks, k1, k))
    ensures ComputeDispatchTableEntryWithDebug(ks, fallbacks, k1, k)
         == ComputeDispatchTableEntryWithDebug(ks, fallbacks, k2, k)
  {
    if AliasApplies(ks, k, CompositeImplicitAutograd) && CompositeImplicitAutograd in k1 {
      HasKernelForAnyAgree(k1, k2, ks.backendKeySetFromAutograd(k), Deps(ks, k1, k));
      if k == AutogradOther {
        HasKernelForAnyAgree(k1, k2, ks.autogradOtherBackends, Deps(ks, k1, k));
      }
    }
  }

  // ---------------------------------------------------------------------------
  // What updateDispatchTable_ refreshes

  /** The composite aliases whose registrations also feed Undefined. */
  predicate IsCompositeAlias(k: DispatchKey)
  {
    k == CompositeImplicitAutograd || k == CompositeExplicitAutograd || k == CompositeExplicitAutogradNonFunctional
  }

  /**
   * The keys updateDispatchTable_(k) passes to updateDispatchTableEntry_: Undefined alone for
   * Undefined; otherwise the runtime key set of k, plus Undefined for the three composite
   * aliases, plus the autograd key of k's backend when k is a backend key.
   */
  function RefreshedKeys(ks: KeySets, k: DispatchKey): (r: set<DispatchKey>)
    ensures k == Undefined ==> r == {Undefined}
    ensures k != Undefined ==> ks.runtimeKeySet(k) <= r
    ensures IsCompositeAlias(k) ==> Undefined in r
    ensures k != Undefined && ks.isBackendDispatchKey(k) ==> ks.autogradKeyFromBackend(ToBackendComponent(k)) in r
  {
    if k == Undefined then {Undefined}
    else
      ks.runtimeKeySet(k)
      + (if IsCompositeAlias(k) then {Undefined} else {})
      + (if ks.isBackendDispatchKey(k) then {ks.autogradKeyFromBackend(ToBackendComponent(k))} else {})
  }

  lemma RefreshedKeysAreTableKeys(ks: KeySets, k: DispatchKey)
    requires ks.SetsWithinFull()
    ensures RefreshedKeys(ks, k) <= ks.TableKeys()
  {
  }

  /**
   * The refresh of a set of keys covers a change to the list of key k when every table key
   * whose resolution reads that list is in the set.
   */
  ghost predicate Covers(ks: KeySets, kernels: Registry, k: DispatchKey, refreshed: set<DispatchKey>)
  {
    forall j :: j in ks.TableKeys() && k in Deps(ks, kernels, j) ==> j in refreshed
  }

  /**
   * The one change updateDispatchTable_ does not cover: a change to the CompositeExplicitAutograd
   * list while a CompositeImplicitAutograd kernel is registered, when some key included in the
   * implicit alias is outside the runtime set of the explicit one. Step 2.3 of such a key reads
   * the explicit list through has_backend_kernel.
   */
  ghost predicate ExplicitAfterImplicit(ks: KeySets, kernels: Registry, k: DispatchKey)
  {
    && k == CompositeExplicitAutograd && CompositeImplicitAutograd in kernels
    && exists j :: ks.includedInAlias(j, CompositeImplicitAutograd) && j !in ks.runtimeKeySet(CompositeExplicitAutograd)
  }

  /** A key that some table key's resolution reads is refreshed with it, for every k but one. */
  lemma RefreshReachesReader(ks: KeySets, kernels: Registry, k: DispatchKey, j: DispatchKey)
    requires ks.Valid() && !ExplicitAfterImplicit(ks, kernels, k)
    requires j in ks.TableKeys() && k in Deps(ks, kernels, j)
    ensures j in RefreshedKeys(ks, k)
  {
    var readsMath := AliasApplies(ks, j, CompositeImplicitAutograd) && CompositeImplicitAutograd in kernels;
    if k == j {
      if j != Undefined {
        assert j in ks.runtimeKeySet(j);
      }
    } else if ks.includedInAlias(j, k) {
      assert j in ks.runtimeKeySet(k);
      assert k != Undefined by {
        assert j in ks.full;
      }
    } else if readsMath && k in ks.backendKeySetFromAutograd(j) {
      assert k in ks.full;
    } else if readsMath && j == AutogradOther && k in ks.autogradOtherBackends {
      assert k in ks.full;
    } else if j == Undefined {
      assert IsCompositeAlias(k);
    } else {
      assert readsMath && k == CompositeExplicitAutograd;
      assert ks.includedInAlias(j, CompositeImplicitAutograd);
    }
  }

  /**
   * updateDispatchTable_(k) covers a change to k's list exactly when the change is not the
   * explicit-after-implicit one.
   */
  lemma RefreshCoversExactly(ks: KeySets, kernels: Registry, k: DispatchKey)
    requires ks.Valid()
    ensures Covers(ks, kernels, k, RefreshedKeys(ks, k)) <==> !ExplicitAfterImplicit(ks, kernels, k)
  {
    if ExplicitAfterImplicit(ks, kernels, k) {
      var j :| ks.includedInAlias(j, CompositeImplicitAutograd) && j !in ks.runtimeKeySet(CompositeExplicitAutograd);
      assert j in ks.runtimeKeySet(CompositeImplicitAutograd);
      assert j in ks.TableKeys() && j != Undefined;
      assert k in Deps(ks, kernels, j);
      assert !ks.isBackendDispatchKey(k);
      assert j !in RefreshedKeys(ks, k);
    } else {
      forall j | j in ks.TableKeys() && k in Deps(ks, kernels, j) ensures j in RefreshedKeys(ks, k) {
        RefreshReachesReader(ks, kernels, k, j);
      }
    }
  }

  /**
   * A change confined to the registrations of key k leaves the resolution of every table key
   * outside a covering refresh unchanged.
   */
  lemma UnrefreshedResolutionsUnchanged(
    ks: KeySets, fallbacks: seq<AnnotatedKernel>, k1: Registry, k2: Registry, k: DispatchKey,
    refreshed: set<DispatchKey>, j: DispatchKey)
    requires Resolvable(ks, fallbacks, k1) && Resolvable(ks, fallbacks, k2)
    requires AgreeExcept(k1, k2, k)
    requires Covers(ks, k1, k, refreshed)
    requires j in ks.TableKeys() && j !in refreshed
    ensures ComputeDispatchTableEntryWithDebug(ks, fallbacks, k1, j)
         == ComputeDispatchTableEntryWithDebug(ks, fallbacks, k2, j)
  {
    assert k !in Deps(ks, k1, j);
    assert AgreeOn(k1, k2, Deps(ks, k1, j));
    ResolutionDependsOnlyOnDeps(ks, fallbacks, k1, k2, j);
  }

  /**
   * The uncovered change does leave a stale entry. With only an implicit composite kernel
   * registered, a key the implicit alias includes and the explicit alias's runtime set misses (an
   * autograd key, say) resolves to the implicit kernel. Once a CompositeExplicitAutograd kernel is
   * pushed, has_backend_kernel holds for it and it resolves to something else, while
   * updateDispatchTable_(CompositeExplicitAutograd) does not refresh it.
   */
  lemma ExplicitAfterImplicitLeavesStaleEntry(
    ks: KeySets, fallbacks: seq<AnnotatedKernel>, j: DispatchKey, math: Registration, explicit: Registration)
    requires ks.Valid() && |fallbacks| == NumRuntimeEntries()
    requires math.annotated.kernel.IsValid() && explicit.annotated.kernel.IsValid()
    requires ks.includedInAlias(j, CompositeImplicitAutograd) && j !in ks.runtimeKeySet(CompositeExplicitAutograd)
    requires ks.tableIndex(j) != -1 && fallbacks[ks.tableIndex(j)].kernel != math.annotated.kernel
    ensures var before: Registry := map[CompositeImplicitAutograd := [math]];
      var after := PushKernel(before, CompositeExplicitAutograd, explicit);
      && ExplicitAfterImplicit(ks, before, CompositeExplicitAutograd)
      && j in ks.TableKeys() && j !in RefreshedKeys(ks, CompositeExplicitAutograd)
      && Resolvable(ks, fallbacks, before) && Resolvable(ks, fallbacks, after)
      && ComputeDispatchTableEntryWithDebug(ks, fallbacks, before, j) == (math.annotated, FromMath)
      && ComputeDispatchTableEntry(ks, fallbacks, after, j) != math.annotated.kernel
  {
    var before: Registry := map[CompositeImplicitAutograd := [math]];
    assert j in ks.runtimeKeySet(CompositeImplicitAutograd);
    assert j in ks.full && j != Undefined && !IsAliasDispatchKey(j);
    assert !ks.includedInAlias(j, CompositeExplicitAutograd);
    assert !ks.isBackendDispatchKey(CompositeExplicitAutograd);
    assert !HasKernelForAnyDispatchKey(before, ks.backendKeySetFromAutograd(j));
    assert j == AutogradOther ==> !HasKernelForAnyDispatchKey(before, ks.autogradOtherBackends);
  }

  // ---------------------------------------------------------------------------
  // A refresh that covers every change

  /**
   * updateDispatchTable_ with the missing refresh added: a change to CompositeExplicitAutograd
   * also refreshes the runtime set of CompositeImplicitAutograd, whose step 2.3 reads it.
   */
  function CorrectedRefreshedKeys(ks: KeySets, k: DispatchKey): (r: set<DispatchKey>)
    ensures RefreshedKeys(ks, k) <= r
    ensures k != CompositeExplicitAutograd ==> r == RefreshedKeys(ks, k)
  {
    RefreshedKeys(ks, k)
    + (if k == CompositeExplicitAutograd then ks.runtimeKeySet(CompositeImplicitAutograd) else {})
  }

  /** The corrected refresh covers a change to any key's list, whatever is registered. */
  lemma CorrectedRefreshCovers(ks: KeySets, kernels: Registry, k: DispatchKey)
    requires ks.Valid()
    ensures CorrectedRefreshedKeys(ks, k) <= ks.TableKeys()
    ensures Covers(ks, kernels, k, CorrectedRefreshedKeys(ks, k))
  {
    RefreshedKeysAreTableKeys(ks, k);
    forall j | j in ks.TableKeys() && k in Deps(ks, kernels, j) ensures j in CorrectedRefreshedKeys(ks, k) {
      if ExplicitAfterImplicit(ks, kernels, k) && j !in RefreshedKeys(ks, k) {
        if !ks.includedInAlias(j, CompositeImplicitAutograd) {
          RefreshReachesReader(ks, map[], k, j);
        }
      } else if !ExplicitAfterImplicit(ks, kernels, k) {
        RefreshReachesReader(ks, kernels, k, j);
      }
    }
  }
}
