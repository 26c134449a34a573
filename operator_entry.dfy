/**
 * OperatorEntry (aten/src/ATen/core/dispatch/OperatorEntry.cpp): the per-operator state of the
 * dispatcher. It holds the registered schema, the C++ signature first seen, the registry of
 * kernels per dispatch key, and the dispatch table, a cache with one slot per runtime entry
 * that holds the resolved kernel of each key. The fallthrough flags of the dispatch key
 * extractor are kept as the set of keys whose slot holds a fallthrough kernel.
 */
module OperatorEntries {
  import opened Wrappers
  import opened DispatchKeys
  import opened DispatchKeySets
  import opened KernelRegistry
  import opened Resolution

  datatype AnnotatedSchema = AnnotatedSchema(schema: Schema, debug: string)

  /** The C++ signature of the first typed kernel, with where it came from. */
  datatype CppSignatureWithDebug =
    CppSignatureWithDebug(signature: CppSignature, debug: string, dispatchKey: Option<DispatchKey>)

  /** The two TORCH_CHECK failures of registration. */
  datatype RegistrationError =
    | CppSignatureMismatch(existing: CppSignature, given: CppSignature)
    | SchemaMismatch(expected: Schema, inferred: Schema)

  /** The key a registration or deregistration goes to: catch-all is redirected to CompositeImplicitAutograd. */
  function TargetKey(dispatchKey: Option<DispatchKey>): (r: DispatchKey)
    ensures dispatchKey.Some? ==> r == dispatchKey.value
    ensures dispatchKey.None? ==> r == CompositeImplicitAutograd
  {
    if dispatchKey.Some? then dispatchKey.value else CompositeImplicitAutograd
  }

  // ---------------------------------------------------------------------------
  // The dispatch table as a value

  /**
   * The slot of table key j holds what j resolves to, and j carries the fallthrough flag
   * exactly when that kernel is a fallthrough. Keys without a slot impose nothing.
   */
  ghost predicate SlotFresh(
    ks: KeySets, fallbacks: seq<AnnotatedKernel>, kernels: Registry, table: seq<Kernel>,
    flags: set<DispatchKey>, j: DispatchKey)
    requires Resolvable(ks, fallbacks, kernels) && |table| == NumRuntimeEntries()
  {
    var ix := ks.tableIndex(j);
    ix != -1 ==>
      && table[ix] == ComputeDispatchTableEntry(ks, fallbacks, kernels, j)
      && (j in flags <==> table[ix].IsFallthrough())
  }

  /** Every table key's slot is fresh: the invariant checkInvariants asserts. */
  ghost predicate TableFresh(
    ks: KeySets, fallbacks: seq<AnnotatedKernel>, kernels: Registry, table: seq<Kernel>, flags: set<DispatchKey>)
  {
    && Resolvable(ks, fallbacks, kernels) && |table| == NumRuntimeEntries()
    && forall j :: j in ks.TableKeys() ==> SlotFresh(ks, fallbacks, kernels, table, flags, j)
  }

  /** Two tables agree on every slot outside the given ones. */
  ghost predicate SameOutside(t1: seq<Kernel>, t2: seq<Kernel>, slots: set<int>)
  {
    |t1| == |t2| && forall i :: 0 <= i < |t1| && i !in slots ==> t2[i] == t1[i]
  }

  /** Two flag sets agree on every key outside the given ones. */
  ghost predicate SameFlagsOutside(f1: set<DispatchKey>, f2: set<DispatchKey>, keys: set<DispatchKey>)
  {
    forall x :: x !in keys ==> (x in f2 <==> x in f1)
  }

  /** A key outside a refreshed set keeps its slot, since no refreshed key shares it. */
  lemma OutsideSlots(ks: KeySets, refreshed: set<DispatchKey>, j: DispatchKey)
    requires ks.Valid() && refreshed <= ks.TableKeys()
    requires j in ks.TableKeys() && j !in refreshed && ks.tableIndex(j) != -1
    ensures ks.tableIndex(j) !in ks.Slots(refreshed)
  {
    forall j' | j' in refreshed ensures ks.tableIndex(j') != ks.tableIndex(j) {
      assert j' != j;
    }
  }

  /** A slot nobody rewrote, of a key whose flag nobody touched, stays fresh. */
  lemma OutsideRefreshStaysFresh(
    ks: KeySets, fallbacks: seq<AnnotatedKernel>, kernels: Registry, t1: seq<Kernel>, t2: seq<Kernel>,
    f1: set<DispatchKey>, f2: set<DispatchKey>, refreshed: set<DispatchKey>, j: DispatchKey)
    requires ks.Valid() && Resolvable(ks, fallbacks, kernels)
    requires |t1| == NumRuntimeEntries() && refreshed <= ks.TableKeys()
    requires j in ks.TableKeys() && j !in refreshed
    requires SlotFresh(ks, fallbacks, kernels, t1, f1, j)
    requires SameOutside(t1, t2, ks.Slots(refreshed)) && SameFlagsOutside(f1, f2, refreshed)
    ensures SlotFresh(ks, fallbacks, kernels, t2, f2, j)
  {
    if ks.tableIndex(j) != -1 {
      OutsideSlots(ks, refreshed, j);
    }
  }

  /**
   * A fresh table stays fresh across a change of registrations or fallbacks followed by a
   * refresh of a set of keys, when every key outside that set resolves as before.
   */
  lemma RefreshKeepsTableFresh(
    ks: KeySets, fb1: seq<AnnotatedKernel>, fb2: seq<AnnotatedKernel>, k1: Registry, k2: Registry,
    t1: seq<Kernel>, t2: seq<Kernel>, f1: set<DispatchKey>, f2: set<DispatchKey>, refreshed: set<DispatchKey>)
    requires ks.Valid() && refreshed <= ks.TableKeys()
    requires TableFresh(ks, fb1, k1, t1, f1)
    requires Resolvable(ks, fb2, k2) && |t2| == NumRuntimeEntries()
    requires forall j :: j in ks.TableKeys() && j !in refreshed ==>
      ComputeDispatchTableEntry(ks, fb1, k1, j) == ComputeDispatchTableEntry(ks, fb2, k2, j)
    requires forall j :: j in refreshed ==> SlotFresh(ks, fb2, k2, t2, f2, j)
    requires SameOutside(t1, t2, ks.Slots(refreshed)) && SameFlagsOutside(f1, f2, refreshed)
    ensures TableFresh(ks, fb2, k2, t2, f2)
  {
    forall j | j in ks.TableKeys() ensures SlotFresh(ks, fb2, k2, t2, f2, j) {
      if j !in refreshed && ks.tableIndex(j) != -1 {
        OutsideSlots(ks, refreshed, j);
      }
    }
  }

  /**
   * A change confined to the registrations of one key, followed by a refresh of a set of keys
   * that covers the change, leaves a fresh table fresh.
   */
  lemma CoveredRefreshKeepsTableFresh(
    ks: KeySets, fallbacks: seq<AnnotatedKernel>, k1: Registry, k2: Registry,
    t1: seq<Kernel>, t2: seq<Kernel>, f1: set<DispatchKey>, f2: set<DispatchKey>, key: DispatchKey,
    refreshed: set<DispatchKey>)
    requires ks.Valid() && TableFresh(ks, fallbacks, k1, t1, f1)
    requires Resolvable(ks, fallbacks, k2) && |t2| == NumRuntimeEntries()
    requires AgreeExcept(k1, k2, key) && refreshed <= ks.TableKeys() && Covers(ks, k1, key, refreshed)
    requires forall j :: j in refreshed ==> SlotFresh(ks, fallbacks, k2, t2, f2, j)
    requires SameOutside(t1, t2, ks.Slots(refreshed)) && SameFlagsOutside(f1, f2, refreshed)
    ensures TableFresh(ks, fallbacks, k2, t2, f2)
  {
    forall j | j in ks.TableKeys() && j !in refreshed
      ensures ComputeDispatchTableEntry(ks, fallbacks, k1, j) == ComputeDispatchTableEntry(ks, fallbacks, k2, j)
    {
      UnrefreshedResolutionsUnchanged(ks, fallbacks, k1, k2, key, refreshed, j);
    }
    RefreshKeepsTableFresh(ks, fallbacks, fallbacks, k1, k2, t1, t2, f1, f2, refreshed);
  }

  /**
   * A change confined to the registrations of one key, followed by updateDispatchTable_ of that
   * key, leaves a fresh table fresh, unless it is the explicit-after-implicit change.
   */
  lemma KeyedRefreshKeepsTableFresh(
    ks: KeySets, fallbacks: seq<AnnotatedKernel>, k1: Registry, k2: Registry,
    t1: seq<Kernel>, t2: seq<Kernel>, f1: set<DispatchKey>, f2: set<DispatchKey>, key: DispatchKey)
    requires ks.Valid() && TableFresh(ks, fallbacks, k1, t1, f1)
    requires Resolvable(ks, fallbacks, k2) && |t2| == NumRuntimeEntries()
    requires AgreeExcept(k1, k2, key) && !ExplicitAfterImplicit(ks, k1, key)
    requires forall j :: j in RefreshedKeys(ks, key) ==> SlotFresh(ks, fallbacks, k2, t2, f2, j)
    requires SameOutside(t1, t2, ks.Slots(RefreshedKeys(ks, key)))
    requires SameFlagsOutside(f1, f2, RefreshedKeys(ks, key))
    ensures TableFresh(ks, fallbacks, k2, t2, f2)
  {
    RefreshedKeysAreTableKeys(ks, key);
    RefreshCoversExactly(ks, k1, key);
    CoveredRefreshKeepsTableFresh(ks, fallbacks, k1, k2, t1, t2, f1, f2, key, RefreshedKeys(ks, key));
  }

  /** With the corrected refresh, every change to one key's registrations leaves a fresh table fresh. */
  lemma CorrectedRefreshKeepsTableFresh(
    ks: KeySets, fallbacks: seq<AnnotatedKernel>, k1: Registry, k2: Registry,
    t1: seq<Kernel>, t2: seq<Kernel>, f1: set<DispatchKey>, f2: set<DispatchKey>, key: DispatchKey)
    requires ks.Valid() && TableFresh(ks, fallbacks, k1, t1, f1)
    requires Resolvable(ks, fallbacks, k2) && |t2| == NumRuntimeEntries()
    requires AgreeExcept(k1, k2, key)
    requires forall j :: j in CorrectedRefreshedKeys(ks, key) ==> SlotFresh(ks, fallbacks, k2, t2, f2, j)
    requires SameOutside(t1, t2, ks.Slots(CorrectedRefreshedKeys(ks, key)))
    requires SameFlagsOutside(f1, f2, CorrectedRefreshedKeys(ks, key))
    ensures TableFresh(ks, fallbacks, k2, t2, f2)
  {
    CorrectedRefreshCovers(ks, k1, key);
    CoveredRefreshKeepsTableFresh(ks, fallbacks, k1, k2, t1, t2, f1, f2, key, CorrectedRefreshedKeys(ks, key));
  }

  /**
   * Fallbacks that changed only in the slot of key k change the resolution of no other
   * table key: the fallback step reads only the key's own slot.
   */
  lemma FallbackChangeIsLocal(
    ks: KeySets, fb1: seq<AnnotatedKernel>, fb2: seq<AnnotatedKernel>, kernels: Registry, k: DispatchKey, j: DispatchKey)
    requires ks.Valid() && Resolvable(ks, fb1, kernels) && |fb2| == |fb1|
    requires forall i :: 0 <= i < |fb1| && i != ks.tableIndex(k) ==> fb2[i] == fb1[i]
    requires k in ks.TableKeys() && j in ks.TableKeys() && j != k
    ensures ComputeDispatchTableEntryWithDebug(ks, fb1, kernels, j)
         == ComputeDispatchTableEntryWithDebug(ks, fb2, kernels, j)
  {
    var ix := ks.tableIndex(j);
    if ix >= 0 {
      assert ix != ks.tableIndex(k);
      assert fb2[ix] == fb1[ix];
    }
  }

  // ---------------------------------------------------------------------------
  // The checks of registerKernel

  /** A C++ signature is given, one is recorded, and they differ. */
  predicate SignatureMismatch(recorded: Option<CppSignatureWithDebug>, given: Option<CppSignature>)
  {
    given.Some? && recorded.Some? && given.value != recorded.value.signature
  }

  /** A schema is registered, the kernel comes with an inferred one, and they differ. */
  predicate InferredSchemaMismatch(differs: (Schema, Schema) -> bool, schema: Option<AnnotatedSchema>, inferred: Option<Schema>)
  {
    schema.Some? && inferred.Some? && differs(schema.value.schema, inferred.value)
  }

  // ---------------------------------------------------------------------------
  // dumpState

  /** One line of dumpState: the key, whether it is an alias, whether the kernel is inactive, the kernel. */
  datatype DumpLine = DumpLine(key: DispatchKey, isAlias: bool, inactive: bool, annotated: AnnotatedKernel)

  /** The lines printed for one key: its list in order, all but the first marked inactive. */
  function KeyLines(kernels: Registry, k: DispatchKey): seq<DumpLine>
  {
    if k in kernels then
      seq(|kernels[k]|, p requires 0 <= p < |kernels[k]| =>
        DumpLine(k, IsAliasDispatchKey(k), p > 0, kernels[k][p].annotated))
    else []
  }

  /** The lines for the keys below n, in key order. */
  function DumpLinesBelow(kernels: Registry, n: nat): seq<DumpLine>
    requires n <= EndOfAliasKeys + 1
  {
    if n == 0 then [] else DumpLinesBelow(kernels, n - 1) + KeyLines(kernels, n - 1)
  }

  /**
   * dumpState lists each registered kernel once, as a line of its own key, in key order,
   * and marks inactive exactly the kernels behind the front of their list.
   */
  lemma {:induction false} DumpLinesListEveryKernel(kernels: Registry, n: nat)
    requires n <= EndOfAliasKeys + 1
    ensures var lines := DumpLinesBelow(kernels, n);
      && (forall l :: l in lines ==> l.key < n && l.key in kernels && l.isAlias == IsAliasDispatchKey(l.key))
      && (forall k: DispatchKey, p :: k < n && k in kernels && 0 <= p < |kernels[k]| ==>
            DumpLine(k, IsAliasDispatchKey(k), p > 0, kernels[k][p].annotated) in lines)
      && (forall a, b :: 0 <= a < b < |lines| ==> lines[a].key <= lines[b].key)
  {
    if n > 0 {
      DumpLinesListEveryKernel(kernels, n - 1);
      var prev := DumpLinesBelow(kernels, n - 1);
      var last := KeyLines(kernels, n - 1);
      var lines := prev + last;
      assert forall l :: l in last ==> l.key == n - 1;
      forall k: DispatchKey, p | k < n && k in kernels && 0 <= p < |kernels[k]|
        ensures DumpLine(k, IsAliasDispatchKey(k), p > 0, kernels[k][p].annotated) in lines
      {
        if k == n - 1 {
          assert last[p] == DumpLine(k, IsAliasDispatchKey(k), p > 0, kernels[k][p].annotated);
        }
      }
      forall a, b | 0 <= a < b < |lines| ensures lines[a].key <= lines[b].key {
        if b >= |prev| {
          assert lines[b] in last;
          if a < |prev| {
            assert lines[a] in prev;
          } else {
            assert lines[a] in last;
          }
        }
      }
    }
  }

  // ---------------------------------------------------------------------------
  // The entry

  /** A predicate on a registration: its inferred schema differs from s. */
  predicate ConflictsWith(differs: (Schema, Schema) -> bool, s: Schema, reg: Registration)
  {
    reg.annotated.inferredSchema.Some? && differs(s, reg.annotated.inferredSchema.value)
  }

  class OperatorEntry {
    var schema: Option<AnnotatedSchema>
    var cppSignature: Option<CppSignatureWithDebug>
    var kernels: Registry
    /** The handle the next registration receives. */
    var nextId: nat
    const dispatchTable: array<Kernel>
    /** The keys the extractor flags as having a fallthrough kernel for this operator. */
    var fallthroughKeys: set<DispatchKey>

    /** The shape of the registry, its handles, and the size of the table. */
    ghost predicate Valid()
      reads this
    {
      dispatchTable.Length == NumRuntimeEntries() && WellFormed(kernels) && IdsBelow(kernels, nextId)
      && IdsDistinct(kernels)
    }

    /** The table and the flags agree with what every table key resolves to. */
    ghost predicate Consistent(ks: KeySets, fallbacks: seq<AnnotatedKernel>)
      reads this, dispatchTable
    {
      && Valid() && ks.Valid()
      && TableFresh(ks, fallbacks, kernels, dispatchTable[..], fallthroughKeys)
    }

    /** The slot of k, if it has one, holds what k resolves to (the check of checkInvariants). */
    ghost predicate EntryMatches(ks: KeySets, fallbacks: seq<AnnotatedKernel>, k: DispatchKey)
      reads this, dispatchTable
      requires Valid() && Resolvable(ks, fallbacks, kernels)
    {
      ks.tableIndex(k) == -1
      || dispatchTable[ks.tableIndex(k)] == ComputeDispatchTableEntry(ks, fallbacks, kernels, k)
    }

    /** The constructor: no schema, no kernels, and a full table update to pick up the fallbacks. */
    constructor(ks: KeySets, fallbacks: seq<AnnotatedKernel>)
      requires ks.Valid() && |fallbacks| == NumRuntimeEntries()
      ensures schema == None && cppSignature == None && kernels == map[] && nextId == 0
      ensures Consistent(ks, fallbacks)
      ensures fresh(dispatchTable)
    {
      schema := None;
      cppSignature := None;
      kernels := map[];
      nextId := 0;
      dispatchTable := new Kernel[NumRuntimeEntries()](_ => Missing);
      fallthroughKeys := {};
      new;
      UpdateDispatchTableFull(ks, fallbacks);
    }

    /** updateDispatchTableEntry_: recompute the slot of k and its fallthrough flag; keys without a slot are skipped. */
    method UpdateDispatchTableEntry(ks: KeySets, fallbacks: seq<AnnotatedKernel>, k: DispatchKey)
      requires Valid() && Resolvable(ks, fallbacks, kernels)
      modifies dispatchTable, this`fallthroughKeys
      ensures SlotFresh(ks, fallbacks, kernels, dispatchTable[..], fallthroughKeys, k)
      ensures SameOutside(old(dispatchTable[..]), dispatchTable[..], ks.Slots({k}))
      ensures SameFlagsOutside(old(fallthroughKeys), fallthroughKeys, {k})
      ensures ks.tableIndex(k) == -1 ==>
        dispatchTable[..] == old(dispatchTable[..]) && fallthroughKeys == old(fallthroughKeys)
    {
      var ix := ks.tableIndex(k);
      if ix == -1 {
        return;
      }
      dispatchTable[ix] := ComputeDispatchTableEntry(ks, fallbacks, kernels, k);
      if dispatchTable[ix].IsFallthrough() {
        fallthroughKeys := fallthroughKeys + {k};
      } else {
        fallthroughKeys := fallthroughKeys - {k};
      }
    }

    /**
     * updateDispatchTable_: refresh the keys RefreshedKeys(k) names, and nothing else: every
     * other slot and every other flag keeps its value.
     */
    method UpdateDispatchTable(ks: KeySets, fallbacks: seq<AnnotatedKernel>, k: DispatchKey)
      requires Valid() && ks.Valid() && Resolvable(ks, fallbacks, kernels)
      modifies dispatchTable, this`fallthroughKeys
      ensures forall j :: j in RefreshedKeys(ks, k) ==>
        SlotFresh(ks, fallbacks, kernels, dispatchTable[..], fallthroughKeys, j)
      ensures SameOutside(old(dispatchTable[..]), dispatchTable[..], ks.Slots(RefreshedKeys(ks, k)))
      ensures SameFlagsOutside(old(fallthroughKeys), fallthroughKeys, RefreshedKeys(ks, k))
    {
      RefreshedKeysAreTableKeys(ks, k);
      var refreshed := RefreshedKeys(ks, k);
      ghost var t0 := dispatchTable[..];
      ghost var f0 := fallthroughKeys;
      if k == Undefined {
        UpdateDispatchTableEntry(ks, fallbacks, Undefined);
        return;
      }
      var todo := ks.runtimeKeySet(k);
      ghost var done: set<DispatchKey> := {};
      while todo != {}
        invariant todo + done == ks.runtimeKeySet(k) && todo !! done
        invariant forall j :: j in done ==> SlotFresh(ks, fallbacks, kernels, dispatchTable[..], fallthroughKeys, j)
        invariant SameOutside(t0, dispatchTable[..], ks.Slots(done))
        invariant SameFlagsOutside(f0, fallthroughKeys, done)
        decreases todo
      {
        var j :| j in todo;
        Refresh(ks, fallbacks, j, done);
        todo := todo - {j};
        done := done + {j};
      }
      if IsCompositeAlias(k) {
        Refresh(ks, fallbacks, Undefined, done);
        done := done + {Undefined};
      }
      if ks.isBackendDispatchKey(k) {
        var autogradKey := ks.autogradKeyFromBackend(ToBackendComponent(k));
        Refresh(ks, fallbacks, autogradKey, done);
        done := done + {autogradKey};
      }
      assert done == refreshed;
    }

    /** One step of updateDispatchTable_: refresh j and keep the keys refreshed so far fresh. */
    method Refresh(ks: KeySets, fallbacks: seq<AnnotatedKernel>, j: DispatchKey, ghost done: set<DispatchKey>)
      requires Valid() && ks.Valid() && Resolvable(ks, fallbacks, kernels)
      requires done <= ks.TableKeys() && j in ks.TableKeys()
      requires forall d :: d in done ==> SlotFresh(ks, fallbacks, kernels, dispatchTable[..], fallthroughKeys, d)
      modifies dispatchTable, this`fallthroughKeys
      ensures forall d :: d in done + {j} ==> SlotFresh(ks, fallbacks, kernels, dispatchTable[..], fallthroughKeys, d)
      ensures SameOutside(old(dispatchTable[..]), dispatchTable[..], ks.Slots({j}))
      ensures SameFlagsOutside(old(fallthroughKeys), fallthroughKeys, {j})
    {
      ghost var t0 := dispatchTable[..];
      ghost var f0 := fallthroughKeys;
      UpdateDispatchTableEntry(ks, fallbacks, j);
      forall d | d in done && d != j
        ensures SlotFresh(ks, fallbacks, kernels, dispatchTable[..], fallthroughKeys, d)
      {
        OutsideRefreshStaysFresh(ks, fallbacks, kernels, t0, dispatchTable[..], f0, fallthroughKeys, {j}, d);
      }
    }

    /** updateDispatchTableFull_: refresh Undefined, then every key of FULL; afterwards the whole table is fresh. */
    method UpdateDispatchTableFull(ks: KeySets, fallbacks: seq<AnnotatedKernel>)
      requires Valid() && ks.Valid() && Resolvable(ks, fallbacks, kernels)
      modifies dispatchTable, this`fallthroughKeys
      ensures Consistent(ks, fallbacks)
    {
      UpdateDispatchTable(ks, fallbacks, Undefined);
      var todo := ks.full;
      ghost var done: set<DispatchKey> := {Undefined};
      while todo != {}
        invariant todo + done == ks.TableKeys() && todo !! done
        invariant forall j :: j in done ==> SlotFresh(ks, fallbacks, kernels, dispatchTable[..], fallthroughKeys, j)
        decreases todo
      {
        var k :| k in todo;
        ghost var t0 := dispatchTable[..];
        ghost var f0 := fallthroughKeys;
        UpdateDispatchTable(ks, fallbacks, k);
        RefreshedKeysAreTableKeys(ks, k);
        forall d | d in done && d !in RefreshedKeys(ks, k)
          ensures SlotFresh(ks, fallbacks, kernels, dispatchTable[..], fallthroughKeys, d)
        {
          OutsideRefreshStaysFresh(ks, fallbacks, kernels, t0, dispatchTable[..], f0, fallthroughKeys,
                                   RefreshedKeys(ks, k), d);
        }
        todo := todo - {k};
        done := done + {k};
      }
    }

    /** hasKernelForDispatchKey: a scan of the registry for the key. */
    method HasKernelForDispatchKey(k: DispatchKey) returns (b: bool)
      requires Undefined !in kernels
      ensures b == KernelRegistry.HasKernelForDispatchKey(kernels, k)
    {
      var todo := kernels.Keys;
      while todo != {}
        invariant todo <= kernels.Keys
        invariant k !in todo ==> k !in kernels
        decreases todo
      {
        var x :| x in todo;
        if x == k {
          return true;
        }
        todo := todo - {x};
      }
      return false;
    }

    /** hasKernelForAnyDispatchKey: a scan of the registry for a non-alias key of the set. */
    method HasKernelForAnyDispatchKey(s: set<DispatchKey>) returns (b: bool)
      requires Undefined !in kernels
      ensures b == KernelRegistry.HasKernelForAnyDispatchKey(kernels, s)
    {
      var todo := kernels.Keys;
      while todo != {}
        invariant todo <= kernels.Keys
        invariant forall x :: x in kernels && x !in todo ==> IsAliasDispatchKey(x) || x !in s
        decreases todo
      {
        var x :| x in todo;
        if !IsAliasDispatchKey(x) && x in s {
          return true;
        }
        todo := todo - {x};
      }
      return false;
    }

    /**
     * The schema check of registerSchema over every registered kernel: a conflicting
     * inferred schema, if some kernel has one.
     */
    method FindSchemaConflict(differs: (Schema, Schema) -> bool, s: Schema) returns (r: Option<Schema>)
      ensures r.None? <==>
        forall k, i :: k in kernels && 0 <= i < |kernels[k]| ==> !ConflictsWith(differs, s, kernels[k][i])
      ensures r.Some? ==>
        && differs(s, r.value)
        && exists k, i :: k in kernels && 0 <= i < |kernels[k]| && kernels[k][i].annotated.inferredSchema == Some(r.value)
    {
      var todo := kernels.Keys;
      while todo != {}
        invariant todo <= kernels.Keys
        invariant forall k, i :: k in kernels && k !in todo && 0 <= i < |kernels[k]| ==>
          !ConflictsWith(differs, s, kernels[k][i])
        decreases todo
      {
        var k :| k in todo;
        var list := kernels[k];
        var i := 0;
        while i < |list|
          invariant 0 <= i <= |list|
          invariant forall i' :: 0 <= i' < i ==> !ConflictsWith(differs, s, list[i'])
        {
          var inferred := list[i].annotated.inferredSchema;
          if inferred.Some? && differs(s, inferred.value) {
            return Some(inferred.value);
          }
          i := i + 1;
        }
        todo := todo - {k};
      }
      return None;
    }

    /**
     * registerSchema: refused when some registered kernel's inferred schema differs from the
     * new schema; otherwise the schema is installed. Nothing else changes.
     */
    method RegisterSchema(differs: (Schema, Schema) -> bool, s: Schema, debug: string)
      returns (r: Outcome<RegistrationError>)
      requires schema.None?
      modifies this`schema
      ensures r.Fail? <==>
        exists k, i :: k in kernels && 0 <= i < |kernels[k]| && ConflictsWith(differs, s, kernels[k][i])
      ensures r.Fail? ==>
        && schema == None && r.error.SchemaMismatch? && r.error.expected == s
        && differs(s, r.error.inferred)
      ensures r.Pass? ==> schema == Some(AnnotatedSchema(s, debug))
    {
      var conflict := FindSchemaConflict(differs, s);
      if conflict.Some? {
        return Fail(SchemaMismatch(s, conflict.value));
      }
      schema := Some(AnnotatedSchema(s, debug));
      return Pass;
    }

    /** deregisterSchema: the schema is removed; nothing else changes. */
    method DeregisterSchema()
      requires schema.Some?
      modifies this`schema
      ensures schema == None
    {
      schema := None;
    }

    /**
     * registerKernel. A C++ signature that differs from the recorded one is refused with no
     * change; the first one seen is recorded, even when the schema check then fails. An inferred
     * schema that differs from the registered schema is refused. Otherwise the kernel goes in
     * front of the list of its key (CompositeImplicitAutograd for catch-all) under a fresh handle
     * and becomes that key's active kernel.
     */
    method RegisterKernel(
      ks: KeySets, fallbacks: seq<AnnotatedKernel>, differs: (Schema, Schema) -> bool,
      dispatchKey: Option<DispatchKey>, kernel: Kernel, cppSig: Option<CppSignature>,
      inferred: Option<Schema>, debug: string
    ) returns (r: Result<RegistrationId, RegistrationError>)
      requires Valid() && ks.Valid() && |fallbacks| == NumRuntimeEntries()
      requires kernel.IsValid() && dispatchKey != Some(Undefined)
      modifies this, dispatchTable
      ensures Valid() && schema == old(schema)
      ensures cppSignature ==
        if old(cppSignature).None? && cppSig.Some? then Some(CppSignatureWithDebug(cppSig.value, debug, dispatchKey))
        else old(cppSignature)
      ensures r.Failure? <==>
        SignatureMismatch(old(cppSignature), cppSig) || InferredSchemaMismatch(differs, schema, inferred)
      ensures r.Failure? ==>
        if SignatureMismatch(old(cppSignature), cppSig)
        then r.error == CppSignatureMismatch(old(cppSignature).value.signature, cppSig.value)
        else r.error == SchemaMismatch(schema.value.schema, inferred.value)
      ensures r.Failure? ==>
        && kernels == old(kernels) && nextId == old(nextId)
        && dispatchTable[..] == old(dispatchTable[..]) && fallthroughKeys == old(fallthroughKeys)
      ensures r.Success? ==>
        && r.value == old(nextId) && nextId == old(nextId) + 1
        && kernels == PushKernel(old(kernels), TargetKey(dispatchKey), Registration(r.value, AnnotatedKernel(kernel, inferred, debug)))
        && GetKernelForDispatchKey(kernels, TargetKey(dispatchKey)) == Some(AnnotatedKernel(kernel, inferred, debug))
      ensures r.Success? && dispatchKey.None? ==> Consistent(ks, fallbacks)
      ensures r.Success? && dispatchKey.Some? ==>
        && (forall j :: j in RefreshedKeys(ks, dispatchKey.value) ==>
              SlotFresh(ks, fallbacks, kernels, dispatchTable[..], fallthroughKeys, j))
        && SameOutside(old(dispatchTable[..]), dispatchTable[..], ks.Slots(RefreshedKeys(ks, dispatchKey.value)))
        && SameFlagsOutside(old(fallthroughKeys), fallthroughKeys, RefreshedKeys(ks, dispatchKey.value))
      ensures (&& r.Success? && dispatchKey.Some? && old(Consistent(ks, fallbacks))
               && !ExplicitAfterImplicit(ks, old(kernels), dispatchKey.value))
        ==> Consistent(ks, fallbacks)
    {
      if cppSig.Some? {
        if cppSignature.Some? {
          if cppSig.value != cppSignature.value.signature {
            return Failure(CppSignatureMismatch(cppSignature.value.signature, cppSig.value));
          }
        } else {
          cppSignature := Some(CppSignatureWithDebug(cppSig.value, debug, dispatchKey));
        }
      }
      if schema.Some? && inferred.Some? && differs(schema.value.schema, inferred.value) {
        return Failure(SchemaMismatch(schema.value.schema, inferred.value));
      }
      var id := AddKernel(ks, fallbacks, dispatchKey, AnnotatedKernel(kernel, inferred, debug));
      return Success(id);
    }

    /**
     * The part of registerKernel after the checks: emplace_front on the list of the target key,
     * then a refresh of RefreshedKeys(key) for a keyed registration and of the whole table for
     * a catch-all one. The keyed refresh keeps a consistent table consistent unless the
     * registration is the explicit-after-implicit one.
     */
    method AddKernel(
      ks: KeySets, fallbacks: seq<AnnotatedKernel>, dispatchKey: Option<DispatchKey>, annotated: AnnotatedKernel
    ) returns (id: RegistrationId)
      requires Valid() && ks.Valid() && |fallbacks| == NumRuntimeEntries()
      requires annotated.kernel.IsValid() && dispatchKey != Some(Undefined)
      modifies this`kernels, this`nextId, dispatchTable, this`fallthroughKeys
      ensures Valid()
      ensures id == old(nextId) && nextId == old(nextId) + 1
      ensures kernels == PushKernel(old(kernels), TargetKey(dispatchKey), Registration(id, annotated))
      ensures GetKernelForDispatchKey(kernels, TargetKey(dispatchKey)) == Some(annotated)
      ensures dispatchKey.None? ==> Consistent(ks, fallbacks)
      ensures dispatchKey.Some? ==>
        && (forall j :: j in RefreshedKeys(ks, dispatchKey.value) ==>
              SlotFresh(ks, fallbacks, kernels, dispatchTable[..], fallthroughKeys, j))
        && SameOutside(old(dispatchTable[..]), dispatchTable[..], ks.Slots(RefreshedKeys(ks, dispatchKey.value)))
        && SameFlagsOutside(old(fallthroughKeys), fallthroughKeys, RefreshedKeys(ks, dispatchKey.value))
      ensures (&& dispatchKey.Some? && old(Consistent(ks, fallbacks))
               && !ExplicitAfterImplicit(ks, old(kernels), dispatchKey.value))
        ==> Consistent(ks, fallbacks)
    {
      var key := TargetKey(dispatchKey);
      ghost var k0 := kernels;
      ghost var t0 := dispatchTable[..];
      ghost var f0 := fallthroughKeys;
      PushMakesNewestActive(kernels, key, Registration(nextId, annotated), key);
      PushKeepsIdsBelow(kernels, key, annotated, nextId);
      PushKeepsIdsDistinct(kernels, key, annotated, nextId);
      kernels := PushKernel(kernels, key, Registration(nextId, annotated));
      id := nextId;
      nextId := nextId + 1;
      if dispatchKey.Some? {
        UpdateDispatchTable(ks, fallbacks, key);
        if TableFresh(ks, fallbacks, k0, t0, f0) && !ExplicitAfterImplicit(ks, k0, key) {
          assert AgreeExcept(k0, kernels, key);
          KeyedRefreshKeepsTableFresh(ks, fallbacks, k0, kernels, t0, dispatchTable[..], f0, fallthroughKeys, key);
        }
      } else {
        UpdateDispatchTableFull(ks, fallbacks);
      }
    }

    /**
     * deregisterKernel_: remove the registration with the given handle from the list of its key
     * (CompositeImplicitAutograd for catch-all), drop the list when it becomes empty, and
     * refresh RefreshedKeys(key), also for catch-all. The table stays consistent unless the
     * removal is of a CompositeExplicitAutograd kernel while an implicit one is registered.
     */
    method DeregisterKernel(
      ks: KeySets, fallbacks: seq<AnnotatedKernel>, dispatchKey: Option<DispatchKey>, id: RegistrationId)
      requires Valid() && ks.Valid() && |fallbacks| == NumRuntimeEntries()
      requires TargetKey(dispatchKey) in kernels && HasId(kernels[TargetKey(dispatchKey)], id)
      modifies this`kernels, dispatchTable, this`fallthroughKeys
      ensures Valid()
      ensures kernels == EraseKernel(old(kernels), TargetKey(dispatchKey), id)
      ensures forall i ::
        (0 <= i < |old(kernels[TargetKey(dispatchKey)])| && old(kernels[TargetKey(dispatchKey)])[i].id == id) ==>
          var rest := old(kernels[TargetKey(dispatchKey)])[..i] + old(kernels[TargetKey(dispatchKey)])[i + 1..];
          && (TargetKey(dispatchKey) in kernels <==> rest != [])
          && (TargetKey(dispatchKey) in kernels ==> kernels[TargetKey(dispatchKey)] == rest)
      ensures cppSignature == old(cppSignature) && schema == old(schema) && nextId == old(nextId)
      ensures forall j :: j in RefreshedKeys(ks, TargetKey(dispatchKey)) ==>
        SlotFresh(ks, fallbacks, kernels, dispatchTable[..], fallthroughKeys, j)
      ensures SameOutside(old(dispatchTable[..]), dispatchTable[..], ks.Slots(RefreshedKeys(ks, TargetKey(dispatchKey))))
      ensures SameFlagsOutside(old(fallthroughKeys), fallthroughKeys, RefreshedKeys(ks, TargetKey(dispatchKey)))
      ensures old(Consistent(ks, fallbacks)) && !ExplicitAfterImplicit(ks, old(kernels), TargetKey(dispatchKey)) ==>
        Consistent(ks, fallbacks)
    {
      var key := TargetKey(dispatchKey);
      ghost var k0: Registry := kernels;
      ghost var t0 := dispatchTable[..];
      ghost var f0 := fallthroughKeys;
      forall i | 0 <= i < |k0[key]| && k0[key][i].id == id
        ensures RemoveRegistration(k0[key], id) == k0[key][..i] + k0[key][i + 1..]
      {
        EraseRemovesThatRegistration(k0, key, id, i);
      }
      EraseKeepsWellFormed(kernels, key, id);
      EraseKeepsIdsBelow(kernels, key, id, nextId);
      EraseKeepsIdsDistinct(kernels, key, id);
      kernels := EraseKernel(kernels, key, id);
      UpdateDispatchTable(ks, fallbacks, key);
      if TableFresh(ks, fallbacks, k0, t0, f0) && !ExplicitAfterImplicit(ks, k0, key) {
        assert AgreeExcept(k0, kernels, key);
        KeyedRefreshKeepsTableFresh(ks, fallbacks, k0, kernels, t0, dispatchTable[..], f0, fallthroughKeys, key);
      }
    }

    /**
     * updateFallback: after the backend fallback of key k changed (and nothing else did),
     * refreshing k restores a consistent table.
     */
    method UpdateFallback(
      ks: KeySets, ghost oldFallbacks: seq<AnnotatedKernel>, fallbacks: seq<AnnotatedKernel>, k: DispatchKey)
      requires Valid() && ks.Valid() && |fallbacks| == NumRuntimeEntries()
      modifies dispatchTable, this`fallthroughKeys
      ensures forall j :: j in RefreshedKeys(ks, k) ==>
        SlotFresh(ks, fallbacks, kernels, dispatchTable[..], fallthroughKeys, j)
      ensures SameOutside(old(dispatchTable[..]), dispatchTable[..], ks.Slots(RefreshedKeys(ks, k)))
      ensures SameFlagsOutside(old(fallthroughKeys), fallthroughKeys, RefreshedKeys(ks, k))
      ensures old(Consistent(ks, oldFallbacks)) && k in ks.TableKeys()
        && (forall i :: 0 <= i < |fallbacks| && i != ks.tableIndex(k) ==> fallbacks[i] == oldFallbacks[i])
        ==> Consistent(ks, fallbacks)
    {
      ghost var t0 := dispatchTable[..];
      ghost var f0 := fallthroughKeys;
      UpdateDispatchTable(ks, fallbacks, k);
      if TableFresh(ks, oldFallbacks, kernels, t0, f0) && k in ks.TableKeys()
         && (forall i :: 0 <= i < |fallbacks| && i != ks.tableIndex(k) ==> fallbacks[i] == oldFallbacks[i])
      {
        RefreshedKeysAreTableKeys(ks, k);
        assert k in RefreshedKeys(ks, k);
        forall j | j in ks.TableKeys() && j !in RefreshedKeys(ks, k)
          ensures ComputeDispatchTableEntry(ks, oldFallbacks, kernels, j) == ComputeDispatchTableEntry(ks, fallbacks, kernels, j)
        {
          FallbackChangeIsLocal(ks, oldFallbacks, fallbacks, kernels, k, j);
        }
        RefreshKeepsTableFresh(ks, oldFallbacks, fallbacks, kernels, kernels, t0, dispatchTable[..], f0, fallthroughKeys,
                               RefreshedKeys(ks, k));
      }
    }

    /**
     * checkInvariants, as a verdict: whether every key of FULL that has a slot finds in it the
     * kernel it resolves to. A consistent entry always passes.
     */
    method CheckInvariants(ks: KeySets, fallbacks: seq<AnnotatedKernel>) returns (ok: bool)
      requires Valid() && ks.Valid() && |fallbacks| == NumRuntimeEntries()
      ensures ok <==> forall k :: k in ks.full ==> EntryMatches(ks, fallbacks, k)
      ensures Consistent(ks, fallbacks) ==> ok
    {
      var todo := ks.full;
      while todo != {}
        invariant todo <= ks.full
        invariant forall k :: k in ks.full && k !in todo ==> EntryMatches(ks, fallbacks, k)
        decreases todo
      {
        var k :| k in todo;
        var expected := ComputeDispatchTableEntry(ks, fallbacks, kernels, k);
        var ix := ks.tableIndex(k);
        if ix != -1 && expected != dispatchTable[ix] {
          assert !EntryMatches(ks, fallbacks, k);
          assert !SlotFresh(ks, fallbacks, kernels, dispatchTable[..], fallthroughKeys, k);
          return false;
        }
        todo := todo - {k};
      }
      return true;
    }

    /** dumpState's listing of the registry: the keys from Undefined to EndOfAliasKeys, in order. */
    method DumpState() returns (lines: seq<DumpLine>)
      ensures lines == DumpLinesBelow(kernels, EndOfAliasKeys + 1)
      ensures forall l :: l in lines ==> l.key in kernels && l.isAlias == IsAliasDispatchKey(l.key)
      ensures forall k, p :: k in kernels && 0 <= p < |kernels[k]| ==>
        DumpLine(k, IsAliasDispatchKey(k), p > 0, kernels[k][p].annotated) in lines
      ensures forall a, b :: 0 <= a < b < |lines| ==> lines[a].key <= lines[b].key
    {
      lines := [];
      var i := 0;
      while i <= EndOfAliasKeys
        invariant 0 <= i <= EndOfAliasKeys + 1
        invariant lines == DumpLinesBelow(kernels, i)
      {
        if i in kernels {
          var list := kernels[i];
          var p := 0;
          while p < |list|
            invariant 0 <= p <= |list|
            invariant lines == DumpLinesBelow(kernels, i) + KeyLines(kernels, i)[..p]
          {
            lines := lines + [DumpLine(i, IsAliasDispatchKey(i), p > 0, list[p].annotated)];
            p := p + 1;
          }
        }
        i := i + 1;
      }
      DumpLinesListEveryKernel(kernels, EndOfAliasKeys + 1);
    }
  }
}
