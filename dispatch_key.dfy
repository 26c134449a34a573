/**
 * The numbering of dispatch keys and backend components, and the constant-time maps
 * between them (c10/core/DispatchKey.h).
 *
 * A dispatch key is one of:
 *   - Undefined (0);
 *   - a functionality key, 1 .. 39, followed by the marker EndOfFunctionalityKeys (40);
 *   - a per-backend runtime key, in five contiguous blocks of fifteen (Dense, Quantized,
 *     Sparse, NestedTensor, Autograd); each block is its Start marker plus the backend
 *     components 0 .. EndOfBackendKeys;
 *   - one of the four alias keys, numbered above every runtime key.
 * Enum values are modelled as integers with named constants.
 */
module DispatchKeys {

  // ---------------------------------------------------------------------------
  // BackendComponent

  const InvalidBit: int := 0
  const CPUBit: int := 1
  const CUDABit: int := 2
  const MetaBit: int := 11
  const PrivateUse3Bit: int := 14
  /** EndOfBackendKeys = PrivateUse3Bit */
  const EndOfBackendKeys: int := PrivateUse3Bit

  /** The values of the BackendComponent enum: InvalidBit, CPUBit, ..., PrivateUse3Bit. */
  type BackendComponent = b: int | 0 <= b <= 14

  // ---------------------------------------------------------------------------
  // DispatchKey

  const Undefined: int := 0
  /** CatchAll = Undefined */
  const CatchAll: int := Undefined
  const Dense: int := 1
  const Quantized: int := 6
  const Sparse: int := 9
  const EndOfNonCustomizableBackends: int := 11
  const NestedTensor: int := 12
  const AutogradOther: int := 23
  const AutogradFunctionality: int := 24
  const AutogradNestedTensor: int := 25
  const TESTING_ONLY_GenericMode: int := 39
  const EndOfFunctionalityKeys: int := 40

  const StartOfDenseBackends: int := 41
  const CPU: int := 42
  const CUDA: int := 43
  const EndOfDenseBackends: int := 55
  const StartOfQuantizedBackends: int := 56
  const EndOfQuantizedBackends: int := 70
  const StartOfSparseBackends: int := 71
  const EndOfSparseBackends: int := 85
  const StartOfNestedTensorBackends: int := 86
  const EndOfNestedTensorBackends: int := 100
  const StartOfAutogradBackends: int := 101
  const AutogradCPU: int := 102
  const AutogradCUDA: int := 103
  const EndOfAutogradBackends: int := 115
  /** EndOfRuntimeBackendKeys = EndOfAutogradBackends */
  const EndOfRuntimeBackendKeys: int := EndOfAutogradBackends

  const Autograd: int := 116
  const CompositeImplicitAutograd: int := 117
  const CompositeExplicitAutograd: int := 118
  const CompositeExplicitAutogradNonFunctional: int := 119
  const StartOfAliasKeys: int := Autograd
  const EndOfAliasKeys: int := CompositeExplicitAutogradNonFunctional

  /** The values of the DispatchKey enum, Undefined .. EndOfAliasKeys. */
  type DispatchKey = k: int | 0 <= k <= 119

  // ---------------------------------------------------------------------------
  // Classification

  /**
   * isAliasDispatchKey: the keys from StartOfAliasKeys to EndOfAliasKeys, which are exactly the
   * four aliases, all above every runtime key.
   */
  predicate IsAliasDispatchKey(k: DispatchKey): (r: bool)
    ensures r <==>
      k == Autograd || k == CompositeImplicitAutograd || k == CompositeExplicitAutograd
      || k == CompositeExplicitAutogradNonFunctional
    ensures r ==> k > EndOfRuntimeBackendKeys
  {
    StartOfAliasKeys <= k <= EndOfAliasKeys
  }

  /**
   * isPerBackendFunctionalityKey: the five functionalities that own one runtime key per backend,
   * which are exactly the owners of the five blocks.
   */
  predicate IsPerBackendFunctionalityKey(k: DispatchKey): (r: bool)
    ensures r <==> exists i :: 0 <= i < 5 && BlockFunctionality(i) == k
    ensures r ==> Undefined < k < EndOfFunctionalityKeys
  {
    assert BlockFunctionality(0) == Dense && BlockFunctionality(1) == Quantized && BlockFunctionality(2) == Sparse;
    assert BlockFunctionality(3) == NestedTensor && BlockFunctionality(4) == AutogradFunctionality;
    k == Dense || k == Quantized || k == Sparse || k == AutogradFunctionality || k == NestedTensor
  }

  /** A key of one of the five per-backend blocks (including each block's Start marker). */
  predicate IsPerBackendRuntimeKey(k: DispatchKey)
  {
    StartOfDenseBackends <= k <= EndOfAutogradBackends
  }

  // ---------------------------------------------------------------------------
  // Counts

  /** num_functionality_keys */
  const NumFunctionalityKeys: int := EndOfFunctionalityKeys
  /** num_backends */
  const NumBackends: int := EndOfBackendKeys

  /**
   * The counting loop of numPerBackendFunctionalityKeys, over the keys 0 .. n:
   * the number of those keys that are per-backend functionalities.
   */
  function CountPerBackendFunctionalityKeys(n: DispatchKey): nat
  {
    (if IsPerBackendFunctionalityKey(n) then 1 else 0)
    + (if n == 0 then 0 else CountPerBackendFunctionalityKeys(n - 1))
  }

  /** numPerBackendFunctionalityKeys: the loop runs over k = 0 .. num_functionality_keys. */
  function NumPerBackendFunctionalityKeys(): nat
  {
    CountPerBackendFunctionalityKeys(NumFunctionalityKeys)
  }

  /** num_runtime_entries (the non-mobile definition): 40 functionality keys plus 5 * 13 per-backend keys. */
  function NumRuntimeEntries(): (r: nat)
    ensures r == 105
  {
    CountPerBackendFunctionalityKeysAt(NumFunctionalityKeys);
    NumFunctionalityKeys + NumPerBackendFunctionalityKeys() * (NumBackends - 1)
  }

  function Pow2(n: nat): (r: nat)
    ensures r >= 1
  {
    if n == 0 then 1 else 2 * Pow2(n - 1)
  }

  /** full_backend_mask: (1 << num_backends) - 1, computed in 16 bits: the low 14 bits set. */
  function FullBackendMask(): (r: nat)
    ensures r == 0x3FFF
  {
    assert Pow2(14) == 0x4000 by {
      assert Pow2(4) == 16;
      assert Pow2(8) == 256;
      assert Pow2(12) == 4096;
    }
    (Pow2(NumBackends) - 1) % 0x1_0000
  }

  // ---------------------------------------------------------------------------
  // Maps between keys and components

  /** toBackendComponent: the offset of a per-backend runtime key inside its block. */
  function ToBackendComponent(k: DispatchKey): (r: BackendComponent)
    ensures !IsPerBackendRuntimeKey(k) ==> r == InvalidBit
    ensures IsPerBackendRuntimeKey(k) ==> r == (k - StartOfDenseBackends) % (EndOfBackendKeys + 1)
  {
    if StartOfDenseBackends <= k <= EndOfDenseBackends then
      k - StartOfDenseBackends
    else if StartOfQuantizedBackends <= k <= EndOfQuantizedBackends then
      k - StartOfQuantizedBackends
    else if StartOfSparseBackends <= k <= EndOfSparseBackends then
      k - StartOfSparseBackends
    else if StartOfNestedTensorBackends <= k <= EndOfNestedTensorBackends then
      k - StartOfNestedTensorBackends
    else if StartOfAutogradBackends <= k <= EndOfAutogradBackends then
      k - StartOfAutogradBackends
    else
      InvalidBit
  }

  /** The functionality owning block number i (0 .. 4), in enum order. */
  function BlockFunctionality(i: nat): DispatchKey
    requires i < 5
  {
    [Dense, Quantized, Sparse, NestedTensor, AutogradFunctionality][i]
  }

  /** toFunctionalityKey: functionality keys map to themselves, per-backend keys to their functionality. */
  function ToFunctionalityKey(k: DispatchKey): (r: DispatchKey)
    ensures k <= EndOfFunctionalityKeys ==> r == k
    ensures IsPerBackendRuntimeKey(k) ==>
      r == BlockFunctionality((k - StartOfDenseBackends) / (EndOfBackendKeys + 1))
    ensures k > EndOfAutogradBackends ==> r == Undefined
  {
    if k <= EndOfFunctionalityKeys then k
    else if k <= EndOfDenseBackends then Dense
    else if k <= EndOfQuantizedBackends then Quantized
    else if k <= EndOfSparseBackends then Sparse
    else if k <= EndOfNestedTensorBackends then NestedTensor
    else if k <= EndOfAutogradBackends then AutogradFunctionality
    else Undefined
  }

  /**
   * toRuntimePerBackendFunctionalityKey: the runtime key of functionality f on backend b.
   * Both maps above invert it on the per-backend functionalities.
   */
  function ToRuntimePerBackendFunctionalityKey(f: DispatchKey, b: BackendComponent): (r: DispatchKey)
    ensures !IsPerBackendFunctionalityKey(f) ==> r == Undefined
    ensures IsPerBackendFunctionalityKey(f) ==>
      && IsPerBackendRuntimeKey(r)
      && ToBackendComponent(r) == b
      && ToFunctionalityKey(r) == f
  {
    if f == Dense then StartOfDenseBackends + b
    else if f == Sparse then StartOfSparseBackends + b
    else if f == Quantized then StartOfQuantizedBackends + b
    else if f == NestedTensor then StartOfNestedTensorBackends + b
    else if f == AutogradFunctionality then StartOfAutogradBackends + b
    else Undefined
  }

  // ---------------------------------------------------------------------------
  // Properties of the numbering

  /** Counting the per-backend functionalities among the keys 0 .. n. */
  lemma {:induction false} CountPerBackendFunctionalityKeysAt(n: DispatchKey)
    ensures CountPerBackendFunctionalityKeys(n) ==
      (if n >= Dense then 1 else 0) + (if n >= Quantized then 1 else 0)
      + (if n >= Sparse then 1 else 0) + (if n >= NestedTensor then 1 else 0)
      + (if n >= AutogradFunctionality then 1 else 0)
  {
    if n > 0 {
      CountPerBackendFunctionalityKeysAt(n - 1);
    }
  }

  /** numPerBackendFunctionalityKeys() == 5, and num_runtime_entries == 40 + 5 * 13 == 105. */
  lemma RuntimeEntryCount()
    ensures NumPerBackendFunctionalityKeys() == 5
    ensures NumRuntimeEntries() == NumFunctionalityKeys + 5 * (NumBackends - 1) == 105
  {
    CountPerBackendFunctionalityKeysAt(NumFunctionalityKeys);
  }

  /** The static_asserts on the bit budget. */
  lemma BitBudget()
    ensures EndOfBackendKeys + EndOfFunctionalityKeys <= 64
    ensures NumBackends <= 16
  {
  }

  /**
   * Each per-backend block spans exactly EndOfBackendKeys keys above its Start marker, and
   * the blocks follow one another without gaps, after the functionality keys and below the aliases.
   */
  lemma PerBackendBlocksAreContiguous()
    ensures EndOfDenseBackends - StartOfDenseBackends == EndOfBackendKeys
    ensures EndOfQuantizedBackends - StartOfQuantizedBackends == EndOfBackendKeys
    ensures EndOfSparseBackends - StartOfSparseBackends == EndOfBackendKeys
    ensures EndOfNestedTensorBackends - StartOfNestedTensorBackends == EndOfBackendKeys
    ensures EndOfAutogradBackends - StartOfAutogradBackends == EndOfBackendKeys
    ensures StartOfDenseBackends == EndOfFunctionalityKeys + 1
    ensures StartOfQuantizedBackends == EndOfDenseBackends + 1
    ensures StartOfSparseBackends == EndOfQuantizedBackends + 1
    ensures StartOfNestedTensorBackends == EndOfSparseBackends + 1
    ensures StartOfAutogradBackends == EndOfNestedTensorBackends + 1
    ensures StartOfAliasKeys == EndOfRuntimeBackendKeys + 1
  {
  }

  /** Round trip: toBackendComponent recovers b from toRuntimePerBackendFunctionalityKey(f, b). */
  lemma BackendComponentRoundTrip(f: DispatchKey, b: BackendComponent)
    requires IsPerBackendFunctionalityKey(f)
    ensures ToBackendComponent(ToRuntimePerBackendFunctionalityKey(f, b)) == b
  {
  }

  /** Round trip: toFunctionalityKey recovers f from toRuntimePerBackendFunctionalityKey(f, b). */
  lemma FunctionalityKeyRoundTrip(f: DispatchKey, b: BackendComponent)
    requires IsPerBackendFunctionalityKey(f)
    ensures ToFunctionalityKey(ToRuntimePerBackendFunctionalityKey(f, b)) == f
  {
  }

  /** The converse round trip: every per-backend runtime key is rebuilt from its two parts. */
  lemma PerBackendKeyDecomposition(k: DispatchKey)
    requires IsPerBackendRuntimeKey(k)
    ensures IsPerBackendFunctionalityKey(ToFunctionalityKey(k))
    ensures ToRuntimePerBackendFunctionalityKey(ToFunctionalityKey(k), ToBackendComponent(k)) == k
  {
  }

  /** The error values: Undefined for a functionality without per-backend keys, InvalidBit outside the blocks. */
  lemma InvalidConversions(f: DispatchKey, b: BackendComponent, k: DispatchKey)
    ensures !IsPerBackendFunctionalityKey(f) ==> ToRuntimePerBackendFunctionalityKey(f, b) == Undefined
    ensures !IsPerBackendRuntimeKey(k) ==> ToBackendComponent(k) == InvalidBit
    ensures IsAliasDispatchKey(k) ==> ToBackendComponent(k) == InvalidBit && ToFunctionalityKey(k) == Undefined
  {
  }
}
