/**
 * StorageImpl (c10/core/StorageImpl.h): the backing buffer of a tensor. It is a mutable
 * record of a data pointer, a size in bytes, a resizable flag, a received-from-another-process
 * flag and an allocator. Its invariant is that resizable storage has an allocator.
 */
module Storages {
  import opened Wrappers

  /** A raw address; 0 is the null pointer. */
  type Address = nat
  /** A device, opaque here. */
  type Device = nat
  /** An allocator, opaque here; a missing allocator is the null pointer. */
  type AllocatorRef = nat

  /** A DataPtr reduced to its address and its device. */
  datatype DataPtr = DataPtr(address: Address, device: Device)
  {
    /** clear(): the pointer becomes null, the device stays. */
    function Cleared(): (r: DataPtr)
      ensures r.address == 0 && r.device == device
    {
      DataPtr(0, device)
    }
  }

  class StorageImpl {
    var dataPtr: DataPtr
    var sizeBytes: nat
    var resizable: bool
    var receivedCuda: bool
    var allocator: Option<AllocatorRef>

    /** Resizable storage can reallocate, so it needs an allocator. */
    ghost predicate Valid()
      reads this
    {
      resizable ==> allocator.Some?
    }

    /** The constructor taking a data pointer; asks for an allocator when the storage is resizable. */
    constructor(sizeBytes: nat, dataPtr: DataPtr, allocator: Option<AllocatorRef>, resizable: bool)
      requires resizable ==> allocator.Some?
      ensures Valid()
      ensures this.dataPtr == dataPtr && this.sizeBytes == sizeBytes && this.allocator == allocator
      ensures this.resizable == resizable && !receivedCuda
    {
      this.dataPtr := dataPtr;
      this.sizeBytes := sizeBytes;
      this.resizable := resizable;
      this.receivedCuda := false;
      this.allocator := allocator;
    }

    /** reset: clear the data pointer and set the size to 0. */
    method Reset()
      modifies this`dataPtr, this`sizeBytes
      ensures dataPtr == old(dataPtr).Cleared() && sizeBytes == 0
      ensures old(Valid()) ==> Valid()
    {
      dataPtr := dataPtr.Cleared();
      sizeBytes := 0;
    }

    /** release_resources: clear the data pointer only. */
    method ReleaseResources()
      modifies this`dataPtr
      ensures dataPtr == old(dataPtr).Cleared()
      ensures old(Valid()) ==> Valid()
    {
      dataPtr := dataPtr.Cleared();
    }

    /** set_nbytes */
    method SetNbytes(sizeBytes: nat)
      modifies this`sizeBytes
      ensures this.sizeBytes == sizeBytes
      ensures old(Valid()) ==> Valid()
    {
      this.sizeBytes := sizeBytes;
    }

    /** set_data_ptr: install the new pointer and hand back the previous one. */
    method SetDataPtr(p: DataPtr) returns (previous: DataPtr)
      modifies this`dataPtr
      ensures previous == old(dataPtr) && dataPtr == p
      ensures old(Valid()) ==> Valid()
    {
      previous := dataPtr;
      dataPtr := p;
    }

    /** set_data_ptr_noswap: install the new pointer, returning nothing. */
    method SetDataPtrNoswap(p: DataPtr)
      modifies this`dataPtr
      ensures dataPtr == p
      ensures old(Valid()) ==> Valid()
    {
      dataPtr := p;
    }

    /**
     * set_allocator: replace the allocator. A null allocator on resizable storage breaks the
     * invariant; no check refuses it.
     */
    method SetAllocator(a: Option<AllocatorRef>)
      modifies this`allocator
      ensures allocator == a
      ensures Valid() <==> !resizable || a.Some?
    {
      allocator := a;
    }

    /** set_resizable: making storage resizable asks for an allocator; making it fixed always succeeds. */
    method SetResizable(b: bool)
      requires b ==> allocator.Some?
      modifies this`resizable
      ensures resizable == b
      ensures old(Valid()) ==> Valid()
      ensures !b ==> Valid()
    {
      resizable := b;
    }

    /**
     * UniqueStorageShareExternalPointer (DataPtr overload): adopt a pointer owned elsewhere.
     * The storage forgets its allocator and becomes fixed-size, which keeps the invariant
     * whatever the state before.
     */
    method UniqueStorageShareExternalPointer(p: DataPtr, sizeBytes: nat)
      modifies this`dataPtr, this`sizeBytes, this`allocator, this`resizable
      ensures dataPtr == p && this.sizeBytes == sizeBytes && allocator == None && !resizable
      ensures Valid()
    {
      dataPtr := p;
      this.sizeBytes := sizeBytes;
      allocator := None;
      resizable := false;
    }

    /** UniqueStorageShareExternalPointer (raw-pointer overload): the new pointer keeps the current device. */
    method UniqueStorageShareExternalAddress(src: Address, sizeBytes: nat)
      modifies this`dataPtr, this`sizeBytes, this`allocator, this`resizable
      ensures dataPtr == DataPtr(src, old(dataPtr).device)
      ensures this.sizeBytes == sizeBytes && allocator == None && !resizable
      ensures Valid()
    {
      UniqueStorageShareExternalPointer(DataPtr(src, dataPtr.device), sizeBytes);
    }

    /** set_received_cuda */
    method SetReceivedCuda(b: bool)
      modifies this`receivedCuda
      ensures receivedCuda == b
      ensures old(Valid()) ==> Valid()
    {
      receivedCuda := b;
    }
  }
}
