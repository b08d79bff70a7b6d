/**
 * The allocator plan that normalization fills in. Its implementation lives in
 * a file that is not part of this model; the pass only ever records one type
 * occurrence at a time, as engine-allocated or as externally allocated, so the
 * plan is modelled by the two tallies it keeps.
 */
module Allocator {
  import opened BindingTypes

  class FixedSizeAllocatorData {
    /** One entry per recorded occurrence of a type the injector allocates. */
    var allocatedTypes: multiset<TypeId>
    /** One entry per recorded occurrence of a type allocated elsewhere. */
    var externallyAllocatedTypes: multiset<TypeId>

    constructor ()
      ensures allocatedTypes == multiset{} && externallyAllocatedTypes == multiset{}
    {
      allocatedTypes := multiset{};
      externallyAllocatedTypes := multiset{};
    }

    method AddType(t: TypeId)
      modifies this
      ensures allocatedTypes == old(allocatedTypes) + multiset{t}
      ensures externallyAllocatedTypes == old(externallyAllocatedTypes)
    {
      allocatedTypes := allocatedTypes + multiset{t};
    }

    method AddExternallyAllocatedType(t: TypeId)
      modifies this
      ensures externallyAllocatedTypes == old(externallyAllocatedTypes) + multiset{t}
      ensures allocatedTypes == old(allocatedTypes)
    {
      externallyAllocatedTypes := externallyAllocatedTypes + multiset{t};
    }
  }
}
