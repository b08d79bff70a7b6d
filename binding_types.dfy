/**
 * The values the binding-normalization pass of the Fruit injector works on:
 * type identities, binding recipes, multibinding providers, compression
 * candidates and the records the pass produces.
 */
module BindingTypes {

  datatype Option<+T> = None | Some(value: T)

  datatype Result<+R, +E> = Ok(value: R) | Err(error: E)

  /** Identity of a C++ type. The source only compares these tokens for
      equality and with `<` (the multibinding sort); an integer has both. */
  type TypeId = int

  /** An already constructed object handed to the injector. */
  type ObjectPtr(==)

  /** The function that constructs an instance of a bound type. */
  type CreateFn(==)

  /** The accessor shared by all providers of one multibinding type that
      returns the vector of all their instances. */
  type MultibindingsVectorFn(==)

  /** How to obtain one instance of a type: an object that already exists, or
      a recipe made of the type's dependencies and a factory. Two values are
      equal exactly when they agree on every field. */
  datatype BindingData =
    | Created(object: ObjectPtr)
    | ToCreate(deps: seq<TypeId>, create: CreateFn, needsAllocation: bool)
  {
    predicate IsCreated() {
      Created?
    }

    /** Whether the injector allocates the instance in its own arena; an
        object that was handed over already exists and never does. */
    predicate NeedsAllocation() {
      ToCreate? && needsAllocation
    }

    /** This binding lists `c` among the types it is built from. */
    predicate DependsOn(c: TypeId) {
      ToCreate? && c in deps
    }
  }

  /** One provider of a multibinding. `deps` is absent for a provider given
      as an already constructed instance. */
  datatype MultibindingData = MultibindingData(
    create: CreateFn,
    deps: Option<seq<TypeId>>,
    needsAllocation: bool,
    getMultibindingsVector: MultibindingsVectorFn)
  {
    predicate DependsOn(c: TypeId) {
      deps.Some? && c in deps.value
    }
  }

  /** A candidate compression of the edge I -> C: the interface I is bound to
      the class C, and C's slot may be folded into I's, which is then built
      from `bindingData`. */
  datatype CompressedBinding = CompressedBinding(
    classId: TypeId,
    interfaceId: TypeId,
    bindingData: BindingData)

  /** What a compression of I -> C removed, recorded under C. */
  datatype BindingCompressionInfo = BindingCompressionInfo(
    iTypeId: TypeId,
    iBinding: BindingData,
    cBinding: BindingData)

  /** One provider inside the merged table of a multibinding type. */
  datatype MultibindingElem = MultibindingElem(
    create: CreateFn,
    deps: Option<seq<TypeId>>,
    needsAllocation: bool)

  function ElemOf(m: MultibindingData): MultibindingElem {
    MultibindingElem(m.create, m.deps, m.needsAllocation)
  }

  /** All providers of one multibinding type, merged. A freshly created entry
      has no accessor yet and no elements. */
  datatype NormalizedMultibindingData = NormalizedMultibindingData(
    getMultibindingsVector: Option<MultibindingsVectorFn>,
    elems: seq<MultibindingElem>)

  const EmptyMultibindingData: NormalizedMultibindingData :=
    NormalizedMultibindingData(None, [])

  /** The types of a list of pairs keyed by type, in order. */
  function TypesOf<D>(s: seq<(TypeId, D)>): seq<TypeId> {
    seq(|s|, i requires 0 <= i < |s| => s[i].0)
  }
}
