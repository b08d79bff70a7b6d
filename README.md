# Binding normalization in Fruit, modelled in Dafny

Fruit is a dependency-injection container for C++. Before an injector is built, its
raw bindings go through three passes in `src/binding_normalization.cpp`. This project
models all three and proves what each one promises.

- **normalizeBindings** (`normalization.dfy`, module `Normalization`).
  - It folds the raw `(TypeId, BindingData)` list into one binding per type. Equal
    duplicates are accepted; a type bound twice to different data is fatal.
  - It records every raw occurrence in the fixed-size allocator plan: allocated by
    the injector, or allocated externally.
  - It collects the compression candidates `class C -> (interface I, data)`; the
    last candidate for a class wins.
  - It drops the candidates whose class C is a multibinding dependency, is an exposed
    type, or is a dependency of a bound type other than I.
  - It applies the survivors: I takes the candidate's data, C disappears, and
    `(I, old data of I, old data of C)` is recorded under C.
  - It copies the table into the result vector.
- **addMultibindings** (`multibindings.dfy`, module `Multibindings`).
  - It sorts the providers by type and walks each run of one type.
  - Per run, it sets the type's "get all" accessor from the run's first provider and
    appends one element per provider.
  - It records every provider in the allocator plan.
- **expandLazyComponents** (`lazy_expansion.dfy`, module `LazyExpansion`).
  - It expands the lazy components of a component storage depth-first, using an
    explicit stack.
  - A work-list holds pending components and empty end-of-expansion markers.
  - An expansion stack and an in-progress set detect installation loops, which are
    fatal.
  - A fully-expanded set skips repeats, so each distinct component's `addBindings`
    runs at most once.

Shared definitions are in `binding_types.dfy` (module `BindingTypes`). The allocator
plan is the class `Allocator.FixedSizeAllocatorData` in `allocator.dfy`.

How the source's constructs are modelled:

- Type identities are integers compared only for equality and order.
- Factories, objects, the multibinding accessor and a lazy component's arguments are
  abstract types compared only by equality.
- The fatal `exit(1)` paths become results:
  - `Err(type)` from `NormalizeBindings`;
  - the outcome `InstallationLoop(toplevel, trace, repeated)` from
    `ExpandLazyComponents`.
- Hash-map iteration visits the keys in an order the program does not control. The
  loops over hash maps therefore take an arbitrary unvisited key (`AnyKey`), so every
  proof holds for every iteration order.
- Each loop of the source is a method with its own loop invariants. Each method is
  proved against a specification function or predicate. The top-level method runs
  these loop methods in the source's order.

## Model

| member | source | states |
|---|---|---|
| Normalization.DeduplicateBindings | src/binding_normalization.cpp:106-121 | The result is Ok exactly when every two raw entries of one type carry equal data. Its keys are the raw types, and each type maps to the data of each of its raw entries. Err names the type of the first raw entry that disagrees with an earlier one. |
| Normalization.TallyBindings | src/binding_normalization.cpp:123-129 | The plan gains, per raw entry and duplicates included, the entry's type: on the allocated side when its data needs allocation, otherwise on the external side. |
| Normalization.RecordOccurrence | src/binding_normalization.cpp:124-128 | One raw entry adds its type to exactly one side of the plan, chosen by `needsAllocation`. |
| Normalization.OccurrencesPartitionRawEntries | src/binding_normalization.cpp:123-129 | The two tallies together hold each raw type exactly as often as it occurs in the raw list. |
| Normalization.AllocatedCountIsRawCount | src/binding_normalization.cpp:123-129 | The allocated count of a type equals the number of its raw entries that need allocation. |
| Normalization.CandidateMapKeepsLast | src/binding_normalization.cpp:139-141 | A class has a candidate entry exactly when some candidate names it. The entry holds the interface and data of the last candidate naming it. |
| Normalization.CollectCandidates | src/binding_normalization.cpp:134-141 | The loop builds the last-write-wins candidate map. |
| Normalization.PruneMultibindingDeps | src/binding_normalization.cpp:143-154 | A class survives exactly when it was a candidate and no multibinding provider with dependencies lists it. Survivors keep their entries. |
| Normalization.PruneExposed | src/binding_normalization.cpp:156-162 | A class survives exactly when it was a candidate and is not an exposed type. Survivors keep their entries. |
| Normalization.PruneDependedOn | src/binding_normalization.cpp:164-180 | A class survives exactly when no bound, not-yet-created type other than its interface depends on it. Survivors keep their entries. |
| Normalization.SelectCompressions | src/binding_normalization.cpp:131-180 | The candidates left after the three pruning loops are exactly those of the last-write-wins map to which none of the three rules applies. |
| Normalization.ApplyCompressions | src/binding_normalization.cpp:185-205 | The class slots are removed and each interface takes its candidate's data; every other type keeps its binding. The info map has one key per applied compression, holding the interface, the old data of the interface and the old data of the class. |
| Normalization.BindingsToVector | src/binding_normalization.cpp:207-213 | The vector lists every entry of the table exactly once, with its data, and has the table's size. |
| Normalization.NormalizeBindings | src/binding_normalization.cpp:98-214 | Err holds exactly when the raw bindings are inconsistent; it names the conflicting type and leaves the plan untouched. Ok holds three things: the plan gained every raw occurrence; the vector lists, once per type, the deduplicated table with the surviving compressions applied; the info map describes those compressions. |
| Multibindings.SortByType | src/binding_normalization.cpp:220-221 | The result is sorted by type and is a permutation of the input. |
| Multibindings.SortKeepsProviders | src/binding_normalization.cpp:220-221 | Sorting keeps, per type, the multiset of elements the providers make. It also keeps both allocator tallies. |
| Multibindings.ConcatProviders | src/binding_normalization.cpp:238-245 | The elements and both tallies of a concatenation are those of its parts, in order. |
| Multibindings.MergeRun | src/binding_normalization.cpp:238-245 | The inner loop stops at the end of the run of the first provider's type. It returns exactly that run's elements in order and records each provider of the run in the plan. |
| Multibindings.MergeProvider | src/binding_normalization.cpp:239-244 | One provider of the run's type extends the run: its element is appended to the run's elements, and its type goes to the side of the plan its `needs_allocation` selects. |
| Multibindings.RecordProvider | src/binding_normalization.cpp:240-244 | One provider adds its type to exactly one side of the plan, chosen by `needs_allocation`. |
| Multibindings.MergeRunStep | src/binding_normalization.cpp:227-245 | Merging one whole run extends the merged state from the run's start to its end: which types have entries, their elements and their accessors. |
| Multibindings.MergeNextRun | src/binding_normalization.cpp:229-248 | Merging the run that starts at `i` ends at `j`, the first provider of another type. Every provider in between has the run's type. The type's accessor comes from the run's first provider. The run's elements are appended to the type's entry, and its providers are recorded in the plan. The merged state, which types have entries, their elements and their accessors, extends from `i` to `j`. |
| Multibindings.MergeSorted | src/binding_normalization.cpp:227-249 | After the outer loop over the sorted providers: a type has an entry exactly when it had one or has a provider; each entry's elements are its old elements followed by its providers' elements; each touched entry's accessor comes from one of its providers. The plan gained every provider. |
| Multibindings.SortedCopy | src/binding_normalization.cpp:220-221 | The sorted copy has the same types as the input, and per type the same provider elements as a multiset. Every provider in it is one of the input's. It has the same tallies. |
| Multibindings.AddMultibindings | src/binding_normalization.cpp:216-250 | Types without providers keep their entry, or stay absent. A type with providers has an entry holding its old elements followed by one element per provider (counts preserved, as a multiset), and its accessor comes from one of its providers. The plan gained every provider on the side its `needs_allocation` selects. |
| LazyExpansion.DistinctCardinality | src/binding_normalization.cpp:262-272 | A stack without repeats has as many elements as its set. Together with the invariant that the in-progress set is the set of the stack, this gives the size equality asserted at line 272. |
| LazyExpansion.ContributionsConcat | src/binding_normalization.cpp:306-310 | The bindings, compression candidates and multibinding providers contributed by a sequence of expansions are those of its parts, concatenated in order. |
| LazyExpansion.ContributionsStep | src/binding_normalization.cpp:306-310 | Appending one more component's contribution keeps the storage equal to its initial lists followed by the contributions of the expanded components, in order. |
| LazyExpansion.PopFinishOrder | src/binding_normalization.cpp:276-285 | A component moves to the fully expanded set only when everything it installs is already there. So, listed in the order they finish, the fully expanded components each install only components finished before them. |
| LazyExpansion.FinishOrderAcyclic | src/binding_normalization.cpp:276-285 | Along any chain of installations through components listed in finish order, no component appears twice: the finished components hold no installation loop. |
| LazyExpansion.PopMarker | src/binding_normalization.cpp:276-285 | A marker at the back means the stack is not empty. Popping it, and moving the top of the stack from in progress to fully expanded, keeps the invariant, including the finish order above. |
| LazyExpansion.SkipExpanded | src/binding_normalization.cpp:288-292 | Popping a component that is already fully expanded keeps the invariant, without running its `addBindings`. |
| LazyExpansion.LoopFound | src/binding_normalization.cpp:294-298 | A component at the back that is already in progress is on the stack, and it is installed by the top of the stack. The stack is a chain of installations that starts in the initial work-list, so the reported loop is real. |
| LazyExpansion.ExpandNext | src/binding_normalization.cpp:301-310 | Replacing the back by a marker, pushing the component on the stack and appending its lazy components keeps the invariant. The log of expanded components stays free of repeats and equals the in-progress and fully-expanded sets together. |
| LazyExpansion.Finished | src/binding_normalization.cpp:271 | An empty work-list means an empty stack and in-progress set. Every initial component has been expanded, the expanded set is closed under installation, and no chain of installations from an expanded component repeats a component. |
| LazyExpansion.CompleteTop | src/binding_normalization.cpp:276-285 | The marker is popped from the work-list; the stack loses its top, which leaves the in-progress set and joins the fully expanded set. The storage's lists are unchanged. |
| LazyExpansion.SkipBack | src/binding_normalization.cpp:288-292 | The back is popped from the work-list; the stack, the sets and the storage's lists are unchanged. |
| LazyExpansion.Expand | src/binding_normalization.cpp:301-310 | The back's slot becomes a marker followed by the component's lazy components; the storage's lists gain the component's bindings, compression candidates and multibinding providers. |
| LazyExpansion.ExpandBack | src/binding_normalization.cpp:272-310 | One iteration, by what is at the back: a marker completes the top of the stack; a fully expanded component is dropped; a new component is expanded and pushed on the stack. In each case the new work-list, stack, sets and lists are stated. A loop is reported exactly when the back is in progress and not fully expanded, and then nothing changes. Every step that does not report a loop uses up one work-list slot. |
| LazyExpansion.ExpandLazyComponents | src/binding_normalization.cpp:252-312 | The expanded components are distinct, and each was in the initial work-list or installed by one expanded earlier. The storage lists gain exactly their contributions, in expansion order. On completion: the work-list is empty, every initial component was expanded, the expanded set is closed under installation, and no chain of installations from an expanded component repeats a component, so every real installation loop is reported. On a loop: the trace is a repetition-free installation chain from the initial work-list, and the repeated component is on it and installed by its last element. Out of fuel: the work-list is not empty, and the fuel is less than the initial components plus the expanded ones plus what those install, the number of slots ever pushed. |

## Left out

- Diagnostic output is not modelled: `multipleBindingsError`, `printLazyComponentInstallationLoop` and the `FRUIT_EXTRA_DEBUG` prints. The fatal exits return the data those messages would show.
- Hash functors and bucket behaviour are not modelled; hash maps and sets are Dafny maps and sets with equality on content.
- The order of the result vector of normalizeBindings is not modelled, because it follows hash-map iteration order. The contract says the vector lists each table entry once.
- `unique_ptr` ownership, moves and raw-pointer aliasing are not modelled. Lazy components are values, and equal components are the same component, as the source's equality functors make them.
- `FixedSizeAllocatorData` is not part of this model. Only its `addType` and `addExternallyAllocatedType` entry points are modelled, as two tallies.
- `LazyComponent::addBindings` and the rest of `ComponentStorage` are not part of this model. `addBindings` is a function parameter from a component to what it appends.
- ExpandLazyComponents: takes a fuel bound and may stop with `OutOfFuel`, because the component graph may be infinite and the source's termination rests on it being finite.
- ExpandLazyComponents: requires that the initial work-list hold no markers. The source adds the markers itself and would pop an empty stack on one it did not add.
- NormalizeBindings: requires that the surviving candidates satisfy the assertions of lines 195-199 and the remark of lines 182-183 (the class of a candidate is never the interface of another), and that no two surviving classes share an interface (see ApplyCompressions below). The source asserts the first and relies on the second from how candidates are produced elsewhere; the third is discussed below. The model states all three as the caller's duty. The model does not cover builds where `FruitAssert` is compiled out.
- ApplyCompressions: requires that no two surviving classes share an interface. The source neither asserts nor remarks on this. When it happens, hash-map order decides which compression reaches the interface first. That compression rewrites the interface's data to its candidate's data, so the second one records that data as the interface's old data. The second then fails the assertion of line 199 if that data needs allocation; otherwise it overwrites the interface's data again.
- AddMultibindings: states the order of a type's new elements only as a multiset, because `std::sort` is not stable. It states the accessor only as coming from one of the type's providers.
- MergeRun: collects a run's elements and appends them to the entry once, where the source pushes each element straight onto the entry. The resulting entry is the same.
