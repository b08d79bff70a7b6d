/**
 * BindingNormalization::addMultibindings: sorts the multibinding providers by
 * type, then merges each run of providers of one type into that type's entry
 * of the multibinding table and records each provider in the allocator plan.
 */
module Multibindings {
  import opened BindingTypes
  import opened Allocator

  // ---------------------------------------------------------------------
  // Sorting by type (std::sort with a comparator on the type alone)

  ghost predicate SortedByType(s: seq<(TypeId, MultibindingData)>) {
    forall i, j :: 0 <= i < j < |s| ==> s[i].0 <= s[j].0
  }

  function InsertByType(x: (TypeId, MultibindingData), s: seq<(TypeId, MultibindingData)>)
    : (r: seq<(TypeId, MultibindingData)>)
    requires SortedByType(s)
    ensures SortedByType(r)
    ensures multiset(r) == multiset(s) + multiset{x}
    ensures |r| == |s| + 1
    ensures r[0] == x || (s != [] && r[0] == s[0])
  {
    if |s| == 0 || x.0 <= s[0].0 then [x] + s
    else
      var rest := InsertByType(x, s[1..]);
      assert s == [s[0]] + s[1..];
      assert s[0].0 <= rest[0].0;
      [s[0]] + rest
  }

  /** The providers in an order sorted by type. The source's sort is not
      stable, so nothing below depends on the order among providers of one
      type. */
  function SortByType(s: seq<(TypeId, MultibindingData)>): (r: seq<(TypeId, MultibindingData)>)
    ensures SortedByType(r)
    ensures multiset(r) == multiset(s)
    ensures |r| == |s|
  {
    if |s| == 0 then []
    else
      assert s == [s[0]] + s[1..];
      InsertByType(s[0], SortByType(s[1..]))
  }

  // ---------------------------------------------------------------------
  // What the merge appends and records

  /** The table elements made from the providers of type `t`, in order. */
  function ElemsFor(s: seq<(TypeId, MultibindingData)>, t: TypeId): seq<MultibindingElem> {
    if |s| == 0 then []
    else
      var own := if s[0].0 == t then [ElemOf(s[0].1)] else [];
      own + ElemsFor(s[1..], t)
  }

  /** The types of the providers the injector allocates, one per provider. */
  function AllocatedProviders(s: seq<(TypeId, MultibindingData)>): multiset<TypeId> {
    if |s| == 0 then multiset{}
    else
      var own := if s[0].1.needsAllocation then multiset{s[0].0} else multiset{};
      own + AllocatedProviders(s[1..])
  }

  /** The types of the providers allocated elsewhere, one per provider. */
  function ExternalProviders(s: seq<(TypeId, MultibindingData)>): multiset<TypeId> {
    if |s| == 0 then multiset{}
    else
      var own := if s[0].1.needsAllocation then multiset{} else multiset{s[0].0};
      own + ExternalProviders(s[1..])
  }

  lemma ConcatProviders(a: seq<(TypeId, MultibindingData)>, b: seq<(TypeId, MultibindingData)>, t: TypeId)
    ensures ElemsFor(a + b, t) == ElemsFor(a, t) + ElemsFor(b, t)
    ensures AllocatedProviders(a + b) == AllocatedProviders(a) + AllocatedProviders(b)
    ensures ExternalProviders(a + b) == ExternalProviders(a) + ExternalProviders(b)
  {
    ConcatElems(a, b, t);
    ConcatAllocated(a, b);
    ConcatExternal(a, b);
  }

  lemma {:induction false} ConcatElems(a: seq<(TypeId, MultibindingData)>, b: seq<(TypeId, MultibindingData)>, t: TypeId)
    ensures ElemsFor(a + b, t) == ElemsFor(a, t) + ElemsFor(b, t)
  {
    if |a| == 0 {
      assert a + b == b;
    } else {
      var ab := a + b;
      assert ab[0] == a[0];
      assert ab[1..] == a[1..] + b;
      ConcatElems(a[1..], b, t);
      var own := if a[0].0 == t then [ElemOf(a[0].1)] else [];
      calc {
        ElemsFor(ab, t);
        own + ElemsFor(a[1..] + b, t);
        own + (ElemsFor(a[1..], t) + ElemsFor(b, t));
        (own + ElemsFor(a[1..], t)) + ElemsFor(b, t);
      }
    }
  }

  lemma {:induction false} ConcatAllocated(a: seq<(TypeId, MultibindingData)>, b: seq<(TypeId, MultibindingData)>)
    ensures AllocatedProviders(a + b) == AllocatedProviders(a) + AllocatedProviders(b)
  {
    if |a| == 0 {
      assert a + b == b;
    } else {
      var ab := a + b;
      assert ab[0] == a[0];
      assert ab[1..] == a[1..] + b;
      ConcatAllocated(a[1..], b);
      var own := if a[0].1.needsAllocation then multiset{a[0].0} else multiset{};
      calc {
        AllocatedProviders(ab);
        own + AllocatedProviders(a[1..] + b);
        own + (AllocatedProviders(a[1..]) + AllocatedProviders(b));
        (own + AllocatedProviders(a[1..])) + AllocatedProviders(b);
      }
    }
  }

  lemma {:induction false} ConcatExternal(a: seq<(TypeId, MultibindingData)>, b: seq<(TypeId, MultibindingData)>)
    ensures ExternalProviders(a + b) == ExternalProviders(a) + ExternalProviders(b)
  {
    if |a| == 0 {
      assert a + b == b;
    } else {
      var ab := a + b;
      assert ab[0] == a[0];
      assert ab[1..] == a[1..] + b;
      ConcatExternal(a[1..], b);
      var own := if a[0].1.needsAllocation then multiset{} else multiset{a[0].0};
      calc {
        ExternalProviders(ab);
        own + ExternalProviders(a[1..] + b);
        own + (ExternalProviders(a[1..]) + ExternalProviders(b));
        (own + ExternalProviders(a[1..])) + ExternalProviders(b);
      }
    }
  }

  /** What a single provider contributes. */
  lemma OneProvider(x: (TypeId, MultibindingData), t: TypeId)
    ensures ElemsFor([x], t) == if x.0 == t then [ElemOf(x.1)] else []
    ensures AllocatedProviders([x]) == if x.1.needsAllocation then multiset{x.0} else multiset{}
    ensures ExternalProviders([x]) == if x.1.needsAllocation then multiset{} else multiset{x.0}
  {
    assert [x][1..] == [];
  }

  /** Inserting a provider into a sorted list adds exactly its element to
      the elements of its type. */
  lemma {:induction false} InsertKeepsElems(
    x: (TypeId, MultibindingData), s: seq<(TypeId, MultibindingData)>, t: TypeId)
    requires SortedByType(s)
    ensures multiset(ElemsFor(InsertByType(x, s), t))
         == multiset(ElemsFor([x], t)) + multiset(ElemsFor(s, t))
  {
    var r := InsertByType(x, s);
    if |s| == 0 || x.0 <= s[0].0 {
      assert r == [x] + s;
      ConcatProviders([x], s, t);
    } else {
      var head, tail := s[0], s[1..];
      var rest := InsertByType(x, tail);
      assert r == [head] + rest;
      assert s == [head] + tail;
      InsertKeepsElems(x, tail, t);
      ConcatProviders([head], rest, t);
      ConcatProviders([head], tail, t);
    }
  }

  /** Inserting a provider into a sorted list adds exactly its allocation. */
  lemma {:induction false} InsertKeepsAllocation(
    x: (TypeId, MultibindingData), s: seq<(TypeId, MultibindingData)>)
    requires SortedByType(s)
    ensures AllocatedProviders(InsertByType(x, s)) == AllocatedProviders([x]) + AllocatedProviders(s)
    ensures ExternalProviders(InsertByType(x, s)) == ExternalProviders([x]) + ExternalProviders(s)
  {
    var r := InsertByType(x, s);
    if |s| == 0 || x.0 <= s[0].0 {
      assert r == [x] + s;
      ConcatProviders([x], s, x.0);
    } else {
      var head, tail := s[0], s[1..];
      var rest := InsertByType(x, tail);
      assert r == [head] + rest;
      assert s == [head] + tail;
      InsertKeepsAllocation(x, tail);
      ConcatProviders([head], rest, x.0);
      ConcatProviders([head], tail, x.0);
    }
  }

  /** Sorting neither loses nor duplicates a provider of any type, nor
      changes what the allocator is told. */
  lemma {:induction false} SortKeepsProviders(s: seq<(TypeId, MultibindingData)>, t: TypeId)
    ensures multiset(ElemsFor(SortByType(s), t)) == multiset(ElemsFor(s, t))
    ensures AllocatedProviders(SortByType(s)) == AllocatedProviders(s)
    ensures ExternalProviders(SortByType(s)) == ExternalProviders(s)
  {
    if s != [] {
      var head, tail := s[0], s[1..];
      var sortedTail := SortByType(tail);
      assert SortByType(s) == InsertByType(head, sortedTail);
      assert s == [head] + tail;
      SortKeepsProviders(tail, t);
      InsertKeepsElems(head, sortedTail, t);
      InsertKeepsAllocation(head, sortedTail);
      ConcatProviders([head], tail, t);
    }
  }

  // ---------------------------------------------------------------------
  // The merge

  /** The entry of `t`, or the empty entry `multibindings[t]` would create. */
  function Lookup(m: map<TypeId, NormalizedMultibindingData>, t: TypeId): NormalizedMultibindingData {
    if t in m then m[t] else EmptyMultibindingData
  }

  /** No provider of `s` has type `t`. */
  ghost predicate NoneOfType(s: seq<(TypeId, MultibindingData)>, t: TypeId) {
    forall k :: 0 <= k < |s| ==> s[k].0 != t
  }

  lemma {:induction false} NoElemsOfAbsentType(s: seq<(TypeId, MultibindingData)>, t: TypeId)
    requires NoneOfType(s, t)
    ensures ElemsFor(s, t) == []
  {
    if |s| != 0 {
      NoElemsOfAbsentType(s[1..], t);
    }
  }

  /** `w[i..j]` holds providers of type `t` only. */
  ghost predicate RunOfType(w: seq<(TypeId, MultibindingData)>, i: int, j: int, t: TypeId)
    requires 0 <= i <= j <= |w|
  {
    forall k :: i <= k < j ==> w[k].0 == t
  }

  /** Lines 238-245: the inner loop, over the run of providers of type
      `w[i].0` that starts at `i`. */
  method MergeRun(
    w: seq<(TypeId, MultibindingData)>, i: int, alloc: FixedSizeAllocatorData)
    returns (added: seq<MultibindingElem>, j: int)
    requires 0 <= i < |w|
    modifies alloc
    ensures i < j <= |w|
    ensures RunOfType(w, i, j, w[i].0)
    ensures j < |w| ==> w[j].0 != w[i].0
    ensures added == ElemsFor(w[i..j], w[i].0)
    ensures alloc.allocatedTypes == old(alloc.allocatedTypes) + AllocatedProviders(w[i..j])
    ensures alloc.externallyAllocatedTypes
         == old(alloc.externallyAllocatedTypes) + ExternalProviders(w[i..j])
  {
    var t := w[i].0;
    added := [];
    ghost var allocated0, external0 := alloc.allocatedTypes, alloc.externallyAllocatedTypes;
    j := i;
    RunStart(w, i, allocated0, external0);
    while j < |w| && w[j].0 == t
      invariant i <= j <= |w|
      invariant RunMerged(w, i, j, t, added, allocated0, alloc.allocatedTypes,
                          external0, alloc.externallyAllocatedTypes)
    {
      added := MergeProvider(w, i, j, added, alloc, allocated0, external0);
      j := j + 1;
    }
  }

  /** `added` and the two tallies account for exactly the run `w[i..j]`, all
      of whose providers have type `t`. */
  ghost predicate RunMerged(
    w: seq<(TypeId, MultibindingData)>, i: int, j: int, t: TypeId,
    added: seq<MultibindingElem>,
    arena0: multiset<TypeId>, arena: multiset<TypeId>,
    outside0: multiset<TypeId>, outside: multiset<TypeId>)
    requires 0 <= i <= j <= |w|
  {
    && RunOfType(w, i, j, t)
    && added == ElemsFor(w[i..j], t)
    && arena == arena0 + AllocatedProviders(w[i..j])
    && outside == outside0 + ExternalProviders(w[i..j])
  }

  lemma RunStart(w: seq<(TypeId, MultibindingData)>, i: int, arena0: multiset<TypeId>, outside0: multiset<TypeId>)
    requires 0 <= i < |w|
    ensures RunMerged(w, i, i, w[i].0, [], arena0, arena0, outside0, outside0)
  {
    assert |w[i..i]| == 0;
  }

  /** Lines 240-244: one pass of the inner loop, for the provider `w[j]`. */
  method MergeProvider(
    w: seq<(TypeId, MultibindingData)>, i: int, j: int, added: seq<MultibindingElem>,
    alloc: FixedSizeAllocatorData, ghost arena0: multiset<TypeId>, ghost outside0: multiset<TypeId>)
    returns (added': seq<MultibindingElem>)
    requires 0 <= i <= j < |w|
    requires RunMerged(w, i, j, w[j].0, added, arena0, alloc.allocatedTypes,
                       outside0, alloc.externallyAllocatedTypes)
    modifies alloc
    ensures RunMerged(w, i, j + 1, w[j].0, added', arena0, alloc.allocatedTypes,
                      outside0, alloc.externallyAllocatedTypes)
  {
    ExtendRun(w, i, j, w[j].0, arena0, outside0,
              alloc.allocatedTypes, alloc.externallyAllocatedTypes);
    added' := added + [ElemOf(w[j].1)];
    RecordProvider(w[j].0, w[j].1.needsAllocation, alloc);
  }

  /** One more provider of type `t` at the end of the run: one more element,
      and one more entry on one side of each running tally. */
  lemma ExtendRun(
    w: seq<(TypeId, MultibindingData)>, i: int, j: int, t: TypeId,
    arena0: multiset<TypeId>, outside0: multiset<TypeId>,
    arena: multiset<TypeId>, outside: multiset<TypeId>)
    requires 0 <= i <= j < |w|
    requires w[j].0 == t
    requires arena == arena0 + AllocatedProviders(w[i..j])
    requires outside == outside0 + ExternalProviders(w[i..j])
    ensures ElemsFor(w[i..j + 1], t) == ElemsFor(w[i..j], t) + [ElemOf(w[j].1)]
    ensures arena + (if w[j].1.needsAllocation then multiset{t} else multiset{})
         == arena0 + AllocatedProviders(w[i..j + 1])
    ensures outside + (if w[j].1.needsAllocation then multiset{} else multiset{t})
         == outside0 + ExternalProviders(w[i..j + 1])
  {
    ExtendRunElems(w, i, j, t);
    ExtendRunAllocated(w, i, j, arena0, arena);
    ExtendRunExternal(w, i, j, outside0, outside);
  }

  lemma ExtendRunElems(w: seq<(TypeId, MultibindingData)>, i: int, j: int, t: TypeId)
    requires 0 <= i <= j < |w| && w[j].0 == t
    ensures ElemsFor(w[i..j + 1], t) == ElemsFor(w[i..j], t) + [ElemOf(w[j].1)]
  {
    assert w[i..j + 1] == w[i..j] + [w[j]];
    OneProvider(w[j], t);
    ConcatElems(w[i..j], [w[j]], t);
  }

  lemma ExtendRunAllocated(
    w: seq<(TypeId, MultibindingData)>, i: int, j: int, arena0: multiset<TypeId>, arena: multiset<TypeId>)
    requires 0 <= i <= j < |w|
    requires arena == arena0 + AllocatedProviders(w[i..j])
    ensures arena + (if w[j].1.needsAllocation then multiset{w[j].0} else multiset{})
         == arena0 + AllocatedProviders(w[i..j + 1])
  {
    var run, x := w[i..j], w[j];
    assert w[i..j + 1] == run + [x];
    OneProvider(x, x.0);
    ConcatAllocated(run, [x]);
    calc {
      arena0 + AllocatedProviders(w[i..j + 1]);
      arena0 + (AllocatedProviders(run) + AllocatedProviders([x]));
      (arena0 + AllocatedProviders(run)) + AllocatedProviders([x]);
    }
  }

  lemma ExtendRunExternal(
    w: seq<(TypeId, MultibindingData)>, i: int, j: int, outside0: multiset<TypeId>, outside: multiset<TypeId>)
    requires 0 <= i <= j < |w|
    requires outside == outside0 + ExternalProviders(w[i..j])
    ensures outside + (if w[j].1.needsAllocation then multiset{} else multiset{w[j].0})
         == outside0 + ExternalProviders(w[i..j + 1])
  {
    var run, x := w[i..j], w[j];
    assert w[i..j + 1] == run + [x];
    OneProvider(x, x.0);
    ConcatExternal(run, [x]);
    calc {
      outside0 + ExternalProviders(w[i..j + 1]);
      outside0 + (ExternalProviders(run) + ExternalProviders([x]));
      (outside0 + ExternalProviders(run)) + ExternalProviders([x]);
    }
  }

  /** Lines 240-244: one provider of type `t` goes to one side of the
      allocator plan. */
  method RecordProvider(t: TypeId, needsAllocation: bool, alloc: FixedSizeAllocatorData)
    modifies alloc
    ensures alloc.allocatedTypes
         == old(alloc.allocatedTypes) + if needsAllocation then multiset{t} else multiset{}
    ensures alloc.externallyAllocatedTypes
         == old(alloc.externallyAllocatedTypes) + if needsAllocation then multiset{} else multiset{t}
  {
    if needsAllocation {
      alloc.AddType(t);
    } else {
      alloc.AddExternallyAllocatedType(t);
    }
  }

  /** Appending a whole run of one type to a prefix that ends at a type
      boundary adds that type and changes the elements of that type only. */
  lemma RunStep(w: seq<(TypeId, MultibindingData)>, i: int, j: int)
    requires SortedByType(w)
    requires 0 <= i < j <= |w|
    requires 0 < i ==> w[i - 1].0 < w[i].0
    requires RunOfType(w, i, j, w[i].0)
    ensures NoneOfType(w[..i], w[i].0) && ElemsFor(w[..i], w[i].0) == []
    ensures forall t :: NoneOfType(w[..j], t) <==> NoneOfType(w[..i], t) && t != w[i].0
    ensures forall t :: ElemsFor(w[..j], t)
                     == (if t == w[i].0 then ElemsFor(w[i..j], t) else ElemsFor(w[..i], t))
    ensures AllocatedProviders(w[..j]) == AllocatedProviders(w[..i]) + AllocatedProviders(w[i..j])
    ensures ExternalProviders(w[..j]) == ExternalProviders(w[..i]) + ExternalProviders(w[i..j])
  {
    NewTypeAtBoundary(w, i);
    RunTypes(w, i, j);
    RunElems(w, i, j);
    assert w[..j] == w[..i] + w[i..j];
    ConcatAllocated(w[..i], w[i..j]);
    ConcatExternal(w[..i], w[i..j]);
  }

  /** In a sorted list, the type at a boundary does not occur before it. */
  lemma NewTypeAtBoundary(w: seq<(TypeId, MultibindingData)>, i: int)
    requires SortedByType(w)
    requires 0 <= i < |w|
    requires 0 < i ==> w[i - 1].0 < w[i].0
    ensures NoneOfType(w[..i], w[i].0) && ElemsFor(w[..i], w[i].0) == []
  {
    forall k | 0 <= k < i ensures w[..i][k].0 != w[i].0 {
      assert w[..i][k] == w[k];
      assert w[k].0 <= w[i - 1].0;
    }
    NoElemsOfAbsentType(w[..i], w[i].0);
  }

  lemma RunTypes(w: seq<(TypeId, MultibindingData)>, i: int, j: int)
    requires 0 <= i < j <= |w|
    requires RunOfType(w, i, j, w[i].0)
    ensures forall t :: NoneOfType(w[..j], t) <==> NoneOfType(w[..i], t) && t != w[i].0
  {
    var x := w[i].0;
    forall t ensures NoneOfType(w[..j], t) <==> NoneOfType(w[..i], t) && t != x {
      if NoneOfType(w[..j], t) {
        assert w[..j][i].0 == x;
        forall k | 0 <= k < i ensures w[..i][k].0 != t {
          assert w[..i][k] == w[..j][k];
        }
      }
      if NoneOfType(w[..i], t) && t != x {
        forall k | 0 <= k < j ensures w[..j][k].0 != t {
          if k < i {
            assert w[..i][k] == w[..j][k];
          }
        }
      }
    }
  }

  lemma RunElems(w: seq<(TypeId, MultibindingData)>, i: int, j: int)
    requires 0 <= i < j <= |w|
    requires RunOfType(w, i, j, w[i].0)
    requires ElemsFor(w[..i], w[i].0) == []
    ensures forall t :: ElemsFor(w[..j], t)
                     == (if t == w[i].0 then ElemsFor(w[i..j], t) else ElemsFor(w[..i], t))
  {
    var x := w[i].0;
    assert w[..j] == w[..i] + w[i..j];
    forall t ensures ElemsFor(w[..j], t)
      == if t == x then ElemsFor(w[i..j], t) else ElemsFor(w[..i], t)
    {
      ConcatElems(w[..i], w[i..j], t);
      if t == x {
        assert ElemsFor(w[..i], t) + ElemsFor(w[i..j], t) == [] + ElemsFor(w[i..j], t);
      } else {
        forall k | 0 <= k < |w[i..j]| ensures w[i..j][k].0 != t {
          assert w[i..j][k] == w[i + k];
        }
        NoElemsOfAbsentType(w[i..j], t);
      }
    }
  }

  /** A sorted copy has the same types and, per type, the same providers. */
  lemma SortedCopy(v: seq<(TypeId, MultibindingData)>, w: seq<(TypeId, MultibindingData)>)
    requires w == SortByType(v)
    ensures forall t :: NoneOfType(w, t) <==> t !in TypesOf(v)
    ensures forall t :: multiset(ElemsFor(w, t)) == multiset(ElemsFor(v, t))
    ensures forall t :: t !in TypesOf(v) ==> ElemsFor(v, t) == []
    ensures forall k :: 0 <= k < |w| ==> exists m :: 0 <= m < |v| && v[m] == w[k]
    ensures AllocatedProviders(w) == AllocatedProviders(v)
    ensures ExternalProviders(w) == ExternalProviders(v)
  {
    forall k | 0 <= k < |w| ensures exists m :: 0 <= m < |v| && v[m] == w[k] {
      assert w[k] in multiset(v);
    }
    forall t ensures NoneOfType(w, t) <==> t !in TypesOf(v) {
      if !NoneOfType(w, t) {
        var k :| 0 <= k < |w| && w[k].0 == t;
        var m :| 0 <= m < |v| && v[m] == w[k];
        assert TypesOf(v)[m] == t;
      }
      if t in TypesOf(v) {
        var m :| 0 <= m < |v| && TypesOf(v)[m] == t;
        assert v[m] in multiset(w);
        var k :| 0 <= k < |w| && w[k] == v[m];
      }
    }
    forall t ensures multiset(ElemsFor(w, t)) == multiset(ElemsFor(v, t)) {
      SortKeepsProviders(v, t);
    }
    forall t | t !in TypesOf(v) ensures ElemsFor(v, t) == [] {
      forall k | 0 <= k < |v| ensures v[k].0 != t {
        assert TypesOf(v)[k] == v[k].0;
      }
      NoElemsOfAbsentType(v, t);
    }
    SortKeepsProviders(v, 0);
  }

  /** Lines 216-250. The table is passed in and returned; the allocator plan
      is updated in place. */
  method AddMultibindings(
    multibindings: map<TypeId, NormalizedMultibindingData>,
    alloc: FixedSizeAllocatorData,
    v: seq<(TypeId, MultibindingData)>)
    returns (result: map<TypeId, NormalizedMultibindingData>)
    modifies alloc
    ensures forall t :: t !in TypesOf(v) ==>
      (t in result <==> t in multibindings) && Lookup(result, t) == Lookup(multibindings, t)
    ensures forall t :: t in TypesOf(v) ==> t in result && AppendsProviders(multibindings, v, t, result[t])
    ensures forall t :: t in TypesOf(v) ==> AccessorFrom(v, t, result[t])
    ensures alloc.allocatedTypes == old(alloc.allocatedTypes) + AllocatedProviders(v)
    ensures alloc.externallyAllocatedTypes
         == old(alloc.externallyAllocatedTypes) + ExternalProviders(v)
  {
    var w := SortByType(v);
    result := MergeSorted(multibindings, alloc, w);
    UntouchedTypes(multibindings, v, w, result);
    AppendedTypes(multibindings, v, w, result);
    CopiedAccessors(multibindings, v, w, result);
    SortedCopy(v, w);
  }

  /** The entry `d` of type `t` keeps the elements `mbs` had and appends one
      element per provider of type `t` in `v`, in some order. */
  ghost predicate AppendsProviders(
    mbs: map<TypeId, NormalizedMultibindingData>, v: seq<(TypeId, MultibindingData)>,
    t: TypeId, d: NormalizedMultibindingData)
  {
    var before := Lookup(mbs, t).elems;
    && |d.elems| == |before| + |ElemsFor(v, t)|
    && d.elems[..|before|] == before
    && multiset(d.elems[|before|..]) == multiset(ElemsFor(v, t))
  }

  lemma UntouchedTypes(
    mbs: map<TypeId, NormalizedMultibindingData>, v: seq<(TypeId, MultibindingData)>,
    w: seq<(TypeId, MultibindingData)>, result: map<TypeId, NormalizedMultibindingData>)
    requires w == SortByType(v)
    requires MergedUpTo(mbs, w, |w|, result)
    ensures forall t :: t !in TypesOf(v) ==>
      (t in result <==> t in mbs) && Lookup(result, t) == Lookup(mbs, t)
  {
    assert w[..|w|] == w;
    SortedCopy(v, w);
    forall t | t !in TypesOf(v)
      ensures (t in result <==> t in mbs) && Lookup(result, t) == Lookup(mbs, t)
    {
      NoElemsOfAbsentType(w, t);
      assert Lookup(result, t).elems == Lookup(mbs, t).elems + [];
    }
  }

  lemma AppendedTypes(
    mbs: map<TypeId, NormalizedMultibindingData>, v: seq<(TypeId, MultibindingData)>,
    w: seq<(TypeId, MultibindingData)>, result: map<TypeId, NormalizedMultibindingData>)
    requires w == SortByType(v)
    requires MergedKeys(mbs, w, |w|, result)
    requires MergedElems(mbs, w, |w|, result)
    ensures forall t :: t in TypesOf(v) ==> t in result && AppendsProviders(mbs, v, t, result[t])
  {
    assert w[..|w|] == w;
    SortedCopy(v, w);
    forall t | t in TypesOf(v) ensures t in result && AppendsProviders(mbs, v, t, result[t]) {
      var before := Lookup(mbs, t).elems;
      var d := result[t];
      assert d.elems == before + ElemsFor(w, t);
      assert d.elems[..|before|] == before;
      assert d.elems[|before|..] == ElemsFor(w, t);
      assert |ElemsFor(w, t)| == |multiset(ElemsFor(w, t))|;
      assert |ElemsFor(v, t)| == |multiset(ElemsFor(v, t))|;
    }
  }

  lemma CopiedAccessors(
    mbs: map<TypeId, NormalizedMultibindingData>, v: seq<(TypeId, MultibindingData)>,
    w: seq<(TypeId, MultibindingData)>, result: map<TypeId, NormalizedMultibindingData>)
    requires w == SortByType(v)
    requires MergedKeys(mbs, w, |w|, result)
    requires MergedAccessors(mbs, w, |w|, result)
    ensures forall t :: t in TypesOf(v) ==> t in result && AccessorFrom(v, t, result[t])
  {
    assert w[..|w|] == w;
    SortedCopy(v, w);
    forall t | t in TypesOf(v) ensures t in result && AccessorFrom(v, t, result[t]) {
      var k :| 0 <= k < |w| && w[k].0 == t
        && Lookup(result, t).getMultibindingsVector == Some(w[k].1.getMultibindingsVector);
      var m :| 0 <= m < |v| && v[m] == w[k];
    }
  }

  /** After merging the sorted providers `w[..n]` into `mbs`: which types
      have an entry, what elements each holds and where its accessor came
      from. */
  ghost predicate MergedUpTo(
    mbs: map<TypeId, NormalizedMultibindingData>, w: seq<(TypeId, MultibindingData)>,
    n: nat, result: map<TypeId, NormalizedMultibindingData>)
    requires n <= |w|
  {
    MergedKeys(mbs, w, n, result) && MergedElems(mbs, w, n, result)
    && MergedAccessors(mbs, w, n, result)
  }

  ghost predicate MergedKeys(
    mbs: map<TypeId, NormalizedMultibindingData>, w: seq<(TypeId, MultibindingData)>,
    n: nat, result: map<TypeId, NormalizedMultibindingData>)
    requires n <= |w|
  {
    forall t :: t in result <==> t in mbs || !NoneOfType(w[..n], t)
  }

  ghost predicate MergedElems(
    mbs: map<TypeId, NormalizedMultibindingData>, w: seq<(TypeId, MultibindingData)>,
    n: nat, result: map<TypeId, NormalizedMultibindingData>)
    requires n <= |w|
  {
    forall t :: Lookup(result, t).elems == Lookup(mbs, t).elems + ElemsFor(w[..n], t)
  }

  ghost predicate MergedAccessors(
    mbs: map<TypeId, NormalizedMultibindingData>, w: seq<(TypeId, MultibindingData)>,
    n: nat, result: map<TypeId, NormalizedMultibindingData>)
    requires n <= |w|
  {
    && (forall t :: NoneOfType(w[..n], t) ==>
         Lookup(result, t).getMultibindingsVector == Lookup(mbs, t).getMultibindingsVector)
    && (forall t :: !NoneOfType(w[..n], t) ==> AccessorFrom(w, t, Lookup(result, t)))
  }

  /** The entry's accessor is that of some provider of type `t` in `w`. */
  ghost predicate AccessorFrom(
    w: seq<(TypeId, MultibindingData)>, t: TypeId, d: NormalizedMultibindingData)
  {
    exists k :: 0 <= k < |w| && w[k].0 == t
      && d.getMultibindingsVector == Some(w[k].1.getMultibindingsVector)
  }

  /** Merging the whole run `w[i..j]` of type `w[i].0` extends the merged
      prefix from `i` to `j`. */
  lemma MergeRunStep(
    mbs: map<TypeId, NormalizedMultibindingData>, w: seq<(TypeId, MultibindingData)>,
    i: nat, j: nat, prev: map<TypeId, NormalizedMultibindingData>,
    b: NormalizedMultibindingData)
    requires SortedByType(w)
    requires 0 <= i < j <= |w|
    requires 0 < i ==> w[i - 1].0 < w[i].0
    requires RunOfType(w, i, j, w[i].0)
    requires MergedUpTo(mbs, w, i, prev)
    requires b.getMultibindingsVector == Some(w[i].1.getMultibindingsVector)
    requires b.elems == Lookup(prev, w[i].0).elems + ElemsFor(w[i..j], w[i].0)
    ensures MergedUpTo(mbs, w, j, prev[w[i].0 := b])
  {
    RunStep(w, i, j);
    KeysStep(mbs, w, i, j, prev, b);
    ElemsStep(mbs, w, i, j, prev, b);
    AccessorsStep(mbs, w, i, j, prev, b);
  }

  lemma KeysStep(
    mbs: map<TypeId, NormalizedMultibindingData>, w: seq<(TypeId, MultibindingData)>,
    i: nat, j: nat, prev: map<TypeId, NormalizedMultibindingData>,
    b: NormalizedMultibindingData)
    requires 0 <= i < j <= |w|
    requires forall t :: NoneOfType(w[..j], t) <==> NoneOfType(w[..i], t) && t != w[i].0
    requires MergedKeys(mbs, w, i, prev)
    ensures MergedKeys(mbs, w, j, prev[w[i].0 := b])
  {
  }

  lemma ElemsStep(
    mbs: map<TypeId, NormalizedMultibindingData>, w: seq<(TypeId, MultibindingData)>,
    i: nat, j: nat, prev: map<TypeId, NormalizedMultibindingData>,
    b: NormalizedMultibindingData)
    requires 0 <= i < j <= |w|
    requires ElemsFor(w[..i], w[i].0) == []
    requires forall t :: ElemsFor(w[..j], t)
                      == (if t == w[i].0 then ElemsFor(w[i..j], t) else ElemsFor(w[..i], t))
    requires MergedElems(mbs, w, i, prev)
    requires b.elems == Lookup(prev, w[i].0).elems + ElemsFor(w[i..j], w[i].0)
    ensures MergedElems(mbs, w, j, prev[w[i].0 := b])
  {
    var before := t => ElemsFor(w[..i], t);
    var after := t => ElemsFor(w[..j], t);
    ReplaceEntryElems(mbs, prev, w[i].0, b, before, after, ElemsFor(w[i..j], w[i].0));
  }

  /** Replacing the entry of type `x` by one holding the run `run` after the
      old elements turns "each entry is `mbs`'s plus `before`" into "plus
      `after`", where `after` differs from `before` only at `x`. */
  lemma ReplaceEntryElems(
    mbs: map<TypeId, NormalizedMultibindingData>, prev: map<TypeId, NormalizedMultibindingData>,
    x: TypeId, b: NormalizedMultibindingData,
    before: TypeId -> seq<MultibindingElem>, after: TypeId -> seq<MultibindingElem>,
    run: seq<MultibindingElem>)
    requires before(x) == []
    requires forall t :: after(t) == if t == x then run else before(t)
    requires forall t :: Lookup(prev, t).elems == Lookup(mbs, t).elems + before(t)
    requires b.elems == Lookup(prev, x).elems + run
    ensures forall t :: Lookup(prev[x := b], t).elems == Lookup(mbs, t).elems + after(t)
  {
    var result := prev[x := b];
    forall t ensures Lookup(result, t).elems == Lookup(mbs, t).elems + after(t) {
      if t == x {
        assert Lookup(prev, t).elems == Lookup(mbs, t).elems + [];
      } else {
        assert Lookup(result, t) == Lookup(prev, t);
      }
    }
  }

  lemma AccessorsStep(
    mbs: map<TypeId, NormalizedMultibindingData>, w: seq<(TypeId, MultibindingData)>,
    i: nat, j: nat, prev: map<TypeId, NormalizedMultibindingData>,
    b: NormalizedMultibindingData)
    requires 0 <= i < j <= |w|
    requires forall t :: NoneOfType(w[..j], t) <==> NoneOfType(w[..i], t) && t != w[i].0
    requires MergedAccessors(mbs, w, i, prev)
    requires b.getMultibindingsVector == Some(w[i].1.getMultibindingsVector)
    ensures MergedAccessors(mbs, w, j, prev[w[i].0 := b])
  {
    var x := w[i].0;
    var result := prev[x := b];
    forall t | !NoneOfType(w[..j], t) ensures AccessorFrom(w, t, Lookup(result, t)) {
      if t == x {
        assert w[i].0 == t;
      } else {
        assert Lookup(result, t) == Lookup(prev, t);
      }
    }
  }

  /** The tallies after the run `w[i..j]` account for the prefix `w[..j]`. */
  lemma PrefixTallies(
    w: seq<(TypeId, MultibindingData)>, i: nat, j: nat,
    arena0: multiset<TypeId>, arena: multiset<TypeId>,
    outside0: multiset<TypeId>, outside: multiset<TypeId>)
    requires i <= j <= |w|
    requires arena == arena0 + AllocatedProviders(w[..i])
    requires outside == outside0 + ExternalProviders(w[..i])
    ensures arena + AllocatedProviders(w[i..j]) == arena0 + AllocatedProviders(w[..j])
    ensures outside + ExternalProviders(w[i..j]) == outside0 + ExternalProviders(w[..j])
  {
    assert w[..j] == w[..i] + w[i..j];
    ConcatAllocated(w[..i], w[i..j]);
    ConcatExternal(w[..i], w[i..j]);
  }

  /** Before the first run nothing is merged. */
  lemma MergedNothing(mbs: map<TypeId, NormalizedMultibindingData>, w: seq<(TypeId, MultibindingData)>)
    ensures MergedUpTo(mbs, w, 0, mbs)
  {
    assert w[..0] == [];
    forall t ensures Lookup(mbs, t).elems == Lookup(mbs, t).elems + ElemsFor(w[..0], t) {
      assert Lookup(mbs, t).elems + [] == Lookup(mbs, t).elems;
    }
  }

  /** Lines 227-249: the merge proper, over providers already sorted by type. */
  method MergeSorted(
    multibindings: map<TypeId, NormalizedMultibindingData>,
    alloc: FixedSizeAllocatorData,
    w: seq<(TypeId, MultibindingData)>)
    returns (result: map<TypeId, NormalizedMultibindingData>)
    requires SortedByType(w)
    modifies alloc
    ensures MergedUpTo(multibindings, w, |w|, result)
    ensures alloc.allocatedTypes == old(alloc.allocatedTypes) + AllocatedProviders(w)
    ensures alloc.externallyAllocatedTypes
         == old(alloc.externallyAllocatedTypes) + ExternalProviders(w)
  {
    result := multibindings;
    ghost var allocated0, external0 := alloc.allocatedTypes, alloc.externallyAllocatedTypes;
    var i := 0;
    MergedNothing(multibindings, w);
    while i < |w|
      invariant 0 <= i <= |w|
      invariant 0 < i < |w| ==> w[i - 1].0 < w[i].0
      invariant MergedUpTo(multibindings, w, i, result)
      invariant alloc.allocatedTypes == allocated0 + AllocatedProviders(w[..i])
      invariant alloc.externallyAllocatedTypes == external0 + ExternalProviders(w[..i])
    {
      ghost var arena, outside := alloc.allocatedTypes, alloc.externallyAllocatedTypes;
      var j;
      result, j := MergeNextRun(multibindings, w, i, result, alloc);
      PrefixTallies(w, i, j, allocated0, arena, external0, outside);
      i := j;
    }
    assert w[..i] == w;
  }

  /** Lines 229-248: one pass of the outer loop, which merges the run of
      providers that starts at `i`. */
  method MergeNextRun(
    mbs: map<TypeId, NormalizedMultibindingData>, w: seq<(TypeId, MultibindingData)>,
    i: nat, result: map<TypeId, NormalizedMultibindingData>, alloc: FixedSizeAllocatorData)
    returns (result': map<TypeId, NormalizedMultibindingData>, j: nat)
    requires SortedByType(w)
    requires i < |w|
    requires 0 < i ==> w[i - 1].0 < w[i].0
    requires MergedUpTo(mbs, w, i, result)
    modifies alloc
    ensures i < j <= |w|
    ensures RunOfType(w, i, j, w[i].0)
    ensures j < |w| ==> w[j - 1].0 < w[j].0
    ensures MergedUpTo(mbs, w, j, result')
    ensures w[i].0 in result'
    ensures result'[w[i].0].getMultibindingsVector == Some(w[i].1.getMultibindingsVector)
    ensures alloc.allocatedTypes == old(alloc.allocatedTypes) + AllocatedProviders(w[i..j])
    ensures alloc.externallyAllocatedTypes
         == old(alloc.externallyAllocatedTypes) + ExternalProviders(w[i..j])
  {
    var x := w[i];
    // Set for every type in the run, whether or not the type had an entry before.
    var b := Lookup(result, x.0).(getMultibindingsVector := Some(x.1.getMultibindingsVector));
    // The providers of the run are appended one by one to the entry's elements.
    var added;
    added, j := MergeRun(w, i, alloc);
    var elems := b.elems + added;
    assert j < |w| ==> w[j - 1].0 == w[i].0 <= w[j].0;
    b := b.(elems := elems);
    MergeRunStep(mbs, w, i, j, result, b);
    result' := result[x.0 := b];
  }
}
