/**
 * BindingNormalization::normalizeBindings: deduplicates the raw binding list
 * into one binding per type, records every raw occurrence in the allocator
 * plan, and folds interface -> class indirections whose class slot nobody
 * else can observe ("binding compression").
 *
 * Each loop of the source is one method below, proved against the
 * specification predicates and functions that precede it; the top-level
 * method NormalizeBindings runs them in the source's order.
 */
module Normalization {
  import opened BindingTypes
  import opened Allocator

  // ---------------------------------------------------------------------
  // Deduplication

  /** Every two raw entries for the same type carry the same binding. */
  ghost predicate Consistent(b: seq<(TypeId, BindingData)>) {
    forall i, j :: 0 <= i < |b| && 0 <= j < |b| && b[i].0 == b[j].0 ==> b[i].1 == b[j].1
  }

  /** `b[j]` is the first raw entry that disagrees with an earlier entry for
      its type: the one the deduplication loop stops at. */
  ghost predicate FirstConflictAt(b: seq<(TypeId, BindingData)>, j: int) {
    && 0 <= j < |b|
    && Consistent(b[..j])
    && exists i :: 0 <= i < j && b[i].0 == b[j].0 && b[i].1 != b[j].1
  }

  /** The deduplicated binding table of a consistent raw list. */
  ghost function BindingMap(b: seq<(TypeId, BindingData)>): map<TypeId, BindingData>
    requires Consistent(b)
  {
    map i | 0 <= i < |b| :: b[i].0 := b[i].1
  }

  /** Lines 106-121: the first loop. A repeated type with equal data is
      accepted; one with different data ends normalization with an error
      naming that type (the source prints a diagnostic and exits). */
  method DeduplicateBindings(b: seq<(TypeId, BindingData)>)
    returns (r: Result<map<TypeId, BindingData>, TypeId>)
    ensures r.Ok? <==> Consistent(b)
    ensures r.Ok? ==> r.value.Keys == set i | 0 <= i < |b| :: b[i].0
    ensures r.Ok? ==> forall i :: 0 <= i < |b| ==> r.value[b[i].0] == b[i].1
    ensures r.Ok? ==> r.value == BindingMap(b)
    ensures r.Err? ==> exists j :: FirstConflictAt(b, j) && b[j].0 == r.error
  {
    var m: map<TypeId, BindingData> := map[];
    var k := 0;
    while k < |b|
      invariant 0 <= k <= |b|
      invariant Consistent(b[..k])
      invariant m.Keys == set i | 0 <= i < k :: b[i].0
      invariant forall i :: 0 <= i < k ==> m[b[i].0] == b[i].1
    {
      var (t, d) := b[k];
      if t in m {
        if d != m[t] {
          ghost var i :| 0 <= i < k && b[i].0 == t;
          assert FirstConflictAt(b, k);
          assert b[..k + 1][i].0 == b[..k + 1][k].0;
          assert !Consistent(b[..k + 1]);
          return Err(t);
        }
      } else {
        m := m[t := d];
      }
      k := k + 1;
    }
    assert b[..k] == b;
    r := Ok(m);
  }

  // ---------------------------------------------------------------------
  // Allocator accounting

  /** The types of the raw entries the injector allocates, one per entry. */
  function AllocatedOccurrences(b: seq<(TypeId, BindingData)>): multiset<TypeId> {
    if |b| == 0 then multiset{}
    else
      var last := b[|b| - 1];
      AllocatedOccurrences(b[..|b| - 1])
        + if last.1.NeedsAllocation() then multiset{last.0} else multiset{}
  }

  /** The types of the raw entries allocated outside the injector, one per entry. */
  function ExternalOccurrences(b: seq<(TypeId, BindingData)>): multiset<TypeId> {
    if |b| == 0 then multiset{}
    else
      var last := b[|b| - 1];
      ExternalOccurrences(b[..|b| - 1])
        + if last.1.NeedsAllocation() then multiset{} else multiset{last.0}
  }

  /** Every raw entry is recorded exactly once, on one side or the other. */
  lemma {:induction false} OccurrencesPartitionRawEntries(b: seq<(TypeId, BindingData)>)
    ensures AllocatedOccurrences(b) + ExternalOccurrences(b) == multiset(TypesOf(b))
  {
    if |b| != 0 {
      var p := b[..|b| - 1];
      OccurrencesPartitionRawEntries(p);
      assert TypesOf(b) == TypesOf(p) + [b[|b| - 1].0];
    }
  }

  /** The allocated count of a type is the number of its raw entries that
      need allocation, duplicates included. */
  lemma {:induction false} AllocatedCountIsRawCount(b: seq<(TypeId, BindingData)>, t: TypeId)
    ensures AllocatedOccurrences(b)[t] == |RawAllocated(b, t)|
  {
    if |b| != 0 {
      var n := |b| - 1;
      AllocatedCountIsRawCount(b[..n], t);
      RawAllocatedStep(b, t);
      assert AllocatedOccurrences(b)[t] == AllocatedOccurrences(b[..n])[t]
        + if b[n].0 == t && b[n].1.NeedsAllocation() then 1 else 0;
    }
  }

  /** The positions of the raw entries of type `t` that need allocation. */
  ghost function RawAllocated(b: seq<(TypeId, BindingData)>, t: TypeId): set<int> {
    set i | 0 <= i < |b| && b[i].0 == t && b[i].1.NeedsAllocation()
  }

  lemma RawAllocatedStep(b: seq<(TypeId, BindingData)>, t: TypeId)
    requires |b| != 0
    ensures |RawAllocated(b, t)| == |RawAllocated(b[..|b| - 1], t)|
      + if b[|b| - 1].0 == t && b[|b| - 1].1.NeedsAllocation() then 1 else 0
  {
    var n := |b| - 1;
    var p := b[..n];
    var before, after := RawAllocated(p, t), RawAllocated(b, t);
    if b[n].0 == t && b[n].1.NeedsAllocation() {
      forall i ensures i in after <==> i in before + {n} {
        if 0 <= i < n {
          assert p[i] == b[i];
        }
      }
      assert after == before + {n};
    } else {
      forall i ensures i in after <==> i in before {
        if 0 <= i < n {
          assert p[i] == b[i];
        }
      }
      assert after == before;
    }
  }

  /** Lines 123-129: the second loop, over the raw list, duplicates included. */
  method TallyBindings(b: seq<(TypeId, BindingData)>, alloc: FixedSizeAllocatorData)
    modifies alloc
    ensures alloc.allocatedTypes == old(alloc.allocatedTypes) + AllocatedOccurrences(b)
    ensures alloc.externallyAllocatedTypes
         == old(alloc.externallyAllocatedTypes) + ExternalOccurrences(b)
  {
    ghost var allocated0, external0 := alloc.allocatedTypes, alloc.externallyAllocatedTypes;
    var k := 0;
    while k < |b|
      invariant 0 <= k <= |b|
      invariant alloc.allocatedTypes == allocated0 + AllocatedOccurrences(b[..k])
      invariant alloc.externallyAllocatedTypes == external0 + ExternalOccurrences(b[..k])
    {
      RecordOccurrence(b[k], alloc);
      OccurrencesStep(b, k);
      k := k + 1;
    }
    assert b[..k] == b;
  }

  /** The body of that loop: one raw entry goes to one side of the plan. */
  method RecordOccurrence(p: (TypeId, BindingData), alloc: FixedSizeAllocatorData)
    modifies alloc
    ensures alloc.allocatedTypes == old(alloc.allocatedTypes) + AllocatedOccurrences([p])
    ensures alloc.externallyAllocatedTypes
         == old(alloc.externallyAllocatedTypes) + ExternalOccurrences([p])
  {
    if p.1.NeedsAllocation() {
      alloc.AddType(p.0);
    } else {
      alloc.AddExternallyAllocatedType(p.0);
    }
  }

  lemma OccurrencesStep(b: seq<(TypeId, BindingData)>, k: nat)
    requires k < |b|
    ensures AllocatedOccurrences(b[..k + 1]) == AllocatedOccurrences(b[..k]) + AllocatedOccurrences([b[k]])
    ensures ExternalOccurrences(b[..k + 1]) == ExternalOccurrences(b[..k]) + ExternalOccurrences([b[k]])
  {
    assert b[..k + 1][..k] == b[..k];
  }

  // ---------------------------------------------------------------------
  // Compression candidates

  /** Candidates keyed by class type; a later candidate for the same class
      replaces an earlier one. */
  function CandidateMap(cands: seq<CompressedBinding>): map<TypeId, (TypeId, BindingData)> {
    if |cands| == 0 then map[]
    else
      var last := cands[|cands| - 1];
      CandidateMap(cands[..|cands| - 1])[last.classId := (last.interfaceId, last.bindingData)]
  }

  /** `cands[i]` is the last candidate for the class `c`. */
  ghost predicate LastCandidateFor(cands: seq<CompressedBinding>, c: TypeId, i: int) {
    && 0 <= i < |cands|
    && cands[i].classId == c
    && forall j :: i < j < |cands| ==> cands[j].classId != c
  }

  /** A class has an entry exactly when some candidate names it, and the
      entry is taken from the last such candidate. */
  lemma {:induction false} CandidateMapKeepsLast(cands: seq<CompressedBinding>, c: TypeId)
    ensures c in CandidateMap(cands) <==> exists i :: 0 <= i < |cands| && cands[i].classId == c
    ensures c in CandidateMap(cands) ==>
      exists i :: LastCandidateFor(cands, c, i)
               && CandidateMap(cands)[c] == (cands[i].interfaceId, cands[i].bindingData)
  {
    if |cands| != 0 {
      var n := |cands| - 1;
      var p := cands[..n];
      CandidateMapKeepsLast(p, c);
      if cands[n].classId == c {
        assert LastCandidateFor(cands, c, n);
      } else if c in CandidateMap(cands) {
        var i :| LastCandidateFor(p, c, i)
              && CandidateMap(p)[c] == (p[i].interfaceId, p[i].bindingData);
        assert LastCandidateFor(cands, c, i);
      } else {
        forall i | 0 <= i < |cands| ensures cands[i].classId != c {
          if i < n {
            assert p[i] == cands[i];
          }
        }
      }
    }
  }

  /** Lines 134-141: the third loop. */
  method CollectCandidates(cands: seq<CompressedBinding>)
    returns (m: map<TypeId, (TypeId, BindingData)>)
    ensures m == CandidateMap(cands)
  {
    m := map[];
    var k := 0;
    while k < |cands|
      invariant 0 <= k <= |cands|
      invariant m == CandidateMap(cands[..k])
    {
      assert cands[..k + 1][..k] == cands[..k];
      m := m[cands[k].classId := (cands[k].interfaceId, cands[k].bindingData)];
      k := k + 1;
    }
    assert cands[..k] == cands;
  }

  /** The next key of a hash-map iteration: any key not yet visited. */
  method AnyKey(todo: set<TypeId>) returns (x: TypeId)
    requires todo != {}
    ensures x in todo
  {
    NonEmptyHasElement(todo);
    x :| x in todo;
  }

  lemma NonEmptyHasElement(s: set<TypeId>)
    requires s != {}
    ensures exists x :: x in s
  {
    if forall x :: x !in s {
      assert false;
    }
  }

  // ---------------------------------------------------------------------
  // The three rules that disqualify a candidate

  /** Rule 1: `c` is a dependency of some multibinding provider. */
  ghost predicate IsMultibindingDep(mbs: seq<(TypeId, MultibindingData)>, c: TypeId) {
    exists i :: 0 <= i < |mbs| && mbs[i].1.DependsOn(c)
  }

  /** Rule 3: some bound type in `xs` other than the interface `i` depends on
      `c`. Bindings to already constructed objects have no dependencies. */
  ghost predicate DependedOnByOther(
    bm: map<TypeId, BindingData>, xs: set<TypeId>, c: TypeId, i: TypeId)
  {
    exists x :: x in xs && x in bm && x != i && bm[x].DependsOn(c)
  }

  /** A candidate survives when none of the three rules applies to it. */
  ghost predicate Survives(
    cm: map<TypeId, (TypeId, BindingData)>,
    mbs: seq<(TypeId, MultibindingData)>,
    exposed: seq<TypeId>,
    bm: map<TypeId, BindingData>,
    c: TypeId)
  {
    && c in cm
    && !IsMultibindingDep(mbs, c)
    && c !in exposed
    && !DependedOnByOther(bm, bm.Keys, c, cm[c].0)
  }

  /** The candidates that survive the three rules, keyed by class type. */
  ghost function SurvivingCandidates(
    cands: seq<CompressedBinding>,
    mbs: seq<(TypeId, MultibindingData)>,
    exposed: seq<TypeId>,
    bm: map<TypeId, BindingData>): map<TypeId, (TypeId, BindingData)>
  {
    var cm := CandidateMap(cands);
    map c | c in cm && Survives(cm, mbs, exposed, bm, c) :: cm[c]
  }

  /** Lines 144-154: erase every class that a multibinding depends on. */
  method PruneMultibindingDeps(
    cm: map<TypeId, (TypeId, BindingData)>, mbs: seq<(TypeId, MultibindingData)>)
    returns (r: map<TypeId, (TypeId, BindingData)>)
    ensures forall c :: c in r <==> c in cm && !IsMultibindingDep(mbs, c)
    ensures forall c :: c in r ==> r[c] == cm[c]
  {
    r := cm;
    var i := 0;
    while i < |mbs|
      invariant 0 <= i <= |mbs|
      invariant forall c :: c in r <==> c in cm && !IsMultibindingDep(mbs[..i], c)
      invariant forall c :: c in r ==> r[c] == cm[c]
    {
      var deps := mbs[i].1.deps;
      if deps.Some? {
        var k := 0;
        while k < |deps.value|
          invariant 0 <= k <= |deps.value|
          invariant forall c :: c in r <==>
            c in cm && !IsMultibindingDep(mbs[..i], c) && c !in deps.value[..k]
          invariant forall c :: c in r ==> r[c] == cm[c]
        {
          r := r - {deps.value[k]};
          k := k + 1;
        }
        assert deps.value[..k] == deps.value;
      }
      forall c ensures IsMultibindingDep(mbs[..i + 1], c)
                  <==> IsMultibindingDep(mbs[..i], c) || mbs[i].1.DependsOn(c)
      {
        if IsMultibindingDep(mbs[..i + 1], c) {
          var j :| 0 <= j < i + 1 && mbs[..i + 1][j].1.DependsOn(c);
          if j < i {
            assert mbs[..i][j] == mbs[j];
          }
        }
        if IsMultibindingDep(mbs[..i], c) {
          var j :| 0 <= j < i && mbs[..i][j].1.DependsOn(c);
          assert mbs[..i + 1][j] == mbs[j];
        }
        if mbs[i].1.DependsOn(c) {
          assert mbs[..i + 1][i] == mbs[i];
        }
      }
      i := i + 1;
    }
    assert mbs[..i] == mbs;
  }

  /** Lines 157-162: erase every class that the injector exposes. */
  method PruneExposed(cm: map<TypeId, (TypeId, BindingData)>, exposed: seq<TypeId>)
    returns (r: map<TypeId, (TypeId, BindingData)>)
    ensures forall c :: c in r <==> c in cm && c !in exposed
    ensures forall c :: c in r ==> r[c] == cm[c]
  {
    r := cm;
    var k := 0;
    while k < |exposed|
      invariant 0 <= k <= |exposed|
      invariant forall c :: c in r <==> c in cm && c !in exposed[..k]
      invariant forall c :: c in r ==> r[c] == cm[c]
    {
      r := r - {exposed[k]};
      k := k + 1;
    }
    assert exposed[..k] == exposed;
  }

  /** Lines 165-180: erase every class that a bound type other than its
      interface depends on. The bindings are visited in hash-map order,
      modelled by an arbitrary choice; the result does not depend on it. */
  method PruneDependedOn(cm: map<TypeId, (TypeId, BindingData)>, bm: map<TypeId, BindingData>)
    returns (r: map<TypeId, (TypeId, BindingData)>)
    ensures forall c :: c in r <==> c in cm && !DependedOnByOther(bm, bm.Keys, c, cm[c].0)
    ensures forall c :: c in r ==> r[c] == cm[c]
  {
    r := cm;
    var todo := bm.Keys;
    ghost var done: set<TypeId> := {};
    while todo != {}
      invariant todo + done == bm.Keys && todo !! done
      invariant forall c :: c in r <==> c in cm && !DependedOnByOther(bm, done, c, cm[c].0)
      invariant forall c :: c in r ==> r[c] == cm[c]
      decreases todo
    {
      var x := AnyKey(todo);
      var data := bm[x];
      if !data.IsCreated() {
        var k := 0;
        while k < |data.deps|
          invariant 0 <= k <= |data.deps|
          invariant forall c :: c in r <==>
            && c in cm
            && !DependedOnByOther(bm, done, c, cm[c].0)
            && !(c in data.deps[..k] && cm[c].0 != x)
          invariant forall c :: c in r ==> r[c] == cm[c]
        {
          var c := data.deps[k];
          if c in r && r[c].0 != x {
            r := r - {c};
          }
          k := k + 1;
        }
        assert data.deps[..k] == data.deps;
      }
      forall c | c in cm
        ensures DependedOnByOther(bm, done + {x}, c, cm[c].0)
            <==> DependedOnByOther(bm, done, c, cm[c].0) || (x != cm[c].0 && data.DependsOn(c))
      {
        if DependedOnByOther(bm, done + {x}, c, cm[c].0) {
          var y :| y in done + {x} && y in bm && y != cm[c].0 && bm[y].DependsOn(c);
        }
      }
      todo := todo - {x};
      done := done + {x};
    }
  }

  /** Lines 134-180: the candidate map, pruned by the three rules in turn. */
  method SelectCompressions(
    cands: seq<CompressedBinding>,
    mbs: seq<(TypeId, MultibindingData)>,
    exposed: seq<TypeId>,
    bm: map<TypeId, BindingData>)
    returns (sc: map<TypeId, (TypeId, BindingData)>)
    ensures sc == SurvivingCandidates(cands, mbs, exposed, bm)
  {
    var cm0 := CollectCandidates(cands);
    var cm1 := PruneMultibindingDeps(cm0, mbs);
    var cm2 := PruneExposed(cm1, exposed);
    sc := PruneDependedOn(cm2, bm);
    ghost var expected := SurvivingCandidates(cands, mbs, exposed, bm);
    forall c ensures c in sc <==> c in expected {
      if c in cm2 {
        assert cm2[c] == cm0[c];
      }
    }
    assert sc.Keys == expected.Keys;
  }

  // ---------------------------------------------------------------------
  // Applying the compressions

  /** `t` is the interface of some candidate in `cm`. */
  ghost predicate IsInterface(cm: map<TypeId, (TypeId, BindingData)>, t: TypeId) {
    exists c :: c in cm && cm[c].0 == t
  }

  /** What the application loop relies on for the surviving candidates: its
      assertions (both ends of every edge are bound and the interface is a
      pure forwarding binding that allocates nothing), no chains I -> C -> X
      (the class of a candidate is never an interface), and at most one
      class per interface. */
  ghost predicate CompressionWellFormed(
    bm: map<TypeId, BindingData>, cm: map<TypeId, (TypeId, BindingData)>)
  {
    && (forall c :: c in cm ==>
          && c in bm
          && cm[c].0 in bm
          && !bm[cm[c].0].NeedsAllocation()
          && cm[c].0 !in cm)
    && (forall c1, c2 :: c1 in cm && c2 in cm && c1 != c2 ==> cm[c1].0 != cm[c2].0)
  }

  /** `out` is `bm` with every candidate of `cm` applied: each class slot is
      gone, each interface is built from its candidate's data, and every other
      type keeps its binding. */
  ghost predicate IsCompressionOf(
    bm: map<TypeId, BindingData>, cm: map<TypeId, (TypeId, BindingData)>,
    out: map<TypeId, BindingData>)
  {
    && out.Keys == bm.Keys - cm.Keys
    && (forall c :: c in cm ==> cm[c].0 in out && out[cm[c].0] == cm[c].1)
    && (forall t :: t in out && !IsInterface(cm, t) ==> out[t] == bm[t])
  }

  /** For each applied compression, keyed by its class: the interface and the
      bindings of both ends before the compression. */
  ghost predicate IsCompressionInfoOf(
    bm: map<TypeId, BindingData>, cm: map<TypeId, (TypeId, BindingData)>,
    info: map<TypeId, BindingCompressionInfo>)
    requires CompressionWellFormed(bm, cm)
  {
    && info.Keys == cm.Keys
    && forall c :: c in cm ==> info[c] == BindingCompressionInfo(cm[c].0, bm[cm[c].0], bm[c])
  }

  /** Lines 185-205: the compression loop, over the surviving candidates in
      hash-map order. The two FruitAssert checks and the one on the
      interface's allocation are the assertions in the body. */
  method ApplyCompressions(bm: map<TypeId, BindingData>, cm: map<TypeId, (TypeId, BindingData)>)
    returns (out: map<TypeId, BindingData>, info: map<TypeId, BindingCompressionInfo>)
    requires CompressionWellFormed(bm, cm)
    ensures IsCompressionOf(bm, cm, out)
    ensures IsCompressionInfoOf(bm, cm, info)
  {
    out, info := bm, map[];
    var todo := cm.Keys;
    ghost var done: set<TypeId> := {};
    while todo != {}
      invariant todo + done == cm.Keys && todo !! done
      invariant out.Keys == bm.Keys - done
      invariant forall c :: c in done ==> cm[c].0 in out && out[cm[c].0] == cm[c].1
      invariant forall t :: t in out && !IsInterface(cm, t) ==> out[t] == bm[t]
      invariant forall c :: c in todo ==> out[cm[c].0] == bm[cm[c].0]
      invariant info.Keys == done
      invariant forall c :: c in done ==>
        info[c] == BindingCompressionInfo(cm[c].0, bm[cm[c].0], bm[c])
      decreases todo
    {
      var c := AnyKey(todo);
      var (i, data) := cm[c];
      assert i in out;
      assert c in out;
      assert !IsInterface(cm, c);
      info := info[c := BindingCompressionInfo(i, out[i], out[c])];
      assert !out[i].NeedsAllocation();
      out := out[i := data] - {c};
      todo := todo - {c};
      done := done + {c};
    }
  }

  // ---------------------------------------------------------------------
  // The result vector

  /** `v` lists the entries of `m`, each type once, in some order. */
  ghost predicate IsVectorOf(v: seq<(TypeId, BindingData)>, m: map<TypeId, BindingData>) {
    ListsExactly(v, m, m.Keys)
  }

  /** `v` lists each key of `keys` once, with its binding in `m`, and nothing
      else. */
  ghost predicate ListsExactly(v: seq<(TypeId, BindingData)>, m: map<TypeId, BindingData>, keys: set<TypeId>) {
    && (forall i, j :: 0 <= i < j < |v| ==> v[i].0 != v[j].0)
    && (forall i :: 0 <= i < |v| ==> v[i].0 in keys && v[i].0 in m && m[v[i].0] == v[i].1)
    && (forall t :: t in keys ==> exists i :: 0 <= i < |v| && v[i].0 == t)
  }

  lemma ListsOneMore(v: seq<(TypeId, BindingData)>, m: map<TypeId, BindingData>, keys: set<TypeId>, t: TypeId)
    requires ListsExactly(v, m, keys)
    requires t in m && t !in keys
    ensures ListsExactly(v + [(t, m[t])], m, keys + {t})
  {
    var w := v + [(t, m[t])];
    assert w[|v|].0 == t;
    forall u | u in keys ensures exists i :: 0 <= i < |w| && w[i].0 == u {
      var i :| 0 <= i < |v| && v[i].0 == u;
      assert w[i] == v[i];
    }
  }

  /** Lines 207-213: copy the table into a vector in hash-map order. */
  method BindingsToVector(m: map<TypeId, BindingData>) returns (v: seq<(TypeId, BindingData)>)
    ensures IsVectorOf(v, m)
    ensures |v| == |m|
  {
    v := [];
    var todo := m.Keys;
    ghost var done: set<TypeId> := {};
    while todo != {}
      invariant todo + done == m.Keys && todo !! done
      invariant |v| == |done|
      invariant ListsExactly(v, m, done)
      decreases todo
    {
      var t := AnyKey(todo);
      ListsOneMore(v, m, done, t);
      v := v + [(t, m[t])];
      todo := todo - {t};
      done := done + {t};
    }
    assert m.Keys == done;
  }

  // ---------------------------------------------------------------------
  // The whole pass

  /** What normalizeBindings demands of its caller: when the bindings are
      consistent, the candidates that survive the three rules can be applied
      (see CompressionWellFormed). */
  ghost predicate NormalizationRequirement(
    bindings: seq<(TypeId, BindingData)>,
    cands: seq<CompressedBinding>,
    mbs: seq<(TypeId, MultibindingData)>,
    exposed: seq<TypeId>)
  {
    Consistent(bindings) ==>
      var bm := BindingMap(bindings);
      CompressionWellFormed(bm, SurvivingCandidates(cands, mbs, exposed, bm))
  }

  /** Lines 98-214. On inconsistent bindings the source exits before touching
      the allocator; that is the error result here. */
  method NormalizeBindings(
    bindings: seq<(TypeId, BindingData)>,
    alloc: FixedSizeAllocatorData,
    cands: seq<CompressedBinding>,
    mbs: seq<(TypeId, MultibindingData)>,
    exposed: seq<TypeId>)
    returns (r: Result<(seq<(TypeId, BindingData)>, map<TypeId, BindingCompressionInfo>), TypeId>)
    requires NormalizationRequirement(bindings, cands, mbs, exposed)
    modifies alloc
    ensures r.Err? <==> !Consistent(bindings)
    ensures r.Err? ==> exists j :: FirstConflictAt(bindings, j) && bindings[j].0 == r.error
    ensures r.Err? ==> unchanged(alloc)
    ensures r.Ok? ==>
      && alloc.allocatedTypes == old(alloc.allocatedTypes) + AllocatedOccurrences(bindings)
      && alloc.externallyAllocatedTypes
         == old(alloc.externallyAllocatedTypes) + ExternalOccurrences(bindings)
    ensures r.Ok? ==>
      var bm := BindingMap(bindings);
      var sc := SurvivingCandidates(cands, mbs, exposed, bm);
      && CompressionWellFormed(bm, sc)
      && (exists out :: IsCompressionOf(bm, sc, out) && IsVectorOf(r.value.0, out))
      && IsCompressionInfoOf(bm, sc, r.value.1)
  {
    var dedup := DeduplicateBindings(bindings);
    if dedup.Err? {
      return Err(dedup.error);
    }
    var bm := dedup.value;
    TallyBindings(bindings, alloc);
    var sc := SelectCompressions(cands, mbs, exposed, bm);
    var out, info := ApplyCompressions(bm, sc);
    var v := BindingsToVector(out);
    r := Ok((v, info));
    assert IsCompressionOf(bm, sc, out) && IsVectorOf(r.value.0, out);
  }
}
