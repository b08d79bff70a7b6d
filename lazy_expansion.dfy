/**
 * BindingNormalization::expandLazyComponents: flattens the graph of lazily
 * installed components into the component storage's raw lists, expanding each
 * distinct component once and stopping at an installation loop.
 *
 * The work-list is a vector of optional components used as a stack; an empty
 * slot is the marker at which the expansion of the component on top of the
 * expansion stack completes. Its shape is described by one frame per level of
 * the expansion: the components installed at that level (the initial
 * work-list at level 0, the lazy components of `stack[k]` at level k + 1) and
 * how many of them are still waiting in the work-list.
 */
module LazyExpansion {
  import opened BindingTypes

  /** The parameters a lazy component closes over; compared by value. */
  type ComponentArgs(==)

  /** A deferred installer: the type of its component function and its
      arguments. Two components are the same component exactly when both
      agree, which is how the source's hash sets compare them. */
  datatype LazyComponent = LazyComponent(funTypeId: TypeId, args: ComponentArgs)

  /** What `LazyComponent::addBindings` adds to the storage: raw bindings,
      compression candidates, multibinding providers, and further lazy
      components, pushed on the work-list in this order. */
  datatype Contribution = Contribution(
    bindings: seq<(TypeId, BindingData)>,
    compressedBindings: seq<CompressedBinding>,
    multibindings: seq<(TypeId, MultibindingData)>,
    lazyComponents: seq<LazyComponent>)

  /** The part of the component storage that expansion reads and extends. */
  class ComponentStorage {
    var bindings: seq<(TypeId, BindingData)>
    var compressedBindings: seq<CompressedBinding>
    var multibindings: seq<(TypeId, MultibindingData)>
    /** The work-list; `None` is an end-of-expansion marker. */
    var lazyComponents: seq<Option<LazyComponent>>

    constructor(lazyComponents: seq<LazyComponent>)
      ensures bindings == [] && compressedBindings == [] && multibindings == []
      ensures this.lazyComponents == Somes(lazyComponents)
    {
      bindings := [];
      compressedBindings := [];
      multibindings := [];
      this.lazyComponents := Somes(lazyComponents);
    }

    /** The effect of `addBindings` on the storage: everything it contributes
        is appended. */
    method Add(c: Contribution)
      modifies this
      ensures bindings == old(bindings) + c.bindings
      ensures compressedBindings == old(compressedBindings) + c.compressedBindings
      ensures multibindings == old(multibindings) + c.multibindings
      ensures lazyComponents == old(lazyComponents) + Somes(c.lazyComponents)
    {
      bindings := bindings + c.bindings;
      compressedBindings := compressedBindings + c.compressedBindings;
      multibindings := multibindings + c.multibindings;
      lazyComponents := lazyComponents + Somes(c.lazyComponents);
    }
  }

  datatype Outcome =
    | Expanded
      /** Lines 294-298: `repeated` is installed again while its own expansion
          is in progress; `trace` is the expansion stack, outermost first. */
    | InstallationLoop(toplevel: TypeId, trace: seq<LazyComponent>, repeated: LazyComponent)
      /** The fuel bound was reached with work left. */
    | OutOfFuel

  function Somes(s: seq<LazyComponent>): (r: seq<Option<LazyComponent>>)
    ensures |r| == |s| && forall i :: 0 <= i < |s| ==> r[i] == Some(s[i])
  {
    seq(|s|, i requires 0 <= i < |s| => Some(s[i]))
  }

  /** The components of a work-list that holds no marker. */
  function Components(w: seq<Option<LazyComponent>>): (r: seq<LazyComponent>)
    requires forall i :: 0 <= i < |w| ==> w[i].Some?
    ensures Somes(r) == w
  {
    seq(|w|, i requires 0 <= i < |w| => w[i].value)
  }

  function Children(addBindings: LazyComponent -> Contribution, c: LazyComponent): seq<LazyComponent> {
    addBindings(c).lazyComponents
  }

  ghost predicate Distinct(s: seq<LazyComponent>) {
    forall i, j :: 0 <= i < j < |s| ==> s[i] != s[j]
  }

  /** `trace` is a chain of installations that starts at a component of the
      initial work-list. */
  ghost predicate InstallationChain(
    addBindings: LazyComponent -> Contribution, init: seq<LazyComponent>, trace: seq<LazyComponent>)
  {
    && (|trace| > 0 ==> trace[0] in init)
    && forall k :: 0 <= k < |trace| - 1 ==> trace[k + 1] in Children(addBindings, trace[k])
  }

  /** Each component of the log is in the initial work-list or installed by
      a component expanded before it. */
  ghost predicate Reached(
    addBindings: LazyComponent -> Contribution, init: seq<LazyComponent>, log: seq<LazyComponent>)
  {
    forall k :: 0 <= k < |log| ==>
      log[k] in init || exists j :: 0 <= j < k && log[k] in Children(addBindings, log[j])
  }

  /** Every component installed by a member of `s` is in `s`. */
  ghost predicate ClosedUnderInstall(addBindings: LazyComponent -> Contribution, s: set<LazyComponent>) {
    forall x, y :: x in s && y in Children(addBindings, x) ==> y in s
  }

  /** `done` lists components in the order they became fully expanded
      (line 283); each one installs only components finished before it. */
  ghost predicate FinishedInOrder(addBindings: LazyComponent -> Contribution, done: seq<LazyComponent>) {
    forall k, y :: 0 <= k < |done| && y in Children(addBindings, done[k]) ==> y in done[..k]
  }

  /** Along a chain of installations from a finish order, the positions in
      that order strictly decrease. */
  lemma {:induction false} ChainPositions(
    addBindings: LazyComponent -> Contribution, done: seq<LazyComponent>, t: seq<LazyComponent>)
    returns (pos: seq<nat>)
    requires FinishedInOrder(addBindings, done)
    requires InstallationChain(addBindings, done, t)
    ensures |pos| == |t|
    ensures forall k :: 0 <= k < |t| ==> pos[k] < |done| && done[pos[k]] == t[k]
    ensures forall k :: 0 <= k < |t| - 1 ==> pos[k + 1] < pos[k]
  {
    if |t| == 0 {
      return [];
    }
    var m := |t| - 1;
    if m == 0 {
      var i :| 0 <= i < |done| && done[i] == t[0];
      return [i];
    }
    var front := t[..m];
    assert InstallationChain(addBindings, done, front) by {
      forall k | 0 <= k < |front| - 1 ensures front[k + 1] in Children(addBindings, front[k]) {
        assert front[k + 1] == t[k + 1] && front[k] == t[k];
      }
    }
    var p := ChainPositions(addBindings, done, front);
    var prev := p[m - 1];
    assert t[m] in Children(addBindings, done[prev]) by {
      assert done[prev] == t[m - 1];
    }
    assert t[m] in done[..prev];
    var i :| 0 <= i < prev && done[..prev][i] == t[m];
    pos := p + [i];
  }

  lemma {:induction false} Descending(pos: seq<nat>, i: nat, j: nat)
    requires forall k :: 0 <= k < |pos| - 1 ==> pos[k + 1] < pos[k]
    requires i < j < |pos|
    ensures pos[j] < pos[i]
  {
    if j > i + 1 {
      Descending(pos, i, j - 1);
    }
  }

  /** A finish order has no installation loop: every chain of installations
      starting in it visits each component at most once. */
  lemma FinishOrderAcyclic(
    addBindings: LazyComponent -> Contribution, done: seq<LazyComponent>, t: seq<LazyComponent>)
    requires Distinct(done) && FinishedInOrder(addBindings, done)
    requires InstallationChain(addBindings, done, t)
    ensures Distinct(t)
  {
    var pos := ChainPositions(addBindings, done, t);
    forall i, j | 0 <= i < j < |t| ensures t[i] != t[j] {
      Descending(pos, i, j);
      assert done[pos[i]] == t[i] && done[pos[j]] == t[j];
    }
  }

  /** The components of a finish order install only components in it. */
  lemma FinishOrderClosed(addBindings: LazyComponent -> Contribution, done: seq<LazyComponent>)
    requires FinishedInOrder(addBindings, done)
    ensures ClosedUnderInstall(addBindings, set x | x in done)
  {
    forall x, y | x in (set x | x in done) && y in Children(addBindings, x) ensures y in (set x | x in done) {
      var k :| 0 <= k < |done| && done[k] == x;
      assert y in done[..k];
    }
  }

  /** How many lazy components the components of `log` install, counted
      with repetition. */
  function ChildCount(addBindings: LazyComponent -> Contribution, log: seq<LazyComponent>): nat {
    if |log| == 0 then 0
    else ChildCount(addBindings, log[..|log| - 1]) + |Children(addBindings, log[|log| - 1])|
  }

  /** Everything the components of `log` contributed, in expansion order. */
  function BindingsOf(addBindings: LazyComponent -> Contribution, log: seq<LazyComponent>)
    : seq<(TypeId, BindingData)>
  {
    if |log| == 0 then [] else BindingsOf(addBindings, log[..|log| - 1]) + addBindings(log[|log| - 1]).bindings
  }

  function CompressedBindingsOf(addBindings: LazyComponent -> Contribution, log: seq<LazyComponent>)
    : seq<CompressedBinding>
  {
    if |log| == 0 then []
    else CompressedBindingsOf(addBindings, log[..|log| - 1]) + addBindings(log[|log| - 1]).compressedBindings
  }

  function MultibindingsOf(addBindings: LazyComponent -> Contribution, log: seq<LazyComponent>)
    : seq<(TypeId, MultibindingData)>
  {
    if |log| == 0 then []
    else MultibindingsOf(addBindings, log[..|log| - 1]) + addBindings(log[|log| - 1]).multibindings
  }

  /** Each component's contribution appears in the storage exactly once, at
      the point of its expansion. */
  lemma {:induction false} ContributionsConcat(
    addBindings: LazyComponent -> Contribution, a: seq<LazyComponent>, b: seq<LazyComponent>)
    ensures BindingsOf(addBindings, a + b) == BindingsOf(addBindings, a) + BindingsOf(addBindings, b)
    ensures CompressedBindingsOf(addBindings, a + b)
         == CompressedBindingsOf(addBindings, a) + CompressedBindingsOf(addBindings, b)
    ensures MultibindingsOf(addBindings, a + b)
         == MultibindingsOf(addBindings, a) + MultibindingsOf(addBindings, b)
  {
    if |b| == 0 {
      assert a + b == a;
    } else {
      var n := |b| - 1;
      assert (a + b)[..|a + b| - 1] == a + b[..n];
      assert (a + b)[|a + b| - 1] == b[n];
      ContributionsConcat(addBindings, a, b[..n]);
      var x := addBindings(b[n]);
      calc {
        BindingsOf(addBindings, a + b);
        BindingsOf(addBindings, a + b[..n]) + x.bindings;
        (BindingsOf(addBindings, a) + BindingsOf(addBindings, b[..n])) + x.bindings;
        BindingsOf(addBindings, a) + (BindingsOf(addBindings, b[..n]) + x.bindings);
      }
      calc {
        CompressedBindingsOf(addBindings, a + b);
        CompressedBindingsOf(addBindings, a + b[..n]) + x.compressedBindings;
        (CompressedBindingsOf(addBindings, a) + CompressedBindingsOf(addBindings, b[..n]))
          + x.compressedBindings;
        CompressedBindingsOf(addBindings, a)
          + (CompressedBindingsOf(addBindings, b[..n]) + x.compressedBindings);
      }
      calc {
        MultibindingsOf(addBindings, a + b);
        MultibindingsOf(addBindings, a + b[..n]) + x.multibindings;
        (MultibindingsOf(addBindings, a) + MultibindingsOf(addBindings, b[..n])) + x.multibindings;
        MultibindingsOf(addBindings, a) + (MultibindingsOf(addBindings, b[..n]) + x.multibindings);
      }
    }
  }

  /** Appending the contribution of one more expanded component keeps the
      storage equal to what it held before expansion plus the contributions
      of the log. */
  lemma ContributionsStep(
    addBindings: LazyComponent -> Contribution, log: seq<LazyComponent>, c: LazyComponent,
    bindings0: seq<(TypeId, BindingData)>, compressed0: seq<CompressedBinding>,
    multibindings0: seq<(TypeId, MultibindingData)>,
    bindings: seq<(TypeId, BindingData)>, compressed: seq<CompressedBinding>,
    multibindings: seq<(TypeId, MultibindingData)>)
    requires bindings == bindings0 + BindingsOf(addBindings, log)
    requires compressed == compressed0 + CompressedBindingsOf(addBindings, log)
    requires multibindings == multibindings0 + MultibindingsOf(addBindings, log)
    ensures bindings + addBindings(c).bindings == bindings0 + BindingsOf(addBindings, log + [c])
    ensures compressed + addBindings(c).compressedBindings
         == compressed0 + CompressedBindingsOf(addBindings, log + [c])
    ensures multibindings + addBindings(c).multibindings
         == multibindings0 + MultibindingsOf(addBindings, log + [c])
  {
    ContributionsConcat(addBindings, log, [c]);
    var x := addBindings(c);
    assert [c][..0] == [];
    calc {
      bindings0 + BindingsOf(addBindings, log + [c]);
      bindings0 + (BindingsOf(addBindings, log) + x.bindings);
      bindings + x.bindings;
    }
    calc {
      compressed0 + CompressedBindingsOf(addBindings, log + [c]);
      compressed0 + (CompressedBindingsOf(addBindings, log) + x.compressedBindings);
      compressed + x.compressedBindings;
    }
    calc {
      multibindings0 + MultibindingsOf(addBindings, log + [c]);
      multibindings0 + (MultibindingsOf(addBindings, log) + x.multibindings);
      multibindings + x.multibindings;
    }
  }

  /** A repetition-free stack has as many elements as the set of them, which
      is the equality the source asserts at line 272. */
  lemma {:induction false} DistinctCardinality(s: seq<LazyComponent>)
    requires Distinct(s)
    ensures |set x | x in s| == |s|
  {
    if |s| != 0 {
      var p := s[..|s| - 1];
      var last := s[|s| - 1];
      assert Distinct(p);
      DistinctCardinality(p);
      assert (set x | x in s) == (set x | x in p) + {last};
      assert last !in (set x | x in p);
    }
  }

  // ---------------------------------------------------------------------
  // The shape of the work-list

  /** One level of the expansion: the components installed at that level,
      of which the first `rest` are still in the work-list. */
  datatype Frame = Frame(items: seq<LazyComponent>, rest: nat)

  ghost predicate FramesOk(frames: seq<Frame>) {
    forall k :: 0 <= k < |frames| ==> frames[k].rest <= |frames[k].items|
  }

  /** The components of a level still in the work-list, as work-list slots. */
  function Pending(f: Frame): seq<Option<LazyComponent>> {
    Somes(f.items[..if f.rest <= |f.items| then f.rest else |f.items|])
  }

  /** The work-list the frames describe: the pending components of each level,
      each level after the first preceded by its marker. */
  ghost function Layout(frames: seq<Frame>): seq<Option<LazyComponent>> {
    if |frames| == 0 then []
    else if |frames| == 1 then Pending(frames[0])
    else Layout(frames[..|frames| - 1]) + [None] + Pending(frames[|frames| - 1])
  }

  /** Popping a pending component off a level. */
  lemma PendingPop(f: Frame)
    requires 0 < f.rest <= |f.items|
    ensures var P := Pending(f);
      && |P| == f.rest && P[f.rest - 1] == Some(f.items[f.rest - 1])
      && Pending(f.(rest := f.rest - 1)) == P[..f.rest - 1]
  {
    assert f.items[..f.rest - 1] == f.items[..f.rest][..f.rest - 1];
  }

  /** The back of the work-list is the last pending component of the top
      level; popping it pops it from that level. */
  lemma LayoutBackPending(frames: seq<Frame>)
    requires |frames| > 0
    requires var top := frames[|frames| - 1]; 0 < top.rest <= |top.items|
    ensures var L, top := Layout(frames), frames[|frames| - 1];
      && |L| > 0 && L[|L| - 1] == Some(top.items[top.rest - 1])
      && L[..|L| - 1] == Layout(frames[..|frames| - 1] + [top.(rest := top.rest - 1)])
  {
    var n := |frames| - 1;
    var top := frames[n];
    var frames' := frames[..n] + [top.(rest := top.rest - 1)];
    assert frames'[..n] == frames[..n];
    PendingPop(top);
    var P := Pending(top);
    if n == 0 {
    } else {
      var B := Layout(frames[..n]) + [None];
      assert Layout(frames) == B + P;
      assert Layout(frames') == B + P[..top.rest - 1];
      assert (B + P)[..|B + P| - 1] == B + P[..top.rest - 1];
    }
  }

  /** With nothing pending on the top level, the back of the work-list is
      that level's marker, or the work-list is empty at level 0. */
  lemma LayoutBackMarker(frames: seq<Frame>)
    requires |frames| > 0 && frames[|frames| - 1].rest == 0
    ensures var L := Layout(frames);
      && (|frames| == 1 ==> |L| == 0)
      && (|frames| > 1 ==> |L| > 0 && L[|L| - 1] == None && L[..|L| - 1] == Layout(frames[..|frames| - 1]))
  {
    var n := |frames| - 1;
    assert |Pending(frames[n])| == 0;
    if n > 0 {
      assert Layout(frames) == Layout(frames[..n]) + [None];
    }
  }

  /** The back of the work-list, by whether the top level has anything
      pending. */
  lemma LayoutBack(frames: seq<Frame>)
    requires |frames| > 0 && frames[|frames| - 1].rest <= |frames[|frames| - 1].items|
    ensures var L, top := Layout(frames), frames[|frames| - 1];
      && (top.rest > 0 ==>
            && |L| > 0 && L[|L| - 1] == Some(top.items[top.rest - 1])
            && L[..|L| - 1] == Layout(frames[..|frames| - 1] + [top.(rest := top.rest - 1)]))
      && (top.rest == 0 && |frames| == 1 ==> |L| == 0)
      && (top.rest == 0 && |frames| > 1 ==>
            && |L| > 0 && L[|L| - 1] == None
            && L[..|L| - 1] == Layout(frames[..|frames| - 1]))
  {
    if frames[|frames| - 1].rest > 0 {
      LayoutBackPending(frames);
    } else {
      LayoutBackMarker(frames);
    }
  }

  /** Pushing a new level: its marker, then all its components. */
  lemma LayoutPush(frames: seq<Frame>, items: seq<LazyComponent>)
    requires |frames| > 0
    ensures Layout(frames + [Frame(items, |items|)]) == Layout(frames) + [None] + Somes(items)
  {
    var frames' := frames + [Frame(items, |items|)];
    assert frames'[..|frames|] == frames;
    assert items[..|items|] == items;
  }

  // ---------------------------------------------------------------------
  // The loop invariant

  /** The frames agree with the expansion stack: level 0 is the initial
      work-list, level k + 1 holds what `stack[k]` installed, and `stack[k]`
      sits in its level just past the pending part (its slot now holds the
      marker of level k + 1). */
  ghost predicate FramesMatch(
    addBindings: LazyComponent -> Contribution, init: seq<LazyComponent>,
    frames: seq<Frame>, stack: seq<LazyComponent>)
  {
    && |frames| == |stack| + 1
    && FramesOk(frames)
    && frames[0].items == init
    && (forall k :: 0 <= k < |stack| ==>
          frames[k].rest < |frames[k].items| && frames[k].items[frames[k].rest] == stack[k])
    && (forall k :: 0 <= k < |stack| ==> frames[k + 1].items == Children(addBindings, stack[k]))
  }

  /** Every component already popped from a level (other than the one whose
      expansion is in progress) is fully expanded. */
  ghost predicate PoppedAreExpanded(frames: seq<Frame>, fullyExpanded: set<LazyComponent>)
  {
    forall k, i :: 0 <= k < |frames| && frames[k].rest + (if k < |frames| - 1 then 1 else 0) <= i < |frames[k].items|
      ==> frames[k].items[i] in fullyExpanded
  }

  /** The sets of the source: the in-progress set is the set of the stack,
      and the log of expanded components is the two sets together. */
  ghost predicate Bookkeeping(
    stack: seq<LazyComponent>, inProgress: set<LazyComponent>, fullyExpanded: set<LazyComponent>,
    log: seq<LazyComponent>)
  {
    && Distinct(stack)
    && inProgress == (set x | x in stack)
    && inProgress !! fullyExpanded
    && Distinct(log)
    && (set x | x in log) == inProgress + fullyExpanded
  }

  /** The fully expanded set, in the order its members were finished. */
  ghost predicate FinishOrder(
    addBindings: LazyComponent -> Contribution, done: seq<LazyComponent>, fullyExpanded: set<LazyComponent>)
  {
    && Distinct(done)
    && (set x | x in done) == fullyExpanded
    && FinishedInOrder(addBindings, done)
  }

  ghost predicate Expanding(
    addBindings: LazyComponent -> Contribution, init: seq<LazyComponent>,
    work: seq<Option<LazyComponent>>, frames: seq<Frame>,
    stack: seq<LazyComponent>, inProgress: set<LazyComponent>, fullyExpanded: set<LazyComponent>,
    log: seq<LazyComponent>, done: seq<LazyComponent>)
  {
    && FramesMatch(addBindings, init, frames, stack)
    && work == Layout(frames)
    && PoppedAreExpanded(frames, fullyExpanded)
    && Bookkeeping(stack, inProgress, fullyExpanded, log)
    && FinishOrder(addBindings, done, fullyExpanded)
    && Reached(addBindings, init, log)
  }

  lemma ExpandingAtStart(addBindings: LazyComponent -> Contribution, init: seq<LazyComponent>)
    ensures Expanding(addBindings, init, Somes(init), [Frame(init, |init|)], [], {}, {}, [], [])
  {
    assert init[..|init|] == init;
  }

  // Each step of the loop restores the invariant; the lemmas below prove it
  // one part at a time.

  /** The top level is done: all it holds is fully expanded. */
  lemma TopDone(frames: seq<Frame>, fullyExpanded: set<LazyComponent>)
    requires PoppedAreExpanded(frames, fullyExpanded)
    requires |frames| > 0 && frames[|frames| - 1].rest == 0
    ensures forall y :: y in frames[|frames| - 1].items ==> y in fullyExpanded
  {
    var top := frames[|frames| - 1];
    forall y | y in top.items ensures y in fullyExpanded {
      var i :| 0 <= i < |top.items| && top.items[i] == y;
      assert top.items[i] in fullyExpanded;
    }
  }

  lemma PopFrames(
    addBindings: LazyComponent -> Contribution, init: seq<LazyComponent>,
    frames: seq<Frame>, stack: seq<LazyComponent>)
    requires FramesMatch(addBindings, init, frames, stack) && |stack| > 0
    ensures FramesMatch(addBindings, init, frames[..|stack|], stack[..|stack| - 1])
  {
  }

  lemma PopPopped(frames: seq<Frame>, c: LazyComponent, fullyExpanded: set<LazyComponent>)
    requires PoppedAreExpanded(frames, fullyExpanded)
    requires |frames| > 1
    requires var below := frames[|frames| - 2];
      below.rest < |below.items| && below.items[below.rest] == c
    ensures PoppedAreExpanded(frames[..|frames| - 1], fullyExpanded + {c})
  {
    var frames' := frames[..|frames| - 1];
    forall k, i | 0 <= k < |frames'| && frames'[k].rest + (if k < |frames'| - 1 then 1 else 0) <= i < |frames'[k].items|
      ensures frames'[k].items[i] in fullyExpanded + {c}
    {
      assert frames'[k] == frames[k];
    }
  }

  lemma PopFinishOrder(
    addBindings: LazyComponent -> Contribution, done: seq<LazyComponent>, c: LazyComponent,
    fullyExpanded: set<LazyComponent>)
    requires FinishOrder(addBindings, done, fullyExpanded) && c !in fullyExpanded
    requires forall y :: y in Children(addBindings, c) ==> y in fullyExpanded
    ensures FinishOrder(addBindings, done + [c], fullyExpanded + {c})
  {
    var done' := done + [c];
    assert (set x | x in done') == (set x | x in done) + {c};
    forall k, y | 0 <= k < |done'| && y in Children(addBindings, done'[k]) ensures y in done'[..k] {
      if k < |done| {
        assert done'[k] == done[k] && done'[..k] == done[..k];
      } else {
        assert done'[..k] == done && y in (set x | x in done);
      }
    }
  }

  lemma PopBookkeeping(
    stack: seq<LazyComponent>, inProgress: set<LazyComponent>, fullyExpanded: set<LazyComponent>,
    log: seq<LazyComponent>)
    requires Bookkeeping(stack, inProgress, fullyExpanded, log) && |stack| > 0
    ensures var c := stack[|stack| - 1];
      Bookkeeping(stack[..|stack| - 1], inProgress - {c}, fullyExpanded + {c}, log)
  {
    var n := |stack|;
    var c := stack[n - 1];
    var stack' := stack[..n - 1];
    assert (set x | x in stack) == (set x | x in stack') + {c};
    forall j | 0 <= j < n - 1 ensures stack'[j] != c {
      assert stack'[j] == stack[j];
    }
    assert c !in (set x | x in stack');
  }

  /** Lines 276-285: the back is a marker; the component on top of the stack
      has finished and moves to the fully expanded set. */
  lemma PopMarker(
    addBindings: LazyComponent -> Contribution, init: seq<LazyComponent>,
    work: seq<Option<LazyComponent>>, frames: seq<Frame>,
    stack: seq<LazyComponent>, inProgress: set<LazyComponent>, fullyExpanded: set<LazyComponent>,
    log: seq<LazyComponent>, done: seq<LazyComponent>)
    requires Expanding(addBindings, init, work, frames, stack, inProgress, fullyExpanded, log, done)
    requires |work| > 0 && work[|work| - 1].None?
    ensures |stack| > 0
    ensures var c := stack[|stack| - 1];
      Expanding(addBindings, init, work[..|work| - 1], frames[..|frames| - 1], stack[..|stack| - 1],
                inProgress - {c}, fullyExpanded + {c}, log, done + [c])
  {
    var n := |stack|;
    assert n > 0 && frames[n].rest == 0 && work[..|work| - 1] == Layout(frames[..n]) by {
      LayoutBack(frames);
    }
    var c := stack[n - 1];
    assert FramesMatch(addBindings, init, frames[..n], stack[..n - 1]) by {
      PopFrames(addBindings, init, frames, stack);
    }
    assert PoppedAreExpanded(frames[..n], fullyExpanded + {c}) by {
      PopPopped(frames, c, fullyExpanded);
    }
    assert FinishOrder(addBindings, done + [c], fullyExpanded + {c}) by {
      assert c in inProgress;
      TopDone(frames, fullyExpanded);
      PopFinishOrder(addBindings, done, c, fullyExpanded);
    }
    assert Bookkeeping(stack[..n - 1], inProgress - {c}, fullyExpanded + {c}, log) by {
      PopBookkeeping(stack, inProgress, fullyExpanded, log);
    }
  }

  /** Popping a pending component from the top level. */
  lemma PopPendingFrames(
    addBindings: LazyComponent -> Contribution, init: seq<LazyComponent>,
    frames: seq<Frame>, stack: seq<LazyComponent>)
    requires FramesMatch(addBindings, init, frames, stack)
    requires frames[|frames| - 1].rest > 0
    ensures var top := frames[|frames| - 1];
      FramesMatch(addBindings, init, frames[..|frames| - 1] + [top.(rest := top.rest - 1)], stack)
  {
    var n := |stack|;
    var frames' := frames[..n] + [frames[n].(rest := frames[n].rest - 1)];
    assert forall k :: 0 <= k < n ==> frames'[k] == frames[k];
  }

  lemma SkipPopped(frames: seq<Frame>, fullyExpanded: set<LazyComponent>)
    requires PoppedAreExpanded(frames, fullyExpanded)
    requires |frames| > 0
    requires var top := frames[|frames| - 1];
      0 < top.rest <= |top.items| && top.items[top.rest - 1] in fullyExpanded
    ensures var top := frames[|frames| - 1];
      PoppedAreExpanded(frames[..|frames| - 1] + [top.(rest := top.rest - 1)], fullyExpanded)
  {
    var n := |frames| - 1;
    var frames' := frames[..n] + [frames[n].(rest := frames[n].rest - 1)];
    forall k, i | 0 <= k < |frames'| && frames'[k].rest + (if k < |frames'| - 1 then 1 else 0) <= i < |frames'[k].items|
      ensures frames'[k].items[i] in fullyExpanded
    {
      if k < n {
        assert frames'[k] == frames[k];
      }
    }
  }

  /** Lines 288-292: the back is a component that is already fully expanded;
      it is dropped. */
  lemma SkipExpanded(
    addBindings: LazyComponent -> Contribution, init: seq<LazyComponent>,
    work: seq<Option<LazyComponent>>, frames: seq<Frame>,
    stack: seq<LazyComponent>, inProgress: set<LazyComponent>, fullyExpanded: set<LazyComponent>,
    log: seq<LazyComponent>, done: seq<LazyComponent>)
    requires Expanding(addBindings, init, work, frames, stack, inProgress, fullyExpanded, log, done)
    requires |work| > 0 && work[|work| - 1].Some? && work[|work| - 1].value in fullyExpanded
    ensures var top := frames[|frames| - 1];
      && top.rest > 0
      && Expanding(addBindings, init, work[..|work| - 1],
                   frames[..|frames| - 1] + [top.(rest := top.rest - 1)],
                   stack, inProgress, fullyExpanded, log, done)
  {
    var top := frames[|frames| - 1];
    var frames' := frames[..|frames| - 1] + [top.(rest := top.rest - 1)];
    assert 0 < top.rest <= |top.items| && top.items[top.rest - 1] in fullyExpanded
        && work[..|work| - 1] == Layout(frames') by {
      LayoutBack(frames);
    }
    assert FramesMatch(addBindings, init, frames', stack) by {
      PopPendingFrames(addBindings, init, frames, stack);
    }
    assert PoppedAreExpanded(frames', fullyExpanded) by {
      SkipPopped(frames, fullyExpanded);
    }
  }

  /** Lines 294-298: the back is a component whose expansion is in progress:
      the stack is a chain of installations from the initial work-list to a
      component that installs the repeated one again. */
  lemma LoopFound(
    addBindings: LazyComponent -> Contribution, init: seq<LazyComponent>,
    work: seq<Option<LazyComponent>>, frames: seq<Frame>,
    stack: seq<LazyComponent>, inProgress: set<LazyComponent>, fullyExpanded: set<LazyComponent>,
    log: seq<LazyComponent>, done: seq<LazyComponent>)
    requires Expanding(addBindings, init, work, frames, stack, inProgress, fullyExpanded, log, done)
    requires |work| > 0 && work[|work| - 1].Some? && work[|work| - 1].value in inProgress
    ensures |stack| > 0
    ensures InstallationChain(addBindings, init, stack)
    ensures work[|work| - 1].value in stack
    ensures work[|work| - 1].value in Children(addBindings, stack[|stack| - 1])
  {
    var n := |stack|;
    LayoutBack(frames);
    var top := frames[n];
    if n == 0 || top.rest == 0 {
      assert false;
    }
    forall k | 0 <= k < n - 1 ensures stack[k + 1] in Children(addBindings, stack[k]) {
      assert frames[k + 1].items[frames[k + 1].rest] == stack[k + 1];
    }
    assert frames[0].items[frames[0].rest] == stack[0];
    assert top.items[top.rest - 1] in Children(addBindings, stack[n - 1]);
  }

  lemma PushFrames(
    addBindings: LazyComponent -> Contribution, init: seq<LazyComponent>,
    frames: seq<Frame>, stack: seq<LazyComponent>, c: LazyComponent)
    requires FramesMatch(addBindings, init, frames, stack)
    requires var top := frames[|frames| - 1]; top.rest < |top.items| && top.items[top.rest] == c
    ensures var ch := Children(addBindings, c);
      FramesMatch(addBindings, init, frames + [Frame(ch, |ch|)], stack + [c])
  {
    var ch := Children(addBindings, c);
    var frames' := frames + [Frame(ch, |ch|)];
    assert forall k :: 0 <= k < |frames| ==> frames'[k] == frames[k];
  }

  lemma PushPopped(frames: seq<Frame>, items: seq<LazyComponent>, fullyExpanded: set<LazyComponent>)
    requires PoppedAreExpanded(frames, fullyExpanded)
    requires |frames| > 0
    requires var top := frames[|frames| - 1]; 0 < top.rest <= |top.items|
    ensures var top := frames[|frames| - 1];
      PoppedAreExpanded(frames[..|frames| - 1] + [top.(rest := top.rest - 1)] + [Frame(items, |items|)],
                        fullyExpanded)
  {
    var n := |frames| - 1;
    var frames' := frames[..n] + [frames[n].(rest := frames[n].rest - 1)] + [Frame(items, |items|)];
    forall k, i | 0 <= k < |frames'| && frames'[k].rest + (if k < |frames'| - 1 then 1 else 0) <= i < |frames'[k].items|
      ensures frames'[k].items[i] in fullyExpanded
    {
      if k < n {
        assert frames'[k] == frames[k];
      } else {
        assert k == n && frames'[k].items == frames[n].items;
      }
    }
  }

  lemma PushBookkeeping(
    stack: seq<LazyComponent>, inProgress: set<LazyComponent>, fullyExpanded: set<LazyComponent>,
    log: seq<LazyComponent>, c: LazyComponent)
    requires Bookkeeping(stack, inProgress, fullyExpanded, log)
    requires c !in inProgress && c !in fullyExpanded
    ensures Bookkeeping(stack + [c], inProgress + {c}, fullyExpanded, log + [c])
  {
    assert (set x | x in stack + [c]) == (set x | x in stack) + {c};
    assert (set x | x in log + [c]) == (set x | x in log) + {c};
  }

  lemma PushReached(
    addBindings: LazyComponent -> Contribution, init: seq<LazyComponent>,
    log: seq<LazyComponent>, c: LazyComponent)
    requires Reached(addBindings, init, log)
    requires c in init || exists j :: 0 <= j < |log| && c in Children(addBindings, log[j])
    ensures Reached(addBindings, init, log + [c])
  {
    var log' := log + [c];
    forall k | 0 <= k < |log'|
      ensures log'[k] in init || exists j :: 0 <= j < k && log'[k] in Children(addBindings, log'[j])
    {
      if k < |log| {
        if log[k] !in init {
          var j :| 0 <= j < k && log[k] in Children(addBindings, log[j]);
          assert log'[j] == log[j];
        }
      } else if c !in init {
        var j :| 0 <= j < |log| && c in Children(addBindings, log[j]);
        assert log'[j] == log[j];
      }
    }
  }

  /** The component at the back of the work-list comes from the initial
      work-list or was installed by the top of the stack, which has been
      expanded. */
  lemma BackOrigin(
    addBindings: LazyComponent -> Contribution, init: seq<LazyComponent>,
    frames: seq<Frame>, stack: seq<LazyComponent>, inProgress: set<LazyComponent>,
    fullyExpanded: set<LazyComponent>, log: seq<LazyComponent>)
    requires FramesMatch(addBindings, init, frames, stack)
    requires Bookkeeping(stack, inProgress, fullyExpanded, log)
    requires frames[|frames| - 1].rest > 0
    ensures var top := frames[|frames| - 1]; var c := top.items[top.rest - 1];
      c in init || exists j :: 0 <= j < |log| && c in Children(addBindings, log[j])
  {
    var n := |stack|;
    if n > 0 {
      var p := stack[n - 1];
      assert p in stack;
      assert p in inProgress;
      assert p in (set x | x in log);
      var j :| 0 <= j < |log| && log[j] == p;
      assert frames[(n - 1) + 1].items == Children(addBindings, stack[n - 1]);
    }
  }

  /** The work-list and the frames after expanding the back component `c`. */
  lemma ExpandShape(
    addBindings: LazyComponent -> Contribution, init: seq<LazyComponent>,
    work: seq<Option<LazyComponent>>, frames: seq<Frame>, stack: seq<LazyComponent>,
    fullyExpanded: set<LazyComponent>, c: LazyComponent, work': seq<Option<LazyComponent>>, frames': seq<Frame>)
    requires FramesMatch(addBindings, init, frames, stack) && work == Layout(frames)
    requires PoppedAreExpanded(frames, fullyExpanded)
    requires |work| > 0 && work[|work| - 1] == Some(c)
    requires work' == work[..|work| - 1] + [None] + Somes(Children(addBindings, c))
    requires var top := frames[|frames| - 1];
      frames' == frames[..|frames| - 1] + [top.(rest := top.rest - 1)]
                 + [Frame(Children(addBindings, c), |Children(addBindings, c)|)]
    ensures var top := frames[|frames| - 1]; top.rest > 0 && top.items[top.rest - 1] == c
    ensures FramesMatch(addBindings, init, frames', stack + [c])
    ensures work' == Layout(frames')
    ensures PoppedAreExpanded(frames', fullyExpanded)
  {
    var n := |stack|;
    var top := frames[n];
    assert 0 < top.rest <= |top.items| && top.items[top.rest - 1] == c by {
      LayoutBack(frames);
    }
    var ch := Children(addBindings, c);
    var mid := frames[..n] + [top.(rest := top.rest - 1)];
    assert frames' == mid + [Frame(ch, |ch|)];
    assert work' == Layout(frames') by {
      LayoutBack(frames);
      LayoutPush(mid, ch);
      calc {
        work';
        work[..|work| - 1] + [None] + Somes(ch);
        Layout(mid) + [None] + Somes(ch);
        Layout(frames');
      }
    }
    assert FramesMatch(addBindings, init, frames', stack + [c]) by {
      PopPendingFrames(addBindings, init, frames, stack);
      PushFrames(addBindings, init, mid, stack, c);
    }
    PushPopped(frames, ch, fullyExpanded);
  }

  /** The sets and the log after expanding `c`, the last pending component of
      the top level. */
  lemma ExpandRecords(
    addBindings: LazyComponent -> Contribution, init: seq<LazyComponent>,
    frames: seq<Frame>, stack: seq<LazyComponent>, inProgress: set<LazyComponent>,
    fullyExpanded: set<LazyComponent>, log: seq<LazyComponent>, c: LazyComponent)
    requires FramesMatch(addBindings, init, frames, stack)
    requires Bookkeeping(stack, inProgress, fullyExpanded, log)
    requires Reached(addBindings, init, log)
    requires var top := frames[|frames| - 1]; top.rest > 0 && top.items[top.rest - 1] == c
    requires c !in fullyExpanded && c !in inProgress
    ensures Bookkeeping(stack + [c], inProgress + {c}, fullyExpanded, log + [c])
    ensures Reached(addBindings, init, log + [c])
  {
    PushBookkeeping(stack, inProgress, fullyExpanded, log, c);
    BackOrigin(addBindings, init, frames, stack, inProgress, fullyExpanded, log);
    PushReached(addBindings, init, log, c);
  }

  /** Lines 301-310: the back is a new component: its slot becomes its
      marker, it goes on the stack, and its own lazy components are pushed
      after the marker. */
  lemma ExpandNext(
    addBindings: LazyComponent -> Contribution, init: seq<LazyComponent>,
    work: seq<Option<LazyComponent>>, frames: seq<Frame>,
    stack: seq<LazyComponent>, inProgress: set<LazyComponent>, fullyExpanded: set<LazyComponent>,
    log: seq<LazyComponent>, done: seq<LazyComponent>,
    c: LazyComponent, work': seq<Option<LazyComponent>>, frames': seq<Frame>)
    requires Expanding(addBindings, init, work, frames, stack, inProgress, fullyExpanded, log, done)
    requires |work| > 0 && work[|work| - 1] == Some(c)
    requires c !in fullyExpanded && c !in inProgress
    requires work' == work[..|work| - 1] + [None] + Somes(Children(addBindings, c))
    requires var top := frames[|frames| - 1];
      frames' == frames[..|frames| - 1] + [top.(rest := top.rest - 1)]
                 + [Frame(Children(addBindings, c), |Children(addBindings, c)|)]
    ensures Expanding(addBindings, init, work', frames', stack + [c], inProgress + {c}, fullyExpanded, log + [c],
                      done)
  {
    ExpandShape(addBindings, init, work, frames, stack, fullyExpanded, c, work', frames');
    ExpandRecords(addBindings, init, frames, stack, inProgress, fullyExpanded, log, c);
  }

  /** An empty work-list means every level is done: nothing is in progress,
      the initial components are all fully expanded. */
  lemma Finished(
    addBindings: LazyComponent -> Contribution, init: seq<LazyComponent>,
    frames: seq<Frame>,
    stack: seq<LazyComponent>, inProgress: set<LazyComponent>, fullyExpanded: set<LazyComponent>,
    log: seq<LazyComponent>, done: seq<LazyComponent>)
    requires Expanding(addBindings, init, [], frames, stack, inProgress, fullyExpanded, log, done)
    ensures stack == [] && inProgress == {}
    ensures forall c :: c in init ==> c in log
    ensures ClosedUnderInstall(addBindings, set x | x in log)
    ensures forall t :: InstallationChain(addBindings, log, t) ==> Distinct(t)
  {
    LayoutBack(frames);
    assert |stack| == 0 && inProgress == {};
    forall x ensures x in log <==> x in done {
      assert x in log <==> x in (set y | y in log);
      assert x in (set y | y in log) <==> x in fullyExpanded;
      assert x in done <==> x in (set y | y in done);
    }
    forall c | c in init ensures c in log {
      var i :| 0 <= i < |init| && init[i] == c;
      assert frames[0].items[i] in fullyExpanded;
      assert c in (set x | x in log);
    }
    FinishedLog(addBindings, log, done);
  }

  /** A log holding the same components as a finish order inherits its
      closure and its freedom from loops. */
  lemma FinishedLog(addBindings: LazyComponent -> Contribution, log: seq<LazyComponent>, done: seq<LazyComponent>)
    requires forall x :: x in log <==> x in done
    requires Distinct(done) && FinishedInOrder(addBindings, done)
    ensures ClosedUnderInstall(addBindings, set x | x in log)
    ensures forall t :: InstallationChain(addBindings, log, t) ==> Distinct(t)
  {
    FinishOrderClosed(addBindings, done);
    forall t | InstallationChain(addBindings, log, t) ensures Distinct(t) {
      assert InstallationChain(addBindings, done, t);
      FinishOrderAcyclic(addBindings, done, t);
    }
  }

  // ---------------------------------------------------------------------
  // The expansion

  /** The storage holds what it held before expansion plus the contributions
      of the components expanded so far. */
  ghost predicate Stored(
    addBindings: LazyComponent -> Contribution,
    bindings0: seq<(TypeId, BindingData)>, compressed0: seq<CompressedBinding>,
    multibindings0: seq<(TypeId, MultibindingData)>, component: ComponentStorage, log: seq<LazyComponent>)
    reads component
  {
    && component.bindings == bindings0 + BindingsOf(addBindings, log)
    && component.compressedBindings == compressed0 + CompressedBindingsOf(addBindings, log)
    && component.multibindings == multibindings0 + MultibindingsOf(addBindings, log)
  }

  /** Each step either consumes a slot of the work-list or expands a
      component, which adds its marker and its children: the steps taken so
      far and the slots left add up to the slots ever pushed. */
  lemma ChildCountAppend(addBindings: LazyComponent -> Contribution, log: seq<LazyComponent>, c: LazyComponent)
    ensures ChildCount(addBindings, log + [c]) == ChildCount(addBindings, log) + |Children(addBindings, c)|
  {
    assert (log + [c])[..|log|] == log;
  }

  /** One iteration of the loop of lines 257-311: handles the back of the
      work-list. Returns the repeated component when it closes an
      installation loop, in which case nothing is changed. `done` is the
      order in which components became fully expanded. */
  method ExpandBack(
    component: ComponentStorage, addBindings: LazyComponent -> Contribution, ghost init: seq<LazyComponent>,
    ghost bindings0: seq<(TypeId, BindingData)>, ghost compressed0: seq<CompressedBinding>,
    ghost multibindings0: seq<(TypeId, MultibindingData)>,
    fullyExpanded: set<LazyComponent>, stack: seq<LazyComponent>, inProgress: set<LazyComponent>,
    ghost frames: seq<Frame>, ghost log: seq<LazyComponent>, ghost done: seq<LazyComponent>)
    returns (repeated: Option<LazyComponent>, fullyExpanded': set<LazyComponent>, stack': seq<LazyComponent>,
             inProgress': set<LazyComponent>, ghost frames': seq<Frame>, ghost log': seq<LazyComponent>,
             ghost done': seq<LazyComponent>)
    requires |component.lazyComponents| != 0
    requires Expanding(addBindings, init, component.lazyComponents, frames, stack, inProgress, fullyExpanded,
                       log, done)
    requires Stored(addBindings, bindings0, compressed0, multibindings0, component, log)
    modifies component
    // A marker: the top of the stack has finished.
    ensures var work := old(component.lazyComponents);
      work[|work| - 1].None? ==>
        && |stack| > 0
        && component.lazyComponents == work[..|work| - 1]
        && stack' == stack[..|stack| - 1]
        && inProgress' == inProgress - {stack[|stack| - 1]}
        && fullyExpanded' == fullyExpanded + {stack[|stack| - 1]}
        && log' == log
        && unchanged(component`bindings, component`compressedBindings, component`multibindings)
    // A fully expanded component: it is dropped.
    ensures var work := old(component.lazyComponents);
      work[|work| - 1].Some? && work[|work| - 1].value in fullyExpanded ==>
        && component.lazyComponents == work[..|work| - 1]
        && stack' == stack && inProgress' == inProgress && fullyExpanded' == fullyExpanded && log' == log
        && unchanged(component`bindings, component`compressedBindings, component`multibindings)
    // A component in progress, and only that: an installation loop, changing nothing.
    ensures var work := old(component.lazyComponents); var back := work[|work| - 1];
      repeated.Some? <==> back.Some? && back.value !in fullyExpanded && back.value in inProgress
    ensures repeated.Some? ==>
      && repeated == old(component.lazyComponents[|component.lazyComponents| - 1])
      && unchanged(component) && stack' == stack && log' == log
      && |stack| > 0
      && InstallationChain(addBindings, init, stack)
      && repeated.value in stack
      && repeated.value in Children(addBindings, stack[|stack| - 1])
    // A new component: expanded.
    ensures var work := old(component.lazyComponents); var back := work[|work| - 1];
      back.Some? && back.value !in fullyExpanded && back.value !in inProgress ==>
        && component.lazyComponents == work[..|work| - 1] + [None] + Somes(Children(addBindings, back.value))
        && stack' == stack + [back.value] && inProgress' == inProgress + {back.value}
        && fullyExpanded' == fullyExpanded && log' == log + [back.value]
        && component.bindings == old(component.bindings) + addBindings(back.value).bindings
        && component.compressedBindings
           == old(component.compressedBindings) + addBindings(back.value).compressedBindings
        && component.multibindings == old(component.multibindings) + addBindings(back.value).multibindings
    ensures repeated.None? ==>
      Expanding(addBindings, init, component.lazyComponents, frames', stack', inProgress', fullyExpanded',
                log', done')
    ensures Stored(addBindings, bindings0, compressed0, multibindings0, component, log')
    // Every step that does not stop the loop uses up one slot of the work-list.
    ensures repeated.None? ==>
      |component.lazyComponents| + 1 + |log| + ChildCount(addBindings, log)
      == |old(component.lazyComponents)| + |log'| + ChildCount(addBindings, log')
  {
    var work := component.lazyComponents;
    var lazyComponent := work[|work| - 1];
    if lazyComponent.None? {
      fullyExpanded', stack', inProgress', frames', done' :=
        CompleteTop(component, addBindings, init, bindings0, compressed0, multibindings0,
                    fullyExpanded, stack, inProgress, frames, log, done);
      return None, fullyExpanded', stack', inProgress', frames', log, done';
    }

    var c := lazyComponent.value;
    if c in fullyExpanded {
      frames' := SkipBack(component, addBindings, init, bindings0, compressed0, multibindings0,
                          fullyExpanded, stack, inProgress, frames, log, done);
      return None, fullyExpanded, stack, inProgress, frames', log, done;
    }

    if c in inProgress {
      LoopFound(addBindings, init, work, frames, stack, inProgress, fullyExpanded, log, done);
      return Some(c), fullyExpanded, stack, inProgress, frames, log, done;
    }

    frames' := Expand(component, addBindings, init, bindings0, compressed0, multibindings0,
                      fullyExpanded, stack, inProgress, frames, log, done, c);
    ChildCountAppend(addBindings, log, c);
    return None, fullyExpanded, stack + [c], inProgress + {c}, frames', log + [c], done;
  }

  /** Lines 276-285: the back is a marker: it is popped, and the component
      on top of the stack moves from in progress to fully expanded. */
  method CompleteTop(
    component: ComponentStorage, addBindings: LazyComponent -> Contribution, ghost init: seq<LazyComponent>,
    ghost bindings0: seq<(TypeId, BindingData)>, ghost compressed0: seq<CompressedBinding>,
    ghost multibindings0: seq<(TypeId, MultibindingData)>,
    fullyExpanded: set<LazyComponent>, stack: seq<LazyComponent>, inProgress: set<LazyComponent>,
    ghost frames: seq<Frame>, ghost log: seq<LazyComponent>, ghost done: seq<LazyComponent>)
    returns (fullyExpanded': set<LazyComponent>, stack': seq<LazyComponent>,
             inProgress': set<LazyComponent>, ghost frames': seq<Frame>, ghost done': seq<LazyComponent>)
    requires Expanding(addBindings, init, component.lazyComponents, frames, stack, inProgress, fullyExpanded,
                       log, done)
    requires Stored(addBindings, bindings0, compressed0, multibindings0, component, log)
    requires |component.lazyComponents| != 0
    requires component.lazyComponents[|component.lazyComponents| - 1].None?
    modifies component
    ensures |stack| > 0
    ensures component.lazyComponents == old(component.lazyComponents)[..|old(component.lazyComponents)| - 1]
    ensures stack' == stack[..|stack| - 1]
    ensures inProgress' == inProgress - {stack[|stack| - 1]}
    ensures fullyExpanded' == fullyExpanded + {stack[|stack| - 1]}
    ensures unchanged(component`bindings, component`compressedBindings, component`multibindings)
    ensures Expanding(addBindings, init, component.lazyComponents, frames', stack', inProgress', fullyExpanded',
                      log, done')
    ensures Stored(addBindings, bindings0, compressed0, multibindings0, component, log)
  {
    var work := component.lazyComponents;
    PopMarker(addBindings, init, work, frames, stack, inProgress, fullyExpanded, log, done);
    component.lazyComponents := work[..|work| - 1];
    var top := stack[|stack| - 1];
    stack' := stack[..|stack| - 1];
    inProgress' := inProgress - {top};
    fullyExpanded' := fullyExpanded + {top};
    frames' := frames[..|frames| - 1];
    done' := done + [top];
  }

  /** Lines 288-292: the back is already fully expanded and is popped. */
  method SkipBack(
    component: ComponentStorage, addBindings: LazyComponent -> Contribution, ghost init: seq<LazyComponent>,
    ghost bindings0: seq<(TypeId, BindingData)>, ghost compressed0: seq<CompressedBinding>,
    ghost multibindings0: seq<(TypeId, MultibindingData)>,
    fullyExpanded: set<LazyComponent>, stack: seq<LazyComponent>, inProgress: set<LazyComponent>,
    ghost frames: seq<Frame>, ghost log: seq<LazyComponent>, ghost done: seq<LazyComponent>)
    returns (ghost frames': seq<Frame>)
    requires Expanding(addBindings, init, component.lazyComponents, frames, stack, inProgress, fullyExpanded,
                       log, done)
    requires Stored(addBindings, bindings0, compressed0, multibindings0, component, log)
    requires |component.lazyComponents| != 0
    requires var back := component.lazyComponents[|component.lazyComponents| - 1];
      back.Some? && back.value in fullyExpanded
    modifies component
    ensures component.lazyComponents == old(component.lazyComponents)[..|old(component.lazyComponents)| - 1]
    ensures unchanged(component`bindings, component`compressedBindings, component`multibindings)
    ensures Expanding(addBindings, init, component.lazyComponents, frames', stack, inProgress, fullyExpanded,
                      log, done)
    ensures Stored(addBindings, bindings0, compressed0, multibindings0, component, log)
  {
    var work := component.lazyComponents;
    SkipExpanded(addBindings, init, work, frames, stack, inProgress, fullyExpanded, log, done);
    component.lazyComponents := work[..|work| - 1];
    var top := frames[|frames| - 1];
    frames' := frames[..|frames| - 1] + [top.(rest := top.rest - 1)];
  }

  /** Lines 301-310: the slot of `c` becomes its marker, `c` goes on the
      stack and its `addBindings` runs, appending its contribution. */
  method Expand(
    component: ComponentStorage, addBindings: LazyComponent -> Contribution, ghost init: seq<LazyComponent>,
    ghost bindings0: seq<(TypeId, BindingData)>, ghost compressed0: seq<CompressedBinding>,
    ghost multibindings0: seq<(TypeId, MultibindingData)>,
    fullyExpanded: set<LazyComponent>, stack: seq<LazyComponent>, inProgress: set<LazyComponent>,
    ghost frames: seq<Frame>, ghost log: seq<LazyComponent>, ghost done: seq<LazyComponent>, c: LazyComponent)
    returns (ghost frames': seq<Frame>)
    requires Expanding(addBindings, init, component.lazyComponents, frames, stack, inProgress, fullyExpanded,
                       log, done)
    requires Stored(addBindings, bindings0, compressed0, multibindings0, component, log)
    requires |component.lazyComponents| != 0 && component.lazyComponents[|component.lazyComponents| - 1] == Some(c)
    requires c !in fullyExpanded && c !in inProgress
    modifies component
    ensures component.lazyComponents
         == old(component.lazyComponents)[..|old(component.lazyComponents)| - 1] + [None]
            + Somes(Children(addBindings, c))
    ensures component.bindings == old(component.bindings) + addBindings(c).bindings
    ensures component.compressedBindings == old(component.compressedBindings) + addBindings(c).compressedBindings
    ensures component.multibindings == old(component.multibindings) + addBindings(c).multibindings
    ensures Expanding(addBindings, init, component.lazyComponents, frames', stack + [c], inProgress + {c},
                      fullyExpanded, log + [c], done)
    ensures Stored(addBindings, bindings0, compressed0, multibindings0, component, log + [c])
  {
    var work := component.lazyComponents;
    ContributionsStep(addBindings, log, c, bindings0, compressed0, multibindings0,
                      component.bindings, component.compressedBindings, component.multibindings);
    component.lazyComponents := work[..|work| - 1] + [None];
    component.Add(addBindings(c));
    var top := frames[|frames| - 1];
    frames' := frames[..|frames| - 1] + [top.(rest := top.rest - 1)]
      + [Frame(Children(addBindings, c), |Children(addBindings, c)|)];
    ExpandNext(addBindings, init, work, frames, stack, inProgress, fullyExpanded, log, done,
               c, component.lazyComponents, frames');
  }

  /** Lines 252-312. `addBindings` stands for `LazyComponent::addBindings`,
      whose definition is not part of this model; `fuel` bounds the number
      of iterations, since the component graph may be infinite. `expanded`
      lists the components whose `addBindings` ran, in order. */
  method ExpandLazyComponents(
    component: ComponentStorage, toplevelComponentFunTypeId: TypeId,
    addBindings: LazyComponent -> Contribution, fuel: nat)
    returns (outcome: Outcome, ghost expanded: seq<LazyComponent>)
    requires forall i :: 0 <= i < |component.lazyComponents| ==> component.lazyComponents[i].Some?
    modifies component
    ensures Distinct(expanded)
    ensures Reached(addBindings, Components(old(component.lazyComponents)), expanded)
    ensures component.bindings == old(component.bindings) + BindingsOf(addBindings, expanded)
    ensures component.compressedBindings
         == old(component.compressedBindings) + CompressedBindingsOf(addBindings, expanded)
    ensures component.multibindings
         == old(component.multibindings) + MultibindingsOf(addBindings, expanded)
    ensures outcome.Expanded? ==>
      && component.lazyComponents == []
      && (forall c :: c in old(component.lazyComponents) ==> c.value in expanded)
      && ClosedUnderInstall(addBindings, set x | x in expanded)
      && (forall t :: InstallationChain(addBindings, expanded, t) ==> Distinct(t))
    ensures outcome.InstallationLoop? ==>
      && outcome.toplevel == toplevelComponentFunTypeId
      && |outcome.trace| > 0
      && Distinct(outcome.trace)
      && InstallationChain(addBindings, Components(old(component.lazyComponents)), outcome.trace)
      && outcome.repeated in outcome.trace
      && outcome.repeated in Children(addBindings, outcome.trace[|outcome.trace| - 1])
    ensures outcome.OutOfFuel? ==>
      && |component.lazyComponents| != 0
      && fuel < |old(component.lazyComponents)| + |expanded| + ChildCount(addBindings, expanded)
  {
    ghost var init := Components(component.lazyComponents);
    ghost var bindings0, compressed0, multibindings0 :=
      component.bindings, component.compressedBindings, component.multibindings;
    var fullyExpandedComponents: set<LazyComponent> := {};
    var componentsExpansionStack: seq<LazyComponent> := [];
    var componentsWithExpansionInProgress: set<LazyComponent> := {};
    ghost var frames := [Frame(init, |init|)];
    ghost var done := [];
    expanded := [];
    ExpandingAtStart(addBindings, init);
    var remaining := fuel;
    while |component.lazyComponents| != 0
      invariant Expanding(addBindings, init, component.lazyComponents, frames,
                          componentsExpansionStack, componentsWithExpansionInProgress,
                          fullyExpandedComponents, expanded, done)
      invariant Stored(addBindings, bindings0, compressed0, multibindings0, component, expanded)
      invariant (fuel - remaining) + |component.lazyComponents|
             == |init| + |expanded| + ChildCount(addBindings, expanded)
      decreases remaining
    {
      if remaining == 0 {
        return OutOfFuel, expanded;
      }
      remaining := remaining - 1;
      DistinctCardinality(componentsExpansionStack);
      assert |componentsExpansionStack| == |componentsWithExpansionInProgress|;
      var repeated;
      repeated, fullyExpandedComponents, componentsExpansionStack, componentsWithExpansionInProgress,
        frames, expanded, done := ExpandBack(component, addBindings, init, bindings0, compressed0, multibindings0,
                                             fullyExpandedComponents, componentsExpansionStack,
                                             componentsWithExpansionInProgress, frames, expanded, done);
      if repeated.Some? {
        return InstallationLoop(toplevelComponentFunTypeId, componentsExpansionStack, repeated.value), expanded;
      }
    }
    Finished(addBindings, init, frames, componentsExpansionStack,
             componentsWithExpansionInProgress, fullyExpandedComponents, expanded, done);
    outcome := Expanded;
  }
}
