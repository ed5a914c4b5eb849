/** The two numberings of a trace agree, and the flat one is the tree in preorder. */
module TraceTreeProofs {
  import opened JsString
  import opened Optional
  import opened TraceTree

  // ---- addresses in the tree ---------------------------------------------------------------------

  /** The step calls an algorithm by name. */
  predicate Invokes(s: Step) { s.kind == Call && s.algoId.Some? && s.algoId.value != "" }

  /** The step at an address relative to a frame: a step's own steps are those of the algorithm it calls. */
  function StepAt(steps: seq<Step>, rel: seq<nat>): Option<Step>
    decreases |rel|
  {
    if rel == [] || rel[0] >= |steps| then None
    else if |rel| == 1 then Some(steps[rel[0]])
    else if Invokes(steps[rel[0]]) && steps[rel[0]].hasSteps then StepAt(steps[rel[0]].steps, rel[1..])
    else None
  }

  /** The invocations around that step, outermost first. */
  function StackAt(steps: seq<Step>, stack: seq<Frame>, rel: seq<nat>): (r: seq<Frame>)
    requires StepAt(steps, rel).Some? && stack != []
    ensures r != []
    decreases |rel|
  {
    if |rel| == 1 then stack
    else StackAt(steps[rel[0]].steps, stack + [CalleeFrame(steps[rel[0]])], rel[1..])
  }

  /** Its place in preorder. */
  function PlaceOf(steps: seq<Step>, rel: seq<nat>): nat
    requires StepAt(steps, rel).Some?
    decreases |rel|
  {
    Size(steps, rel[0]) + if |rel| == 1 then 0 else 1 + PlaceOf(steps[rel[0]].steps, rel[1..])
  }

  // ---- the flat list is the tree -----------------------------------------------------------------

  /** The entry of a step among those of the first `n`. */
  lemma {:induction false} FlatPrefix(steps: seq<Step>, m: nat, n: nat, stack: seq<Frame>, address: seq<nat>, start: nat)
    requires m <= n <= |steps| && stack != []
    ensures Flat(steps, m, stack, address, start) <= Flat(steps, n, stack, address, start)
  {
    hide Dotted;
    if m < n { FlatPrefix(steps, m, n - 1, stack, address, start); }
  }

  lemma {:induction false} FlatAt(steps: seq<Step>, stack: seq<Frame>, address: seq<nat>, start: nat, rel: seq<nat>)
    requires StepAt(steps, rel).Some? && stack != []
    ensures var all, at, own := Flat(steps, |steps|, stack, address, start), PlaceOf(steps, rel), StackAt(steps, stack, rel);
            at < |all| && all[at] == FlatEntry(start + at, Dotted(address + rel), StepAt(steps, rel).value, own[|own| - 1].algoId, own)
    decreases |rel|
  {
    hide Dotted, Flat, Size;
    var i := rel[0];
    var s := steps[i];
    FlatPrefix(steps, i + 1, |steps|, stack, address, start);
    FlatNext(steps, i, stack, address, start);
    if |rel| == 1 {
      assert rel == [i];
    } else {
      FlatAt(s.steps, stack + [CalleeFrame(s)], address + [i], start + Size(steps, i) + 1, rel[1..]);
      assert (address + [i]) + rel[1..] == address + rel;
    }
  }

  /** Every place among the first `n` steps is some step's. */
  lemma {:induction false} Locate(steps: seq<Step>, n: nat, at: nat) returns (rel: seq<nat>)
    requires n <= |steps| && at < Size(steps, n)
    ensures StepAt(steps, rel).Some? && rel[0] < n && PlaceOf(steps, rel) == at
    decreases steps, n
  {
    var before := Size(steps, n - 1);
    if at < before {
      rel := Locate(steps, n - 1, at);
    } else if at == before {
      rel := [n - 1];
    } else {
      var s := steps[n - 1];
      var inner := Locate(s.steps, |s.steps|, at - before - 1);
      rel := [n - 1] + inner;
      assert rel[1..] == inner;
    }
  }

  /** The flat list holds every step of the trace, once, in preorder, under its own number, path and frame. */
  lemma FlatIsTheTree(root: Trace, rel: seq<nat>)
    requires StepAt(root.steps, rel).Some?
    ensures var flat, at, own := FlatTrace(root), PlaceOf(root.steps, rel), StackAt(root.steps, [RootFrame(root)], rel);
            at < |flat| && flat[at] == FlatEntry(at, Dotted(rel), StepAt(root.steps, rel).value, own[|own| - 1].algoId, own)
  {
    FlatAt(root.steps, [RootFrame(root)], [], 0, rel);
    assert [] + rel == rel;
  }

  lemma FlatEntryIsStep(root: Trace, at: nat) returns (rel: seq<nat>)
    requires at < |FlatTrace(root)|
    ensures StepAt(root.steps, rel).Some? && PlaceOf(root.steps, rel) == at
    ensures FlatTrace(root)[at].path == Dotted(rel) && FlatTrace(root)[at].index == at
  {
    rel := Locate(root.steps, |root.steps|, at);
    FlatIsTheTree(root, rel);
  }

  // ---- paths are addresses -----------------------------------------------------------------------

  predicate NoDot(s: string) { '.' !in s }

  lemma DecimalHasNoDot(n: nat)
    ensures NoDot(Decimal(n))
  {
    DecimalIsDigits(n);
  }

  /** The text after the last dot. */
  function AfterDot(s: string): string {
    if s == "" || s[|s| - 1] == '.' then "" else AfterDot(s[..|s| - 1]) + [s[|s| - 1]]
  }

  lemma {:induction false} AfterDotOf(prefix: string, d: string)
    requires NoDot(d)
    ensures AfterDot(prefix + "." + d) == d && AfterDot(d) == d
  {
    var s := prefix + "." + d;
    if d != "" {
      AfterDotOf(prefix, d[..|d| - 1]);
      assert s[..|s| - 1] == prefix + "." + d[..|d| - 1];
    }
  }

  lemma LastPart(a: seq<nat>, frame: string, m: nat)
    requires a != [] && Dotted(a) == Extend(frame, m)
    ensures Dotted(a[..|a| - 1]) == frame && a[|a| - 1] == m
  {
    hide Decimal, AfterDot;
    var p, n := Dotted(a[..|a| - 1]), a[|a| - 1];
    DecimalHasNoDot(m);
    DecimalHasNoDot(n);
    AfterDotOf(p, Decimal(n));
    AfterDotOf(frame, Decimal(m));
    DecimalInjective(m, n);
    SamePrefix(p, frame, Decimal(m));
  }

  /** Distinct addresses are written differently. */
  lemma {:induction false} DottedInjective(a: seq<nat>, b: seq<nat>)
    requires Dotted(a) == Dotted(b)
    ensures a == b
  {
    hide Extend;
    if a != [] {
      var a', b' := a[..|a| - 1], b[..|b| - 1];
      LastPart(a, Dotted(b'), b[|b| - 1]);
      DottedInjective(a', b');
      assert a == a' + [a[|a| - 1]] && b == b' + [b[|b| - 1]];
    }
  }

  lemma SamePrefix(p: string, q: string, d: string)
    requires (if p != "" then p + "." + d else d) == (if q != "" then q + "." + d else d)
    ensures p == q
  {
    if p != "" && q != "" {
      assert p == (p + "." + d)[..|p|] && q == (q + "." + d)[..|q|];
    }
  }

  /** Flat paths are pairwise distinct. */
  lemma PathsAreDistinct(root: Trace, j: nat, k: nat)
    requires j < |FlatTrace(root)| && k < |FlatTrace(root)| && FlatTrace(root)[j].path == FlatTrace(root)[k].path
    ensures j == k
  {
    hide Dotted, FlatTrace;
    var a := FlatEntryIsStep(root, j);
    var b := FlatEntryIsStep(root, k);
    DottedInjective(a, b);
  }

  /** Steps that share all but the last part of their path belong to one invocation. */
  lemma SamePrefixSameInvocation(root: Trace, j: nat, k: nat, frame: string, m: nat, n: nat)
    requires j < |FlatTrace(root)| && k < |FlatTrace(root)|
    requires FlatTrace(root)[j].path == Extend(frame, m) && FlatTrace(root)[k].path == Extend(frame, n)
    ensures FlatTrace(root)[j].callStack == FlatTrace(root)[k].callStack && FlatTrace(root)[j].algoId == FlatTrace(root)[k].algoId
  {
    hide FlatTrace;
    var a := FlatEntryIsStep(root, j);
    var b := FlatEntryIsStep(root, k);
    FlatIsTheTree(root, a);
    FlatIsTheTree(root, b);
    LastPart(a, frame, m);
    LastPart(b, frame, n);
    DottedInjective(a[..|a| - 1], b[..|b| - 1]);
    StackIgnoresLast(root.steps, [RootFrame(root)], a, b);
  }

  lemma {:induction false} StackIgnoresLast(steps: seq<Step>, stack: seq<Frame>, a: seq<nat>, b: seq<nat>)
    requires StepAt(steps, a).Some? && StepAt(steps, b).Some? && stack != [] && |a| == |b| && a[..|a| - 1] == b[..|b| - 1]
    ensures StackAt(steps, stack, a) == StackAt(steps, stack, b)
    decreases |a|
  {
    if |a| > 1 {
      assert a[0] == a[..|a| - 1][0] == b[..|b| - 1][0] == b[0];
      assert a[1..][..|a| - 2] == a[..|a| - 1][1..] && b[1..][..|b| - 2] == b[..|b| - 1][1..];
      StackIgnoresLast(steps[a[0]].steps, stack + [CalleeFrame(steps[a[0]])], a[1..], b[1..]);
    }
  }

  // ---- the decision tree uses the same numbers -----------------------------------------------------

  /** Entry `k` of the flat list is a step of the node's own invocation. */
  ghost predicate Owned(all: seq<FlatEntry>, node: DecisionNode, k: nat) {
    && k < |all| && all[k].index == k && all[k].algoId == node.op && |all[k].callStack| == node.depth + 1
    && exists i: nat :: all[k].path == Extend(node.path, i)
  }

  /** Every number a node records is the flat number of that very step. */
  ghost predicate OwnNumbers(all: seq<FlatEntry>, node: DecisionNode) {
    && (forall t :: 0 <= t < |node.tests| ==>
          && Owned(all, node, node.tests[t].index)
          && all[node.tests[t].index].step.kind == If && all[node.tests[t].index].step.taken == node.tests[t].taken)
    && (node.actionIndex.Some? <==> node.action.Some?)
    && (node.actionIndex.Some? ==>
          && Owned(all, node, node.actionIndex.value)
          && var s := all[node.actionIndex.value].step;
             s.kind != If && !Invokes(s) && node.action == Some(ActionText(s)))
  }

  /** A node's own number is the flat number of the call that made it. */
  ghost predicate HeaderNumber(all: seq<FlatEntry>, node: DecisionNode) {
    && node.index < |all| && all[node.index].path == node.path && |all[node.index].callStack| == node.depth
    && Invokes(all[node.index].step) && all[node.index].step.algoId == Some(node.op)
  }

  ghost predicate Embedded(all: seq<FlatEntry>, part: seq<FlatEntry>, at: nat) {
    at + |part| <= |all| && forall k :: 0 <= k < |part| ==> all[at + k] == part[k]
  }

  /** The flat number of a frame's `i`-th step. */
  lemma OwnStep(all: seq<FlatEntry>, steps: seq<Step>, i: nat, stack: seq<Frame>, address: seq<nat>, start: nat)
    requires i < |steps| && stack != [] && Embedded(all, Flat(steps, |steps|, stack, address, start), start)
    ensures var k := start + Size(steps, i);
            k < |all| && all[k] == FlatEntry(k, Extend(Dotted(address), i), steps[i], stack[|stack| - 1].algoId, stack)
  {
    hide Flat, Size, Dotted, Extend, StepAt, PlaceOf, StackAt;
    OneStep(steps, i, stack);
    FlatAt(steps, stack, address, start, [i]);
    DottedNext(address, i);
  }

  lemma OneStep(steps: seq<Step>, i: nat, stack: seq<Frame>)
    requires i < |steps| && stack != []
    ensures StepAt(steps, [i]) == Some(steps[i]) && PlaceOf(steps, [i]) == Size(steps, i) && StackAt(steps, stack, [i]) == stack
  {
  }

  lemma InnerEmbedded(all: seq<FlatEntry>, steps: seq<Step>, i: nat, stack: seq<Frame>, address: seq<nat>, start: nat)
    requires i < |steps| && stack != [] && Embedded(all, Flat(steps, |steps|, stack, address, start), start) && IsCall(steps[i])
    ensures var s, at := steps[i], start + Size(steps, i) + 1;
            Embedded(all, Flat(Inner(s), |Inner(s)|, stack + [CalleeFrame(s)], address + [i], at), at)
  {
    hide Dotted, Flat, Size;
    FlatPrefix(steps, i + 1, |steps|, stack, address, start);
    FlatNext(steps, i, stack, address, start);
    var s, at := steps[i], start + Size(steps, i) + 1;
    var whole, upto := Flat(steps, |steps|, stack, address, start), Flat(steps, i + 1, stack, address, start);
    if Descends(s) {
      var part := Flat(s.steps, |s.steps|, stack + [CalleeFrame(s)], address + [i], at);
      forall k | 0 <= k < |part| ensures all[at + k] == part[k] {
        assert upto[Size(steps, i) + 1 + k] == part[k];
        assert whole[Size(steps, i) + 1 + k] == part[k];
      }
    } else {
      OwnStep(all, steps, i, stack, address, start);
      NothingYet(Inner(s), stack + [CalleeFrame(s)], address + [i], at, NewNode("", [], None, 0, [], 0));
    }
  }

  lemma {:induction false} NodeNumbers(all: seq<FlatEntry>, blank: DecisionNode, steps: seq<Step>, n: nat,
                                       stack: seq<Frame>, address: seq<nat>, start: nat)
    requires n <= |steps| && stack != [] && Embedded(all, Flat(steps, |steps|, stack, address, start), start)
    requires blank.tests == [] && blank.action == None && blank.actionIndex == None
    requires blank.path == Dotted(address) && blank.op == stack[|stack| - 1].algoId && blank.depth + 1 == |stack|
    ensures var node := NodeAfter(blank, steps, n, start);
            OwnNumbers(all, node) && node == blank.(tests := node.tests, action := node.action, actionIndex := node.actionIndex)
  {
    hide Embedded, Flat, Dotted, Extend, Size;
    if n > 0 {
      NodeNumbers(all, blank, steps, n - 1, stack, address, start);
      OwnStep(all, steps, n - 1, stack, address, start);
    }
  }

  lemma {:induction false} CalleesNumbers(all: seq<FlatEntry>, steps: seq<Step>, n: nat, stack: seq<Frame>, address: seq<nat>, start: nat)
    requires n <= |steps| && stack != [] && Embedded(all, Flat(steps, |steps|, stack, address, start), start)
    ensures forall node | node in Callees(steps, n, |stack| - 1, address, start) :: OwnNumbers(all, node) && HeaderNumber(all, node)
    decreases steps, n
  {
    hide Embedded, Flat, Dotted, Extend, Size, OwnNumbers, NodeAfter;
    if n > 0 {
      var s, at := steps[n - 1], start + Size(steps, n - 1);
      CalleesNumbers(all, steps, n - 1, stack, address, start);
      if IsCall(s) {
        OwnStep(all, steps, n - 1, stack, address, start);
        InnerEmbedded(all, steps, n - 1, stack, address, start);
        DottedNext(address, n - 1);
        var blank := NewNode(s.algoId.value, s.inputs, s.output, |stack|, address + [n - 1], at);
        NodeNumbers(all, blank, Inner(s), |Inner(s)|, stack + [CalleeFrame(s)], address + [n - 1], at + 1);
        if Descends(s) { CalleesNumbers(all, s.steps, |s.steps|, stack + [CalleeFrame(s)], address + [n - 1], at + 1); }
      }
    }
  }

  /** Both traversals number alike: each test, each action and each non-root node of the decision tree
      carries the flat number of that same step, with its path and its owning frame. */
  lemma NumberingsAgree(root: Trace, node: DecisionNode)
    requires node in DecisionTree(root)
    ensures OwnNumbers(FlatTrace(root), node)
    ensures node != DecisionTree(root)[0] ==> HeaderNumber(FlatTrace(root), node)
    ensures DecisionTree(root)[0].path == "" && DecisionTree(root)[0].op == root.algoId
  {
    hide Flat, Callees, NodeAfter, OwnNumbers, HeaderNumber, Dotted;
    var all, stack := FlatTrace(root), [RootFrame(root)];
    var blank := NewNode(root.algoId, root.inputs, root.output, 0, [], 0);
    NodeNumbers(all, blank, root.steps, |root.steps|, stack, [], 0);
    CalleesNumbers(all, root.steps, |root.steps|, stack, [], 0);
  }

  // ---- and misses none -----------------------------------------------------------------------------

  ghost predicate TestedIn(nodes: seq<DecisionNode>, k: nat) {
    exists i, t :: 0 <= i < |nodes| && 0 <= t < |nodes[i].tests| && nodes[i].tests[t].index == k
  }

  ghost predicate HeadedIn(nodes: seq<DecisionNode>, k: nat) {
    exists i :: 0 <= i < |nodes| && nodes[i].index == k
  }

  lemma {:induction false} TestsKept(blank: DecisionNode, steps: seq<Step>, m: nat, n: nat, start: nat)
    requires m <= n <= |steps|
    ensures NodeAfter(blank, steps, m, start).tests <= NodeAfter(blank, steps, n, start).tests
  {
    if m < n { TestsKept(blank, steps, m, n - 1, start); }
  }

  lemma {:induction false} CalleesKept(steps: seq<Step>, m: nat, n: nat, depth: nat, address: seq<nat>, start: nat)
    requires m <= n <= |steps|
    ensures Callees(steps, m, depth, address, start) <= Callees(steps, n, depth, address, start)
  {
    hide NodeAfter, Dotted;
    if m < n { CalleesKept(steps, m, n - 1, depth, address, start); }
  }

  lemma OwnStepRecorded(blank: DecisionNode, steps: seq<Step>, i: nat, depth: nat, address: seq<nat>, start: nat)
    requires i < |steps|
    ensures var k, nodes := start + Size(steps, i), Invocation(blank, steps, depth, address, start);
            && (steps[i].kind == If ==> TestedIn(nodes, k))
            && (IsCall(steps[i]) ==> HeadedIn(nodes, k))
  {
    hide NodeAfter, Dotted, Callees, Size;
    var s, at := steps[i], start + Size(steps, i);
    var nodes := Invocation(blank, steps, depth, address, start);
    if s.kind == If {
      NodeNext(blank, steps, i, start);
      TestsKept(blank, steps, i + 1, |steps|, start);
      var t := |NodeAfter(blank, steps, i, start).tests|;
      assert NodeAfter(blank, steps, i + 1, start).tests[t] == Test(s.taken, at);
      assert nodes[0].tests[t].index == at;
    } else if IsCall(s) {
      CalleesNext(steps, i, depth, address, start);
      CalleesKept(steps, i + 1, |steps|, depth, address, start);
      var before := Callees(steps, i, depth, address, start);
      HeadKept(NewNode(s.algoId.value, s.inputs, s.output, depth + 1, address + [i], at), Inner(s), |Inner(s)|, at + 1);
      assert Callees(steps, i + 1, depth, address, start)[|before|].index == at;
      assert nodes[1 + |before|].index == at;
    }
  }

  /** The nodes of an invocation a step makes are among those of its caller. */
  lemma CalleeWithin(blank: DecisionNode, steps: seq<Step>, i: nat, depth: nat, address: seq<nat>, start: nat)
    requires i < |steps| && Descends(steps[i])
    ensures var s, at, skip := steps[i], start + Size(steps, i), 1 + |Callees(steps, i, depth, address, start)|;
            var sub := Invocation(NewNode(s.algoId.value, s.inputs, s.output, depth + 1, address + [i], at), s.steps, depth + 1, address + [i], at + 1);
            var nodes := Invocation(blank, steps, depth, address, start);
            skip + |sub| <= |nodes| && forall j :: 0 <= j < |sub| ==> nodes[skip + j] == sub[j]
  {
    hide NodeAfter, Dotted, Callees, Size;
    CalleesNext(steps, i, depth, address, start);
    CalleesKept(steps, i + 1, |steps|, depth, address, start);
    var s, at := steps[i], start + Size(steps, i);
    var sub := Invocation(NewNode(s.algoId.value, s.inputs, s.output, depth + 1, address + [i], at), s.steps, depth + 1, address + [i], at + 1);
    var before, upto := Callees(steps, i, depth, address, start), Callees(steps, i + 1, depth, address, start);
    assert upto == before + sub;
  }

  /** Every condition step is a test of the invocation it belongs to, and every call heads a node. */
  lemma {:induction false} StepsAreRecorded(blank: DecisionNode, steps: seq<Step>, depth: nat, address: seq<nat>, start: nat, rel: seq<nat>)
    requires StepAt(steps, rel).Some?
    ensures var k, nodes := start + PlaceOf(steps, rel), Invocation(blank, steps, depth, address, start);
            && (StepAt(steps, rel).value.kind == If ==> TestedIn(nodes, k))
            && (IsCall(StepAt(steps, rel).value) ==> HeadedIn(nodes, k))
    decreases |rel|
  {
    hide NodeAfter, Dotted, Callees, Size, TestedIn, HeadedIn, Invocation;
    var i := rel[0];
    if |rel| == 1 {
      OwnStepRecorded(blank, steps, i, depth, address, start);
    } else {
      var s, at := steps[i], start + Size(steps, i);
      var inner := NewNode(s.algoId.value, s.inputs, s.output, depth + 1, address + [i], at);
      StepsAreRecorded(inner, s.steps, depth + 1, address + [i], at + 1, rel[1..]);
      CalleeWithin(blank, steps, i, depth, address, start);
      Shift(Invocation(blank, steps, depth, address, start),
            Invocation(inner, s.steps, depth + 1, address + [i], at + 1),
            1 + |Callees(steps, i, depth, address, start)|, at + 1 + PlaceOf(s.steps, rel[1..]));
    }
  }

  lemma Shift(nodes: seq<DecisionNode>, sub: seq<DecisionNode>, at: nat, k: nat)
    requires at + |sub| <= |nodes| && forall i :: 0 <= i < |sub| ==> nodes[at + i] == sub[i]
    ensures TestedIn(sub, k) ==> TestedIn(nodes, k)
    ensures HeadedIn(sub, k) ==> HeadedIn(nodes, k)
  {
    if TestedIn(sub, k) {
      var i, t :| 0 <= i < |sub| && 0 <= t < |sub[i].tests| && sub[i].tests[t].index == k;
      assert nodes[at + i].tests[t].index == k;
    }
    if HeadedIn(sub, k) {
      var i :| 0 <= i < |sub| && sub[i].index == k;
      assert nodes[at + i].index == k;
    }
  }

  /** Every flat entry that is a condition is a test in the decision tree, and every one that is a call is
      a node, under the same number. */
  lemma DecisionTreeMissesNothing(root: Trace, k: nat)
    requires k < |FlatTrace(root)|
    ensures FlatTrace(root)[k].step.kind == If ==> TestedIn(DecisionTree(root), k)
    ensures Invokes(FlatTrace(root)[k].step) ==> HeadedIn(DecisionTree(root), k)
  {
    hide Flat, Callees, NodeAfter, TestedIn, HeadedIn, Dotted;
    var rel := FlatEntryIsStep(root, k);
    FlatIsTheTree(root, rel);
    StepsAreRecorded(NewNode(root.algoId, root.inputs, root.output, 0, [], 0), root.steps, 0, [], 0, rel);
  }

  // ---- each node is its frame ------------------------------------------------------------------------

  /** The address of an invocation: the root's, or that of the call that makes it. */
  predicate IsFrame(root: Trace, a: seq<nat>) {
    a == [] || (StepAt(root.steps, a).Some? && Invokes(StepAt(root.steps, a).value))
  }

  /** The steps of the invocation at an address. */
  function FrameSteps(root: Trace, a: seq<nat>): seq<Step>
    requires IsFrame(root, a)
  {
    if a == [] then root.steps else Inner(StepAt(root.steps, a).value)
  }

  predicate Ends(s: Step) { s.kind == Return || s.kind == Throw }

  /** A step that is no condition, ends nothing and calls nothing. */
  predicate Acts(s: Step) { s.kind != If && !Ends(s) && !Invokes(s) }

  /** Step `w` is what a frame of these steps did.  The last return or throw overrides what came before it; while
      what stands has no text the next other step replaces it. */
  ghost predicate IsAction(steps: seq<Step>, w: nat) {
    && w < |steps| && (Ends(steps[w]) || Acts(steps[w]))
    && (forall j :: w < j < |steps| ==> !Ends(steps[j]))
    && (forall j :: w < j < |steps| && Acts(steps[j]) ==> ActionText(steps[w]) != "")
    && (Acts(steps[w]) ==> forall j :: 0 <= j < w && Supersedes(steps, j, w) ==> ActionText(steps[j]) == "")
  }

  /** Nothing between `j` and `w` returns or throws, and `j` did something. */
  predicate Supersedes(steps: seq<Step>, j: nat, w: nat)
    requires j < w <= |steps|
  {
    (Ends(steps[j]) || Acts(steps[j])) && forall i :: j < i < w ==> !Ends(steps[i])
  }

  /** The frame did nothing but test and call. */
  predicate NoAction(steps: seq<Step>) { forall j :: 0 <= j < |steps| ==> !Ends(steps[j]) && !Acts(steps[j]) }

  /** `w` is the action of these steps, or there is none. */
  ghost predicate Winner(steps: seq<Step>, w: Option<nat>) {
    if w.None? then NoAction(steps) else IsAction(steps, w.value)
  }

  lemma EndingWins(before: seq<Step>, s: Step)
    requires Ends(s)
    ensures Winner(before + [s], Some(|before|))
  {
    hide ActionText;
  }

  lemma ActingWins(before: seq<Step>, w: Option<nat>, s: Step)
    requires Acts(s) && Winner(before, w) && (w.Some? ==> ActionText(before[w.value]) == "")
    ensures Winner(before + [s], Some(|before|))
  {
    hide ActionText;
    var steps, n := before + [s], |before|;
    forall j | 0 <= j < n && Supersedes(steps, j, n) ensures ActionText(steps[j]) == "" {
      assert steps[j] == before[j];
      forall i | j < i < n ensures !Ends(before[i]) { assert steps[i] == before[i]; }
      StandingIsEmpty(before, w, j);
    }
  }

  lemma StandingWins(before: seq<Step>, w: Option<nat>, s: Step)
    requires Winner(before, w) && !Ends(s) && (Acts(s) ==> w.Some? && ActionText(before[w.value]) != "")
    ensures Winner(before + [s], w)
  {
    hide ActionText;
    var steps := before + [s];
    assert forall j :: 0 <= j < |before| ==> steps[j] == before[j];
    if w.Some? {
      forall j | 0 <= j < w.value && Supersedes(steps, j, w.value) ensures Supersedes(before, j, w.value) {
        forall i | j < i < w.value ensures !Ends(before[i]) { assert steps[i] == before[i]; }
      }
    }
  }

  lemma {:induction false} ActionAfter(blank: DecisionNode, steps: seq<Step>, n: nat, start: nat) returns (w: Option<nat>)
    requires n <= |steps| && blank.action == None && blank.actionIndex == None
    ensures Winner(steps[..n], w) && (w.Some? ==> w.value < n)
    ensures var node := NodeAfter(blank, steps, n, start);
            && node.action == (if w.None? then None else Some(ActionText(steps[w.value])))
            && node.actionIndex == (if w.None? then None else Some(start + Size(steps, w.value)))
  {
    hide ActionText, Size, NodeAfter, Winner, Dotted;
    if n == 0 {
      w := None;
      NobodyWins(steps[..0]);
      NothingYet(steps, [Frame("", None)], [], start, blank);
    } else {
      var s, before := steps[n - 1], steps[..n - 1];
      w := ActionAfter(blank, steps, n - 1, start);
      assert steps[..n] == before + [s];
      NodeNext(blank, steps, n - 1, start);
      if Ends(s) {
        EndingWins(before, s);
        w := Some(n - 1);
      } else if Acts(s) && (w.None? || ActionText(steps[w.value]) == "") {
        assert w.Some? ==> before[w.value] == steps[w.value];
        ActingWins(before, w, s);
        w := Some(n - 1);
      } else {
        assert w.Some? ==> before[w.value] == steps[w.value];
        StandingWins(before, w, s);
      }
    }
  }

  lemma NobodyWins(steps: seq<Step>)
    requires steps == []
    ensures Winner(steps, None)
  {
  }

  /** When what stands has no text, nothing since the last return or throw has. */
  lemma StandingIsEmpty(steps: seq<Step>, w: Option<nat>, j: nat)
    requires j < |steps| && Supersedes(steps, j, |steps|)
    requires Winner(steps, w) && (w.Some? ==> ActionText(steps[w.value]) == "")
    ensures ActionText(steps[j]) == ""
  {
    hide ActionText;
    if w.Some? && j < w.value {
      assert !Ends(steps[w.value]);
      assert Supersedes(steps, j, w.value);
    }
  }

  /** The tests of a node are its frame's conditions, in order. */
  ghost predicate TestsOf(steps: seq<Step>, n: nat, start: nat, tests: seq<Test>)
    requires n <= |steps|
  {
    && (forall t :: 0 <= t < |tests| ==> IsTest(steps, n, start, tests[t]))
    && (forall t, u :: 0 <= t < u < |tests| ==> tests[t].index < tests[u].index)
    && (forall i :: 0 <= i < n && steps[i].kind == If ==> Test(steps[i].taken, start + Size(steps, i)) in tests)
  }

  ghost predicate IsTest(steps: seq<Step>, n: nat, start: nat, test: Test)
    requires n <= |steps|
  {
    exists i :: 0 <= i < n && steps[i].kind == If && test == Test(steps[i].taken, start + Size(steps, i))
  }

  lemma {:induction false} TestsAfter(blank: DecisionNode, steps: seq<Step>, n: nat, start: nat)
    requires n <= |steps| && blank.tests == []
    ensures TestsOf(steps, n, start, NodeAfter(blank, steps, n, start).tests)
  {
    hide Size, NodeAfter, ActionText, Dotted, TestsOf;
    if n == 0 {
      NothingYet(steps, [Frame("", None)], [], start, blank);
      NoTests(steps, start);
    } else {
      TestsAfter(blank, steps, n - 1, start);
      NodeNext(blank, steps, n - 1, start);
      OneMoreTest(steps, n - 1, start, NodeAfter(blank, steps, n - 1, start).tests);
    }
  }

  lemma NoTests(steps: seq<Step>, start: nat)
    ensures TestsOf(steps, 0, start, [])
  {
  }

  lemma OneMoreTest(steps: seq<Step>, n: nat, start: nat, tests: seq<Test>)
    requires n < |steps| && TestsOf(steps, n, start, tests)
    ensures TestsOf(steps, n + 1, start, if steps[n].kind == If then tests + [Test(steps[n].taken, start + Size(steps, n))] else tests)
  {
    hide Size, IsTest;
    forall t | 0 <= t < |tests| ensures IsTest(steps, n + 1, start, tests[t]) && tests[t].index < start + Size(steps, n) {
      EarlierTest(steps, n, start, tests[t]);
    }
    var last := Test(steps[n].taken, start + Size(steps, n));
    if steps[n].kind == If {
      LastTest(steps, n, start);
      var more := tests + [last];
      assert more[|tests|] == last && forall x :: x in tests ==> x in more;
    }
  }

  lemma EarlierTest(steps: seq<Step>, n: nat, start: nat, test: Test)
    requires n < |steps| && IsTest(steps, n, start, test)
    ensures IsTest(steps, n + 1, start, test) && test.index < start + Size(steps, n)
  {
    hide Size;
    var i :| 0 <= i < n && steps[i].kind == If && test == Test(steps[i].taken, start + Size(steps, i));
    StrictSize(steps, i, n);
  }

  lemma LastTest(steps: seq<Step>, n: nat, start: nat)
    requires n < |steps| && steps[n].kind == If
    ensures IsTest(steps, n + 1, start, Test(steps[n].taken, start + Size(steps, n)))
  {
    hide Size;
  }

  lemma StrictSize(steps: seq<Step>, i: nat, n: nat)
    requires i < n <= |steps|
    ensures Size(steps, i) < Size(steps, n)
  {
    SizeGrows(steps, i + 1, n);
  }

  /** The flat number of a frame's first step. */
  function FrameStart(root: Trace, a: seq<nat>): nat
    requires IsFrame(root, a)
  {
    if a == [] then 0 else PlaceOf(root.steps, a) + 1
  }

  /** A node among what a frame's steps call is the node of one such call, filled in from that call's own steps. */
  lemma {:induction false} CalleeNode(steps: seq<Step>, n: nat, depth: nat, address: seq<nat>, start: nat, node: DecisionNode)
    returns (rel: seq<nat>)
    requires n <= |steps| && node in Callees(steps, n, depth, address, start)
    ensures StepAt(steps, rel).Some? && IsCall(StepAt(steps, rel).value)
    ensures var s, at := StepAt(steps, rel).value, start + PlaceOf(steps, rel);
            node == NodeAfter(NewNode(s.algoId.value, s.inputs, s.output, depth + |rel|, address + rel, at), Inner(s), |Inner(s)|, at + 1)
    decreases steps, n
  {
    hide NodeAfter, Dotted, Size, StepAt, PlaceOf;
    var i, s, at := n - 1, steps[n - 1], start + Size(steps, n - 1);
    OneStep(steps, i, [Frame("", None)]);
    if node in Callees(steps, i, depth, address, start) {
      rel := CalleeNode(steps, i, depth, address, start, node);
    } else if node == NodeAfter(NewNode(s.algoId.value, s.inputs, s.output, depth + 1, address + [i], at), Inner(s), |Inner(s)|, at + 1) {
      rel := [i];
    } else {
      var inner := CalleeNode(s.steps, |s.steps|, depth + 1, address + [i], at + 1, node);
      rel := [i] + inner;
      Deeper(steps, i, inner);
      assert (address + [i]) + inner == address + rel;
    }
  }

  lemma Deeper(steps: seq<Step>, i: nat, inner: seq<nat>)
    requires i < |steps| && Descends(steps[i]) && StepAt(steps[i].steps, inner).Some?
    ensures StepAt(steps, [i] + inner) == StepAt(steps[i].steps, inner)
    ensures PlaceOf(steps, [i] + inner) == Size(steps, i) + 1 + PlaceOf(steps[i].steps, inner)
  {
    hide Size;
    assert ([i] + inner)[1..] == inner && inner != [];
  }

  /** A frame's steps are numbered on from its own. */
  lemma {:induction false} PlaceInFrame(steps: seq<Step>, a: seq<nat>, i: nat)
    requires StepAt(steps, a).Some? && IsCall(StepAt(steps, a).value) && i < |Inner(StepAt(steps, a).value)|
    ensures StepAt(steps, a + [i]) == Some(Inner(StepAt(steps, a).value)[i])
    ensures PlaceOf(steps, a + [i]) == PlaceOf(steps, a) + 1 + Size(Inner(StepAt(steps, a).value), i)
    decreases |a|
  {
    hide Size;
    assert (a + [i])[1..] == a[1..] + [i];
    if |a| == 1 {
      assert (a + [i])[1..] == [i];
      OneStep(steps[a[0]].steps, i, [Frame("", None)]);
    } else {
      PlaceInFrame(steps[a[0]].steps, a[1..], i);
    }
  }

  lemma StepInFrame(root: Trace, a: seq<nat>, i: nat)
    requires IsFrame(root, a) && i < |FrameSteps(root, a)|
    ensures StepAt(root.steps, a + [i]) == Some(FrameSteps(root, a)[i])
    ensures PlaceOf(root.steps, a + [i]) == FrameStart(root, a) + Size(FrameSteps(root, a), i)
  {
    hide Size;
    if a == [] {
      assert a + [i] == [i];
      OneStep(root.steps, i, [RootFrame(root)]);
    } else {
      PlaceInFrame(root.steps, a, i);
    }
  }

  /** A node carries what its call says. */
  ghost predicate Heads(root: Trace, a: seq<nat>, node: DecisionNode)
    requires IsFrame(root, a)
  {
    && node.path == Dotted(a) && node.depth == |a|
    && if a == [] then node.index == 0 && node.op == root.algoId && node.args == root.inputs && node.result == root.output
       else var s := StepAt(root.steps, a).value;
            node.index == PlaceOf(root.steps, a) && node.op == s.algoId.value && node.args == s.inputs && node.result == s.output
  }

  /** Every node of the decision tree is one invocation: it heads its call, its tests are that call's conditions in
      order, and its action is the step `w` that the frame's own steps decide, under that step's flat number. */
  lemma NodeIsItsFrame(root: Trace, node: DecisionNode) returns (a: seq<nat>, w: Option<nat>)
    requires node in DecisionTree(root)
    ensures IsFrame(root, a) && Heads(root, a, node)
    ensures Winner(FrameSteps(root, a), w)
    ensures w.Some? ==> w.value < |FrameSteps(root, a)| && StepAt(root.steps, a + [w.value]) == Some(FrameSteps(root, a)[w.value])
    ensures node.action == if w.None? then None else Some(ActionText(FrameSteps(root, a)[w.value]))
    ensures node.actionIndex == if w.None? then None else Some(PlaceOf(root.steps, a + [w.value]))
    ensures TestsOf(FrameSteps(root, a), |FrameSteps(root, a)|, FrameStart(root, a), node.tests)
  {
    hide Callees, NodeAfter, Dotted, Size, Winner, ActionText, TestsOf, StepAt, PlaceOf;
    var blank := NewNode(root.algoId, root.inputs, root.output, 0, [], 0);
    a := [];
    if node in Callees(root.steps, |root.steps|, 0, [], 0) {
      a := CalleeNode(root.steps, |root.steps|, 0, [], 0, node);
      NotRoot(root.steps, a);
      assert [] + a == a;
      var s := StepAt(root.steps, a).value;
      blank := NewNode(s.algoId.value, s.inputs, s.output, |a|, a, PlaceOf(root.steps, a));
    }
    var steps, start := FrameSteps(root, a), FrameStart(root, a);
    assert node == NodeAfter(blank, steps, |steps|, start);
    w := ActionAfter(blank, steps, |steps|, start);
    assert steps[..|steps|] == steps;
    TestsAfter(blank, steps, |steps|, start);
    HeadKept(blank, steps, |steps|, start);
    if w.Some? { StepInFrame(root, a, w.value); }
  }

  lemma NotRoot(steps: seq<Step>, rel: seq<nat>)
    requires StepAt(steps, rel).Some?
    ensures rel != []
  {
  }

  lemma {:induction false} HeadKept(blank: DecisionNode, steps: seq<Step>, n: nat, start: nat)
    requires n <= |steps|
    ensures var node := NodeAfter(blank, steps, n, start);
            node == blank.(tests := node.tests, action := node.action, actionIndex := node.actionIndex)
  {
    hide Size, ActionText;
    if n > 0 { HeadKept(blank, steps, n - 1, start); }
  }

  /** Below the root the nodes come in the order of the flat list, each number once. */
  lemma NodesInOrder(root: Trace, i: nat, j: nat)
    requires 1 <= i < j < |DecisionTree(root)|
    ensures DecisionTree(root)[i].index < DecisionTree(root)[j].index
  {
    hide Callees, NodeAfter, Dotted, Size;
    CalleesInOrder(root.steps, |root.steps|, 0, [], 0);
  }

  ghost predicate Ascends(nodes: seq<DecisionNode>, from: nat, to: nat) {
    && (forall i :: 0 <= i < |nodes| ==> from <= nodes[i].index < to)
    && (forall i, j :: 0 <= i < j < |nodes| ==> nodes[i].index < nodes[j].index)
  }

  lemma {:induction false} CalleesInOrder(steps: seq<Step>, n: nat, depth: nat, address: seq<nat>, start: nat)
    requires n <= |steps|
    ensures Ascends(Callees(steps, n, depth, address, start), start, start + Size(steps, n))
    decreases steps, n
  {
    hide NodeAfter, Dotted, Size;
    if n > 0 {
      var i, s, at := n - 1, steps[n - 1], start + Size(steps, n - 1);
      CalleesInOrder(steps, i, depth, address, start);
      CalleesNext(steps, i, depth, address, start);
      if IsCall(s) {
        var blank := NewNode(s.algoId.value, s.inputs, s.output, depth + 1, address + [i], at);
        HeadKept(blank, Inner(s), |Inner(s)|, at + 1);
        if Descends(s) { CalleesInOrder(s.steps, |s.steps|, depth + 1, address + [i], at + 1); }
      }
    }
  }

  /** What a step is called: its description, failing that its hint, failing that its kind. */
  predicate Called(s: Step, words: string) {
    && (s.description.Some? ==> words == s.description.value)
    && (s.description.None? && s.hint.Some? ==> words == s.hint.value)
    && (s.description.None? && s.hint.None? ==>
          (s.kind, words) in {(If, "if"), (Operation, "operation"), (Call, "call"), (Return, "return"), (Throw, "throw"),
                              (Assert, "assert"), (Note, "note")})
  }

  /** An action shows what its step is called and, behind an arrow, what a return or throw hands back. */
  lemma ActionSays(s: Step)
    ensures exists words :: Called(s, words) && ActionText(s) ==
              words + (if Ends(s) && s.value.Some? && s.value.value != "" then " → " + s.value.value else "")
  {
    assert Called(s, Label(s));
    if Ends(s) && s.value.Some? && s.value.value != "" {
      assert (Label(s) + " → ") + s.value.value == Label(s) + (" → " + s.value.value);
    } else {
      assert Label(s) + "" == Label(s);
    }
  }
}
