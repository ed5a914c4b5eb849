/**
 * The two traversals of a specification trace: `flattenTrace`
 * (apps/frontend/src/app/abstract-functions-visualizer/flatten.ts), which numbers every step for
 * playback, and `buildDecisionTree` (decision-tree.ts), which numbers them again on its own while it
 * groups them by invocation.
 *
 * A step's address is the list of positions leading to it from the root; its path is that address
 * written with dots.
 */
module TraceTree {
  import opened JsString
  import opened Optional

  datatype Kind = If | Operation | Call | Return | Throw | Assert | Note

  datatype Step = Step(
    kind: Kind,
    hint: Option<string>,
    description: Option<string>,
    taken: bool,
    value: Option<string>,       // as formatted for display
    algoId: Option<string>,
    inputs: seq<string>,
    output: Option<string>,
    hasSteps: bool,              // `steps` is present; when it is not, it counts as empty
    steps: seq<Step>,
    specUrl: Option<string>)

  datatype Trace = Trace(algoId: string, inputs: seq<string>, output: Option<string>, steps: seq<Step>, specUrl: Option<string>)

  datatype Frame = Frame(algoId: string, specUrl: Option<string>)

  datatype FlatEntry = FlatEntry(index: nat, path: string, step: Step, algoId: string, callStack: seq<Frame>)

  datatype Test = Test(taken: bool, index: nat)

  datatype DecisionNode = DecisionNode(
    path: string, index: nat, depth: nat, op: string, args: seq<string>, result: Option<string>,
    tests: seq<Test>, action: Option<string>, actionIndex: Option<nat>)

  // ---- paths -------------------------------------------------------------------------------------

  /** A step's path from its frame's path and its position there. */
  function Extend(prefix: string, i: nat): string {
    if prefix != "" then prefix + "." + Decimal(i) else Decimal(i)
  }

  function Dotted(address: seq<nat>): (s: string)
    ensures s == "" <==> address == []
  {
    if address == [] then "" else Extend(Dotted(address[..|address| - 1]), address[|address| - 1])
  }

  // ---- the numbering, as functions -----------------------------------------------------------------

  predicate IsCall(s: Step) { s.kind == Call && s.algoId.Some? && s.algoId.value != "" }

  predicate Descends(s: Step) { IsCall(s) && s.hasSteps }

  /** The steps of the invocation that `s` makes. */
  function Inner(s: Step): seq<Step> { if Descends(s) then s.steps else [] }

  /** How many flat entries the first `n` steps of a frame take up, with everything they call. */
  function Size(steps: seq<Step>, n: nat): nat
    requires n <= |steps|
    decreases steps, n
  {
    if n == 0 then 0
    else
      var s := steps[n - 1];
      Size(steps, n - 1) + 1 + if Descends(s) then Size(s.steps, |s.steps|) else 0
  }

  lemma {:induction false} SizeGrows(steps: seq<Step>, m: nat, n: nat)
    requires m <= n <= |steps|
    ensures Size(steps, m) <= Size(steps, n)
  {
    if m < n { SizeGrows(steps, m, n - 1); }
  }

  function CalleeFrame(s: Step): Frame
    requires IsCall(s)
  {
    Frame(s.algoId.value, s.specUrl)
  }

  /** Entries of the first `n` steps of the frame at `address`, numbered from `start`. */
  function Flat(steps: seq<Step>, n: nat, stack: seq<Frame>, address: seq<nat>, start: nat): (r: seq<FlatEntry>)
    requires n <= |steps| && stack != []
    ensures |r| == Size(steps, n)
    decreases steps, n
  {
    if n == 0 then []
    else
      var s, at := steps[n - 1], start + Size(steps, n - 1);
      Flat(steps, n - 1, stack, address, start)
      + [FlatEntry(at, Dotted(address + [n - 1]), s, stack[|stack| - 1].algoId, stack)]
      + if Descends(s) then Flat(s.steps, |s.steps|, stack + [CalleeFrame(s)], address + [n - 1], at + 1) else []
  }

  function RootFrame(root: Trace): Frame { Frame(root.algoId, root.specUrl) }

  function FlatTrace(root: Trace): seq<FlatEntry> {
    Flat(root.steps, |root.steps|, [RootFrame(root)], [], 0)
  }

  /** description ?? hint ?? kind */
  function Label(s: Step): string {
    if s.description.Some? then s.description.value
    else if s.hint.Some? then s.hint.value
    else match s.kind case If => "if" case Operation => "operation" case Call => "call" case Return => "return"
         case Throw => "throw" case Assert => "assert" case Note => "note"
  }

  function ActionText(s: Step): string {
    if (s.kind == Return || s.kind == Throw) && s.value.Some? && s.value.value != "" then Label(s) + " → " + s.value.value
    else Label(s)
  }

  /** What one step of its own does to a frame's node; `at` is the step's number. */
  function Record(node: DecisionNode, s: Step, at: nat): DecisionNode {
    if s.kind == If then node.(tests := node.tests + [Test(s.taken, at)])
    else if s.kind == Return || s.kind == Throw then node.(action := Some(ActionText(s)), actionIndex := Some(at))
    else if IsCall(s) then node
    else if node.action.Some? && node.action.value != "" then node
    else node.(action := Some(ActionText(s)), actionIndex := Some(at))
  }

  /** A frame's node after its first `n` steps. */
  function NodeAfter(node: DecisionNode, steps: seq<Step>, n: nat, start: nat): DecisionNode
    requires n <= |steps|
  {
    if n == 0 then node
    else Record(NodeAfter(node, steps, n - 1, start), steps[n - 1], start + Size(steps, n - 1))
  }

  function NewNode(algoId: string, inputs: seq<string>, output: Option<string>, depth: nat, address: seq<nat>, header: nat): DecisionNode {
    DecisionNode(Dotted(address), header, depth, algoId, inputs, output, [], None, None)
  }

  /** The nodes of what the first `n` steps call. */
  function Callees(steps: seq<Step>, n: nat, depth: nat, address: seq<nat>, start: nat): seq<DecisionNode>
    requires n <= |steps|
    decreases steps, n
  {
    if n == 0 then []
    else
      var s, at := steps[n - 1], start + Size(steps, n - 1);
      Callees(steps, n - 1, depth, address, start)
      + if !IsCall(s) then []
        else
          var blank := NewNode(s.algoId.value, s.inputs, s.output, depth + 1, address + [n - 1], at);
          [NodeAfter(blank, Inner(s), |Inner(s)|, at + 1)]
          + if Descends(s) then Callees(s.steps, |s.steps|, depth + 1, address + [n - 1], at + 1) else []
  }

  /** The nodes of one invocation: its own, then those of what it calls. */
  function Invocation(node: DecisionNode, steps: seq<Step>, depth: nat, address: seq<nat>, start: nat): seq<DecisionNode> {
    [NodeAfter(node, steps, |steps|, start)] + Callees(steps, |steps|, depth, address, start)
  }

  function DecisionTree(root: Trace): seq<DecisionNode> {
    Invocation(NewNode(root.algoId, root.inputs, root.output, 0, [], 0), root.steps, 0, [], 0)
  }

  lemma DottedNext(address: seq<nat>, i: nat)
    ensures Dotted(address + [i]) == Extend(Dotted(address), i)
  {
    assert (address + [i])[..|address|] == address;
  }

  /** One more step: its own entry, then its callee's. */
  lemma FlatNext(steps: seq<Step>, i: nat, stack: seq<Frame>, address: seq<nat>, start: nat)
    requires i < |steps| && stack != []
    ensures var s, at := steps[i], start + Size(steps, i);
            && Flat(steps, i + 1, stack, address, start)
               == Flat(steps, i, stack, address, start)
                  + [FlatEntry(at, Dotted(address + [i]), s, stack[|stack| - 1].algoId, stack)]
                  + (if Descends(s) then Flat(s.steps, |s.steps|, stack + [CalleeFrame(s)], address + [i], at + 1) else [])
            && Size(steps, i + 1) == Size(steps, i) + 1 + (if Descends(s) then Size(s.steps, |s.steps|) else 0)
  {
    hide Dotted;
  }

  lemma NothingYet(steps: seq<Step>, stack: seq<Frame>, address: seq<nat>, start: nat, blank: DecisionNode)
    requires stack != []
    ensures Flat(steps, 0, stack, address, start) == [] && Size(steps, 0) == 0
    ensures NodeAfter(blank, steps, 0, start) == blank && Callees(steps, 0, blank.depth, address, start) == []
  {
  }

  /** One more step: the invocation it makes, if any. */
  lemma CalleesNext(steps: seq<Step>, i: nat, depth: nat, address: seq<nat>, start: nat)
    requires i < |steps|
    ensures var s, at := steps[i], start + Size(steps, i);
            && Callees(steps, i + 1, depth, address, start)
               == Callees(steps, i, depth, address, start)
                  + (if !IsCall(s) then []
                     else Invocation(NewNode(s.algoId.value, s.inputs, s.output, depth + 1, address + [i], at), Inner(s), depth + 1, address + [i], at + 1))
            && Size(steps, i + 1) == Size(steps, i) + 1 + (if IsCall(s) then Size(Inner(s), |Inner(s)|) else 0)
  {
    hide NodeAfter, Dotted;
  }

  lemma NodeNext(blank: DecisionNode, steps: seq<Step>, i: nat, start: nat)
    requires i < |steps|
    ensures NodeAfter(blank, steps, i + 1, start) == Record(NodeAfter(blank, steps, i, start), steps[i], start + Size(steps, i))
  {
  }

  // ---- the source's traversals ----------------------------------------------------------------------

  /** flattenTrace: the closure's shared counter and output. */
  class Flattener {
    var out: seq<FlatEntry>
    var idx: nat

    constructor ()
      ensures out == [] && idx == 0
    {
      out, idx := [], 0;
    }

    method Walk(algoId: string, specUrl: Option<string>, steps: seq<Step>, callStack: seq<Frame>, pathPrefix: string, ghost address: seq<nat>)
      requires pathPrefix == Dotted(address)
      modifies this
      ensures out == old(out) + Flat(steps, |steps|, callStack + [Frame(algoId, specUrl)], address, old(idx))
      ensures idx == old(idx) + Size(steps, |steps|)
      decreases Size(steps, |steps|)
    {
      hide Dotted, Extend, Flat, Size;
      var stack := callStack + [Frame(algoId, specUrl)];
      NothingYet(steps, stack, address, idx, NewNode(algoId, [], None, 0, [], 0));
      for i := 0 to |steps|
        invariant out == old(out) + Flat(steps, i, stack, address, old(idx))
        invariant idx == old(idx) + Size(steps, i)
      {
        var step := steps[i];
        SizeGrows(steps, i + 1, |steps|);
        DottedNext(address, i);
        FlatNext(steps, i, stack, address, old(idx));
        var path := Extend(pathPrefix, i);
        out := out + [FlatEntry(idx, path, step, algoId, stack)];
        idx := idx + 1;
        if step.kind == Call && step.algoId.Some? && step.algoId.value != "" && step.hasSteps {
          Walk(step.algoId.value, step.specUrl, step.steps, stack, path, address + [i]);
        }
      }
    }
  }

  method FlattenTrace(root: Trace) returns (out: seq<FlatEntry>)
    ensures out == FlatTrace(root)
  {
    var f := new Flattener();
    f.Walk(root.algoId, root.specUrl, root.steps, [], "", []);
    assert [] + [RootFrame(root)] == [RootFrame(root)];
    return f.out;
  }

  /** buildDecisionTree: the closure's shared counter and output.  A node is pushed first and filled in
      later, so it is addressed by its place in the output. */
  class DecisionBuilder {
    var out: seq<DecisionNode>
    var index: nat

    constructor ()
      ensures out == [] && index == 0
    {
      out, index := [], 0;
    }

    method WalkCall(algoId: string, inputs: seq<string>, output: Option<string>, steps: seq<Step>, depth: nat,
                    path: string, headerIndex: Option<nat>, ghost address: seq<nat>)
      requires path == Dotted(address)
      modifies this
      ensures var header := if headerIndex.Some? then headerIndex.value else old(index);
              out == old(out) + Invocation(NewNode(algoId, inputs, output, depth, address, header), steps, depth, address, old(index))
      ensures index == old(index) + Size(steps, |steps|)
      decreases Size(steps, |steps|)
    {
      hide Dotted, Extend, NodeAfter, Callees, Size, Flat;
      var header := if headerIndex.Some? then headerIndex.value else index;
      var node := |out|;
      out := out + [DecisionNode(path, header, depth, algoId, inputs, output, [], None, None)];
      ghost var blank := NewNode(algoId, inputs, output, depth, address, header);
      NothingYet(steps, [Frame(algoId, None)], address, index, blank);
      for i := 0 to |steps|
        invariant out == old(out) + [NodeAfter(blank, steps, i, old(index))] + Callees(steps, i, depth, address, old(index))
        invariant index == old(index) + Size(steps, i)
      {
        var step := steps[i];
        SizeGrows(steps, i + 1, |steps|);
        DottedNext(address, i);
        NodeNext(blank, steps, i, old(index));
        CalleesNext(steps, i, depth, address, old(index));
        var stepPath := Extend(path, i);
        var stepIndex := index;
        index := index + 1;
        if step.kind == If {
          out := out[node := out[node].(tests := out[node].tests + [Test(step.taken, stepIndex)])];
        } else if step.kind == Return || step.kind == Throw {
          var text := if step.value.Some? && step.value.value != "" then Label(step) + " → " + step.value.value else Label(step);
          out := out[node := out[node].(action := Some(text), actionIndex := Some(stepIndex))];
        } else if step.kind == Call && step.algoId.Some? && step.algoId.value != "" {
          WalkCall(step.algoId.value, step.inputs, step.output, if step.hasSteps then step.steps else [],
                   depth + 1, stepPath, Some(stepIndex), address + [i]);
        } else if !(out[node].action.Some? && out[node].action.value != "") {
          out := out[node := out[node].(action := Some(Label(step)), actionIndex := Some(stepIndex))];
        }
      }
    }
  }

  method BuildDecisionTree(root: Trace) returns (out: seq<DecisionNode>)
    ensures out == DecisionTree(root)
  {
    var b := new DecisionBuilder();
    b.WalkCall(root.algoId, root.inputs, root.output, root.steps, 0, "", None, []);
    return b.out;
  }
}
