/**
 * The binary-expression entry point (apps/trace-service/src/server/execute/index.ts): find the
 * operator, evaluate the two operands left to right, dispatch.  The contract names no dispatch table:
 * it says the answer is what the operator means on the values of the two sides.
 */
module BinaryExpression {
  import opened JsString
  import opened Numbers
  import opened Optional
  import opened OperatorScan
  import opened OperatorTrees
  import opened OperatorReading
  import opened OperatorRoots
  import opened OperatorTreeProofs
  import opened OperatorSemantics

  /** Evaluating operand text, foreign code: it may fail, and may convert objects on the way. */
  type Evaluate = (string, seq<nat>) -> Outcome<Value>

  /** ApplyStringOrNumericBinaryOperator with +, foreign code. */
  type Add = (Value, Value, seq<nat>) -> Outcome<Prim>

  datatype Response =
    | NoOperator
    | MissingOperand(operator: Operator)
    | LeftFailed(thrown: Thrown)
    | RightFailed(thrown: Thrown)
    | Result(operator: Operator, outcome: Outcome<Prim>)

  function BooleanOutcome(o: Outcome<bool>): Outcome<Prim> {
    Outcome(match o.completion case Normal(b) => Normal(Boolean(b)) case Throw(e) => Throw(e), o.log)
  }

  /** What an operator means on two values. */
  function OperatorMeaning(env: Env, add: Add, op: Operator, left: Value, right: Value, log: seq<nat>): Outcome<Prim> {
    if Relational(op) then BooleanOutcome(Meaning(env, op, left, right, log))
    else if op == Plus then add(left, right, log)
    else BooleanOutcome(EqualityMeaning(env, op, left, right, log))
  }

  /** The answer for two operand texts around an operator. */
  function Answer(env: Env, evaluate: Evaluate, add: Add, op: Operator, leftSrc: string, rightSrc: string): Response {
    if leftSrc == "" || rightSrc == "" then MissingOperand(op)
    else
      var l := evaluate(leftSrc, []);
      match l.completion
      case Throw(e) => LeftFailed(e)
      case Normal(left) =>
        var r := evaluate(rightSrc, l.log);
        match r.completion
        case Throw(e) => RightFailed(e)
        case Normal(right) => Result(op, OperatorMeaning(env, add, op, left, right, r.log))
  }

  function Sides(input: string, hit: Hit): (string, string)
    requires hit.index < |input| && HitAt(input, hit.index) == Some(hit.operator)
  {
    HitSplitsInput(input, hit.index);
    (Trim(input[..hit.index]), Trim(input[hit.index + |Spelling(hit.operator)|..]))
  }

  /** The reply when `detected` is the input's root. */
  ghost function Reply(env: Env, evaluate: Evaluate, add: Add, input: string, detected: Option<Hit>): Response
    requires IsRoot(input, detected)
  {
    match detected
    case None => NoOperator
    case Some(hit) => Answer(env, evaluate, add, hit.operator, Sides(input, hit).0, Sides(input, hit).1)
  }

  /** There is one root (`RootIsUnique`), so this is one answer. */
  method ExecuteBinaryExpression(env: Env, evaluate: Evaluate, add: Add, input: string) returns (r: Response)
    ensures exists detected :: IsRoot(input, detected) && r == Reply(env, evaluate, add, input, detected)
  {
    hide HitAt;
    var hit := DetectOperator(input);
    assert IsRoot(input, hit);
    hide IsRoot;
    if hit.None? { return NoOperator; }
    var operator := hit.value.operator;
    var dispatch := GetOperatorDispatch(operator);
    HitSplitsInput(input, hit.value.index);
    var leftSrc := Trim(input[..hit.value.index]);
    var rightSrc := Trim(input[hit.value.index + |Spelling(operator)|..]);
    if |leftSrc| == 0 || |rightSrc| == 0 { return MissingOperand(operator); }
    var leftResult := evaluate(leftSrc, []);
    if leftResult.completion.Throw? { return LeftFailed(leftResult.completion.thrown); }
    var rightResult := evaluate(rightSrc, leftResult.log);
    if rightResult.completion.Throw? { return RightFailed(rightResult.completion.thrown); }
    var lhsParsed, rhsParsed := leftResult.completion.value, rightResult.completion.value;
    var lhs := if dispatch.swap then rhsParsed else lhsParsed;
    var rhs := if dispatch.swap then lhsParsed else rhsParsed;
    if dispatch.algo == StringOrNumeric {
      return Result(operator, add(lhs, rhs, rightResult.log));
    }
    var raw := Call(env, dispatch.algo, lhs, rhs, dispatch.leftFirst, rightResult.log);
    assert Relational(operator) || Rank(operator) == 0;
    if Relational(operator) {
      DispatchMeansRelation(env, operator, lhsParsed, rhsParsed, rightResult.log);
    } else {
      DispatchMeansEquality(env, operator, lhsParsed, rhsParsed, rightResult.log);
    }
    if raw.completion.Throw? {
      return Result(operator, Outcome(Throw(raw.completion.thrown), raw.log));
    }
    var transformed := Apply(dispatch.transform, raw.completion.value);
    return Result(operator, Outcome(Normal(Boolean(transformed.value)), raw.log));
  }

  // ---- on grammatical expressions --------------------------------------------------------------

  lemma TrimKeepsText(s: string)
    requires s != "" && !IsSpace(s[0]) && !IsSpace(s[|s| - 1])
    ensures Trim(s + " ") == s && Trim(" " + s) == s
  {
    hide IsSpace;
    BlankIsSpace();
    var right, left := s + " ", " " + s;
    assert right[0] == s[0] && right[|s|] == ' ' && right[..|s|] == s && TrimStart(right) == right;
    assert TrimEnd(right) == TrimEnd(s) == s;
    assert left[0] == ' ' && left[1..] == s;
    assert TrimStart(left) == TrimStart(s) == s;
  }

  lemma FramedIsTrim(s: string)
    requires Framed(s)
    ensures !IsSpace(s[0]) && !IsSpace(s[|s| - 1])
  {
    GraphicIsNoSpace(s[0]);
    GraphicIsNoSpace(s[|s| - 1]);
  }

  /** Where the root of an expression shows, the expression is answered by its root operator applied to exactly
      its two operands; where it does not, no answer splits it there. */
  lemma ExpressionMeansRoot(t: Tree, detected: Option<Hit>)
    requires t.Node? && Grammatical(t)
    requires IsRoot(TreeText(t), detected)
    ensures Seen(t) ==>
              && detected.Some? && detected.value.operator == t.operator
              && Sides(TreeText(t), detected.value) == (TreeText(t.left), TreeText(t.right))
    ensures !Seen(t) ==> detected.None? || detected.value.index != |TreeText(t.left)| + 1
  {
    hide HitAt, TreeText, Grammatical, IsSpace, Seen;
    RootFoundIffSeen(t, detected);
    NodeHits(t);
    if Seen(t) { NodeSides(t, detected.value); }
  }

  lemma NodeSides(t: Tree, hit: Hit)
    requires t.Node? && Grammatical(t) && hit == Hit(t.operator, |TreeText(t.left)| + 1)
    requires hit.index < |TreeText(t)| && HitAt(TreeText(t), hit.index) == Some(hit.operator)
    ensures Sides(TreeText(t), hit) == (TreeText(t.left), TreeText(t.right))
  {
    hide HitAt, IsSpace, TrimStart, TrimEnd, Graphic, OperatorChar;
    var a, op, b := TreeText(t.left), Spelling(t.operator), TreeText(t.right);
    TreeEnds(t.left);
    TreeEnds(t.right);
    FramedIsTrim(a);
    FramedIsTrim(b);
    TrimKeepsText(a);
    TrimKeepsText(b);
    assert TreeText(t) == (a + " ") + op + (" " + b);
    assert TreeText(t)[..|a| + 1] == a + " ";
    assert TreeText(t)[|a| + 1 + |op|..] == " " + b;
  }

  /** An operator misses an operand exactly when there is nothing but space on one of its sides. */
  lemma MissingIffBlank(env: Env, evaluate: Evaluate, add: Add, input: string, hit: Hit)
    requires IsRoot(input, Some(hit))
    ensures Reply(env, evaluate, add, input, Some(hit)) == MissingOperand(hit.operator)
            <==> Spaces(input[..hit.index]) || Spaces(input[Min(hit.index + |Spelling(hit.operator)|, |input|)..])
  {
    hide HitAt, IsRoot, Trim, IsSpace;
    assert hit.index < |input| && HitAt(input, hit.index) == Some(hit.operator) by { RootIsHit(input, hit); }
    HitSplitsInput(input, hit.index);
    TrimmedAway(input[..hit.index]);
    TrimmedAway(input[hit.index + |Spelling(hit.operator)|..]);
  }

  lemma RootIsHit(input: string, hit: Hit)
    requires IsRoot(input, Some(hit))
    ensures hit.index < |input| && HitAt(input, hit.index) == Some(hit.operator)
  {
  }

  /** From text to answer: an expression whose root shows has its left side evaluated first, then its right side, and
      is answered with what its root operator means on the two values, or with the first side that failed. */
  lemma ExpressionAnswered(env: Env, evaluate: Evaluate, add: Add, t: Tree, detected: Option<Hit>)
    requires t.Node? && Grammatical(t) && Seen(t) && IsRoot(TreeText(t), detected)
    ensures var r, l := Reply(env, evaluate, add, TreeText(t), detected), evaluate(TreeText(t.left), []);
            && (l.completion.Throw? ==> r == LeftFailed(l.completion.thrown))
            && (l.completion.Normal? ==>
                  var right := evaluate(TreeText(t.right), l.log);
                  && (right.completion.Throw? ==> r == RightFailed(right.completion.thrown))
                  && (right.completion.Normal? ==>
                        r.Result? && r.operator == t.operator
                        && Means(env, add, t.operator, l.completion.value, right.completion.value, right.log, r.outcome)))
  {
    hide HitAt, TreeText, Grammatical, Seen, Sides, IsRoot;
    ExpressionMeansRoot(t, detected);
    SidesAreGrammatical(t);
    TreeEnds(t.left);
    TreeEnds(t.right);
    RootIsHit(TreeText(t), detected.value);
    var l := evaluate(TreeText(t.left), []);
    if l.completion.Normal? {
      var right := evaluate(TreeText(t.right), l.log);
      if right.completion.Normal? { MeaningMeans(env, add, t.operator, l.completion.value, right.completion.value, right.log); }
    }
  }

  lemma SidesAreGrammatical(t: Tree)
    requires t.Node? && Grammatical(t)
    ensures Grammatical(t.left) && Grammatical(t.right)
  {
  }

  lemma MeaningMeans(env: Env, add: Add, op: Operator, left: Value, right: Value, log: seq<nat>)
    ensures Means(env, add, op, left, right, log, OperatorMeaning(env, add, op, left, right, log))
  {
    hide LooseMeaning, IsLooselyEqual, Meaning;
    LooseEqualityIsSymmetric(env, left, right, log);
    LooseEqualityMeans(env, left, right, log);
  }

  /** The outcome of each operator: a sum is the foreign one's, a comparison goes by the order of the two values, and an
      equality by whether they are equal, loosely or of one type. */
  ghost predicate Means(env: Env, add: Add, op: Operator, left: Value, right: Value, log: seq<nat>, outcome: Outcome<Prim>) {
    && (op == Plus ==> outcome == add(left, right, log))
    && (Relational(op) ==> outcome == BooleanOutcome(Meaning(env, op, left, right, log)))
    && (op == LooseEq ==> outcome == BooleanOutcome(LooseMeaning(env, left, right, log)))
    && (op == LooseNe ==> outcome == BooleanOutcome(Opposite(LooseMeaning(env, left, right, log))))
    && (op == StrictEq || op == StrictNe ==>
          outcome == Outcome(Normal(Boolean((op == StrictEq) == IsStrictlyEqual(left, right))), log))
  }

  function Opposite(o: Outcome<bool>): Outcome<bool> {
    Outcome(match o.completion case Normal(b) => Normal(!b) case Throw(e) => Throw(e), o.log)
  }
}
