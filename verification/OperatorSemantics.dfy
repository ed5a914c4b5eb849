/**
 * From a detected operator to a result: the dispatch table of
 * apps/trace-service/src/server/operations.ts and its use in execute/index.ts, against the meaning
 * ECMA-262 (2023) gives the comparison operators.
 *
 * ToPrimitive may run user code, so it takes and extends a log of the objects converted so far, may
 * answer differently depending on that log, and may throw.  Number is the extended reals with NaN;
 * the two zeros are one, which no comparison can tell.
 */
module OperatorSemantics {
  import opened Optional
  import opened OperatorScan

  datatype Num = NaN | MinusInfinity | Finite(r: real) | PlusInfinity

  datatype Prim =
    | Undefined
    | Null
    | Boolean(b: bool)
    | Number(n: Num)
    | String(s: string)
    | BigInt(i: int)
    | Symbol(id: nat)

  datatype Value = Primitive(prim: Prim) | Object(id: nat)

  datatype Hint = HintNumber | HintDefault

  datatype Thrown = TypeError | UserError(message: string)

  datatype Completion<+T> = Normal(value: T) | Throw(thrown: Thrown)

  /** What the language leaves to the program and to numeric literal syntax. */
  datatype Env = Env(
    convert: (nat, Hint, seq<nat>) -> Completion<Prim>,
    stringToNumber: string -> Num,
    stringToBigInt: string -> Option<int>)

  /** A completion together with the objects converted by then, oldest first. */
  datatype Outcome<+T> = Outcome(completion: Completion<T>, log: seq<nat>)

  // ---- ECMA-262 abstract operations -----------------------------------------------------------

  function ToPrimitive(env: Env, v: Value, hint: Hint, log: seq<nat>): Outcome<Prim> {
    match v
    case Primitive(p) => Outcome(Normal(p), log)
    case Object(id) => Outcome(env.convert(id, hint, log), log + [id])
  }

  /** ToNumeric on a primitive (section 7.1.3): a Number or a BigInt; symbols throw. */
  function ToNumeric(env: Env, p: Prim): Completion<Prim> {
    match p
    case Undefined => Normal(Number(NaN))
    case Null => Normal(Number(Finite(0.0)))
    case Boolean(b) => Normal(Number(Finite(if b then 1.0 else 0.0)))
    case Number(_) => Normal(p)
    case String(s) => Normal(Number(env.stringToNumber(s)))
    case BigInt(_) => Normal(p)
    case Symbol(_) => Throw(TypeError)
  }

  /** Number::lessThan, BigInt::lessThan and the mixed case of section 7.2.13; None is undefined. */
  function NumericLess(a: Num, b: Num): Option<bool> {
    if a.NaN? || b.NaN? then None
    else if a == b then Some(false)
    else if a.PlusInfinity? then Some(false)
    else if b.PlusInfinity? then Some(true)
    else if b.MinusInfinity? then Some(false)
    else if a.MinusInfinity? then Some(true)
    else Some(a.r < b.r)
  }

  /** The mathematical value of a numeric primitive. */
  function Magnitude(p: Prim): Num
    requires p.Number? || p.BigInt?
  {
    if p.Number? then p.n else Finite(p.i as real)
  }

  /** String comparison by code unit, a proper prefix being less. */
  predicate StringLess(a: string, b: string) {
    if b == "" then false
    else if a == "" then true
    else if a[0] != b[0] then a[0] < b[0]
    else StringLess(a[1..], b[1..])
  }

  /** Steps 3 and 4 of IsLessThan, on primitives. */
  function PrimLess(env: Env, px: Prim, py: Prim): Completion<Option<bool>> {
    if px.String? && py.String? then Normal(Some(StringLess(px.s, py.s)))
    else if px.BigInt? && py.String? then
      match env.stringToBigInt(py.s)
      case None => Normal(None)
      case Some(ny) => Normal(Some(px.i < ny))
    else if px.String? && py.BigInt? then
      match env.stringToBigInt(px.s)
      case None => Normal(None)
      case Some(nx) => Normal(Some(nx < py.i))
    else
      match (ToNumeric(env, px), ToNumeric(env, py))
      case (Normal(nx), Normal(ny)) =>
        if nx.BigInt? && ny.BigInt? then Normal(Some(nx.i < ny.i))
        else if (nx.Number? || nx.BigInt?) && (ny.Number? || ny.BigInt?) then
          Normal(NumericLess(Magnitude(nx), Magnitude(ny)))
        else Normal(None)
      case (Throw(e), _) => Throw(e)
      case (_, Throw(e)) => Throw(e)
  }

  /** IsLessThan (section 7.2.13), called AbstractRelationalComparison by the source. */
  function IsLessThan(env: Env, x: Value, y: Value, leftFirst: bool, log: seq<nat>): Outcome<Option<bool>> {
    var first := ToPrimitive(env, if leftFirst then x else y, HintNumber, log);
    if first.completion.Throw? then Outcome(Throw(first.completion.thrown), first.log)
    else
      var second := ToPrimitive(env, if leftFirst then y else x, HintNumber, first.log);
      if second.completion.Throw? then Outcome(Throw(second.completion.thrown), second.log)
      else if leftFirst then Outcome(PrimLess(env, first.completion.value, second.completion.value), second.log)
      else Outcome(PrimLess(env, second.completion.value, first.completion.value), second.log)
  }

  function NumericEqual(a: Num, b: Num): bool {
    !a.NaN? && a == b
  }

  /** IsStrictlyEqual (section 7.2.15). */
  predicate IsStrictlyEqual(x: Value, y: Value) {
    if x.Primitive? && y.Primitive? && x.prim.Number? && y.prim.Number? then NumericEqual(x.prim.n, y.prim.n)
    else x == y
  }

  predicate SameType(x: Value, y: Value) {
    match (x, y)
    case (Object(_), Object(_)) => true
    case (Primitive(p), Primitive(q)) =>
      || (p.Undefined? && q.Undefined?) || (p.Null? && q.Null?) || (p.Boolean? && q.Boolean?)
      || (p.Number? && q.Number?) || (p.String? && q.String?) || (p.BigInt? && q.BigInt?) || (p.Symbol? && q.Symbol?)
    case _ => false
  }

  predicate Nullish(v: Value) {
    v.Primitive? && (v.prim.Undefined? || v.prim.Null?)
  }

  function Weight(v: Value): nat {
    if v.Object? then 3 else if v.prim.Boolean? then 2 else if v.prim.String? then 1 else 0
  }

  /** IsLooselyEqual (section 7.2.14), step by step. */
  function IsLooselyEqual(env: Env, x: Value, y: Value, log: seq<nat>): Outcome<bool>
    decreases Weight(x) + Weight(y), Weight(x)
  {
    if SameType(x, y) then Outcome(Normal(IsStrictlyEqual(x, y)), log)
    else if Nullish(x) && Nullish(y) then Outcome(Normal(true), log)
    else if x.Primitive? && y.Primitive? && x.prim.Number? && y.prim.String? then
      IsLooselyEqual(env, x, Primitive(Number(env.stringToNumber(y.prim.s))), log)
    else if x.Primitive? && y.Primitive? && x.prim.String? && y.prim.Number? then
      IsLooselyEqual(env, Primitive(Number(env.stringToNumber(x.prim.s))), y, log)
    else if x.Primitive? && y.Primitive? && x.prim.BigInt? && y.prim.String? then
      (match env.stringToBigInt(y.prim.s)
       case None => Outcome(Normal(false), log)
       case Some(n) => IsLooselyEqual(env, x, Primitive(BigInt(n)), log))
    else if x.Primitive? && y.Primitive? && x.prim.String? && y.prim.BigInt? then
      IsLooselyEqual(env, y, x, log)
    else if x.Primitive? && x.prim.Boolean? then
      IsLooselyEqual(env, Primitive(Number(Finite(if x.prim.b then 1.0 else 0.0))), y, log)
    else if y.Primitive? && y.prim.Boolean? then
      IsLooselyEqual(env, x, Primitive(Number(Finite(if y.prim.b then 1.0 else 0.0))), log)
    else if x.Primitive? && !Nullish(x) && y.Object? then
      var p := ToPrimitive(env, y, HintDefault, log);
      if p.completion.Throw? then Outcome(Throw(p.completion.thrown), p.log)
      else IsLooselyEqual(env, x, Primitive(p.completion.value), p.log)
    else if x.Object? && y.Primitive? && !Nullish(y) then
      var p := ToPrimitive(env, x, HintDefault, log);
      if p.completion.Throw? then Outcome(Throw(p.completion.thrown), p.log)
      else IsLooselyEqual(env, Primitive(p.completion.value), y, p.log)
    else if x.Primitive? && y.Primitive? && x.prim.BigInt? && y.prim.Number? then
      Outcome(Normal(y.prim.n == Finite(x.prim.i as real)), log)
    else if x.Primitive? && y.Primitive? && x.prim.Number? && y.prim.BigInt? then
      Outcome(Normal(x.prim.n == Finite(y.prim.i as real)), log)
    else Outcome(Normal(false), log)
  }

  // ---- the source's dispatch ------------------------------------------------------------------

  datatype Algorithm = LooselyEqual | StrictlyEqual | RelationalComparison | StringOrNumeric

  datatype Transform = Identity | Negate | LessOrEqual | Raw

  datatype Dispatch = Dispatch(algo: Algorithm, swap: bool, leftFirst: bool, transform: Transform)

  function GetOperatorDispatch(operator: Operator): Dispatch {
    match operator
    case LooseEq => Dispatch(LooselyEqual, false, true, Identity)
    case StrictEq => Dispatch(StrictlyEqual, false, true, Identity)
    case LooseNe => Dispatch(LooselyEqual, false, true, Negate)
    case StrictNe => Dispatch(StrictlyEqual, false, true, Negate)
    case Less => Dispatch(RelationalComparison, false, true, Identity)
    case Greater => Dispatch(RelationalComparison, true, false, Identity)
    case LessEq => Dispatch(RelationalComparison, true, false, LessOrEqual)
    case GreaterEq => Dispatch(RelationalComparison, false, true, LessOrEqual)
    case Plus => Dispatch(StringOrNumeric, false, true, Raw)
  }

  /** The transforms, on a comparison's raw result. */
  function Apply(t: Transform, raw: Option<bool>): Option<bool> {
    match t
    case Identity => if raw == None then Some(false) else raw
    case Negate => if raw == Some(true) then Some(false) else Some(true)
    case LessOrEqual => if raw == None || raw == Some(true) then Some(false) else Some(true)
    case Raw => raw
  }

  function Call(env: Env, algo: Algorithm, lhs: Value, rhs: Value, leftFirst: bool, log: seq<nat>): Outcome<Option<bool>>
    requires algo != StringOrNumeric
  {
    match algo
    case RelationalComparison => IsLessThan(env, lhs, rhs, leftFirst, log)
    case StrictlyEqual => Outcome(Normal(Some(IsStrictlyEqual(lhs, rhs))), log)
    case LooselyEqual =>
      var o := IsLooselyEqual(env, lhs, rhs, log);
      Outcome(match o.completion case Normal(b) => Normal(Some(b)) case Throw(e) => Throw(e), o.log)
  }

  /** Swap, call, transform: the comparison part of executeBinaryExpression. */
  function Compare(env: Env, operator: Operator, left: Value, right: Value, log: seq<nat>): Outcome<Option<bool>>
    requires operator != Plus
  {
    var d := GetOperatorDispatch(operator);
    var lhs, rhs := if d.swap then right else left, if d.swap then left else right;
    var raw := Call(env, d.algo, lhs, rhs, d.leftFirst, log);
    match raw.completion
    case Throw(e) => raw
    case Normal(v) => Outcome(Normal(Apply(d.transform, v)), raw.log)
  }

  // ---- what the operators mean ----------------------------------------------------------------

  /** How two primitives stand to each other; a NaN, or a string that is no BigInt, is comparable to nothing. */
  datatype Order = Before | Same | After | Incomparable

  function RealOrder(a: real, b: real): Order {
    if a < b then Before else if a == b then Same else After
  }

  function NumOrder(a: Num, b: Num): Order {
    match (a, b)
    case (NaN, _) => Incomparable
    case (_, NaN) => Incomparable
    case (Finite(x), Finite(y)) => RealOrder(x, y)
    case (MinusInfinity, MinusInfinity) => Same
    case (PlusInfinity, PlusInfinity) => Same
    case (MinusInfinity, _) => Before
    case (_, PlusInfinity) => Before
    case (_, _) => After
  }

  /** Dictionary order. */
  function StringOrder(a: string, b: string): Order {
    if a == "" && b == "" then Same
    else if a == "" then Before
    else if b == "" then After
    else if a[0] < b[0] then Before
    else if a[0] > b[0] then After
    else StringOrder(a[1..], b[1..])
  }

  function PrimOrder(env: Env, p: Prim, q: Prim): Completion<Order> {
    if p.Symbol? || q.Symbol? then Throw(TypeError)
    else if p.String? && q.String? then Normal(StringOrder(p.s, q.s))
    else if p.BigInt? && q.String? then
      Normal(match env.stringToBigInt(q.s) case None => Incomparable case Some(n) => RealOrder(p.i as real, n as real))
    else if p.String? && q.BigInt? then
      Normal(match env.stringToBigInt(p.s) case None => Incomparable case Some(n) => RealOrder(n as real, q.i as real))
    else Normal(NumOrder(AsNum(env, p), AsNum(env, q)))
  }

  function AsNum(env: Env, p: Prim): Num
    requires !p.Symbol?
  {
    match p
    case Undefined => NaN
    case Null => Finite(0.0)
    case Boolean(b) => Finite(if b then 1.0 else 0.0)
    case Number(n) => n
    case String(s) => env.stringToNumber(s)
    case BigInt(i) => Finite(i as real)
  }

  predicate Relational(op: Operator) {
    op == Less || op == Greater || op == LessEq || op == GreaterEq
  }

  predicate Admits(op: Operator, order: Order)
    requires Relational(op)
  {
    match op
    case Less => order == Before
    case Greater => order == After
    case LessEq => order == Before || order == Same
    case GreaterEq => order == After || order == Same
  }

  /** A relational operator converts its left operand, then its right one, and answers by their order. */
  function Meaning(env: Env, op: Operator, left: Value, right: Value, log: seq<nat>): Outcome<bool>
    requires Relational(op)
  {
    var l := ToPrimitive(env, left, HintNumber, log);
    if l.completion.Throw? then Outcome(Throw(l.completion.thrown), l.log)
    else
      var r := ToPrimitive(env, right, HintNumber, l.log);
      if r.completion.Throw? then Outcome(Throw(r.completion.thrown), r.log)
      else
        match PrimOrder(env, l.completion.value, r.completion.value)
        case Throw(e) => Outcome(Throw(e), r.log)
        case Normal(order) => Outcome(Normal(Admits(op, order)), r.log)
  }

  // ---- the dispatch means the operator --------------------------------------------------------

  lemma {:induction false} StringLessIsBefore(a: string, b: string)
    ensures StringLess(a, b) <==> StringOrder(a, b) == Before
    ensures StringLess(b, a) <==> StringOrder(a, b) == After
    ensures StringOrder(a, b) != Incomparable
    decreases |a|
  {
    if a != "" && b != "" && a[0] == b[0] { StringLessIsBefore(a[1..], b[1..]); }
  }

  lemma NumericLessIsBefore(a: Num, b: Num)
    ensures NumericLess(a, b) == if NumOrder(a, b) == Incomparable then None else Some(NumOrder(a, b) == Before)
    ensures NumericLess(b, a) == if NumOrder(a, b) == Incomparable then None else Some(NumOrder(a, b) == After)
  {
  }

  lemma ToNumericIsAsNum(env: Env, p: Prim)
    ensures p.Symbol? ==> ToNumeric(env, p) == Throw(TypeError)
    ensures !p.Symbol? ==>
              && ToNumeric(env, p).Normal?
              && (ToNumeric(env, p).value.BigInt? <==> p.BigInt?) && (ToNumeric(env, p).value.Number? <==> !p.BigInt?)
              && Magnitude(ToNumeric(env, p).value) == AsNum(env, p)
              && (p.BigInt? ==> ToNumeric(env, p).value == p)
  {
  }

  /** Comparing both ways round settles the order, and comparing fails one way exactly when it fails the other. */
  lemma PrimLessIsBefore(env: Env, p: Prim, q: Prim)
    ensures match PrimOrder(env, p, q)
            case Throw(e) => PrimLess(env, p, q) == Throw(e) == PrimLess(env, q, p)
            case Normal(order) =>
              && PrimLess(env, p, q) == Normal(if order == Incomparable then None else Some(order == Before))
              && PrimLess(env, q, p) == Normal(if order == Incomparable then None else Some(order == After))
  {
    hide ToNumeric, AsNum, NumericLess, NumOrder, StringLess, StringOrder, RealOrder;
    ToNumericIsAsNum(env, p);
    ToNumericIsAsNum(env, q);
    if p.String? && q.String? {
      StringLessIsBefore(p.s, q.s);
    } else if p.BigInt? && q.String? {
      var n := env.stringToBigInt(q.s);
      if n.Some? { BigIntOrders(p.i, n.value); }
    } else if p.String? && q.BigInt? {
      var n := env.stringToBigInt(p.s);
      if n.Some? { BigIntOrders(n.value, q.i); }
    } else if !p.Symbol? && !q.Symbol? {
      NumericLessIsBefore(AsNum(env, p), AsNum(env, q));
      if p.BigInt? && q.BigInt? { BigIntOrders(p.i, q.i); BigIntNums(env, p, q); }
    }
  }

  lemma BigIntOrders(i: int, j: int)
    ensures var order := RealOrder(i as real, j as real);
            order != Incomparable && (i < j <==> order == Before) && (j < i <==> order == After)
  {
  }

  lemma BigIntNums(env: Env, p: Prim, q: Prim)
    requires p.BigInt? && q.BigInt?
    ensures NumOrder(AsNum(env, p), AsNum(env, q)) == RealOrder(p.i as real, q.i as real)
  {
  }

  /** Every relational operator, through swap, LeftFirst and transform, has its meaning: result, throws
      and the order in which operands are converted. */
  lemma DispatchMeansRelation(env: Env, op: Operator, left: Value, right: Value, log: seq<nat>)
    requires Relational(op)
    ensures var got, want := Compare(env, op, left, right, log), Meaning(env, op, left, right, log);
            && got.log == want.log
            && got.completion == match want.completion case Normal(b) => Normal(Some(b)) case Throw(e) => Throw(e)
  {
    var l := ToPrimitive(env, left, HintNumber, log);
    if l.completion.Normal? {
      var r := ToPrimitive(env, right, HintNumber, l.log);
      if r.completion.Normal? { PrimLessIsBefore(env, l.completion.value, r.completion.value); }
    }
  }

  /** Loose equality is symmetric in its result, what it throws and what it converts. */
  lemma {:induction false} LooseEqualityIsSymmetric(env: Env, x: Value, y: Value, log: seq<nat>)
    ensures IsLooselyEqual(env, x, y, log) == IsLooselyEqual(env, y, x, log)
    decreases Weight(x) + Weight(y)
  {
    if SameType(x, y) || (Nullish(x) && Nullish(y)) {
    } else if x.Primitive? && y.Primitive? && (x.prim.String? || y.prim.String?) && !x.prim.Boolean? && !y.prim.Boolean? {
      if x.prim.Number? { LooseEqualityIsSymmetric(env, x, Primitive(Number(env.stringToNumber(y.prim.s))), log); }
      if y.prim.Number? { LooseEqualityIsSymmetric(env, Primitive(Number(env.stringToNumber(x.prim.s))), y, log); }
    } else if x.Primitive? && x.prim.Boolean? {
      LooseEqualityIsSymmetric(env, Primitive(Number(Finite(if x.prim.b then 1.0 else 0.0))), y, log);
    } else if y.Primitive? && y.prim.Boolean? {
      LooseEqualityIsSymmetric(env, x, Primitive(Number(Finite(if y.prim.b then 1.0 else 0.0))), log);
    } else if x.Object? && y.Primitive? && !Nullish(y) {
      var p := ToPrimitive(env, x, HintDefault, log);
      if p.completion.Normal? { LooseEqualityIsSymmetric(env, Primitive(p.completion.value), y, p.log); }
    } else if y.Object? && x.Primitive? && !Nullish(x) {
      var p := ToPrimitive(env, y, HintDefault, log);
      if p.completion.Normal? { LooseEqualityIsSymmetric(env, x, Primitive(p.completion.value), p.log); }
    }
  }

  /** When two primitives are loosely equal: of one type when they are the same, and not NaN; null and undefined to each
      other only, a symbol to nothing else, a BigInt to the strings that spell it; all others by their numbers. */
  predicate EqualPrims(env: Env, p: Prim, q: Prim) {
    match (p, q)
    case (Undefined, _) => q.Undefined? || q.Null?
    case (Null, _) => q.Undefined? || q.Null?
    case (_, Undefined) => false
    case (_, Null) => false
    case (Symbol(a), _) => q == Symbol(a)
    case (_, Symbol(_)) => false
    case (String(a), String(b)) => a == b
    case (BigInt(a), BigInt(b)) => a == b
    case (BigInt(a), String(b)) => env.stringToBigInt(b) == Some(a)
    case (String(a), BigInt(b)) => env.stringToBigInt(a) == Some(b)
    case (_, _) => NumOrder(AsNum(env, p), AsNum(env, q)) == Same
  }

  /** Objects are equal to themselves; against a primitive but null and undefined an object is converted, once. */
  function LooseMeaning(env: Env, x: Value, y: Value, log: seq<nat>): Outcome<bool> {
    match (x, y)
    case (Object(a), Object(b)) => Outcome(Normal(a == b), log)
    case (Primitive(p), Primitive(q)) => Outcome(Normal(EqualPrims(env, p, q)), log)
    case (Object(a), Primitive(q)) => ConvertedEquals(env, a, q, log)
    case (Primitive(p), Object(b)) => ConvertedEquals(env, b, p, log)
  }

  function ConvertedEquals(env: Env, id: nat, p: Prim, log: seq<nat>): Outcome<bool> {
    if p.Undefined? || p.Null? then Outcome(Normal(false), log)
    else match env.convert(id, HintDefault, log)
         case Throw(e) => Outcome(Throw(e), log + [id])
         case Normal(q) => Outcome(Normal(EqualPrims(env, q, p)), log + [id])
  }

  lemma EqualPrimsBothWays(env: Env, p: Prim, q: Prim)
    ensures EqualPrims(env, p, q) <==> EqualPrims(env, q, p)
  {
    hide NumOrder;
    SameBothWays(env, p, q);
  }

  /** A boolean is equal to what its number is equal to. */
  lemma BooleanIsNumber(env: Env, b: bool, q: Prim)
    ensures var n := Number(Finite(if b then 1.0 else 0.0)); EqualPrims(env, Boolean(b), q) <==> EqualPrims(env, n, q)
  {
    hide NumOrder;
    var n := Number(Finite(if b then 1.0 else 0.0));
    assert AsNum(env, Boolean(b)) == AsNum(env, n);
    match q
    case Undefined =>
    case Null =>
    case Symbol(_) =>
    case BigInt(_) =>
    case String(_) =>
    case Number(_) =>
    case Boolean(_) =>
  }

  lemma SameBothWays(env: Env, p: Prim, q: Prim)
    ensures !p.Symbol? && !q.Symbol? ==>
              (NumOrder(AsNum(env, p), AsNum(env, q)) == Same <==> NumOrder(AsNum(env, q), AsNum(env, p)) == Same)
  {
  }

  lemma PrimitivesAreEqual(env: Env, p: Prim, q: Prim, log: seq<nat>)
    ensures IsLooselyEqual(env, Primitive(p), Primitive(q), log) == Outcome(Normal(EqualPrims(env, p, q)), log)
    decreases p.Boolean?, q.Boolean?
  {
    if p.Boolean? && !q.Boolean? {
      PrimitivesAreEqual(env, Number(Finite(if p.b then 1.0 else 0.0)), q, log);
      BooleanIsNumber(env, p.b, q);
    } else if q.Boolean? && !p.Boolean? {
      PrimitivesAreEqual(env, p, Number(Finite(if q.b then 1.0 else 0.0)), log);
      BooleanIsNumber(env, q.b, p);
      EqualPrimsBothWays(env, p, q);
      EqualPrimsBothWays(env, p, Number(Finite(if q.b then 1.0 else 0.0)));
    } else {
      PlainPrimitivesAreEqual(env, p, q, log);
    }
  }

  lemma PlainPrimitivesAreEqual(env: Env, p: Prim, q: Prim, log: seq<nat>)
    requires p.Boolean? <==> q.Boolean?
    ensures IsLooselyEqual(env, Primitive(p), Primitive(q), log) == Outcome(Normal(EqualPrims(env, p, q)), log)
    decreases p.String?, q.String?
  {
    hide NumOrder;
    NumbersAreSame(env, p, q);
    if p.String? && q.BigInt? {
      PlainPrimitivesAreEqual(env, q, p, log);
    } else if p.BigInt? && q.String? {
      var n := env.stringToBigInt(q.s);
      if n.Some? { PlainPrimitivesAreEqual(env, p, BigInt(n.value), log); }
    } else if p.String? && q.Number? {
      PlainPrimitivesAreEqual(env, Number(env.stringToNumber(p.s)), q, log);
    } else if p.Number? && q.String? {
      PlainPrimitivesAreEqual(env, p, Number(env.stringToNumber(q.s)), log);
    }
  }

  lemma NumbersAreSame(env: Env, p: Prim, q: Prim)
    ensures !p.Symbol? && !q.Symbol? ==>
              (NumOrder(AsNum(env, p), AsNum(env, q)) == Same <==> !AsNum(env, p).NaN? && AsNum(env, p) == AsNum(env, q))
  {
  }

  /** The steps of section 7.2.14 come to that. */
  lemma LooseEqualityMeans(env: Env, x: Value, y: Value, log: seq<nat>)
    ensures IsLooselyEqual(env, x, y, log) == LooseMeaning(env, x, y, log)
  {
    hide EqualPrims;
    if x.Primitive? && y.Primitive? {
      PrimitivesAreEqual(env, x.prim, y.prim, log);
    } else if x.Object? && y.Primitive? {
      ObjectIsConverted(env, x.id, y.prim, log);
    } else if x.Primitive? && y.Object? {
      LooseEqualityIsSymmetric(env, x, y, log);
      ObjectIsConverted(env, y.id, x.prim, log);
    }
  }

  lemma ObjectIsConverted(env: Env, id: nat, p: Prim, log: seq<nat>)
    ensures IsLooselyEqual(env, Object(id), Primitive(p), log) == ConvertedEquals(env, id, p, log)
    decreases p.Boolean?
  {
    hide EqualPrims;
    if p.Boolean? {
      ObjectIsConverted(env, id, Number(Finite(if p.b then 1.0 else 0.0)), log);
      var c := env.convert(id, HintDefault, log);
      if c.Normal? {
        EqualPrimsBothWays(env, p, c.value);
        BooleanIsNumber(env, p.b, c.value);
        EqualPrimsBothWays(env, c.value, Number(Finite(if p.b then 1.0 else 0.0)));
      }
    } else if !p.Undefined? && !p.Null? {
      var c := env.convert(id, HintDefault, log);
      if c.Normal? { PrimitivesAreEqual(env, c.value, p, log + [id]); }
    }
  }

  /** Strict equality is loose equality of two values of one type. */
  lemma StrictEqualityMeans(env: Env, x: Value, y: Value, log: seq<nat>)
    ensures IsStrictlyEqual(x, y) <==> SameType(x, y) && LooseMeaning(env, x, y, log) == Outcome(Normal(true), log)
  {
    LooseEqualityMeans(env, x, y, log);
  }

  /** The evaluation of equality operators in section 13.11.1, which compares the right value with the left. */
  function EqualityMeaning(env: Env, op: Operator, left: Value, right: Value, log: seq<nat>): Outcome<bool>
    requires Rank(op) == 0
  {
    match op
    case StrictEq => Outcome(Normal(IsStrictlyEqual(right, left)), log)
    case StrictNe => Outcome(Normal(!IsStrictlyEqual(right, left)), log)
    case LooseEq => IsLooselyEqual(env, right, left, log)
    case LooseNe =>
      var o := IsLooselyEqual(env, right, left, log);
      Outcome(match o.completion case Normal(b) => Normal(!b) case Throw(e) => Throw(e), o.log)
  }

  /** The equality operators, which the source hands over left value first, mean the same. */
  lemma DispatchMeansEquality(env: Env, op: Operator, left: Value, right: Value, log: seq<nat>)
    requires Rank(op) == 0
    ensures var got, want := Compare(env, op, left, right, log), EqualityMeaning(env, op, left, right, log);
            && got.log == want.log
            && got.completion == match want.completion case Normal(b) => Normal(Some(b)) case Throw(e) => Throw(e)
  {
    LooseEqualityIsSymmetric(env, left, right, log);
  }
}
