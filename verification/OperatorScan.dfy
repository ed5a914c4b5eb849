/**
 * Finding the operator of a binary expression (apps/trace-service/src/server/execute/parse.ts).
 *
 * The reference is a lexer that reads one character at a time: `ModeAt(input, k)` says what the
 * character at `k` is part of (code at some bracket depth, a string, a regex literal, the rest of an
 * operator).  `DetectOperator` is the source's one-pass scanner, which jumps over literals and keeps
 * three candidates; it is proved to return the last operator of the loosest class among all the
 * operators the lexer sees at depth 0.
 */
module OperatorScan {
  import opened JsString
  import opened Numbers
  import opened Optional

  datatype Operator = StrictEq | StrictNe | LooseEq | LooseNe | LessEq | GreaterEq | Less | Greater | Plus

  datatype Hit = Hit(operator: Operator, index: nat)

  function Spelling(op: Operator): (s: string)
    ensures 1 <= |s| <= 3
  {
    match op
    case StrictEq => "===" case StrictNe => "!==" case LooseEq => "==" case LooseNe => "!="
    case LessEq => "<=" case GreaterEq => ">=" case Less => "<" case Greater => ">"
    case Plus => "+"
  }

  /** Binding strength, loosest first: equality, relational, additive (ECMA-262 sections 13.8 to 13.11). */
  function Rank(op: Operator): nat {
    match op
    case StrictEq | StrictNe | LooseEq | LooseNe => 0
    case LessEq | GreaterEq | Less | Greater => 1
    case Plus => 2
  }

  // ---- character classes -------------------------------------------------------------------

  predicate IsDigit(c: char) { '0' <= c <= '9' }

  predicate IsLetter(c: char) { 'a' <= c <= 'z' || 'A' <= c <= 'Z' }

  predicate IsIdentChar(c: char) { IsLetter(c) || IsDigit(c) || c == '_' || c == '$' }

  predicate IsNumberChar(c: char) { IsDigit(c) || c == '_' }

  predicate IsOperandExpected(c: char) { c in "+-*/%<>=!&|^~([{,:?;" }

  predicate IsQuote(c: char) { c == '"' || c == '\'' || c == '`' }

  predicate IsOpen(c: char) { c == '(' || c == '[' || c == '{' }

  predicate IsClose(c: char) { c == ')' || c == ']' || c == '}' }

  const WORD_UNARY: set<string> := {"typeof", "void", "delete", "new", "in", "instanceof", "await", "yield"}

  // ---- is an operand due here? -------------------------------------------------------------

  /** The last position at or before `i` whose character is not in the class, or -1. */
  function SkipBack(input: string, i: int, class_: char -> bool): (j: int)
    requires -1 <= i < |input|
    ensures -1 <= j <= i
    decreases i + 1
  {
    if i < 0 || !class_(input[i]) then i else SkipBack(input, i - 1, class_)
  }

  lemma {:induction false} SkipBackMeans(input: string, i: int, class_: char -> bool)
    requires -1 <= i < |input|
    ensures var j := SkipBack(input, i, class_);
            && (forall k :: j < k <= i ==> class_(input[k]))
            && (j >= 0 ==> !class_(input[j]))
    decreases i + 1
  {
    if i >= 0 && class_(input[i]) { SkipBackMeans(input, i - 1, class_); }
  }

  /** Position `i` holds the e of an unfinished exponent, as in `1.5e`. */
  predicate ExponentMark(input: string, i: int)
    requires 0 <= i < |input|
  {
    && (input[i] == 'e' || input[i] == 'E')
    && var j := SkipBack(input, i - 1, IsNumberChar);
       var k := if j >= 0 && input[j] == '.' then SkipBack(input, j - 1, IsNumberChar) else j;
       k < i - 1 && (k < 0 || !IsIdentChar(input[k]))
  }

  /** The word ending at `i` is a unary (or otherwise operand-taking) keyword. */
  predicate UnaryWord(input: string, i: int)
    requires 0 <= i < |input|
  {
    && (IsLetter(input[i]) || input[i] == '_' || input[i] == '$')
    && input[SkipBack(input, i, IsIdentChar) + 1..i + 1] in WORD_UNARY
  }

  predicate UnaryPosition(input: string, index: nat)
    requires index <= |input|
  {
    var i := SkipBack(input, index - 1, IsSpace);
    i < 0 || IsOperandExpected(input[i]) || ExponentMark(input, i) || UnaryWord(input, i)
  }

  // ---- the reference lexer -----------------------------------------------------------------

  datatype Mode =
    | Code(depth: int)
    | InString(quote: char, depth: int)
    | StringEscape(quote: char, depth: int)
    | InRegex(inClass: bool, depth: int)
    | RegexEscape(inClass: bool, depth: int)
    | RegexFlags(depth: int)
    | InOperator(rest: nat)     // at depth 0, with this many characters still to come

  predicate StartsAt(input: string, k: nat, word: string) {
    k + |word| <= |input| && forall i :: k <= i < k + |word| ==> input[i] == word[i - k]
  }

  /** The operator that code at depth 0 begins at `k`, longest spelling first. */
  function OperatorAt(input: string, k: nat): Option<Operator>
    requires k < |input|
  {
    if StartsAt(input, k, "=>") then None
    else if StartsAt(input, k, "===") then Some(StrictEq)
    else if StartsAt(input, k, "!==") then Some(StrictNe)
    else if StartsAt(input, k, "==") then Some(LooseEq)
    else if StartsAt(input, k, "!=") then Some(LooseNe)
    else if StartsAt(input, k, "<=") then Some(LessEq)
    else if StartsAt(input, k, ">=") then Some(GreaterEq)
    else if StartsAt(input, k, "<") then Some(Less)
    else if StartsAt(input, k, ">") then Some(Greater)
    else if StartsAt(input, k, "+") && !StartsAt(input, k, "++") && !UnaryPosition(input, k) then Some(Plus)
    else None
  }

  function AfterToken(length: nat): Mode {
    if length <= 1 then Code(0) else InOperator(length - 1)
  }

  /** Reading the character at `k` as code. */
  function ReadCode(input: string, k: nat, depth: int): Mode
    requires k < |input|
  {
    var c := input[k];
    if IsQuote(c) then InString(c, depth)
    else if c == '/' && UnaryPosition(input, k) then InRegex(false, depth)
    else if IsOpen(c) then Code(depth + 1)
    else if IsClose(c) then Code(depth - 1)
    else if depth == 0 && StartsAt(input, k, "=>") then AfterToken(2)
    else if depth == 0 && OperatorAt(input, k).Some? then AfterToken(|Spelling(OperatorAt(input, k).value)|)
    else Code(depth)
  }

  function Read(input: string, k: nat, mode: Mode): Mode
    requires k < |input|
  {
    var c := input[k];
    match mode
    case Code(d) => ReadCode(input, k, d)
    case InString(q, d) => if c == '\\' then StringEscape(q, d) else if c == q then Code(d) else mode
    case StringEscape(q, d) => InString(q, d)
    case InRegex(inClass, d) =>
      if c == '\\' then RegexEscape(inClass, d)
      else if c == '[' then InRegex(true, d)
      else if c == ']' then InRegex(false, d)
      else if c == '/' && !inClass then RegexFlags(d)
      else mode
    case RegexEscape(inClass, d) => InRegex(inClass, d)
    case RegexFlags(d) => if IsLetter(c) then mode else ReadCode(input, k, d)
    case InOperator(n) => AfterToken(n)
  }

  function ModeAt(input: string, k: nat): Mode
    requires k <= |input|
  {
    if k == 0 then Code(0) else Read(input, k - 1, ModeAt(input, k - 1))
  }

  /** The character at `k` is read as code at depth 0. */
  predicate TopLevel(input: string, k: nat)
    requires k < |input|
  {
    ModeAt(input, k) == Code(0) || (ModeAt(input, k) == RegexFlags(0) && !IsLetter(input[k]))
  }

  /** The operator the lexer sees starting at `k`, outside brackets, strings and regex literals. */
  function HitAt(input: string, k: nat): Option<Operator>
    requires k < |input|
  {
    if TopLevel(input, k) then OperatorAt(input, k) else None
  }

  /** `r` is the last operator of the loosest class present, or nothing when there is none. */
  ghost predicate IsRoot(input: string, r: Option<Hit>) {
    match r
    case None => forall k :: 0 <= k < |input| ==> HitAt(input, k).None?
    case Some(hit) =>
      && hit.index < |input| && HitAt(input, hit.index) == Some(hit.operator)
      && forall k :: 0 <= k < |input| && HitAt(input, k).Some? ==>
           || Rank(HitAt(input, k).value) > Rank(hit.operator)
           || (Rank(HitAt(input, k).value) == Rank(hit.operator) && k <= hit.index)
  }

  /** A root determines everything: two answers for one input are the same. */
  lemma RootIsUnique(input: string, a: Option<Hit>, b: Option<Hit>)
    requires IsRoot(input, a) && IsRoot(input, b)
    ensures a == b
  {
    if a.Some? && b.Some? {
      assert HitAt(input, a.value.index).Some? && HitAt(input, b.value.index).Some?;
    }
  }

  /** A hit spells its operator, so cutting it out leaves the two operands. */
  lemma HitSplitsInput(input: string, k: nat)
    requires k < |input| && HitAt(input, k).Some?
    ensures var op := Spelling(HitAt(input, k).value);
            k + |op| <= |input| && input == input[..k] + op + input[k + |op|..]
  {
    var op := Spelling(HitAt(input, k).value);
    assert StartsAt(input, k, op);
    assert input[k..k + |op|] == op;
  }

  // ---- the source's scanner ----------------------------------------------------------------

  method IsUnaryPosition(input: string, index: nat) returns (b: bool)
    requires index <= |input|
    ensures b == UnaryPosition(input, index)
  {
    hide ExponentMark, UnaryWord, IsOperandExpected;
    var i := index - 1;
    while i >= 0 && IsSpace(input[i])
      invariant -1 <= i < |input|
      invariant SkipBack(input, index - 1, IsSpace) == SkipBack(input, i, IsSpace)
    {
      i := i - 1;
    }
    if i < 0 { return true; }
    var prev := input[i];
    if IsOperandExpected(prev) { return true; }
    if prev == 'e' || prev == 'E' {
      var exponent := InExponent(input, i);
      if exponent { return true; }
    } else {
      assert !ExponentMark(input, i) by { NoExponent(input, i); }
    }
    b := EndsUnaryWord(input, i);
  }

  lemma NoExponent(input: string, i: nat)
    requires i < |input| && input[i] != 'e' && input[i] != 'E'
    ensures !ExponentMark(input, i)
  {
  }

  /** The word test of `IsUnaryPosition`, for the character at `i`. */
  method EndsUnaryWord(input: string, i: nat) returns (b: bool)
    requires i < |input|
    ensures b == UnaryWord(input, i)
  {
    var prev := input[i];
    if !(IsLetter(prev) || prev == '_' || prev == '$') { return false; }
    var start := i;
    while start >= 0 && IsIdentChar(input[start])
      invariant -1 <= start <= i
      invariant SkipBack(input, i, IsIdentChar) == SkipBack(input, start, IsIdentChar)
    {
      start := start - 1;
    }
    return input[start + 1..i + 1] in WORD_UNARY;
  }

  /** The exponent test of `IsUnaryPosition`: digits, then perhaps a point and more digits, before the e at `i`. */
  method InExponent(input: string, i: nat) returns (b: bool)
    requires i < |input| && (input[i] == 'e' || input[i] == 'E')
    ensures b == ExponentMark(input, i)
  {
    var j := i - 1;
    var digitsStart := j;
    while j >= 0 && IsNumberChar(input[j])
      invariant -1 <= j < i
      invariant SkipBack(input, i - 1, IsNumberChar) == SkipBack(input, j, IsNumberChar)
    {
      j := j - 1;
    }
    if j >= 0 && input[j] == '.' {
      j := j - 1;
      ghost var dot := j;
      while j >= 0 && IsNumberChar(input[j])
        invariant -1 <= j <= dot
        invariant SkipBack(input, dot, IsNumberChar) == SkipBack(input, j, IsNumberChar)
      {
        j := j - 1;
      }
    }
    var sawDigits := j < digitsStart;
    var tokenStartsHere := j < 0 || !IsIdentChar(input[j]);
    return sawDigits && tokenStartsHere;
  }

  /** Positions of a regex literal after its opening slash. */
  predicate InsideRegex(input: string, k: nat, depth: int)
    requires k < |input|
  {
    match ModeAt(input, k)
    case InRegex(_, d) => d == depth
    case RegexEscape(_, d) => d == depth
    case RegexFlags(d) => d == depth && IsLetter(input[k])
    case _ => false
  }

  /** One character (two, after a backslash) inside the body of a regex literal. */
  lemma RegexBody(input: string, i: nat, inClass: bool, depth: int)
    requires i < |input| && ModeAt(input, i) == InRegex(inClass, depth)
    ensures InsideRegex(input, i, depth)
    ensures input[i] == '\\' ==>
              && (i + 1 < |input| ==> InsideRegex(input, i + 1, depth))
              && (i + 2 <= |input| ==> ModeAt(input, i + 2) == InRegex(inClass, depth))
    ensures input[i] != '\\' ==>
              ModeAt(input, i + 1) == (if input[i] == '[' then InRegex(true, depth)
                                       else if input[i] == ']' then InRegex(false, depth)
                                       else if input[i] == '/' && !inClass then RegexFlags(depth)
                                       else InRegex(inClass, depth))
  {
    hide ReadCode;
    assert ModeAt(input, i + 1) == Read(input, i, InRegex(inClass, depth));
    if i + 2 <= |input| { assert ModeAt(input, i + 2) == Read(input, i + 1, ModeAt(input, i + 1)); }
  }

  lemma RegexTail(input: string, i: nat, depth: int)
    requires i < |input| && ModeAt(input, i) == RegexFlags(depth) && IsLetter(input[i])
    ensures InsideRegex(input, i, depth) && ModeAt(input, i + 1) == RegexFlags(depth)
  {
    hide ReadCode;
  }

  method SkipRegexLiteral(input: string, index: nat, ghost depth: int) returns (j: nat)
    requires index < |input| && ModeAt(input, index + 1) == InRegex(false, depth)
    ensures index < j
    ensures forall k :: index < k < j && k < |input| ==> InsideRegex(input, k, depth)
    ensures j < |input| ==> ModeAt(input, j) == RegexFlags(depth) && !IsLetter(input[j])
  {
    hide InsideRegex, ModeAt;
    var i := index + 1;
    var inClass := false;
    while i < |input|
      invariant index < i
      invariant i <= |input| ==> ModeAt(input, i) == InRegex(inClass, depth)
      invariant forall k :: index < k < i && k < |input| ==> InsideRegex(input, k, depth)
    {
      var ch := input[i];
      RegexBody(input, i, inClass, depth);
      if ch == '\\' {
        i := i + 2;
        continue;
      }
      if ch == '[' {
        inClass := true;
      } else if ch == ']' {
        inClass := false;
      } else if ch == '/' && !inClass {
        i := i + 1;
        break;
      }
      i := i + 1;
    }
    while i < |input| && IsLetter(input[i])
      invariant index < i
      invariant i < |input| ==> ModeAt(input, i) == RegexFlags(depth)
      invariant forall k :: index < k < i && k < |input| ==> InsideRegex(input, k, depth)
    {
      RegexTail(input, i, depth);
      i := i + 1;
    }
    return i;
  }

  lemma RegexHasNoHit(input: string, index: nat, j: nat, depth: int)
    requires index < |input| && input[index] == '/'
    requires forall k :: index < k < j && k < |input| ==> InsideRegex(input, k, depth)
    ensures forall k :: index <= k < j && k < |input| ==> HitAt(input, k).None?
  {
    hide OperatorAt;
    forall k | index <= k < j && k < |input| ensures HitAt(input, k).None? {
      if k == index {
        if OperatorAt(input, k).Some? { OperatorStarts(input, k); }
      } else {
        assert InsideRegex(input, k, depth);
      }
    }
  }

  /** The last hit of one class before position `n`. */
  function LastHit(input: string, n: nat, rank: nat): Option<Hit>
    requires n <= |input|
  {
    if n == 0 then None
    else match HitAt(input, n - 1)
         case Some(op) => if Rank(op) == rank then Some(Hit(op, n - 1)) else LastHit(input, n - 1, rank)
         case None => LastHit(input, n - 1, rank)
  }

  lemma {:induction false} LastHitMeans(input: string, n: nat, rank: nat)
    requires n <= |input|
    ensures match LastHit(input, n, rank)
            case None => forall k :: 0 <= k < n && HitAt(input, k).Some? ==> Rank(HitAt(input, k).value) != rank
            case Some(hit) =>
              && hit.index < n && HitAt(input, hit.index) == Some(hit.operator) && Rank(hit.operator) == rank
              && forall k :: hit.index < k < n && HitAt(input, k).Some? ==> Rank(HitAt(input, k).value) != rank
  {
    hide HitAt;
    if n > 0 { LastHitMeans(input, n - 1, rank); }
  }

  lemma {:induction false} LastHitSkips(input: string, m: nat, n: nat, rank: nat)
    requires m <= n <= |input|
    requires forall k :: m <= k < n ==> HitAt(input, k).None?
    ensures LastHit(input, n, rank) == LastHit(input, m, rank)
  {
    hide HitAt;
    if m < n { LastHitSkips(input, m, n - 1, rank); }
  }

  /** The three candidates are the last hits of the three classes before `i`. */
  ghost predicate Candidates(input: string, i: nat, equality: Option<Hit>, relational: Option<Hit>, additive: Option<Hit>) {
    var n := Min(i, |input|);
    equality == LastHit(input, n, 0) && relational == LastHit(input, n, 1) && additive == LastHit(input, n, 2)
  }

  /** An operator at `i` replaces the candidate of its class. */
  lemma CandidatesTake(input: string, i: nat, op: Operator, equality: Option<Hit>, relational: Option<Hit>, additive: Option<Hit>)
    requires i < |input| && HitAt(input, i) == Some(op) && Candidates(input, i, equality, relational, additive)
    ensures var hit := Some(Hit(op, i));
            Candidates(input, i + 1,
                       if Rank(op) == 0 then hit else equality,
                       if Rank(op) == 1 then hit else relational,
                       if Rank(op) == 2 then hit else additive)
  {
    hide HitAt;
  }

  /** equality ?? relational ?? additive, once all of the input is behind. */
  lemma LoosestIsRoot(input: string, i: nat, equality: Option<Hit>, relational: Option<Hit>, additive: Option<Hit>)
    requires i >= |input| && Candidates(input, i, equality, relational, additive)
    ensures IsRoot(input, if equality.Some? then equality else if relational.Some? then relational else additive)
  {
    hide HitAt;
    LastHitMeans(input, |input|, 0);
    LastHitMeans(input, |input|, 1);
    LastHitMeans(input, |input|, 2);
  }

  lemma ArrowIsNoOperator(input: string, i: nat)
    requires i < |input| && StartsAt(input, i, "=>")
    ensures OperatorAt(input, i).None?
  {
  }

  /** Moving on over positions without a hit keeps the candidates. */
  lemma CandidatesSkip(input: string, i: nat, j: nat, equality: Option<Hit>, relational: Option<Hit>, additive: Option<Hit>)
    requires i <= j && i <= |input| && Candidates(input, i, equality, relational, additive)
    requires forall k :: i <= k < j && k < |input| ==> HitAt(input, k).None?
    ensures Candidates(input, j, equality, relational, additive)
  {
    LastHitSkips(input, i, Min(j, |input|), 0);
    LastHitSkips(input, i, Min(j, |input|), 1);
    LastHitSkips(input, i, Min(j, |input|), 2);
  }

  /** Past a token's first character the lexer only counts the rest of it down. */
  lemma {:induction false} TokenRest(input: string, i: nat, n: nat, j: nat)
    requires 1 <= n && i + n <= |input| && ModeAt(input, i + 1) == AfterToken(n) && 1 <= j <= n
    ensures ModeAt(input, i + j) == AfterToken(n - j + 1)
    ensures forall k :: i < k < i + j && k < |input| ==> HitAt(input, k).None?
  {
    hide OperatorAt, ReadCode;
    if j > 1 { TokenRest(input, i, n, j - 1); }
  }

  /** The scanner agrees with the lexer at `i` and has the right candidates for what lies before. */
  ghost predicate Scanning(input: string, i: nat, inString: Option<char>, depth: int,
                           equality: Option<Hit>, relational: Option<Hit>, additive: Option<Hit>)
  {
    && Candidates(input, i, equality, relational, additive)
    && (i < |input| ==>
          match inString
          case Some(q) => ModeAt(input, i) == InString(q, depth)
          case None => ReadingCode(input, i, depth))
  }

  ghost predicate ReadingCode(input: string, i: nat, depth: int)
    requires i < |input|
  {
    ModeAt(input, i) == Code(depth) || (ModeAt(input, i) == RegexFlags(depth) && !IsLetter(input[i]))
  }

  lemma ScanString(input: string, i: nat, q: char, depth: int, e: Option<Hit>, l: Option<Hit>, a: Option<Hit>)
    requires i < |input| && Scanning(input, i, Some(q), depth, e, l, a)
    ensures input[i] == '\\' ==> Scanning(input, i + 2, Some(q), depth, e, l, a)
    ensures input[i] != '\\' ==> Scanning(input, i + 1, if input[i] == q then None else Some(q), depth, e, l, a)
  {
    hide OperatorAt, ReadCode, Candidates;
    if input[i] == '\\' {
      assert ModeAt(input, i + 1) == StringEscape(q, depth);
      CandidatesSkip(input, i, i + 2, e, l, a);
    } else {
      CandidatesSkip(input, i, i + 1, e, l, a);
    }
  }

  /** A code character that is neither a slash nor, at depth 0, the start of an operator. */
  lemma ScanPlain(input: string, i: nat, depth: int, e: Option<Hit>, l: Option<Hit>, a: Option<Hit>)
    requires i < |input| && Scanning(input, i, None, depth, e, l, a)
    requires input[i] == '/' ==> !UnaryPosition(input, i)
    requires depth == 0 ==> OperatorAt(input, i).None? && !StartsAt(input, i, "=>")
    ensures var c := input[i];
            Scanning(input, i + 1, if IsQuote(c) then Some(c) else None,
                     if IsOpen(c) then depth + 1 else if IsClose(c) then depth - 1 else depth, e, l, a)
  {
    hide OperatorAt, Candidates, UnaryPosition;
    CandidatesSkip(input, i, i + 1, e, l, a);
  }

  /** A quote or bracket never begins an operator. */
  lemma ScanDelimiter(input: string, i: nat)
    requires i < |input| && (IsQuote(input[i]) || IsOpen(input[i]) || IsClose(input[i]) || input[i] == '/')
    ensures OperatorAt(input, i).None? && !StartsAt(input, i, "=>")
  {
    hide OperatorAt;
    Spellings(input, i);
    if OperatorAt(input, i).Some? { OperatorStarts(input, i); }
  }

  lemma ScanRegex(input: string, i: nat, j: nat, depth: int, e: Option<Hit>, l: Option<Hit>, a: Option<Hit>)
    requires i < |input| && i < j && input[i] == '/' && Scanning(input, i, None, depth, e, l, a)
    requires forall k :: i < k < j && k < |input| ==> InsideRegex(input, k, depth)
    requires j < |input| ==> ModeAt(input, j) == RegexFlags(depth) && !IsLetter(input[j])
    ensures Scanning(input, j, None, depth, e, l, a)
  {
    hide HitAt, InsideRegex;
    RegexHasNoHit(input, i, j, depth);
    CandidatesSkip(input, i, j, e, l, a);
  }

  lemma ScanArrow(input: string, i: nat, e: Option<Hit>, l: Option<Hit>, a: Option<Hit>)
    requires i < |input| && Scanning(input, i, None, 0, e, l, a) && StartsAt(input, i, "=>")
    ensures Scanning(input, i + 2, None, 0, e, l, a)
  {
    hide OperatorAt, Candidates, UnaryPosition;
    ArrowIsNoOperator(input, i);
    Spellings(input, i);
    assert ModeAt(input, i + 1) == AfterToken(2);
    TokenRest(input, i, 2, 2);
    CandidatesSkip(input, i, i + 2, e, l, a);
  }

  lemma ScanOperator(input: string, i: nat, op: Operator, e: Option<Hit>, l: Option<Hit>, a: Option<Hit>)
    requires i < |input| && Scanning(input, i, None, 0, e, l, a) && OperatorAt(input, i) == Some(op)
    ensures var hit := Some(Hit(op, i));
            Scanning(input, i + |Spelling(op)|, None, 0,
                     if Rank(op) == 0 then hit else e,
                     if Rank(op) == 1 then hit else l,
                     if Rank(op) == 2 then hit else a)
  {
    hide Candidates, OperatorAt, ModeAt;
    var n := |Spelling(op)|;
    OperatorReads(input, i, op);
    TokenRest(input, i, n, n);
    CandidatesTake(input, i, op, e, l, a);
    var hit := Some(Hit(op, i));
    CandidatesSkip(input, i + 1, i + n, if Rank(op) == 0 then hit else e,
                   if Rank(op) == 1 then hit else l, if Rank(op) == 2 then hit else a);
  }

  lemma OperatorReads(input: string, i: nat, op: Operator)
    requires i < |input| && ReadingCode(input, i, 0) && OperatorAt(input, i) == Some(op)
    ensures ModeAt(input, i + 1) == AfterToken(|Spelling(op)|) && i + |Spelling(op)| <= |input|
    ensures StartsAt(input, i, Spelling(op))
  {
    hide UnaryPosition;
    OperatorStarts(input, i);
    Spellings(input, i);
  }

  method DetectOperator(input: string) returns (r: Option<Hit>)
    ensures IsRoot(input, r)
  {
    hide Scanning, UnaryPosition, OperatorAt, IsRoot, ModeAt, Candidates, InsideRegex;
    var len := |input|;
    var i: nat := 0;
    var inString: Option<char> := None;
    var depth := 0;
    var equality: Option<Hit>, relational: Option<Hit>, additive: Option<Hit> := None, None, None;
    ScanStart(input);

    while i < len
      invariant Scanning(input, i, inString, depth, equality, relational, additive)
      decreases len - i
    {
      var ch := input[i];
      if inString.Some? {
        ScanString(input, i, inString.value, depth, equality, relational, additive);
        if ch == '\\' {
          i := i + 2;
          continue;
        }
        if ch == inString.value { inString := None; }
        i := i + 1;
        continue;
      }
      if IsQuote(ch) {
        ScanDelimiter(input, i);
        ScanPlain(input, i, depth, equality, relational, additive);
        inString := Some(ch);
        i := i + 1;
        continue;
      }
      if ch == '/' {
        var unary := IsUnaryPosition(input, i);
        if unary {
          RegexOpens(input, i, depth, equality, relational, additive);
          var j := SkipRegexLiteral(input, i, depth);
          ScanRegex(input, i, j, depth, equality, relational, additive);
          i := j;
          continue;
        }
      }
      if IsOpen(ch) {
        ScanDelimiter(input, i);
        ScanPlain(input, i, depth, equality, relational, additive);
        depth := depth + 1;
        i := i + 1;
        continue;
      }
      if IsClose(ch) {
        ScanDelimiter(input, i);
        ScanPlain(input, i, depth, equality, relational, additive);
        depth := depth - 1;
        i := i + 1;
        continue;
      }
      if depth == 0 {
        if StartsAt(input, i, "=>") {
          ScanArrow(input, i, equality, relational, additive);
          i := i + 2;
          continue;
        }
        ghost var e, l, a := equality, relational, additive;
        var op := None;
        if ch == '=' || ch == '!' {
          op := FindEquality(input, i);
          if op.Some? { equality := Some(Hit(op.value, i)); }
        }
        if op.None? && (ch == '<' || ch == '>') {
          op := FindRelational(input, i);
          if op.Some? { relational := Some(Hit(op.value, i)); }
        }
        if op.None? && ch == '+' && !(i + 1 < len && input[i + 1] == ch) {
          var unary := IsUnaryPosition(input, i);
          if !unary {
            op := Some(Plus);
            additive := Some(Hit(Plus, i));
          }
        }
        FoundOperator(input, i, op);
        if op.Some? {
          ScanOperator(input, i, op.value, e, l, a);
          i := i + |Spelling(op.value)|;
          continue;
        }
      }
      ScanPlain(input, i, depth, equality, relational, additive);
      i := i + 1;
    }
    ScanEnd(input, i, inString, depth, equality, relational, additive);
    LoosestIsRoot(input, i, equality, relational, additive);
    return if equality.Some? then equality else if relational.Some? then relational else additive;
  }

  lemma ScanStart(input: string)
    ensures Scanning(input, 0, None, 0, None, None, None)
  {
  }

  lemma ScanEnd(input: string, i: nat, inString: Option<char>, depth: int, e: Option<Hit>, l: Option<Hit>, a: Option<Hit>)
    requires Scanning(input, i, inString, depth, e, l, a)
    ensures Candidates(input, i, e, l, a)
  {
  }

  lemma RegexOpens(input: string, i: nat, depth: int, e: Option<Hit>, l: Option<Hit>, a: Option<Hit>)
    requires i < |input| && input[i] == '/' && UnaryPosition(input, i) && Scanning(input, i, None, depth, e, l, a)
    ensures ModeAt(input, i + 1) == InRegex(false, depth)
  {
    hide UnaryPosition;
  }

  /** Every spelling, character by character. */
  lemma Spellings(input: string, k: nat)
    requires k < |input|
    ensures StartsAt(input, k, "===") <==> k + 2 < |input| && input[k] == '=' && input[k + 1] == '=' && input[k + 2] == '='
    ensures StartsAt(input, k, "!==") <==> k + 2 < |input| && input[k] == '!' && input[k + 1] == '=' && input[k + 2] == '='
    ensures StartsAt(input, k, "==") <==> k + 1 < |input| && input[k] == '=' && input[k + 1] == '='
    ensures StartsAt(input, k, "!=") <==> k + 1 < |input| && input[k] == '!' && input[k + 1] == '='
    ensures StartsAt(input, k, "=>") <==> k + 1 < |input| && input[k] == '=' && input[k + 1] == '>'
    ensures StartsAt(input, k, "<=") <==> k + 1 < |input| && input[k] == '<' && input[k + 1] == '='
    ensures StartsAt(input, k, ">=") <==> k + 1 < |input| && input[k] == '>' && input[k + 1] == '='
    ensures StartsAt(input, k, "++") <==> k + 1 < |input| && input[k] == '+' && input[k + 1] == '+'
    ensures StartsAt(input, k, "<") <==> input[k] == '<'
    ensures StartsAt(input, k, ">") <==> input[k] == '>'
    ensures StartsAt(input, k, "+") <==> input[k] == '+'
  {
  }

  /** Only these characters can begin an operator. */
  lemma OperatorStarts(input: string, k: nat)
    requires k < |input| && OperatorAt(input, k).Some?
    ensures input[k] in "=!<>+"
  {
    hide UnaryPosition;
    Spellings(input, k);
  }

  /** What the three searches find together is what starts at `i`. */
  lemma FoundOperator(input: string, i: nat, op: Option<Operator>)
    requires i < |input| && !StartsAt(input, i, "=>")
    requires op == if input[i] == '=' || input[i] == '!' then FindEquality(input, i)
                   else if input[i] == '<' || input[i] == '>' then FindRelational(input, i)
                   else if input[i] == '+' && !(i + 1 < |input| && input[i + 1] == '+') && !UnaryPosition(input, i) then Some(Plus)
                   else None
    ensures op == OperatorAt(input, i)
    ensures op.Some? ==> i + |Spelling(op.value)| <= |input|
  {
    hide UnaryPosition;
    Spellings(input, i);
  }

  /** The first equality spelling, in the table's order, that stands at `i`. */
  function FindEquality(input: string, i: nat): (op: Option<Operator>)
    ensures op.Some? ==> Rank(op.value) == 0
  {
    if StartsAt(input, i, "===") then Some(StrictEq)
    else if StartsAt(input, i, "!==") then Some(StrictNe)
    else if StartsAt(input, i, "==") then Some(LooseEq)
    else if StartsAt(input, i, "!=") then Some(LooseNe)
    else None
  }

  function FindRelational(input: string, i: nat): (op: Option<Operator>)
    ensures op.Some? ==> Rank(op.value) == 1
  {
    if StartsAt(input, i, "<=") then Some(LessEq)
    else if StartsAt(input, i, ">=") then Some(GreaterEq)
    else if StartsAt(input, i, "<") then Some(Less)
    else if StartsAt(input, i, ">") then Some(Greater)
    else None
  }
}
