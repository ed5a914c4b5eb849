/** The display tokenizer (apps/frontend/src/app/v8-pipeline/lib/tokenize.ts), regex backtracking included. */
module Tokenize {
  import opened JsString
  import opened Optional

  datatype TokenKind =
    | Keyword | Identifier | NumericLiteral | StringLiteral | TemplateLiteral | RegExpLiteral
    | Operator | Punctuator | LineComment | BlockComment | Whitespace

  datatype Token = Token(kind: TokenKind, value: string, start: nat)

  const KEYWORDS: set<string> := {
    "break", "case", "catch", "class", "const", "continue", "debugger", "default", "delete", "do", "else",
    "export", "extends", "false", "finally", "for", "function", "if", "import", "in", "instanceof", "let",
    "new", "null", "of", "return", "static", "super", "switch", "this", "throw", "true", "try", "typeof",
    "undefined", "var", "void", "while", "with", "yield", "async", "await", "from", "as", "get", "set"}

  const OPS3: seq<string> := ["===", "!==", "**=", ">>>", "..."]

  const OPS2: seq<string> := [
    "==", "!=", "<=", ">=", "&&", "||", "??", "**", "++", "--", "+=", "-=", "*=", "/=", "%=", "&=", "|=", "^=",
    "=>", "<<", ">>", "?.", "??=", "||=", "&&="]

  // ---- character classes ---------------------------------------------------------------------------

  predicate Blank(c: char) { c == ' ' || c == '\t' || c == '\n' || c == '\r' }
  predicate Digit10(c: char) { '0' <= c <= '9' }
  predicate Digit16(c: char) { Digit10(c) || 'a' <= c <= 'f' || 'A' <= c <= 'F' || c == '_' }
  predicate Digit2(c: char) { c == '0' || c == '1' || c == '_' }
  predicate Digit8(c: char) { '0' <= c <= '7' || c == '_' }
  predicate Mantissa(c: char) { Digit10(c) || c == '_' || c == '.' }
  predicate WordStart(c: char) { 'a' <= c <= 'z' || 'A' <= c <= 'Z' || c == '_' || c == '$' }
  predicate WordPart(c: char) { WordStart(c) || Digit10(c) }
  predicate NotNewline(c: char) { c != '\n' }
  predicate RegexFlag(c: char) { c in "gimsuyv" }
  predicate IsPunctuator(c: char) { c in "()[]{},.;:" }
  predicate IsOperator(c: char) { c in "+-*/%=!<>&|^~?@#" }

  /** Some token class begins with this character. */
  predicate BeginsToken(c: char) {
    Blank(c) || c == '"' || c == '\'' || c == '`' || Digit10(c) || WordStart(c) || IsPunctuator(c) || IsOperator(c)
  }

  /** source[i], tested; false beyond the end. */
  predicate At(source: string, i: nat, class_: char -> bool) { i < |source| && class_(source[i]) }

  predicate OneOf(source: string, i: nat, chars: string) { i < |source| && source[i] in chars }

  // ---- the scans, as functions ---------------------------------------------------------------------

  function While(source: string, i: nat, class_: char -> bool): (j: nat)
    requires i <= |source|
    ensures i <= j <= |source|
    decreases |source| - i
  {
    if At(source, i, class_) then While(source, i + 1, class_) else i
  }

  /** Past the characters of a quoted literal, escapes in pairs; the result may pass the end by one. */
  function Quoted(source: string, i: nat, quote: char): (j: nat)
    requires i <= |source| + 1
    ensures i <= j <= |source| + 1
    decreases |source| + 1 - i
  {
    if i < |source| && source[i] != quote then Quoted(source, if source[i] == '\\' then i + 2 else i + 1, quote) else i
  }

  function RegexBody(source: string, i: nat): (j: nat)
    requires i <= |source| + 1
    ensures i <= j <= |source| + 1
    decreases |source| + 1 - i
  {
    if i < |source| && source[i] != '/' && source[i] != '\n' then RegexBody(source, if source[i] == '\\' then i + 2 else i + 1) else i
  }

  function BlockBody(source: string, i: nat): (j: nat)
    requires i <= |source|
    ensures i <= j <= |source|
    decreases |source| - i
  {
    if i + 1 < |source| && !(source[i] == '*' && source[i + 1] == '/') then BlockBody(source, i + 1) else i
  }

  function NumberEnd(source: string, i: nat): (j: nat)
    requires At(source, i, Digit10) || (OneOf(source, i, ".") && At(source, i + 1, Digit10))
    ensures i < j <= |source|
  {
    if source[i] == '0' && OneOf(source, i + 1, "xX") then While(source, i + 2, Digit16)
    else if source[i] == '0' && OneOf(source, i + 1, "bB") then While(source, i + 2, Digit2)
    else if source[i] == '0' && OneOf(source, i + 1, "oO") then While(source, i + 2, Digit8)
    else
      var m := While(source, i, Mantissa);
      var e := ExponentEnd(source, m);
      if OneOf(source, e, "n") then e + 1 else e
  }

  function ExponentEnd(source: string, m: nat): (e: nat)
    requires m <= |source|
    ensures m <= e <= |source|
  {
    if OneOf(source, m, "eE") then
      var s := if OneOf(source, m + 1, "+-") then m + 2 else m + 1;
      While(source, s, Digit10)
    else m
  }

  /** The first listed operator that the source continues with. */
  function FindOp(source: string, i: nat, ops: seq<string>): Option<string> {
    if ops == [] then None
    else if StartsWith(source, i, ops[0]) then Some(ops[0])
    else FindOp(source, i, ops[1..])
  }

  predicate StartsWith(source: string, i: nat, word: string) { i + |word| <= |source| && source[i..i + |word|] == word }

  /** An expression may have just ended, so that a slash divides. */
  predicate AfterExpression(last: Option<Token>) {
    last.Some? && (last.value.kind == Identifier || last.value.kind == NumericLiteral
                   || last.value.value in {")", "]", "++", "--"})
  }

  datatype Lexeme = Skip | Lexeme(kind: TokenKind, end: nat)

  /** What starts at `i`: a token and where it ends (possibly past the source), or nothing. */
  function LexemeAt(source: string, i: nat, last: Option<Token>): Lexeme
    requires i < |source|
  {
    var ch := source[i];
    if Blank(ch) then Lexeme(Whitespace, While(source, i, IsSpace))
    else if ch == '/' && OneOf(source, i + 1, "/") then Lexeme(LineComment, While(source, i, NotNewline))
    else if ch == '/' && OneOf(source, i + 1, "*") then Lexeme(BlockComment, BlockBody(source, i + 2) + 2)
    else if ch == '"' || ch == '\'' then Lexeme(StringLiteral, Quoted(source, i + 1, ch) + 1)
    else if ch == '`' then Lexeme(TemplateLiteral, Quoted(source, i + 1, '`') + 1)
    else if Digit10(ch) || (ch == '.' && At(source, i + 1, Digit10)) then Lexeme(NumericLiteral, NumberEnd(source, i))
    else if WordStart(ch) then
      var end := While(source, i, WordPart);
      Lexeme(if source[i..end] in KEYWORDS then Keyword else Identifier, end)
    else if ch == '/' && !AfterExpression(last) && OneOf(source, RegexBody(source, i + 1), "/") then
      Lexeme(RegExpLiteral, While(source, RegexBody(source, i + 1) + 1, RegexFlag))
    else OperatorAt(source, i)
  }

  /** Operators, longest lists first, then single characters; the only place where nothing may start. */
  function OperatorAt(source: string, i: nat): Lexeme
    requires i < |source|
  {
    var op3 := FindOp(source, i, OPS3);
    var op2 := FindOp(source, i, OPS2);
    if op3.Some? then Lexeme(Operator, i + |op3.value|)
    else if op2.Some? then Lexeme(Operator, i + |op2.value|)
    else if IsPunctuator(source[i]) then Lexeme(Punctuator, i + 1)
    else if IsOperator(source[i]) then Lexeme(Operator, i + 1)
    else Skip
  }

  function Clamp(source: string, i: nat): nat { if i <= |source| then i else |source| }

  function TokenOf(source: string, i: nat, x: Lexeme): Token
    requires i < |source| && x.Lexeme? && x.end > i
  {
    Token(x.kind, source[i..Clamp(source, x.end)], i)
  }

  lemma {:induction false} FoundOpIsThere(source: string, i: nat, ops: seq<string>)
    requires forall k :: 0 <= k < |ops| ==> ops[k] != ""
    ensures FindOp(source, i, ops).Some? ==> FindOp(source, i, ops).value != "" && StartsWith(source, i, FindOp(source, i, ops).value)
  {
    if ops != [] { FoundOpIsThere(source, i, ops[1..]); }
  }

  lemma OpsNonEmpty()
    ensures forall k :: 0 <= k < |OPS3| ==> |OPS3[k]| == 3
    ensures forall k :: 0 <= k < |OPS2| ==> 2 <= |OPS2[k]| <= 3
  {
  }

  lemma OperatorProgress(source: string, i: nat)
    requires i < |source|
    ensures var x := OperatorAt(source, i);
            && (x.Lexeme? ==> i < x.end <= |source|)
            && (x.Skip? ==> !IsPunctuator(source[i]) && !IsOperator(source[i]))
  {
    hide IsPunctuator, IsOperator;
    OpsNonEmpty();
    hide OPS3, OPS2;
    FoundOpIsThere(source, i, OPS3);
    FoundOpIsThere(source, i, OPS2);
  }

  /** Every lexeme is at least one character long, and only characters that begin no token are skipped. */
  lemma LexemeProgress(source: string, i: nat, last: Option<Token>)
    requires i < |source|
    ensures var x := LexemeAt(source, i, last);
            && (x.Lexeme? ==> x.end > i)
            && (x.Skip? ==> !BeginsToken(source[i]))
  {
    hide IsPunctuator, IsOperator, Quoted, RegexBody, BlockBody, OperatorAt;
    if Blank(source[i]) { assert IsSpace(source[i]); }
    OperatorProgress(source, i);
  }

  // ---- the token list ------------------------------------------------------------------------------

  /** All tokens from `i` on; white space is not remembered as the last token. */
  function Tokens(source: string, i: nat, last: Option<Token>): seq<Token>
    decreases |source| - i
  {
    if i >= |source| then []
    else
      LexemeProgress(source, i, last);
      match LexemeAt(source, i, last)
      case Skip => Tokens(source, i + 1, last)
      case Lexeme(kind, end) =>
        var t := TokenOf(source, i, Lexeme(kind, end));
        [t] + Tokens(source, end, if kind == Whitespace then last else Some(t))
  }

  function End(t: Token): nat { t.start + |t.value| }

  /** Position `k` lies in some token's text. */
  ghost predicate Covered(tokens: seq<Token>, k: nat) {
    exists j :: 0 <= j < |tokens| && tokens[j].start <= k < End(tokens[j])
  }

  /** The tokens are non-empty slices of the source from `i` on, in order and disjoint, and cover all but
      characters that begin no token. */
  ghost predicate Tiles(source: string, i: nat, tokens: seq<Token>) {
    && (forall j :: 0 <= j < |tokens| ==>
          i <= tokens[j].start && tokens[j].value != "" && End(tokens[j]) <= |source|
          && tokens[j].value == source[tokens[j].start..End(tokens[j])])
    && (forall j, k :: 0 <= j < k < |tokens| ==> End(tokens[j]) <= tokens[k].start)
    && (forall k :: i <= k < |source| && !Covered(tokens, k) ==> !BeginsToken(source[k]))
  }

  lemma {:induction false} TokensTile(source: string, i: nat, last: Option<Token>)
    ensures Tiles(source, i, Tokens(source, i, last))
    decreases |source| - i
  {
    hide LexemeAt, BeginsToken;
    if i < |source| {
      LexemeProgress(source, i, last);
      match LexemeAt(source, i, last) {
        case Skip => TokensTile(source, i + 1, last);
        case Lexeme(kind, end) =>
          var t := TokenOf(source, i, Lexeme(kind, end));
          var after := if kind == Whitespace then last else Some(t);
          TokensTile(source, end, after);
          OneMoreTile(source, i, t, end, Tokens(source, end, after));
      }
    }
  }

  lemma OneMoreTile(source: string, i: nat, t: Token, end: nat, rest: seq<Token>)
    requires i < |source| && i < end && t.start == i && t.value == source[i..Clamp(source, end)] && Tiles(source, end, rest)
    ensures Tiles(source, i, [t] + rest)
  {
    hide BeginsToken;
    var all := [t] + rest;
    assert forall k :: 0 < k < |all| ==> all[k] == rest[k - 1];
    forall k: nat | i <= k < |source| && !Covered(all, k) ensures !BeginsToken(source[k]) {
      assert all[0] == t;
      MoreIsCovered(t, rest, k);
    }
  }

  lemma MoreIsCovered(t: Token, rest: seq<Token>, k: nat)
    ensures Covered(rest, k) ==> Covered([t] + rest, k)
  {
    if Covered(rest, k) {
      var j :| 0 <= j < |rest| && rest[j].start <= k < End(rest[j]);
      assert ([t] + rest)[j + 1] == rest[j];
    }
  }

  /** Tokenizing any source tiles it. */
  lemma TokenizeTiles(source: string)
    ensures Tiles(source, 0, Tokens(source, 0, None))
  {
    TokensTile(source, 0, None);
  }

  // ---- the source's loop ---------------------------------------------------------------------------

  /** Moves on over characters of one class. */
  method ScanWhile(source: string, from: nat, class_: char -> bool) returns (i: nat)
    requires from <= |source|
    ensures i == While(source, from, class_)
  {
    i := from;
    while i < |source| && class_(source[i])
      invariant from <= i <= |source| && While(source, i, class_) == While(source, from, class_)
    {
      i := i + 1;
    }
  }

  method ScanQuoted(source: string, from: nat, quote: char) returns (i: nat)
    requires from <= |source|
    ensures i == Quoted(source, from, quote)
  {
    i := from;
    while i < |source| && source[i] != quote
      invariant from <= i <= |source| + 1 && Quoted(source, i, quote) == Quoted(source, from, quote)
      decreases |source| + 1 - i
    {
      if source[i] == '\\' { i := i + 1; }
      i := i + 1;
    }
  }

  method ScanNumber(source: string, from: nat) returns (i: nat)
    requires At(source, from, Digit10) || (OneOf(source, from, ".") && At(source, from + 1, Digit10))
    ensures i == NumberEnd(source, from)
  {
    i := from;
    if source[i] == '0' && OneOf(source, i + 1, "xX") {
      i := ScanWhile(source, i + 2, Digit16);
    } else if source[i] == '0' && OneOf(source, i + 1, "bB") {
      i := ScanWhile(source, i + 2, Digit2);
    } else if source[i] == '0' && OneOf(source, i + 1, "oO") {
      i := ScanWhile(source, i + 2, Digit8);
    } else {
      i := ScanWhile(source, i, Mantissa);
      if OneOf(source, i, "eE") {
        i := i + 1;
        if OneOf(source, i, "+-") { i := i + 1; }
        i := ScanWhile(source, i, Digit10);
      }
      if OneOf(source, i, "n") { i := i + 1; }
    }
  }

  /** The regex attempt: its end, or None to backtrack and read the slash as an operator. */
  method ScanRegex(source: string, start: nat) returns (end: Option<nat>)
    requires start < |source|
    ensures end == if OneOf(source, RegexBody(source, start + 1), "/")
                   then Some(While(source, RegexBody(source, start + 1) + 1, RegexFlag)) else None
  {
    var i := start + 1;
    while i < |source| && source[i] != '/' && source[i] != '\n'
      invariant i <= |source| + 1 && RegexBody(source, i) == RegexBody(source, start + 1)
      decreases |source| + 1 - i
    {
      if source[i] == '\\' { i := i + 1; }
      i := i + 1;
    }
    if i < |source| && source[i] == '/' {
      var j := ScanWhile(source, i + 1, RegexFlag);
      return Some(j);
    }
    return None;
  }

  method ScanBlock(source: string, from: nat) returns (i: nat)
    requires from <= |source|
    ensures i == BlockBody(source, from)
  {
    i := from;
    while i + 1 < |source| && !(source[i] == '*' && source[i + 1] == '/')
      invariant from <= i <= |source| && BlockBody(source, i) == BlockBody(source, from)
    {
      i := i + 1;
    }
  }

  method MatchOperator(source: string, i: nat, ops: seq<string>) returns (op: Option<string>)
    ensures op == FindOp(source, i, ops)
  {
    for k := 0 to |ops|
      invariant FindOp(source, i, ops[k..]) == FindOp(source, i, ops)
    {
      if StartsWith(source, i, ops[k]) { return Some(ops[k]); }
      assert ops[k..][1..] == ops[k + 1..];
    }
    return None;
  }

  /** One turn of the main loop: the token at `i`, if any, and where to go on. */
  method NextLexeme(source: string, i: nat, last: Option<Token>) returns (x: Lexeme)
    requires i < |source|
    ensures x == LexemeAt(source, i, last)
  {
    hide While, Quoted, RegexBody, BlockBody, NumberEnd, FindOp, KEYWORDS, OPS2, OPS3, WordStart, Blank;
    var ch := source[i];
    var end: nat;
    if Blank(ch) {
      end := ScanWhile(source, i, IsSpace);
      return Lexeme(Whitespace, end);
    }
    if ch == '/' && OneOf(source, i + 1, "/") {
      end := ScanWhile(source, i, NotNewline);
      return Lexeme(LineComment, end);
    }
    if ch == '/' && OneOf(source, i + 1, "*") {
      end := ScanBlock(source, i + 2);
      return Lexeme(BlockComment, end + 2);
    }
    if ch == '"' || ch == '\'' {
      end := ScanQuoted(source, i + 1, ch);
      return Lexeme(StringLiteral, end + 1);
    }
    if ch == '`' {
      end := ScanQuoted(source, i + 1, '`');
      return Lexeme(TemplateLiteral, end + 1);
    }
    if Digit10(ch) || (ch == '.' && At(source, i + 1, Digit10)) {
      end := ScanNumber(source, i);
      return Lexeme(NumericLiteral, end);
    }
    if WordStart(ch) {
      end := ScanWhile(source, i, WordPart);
      return Lexeme(if source[i..end] in KEYWORDS then Keyword else Identifier, end);
    }
    if ch == '/' && !AfterExpression(last) {
      var regex := ScanRegex(source, i);
      if regex.Some? { return Lexeme(RegExpLiteral, regex.value); }
    }
    var op := MatchOperator(source, i, OPS3);
    if op.Some? { return Lexeme(Operator, i + |op.value|); }
    op := MatchOperator(source, i, OPS2);
    if op.Some? { return Lexeme(Operator, i + |op.value|); }
    if IsPunctuator(ch) { return Lexeme(Punctuator, i + 1); }
    if IsOperator(ch) { return Lexeme(Operator, i + 1); }
    return Skip;
  }

  method Tokenize(source: string) returns (tokens: seq<Token>)
    ensures tokens == Tokens(source, 0, None)
    ensures Tiles(source, 0, tokens)
  {
    hide LexemeAt, Tiles;
    tokens := [];
    var i: nat := 0;
    var last: Option<Token> := None;
    while i < |source|
      invariant tokens + Tokens(source, i, last) == Tokens(source, 0, None)
      decreases |source| - i
    {
      LexemeProgress(source, i, last);
      var x := NextLexeme(source, i, last);
      if x.Skip? {
        i := i + 1;
      } else {
        var t := TokenOf(source, i, x);
        ghost var rest := Tokens(source, x.end, if x.kind == Whitespace then last else Some(t));
        assert tokens + ([t] + rest) == (tokens + [t]) + rest;
        tokens := tokens + [t];
        if x.kind != Whitespace { last := Some(t); }
        i := x.end;
      }
    }
    assert tokens + [] == tokens;
    TokenizeTiles(source);
  }
}
