/** What each token of the display tokenizer is: its text fits its kind, and it is as long as it can be. */
module TokenKinds {
  import opened JsString
  import opened Optional
  import opened Tokenize

  // ---- the spelling of each kind -------------------------------------------------------------------------

  /** The inside of a literal that `quote` closes: every such character in it is escaped, escapes in pairs. */
  predicate Inside(body: string, quote: char) {
    body == "" || (if body[0] == '\\' then |body| > 1 && Inside(body[2..], quote) else body[0] != quote && Inside(body[1..], quote))
  }

  /** From its opening quote to the first quote that is not escaped, or to the end of the source. */
  ghost predicate IsLiteral(source: string, t: Token, quote: char) {
    && t.value != "" && t.value[0] == quote
    && (End(t) == |source| || exists body :: t.value == [quote] + body + [quote] && Inside(body, quote))
  }

  /** A regex body, in one line but for escaped line feeds. */
  predicate InsideRegex(body: string) {
    body == "" || (if body[0] == '\\' then |body| > 1 && InsideRegex(body[2..])
                   else body[0] != '/' && body[0] != '\n' && InsideRegex(body[1..]))
  }

  predicate Digit(c: char) { '0' <= c <= '9' }

  predicate Letter(c: char) { 'a' <= c <= 'z' || 'A' <= c <= 'Z' || c == '_' || c == '$' }

  predicate Flags(s: string) { forall i :: 0 <= i < |s| ==> s[i] in "gimsuyv" }

  /** The token before may end an expression: a name, a number, a closing bracket or a step. */
  ghost predicate EndsExpression(last: Option<Token>) {
    last.Some? && (last.value.kind in {Identifier, NumericLiteral} || last.value.value in {")", "]", "++", "--"})
  }

  /** A plain space, tab or line break, then any white space as far as it goes. */
  predicate IsGap(source: string, t: Token) {
    && t.value != "" && (t.value[0] == ' ' || t.value[0] == '\t' || t.value[0] == '\n' || t.value[0] == '\r')
    && Spaces(t.value) && (End(t) < |source| ==> !IsSpace(source[End(t)]))
  }

  /** Two slashes and the rest of the line. */
  predicate IsLine(source: string, t: Token) {
    "//" <= t.value && '\n' !in t.value && (End(t) < |source| ==> source[End(t)] == '\n')
  }

  /** To the first closing mark, or to the end of the source. */
  predicate IsBlock(source: string, t: Token) {
    var v := t.value;
    && "/*" <= v && (forall k :: 2 <= k < |v| - 2 ==> !(v[k] == '*' && v[k + 1] == '/'))
    && (End(t) == |source| || (|v| >= 4 && v[|v| - 2] == '*' && v[|v| - 1] == '/'))
  }

  /** From `i` to `j` the source has characters of one class, as far as they go. */
  ghost predicate Run(source: string, i: nat, j: nat, class_: char -> bool) {
    i <= j <= |source| && (forall k :: i <= k < j ==> class_(source[k])) && (j < |source| ==> !class_(source[j]))
  }

  predicate Is(source: string, i: nat, chars: string) { i < |source| && source[i] in chars }

  /** A zero, a radix letter, and the digits of that radix and underscores as far as they go. */
  ghost predicate Radix(source: string, i: nat, j: nat, letters: string, digits: string) {
    Is(source, i, "0") && Is(source, i + 1, letters) && Run(source, i + 2, j, c => c in digits)
  }

  /** Digits, underscores and points as far as they go; an exponent if one follows; an n if one follows. */
  ghost predicate Scientific(source: string, i: nat, j: nat) {
    exists m: nat, e: nat ::
      && Run(source, i, m, c => c in "0123456789_.")
      && (if Is(source, m, "eE") then Run(source, if Is(source, m + 1, "+-") then m + 2 else m + 1, e, c => c in "0123456789") else e == m)
      && j == if Is(source, e, "n") then e + 1 else e
  }

  ghost predicate IsNumber(source: string, t: Token) {
    var i, j := t.start, End(t);
    && (Is(source, i, "0123456789") || (Is(source, i, ".") && Is(source, i + 1, "0123456789")))
    && (if Is(source, i, "0") && Is(source, i + 1, "xX") then Radix(source, i, j, "xX", "0123456789abcdefABCDEF_")
        else if Is(source, i, "0") && Is(source, i + 1, "bB") then Radix(source, i, j, "bB", "01_")
        else if Is(source, i, "0") && Is(source, i + 1, "oO") then Radix(source, i, j, "oO", "01234567_")
        else Scientific(source, i, j))
  }

  /** A letter, then letters and digits as far as they go. */
  predicate IsWord(source: string, t: Token) {
    && t.value != "" && Letter(t.value[0])
    && (forall i :: 0 <= i < |t.value| ==> Letter(t.value[i]) || Digit(t.value[i]))
    && (End(t) < |source| ==> !Letter(source[End(t)]) && !Digit(source[End(t)]))
  }

  /** A body between slashes, and flags; not a comment. */
  ghost predicate IsRegex(v: string) {
    && !("//" <= v) && !("/*" <= v)
    && exists body, flags :: v == "/" + body + "/" + flags && InsideRegex(body) && Flags(flags)
  }

  predicate NoneOf(source: string, i: nat, ops: seq<string>) {
    forall k :: 0 <= k < |ops| ==> !StartsWith(source, i, ops[k])
  }

  /** The first listed operator there, three characters before two; failing that a single character. */
  predicate IsOp(source: string, t: Token) {
    var v := t.value;
    || v in OPS3
    || (NoneOf(source, t.start, OPS3) && v in OPS2)
    || (NoneOf(source, t.start, OPS3) && NoneOf(source, t.start, OPS2) && |v| == 1 && v[0] in "+-*/%=!<>&|^~?@#")
  }

  ghost predicate Fits(source: string, t: Token, last: Option<Token>) {
    match t.kind
    case Whitespace => IsGap(source, t)
    case LineComment => IsLine(source, t)
    case BlockComment => IsBlock(source, t)
    case StringLiteral => IsLiteral(source, t, '"') || IsLiteral(source, t, '\'')
    case TemplateLiteral => IsLiteral(source, t, '`')
    case NumericLiteral => IsNumber(source, t)
    case Keyword => IsWord(source, t) && t.value in KEYWORDS
    case Identifier => IsWord(source, t) && t.value !in KEYWORDS
    case RegExpLiteral => !EndsExpression(last) && IsRegex(t.value)
    case Punctuator => |t.value| == 1 && t.value[0] in "()[]{},.;:"
    case Operator => IsOp(source, t) && (t.start < |source| && source[t.start] == '/' ==> EndsExpression(last) || !Closes(source, t.start))
  }

  /** A regex body begun at `i` would be closed by a slash in its line. */
  ghost predicate Closes(source: string, i: nat) {
    exists j :: i < j < |source| && source[j] == '/' && InsideRegex(source[i + 1..j])
  }

  /** Every token fits, each with the token before it that is not white space. */
  ghost predicate AllFit(source: string, tokens: seq<Token>, last: Option<Token>) {
    tokens != [] ==>
      && Fits(source, tokens[0], last)
      && AllFit(source, tokens[1..], if tokens[0].kind == Whitespace then last else Some(tokens[0]))
  }

  // ---- the scans -----------------------------------------------------------------------------------------

  lemma {:induction false} WhileMeans(source: string, i: nat, class_: char -> bool)
    requires i <= |source|
    ensures var j := While(source, i, class_);
            && (forall k :: i <= k < j ==> class_(source[k])) && (j < |source| ==> !class_(source[j]))
            && (At(source, i, class_) ==> j > i)
    decreases |source| - i
  {
    if At(source, i, class_) { WhileMeans(source, i + 1, class_); }
  }

  lemma {:induction false} QuotedMeans(source: string, i: nat, quote: char)
    requires i <= |source| + 1
    ensures var j := Quoted(source, i, quote);
            j < |source| ==> source[j] == quote && Inside(source[i..j], quote)
    decreases |source| + 1 - i
  {
    if i < |source| && source[i] != quote {
      var n := if source[i] == '\\' then i + 2 else i + 1;
      QuotedMeans(source, n, quote);
      var j := Quoted(source, n, quote);
      if j < |source| { assert source[i..j][n - i..] == source[n..j]; }
    }
  }

  lemma {:induction false} RegexMeans(source: string, i: nat)
    requires i <= |source| + 1
    ensures var j := RegexBody(source, i);
            j < |source| ==> (source[j] == '/' || source[j] == '\n') && InsideRegex(source[i..j])
    decreases |source| + 1 - i
  {
    if i < |source| && source[i] != '/' && source[i] != '\n' {
      var n := if source[i] == '\\' then i + 2 else i + 1;
      RegexMeans(source, n);
      var j := RegexBody(source, n);
      if j < |source| { assert source[i..j][n - i..] == source[n..j]; }
    }
  }

  lemma {:induction false} BlockMeans(source: string, i: nat)
    requires i <= |source|
    ensures var j := BlockBody(source, i);
            && (forall k :: i <= k < j && k + 1 < |source| ==> !(source[k] == '*' && source[k + 1] == '/'))
            && (j + 1 < |source| ==> source[j] == '*' && source[j + 1] == '/')
    decreases |source| - i
  {
    if i + 1 < |source| && !(source[i] == '*' && source[i + 1] == '/') { BlockMeans(source, i + 1); }
  }

  lemma {:induction false} FindOpMeans(source: string, i: nat, ops: seq<string>)
    ensures var op := FindOp(source, i, ops);
            if op.Some? then op.value in ops && StartsWith(source, i, op.value) else NoneOf(source, i, ops)
  {
    if ops != [] {
      FindOpMeans(source, i, ops[1..]);
      assert forall k :: 1 <= k < |ops| ==> ops[k] == ops[1..][k - 1];
    }
  }

  // ---- each lexeme fits ------------------------------------------------------------------------------------

  lemma BlankIs(c: char)
    ensures Blank(c) <==> c == ' ' || c == '\t' || c == '\n' || c == '\r'
    ensures Blank(c) ==> IsSpace(c)
  {
  }

  lemma SpaceFits(source: string, i: nat)
    requires i < |source| && Blank(source[i])
    ensures IsGap(source, Token(Whitespace, source[i..While(source, i, IsSpace)], i))
  {
    hide IsSpace, While, Blank;
    BlankIs(source[i]);
    WhileMeans(source, i, IsSpace);
    SliceIsGap(source, i, While(source, i, IsSpace));
  }

  lemma SliceIsGap(source: string, i: nat, j: nat)
    requires i < j <= |source| && Blank(source[i]) && (forall k :: i <= k < j ==> IsSpace(source[k]))
    requires j < |source| ==> !IsSpace(source[j])
    ensures IsGap(source, Token(Whitespace, source[i..j], i))
  {
    hide IsSpace;
    var v := source[i..j];
    assert forall k :: 0 <= k < |v| ==> v[k] == source[i + k];
  }

  lemma LineFits(source: string, i: nat)
    requires i + 1 < |source| && source[i] == '/' && source[i + 1] == '/'
    ensures IsLine(source, Token(LineComment, source[i..While(source, i, NotNewline)], i))
  {
    WhileMeans(source, i, NotNewline);
    var j := While(source, i, NotNewline);
    assert j >= i + 2;
    assert source[i..j][..2] == "//";
  }

  lemma BlockFits(source: string, i: nat)
    requires i + 1 < |source| && source[i] == '/' && source[i + 1] == '*'
    ensures IsBlock(source, Token(BlockComment, source[i..Clamp(source, BlockBody(source, i + 2) + 2)], i))
  {
    hide BlockBody;
    BlockMeans(source, i + 2);
    var j := BlockBody(source, i + 2);
    var v := source[i..Clamp(source, j + 2)];
    assert v[..2] == "/*";
    assert forall k :: 0 <= k < |v| ==> v[k] == source[i + k];
  }

  lemma LiteralFits(source: string, i: nat, kind: TokenKind, quote: char)
    requires i < |source| && source[i] == quote
    ensures IsLiteral(source, Token(kind, source[i..Clamp(source, Quoted(source, i + 1, quote) + 1)], i), quote)
  {
    hide Quoted, Inside;
    QuotedMeans(source, i + 1, quote);
    var j := Quoted(source, i + 1, quote);
    if j < |source| { QuotesAround(source, i, j, quote); }
  }

  lemma QuotesAround(source: string, i: nat, j: nat, quote: char)
    requires i < j < |source| && source[i] == quote && source[j] == quote
    ensures source[i..j + 1] == [quote] + source[i + 1..j] + [quote]
  {
  }

  /** A run of one class is a run of the same class written otherwise. */
  lemma RunIs(source: string, i: nat, class_: char -> bool, chars: string)
    requires i <= |source| && forall c :: class_(c) <==> c in chars
    ensures Run(source, i, While(source, i, class_), c => c in chars)
  {
    WhileMeans(source, i, class_);
  }

  lemma DigitClasses()
    ensures forall c :: Digit16(c) <==> c in "0123456789abcdefABCDEF_"
    ensures forall c :: Digit2(c) <==> c in "01_"
    ensures forall c :: Digit8(c) <==> c in "01234567_"
    ensures forall c :: Mantissa(c) <==> c in "0123456789_."
    ensures forall c :: Digit10(c) <==> c in "0123456789"
  {
  }

  lemma NumberFits(source: string, i: nat)
    requires At(source, i, Digit10) || (OneOf(source, i, ".") && At(source, i + 1, Digit10))
    ensures IsNumber(source, Token(NumericLiteral, source[i..NumberEnd(source, i)], i))
  {
    DigitClasses();
    hide Digit16, Digit2, Digit8, Mantissa, Digit10, While, Run, Scientific;
    if source[i] == '0' && OneOf(source, i + 1, "xX") {
      RunIs(source, i + 2, Digit16, "0123456789abcdefABCDEF_");
    } else if source[i] == '0' && OneOf(source, i + 1, "bB") {
      RunIs(source, i + 2, Digit2, "01_");
    } else if source[i] == '0' && OneOf(source, i + 1, "oO") {
      RunIs(source, i + 2, Digit8, "01234567_");
    } else {
      ScientificFits(source, i);
    }
  }

  lemma ScientificFits(source: string, i: nat)
    requires i < |source|
    ensures var m := While(source, i, Mantissa);
            var e := ExponentEnd(source, m);
            Scientific(source, i, if OneOf(source, e, "n") then e + 1 else e)
  {
    DigitClasses();
    hide Mantissa, Digit10, While, Run;
    var m := While(source, i, Mantissa);
    RunIs(source, i, Mantissa, "0123456789_.");
    if OneOf(source, m, "eE") {
      RunIs(source, if OneOf(source, m + 1, "+-") then m + 2 else m + 1, Digit10, "0123456789");
    }
    assert OneOf(source, m, "eE") <==> Is(source, m, "eE");
    assert OneOf(source, m + 1, "+-") <==> Is(source, m + 1, "+-");
    var e := ExponentEnd(source, m);
    assert OneOf(source, e, "n") <==> Is(source, e, "n");
  }

  lemma WordFits(source: string, i: nat, kind: TokenKind)
    requires i < |source| && WordStart(source[i])
    ensures IsWord(source, Token(kind, source[i..While(source, i, WordPart)], i))
  {
    hide While, IsWord, WordStart, WordPart, Letter, Digit;
    WhileMeans(source, i, WordPart);
    var j := While(source, i, WordPart);
    WordClasses(source[i]);
    forall k | i <= k < j ensures Letter(source[k]) || Digit(source[k]) { WordClasses(source[k]); }
    if j < |source| { WordClasses(source[j]); }
    SliceIsWord(source, i, j, kind);
  }

  lemma WordClasses(c: char)
    ensures WordStart(c) <==> Letter(c)
    ensures WordPart(c) <==> Letter(c) || Digit(c)
  {
  }

  lemma SliceIsWord(source: string, i: nat, j: nat, kind: TokenKind)
    requires i < j <= |source| && Letter(source[i]) && (forall k :: i <= k < j ==> Letter(source[k]) || Digit(source[k]))
    requires j < |source| ==> !Letter(source[j]) && !Digit(source[j])
    ensures IsWord(source, Token(kind, source[i..j], i))
  {
    hide Letter, Digit;
    var v := source[i..j];
    assert forall k :: 0 <= k < |v| ==> v[k] == source[i + k];
  }

  lemma RegexFits(source: string, i: nat)
    requires i < |source| && source[i] == '/' && !OneOf(source, i + 1, "/") && !OneOf(source, i + 1, "*")
    requires OneOf(source, RegexBody(source, i + 1), "/")
    ensures IsRegex(source[i..While(source, RegexBody(source, i + 1) + 1, RegexFlag)])
  {
    hide While, RegexBody, InsideRegex, IsRegex, RegexFlag;
    RegexMeans(source, i + 1);
    var j := RegexBody(source, i + 1);
    WhileMeans(source, j + 1, RegexFlag);
    RegexParts(source, i, j, While(source, j + 1, RegexFlag));
  }

  lemma RegexParts(source: string, i: nat, j: nat, end: nat)
    requires i < j < end <= |source| && source[i] == '/' && source[j] == '/' && InsideRegex(source[i + 1..j])
    requires (forall k :: j < k < end ==> RegexFlag(source[k])) && source[i + 1] != '/' && source[i + 1] != '*'
    ensures IsRegex(source[i..end])
  {
    hide InsideRegex;
    var v, body, flags := source[i..end], source[i + 1..j], source[j + 1..end];
    assert v == "/" + body + "/" + flags;
    assert Flags(flags) by { assert forall k :: 0 <= k < |flags| ==> flags[k] == source[j + 1 + k] && RegexFlag(flags[k]); }
    assert v[1] == source[i + 1];
  }

  lemma OperatorFits(source: string, i: nat, last: Option<Token>)
    requires i < |source| && OperatorAt(source, i).Lexeme? && (source[i] == '/' ==> EndsExpression(last) || !Closes(source, i))
    ensures var x := OperatorAt(source, i); x.end > i && Fits(source, TokenOf(source, i, x), last)
  {
    OpsNonEmpty();
    hide OPS3, OPS2;
    FindOpMeans(source, i, OPS3);
    FindOpMeans(source, i, OPS2);
    hide NoneOf, Closes, EndsExpression;
    OperatorProgress(source, i);
    var x := OperatorAt(source, i);
    var t, op3, op2 := TokenOf(source, i, x), FindOp(source, i, OPS3), FindOp(source, i, OPS2);
    if op3.Some? {
      assert t.value == op3.value;
    } else if op2.Some? {
      assert t.value == op2.value;
    } else {
      assert t.value == [source[i]];
    }
  }

  lemma OperatorKind(source: string, i: nat)
    requires i < |source|
    ensures OperatorAt(source, i).Lexeme? ==> OperatorAt(source, i).kind in {Operator, Punctuator}
  {
    hide OPS2, OPS3;
  }

  lemma LexemeFits(source: string, i: nat, last: Option<Token>)
    requires i < |source| && LexemeAt(source, i, last).Lexeme?
    ensures var x := LexemeAt(source, i, last); x.end > i && Fits(source, TokenOf(source, i, x), last)
  {
    hide While, Quoted, RegexBody, BlockBody, NumberEnd, OperatorAt, KEYWORDS, WordStart, Blank;
    hide IsGap, IsLine, IsBlock, IsLiteral, IsNumber, IsWord, IsRegex, IsOp, Fits;
    LexemeProgress(source, i, last);
    var ch, t := source[i], TokenOf(source, i, LexemeAt(source, i, last));
    if Blank(ch) {
      SpaceFits(source, i);
      FitsByKind(source, t, last);
    } else if ch == '/' && OneOf(source, i + 1, "/") {
      LineFits(source, i);
      FitsByKind(source, t, last);
    } else if ch == '/' && OneOf(source, i + 1, "*") {
      BlockFits(source, i);
      FitsByKind(source, t, last);
    } else if ch == '"' || ch == '\'' {
      LiteralFits(source, i, StringLiteral, ch);
      FitsByKind(source, t, last);
    } else if ch == '`' {
      LiteralFits(source, i, TemplateLiteral, ch);
      FitsByKind(source, t, last);
    } else if Digit10(ch) || (ch == '.' && At(source, i + 1, Digit10)) {
      NumberFits(source, i);
      FitsByKind(source, t, last);
    } else if WordStart(ch) {
      WordFits(source, i, t.kind);
      FitsByKind(source, t, last);
    } else if ch == '/' && !AfterExpression(last) && OneOf(source, RegexBody(source, i + 1), "/") {
      RegexFits(source, i);
      FitsByKind(source, t, last);
    } else {
      if ch == '/' { SlashIsRegexIffClosed(source, i, last); }
      OperatorKind(source, i);
      OperatorFits(source, i, last);
    }
  }

  lemma FitsByKind(source: string, t: Token, last: Option<Token>)
    requires t.kind == Whitespace ==> IsGap(source, t)
    requires t.kind == LineComment ==> IsLine(source, t)
    requires t.kind == BlockComment ==> IsBlock(source, t)
    requires t.kind == StringLiteral ==> IsLiteral(source, t, '"') || IsLiteral(source, t, '\'')
    requires t.kind == TemplateLiteral ==> IsLiteral(source, t, '`')
    requires t.kind == NumericLiteral ==> IsNumber(source, t)
    requires t.kind == Keyword || t.kind == Identifier ==> IsWord(source, t) && (t.kind == Keyword <==> t.value in KEYWORDS)
    requires t.kind == RegExpLiteral ==> !AfterExpression(last) && IsRegex(t.value)
    requires t.kind != Operator && t.kind != Punctuator
    ensures Fits(source, t, last)
  {
  }

  /** In every source each token fits its kind. */
  lemma {:induction false} TokensFit(source: string, i: nat, last: Option<Token>)
    ensures AllFit(source, Tokens(source, i, last), last)
    decreases |source| - i
  {
    hide LexemeAt, Fits;
    if i < |source| {
      LexemeProgress(source, i, last);
      match LexemeAt(source, i, last) {
        case Skip => TokensFit(source, i + 1, last);
        case Lexeme(kind, end) =>
          LexemeFits(source, i, last);
          var t := TokenOf(source, i, Lexeme(kind, end));
          var after := if kind == Whitespace then last else Some(t);
          TokensFit(source, end, after);
          assert ([t] + Tokens(source, end, after))[1..] == Tokens(source, end, after);
      }
    }
  }

  /** Only these characters begin a token; the tokenizer leaves out all others (`Tiles`). */
  lemma BeginnersAre(c: char)
    ensures BeginsToken(c) <==> Letter(c) || Digit(c) || c in " \t\n\r\"'`()[]{},.;:+-*/%=!<>&|^~?@#"
  {
  }

  /** A slash that is neither a comment nor behind an expression begins a regex literal if its body is closed in its
      line; otherwise it is an operator. */
  lemma SlashIsRegexIffClosed(source: string, i: nat, last: Option<Token>)
    requires i < |source| && source[i] == '/' && !OneOf(source, i + 1, "/") && !OneOf(source, i + 1, "*")
    ensures var x := LexemeAt(source, i, last);
            x.Lexeme? && x.kind in {RegExpLiteral, Operator} && (x.kind == RegExpLiteral <==> !EndsExpression(last) && Closes(source, i))
  {
    hide While, KEYWORDS, OPS2, OPS3;
    RegexMeans(source, i + 1);
    if j :| i < j < |source| && source[j] == '/' && InsideRegex(source[i + 1..j]) { BodyEndsThere(source, i + 1, j); }
    OperatorProgress(source, i);
    assert IsOperator('/');
  }

  lemma {:induction false} BodyEndsThere(source: string, i: nat, j: nat)
    requires i <= j < |source| && source[j] == '/' && InsideRegex(source[i..j])
    ensures RegexBody(source, i) == j
    decreases j - i
  {
    if i < j {
      var n := if source[i] == '\\' then i + 2 else i + 1;
      assert source[i..j][0] == source[i] && source[i..j][n - i..] == source[n..j];
      BodyEndsThere(source, n, j);
    }
  }
}
