/** Operands: which ones the lexer passes over without a hit, and what it expects behind them. */
module OperatorTreeProofs {
  import opened JsString
  import opened Optional
  import opened OperatorScan
  import opened OperatorTrees
  import opened OperatorReading

  // ---- each operand leaves the scanner where it found it ---------------------------------------

  lemma {:induction false} StringScan(input: string, k: nat, quote: char, units: seq<StringUnit>, depth: nat)
    requires forall i :: 0 <= i < |units| ==> WellFormedUnit(quote, units[i])
    requires IsQuote(quote) && StartsAt(input, k, UnitsText(units) + [quote]) && ModeAt(input, k) == InString(quote, depth)
    ensures var n := k + |UnitsText(units)| + 1; ModeAt(input, n) == Code(depth) && NoHits(input, k, n)
    decreases |units|
  {
    hide OperatorAt, ReadCode;
    if units != [] {
      var first := match units[0] case Raw(c) => [c] case Escaped(c) => ['\\', c];
      assert UnitsText(units) + [quote] == first + (UnitsText(units[1..]) + [quote]);
      Split(input, k, first, UnitsText(units[1..]) + [quote]);
      assert WellFormedUnit(quote, units[0]);
      assert input[k] == first[0];
      assert ModeAt(input, k + 1) == Read(input, k, ModeAt(input, k));
      if units[0].Escaped? { assert ModeAt(input, k + 2) == Read(input, k + 1, ModeAt(input, k + 1)); }
      StringScan(input, k + |first|, quote, units[1..], depth);
    } else {
      assert UnitsText(units) + [quote] == [quote];
      assert input[k] == [quote][0];
    }
  }

  lemma StringLiteralScan(input: string, k: nat, quote: char, units: seq<StringUnit>, depth: nat)
    requires IsQuote(quote) && forall i :: 0 <= i < |units| ==> WellFormedUnit(quote, units[i])
    requires StartsAt(input, k, [quote] + UnitsText(units) + [quote]) && Calm(input, k, depth)
    ensures var n := k + |UnitsText(units)| + 2; Calm(input, n, depth) && NoHits(input, k, n)
  {
    hide HitAt, ModeAt, UnitsText, IsQuote;
    assert [quote] + UnitsText(units) + [quote] == [quote] + (UnitsText(units) + [quote]);
    Split(input, k, [quote], UnitsText(units) + [quote]);
    assert input[k] == [quote][0];
    QuoteStep(input, k, depth);
    StringScan(input, k + 1, quote, units, depth);
  }

  lemma {:induction false} RegexScan(input: string, k: nat, body: seq<RegexUnit>, inClass: bool, depth: nat)
    requires WellFormedRegex(body, inClass) && StartsAt(input, k, RegexText(body) + "/")
    requires ModeAt(input, k) == InRegex(inClass, depth)
    ensures var n := k + |RegexText(body)| + 1; ModeAt(input, n) == RegexFlags(depth) && NoHits(input, k, n)
    decreases |body|
  {
    hide OperatorAt, ReadCode;
    if body != [] {
      var first := match body[0] case Plain(c) => [c] case Backslashed(c) => ['\\', c]
                   case ClassOpen => "[" case ClassClose => "]";
      assert RegexText(body) + "/" == first + (RegexText(body[1..]) + "/");
      Split(input, k, first, RegexText(body[1..]) + "/");
      assert input[k] == first[0];
      assert ModeAt(input, k + 1) == Read(input, k, ModeAt(input, k));
      if body[0].Backslashed? { assert ModeAt(input, k + 2) == Read(input, k + 1, ModeAt(input, k + 1)); }
      RegexScan(input, k + |first|, body[1..],
                match body[0] case ClassOpen => true case ClassClose => false case _ => inClass, depth);
    } else {
      assert RegexText(body) + "/" == "/";
      assert input[k] == "/"[0];
    }
  }

  lemma {:induction false} FlagsScan(input: string, k: nat, n: nat, depth: nat)
    requires k <= n <= |input| && ModeAt(input, k) == RegexFlags(depth)
    requires forall j :: k <= j < n ==> RegexFlag(input[j])
    ensures ModeAt(input, n) == RegexFlags(depth) && NoHits(input, k, n)
    decreases n - k
  {
    hide OperatorAt, ReadCode;
    if k < n {
      assert IsLetter(input[k]);
      FlagsScan(input, k + 1, n, depth);
    }
  }

  lemma RegexLiteralScan(input: string, k: nat, body: seq<RegexUnit>, flags: string, depth: nat)
    requires WellFormedRegex(body, false) && (forall i :: 0 <= i < |flags| ==> RegexFlag(flags[i]))
    requires StartsAt(input, k, "/" + RegexText(body) + "/" + flags)
    requires Calm(input, k, depth) && UnaryPosition(input, k)
    ensures var n := k + |RegexText(body)| + 2 + |flags|; Calm(input, n, depth) && NoHits(input, k, n)
  {
    hide ModeAt, HitAt, UnaryPosition, WellFormedRegex, RegexText, RegexFlag;
    var m := k + 1 + |RegexText(body)| + 1;
    assert "/" + RegexText(body) + "/" + flags == "/" + ((RegexText(body) + "/") + flags);
    Split(input, k, "/", (RegexText(body) + "/") + flags);
    Split(input, k + 1, RegexText(body) + "/", flags);
    assert input[k] == "/"[0];
    SlashIsNoOperator(input, k);
    SlashOpensRegex(input, k, depth);
    RegexScan(input, k + 1, body, false, depth);
    forall j | m <= j < m + |flags| ensures RegexFlag(input[j]) { assert input[j] == flags[j - m]; }
    FlagsScan(input, m, m + |flags|, depth);
  }

  lemma SlashIsNoOperator(input: string, k: nat)
    requires k < |input| && !PlainChar(input[k])
    ensures OperatorAt(input, k).None? && HitAt(input, k).None?
  {
    hide OperatorAt;
    if OperatorAt(input, k).Some? { OperatorStarts(input, k); }
  }

  lemma SlashOpensRegex(input: string, k: nat, depth: nat)
    requires k < |input| && input[k] == '/' && UnaryPosition(input, k) && Calm(input, k, depth)
    ensures ModeAt(input, k + 1) == InRegex(false, depth)
  {
    hide UnaryPosition;
  }

  lemma BracketStep(input: string, k: nat, depth: nat)
    requires k < |input| && Calm(input, k, depth) && (IsOpen(input[k]) || (IsClose(input[k]) && depth > 0))
    ensures ModeAt(input, k + 1) == Code(if IsOpen(input[k]) then depth + 1 else depth - 1) && HitAt(input, k).None?
  {
    hide OperatorAt, UnaryPosition;
    SlashIsNoOperator(input, k);
  }

  lemma QuoteStep(input: string, k: nat, depth: nat)
    requires k < |input| && Calm(input, k, depth) && IsQuote(input[k])
    ensures ModeAt(input, k + 1) == InString(input[k], depth) && HitAt(input, k).None?
  {
    hide OperatorAt, UnaryPosition;
    SlashIsNoOperator(input, k);
  }

  lemma IdentCharsAreInert(s: string)
    requires IdentChars(s)
    ensures forall i :: 0 <= i < |s| ==> Inert(s[i])
  {
  }

  /** Inert text, such as an identifier, at any depth. */
  lemma InertText(input: string, k: nat, s: string, depth: nat)
    requires StartsAt(input, k, s) && Calm(input, k, depth) && forall i :: 0 <= i < |s| ==> Inert(s[i])
    ensures Calm(input, k + |s|, depth) && NoHits(input, k, k + |s|)
  {
    hide Calm, NoHits;
    forall j | k <= j < k + |s| ensures Inert(input[j]) { assert input[j] == s[j - k]; }
    PlainRun(input, k, k + |s|, depth);
  }

  // A numeral's only character that is not inert is the plus sign of an exponent.

  function MantissaText(n: Numeral): string
    requires n.Decimal?
  {
    n.whole + if n.fraction.Some? then "." + n.fraction.value else ""
  }

  lemma ExponentMakesDue(input: string, i: nat)
    requires i < |input| && ExponentMark(input, i)
    ensures UnaryPosition(input, i + 1)
  {
    hide ExponentMark, UnaryWord;
    assert IsIdentChar(input[i]) by { MarkIsLetter(input, i); }
    SkipBackTo(input, i, i, IsSpace);
  }

  lemma MarkIsLetter(input: string, i: nat)
    requires i < |input| && ExponentMark(input, i)
    ensures IsIdentChar(input[i])
  {
  }

  lemma DigitsBack(input: string, k: nat, s: string)
    requires Digits(s) && StartsAt(input, k, s)
    requires k > 0 ==> !IsNumberChar(input[k - 1])
    ensures SkipBack(input, k + |s| - 1, IsNumberChar) == k - 1
  {
    forall j | k <= j < k + |s| ensures IsNumberChar(input[j]) { assert input[j] == s[j - k]; }
    SkipBackTo(input, k + |s| - 1, k - 1, IsNumberChar);
  }

  lemma ExponentIsDue(input: string, k: nat, n: Numeral)
    requires n.Decimal? && WellFormedNumeral(n) && n.exponent.Some?
    requires StartsAt(input, k, MantissaText(n) + [n.exponent.value.mark]) && Boundary(input, k)
    ensures UnaryPosition(input, k + |MantissaText(n)| + 1)
  {
    hide UnaryPosition, SkipBack, UnaryWord, IsOperandExpected, IsSpace;
    var e := k + |MantissaText(n)|;
    var mark := n.exponent.value.mark;
    Split(input, k, MantissaText(n), [mark]);
    assert input[e] == [mark][0];
    if k > 0 { SeparatorsAreNoTokens(input[k - 1]); }
    if n.fraction.Some? {
      var dot := k + |n.whole|;
      assert MantissaText(n) == n.whole + ("." + n.fraction.value);
      Split(input, k, n.whole, "." + n.fraction.value);
      Split(input, dot, ".", n.fraction.value);
      assert input[dot] == "."[0];
      DigitsBack(input, dot + 1, n.fraction.value);
      DigitsBack(input, k, n.whole);
    } else {
      assert MantissaText(n) == n.whole;
      DigitsBack(input, k, n.whole);
    }
    ExponentMakesDue(input, e);
  }

  /** A plus or minus sign where an operand is due is not an operator. */
  lemma DueSign(input: string, k: nat, depth: nat)
    requires k < |input| && Calm(input, k, depth) && (input[k] == '+' || input[k] == '-' || input[k] == '~')
    requires depth == 0 ==> UnaryPosition(input, k)
    ensures Calm(input, k + 1, depth) && HitAt(input, k).None?
  {
    hide UnaryPosition;
    Spellings(input, k);
    PlainStep(input, k, depth);
  }

  lemma NumeralChars(n: Numeral)
    requires WellFormedNumeral(n)
    ensures n.Tagged? || n.exponent.None? ==> forall i :: 0 <= i < |NumeralText(n)| ==> Inert(NumeralText(n)[i])
    ensures n.Decimal? && n.exponent.Some? ==>
              var e := n.exponent.value;
              && NumeralText(n) == (MantissaText(n) + [e.mark]) + (e.sign + e.power)
              && (forall i :: 0 <= i < |MantissaText(n)| + 1 ==> Inert((MantissaText(n) + [e.mark])[i]))
              && (forall i :: 0 <= i < |e.power| ==> Inert(e.power[i]))
              && (e.sign != "" ==> |e.sign| == 1 && (e.sign[0] == '+' || e.sign[0] == '-'))
  {
  }

  lemma NumeralScan(input: string, k: nat, n: Numeral, depth: nat)
    requires WellFormedNumeral(n) && StartsAt(input, k, NumeralText(n)) && Calm(input, k, depth)
    requires depth == 0 ==> Boundary(input, k)
    ensures var m := k + |NumeralText(n)|; Calm(input, m, depth) && NoHits(input, k, m)
  {
    hide Calm, HitAt, UnaryPosition, Inert, Boundary, WellFormedNumeral, NumeralText, MantissaText;
    NumeralChars(n);
    if n.Tagged? || n.exponent.None? {
      InertText(input, k, NumeralText(n), depth);
    } else {
      var e := n.exponent.value;
      var head := MantissaText(n) + [e.mark];
      Split(input, k, head, e.sign + e.power);
      Split(input, k + |head|, e.sign, e.power);
      InertText(input, k, head, depth);
      var s := k + |head|;
      if e.sign != "" {
        assert input[s] == e.sign[0];
        if depth == 0 { ExponentIsDue(input, k, n); }
        DueSign(input, s, depth);
      }
      InertText(input, s + |e.sign|, e.power, depth);
    }
  }

  // ---- operands and bracketed content, by mutual induction ------------------------------------

  lemma NumeralEnds(n: Numeral)
    requires WellFormedNumeral(n)
    ensures Framed(NumeralText(n))
  {
    if n.Decimal? && n.fraction.Some? && n.fraction.value != "" { assert IsDigit(n.fraction.value[|n.fraction.value| - 1]); }
  }

  /** A text begins and ends in visible characters, no equals sign first and no operator character last. */
  predicate Framed(s: string) {
    s != "" && Graphic(s[0]) && s[0] != '=' && Graphic(s[|s| - 1]) && !OperatorChar(s[|s| - 1])
  }

  lemma Prefixed(a: string, b: string)
    requires a != "" && Graphic(a[0]) && a[0] != '=' && Framed(b)
    ensures Framed(a + b)
  {
    hide Graphic, OperatorChar;
    assert (a + b)[|a + b| - 1] == b[|b| - 1];
  }

  lemma WordStarts(word: string)
    requires word in {"typeof", "void", "delete", "new", "await", "yield"}
    ensures word != "" && Graphic(word[0]) && word[0] != '='
  {
  }

  lemma SignStarts(symbol: char)
    requires symbol in "+-!~"
    ensures Graphic(symbol) && symbol != '='
  {
  }

  lemma TextEnds(o: Operand)
    requires WellFormed(o)
    ensures Framed(Text(o))
  {
    hide Framed, Graphic, OperatorChar, NumeralText, WellFormedNumeral, UnitsText, RegexText, ContentText;
    hide WellFormedContent, WellFormedRegex, IdentChars, IsOpen, IsQuote, Closer;
    match o
    case Product(left, symbol, right) =>
      TextEnds(left);
      TextEnds(right);
      FramedMiddle(Text(left), " " + ([symbol] + " "), Text(right));
      assert Text(o) == Text(left) + (" " + ([symbol] + " ")) + Text(right);
    case Sign(symbol, operand) =>
      TextEnds(operand);
      SignStarts(symbol);
      Prefixed([symbol], Text(operand));
    case Keyword(word, operand) =>
      TextEnds(operand);
      WordStarts(word);
      Prefixed(word + " ", Text(operand));
    case Number(n) => NumeralEnds(n);
    case _ => LiteralEnds(o);
  }

  lemma FramedMiddle(a: string, middle: string, b: string)
    requires Framed(a) && Framed(b)
    ensures Framed(a + middle + b)
  {
    hide Graphic, OperatorChar;
    var s := a + middle + b;
    assert s[0] == a[0] && s[|s| - 1] == b[|b| - 1];
  }

  lemma LiteralEnds(o: Operand)
    requires WellFormed(o) && (o.Identifier? || o.Str? || o.Regex? || o.Group?)
    ensures Framed(Text(o))
  {
    hide UnitsText, RegexText, ContentText, WellFormedContent, WellFormedRegex;
    if o.Regex? && o.flags != "" { assert RegexFlag(o.flags[|o.flags| - 1]); }
  }

  lemma SignScan(input: string, k: nat, symbol: char, operand: Operand, depth: nat)
    requires symbol in "+-!~" && WellFormed(operand)
    requires StartsAt(input, k, [symbol] + Text(operand)) && Calm(input, k, depth)
    requires depth == 0 ==> Due(input, k)
    ensures Calm(input, k + 1, depth) && HitAt(input, k).None? && Due(input, k + 1)
    ensures StartsAt(input, k + 1, Text(operand))
  {
    hide UnaryPosition, Text, WellFormed;
    Split(input, k, [symbol], Text(operand));
    assert input[k] == [symbol][0];
    DueAfter(input, k, k + 1);
    TextEnds(operand);
    assert input[k + 1] == Text(operand)[0];
    if symbol == '!' {
      Spellings(input, k);
      PlainStep(input, k, depth);
    } else {
      DueSign(input, k, depth);
    }
  }

  lemma KeywordChars(word: string)
    requires word in {"typeof", "void", "delete", "new", "await", "yield"}
    ensures word != "" && IdentChars(word) && !IsDigit(word[|word| - 1]) && word in WORD_UNARY
    ensures forall i :: 0 <= i < |word| + 1 ==> Inert((word + " ")[i])
  {
  }

  lemma KeywordScan(input: string, k: nat, word: string, rest: string, depth: nat)
    requires word in {"typeof", "void", "delete", "new", "await", "yield"}
    requires StartsAt(input, k, word + " " + rest) && Calm(input, k, depth) && (depth == 0 ==> Boundary(input, k))
    ensures var n := k + |word| + 1;
            StartsAt(input, n, rest) && Calm(input, n, depth) && NoHits(input, k, n) && (depth == 0 ==> Due(input, n))
  {
    hide Calm, HitAt, Inert, Boundary, UnaryPosition;
    KeywordChars(word);
    Split(input, k, word + " ", rest);
    InertText(input, k, word + " ", depth);
    if depth == 0 { DueAfterKeyword(input, k, word); }
  }

  /** A slash that the scanner reads as a division sign. */
  lemma DivisionStep(input: string, k: nat, depth: nat)
    requires k < |input| && input[k] == '/' && !UnaryPosition(input, k) && Calm(input, k, depth)
    ensures Calm(input, k + 1, depth) && HitAt(input, k).None?
  {
    hide OperatorAt, UnaryPosition;
    SlashIsNoOperator(input, k);
    Spellings(input, k);
  }

  /** Between the factors of a product; behind the sign an operand is due. */
  lemma SymbolScan(input: string, k: nat, symbol: char, rest: string, depth: nat)
    requires symbol in "*/%" && StartsAt(input, k, " " + ([symbol] + " " + rest)) && Calm(input, k, depth)
    requires symbol == '/' ==> !UnaryPosition(input, k + 1)
    ensures StartsAt(input, k + 3, rest) && Calm(input, k + 3, depth) && NoHits(input, k, k + 3) && Due(input, k + 3)
  {
    hide HitAt, UnaryPosition, Due, ModeAt;
    SymbolParts(input, k, symbol, rest);
    BlankIsSpace();
    InertText(input, k, " ", depth);
    if symbol == '/' { DivisionStep(input, k + 1, depth); } else { InertText(input, k + 1, [symbol], depth); }
    InertText(input, k + 2, " ", depth);
    DueAfter(input, k + 1, k + 3);
  }

  lemma SymbolParts(input: string, k: nat, symbol: char, rest: string)
    requires StartsAt(input, k, " " + ([symbol] + " " + rest))
    ensures StartsAt(input, k, " ") && StartsAt(input, k + 1, [symbol]) && StartsAt(input, k + 2, " ")
    ensures StartsAt(input, k + 3, rest) && input[k + 1] == symbol && input[k + 2] == ' '
  {
    Split(input, k, " ", [symbol] + " " + rest);
    assert [symbol] + " " + rest == [symbol] + (" " + rest);
    Split(input, k + 1, [symbol], " " + rest);
    Split(input, k + 2, " ", rest);
    assert input[k + 1] == [symbol][0] && input[k + 2] == " "[0];
  }

  lemma TakeMore(input: string, k: nat, s: string)
    requires StartsAt(input, k, s)
    ensures k + |s| <= |input| && input[..k] + s == input[..k + |s|]
  {
    assert forall i :: k <= i < k + |s| ==> input[i] == s[i - k];
  }

  /** An operand whose slashes the scanner reads as what they are is passed over without a hit. */
  lemma {:induction false} OperandScan(input: string, k: nat, o: Operand, depth: nat)
    requires WellFormed(o) && StartsAt(input, k, Text(o)) && Calm(input, k, depth)
    requires depth == 0 ==> Due(input, k)
    requires Reads(input[..k], o)
    ensures var n := k + |Text(o)|; Calm(input, n, depth) && NoHits(input, k, n)
    decreases o, 1
  {
    hide Calm, HitAt, UnaryPosition, Inert, Boundary, IsOpen, IsClose, IsQuote, IsOperandExpected, Closer, StartsAt, Due;
    hide WellFormedRegex, WellFormedContent, WellFormedNumeral, RegexText, NumeralText, ContentText, UnitsText, ReadsContent;
    TakeMore(input, k, Text(o));
    match o
    case Identifier(name) =>
      IdentCharsAreInert(name);
      InertText(input, k, name, depth);
    case Number(n) =>
      if depth == 0 { DueIsBoundary(input, k); }
      NumeralScan(input, k, n, depth);
    case Str(quote, units) => StringLiteralScan(input, k, quote, units, depth);
    case Regex(body, flags) =>
      PositionIsPrefix(input, k);
      RegexLiteralScan(input, k, body, flags, depth);
    case Group(open, content) => GroupScan(input, k, open, content, depth);
    case Sign(symbol, operand) =>
      SignScan(input, k, symbol, operand, depth);
      Split(input, k, [symbol], Text(operand));
      TakeMore(input, k, [symbol]);
      OperandScan(input, k + 1, operand, depth);
    case Keyword(word, operand) =>
      if depth == 0 { DueIsBoundary(input, k); }
      KeywordScan(input, k, word, Text(operand), depth);
      Split(input, k, word + " ", Text(operand));
      TakeMore(input, k, word + " ");
      OperandScan(input, k + |word| + 1, operand, depth);
    case Product(left, symbol, right) => ProductScan(input, k, o, depth);
  }

  lemma DueIsBoundary(input: string, k: nat)
    requires k <= |input| && Due(input, k)
    ensures Boundary(input, k)
  {
  }

  lemma {:induction false} ProductScan(input: string, k: nat, o: Operand, depth: nat)
    requires o.Product? && WellFormed(o.left) && WellFormed(o.right) && o.symbol in "*/%"
    requires StartsAt(input, k, Text(o.left) + " " + ([o.symbol] + " " + Text(o.right))) && Calm(input, k, depth)
    requires depth == 0 ==> Due(input, k)
    requires Reads(input[..k], o)
    ensures var n := k + |Text(o.left)| + 3 + |Text(o.right)|; Calm(input, n, depth) && NoHits(input, k, n)
    decreases o, 0
  {
    hide Calm, HitAt, UnaryPosition, StartsAt, Due, WellFormed, Text, Reads;
    var l, r, p := Text(o.left), Text(o.right), k + |Text(o.left)|;
    assert l + " " + ([o.symbol] + " " + r) == l + (" " + ([o.symbol] + " " + r));
    Split(input, k, l, " " + ([o.symbol] + " " + r));
    ProductReads(input, k, o);
    OperandScan(input, k, o.left, depth);
    SymbolScan(input, p, o.symbol, r, depth);
    OperandScan(input, p + 3, o.right, depth);
  }

  lemma ProductReads(input: string, k: nat, o: Operand)
    requires o.Product? && StartsAt(input, k, Text(o.left) + " " + ([o.symbol] + " " + Text(o.right)))
    requires Reads(input[..k], o)
    ensures var p := k + |Text(o.left)|;
            && p + 3 <= |input| && Reads(input[..k], o.left) && Reads(input[..p + 3], o.right)
            && (o.symbol == '/' ==> !UnaryPosition(input, p + 1))
  {
    hide StartsAt, UnaryPosition, Text;
    var l, r, p := Text(o.left), Text(o.right), k + |Text(o.left)|;
    assert l + " " + ([o.symbol] + " " + r) == l + (" " + ([o.symbol] + " " + r));
    Split(input, k, l, " " + ([o.symbol] + " " + r));
    SymbolParts(input, p, o.symbol, r);
    TakeMore(input, k, l);
    TakeMore(input, p, " ");
    TakeMore(input, p + 1, [o.symbol]);
    TakeMore(input, p + 2, " ");
    var sign := input[..k] + l + " ";
    assert sign == input[..p + 1];
    assert sign + ([o.symbol] + " ") == input[..p + 3];
    PositionIsPrefix(input, p + 1);
  }

  lemma CodeIsCalm(input: string, k: nat, depth: nat)
    requires k <= |input| && ModeAt(input, k) == Code(depth)
    ensures Calm(input, k, depth)
  {
  }

  lemma OpenersExpect(open: char)
    requires IsOpen(open)
    ensures IsOperandExpected(open) && IsClose(Closer(open))
  {
  }

  lemma {:induction false} GroupScan(input: string, k: nat, open: char, content: Content, depth: nat)
    requires IsOpen(open) && WellFormedContent(content)
    requires k <= |input| && Calm(input, k, depth)
    requires StartsAt(input, k, [open] + ContentText(content) + [Closer(open)])
    requires ReadsContent(input[..k] + [open], content)
    ensures var n := k + |ContentText(content)| + 2; n <= |input| && Calm(input, n, depth) && NoHits(input, k, n)
    decreases content, 1
  {
    hide Calm, HitAt, IsOpen, IsClose, IsOperandExpected, Closer, ContentText, WellFormedContent, StartsAt, ReadsContent;
    var n := k + 1 + |ContentText(content)|;
    Bracketed(input, k, open, ContentText(content), Closer(open));
    assert input[..k] + [open] == input[..k + 1];
    OpenersExpect(open);
    BracketStep(input, k, depth);
    CodeIsCalm(input, k + 1, depth + 1);
    ContentScan(input, k + 1, content, depth + 1);
    ClosersDoNotOpen(input[n]);
    BracketStep(input, n, depth + 1);
    CodeIsCalm(input, n + 1, depth);
  }

  lemma Bracketed(input: string, k: nat, open: char, s: string, close: char)
    requires StartsAt(input, k, [open] + s + [close])
    ensures k + |s| + 2 <= |input| && input[k] == open && StartsAt(input, k + 1, s) && input[k + 1 + |s|] == close
  {
    Split(input, k, [open] + s, [close]);
    Split(input, k, [open], s);
  }

  lemma ClosersDoNotOpen(c: char)
    requires IsClose(c)
    ensures !IsOpen(c)
  {
  }

  lemma {:induction false} ContentScan(input: string, k: nat, c: Content, depth: nat)
    requires depth > 0 && WellFormedContent(c) && StartsAt(input, k, ContentText(c)) && Calm(input, k, depth)
    requires ReadsContent(input[..k], c)
    ensures var n := k + |ContentText(c)|; Calm(input, n, depth) && NoHits(input, k, n)
    decreases c, 0
  {
    hide Calm, HitAt, PlainChar, Due, Text, WellFormed, StartsAt, UnaryPosition, Reads;
    match c
    case End(tail) => PlainRunText(input, k, tail, depth);
    case Item(lead, item, rest) =>
      Split(input, k, lead + Text(item), ContentText(rest));
      Split(input, k, lead, Text(item));
      TakeMore(input, k, lead);
      TakeMore(input, k + |lead|, Text(item));
      PlainRunText(input, k, lead, depth);
      OperandScan(input, k + |lead|, item, depth);
      ContentScan(input, k + |lead| + |Text(item)|, rest, depth);
    case Divide(lead, rest) =>
      Split(input, k, lead + "/", ContentText(rest));
      Split(input, k, lead, "/");
      TakeMore(input, k, lead);
      TakeMore(input, k + |lead|, "/");
      PlainRunText(input, k, lead, depth);
      PositionIsPrefix(input, k + |lead|);
      DivisionStep(input, k + |lead|, depth);
      ContentScan(input, k + |lead| + 1, rest, depth);
  }

  lemma PlainRunText(input: string, k: nat, s: string, depth: nat)
    requires depth > 0 && PlainText(s) && StartsAt(input, k, s) && Calm(input, k, depth)
    ensures Calm(input, k + |s|, depth) && NoHits(input, k, k + |s|)
  {
    hide Calm, HitAt;
    forall j | k <= j < k + |s| ensures PlainChar(input[j]) { assert input[j] == s[j - k]; }
    PlainRun(input, k, k + |s|, depth);
  }

  // ---- what the character before a plus sign says about the operand there ------------------------

  lemma ClosesAnOperand(c: char)
    requires IsQuote(c) || IsClose(c) || IsIdentChar(c) || c == '.'
    ensures !IsOperandExpected(c)
  {
  }

  lemma PunctuationEndsNoWord(input: string, i: nat)
    requires i < |input| && !IsLetter(input[i]) && input[i] != '_' && input[i] != '$'
    ensures !ExponentMark(input, i) && !UnaryWord(input, i)
  {
  }

  /** Behind a word of identifier characters, joined to nothing in front, no operand is due: unless it
      is spelled like a number awaiting its exponent. */
  lemma WordIsOperand(input: string, k: nat, s: string)
    requires s != "" && IdentChars(s) && StartsAt(input, k, s) && Boundary(input, k)
    requires s !in WORD_UNARY
    ensures var i := k + |s| - 1;
            !IsOperandExpected(input[i]) && (ExponentMark(input, i) <==> ExponentLike(s)) && !UnaryWord(input, i)
  {
    hide IsOperandExpected, IsSpace, Boundary, IsLetter;
    var i := k + |s| - 1;
    forall j | k <= j <= i ensures IsIdentChar(input[j]) && input[j] == s[j - k] {}
    ClosesAnOperand(input[i]);
    WordEnds(input, k, i + 1);
    assert input[k..i + 1] == s;
    WordExponent(input, k, s);
  }

  lemma WordExponent(input: string, k: nat, s: string)
    requires s != "" && IdentChars(s) && StartsAt(input, k, s) && Boundary(input, k)
    ensures ExponentMark(input, k + |s| - 1) <==> ExponentLike(s)
  {
    hide IsOperandExpected, IsSpace, IsLetter;
    var i := k + |s| - 1;
    assert input[i] == s[|s| - 1];
    if k > 0 { SeparatorsAreNoTokens(input[k - 1]); }
    if ExponentLike(s) {
      forall j | k <= j < i ensures IsNumberChar(input[j]) { assert input[j] == s[j - k]; }
      SkipBackTo(input, i - 1, k - 1, IsNumberChar);
    } else if input[i] == 'e' || input[i] == 'E' {
      SkipBackMeans(input, i - 1, IsNumberChar);
      var j := SkipBack(input, i - 1, IsNumberChar);
      if j >= k {
        assert input[j] == s[j - k] && IsIdentChar(input[j]);
        IdentIsNoPoint(input[j]);
      } else if |s| >= 2 {
        forall q | 0 <= q < |s| - 1 ensures IsNumberChar(s[q]) { assert input[k + q] == s[q]; }
      }
    }
  }

  lemma IdentIsNoPoint(c: char)
    requires IsIdentChar(c)
    ensures c != '.'
  {
  }

  lemma KeywordHasNonFlag(s: string)
    requires s in WORD_UNARY
    ensures exists i :: 0 <= i < |s| && !RegexFlag(s[i])
  {
    var i := if s == "void" || s == "delete" || s == "in" || s == "instanceof" then 1 else if s == "yield" then 2 else 0;
    assert !RegexFlag(s[i]);
  }

  lemma NumeralEndsOperand(input: string, k: nat, n: Numeral)
    requires WellFormedNumeral(n) && StartsAt(input, k, NumeralText(n)) && Boundary(input, k)
    ensures var i := k + |NumeralText(n)| - 1;
            i >= k && !IsOperandExpected(input[i]) && !ExponentMark(input, i) && !UnaryWord(input, i)
  {
    hide Boundary, IsSpace, ExponentMark, UnaryWord, IsOperandExpected;
    NumeralEnds(n);
    var s := NumeralText(n);
    var i := k + |s| - 1;
    assert input[i] == s[|s| - 1];
    match n
    case Decimal(_, _, _) =>
      ClosesAnOperand(input[i]);
      PunctuationEndsNoWord(input, i);
    case Tagged(head, letter, tail) =>
      assert forall j :: 0 <= j < |s| ==> IsIdentChar(s[j]);
      assert s[|head|] == letter && s[0] == head[0];
      WordIsOperand(input, k, s);
  }

  /** Behind an operand and any space, the scanner expects another one exactly when it misreads the operand. */
  lemma {:induction false} AfterOperand(input: string, k: nat, o: Operand, m: nat)
    requires WellFormed(o) && StartsAt(input, k, Text(o)) && Due(input, k)
    requires k + |Text(o)| <= m <= |input| && forall j :: k + |Text(o)| <= j < m ==> IsSpace(input[j])
    ensures UnaryPosition(input, m) <==> Misread(o)
    decreases o
  {
    hide UnaryPosition, Boundary, IsSpace, ExponentMark, UnaryWord, IsOperandExpected, NumeralText, WellFormedNumeral;
    hide ContentText, UnitsText, RegexText, WellFormedContent, WellFormedRegex, IsDigit, IsLetter, IsNumberChar, Graphic;
    TextEnds(o);
    var i := k + |Text(o)| - 1;
    assert input[i] == Text(o)[|Text(o)| - 1];
    NotDueAfter(input, i, m);
    hide StartsAt, Closer;
    match o
    case Identifier(name) => WordIsOperand(input, k, name);
    case Number(n) => NumeralEndsOperand(input, k, n);
    case Str(quote, _) => DelimiterEnds(input, i);
    case Group(open, _) => OpenersExpect(open); DelimiterEnds(input, i);
    case Regex(body, flags) => RegexEnds(input, k, body, flags);
    case Sign(symbol, operand) =>
      SignIsDue(input, k, symbol, operand);
      AfterOperand(input, k + 1, operand, m);
    case Keyword(word, operand) =>
      KeywordIsDue(input, k, word, operand);
      AfterOperand(input, k + |word| + 1, operand, m);
    case Product(left, symbol, right) =>
      SymbolIsDue(input, k, left, symbol, right);
      AfterOperand(input, k + |Text(left)| + 3, right, m);
  }

  lemma SymbolIsDue(input: string, k: nat, left: Operand, symbol: char, right: Operand)
    requires symbol in "*/%" && StartsAt(input, k, Text(left) + " " + ([symbol] + " " + Text(right)))
    ensures var n := k + |Text(left)| + 3; StartsAt(input, n, Text(right)) && Due(input, n)
  {
    hide Due, Text, StartsAt, IsSpace;
    var l, r := Text(left), Text(right);
    assert l + " " + ([symbol] + " " + r) == l + (" " + ([symbol] + " " + r));
    Split(input, k, l, " " + ([symbol] + " " + r));
    SymbolParts(input, k + |l|, symbol, r);
    BlankIsSpace();
    DueAfter(input, k + |l| + 1, k + |l| + 3);
  }

  lemma DelimiterEnds(input: string, i: nat)
    requires i < |input| && (IsQuote(input[i]) || IsClose(input[i]))
    ensures !IsOperandExpected(input[i]) && !ExponentMark(input, i) && !UnaryWord(input, i)
  {
    hide ExponentMark, UnaryWord;
    PunctuationEndsNoWord(input, i);
  }

  lemma KeywordIsDue(input: string, k: nat, word: string, operand: Operand)
    requires word in {"typeof", "void", "delete", "new", "await", "yield"}
    requires StartsAt(input, k, word + " " + Text(operand)) && Due(input, k)
    ensures StartsAt(input, k + |word| + 1, Text(operand)) && Due(input, k + |word| + 1)
  {
    hide UnaryPosition, Boundary, Text, Inert;
    Split(input, k, word + " ", Text(operand));
    KeywordChars(word);
    DueAfterKeyword(input, k, word);
  }

  lemma SignIsDue(input: string, k: nat, symbol: char, operand: Operand)
    requires symbol in "+-!~" && StartsAt(input, k, [symbol] + Text(operand))
    ensures StartsAt(input, k + 1, Text(operand)) && Due(input, k + 1)
  {
    hide Due, Text;
    Split(input, k, [symbol], Text(operand));
    assert input[k] == [symbol][0];
    DueAfter(input, k, k + 1);
  }

  lemma RegexEnds(input: string, k: nat, body: seq<RegexUnit>, flags: string)
    requires StartsAt(input, k, "/" + RegexText(body) + "/" + flags)
    requires forall i :: 0 <= i < |flags| ==> RegexFlag(flags[i])
    ensures var i := k + |RegexText(body)| + 1 + |flags|;
            IsOperandExpected(input[i]) || ExponentMark(input, i) || UnaryWord(input, i) <==> flags == ""
  {
    hide ExponentMark, RegexText, RegexFlag, UnaryWord;
    var slash := k + |RegexText(body)| + 1;
    Split(input, k, "/" + RegexText(body), "/" + flags);
    Split(input, slash, "/", flags);
    assert input[slash] == "/"[0];
    if flags != "" { FlagsEnd(input, slash, flags); }
  }

  lemma FlagsEnd(input: string, slash: nat, flags: string)
    requires slash < |input| && input[slash] == '/' && StartsAt(input, slash + 1, flags)
    requires flags != "" && forall i :: 0 <= i < |flags| ==> RegexFlag(flags[i])
    ensures var i := slash + |flags|; !IsOperandExpected(input[i]) && !ExponentMark(input, i) && !UnaryWord(input, i)
  {
    hide ExponentMark, IsOperandExpected;
    var i := slash + |flags|;
    forall j | slash < j <= i ensures RegexFlag(input[j]) && IsIdentChar(input[j]) { assert input[j] == flags[j - slash - 1]; }
    ClosesAnOperand(input[i]);
    SkipBackTo(input, i, slash, IsIdentChar);
    assert input[slash + 1..i + 1] == flags;
    if flags in WORD_UNARY { KeywordHasNonFlag(flags); }
    NoExponent(input, i);
  }
}
