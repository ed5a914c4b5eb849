/**
 * What the operator scanner finds in well-formed JavaScript: an expression is a tree of the additive,
 * relational and equality productions of ECMA-262 (sections 13.8 to 13.11) over operands, printed
 * with one space around each operator.  Operands may hold divisions and regex literals anywhere, so
 * the scanner can take one for the other; `Reads` says that it never does.
 */
module OperatorTrees {
  import opened JsString
  import opened Optional
  import opened OperatorScan

  // ---- operands ----------------------------------------------------------------------------

  /** A character of a string or template literal, or an escape pair. */
  datatype StringUnit = Raw(c: char) | Escaped(c: char)

  /** A regex body, flat: `[` and `]` open and close a class, inside which a slash is plain. */
  datatype RegexUnit = Plain(c: char) | Backslashed(c: char) | ClassOpen | ClassClose

  datatype Exponent = Exponent(mark: char, sign: string, power: string)

  datatype Numeral =
    | Decimal(whole: string, fraction: Option<string>, exponent: Option<Exponent>)  // 12, .5, 1.5e+3
    | Tagged(head: string, letter: char, tail: string)                              // 5n, 0x1e, 0b01

  datatype Operand =
    | Identifier(name: string)
    | Number(numeral: Numeral)
    | Str(quote: char, units: seq<StringUnit>)
    | Regex(body: seq<RegexUnit>, flags: string)
    | Group(open: char, content: Content)
    | Sign(symbol: char, operand: Operand)
    | Keyword(word: string, operand: Operand)
    | Product(left: Operand, symbol: char, right: Operand)

  /** The inside of a bracket pair: operands and division signs, with other text between them. */
  datatype Content =
    | End(tail: string)
    | Item(lead: string, item: Operand, rest: Content)
    | Divide(lead: string, rest: Content)

  function UnitsText(units: seq<StringUnit>): string {
    if units == [] then ""
    else (match units[0] case Raw(c) => [c] case Escaped(c) => ['\\', c]) + UnitsText(units[1..])
  }

  function RegexText(body: seq<RegexUnit>): string {
    if body == [] then ""
    else (match body[0] case Plain(c) => [c] case Backslashed(c) => ['\\', c]
          case ClassOpen => "[" case ClassClose => "]") + RegexText(body[1..])
  }

  function NumeralText(n: Numeral): string {
    match n
    case Decimal(whole, fraction, exponent) =>
      whole + (if fraction.Some? then "." + fraction.value else "")
      + (if exponent.Some? then [exponent.value.mark] + exponent.value.sign + exponent.value.power else "")
    case Tagged(head, letter, tail) => head + [letter] + tail
  }

  function Closer(open: char): char {
    if open == '(' then ')' else if open == '[' then ']' else '}'
  }

  function Text(o: Operand): string {
    match o
    case Identifier(name) => name
    case Number(n) => NumeralText(n)
    case Str(quote, units) => [quote] + UnitsText(units) + [quote]
    case Regex(body, flags) => "/" + RegexText(body) + "/" + flags
    case Group(open, content) => [open] + ContentText(content) + [Closer(open)]
    case Sign(symbol, operand) => [symbol] + Text(operand)
    case Keyword(word, operand) => word + " " + Text(operand)
    case Product(left, symbol, right) => Text(left) + " " + ([symbol] + " " + Text(right))
  }

  function ContentText(c: Content): string {
    match c
    case End(tail) => tail
    case Item(lead, item, rest) => lead + Text(item) + ContentText(rest)
    case Divide(lead, rest) => lead + "/" + ContentText(rest)
  }

  // ---- well-formedness ---------------------------------------------------------------------

  predicate Digits(s: string) {
    (forall i :: 0 <= i < |s| ==> IsNumberChar(s[i])) && (s != "" ==> IsDigit(s[0]) && IsDigit(s[|s| - 1]))
  }

  predicate IdentChars(s: string) { forall i :: 0 <= i < |s| ==> IsIdentChar(s[i]) }

  predicate WellFormedNumeral(n: Numeral) {
    match n
    case Decimal(whole, fraction, exponent) =>
      && Digits(whole) && (fraction.Some? ==> Digits(fraction.value))
      && (whole != "" || (fraction.Some? && fraction.value != ""))
      && (exponent.Some? ==>
            && (exponent.value.mark == 'e' || exponent.value.mark == 'E')
            && (exponent.value.sign == "" || exponent.value.sign == "+" || exponent.value.sign == "-")
            && exponent.value.power != "" && Digits(exponent.value.power))
    case Tagged(head, letter, tail) =>
      head != "" && Digits(head) && IsLetter(letter) && letter != 'e' && letter != 'E' && IdentChars(tail)
  }

  predicate WellFormedUnit(quote: char, u: StringUnit) {
    u.Raw? ==> u.c != quote && u.c != '\\'
  }

  /** Every slash outside a class is escaped and every class is closed. */
  predicate WellFormedRegex(body: seq<RegexUnit>, inClass: bool) {
    if body == [] then !inClass
    else match body[0]
         case Plain(c) => c != '\\' && c != '[' && c != ']' && (c == '/' ==> inClass) && WellFormedRegex(body[1..], inClass)
         case Backslashed(_) => WellFormedRegex(body[1..], inClass)
         case ClassOpen => WellFormedRegex(body[1..], true)
         case ClassClose => WellFormedRegex(body[1..], false)
  }

  predicate PlainChar(c: char) { !IsQuote(c) && !IsOpen(c) && !IsClose(c) && c != '/' }

  predicate PlainText(s: string) { forall i :: 0 <= i < |s| ==> PlainChar(s[i]) }

  predicate WellFormedContent(c: Content) {
    match c
    case End(tail) => PlainText(tail)
    case Item(lead, item, rest) => PlainText(lead) && WellFormed(item) && WellFormedContent(rest)
    case Divide(lead, rest) => PlainText(lead) && WellFormedContent(rest)
  }

  predicate RegexFlag(c: char) { c in "dgimsuvy" }

  predicate WellFormed(o: Operand) {
    match o
    case Identifier(name) =>
      name != "" && IdentChars(name) && !IsDigit(name[0]) && name !in WORD_UNARY
    case Number(n) => WellFormedNumeral(n)
    case Str(quote, units) => IsQuote(quote) && forall i :: 0 <= i < |units| ==> WellFormedUnit(quote, units[i])
    case Regex(body, flags) => WellFormedRegex(body, false) && forall i :: 0 <= i < |flags| ==> RegexFlag(flags[i])
    case Group(open, content) => IsOpen(open) && WellFormedContent(content)
    case Sign(symbol, operand) => symbol in "+-!~" && WellFormed(operand)
    case Keyword(word, operand) =>
      word in {"typeof", "void", "delete", "new", "await", "yield"} && WellFormed(operand)
    case Product(left, symbol, right) => symbol in "*/%" && WellFormed(left) && WellFormed(right)
  }

  // ---- division or regex? --------------------------------------------------------------------

  /** Behind this text the scanner reads each slash of the operand as what it is: it expects an operand
      at every regex literal and none at every division sign. */
  predicate Reads(before: string, o: Operand)
    decreases o
  {
    match o
    case Regex(_, _) => UnaryPosition(before, |before|)
    case Group(open, content) => ReadsContent(before + [open], content)
    case Sign(symbol, operand) => Reads(before + [symbol], operand)
    case Keyword(word, operand) => Reads(before + (word + " "), operand)
    case Product(left, symbol, right) =>
      var sign := before + Text(left) + " ";
      Reads(before, left) && (symbol == '/' ==> !UnaryPosition(sign, |sign|)) && Reads(sign + ([symbol] + " "), right)
    case _ => true
  }

  predicate ReadsContent(before: string, c: Content)
    decreases c
  {
    match c
    case End(_) => true
    case Item(lead, item, rest) => Reads(before + lead, item) && ReadsContent(before + lead + Text(item), rest)
    case Divide(lead, rest) =>
      !UnaryPosition(before + lead, |before + lead|) && ReadsContent(before + lead + "/", rest)
  }

  /** An underscore, perhaps digits, then e: spelled like a number awaiting its exponent. */
  predicate ExponentLike(name: string) {
    && |name| >= 2 && (name[|name| - 1] == 'e' || name[|name| - 1] == 'E')
    && forall i :: 0 <= i < |name| - 1 ==> IsNumberChar(name[i])
  }

  /** The operand ends in something after which the scanner thinks another operand is due:
      a regex without flags, whose slash looks like a division, or an exponent-like name. */
  predicate Misread(o: Operand) {
    match o
    case Identifier(name) => ExponentLike(name)
    case Regex(_, flags) => flags == ""
    case Sign(_, operand) => Misread(operand)
    case Keyword(_, operand) => Misread(operand)
    case Product(_, _, right) => Misread(right)
    case _ => false
  }

  // ---- expressions -------------------------------------------------------------------------

  datatype Tree = Leaf(operand: Operand) | Node(operator: Operator, left: Tree, right: Tree)

  function TreeRank(t: Tree): nat {
    if t.Leaf? then 3 else Rank(t.operator)
  }

  /** Left-associative: the left operand binds at least as tightly, the right one strictly tighter. */
  predicate Grammatical(t: Tree) {
    match t
    case Leaf(o) => WellFormed(o)
    case Node(op, l, r) => Grammatical(l) && Grammatical(r) && TreeRank(l) >= Rank(op) && TreeRank(r) > Rank(op)
  }

  function TreeText(t: Tree): string {
    match t
    case Leaf(o) => Text(o)
    case Node(op, l, r) => TreeText(l) + " " + Spelling(op) + " " + TreeText(r)
  }

  function LastOperand(t: Tree): Operand {
    match t
    case Leaf(o) => o
    case Node(_, _, r) => LastOperand(r)
  }

  /** A plus sign behind a misread operand is taken for a unary one and missed. */
  predicate Missed(t: Tree)
    requires t.Node?
  {
    t.operator == Plus && Misread(LastOperand(t.left))
  }

  /** The scanner's answer when it comes out of every operand: the root operator, or when that is missed
      the answer for the left operand. */
  function Found(t: Tree): Option<Hit> {
    match t
    case Leaf(_) => None
    case Node(op, l, r) => if Missed(t) then Found(l) else Some(Hit(op, |TreeText(l)| + 1))
  }
}
