/**
 * Behind which texts the scanner expects an operand, for every text: isUnaryPosition
 * (apps/trace-service/src/server/execute/parse.ts) against the tokens of JavaScript, by the last token.  That is
 * what decides whether a slash begins a regex literal.
 */
module OperatorPositions {
  import opened JsString
  import opened Optional
  import opened OperatorScan
  import opened OperatorTrees
  import opened OperatorReading
  import opened OperatorTreeProofs
  import opened OperatorRoots

  // ---- tokens --------------------------------------------------------------------------------------

  /** Letters, digits, underscore and dollar sign, by code. */
  predicate WordChar(c: char) {
    var n := c as int;
    48 <= n <= 57 || 65 <= n <= 90 || 97 <= n <= 122 || n == 36 || n == 95
  }

  predicate Word(s: string) { s != "" && forall i :: 0 <= i < |s| ==> WordChar(s[i]) }

  /** Nothing of a word runs on to the left of the end of this text. */
  predicate Breaks(before: string) { before != "" ==> !WordChar(before[|before| - 1]) }

  /** The last character of an operator, after which JavaScript wants an operand. */
  predicate Operates(c: char) {
    || c == '+' || c == '-' || c == '*' || c == '/' || c == '%' || c == '<' || c == '>' || c == '=' || c == '!'
    || c == '&' || c == '|' || c == '^' || c == '~'
  }

  predicate Separates(c: char) { c == ',' || c == ':' || c == '?' || c == ';' }

  predicate Begins(c: char) { c == '(' || c == '[' || c == '{' }

  /** The keywords that take an operand. */
  predicate TakesOperand(word: string) {
    || word == "typeof" || word == "void" || word == "delete" || word == "new" || word == "in" || word == "instanceof"
    || word == "await" || word == "yield"
  }

  predicate DigitsThenE(word: string) {
    && word != "" && (word[|word| - 1] == 'e' || word[|word| - 1] == 'E')
    && forall i :: 0 <= i < |word| - 1 ==> '0' <= word[i] <= '9' || word[i] == '_'
  }

  lemma WordCharIs(c: char)
    ensures WordChar(c) <==> IsIdentChar(c)
    ensures WordChar(c) ==> !IsSpace(c) && c != '.' && !Operates(c) && !Separates(c) && !Begins(c)
  {
  }

  lemma PunctuationIs(c: char)
    ensures IsOperandExpected(c) <==> Operates(c) || Begins(c) || Separates(c)
    ensures Operates(c) || Begins(c) || Separates(c) ==> !IsSpace(c)
  {
  }

  lemma KeywordsAre(word: string)
    ensures word in WORD_UNARY <==> TakesOperand(word)
  {
  }

  // ---- behind each kind of last token ----------------------------------------------------------------

  /** The last character that is no space. */
  lemma LastCharacter(text: string, i: nat, spaces: string)
    requires text != "" && i == |text| - 1 && !IsSpace(text[i]) && Spaces(spaces)
    ensures UnaryPosition(text + spaces, |text + spaces|)
            <==> IsOperandExpected(text[i]) || ExponentMark(text, i) || UnaryWord(text, i)
  {
    hide IsSpace, IsOperandExpected, ExponentMark, UnaryWord, UnaryPosition;
    var s := text + spaces;
    assert forall j :: i < j < |s| ==> s[j] == spaces[j - |text|];
    assert s[i] == text[i] && s[..|text|] == text;
    ToLast(s, i);
    ToLast(text, i);
    PositionIsPrefix(s, |text|);
  }

  lemma ToLast(s: string, i: nat)
    requires i < |s| && !IsSpace(s[i]) && forall j :: i < j < |s| ==> IsSpace(s[j])
    ensures UnaryPosition(s, |s|) <==> IsOperandExpected(s[i]) || ExponentMark(s, i) || UnaryWord(s, i)
    ensures UnaryPosition(s, i + 1) <==> IsOperandExpected(s[i]) || ExponentMark(s, i) || UnaryWord(s, i)
  {
    hide IsSpace, IsOperandExpected, ExponentMark, UnaryWord;
    SkipBackTo(s, |s| - 1, i, IsSpace);
    SkipBackTo(s, i, i, IsSpace);
  }

  /** At the start an operand is due. */
  lemma DueAtStart(spaces: string)
    requires Spaces(spaces)
    ensures UnaryPosition(spaces, |spaces|)
  {
    hide IsSpace;
    SkipBackTo(spaces, |spaces| - 1, -1, IsSpace);
  }

  /** Behind punctuation an operand is due if and only if that is an operator, an opening bracket or a separator:
      not behind a closing bracket, a quote or a full stop. */
  lemma DueBehindPunctuation(before: string, c: char, spaces: string)
    requires !WordChar(c) && !IsSpace(c) && Spaces(spaces)
    ensures var s := before + [c] + spaces; UnaryPosition(s, |s|) <==> Operates(c) || Begins(c) || Separates(c)
  {
    hide IsSpace, IsOperandExpected, ExponentMark, UnaryWord, UnaryPosition, WordChar, IsIdentChar;
    var text := before + [c];
    LastCharacter(text, |before|, spaces);
    WordCharIs(c);
    PunctuationIs(c);
    NoWordThere(text, |before|);
  }

  lemma NoWordThere(input: string, i: nat)
    requires i < |input| && !IsIdentChar(input[i])
    ensures !ExponentMark(input, i) && !UnaryWord(input, i)
  {
    hide IsSpace;
    PunctuationEndsNoWord(input, i);
  }

  /** Behind a word, if and only if that is a keyword that takes an operand, or it is spelled like a number that
      awaits its exponent. */
  lemma DueBehindWord(before: string, word: string, spaces: string)
    requires Word(word) && Breaks(before) && (before != "" ==> before[|before| - 1] != '.') && Spaces(spaces)
    ensures var s := before + word + spaces; UnaryPosition(s, |s|) <==> TakesOperand(word) || (DigitsThenE(word) && |word| > 1)
  {
    hide IsSpace, IsOperandExpected, ExponentMark, UnaryWord, UnaryPosition, WordChar, IsIdentChar;
    var text, i := before + word, |before + word| - 1;
    WordCharIs(text[i]);
    PunctuationIs(text[i]);
    LastCharacter(text, i, spaces);
    EndsInWord(before, word);
    EndsInExponent(before, word);
  }

  lemma EndsInWord(before: string, word: string)
    requires Word(word) && Breaks(before)
    ensures UnaryWord(before + word, |before + word| - 1) <==> TakesOperand(word)
  {
    hide IsIdentChar, WordChar, IsLetter;
    var text, k := before + word, |before|;
    forall j | k <= j < |text| ensures IsIdentChar(text[j]) { assert text[j] == word[j - k]; WordCharIs(text[j]); }
    if k > 0 { assert text[k - 1] == before[k - 1]; WordCharIs(text[k - 1]); }
    SkipBackTo(text, |text| - 1, k - 1, IsIdentChar);
    assert text[k..|text|] == word;
    KeywordsAre(word);
    if TakesOperand(word) { KeywordLast(word); }
  }

  lemma KeywordLast(word: string)
    requires TakesOperand(word)
    ensures IsLetter(word[|word| - 1])
  {
  }

  lemma NumberCharIs(c: char)
    ensures IsNumberChar(c) <==> '0' <= c <= '9' || c == '_'
    ensures IsNumberChar(c) ==> WordChar(c)
  {
  }

  /** The digits that end a text, back to where its last word begins. */
  lemma EndsInExponent(before: string, word: string)
    requires Word(word) && Breaks(before) && (before != "" ==> before[|before| - 1] != '.')
    ensures ExponentMark(before + word, |before + word| - 1) <==> DigitsThenE(word) && |word| > 1
  {
    hide IsIdentChar, WordChar, IsNumberChar;
    var text, k, i := before + word, |before|, |before + word| - 1;
    forall j | k <= j < |text| ensures text[j] == word[j - k] && WordChar(text[j]) && text[j] != '.' { WordCharIs(text[j]); }
    assert text[i] == word[|word| - 1];
    if k > 0 { assert text[k - 1] == before[k - 1]; NumberCharIs(text[k - 1]); WordCharIs(text[k - 1]); }
    SkipBackMeans(text, i - 1, IsNumberChar);
    var j := SkipBack(text, i - 1, IsNumberChar);
    if DigitsThenE(word) {
      forall q | k <= q < i ensures IsNumberChar(text[q]) { NumberCharIs(text[q]); }
      SkipBackTo(text, i - 1, k - 1, IsNumberChar);
    } else if j >= k {
      WordCharIs(text[j]);
    } else if text[i] == 'e' || text[i] == 'E' {
      forall q | 0 <= q < |word| - 1 ensures '0' <= word[q] <= '9' || word[q] == '_' {
        assert text[k + q] == word[q];
        NumberCharIs(text[k + q]);
      }
    }
  }

  /** Behind a full stop and a word, if and only if the word is such a keyword, or the two end a number with a
      fraction that awaits its exponent: `whole` are the digits before the full stop. */
  lemma DueBehindFraction(before: string, whole: string, word: string, spaces: string)
    requires Word(word) && Spaces(spaces) && forall i :: 0 <= i < |whole| ==> '0' <= whole[i] <= '9' || whole[i] == '_'
    requires before != "" ==> !('0' <= before[|before| - 1] <= '9') && before[|before| - 1] != '_'
    ensures var s := before + whole + "." + word + spaces;
            UnaryPosition(s, |s|) <==> TakesOperand(word) || (DigitsThenE(word) && Breaks(before))
  {
    hide IsSpace, IsOperandExpected, ExponentMark, UnaryWord, UnaryPosition, WordChar, IsIdentChar;
    var text := before + whole + "." + word;
    var i := |text| - 1;
    WordCharIs(text[i]);
    PunctuationIs(text[i]);
    LastCharacter(text, i, spaces);
    StopBreaks(before + whole);
    EndsInWord(before + whole + ".", word);
    EndsInFraction(before, whole, word);
  }

  lemma StopBreaks(s: string)
    ensures Breaks(s + ".")
  {
  }

  lemma EndsInFraction(before: string, whole: string, word: string)
    requires Word(word) && forall i :: 0 <= i < |whole| ==> '0' <= whole[i] <= '9' || whole[i] == '_'
    requires before != "" ==> !('0' <= before[|before| - 1] <= '9') && before[|before| - 1] != '_'
    ensures var text := before + whole + "." + word; ExponentMark(text, |text| - 1) <==> DigitsThenE(word) && Breaks(before)
  {
    hide IsIdentChar, WordChar, IsNumberChar;
    var text := before + whole + "." + word;
    var k, dot, i := |before|, |before + whole|, |text| - 1;
    assert text[dot] == '.';
    NumberCharIs(text[dot]);
    WordCharIs(text[dot]);
    forall j | dot < j < |text| ensures text[j] == word[j - dot - 1] && WordChar(text[j]) && text[j] != '.' { WordCharIs(text[j]); }
    forall j | k <= j < dot ensures IsNumberChar(text[j]) { assert text[j] == whole[j - k]; NumberCharIs(text[j]); }
    if k > 0 { assert text[k - 1] == before[k - 1]; NumberCharIs(text[k - 1]); WordCharIs(text[k - 1]); }
    SkipBackTo(text, dot - 1, k - 1, IsNumberChar);
    SkipBackMeans(text, i - 1, IsNumberChar);
    var j := SkipBack(text, i - 1, IsNumberChar);
    if DigitsThenE(word) {
      forall q | dot < q < i ensures IsNumberChar(text[q]) { NumberCharIs(text[q]); }
      SkipBackTo(text, i - 1, dot, IsNumberChar);
    } else if j > dot {
      WordCharIs(text[j]);
    } else if text[i] == 'e' || text[i] == 'E' {
      forall q | 0 <= q < |word| - 1 ensures '0' <= word[q] <= '9' || word[q] == '_' {
        assert text[dot + 1 + q] == word[q];
        NumberCharIs(text[dot + 1 + q]);
      }
    }
  }

  // ---- regex literals and operators there --------------------------------------------------------------

  /** The text ends in something that JavaScript wants an operand behind: punctuation, a keyword, or nothing yet. */
  ghost predicate WantsOperand(text: string) {
    exists before, last, spaces :: text == before + last + spaces && Spaces(spaces) && Wants(before, last)
  }

  predicate Wants(before: string, last: string) {
    || (|last| == 1 && (Operates(last[0]) || Begins(last[0]) || Separates(last[0])))
    || (TakesOperand(last) && Breaks(before) && (before != "" ==> before[|before| - 1] != '.'))
    || (before == "" && last == "")
  }

  lemma WantedIsDue(text: string)
    requires WantsOperand(text)
    ensures UnaryPosition(text, |text|)
  {
    hide UnaryPosition, IsSpace, WordChar, Operates, Begins, Separates, TakesOperand;
    var before, last, spaces :| text == before + last + spaces && Spaces(spaces) && Wants(before, last);
    if last == "" && before == "" {
      assert text == spaces;
      DueAtStart(spaces);
    } else if |last| == 1 && (Operates(last[0]) || Begins(last[0]) || Separates(last[0])) {
      assert last == [last[0]];
      WordCharIs(last[0]);
      PunctuationIs(last[0]);
      DueBehindPunctuation(before, last[0], spaces);
    } else {
      KeywordIsWord(last);
      DueBehindWord(before, last, spaces);
    }
  }

  lemma KeywordIsWord(word: string)
    requires TakesOperand(word)
    ensures Word(word)
  {
  }

  /** A regex literal anywhere within brackets, behind such a text, is read as a regex literal. */
  lemma RegexIsRead(before: string, lead: string, body: seq<RegexUnit>, flags: string, rest: Content)
    requires WantsOperand(before + lead)
    ensures Reads(before + lead, Regex(body, flags))
    ensures ReadsContent(before, Item(lead, Regex(body, flags), rest))
            <==> ReadsContent(before + lead + Text(Regex(body, flags)), rest)
  {
    hide UnaryPosition, WantsOperand;
    WantedIsDue(before + lead);
  }

  /** For example behind a comma: the bracket in the regex of `(1, /(/) == 2` does not count, and the root is found. */
  lemma FoundBehindComma(r: Option<Hit>)
    requires IsRoot("(1, /(/) == 2", r)
    ensures r == Some(Hit(LooseEq, 9))
  {
    hide HitAt, UnaryPosition, WellFormed, Text, Reads, IsRoot, Grammatical, AllRead, Missed, TreeText;
    var regex := Regex([Plain('(')], "");
    var operand := Group('(', Item("1, ", regex, End("")));
    var two := Number(Decimal("2", None, None));
    var t := Node(LooseEq, Leaf(operand), Leaf(two));
    CommaOperand(regex, operand);
    CommaReads(regex, operand);
    CommaTree(operand, two);
    RootFoundIffNotMissed(t, r);
  }

  lemma CommaTree(operand: Operand, two: Operand)
    requires WellFormed(operand) && Text(operand) == "(1, /(/)" && Reads("", operand) && two == Number(Decimal("2", None, None))
    ensures var t := Node(LooseEq, Leaf(operand), Leaf(two));
            Grammatical(t) && AllRead(t) && !Missed(t) && TreeText(t) == "(1, /(/) == 2" && |TreeText(t.left)| == 8
  {
    assert NumeralText(Decimal("2", None, None)) == "2" + "" + "" == "2";
    hide WellFormedContent, ContentText, ReadsContent;
    assert WellFormed(two) && Text(two) == "2" && Reads("", two);
    assert "(1, /(/)" + " " + "==" + " " + "2" == "(1, /(/) == 2";
  }

  lemma CommaOperand(regex: Operand, operand: Operand)
    requires regex == Regex([Plain('(')], "") && operand == Group('(', Item("1, ", regex, End("")))
    ensures WellFormed(operand) && Text(operand) == "(1, /(/)"
  {
    assert [Plain('(')][1..] == [];
    assert RegexText([Plain('(')]) == "(" + "" == "(";
    assert WellFormedRegex([Plain('(')], false);
    assert Text(regex) == "/" + "(" + "/" + "" == "/(/";
    var content := Item("1, ", regex, End(""));
    assert ContentText(content) == "1, " + "/(/" + "" == "1, /(/";
    assert WellFormedContent(content);
  }

  lemma CommaReads(regex: Operand, operand: Operand)
    requires regex == Regex([Plain('(')], "") && operand == Group('(', Item("1, ", regex, End("")))
    ensures Reads("", operand)
  {
    hide UnaryPosition, WantsOperand, Text;
    assert WantsOperand("(" + "1, ") by {
      assert "(" + "1, " == "(1" + "," + " ";
      BlankSpaces();
      WantsAt("(1", ",", " ");
    }
    assert "" + ['('] == "(";
    RegexIsRead("(", "1, ", regex.body, regex.flags, End(""));
  }

  lemma BlankSpaces()
    ensures Spaces(" ")
  {
  }

  lemma WantsAt(before: string, last: string, spaces: string)
    requires |last| == 1 && (Operates(last[0]) || Begins(last[0]) || Separates(last[0])) && Spaces(spaces)
    ensures WantsOperand(before + last + spaces)
  {
  }

  /** Neither character of an arrow is an operator, and code goes on behind it. */
  lemma ArrowIsPassed(input: string, k: nat)
    requires k + 1 < |input| && input[k] == '=' && input[k + 1] == '>' && ModeAt(input, k) == Code(0)
    ensures HitAt(input, k).None? && HitAt(input, k + 1).None? && ModeAt(input, k + 2) == Code(0)
  {
    hide UnaryPosition;
    Spellings(input, k);
    assert ModeAt(input, k + 1) == InOperator(1);
    assert ModeAt(input, k + 2) == Read(input, k + 1, InOperator(1));
  }

  /** Neither sign of an increment is a plus. */
  lemma IncrementIsNoPlus(input: string, k: nat)
    requires k + 1 < |input| && input[k] == '+' && input[k + 1] == '+' && ModeAt(input, k) == Code(0)
    ensures HitAt(input, k).None? && HitAt(input, k + 1).None?
  {
    assert UnaryPosition(input, k + 1) by {
      hide UnaryPosition;
      PunctuationIs('+');
      DueAfter(input, k, k + 1);
    }
    hide UnaryPosition;
    Spellings(input, k);
    Spellings(input, k + 1);
  }

  /** A string or template literal, whichever quote begins it, is passed over whole: escapes in pairs, and nothing in
      it is an operator or a bracket. */
  lemma StringIsPassed(input: string, k: nat, quote: char, units: seq<StringUnit>, depth: nat)
    requires quote == '"' || quote == '\'' || quote == '`'
    requires forall i :: 0 <= i < |units| ==> (units[i].Raw? ==> units[i].c != quote && units[i].c != '\\')
    requires StartsAt(input, k, [quote] + UnitsText(units) + [quote]) && Calm(input, k, depth)
    ensures var n := k + |UnitsText(units)| + 2; Calm(input, n, depth) && NoHits(input, k, n)
  {
    hide HitAt, ModeAt, UnitsText, StartsAt, Calm;
    StringLiteralScan(input, k, quote, units, depth);
  }

  /** Outside literals the three kinds of brackets, and nothing else, open and close a level. */
  lemma BracketsNest(input: string, k: nat, depth: nat)
    requires k < |input| && ModeAt(input, k) == Code(depth) && depth > 0
    requires input[k] != '"' && input[k] != '\'' && input[k] != '`' && input[k] != '/'
    ensures ModeAt(input, k + 1) == Code(
              if Begins(input[k]) then depth + 1
              else if input[k] == ')' || input[k] == ']' || input[k] == '}' then depth - 1 else depth)
  {
    hide UnaryPosition, OperatorAt;
  }
}
