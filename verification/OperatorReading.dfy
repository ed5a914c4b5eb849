/** How the lexer reads stretches of text, and that it reads an operand as it would alone. */
module OperatorReading {
  import opened JsString
  import opened Optional
  import opened OperatorScan
  import opened OperatorTrees

  // ---- reading text --------------------------------------------------------------------------

  /** Outside every literal, at this depth (perhaps right behind a regex's flags). */
  ghost predicate Calm(input: string, k: nat, depth: nat)
    requires k <= |input|
  {
    ModeAt(input, k) == Code(depth) || ModeAt(input, k) == RegexFlags(depth)
  }

  ghost predicate NoHits(input: string, k: nat, n: nat) {
    forall j :: k <= j < n && j < |input| ==> HitAt(input, j).None?
  }

  lemma Split(input: string, k: nat, a: string, b: string)
    requires StartsAt(input, k, a + b)
    ensures StartsAt(input, k, a) && StartsAt(input, k + |a|, b)
  {
  }

  /** A character that cannot begin an operator at depth 0, nor a literal or bracket anywhere. */
  predicate Inert(c: char) { PlainChar(c) && c !in "=!<>+" }

  lemma PlainStep(input: string, k: nat, depth: nat)
    requires k < |input| && Calm(input, k, depth) && PlainChar(input[k])
    requires depth == 0 ==> OperatorAt(input, k).None? && !StartsAt(input, k, "=>")
    ensures Calm(input, k + 1, depth) && HitAt(input, k).None?
  {
    hide OperatorAt, UnaryPosition;
  }

  lemma InertIsNoOperator(input: string, k: nat)
    requires k < |input| && Inert(input[k])
    ensures OperatorAt(input, k).None? && !StartsAt(input, k, "=>")
  {
    hide OperatorAt;
    Spellings(input, k);
    if OperatorAt(input, k).Some? { OperatorStarts(input, k); }
  }

  lemma {:induction false} PlainRun(input: string, k: nat, n: nat, depth: nat)
    requires k <= n <= |input| && Calm(input, k, depth)
    requires forall j :: k <= j < n ==> PlainChar(input[j]) && (depth == 0 ==> Inert(input[j]))
    ensures Calm(input, n, depth) && NoHits(input, k, n)
    decreases n - k
  {
    hide OperatorAt, HitAt, ModeAt;
    if k < n {
      InertAt(input, k, depth);
      PlainStep(input, k, depth);
      PlainRun(input, k + 1, n, depth);
    }
  }

  lemma InertAt(input: string, k: nat, depth: nat)
    requires k < |input| && (depth == 0 ==> Inert(input[k]))
    ensures depth == 0 ==> OperatorAt(input, k).None? && !StartsAt(input, k, "=>")
  {
    if depth == 0 { InertIsNoOperator(input, k); }
  }

  // ---- where an operand is due ---------------------------------------------------------------

  lemma {:induction false} SkipBackTo(input: string, i: int, j: int, class_: char -> bool)
    requires -1 <= j <= i < |input|
    requires forall k :: j < k <= i ==> class_(input[k])
    requires j >= 0 ==> !class_(input[j])
    ensures SkipBack(input, i, class_) == j
    decreases i - j
  {
    if j < i { SkipBackTo(input, i - 1, j, class_); }
  }

  /** Nothing before `k` can run into a token that starts there. */
  predicate Boundary(input: string, k: nat)
    requires k <= |input|
  {
    k > 0 ==> IsSpace(input[k - 1]) || IsOperandExpected(input[k - 1])
  }

  /** An operand that starts at `k` is read as one. */
  predicate Due(input: string, k: nat)
    requires k <= |input|
  {
    Boundary(input, k) && UnaryPosition(input, k)
  }

  lemma SeparatorsAreNoTokens(c: char)
    requires IsSpace(c) || IsOperandExpected(c)
    ensures !IsIdentChar(c) && !IsNumberChar(c) && c != '.'
  {
  }

  lemma PunctuationIsNoSpace(c: char)
    requires IsOperandExpected(c)
    ensures !IsSpace(c)
  {
  }

  /** After punctuation and any space, or at the very start, an operand is due. */
  lemma DueAfter(input: string, j: int, k: nat)
    requires -1 <= j < k <= |input|
    requires j >= 0 ==> IsOperandExpected(input[j])
    requires forall i :: j < i < k ==> IsSpace(input[i])
    ensures Due(input, k)
  {
    hide IsOperandExpected, IsSpace;
    if j >= 0 { PunctuationIsNoSpace(input[j]); }
    SkipBackTo(input, k - 1, j, IsSpace);
  }

  lemma DueAfterKeyword(input: string, k: nat, word: string)
    requires word in WORD_UNARY && StartsAt(input, k, word + " ") && Boundary(input, k)
    requires IdentChars(word) && word != "" && !IsDigit(word[|word| - 1])
    ensures Due(input, k + |word| + 1)
  {
    hide ExponentMark, IsOperandExpected, UnaryPosition, IsSpace, UnaryWord;
    var n := k + |word|;
    Split(input, k, word, " ");
    assert input[n] == " "[0];
    KeywordEnds(input, k, word);
    assert IsSpace(' ') by { BlankIsSpace(); }
    NotDueAfter(input, n - 1, n + 1);
  }

  lemma KeywordEnds(input: string, k: nat, word: string)
    requires word in WORD_UNARY && StartsAt(input, k, word) && Boundary(input, k)
    requires IdentChars(word) && word != "" && !IsDigit(word[|word| - 1])
    ensures UnaryWord(input, k + |word| - 1) && IsIdentChar(input[k + |word| - 1])
  {
    hide Boundary, IsLetter;
    var n := k + |word|;
    assert input[n - 1] == word[|word| - 1];
    WordEnds(input, k, n);
    assert input[k..n] == word;
  }

  lemma BlankIsSpace()
    ensures IsSpace(' ')
  {
  }

  predicate Graphic(c: char) { '!' <= c <= '~' }

  lemma GraphicIsNoSpace(c: char)
    requires Graphic(c)
    ensures !IsSpace(c)
  {
  }

  /** Behind a character and any space, the scanner asks that character alone. */
  lemma NotDueAfter(input: string, i: nat, m: nat)
    requires i < m <= |input| && Graphic(input[i]) && forall j :: i < j < m ==> IsSpace(input[j])
    ensures UnaryPosition(input, m) <==> IsOperandExpected(input[i]) || ExponentMark(input, i) || UnaryWord(input, i)
  {
    hide IsSpace, IsOperandExpected, ExponentMark, UnaryWord;
    GraphicIsNoSpace(input[i]);
    SkipBackTo(input, m - 1, i, IsSpace);
  }

  /** An identifier-like run with nothing joined on in front. */
  lemma WordEnds(input: string, k: nat, n: nat)
    requires k < n <= |input| && Boundary(input, k) && forall i :: k <= i < n ==> IsIdentChar(input[i])
    ensures SkipBack(input, n - 1, IsIdentChar) == k - 1
  {
    if k > 0 { SeparatorsAreNoTokens(input[k - 1]); }
    SkipBackTo(input, n - 1, k - 1, IsIdentChar);
  }

  // ---- reading is local ------------------------------------------------------------------------
  //
  // Text that starts where an operand is due is read as it would be alone.

  lemma {:induction false} SkipBackIsLocal(input: string, k: nat, s: string, i: int, class_: char -> bool)
    requires StartsAt(input, k, s) && -1 <= i < |s| && (k > 0 ==> !class_(input[k - 1]))
    ensures SkipBack(input, k + i, class_) == k + SkipBack(s, i, class_)
    decreases i + 1
  {
    if i >= 0 {
      assert input[k + i] == s[i];
      if class_(s[i]) { SkipBackIsLocal(input, k, s, i - 1, class_); }
    }
  }

  lemma ExponentIsLocal(input: string, k: nat, s: string, i: nat)
    requires StartsAt(input, k, s) && i < |s| && Boundary(input, k)
    ensures ExponentMark(input, k + i) <==> ExponentMark(s, i)
  {
    hide IsSpace, IsOperandExpected, IsNumberChar, IsIdentChar, Boundary;
    assert input[k + i] == s[i];
    BoundaryIsNoToken(input, k);
    SkipBackIsLocal(input, k, s, i - 1, IsNumberChar);
    var j := SkipBack(s, i - 1, IsNumberChar);
    if j >= 0 {
      assert input[k + j] == s[j];
      SkipBackIsLocal(input, k, s, j - 1, IsNumberChar);
      var m := SkipBack(s, j - 1, IsNumberChar);
      if m >= 0 { assert input[k + m] == s[m]; }
    }
  }

  lemma BoundaryIsNoToken(input: string, k: nat)
    requires k <= |input| && Boundary(input, k)
    ensures k > 0 ==> !IsIdentChar(input[k - 1]) && !IsNumberChar(input[k - 1]) && input[k - 1] != '.'
  {
    if k > 0 { SeparatorsAreNoTokens(input[k - 1]); }
  }

  lemma WordIsLocal(input: string, k: nat, s: string, i: nat)
    requires StartsAt(input, k, s) && i < |s| && Boundary(input, k)
    ensures UnaryWord(input, k + i) <==> UnaryWord(s, i)
  {
    hide IsSpace, IsOperandExpected, IsNumberChar, IsIdentChar, IsLetter, Boundary;
    assert input[k + i] == s[i];
    BoundaryIsNoToken(input, k);
    SkipBackIsLocal(input, k, s, i, IsIdentChar);
    var j := SkipBack(s, i, IsIdentChar);
    assert input[k + j + 1..k + i + 1] == s[j + 1..i + 1];
  }

  lemma PositionIsLocal(input: string, k: nat, s: string, j: nat)
    requires StartsAt(input, k, s) && j <= |s| && Due(input, k)
    ensures UnaryPosition(input, k + j) <==> UnaryPosition(s, j)
  {
    hide IsSpace, IsOperandExpected, ExponentMark, UnaryWord, Boundary;
    var i := SkipBack(s, j - 1, IsSpace);
    SkipBackMeans(s, j - 1, IsSpace);
    if i < 0 {
      forall m | k <= m < k + j ensures IsSpace(input[m]) { assert input[m] == s[m - k]; }
      SkipBackPast(input, k - 1, k + j - 1, IsSpace);
    } else {
      assert input[k + i] == s[i];
      forall m | k + i < m < k + j ensures IsSpace(input[m]) { assert input[m] == s[m - k]; }
      SkipBackTo(input, k + j - 1, k + i, IsSpace);
      ExponentIsLocal(input, k, s, i);
      WordIsLocal(input, k, s, i);
    }
  }

  lemma {:induction false} SkipBackPast(input: string, i: int, j: int, class_: char -> bool)
    requires -1 <= i <= j < |input| && forall m :: i < m <= j ==> class_(input[m])
    ensures SkipBack(input, j, class_) == SkipBack(input, i, class_)
    decreases j - i
  {
    if i < j { SkipBackPast(input, i, j - 1, class_); }
  }

  /** Whether an operand is due depends on the text before alone. */
  lemma PositionIsPrefix(input: string, k: nat)
    requires k <= |input|
    ensures UnaryPosition(input[..k], k) <==> UnaryPosition(input, k)
  {
    hide IsSpace, IsOperandExpected, ExponentMark, UnaryWord;
    PositionIsLocal(input, 0, input[..k], k);
  }

  predicate OperatorChar(c: char) { c in "=!<>+" }

  /** Text that does not end in an operator character shows every operator in it whole. */
  lemma SpellingIsLocal(input: string, k: nat, s: string, j: nat, word: string)
    requires StartsAt(input, k, s) && j < |s| && !OperatorChar(s[|s| - 1])
    requires forall i :: 0 <= i < |word| ==> OperatorChar(word[i])
    ensures StartsAt(input, k + j, word) <==> StartsAt(s, j, word)
  {
    hide OperatorChar;
    forall i | 0 <= i < |s| ensures input[k + i] == s[i] {}
  }

  lemma OperatorIsLocal(input: string, k: nat, s: string, j: nat)
    requires StartsAt(input, k, s) && j < |s| && !OperatorChar(s[|s| - 1]) && Due(input, k)
    ensures OperatorAt(input, k + j) == OperatorAt(s, j)
    ensures StartsAt(input, k + j, "=>") <==> StartsAt(s, j, "=>")
  {
    hide UnaryPosition, StartsAt, Due;
    SpellingIsLocal(input, k, s, j, "=>");
    SpellingIsLocal(input, k, s, j, "===");
    SpellingIsLocal(input, k, s, j, "!==");
    SpellingIsLocal(input, k, s, j, "==");
    SpellingIsLocal(input, k, s, j, "!=");
    SpellingIsLocal(input, k, s, j, "<=");
    SpellingIsLocal(input, k, s, j, ">=");
    SpellingIsLocal(input, k, s, j, "<");
    SpellingIsLocal(input, k, s, j, ">");
    SpellingIsLocal(input, k, s, j, "+");
    SpellingIsLocal(input, k, s, j, "++");
    PositionIsLocal(input, k, s, j);
  }

  lemma ReadIsLocal(input: string, k: nat, s: string, j: nat, mode: Mode)
    requires StartsAt(input, k, s) && j < |s| && !OperatorChar(s[|s| - 1]) && Due(input, k)
    ensures Read(input, k + j, mode) == Read(s, j, mode)
  {
    hide UnaryPosition, OperatorAt, Due, OperatorChar;
    assert input[k + j] == s[j];
    PositionIsLocal(input, k, s, j);
    OperatorIsLocal(input, k, s, j);
    hide StartsAt;
  }

  /** The lexer reads text that starts where an operand is due exactly as it reads that text alone. */
  lemma {:induction false} LexingIsLocal(input: string, k: nat, s: string, j: nat)
    requires StartsAt(input, k, s) && j <= |s| && s != "" && !OperatorChar(s[|s| - 1])
    requires Due(input, k) && ModeAt(input, k) == Code(0)
    ensures ModeAt(input, k + j) == ModeAt(s, j)
    ensures j < |s| ==> HitAt(input, k + j) == HitAt(s, j)
  {
    hide UnaryPosition, OperatorAt, Read, Due, OperatorChar;
    if j > 0 {
      LexingIsLocal(input, k, s, j - 1);
      ReadIsLocal(input, k, s, j - 1, ModeAt(s, j - 1));
    }
    if j < |s| {
      assert input[k + j] == s[j];
      OperatorIsLocal(input, k, s, j);
    }
  }
}
