/** When the scanner's answer is the root of an expression: exactly, and by its operands. */
module OperatorRoots {
  import opened JsString
  import opened Optional
  import opened OperatorScan
  import opened OperatorTrees
  import opened OperatorReading
  import opened OperatorTreeProofs

  // ---- trees ---------------------------------------------------------------------------------------

  /** Read alone, the text ends outside every literal and every bracket pair. */
  ghost predicate Closes(s: string) { Calm(s, |s|, 0) }

  /** Read alone, the text shows no operator looser than this rank. */
  ghost predicate NoneLooser(s: string, rank: nat) {
    forall j :: 0 <= j < |s| && HitAt(s, j).Some? ==> Rank(HitAt(s, j).value) >= rank
  }

  /** Read alone, an operand closes and shows no operator at all. */
  ghost predicate Sealed(o: Operand) { Closes(Text(o)) && NoneLooser(Text(o), 3) }

  ghost predicate AllSealed(t: Tree) {
    match t
    case Leaf(o) => Sealed(o)
    case Node(_, l, r) => AllSealed(l) && AllSealed(r)
  }

  /** The root of an expression shows: its plus sign is not missed, and its two sides, each read alone, let it
      through.  The left one closes and shows nothing looser, the right one nothing as loose. */
  ghost predicate Seen(t: Tree)
    requires t.Node?
  {
    && !Missed(t) && Closes(TreeText(t.left))
    && NoneLooser(TreeText(t.left), Rank(t.operator)) && NoneLooser(TreeText(t.right), Rank(t.operator) + 1)
  }

  /** `r` is the last hit of the loosest class within `[k, n)`, at an index counted from `k`. */
  ghost predicate RootWithin(input: string, k: nat, n: nat, r: Option<Hit>)
    requires k <= n <= |input|
  {
    match r
    case None => NoHits(input, k, n)
    case Some(hit) =>
      && k + hit.index < n && HitAt(input, k + hit.index) == Some(hit.operator)
      && forall j :: k <= j < n && HitAt(input, j).Some? ==>
           || Rank(HitAt(input, j).value) > Rank(hit.operator)
           || (Rank(HitAt(input, j).value) == Rank(hit.operator) && j <= k + hit.index)
  }

  /** Every hit within `[k, n)` binds at least this tightly. */
  ghost predicate HitsBind(input: string, k: nat, n: nat, rank: nat) {
    forall j :: k <= j < n && j < |input| && HitAt(input, j).Some? ==> Rank(HitAt(input, j).value) >= rank
  }

  lemma {:induction false} AfterTree(input: string, k: nat, t: Tree, m: nat)
    requires Grammatical(t) && StartsAt(input, k, TreeText(t)) && Due(input, k)
    requires k + |TreeText(t)| <= m <= |input| && forall j :: k + |TreeText(t)| <= j < m ==> IsSpace(input[j])
    ensures UnaryPosition(input, m) <==> Misread(LastOperand(t))
    decreases t
  {
    hide Due, UnaryPosition, IsSpace, Text, WellFormed, Misread;
    match t
    case Leaf(o) => AfterOperand(input, k, o, m);
    case Node(op, l, r) =>
      NodeParts(input, k, op, l, r);
      var e := k + |TreeText(l)| + 1 + |Spelling(op)|;
      OperatorIsDue(input, k + |TreeText(l)| + 1, op);
      AfterTree(input, e + 1, r, m);
  }

  lemma NodeParts(input: string, k: nat, op: Operator, l: Tree, r: Tree)
    requires StartsAt(input, k, TreeText(Node(op, l, r)))
    ensures var p := k + |TreeText(l)|;
            && StartsAt(input, k, TreeText(l))
            && StartsAt(input, p, " ")
            && StartsAt(input, p + 1, Spelling(op) + " ")
            && StartsAt(input, p + 1 + |Spelling(op)| + 1, TreeText(r))
  {
    hide StartsAt, Spelling;
    var a, b, c := TreeText(l), Spelling(op), TreeText(r);
    assert TreeText(Node(op, l, r)) == a + (" " + ((b + " ") + c));
    Split(input, k, a, " " + ((b + " ") + c));
    Split(input, k + |a|, " ", (b + " ") + c);
    Split(input, k + |a| + 1, b + " ", c);
  }

  /** Behind an operator and a space an operand is due. */
  lemma OperatorIsDue(input: string, p: nat, op: Operator)
    requires StartsAt(input, p, Spelling(op) + " ")
    ensures Due(input, p + |Spelling(op)| + 1)
  {
    hide Due;
    var s, e := Spelling(op) + " ", p + |Spelling(op)|;
    assert input[e] == s[|Spelling(op)|] && input[e - 1] == s[|Spelling(op)| - 1];
    DueAfter(input, e - 1, e + 1);
  }

  /** An operator between spaces is seen unless it is a plus sign where an operand is due; either way
      the scanner is back in code behind it. */
  lemma OperatorScanned(input: string, p: nat, op: Operator)
    requires StartsAt(input, p, Spelling(op) + " ") && ModeAt(input, p) == Code(0)
    ensures var n := p + |Spelling(op)| + 1;
            && HitAt(input, p) == (if op == Plus && UnaryPosition(input, p) then None else Some(op))
            && NoHits(input, p + 1, n) && ModeAt(input, n) == Code(0)
  {
    hide UnaryPosition, OperatorAt, ReadCode;
    var s := Spelling(op);
    Split(input, p, s, " ");
    assert input[p + |s|] == " "[0];
    SpelledOperator(input, p, op);
    if op == Plus && UnaryPosition(input, p) {
      PlainCode(input, p);
      SpaceScanned(input, p + 1);
    } else {
      OperatorReads(input, p, op);
      TokenRest(input, p, |s|, |s|);
      SpaceScanned(input, p + |s|);
    }
  }

  lemma SpelledOperator(input: string, p: nat, op: Operator)
    requires StartsAt(input, p, Spelling(op)) && p + |Spelling(op)| < |input| && input[p + |Spelling(op)|] == ' '
    ensures OperatorAt(input, p) == if op == Plus && UnaryPosition(input, p) then None else Some(op)
    ensures !StartsAt(input, p, "=>") && PlainChar(input[p])
  {
    hide UnaryPosition;
    var s := Spelling(op);
    assert forall i :: 0 <= i < |s| ==> input[p + i] == s[i];
    Spellings(input, p);
  }

  lemma PlainCode(input: string, p: nat)
    requires p < |input| && ModeAt(input, p) == Code(0) && PlainChar(input[p])
    requires OperatorAt(input, p).None? && !StartsAt(input, p, "=>")
    ensures ModeAt(input, p + 1) == Code(0) && HitAt(input, p).None?
  {
    hide UnaryPosition, OperatorAt;
  }

  lemma SpaceScanned(input: string, p: nat)
    requires p < |input| && input[p] == ' ' && Calm(input, p, 0)
    ensures ModeAt(input, p + 1) == Code(0) && HitAt(input, p).None?
  {
    hide UnaryPosition, OperatorAt;
    InertIsNoOperator(input, p);
  }

  lemma SpacedOperator(input: string, p: nat, op: Operator)
    requires p <= |input| && Calm(input, p, 0)
    requires StartsAt(input, p, " ") && StartsAt(input, p + 1, Spelling(op) + " ")
    ensures var e := p + 1 + |Spelling(op)| + 1;
            && e <= |input| && ModeAt(input, e) == Code(0) && Due(input, e)
            && HitAt(input, p).None? && NoHits(input, p + 2, e)
            && HitAt(input, p + 1) == (if op == Plus && UnaryPosition(input, p + 1) then None else Some(op))
            && forall j :: p <= j < p + 1 ==> IsSpace(input[j])
  {
    hide HitAt, UnaryPosition, ModeAt, Spelling;
    SpaceScanned(input, p);
    OperatorScanned(input, p + 1, op);
    OperatorIsDue(input, p + 1, op);
  }

  /** Text at `k` is scanned back to code, with this root and no hit looser than `rank`. */
  ghost predicate Scanned(input: string, k: nat, length: nat, root: Option<Hit>, rank: nat) {
    && k + length <= |input| && Calm(input, k + length, 0)
    && RootWithin(input, k, k + length, root) && HitsBind(input, k, k + length, rank)
  }

  lemma LeafScan(input: string, k: nat, o: Operand)
    requires WellFormed(o) && Sealed(o) && StartsAt(input, k, Text(o)) && ModeAt(input, k) == Code(0) && Due(input, k)
    ensures Scanned(input, k, |Text(o)|, None, 3)
  {
    hide Due, HitAt, WellFormed, Text, ModeAt, StartsAt;
    var s := Text(o);
    TextEnds(o);
    TakeMore(input, k, s);
    ReadAlone(input, k, s);
  }

  /** All of a text that starts where an operand is due reads as it would alone. */
  lemma ReadAlone(input: string, k: nat, s: string)
    requires StartsAt(input, k, s) && Framed(s) && Due(input, k) && ModeAt(input, k) == Code(0)
    ensures k + |s| <= |input| && ModeAt(input, k + |s|) == ModeAt(s, |s|)
    ensures forall j :: k <= j < k + |s| ==> HitAt(input, j) == HitAt(s, j - k)
  {
    hide HitAt, ModeAt, Due, Graphic, OperatorChar;
    LexingIsLocal(input, k, s, |s|);
    forall j | k <= j < k + |s| ensures HitAt(input, j) == HitAt(s, j - k) { LexingIsLocal(input, k, s, j - k); }
  }

  lemma NodeScan(input: string, k: nat, op: Operator, l: Tree, r: Tree)
    requires var p := k + |TreeText(l)|; var e := p + 1 + |Spelling(op)| + 1;
             && Scanned(input, k, |TreeText(l)|, Found(l), TreeRank(l))
             && Scanned(input, e, |TreeText(r)|, Found(r), TreeRank(r))
             && HitAt(input, p).None? && NoHits(input, p + 2, e)
             && HitAt(input, p + 1) == (if Missed(Node(op, l, r)) then None else Some(op))
    requires TreeRank(l) >= Rank(op) && TreeRank(r) > Rank(op)
    ensures var t := Node(op, l, r); Scanned(input, k, |TreeText(t)|, Found(t), TreeRank(t))
  {
    hide Calm, HitAt, RootWithin, HitsBind, NoHits, Misread, LastOperand;
    var t, p := Node(op, l, r), k + |TreeText(l)|;
    var e := p + 1 + |Spelling(op)| + 1;
    assert |TreeText(t)| == |TreeText(l)| + 2 + |Spelling(op)| + |TreeText(r)|;
    NodeRoot(input, k, p, e, e + |TreeText(r)|, op, Missed(t), Found(l), TreeRank(l), TreeRank(r));
  }

  lemma {:induction false} TreeScan(input: string, k: nat, t: Tree)
    requires Grammatical(t) && AllSealed(t) && StartsAt(input, k, TreeText(t)) && ModeAt(input, k) == Code(0) && Due(input, k)
    ensures Scanned(input, k, |TreeText(t)|, Found(t), TreeRank(t))
    decreases t
  {
    hide ModeAt, Due, UnaryPosition, HitAt, IsSpace, Text, WellFormed, Misread, StartsAt, RootWithin, HitsBind, NoHits, Spelling, Sealed;
    match t
    case Leaf(o) => LeafScan(input, k, o);
    case Node(op, l, r) =>
      NodeParts(input, k, op, l, r);
      var p := k + |TreeText(l)|;
      TreeScan(input, k, l);
      SpacedOperator(input, p, op);
      TreeScan(input, p + 1 + |Spelling(op)| + 1, r);
      AfterTree(input, k, l, p + 1);
      NodeScan(input, k, op, l, r);
  }

  /** The hits of a node: its left operand's, its operator's unless missed, and its right operand's. */
  lemma NodeRoot(input: string, k: nat, p: nat, e: nat, n: nat, op: Operator, missed: bool,
                 left: Option<Hit>, leftRank: nat, rightRank: nat)
    requires k <= p && p + 2 <= e <= n <= |input|
    requires leftRank >= Rank(op) && rightRank > Rank(op) && (missed ==> op == Plus)
    requires RootWithin(input, k, p, left) && HitsBind(input, k, p, leftRank)
    requires HitAt(input, p).None? && HitAt(input, p + 1) == (if missed then None else Some(op))
    requires NoHits(input, p + 2, e) && HitsBind(input, e, n, rightRank)
    ensures RootWithin(input, k, n, if missed then left else Some(Hit(op, p + 1 - k)))
    ensures HitsBind(input, k, n, Rank(op))
  {
    hide HitAt;
    forall j | k <= j < n && HitAt(input, j).Some?
      ensures (j < p && Rank(HitAt(input, j).value) >= Rank(op)) || (!missed && j == p + 1)
              || (j >= e && Rank(HitAt(input, j).value) > Rank(op))
    {
      assert j < p + 2 || j >= e;
    }
  }

  // ---- the root, exactly -----------------------------------------------------------------------------

  lemma {:induction false} TreeEnds(t: Tree)
    requires Grammatical(t)
    ensures Framed(TreeText(t))
  {
    hide Framed, WellFormed, Text, Spelling;
    match t
    case Leaf(o) => TextEnds(o);
    case Node(op, l, r) =>
      TreeEnds(l);
      TreeEnds(r);
      FramedMiddle(TreeText(l), " " + Spelling(op) + " ", TreeText(r));
      assert TreeText(t) == TreeText(l) + (" " + Spelling(op) + " ") + TreeText(r);
  }

  /** In a text read alone, no operator reaches past its end. */
  lemma {:induction false} OperatorFits(s: string, k: nat)
    requires k <= |s|
    ensures ModeAt(s, k).InOperator? ==> k + ModeAt(s, k).rest <= |s| && ModeAt(s, k).rest >= 1
  {
    hide UnaryPosition, OperatorAt;
    if k > 0 {
      OperatorFits(s, k - 1);
      var mode := ModeAt(s, k - 1);
      if mode.Code? || mode.RegexFlags? { TokenFits(s, k - 1); }
    }
  }

  predicate QuoteKnown(mode: Mode) { mode.InString? || mode.StringEscape? ==> IsQuote(mode.quote) }

  lemma {:induction false} QuotesAreKnown(s: string, k: nat)
    requires k <= |s|
    ensures QuoteKnown(ModeAt(s, k))
  {
    hide UnaryPosition, OperatorAt;
    if k > 0 { QuotesAreKnown(s, k - 1); }
  }

  lemma TokenFits(s: string, k: nat)
    requires k < |s|
    ensures OperatorAt(s, k).Some? ==> k + |Spelling(OperatorAt(s, k).value)| <= |s|
    ensures StartsAt(s, k, "=>") ==> k + 2 <= |s|
  {
    hide UnaryPosition;
  }

  /** Inside a literal or a bracket pair, an operator is not seen. */
  lemma OpenHidesOperator(input: string, p: nat, op: Operator)
    requires p <= |input| && !Calm(input, p, 0) && !ModeAt(input, p).InOperator? && QuoteKnown(ModeAt(input, p))
    requires StartsAt(input, p, " ") && StartsAt(input, p + 1, Spelling(op) + " ")
    ensures p + 1 < |input| && HitAt(input, p + 1).None?
  {
    hide UnaryPosition, OperatorAt, Spelling;
    assert input[p] == " "[0];
    assert StartsAt(input, p, " ");
    var s := Spelling(op) + " ";
    assert p + 1 + |s| <= |input|;
    var mode := ModeAt(input, p);
    assert ModeAt(input, p + 1) == Read(input, p, mode);
    match mode
    case Code(d) => assert ModeAt(input, p + 1) == Code(d);
    case RegexFlags(d) => assert ModeAt(input, p + 1) == Code(d);
    case _ =>
  }

  /** What an expression shows: the left side's operators, its own unless it is missed, and the right side's. */
  lemma NodeHits(t: Tree)
    requires t.Node? && Grammatical(t)
    ensures var input, p := TreeText(t), |TreeText(t.left)|;
            var e := p + 2 + |Spelling(t.operator)|;
            && |input| == e + |TreeText(t.right)|
            && (forall j :: 0 <= j < p ==> HitAt(input, j) == HitAt(TreeText(t.left), j))
            && (!Closes(TreeText(t.left)) ==> HitAt(input, p + 1).None?)
            && (Closes(TreeText(t.left)) ==>
                  && HitAt(input, p).None? && HitAt(input, p + 1) == (if Missed(t) then None else Some(t.operator))
                  && NoHits(input, p + 2, e)
                  && (forall j :: e <= j < |input| ==> HitAt(input, j) == HitAt(TreeText(t.right), j - e)))
  {
    hide HitAt, ModeAt, UnaryPosition, Due, Framed, Misread, LastOperand, StartsAt, IsSpace, OperatorAt, Spelling;
    var input, l, r, op := TreeText(t), TreeText(t.left), TreeText(t.right), t.operator;
    var p := |l|;
    var e := p + 2 + |Spelling(op)|;
    StartsWhole(input);
    NodeParts(input, 0, op, t.left, t.right);
    TreeEnds(t.left);
    TreeEnds(t.right);
    DueAfter(input, -1, 0);
    assert ModeAt(input, 0) == Code(0) by { ModeStarts(input); }
    ReadAlone(input, 0, l);
    if Closes(l) {
      SpacedOperator(input, p, op);
      AfterTree(input, 0, t.left, p + 1);
      ReadAlone(input, e, r);
    } else {
      OpensHere(input, l);
      OpenHidesOperator(input, p, op);
    }
  }

  lemma StartsWhole(s: string)
    ensures StartsAt(s, 0, s)
  {
  }

  lemma ModeStarts(s: string)
    ensures ModeAt(s, 0) == Code(0)
  {
  }

  lemma OpensHere(input: string, s: string)
    requires |s| <= |input| && ModeAt(input, |s|) == ModeAt(s, |s|) && !Closes(s)
    ensures !Calm(input, |s|, 0) && !ModeAt(input, |s|).InOperator? && QuoteKnown(ModeAt(input, |s|))
  {
    hide ModeAt;
    OperatorFits(s, |s|);
    QuotesAreKnown(s, |s|);
  }

  /** For every expression, the scanner returns the root operator if and only if the root shows. */
  lemma RootFoundIffSeen(t: Tree, r: Option<Hit>)
    requires t.Node? && Grammatical(t)
    requires IsRoot(TreeText(t), r)
    ensures r == Some(Hit(t.operator, |TreeText(t.left)| + 1)) <==> Seen(t)
  {
    hide HitAt, TreeText, Missed, Spelling, Grammatical, Closes;
    NodeHits(t);
    var input, p, root := TreeText(t), |TreeText(t.left)|, Some(Hit(t.operator, |TreeText(t.left)| + 1));
    var e := p + 2 + |Spelling(t.operator)|;
    if r == root {
      forall j | 0 <= j < |TreeText(t.right)| && HitAt(TreeText(t.right), j).Some?
        ensures Rank(HitAt(TreeText(t.right), j).value) >= Rank(t.operator) + 1
      {
        assert HitAt(input, e + j) == HitAt(TreeText(t.right), j);
      }
      assert forall j :: 0 <= j < p ==> HitAt(input, j) == HitAt(TreeText(t.left), j);
    } else if Seen(t) {
      RootIsUnique(input, r, root);
      assert false;
    }
  }

  // ---- sealed operands -------------------------------------------------------------------------------

  /** The scanner's exact answer on every expression of sealed operands. */
  lemma ScannerFindsRoot(t: Tree, r: Option<Hit>)
    requires Grammatical(t) && AllSealed(t)
    requires IsRoot(TreeText(t), r)
    ensures r == Found(t)
  {
    hide HitAt, UnaryPosition, TreeText, Found, Grammatical, AllSealed, Closes, ModeAt;
    var input := TreeText(t);
    StartsWhole(input);
    ModeStarts(input);
    DueAfter(input, -1, 0);
    TreeScan(input, 0, t);
    assert IsRoot(input, Found(t));
    RootIsUnique(input, r, Found(t));
  }

  /** Over sealed operands the root shows if and only if it is not a plus sign behind a flagless regex or an
      exponent-like name. */
  lemma SealedSeenIffNotMissed(t: Tree)
    requires t.Node? && Grammatical(t) && AllSealed(t)
    ensures Seen(t) <==> !Missed(t)
  {
    hide HitAt, TreeText, Missed, Closes, Sealed, WellFormed;
    if !Missed(t) {
      SealedTree(t.left);
      SealedTree(t.right);
    }
  }

  lemma SealedTree(t: Tree)
    requires Grammatical(t) && AllSealed(t)
    ensures Closes(TreeText(t)) && NoneLooser(TreeText(t), TreeRank(t))
  {
    hide HitAt, UnaryPosition, TreeText, Found, Grammatical, AllSealed, ModeAt;
    var input := TreeText(t);
    StartsWhole(input);
    ModeStarts(input);
    DueAfter(input, -1, 0);
    TreeScan(input, 0, t);
  }

  /** Where the scanner takes no slash of an operand for the other kind, the operand is sealed. */
  lemma ReadIsSealed(o: Operand)
    requires WellFormed(o) && Reads("", o)
    ensures Sealed(o)
  {
    hide HitAt, UnaryPosition, Text, WellFormed, Reads, ModeAt;
    var s := Text(o);
    StartsWhole(s);
    ModeStarts(s);
    DueAfter(s, -1, 0);
    assert s[..0] == "";
    OperandScan(s, 0, o, 0);
  }

  ghost predicate AllRead(t: Tree) {
    match t
    case Leaf(o) => Reads("", o)
    case Node(_, l, r) => AllRead(l) && AllRead(r)
  }

  lemma {:induction false} AllReadIsSealed(t: Tree)
    requires Grammatical(t) && AllRead(t)
    ensures AllSealed(t)
  {
    match t
    case Leaf(o) => ReadIsSealed(o);
    case Node(_, l, r) => AllReadIsSealed(l); AllReadIsSealed(r);
  }

  /** Where the scanner takes no slash for the other kind, it returns the root operator if and only if that is
      not a missed plus sign. */
  lemma RootFoundIffNotMissed(t: Tree, r: Option<Hit>)
    requires t.Node? && Grammatical(t) && AllRead(t)
    requires IsRoot(TreeText(t), r)
    ensures r == Some(Hit(t.operator, |TreeText(t.left)| + 1)) <==> !Missed(t)
  {
    hide Seen, Missed, TreeText, IsRoot;
    AllReadIsSealed(t);
    SealedSeenIffNotMissed(t);
    RootFoundIffSeen(t, r);
  }

  /** Every operand is sealed or this one. */
  ghost predicate SealedBut(t: Tree, o: Operand) {
    match t
    case Leaf(p) => p == o || Sealed(p)
    case Node(_, l, r) => SealedBut(l, o) && SealedBut(r, o)
  }

  const ONE := Number(Decimal("1", None, None))

  /** An operand is sealed if and only if it never costs an expression its root. */
  lemma SealedIffHarmless(o: Operand)
    requires WellFormed(o)
    ensures Sealed(o) <==> forall t: Tree :: SealedBut(t, o) && Grammatical(t) && t.Node? && !Missed(t) ==> Seen(t)
  {
    hide Sealed, Missed, Seen;
    if Sealed(o) {
      forall t: Tree | SealedBut(t, o) && Grammatical(t) && t.Node? && !Missed(t) ensures Seen(t) {
        SealedThroughout(t, o);
        SealedSeenIffNotMissed(t);
      }
    }
    if forall t: Tree :: SealedBut(t, o) && Grammatical(t) && t.Node? && !Missed(t) ==> Seen(t) {
      var equality, sum := Node(LooseEq, Leaf(o), Leaf(ONE)), Node(Plus, Leaf(ONE), Leaf(o));
      OneIsSealed();
      assert SealedBut(equality, o) && SealedBut(sum, o);
      assert Grammatical(equality) && Grammatical(sum);
      assert !Missed(equality) && !Missed(sum) by { NeverMissed(o); }
      SeenIsSealed(o);
    }
  }

  lemma {:induction false} SealedThroughout(t: Tree, o: Operand)
    requires Sealed(o) && SealedBut(t, o)
    ensures AllSealed(t)
  {
    if t.Node? { SealedThroughout(t.left, o); SealedThroughout(t.right, o); }
  }

  lemma OneIsSealed()
    ensures WellFormed(ONE) && Sealed(ONE) && Text(ONE) == "1"
  {
    assert NumeralText(Decimal("1", None, None)) == "1" + "" + "" == "1";
    assert WellFormed(ONE);
    ReadIsSealed(ONE);
  }

  lemma NeverMissed(o: Operand)
    ensures !Missed(Node(LooseEq, Leaf(o), Leaf(ONE))) && !Missed(Node(Plus, Leaf(ONE), Leaf(o)))
  {
  }

  /** Two expressions tell: one where the operand stands left of an equality, one where it stands right of a sum. */
  lemma SeenIsSealed(o: Operand)
    requires Seen(Node(LooseEq, Leaf(o), Leaf(ONE))) && Seen(Node(Plus, Leaf(ONE), Leaf(o)))
    ensures Sealed(o)
  {
    hide Missed, Closes, Text;
    var equality, sum := Node(LooseEq, Leaf(o), Leaf(ONE)), Node(Plus, Leaf(ONE), Leaf(o));
    assert TreeText(equality.left) == Text(o) == TreeText(sum.right);
  }

  // ---- misread slashes -------------------------------------------------------------------------------

  /** Reading a regex body that no slash ends. */
  ghost predicate InBody(input: string, k: nat)
    requires k <= |input|
  {
    ModeAt(input, k).InRegex? || ModeAt(input, k).RegexEscape?
  }

  /** From a slash the scanner takes for a regex, with no slash behind it, everything is read as regex. */
  lemma {:induction false} UnclosedSlash(input: string, p: nat, depth: nat, n: nat)
    requires p < n <= |input| && input[p] == '/' && UnaryPosition(input, p) && Calm(input, p, depth)
    requires forall i :: p < i < |input| ==> input[i] != '/'
    ensures InBody(input, n) && NoHits(input, p, n)
    decreases n
  {
    hide UnaryPosition, OperatorAt;
    if n == p + 1 {
      SlashIsNoOperator(input, p);
      SlashOpensRegex(input, p, depth);
    } else {
      UnclosedSlash(input, p, depth, n - 1);
    }
  }

  /** A division sign that is the last slash of an operand and stands where the scanner expects an operand. */
  ghost predicate OpensToTheEnd(s: string, p: nat) {
    && p < |s| && s[p] == '/' && UnaryPosition(s, p) && (exists depth: nat :: Calm(s, p, depth))
    && forall i :: p < i < |s| ==> s[i] != '/'
  }

  lemma OpenIsUnsealed(o: Operand, p: nat)
    requires OpensToTheEnd(Text(o), p)
    ensures !Sealed(o)
  {
    hide UnaryPosition, HitAt, Text;
    var s := Text(o);
    var depth: nat :| Calm(s, p, depth);
    UnclosedSlash(s, p, depth, |s|);
  }

  /** No regex literal anywhere in the operand. */
  predicate Regexless(o: Operand)
    decreases o
  {
    match o
    case Regex(_, _) => false
    case Group(_, content) => RegexlessContent(content)
    case Sign(_, operand) => Regexless(operand)
    case Keyword(_, operand) => Regexless(operand)
    case Product(left, _, right) => Regexless(left) && Regexless(right)
    case _ => true
  }

  predicate RegexlessContent(c: Content)
    decreases c
  {
    match c
    case End(_) => true
    case Item(_, item, rest) => Regexless(item) && RegexlessContent(rest)
    case Divide(_, rest) => RegexlessContent(rest)
  }

  /** The slashes in a stretch of text all stand where no operand is expected. */
  ghost predicate NoneExpected(input: string, k: nat, n: nat)
    requires k <= n <= |input|
  {
    forall i :: k <= i < n && input[i] == '/' ==> !UnaryPosition(input, i)
  }

  /** Without regex literals, the operand reads as written if no slash stands where an operand is expected. */
  lemma {:induction false} RegexlessReads(input: string, k: nat, o: Operand)
    requires StartsAt(input, k, Text(o)) && Regexless(o) && NoneExpected(input, k, k + |Text(o)|)
    ensures Reads(input[..k], o)
    decreases o, 1
  {
    hide UnaryPosition, StartsAt, ContentText, UnitsText, RegexText, NumeralText, Closer, RegexlessContent, ReadsContent;
    TakeMore(input, k, Text(o));
    match o
    case Group(open, content) =>
      Bracketed(input, k, open, ContentText(content), Closer(open));
      assert input[..k] + [open] == input[..k + 1];
      RegexlessContentReads(input, k + 1, content);
    case Sign(symbol, operand) =>
      Split(input, k, [symbol], Text(operand));
      TakeMore(input, k, [symbol]);
      RegexlessReads(input, k + 1, operand);
    case Keyword(word, operand) =>
      Split(input, k, word + " ", Text(operand));
      TakeMore(input, k, word + " ");
      RegexlessReads(input, k + |word| + 1, operand);
    case Product(_, _, _) => RegexlessProductReads(input, k, o);
    case _ =>
  }

  lemma {:induction false} RegexlessProductReads(input: string, k: nat, o: Operand)
    requires o.Product? && Regexless(o.left) && Regexless(o.right)
    requires StartsAt(input, k, Text(o.left) + " " + ([o.symbol] + " " + Text(o.right)))
    requires k + |Text(o.left)| + 3 + |Text(o.right)| <= |input|
    requires NoneExpected(input, k, k + |Text(o.left)| + 3 + |Text(o.right)|)
    ensures Reads(input[..k], o)
    decreases o, 0
  {
    hide UnaryPosition, StartsAt, Text, Regexless;
    var l, r, p := Text(o.left), Text(o.right), k + |Text(o.left)|;
    assert l + " " + ([o.symbol] + " " + r) == l + (" " + ([o.symbol] + " " + r));
    Split(input, k, l, " " + ([o.symbol] + " " + r));
    SymbolParts(input, p, o.symbol, r);
    TakeMore(input, k, l);
    TakeMore(input, p, " ");
    TakeMore(input, p + 1, [o.symbol]);
    TakeMore(input, p + 2, " ");
    RegexlessReads(input, k, o.left);
    RegexlessReads(input, p + 3, o.right);
    var sign := input[..k] + l + " ";
    assert sign == input[..p + 1];
    assert sign + ([o.symbol] + " ") == input[..p + 3];
    PositionIsPrefix(input, p + 1);
  }

  lemma {:induction false} RegexlessContentReads(input: string, k: nat, c: Content)
    requires StartsAt(input, k, ContentText(c)) && k + |ContentText(c)| <= |input|
    requires RegexlessContent(c) && NoneExpected(input, k, k + |ContentText(c)|)
    ensures ReadsContent(input[..k], c)
    decreases c, 0
  {
    hide UnaryPosition, StartsAt, Text, Regexless, Reads;
    match c
    case End(_) =>
    case Item(lead, item, rest) =>
      Split(input, k, lead + Text(item), ContentText(rest));
      Split(input, k, lead, Text(item));
      TakeMore(input, k, lead);
      TakeMore(input, k + |lead|, Text(item));
      RegexlessReads(input, k + |lead|, item);
      RegexlessContentReads(input, k + |lead| + |Text(item)|, rest);
    case Divide(lead, rest) =>
      Split(input, k, lead + "/", ContentText(rest));
      Split(input, k, lead, "/");
      TakeMore(input, k, lead);
      TakeMore(input, k + |lead|, "/");
      PositionIsPrefix(input, k + |lead|);
      RegexlessContentReads(input, k + |lead| + 1, rest);
  }

  /** An operand with a single slash, outside strings, is sealed if and only if no operand is expected there. */
  lemma OneSlashDecides(o: Operand, p: nat, depth: nat)
    requires WellFormed(o) && Regexless(o) && p < |Text(o)| && Calm(Text(o), p, depth)
    requires forall i :: 0 <= i < |Text(o)| ==> (Text(o)[i] == '/' <==> i == p)
    ensures Sealed(o) <==> !UnaryPosition(Text(o), p)
  {
    hide UnaryPosition, Text, Sealed, WellFormed, Regexless, Reads, Calm;
    var s := Text(o);
    if UnaryPosition(s, p) {
      OpenIsUnsealed(o, p);
    } else {
      StartsWhole(s);
      assert s[..0] == "";
      RegexlessReads(s, 0, o);
      ReadIsSealed(o);
    }
  }

  // ---- how a root is lost ------------------------------------------------------------------------------

  /** Two ways to lose a plus sign: `/a/ + 1` and `_e + 1` are reported to have no operator at all. */
  lemma LostPlusSigns(r: Option<Hit>, operand: Operand)
    requires operand == Regex([Plain('a')], "") || operand == Identifier("_e")
    requires IsRoot(Text(operand) + " + 1", r)
    ensures r == None
  {
    hide HitAt, WellFormed, Text, Misread, Reads, Sealed;
    var t := Node(Plus, Leaf(operand), Leaf(ONE));
    SmallOperands(operand);
    OneIsSealed();
    ReadIsSealed(operand);
    assert TreeText(t) == Text(operand) + " " + "+" + " " + "1" == Text(operand) + " + 1";
    ScannerFindsRoot(t, r);
  }

  lemma SmallOperands(operand: Operand)
    requires operand == Regex([Plain('a')], "") || operand == Identifier("_e")
    ensures WellFormed(operand) && Misread(operand) && Reads("", operand)
  {
    assert [Plain('a')][1..] == [];
  }

  /** A division taken for a regex: `(_e / 2) == 1` is reported to have no operator at all. */
  lemma LostBehindDivision(r: Option<Hit>)
    requires IsRoot("(_e / 2) == 1", r)
    ensures r == None
  {
    hide HitAt, UnaryPosition, ModeAt;
    var input := "(_e / 2) == 1";
    ModeStarts(input);
    CodeIsCalm(input, 0, 0);
    BracketStep(input, 0, 0);
    CodeIsCalm(input, 1, 1);
    PlainRun(input, 1, 4, 1);
    DueAfter(input, 0, 1);
    hide Due;
    NameIsMisread(input);
    UnclosedSlash(input, 4, 1, |input|);
  }

  lemma NameIsMisread(input: string)
    requires |input| > 4 && StartsAt(input, 1, "_e") && input[3] == ' ' && Due(input, 1)
    ensures UnaryPosition(input, 4)
  {
    hide UnaryPosition, Due;
    var o := Identifier("_e");
    assert WellFormed(o) && Misread(o);
    BlankIsSpace();
    AfterOperand(input, 1, o, 4);
  }

  /** A regex taken for divisions: behind `return` the bracket in the regex counts, and its closing slash opens
      a regex that never ends, so `{f(){return/(/}} == 1` is reported to have no operator at all. */
  lemma LostBehindReturn(r: Option<Hit>)
    requires IsRoot("{f(){return/(/}} == 1", r)
    ensures r == None
  {
    hide HitAt, UnaryPosition, ModeAt, Due;
    var input := "{f(){return/(/}} == 1";
    ToReturn(input);
    PastReturn(input);
    UnclosedSlash(input, 13, 3, |input|);
  }

  lemma ToReturn(input: string)
    requires input == "{f(){return/(/}} == 1"
    ensures Calm(input, 5, 2) && NoHits(input, 0, 5)
  {
    hide HitAt, UnaryPosition, ModeAt;
    ModeStarts(input);
    CodeIsCalm(input, 0, 0);
    BracketStep(input, 0, 0);
    CodeIsCalm(input, 1, 1);
    hide Calm;
    PlainRun(input, 1, 2, 1);
    BracketStep(input, 2, 1);
    CodeIsCalm(input, 3, 2);
    BracketStep(input, 3, 2);
    CodeIsCalm(input, 4, 1);
    BracketStep(input, 4, 1);
    CodeIsCalm(input, 5, 2);
  }

  lemma PastReturn(input: string)
    requires input == "{f(){return/(/}} == 1" && Calm(input, 5, 2)
    ensures Calm(input, 13, 3) && NoHits(input, 5, 13) && UnaryPosition(input, 13)
  {
    hide HitAt, UnaryPosition, ModeAt, Calm;
    PlainRun(input, 5, 11, 2);
    ReturnIsNoKeyword(input);
    DivisionStep(input, 11, 2);
    BracketStep(input, 12, 2);
    CodeIsCalm(input, 13, 3);
    DueAfter(input, 12, 13);
  }

  lemma ReturnIsNoKeyword(input: string)
    requires |input| > 11 && StartsAt(input, 5, "return") && input[4] == '{'
    ensures !UnaryPosition(input, 11)
  {
    hide UnaryPosition, ExponentMark, UnaryWord, IsOperandExpected;
    assert Boundary(input, 5) by { OpenersExpect('{'); }
    WordIsOperand(input, 5, "return");
    assert input[10] == "return"[5];
    NotDueAfter(input, 10, 11);
  }

  /** A misread slash need not lose the root: in `(_e / 2 / 3)` the second division closes the regex the first
      one is taken for, and the operand is sealed. */
  lemma LuckyDivision()
    ensures var o := Group('(', Item("", Identifier("_e"), Divide(" ", Divide(" 2 ", End(" 3")))));
            WellFormed(o) && Sealed(o) && !Reads("", o)
  {
    var o := Group('(', Item("", Identifier("_e"), Divide(" ", Divide(" 2 ", End(" 3")))));
    var s := Text(o);
    LuckyText();
    LuckyScan(s);
    hide HitAt, UnaryPosition, ModeAt, Text, WellFormed, Reads;
    PositionIsPrefix(s, 4);
    assert s[..4] == "(_e ";
    LuckyReads();
  }

  lemma LuckyScan(s: string)
    requires s == "(_e / 2 / 3)"
    ensures UnaryPosition(s, 4) && Calm(s, 12, 0) && NoHits(s, 0, 12)
  {
    hide HitAt, UnaryPosition, ModeAt, Due;
    ModeStarts(s);
    CodeIsCalm(s, 0, 0);
    BracketStep(s, 0, 0);
    CodeIsCalm(s, 1, 1);
    hide Calm;
    PlainRun(s, 1, 4, 1);
    DueAfter(s, 0, 1);
    NameIsMisread(s);
    LuckyRegex(s);
    PlainRun(s, 9, 11, 1);
    BracketStep(s, 11, 1);
    CodeIsCalm(s, 12, 0);
  }

  lemma LuckyRegex(s: string)
    requires s == "(_e / 2 / 3)" && Calm(s, 4, 1) && UnaryPosition(s, 4)
    ensures Calm(s, 9, 1) && NoHits(s, 4, 9)
  {
    hide HitAt, UnaryPosition, ModeAt, Calm, WellFormedRegex, RegexText;
    var body := [Plain(' '), Plain('2'), Plain(' ')];
    LuckyBody(body);
    assert "/" + " 2 " + "/" + "" == "/ 2 /";
    RegexLiteralScan(s, 4, body, "", 1);
  }

  lemma LuckyText()
    ensures var o := Group('(', Item("", Identifier("_e"), Divide(" ", Divide(" 2 ", End(" 3")))));
            WellFormed(o) && Text(o) == "(_e / 2 / 3)"
  {
    var tail := Divide(" 2 ", End(" 3"));
    var rest := Divide(" ", tail);
    var content := Item("", Identifier("_e"), rest);
    LuckyPlain();
    LuckyName();
    hide PlainText, IsOpen, Closer, WellFormed;
    assert WellFormedContent(tail) && WellFormedContent(rest) && WellFormedContent(content);
    assert ContentText(tail) == " 2 " + "/" + " 3" == " 2 / 3";
    assert ContentText(rest) == " " + "/" + " 2 / 3" == " / 2 / 3";
    assert ContentText(content) == "" + "_e" + " / 2 / 3" == "_e / 2 / 3";
    LuckyGroup(content);
  }

  lemma LuckyGroup(content: Content)
    requires WellFormedContent(content) && ContentText(content) == "_e / 2 / 3"
    ensures WellFormed(Group('(', content)) && Text(Group('(', content)) == "(_e / 2 / 3)"
  {
    hide WellFormedContent, ContentText;
  }

  lemma LuckyPlain()
    ensures PlainText("") && PlainText(" ") && PlainText(" 2 ") && PlainText(" 3")
  {
  }

  lemma LuckyName()
    ensures WellFormed(Identifier("_e")) && Text(Identifier("_e")) == "_e"
  {
  }

  lemma LuckyBody(body: seq<RegexUnit>)
    requires body == [Plain(' '), Plain('2'), Plain(' ')]
    ensures WellFormedRegex(body, false) && RegexText(body) == " 2 "
  {
    var two, one := [Plain('2'), Plain(' ')], [Plain(' ')];
    assert one[1..] == [] && two[1..] == one && body[1..] == two;
    assert WellFormedRegex(one, false) && RegexText(one) == " ";
    assert WellFormedRegex(two, false) && RegexText(two) == "2 ";
  }

  lemma LuckyReads()
    requires UnaryPosition("(_e ", 4)
    ensures !Reads("", Group('(', Item("", Identifier("_e"), Divide(" ", Divide(" 2 ", End(" 3"))))))
  {
    hide UnaryPosition;
    var rest := Divide(" ", Divide(" 2 ", End(" 3")));
    assert "" + ['('] + "" + "_e" + " " == "(_e ";
    assert !ReadsContent("" + ['('] + "" + "_e", rest);
  }
}
