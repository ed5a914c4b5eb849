/**
 * Rebuilding a diff's rows from an edit script (apps/frontend/src/utils/diff-bytecode.ts) and the
 * React keys of those rows (OutputsPanel/components/codeRows.ts).  The script comes from the diff
 * library; its contract is that dropping the added chunks gives the previous lines and dropping the
 * removed ones the current lines.
 */
module Diff {
  import opened Annotations
  import opened JsString
  import opened Optional
  import opened Rows

  datatype Change = Change(added: bool, removed: bool, value: seq<string>)

  /** Where a merged row comes from: 0-based lines of the previous and current output. */
  datatype Origin = Kept(prev: nat, next: nat) | Added(next: nat) | Removed(prev: nat)

  // ---- the edit script ---------------------------------------------------------------------------

  /** The script's previous side (everything not added) or current side (everything not removed). */
  function Side(changes: seq<Change>, n: nat, previous: bool): seq<string>
    requires n <= |changes|
  {
    if n == 0 then []
    else
      var c := changes[n - 1];
      Side(changes, n - 1, previous) + if (if previous then c.added else c.removed) then [] else c.value
  }

  ghost predicate Script(changes: seq<Change>, prevLines: seq<string>, currentLines: seq<string>) {
    && (forall k :: 0 <= k < |changes| ==> !(changes[k].added && changes[k].removed))
    && Side(changes, |changes|, true) == prevLines
    && Side(changes, |changes|, false) == currentLines
  }

  function OriginOf(c: Change, prev: nat, next: nat): Origin {
    if c.added then Added(next) else if c.removed then Removed(prev) else Kept(prev, next)
  }

  /** The origins of the first `n` changes' rows, line by line. */
  function Origins(changes: seq<Change>, n: nat): seq<Origin>
    requires n <= |changes|
  {
    if n == 0 then []
    else Origins(changes, n - 1) + Chunk(changes, n - 1, |changes[n - 1].value|)
  }

  /** The first `i` rows of change `k`. */
  function Chunk(changes: seq<Change>, k: nat, i: nat): (r: seq<Origin>)
    requires k < |changes| && i <= |changes[k].value|
    ensures |r| == i
  {
    var prev, next := |Side(changes, k, true)|, |Side(changes, k, false)|;
    seq(i, j requires 0 <= j < i => OriginOf(changes[k], prev + j, next + j))
  }

  function TagAdded(row: Row, nextLine: nat): (r: Row)
    ensures |r| == |row|
  {
    seq(|row|, i requires 0 <= i < |row| => row[i].(diffType := Some(Add), nextLine := Some(nextLine)))
  }

  function TagRemoved(row: Row, prevLine: nat): (r: Row)
    ensures |r| == |row|
  {
    seq(|row|, i requires 0 <= i < |row| => row[i].(diffType := Some(Del), prevLine := Some(prevLine)))
  }

  function TagKept(row: Row, prevLine: nat, nextLine: nat): (r: Row)
    ensures |r| == |row|
  {
    seq(|row|, i requires 0 <= i < |row| => row[i].(diffType := Some(Keep), prevLine := Some(prevLine), nextLine := Some(nextLine)))
  }

  predicate InRange(o: Origin, m: nat, n: nat) {
    (o.Kept? || o.Removed? ==> o.prev < m) && (o.Kept? || o.Added? ==> o.next < n)
  }

  /** The row an origin stands for, with its line numbers counted from 1. */
  function RowOf(o: Origin, prev: seq<Row>, current: seq<Row>): Row
    requires InRange(o, |prev|, |current|)
  {
    match o
    case Kept(p, n) => TagKept(current[n], p + 1, n + 1)
    case Added(n) => TagAdded(current[n], n + 1)
    case Removed(p) => TagRemoved(prev[p], p + 1)
  }

  function RowsOf(origins: seq<Origin>, prev: seq<Row>, current: seq<Row>): (r: seq<Row>)
    requires forall i :: 0 <= i < |origins| ==> InRange(origins[i], |prev|, |current|)
    ensures |r| == |origins|
  {
    seq(|origins|, i requires 0 <= i < |origins| => RowOf(origins[i], prev, current))
  }

  // ---- every index stays in range ------------------------------------------------------------------

  lemma {:induction false} SideGrows(changes: seq<Change>, m: nat, n: nat, previous: bool)
    requires m <= n <= |changes|
    ensures |Side(changes, m, previous)| <= |Side(changes, n, previous)|
  {
    if m < n { SideGrows(changes, m, n - 1, previous); }
  }

  lemma ChunkBounds(changes: seq<Change>, k: nat, previous: bool)
    requires k < |changes|
    ensures var c := changes[k];
            !(if previous then c.added else c.removed) ==> |Side(changes, k, previous)| + |c.value| <= |Side(changes, |changes|, previous)|
  {
    SideGrows(changes, k + 1, |changes|, previous);
  }

  /** Change `k`'s rows lie within both outputs. */
  lemma ChunkInRange(changes: seq<Change>, k: nat, m: nat, n: nat)
    requires k < |changes| && !(changes[k].added && changes[k].removed)
    requires m == |Side(changes, |changes|, true)| && n == |Side(changes, |changes|, false)|
    ensures forall i, j :: 0 <= j < i <= |changes[k].value| ==> InRange(Chunk(changes, k, i)[j], m, n)
  {
    hide Side;
    ChunkBounds(changes, k, true);
    ChunkBounds(changes, k, false);
    forall i, j | 0 <= j < i <= |changes[k].value| ensures InRange(Chunk(changes, k, i)[j], m, n) {
      assert Chunk(changes, k, i)[j] == OriginOf(changes[k], |Side(changes, k, true)| + j, |Side(changes, k, false)| + j);
    }
  }

  lemma {:induction false} OriginsInRange(changes: seq<Change>, n: nat, prevLines: seq<string>, currentLines: seq<string>)
    requires Script(changes, prevLines, currentLines) && n <= |changes|
    ensures forall i :: 0 <= i < |Origins(changes, n)| ==> InRange(Origins(changes, n)[i], |prevLines|, |currentLines|)
  {
    hide Chunk;
    if n > 0 {
      OriginsInRange(changes, n - 1, prevLines, currentLines);
      ChunkInRange(changes, n - 1, |prevLines|, |currentLines|);
    }
  }

  // ---- the source's loops --------------------------------------------------------------------------

  method CompareOutputs(prev: seq<Row>, current: seq<Row>, changes: seq<Change>, ghost prevLines: seq<string>, ghost currentLines: seq<string>)
    returns (rows: seq<Row>)
    requires Script(changes, prevLines, currentLines) && |prevLines| == |prev| && |currentLines| == |current|
    ensures forall i :: 0 <= i < |Origins(changes, |changes|)| ==> InRange(Origins(changes, |changes|)[i], |prev|, |current|)
    ensures rows == RowsOf(Origins(changes, |changes|), prev, current)
  {
    hide Script, Origins, Side, RowOf;
    rows := [];
    var prevLineNum: nat := 1;
    var currentLineNum: nat := 1;
    Start(changes);
    for k := 0 to |changes|
      invariant prevLineNum == |Side(changes, k, true)| + 1 && currentLineNum == |Side(changes, k, false)| + 1
      invariant forall i :: 0 <= i < |Origins(changes, k)| ==> InRange(Origins(changes, k)[i], |prev|, |current|)
      invariant rows == RowsOf(Origins(changes, k), prev, current)
    {
      var change := changes[k];
      Next(changes, k, prevLines, currentLines);
      ghost var before := rows;
      for i := 0 to |change.value|
        invariant rows == before + RowsOf(Chunk(changes, k, i), prev, current)
      {
        ghost var o := OriginOf(change, prevLineNum - 1 + i, currentLineNum - 1 + i);
        ChunkStep(changes, k, i);
        assert InRange(Chunk(changes, k, i + 1)[i], |prev|, |current|);
        RowOfOrigin(o, prev, current);
        if change.added {
          rows := rows + [TagAdded(current[currentLineNum - 1 + i], currentLineNum + i)];
        } else if change.removed {
          rows := rows + [TagRemoved(prev[prevLineNum - 1 + i], prevLineNum + i)];
        } else {
          rows := rows + [TagKept(current[currentLineNum - 1 + i], prevLineNum + i, currentLineNum + i)];
        }
      }
      if change.added {
        currentLineNum := currentLineNum + |change.value|;
      } else if change.removed {
        prevLineNum := prevLineNum + |change.value|;
      } else {
        prevLineNum := prevLineNum + |change.value|;
        currentLineNum := currentLineNum + |change.value|;
      }
    }
  }

  lemma Start(changes: seq<Change>)
    ensures Side(changes, 0, true) == [] && Side(changes, 0, false) == [] && Origins(changes, 0) == []
  {
  }

  lemma Next(changes: seq<Change>, k: nat, prevLines: seq<string>, currentLines: seq<string>)
    requires k < |changes| && Script(changes, prevLines, currentLines)
    ensures Origins(changes, k + 1) == Origins(changes, k) + Chunk(changes, k, |changes[k].value|)
    ensures forall i, j :: 0 <= j < i <= |changes[k].value| ==> InRange(Chunk(changes, k, i)[j], |prevLines|, |currentLines|)
    ensures |Side(changes, k + 1, true)| == |Side(changes, k, true)| + if changes[k].added then 0 else |changes[k].value|
    ensures |Side(changes, k + 1, false)| == |Side(changes, k, false)| + if changes[k].removed then 0 else |changes[k].value|
    ensures !(changes[k].added && changes[k].removed)
  {
    ChunkInRange(changes, k, |prevLines|, |currentLines|);
  }

  lemma RowOfOrigin(o: Origin, prev: seq<Row>, current: seq<Row>)
    requires InRange(o, |prev|, |current|)
    ensures RowOf(o, prev, current) == match o
              case Kept(p, n) => TagKept(current[n], p + 1, n + 1)
              case Added(n) => TagAdded(current[n], n + 1)
              case Removed(p) => TagRemoved(prev[p], p + 1)
  {
  }

  // ---- projections -----------------------------------------------------------------------------------

  /** The current lines named by a list of origins, in order; and the previous ones. */
  function NextLines(origins: seq<Origin>): seq<nat> {
    if origins == [] then []
    else
      var o := origins[|origins| - 1];
      NextLines(origins[..|origins| - 1]) + if o.Removed? then [] else [o.next]
  }

  function PrevLines(origins: seq<Origin>): seq<nat> {
    if origins == [] then []
    else
      var o := origins[|origins| - 1];
      PrevLines(origins[..|origins| - 1]) + if o.Added? then [] else [o.prev]
  }

  function Upto(n: nat): (r: seq<nat>)
    ensures |r| == n
  {
    seq(n, i => i)
  }

  lemma UptoNext(n: nat)
    ensures Upto(n + 1) == Upto(n) + [n]
  {
  }

  lemma {:induction false} ChunkNext(changes: seq<Change>, k: nat, i: nat, before: seq<Origin>)
    requires k < |changes| && i <= |changes[k].value| && !(changes[k].added && changes[k].removed)
    requires NextLines(before) == Upto(|Side(changes, k, false)|) && PrevLines(before) == Upto(|Side(changes, k, true)|)
    ensures NextLines(before + Chunk(changes, k, i)) == Upto(|Side(changes, k, false)| + if changes[k].removed then 0 else i)
    ensures PrevLines(before + Chunk(changes, k, i)) == Upto(|Side(changes, k, true)| + if changes[k].added then 0 else i)
  {
    hide Side, NextLines, PrevLines, Upto, Chunk;
    if i > 0 {
      ChunkNext(changes, k, i - 1, before);
      var o := OriginOf(changes[k], |Side(changes, k, true)| + i - 1, |Side(changes, k, false)| + i - 1);
      ChunkStep(changes, k, i - 1);
      assert before + (Chunk(changes, k, i - 1) + [o]) == before + Chunk(changes, k, i - 1) + [o];
      OneMoreOrigin(before + Chunk(changes, k, i - 1), o);
      UptoNext(|Side(changes, k, false)| + i - 1);
      UptoNext(|Side(changes, k, true)| + i - 1);
    } else {
      assert before + Chunk(changes, k, 0) == before;
    }
  }

  lemma ChunkStep(changes: seq<Change>, k: nat, i: nat)
    requires k < |changes| && i < |changes[k].value|
    ensures Chunk(changes, k, i + 1) == Chunk(changes, k, i) + [OriginOf(changes[k], |Side(changes, k, true)| + i, |Side(changes, k, false)| + i)]
  {
    hide Side, OriginOf;
  }

  lemma OneMoreOrigin(rest: seq<Origin>, o: Origin)
    ensures NextLines(rest + [o]) == if o.Removed? then NextLines(rest) else NextLines(rest) + [o.next]
    ensures PrevLines(rest + [o]) == if o.Added? then PrevLines(rest) else PrevLines(rest) + [o.prev]
  {
    assert (rest + [o])[..|rest|] == rest;
    assert NextLines(rest) + [] == NextLines(rest) && PrevLines(rest) + [] == PrevLines(rest);
  }

  /** Rows kept or added are the current lines 1..n, rows kept or removed the previous lines 1..m, each
      once and in order. */
  lemma {:induction false} MergeKeepsBothSides(changes: seq<Change>, n: nat, prevLines: seq<string>, currentLines: seq<string>)
    requires Script(changes, prevLines, currentLines) && n <= |changes|
    ensures NextLines(Origins(changes, n)) == Upto(|Side(changes, n, false)|)
    ensures PrevLines(Origins(changes, n)) == Upto(|Side(changes, n, true)|)
  {
    hide Chunk;
    if n > 0 {
      MergeKeepsBothSides(changes, n - 1, prevLines, currentLines);
      ChunkNext(changes, n - 1, |changes[n - 1].value|, Origins(changes, n - 1));
    }
  }

  lemma BothSidesComplete(changes: seq<Change>, prevLines: seq<string>, currentLines: seq<string>)
    requires Script(changes, prevLines, currentLines)
    ensures NextLines(Origins(changes, |changes|)) == Upto(|currentLines|)
    ensures PrevLines(Origins(changes, |changes|)) == Upto(|prevLines|)
  {
    MergeKeepsBothSides(changes, |changes|, prevLines, currentLines);
  }

  // ---- the merged rows as they are shown -----------------------------------------------------------------

  /** The kind a row's tokens carry. */
  predicate Tagged(row: Row, kind: DiffKind) { row != [] && row[0].diffType == Some(kind) }

  /** How many of the first `n` rows are lines of the previous output, or of the current one. */
  function LinesAbove(rows: seq<Row>, n: nat, previous: bool): nat
    requires n <= |rows|
  {
    if n == 0 then 0
    else LinesAbove(rows, n - 1, previous) + if Tagged(rows[n - 1], if previous then Add else Del) then 0 else 1
  }

  /** The token of a shown row is this one of an output's line, but for its tags. */
  predicate SameToken(t: Token, u: Token) { t.content == u.content && t.offset == u.offset }

  /** A row reads as line `at` of an output. */
  predicate Reads(row: Row, lines: seq<Row>, at: nat) {
    at < |lines| && |row| == |lines[at]| && forall j :: 0 <= j < |row| ==> SameToken(row[j], lines[at][j])
  }

  /** Row `i`, for a line number counted from the rows above it: a removed row is the next previous line, an added
      one the next current line, a kept one both, shown as it is now. */
  ghost predicate NumberedRow(rows: seq<Row>, i: nat, prev: seq<Row>, current: seq<Row>)
    requires i < |rows|
  {
    var row, p, n := rows[i], LinesAbove(rows, i, true), LinesAbove(rows, i, false);
    && row != []
    && (forall j :: 0 <= j < |row| ==> row[j].diffType == row[0].diffType)
    && (Tagged(row, Del) ==> Reads(row, prev, p) && forall j :: 0 <= j < |row| ==> row[j].prevLine == Some(p + 1) && row[j].nextLine == None)
    && (Tagged(row, Add) ==> Reads(row, current, n) && forall j :: 0 <= j < |row| ==> row[j].nextLine == Some(n + 1) && row[j].prevLine == None)
    && (!Tagged(row, Del) && !Tagged(row, Add) ==>
          && Tagged(row, Keep) && Reads(row, current, n)
          && forall j :: 0 <= j < |row| ==> row[j].prevLine == Some(p + 1) && row[j].nextLine == Some(n + 1))
  }

  lemma {:induction false} LinesAboveCount(origins: seq<Origin>, prev: seq<Row>, current: seq<Row>, i: nat)
    requires i <= |origins| && forall k :: 0 <= k < |origins| ==> InRange(origins[k], |prev|, |current|)
    requires (forall k :: 0 <= k < |prev| ==> prev[k] != []) && (forall k :: 0 <= k < |current| ==> current[k] != [])
    ensures LinesAbove(RowsOf(origins, prev, current), i, true) == |PrevLines(origins[..i])|
    ensures LinesAbove(RowsOf(origins, prev, current), i, false) == |NextLines(origins[..i])|
  {
    hide RowsOf;
    if i > 0 {
      LinesAboveCount(origins, prev, current, i - 1);
      assert origins[..i] == origins[..i - 1] + [origins[i - 1]];
      OneMoreOrigin(origins[..i - 1], origins[i - 1]);
      RowAt(origins, prev, current, i - 1);
      RowIsTagged(origins[i - 1], prev, current);
    }
  }

  lemma RowAt(origins: seq<Origin>, prev: seq<Row>, current: seq<Row>, i: nat)
    requires i < |origins| && forall k :: 0 <= k < |origins| ==> InRange(origins[k], |prev|, |current|)
    ensures InRange(origins[i], |prev|, |current|) && RowsOf(origins, prev, current)[i] == RowOf(origins[i], prev, current)
  {
  }

  lemma RowIsTagged(o: Origin, prev: seq<Row>, current: seq<Row>)
    requires InRange(o, |prev|, |current|) && (o.Removed? ==> prev[o.prev] != []) && (!o.Removed? ==> current[o.next] != [])
    ensures Tagged(RowOf(o, prev, current), Del) <==> o.Removed?
    ensures Tagged(RowOf(o, prev, current), Add) <==> o.Added?
  {
  }

  /** Lines are named in order, so an origin names the line that many origins before it have counted up to. */
  lemma {:induction false} NamesAreCounts(origins: seq<Origin>, i: nat, m: nat, n: nat)
    requires i < |origins| && PrevLines(origins) == Upto(m) && NextLines(origins) == Upto(n)
    ensures !origins[i].Added? ==> origins[i].prev == |PrevLines(origins[..i])|
    ensures !origins[i].Removed? ==> origins[i].next == |NextLines(origins[..i])|
  {
    var rest, last := origins[..|origins| - 1], origins[|origins| - 1];
    if !last.Removed? { NextLinesPrefix(origins, n); }
    if !last.Added? { PrevLinesPrefix(origins, m); }
    if i < |origins| - 1 {
      assert rest[..i] == origins[..i];
      NamesAreCounts(rest, i, if last.Added? then m else m - 1, if last.Removed? then n else n - 1);
    }
  }

  /** What a diff shows: every row is the next line of the output it comes from, whole, under its own number; and all
      lines of both outputs are shown. */
  lemma MergedRowsAreNumbered(changes: seq<Change>, prevLines: seq<string>, currentLines: seq<string>,
                              prev: seq<Row>, current: seq<Row>)
    requires Script(changes, prevLines, currentLines) && |prevLines| == |prev| && |currentLines| == |current|
    requires (forall k :: 0 <= k < |prev| ==> prev[k] != []) && (forall k :: 0 <= k < |current| ==> current[k] != [])
    requires Untagged(prev) && Untagged(current)
    ensures var origins := Origins(changes, |changes|);
            && (forall k :: 0 <= k < |origins| ==> InRange(origins[k], |prev|, |current|))
            && var rows := RowsOf(origins, prev, current);
               && (forall i :: 0 <= i < |rows| ==> NumberedRow(rows, i, prev, current))
               && LinesAbove(rows, |rows|, true) == |prev| && LinesAbove(rows, |rows|, false) == |current|
  {
    hide Script, Origins, NumberedRow, PrevLines, NextLines, RowsOf, Untagged;
    var origins := Origins(changes, |changes|);
    OriginsInRange(changes, |changes|, prevLines, currentLines);
    BothSidesComplete(changes, prevLines, currentLines);
    var rows := RowsOf(origins, prev, current);
    forall i | 0 <= i < |rows| ensures NumberedRow(rows, i, prev, current) {
      LinesAboveCount(origins, prev, current, i);
      NamesAreCounts(origins, i, |prevLines|, |currentLines|);
      RowAt(origins, prev, current, i);
      OneNumberedRow(rows, i, origins[i], prev, current);
    }
    LinesAboveCount(origins, prev, current, |origins|);
    assert origins[..|origins|] == origins;
  }

  lemma OneNumberedRow(rows: seq<Row>, i: nat, o: Origin, prev: seq<Row>, current: seq<Row>)
    requires i < |rows| && InRange(o, |prev|, |current|) && rows[i] == RowOf(o, prev, current)
    requires (o.Removed? ==> prev[o.prev] != []) && (!o.Removed? ==> current[o.next] != [])
    requires Untagged(prev) && Untagged(current)
    requires !o.Added? ==> o.prev == LinesAbove(rows, i, true)
    requires !o.Removed? ==> o.next == LinesAbove(rows, i, false)
    ensures NumberedRow(rows, i, prev, current)
  {
    hide LinesAbove;
  }

  /** A kept row is a line both outputs have. */
  lemma {:induction false} KeptLinesAreEqual(changes: seq<Change>, n: nat, prevLines: seq<string>, currentLines: seq<string>, i: nat)
    requires Script(changes, prevLines, currentLines) && n <= |changes| && i < |Origins(changes, n)| && Origins(changes, n)[i].Kept?
    ensures var o := Origins(changes, n)[i]; o.prev < |prevLines| && o.next < |currentLines| && prevLines[o.prev] == currentLines[o.next]
  {
    var before, c := Origins(changes, n - 1), changes[n - 1];
    if i < |before| {
      KeptLinesAreEqual(changes, n - 1, prevLines, currentLines, i);
    } else {
      var j := i - |before|;
      ChunkHas(changes, n - 1, |c.value|, j);
      SideHolds(changes, n - 1, |changes|, true, j);
      SideHolds(changes, n - 1, |changes|, false, j);
    }
  }

  lemma ChunkHas(changes: seq<Change>, k: nat, n: nat, j: nat)
    requires k < |changes| && j < n <= |changes[k].value|
    ensures Chunk(changes, k, n)[j] == OriginOf(changes[k], |Side(changes, k, true)| + j, |Side(changes, k, false)| + j)
  {
    hide Side, OriginOf;
  }

  /** A chunk's lines stand in each side that has it, behind what came before. */
  lemma {:induction false} SideHolds(changes: seq<Change>, k: nat, n: nat, previous: bool, j: nat)
    requires k < n <= |changes| && j < |changes[k].value| && !(if previous then changes[k].added else changes[k].removed)
    ensures var at := |Side(changes, k, previous)| + j; at < |Side(changes, n, previous)| && Side(changes, n, previous)[at] == changes[k].value[j]
  {
    if k < n - 1 { SideHolds(changes, k, n - 1, previous, j); }
  }

  // ---- row keys ----------------------------------------------------------------------------------------

  function KindText(k: DiffKind): string { match k case Keep => "keep" case Add => "add" case Del => "del" }

  function NumberText(n: Option<nat>): string { if n.Some? then Decimal(n.value) else "" }

  function LineKey(row: Row, startOffset: nat): string {
    if row != [] && row[0].diffType.Some? then
      KindText(row[0].diffType.value) + ":" + NumberText(row[0].prevLine) + ":" + NumberText(row[0].nextLine)
    else "at-" + Decimal(startOffset)
  }

  lemma {:induction false} ColonAt(a: string, x: string)
    requires ':' !in a
    ensures IndexOfChar(a + ":" + x, ':') == |a|
  {
    var s := a + ":" + x;
    if a != "" {
      assert s[1..] == a[1..] + ":" + x && s[0] == a[0];
      ColonAt(a[1..], x);
    }
  }

  lemma CutAtColon(a: string, b: string, x: string, y: string)
    requires ':' !in a && ':' !in b && a + ":" + x == b + ":" + y
    ensures a == b && x == y
  {
    var s, t := a + ":" + x, b + ":" + y;
    ColonAt(a, x);
    ColonAt(b, y);
    assert a == s[..|a|] == t[..|b|] == b;
    assert x == s[|a| + 1..] == t[|b| + 1..] == y;
  }

  lemma NumberTextInjective(m: Option<nat>, n: Option<nat>)
    ensures ':' !in NumberText(m)
    ensures NumberText(m) == NumberText(n) ==> m == n
  {
    if m.Some? { DecimalIsDigits(m.value); }
    if m.Some? && n.Some? && Decimal(m.value) == Decimal(n.value) { DecimalInjective(m.value, n.value); }
  }

  lemma KindTextInjective(a: DiffKind, b: DiffKind)
    ensures ':' !in KindText(a) && (KindText(a) == KindText(b) ==> a == b)
  {
    assert KindText(Keep)[0] != KindText(Add)[0] && KindText(Keep)[0] != KindText(Del)[0] && KindText(Add)[0] != KindText(Del)[0];
  }

  /** The key of a tagged row tells its kind and both its line numbers. */
  lemma TaggedKeysDiffer(a: Row, b: Row, x: nat, y: nat)
    requires a != [] && b != [] && a[0].diffType.Some? && b[0].diffType.Some? && LineKey(a, x) == LineKey(b, y)
    ensures a[0].diffType == b[0].diffType && a[0].prevLine == b[0].prevLine && a[0].nextLine == b[0].nextLine
  {
    hide KindText, NumberText;
    var p, q := a[0], b[0];
    var pk, qk := KindText(p.diffType.value), KindText(q.diffType.value);
    var pp, qp, pn, qn := NumberText(p.prevLine), NumberText(q.prevLine), NumberText(p.nextLine), NumberText(q.nextLine);
    KindTextInjective(p.diffType.value, q.diffType.value);
    KindTextInjective(q.diffType.value, p.diffType.value);
    NumberTextInjective(p.prevLine, q.prevLine);
    NumberTextInjective(q.prevLine, p.prevLine);
    NumberTextInjective(p.nextLine, q.nextLine);
    assert pk + ":" + (pp + ":" + pn) == LineKey(a, x) && qk + ":" + (qp + ":" + qn) == LineKey(b, y);
    CutAtColon(pk, qk, pp + ":" + pn, qp + ":" + qn);
    CutAtColon(pp, qp, pn, qn);
  }

  ghost predicate Untagged(rows: seq<Row>) {
    forall i, j :: 0 <= i < |rows| && 0 <= j < |rows[i]| ==>
      rows[i][j].diffType == None && rows[i][j].prevLine == None && rows[i][j].nextLine == None
  }

  lemma {:induction false} NextNamedOnce(origins: seq<Origin>, i: nat, n: nat)
    requires NextLines(origins) == Upto(n) && i < |origins| && !origins[i].Removed?
    ensures origins[i].next < n
    ensures forall j :: i < j < |origins| && !origins[j].Removed? ==> origins[i].next < origins[j].next
  {
    var last := origins[|origins| - 1];
    var rest := origins[..|origins| - 1];
    if !last.Removed? { NextLinesPrefix(origins, n); }
    if i < |origins| - 1 { NextNamedOnce(rest, i, if last.Removed? then n else n - 1); }
  }

  lemma NextLinesPrefix(origins: seq<Origin>, n: nat)
    requires origins != [] && NextLines(origins) == Upto(n) && !origins[|origins| - 1].Removed?
    ensures n > 0 && NextLines(origins[..|origins| - 1]) == Upto(n - 1) && origins[|origins| - 1].next == n - 1
  {
    var rest := NextLines(origins[..|origins| - 1]);
    assert NextLines(origins)[|rest|] == origins[|origins| - 1].next;
    assert NextLines(origins)[..|rest|] == rest && Upto(n)[..n - 1] == Upto(n - 1);
  }

  lemma {:induction false} PrevNamedOnce(origins: seq<Origin>, i: nat, n: nat)
    requires PrevLines(origins) == Upto(n) && i < |origins| && !origins[i].Added?
    ensures origins[i].prev < n
    ensures forall j :: i < j < |origins| && !origins[j].Added? ==> origins[i].prev < origins[j].prev
  {
    var last := origins[|origins| - 1];
    var rest := origins[..|origins| - 1];
    if !last.Added? { PrevLinesPrefix(origins, n); }
    if i < |origins| - 1 { PrevNamedOnce(rest, i, if last.Added? then n else n - 1); }
  }

  lemma PrevLinesPrefix(origins: seq<Origin>, n: nat)
    requires origins != [] && PrevLines(origins) == Upto(n) && !origins[|origins| - 1].Added?
    ensures n > 0 && PrevLines(origins[..|origins| - 1]) == Upto(n - 1) && origins[|origins| - 1].prev == n - 1
  {
    var rest := PrevLines(origins[..|origins| - 1]);
    assert PrevLines(origins)[|rest|] == origins[|origins| - 1].prev;
    assert PrevLines(origins)[..|rest|] == rest && Upto(n)[..n - 1] == Upto(n - 1);
  }

  /** The key a merged row gets. */
  function MergedKey(rows: seq<Row>, i: nat): string
    requires i < |rows|
  {
    LineKey(rows[i], LineSpan(rows[i]).start)
  }

  /** Two merged rows share a key exactly when both are blank. */
  lemma KeysCollideIffBlank(changes: seq<Change>, prevLines: seq<string>, currentLines: seq<string>,
                            prev: seq<Row>, current: seq<Row>, i: nat, j: nat)
    requires Script(changes, prevLines, currentLines) && |prevLines| == |prev| && |currentLines| == |current|
    requires Untagged(prev) && Untagged(current)
    requires forall k :: 0 <= k < |Origins(changes, |changes|)| ==> InRange(Origins(changes, |changes|)[k], |prev|, |current|)
    requires i < j < |Origins(changes, |changes|)|
    ensures var rows := RowsOf(Origins(changes, |changes|), prev, current);
            MergedKey(rows, i) == MergedKey(rows, j) <==> rows[i] == [] && rows[j] == []
  {
    hide Script, LineKey, Origins;
    var origins := Origins(changes, |changes|);
    var rows := RowsOf(origins, prev, current);
    BothSidesComplete(changes, prevLines, currentLines);
    if rows[i] == [] && rows[j] == [] {
    } else if rows[i] == [] || rows[j] == [] {
      BlankKeyDiffers(if rows[i] == [] then rows[j] else rows[i]);
    } else if MergedKey(rows, i) == MergedKey(rows, j) {
      TaggedKeysDiffer(rows[i], rows[j], LineSpan(rows[i]).start, LineSpan(rows[j]).start);
      if !origins[i].Removed? { NextNamedOnce(origins, i, |currentLines|); } else { PrevNamedOnce(origins, i, |prevLines|); }
    }
  }

  lemma BlankKeyDiffers(row: Row)
    requires row != [] && row[0].diffType.Some?
    ensures LineKey(row, LineSpan(row).start) != LineKey([], LineSpan([]).start)
  {
    var s, t := LineKey(row, LineSpan(row).start), "at-" + Decimal(0);
    assert t[1] == 't';
    match row[0].diffType.value
    case Keep => assert s[1] == "keep"[1] == 'e';
    case Add => assert s[1] == "add"[1] == 'd';
    case Del => assert s[1] == "del"[1] == 'e';
  }

  // ---- blank rows are filled -----------------------------------------------------------------------------

  /** Offsets just behind each line break from `i` on: \r\n counts as one. */
  function BreaksFrom(text: string, i: nat): seq<nat>
    requires i <= |text|
    decreases |text| - i
  {
    if i == |text| then []
    else if text[i] == '\r' && i + 1 < |text| && text[i + 1] == '\n' then [i + 2] + BreaksFrom(text, i + 2)
    else if text[i] == '\r' || text[i] == '\n' then [i + 1] + BreaksFrom(text, i + 1)
    else BreaksFrom(text, i + 1)
  }

  method LineStartOffsets(text: string) returns (starts: seq<nat>)
    ensures starts == [0] + BreaksFrom(text, 0)
  {
    starts := [0];
    var i: nat := 0;
    while i < |text|
      invariant i <= |text|
      invariant starts + BreaksFrom(text, i) == [0] + BreaksFrom(text, 0)
    {
      if text[i] == '\r' && i + 1 < |text| && text[i + 1] == '\n' {
        assert starts + ([i + 2] + BreaksFrom(text, i + 2)) == (starts + [i + 2]) + BreaksFrom(text, i + 2);
        starts := starts + [i + 2];
        i := i + 2;
      } else if text[i] == '\r' || text[i] == '\n' {
        assert starts + ([i + 1] + BreaksFrom(text, i + 1)) == (starts + [i + 1]) + BreaksFrom(text, i + 1);
        starts := starts + [i + 1];
        i := i + 1;
      } else {
        i := i + 1;
      }
    }
    assert starts + [] == starts;
  }

  /** They are the places where a line begins: behind a line feed, or behind a carriage return that none follows. */
  lemma {:induction false} BreaksBeginLines(text: string, i: nat, k: nat)
    requires i <= |text|
    ensures k in BreaksFrom(text, i) <==>
      i < k <= |text| && (text[k - 1] == '\n' || (text[k - 1] == '\r' && !(k < |text| && text[k] == '\n')))
    decreases |text| - i
  {
    if i < |text| {
      if text[i] == '\r' && i + 1 < |text| && text[i + 1] == '\n' {
        BreaksBeginLines(text, i + 2, k);
      } else {
        BreaksBeginLines(text, i + 1, k);
      }
    }
  }

  function Filled(rows: seq<Row>, starts: seq<nat>): (r: seq<Row>)
    ensures |r| == |rows|
  {
    seq(|rows|, i requires 0 <= i < |rows| =>
      if rows[i] != [] then rows[i] else [Token("", if i < |starts| then starts[i] else 0, None, None, None)])
  }

  /** fillBlankRows */
  method FillBlankRows(rows: seq<Row>, text: string) returns (r: seq<Row>)
    ensures r == Filled(rows, [0] + BreaksFrom(text, 0))
  {
    if forall i :: 0 <= i < |rows| ==> rows[i] != [] {
      assert rows == Filled(rows, [0] + BreaksFrom(text, 0));
      return rows;
    }
    var starts := LineStartOffsets(text);
    r := Filled(rows, starts);
  }

  /** Filling leaves every row with a token, the text of every row as it was, and nothing tagged. */
  lemma FillingKeepsText(rows: seq<Row>, starts: seq<nat>, i: nat)
    requires i < |rows|
    ensures Filled(rows, starts)[i] != [] && RowText(Filled(rows, starts)[i]) == RowText(rows[i])
    ensures Untagged(rows) ==> Untagged(Filled(rows, starts))
  {
    var blank := Token("", if i < |starts| then starts[i] else 0, None, None, None);
    assert [blank][..0] == [];
    assert RowText([blank]) == RowText([]) + "" == "";
  }

  /** After filling, the rows of a merged diff have pairwise distinct keys. */
  lemma FilledRowsHaveDistinctKeys(changes: seq<Change>, prevLines: seq<string>, currentLines: seq<string>,
                                   prev: seq<Row>, current: seq<Row>, prevText: string, currentText: string, i: nat, j: nat)
    requires Script(changes, prevLines, currentLines) && |prevLines| == |prev| && |currentLines| == |current|
    requires Untagged(prev) && Untagged(current)
    requires i < j < |Origins(changes, |changes|)|
    ensures var p, c := Filled(prev, [0] + BreaksFrom(prevText, 0)), Filled(current, [0] + BreaksFrom(currentText, 0));
            && (forall k :: 0 <= k < |Origins(changes, |changes|)| ==> InRange(Origins(changes, |changes|)[k], |p|, |c|))
            && var rows := RowsOf(Origins(changes, |changes|), p, c); MergedKey(rows, i) != MergedKey(rows, j)
  {
    hide Script, Origins, MergedKey, BreaksFrom;
    var p, c := Filled(prev, [0] + BreaksFrom(prevText, 0)), Filled(current, [0] + BreaksFrom(currentText, 0));
    OriginsInRange(changes, |changes|, prevLines, currentLines);
    KeysCollideIffBlank(changes, prevLines, currentLines, p, c, i, j);
    var o := Origins(changes, |changes|)[i];
    assert InRange(o, |p|, |c|);
    assert RowOf(o, p, c) != [];
  }

  // ---- merged rows and the sweep -------------------------------------------------------------------------

  function Starts(text: string): seq<nat> { [0] + BreaksFrom(text, 0) }

  lemma {:induction false} BreaksAscend(text: string, i: nat)
    requires i <= |text|
    ensures forall k :: 0 <= k < |BreaksFrom(text, i)| ==> i < BreaksFrom(text, i)[k] <= |text|
    ensures forall k, m :: 0 <= k < m < |BreaksFrom(text, i)| ==> BreaksFrom(text, i)[k] < BreaksFrom(text, i)[m]
    decreases |text| - i
  {
    if i < |text| {
      if text[i] == '\r' && i + 1 < |text| && text[i + 1] == '\n' { BreaksAscend(text, i + 2); } else { BreaksAscend(text, i + 1); }
    }
  }

  ghost predicate InOrder(starts: seq<nat>) { forall k, m :: 0 <= k < m < |starts| ==> starts[k] < starts[m] }

  lemma StartsInOrder(text: string)
    ensures InOrder(Starts(text))
  {
    BreaksAscend(text, 0);
  }

  /** Every carriage return stands before a line feed. */
  ghost predicate NoLoneReturn(text: string) {
    forall i :: 0 <= i < |text| && text[i] == '\r' ==> i + 1 < |text| && text[i + 1] == '\n'
  }

  /** Then every line but the first begins behind a line feed. */
  lemma {:induction false} BreaksAreFeeds(text: string, i: nat)
    requires i <= |text| && NoLoneReturn(text)
    ensures forall k :: 0 <= k < |BreaksFrom(text, i)| ==>
              0 < BreaksFrom(text, i)[k] <= |text| && text[BreaksFrom(text, i)[k] - 1] == '\n'
    decreases |text| - i
  {
    if i < |text| {
      if text[i] == '\r' { BreaksAreFeeds(text, i + 2); } else { BreaksAreFeeds(text, i + 1); }
    }
  }

  lemma FeedBefore(text: string, k: nat)
    requires NoLoneReturn(text) && 0 < k < |Starts(text)|
    ensures 0 < Starts(text)[k] <= |text| && text[Starts(text)[k] - 1] == '\n'
  {
    BreaksAreFeeds(text, 0);
  }

  /** The highlighter's layout: one row a line, each row that has tokens beginning where its line does and
      ending before the line's break. */
  ghost predicate LaidOut(rows: seq<Row>, starts: seq<nat>) {
    && |rows| == |starts|
    && forall k :: 0 <= k < |rows| && rows[k] != [] ==>
         rows[k][0].offset == starts[k] && (k + 1 < |starts| ==> starts[k] + |RowText(rows[k])| < starts[k + 1])
  }

  /** After filling, every row's span begins where its line does, and ends before any later line's. */
  lemma FilledSpans(rows: seq<Row>, starts: seq<nat>, k: nat, m: nat)
    requires LaidOut(rows, starts) && InOrder(starts) && k < m < |rows|
    ensures LineSpan(Filled(rows, starts)[m]).start == starts[m]
    ensures LineSpan(Filled(rows, starts)[k]).end < starts[m]
  {
    FillingKeepsText(rows, starts, k);
    hide RowText;
    assert starts[k] < starts[k + 1] <= starts[m];
  }

  /** The highlighter's text: each row with tokens reads as the output does from its first token's offset on. */
  ghost predicate ReadsAs(rows: seq<Row>, text: string) {
    forall k :: 0 <= k < |rows| && rows[k] != [] ==>
      var from, to := rows[k][0].offset, rows[k][0].offset + |RowText(rows[k])|; to <= |text| && RowText(rows[k]) == text[from..to]
  }

  /** Then each filled row shows its stretch of the output. */
  lemma FilledRowsShow(rows: seq<Row>, text: string, k: nat)
    requires LaidOut(rows, Starts(text)) && ReadsAs(rows, text) && k < |rows|
    ensures Shows(Filled(rows, Starts(text))[k], text)
  {
    hide RowText;
    FillingKeepsText(rows, Starts(text), k);
    BreaksAscend(text, 0);
    if rows[k] == [] {
      BlankText();
      assert Starts(text)[k] <= |text|;
    }
  }

  lemma BlankText()
    ensures RowText([]) == ""
  {
  }

  /** And so does each row of a diff that is not a deletion. */
  lemma MergedRowsShow(o: Origin, prev: seq<Row>, current: seq<Row>, currentText: string)
    requires InRange(o, |prev|, |Filled(current, Starts(currentText))|) && !o.Removed?
    requires LaidOut(current, Starts(currentText)) && ReadsAs(current, currentText)
    ensures Shows(RowOf(o, prev, Filled(current, Starts(currentText))), currentText)
  {
    hide Filled, LaidOut, ReadsAs, LineSpan, Starts, RowText;
    var c := Filled(current, Starts(currentText));
    FilledRowsShow(current, currentText, o.next);
    FillingKeepsText(current, Starts(currentText), o.next);
    RowOfSpan(o, prev, c);
    TaggingKeepsText(RowOf(o, prev, c), c[o.next]);
  }

  /** Tagging a row moves nothing. */
  lemma {:induction false} TaggingKeepsText(a: Row, b: Row)
    requires |a| == |b| && forall i :: 0 <= i < |a| ==> a[i].content == b[i].content
    ensures RowText(a) == RowText(b)
  {
    if a != [] { TaggingKeepsText(a[..|a| - 1], b[..|b| - 1]); }
  }

  lemma RowOfSpan(o: Origin, prev: seq<Row>, current: seq<Row>)
    requires InRange(o, |prev|, |current|) && !o.Removed? && current[o.next] != []
    ensures !Deleted(RowOf(o, prev, current)) && LineSpan(RowOf(o, prev, current)) == LineSpan(current[o.next])
  {
    TaggingKeepsText(RowOf(o, prev, current), current[o.next]);
    hide RowText;
  }

  lemma RemovedIsDeleted(o: Origin, prev: seq<Row>, current: seq<Row>)
    requires InRange(o, |prev|, |current|) && o.Removed? && prev[o.prev] != []
    ensures Deleted(RowOf(o, prev, current))
  {
  }

  function Spans(rows: seq<Row>): (r: seq<Span>)
    ensures |r| == |rows|
  {
    seq(|rows|, i requires 0 <= i < |rows| => LineSpan(rows[i]))
  }

  /** The rows of a diff of filled outputs lie one behind the other, deletions aside, as the sweep needs. */
  lemma MergedRowsAreConsecutive(changes: seq<Change>, prevLines: seq<string>, currentLines: seq<string>,
                                 prev: seq<Row>, current: seq<Row>, prevText: string, currentText: string)
    requires Script(changes, prevLines, currentLines) && |prevLines| == |prev| && |currentLines| == |current|
    requires LaidOut(current, Starts(currentText))
    ensures var p, c, origins := Filled(prev, Starts(prevText)), Filled(current, Starts(currentText)), Origins(changes, |changes|);
            && (forall k :: 0 <= k < |origins| ==> InRange(origins[k], |p|, |c|))
            && var rows := RowsOf(origins, p, c); Consecutive(rows, Spans(rows))
  {
    hide Script, Origins, BreaksFrom, RowText, Starts;
    var p, c := Filled(prev, Starts(prevText)), Filled(current, Starts(currentText));
    var origins := Origins(changes, |changes|);
    OriginsInRange(changes, |changes|, prevLines, currentLines);
    BothSidesComplete(changes, prevLines, currentLines);
    StartsInOrder(currentText);
    var rows := RowsOf(origins, p, c);
    forall i, j | 0 <= i < j < |rows| && !Deleted(rows[i]) && !Deleted(rows[j])
      ensures LineSpan(rows[i]).end <= LineSpan(rows[j]).start
    {
      LaterRowIsBehind(origins, p, c, current, Starts(currentText), i, j);
    }
  }

  lemma LaterRowIsBehind(origins: seq<Origin>, p: seq<Row>, c: seq<Row>, current: seq<Row>, starts: seq<nat>, i: nat, j: nat)
    requires forall k :: 0 <= k < |origins| ==> InRange(origins[k], |p|, |c|)
    requires NextLines(origins) == Upto(|c|) && c == Filled(current, starts) && LaidOut(current, starts) && InOrder(starts)
    requires i < j < |origins| && !Deleted(RowOf(origins[i], p, c)) && !Deleted(RowOf(origins[j], p, c))
    requires forall k :: 0 <= k < |p| ==> p[k] != []
    ensures !origins[j].Removed? && 0 < origins[j].next < |starts|
    ensures LineSpan(RowOf(origins[i], p, c)).end < LineSpan(RowOf(origins[j], p, c)).start == starts[origins[j].next]
  {
    hide RowText, RowOf, NextLines, LaidOut, InOrder, LineSpan, Deleted;
    assert InRange(origins[i], |p|, |c|) && InRange(origins[j], |p|, |c|);
    if origins[i].Removed? { RemovedIsDeleted(origins[i], p, c); }
    if origins[j].Removed? { RemovedIsDeleted(origins[j], p, c); }
    NextNamedOnce(origins, i, |c|);
    RowForEachLine(current, starts);
    RowOfSpan(origins[i], p, c);
    RowOfSpan(origins[j], p, c);
    FilledSpans(current, starts, origins[i].next, origins[j].next);
  }

  // ---- annotations on plain and on merged rows -----------------------------------------------------------

  /** The rows of one filled output are set apart by line feeds. */
  lemma FilledRowsAreApart(rows: seq<Row>, text: string)
    requires LaidOut(rows, Starts(text)) && NoLoneReturn(text)
    ensures var filled := Filled(rows, Starts(text)); Apart(filled, Spans(filled), text)
  {
    hide RowText, Starts, LineSpan, LaidOut, NoLoneReturn;
    var filled := Filled(rows, Starts(text));
    StartsInOrder(text);
    assert |rows| == |Starts(text)| by { RowForEachLine(rows, Starts(text)); }
    forall i, j | 0 <= i < j < |filled| ensures FeedBetween(text, LineSpan(filled[i]).end, LineSpan(filled[j]).start) {
      FilledSpans(rows, Starts(text), i, j);
      FeedBefore(text, j);
      assert text[Starts(text)[j] - 1] == '\n';
    }
  }

  lemma RowForEachLine(rows: seq<Row>, starts: seq<nat>)
    requires LaidOut(rows, starts)
    ensures |rows| == |starts|
  {
  }

  /** The rows of a diff of filled outputs are set apart by line feeds, deletions aside. */
  lemma MergedRowsAreApart(changes: seq<Change>, prevLines: seq<string>, currentLines: seq<string>,
                           prev: seq<Row>, current: seq<Row>, prevText: string, currentText: string)
    requires Script(changes, prevLines, currentLines) && |prevLines| == |prev| && |currentLines| == |current|
    requires LaidOut(current, Starts(currentText)) && NoLoneReturn(currentText)
    ensures var p, c, origins := Filled(prev, Starts(prevText)), Filled(current, Starts(currentText)), Origins(changes, |changes|);
            && (forall k :: 0 <= k < |origins| ==> InRange(origins[k], |p|, |c|))
            && var rows := RowsOf(origins, p, c); Apart(rows, Spans(rows), currentText)
  {
    hide Script, Origins, BreaksFrom, RowText, Starts, NoLoneReturn, LaidOut, LineSpan;
    var p, c := Filled(prev, Starts(prevText)), Filled(current, Starts(currentText));
    var origins, starts := Origins(changes, |changes|), Starts(currentText);
    OriginsInRange(changes, |changes|, prevLines, currentLines);
    BothSidesComplete(changes, prevLines, currentLines);
    StartsInOrder(currentText);
    var rows := RowsOf(origins, p, c);
    forall i, j | 0 <= i < j < |rows| && !Deleted(rows[i]) && !Deleted(rows[j])
      ensures FeedBetween(currentText, LineSpan(rows[i]).end, LineSpan(rows[j]).start)
    {
      LaterRowIsBehind(origins, p, c, current, starts, i, j);
      FeedBefore(currentText, origins[j].next);
      assert currentText[starts[origins[j].next] - 1] == '\n';
    }
  }

  /** From a directive to the screen: for rules that parse, the sweep gives every row of a plain output, and every
      row of a diff, exactly the annotations of the output that touch it. */
  lemma RowsGetTheirAnnotations(rules: seq<Rule>, changes: seq<Change>, prevLines: seq<string>, currentLines: seq<string>,
                                prev: seq<Row>, current: seq<Row>, prevText: string, currentText: string)
    requires forall k :: 0 <= k < |rules| ==> Sound(rules[k]) && rules[k].match_ != ""
    requires Script(changes, prevLines, currentLines) && |prevLines| == |prev| && |currentLines| == |current|
    requires LaidOut(current, Starts(currentText)) && NoLoneReturn(currentText)
    ensures var p, c, origins := Filled(prev, Starts(prevText)), Filled(current, Starts(currentText)), Origins(changes, |changes|);
            && (forall k :: 0 <= k < |origins| ==> InRange(origins[k], |p|, |c|))
            && var rows, shown := RowsOf(origins, p, c), Shown(rules, currentText);
               && (forall i :: 0 <= i < |c| ==> Swept(c, Spans(c), shown, i) == Wanted(c[i], LineSpan(c[i]), shown))
               && (forall i :: 0 <= i < |rows| ==> Swept(rows, Spans(rows), shown, i) == Wanted(rows[i], LineSpan(rows[i]), shown))
  {
    hide Script, Origins, Starts, RowText, Swept, Wanted, Shown, Sound, Apart, Filled, RowsOf, LaidOut, NoLoneReturn;
    var p, c := Filled(prev, Starts(prevText)), Filled(current, Starts(currentText));
    FilledRowsAreApart(current, currentText);
    MergedRowsAreApart(changes, prevLines, currentLines, prev, current, prevText, currentText);
    var rows := RowsOf(Origins(changes, |changes|), p, c);
    forall i | 0 <= i < |c| ensures Swept(c, Spans(c), Shown(rules, currentText), i) == Wanted(c[i], LineSpan(c[i]), Shown(rules, currentText)) {
      ShownSweepIsFilter(rules, currentText, c, Spans(c), i);
    }
    forall i | 0 <= i < |rows| ensures Swept(rows, Spans(rows), Shown(rules, currentText), i) == Wanted(rows[i], LineSpan(rows[i]), Shown(rules, currentText)) {
      ShownSweepIsFilter(rules, currentText, rows, Spans(rows), i);
    }
  }
}
