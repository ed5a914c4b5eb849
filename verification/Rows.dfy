/**
 * Code rows: spreading sorted annotations over the rows of an output with one sweep
 * (apps/frontend/src/components/OutputsPanel/components/codeRows.ts), and cutting a row's tokens at
 * the annotations' edges (annotatedTokens.tsx).
 */
module Rows {
  import opened Numbers
  import opened Optional
  import opened Annotations

  datatype DiffKind = Keep | Add | Del

  datatype Token = Token(content: string, offset: nat, diffType: Option<DiffKind>, prevLine: Option<nat>, nextLine: Option<nat>)

  type Row = seq<Token>

  datatype Span = Span(start: nat, end: nat)

  function RowText(row: Row): string {
    if row == [] then "" else RowText(row[..|row| - 1]) + row[|row| - 1].content
  }

  /** A row covers the output from its first token's offset, for as long as its text. */
  function LineSpan(row: Row): Span {
    var start := if row == [] then 0 else row[0].offset;
    Span(start, start + |RowText(row)|)
  }

  predicate Deleted(row: Row) { row != [] && row[0].diffType == Some(Del) }

  // ---- the sweep -----------------------------------------------------------------------------------

  /** The cursor moved past the annotations that end before the row begins. */
  function SkipEnded(annotations: seq<Annotation>, next: nat, start: nat): (r: nat)
    requires next <= |annotations|
    ensures next <= r <= |annotations|
    decreases |annotations| - next
  {
    if next < |annotations| && annotations[next].end <= start then SkipEnded(annotations, next + 1, start) else next
  }

  /** The cursor moved past the annotations that begin before the row ends. */
  function TakeStarted(annotations: seq<Annotation>, after: nat, end: nat): (r: nat)
    requires after <= |annotations|
    ensures after <= r <= |annotations|
    decreases |annotations| - after
  {
    if after < |annotations| && annotations[after].start < end then TakeStarted(annotations, after + 1, end) else after
  }

  /** The sweep's cursor when it reaches row `i`. */
  function CursorAt(rows: seq<Row>, spans: seq<Span>, annotations: seq<Annotation>, i: nat): (r: nat)
    requires |rows| == |spans| && i <= |rows|
    ensures r <= |annotations|
  {
    if i == 0 then 0
    else
      var next := CursorAt(rows, spans, annotations, i - 1);
      if Deleted(rows[i - 1]) then next
      else TakeStarted(annotations, SkipEnded(annotations, next, spans[i - 1].start), spans[i - 1].end)
  }

  function Swept(rows: seq<Row>, spans: seq<Span>, annotations: seq<Annotation>, i: nat): Option<seq<Annotation>>
    requires |rows| == |spans| && i < |rows|
  {
    if annotations == [] || Deleted(rows[i]) then None
    else
      var next := SkipEnded(annotations, CursorAt(rows, spans, annotations, i), spans[i].start);
      var after := TakeStarted(annotations, next, spans[i].end);
      if after > next then Some(annotations[next..after]) else None
  }

  method AnnotationsPerRow(rows: seq<Row>, spans: seq<Span>, annotations: seq<Annotation>)
    returns (perRow: seq<Option<seq<Annotation>>>)
    requires |rows| == |spans|
    ensures |perRow| == |rows|
    ensures forall i :: 0 <= i < |rows| ==> perRow[i] == Swept(rows, spans, annotations, i)
  {
    perRow := [];
    var next: nat := 0;
    for index := 0 to |spans|
      invariant |perRow| == index
      invariant annotations != [] ==> next == CursorAt(rows, spans, annotations, index)
      invariant forall i :: 0 <= i < index ==> perRow[i] == Swept(rows, spans, annotations, i)
    {
      if |annotations| == 0 || (|rows[index]| > 0 && rows[index][0].diffType == Some(Del)) {
        perRow := perRow + [None];
        continue;
      }
      var start, end := spans[index].start, spans[index].end;
      ghost var before := next;
      while next < |annotations| && annotations[next].end <= start
        invariant next <= |annotations|
        invariant SkipEnded(annotations, next, start) == SkipEnded(annotations, before, start)
      {
        next := next + 1;
      }
      var after := next;
      while after < |annotations| && annotations[after].start < end
        invariant next <= after <= |annotations|
        invariant TakeStarted(annotations, after, end) == TakeStarted(annotations, next, end)
      {
        after := after + 1;
      }
      perRow := perRow + [if after > next then Some(annotations[next..after]) else None];
      next := after;
    }
  }

  // ---- what each row should get ----------------------------------------------------------------------

  predicate Touches(a: Annotation, span: Span) { a.start < span.end && a.end > span.start }

  predicate Holds(from: nat, to: nat, p: nat) { from <= p < to }

  /** Touching is having a character in common. */
  lemma TouchingSharesText(a: Annotation, span: Span)
    requires a.start < a.end && span.start < span.end
    ensures Touches(a, span) <==> exists p: nat :: Holds(a.start, a.end, p) && Holds(span.start, span.end, p)
  {
    if Touches(a, span) {
      var p := Max(a.start, span.start);
      assert Holds(a.start, a.end, p) && Holds(span.start, span.end, p);
    }
  }

  /** The naive filter. */
  function Touching(annotations: seq<Annotation>, span: Span): seq<Annotation> {
    if annotations == [] then []
    else Touching(annotations[..|annotations| - 1], span)
         + if Touches(annotations[|annotations| - 1], span) then [annotations[|annotations| - 1]] else []
  }

  function Wanted(row: Row, span: Span, annotations: seq<Annotation>): Option<seq<Annotation>> {
    if Deleted(row) || Touching(annotations, span) == [] then None else Some(Touching(annotations, span))
  }

  /** Rows that are not deletions lie one behind the other. */
  ghost predicate Consecutive(rows: seq<Row>, spans: seq<Span>)
    requires |rows| == |spans|
  {
    && (forall i :: 0 <= i < |rows| ==> spans[i].start <= spans[i].end)
    && (forall i, j :: 0 <= i < j < |rows| && !Deleted(rows[i]) && !Deleted(rows[j]) ==> spans[i].end <= spans[j].start)
  }

  /** No annotation reaches into two rows that are not deletions. */
  ghost predicate NoneCrosses(rows: seq<Row>, spans: seq<Span>, annotations: seq<Annotation>)
    requires |rows| == |spans|
  {
    forall i, j, k :: 0 <= i < j < |rows| && !Deleted(rows[i]) && !Deleted(rows[j]) && 0 <= k < |annotations| ==>
      !(Touches(annotations[k], spans[i]) && Touches(annotations[k], spans[j]))
  }

  lemma {:induction false} SkipEndedMeans(annotations: seq<Annotation>, next: nat, start: nat)
    requires next <= |annotations|
    ensures var r := SkipEnded(annotations, next, start);
            && (forall k :: next <= k < r ==> annotations[k].end <= start)
            && (r < |annotations| ==> annotations[r].end > start)
    decreases |annotations| - next
  {
    if next < |annotations| && annotations[next].end <= start { SkipEndedMeans(annotations, next + 1, start); }
  }

  lemma {:induction false} TakeStartedMeans(annotations: seq<Annotation>, after: nat, end: nat)
    requires after <= |annotations|
    ensures var r := TakeStarted(annotations, after, end);
            && (forall k :: after <= k < r ==> annotations[k].start < end)
            && (r < |annotations| ==> annotations[r].start >= end)
    decreases |annotations| - after
  {
    if after < |annotations| && annotations[after].start < end { TakeStartedMeans(annotations, after + 1, end); }
  }

  /** When exactly the indices `[next, after)` touch a span, the filter is that slice. */
  lemma {:induction false} TouchingIsSlice(annotations: seq<Annotation>, span: Span, next: nat, after: nat, n: nat)
    requires next <= after <= |annotations| && n <= |annotations|
    requires forall k :: 0 <= k < |annotations| ==> (Touches(annotations[k], span) <==> next <= k < after)
    ensures Touching(annotations[..n], span) == if n <= next then [] else if n <= after then annotations[next..n] else annotations[next..after]
  {
    hide Touches, Touching;
    if n == 0 { NoneTouching(span); }
    if n > 0 {
      TouchingIsSlice(annotations, span, next, after, n - 1);
      OneMoreTouching(annotations, span, n);
      if next < n <= after { assert annotations[next..n] == annotations[next..n - 1] + [annotations[n - 1]]; }
    }
  }

  lemma NoneTouching(span: Span)
    ensures Touching([], span) == []
  {
  }

  lemma OneMoreTouching(annotations: seq<Annotation>, span: Span, n: nat)
    requires 0 < n <= |annotations|
    ensures Touching(annotations[..n], span)
         == Touching(annotations[..n - 1], span) + if Touches(annotations[n - 1], span) then [annotations[n - 1]] else []
  {
    hide Touches;
    assert annotations[..n][..n - 1] == annotations[..n - 1];
  }

  /** Everything the sweep has passed was taken by an earlier row or ended before one began. */
  ghost predicate Passed(rows: seq<Row>, spans: seq<Span>, annotations: seq<Annotation>, i: nat, k: nat)
    requires |rows| == |spans| && i <= |rows| && k < |annotations|
  {
    exists j :: 0 <= j < i && !Deleted(rows[j]) && (Touches(annotations[k], spans[j]) || annotations[k].end <= spans[j].start)
  }

  lemma {:induction false} BehindCursor(rows: seq<Row>, spans: seq<Span>, annotations: seq<Annotation>, i: nat)
    requires |rows| == |spans| && i <= |rows| && Disjoint(annotations)
    ensures forall k :: 0 <= k < CursorAt(rows, spans, annotations, i) ==> Passed(rows, spans, annotations, i, k)
  {
    hide Touches;
    if i > 0 {
      BehindCursor(rows, spans, annotations, i - 1);
      var before := CursorAt(rows, spans, annotations, i - 1);
      forall k | 0 <= k < CursorAt(rows, spans, annotations, i) ensures Passed(rows, spans, annotations, i, k) {
        if k < before {
          assert Passed(rows, spans, annotations, i - 1, k);
          var j :| 0 <= j < i - 1 && !Deleted(rows[j]) && (Touches(annotations[k], spans[j]) || annotations[k].end <= spans[j].start);
        } else {
          RowTakes(annotations, before, spans[i - 1], k);
        }
      }
    }
  }

  lemma RowTakes(annotations: seq<Annotation>, before: nat, span: Span, k: nat)
    requires before <= |annotations| && Disjoint(annotations)
    requires before <= k < TakeStarted(annotations, SkipEnded(annotations, before, span.start), span.end)
    ensures k < |annotations| && (Touches(annotations[k], span) || annotations[k].end <= span.start)
  {
    var next := SkipEnded(annotations, before, span.start);
    SkipEndedMeans(annotations, before, span.start);
    TakeStartedMeans(annotations, next, span.end);
    assert k > next ==> annotations[next].end <= annotations[k].start;
  }

  /** In a live row, of what was not passed before, exactly the indices the sweep slices out touch the row. */
  lemma SliceTouches(annotations: seq<Annotation>, cursor: nat, span: Span, k: nat)
    requires cursor <= k < |annotations| && Disjoint(annotations) && span.start <= span.end
    ensures var next := SkipEnded(annotations, cursor, span.start);
            Touches(annotations[k], span) <==> next <= k < TakeStarted(annotations, next, span.end)
  {
    var next := SkipEnded(annotations, cursor, span.start);
    var after := TakeStarted(annotations, next, span.end);
    SkipEndedMeans(annotations, cursor, span.start);
    TakeStartedMeans(annotations, next, span.end);
    if next < k { assert annotations[next].end <= annotations[k].start; }
    if after < k { assert annotations[after].end <= annotations[k].start; }
  }

  /** Passed annotations do not touch this row, as long as none crosses. */
  lemma PassedDoesNotTouch(rows: seq<Row>, spans: seq<Span>, annotations: seq<Annotation>, i: nat, k: nat)
    requires |rows| == |spans| && i < |rows| && !Deleted(rows[i]) && k < |annotations|
    requires Consecutive(rows, spans) && NoneCrosses(rows, spans, annotations) && Passed(rows, spans, annotations, i, k)
    ensures !Touches(annotations[k], spans[i])
  {
    var j :| 0 <= j < i && !Deleted(rows[j]) && (Touches(annotations[k], spans[j]) || annotations[k].end <= spans[j].start);
  }

  lemma LiveSpan(rows: seq<Row>, spans: seq<Span>, i: nat)
    requires |rows| == |spans| && i < |rows| && Consecutive(rows, spans)
    ensures spans[i].start <= spans[i].end
  {
  }

  lemma SweepIsFilterAt(rows: seq<Row>, spans: seq<Span>, annotations: seq<Annotation>, i: nat)
    requires |rows| == |spans| && i < |rows| && Disjoint(annotations)
    requires Consecutive(rows, spans) && NoneCrosses(rows, spans, annotations)
    ensures Swept(rows, spans, annotations, i) == Wanted(rows[i], spans[i], annotations)
  {
    hide Touches, NoneCrosses, Consecutive, Disjoint, Passed, SkipEnded, TakeStarted, CursorAt;
    if !Deleted(rows[i]) && annotations != [] {
      var cursor := CursorAt(rows, spans, annotations, i);
      var next := SkipEnded(annotations, cursor, spans[i].start);
      var after := TakeStarted(annotations, next, spans[i].end);
      BehindCursor(rows, spans, annotations, i);
      LiveSpan(rows, spans, i);
      forall k | 0 <= k < |annotations| ensures Touches(annotations[k], spans[i]) <==> next <= k < after {
        if k < cursor { PassedDoesNotTouch(rows, spans, annotations, i, k); } else { SliceTouches(annotations, cursor, spans[i], k); }
      }
      TouchingIsSlice(annotations, spans[i], next, after, |annotations|);
      assert annotations[..|annotations|] == annotations;
    }
  }

  lemma {:induction false} TouchingMeans(annotations: seq<Annotation>, span: Span, a: Annotation)
    ensures a in Touching(annotations, span) <==> a in annotations && Touches(a, span)
  {
    if annotations != [] {
      TouchingMeans(annotations[..|annotations| - 1], span, a);
      assert annotations == annotations[..|annotations| - 1] + [annotations[|annotations| - 1]];
    }
  }

  /** The sweep gives every row exactly the annotations that touch it if and only if no annotation
      reaches into two rows. */
  lemma SweepIsFilterIffNoneCrosses(rows: seq<Row>, spans: seq<Span>, annotations: seq<Annotation>)
    requires |rows| == |spans| && Disjoint(annotations) && Consecutive(rows, spans)
    ensures (forall i :: 0 <= i < |rows| ==> Swept(rows, spans, annotations, i) == Wanted(rows[i], spans[i], annotations))
            <==> NoneCrosses(rows, spans, annotations)
  {
    hide Disjoint, Consecutive, Swept, Wanted;
    if NoneCrosses(rows, spans, annotations) {
      forall i | 0 <= i < |rows| ensures Swept(rows, spans, annotations, i) == Wanted(rows[i], spans[i], annotations) {
        SweepIsFilterAt(rows, spans, annotations, i);
      }
    } else {
      var i, j, k :| 0 <= i < j < |rows| && !Deleted(rows[i]) && !Deleted(rows[j]) && 0 <= k < |annotations|
                     && Touches(annotations[k], spans[i]) && Touches(annotations[k], spans[j]);
      CrossingIsLost(rows, spans, annotations, i, j, k);
    }
  }

  lemma {:induction false} CursorAdvances(rows: seq<Row>, spans: seq<Span>, annotations: seq<Annotation>, i: nat, j: nat)
    requires |rows| == |spans| && i <= j <= |rows|
    ensures CursorAt(rows, spans, annotations, i) <= CursorAt(rows, spans, annotations, j)
  {
    if i < j { CursorAdvances(rows, spans, annotations, i, j - 1); }
  }

  /** An annotation in two rows is missing from one of them. */
  lemma CrossingIsLost(rows: seq<Row>, spans: seq<Span>, annotations: seq<Annotation>, i: nat, j: nat, k: nat)
    requires |rows| == |spans| && i < j < |rows| && !Deleted(rows[i]) && !Deleted(rows[j]) && k < |annotations|
    requires Disjoint(annotations) && Consecutive(rows, spans)
    requires Touches(annotations[k], spans[i]) && Touches(annotations[k], spans[j])
    ensures Swept(rows, spans, annotations, i) != Wanted(rows[i], spans[i], annotations)
            || Swept(rows, spans, annotations, j) != Wanted(rows[j], spans[j], annotations)
  {
    hide Touches, Consecutive, CursorAt, Swept, Disjoint;
    var a := annotations[k];
    TouchingMeans(annotations, spans[i], a);
    TouchingMeans(annotations, spans[j], a);
    CursorAdvances(rows, spans, annotations, i + 1, j);
    SweptHas(rows, spans, annotations, i, k);
    SweptHas(rows, spans, annotations, j, k);
  }

  /** A live row's share contains an annotation exactly when the cursor stops at or before it and goes past it. */
  lemma SweptHas(rows: seq<Row>, spans: seq<Span>, annotations: seq<Annotation>, i: nat, k: nat)
    requires |rows| == |spans| && i < |rows| && !Deleted(rows[i]) && k < |annotations| && Disjoint(annotations)
    ensures var share := Swept(rows, spans, annotations, i);
            share.Some? && annotations[k] in share.value <==>
              SkipEnded(annotations, CursorAt(rows, spans, annotations, i), spans[i].start) <= k < CursorAt(rows, spans, annotations, i + 1)
  {
    hide SkipEnded, TakeStarted, Disjoint;
    OnlyItself(annotations, k, SkipEnded(annotations, CursorAt(rows, spans, annotations, i), spans[i].start),
               CursorAt(rows, spans, annotations, i + 1));
  }

  lemma OnlyItself(annotations: seq<Annotation>, k: nat, m: nat, n: nat)
    requires Disjoint(annotations) && k < |annotations| && m <= n <= |annotations|
    ensures annotations[k] in annotations[m..n] <==> m <= k < n
  {
    if m <= k < n { assert annotations[m..n][k - m] == annotations[k]; }
    if annotations[k] in annotations[m..n] {
      var q :| 0 <= q < n - m && annotations[m..n][q] == annotations[k];
      assert annotations[m + q].end > annotations[m + q].start;
    }
  }

  /** When nothing crosses, each annotation that touches some live row is in exactly one row's share. */
  lemma EachAnnotationOnce(rows: seq<Row>, spans: seq<Span>, annotations: seq<Annotation>, k: nat, i: nat, j: nat)
    requires |rows| == |spans| && Disjoint(annotations) && Consecutive(rows, spans) && NoneCrosses(rows, spans, annotations)
    requires k < |annotations| && i < |rows| && j < |rows| && !Deleted(rows[i]) && Touches(annotations[k], spans[i])
    ensures var share := Swept(rows, spans, annotations, j);
            share.Some? && annotations[k] in share.value <==> j == i
  {
    hide Touches, Disjoint, Swept, Consecutive;
    SweepIsFilterAt(rows, spans, annotations, j);
    TouchingMeans(annotations, spans[j], annotations[k]);
    if Touching(annotations, spans[j]) == [] { assert annotations[k] !in Touching(annotations, spans[j]); }
  }

  // ---- rows between line feeds -----------------------------------------------------------------------

  /** Between any two rows that are not deletions the output has a line feed. */
  ghost predicate Apart(rows: seq<Row>, spans: seq<Span>, output: string)
    requires |rows| == |spans|
  {
    forall i, j :: 0 <= i < j < |rows| && !Deleted(rows[i]) && !Deleted(rows[j]) ==> FeedBetween(output, spans[i].end, spans[j].start)
  }

  ghost predicate FeedBetween(output: string, from: nat, to: nat) {
    exists p :: from <= p < to && p < |output| && output[p] == '\n'
  }

  lemma ApartIsConsecutive(rows: seq<Row>, spans: seq<Span>, output: string)
    requires |rows| == |spans| && Apart(rows, spans, output) && forall i :: 0 <= i < |spans| ==> spans[i].start <= spans[i].end
    ensures Consecutive(rows, spans)
  {
  }

  /** What parsed rules highlight stays within a line, so nothing shown reaches into two rows. */
  lemma ShownNeverCrosses(rules: seq<Rule>, output: string, rows: seq<Row>, spans: seq<Span>)
    requires (forall i :: 0 <= i < |rules| ==> Sound(rules[i]) && rules[i].match_ != "") && |rows| == |spans| && Apart(rows, spans, output)
    ensures Disjoint(Shown(rules, output)) && NoneCrosses(rows, spans, Shown(rules, output))
  {
    hide Shown, Sound, Spells, Settled;
    ShownIsGreedy(rules, output);
    var shown := Shown(rules, output);
    forall i, j, k | 0 <= i < j < |rows| && !Deleted(rows[i]) && !Deleted(rows[j]) && 0 <= k < |shown|
      ensures !(Touches(shown[k], spans[i]) && Touches(shown[k], spans[j]))
    {
      assert FeedBetween(output, spans[i].end, spans[j].start);
      NotOverFeed(rules, output, shown[k], spans[i].end, spans[j].start);
    }
  }

  lemma NotOverFeed(rules: seq<Rule>, output: string, a: Annotation, from: nat, to: nat)
    requires (forall i :: 0 <= i < |rules| ==> Sound(rules[i]) && rules[i].match_ != "") && Spells(rules, output, a) && FeedBetween(output, from, to)
    ensures !(a.start < from && to < a.end)
  {
    var p :| from <= p < to && p < |output| && output[p] == '\n';
    if a.start < from && to < a.end { SliceHas(output, a.start, a.end, p); }
  }

  lemma SliceHas(s: string, from: nat, to: nat, p: nat)
    requires from <= p < to <= |s|
    ensures s[p] in s[from..to]
  {
    assert s[from..to][p - from] == s[p];
  }

  /** From rules to rows: over rows that line feeds set apart, the sweep of what is shown gives every row exactly
      the annotations that touch it. */
  lemma ShownSweepIsFilter(rules: seq<Rule>, output: string, rows: seq<Row>, spans: seq<Span>, i: nat)
    requires (forall k :: 0 <= k < |rules| ==> Sound(rules[k]) && rules[k].match_ != "") && |rows| == |spans| && i < |rows|
    requires Apart(rows, spans, output) && forall k :: 0 <= k < |spans| ==> spans[k].start <= spans[k].end
    ensures Swept(rows, spans, Shown(rules, output), i) == Wanted(rows[i], spans[i], Shown(rules, output))
  {
    hide Shown, Sound, Swept, Wanted, Apart, Consecutive, NoneCrosses;
    ShownNeverCrosses(rules, output, rows, spans);
    ApartIsConsecutive(rows, spans, output);
    SweepIsFilterIffNoneCrosses(rows, spans, Shown(rules, output));
  }

  // ---- cutting a row's tokens ------------------------------------------------------------------------

  /** content.slice(from, to) as far as it is used: a negative index, which JavaScript would count from the
      end, only occurs in statements here and stands for 0. */
  function Slice(s: string, from: int, to: int): string {
    var a := if from < 0 then 0 else if from > |s| then |s| else from;
    var b := if to < 0 then 0 else if to > |s| then |s| else to;
    if a < b then s[a..b] else ""
  }

  /** Where the `i`-th token of a row starts. */
  function TokenStart(row: Row, lineStart: int, i: nat): int
    requires i <= |row|
  {
    lineStart + |RowText(row[..i])|
  }

  /** The text of sliceRange(from, to) over the first `n` tokens, one piece a token. */
  function Pieces(row: Row, lineStart: int, from: int, to: int, n: nat): seq<string>
    requires n <= |row|
  {
    if n == 0 then []
    else
      var start, end := TokenStart(row, lineStart, n - 1), TokenStart(row, lineStart, n);
      Pieces(row, lineStart, from, to, n - 1)
      + if start < to && end > from then [Slice(row[n - 1].content, Max(from, start) - start, Min(to, end) - start)] else []
  }

  /** Plain text, or an annotation's button around some. */
  datatype Part = Plain(pieces: seq<string>) | Button(annotation: Annotation, pieces: seq<string>)

  function Cursor(span: Span, annotations: seq<Annotation>, n: nat): int
    requires n <= |annotations|
  {
    if n == 0 then span.start else Min(span.end, annotations[n - 1].end)
  }

  function Parts(row: Row, span: Span, annotations: seq<Annotation>, n: nat): seq<Part>
    requires n <= |annotations|
  {
    if n == 0 then []
    else
      var a := annotations[n - 1];
      var start, end := Max(span.start, a.start), Min(span.end, a.end);
      Parts(row, span, annotations, n - 1)
      + [Plain(Pieces(row, span.start, Cursor(span, annotations, n - 1), start, |row|)),
         Button(a, Pieces(row, span.start, start, end, |row|))]
  }

  function Rendered(row: Row, span: Span, annotations: seq<Annotation>): seq<Part> {
    Parts(row, span, annotations, |annotations|)
    + [Plain(Pieces(row, span.start, Cursor(span, annotations, |annotations|), span.end, |row|))]
  }

  method SliceRange(row: Row, starts: seq<int>, lineStart: int, from: int, to: int) returns (pieces: seq<string>)
    requires |starts| == |row| + 1 && forall i :: 0 <= i <= |row| ==> starts[i] == TokenStart(row, lineStart, i)
    ensures pieces == Pieces(row, lineStart, from, to, |row|)
  {
    hide Slice, RowText, TokenStart;
    pieces := [];
    for i := 0 to |row|
      invariant pieces == Pieces(row, lineStart, from, to, i)
    {
      var start, end := starts[i], starts[i + 1];
      if start < to && end > from {
        var whole := from <= start && to >= end;
        WholeToken(row, lineStart, i);
        pieces := pieces + [if whole then row[i].content
                            else Slice(row[i].content, Max(from, start) - start, Min(to, end) - start)];
      }
    }
  }

  lemma WholeToken(row: Row, lineStart: int, i: nat)
    requires i < |row|
    ensures TokenStart(row, lineStart, i + 1) - TokenStart(row, lineStart, i) == |row[i].content|
    ensures Slice(row[i].content, 0, |row[i].content|) == row[i].content
  {
    assert row[..i + 1][..i] == row[..i];
  }

  method RenderAnnotatedTokens(row: Row, span: Span, annotations: seq<Annotation>) returns (content: seq<Part>)
    ensures content == Rendered(row, span, annotations)
  {
    var offset: int := span.start;
    var starts: seq<int> := [offset];
    for i := 0 to |row|
      invariant |starts| == i + 1 && offset == TokenStart(row, span.start, i)
      invariant forall j :: 0 <= j <= i ==> starts[j] == TokenStart(row, span.start, j)
    {
      WholeToken(row, span.start, i);
      offset := offset + |row[i].content|;
      starts := starts + [offset];
    }
    content := [];
    var cursor: int := span.start;
    for n := 0 to |annotations|
      invariant content == Parts(row, span, annotations, n) && cursor == Cursor(span, annotations, n)
    {
      var start := Max(span.start, annotations[n].start);
      var end := Min(span.end, annotations[n].end);
      var before := SliceRange(row, starts, span.start, cursor, start);
      content := content + [Plain(before)];
      var inside := SliceRange(row, starts, span.start, start, end);
      content := content + [Button(annotations[n], inside)];
      cursor := end;
    }
    var rest := SliceRange(row, starts, span.start, cursor, span.end);
    content := content + [Plain(rest)];
  }

  // ---- nothing is lost and buttons hold their spans ----------------------------------------------------

  function Join(pieces: seq<string>): string {
    if pieces == [] then "" else Join(pieces[..|pieces| - 1]) + pieces[|pieces| - 1]
  }

  function PartsText(parts: seq<Part>): string {
    if parts == [] then "" else PartsText(parts[..|parts| - 1]) + Join(parts[|parts| - 1].pieces)
  }

  lemma JoinOne(pieces: seq<string>, p: string)
    ensures Join(pieces + [p]) == Join(pieces) + p
  {
    assert (pieces + [p])[..|pieces|] == pieces;
  }

  /** The pieces of a range spell that range of the row's text. */
  lemma {:induction false} PiecesSpell(row: Row, lineStart: int, from: int, to: int, n: nat)
    requires n <= |row| && lineStart <= from <= to
    ensures Join(Pieces(row, lineStart, from, to, n)) == Slice(RowText(row[..n]), from - lineStart, to - lineStart)
  {
    hide Slice, Join;
    if n > 0 {
      PiecesSpell(row, lineStart, from, to, n - 1);
      var start, end := TokenStart(row, lineStart, n - 1), TokenStart(row, lineStart, n);
      var text, c := RowText(row[..n - 1]), row[n - 1].content;
      assert row[..n][..n - 1] == row[..n - 1];
      SliceOfConcat(text, c, from - lineStart, to - lineStart);
      var before := Pieces(row, lineStart, from, to, n - 1);
      if start < to && end > from {
        SliceClamped(c, from - start, to - start);
        assert Max(from, start) - start == Max(from - start, 0) && Min(to, end) - start == Min(to - start, |c|);
        JoinOne(before, Slice(c, Max(from, start) - start, Min(to, end) - start));
      } else {
        SliceMisses(c, from - start, to - start);
        assert before + [] == before;
      }
    } else {
      assert Join([]) == "" && Slice("", from - lineStart, to - lineStart) == "" by { NothingToSlice(from - lineStart, to - lineStart); }
    }
  }

  lemma NothingToSlice(from: int, to: int)
    ensures Join([]) == "" && Slice("", from, to) == ""
  {
    assert |Slice("", from, to)| == 0;
  }

  lemma SliceOfConcat(s: string, t: string, from: int, to: int)
    requires 0 <= from <= to
    ensures Slice(s + t, from, to) == Slice(s, from, to) + Slice(t, from - |s|, to - |s|)
  {
    if to <= |s| {
      assert Slice(t, from - |s|, to - |s|) == "";
    } else if from >= |s| {
      assert Slice(s, from, to) == "";
    } else {
      assert Slice(s, from, to) == s[from..];
      assert Slice(t, from - |s|, to - |s|) == Slice(t, 0, to - |s|);
    }
  }

  lemma SliceClamped(t: string, from: int, to: int)
    ensures Slice(t, from, to) == Slice(t, Max(from, 0), Min(to, |t|))
  {
  }

  lemma SliceMisses(t: string, from: int, to: int)
    requires !(0 < to && |t| > from)
    ensures Slice(t, from, to) == ""
  {
  }

  lemma SliceJoin(s: string, a: int, b: int, c: int)
    requires 0 <= a <= b <= c
    ensures Slice(s, a, b) + Slice(s, b, c) == Slice(s, a, c)
  {
  }

  /** A row's annotations in order, each touching the row. */
  ghost predicate Sits(span: Span, annotations: seq<Annotation>) {
    Disjoint(annotations) && span.start <= span.end && forall k :: 0 <= k < |annotations| ==> Touches(annotations[k], span)
  }

  lemma {:induction false} PartsSpell(row: Row, span: Span, annotations: seq<Annotation>, n: nat)
    requires Sits(span, annotations) && n <= |annotations|
    ensures span.start <= Cursor(span, annotations, n) <= span.end
    ensures PartsText(Parts(row, span, annotations, n)) == Slice(RowText(row), 0, Cursor(span, annotations, n) - span.start)
  {
    hide Slice, Join, Pieces, RowText, PartsText;
    if n > 0 {
      PartsSpell(row, span, annotations, n - 1);
      var a := annotations[n - 1];
      assert Touches(a, span);
      var from, start, end := Cursor(span, annotations, n - 1), Max(span.start, a.start), Min(span.end, a.end);
      assert n > 1 ==> annotations[n - 2].end <= a.start;
      PartSpells(row, span, Parts(row, span, annotations, n - 1), a, from, start, end);
    } else {
      NothingSaid(RowText(row));
    }
  }

  lemma NothingSaid(s: string)
    ensures PartsText([]) == "" == Slice(s, 0, 0)
  {
  }

  /** Text up to `from`, the text before a button and the button's text are the text up to the button's end. */
  lemma PartSpells(row: Row, span: Span, before: seq<Part>, a: Annotation, from: int, start: int, end: int)
    requires span.start <= from <= start <= end
    requires PartsText(before) == Slice(RowText(row), 0, from - span.start)
    ensures var plain, button := Plain(Pieces(row, span.start, from, start, |row|)), Button(a, Pieces(row, span.start, start, end, |row|));
            PartsText(before + [plain, button]) == Slice(RowText(row), 0, end - span.start)
  {
    hide Slice, Join, Pieces, RowText;
    PiecesSpell(row, span.start, from, start, |row|);
    PiecesSpell(row, span.start, start, end, |row|);
    assert row[..|row|] == row;
    var plain, button := Plain(Pieces(row, span.start, from, start, |row|)), Button(a, Pieces(row, span.start, start, end, |row|));
    OneMorePart(before, plain);
    OneMorePart(before + [plain], button);
    assert before + [plain, button] == before + [plain] + [button];
    SliceJoin(RowText(row), 0, from - span.start, start - span.start);
    SliceJoin(RowText(row), 0, start - span.start, end - span.start);
  }

  lemma OneMorePart(before: seq<Part>, p: Part)
    ensures PartsText(before + [p]) == PartsText(before) + Join(p.pieces)
  {
    hide Join;
    assert (before + [p])[..|before|] == before;
  }

  /** Rendering loses nothing: the parts of a row spell its tokens' text. */
  lemma RenderingIsLossless(row: Row, annotations: seq<Annotation>)
    requires Sits(LineSpan(row), annotations)
    ensures PartsText(Rendered(row, LineSpan(row), annotations)) == RowText(row)
  {
    hide Slice, Join, Pieces, RowText, PartsText, Parts;
    var span, n := LineSpan(row), |annotations|;
    PartsSpell(row, span, annotations, n);
    PiecesSpell(row, span.start, Cursor(span, annotations, n), span.end, |row|);
    assert row[..|row|] == row;
    OneMorePart(Parts(row, span, annotations, n), Plain(Pieces(row, span.start, Cursor(span, annotations, n), span.end, |row|)));
    SliceJoin(RowText(row), 0, Cursor(span, annotations, n) - span.start, span.end - span.start);
    WholeSlice(RowText(row));
  }

  /** Whatever the sweep hands a row sits in that row, crossing or not. */
  lemma SweptSits(rows: seq<Row>, spans: seq<Span>, annotations: seq<Annotation>, i: nat)
    requires |rows| == |spans| && i < |rows| && Disjoint(annotations) && spans[i].start <= spans[i].end
    ensures Swept(rows, spans, annotations, i).Some? ==> Sits(spans[i], Swept(rows, spans, annotations, i).value)
  {
    hide CursorAt;
    if Swept(rows, spans, annotations, i).Some? {
      var cursor := CursorAt(rows, spans, annotations, i);
      var next := SkipEnded(annotations, cursor, spans[i].start);
      var share := Swept(rows, spans, annotations, i).value;
      forall k | 0 <= k < |share| ensures Touches(share[k], spans[i]) {
        assert share[k] == annotations[next + k];
        SliceTouches(annotations, cursor, spans[i], next + k);
      }
    }
  }

  /** From the sweep to the screen: a row rendered with the share the sweep hands it spells its tokens' text. */
  lemma SweptRowsAreLossless(rows: seq<Row>, spans: seq<Span>, annotations: seq<Annotation>, i: nat)
    requires |rows| == |spans| && i < |rows| && Disjoint(annotations) && spans[i] == LineSpan(rows[i])
    requires Swept(rows, spans, annotations, i).Some?
    ensures PartsText(Rendered(rows[i], spans[i], Swept(rows, spans, annotations, i).value)) == RowText(rows[i])
  {
    hide Swept, Rendered, PartsText, Sits;
    SweptSits(rows, spans, annotations, i);
    RenderingIsLossless(rows[i], Swept(rows, spans, annotations, i).value);
  }

  lemma WholeSlice(s: string)
    ensures Slice(s, 0, |s|) == s
  {
  }

  lemma {:induction false} PartIndex(row: Row, span: Span, annotations: seq<Annotation>, n: nat, k: nat)
    requires k < n <= |annotations|
    ensures var parts, a := Parts(row, span, annotations, n), annotations[k];
            && |parts| == 2 * n && parts[2 * k].Plain?
            && parts[2 * k + 1] == Button(a, Pieces(row, span.start, Max(span.start, a.start), Min(span.end, a.end), |row|))
  {
    PartCount(row, span, annotations, n);
    if k < n - 1 {
      PartIndex(row, span, annotations, n - 1, k);
    } else {
      PartCount(row, span, annotations, n - 1);
    }
  }

  lemma {:induction false} PartCount(row: Row, span: Span, annotations: seq<Annotation>, n: nat)
    requires n <= |annotations|
    ensures |Parts(row, span, annotations, n)| == 2 * n
  {
    if n > 0 { PartCount(row, span, annotations, n - 1); }
  }

  /** A row whose text is a stretch of the output. */
  ghost predicate Shows(row: Row, output: string) {
    var span := LineSpan(row);
    span.end <= |output| && RowText(row) == output[span.start..span.end]
  }

  /** From rules to buttons: an annotation that fits in its row is one button holding exactly the
      highlight of its rule. */
  lemma ButtonsSpellHighlights(rules: seq<Rule>, output: string, row: Row, annotations: seq<Annotation>, k: nat)
    requires Shows(row, output) && k < |annotations|
    requires Spells(rules, output, annotations[k])
    requires LineSpan(row).start <= annotations[k].start && annotations[k].end <= LineSpan(row).end
    ensures var parts := Rendered(row, LineSpan(row), annotations);
            && 2 * k + 1 < |parts| && parts[2 * k + 1].Button? && parts[2 * k + 1].annotation == annotations[k]
            && Join(parts[2 * k + 1].pieces) == output[annotations[k].start..annotations[k].end]
            && Join(parts[2 * k + 1].pieces) == rules[annotations[k].order].highlight
  {
    hide Pieces, RowText, Join;
    var span, a := LineSpan(row), annotations[k];
    PartIndex(row, span, annotations, |annotations|, k);
    PiecesSpell(row, span.start, a.start, a.end, |row|);
    assert row[..|row|] == row;
    StretchOfStretch(output, span.start, span.end, a.start, a.end);
  }

  /** Whatever the sweep hands a row, each annotation is one button holding exactly what the row shows of it. */
  lemma ButtonsSpellShare(output: string, row: Row, annotations: seq<Annotation>, k: nat)
    requires Shows(row, output) && Sits(LineSpan(row), annotations) && k < |annotations|
    ensures var parts, a, span := Rendered(row, LineSpan(row), annotations), annotations[k], LineSpan(row);
            && 2 * k + 1 < |parts| && parts[2 * k + 1].Button? && parts[2 * k + 1].annotation == a
            && Max(span.start, a.start) <= Min(span.end, a.end) <= |output|
            && Join(parts[2 * k + 1].pieces) == output[Max(span.start, a.start)..Min(span.end, a.end)]
  {
    hide Pieces, RowText, Join;
    var span, a := LineSpan(row), annotations[k];
    PartIndex(row, span, annotations, |annotations|, k);
    assert Touches(a, span) && a.start < a.end;
    var from, to := Max(span.start, a.start), Min(span.end, a.end);
    SomethingShown(row, a);
    PiecesSpell(row, span.start, from, to, |row|);
    assert row[..|row|] == row;
    StretchOfStretch(output, span.start, span.end, from, to);
  }

  lemma SomethingShown(row: Row, a: Annotation)
    requires Touches(a, LineSpan(row)) && a.start < a.end
    ensures Max(LineSpan(row).start, a.start) <= Min(LineSpan(row).end, a.end)
  {
    hide RowText;
  }

  lemma StretchOfStretch(s: string, lo: nat, hi: nat, from: nat, to: nat)
    requires lo <= from <= to <= hi <= |s|
    ensures Slice(s[lo..hi], from - lo, to - lo) == s[from..to]
  {
    if from < to {
      var a, b := s[lo..hi][from - lo..to - lo], s[from..to];
      assert |a| == |b| && forall i :: 0 <= i < |a| ==> a[i] == s[lo..hi][from - lo + i] == s[from + i] == b[i];
    }
  }
}
