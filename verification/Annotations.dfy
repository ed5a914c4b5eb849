/**
 * Output annotations (apps/frontend/src/lib/annotations.ts): what a parsed rule guarantees, where
 * its matches lie in an output, and the greedy choice of which candidates to show.
 */
module Annotations {
  import opened JsString
  import opened Optional

  datatype Rule = Rule(line: nat, match_: string, highlight: string, title: string, text: string, occurrence: Option<nat>)

  /** A highlighted span of the output; `order` is the index of its rule. */
  datatype Annotation = Annotation(order: nat, start: nat, end: nat, title: string, text: string)

  const MAX_ANNOTATIONS: nat := 200

  // ---- searching ---------------------------------------------------------------------------------

  predicate OccursAt(s: string, word: string, i: nat) { i + |word| <= |s| && s[i..i + |word|] == word }

  /** The first place of a word at or behind `from`. */
  function IndexOf(s: string, word: string, from: nat): (r: Option<nat>)
    ensures r.Some? ==> r.value >= from && OccursAt(s, word, r.value)
    decreases |s| - from
  {
    if from + |word| > |s| then None
    else if OccursAt(s, word, from) then Some(from)
    else IndexOf(s, word, from + 1)
  }

  lemma {:induction false} IndexOfIsFirst(s: string, word: string, from: nat, i: nat)
    requires from <= i && OccursAt(s, word, i)
    ensures IndexOf(s, word, from).Some? && IndexOf(s, word, from).value <= i
    decreases i - from
  {
    if from < i && !OccursAt(s, word, from) { IndexOfIsFirst(s, word, from + 1, i); }
  }

  // ---- what a rule guarantees ----------------------------------------------------------------------

  predicate OccurrenceField(s: string) { s != "" && s[0] != '0' && AllDigits(s) }

  const MAX_SAFE_INTEGER: nat := 9007199254740991

  function Field(values: map<string, string>, name: string, fallback: string): string {
    if name in values then values[name] else fallback
  }

  /** Only `text` may hold a line feed. */
  predicate OneLined(values: map<string, string>) {
    forall name :: name in values && name != "text" ==> '\n' !in values[name]
  }

  /** The end of parseRule: the fields, once read, make a rule or are reported. */
  function MakeRule(line: nat, values: map<string, string>): Option<Rule> {
    var match_, text := Field(values, "match", ""), Field(values, "text", "");
    var highlight := Field(values, "highlight", match_);
    var occurrence := Field(values, "occurrence", "all");
    var focus := IndexOf(match_, highlight, 0);
    if !OneLined(values) then None
    else if Trim(match_) == "" || Trim(text) == "" || Trim(highlight) == "" || focus.None? then None
    else if IndexOf(match_, highlight, focus.value + 1).Some? then None
    else if occurrence != "all" && (!OccurrenceField(occurrence) || Numeric(occurrence) > MAX_SAFE_INTEGER) then None
    else
      var title := Field(values, "title", "");
      Some(Rule(line, match_, highlight, if title != "" then title else highlight, text,
                if occurrence == "all" then None else Some(Numeric(occurrence))))
  }

  /** The highlight is a non-empty fragment of the match, at one place only, and within one line; occurrences
      count from 1. */
  ghost predicate Sound(rule: Rule) {
    && rule.highlight != "" && '\n' !in rule.match_ && '\n' !in rule.highlight
    && (exists i :: 0 <= i && OccursAt(rule.match_, rule.highlight, i))
    && (forall i, j :: 0 <= i && 0 <= j && OccursAt(rule.match_, rule.highlight, i) && OccursAt(rule.match_, rule.highlight, j) ==> i == j)
    && (rule.occurrence.Some? ==> rule.occurrence.value >= 1)
  }

  lemma MadeRulesAreSound(line: nat, values: map<string, string>)
    requires MakeRule(line, values).Some?
    ensures Sound(MakeRule(line, values).value)
  {
    var rule := MakeRule(line, values).value;
    assert Trim("") == "";
    var focus := IndexOf(rule.match_, rule.highlight, 0).value;
    forall i: nat | OccursAt(rule.match_, rule.highlight, i) ensures i == focus {
      IndexOfIsFirst(rule.match_, rule.highlight, 0, i);
      if i > focus { IndexOfIsFirst(rule.match_, rule.highlight, focus + 1, i); }
    }
    var occurrence := Field(values, "occurrence", "all");
    if OccurrenceField(occurrence) { DecimalOfNumeric(occurrence); }
  }

  /** What the occurrence field may say: all, which is also what leaving it out says, or a number from 1 on. */
  ghost predicate Asks(values: map<string, string>, occurrence: Option<nat>) {
    match occurrence
    case None => "occurrence" in values ==> values["occurrence"] == "all"
    case Some(n) => "occurrence" in values && values["occurrence"] == Decimal(n) && 1 <= n < 0x20_0000_0000_0000
  }

  /** `word` occurs in `s` at one place and no other. */
  ghost predicate OccursOnce(s: string, word: string) {
    && (exists i: nat :: OccursAt(s, word, i))
    && forall i: nat, j: nat :: OccursAt(s, word, i) && OccursAt(s, word, j) ==> i == j
  }

  /** The fields say a rule: a match and a text that are not blank, a highlight at one place of the match, each on one
      line but the text, and an occurrence that means something. */
  ghost predicate SaysRule(values: map<string, string>) {
    && (forall name :: name in values && name != "text" ==> '\n' !in values[name])
    && "match" in values && !Spaces(values["match"]) && "text" in values && !Spaces(values["text"])
    && ("highlight" in values ==> !Spaces(values["highlight"]) && OccursOnce(values["match"], values["highlight"]))
    && exists occurrence :: Asks(values, occurrence)
  }

  /** The rule is what the fields say; without a title it goes by its highlight, without a highlight by its match. */
  ghost predicate SaidBy(rule: Rule, line: nat, values: map<string, string>)
    requires "match" in values && "text" in values
  {
    && rule.line == line && rule.match_ == values["match"] && rule.text == values["text"]
    && rule.highlight == (if "highlight" in values then values["highlight"] else values["match"])
    && rule.title == (if "title" in values && values["title"] != "" then values["title"] else rule.highlight)
    && Asks(values, rule.occurrence)
  }

  /** The fields make a rule if and only if they say one, and then that one. */
  lemma MadeIffSaid(line: nat, values: map<string, string>)
    ensures MakeRule(line, values).Some? <==> SaysRule(values)
    ensures MakeRule(line, values).Some? ==> SaidBy(MakeRule(line, values).value, line, values)
  {
    hide Trim, Asks, Spaces, IndexOf, OccursAt, OccursOnce, Numeric, AllDigits;
    var match_, text := Field(values, "match", ""), Field(values, "text", "");
    var highlight := Field(values, "highlight", match_);
    TrimmedAway(match_);
    TrimmedAway(text);
    TrimmedAway(highlight);
    NoSpaces();
    FoundOnce(match_, highlight);
    OccursInItself(match_);
    OccurrenceRead(values);
  }

  lemma NoSpaces()
    ensures Spaces("") && Trim("") == ""
  {
  }

  lemma FoundOnce(s: string, word: string)
    ensures IndexOf(s, word, 0).Some? && IndexOf(s, word, IndexOf(s, word, 0).value + 1).None? <==> OccursOnce(s, word)
  {
    hide IndexOf, OccursAt;
    forall i: nat, from: nat | from <= i && OccursAt(s, word, i) ensures IndexOf(s, word, from).Some? && IndexOf(s, word, from).value <= i {
      IndexOfIsFirst(s, word, from, i);
    }
  }

  lemma OccursInItself(s: string)
    ensures s != "" ==> OccursOnce(s, s)
  {
    assert OccursAt(s, s, 0);
  }

  lemma OccurrenceRead(values: map<string, string>)
    ensures var field := Field(values, "occurrence", "all");
            var good := field == "all" || (OccurrenceField(field) && Numeric(field) <= MAX_SAFE_INTEGER);
            && (good <==> exists occurrence :: Asks(values, occurrence))
            && (good ==> Asks(values, if field == "all" then None else Some(Numeric(field))))
  {
    var field := Field(values, "occurrence", "all");
    if OccurrenceField(field) { DecimalOfNumeric(field); }
    if field == "all" {
      assert Asks(values, None);
    } else if OccurrenceField(field) && Numeric(field) <= MAX_SAFE_INTEGER {
      assert Asks(values, Some(Numeric(field)));
    }
    forall occurrence | Asks(values, occurrence)
      ensures field == "all" || (OccurrenceField(field) && Numeric(field) <= MAX_SAFE_INTEGER)
    {
      if occurrence.Some? { NumericOfDecimal(occurrence.value); }
    }
  }

  // ---- candidates ----------------------------------------------------------------------------------

  /** Matches from `cursor` on, each search resuming behind the previous match. */
  function Occurrences(output: string, word: string, cursor: nat): seq<nat>
    requires word != ""
    decreases |output| - cursor
  {
    match IndexOf(output, word, cursor)
    case None => []
    case Some(i) => [i] + Occurrences(output, word, i + |word|)
  }

  function Focus(rule: Rule): nat {
    match IndexOf(rule.match_, rule.highlight, 0) case Some(i) => i case None => 0
  }

  function CandidateAt(rule: Rule, order: nat, index: nat): Annotation {
    var start := index + Focus(rule);
    Annotation(order, start, start + |rule.highlight|, rule.title, rule.text)
  }

  /** The matches a rule asks for: all of them, or its one numbered occurrence. */
  function AskedFor(rule: Rule, found: seq<nat>): seq<nat> {
    if rule.occurrence.None? then found
    else if 1 <= rule.occurrence.value <= |found| then [found[rule.occurrence.value - 1]]
    else []
  }

  function RuleCandidates(rule: Rule, order: nat, found: seq<nat>): (r: seq<Annotation>)
    ensures |r| == |found|
  {
    seq(|found|, i requires 0 <= i < |found| => CandidateAt(rule, order, found[i]))
  }

  function OwnCandidates(rule: Rule, order: nat, output: string): seq<Annotation>
    requires rule.match_ != ""
  {
    RuleCandidates(rule, order, AskedFor(rule, Occurrences(output, rule.match_, 0)))
  }

  function Candidates(rules: seq<Rule>, output: string, n: nat): seq<Annotation>
    requires n <= |rules| && forall i :: 0 <= i < |rules| ==> rules[i].match_ != ""
  {
    if n == 0 then []
    else Candidates(rules, output, n - 1) + OwnCandidates(rules[n - 1], n - 1, output)
  }

  /** Candidates go by where they start, and at one place by the order of their rules. */
  predicate Precedes(a: Annotation, b: Annotation) {
    a.start < b.start || (a.start == b.start && a.order <= b.order)
  }

  function Place(x: Annotation, xs: seq<Annotation>): seq<Annotation> {
    if xs == [] || Precedes(x, xs[0]) then [x] + xs else [xs[0]] + Place(x, xs[1..])
  }

  function InOrder(xs: seq<Annotation>): seq<Annotation> {
    if xs == [] then [] else Place(xs[0], InOrder(xs[1..]))
  }

  /** The greedy choice: skip what overlaps the last shown span, stop at the limit. */
  function Chosen(candidates: seq<Annotation>, i: nat, shown: seq<Annotation>): seq<Annotation>
    requires i <= |candidates|
    decreases |candidates| - i
  {
    if i == |candidates| || |shown| >= MAX_ANNOTATIONS then shown
    else if shown != [] && candidates[i].start < shown[|shown| - 1].end then Chosen(candidates, i + 1, shown)
    else Chosen(candidates, i + 1, shown + [candidates[i]])
  }

  function Shown(rules: seq<Rule>, output: string): seq<Annotation>
    requires forall i :: 0 <= i < |rules| ==> rules[i].match_ != ""
  {
    Chosen(InOrder(Candidates(rules, output, |rules|)), 0, [])
  }

  // ---- the source's loops --------------------------------------------------------------------------

  /** The search is at `cursor`, has passed the matches `done`, and holds their candidates in `r`. */
  ghost predicate Searching(rule: Rule, order: nat, output: string, cursor: nat, done: seq<nat>, r: seq<Annotation>)
    requires rule.match_ != ""
  {
    && done + Occurrences(output, rule.match_, cursor) == Occurrences(output, rule.match_, 0)
    && r == RuleCandidates(rule, order, AskedFor(rule, done))
    && (rule.occurrence.Some? ==> rule.occurrence.value > |done|)
  }

  lemma SearchEnds(rule: Rule, order: nat, output: string, cursor: nat, done: seq<nat>, r: seq<Annotation>)
    requires rule.match_ != "" && Searching(rule, order, output, cursor, done, r) && IndexOf(output, rule.match_, cursor).None?
    ensures r == OwnCandidates(rule, order, output)
  {
    assert done + [] == done;
  }

  /** One more match: it is a candidate if it is wanted, and the search is over if it is the only one wanted. */
  lemma SearchSteps(rule: Rule, order: nat, output: string, cursor: nat, done: seq<nat>, r: seq<Annotation>, index: nat)
    requires rule.match_ != "" && Searching(rule, order, output, cursor, done, r)
    requires IndexOf(output, rule.match_, cursor) == Some(index)
    ensures var next, wanted := index + |rule.match_|, r + [CandidateAt(rule, order, index)];
            && (rule.occurrence.None? ==> Searching(rule, order, output, next, done + [index], wanted))
            && (rule.occurrence.Some? && rule.occurrence.value > |done| + 1 ==> Searching(rule, order, output, next, done + [index], r))
            && (rule.occurrence == Some(|done| + 1) ==> wanted == OwnCandidates(rule, order, output))
  {
    hide IndexOf;
    var rest := Occurrences(output, rule.match_, index + |rule.match_|);
    assert done + ([index] + rest) == (done + [index]) + rest;
    assert rule.occurrence == Some(|done| + 1) ==> (done + ([index] + rest))[|done|] == index;
  }

  /** One rule's search loop. */
  method FindCandidates(rule: Rule, order: nat, output: string) returns (r: seq<Annotation>)
    requires rule.match_ != "" && (rule.occurrence.Some? ==> rule.occurrence.value >= 1)
    ensures r == OwnCandidates(rule, order, output)
  {
    hide IndexOf, Searching, OwnCandidates;
    var focus := Focus(rule);
    var cursor: nat := 0;
    var occurrence: nat := 0;
    r := [];
    ghost var done: seq<nat> := [];
    SearchStarts(rule, order, output);
    while cursor + |rule.match_| <= |output|
      invariant Searching(rule, order, output, cursor, done, r) && |done| == occurrence
      decreases |output| - cursor
    {
      var index := IndexOf(output, rule.match_, cursor);
      if index.None? {
        SearchEnds(rule, order, output, cursor, done, r);
        return;
      }
      SearchSteps(rule, order, output, cursor, done, r, index.value);
      Unfinished(rule, order, output, cursor, done, r);
      cursor := index.value + |rule.match_|;
      occurrence := occurrence + 1;
      done := done + [index.value];
      if rule.occurrence.Some? && rule.occurrence.value != occurrence { continue; }
      var start := index.value + focus;
      r := r + [Annotation(order, start, start + |rule.highlight|, rule.title, rule.text)];
      if rule.occurrence.Some? { return; }
    }
    SearchEnds(rule, order, output, cursor, done, r);
  }

  lemma SearchStarts(rule: Rule, order: nat, output: string)
    requires rule.match_ != "" && (rule.occurrence.Some? ==> rule.occurrence.value >= 1)
    ensures Searching(rule, order, output, 0, [], [])
  {
  }

  lemma Unfinished(rule: Rule, order: nat, output: string, cursor: nat, done: seq<nat>, r: seq<Annotation>)
    requires rule.match_ != "" && Searching(rule, order, output, cursor, done, r)
    ensures rule.occurrence.Some? ==> rule.occurrence.value > |done|
  {
  }

  method MatchAnnotations(rules: seq<Rule>, output: string) returns (annotations: seq<Annotation>)
    requires forall i :: 0 <= i < |rules| ==> Sound(rules[i])
    ensures forall i :: 0 <= i < |rules| ==> rules[i].match_ != ""
    ensures annotations == Shown(rules, output)
  {
    hide Sound, OwnCandidates, InOrder, Chosen;
    SoundRulesMatchText(rules);
    var candidates: seq<Annotation> := [];
    for order := 0 to |rules|
      invariant candidates == Candidates(rules, output, order)
    {
      var found := FindCandidates(rules[order], order, output);
      candidates := candidates + found;
    }
    annotations := Choose(InOrder(candidates));
  }

  /** The selection loop of matchAnnotations, over the sorted candidates. */
  method Choose(candidates: seq<Annotation>) returns (annotations: seq<Annotation>)
    ensures annotations == Chosen(candidates, 0, [])
  {
    annotations := [];
    for i := 0 to |candidates|
      invariant Chosen(candidates, i, annotations) == Chosen(candidates, 0, [])
    {
      if |annotations| >= MAX_ANNOTATIONS { break; }
      if |annotations| > 0 && candidates[i].start < annotations[|annotations| - 1].end { continue; }
      annotations := annotations + [candidates[i]];
    }
  }

  lemma SoundRulesMatchText(rules: seq<Rule>)
    requires forall i :: 0 <= i < |rules| ==> Sound(rules[i])
    ensures forall i :: 0 <= i < |rules| ==> rules[i].match_ != ""
    ensures forall i :: 0 <= i < |rules| && rules[i].occurrence.Some? ==> rules[i].occurrence.value >= 1
  {
    forall i | 0 <= i < |rules| ensures rules[i].match_ != "" {
      var at :| 0 <= at && OccursAt(rules[i].match_, rules[i].highlight, at);
    }
  }

  // ---- what is shown -------------------------------------------------------------------------------

  /** The span is a rule's highlight at a place where the rule's match occurs. */
  ghost predicate Spells(rules: seq<Rule>, output: string, a: Annotation) {
    && a.order < |rules| && a.end == a.start + |rules[a.order].highlight| && a.end <= |output|
    && output[a.start..a.end] == rules[a.order].highlight && a.start < a.end
    && a.start >= Focus(rules[a.order]) && OccursAt(output, rules[a.order].match_, a.start - Focus(rules[a.order]))
    && a.title == rules[a.order].title && a.text == rules[a.order].text
  }

  lemma {:induction false} OccurrencesOccur(output: string, word: string, cursor: nat)
    requires word != ""
    ensures forall i :: 0 <= i < |Occurrences(output, word, cursor)| ==>
              OccursAt(output, word, Occurrences(output, word, cursor)[i]) && Occurrences(output, word, cursor)[i] >= cursor
    decreases |output| - cursor
  {
    if IndexOf(output, word, cursor).Some? {
      OccurrencesOccur(output, word, IndexOf(output, word, cursor).value + |word|);
    }
  }

  /** The search misses nothing: any place a match occurs overlaps one it lists. */
  lemma {:induction false} OccurrencesCover(output: string, word: string, cursor: nat, i: nat)
    requires word != "" && i >= cursor && OccursAt(output, word, i)
    ensures exists k :: 0 <= k < |Occurrences(output, word, cursor)|
              && Occurrences(output, word, cursor)[k] <= i < Occurrences(output, word, cursor)[k] + |word|
    decreases |output| - cursor
  {
    hide IndexOf;
    IndexOfIsFirst(output, word, cursor, i);
    var first := IndexOf(output, word, cursor).value;
    var found := Occurrences(output, word, cursor);
    if i < first + |word| {
      assert found[0] == first;
    } else {
      OccurrencesCover(output, word, first + |word|, i);
      var rest := Occurrences(output, word, first + |word|);
      var k :| 0 <= k < |rest| && rest[k] <= i < rest[k] + |word|;
      assert found[k + 1] == rest[k];
    }
  }

  lemma FragmentWithin(output: string, rule: Rule, index: nat)
    requires Sound(rule) && OccursAt(output, rule.match_, index)
    ensures var start := index + Focus(rule);
            start + |rule.highlight| <= |output| && output[start..start + |rule.highlight|] == rule.highlight
  {
    hide Sound, Focus;
    FocusOccurs(rule);
    PartOfPart(output, index, index + |rule.match_|, Focus(rule), Focus(rule) + |rule.highlight|);
  }

  lemma PartOfPart(s: string, lo: nat, hi: nat, from: nat, to: nat)
    requires from <= to <= hi - lo && lo <= hi <= |s|
    ensures s[lo..hi][from..to] == s[lo + from..lo + to]
  {
    var part, whole := s[lo..hi][from..to], s[lo + from..lo + to];
    assert |part| == |whole| && forall i :: 0 <= i < |part| ==> part[i] == whole[i];
  }

  lemma {:induction false} CandidatesSpell(rules: seq<Rule>, output: string, n: nat)
    requires n <= |rules| && forall i :: 0 <= i < |rules| ==> Sound(rules[i]) && rules[i].match_ != ""
    ensures forall i :: 0 <= i < |Candidates(rules, output, n)| ==> Spells(rules, output, Candidates(rules, output, n)[i])
  {
    hide Spells, Sound, OwnCandidates;
    if n > 0 {
      CandidatesSpell(rules, output, n - 1);
      RuleCandidatesSpell(rules, output, n - 1);
      var all, before := Candidates(rules, output, n), Candidates(rules, output, n - 1);
      var own := OwnCandidates(rules[n - 1], n - 1, output);
      forall i | 0 <= i < |all| ensures Spells(rules, output, all[i]) {
        if i < |before| { assert Spells(rules, output, before[i]); } else { assert Spells(rules, output, own[i - |before|]); }
      }
    }
  }

  lemma RuleCandidatesSpell(rules: seq<Rule>, output: string, order: nat)
    requires order < |rules| && Sound(rules[order]) && rules[order].match_ != ""
    ensures forall i :: 0 <= i < |OwnCandidates(rules[order], order, output)| ==>
              Spells(rules, output, OwnCandidates(rules[order], order, output)[i])
  {
    var rule := rules[order];
    var found := Occurrences(output, rule.match_, 0);
    OccurrencesOccur(output, rule.match_, 0);
    forall i | 0 <= i < |found| ensures Spells(rules, output, CandidateAt(rule, order, found[i])) {
      hide Sound;
      FragmentWithin(output, rule, found[i]);
      assert rule.highlight != "";
    }
  }

  /** Where a search goes on behind its first `k` finds. */
  function Resume(word: string, found: seq<nat>, k: nat): nat
    requires k <= |found|
  {
    if k == 0 then 0 else found[k - 1] + |word|
  }

  ghost predicate NoneBetween(output: string, word: string, from: nat, to: nat) {
    forall i: nat :: from <= i < to ==> !OccursAt(output, word, i)
  }

  /** The places of a word read from the left: each the first behind the one before, and none behind the last. */
  ghost predicate Listed(output: string, word: string, found: seq<nat>) {
    ReadSoFar(output, word, found) && NoneBetween(output, word, Resume(word, found, |found|), |output| + 1)
  }

  ghost predicate ReadSoFar(output: string, word: string, found: seq<nat>) {
    forall k :: 0 <= k < |found| ==> IsNext(output, word, Resume(word, found, k), found[k])
  }

  lemma ReadOn(output: string, word: string, found: seq<nat>, at: nat)
    requires ReadSoFar(output, word, found) && IsNext(output, word, Resume(word, found, |found|), at)
    ensures ReadSoFar(output, word, found + [at])
  {
    hide IsNext;
    var more := found + [at];
    forall k | 0 <= k < |more| ensures IsNext(output, word, Resume(word, more, k), more[k]) {
      assert Resume(word, more, k) == Resume(word, found, k);
    }
  }

  /** The first place from `from` on is `at`. */
  ghost predicate IsNext(output: string, word: string, from: nat, at: nat) {
    from <= at && OccursAt(output, word, at) && NoneBetween(output, word, from, at)
  }

  lemma SearchIsNext(output: string, word: string, from: nat)
    ensures var r := IndexOf(output, word, from);
            if r.Some? then IsNext(output, word, from, r.value) else NoneBetween(output, word, from, |output| + 1)
  {
    hide IndexOf, OccursAt;
    forall i: nat | from <= i && OccursAt(output, word, i)
      ensures IndexOf(output, word, from).Some? && IndexOf(output, word, from).value <= i
    {
      IndexOfIsFirst(output, word, from, i);
    }
  }

  lemma {:induction false} OccurrencesAreListed(output: string, word: string, done: seq<nat>)
    requires word != "" && ReadSoFar(output, word, done)
    ensures Listed(output, word, done + Occurrences(output, word, Resume(word, done, |done|)))
    decreases |output| - Resume(word, done, |done|)
  {
    hide IndexOf, OccursAt, IsNext, NoneBetween, ReadSoFar;
    var cursor := Resume(word, done, |done|);
    SearchIsNext(output, word, cursor);
    match IndexOf(output, word, cursor)
    case None => assert done + [] == done;
    case Some(at) =>
      OccursInside(output, word, at);
      var more := done + [at];
      ReadOn(output, word, done, at);
      OccurrencesAreListed(output, word, more);
      assert done + Occurrences(output, word, cursor) == more + Occurrences(output, word, at + |word|);
  }

  lemma OccursInside(s: string, word: string, i: nat)
    requires OccursAt(s, word, i)
    ensures i + |word| <= |s|
  {
  }

  /** The annotation marks the rule's highlight in the match at `at`. */
  ghost predicate Marks(rule: Rule, order: nat, a: Annotation, at: nat) {
    && (exists p: nat :: OccursAt(rule.match_, rule.highlight, p) && a.start == at + p)
    && a.end == a.start + |rule.highlight| && a.order == order && a.title == rule.title && a.text == rule.text
  }

  /** A rule's candidates mark its matches, read from the left: every one, or the one its occurrence counts to. */
  lemma CandidatesMark(rule: Rule, order: nat, output: string) returns (found: seq<nat>)
    requires Sound(rule) && rule.match_ != ""
    ensures Listed(output, rule.match_, found)
    ensures var own := OwnCandidates(rule, order, output);
            && (rule.occurrence.None? ==> |own| == |found| && forall i :: 0 <= i < |found| ==> Marks(rule, order, own[i], found[i]))
            && (rule.occurrence.Some? && rule.occurrence.value <= |found| ==>
                  |own| == 1 && Marks(rule, order, own[0], found[rule.occurrence.value - 1]))
            && (rule.occurrence.Some? && rule.occurrence.value > |found| ==> own == [])
  {
    hide Listed, OccursAt, Occurrences, Focus, Sound;
    found := Occurrences(output, rule.match_, 0);
    OccurrencesAreListed(output, rule.match_, []);
    assert [] + found == found && Resume(rule.match_, [], 0) == 0;
    FocusOccurs(rule);
    SoundCounts(rule);
    forall i | 0 <= i < |found| ensures Marks(rule, order, CandidateAt(rule, order, found[i]), found[i]) {}
  }

  lemma SoundCounts(rule: Rule)
    requires Sound(rule)
    ensures rule.occurrence.Some? ==> rule.occurrence.value >= 1
  {
  }

  lemma FocusOccurs(rule: Rule)
    requires Sound(rule)
    ensures OccursAt(rule.match_, rule.highlight, Focus(rule))
  {
    var at: nat :| OccursAt(rule.match_, rule.highlight, at);
    IndexOfIsFirst(rule.match_, rule.highlight, 0, at);
  }

  lemma {:induction false} OwnIsCandidate(rules: seq<Rule>, output: string, n: nat, order: nat, c: Annotation)
    requires order < n <= |rules| && (forall i :: 0 <= i < |rules| ==> rules[i].match_ != "")
    requires c in OwnCandidates(rules[order], order, output)
    ensures c in Candidates(rules, output, n)
  {
    hide OwnCandidates;
    if order < n - 1 { OwnIsCandidate(rules, output, n - 1, order, c); }
  }

  // Sorting rearranges.

  ghost predicate Ordered(xs: seq<Annotation>) { forall i, j :: 0 <= i < j < |xs| ==> Precedes(xs[i], xs[j]) }

  lemma {:induction false} PlaceKeeps(x: Annotation, xs: seq<Annotation>)
    requires Ordered(xs)
    ensures Ordered(Place(x, xs)) && multiset(Place(x, xs)) == multiset(xs) + multiset{x}
  {
    if xs != [] && !Precedes(x, xs[0]) {
      PlaceKeeps(x, xs[1..]);
      assert xs == [xs[0]] + xs[1..];
      var rest := Place(x, xs[1..]);
      forall j | 0 <= j < |rest| ensures Precedes(xs[0], rest[j]) {
        assert rest[j] in multiset(rest);
        if rest[j] != x { assert rest[j] in xs[1..]; }
      }
    }
  }

  lemma {:induction false} InOrderKeeps(xs: seq<Annotation>)
    ensures Ordered(InOrder(xs)) && multiset(InOrder(xs)) == multiset(xs)
  {
    if xs != [] {
      InOrderKeeps(xs[1..]);
      PlaceKeeps(xs[0], InOrder(xs[1..]));
      assert xs == [xs[0]] + xs[1..];
    }
  }

  // The greedy choice.

  /** Strictly ascending spans, each ending before the next begins. */
  ghost predicate Disjoint(xs: seq<Annotation>) {
    && (forall i :: 0 <= i < |xs| ==> xs[i].start < xs[i].end)
    && (forall i, j :: 0 <= i < j < |xs| ==> xs[i].end <= xs[j].start)
  }

  predicate Overlap(a: Annotation, b: Annotation) { a.start < b.end && b.start < a.end }

  /** A candidate is shown, overlaps something shown that comes before it, or lies behind a full list. */
  ghost predicate Settled(c: Annotation, shown: seq<Annotation>) {
    || c in shown
    || (exists k :: 0 <= k < |shown| && Overlap(c, shown[k]) && Precedes(shown[k], c))
    || (|shown| == MAX_ANNOTATIONS && forall k :: 0 <= k < |shown| ==> Precedes(shown[k], c))
  }

  lemma {:induction false} ChosenIsGreedy(candidates: seq<Annotation>, i: nat, shown: seq<Annotation>)
    requires i <= |candidates| && Ordered(candidates) && forall k :: 0 <= k < |candidates| ==> candidates[k].start < candidates[k].end
    requires Disjoint(shown) && |shown| <= MAX_ANNOTATIONS
    requires forall k :: 0 <= k < |shown| ==> shown[k] in candidates[..i]
    requires forall k :: 0 <= k < i ==> Settled(candidates[k], shown)
    ensures var r := Chosen(candidates, i, shown);
            && Disjoint(r) && |r| <= MAX_ANNOTATIONS && shown <= r
            && (forall k :: 0 <= k < |r| ==> r[k] in candidates)
            && (forall k :: 0 <= k < |candidates| ==> Settled(candidates[k], r))
    decreases |candidates| - i
  {
    hide Settled, Precedes, Disjoint, Overlap;
    if i < |candidates| {
      var c := candidates[i];
      forall k | 0 <= k < |shown| ensures Precedes(shown[k], c) {
        var p :| 0 <= p < i && candidates[p] == shown[k];
      }
      if |shown| >= MAX_ANNOTATIONS {
        FullListSettles(candidates, i, shown);
      } else if shown != [] && c.start < shown[|shown| - 1].end {
        SkippedOverlaps(c, shown);
        assert candidates[..i] <= candidates[..i + 1];
        ChosenIsGreedy(candidates, i + 1, shown);
      } else {
        var longer := shown + [c];
        forall k | 0 <= k < i + 1 ensures Settled(candidates[k], longer) { SettledStays(candidates[k], shown, c); }
        forall k | 0 <= k < |longer| ensures longer[k] in candidates[..i + 1] {
          if k == |shown| { assert candidates[..i + 1][i] == c; } else { assert shown[k] in candidates[..i]; }
        }
        StillDisjoint(shown, c);
        ChosenIsGreedy(candidates, i + 1, longer);
      }
    }
  }

  lemma SkippedOverlaps(c: Annotation, shown: seq<Annotation>)
    requires shown != [] && Precedes(shown[|shown| - 1], c) && c.start < c.end && c.start < shown[|shown| - 1].end
    ensures Settled(c, shown)
  {
    assert Overlap(c, shown[|shown| - 1]);
  }

  lemma StillDisjoint(shown: seq<Annotation>, c: Annotation)
    requires Disjoint(shown) && c.start < c.end && (shown != [] ==> shown[|shown| - 1].end <= c.start)
    ensures Disjoint(shown + [c])
  {
    forall k | 0 <= k < |shown| ensures shown[k].end <= c.start {
      assert k < |shown| - 1 ==> shown[k].end <= shown[|shown| - 1].start;
    }
  }

  lemma SettledStays(c: Annotation, shown: seq<Annotation>, more: Annotation)
    requires |shown| < MAX_ANNOTATIONS && (c == more || Settled(c, shown))
    ensures Settled(c, shown + [more])
  {
    var longer := shown + [more];
    if c == more {
      assert longer[|shown|] == more;
    } else if c !in shown {
      var k :| 0 <= k < |shown| && Overlap(c, shown[k]) && Precedes(shown[k], c);
      assert longer[k] == shown[k];
    }
  }

  lemma FullListSettles(candidates: seq<Annotation>, i: nat, shown: seq<Annotation>)
    requires i < |candidates| && Ordered(candidates) && |shown| == MAX_ANNOTATIONS
    requires forall k :: 0 <= k < |shown| ==> shown[k] in candidates[..i]
    requires forall k :: 0 <= k < i ==> Settled(candidates[k], shown)
    ensures forall k :: 0 <= k < |candidates| ==> Settled(candidates[k], shown)
  {
    forall k | i <= k < |candidates| ensures Settled(candidates[k], shown) {
      forall m | 0 <= m < |shown| ensures Precedes(shown[m], candidates[k]) {
        var p :| 0 <= p < i && candidates[p] == shown[m];
      }
    }
  }

  /** The span starts before this place or, at this place, belongs to this rule or an earlier one. */
  predicate Outranks(a: Annotation, start: nat, order: nat) { a.start < start || (a.start == start && a.order <= order) }

  /** What is shown for any sound rules and any output: at most 200 non-empty, in-bounds, disjoint spans in
      ascending order, each spelling its rule's highlight where its match occurs; and every candidate of every rule is
      shown, or overlaps a shown span that starts before it or, at the same place, is of no later rule, or
      so does all of a full list. */
  lemma ShownIsGreedy(rules: seq<Rule>, output: string)
    requires forall i :: 0 <= i < |rules| ==> Sound(rules[i]) && rules[i].match_ != ""
    ensures var shown := Shown(rules, output);
            && |shown| <= 200 && Disjoint(shown)
            && (forall k :: 0 <= k < |shown| ==> Spells(rules, output, shown[k]) && shown[k] in Candidates(rules, output, |rules|))
            && (forall order: nat, c :: order < |rules| && c in OwnCandidates(rules[order], order, output) ==>
                  || c in shown
                  || (exists k :: 0 <= k < |shown| && shown[k].end > c.start && Outranks(shown[k], c.start, order))
                  || (|shown| == 200 && forall k :: 0 <= k < |shown| ==> Outranks(shown[k], c.start, order)))
  {
    hide Sound, Spells, Chosen, OwnCandidates, Overlap;
    var candidates, shown := Candidates(rules, output, |rules|), Shown(rules, output);
    CandidatesSpell(rules, output, |rules|);
    SortedIsGreedy(rules, output);
    forall order: nat, c | order < |rules| && c in OwnCandidates(rules[order], order, output) && c !in shown
      ensures || (exists k :: 0 <= k < |shown| && shown[k].end > c.start && Outranks(shown[k], c.start, order))
              || (|shown| == MAX_ANNOTATIONS && forall k :: 0 <= k < |shown| ==> Outranks(shown[k], c.start, order))
    {
      OwnIsCandidate(rules, output, |rules|, order, c);
      var m :| 0 <= m < |candidates| && candidates[m] == c;
      assert Settled(candidates[m], shown);
      OwnOrder(rules[order], order, output, c);
      if k :| 0 <= k < |shown| && Overlap(c, shown[k]) && Precedes(shown[k], c) {
        OverlapReaches(c, shown[k]);
      }
    }
  }

  lemma OverlapReaches(a: Annotation, b: Annotation)
    requires Overlap(a, b)
    ensures b.end > a.start
  {
  }

  lemma OwnOrder(rule: Rule, order: nat, output: string, c: Annotation)
    requires rule.match_ != "" && c in OwnCandidates(rule, order, output)
    ensures c.order == order
  {
  }

  lemma SortedIsGreedy(rules: seq<Rule>, output: string)
    requires forall i :: 0 <= i < |rules| ==> Sound(rules[i]) && rules[i].match_ != ""
    ensures var shown, candidates := Shown(rules, output), Candidates(rules, output, |rules|);
            && |shown| <= MAX_ANNOTATIONS && Disjoint(shown)
            && (forall k :: 0 <= k < |shown| ==> Spells(rules, output, shown[k]) && shown[k] in candidates)
            && (forall k :: 0 <= k < |candidates| ==> Settled(candidates[k], shown))
  {
    hide Sound, Spells, Settled, Precedes, Chosen;
    var candidates := Candidates(rules, output, |rules|);
    var sorted := InOrder(candidates);
    CandidatesSpell(rules, output, |rules|);
    InOrderKeeps(candidates);
    forall k | 0 <= k < |sorted| ensures sorted[k] in candidates && Spells(rules, output, sorted[k]) && sorted[k].start < sorted[k].end {
      assert sorted[k] in multiset(candidates);
      SpellsSomething(rules, output, sorted[k]);
    }
    ChosenIsGreedy(sorted, 0, []);
    forall k | 0 <= k < |candidates| ensures candidates[k] in sorted { assert candidates[k] in multiset(sorted); }
  }

  lemma SpellsSomething(rules: seq<Rule>, output: string, a: Annotation)
    ensures Spells(rules, output, a) ==> a.start < a.end
  {
  }
}
