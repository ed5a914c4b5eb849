/** Running one command: its output is collected on two streams that share a byte budget, and it is killed on
    the budget or a timeout. The child is an environment that sends events in any order. */
module OutputBudget {
  import opened Numbers
  import opened Optional
  import opened Utf8

  datatype RunResult = RunResult(
    stdout: seq<Scalar>, stderr: seq<Scalar>, exitCode: Option<int>, timedOut: bool, outputTruncated: bool, spawnError: bool)

  datatype Event =
    | Stdout(chunk: seq<Byte>)
    | Stderr(chunk: seq<Byte>)
    | Timeout
    | Exited(code: Option<int>)
    | Failed(message: seq<Scalar>)

  // ---- the split -------------------------------------------------------------------------------------

  datatype Shares = Shares(out: nat, err: nat)

  /** How many bytes each stream may decode: together all the budget holds, each at least its half, the odd byte
      being stderr's. */
  function Split(outLength: nat, errLength: nat, maxBytes: nat): (r: Shares)
    ensures r.out + r.err == Min(outLength + errLength, maxBytes)
    ensures Min(outLength, maxBytes / 2) <= r.out <= outLength
    ensures Min(errLength, maxBytes - maxBytes / 2) <= r.err <= errLength
  {
    var half := maxBytes / 2;
    var errShare := Min(errLength, maxBytes - Min(outLength, half));
    Shares(Min(outLength, maxBytes - errShare), errShare)
  }

  function Concat(chunks: seq<seq<Byte>>): seq<Byte> {
    if chunks == [] then [] else Concat(chunks[..|chunks| - 1]) + chunks[|chunks| - 1]
  }

  datatype Texts = Texts(stdout: seq<Scalar>, stderr: seq<Scalar>)

  function DecodeBoth(out: seq<seq<Byte>>, err: seq<seq<Byte>>, maxBytes: nat): (r: Texts)
  {
    var o, e := Concat(out), Concat(err);
    var shares := Split(|o|, |e|, maxBytes);
    Texts(Decoded(o[..shares.out]), Decoded(e[..shares.err]))
  }

  // ---- one event -------------------------------------------------------------------------------------

  datatype State = State(
    out: seq<seq<Byte>>, err: seq<seq<Byte>>, totalBytes: nat, outputTruncated: bool, timedOut: bool,
    timer: bool, killed: bool, result: Option<RunResult>)

  const Start := State([], [], 0, false, false, true, false, None)

  function Collected(s: State, out: seq<seq<Byte>>, err: seq<seq<Byte>>, size: nat, maxBytes: nat): State {
    var over := s.totalBytes + size > maxBytes;
    s.(out := out, err := err, totalBytes := s.totalBytes + size,
       outputTruncated := s.outputTruncated || over, killed := s.killed || over)
  }

  /** Resolve the promise once. */
  function Done(s: State, r: RunResult): State {
    s.(timer := false, result := if s.result.None? then Some(r) else s.result)
  }

  function Step(s: State, e: Event, maxBytes: nat): State {
    match e
    case Stdout(chunk) => Collected(s, s.out + [chunk], s.err, |chunk|, maxBytes)
    case Stderr(chunk) => Collected(s, s.out, s.err + [chunk], |chunk|, maxBytes)
    case Timeout => if s.timer then s.(timer := false, timedOut := true, killed := true) else s
    case Exited(code) =>
      var texts := DecodeBoth(s.out, s.err, maxBytes);
      Done(s, RunResult(texts.stdout, texts.stderr, code, s.timedOut, s.outputTruncated, false))
    case Failed(message) => Done(s, RunResult([], message, Some(-1), s.timedOut, s.outputTruncated, true))
  }

  function Exec(events: seq<Event>, maxBytes: nat): State {
    if events == [] then Start else Step(Exec(events[..|events| - 1], maxBytes), events[|events| - 1], maxBytes)
  }

  // ---- what arrived, read off the events ---------------------------------------------------------------

  function OutBytes(events: seq<Event>): seq<Byte> {
    if events == [] then []
    else
      var last := events[|events| - 1];
      OutBytes(events[..|events| - 1]) + if last.Stdout? then last.chunk else []
  }

  function ErrBytes(events: seq<Event>): seq<Byte> {
    if events == [] then []
    else
      var last := events[|events| - 1];
      ErrBytes(events[..|events| - 1]) + if last.Stderr? then last.chunk else []
  }

  predicate Settling(e: Event) { e.Exited? || e.Failed? }

  /** The first event that settles the run, or the length. */
  function Settled(events: seq<Event>): (k: nat)
    ensures k <= |events|
    ensures k < |events| ==> Settling(events[k])
    ensures forall j :: 0 <= j < k ==> !Settling(events[j])
  {
    if events == [] then 0
    else
      var k := Settled(events[..|events| - 1]);
      if k < |events| - 1 || Settling(events[|events| - 1]) then k else |events|
  }

  predicate Over(events: seq<Event>, maxBytes: nat) { |OutBytes(events)| + |ErrBytes(events)| > maxBytes }

  /** What the caller should be told, given everything that came before the settling event. */
  ghost predicate Report(r: RunResult, before: seq<Event>, e: Event, maxBytes: nat) {
    var out, err := OutBytes(before), ErrBytes(before);
    && (r.outputTruncated <==> Over(before, maxBytes))
    && (r.timedOut <==> Timeout in before)
    && (r.spawnError <==> e.Failed?)
    && (e.Failed? ==> r.stdout == [] && r.stderr == e.message && r.exitCode == Some(-1))
    && (e.Exited? ==>
          && r.exitCode == e.code
          && exists o: nat, w: nat :: Budgeted(o, w, |out|, |err|, maxBytes)
               && r.stdout == Decoded(out[..o]) && r.stderr == Decoded(err[..w]))
  }

  /** The budget's promise: all of it is used, and each stream has its half if it wants it, of which the odd byte is
      stderr's. */
  predicate Budgeted(o: nat, w: nat, outLength: nat, errLength: nat, maxBytes: nat) {
    && o <= outLength && w <= errLength
    && o + w == Min(outLength + errLength, maxBytes)
    && o >= Min(outLength, maxBytes / 2) && w >= Min(errLength, maxBytes - maxBytes / 2)
  }

  /** That leaves one way to split. */
  lemma BudgetedIsUnique(o: nat, w: nat, p: nat, x: nat, outLength: nat, errLength: nat, maxBytes: nat)
    requires Budgeted(o, w, outLength, errLength, maxBytes) && Budgeted(p, x, outLength, errLength, maxBytes)
    ensures o == p && w == x
  {
  }

  // ---- every run -------------------------------------------------------------------------------------

  ghost predicate Inv(s: State, events: seq<Event>, maxBytes: nat) {
    var k := Settled(events);
    && Concat(s.out) == OutBytes(events) && Concat(s.err) == ErrBytes(events)
    && s.totalBytes == |OutBytes(events)| + |ErrBytes(events)|
    && (s.outputTruncated <==> Over(events, maxBytes))
    && (s.timedOut <==> Timeout in events[..k])
    && (s.timer <==> k == |events| && !s.timedOut)
    && (s.killed <==> s.timedOut || s.outputTruncated)
    && (s.result.None? <==> k == |events|)
    && (s.result.Some? ==> Report(s.result.value, events[..k], events[k], maxBytes))
  }

  lemma StartKeeps(maxBytes: nat)
    ensures Inv(Start, [], maxBytes)
  {
  }

  lemma {:induction false} RunKeeps(events: seq<Event>, maxBytes: nat)
    ensures Inv(Exec(events, maxBytes), events, maxBytes)
  {
    hide Inv, Step;
    if events == [] {
      StartKeeps(maxBytes);
    } else {
      var before := events[..|events| - 1];
      RunKeeps(before, maxBytes);
      StepKeeps(Exec(before, maxBytes), before, events[|events| - 1], maxBytes);
      assert events == before + [events[|events| - 1]];
    }
  }

  lemma ArrivalsGrow(events: seq<Event>, e: Event)
    ensures OutBytes(events + [e]) == OutBytes(events) + if e.Stdout? then e.chunk else []
    ensures ErrBytes(events + [e]) == ErrBytes(events) + if e.Stderr? then e.chunk else []
  {
    assert (events + [e])[..|events|] == events;
  }

  lemma ChunksGrow(chunks: seq<seq<Byte>>, chunk: seq<Byte>)
    ensures Concat(chunks + [chunk]) == Concat(chunks) + chunk
  {
    assert (chunks + [chunk])[..|chunks|] == chunks;
  }

  lemma SettlingGrows(events: seq<Event>, e: Event)
    ensures var k, after := Settled(events), events + [e];
            && Settled(after) == (if k < |events| || Settling(e) then k else |after|)
            && after[..k] == events[..k]
            && (k < |events| ==> after[k] == events[k])
            && (k == |events| ==> (Timeout in after[..Settled(after)] <==> Timeout in events || e == Timeout))
  {
    var k, after := Settled(events), events + [e];
    assert after[..|events|] == events;
    assert after[..|after|] == after;
    assert events[..|events|] == events;
  }

  lemma StepKeeps(s: State, events: seq<Event>, e: Event, maxBytes: nat)
    requires Inv(s, events, maxBytes)
    ensures Inv(Step(s, e, maxBytes), events + [e], maxBytes)
  {
    hide Report, Decoded, DecodeBoth, OutBytes, ErrBytes, Concat, Settled;
    ArrivalsGrow(events, e);
    SettlingGrows(events, e);
    assert events[..|events|] == events;
    match e {
      case Stdout(chunk) => ChunksGrow(s.out, chunk);
      case Stderr(chunk) => ChunksGrow(s.err, chunk);
      case Timeout =>
      case _ => if s.result.None? { SettlingReports(s, events, e, maxBytes); }
    }
  }

  lemma SettlingReports(s: State, events: seq<Event>, e: Event, maxBytes: nat)
    requires Settling(e) && s.result.None?
    requires Concat(s.out) == OutBytes(events) && Concat(s.err) == ErrBytes(events)
    requires (s.outputTruncated <==> Over(events, maxBytes)) && (s.timedOut <==> Timeout in events)
    ensures Step(s, e, maxBytes).result.Some? && Report(Step(s, e, maxBytes).result.value, events, e, maxBytes)
  {
    hide Concat, OutBytes, ErrBytes, Decoded;
    if e.Exited? {
      var shares := Split(|Concat(s.out)|, |Concat(s.err)|, maxBytes);
      assert Budgeted(shares.out, shares.err, |OutBytes(events)|, |ErrBytes(events)|, maxBytes);
    }
  }

  // ---- what the caller learns --------------------------------------------------------------------------

  /** Each text is a beginning of what its whole stream reads as, never garbled by a cut; within the budget it
      is all of it if and only if the stream does not end inside a character that wants more bytes. */
  lemma NothingLostWithinBudget(r: RunResult, before: seq<Event>, code: Option<int>, maxBytes: nat)
    requires Report(r, before, Exited(code), maxBytes)
    ensures r.stdout <= Text(OutBytes(before)) && r.stderr <= Text(ErrBytes(before))
    ensures !r.outputTruncated ==>
              && (r.stdout == Text(OutBytes(before)) <==> HeldBack(OutBytes(before)) == 0)
              && (r.stderr == Text(ErrBytes(before)) <==> HeldBack(ErrBytes(before)) == 0)
  {
    hide OutBytes, ErrBytes, Decoded, Text, HeldBack;
    var out, err := OutBytes(before), ErrBytes(before);
    var o: nat, w: nat :| Budgeted(o, w, |out|, |err|, maxBytes)
                          && r.stdout == Decoded(out[..o]) && r.stderr == Decoded(err[..w]);
    CutIsPrefix(out, o);
    CutIsPrefix(err, w);
    AllTextIffNothingHeld(out);
    AllTextIffNothingHeld(err);
    assert out[..|out|] == out && err[..|err|] == err;
  }

  /** When both streams are valid UTF-8, each share reads as the longest run of whole characters that fits. */
  lemma ValidTextKeepsWholeCharacters(
    r: RunResult, before: seq<Event>, code: Option<int>, maxBytes: nat, out: seq<Scalar>, err: seq<Scalar>)
    requires Report(r, before, Exited(code), maxBytes) && Valid(out) && Valid(err)
    requires OutBytes(before) == EncodeAll(out) && ErrBytes(before) == EncodeAll(err)
    ensures exists o: nat, w: nat :: Budgeted(o, w, |EncodeAll(out)|, |EncodeAll(err)|, maxBytes)
              && r.stdout == out[..WholeCharacters(out, o)] && r.stderr == err[..WholeCharacters(err, w)]
    ensures !r.outputTruncated ==> r.stdout == out && r.stderr == err
  {
    hide OutBytes, ErrBytes, Decoded, Text, EncodeAll;
    var ob, eb := EncodeAll(out), EncodeAll(err);
    var o: nat, w: nat :| Budgeted(o, w, |ob|, |eb|, maxBytes)
                          && r.stdout == Decoded(ob[..o]) && r.stderr == Decoded(eb[..w]);
    CutKeepsWholeCharacters(out, o);
    CutKeepsWholeCharacters(err, w);
    if !r.outputTruncated {
      AllCharactersFit(out);
      AllCharactersFit(err);
      assert out[..|out|] == out && err[..|err|] == err;
    }
  }

  lemma {:induction false} AllCharactersFit(cs: seq<Scalar>)
    ensures WholeCharacters(cs, |EncodeAll(cs)|) == |cs|
  {
    if cs != [] { AllCharactersFit(cs[1..]); }
  }

  /** The promise resolves at most once: later events cannot change what the caller was told. */
  lemma {:induction false} ResultStands(events: seq<Event>, more: seq<Event>, maxBytes: nat)
    requires Exec(events, maxBytes).result.Some?
    ensures Exec(events + more, maxBytes).result == Exec(events, maxBytes).result
  {
    if more == [] {
      assert events + more == events;
    } else {
      var init := more[..|more| - 1];
      assert (events + more)[..|events + more| - 1] == events + init;
      ResultStands(events, init, maxBytes);
    }
  }
}
