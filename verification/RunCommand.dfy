/** The callbacks of runCommand, over the variables its closure shares. */
module RunCommand {
  import opened Optional
  import opened Utf8
  import opened OutputBudget

  class RunCommand {
    const maxOutputBytes: nat
    var stdoutChunks: seq<seq<Byte>>
    var stderrChunks: seq<seq<Byte>>
    var totalBytes: nat
    var outputTruncated: bool
    var timedOut: bool
    var timer: bool
    var killed: bool
    var settled: bool
    var result: Option<RunResult>

    function Abs(): State reads this {
      State(stdoutChunks, stderrChunks, totalBytes, outputTruncated, timedOut, timer, killed, result)
    }

    predicate Ok() reads this { settled <==> result.Some? }

    constructor (maxOutputBytes: nat)
      ensures this.maxOutputBytes == maxOutputBytes
      ensures Ok() && Abs() == Start
    {
      this.maxOutputBytes := maxOutputBytes;
      stdoutChunks, stderrChunks := [], [];
      totalBytes, outputTruncated, timedOut := 0, false, false;
      timer, killed, settled, result := true, false, false, None;
    }

    /** The accounting both streams share. */
    method Count(chunk: seq<Byte>)
      modifies this`totalBytes, this`outputTruncated, this`killed
      ensures totalBytes == old(totalBytes) + |chunk|
      ensures outputTruncated == (old(outputTruncated) || totalBytes > maxOutputBytes)
      ensures killed == (old(killed) || totalBytes > maxOutputBytes)
    {
      totalBytes := totalBytes + |chunk|;
      if totalBytes > maxOutputBytes {
        outputTruncated := true;
        killed := true;
      }
    }

    method OnStdout(chunk: seq<Byte>)
      requires Ok()
      modifies this
      ensures Ok() && Abs() == Step(old(Abs()), Stdout(chunk), maxOutputBytes)
    {
      stdoutChunks := stdoutChunks + [chunk];
      Count(chunk);
    }

    method OnStderr(chunk: seq<Byte>)
      requires Ok()
      modifies this
      ensures Ok() && Abs() == Step(old(Abs()), Stderr(chunk), maxOutputBytes)
    {
      stderrChunks := stderrChunks + [chunk];
      Count(chunk);
    }

    method OnTimeout()
      requires Ok()
      modifies this
      ensures Ok() && Abs() == Step(old(Abs()), Timeout, maxOutputBytes)
    {
      if timer {
        timer := false;
        timedOut := true;
        killed := true;
      }
    }

    method Finish(r: RunResult)
      requires Ok()
      modifies this`settled, this`result
      ensures Ok() && result == if old(settled) then old(result) else Some(r)
    {
      if settled { return; }
      settled := true;
      result := Some(r);
    }

    method OnClose(code: Option<int>)
      requires Ok()
      modifies this
      ensures Ok() && Abs() == Step(old(Abs()), Exited(code), maxOutputBytes)
    {
      timer := false;
      var texts := DecodeBoth(stdoutChunks, stderrChunks, maxOutputBytes);
      Finish(RunResult(texts.stdout, texts.stderr, code, timedOut, outputTruncated, false));
    }

    method OnError(message: seq<Scalar>)
      requires Ok()
      modifies this
      ensures Ok() && Abs() == Step(old(Abs()), Failed(message), maxOutputBytes)
    {
      timer := false;
      Finish(RunResult([], message, Some(-1), timedOut, outputTruncated, true));
    }
  }
}
