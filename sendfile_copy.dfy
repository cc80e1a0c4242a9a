/**
 * The Linux fast path of a local-to-local file copy: the source file is
 * streamed into the destination with the sendfile system call, in chunks no
 * larger than the kernel accepts in one call.
 *
 * Opening the source and the system call itself are outside the model: the
 * open outcome is a parameter and Sendfile is a function of the call number
 * and the requested count (the kernel's update of the file offset is not
 * modelled).
 */
module SendfileCopy {

  import opened Wrappers

  /** The largest count one sendfile call transfers (2,147,479,552 bytes). */
  const MaxChunkSize: int := 2147479552

  /** What one sendfile call reports: bytes written, or an errno. */
  datatype SendfileResult = Sent(written: int) | Errno(code: int)

  datatype CopyError =
    | OpenFailed(reason: string)
    | SendfileFailed(code: int)
    | FileCorrupted                 // "File Corrupted, Retry again"
    | BytesCopiedLess               // "Bytes copied were less than the source size"

  /** The chunk sizes the loop requests, in order, when every call succeeds. */
  function Chunks(size: int): seq<int>
    decreases if size > 0 then size else 0
  {
    if size == 0 then []
    else if size <= MaxChunkSize then [size]
    else [MaxChunkSize] + Chunks(size - MaxChunkSize)
  }

  function Sum(s: seq<int>): int
  {
    if s == [] then 0 else s[0] + Sum(s[1..])
  }

  /** The chunks add up to the size, whatever its sign. */
  lemma {:induction false} ChunksSum(size: int)
    ensures Sum(Chunks(size)) == size
    decreases if size > 0 then size else 0
  {
    if size > MaxChunkSize {
      ChunksSum(size - MaxChunkSize);
      assert Chunks(size)[1..] == Chunks(size - MaxChunkSize);
    }
  }

  /**
   * For a positive size every chunk is positive and at most the maximum, all
   * chunks but the last are exactly the maximum, and there are
   * ceil(size / MaxChunkSize) of them.
   */
  lemma {:induction false} ChunksShape(size: int)
    requires size > 0
    ensures |Chunks(size)| == (size + MaxChunkSize - 1) / MaxChunkSize
    ensures forall i :: 0 <= i < |Chunks(size)| ==> 0 < Chunks(size)[i] <= MaxChunkSize
    ensures forall i :: 0 <= i < |Chunks(size)| - 1 ==> Chunks(size)[i] == MaxChunkSize
    decreases size
  {
    if size > MaxChunkSize {
      var rest := size - MaxChunkSize;
      ChunksShape(rest);
      assert Chunks(size) == [MaxChunkSize] + Chunks(rest);
      assert (size + MaxChunkSize - 1) / MaxChunkSize == 1 + (rest + MaxChunkSize - 1) / MaxChunkSize;
    }
  }

  /**
   * What a run of copyFunc reports: its error (None for nil) and the counts
   * it handed to Sendfile, in order.
   */
  datatype Copy = Copy(err: Option<CopyError>, calls: seq<int>)

  /**
   * The loop of copyFunc from a state where `remaining` bytes are still to be
   * sent, k calls have been made and `total` bytes written. When the loop
   * ends, copyFunc as written compares `total` with the loop variable, which
   * is then 0; the intended check compares it with the original size.
   */
  function Run(remaining: int, k: nat, total: int, sendfile: (nat, int) -> SendfileResult,
               intended: bool, original: int): Copy
    decreases if remaining < 0 then 1 else remaining
  {
    if remaining == 0 then
      Copy(if total != (if intended then original else remaining) then Some(BytesCopiedLess) else None, [])
    else
      var chunk := if remaining <= MaxChunkSize then remaining else MaxChunkSize;
      match sendfile(k, chunk)
      case Errno(code) => Copy(Some(SendfileFailed(code)), [chunk])
      case Sent(written) =>
        if written != chunk then Copy(Some(FileCorrupted), [chunk])
        else
          var r := Run(remaining - chunk, k + 1, total + written, sendfile, intended, original);
          Copy(r.err, [chunk] + r.calls)
  }

  /** copyFunc: an open failure is returned before anything is sent. */
  function CopyOutcome(size: int, openError: Option<string>, sendfile: (nat, int) -> SendfileResult,
                       intended: bool): Copy
  {
    if openError.Some? then Copy(Some(OpenFailed(openError.value)), [])
    else Run(size, 0, 0, sendfile, intended, size)
  }

  /** Calls k .. k+j-1 each wrote exactly the count they asked for. */
  ghost predicate AllSent(calls: seq<int>, sendfile: (nat, int) -> SendfileResult, k: nat, j: int)
    requires j <= |calls|
  {
    forall i :: 0 <= i < j ==> sendfile(k + i, calls[i]) == Sent(calls[i])
  }

  /**
   * The counts a run sends are a prefix of Chunks, and it makes no call
   * exactly when nothing remains.
   */
  lemma {:induction false} RunCallsArePrefix(remaining: int, k: nat, total: int,
                                             sendfile: (nat, int) -> SendfileResult, intended: bool, original: int)
    ensures var r := Run(remaining, k, total, sendfile, intended, original);
      && r.calls <= Chunks(remaining)
      && (r.calls == [] <==> remaining == 0)
    decreases if remaining < 0 then 1 else remaining
  {
    if remaining != 0 {
      var chunk := if remaining <= MaxChunkSize then remaining else MaxChunkSize;
      assert Chunks(remaining) == [chunk] + Chunks(remaining - chunk);
      if sendfile(k, chunk) == Sent(chunk) {
        RunCallsArePrefix(remaining - chunk, k + 1, total + chunk, sendfile, intended, original);
      }
    }
  }

  /** Every call but the last wrote exactly what it asked for. */
  ghost predicate FaultOnlyLast(calls: seq<int>, sendfile: (nat, int) -> SendfileResult, k: nat)
  {
    calls != [] ==> AllSent(calls, sendfile, k, |calls| - 1)
  }

  /** A call that wrote in full, put in front, keeps the fault at the last call. */
  lemma FaultOnlyLastCons(c: int, calls: seq<int>, sendfile: (nat, int) -> SendfileResult, k: nat)
    requires sendfile(k, c) == Sent(c) && FaultOnlyLast(calls, sendfile, k + 1)
    ensures FaultOnlyLast([c] + calls, sendfile, k)
  {
    var ext := [c] + calls;
    forall i | 0 <= i < |ext| - 1
      ensures sendfile(k + i, ext[i]) == Sent(ext[i])
    {
      if i > 0 {
        assert ext[i] == calls[i - 1];
      }
    }
  }

  /** Every call of a run but the last wrote exactly what it asked for. */
  lemma {:induction false} RunStopsAtFirstFault(remaining: int, k: nat, total: int,
                                                sendfile: (nat, int) -> SendfileResult, intended: bool, original: int)
    ensures FaultOnlyLast(Run(remaining, k, total, sendfile, intended, original).calls, sendfile, k)
    decreases if remaining < 0 then 1 else remaining
  {
    if remaining != 0 {
      var chunk := if remaining <= MaxChunkSize then remaining else MaxChunkSize;
      if sendfile(k, chunk) == Sent(chunk) {
        var rest := Run(remaining - chunk, k + 1, total + chunk, sendfile, intended, original);
        RunStopsAtFirstFault(remaining - chunk, k + 1, total + chunk, sendfile, intended, original);
        RunFullCall(remaining, k, total, sendfile, intended, original, chunk);
        FaultOnlyLastCons(chunk, rest.calls, sendfile, k);
      }
    }
  }

  /** The value the final check compares the bytes written with. */
  function Target(intended: bool, original: int): int
  {
    if intended then original else 0
  }

  /** What the last call of a run, number k + |calls| - 1, reported. */
  function LastReply(calls: seq<int>, sendfile: (nat, int) -> SendfileResult, k: nat): SendfileResult
    requires calls != []
  {
    sendfile(k + |calls| - 1, calls[|calls| - 1])
  }

  /** A run whose last call, number k + |calls| - 1, returned an errno reports that errno. */
  predicate ErrnoReported(r: Copy, sendfile: (nat, int) -> SendfileResult, k: nat)
  {
    r.calls != [] && LastReply(r.calls, sendfile, k).Errno? ==>
      r.err == Some(SendfileFailed(LastReply(r.calls, sendfile, k).code))
  }

  /** A run whose last call wrote other than it asked for reports FileCorrupted. */
  predicate ShortReported(r: Copy, sendfile: (nat, int) -> SendfileResult, k: nat)
  {
    r.calls != [] && LastReply(r.calls, sendfile, k).Sent? && LastReply(r.calls, sendfile, k).written != r.calls[|r.calls| - 1] ==>
      r.err == Some(FileCorrupted)
  }

  lemma LastReplyCons(c: int, calls: seq<int>, sendfile: (nat, int) -> SendfileResult, k: nat)
    requires calls != []
    ensures LastReply([c] + calls, sendfile, k) == LastReply(calls, sendfile, k + 1)
  {
    assert ([c] + calls)[|calls|] == calls[|calls| - 1];
  }

  /** A call that writes its chunk in full hands the run on to the next call. */
  lemma RunFullCall(remaining: int, k: nat, total: int, sendfile: (nat, int) -> SendfileResult,
                    intended: bool, original: int, chunk: int)
    requires remaining != 0 && chunk == (if remaining <= MaxChunkSize then remaining else MaxChunkSize)
    requires sendfile(k, chunk) == Sent(chunk)
    ensures var rest := Run(remaining - chunk, k + 1, total + chunk, sendfile, intended, original);
      Run(remaining, k, total, sendfile, intended, original) == Copy(rest.err, [chunk] + rest.calls)
  {
  }

  /** A call that wrote in full keeps "a final errno is reported" for the run it starts. */
  lemma ErrnoStep(remaining: int, k: nat, total: int, sendfile: (nat, int) -> SendfileResult,
                   intended: bool, original: int, chunk: int)
    requires remaining != 0 && chunk == (if remaining <= MaxChunkSize then remaining else MaxChunkSize)
    requires sendfile(k, chunk) == Sent(chunk)
    requires ErrnoReported(Run(remaining - chunk, k + 1, total + chunk, sendfile, intended, original), sendfile, k + 1)
    ensures ErrnoReported(Run(remaining, k, total, sendfile, intended, original), sendfile, k)
  {
    var rest := Run(remaining - chunk, k + 1, total + chunk, sendfile, intended, original);
    RunFullCall(remaining, k, total, sendfile, intended, original, chunk);
    if rest.calls != [] {
      LastReplyCons(chunk, rest.calls, sendfile, k);
    }
  }

  /** A run whose last call returns an errno reports that errno. */
  lemma {:induction false} RunLastCallErrno(remaining: int, k: nat, total: int,
                                            sendfile: (nat, int) -> SendfileResult, intended: bool, original: int)
    ensures ErrnoReported(Run(remaining, k, total, sendfile, intended, original), sendfile, k)
    decreases if remaining < 0 then 1 else remaining
  {
    if remaining != 0 {
      var chunk := if remaining <= MaxChunkSize then remaining else MaxChunkSize;
      if sendfile(k, chunk) == Sent(chunk) {
        RunLastCallErrno(remaining - chunk, k + 1, total + chunk, sendfile, intended, original);
        ErrnoStep(remaining, k, total, sendfile, intended, original, chunk);
      }
    }
  }

  /** A call that wrote in full keeps "a short final write is reported" for the run it starts. */
  lemma ShortStep(remaining: int, k: nat, total: int, sendfile: (nat, int) -> SendfileResult,
                   intended: bool, original: int, chunk: int)
    requires remaining != 0 && chunk == (if remaining <= MaxChunkSize then remaining else MaxChunkSize)
    requires sendfile(k, chunk) == Sent(chunk)
    requires ShortReported(Run(remaining - chunk, k + 1, total + chunk, sendfile, intended, original), sendfile, k + 1)
    ensures ShortReported(Run(remaining, k, total, sendfile, intended, original), sendfile, k)
  {
    var rest := Run(remaining - chunk, k + 1, total + chunk, sendfile, intended, original);
    RunFullCall(remaining, k, total, sendfile, intended, original, chunk);
    if rest.calls != [] {
      LastReplyCons(chunk, rest.calls, sendfile, k);
    }
  }

  /** A run whose last call writes less (or more) than it asked for reports FileCorrupted. */
  lemma {:induction false} RunLastCallShort(remaining: int, k: nat, total: int,
                                            sendfile: (nat, int) -> SendfileResult, intended: bool, original: int)
    ensures ShortReported(Run(remaining, k, total, sendfile, intended, original), sendfile, k)
    decreases if remaining < 0 then 1 else remaining
  {
    if remaining != 0 {
      var chunk := if remaining <= MaxChunkSize then remaining else MaxChunkSize;
      if sendfile(k, chunk) == Sent(chunk) {
        RunLastCallShort(remaining - chunk, k + 1, total + chunk, sendfile, intended, original);
        ShortStep(remaining, k, total, sendfile, intended, original, chunk);
      }
    }
  }

  /** A run that does not fail in a call ends in the final comparison, made on every byte sent. */
  function FinalCheck(total: int, remaining: int, intended: bool, original: int): Option<CopyError>
  {
    if total + remaining != Target(intended, original) then Some(BytesCopiedLess) else None
  }

  /**
   * A run ends in the final comparison (None or BytesCopiedLess) exactly when
   * it sent every chunk of `remaining` and each call wrote in full.
   */
  ghost predicate Completes(r: Copy, remaining: int, sendfile: (nat, int) -> SendfileResult, k: nat)
  {
    (r.err.None? || r.err == Some(BytesCopiedLess)) <==>
      r.calls == Chunks(remaining) && AllSent(r.calls, sendfile, k, |r.calls|)
  }

  /** A call that sent the first chunk in full keeps Completes for the run it starts. */
  lemma CompletesCons(remaining: int, chunk: int, rest: Copy, sendfile: (nat, int) -> SendfileResult, k: nat)
    requires remaining != 0 && chunk == (if remaining <= MaxChunkSize then remaining else MaxChunkSize)
    requires sendfile(k, chunk) == Sent(chunk) && Completes(rest, remaining - chunk, sendfile, k + 1)
    ensures Completes(Copy(rest.err, [chunk] + rest.calls), remaining, sendfile, k)
  {
    assert Chunks(remaining) == [chunk] + Chunks(remaining - chunk);
    AllSentCons(chunk, rest.calls, sendfile, k);
    ConsSame(chunk, rest.calls, Chunks(remaining - chunk));
  }

  /**
   * A run ends in the final comparison (None or BytesCopiedLess) exactly when
   * it sent every chunk and each call wrote in full.
   */
  lemma {:induction false} RunCompletes(remaining: int, k: nat, total: int,
                                        sendfile: (nat, int) -> SendfileResult, intended: bool, original: int)
    ensures Completes(Run(remaining, k, total, sendfile, intended, original), remaining, sendfile, k)
    decreases if remaining < 0 then 1 else remaining
  {
    if remaining != 0 {
      var chunk := if remaining <= MaxChunkSize then remaining else MaxChunkSize;
      if sendfile(k, chunk) == Sent(chunk) {
        RunCompletes(remaining - chunk, k + 1, total + chunk, sendfile, intended, original);
        RunFullCall(remaining, k, total, sendfile, intended, original, chunk);
        CompletesCons(remaining, chunk, Run(remaining - chunk, k + 1, total + chunk, sendfile, intended, original), sendfile, k);
      } else {
        var r := Run(remaining, k, total, sendfile, intended, original);
        assert r.calls == [chunk];
        assert !AllSent(r.calls, sendfile, k, |r.calls|) by {
          assert r.calls[0] == chunk;
        }
      }
    }
  }

  lemma ConsSame(c: int, a: seq<int>, b: seq<int>)
    ensures [c] + a == [c] + b <==> a == b
  {
    if [c] + a == [c] + b {
      assert a == ([c] + a)[1..];
    }
  }

  lemma AllSentCons(c: int, calls: seq<int>, sendfile: (nat, int) -> SendfileResult, k: nat)
    requires sendfile(k, c) == Sent(c)
    ensures AllSent([c] + calls, sendfile, k, |calls| + 1) <==> AllSent(calls, sendfile, k + 1, |calls|)
  {
    var ext := [c] + calls;
    if AllSent(calls, sendfile, k + 1, |calls|) {
      forall i | 0 <= i < |ext|
        ensures sendfile(k + i, ext[i]) == Sent(ext[i])
      {
        if i > 0 {
          assert ext[i] == calls[i - 1];
        }
      }
    }
    if AllSent(ext, sendfile, k, |ext|) {
      forall i | 0 <= i < |calls|
        ensures sendfile(k + 1 + i, calls[i]) == Sent(calls[i])
      {
        assert ext[i + 1] == calls[i];
      }
    }
  }

  /** A run that ends in the final comparison reports that comparison on every byte. */
  lemma {:induction false} RunFinalCheck(remaining: int, k: nat, total: int,
                                         sendfile: (nat, int) -> SendfileResult, intended: bool, original: int)
    ensures var r := Run(remaining, k, total, sendfile, intended, original);
      (r.err.None? || r.err == Some(BytesCopiedLess)) ==> r.err == FinalCheck(total, remaining, intended, original)
    decreases if remaining < 0 then 1 else remaining
  {
    if remaining != 0 {
      var chunk := if remaining <= MaxChunkSize then remaining else MaxChunkSize;
      if sendfile(k, chunk) == Sent(chunk) {
        RunFinalCheck(remaining - chunk, k + 1, total + chunk, sendfile, intended, original);
      }
    }
  }

  /** When every call writes in full, a run sends every chunk and ends in the final comparison. */
  lemma {:induction false} RunAllFull(remaining: int, k: nat, total: int,
                                      sendfile: (nat, int) -> SendfileResult, intended: bool, original: int)
    requires forall j: nat, n: int :: sendfile(j, n) == Sent(n)
    ensures Run(remaining, k, total, sendfile, intended, original)
         == Copy(FinalCheck(total, remaining, intended, original), Chunks(remaining))
    decreases if remaining < 0 then 1 else remaining
  {
    if remaining != 0 {
      var chunk := if remaining <= MaxChunkSize then remaining else MaxChunkSize;
      assert sendfile(k, chunk) == Sent(chunk);
      RunAllFull(remaining - chunk, k + 1, total + chunk, sendfile, intended, original);
    }
  }

  /**
   * As written, a copy with nothing to send succeeds without a system call,
   * and a copy of any other size whose every Sendfile call writes in full
   * still reports "Bytes copied were less than the source size".
   */
  lemma AsWrittenFinalCheck(size: int, sendfile: (nat, int) -> SendfileResult)
    requires forall k: nat, n: int :: sendfile(k, n) == Sent(n)
    ensures size == 0 ==> CopyOutcome(size, None, sendfile, false) == Copy(None, [])
    ensures size != 0 ==> CopyOutcome(size, None, sendfile, false) == Copy(Some(BytesCopiedLess), Chunks(size))
  {
    RunAllFull(size, 0, 0, sendfile, false, size);
  }

  /**
   * With the intended final check, a copy with no open failure succeeds
   * exactly when it sent every chunk and each call wrote in full.
   */
  lemma IntendedSucceedsIffAllSent(size: int, sendfile: (nat, int) -> SendfileResult)
    ensures var r := CopyOutcome(size, None, sendfile, true);
      r.err == None <==> r.calls == Chunks(size) && AllSent(r.calls, sendfile, 0, |r.calls|)
  {
    var r := CopyOutcome(size, None, sendfile, true);
    RunCallsArePrefix(size, 0, 0, sendfile, true, size);
    RunStopsAtFirstFault(size, 0, 0, sendfile, true, size);
    RunCompletes(size, 0, 0, sendfile, true, size);
    RunFinalCheck(size, 0, 0, sendfile, true, size);
    if r.calls != [] {
      assert LastReply(r.calls, sendfile, 0) == sendfile(|r.calls| - 1, r.calls[|r.calls| - 1]);
    } else {
      assert size == 0;
    }
  }

  /**
   * The loop invariant of copyFunc: the run from the current state, after
   * the calls made so far, is the run from the start.
   */
  ghost predicate LoopInvariant(size: int, calls: seq<int>, remaining: int, total: int,
                                sendfile: (nat, int) -> SendfileResult, intended: bool)
  {
    var r := Run(remaining, |calls|, total, sendfile, intended, size);
    Run(size, 0, 0, sendfile, intended, size) == Copy(r.err, calls + r.calls)
  }

  /** One turn of the loop of copyFunc, with the chunk it sends and each way the call can go. */
  lemma LoopStep(size: int, calls: seq<int>, remaining: int, total: int,
                 sendfile: (nat, int) -> SendfileResult, intended: bool, chunk: int)
    requires LoopInvariant(size, calls, remaining, total, sendfile, intended) && remaining != 0
    requires chunk == if remaining <= MaxChunkSize then remaining else MaxChunkSize
    ensures sendfile(|calls|, chunk).Errno? ==>
      Run(size, 0, 0, sendfile, intended, size) == Copy(Some(SendfileFailed(sendfile(|calls|, chunk).code)), calls + [chunk])
    ensures sendfile(|calls|, chunk).Sent? && sendfile(|calls|, chunk).written != chunk ==>
      Run(size, 0, 0, sendfile, intended, size) == Copy(Some(FileCorrupted), calls + [chunk])
    ensures sendfile(|calls|, chunk) == Sent(chunk) ==>
      LoopInvariant(size, calls + [chunk], remaining - chunk, total + chunk, sendfile, intended)
  {
    var r := Run(remaining, |calls|, total, sendfile, intended, size);
    if sendfile(|calls|, chunk) == Sent(chunk) {
      var t := Run(remaining - chunk, |calls| + 1, total + chunk, sendfile, intended, size);
      assert r == Copy(t.err, [chunk] + t.calls);
      AppendCall(calls, chunk, t.calls);
    }
  }

  /** When nothing remains, the loop invariant gives the final check. */
  lemma LoopDone(size: int, calls: seq<int>, total: int, sendfile: (nat, int) -> SendfileResult, intended: bool)
    requires LoopInvariant(size, calls, 0, total, sendfile, intended)
    ensures Run(size, 0, 0, sendfile, intended, size)
      == Copy(if total != (if intended then size else 0) then Some(BytesCopiedLess) else None, calls)
  {
    AppendCall(calls, 0, []);
  }

  lemma AppendCall(calls: seq<int>, c: int, rest: seq<int>)
    ensures calls + ([c] + rest) == (calls + [c]) + rest
    ensures calls + [] == calls
  {
  }

  /** copyFunc as written. */
  method CopyFunc(size: int, openError: Option<string>, sendfile: (nat, int) -> SendfileResult)
    returns (err: Option<CopyError>, calls: seq<int>)
    ensures Copy(err, calls) == CopyOutcome(size, openError, sendfile, false)
  {
    if openError.Some? {
      return Some(OpenFailed(openError.value)), [];
    }
    var remaining := size;
    var totalBytesWritten := 0;
    calls := [];
    while remaining != 0
      invariant LoopInvariant(size, calls, remaining, totalBytesWritten, sendfile, false)
      decreases if remaining < 0 then 1 else remaining
    {
      ghost var left := remaining;
      var chunkSize;
      if remaining <= MaxChunkSize {
        chunkSize := remaining;
        remaining := 0;
      } else {
        chunkSize := MaxChunkSize;
        remaining := remaining - MaxChunkSize;
      }
      LoopStep(size, calls, left, totalBytesWritten, sendfile, false, chunkSize);
      var k := |calls|;
      calls := calls + [chunkSize];
      match sendfile(k, chunkSize)
      case Errno(code) =>
        return Some(SendfileFailed(code)), calls;
      case Sent(written) =>
        if written != chunkSize {
          return Some(FileCorrupted), calls;
        }
        totalBytesWritten := totalBytesWritten + written;
    }
    LoopDone(size, calls, totalBytesWritten, sendfile, false);
    if totalBytesWritten != remaining {
      return Some(BytesCopiedLess), calls;
    }
    return None, calls;
  }

  /** copyFunc with the final comparison made against the size passed in. */
  method CopyFuncIntended(size: int, openError: Option<string>, sendfile: (nat, int) -> SendfileResult)
    returns (err: Option<CopyError>, calls: seq<int>)
    ensures Copy(err, calls) == CopyOutcome(size, openError, sendfile, true)
  {
    if openError.Some? {
      return Some(OpenFailed(openError.value)), [];
    }
    var remaining := size;
    var totalBytesWritten := 0;
    calls := [];
    while remaining != 0
      invariant LoopInvariant(size, calls, remaining, totalBytesWritten, sendfile, true)
      decreases if remaining < 0 then 1 else remaining
    {
      ghost var left := remaining;
      var chunkSize;
      if remaining <= MaxChunkSize {
        chunkSize := remaining;
        remaining := 0;
      } else {
        chunkSize := MaxChunkSize;
        remaining := remaining - MaxChunkSize;
      }
      LoopStep(size, calls, left, totalBytesWritten, sendfile, true, chunkSize);
      var k := |calls|;
      calls := calls + [chunkSize];
      match sendfile(k, chunkSize)
      case Errno(code) =>
        return Some(SendfileFailed(code)), calls;
      case Sent(written) =>
        if written != chunkSize {
          return Some(FileCorrupted), calls;
        }
        totalBytesWritten := totalBytesWritten + written;
    }
    LoopDone(size, calls, totalBytesWritten, sendfile, true);
    if totalBytesWritten != size {
      return Some(BytesCopiedLess), calls;
    }
    return None, calls;
  }

  /** A one-byte file copied without any fault: the as-written check reports an error. */
  method OneByteCopyAsWritten() returns (err: Option<CopyError>)
    ensures err == Some(BytesCopiedLess)
  {
    var calls;
    err, calls := CopyFunc(1, None, (k: nat, n: int) => Sent(n));
  }

  /** The same copy with the intended final check succeeds. */
  method OneByteCopyIntended() returns (err: Option<CopyError>)
    ensures err == None
  {
    var calls;
    err, calls := CopyFuncIntended(1, None, (k: nat, n: int) => Sent(n));
  }
}
