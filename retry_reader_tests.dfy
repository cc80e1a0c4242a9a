/**
 * The retry reader tests as scenarios over the model: each method builds
 * the per-byte body and the retry reader the way its test does, makes the
 * same calls, and promises what the test asserts. The random bytes the
 * tests generate are parameters.
 */
module RetryReaderTests {

  import opened Wrappers
  import opened ResumableRead

  /**
   * The arrangement the injection tests share: a per-byte body over the
   * given bytes, armed to fail `times` reads at byte `at` with the given
   * error, and a retry reader over it that already holds the response for
   * one byte from offset 0.
   */
  method InjectingReader(bytes: seq<byte>, at: int, times: int, injected: Error, options: Options)
    returns (r: RetryReader)
    ensures fresh(r) && fresh(r.body) && r.Valid()
    ensures r.State() == ReaderState(Body(bytes, 0, true, at, times, injected, false, 0), true, 0, 1, true, [])
    ensures r.options == options && r.getter == Reposition
  {
    var body := new PerByteReader(bytes);
    body.doInjectError := true;
    body.doInjectErrorByteIndex := at;
    body.doInjectTimes := times;
    body.injectedError := injected;
    r := new RetryReader(body, true, 0, 1, options, Reposition);
  }

  /**
   * TestRetryReaderReadWithRetry and TestRetryReaderReadWithRetryIoUnexpectedEOF:
   * one temporary network error or unexpected EOF on the only byte, one
   * retry allowed. The first read succeeds through the retry with one
   * notified failure that is retried; the second read returns EOF.
   */
  method ReadWithRetry(logThisRun: bool, randomByte: byte, injected: Error)
    returns (n1: nat, err1: Option<Error>, notes: seq<Note>, n2: nat, err2: Option<Error>)
    requires injected.NetError? || injected == UnexpectedEOF
    ensures n1 == 1 && err1 == None
    ensures logThisRun ==>
      && |notes| == 1 && notes[0].willRetry && notes[0].failureCount == 1 && notes[0].lastError == injected
    ensures !logThisRun ==> notes == []
    ensures n2 == 0 && err2 == Some(EOF)
  {
    // the getter of the initial response positions the body at offset 0, where it already is
    var r := InjectingReader([randomByte], 0, 1, injected, Options(1, false, logThisRun));
    ghost var s := r.State();
    var data, err := r.Read(1);
    RetryWithinBudget(s, r.options, r.getter, 1, 1, injected, 0);
    assert Failures(0, 1, injected, 0, 1, r.options) == [Note(1, injected, 0, 1, true)];
    n1, err1, notes := |data|, err, r.notes;
    ghost var t := r.State();
    data, err := r.Read(1);
    CountZeroReadsNothing(t, r.options, r.getter, 1, 0);
    n2, err2 := |data|, err;
  }

  /**
   * TestRetryReaderReadNegativeNormalFail: two temporary network errors on
   * the only byte, one retry allowed. The read fails with the injected
   * error and nothing read, after two notified failures of which only the
   * first is retried.
   */
  method ReadNegativeNormalFail(randomByte: byte, injected: Error)
    returns (n: nat, err: Option<Error>, notes: seq<Note>)
    requires injected.NetError?
    ensures n == 0 && err == Some(injected)
    ensures |notes| == 2 && notes[0].willRetry && !notes[1].willRetry
    ensures notes[1].failureCount == 2 && notes[1].lastError == injected
  {
    var r := InjectingReader([randomByte], 0, 2, injected, Options(1, false, true));
    ghost var s := r.State();
    var data;
    data, err := r.Read(1);
    RetryBeyondBudget(s, r.options, r.getter, 1, 2, injected, 0);
    FailuresAt(0, 2, injected, 0, 1, r.options);
    n, notes := |data|, r.notes;
  }

  /**
   * TestRetryReaderReadCount0: an error is injected past the only byte. The
   * first read consumes the byte; the second finds the count used up and
   * returns EOF without reading, so the injection never fires.
   */
  method ReadCount0(randomByte: byte, injected: Error)
    returns (n1: nat, err1: Option<Error>, n2: nat, err2: Option<Error>)
    ensures n1 == 1 && err1 == None
    ensures n2 == 0 && err2 == Some(EOF)
  {
    var r := InjectingReader([randomByte], 1, 1, injected, Options(1, false, false));
    ghost var s := r.State();
    var data, err := r.Read(1);
    assert BodyRead(s.body, 1) == BodyStep([randomByte], None, s.body.(index := 1));
    n1, err1 := |data|, err;
    ghost var t := r.State();
    data, err := r.Read(1);
    CountZeroReadsNothing(t, r.options, r.getter, 1, 0);
    n2, err2 := |data|, err;
  }

  /**
   * TestRetryReaderReadNegativeNonRetriableError: an error that is neither
   * a network error nor an unexpected EOF nor an early close comes back
   * from the read as it is, although two retries are allowed.
   */
  method ReadNegativeNonRetriableError(randomByte: byte, message: string)
    returns (err: Option<Error>)
    requires !IsSuffix(ReadOnClosedBodyMessage, message)
    ensures err == Some(Other(message))
  {
    var r := InjectingReader([randomByte], 0, 1, Other(message), Options(2, false, false));
    ghost var s := r.State();
    var data;
    data, err := r.Read(1);
    NonRetriableReturnedVerbatim(s, r.options, r.getter, 1, 0, Other(message));
  }

  /**
   * TestRetryReaderReadWithForcedRetry: ten bytes read with io.ReadFull
   * from single-use bodies, the reader closed by the caller before read
   * number closeAt. With retry on early close the whole contents arrive
   * with one notified failure; with early close treated as an error the
   * read fails.
   */
  method ReadWithForcedRetry(enableRetryOnEarlyClose: bool, randBytes: seq<byte>, closeAt: nat)
    returns (n: nat, err: Option<Error>, output: seq<byte>, failureMethodNumCalls: nat)
    requires |randBytes| == 10 && closeAt < 9
    ensures enableRetryOnEarlyClose ==> n == 10 && err == None && output == randBytes && failureMethodNumCalls == 1
    ensures !enableRetryOnEarlyClose ==> err != None
  {
    var body := new PerByteReader.SingleUse(randBytes);
    body.currentByteIndex := 0;
    var r := new RetryReader(body, true, 0, 10, Options(2, !enableRetryOnEarlyClose, true), Reopen(randBytes));
    ghost var s := r.State();
    assert s == Forced(randBytes, 0, []);
    assert randBytes[..0] == [];
    output, err := ReadFull(r, 10, Some(closeAt));
    if enableRetryOnEarlyClose {
      ForcedRunRetried(randBytes, 0, [], closeAt);
      ForcedRunRetriedNotes(randBytes, 0, [], closeAt);
    } else {
      ForcedRunStopped(randBytes, 0, [], closeAt);
    }
    n, failureMethodNumCalls := |output|, |r.notes|;
  }
}
