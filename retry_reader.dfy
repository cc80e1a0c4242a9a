/**
 * The resumable reader of the Data Lake client and the fake response body
 * its tests drive it with.
 *
 * The fake body (perByteReader) hands out one byte per Read, can be armed
 * to fail a fixed number of times at one index, and, when made single-use,
 * answers a read after Close with the closed-body error. The retry reader
 * reads from the current response body; a failed read closes it, drops the
 * response, reports the failure to an optional callback and, when the
 * error is retriable and the retry budget allows, asks the getter for a new
 * response at the current offset and tries again. A bounded reader whose
 * remaining count reached zero answers EOF without touching the body.
 *
 * The getters of the tests either reposition the one shared body at the
 * requested offset or open a fresh single-use body at it; a getter that
 * fails is a third case. The notification callback is a log of the
 * failures it was told about.
 */
module ResumableRead {

  import opened Wrappers

  newtype byte = x: int | 0 <= x < 256

  /** The errors the model distinguishes: io.EOF, io.ErrUnexpectedEOF, a net.Error, the closed-body error, any other. */
  datatype Error = EOF | UnexpectedEOF | NetError | ClosedBody | Other(message: string)

  const ReadOnClosedBodyMessage: string := "read on closed response body"

  /** The injected error of a body that has not been armed; it is never returned. */
  const NoInjection: Error := Other("")

  /** The text error.Error() gives. */
  function Message(e: Error): string
  {
    match e
    case EOF => "EOF"
    case UnexpectedEOF => "unexpected EOF"
    case NetError => "lookup : "
    case ClosedBody => ReadOnClosedBodyMessage
    case Other(m) => m
  }

  predicate IsSuffix(suffix: string, s: string)
  {
    |suffix| <= |s| && s[|s| - |suffix|..] == suffix
  }

  /**
   * A failed read is retried for a net.Error, for io.ErrUnexpectedEOF, and
   * for an error whose message ends in the closed-body message unless early
   * closes are to be treated as errors.
   */
  predicate Retriable(e: Error, treatEarlyCloseAsError: bool)
  {
    || e.NetError?
    || e == UnexpectedEOF
    || (!treatEarlyCloseAsError && IsSuffix(ReadOnClosedBodyMessage, Message(e)))
  }

  // ---------------------------------------------------------------------
  // The fake body, as a value

  /**
   * The fields of a perByteReader: its bytes, the index of the next one,
   * the injection settings, whether it is single-use (has a close channel)
   * and how many closes are waiting in that channel.
   */
  datatype Body = Body(bytes: seq<byte>, index: nat, injectOn: bool, injectIndex: int, injectTimes: int,
                       injected: Error, singleUse: bool, pendingCloses: nat)

  /** What one Read of the body gives, and the body after it. */
  datatype BodyStep = BodyStep(data: seq<byte>, err: Option<Error>, body: Body)

  /** newPerByteReader over the given (random) bytes. */
  function NewBody(bytes: seq<byte>): Body
  {
    Body(bytes, 0, false, 0, 0, NoInjection, false, 0)
  }

  /** newSingleUsePerByteReader over the given bytes. */
  function SingleUseBody(bytes: seq<byte>): Body
  {
    Body(bytes, 0, false, 0, 0, NoInjection, true, 0)
  }

  predicate Armed(b: Body)
  {
    b.injectOn && b.injectIndex == b.index && b.injectTimes > 0
  }

  /**
   * perByteReader.Read into a buffer of bufLen bytes: the injected error
   * while armed at the current index, else one byte (none for an empty
   * buffer) followed by the closed-body error if a close is waiting, else
   * EOF once every byte has been handed out.
   */
  function BodyRead(b: Body, bufLen: nat): BodyStep
  {
    if Armed(b) then BodyStep([], Some(b.injected), b.(injectTimes := b.injectTimes - 1))
    else if b.index < |b.bytes| then
      var n := if bufLen == 0 then 0 else 1;
      var moved := b.(index := b.index + n);
      if b.pendingCloses > 0 then BodyStep(b.bytes[b.index..b.index + n], Some(ClosedBody), moved.(pendingCloses := b.pendingCloses - 1))
      else BodyStep(b.bytes[b.index..b.index + n], None, moved)
    else BodyStep([], Some(EOF), b)
  }

  /** perByteReader.Close: a single-use body queues a close; any other ignores it. */
  function CloseBody(b: Body): Body
  {
    if b.singleUse then b.(pendingCloses := b.pendingCloses + 1) else b
  }

  /** n copies of x. */
  function Repeat<T>(x: T, n: nat): (r: seq<T>)
    ensures |r| == n && forall i :: 0 <= i < n ==> r[i] == x
    decreases n
  {
    if n == 0 then [] else [x] + Repeat(x, n - 1)
  }

  /** n reads in a row: the errors they return, and the body after them. */
  function ReadRepeatedly(b: Body, bufLen: nat, n: nat): (seq<Option<Error>>, Body)
    decreases n
  {
    if n == 0 then ([], b)
    else
      var step := BodyRead(b, bufLen);
      var (rest, last) := ReadRepeatedly(step.body, bufLen, n - 1);
      ([step.err] + rest, last)
  }

  /** A body read hands out at most one byte, never more than the buffer holds, and one when it succeeds. */
  lemma BodyReadSize(b: Body, bufLen: nat)
    ensures |BodyRead(b, bufLen).data| <= 1 && |BodyRead(b, bufLen).data| <= bufLen
    ensures bufLen > 0 && BodyRead(b, bufLen).err == None ==> |BodyRead(b, bufLen).data| == 1
  {
  }

  /** A read that is not failed on purpose hands out exactly the byte at the index and moves past it. */
  lemma BodyDeliversByte(b: Body, bufLen: nat)
    requires !Armed(b) && b.index < |b.bytes| && b.pendingCloses == 0 && bufLen > 0
    ensures BodyRead(b, bufLen) == BodyStep([b.bytes[b.index]], None, b.(index := b.index + 1))
  {
  }

  /** Once every byte is out, a read that is not failed on purpose gives (0, EOF) and changes nothing. */
  lemma BodyEndsWithEOF(b: Body, bufLen: nat)
    requires !Armed(b) && b.index >= |b.bytes|
    ensures BodyRead(b, bufLen) == BodyStep([], Some(EOF), b)
  {
  }

  /**
   * Armed at the current index with k failures to go, the body fails exactly
   * k reads in a row with the injected error, without moving, and is then
   * disarmed.
   */
  lemma {:induction false} InjectionFailsExactly(b: Body, bufLen: nat, k: nat)
    requires b.injectOn && b.injectIndex == b.index && b.injectTimes == k
    ensures ReadRepeatedly(b, bufLen, k) == (Repeat(Some(b.injected), k), b.(injectTimes := 0))
    ensures !Armed(ReadRepeatedly(b, bufLen, k).1)
    decreases k
  {
    if k > 0 {
      var next := b.(injectTimes := k - 1);
      assert BodyRead(b, bufLen) == BodyStep([], Some(b.injected), next);
      InjectionFailsExactly(next, bufLen, k - 1);
      var (rest, last) := ReadRepeatedly(next, bufLen, k - 1);
      assert ReadRepeatedly(b, bufLen, k) == ([Some(b.injected)] + rest, last);
    }
  }

  // ---------------------------------------------------------------------
  // The retry reader, as a value

  /** RetryReaderOptions: MaxRetryRequests, TreatEarlyCloseAsError, and whether NotifyFailedRead is set. */
  datatype Options = Options(maxRetryRequests: int, treatEarlyCloseAsError: bool, notify: bool)

  /** The getter: reposition the shared body, open a fresh single-use body, or fail with an error. */
  datatype Getter = Reposition | Reopen(contents: seq<byte>) | Refuse(err: Error)

  /** One call of NotifyFailedRead. */
  datatype Note = Note(failureCount: int, lastError: Error, offset: int, count: int, willRetry: bool)

  /**
   * The reader's fields: the current body and whether there is a response,
   * the offset and remaining count of the getter info, whether a count was
   * given, and the failures notified so far.
   */
  datatype ReaderState = ReaderState(body: Body, hasResponse: bool, offset: nat, count: int,
                                     countWasBounded: bool, notes: seq<Note>)

  datatype ReadOutcome = ReadOutcome(data: seq<byte>, err: Option<Error>, state: ReaderState)

  /** The body a successful getter call reads from: the requested offset is where it starts. */
  function Connect(s: ReaderState, g: Getter): Body
    requires !g.Refuse?
  {
    match g
    case Reposition => s.body.(index := s.offset)
    case Reopen(contents) => SingleUseBody(contents).(index := s.offset)
  }

  /** CountToEnd is 0: a reader built with count 0 reads to the end and never counts down. */
  predicate Exhausted(s: ReaderState)
  {
    s.countWasBounded && s.count == 0
  }

  /** The state after a read that returned data or EOF: the offset and a bounded count move on. */
  function Advance(s: ReaderState, step: BodyStep): ReaderState
  {
    s.(body := step.body, hasResponse := true, offset := s.offset + |step.data|,
       count := if s.count != 0 then s.count - |step.data| else s.count)
  }

  /** The retry decision for the failure of try number try (zero-based). */
  predicate WillRetry(e: Error, o: Options, try: nat)
  {
    Retriable(e, o.treatEarlyCloseAsError) && try < o.maxRetryRequests
  }

  /** The state after a failed read: the body closed, the response dropped, the failure notified. */
  function Failed(s: ReaderState, step: BodyStep, e: Error, o: Options, try: nat): ReaderState
  {
    s.(body := CloseBody(step.body), hasResponse := false,
       notes := if o.notify then s.notes + [Note(try + 1, e, s.offset, s.count, WillRetry(e, o, try))] else s.notes)
  }

  /** The body read by the current try: the response's, or the one the getter gives. */
  function Current(s: ReaderState, g: Getter): Body
    requires s.hasResponse || !g.Refuse?
  {
    if s.hasResponse then s.body else Connect(s, g)
  }

  function RetryMeasure(o: Options, try: nat): nat
  {
    if o.maxRetryRequests > try then o.maxRetryRequests - try else 0
  }

  /** One try of RetryReader.Read: its outcome, and whether the loop goes round again. */
  datatype Attempted = Attempted(outcome: ReadOutcome, retry: bool)

  /**
   * Try number try (zero-based) of RetryReader.Read: EOF at once when the
   * count is used up; the getter's error when there is no response and the
   * getter fails; else a read of the current body, which ends the call on
   * data or EOF and otherwise closes the body, drops the response, notifies
   * the failure and goes round again if the error is to be retried.
   */
  function Attempt(s: ReaderState, o: Options, g: Getter, bufLen: nat, try: nat): (a: Attempted)
    ensures a.retry ==> try < o.maxRetryRequests
  {
    if Exhausted(s) then Attempted(ReadOutcome([], Some(EOF), s), false)
    else if !s.hasResponse && g.Refuse? then Attempted(ReadOutcome([], Some(g.err), s), false)
    else Settle(s, BodyRead(Current(s, g), bufLen), o, try)
  }

  /** The end of a try once the body has been read: done on data or EOF, otherwise failed. */
  function Settle(s: ReaderState, step: BodyStep, o: Options, try: nat): Attempted
  {
    if step.err == None || step.err == Some(EOF) then Attempted(ReadOutcome(step.data, step.err, Advance(s, step)), false)
    else Attempted(ReadOutcome(step.data, step.err, Failed(s, step, step.err.value, o, try)), WillRetry(step.err.value, o, try))
  }

  /** How a try settles does not depend on the response body or flag it started from. */
  lemma SettleIgnoresResponse(s: ReaderState, t: ReaderState, step: BodyStep, o: Options, try: nat)
    requires t.offset == s.offset && t.count == s.count && t.countWasBounded == s.countWasBounded && t.notes == s.notes
    ensures Settle(t, step, o, try) == Settle(s, step, o, try)
  {
  }

  /** RetryReader.Read from try number try on, for a buffer of bufLen bytes. */
  function ReadLoop(s: ReaderState, o: Options, g: Getter, bufLen: nat, try: nat): ReadOutcome
    decreases RetryMeasure(o, try)
  {
    var a := Attempt(s, o, g, bufLen, try);
    if a.retry then ReadLoop(a.outcome.state, o, g, bufLen, try + 1) else a.outcome
  }

  /** RetryReader.Close: the current response body, if any, is closed. */
  function CloseReader(s: ReaderState): ReaderState
  {
    if s.hasResponse then s.(body := CloseBody(s.body)) else s
  }

  /**
   * A read hands out at most one byte and no more than the buffer holds; one
   * that succeeds into a non-empty buffer hands out exactly one.
   */
  lemma {:induction false} ReadAtMostOne(s: ReaderState, o: Options, g: Getter, bufLen: nat, try: nat)
    ensures |ReadLoop(s, o, g, bufLen, try).data| <= 1
    ensures |ReadLoop(s, o, g, bufLen, try).data| <= bufLen
    ensures bufLen > 0 && ReadLoop(s, o, g, bufLen, try).err == None ==> |ReadLoop(s, o, g, bufLen, try).data| == 1
    decreases RetryMeasure(o, try)
  {
    var a := Attempt(s, o, g, bufLen, try);
    if !Exhausted(s) && (s.hasResponse || !g.Refuse?) {
      BodyReadSize(Current(s, g), bufLen);
    }
    if a.retry {
      ReadAtMostOne(a.outcome.state, o, g, bufLen, try + 1);
    }
  }

  /** With the remaining count at zero a bounded reader answers (0, EOF) and touches nothing. */
  lemma CountZeroReadsNothing(s: ReaderState, o: Options, g: Getter, bufLen: nat, try: nat)
    requires s.countWasBounded && s.count == 0
    ensures ReadLoop(s, o, g, bufLen, try) == ReadOutcome([], Some(EOF), s)
  {
  }

  /**
   * An error that is not retriable comes back as it is, with the data read
   * alongside it, after one notification that says it will not be retried;
   * the offset does not move.
   */
  lemma NonRetriableReturnedVerbatim(s: ReaderState, o: Options, g: Getter, bufLen: nat, try: nat, e: Error)
    requires !Exhausted(s) && s.hasResponse
    requires BodyRead(s.body, bufLen).err == Some(e) && e != EOF
    requires !Retriable(e, o.treatEarlyCloseAsError)
    ensures var r := ReadLoop(s, o, g, bufLen, try);
      && r.err == Some(e)
      && r.data == BodyRead(s.body, bufLen).data
      && r.state.offset == s.offset
      && !r.state.hasResponse
      && r.state.notes == s.notes + (if o.notify then [Note(try + 1, e, s.offset, s.count, false)] else [])
  {
  }

  /** The notes of n failures in a row at one offset, from try number try on. */
  function Failures(try: nat, n: nat, e: Error, offset: int, count: int, o: Options): (r: seq<Note>)
    ensures |r| == n
    decreases n
  {
    if n == 0 then [] else [Note(try + 1, e, offset, count, try < o.maxRetryRequests)] + Failures(try + 1, n - 1, e, offset, count, o)
  }

  /**
   * The reader is about to read at its offset from a body armed there with k
   * injected failures of a retriable error; the getter repositions the body.
   */
  ghost predicate RetrySetup(s: ReaderState, o: Options, g: Getter, bufLen: nat, k: nat, e: Error)
  {
    && g == Reposition && bufLen > 0 && !Exhausted(s)
    && (s.hasResponse ==> s.body.index == s.offset)
    && s.offset < |s.body.bytes| && s.body.pendingCloses == 0 && !s.body.singleUse
    && s.body.injectOn && s.body.injectIndex == s.offset && s.body.injectTimes == k
    && s.body.injected == e && (e.NetError? || e == UnexpectedEOF)
  }

  /**
   * The reader once try number try has failed with the injected error: the
   * body positioned at the offset with one failure fewer to go, the
   * response dropped, and the failure notified.
   */
  function AfterFailure(s: ReaderState, o: Options, e: Error, try: nat): ReaderState
  {
    s.(body := s.body.(index := s.offset, injectTimes := s.body.injectTimes - 1), hasResponse := false,
       notes := if o.notify then s.notes + [Note(try + 1, e, s.offset, s.count, try < o.maxRetryRequests)] else s.notes)
  }

  /** The reader once the byte at its offset has been read. */
  function AfterByte(s: ReaderState): ReaderState
  {
    s.(body := s.body.(index := s.offset + 1), hasResponse := true, offset := s.offset + 1,
       count := if s.count != 0 then s.count - 1 else s.count)
  }

  /**
   * The retry run the tests expect from try number try with k injected
   * failures to go: one failure per try while failures remain, retried
   * while the budget lasts; then the byte at the offset, or the injected
   * error once the budget is spent.
   */
  function RetryRun(s: ReaderState, o: Options, e: Error, k: nat, try: nat): ReadOutcome
    requires s.offset < |s.body.bytes|
    decreases k
  {
    if k == 0 then ReadOutcome([s.body.bytes[s.offset]], None, AfterByte(s))
    else if try < o.maxRetryRequests then RetryRun(AfterFailure(s, o, e, try), o, e, k - 1, try + 1)
    else ReadOutcome([], Some(e), AfterFailure(s, o, e, try))
  }

  /** A try in the retry setup with failures to go fails with the injected error, and the setup holds with one fewer. */
  lemma RetryFailingTry(s: ReaderState, o: Options, g: Getter, bufLen: nat, k: nat, e: Error, try: nat)
    requires RetrySetup(s, o, g, bufLen, k, e) && k > 0
    ensures Attempt(s, o, g, bufLen, try)
      == Attempted(ReadOutcome([], Some(e), AfterFailure(s, o, e, try)), try < o.maxRetryRequests)
    ensures RetrySetup(AfterFailure(s, o, e, try), o, g, bufLen, k - 1, e)
  {
    var b := Current(s, g);
    assert b == s.body.(index := s.offset);
    assert BodyRead(b, bufLen) == BodyStep([], Some(e), b.(injectTimes := k - 1));
  }

  /** A try in the retry setup with no failures to go hands out the byte at the offset. */
  lemma RetrySucceedingTry(s: ReaderState, o: Options, g: Getter, bufLen: nat, e: Error, try: nat)
    requires RetrySetup(s, o, g, bufLen, 0, e)
    ensures Attempt(s, o, g, bufLen, try) == Attempted(ReadOutcome([s.body.bytes[s.offset]], None, AfterByte(s)), false)
  {
    var b := Current(s, g);
    assert b == s.body.(index := s.offset);
    BodyDeliversByte(b, bufLen);
  }

  /** In the retry setup, RetryReader.Read from try number try is the expected retry run. */
  lemma {:induction false} RetryLoopIsRun(s: ReaderState, o: Options, g: Getter, bufLen: nat, k: nat, e: Error, try: nat)
    requires RetrySetup(s, o, g, bufLen, k, e)
    ensures ReadLoop(s, o, g, bufLen, try) == RetryRun(s, o, e, k, try)
    decreases k
  {
    if k == 0 {
      RetrySucceedingTry(s, o, g, bufLen, e, try);
    } else {
      RetryFailingTry(s, o, g, bufLen, k, e, try);
      if try < o.maxRetryRequests {
        RetryLoopIsRun(AfterFailure(s, o, e, try), o, g, bufLen, k - 1, e, try + 1);
      }
    }
  }

  /**
   * Notification i of a run of n failures from try number try reports
   * failure count try + i + 1 and is retried exactly while tries remain.
   */
  lemma {:induction false} FailuresAt(try: nat, n: nat, e: Error, offset: int, count: int, o: Options)
    ensures forall i :: 0 <= i < n ==>
      Failures(try, n, e, offset, count, o)[i] == Note(try + i + 1, e, offset, count, try + i < o.maxRetryRequests)
    decreases n
  {
    if n > 0 {
      FailuresAt(try + 1, n - 1, e, offset, count, o);
      var r := Failures(try, n, e, offset, count, o);
      var rest := Failures(try + 1, n - 1, e, offset, count, o);
      assert r == [Note(try + 1, e, offset, count, try < o.maxRetryRequests)] + rest;
      forall i | 0 < i < n
        ensures r[i] == Note(try + i + 1, e, offset, count, try + i < o.maxRetryRequests)
      {
        assert r[i] == rest[i - 1];
      }
    }
  }

  /** One more failure as the head of the notified failures. */
  lemma FailuresCons(try: nat, n: nat, e: Error, offset: int, count: int, o: Options)
    requires n > 0
    ensures Failures(try, n, e, offset, count, o)
      == [Note(try + 1, e, offset, count, try < o.maxRetryRequests)] + Failures(try + 1, n - 1, e, offset, count, o)
  {
  }

  /**
   * The expected retry run, when the failures fit in what is left of the
   * budget: the byte at the offset comes back and the read moves past it.
   */
  lemma {:induction false} RunWithinBudget(s: ReaderState, o: Options, e: Error, k: nat, try: nat)
    requires s.offset < |s.body.bytes| && try + k <= o.maxRetryRequests
    ensures var r := RetryRun(s, o, e, k, try);
      && r.data == [s.body.bytes[s.offset]] && r.err == None && r.state.offset == s.offset + 1
      && r.state.count == (if s.count != 0 then s.count - 1 else 0) && r.state.countWasBounded == s.countWasBounded
    decreases k
  {
    if k > 0 {
      RunWithinBudget(AfterFailure(s, o, e, try), o, e, k - 1, try + 1);
    }
  }

  /** With notification off, the expected retry run notifies nothing, whatever the budget. */
  lemma {:induction false} RunQuiet(s: ReaderState, o: Options, e: Error, k: nat, try: nat)
    requires s.offset < |s.body.bytes| && !o.notify
    ensures RetryRun(s, o, e, k, try).state.notes == s.notes
    decreases k
  {
    if k > 0 && try < o.maxRetryRequests {
      RunQuiet(AfterFailure(s, o, e, try), o, e, k - 1, try + 1);
    }
  }

  /**
   * The notifications of the expected retry run, when the failures fit in
   * what is left of the budget: one per failure, with failure counts
   * try + 1, try + 2, ... and each marked as retried.
   */
  lemma {:induction false} RunWithinBudgetNotes(s: ReaderState, o: Options, e: Error, k: nat, try: nat)
    requires s.offset < |s.body.bytes| && try + k <= o.maxRetryRequests && o.notify
    ensures RetryRun(s, o, e, k, try).state.notes == s.notes + Failures(try, k, e, s.offset, s.count, o)
    decreases k
  {
    if k == 0 {
      assert s.notes + [] == s.notes;
    } else {
      var f := AfterFailure(s, o, e, try);
      RunWithinBudgetNotes(f, o, e, k - 1, try + 1);
      FailuresCons(try, k, e, s.offset, s.count, o);
      var note := Note(try + 1, e, s.offset, s.count, try < o.maxRetryRequests);
      var rest := Failures(try + 1, k - 1, e, s.offset, s.count, o);
      NoteThenRest(s.notes, note, rest);
    }
  }

  /**
   * The expected retry run, when the failures outnumber what is left of
   * the budget: the injected error with nothing read and the offset kept.
   */
  lemma {:induction false} RunBeyondBudget(s: ReaderState, o: Options, e: Error, k: nat, try: nat)
    requires s.offset < |s.body.bytes| && try <= o.maxRetryRequests < try + k
    ensures var r := RetryRun(s, o, e, k, try);
      r.data == [] && r.err == Some(e) && r.state.offset == s.offset
    decreases k
  {
    if try < o.maxRetryRequests {
      RunBeyondBudget(AfterFailure(s, o, e, try), o, e, k - 1, try + 1);
    }
  }

  /**
   * The notifications of the expected retry run, when the failures
   * outnumber what is left of the budget: one failure more than the budget
   * allows, the last one marked as not retried.
   */
  lemma {:induction false} RunBeyondBudgetNotes(s: ReaderState, o: Options, e: Error, k: nat, try: nat)
    requires s.offset < |s.body.bytes| && try <= o.maxRetryRequests < try + k && o.notify
    ensures RetryRun(s, o, e, k, try).state.notes
      == s.notes + Failures(try, o.maxRetryRequests - try + 1, e, s.offset, s.count, o)
    decreases k
  {
    var f := AfterFailure(s, o, e, try);
    var n := o.maxRetryRequests - try + 1;
    FailuresCons(try, n, e, s.offset, s.count, o);
    var note := Note(try + 1, e, s.offset, s.count, try < o.maxRetryRequests);
    var rest := Failures(try + 1, n - 1, e, s.offset, s.count, o);
    if try < o.maxRetryRequests {
      RunBeyondBudgetNotes(f, o, e, k - 1, try + 1);
      NoteThenRest(s.notes, note, rest);
    } else {
      assert rest == [];
      NoteThenRest(s.notes, note, rest);
    }
  }

  lemma NoteThenRest(notes: seq<Note>, note: Note, rest: seq<Note>)
    ensures (notes + [note]) + rest == notes + ([note] + rest)
    ensures rest == [] ==> notes + [note] == notes + ([note] + rest)
  {
  }

  /**
   * The retry budget, when the injected failures fit in what is left of it:
   * each failure is notified with failure counts try + 1, try + 2, ..., and
   * the read then resumes at the offset and hands out the byte there.
   */
  lemma RetryWithinBudget(s: ReaderState, o: Options, g: Getter, bufLen: nat, k: nat, e: Error, try: nat)
    requires RetrySetup(s, o, g, bufLen, k, e) && try + k <= o.maxRetryRequests
    ensures var r := ReadLoop(s, o, g, bufLen, try);
      && r.data == [s.body.bytes[s.offset]] && r.err == None && r.state.offset == s.offset + 1
      && r.state.count == (if s.count != 0 then s.count - 1 else 0) && r.state.countWasBounded == s.countWasBounded
      && r.state.notes == s.notes + (if o.notify then Failures(try, k, e, s.offset, s.count, o) else [])
  {
    RetryLoopIsRun(s, o, g, bufLen, k, e, try);
    RunWithinBudget(s, o, e, k, try);
    if o.notify {
      RunWithinBudgetNotes(s, o, e, k, try);
    } else {
      RunQuiet(s, o, e, k, try);
    }
  }

  /**
   * The retry budget, when the injected failures outnumber what is left of
   * it: the injected error itself comes back, nothing is read, and one
   * failure more than the budget allows is notified, the last one saying it
   * will not be retried.
   */
  lemma RetryBeyondBudget(s: ReaderState, o: Options, g: Getter, bufLen: nat, k: nat, e: Error, try: nat)
    requires RetrySetup(s, o, g, bufLen, k, e) && try <= o.maxRetryRequests < try + k
    ensures var r := ReadLoop(s, o, g, bufLen, try);
      && r.data == [] && r.err == Some(e) && r.state.offset == s.offset
      && r.state.notes == s.notes + (if o.notify then Failures(try, o.maxRetryRequests - try + 1, e, s.offset, s.count, o) else [])
  {
    RetryLoopIsRun(s, o, g, bufLen, k, e, try);
    RunBeyondBudget(s, o, e, k, try);
    if o.notify {
      RunBeyondBudgetNotes(s, o, e, k, try);
    } else {
      RunQuiet(s, o, e, k, try);
    }
  }

  // ---------------------------------------------------------------------
  // io.ReadFull over the retry reader

  datatype FullOutcome = FullOutcome(output: seq<byte>, err: Option<Error>, state: ReaderState)

  /** The error io.ReadAtLeast reports once its loop stops on an error with n bytes read. */
  function FullError(n: int, size: nat, err: Option<Error>): Option<Error>
  {
    if n >= size then None
    else if n > 0 && err == Some(EOF) then Some(UnexpectedEOF)
    else err
  }

  /**
   * io.ReadFull for a buffer of size bytes, got of them already read in
   * calls reads. The caller closes the reader just before read number
   * closeAt, if that is given.
   */
  function ReadFullFrom(s: ReaderState, o: Options, g: Getter, size: nat, got: seq<byte>, calls: nat,
                        closeAt: Option<nat>): FullOutcome
    requires |got| <= size
    decreases size - |got|
  {
    if |got| == size then FullOutcome(got, None, s)
    else
      var s0 := if closeAt == Some(calls) then CloseReader(s) else s;
      var r := ReadLoop(s0, o, g, size - |got|, 0);
      ReadAtMostOne(s0, o, g, size - |got|, 0);
      if r.err.Some? then FullOutcome(got + r.data, FullError(|got + r.data|, size, r.err), r.state)
      else ReadFullFrom(r.state, o, g, size, got + r.data, calls + 1, closeAt)
  }

  /**
   * The state of the forced-retry test between reads: a fresh single-use
   * body over contents positioned at the offset j, as the getter opened it,
   * and j bytes read.
   */
  function Forced(contents: seq<byte>, j: nat, notes: seq<Note>): ReaderState
  {
    ReaderState(SingleUseBody(contents).(index := j), true, j, |contents| - j, true, notes)
  }

  /** The options of the forced-retry test: two retries, notification on. */
  function ForcedOptions(treat: bool): Options
  {
    Options(2, treat, true)
  }

  /** A read of the forced-retry test with nothing closed: the next byte, and the body moves on. */
  lemma ForcedPlainRead(contents: seq<byte>, j: nat, notes: seq<Note>, treat: bool, bufLen: nat)
    requires j < |contents| && bufLen > 0
    ensures ReadLoop(Forced(contents, j, notes), ForcedOptions(treat), Reopen(contents), bufLen, 0)
      == ReadOutcome([contents[j]], None, Forced(contents, j + 1, notes))
  {
    var s := Forced(contents, j, notes);
    var step := BodyRead(s.body, bufLen);
    assert step == BodyStep([contents[j]], None, s.body.(index := j + 1));
  }

  /** The first try after the caller's Close: the byte with the closed-body error, and the response dropped. */
  lemma ClosedAttempt(contents: seq<byte>, j: nat, notes: seq<Note>, treat: bool, bufLen: nat)
    requires j < |contents| && bufLen > 0
    ensures var a := Attempt(CloseReader(Forced(contents, j, notes)), ForcedOptions(treat), Reopen(contents), bufLen, 0);
      && a.outcome.data == [contents[j]] && a.outcome.err == Some(ClosedBody) && a.retry == !treat
      && a.outcome.state.notes == notes + [Note(1, ClosedBody, j, |contents| - j, !treat)]
      && !a.outcome.state.hasResponse && a.outcome.state.offset == j && a.outcome.state.count == |contents| - j
      && a.outcome.state.countWasBounded
  {
    var o := ForcedOptions(treat);
    var s := ReaderState(Body(contents, j, false, 0, 0, NoInjection, true, 1), true, j, |contents| - j, true, notes);
    assert CloseReader(Forced(contents, j, notes)) == s;
    var step := BodyRead(s.body, bufLen);
    assert step.data == [contents[j]] && step.err == Some(ClosedBody);
    assert Attempt(s, o, Reopen(contents), bufLen, 0) == Settle(s, step, o, 0);
    assert IsSuffix(ReadOnClosedBodyMessage, Message(ClosedBody));
  }

  /** The retry after a dropped response: the getter reopens the contents at the offset and the byte arrives. */
  lemma ReopenAttempt(s: ReaderState, contents: seq<byte>, treat: bool, bufLen: nat)
    requires !s.hasResponse && s.offset < |contents| && s.count == |contents| - s.offset && s.countWasBounded && bufLen > 0
    ensures Attempt(s, ForcedOptions(treat), Reopen(contents), bufLen, 1)
      == Attempted(ReadOutcome([contents[s.offset]], None, Forced(contents, s.offset + 1, s.notes)), false)
  {
    var b := Connect(s, Reopen(contents));
    assert BodyRead(b, bufLen) == BodyStep([contents[s.offset]], None, b.(index := s.offset + 1));
  }

  /**
   * The read just after the caller's Close: the byte comes with the closed-
   * body error. When early closes may be retried, one notification and a
   * fresh body at the same offset deliver the byte without error; otherwise
   * the error comes back with the byte.
   */
  lemma ForcedClosedRead(contents: seq<byte>, j: nat, notes: seq<Note>, treat: bool, bufLen: nat)
    requires j < |contents| && bufLen > 0
    ensures var r := ReadLoop(CloseReader(Forced(contents, j, notes)), ForcedOptions(treat), Reopen(contents), bufLen, 0);
      && r.data == [contents[j]]
      && (!treat ==> r.err == None && r.state == Forced(contents, j + 1, notes + [Note(1, ClosedBody, j, |contents| - j, true)]))
      && (treat ==> r.err == Some(ClosedBody) && r.state.notes == notes + [Note(1, ClosedBody, j, |contents| - j, false)])
  {
    var o := ForcedOptions(treat);
    var g := Reopen(contents);
    var s := CloseReader(Forced(contents, j, notes));
    ClosedAttempt(contents, j, notes, treat, bufLen);
    if !treat {
      var f := Attempt(s, o, g, bufLen, 0).outcome.state;
      ReopenAttempt(f, contents, treat, bufLen);
      assert ReadLoop(s, o, g, bufLen, 0) == ReadLoop(f, o, g, bufLen, 1);
    }
  }

  /** A read of the forced-retry run with no close before it: one byte more, and the run goes on. */
  lemma ForcedPlainStep(contents: seq<byte>, j: nat, notes: seq<Note>, treat: bool, closeAt: nat)
    requires j < |contents| && closeAt != j
    ensures ReadFullFrom(Forced(contents, j, notes), ForcedOptions(treat), Reopen(contents), |contents|, contents[..j], j, Some(closeAt))
      == ReadFullFrom(Forced(contents, j + 1, notes), ForcedOptions(treat), Reopen(contents), |contents|, contents[..j + 1], j + 1, Some(closeAt))
  {
    ForcedPlainRead(contents, j, notes, treat, |contents| - j);
    assert contents[..j] + [contents[j]] == contents[..j + 1];
  }

  /** The read after the close, when early closes are retried: one byte more, one notification, and the run goes on. */
  lemma ForcedRetriedStep(contents: seq<byte>, j: nat, notes: seq<Note>)
    requires j < |contents|
    ensures ReadFullFrom(Forced(contents, j, notes), ForcedOptions(false), Reopen(contents), |contents|, contents[..j], j, Some(j))
      == ReadFullFrom(Forced(contents, j + 1, notes + [Note(1, ClosedBody, j, |contents| - j, true)]), ForcedOptions(false),
                      Reopen(contents), |contents|, contents[..j + 1], j + 1, Some(j))
  {
    ForcedClosedRead(contents, j, notes, false, |contents| - j);
    assert contents[..j] + [contents[j]] == contents[..j + 1];
  }

  /** The read after the close, when early closes are errors: the run ends with the byte and the closed-body error, unless the byte was the last. */
  lemma ForcedStoppedStep(contents: seq<byte>, j: nat, notes: seq<Note>)
    requires j < |contents|
    ensures var r := ReadFullFrom(Forced(contents, j, notes), ForcedOptions(true), Reopen(contents), |contents|, contents[..j], j, Some(j));
      && r.output == contents[..j + 1]
      && r.err == (if j + 1 < |contents| then Some(ClosedBody) else None)
  {
    ForcedClosedRead(contents, j, notes, true, |contents| - j);
    assert contents[..j] + [contents[j]] == contents[..j + 1];
  }

  /** With every byte read the run stops at once with the whole contents. */
  lemma ForcedRunDone(contents: seq<byte>, notes: seq<Note>, o: Options, closeAt: nat)
    ensures var r := ReadFullFrom(Forced(contents, |contents|, notes), o, Reopen(contents), |contents|,
                                  contents[..|contents|], |contents|, Some(closeAt));
      r.output == contents && r.err == None && r.state.notes == notes
  {
    assert contents[..|contents|] == contents;
  }

  /**
   * The forced-retry run from j bytes read, with the close due before read
   * number closeAt, when early closes may be retried: the whole contents
   * arrive without error.
   */
  lemma {:induction false} ForcedRunRetried(contents: seq<byte>, j: nat, notes: seq<Note>, closeAt: nat)
    requires j <= |contents|
    ensures var r := ReadFullFrom(Forced(contents, j, notes), ForcedOptions(false), Reopen(contents), |contents|,
                                  contents[..j], j, Some(closeAt));
      r.output == contents && r.err == None
    decreases |contents| - j
  {
    if j < |contents| {
      if closeAt == j {
        ForcedRetriedStep(contents, j, notes);
        ForcedRunRetried(contents, j + 1, notes + [Note(1, ClosedBody, j, |contents| - j, true)], closeAt);
      } else {
        ForcedPlainStep(contents, j, notes, false, closeAt);
        ForcedRunRetried(contents, j + 1, notes, closeAt);
      }
    } else {
      ForcedRunDone(contents, notes, ForcedOptions(false), closeAt);
    }
  }

  /**
   * The notifications of that run: a close that falls within the run costs
   * exactly one notification, and no other read is retried.
   */
  lemma {:induction false} ForcedRunRetriedNotes(contents: seq<byte>, j: nat, notes: seq<Note>, closeAt: nat)
    requires j <= closeAt < |contents|
    ensures ReadFullFrom(Forced(contents, j, notes), ForcedOptions(false), Reopen(contents), |contents|,
                         contents[..j], j, Some(closeAt)).state.notes
      == notes + [Note(1, ClosedBody, closeAt, |contents| - closeAt, true)]
    decreases |contents| - j
  {
    if closeAt == j {
      ForcedRunQuiet(contents, j + 1, notes + [Note(1, ClosedBody, j, |contents| - j, true)], closeAt);
      ForcedRetriedNotes(contents, j, notes);
    } else {
      ForcedPlainStep(contents, j, notes, false, closeAt);
      ForcedRunRetriedNotes(contents, j + 1, notes, closeAt);
    }
  }

  /** With no close within the run, the retried forced run notifies nothing. */
  lemma {:induction false} ForcedRunQuiet(contents: seq<byte>, j: nat, notes: seq<Note>, closeAt: nat)
    requires j <= |contents| && (closeAt < j || |contents| <= closeAt)
    ensures var r := ReadFullFrom(Forced(contents, j, notes), ForcedOptions(false), Reopen(contents), |contents|,
                                  contents[..j], j, Some(closeAt));
      r.state.notes == notes
    decreases |contents| - j
  {
    if j < |contents| {
      ForcedRunQuiet(contents, j + 1, notes, closeAt);
      ForcedQuietStep(contents, j, notes, closeAt);
    } else {
      ForcedRunDone(contents, notes, ForcedOptions(false), closeAt);
    }
  }

  /** A read without the close leaves the notifications of the rest of the run as they are. */
  lemma ForcedQuietStep(contents: seq<byte>, j: nat, notes: seq<Note>, closeAt: nat)
    requires j < |contents| && closeAt != j
    requires ReadFullFrom(Forced(contents, j + 1, notes), ForcedOptions(false), Reopen(contents), |contents|,
                          contents[..j + 1], j + 1, Some(closeAt)).state.notes == notes
    ensures ReadFullFrom(Forced(contents, j, notes), ForcedOptions(false), Reopen(contents), |contents|,
                         contents[..j], j, Some(closeAt)).state.notes == notes
  {
    ForcedPlainStep(contents, j, notes, false, closeAt);
  }

  /** The close costs the run from there exactly its one notification when the rest of the run adds none. */
  lemma ForcedRetriedNotes(contents: seq<byte>, j: nat, notes: seq<Note>)
    requires j < |contents|
    requires var more := notes + [Note(1, ClosedBody, j, |contents| - j, true)];
      ReadFullFrom(Forced(contents, j + 1, more), ForcedOptions(false), Reopen(contents), |contents|,
                   contents[..j + 1], j + 1, Some(j)).state.notes == more
    ensures ReadFullFrom(Forced(contents, j, notes), ForcedOptions(false), Reopen(contents), |contents|,
                         contents[..j], j, Some(j)).state.notes == notes + [Note(1, ClosedBody, j, |contents| - j, true)]
  {
    ForcedRetriedStep(contents, j, notes);
  }

  /**
   * The forced-retry run from j bytes read when early closes are errors: a
   * close within the run stops it with the closed-body error right after the
   * byte read then, unless that byte was the last.
   */
  lemma {:induction false} ForcedRunStopped(contents: seq<byte>, j: nat, notes: seq<Note>, closeAt: nat)
    requires j <= closeAt < |contents|
    ensures var r := ReadFullFrom(Forced(contents, j, notes), ForcedOptions(true), Reopen(contents), |contents|,
                                  contents[..j], j, Some(closeAt));
      && r.output == contents[..closeAt + 1]
      && r.err == (if closeAt + 1 < |contents| then Some(ClosedBody) else None)
    decreases |contents| - j
  {
    if closeAt == j {
      ForcedStoppedStep(contents, j, notes);
    } else {
      ForcedPlainStep(contents, j, notes, true, closeAt);
      ForcedRunStopped(contents, j + 1, notes, closeAt);
    }
  }

  /** With no close within the run, the whole contents arrive whether early closes are errors or not. */
  lemma {:induction false} ForcedRunUnclosed(contents: seq<byte>, j: nat, notes: seq<Note>, treat: bool, closeAt: nat)
    requires j <= |contents| && !(j <= closeAt < |contents|)
    ensures var r := ReadFullFrom(Forced(contents, j, notes), ForcedOptions(treat), Reopen(contents), |contents|,
                                  contents[..j], j, Some(closeAt));
      r.output == contents && r.err == None
    decreases |contents| - j
  {
    if j < |contents| {
      ForcedPlainStep(contents, j, notes, treat, closeAt);
      ForcedRunUnclosed(contents, j + 1, notes, treat, closeAt);
    } else {
      ForcedRunDone(contents, notes, ForcedOptions(treat), closeAt);
    }
  }

  // ---------------------------------------------------------------------
  // The objects

  /** perByteReader. */
  class PerByteReader {
    var randomBytes: seq<byte>
    var byteCount: int
    var currentByteIndex: nat
    var doInjectError: bool
    var doInjectErrorByteIndex: int
    var doInjectTimes: int
    var injectedError: Error
    /** Whether the body has a close channel (newSingleUsePerByteReader). */
    const singleUse: bool
    /** The closes waiting in the close channel. */
    var pendingCloses: nat

    ghost predicate Valid()
      reads this
    {
      byteCount == |randomBytes|
    }

    function State(): Body
      reads this
    {
      Body(randomBytes, currentByteIndex, doInjectError, doInjectErrorByteIndex, doInjectTimes,
           injectedError, singleUse, pendingCloses)
    }

    /** newPerByteReader, with the random bytes given. */
    constructor (randomBytes: seq<byte>)
      ensures Valid() && State() == NewBody(randomBytes)
    {
      this.randomBytes := randomBytes;
      byteCount := |randomBytes|;
      currentByteIndex := 0;
      doInjectError := false;
      doInjectErrorByteIndex := 0;
      doInjectTimes := 0;
      injectedError := NoInjection;
      singleUse := false;
      pendingCloses := 0;
    }

    /** newSingleUsePerByteReader. */
    constructor SingleUse(contents: seq<byte>)
      ensures Valid() && State() == SingleUseBody(contents)
    {
      randomBytes := contents;
      byteCount := |contents|;
      currentByteIndex := 0;
      doInjectError := false;
      doInjectErrorByteIndex := 0;
      doInjectTimes := 0;
      injectedError := NoInjection;
      singleUse := true;
      pendingCloses := 0;
    }

    /** Read into a buffer of bufLen bytes; the bytes copied are returned. */
    method Read(bufLen: nat) returns (data: seq<byte>, err: Option<Error>)
      requires Valid()
      modifies this
      ensures Valid()
      ensures BodyStep(data, err, State()) == BodyRead(old(State()), bufLen)
    {
      if doInjectError && doInjectErrorByteIndex == currentByteIndex && doInjectTimes > 0 {
        doInjectTimes := doInjectTimes - 1;
        return [], Some(injectedError);
      }
      if currentByteIndex < byteCount {
        var n := if bufLen == 0 then 0 else 1;
        data := randomBytes[currentByteIndex..currentByteIndex + n];
        currentByteIndex := currentByteIndex + n;
        if pendingCloses > 0 {
          pendingCloses := pendingCloses - 1;
          return data, Some(ClosedBody);
        }
        return data, None;
      }
      return [], Some(EOF);
    }

    method Close()
      modifies this
      ensures State() == CloseBody(old(State())) && randomBytes == old(randomBytes) && byteCount == old(byteCount)
    {
      if singleUse {
        pendingCloses := pendingCloses + 1;
      }
    }
  }

  /** The retry reader: the current body, the getter info, the options, the getter and the notifications. */
  class RetryReader {
    var body: PerByteReader
    var hasResponse: bool
    var offset: nat
    var count: int
    const countWasBounded: bool
    const options: Options
    const getter: Getter
    /** The calls made to NotifyFailedRead. */
    var notes: seq<Note>

    ghost predicate Valid()
      reads this, body
    {
      body.Valid()
    }

    function State(): ReaderState
      reads this, body
    {
      ReaderState(body.State(), hasResponse, offset, count, countWasBounded, notes)
    }

    /**
     * NewRetryReader. The body is the initial response's when hasResponse
     * holds; for the repositioning getter it is also the body that getter
     * hands out again.
     */
    constructor (body: PerByteReader, hasResponse: bool, offset: nat, count: int, options: Options, getter: Getter)
      requires body.Valid()
      ensures Valid() && this.body == body
      ensures State() == ReaderState(body.State(), hasResponse, offset, count, count != 0, [])
      ensures this.options == options && this.getter == getter
    {
      this.body := body;
      this.hasResponse := hasResponse;
      this.offset := offset;
      this.count := count;
      countWasBounded := count != 0;
      this.options := options;
      this.getter := getter;
      notes := [];
    }

    /** The getter call of a try with no response: the body it gives is at the offset. */
    method Reconnect()
      requires Valid() && !hasResponse && !getter.Refuse?
      modifies this, body
      ensures Valid() && (body == old(body) || fresh(body))
      ensures State() == old(State()).(body := Connect(old(State()), getter), hasResponse := true)
    {
      if getter.Reopen? {
        body := new PerByteReader.SingleUse(getter.contents);
      }
      body.currentByteIndex := offset;
      hasResponse := true;
    }

    /** One try of Read: the body of the loop over try. */
    method TryOnce(bufLen: nat, try: nat) returns (data: seq<byte>, err: Option<Error>, retry: bool)
      requires Valid()
      modifies this, body
      ensures Valid() && (body == old(body) || fresh(body))
      ensures Attempted(ReadOutcome(data, err, State()), retry) == Attempt(old(State()), options, getter, bufLen, try)
    {
      ghost var s := State();
      if countWasBounded && count == 0 {
        return [], Some(EOF), false;
      }
      if !hasResponse {
        if getter.Refuse? {
          return [], Some(getter.err), false;
        }
        Reconnect();
      }
      ghost var connected := State();
      assert connected.body == Current(s, getter);
      SettleIgnoresResponse(s, connected, BodyRead(connected.body, bufLen), options, try);
      data, err, retry := ReadResponse(bufLen, try);
    }

    /** The rest of a try, on the current response: read the body, then settle. */
    method ReadResponse(bufLen: nat, try: nat) returns (data: seq<byte>, err: Option<Error>, retry: bool)
      requires Valid() && hasResponse
      modifies this, body
      ensures Valid() && body == old(body)
      ensures Attempted(ReadOutcome(data, err, State()), retry)
        == Settle(old(State()), BodyRead(old(body.State()), bufLen), options, try)
    {
      data, err := body.Read(bufLen);
      if err == None || err == Some(EOF) {
        offset := offset + |data|;
        if count != 0 {
          count := count - |data|;
        }
        return data, err, false;
      }
      body.Close();
      hasResponse := false;
      var willRetry := Retriable(err.value, options.treatEarlyCloseAsError) && try < options.maxRetryRequests;
      if options.notify {
        notes := notes + [Note(try + 1, err.value, offset, count, willRetry)];
      }
      return data, err, willRetry;
    }

    /** Read into a buffer of bufLen bytes, retrying failed reads as the options allow. */
    method Read(bufLen: nat) returns (data: seq<byte>, err: Option<Error>)
      requires Valid()
      modifies this, body
      ensures Valid() && (body == old(body) || fresh(body))
      ensures ReadOutcome(data, err, State()) == ReadLoop(old(State()), options, getter, bufLen, 0)
    {
      var try: nat := 0;
      while true
        invariant Valid() && (body == old(body) || fresh(body))
        invariant ReadLoop(State(), options, getter, bufLen, try) == ReadLoop(old(State()), options, getter, bufLen, 0)
        decreases RetryMeasure(options, try)
      {
        var retry;
        data, err, retry := TryOnce(bufLen, try);
        if !retry {
          return;
        }
        try := try + 1;
      }
    }

    /** Close: the current response body, if any, is closed. */
    method Close()
      requires Valid()
      modifies body
      ensures Valid() && State() == CloseReader(old(State()))
    {
      if hasResponse {
        body.Close();
      }
    }
  }

  /**
   * io.ReadFull into a buffer of size bytes; the caller closes the reader
   * just before read number closeAt, if given (the test does so from another
   * goroutine after a delay).
   */
  method ReadFull(r: RetryReader, size: nat, closeAt: Option<nat>) returns (output: seq<byte>, err: Option<Error>)
    requires r.Valid()
    modifies r, r.body
    ensures r.Valid()
    ensures FullOutcome(output, err, r.State()) == ReadFullFrom(old(r.State()), r.options, r.getter, size, [], 0, closeAt)
  {
    output := [];
    err := None;
    var calls: nat := 0;
    while |output| < size && err == None
      invariant r.Valid() && (r.body == old(r.body) || fresh(r.body)) && |output| <= size
      invariant err == None ==>
        ReadFullFrom(r.State(), r.options, r.getter, size, output, calls, closeAt)
          == ReadFullFrom(old(r.State()), r.options, r.getter, size, [], 0, closeAt)
      invariant err != None ==>
        FullOutcome(output, FullError(|output|, size, err), r.State())
          == ReadFullFrom(old(r.State()), r.options, r.getter, size, [], 0, closeAt)
      decreases size - |output|, if err == None then 1 else 0
    {
      if closeAt == Some(calls) {
        r.Close();
      }
      ghost var s0 := r.State();
      var data, e := r.Read(size - |output|);
      ReadAtMostOne(s0, r.options, r.getter, size - |output|, 0);
      output := output + data;
      err := e;
      calls := calls + 1;
    }
    if |output| >= size {
      err := None;
    } else if |output| > 0 && err == Some(EOF) {
      err := Some(UnexpectedEOF);
    }
  }
}
