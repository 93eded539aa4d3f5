/**
 The buffer gate (BufferTask): how many bytes must be on disk before playback
 may start, the readiness test polled once a second, and the decision taken
 when the media engine reports that a track has finished playing.

 Java's `int` arithmetic is written out: products wrap at 32 bits and
 division truncates toward zero.
 */
module BufferGate {

  import Seqs

  const IntMin: int := -0x8000_0000
  const IntRange: int := 0x1_0000_0000
  type Int32 = x: int | -0x8000_0000 <= x < 0x8000_0000

  /** Minimum number of bytes buffered before playback starts. */
  const MinBufferBytes: int := 100000
  /** A partial-file completion this close (milliseconds) to the track's length counts as the end. */
  const CompletionToleranceMillis: int := 10000

  /** The value a Java `int` operation yields for the mathematical result x. */
  function Wrap(x: int): (r: Int32)
    ensures (r - x) % IntRange == 0
    ensures -0x8000_0000 <= x < 0x8000_0000 ==> r == x
  {
    (x - IntMin) % IntRange + IntMin
  }

  /** Java's `/` on ints: the quotient truncated toward zero. */
  function JavaDiv(a: int, b: int): (q: int)
    requires b > 0
    ensures a >= 0 ==> 0 <= q && 0 <= a - q * b < b
    ensures a < 0 ==> q <= 0 && -b < a - q * b <= 0
  {
    if a >= 0 then a / b else -((-a) / b)
  }

  /** Java's Math.abs on ints: the magnitude, except that the most negative int is its own absolute value. */
  function JavaAbs(x: Int32): (r: Int32)
    ensures x != IntMin ==> r >= 0 && (r == x || r == -x)
    ensures x == IntMin ==> r == IntMin
  {
    if x < 0 && x != IntMin then -x else x
  }

  /** `Math.max(100000, bitRate * 1024 / 8 * bufferLength)`, evaluated in 32-bit arithmetic. */
  function ByteCount(bitRate: Int32, bufferLength: Int32): (r: int)
    ensures r >= MinBufferBytes
  {
    var perSecond := JavaDiv(Wrap(bitRate * 1024), 8);
    var total := Wrap(perSecond * bufferLength);
    if total > MinBufferBytes then total else MinBufferBytes
  }

  /**
   When nothing overflows, the byte count is the bit rate (kbit/s) converted
   to bytes per second, times the buffer length in seconds, floored at 100000.
   */
  lemma ByteCountWithoutOverflow(bitRate: Int32, bufferLength: Int32)
    requires 0 <= bitRate && 0 <= bufferLength
    requires bitRate * 1024 < 0x8000_0000
    requires bitRate * 128 * bufferLength < 0x8000_0000
    ensures ByteCount(bitRate, bufferLength) == if bitRate * 128 * bufferLength > MinBufferBytes
                                                then bitRate * 128 * bufferLength else MinBufferBytes
  {
    assert Wrap(bitRate * 1024) == bitRate * 1024;
    assert JavaDiv(bitRate * 1024, 8) == bitRate * 128;
    assert Wrap(bitRate * 128 * bufferLength) == bitRate * 128 * bufferLength;
  }

  /**
   The size the partial file must reach before playback (re)starts: the byte
   count alone when starting from the beginning, otherwise the partial file's
   current length plus the byte count.
   */
  function ExpectedFileSize(position: int, partialLength: int, byteCount: int): int
  {
    if position == 0 then byteCount else partialLength + byteCount
  }

  /** A resumed buffer task waits for at least 100000 bytes more than the partial file held when it was created. */
  lemma ResumeWaitsForNewBytes(position: int, partialLength: int, bitRate: Int32, bufferLength: Int32)
    requires position != 0
    ensures ExpectedFileSize(position, partialLength, ByteCount(bitRate, bufferLength)) >= partialLength + MinBufferBytes
  {
  }

  /**
   Without the complete file, playback never starts before 100000 bytes of
   the partial file are on disk, whether the task starts from the beginning
   or resumes from a partial file that is still there.
   */
  lemma NoPlaybackBeforeMinimumBuffered(position: int, partialLength: int, bitRate: Int32, bufferLength: Int32, size: int)
    requires partialLength >= 0 && size < MinBufferBytes
    ensures !BufferComplete(false, size, ExpectedFileSize(position, partialLength, ByteCount(bitRate, bufferLength)))
  {
  }

  /** bufferComplete(): the complete file exists, or the partial file has reached the expected size. */
  predicate BufferComplete(completeAvailable: bool, size: int, expected: int)
  {
    completeAvailable || size >= expected
  }

  /** What the buffer task observes at one poll: the file state, and whether it was cancelled during the following sleep. */
  datatype Poll = Poll(completeAvailable: bool, partialSize: int, cancelledAfterSleep: bool)

  /** How the buffer wait ends: ready at poll `at`, cancelled after poll `at`, or still waiting after every poll given. */
  datatype Outcome = Ready(at: nat) | Cancelled(at: nat) | StillWaiting

  predicate Satisfied(p: Poll, expected: int)
  {
    BufferComplete(p.completeAvailable, p.partialSize, expected)
  }

  /**
   BufferTask.execute(): test bufferComplete(), sleep, stop when cancelled,
   and test again. The polls stand for the successive readings of the file
   state and of the cancel flag.
   */
  method AwaitBuffer(expected: int, polls: seq<Poll>) returns (o: Outcome)
    ensures o.Ready? ==> o.at < |polls| && Satisfied(polls[o.at], expected)
    ensures o.Cancelled? ==> o.at < |polls| && !Satisfied(polls[o.at], expected) && polls[o.at].cancelledAfterSleep
    ensures var seen := match o case Ready(k) => k case Cancelled(k) => k case StillWaiting => |polls|;
      forall j :: 0 <= j < seen ==> !Satisfied(polls[j], expected) && !polls[j].cancelledAfterSleep
  {
    var i := 0;
    while i < |polls| && !BufferComplete(polls[i].completeAvailable, polls[i].partialSize, expected)
      invariant 0 <= i <= |polls|
      invariant forall j :: 0 <= j < i ==> !Satisfied(polls[j], expected) && !polls[j].cancelledAfterSleep
    {
      if polls[i].cancelledAfterSleep {
        return Cancelled(i);
      }
      i := i + 1;
    }
    if i == |polls| {
      o := StillWaiting;
    } else {
      o := Ready(i);
    }
  }

  /** Once ready at some size, the gate stays ready as the partial file grows. */
  lemma ReadinessIsMonotone(completeAvailable: bool, size: int, larger: int, expected: int)
    requires size <= larger && BufferComplete(completeAvailable, size, expected)
    ensures BufferComplete(completeAvailable, larger, expected)
  {
  }

  /** What happens when the engine reports that playback completed. */
  datatype CompletionAction = Advance | RestartFrom(position: int)

  /**
   The completion listener's decision. A track played from its complete file
   is finished. A track played from its partial file is finished only when the
   position is within 10 seconds of its known duration (computed in 32-bit
   arithmetic as `Math.abs(duration * 1000 - pos) < 10000`); otherwise
   buffering restarts from that position.
   */
  function CompletionDecision(playedCompleteFile: bool, durationSeconds: Seqs.Option<Int32>, pos: Int32): (a: CompletionAction)
    ensures playedCompleteFile ==> a == Advance
    ensures durationSeconds.None? && !playedCompleteFile ==> a == RestartFrom(pos)
    ensures a.RestartFrom? ==> a.position == pos
  {
    if playedCompleteFile then Advance
    else match durationSeconds
      case Some(d) =>
        if JavaAbs(Wrap(Wrap(d * 1000) - pos)) < CompletionToleranceMillis then Advance else RestartFrom(pos)
      case None => RestartFrom(pos)
  }

  /**
   For durations and positions in their ordinary range, a partial-file
   completion advances exactly when the position is within 10 seconds of the
   duration, and otherwise restarts the buffering from that position.
   */
  lemma CompletionOnPartialFile(durationSeconds: Int32, pos: Int32)
    requires 0 <= durationSeconds <= 2_000_000 && 0 <= pos
    ensures var gap := durationSeconds * 1000 - pos;
      CompletionDecision(false, Seqs.Some(durationSeconds), pos)
        == if -CompletionToleranceMillis < gap < CompletionToleranceMillis then Advance else RestartFrom(pos)
  {
    assert Wrap(durationSeconds * 1000) == durationSeconds * 1000;
    assert Wrap(durationSeconds * 1000 - pos) == durationSeconds * 1000 - pos;
  }
}
