/**
 The client's wait for a reply: a loop of reads into a zeroed buffer of 1024 bytes that is
 appended whole and cut to size at the end. Reads and clock are arbitrary.
 */
module ClientSync {
  import opened Socket

  const BUFFER: nat := 1024

  /** Time since the start of the wait, in the ticks of the clock; a clock set back gives an error. */
  datatype Clock = Elapsed(ticks: nat) | SetBack

  /** What one turn of the loop meets: the clock, the read, and the clock after a read without data. */
  datatype Turn = Turn(now: Clock, read: ReadResult, after: Clock)

  type World = nat -> Turn

  datatype Outcome = Decode(bytes: seq<Byte>) | TimedOut | Failed | ClockFailed

  ghost predicate ReadsFit(world: World) {
    forall i: nat :: world(i).read.Data? ==> |world(i).read.bytes| <= BUFFER
  }

  predicate Expired(clock: Clock, timeout: nat) {
    clock.Elapsed? && clock.ticks > timeout
  }

  // -- What the loop is meant to do ------------------------------------------------------

  /** The bytes that arrived in the first `n` turns. */
  function Received(world: World, n: nat): seq<Byte> {
    if n == 0 then []
    else Received(world, n - 1) + (if world(n - 1).read.Data? then world(n - 1).read.bytes else [])
  }

  /** A full buffer has been read in one of the first `n` turns. */
  ghost predicate Started(world: World, n: nat) {
    exists i | 0 <= i < n :: Full(world(i))
  }

  predicate Full(turn: Turn) {
    turn.read.Data? && |turn.read.bytes| == BUFFER
  }

  ghost predicate Continues(world: World, timeout: nat, i: nat) {
    var turn := world(i);
    && turn.now.Elapsed? && turn.now.ticks <= timeout
    && match turn.read
       case Data(bytes) => |bytes| == BUFFER || (bytes == [] && !Started(world, i))
       case WouldBlock => turn.after.Elapsed? && turn.after.ticks <= timeout
       case ReadError => false
  }

  /** How a turn that does not continue ends the wait. */
  ghost function EndOf(world: World, timeout: nat, n: nat): Outcome
    requires !Continues(world, timeout, n)
  {
    var turn := world(n);
    if turn.now.SetBack? then ClockFailed
    else if turn.now.ticks > timeout then Decode(Received(world, n))
    else match turn.read
      case Data(bytes) => Decode(Received(world, n + 1))
      case WouldBlock => if turn.after.SetBack? then ClockFailed else TimedOut
      case ReadError => Failed
  }

  /** The wait ends in turn `n`. */
  ghost predicate EndsIn(world: World, timeout: nat, n: nat, outcome: Outcome) {
    && (forall i | 0 <= i < n :: Continues(world, timeout, i))
    && !Continues(world, timeout, n)
    && outcome == EndOf(world, timeout, n)
  }

  /**
   Whatever the reads bring, the bytes handed to the decoder are exactly the bytes received: no
   padding of any buffer is among them. The loop ends by the time the clock passes the timeout.
   */
  method CallAndWait(world: World, timeout: nat, ghost deadline: nat) returns (outcome: Outcome)
    requires ReadsFit(world)
    requires Expired(world(deadline).now, timeout)
    ensures exists n | 0 <= n <= deadline :: EndsIn(world, timeout, n, outcome)
  {
    var readStarted := false;
    var data: seq<Byte> := [];
    var counter := 0;
    var i := 0;
    while true
      invariant 0 <= i <= deadline
      invariant forall j | 0 <= j < i :: Continues(world, timeout, j)
      invariant readStarted <==> Started(world, i)
      invariant counter == |data| && data == Received(world, i)
      decreases deadline - i
    {
      var buffer := new Byte[BUFFER](_ => 0);
      var turn := world(i);
      if turn.now.SetBack? {
        assert EndsIn(world, timeout, i, ClockFailed);
        return ClockFailed;
      }
      if turn.now.ticks > timeout { break; }
      match turn.read {
        case Data(bytes) =>
          if bytes == [] {
            if readStarted {
              assert Received(world, i + 1) == Received(world, i);
              break;
            }
          } else {
            Fill(buffer, bytes);
            data := data + buffer[..];
            counter := counter + |bytes|;
            if |bytes| == BUFFER {
              readStarted := true;
              assert Full(world(i));
            } else {
              break;
            }
          }
        case WouldBlock =>
          if turn.after.SetBack? {
            assert EndsIn(world, timeout, i, ClockFailed);
            return ClockFailed;
          }
          if turn.after.ticks > timeout {
            assert EndsIn(world, timeout, i, TimedOut);
            return TimedOut;
          }
        case ReadError =>
          assert EndsIn(world, timeout, i, Failed);
          return Failed;
      }
      assert Continues(world, timeout, i);
      i := i + 1;
    }
    data := if counter <= |data| then data[..counter] else data;
    outcome := Decode(data);
    assert EndsIn(world, timeout, i, outcome);
  }

  // -- Which messages arrive whole ---------------------------------------------------------

  lemma EndIsUnique(world: World, timeout: nat, n: nat, outcome: Outcome, n': nat, outcome': Outcome)
    requires EndsIn(world, timeout, n, outcome) && EndsIn(world, timeout, n', outcome')
    ensures n == n' && outcome == outcome'
  {
  }

  function Flatten(chunks: seq<seq<Byte>>): seq<Byte> {
    if chunks == [] then [] else Flatten(chunks[..|chunks| - 1]) + chunks[|chunks| - 1]
  }

  /** A message arrives in these chunks, one read each and all in time. */
  ghost predicate Delivers(world: World, timeout: nat, chunks: seq<seq<Byte>>) {
    forall i | 0 <= i < |chunks| :: InTime(world(i), timeout, chunks[i])
  }

  predicate InTime(turn: Turn, timeout: nat, chunk: seq<Byte>) {
    && 0 < |chunk| <= BUFFER && turn.read == Data(chunk)
    && turn.now.Elapsed? && turn.now.ticks <= timeout
  }

  /** Index of the first chunk that does not fill the buffer. */
  function FirstShort(chunks: seq<seq<Byte>>): (k: nat)
    ensures k <= |chunks|
    ensures forall i | 0 <= i < k :: |chunks[i]| == BUFFER
    ensures k < |chunks| ==> |chunks[k]| != BUFFER
  {
    if chunks == [] || |chunks[0]| != BUFFER then 0 else 1 + FirstShort(chunks[1..])
  }

  /** All chunks but the last fill the buffer, the last does not. */
  predicate ArrivesWhole(chunks: seq<seq<Byte>>) {
    chunks != [] && FirstShort(chunks) == |chunks| - 1
  }

  lemma {:induction false} ReceivedIsFlatten(world: World, timeout: nat, chunks: seq<seq<Byte>>, n: nat)
    requires Delivers(world, timeout, chunks) && n <= |chunks|
    ensures Received(world, n) == Flatten(chunks[..n])
  {
    if n > 0 {
      ReceivedIsFlatten(world, timeout, chunks, n - 1);
      assert chunks[..n][..n - 1] == chunks[..n - 1];
      assert InTime(world(n - 1), timeout, chunks[n - 1]);
    }
  }

  /**
   Reads decide what is decoded: the bytes up to the first chunk that leaves the buffer unfilled.
   So a message is handed over whole, without further waiting, exactly when all its chunks but
   the last fill the buffer and the last does not. A message of full chunks only is waited on.
   */
  lemma WholeMessageExactly(world: World, timeout: nat, chunks: seq<seq<Byte>>, n: nat, outcome: Outcome)
    requires Delivers(world, timeout, chunks) && EndsIn(world, timeout, n, outcome)
    ensures FirstShort(chunks) < |chunks| ==>
            n == FirstShort(chunks) && outcome == Decode(Flatten(chunks[..n + 1]))
    ensures FirstShort(chunks) == |chunks| ==> n >= |chunks|
    ensures n < |chunks| && outcome == Decode(Flatten(chunks)) <==> ArrivesWhole(chunks)
  {
    var k := FirstShort(chunks);
    if k == |chunks| {
      FullChunksGoOn(world, timeout, chunks, n, outcome);
    } else {
      EndsAtShort(world, timeout, chunks, k, n, outcome);
      PartIsWholeExactly(world, timeout, chunks, k + 1);
    }
  }

  lemma EndsAtShort(world: World, timeout: nat, chunks: seq<seq<Byte>>, k: nat, n: nat, outcome: Outcome)
    requires Delivers(world, timeout, chunks) && k < |chunks| && k == FirstShort(chunks)
    requires EndsIn(world, timeout, n, outcome)
    ensures n == k && outcome == Decode(Flatten(chunks[..k + 1]))
  {
    FirstShortEnds(world, timeout, chunks, k);
    EndIsUnique(world, timeout, n, outcome, k, Decode(Flatten(chunks[..k + 1])));
  }

  /** The first chunks make the whole message only if they are all of them. */
  lemma PartIsWholeExactly(world: World, timeout: nat, chunks: seq<seq<Byte>>, n: nat)
    requires Delivers(world, timeout, chunks) && n <= |chunks|
    ensures Flatten(chunks[..n]) == Flatten(chunks) <==> n == |chunks|
  {
    if n < |chunks| {
      FlattenGrows(world, timeout, chunks, n);
    } else {
      assert chunks[..n] == chunks;
    }
  }

  /** Full chunks alone do not end the message. */
  lemma FullChunksGoOn(world: World, timeout: nat, chunks: seq<seq<Byte>>, n: nat, outcome: Outcome)
    requires Delivers(world, timeout, chunks) && EndsIn(world, timeout, n, outcome)
    requires FirstShort(chunks) == |chunks|
    ensures n >= |chunks|
  {
    FullChunksContinue(world, timeout, chunks);
  }

  lemma FullChunksContinue(world: World, timeout: nat, chunks: seq<seq<Byte>>)
    requires Delivers(world, timeout, chunks)
    ensures forall i | 0 <= i < FirstShort(chunks) :: Continues(world, timeout, i)
  {
    forall i | 0 <= i < FirstShort(chunks) ensures Continues(world, timeout, i) {
      assert InTime(world(i), timeout, chunks[i]);
    }
  }

  lemma ShortTurnEnds(world: World, timeout: nat, k: nat, chunk: seq<Byte>)
    requires InTime(world(k), timeout, chunk) && |chunk| != BUFFER
    ensures !Continues(world, timeout, k) && EndOf(world, timeout, k) == Decode(Received(world, k + 1))
  {
  }

  lemma FirstShortEnds(world: World, timeout: nat, chunks: seq<seq<Byte>>, k: nat)
    requires Delivers(world, timeout, chunks) && k < |chunks| && k == FirstShort(chunks)
    ensures EndsIn(world, timeout, k, Decode(Flatten(chunks[..k + 1])))
  {
    FullChunksContinue(world, timeout, chunks);
    ShortTurnEnds(world, timeout, k, chunks[k]);
    ReceivedIsFlatten(world, timeout, chunks, k + 1);
  }

  /** A proper part of the chunks is a shorter message. */
  lemma {:induction false} FlattenGrows(world: World, timeout: nat, chunks: seq<seq<Byte>>, n: nat)
    requires Delivers(world, timeout, chunks) && n < |chunks|
    ensures |Flatten(chunks[..n])| < |Flatten(chunks)|
  {
    var last := |chunks| - 1;
    assert InTime(world(last), timeout, chunks[last]);
    if n < last {
      assert chunks[..last][..n] == chunks[..n];
      assert Delivers(world, timeout, chunks[..last]) by {
        forall i | 0 <= i < last ensures InTime(world(i), timeout, chunks[..last][i]) {
          assert InTime(world(i), timeout, chunks[i]);
        }
      }
      FlattenGrows(world, timeout, chunks[..last], n);
    }
  }

  /**
   A reply whose length is a multiple of 1024, on a connection that stays open, is never decoded
   in time: the wait runs into its timeout, and the reply may be lost to it.
   */
  lemma FullChunksWaitForTheTimeout(world: World, timeout: nat, chunks: seq<seq<Byte>>, n: nat, outcome: Outcome)
    requires Delivers(world, timeout, chunks) && FirstShort(chunks) == |chunks|
    requires forall i: nat | i >= |chunks| :: world(i).read == WouldBlock
    requires EndsIn(world, timeout, n, outcome)
    ensures n >= |chunks|
    ensures outcome == TimedOut || outcome == ClockFailed ||
            (outcome == Decode(Flatten(chunks)) && Expired(world(n).now, timeout))
  {
    WholeMessageExactly(world, timeout, chunks, n, outcome);
    SilenceAddsNothing(world, timeout, chunks, n);
  }

  lemma {:induction false} SilenceAddsNothing(world: World, timeout: nat, chunks: seq<seq<Byte>>, n: nat)
    requires Delivers(world, timeout, chunks) && n >= |chunks|
    requires forall i: nat | i >= |chunks| :: world(i).read == WouldBlock
    ensures Received(world, n) == Flatten(chunks)
  {
    if n == |chunks| {
      ReceivedIsFlatten(world, timeout, chunks, n);
      assert chunks[..n] == chunks;
    } else {
      SilenceAddsNothing(world, timeout, chunks, n - 1);
    }
  }

  /** A message of one full chunk, then silence in which the clock passes the timeout during a read. */
  function LosingWorld(chunk: seq<Byte>, timeout: nat): World {
    i => if i == 0 then Turn(Elapsed(0), Data(chunk), Elapsed(0))
         else Turn(Elapsed(timeout), WouldBlock, Elapsed(timeout + 1))
  }

  /** There the reply is lost: all of it has arrived, and the wait ends in a timeout. */
  lemma FullReplyCanBeLost(chunk: seq<Byte>, timeout: nat)
    requires |chunk| == BUFFER
    ensures var world := LosingWorld(chunk, timeout);
            && Delivers(world, timeout, [chunk]) && Received(world, 1) == chunk
            && EndsIn(world, timeout, 1, TimedOut)
  {
    var world := LosingWorld(chunk, timeout);
    assert Received(world, 1) == Received(world, 0) + chunk;
    assert Continues(world, timeout, 0);
  }

  // -- Silence and the end of the connection ---------------------------------------------------------

  /** Nothing arrives, and the time is not up. */
  predicate QuietInTime(turn: Turn, timeout: nat) {
    && turn.now.Elapsed? && turn.now.ticks <= timeout
    && (turn.read == Data([]) || (turn.read == WouldBlock && turn.after.Elapsed? && turn.after.ticks <= timeout))
  }

  /** Before the first bytes have come, reads without data are waited out. */
  lemma SilenceIsWaitedOut(world: World, timeout: nat, n: nat)
    requires forall i | 0 <= i < n :: QuietInTime(world(i), timeout)
    ensures forall i | 0 <= i < n :: Continues(world, timeout, i)
    ensures Received(world, n) == []
  {
    if n > 0 {
      SilenceIsWaitedOut(world, timeout, n - 1);
      assert QuietInTime(world(n - 1), timeout);
      forall i | 0 <= i < n - 1 ensures !Full(world(i)) { assert QuietInTime(world(i), timeout); }
    }
  }

  lemma FullChunksStart(world: World, timeout: nat, chunks: seq<seq<Byte>>)
    requires Delivers(world, timeout, chunks) && FirstShort(chunks) == |chunks| && chunks != []
    ensures Started(world, |chunks|)
  {
    assert InTime(world(0), timeout, chunks[0]) && Full(world(0));
  }

  lemma ClosedTurnEnds(world: World, timeout: nat, k: nat)
    requires Started(world, k) && world(k).read == Data([]) && world(k).now.Elapsed? && world(k).now.ticks <= timeout
    ensures !Continues(world, timeout, k) && EndOf(world, timeout, k) == Decode(Received(world, k))
  {
    assert Received(world, k + 1) == Received(world, k) + [];
  }

  /** A reply of full chunks is decoded whole as soon as the daemon closes the connection. */
  lemma ClosingEndsFullChunks(world: World, timeout: nat, chunks: seq<seq<Byte>>, n: nat, outcome: Outcome)
    requires Delivers(world, timeout, chunks) && FirstShort(chunks) == |chunks| && chunks != []
    requires world(|chunks|).read == Data([])
    requires world(|chunks|).now.Elapsed? && world(|chunks|).now.ticks <= timeout
    requires EndsIn(world, timeout, n, outcome)
    ensures n == |chunks| && outcome == Decode(Flatten(chunks))
  {
    var k := |chunks|;
    FullChunksContinue(world, timeout, chunks);
    ReceivedIsFlatten(world, timeout, chunks, k);
    assert chunks[..k] == chunks;
    FullChunksStart(world, timeout, chunks);
    ClosedTurnEnds(world, timeout, k);
    EndIsUnique(world, timeout, n, outcome, k, Decode(Flatten(chunks)));
  }

  /** Each way of failing says what was met last; a wait that does not fail hands over all that came. */
  lemma OutcomesSayWhatWasMet(world: World, timeout: nat, n: nat, outcome: Outcome)
    requires EndsIn(world, timeout, n, outcome)
    ensures outcome == TimedOut ==>
            world(n).read == WouldBlock && !Expired(world(n).now, timeout) && Expired(world(n).after, timeout)
    ensures outcome == Failed ==> world(n).read == ReadError
    ensures outcome == ClockFailed ==> world(n).now == SetBack || world(n).after == SetBack
    ensures outcome.Decode? && Expired(world(n).now, timeout) ==> outcome.bytes == Received(world, n)
    ensures outcome.Decode? && !Expired(world(n).now, timeout) ==>
            world(n).read.Data? && |world(n).read.bytes| != BUFFER && outcome.bytes == Received(world, n + 1)
  {
  }

  // -- Which lengths can arrive whole -----------------------------------------------------------

  /** The message comes in these chunks, each of a size a read can bring. */
  predicate Splits(chunks: seq<seq<Byte>>, message: seq<Byte>) {
    Flatten(chunks) == message && forall i | 0 <= i < |chunks| :: 0 < |chunks[i]| <= BUFFER
  }

  /**
   Some way of splitting a message gets it decoded whole without waiting, exactly unless its length
   is a multiple of 1024.
   */
  lemma LengthDecides(message: seq<Byte>)
    ensures (exists chunks :: Splits(chunks, message) && ArrivesWhole(chunks)) <==> |message| % BUFFER != 0
  {
    if |message| % BUFFER != 0 {
      ChunkedArrives(message);
    }
    if chunks :| Splits(chunks, message) && ArrivesWhole(chunks) {
      FullLength(chunks[..|chunks| - 1]);
    }
  }

  lemma {:induction false} FullLength(chunks: seq<seq<Byte>>)
    requires forall i | 0 <= i < |chunks| :: |chunks[i]| == BUFFER
    ensures |Flatten(chunks)| == BUFFER * |chunks|
  {
    if chunks != [] { FullLength(chunks[..|chunks| - 1]); }
  }

  /** Full chunks from the start, then what is left. */
  function Chunked(message: seq<Byte>): seq<seq<Byte>> {
    var cut := |message| - |message| % BUFFER;
    FullChunks(message[..cut]) + [message[cut..]]
  }

  function FullChunks(message: seq<Byte>): (chunks: seq<seq<Byte>>)
    ensures forall i | 0 <= i < |chunks| :: |chunks[i]| == BUFFER
  {
    if |message| < BUFFER then []
    else FullChunks(message[..|message| - BUFFER]) + [message[|message| - BUFFER..]]
  }

  lemma {:induction false} FullChunksFlatten(message: seq<Byte>)
    requires |message| % BUFFER == 0
    ensures Flatten(FullChunks(message)) == message
  {
    if |message| >= BUFFER {
      var cut := |message| - BUFFER;
      FullChunksFlatten(message[..cut]);
      FlattenMore(FullChunks(message[..cut]), message[cut..]);
    }
  }

  lemma FlattenMore(chunks: seq<seq<Byte>>, chunk: seq<Byte>)
    ensures Flatten(chunks + [chunk]) == Flatten(chunks) + chunk
  {
    assert (chunks + [chunk])[..|chunks|] == chunks;
  }

  lemma ShortIsLast(chunks: seq<seq<Byte>>, chunk: seq<Byte>)
    requires (forall i | 0 <= i < |chunks| :: |chunks[i]| == BUFFER) && |chunk| != BUFFER
    ensures FirstShort(chunks + [chunk]) == |chunks|
  {
    assert (chunks + [chunk])[|chunks|] == chunk;
  }

  lemma ChunkedArrives(message: seq<Byte>)
    requires |message| % BUFFER != 0
    ensures Splits(Chunked(message), message) && ArrivesWhole(Chunked(message))
  {
    var cut := |message| - |message| % BUFFER;
    var full := FullChunks(message[..cut]);
    FullChunksFlatten(message[..cut]);
    FlattenMore(full, message[cut..]);
    ShortIsLast(full, message[cut..]);
    assert message[..cut] + message[cut..] == message;
  }
}
