/**
 The session broker: forwarding a request to the broker socket and collecting the reply until it
 is complete JSON, and acquiring a token after an interactive login.
 */
module Broker {
  import opened Text
  import opened Pam
  import opened Socket
  import opened AuthProtocol
  import opened AuthRuns
  import opened AuthClient

  const BUFFER: nat := 4096

  // A read of zero bytes is the end of the stream, and so is the end of a list of reads.

  datatype Collected = Reply(bytes: seq<Byte>) | ReadTimeout | ReadFailed

  predicate ReadsFit(arrivals: seq<ReadResult>) {
    forall i | 0 <= i < |arrivals| :: arrivals[i].Data? ==> |arrivals[i].bytes| <= BUFFER
  }

  /** What the reads add up to; `complete` tells complete JSON from an unfinished text. */
  function Collect(complete: seq<Byte> -> bool, arrivals: seq<ReadResult>, data: seq<Byte>): Collected
    decreases |arrivals|
  {
    if arrivals == [] || arrivals[0] == Data([]) then Reply(data)
    else match arrivals[0]
      case Data(bytes) =>
        if complete(data + bytes) then Reply(data + bytes)
        else Collect(complete, arrivals[1..], data + bytes)
      case WouldBlock => if data != [] && complete(data) then Reply(data) else ReadTimeout
      case ReadError => ReadFailed
  }

  /** The read loop. The buffer is reused, so old bytes stay behind the ones just read. */
  method ReadReply(complete: seq<Byte> -> bool, arrivals: seq<ReadResult>) returns (r: Collected)
    requires ReadsFit(arrivals)
    ensures r == Collect(complete, arrivals, [])
  {
    var data: seq<Byte> := [];
    var buf := new Byte[BUFFER](_ => 0);
    var i := 0;
    while i < |arrivals|
      invariant 0 <= i <= |arrivals|
      invariant Collect(complete, arrivals, []) == Collect(complete, arrivals[i..], data)
    {
      match arrivals[i] {
        case Data(bytes) =>
          if bytes == [] { return Reply(data); }
          Fill(buf, bytes);
          data := data + buf[..|bytes|];
          if complete(data) { return Reply(data); }
        case WouldBlock =>
          if data != [] && complete(data) { return Reply(data); }
          return ReadTimeout;
        case ReadError => return ReadFailed;
      }
      i := i + 1;
    }
    r := Reply(data);
  }

  // -- The recheck on a timeout -------------------------------------------------------

  /** The same loop without looking at the data again when a read times out. */
  function CollectOnce(complete: seq<Byte> -> bool, arrivals: seq<ReadResult>, data: seq<Byte>): Collected
    decreases |arrivals|
  {
    if arrivals == [] || arrivals[0] == Data([]) then Reply(data)
    else match arrivals[0]
      case Data(bytes) =>
        if complete(data + bytes) then Reply(data + bytes)
        else CollectOnce(complete, arrivals[1..], data + bytes)
      case WouldBlock => ReadTimeout
      case ReadError => ReadFailed
  }

  /** Data still being collected is never complete, so the recheck on a timeout cannot succeed. */
  lemma {:induction false} RecheckNeverSucceeds(complete: seq<Byte> -> bool, arrivals: seq<ReadResult>, data: seq<Byte>)
    requires data == [] || !complete(data)
    ensures Collect(complete, arrivals, data) == CollectOnce(complete, arrivals, data)
    decreases |arrivals|
  {
    if arrivals != [] && arrivals[0].Data? && !complete(data + arrivals[0].bytes) {
      RecheckNeverSucceeds(complete, arrivals[1..], data + arrivals[0].bytes);
    }
  }

  // -- Chunking -------------------------------------------------------------------------

  /** A way of splitting a message into reads, possibly followed by anything else. */
  predicate Splits(arrivals: seq<ReadResult>, message: seq<Byte>) {
    if message == [] then true
    else
      && arrivals != [] && arrivals[0].Data?
      && 0 < |arrivals[0].bytes| <= BUFFER && arrivals[0].bytes <= message
      && Splits(arrivals[1..], message[|arrivals[0].bytes|..])
  }

  predicate IsCompletePrefix(complete: seq<Byte> -> bool, message: seq<Byte>, n: nat) {
    0 < n < |message| && complete(message[..n])
  }

  ghost predicate HasCompletePrefix(complete: seq<Byte> -> bool, message: seq<Byte>) {
    exists n :: IsCompletePrefix(complete, message, n)
  }

  lemma {:induction false} SplitsAreCollected(
    complete: seq<Byte> -> bool, arrivals: seq<ReadResult>, data: seq<Byte>, rest: seq<Byte>)
    requires rest != [] && Splits(arrivals, rest)
    requires complete(data + rest) && !HasCompletePrefix(complete, data + rest)
    ensures Collect(complete, arrivals, data) == Reply(data + rest)
    decreases |arrivals|
  {
    var bytes := arrivals[0].bytes;
    var message := data + rest;
    assert message[..|data| + |bytes|] == data + bytes;
    if bytes == rest {
    } else {
      assert !IsCompletePrefix(complete, message, |data| + |bytes|);
      assert (data + bytes) + rest[|bytes|..] == message;
      SplitsAreCollected(complete, arrivals[1..], data + bytes, rest[|bytes|..]);
    }
  }

  /** Reads of one byte each. */
  function ByteByByte(message: seq<Byte>): seq<ReadResult> {
    if message == [] then [] else [Data([message[0]])] + ByteByByte(message[1..])
  }

  lemma {:induction false} ByteByByteSplits(message: seq<Byte>)
    ensures Splits(ByteByByte(message), message)
  {
    if message != [] {
      ByteByByteSplits(message[1..]);
      assert ByteByByte(message)[1..] == ByteByByte(message[1..]);
    }
  }

  lemma {:induction false} ByteByByteStopsEarly(
    complete: seq<Byte> -> bool, data: seq<Byte>, rest: seq<Byte>, n: nat)
    requires |data| < n && IsCompletePrefix(complete, data + rest, n)
    ensures var r := Collect(complete, ByteByByte(rest), data);
            r.Reply? && |r.bytes| <= n
    decreases |rest|
  {
    var more := data + [rest[0]];
    assert ByteByByte(rest)[1..] == ByteByByte(rest[1..]);
    assert more + rest[1..] == data + rest;
    if !complete(more) {
      assert n != |more| by { assert (data + rest)[..|more|] == more; }
      ByteByByteStopsEarly(complete, more, rest[1..], n);
    }
  }

  /**
   A complete message is returned whole however it is split into reads, exactly when no proper
   beginning of it is complete by itself.
   */
  lemma ChunkingIndependentExactly(complete: seq<Byte> -> bool, message: seq<Byte>)
    requires message != [] && complete(message)
    ensures (forall arrivals | Splits(arrivals, message) :: Collect(complete, arrivals, []) == Reply(message)) <==>
            !HasCompletePrefix(complete, message)
  {
    assert [] + message == message;
    if !HasCompletePrefix(complete, message) {
      forall arrivals | Splits(arrivals, message) ensures Collect(complete, arrivals, []) == Reply(message) {
        SplitsAreCollected(complete, arrivals, [], message);
      }
    } else {
      var n :| IsCompletePrefix(complete, message, n);
      ByteByByteSplits(message);
      ByteByByteStopsEarly(complete, [], message, n);
    }
  }

  /** How a reply that never becomes complete ends, by what follows the reads with data. */
  function Unfinished(rest: seq<ReadResult>, data: seq<Byte>): Collected {
    if rest == [] || rest[0].Data? then Reply(data)
    else if rest[0].WouldBlock? then ReadTimeout
    else ReadFailed
  }

  /** All that these reads bring. */
  function Gathered(pieces: seq<ReadResult>): seq<Byte>
    requires forall i | 0 <= i < |pieces| :: pieces[i].Data?
  {
    if pieces == [] then [] else pieces[0].bytes + Gathered(pieces[1..])
  }

  /** An unfinished reply: after each of its reads the data is still incomplete. */
  predicate StaysIncomplete(complete: seq<Byte> -> bool, pieces: seq<ReadResult>, data: seq<Byte>) {
    pieces != [] ==>
      && pieces[0].Data? && pieces[0].bytes != [] && !complete(data + pieces[0].bytes)
      && StaysIncomplete(complete, pieces[1..], data + pieces[0].bytes)
  }

  /**
   An unfinished reply is returned as far as it came when the stream ends, is a timeout when a read
   times out, and an error when a read fails.
   */
  lemma {:induction false} UnfinishedRepliesEnd(
    complete: seq<Byte> -> bool, pieces: seq<ReadResult>, rest: seq<ReadResult>, data: seq<Byte>)
    requires StaysIncomplete(complete, pieces, data) && (data == [] || !complete(data))
    requires rest != [] && rest[0].Data? ==> rest[0].bytes == []
    requires forall i | 0 <= i < |pieces| :: pieces[i].Data?
    ensures Collect(complete, pieces + rest, data) == Unfinished(rest, data + Gathered(pieces))
    decreases |pieces|
  {
    if pieces == [] {
      assert pieces + rest == rest && data + Gathered(pieces) == data;
    } else {
      var more := data + pieces[0].bytes;
      assert (pieces + rest)[0] == pieces[0] && (pieces + rest)[1..] == pieces[1..] + rest;
      UnfinishedRepliesEnd(complete, pieces[1..], rest, more);
      assert data + Gathered(pieces) == more + Gathered(pieces[1..]);
    }
  }

  // -- Forwarding ---------------------------------------------------------------------------

  /** How far a connection to the broker socket gets, with the reads that follow. */
  datatype Stream = NotConnected | NotWritten | NoReadTimeout | Open(arrivals: seq<ReadResult>)

  datatype ForwardError = NotSent(stream: Stream) | NotRead(why: Collected) | NotUtf8

  function Forward(
    stream: Stream, complete: seq<Byte> -> bool, utf8: seq<Byte> -> bool): Result<seq<Byte>, ForwardError>
  {
    if !stream.Open? then Err(NotSent(stream))
    else match Collect(complete, stream.arrivals, [])
      case Reply(bytes) => if utf8(bytes) then Ok(bytes) else Err(NotUtf8)
      case failure => Err(NotRead(failure))
  }

  method ForwardRequest(stream: Stream, complete: seq<Byte> -> bool, utf8: seq<Byte> -> bool)
    returns (r: Result<seq<Byte>, ForwardError>)
    requires stream.Open? ==> ReadsFit(stream.arrivals)
    ensures r == Forward(stream, complete, utf8)
  {
    if !stream.Open? { return Err(NotSent(stream)); }
    var collected := ReadReply(complete, stream.arrivals);
    match collected
    case Reply(bytes) => r := if utf8(bytes) then Ok(bytes) else Err(NotUtf8);
    case failure => r := Err(NotRead(failure));
  }

  /** A message that parses only as a whole comes through whole, however the socket splits it. */
  lemma WholeRepliesComeThrough(
    complete: seq<Byte> -> bool, utf8: seq<Byte> -> bool, arrivals: seq<ReadResult>, message: seq<Byte>)
    requires message != [] && complete(message) && !HasCompletePrefix(complete, message) && Splits(arrivals, message)
    ensures Forward(Open(arrivals), complete, utf8) == if utf8(message) then Ok(message) else Err(NotUtf8)
  {
    assert [] + message == message;
    SplitsAreCollected(complete, arrivals, [], message);
  }

  // -- Interactive tokens -----------------------------------------------------------------

  datatype TokenResult =
    | Token(text: seq<Byte>)
    | NoAccount
    | ThreadPanicked
    | LoginFailed(code: PamResultCode)
    | LoginPending
    | ForwardFailed(why: ForwardError)

  /** The options of an interactive login: no PIN, always a fresh login, no token from PAM. */
  function InteractiveConfig(account: string, pinMinLength: nat): Config {
    Config(account, "broker-interactive", None, true, true, false, false, pinMinLength)
  }

  /** The run of the login ended with the daemon's Success. */
  predicate LoggedIn(cfg: Config, worlds: seq<World>) {
    var run := Play(cfg, worlds);
    run.trace != [] && run.trace[|run.trace| - 1].world.reply == Step(Success)
  }

  /**
   The token request is forwarded exactly after a login the daemon closed with Success, and such a
   login opened with a forced Init for the very account of the request.
   */
  method AcquireTokenInteractively(
    account: Option<string>, pinMinLength: nat, connected: bool, panics: bool, worlds: seq<World>,
    stream: Stream, complete: seq<Byte> -> bool, utf8: seq<Byte> -> bool)
    returns (r: TokenResult, forwarded: bool)
    requires stream.Open? ==> ReadsFit(stream.arrivals)
    ensures forwarded <==> account.Some? && connected && !panics &&
                           LoggedIn(InteractiveConfig(account.value, pinMinLength), worlds)
    ensures forwarded ==>
            var requests := Requests(Play(InteractiveConfig(account.value, pinMinLength), worlds));
            requests != [] && requests[0] == Init(account.value, "broker-interactive", true, true)
    ensures forwarded ==>
            match Forward(stream, complete, utf8)
            case Ok(text) => r == Token(text)
            case Err(why) => r == ForwardFailed(why)
    ensures !forwarded ==> !r.Token? && !r.ForwardFailed?
  {
    forwarded := false;
    if account.None? { return NoAccount, false; }
    var cfg := InteractiveConfig(account.value, pinMinLength);
    if panics { return ThreadPanicked, false; }
    RunsConform(cfg, worlds);
    var code := Authenticate(connected, cfg, worlds);
    if code.None? { return LoginPending, false; }
    if code.value != PAM_SUCCESS { return LoginFailed(code.value), false; }
    forwarded := true;
    var reply := ForwardRequest(stream, complete, utf8);
    match reply
    case Ok(text) => r := Token(text);
    case Err(why) => r := ForwardFailed(why);
  }
}
