/**
 Whole runs of the PAM client against an arbitrary daemon and an arbitrary user, and what every
 run has in common. A run is followed exchange by exchange, so all finite parts of a run that
 never ends are covered too.
 */
module AuthRuns {
  import opened Text
  import opened Pam
  import opened AuthProtocol

  /** A request that was sent, the world it met, and what the client made of it. */
  datatype Exchange = Exchange(request: Request, world: World, report: Report)

  datatype Run = Run(state: ClientState, next: WhatNext, trace: seq<Exchange>)

  function Start(cfg: Config): Run {
    Run(ClientState(cfg.authtok, -1, 2), Next(InitRequest(cfg)), [])
  }

  /** One turn of the loop; a finished run, or one held up at a prompt, stays as it is. */
  function Advance(cfg: Config, run: Run, world: World): Run
    requires ValidState(run.state)
  {
    if !run.next.Next? then run else Extend(run, world, Respond(cfg, run.state, world))
  }

  function Extend(run: Run, world: World, stepped: Stepped): Run
    requires run.next.Next?
  {
    Run(stepped.state, stepped.report.next, run.trace + [Exchange(run.next.request, world, stepped.report)])
  }

  function Play(cfg: Config, worlds: seq<World>): (run: Run)
    ensures ValidState(run.state)
  {
    if worlds == [] then Start(cfg)
    else Advance(cfg, Play(cfg, worlds[..|worlds| - 1]), worlds[|worlds| - 1])
  }

  /** All requests made, the one still to be answered included. */
  function Requests(run: Run): seq<Request> {
    Sent(run.trace) + (if run.next.Next? then [run.next.request] else [])
  }

  function Sent(trace: seq<Exchange>): (requests: seq<Request>)
    ensures |requests| == |trace|
    ensures forall i | 0 <= i < |trace| :: requests[i] == trace[i].request
  {
    if trace == [] then [] else Sent(trace[..|trace| - 1]) + [trace[|trace| - 1].request]
  }

  // -- Conformance -----------------------------------------------------------------------

  /** The requests a response asks for. */
  predicate Demands(cfg: Config, response: Response, request: Request) {
    match response
    case Unknown => false
    case Success => false
    case InitDenied(_) => false
    case Denied(_) => request == InitRequest(cfg)
    case AskPassword => request.Password?
    case AskMfaCode(_) => request.MfaCode?
    case AskHelloTotp(_) => request.HelloTotp?
    case StartPoll(_, _) => request == MfaPoll(0)
    case PollWait => request.MfaPoll?
    case AskSetupPin(_) => request.SetupPin?
    case AskPin => request.Pin?
    case AskFido(_, _) => request.Fido? || request == FidoUnavailable
    case AskChangePassword(_) => request.Password?
  }

  predicate IsDenied(e: Exchange) {
    e.world.reply.Step? && e.world.reply.response.Denied?
  }

  function CountInits(requests: seq<Request>): nat {
    if requests == [] then 0
    else CountInits(requests[..|requests| - 1]) + (if requests[|requests| - 1].Init? then 1 else 0)
  }

  function CountDenied(trace: seq<Exchange>): nat {
    if trace == [] then 0
    else CountDenied(trace[..|trace| - 1]) + (if IsDenied(trace[|trace| - 1]) then 1 else 0)
  }

  /** How a run may end, in terms of the daemon's last word. */
  predicate EndsAs(cfg: Config, code: PamResultCode, reply: Reply) {
    && code in {PAM_SUCCESS, PAM_ABORT, PAM_IGNORE, PAM_USER_UNKNOWN}
    && (code == PAM_SUCCESS <==> reply == Step(Success))
    && (code == PAM_IGNORE <==> reply == Step(Unknown) && cfg.ignoreUnknownUser)
    && (code == PAM_USER_UNKNOWN <==> reply == Step(Unknown) && !cfg.ignoreUnknownUser)
  }

  predicate Conforms(cfg: Config, run: Run) {
    Answers(cfg, run) && CountInits(Requests(run)) == 1 + CountDenied(run.trace) && Ends(cfg, run)
  }

  /** The first request is Init, and each later one is demanded by the response before it. */
  predicate Answers(cfg: Config, run: Run) {
    && |Requests(run)| > 0 && Requests(run)[0] == InitRequest(cfg)
    && (forall i | 0 < i < |Requests(run)| :: AnswersTo(cfg, run.trace[i - 1], Requests(run)[i]))
  }

  /** The run ends as the daemon's last word says, and a Success is its last word. */
  predicate Ends(cfg: Config, run: Run) {
    && (run.next.Finish? ==> run.trace != [] && EndsAs(cfg, run.next.code, run.trace[|run.trace| - 1].world.reply))
    && (forall i | 0 <= i < |run.trace| && run.trace[i].world.reply == Step(Success) ::
          i == |run.trace| - 1 && run.next == Finish(PAM_SUCCESS))
  }

  predicate AnswersTo(cfg: Config, e: Exchange, request: Request) {
    e.world.reply.Step? && Demands(cfg, e.world.reply.response, request)
  }

  predicate StepConformsAs(cfg: Config, world: World, next: WhatNext) {
    && (next.Next? ==> world.reply.Step? && Demands(cfg, world.reply.response, next.request))
    && (next.Finish? ==> EndsAs(cfg, next.code, world.reply))
    && (world.reply == Step(Success) ==> next == Finish(PAM_SUCCESS))
    && (world.reply.Step? && world.reply.response.Denied? ==> next.Next?)
  }

  lemma StepConforms(cfg: Config, st: ClientState, world: World)
    requires ValidState(st)
    ensures StepConformsAs(cfg, world, Respond(cfg, st, world).report.next)
  {
  }

  lemma SentAppend(trace: seq<Exchange>, e: Exchange)
    ensures Sent(trace + [e]) == Sent(trace) + [e.request]
  {
    assert (trace + [e])[..|trace|] == trace;
  }

  /** The bookkeeping of one turn: what is sent is what was to be sent, and one request more is made. */
  lemma ExtendRequests(run: Run, world: World, stepped: Stepped)
    requires run.next.Next?
    ensures var run' := Extend(run, world, stepped);
            && Sent(run'.trace) == Requests(run)
            && Requests(run') == (if run'.next.Next? then Requests(run) + [run'.next.request] else Requests(run))
  {
    SentAppend(run.trace, Exchange(run.next.request, world, stepped.report));
  }

  /**
   Every run conforms: it opens with Init, every later request is of the kind the response before
   it demands, Init is sent once plus once for each denial, only four codes are returned, and the
   code is PAM_SUCCESS exactly when the daemon's last word was Success.
   */
  lemma {:induction false} RunsConform(cfg: Config, worlds: seq<World>)
    ensures Conforms(cfg, Play(cfg, worlds))
  {
    if worlds == [] {
      StartConforms(cfg);
    } else {
      var run := Play(cfg, worlds[..|worlds| - 1]);
      var world := worlds[|worlds| - 1];
      RunsConform(cfg, worlds[..|worlds| - 1]);
      if run.next.Next? {
        StepConforms(cfg, run.state, world);
        ExtendConforms(cfg, run, world, Respond(cfg, run.state, world));
      }
    }
  }

  lemma StartConforms(cfg: Config)
    ensures Conforms(cfg, Start(cfg))
  {
    var requests := [InitRequest(cfg)];
    assert Requests(Start(cfg)) == requests;
    assert requests[..0] == [] && CountInits(requests) == 1;
  }

  lemma ExtendConforms(cfg: Config, run: Run, world: World, stepped: Stepped)
    requires run.next.Next? && Conforms(cfg, run)
    requires StepConformsAs(cfg, world, stepped.report.next)
    ensures Conforms(cfg, Extend(run, world, stepped))
  {
    ExtendAnswers(cfg, run, world, stepped);
    ExtendCounts(run, world, stepped);
    ExtendEnds(cfg, run, world, stepped);
  }

  lemma ExtendAnswers(cfg: Config, run: Run, world: World, stepped: Stepped)
    requires run.next.Next? && Answers(cfg, run) && StepConformsAs(cfg, world, stepped.report.next)
    ensures Answers(cfg, Extend(run, world, stepped))
  {
    var run' := Extend(run, world, stepped);
    ExtendRequests(run, world, stepped);
    forall i | 0 < i < |Requests(run')| ensures AnswersTo(cfg, run'.trace[i - 1], Requests(run')[i]) {
      if i < |Requests(run)| { assert AnswersTo(cfg, run.trace[i - 1], Requests(run)[i]); }
    }
  }

  lemma ExtendEnds(cfg: Config, run: Run, world: World, stepped: Stepped)
    requires run.next.Next? && Ends(cfg, run) && StepConformsAs(cfg, world, stepped.report.next)
    ensures Ends(cfg, Extend(run, world, stepped))
  {
  }

  lemma ExtendCounts(run: Run, world: World, stepped: Stepped)
    requires run.next.Next?
    ensures var run' := Extend(run, world, stepped);
            && CountDenied(run'.trace) ==
               CountDenied(run.trace) + (if world.reply.Step? && world.reply.response.Denied? then 1 else 0)
            && CountInits(Requests(run')) ==
               CountInits(Requests(run)) + (if run'.next.Next? && run'.next.request.Init? then 1 else 0)
  {
    var run' := Extend(run, world, stepped);
    ExtendRequests(run, world, stepped);
    assert run'.trace[..|run.trace|] == run.trace;
    if run'.next.Next? { assert Requests(run')[..|Requests(run)|] == Requests(run); }
  }

  // -- Polling ----------------------------------------------------------------------------

  /** The poll counter runs through this many numbers before it starts again. */
  const CYCLE: int := 0x8000_0001

  function Polls(requests: seq<Request>): seq<nat> {
    if requests == [] then []
    else
      var last := requests[|requests| - 1];
      Polls(requests[..|requests| - 1]) + (if last.MfaPoll? then [last.attempt] else [])
  }

  lemma PollsAppend(requests: seq<Request>, request: Request)
    ensures Polls(requests + [request]) == Polls(requests) + (if request.MfaPoll? then [request.attempt] else [])
  {
    assert (requests + [request])[..|requests|] == requests;
  }

  /** The counter field after `n` polls. */
  predicate CounterAfter(n: nat, pollAttempt: int) {
    if n % CYCLE == 0 then pollAttempt == (if n == 0 then -1 else -I32_MAX - 1)
    else pollAttempt == n % CYCLE - 1
  }

  predicate Numbered(polls: seq<nat>) {
    forall j | 0 <= j < |polls| :: polls[j] == j % CYCLE
  }

  /** What a step makes of the counter after `n` polls. */
  predicate CountsOn(n: nat, st: ClientState, stepped: Stepped) {
    if IsPoll(stepped.report.next)
    then stepped.report.next.request.attempt == n % CYCLE && CounterAfter(n + 1, stepped.state.pollAttempt)
    else stepped.state.pollAttempt == st.pollAttempt
  }

  lemma NextPoll(cfg: Config, st: ClientState, world: World, n: nat)
    requires ValidState(st) && CounterAfter(n, st.pollAttempt)
    ensures CountsOn(n, st, Respond(cfg, st, world))
  {
    CounterWraps(n);
  }

  /** The remainder goes up by one, and from the last number of the cycle back to zero. */
  lemma CounterWraps(n: nat)
    ensures (n + 1) % CYCLE == if n % CYCLE == CYCLE - 1 then 0 else n % CYCLE + 1
  {
  }

  predicate WellNumbered(run: Run) {
    Numbered(Polls(Requests(run))) && CounterAfter(|Polls(Requests(run))|, run.state.pollAttempt)
  }

  lemma ExtendNumbered(run: Run, world: World, stepped: Stepped)
    requires run.next.Next? && WellNumbered(run)
    requires CountsOn(|Polls(Requests(run))|, run.state, stepped)
    ensures WellNumbered(Extend(run, world, stepped))
  {
    ExtendRequests(run, world, stepped);
    if stepped.report.next.Next? { PollsAppend(Requests(run), stepped.report.next.request); }
  }

  /** Poll `j` of any run carries `j` modulo 2^31 + 1, across restarts and whatever the daemon answers. */
  lemma {:induction false} PollsAreNumbered(cfg: Config, worlds: seq<World>)
    ensures WellNumbered(Play(cfg, worlds))
  {
    if worlds == [] {
      assert Requests(Start(cfg)) == [InitRequest(cfg)];
    } else {
      var run := Play(cfg, worlds[..|worlds| - 1]);
      var world := worlds[|worlds| - 1];
      PollsAreNumbered(cfg, worlds[..|worlds| - 1]);
      if run.next.Next? {
        NextPoll(cfg, run.state, world, |Polls(Requests(run))|);
        ExtendNumbered(run, world, Respond(cfg, run.state, world));
      }
    }
  }

  predicate IsStartPoll(e: Exchange) {
    e.world.reply.Step? && e.world.reply.response.StartPoll?
  }

  /** The client takes up the polling it is asked for. */
  predicate Accepted(e: Exchange) {
    IsStartPoll(e) && e.report.next.Next?
  }

  /** The exchange at `i` was made by the run `before` in world `world`. */
  predicate MadeBy(cfg: Config, trace: seq<Exchange>, i: nat, before: Run, world: World) {
    && i < |trace| && before.next.Next? && ValidState(before.state)
    && before.trace == trace[..i]
    && trace[i] == Exchange(before.next.request, world, Respond(cfg, before.state, world).report)
    && Requests(before) == Sent(trace[..i + 1])
  }

  lemma {:induction false} PlayTraceStep(cfg: Config, worlds: seq<World>, i: nat) returns (before: Run)
    requires i < |Play(cfg, worlds).trace|
    ensures i < |worlds| && before == Play(cfg, worlds[..i])
    ensures MadeBy(cfg, Play(cfg, worlds).trace, i, before, worlds[i])
  {
    var n := |worlds| - 1;
    var run := Play(cfg, worlds[..n]);
    TraceGrows(cfg, worlds);
    if i < |run.trace| {
      before := PlayTraceStep(cfg, worlds[..n], i);
      assert worlds[..n][..i] == worlds[..i];
      StillMadeBy(cfg, run.trace, Play(cfg, worlds).trace, i, before, worlds[i]);
    } else {
      TraceLength(cfg, worlds[..n]);
      before := run;
      LastMadeBy(cfg, run, worlds[n]);
    }
  }

  lemma StillMadeBy(cfg: Config, trace: seq<Exchange>, longer: seq<Exchange>, i: nat, before: Run, world: World)
    requires trace <= longer && MadeBy(cfg, trace, i, before, world)
    ensures MadeBy(cfg, longer, i, before, world)
  {
    TakeFromPrefix(trace, longer, i);
    TakeFromPrefix(trace, longer, i + 1);
  }

  lemma LastMadeBy(cfg: Config, run: Run, world: World)
    requires run.next.Next? && ValidState(run.state)
    ensures MadeBy(cfg, Advance(cfg, run, world).trace, |run.trace|, run, world)
  {
    var stepped := Respond(cfg, run.state, world);
    var trace := Extend(run, world, stepped).trace;
    ExtendRequests(run, world, stepped);
    assert trace[..|trace|] == trace;
  }

  lemma TraceGrows(cfg: Config, worlds: seq<World>)
    requires worlds != []
    ensures Play(cfg, worlds[..|worlds| - 1]).trace <= Play(cfg, worlds).trace
  {
  }

  lemma TakeFromPrefix(a: seq<Exchange>, b: seq<Exchange>, k: nat)
    requires a <= b && k <= |a|
    ensures b[..k] == a[..k]
  {
  }

  /** While a run goes on, every world has been met by exactly one exchange. */
  lemma {:induction false} TraceLength(cfg: Config, worlds: seq<World>)
    ensures |Play(cfg, worlds).trace| <= |worlds|
    ensures Play(cfg, worlds).next.Next? ==> |Play(cfg, worlds).trace| == |worlds|
  {
    if worlds != [] { TraceLength(cfg, worlds[..|worlds| - 1]); }
  }

  /**
   Polling is taken up exactly when the polls so far number a multiple of the cycle (and the user
   has pressed enter where asked to); otherwise the run is aborted.
   */
  lemma PollingAcceptedExactly(cfg: Config, worlds: seq<World>, i: nat)
    requires i < |Play(cfg, worlds).trace| && IsStartPoll(Play(cfg, worlds).trace[i])
    requires !Play(cfg, worlds).trace[i].report.next.Waiting?
    ensures var e := Play(cfg, worlds).trace[i];
            && (Accepted(e) <==> |Polls(Sent(Play(cfg, worlds).trace[..i + 1]))| % CYCLE == 0)
            && (!Accepted(e) ==> e.report.next == Finish(PAM_ABORT))
  {
    var before := PlayTraceStep(cfg, worlds, i);
    PollsAreNumbered(cfg, worlds[..i]);
    StartPollOfStep(cfg, before.state, worlds[i]);
  }

  lemma StartPollOfStep(cfg: Config, st: ClientState, world: World)
    requires ValidState(st) && world.reply.Step? && world.reply.response.StartPoll?
    ensures var next := Respond(cfg, st, world).report.next;
            && (next.Next? ==> st.pollAttempt < 0 && next.request == MfaPoll(0))
            && (next.Finish? ==> st.pollAttempt >= 0 && next.code == PAM_ABORT)
  {
  }

  lemma {:induction false} PollIsCounted(trace: seq<Exchange>, k: nat)
    requires k < |trace| && trace[k].request.MfaPoll?
    ensures |Polls(Sent(trace))| > 0
  {
    if k < |trace| - 1 { PollIsCounted(trace[..|trace| - 1], k); }
  }

  lemma {:induction false} RequestFollowsReport(cfg: Config, worlds: seq<World>, j: nat)
    requires j + 1 < |Play(cfg, worlds).trace|
    ensures Play(cfg, worlds).trace[j].report.next == Next(Play(cfg, worlds).trace[j + 1].request)
  {
    var mid := PlayTraceStep(cfg, worlds, j);
    var later := PlayTraceStep(cfg, worlds, j + 1);
    assert worlds[..j + 1][..j] == worlds[..j];
  }

  lemma AcceptedBeforeAnyPoll(cfg: Config, worlds: seq<World>, trace: seq<Exchange>, i: nat)
    requires trace == Play(cfg, worlds).trace && i < |trace| && Accepted(trace[i])
    requires |Polls(Sent(trace[..i + 1]))| < CYCLE
    ensures |Polls(Sent(trace[..i + 1]))| == 0
  {
    PollingAcceptedExactly(cfg, worlds, i);
  }

  lemma AcceptedArePolled(cfg: Config, worlds: seq<World>, trace: seq<Exchange>)
    requires trace == Play(cfg, worlds).trace
    ensures forall j | 0 <= j < |trace| - 1 && Accepted(trace[j]) :: trace[j + 1].request.MfaPoll?
  {
    forall j | 0 <= j < |trace| - 1 && Accepted(trace[j]) ensures trace[j + 1].request.MfaPoll? {
      AcceptedIsPolled(cfg, worlds, j);
    }
  }

  /**
   While a run has sent fewer than 2^31 + 1 polls, it takes up polling at most once, and only
   before its first poll.
   */
  lemma PollingTakenUpOnce(cfg: Config, worlds: seq<World>, trace: seq<Exchange>, i: nat)
    requires trace == Play(cfg, worlds).trace && i < |trace| && Accepted(trace[i])
    requires |Polls(Sent(trace[..i + 1]))| < CYCLE
    ensures |Polls(Sent(trace[..i + 1]))| == 0
    ensures forall j | 0 <= j < i :: !Accepted(trace[j])
  {
    AcceptedArePolled(cfg, worlds, trace);
    NothingPolledNothingAccepted(trace, i);
    AcceptedBeforeAnyPoll(cfg, worlds, trace, i);
  }

  lemma NothingPolledNothingAccepted(trace: seq<Exchange>, i: nat)
    requires i < |trace|
    requires forall j | 0 <= j < |trace| - 1 && Accepted(trace[j]) :: trace[j + 1].request.MfaPoll?
    ensures |Polls(Sent(trace[..i + 1]))| == 0 ==> forall j | 0 <= j < i :: !Accepted(trace[j])
  {
    var sofar := trace[..i + 1];
    forall j | 0 <= j < i && Accepted(trace[j]) ensures |Polls(Sent(sofar))| > 0 {
      assert sofar[j + 1] == trace[j + 1];
      PollIsCounted(sofar, j + 1);
    }
  }

  /** Taking up polling makes the next request a poll. */
  lemma AcceptedIsPolled(cfg: Config, worlds: seq<World>, j: nat)
    requires j + 1 < |Play(cfg, worlds).trace| && Accepted(Play(cfg, worlds).trace[j])
    ensures Play(cfg, worlds).trace[j + 1].request.MfaPoll?
  {
    var before := PlayTraceStep(cfg, worlds, j);
    StartPollOfStep(cfg, before.state, worlds[j]);
    RequestFollowsReport(cfg, worlds, j);
  }

  function Repeat(world: World, n: nat): seq<World> {
    if n == 0 then [] else Repeat(world, n - 1) + [world]
  }

  /** A run that takes up polling and then polls on for `n` waits. */
  lemma {:induction false} PollingOn(cfg: Config, start: World, wait: World, n: nat)
    requires start.reply.Step? && start.reply.response.StartPoll? && start.inputs != [] && wait.reply == Step(PollWait)
    ensures var run := Play(cfg, [start] + Repeat(wait, n));
            HasPolled(run, n + 1)
  {
    var worlds := [start] + Repeat(wait, n);
    if n == 0 {
      assert worlds == [start] && worlds[..0] == [];
      FirstPoll(cfg, start);
    } else {
      PollingOn(cfg, start, wait, n - 1);
      assert worlds[..|worlds| - 1] == [start] + Repeat(wait, n - 1) && worlds[|worlds| - 1] == wait;
      PollOnce(cfg, Play(cfg, [start] + Repeat(wait, n - 1)), wait, n);
    }
  }

  /** Polling was taken up at once, and every exchange since then led to a poll. */
  predicate HasPolled(run: Run, n: nat) {
    n > 0 && run.next.Next? && |run.trace| == n && Accepted(run.trace[0]) && |Polls(Requests(run))| == n
  }

  lemma PollOnce(cfg: Config, run: Run, wait: World, n: nat)
    requires ValidState(run.state) && HasPolled(run, n) && wait.reply == Step(PollWait)
    ensures HasPolled(Advance(cfg, run, wait), n + 1)
  {
    OnePollMore(run, wait, Respond(cfg, run.state, wait));
  }

  lemma FirstPoll(cfg: Config, start: World)
    requires start.reply.Step? && start.reply.response.StartPoll? && start.inputs != []
    ensures var run := Advance(cfg, Start(cfg), start);
            HasPolled(run, 1)
  {
    var stepped := Respond(cfg, Start(cfg).state, start);
    assert Requests(Start(cfg)) == [InitRequest(cfg)];
    assert Polls([InitRequest(cfg)]) == [];
    OnePollMore(Start(cfg), start, stepped);
  }

  lemma OnePollMore(run: Run, world: World, stepped: Stepped)
    requires run.next.Next? && IsPoll(stepped.report.next)
    ensures |Polls(Requests(Extend(run, world, stepped)))| == |Polls(Requests(run))| + 1
  {
    ExtendRequests(run, world, stepped);
    PollsAppend(Requests(run), stepped.report.next.request);
  }

  /** After 2^31 + 1 polls a second start of polling is taken up: the counter has wrapped. */
  lemma SecondStartIsAccepted(cfg: Config, start: World, wait: World)
    requires start.reply.Step? && start.reply.response.StartPoll? && start.inputs != [] && wait.reply == Step(PollWait)
    ensures var trace := Play(cfg, [start] + Repeat(wait, CYCLE - 1) + [start]).trace;
            |trace| == CYCLE + 1 && Accepted(trace[0]) && Accepted(trace[CYCLE])
  {
    var earlier := [start] + Repeat(wait, CYCLE - 1);
    var worlds := earlier + [start];
    PollingOn(cfg, start, wait, CYCLE - 1);
    assert worlds[..|worlds| - 1] == earlier;
    PollsAreNumbered(cfg, earlier);
    StartPollOfStep(cfg, Play(cfg, earlier).state, start);
    WrappedCounter(Play(cfg, earlier).state.pollAttempt);
    AnsweredStart(cfg, Play(cfg, earlier).state, start);
  }

  lemma WrappedCounter(pollAttempt: int)
    requires CounterAfter(CYCLE, pollAttempt)
    ensures pollAttempt < 0
  {
  }

  lemma AnsweredStart(cfg: Config, st: ClientState, start: World)
    requires ValidState(st) && start.reply.Step? && start.reply.response.StartPoll? && start.inputs != []
    ensures Respond(cfg, st, start).report.next.Next? <==> st.pollAttempt < 0
  {
  }

  /** The interval of the last polling taken up, two seconds before that. */
  function IntervalSoFar(trace: seq<Exchange>): nat {
    if trace == [] then 2
    else if Accepted(trace[|trace| - 1]) then trace[|trace| - 1].world.reply.response.interval
    else IntervalSoFar(trace[..|trace| - 1])
  }

  lemma {:induction false} IntervalIsKept(cfg: Config, worlds: seq<World>)
    ensures Play(cfg, worlds).state.pollingInterval == IntervalSoFar(Play(cfg, worlds).trace)
  {
    if worlds != [] {
      var run := Play(cfg, worlds[..|worlds| - 1]);
      IntervalIsKept(cfg, worlds[..|worlds| - 1]);
      IntervalOfStep(cfg, run.state, worlds[|worlds| - 1]);
      if run.next.Next? { assert Play(cfg, worlds).trace[..|run.trace|] == run.trace; }
    }
  }

  /** Every poll is preceded by a pause of the interval last agreed, or of two seconds if none was. */
  lemma PollsPauseForTheInterval(cfg: Config, worlds: seq<World>, i: nat)
    requires i < |Play(cfg, worlds).trace|
    ensures var trace := Play(cfg, worlds).trace;
            trace[i].report.pollSleep ==
            if IsPoll(trace[i].report.next)
            then Some(IntervalSoFar(trace[..i + 1])) else None
  {
    var trace := Play(cfg, worlds).trace;
    var before := PlayTraceStep(cfg, worlds, i);
    IntervalIsKept(cfg, worlds[..i]);
    IntervalOfStep(cfg, before.state, worlds[i]);
    assert trace[..i + 1][..i] == trace[..i];
  }

  lemma IntervalOfStep(cfg: Config, st: ClientState, world: World)
    requires ValidState(st)
    ensures var r := Respond(cfg, st, world);
            && (IsPoll(r.report.next) <==> r.report.pollSleep.Some?)
            && (IsPoll(r.report.next) ==> r.report.pollSleep == Some(r.state.pollingInterval))
            && r.state.pollingInterval ==
               (if world.reply.Step? && world.reply.response.StartPoll? && r.report.next.Next?
                then world.reply.response.interval else st.pollingInterval)
  {
  }

  predicate IsPoll(next: WhatNext) {
    next.Next? && next.request.MfaPoll?
  }

  // -- Credentials --------------------------------------------------------------------------

  predicate AsksForToken(e: Exchange) {
    e.world.reply.Step? && (e.world.reply.response.AskPassword? || e.world.reply.response.AskPin?)
  }

  predicate AskedForToken(trace: seq<Exchange>) {
    exists i | 0 <= i < |trace| :: AsksForToken(trace[i])
  }

  /** The secret a request carries, if it is one the user or PAM supplies. */
  function Credential(request: Request): Option<string> {
    match request
    case Password(cred) => Some(cred)
    case MfaCode(cred) => Some(cred)
    case HelloTotp(cred) => Some(cred)
    case Pin(cred) => Some(cred)
    case SetupPin(pin) => Some(pin)
    case _ => None
  }

  lemma {:induction false} TokenIsKeptUntilAskedFor(cfg: Config, worlds: seq<World>)
    ensures Play(cfg, worlds).state.authtok == TokenAfter(cfg, Play(cfg, worlds).trace)
  {
    if worlds != [] {
      var run := Play(cfg, worlds[..|worlds| - 1]);
      TokenIsKeptUntilAskedFor(cfg, worlds[..|worlds| - 1]);
      if run.next.Next? {
        var trace := Play(cfg, worlds).trace;
        assert forall i | 0 <= i < |run.trace| :: trace[i] == run.trace[i];
        assert AsksForToken(trace[|run.trace|]) || AskedForToken(run.trace) <==> AskedForToken(trace);
      }
    }
  }

  /** The token still to be used after some exchanges. */
  function TokenAfter(cfg: Config, trace: seq<Exchange>): Option<string> {
    if AskedForToken(trace) then None else cfg.authtok
  }

  /** A credential sent is the token, where there is one and it is asked for, and otherwise the last answer typed. */
  predicate CredentialFrom(token: Option<string>, world: World, report: Report) {
    report.next.Next? && Credential(report.next.request).Some? ==>
      var cred := Credential(report.next.request);
      if world.reply.Step? && (world.reply.response.AskPassword? || world.reply.response.AskPin?) && token.Some?
      then cred == token && report.prompts == 0
      else 1 <= report.prompts <= |world.inputs| && world.inputs[report.prompts - 1] == cred
  }

  /**
   PAM's token answers the first Password or Pin response and nothing else. Every other credential
   sent is the user's answer to the last prompt made in that same exchange.
   */
  lemma CredentialsComeFromTokenOnceOrPrompt(cfg: Config, worlds: seq<World>, i: nat)
    requires i < |Play(cfg, worlds).trace|
    ensures var trace := Play(cfg, worlds).trace;
            CredentialFrom(TokenAfter(cfg, trace[..i]), trace[i].world, trace[i].report)
  {
    var before := PlayTraceStep(cfg, worlds, i);
    TokenIsKeptUntilAskedFor(cfg, worlds[..i]);
    CredentialOfStep(cfg, before.state, worlds[i]);
  }

  lemma CredentialOfStep(cfg: Config, st: ClientState, world: World)
    requires ValidState(st)
    ensures CredentialFrom(st.authtok, world, Respond(cfg, st, world).report)
  {
    var report := Respond(cfg, st, world).report;
    if !AsksForSecret(world) {
      CredentialElsewhere(cfg, st, world);
    } else if report.next.Next? {
      SecretOfStep(cfg, st, world);
      SecretIsCredential(cfg, st.authtok, world, report);
    }
  }

  lemma CredentialElsewhere(cfg: Config, st: ClientState, world: World)
    requires ValidState(st) && !AsksForSecret(world)
    ensures CredentialFrom(st.authtok, world, Respond(cfg, st, world).report)
  {
  }

  lemma SecretIsCredential(cfg: Config, token: Option<string>, world: World, report: Report)
    requires report.next.Next? && AsksForSecret(world) && SecretIsConfirmed(cfg, world, report)
    ensures CredentialFrom(token, world, report)
  {
  }

  predicate AsksForSecret(world: World) {
    world.reply.Step? && (world.reply.response.AskSetupPin? || world.reply.response.AskChangePassword?)
  }

  /** New PINs and new passwords are only ever sent when acceptable and confirmed right after. */
  lemma NewSecretsAreConfirmed(cfg: Config, worlds: seq<World>, i: nat)
    requires i < |Play(cfg, worlds).trace| && Play(cfg, worlds).trace[i].report.next.Next?
    ensures var e := Play(cfg, worlds).trace[i]; SecretIsConfirmed(cfg, e.world, e.report)
  {
    var before := PlayTraceStep(cfg, worlds, i);
    SecretOfStep(cfg, before.state, worlds[i]);
  }

  /** A PIN answers only the request for a new one, and a new password the request to change it. */
  predicate SecretIsConfirmed(cfg: Config, world: World, report: Report)
    requires report.next.Next?
  {
    var request := report.next.request;
    && (request.SetupPin? ==> AsksForSecret(world) && world.reply.response.AskSetupPin?)
    && (AsksForSecret(world) ==>
          if world.reply.response.AskSetupPin?
          then request.SetupPin? &&
               ConfirmedEntry(Accepts(PinRule(cfg.pinMinLength, world.policy)), world, report.prompts, request.pin)
          else request.Password? && ConfirmedEntry(Accepts(PasswordRule), world, report.prompts, request.cred))
  }

  /** The secret is acceptable and the last two answers both were that secret. */
  predicate ConfirmedEntry(accepts: string -> bool, world: World, prompts: nat, secret: string) {
    && accepts(secret)
    && 2 <= prompts <= |world.inputs|
    && world.inputs[prompts - 2] == world.inputs[prompts - 1] == Some(secret)
  }

  lemma EntryIsConfirmed(accepts: string -> bool, world: World)
    requires EnterTwice(accepts, world.inputs).Entered?
    ensures var entry := EnterTwice(accepts, world.inputs);
            ConfirmedEntry(accepts, world, entry.prompts, entry.secret)
  {
    EnteredTwiceInARow(accepts, world.inputs);
  }

  lemma SecretOfStep(cfg: Config, st: ClientState, world: World)
    requires ValidState(st) && Respond(cfg, st, world).report.next.Next?
    ensures SecretIsConfirmed(cfg, world, Respond(cfg, st, world).report)
  {
    StepConforms(cfg, st, world);
    match world.reply.response
    case AskSetupPin(_) => EntryIsConfirmed(Accepts(PinRule(cfg.pinMinLength, world.policy)), world);
    case AskChangePassword(_) => EntryIsConfirmed(Accepts(PasswordRule), world);
    case _ =>
  }
}
