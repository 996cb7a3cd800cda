/**
 The PAM client as it runs: a client object whose handlers update the token, the poll counter
 and the polling interval, and the request loop around them.
 */
module AuthClient {
  import opened Text
  import opened Pam
  import opened FidoRace
  import opened AuthProtocol
  import opened AuthRuns

  class Client {
    const cfg: Config
    var authtok: Option<string>
    var pollAttempt: int
    var pollingInterval: nat

    ghost function View(): ClientState
      reads this
    {
      ClientState(authtok, pollAttempt, pollingInterval)
    }

    ghost predicate Valid()
      reads this
    {
      ValidState(View())
    }

    constructor (cfg: Config)
      ensures Valid() && this.cfg == cfg && View() == Start(cfg).state
    {
      this.cfg := cfg;
      authtok := cfg.authtok;
      pollAttempt := -1;
      pollingInterval := 2;
    }

    method HandleMfaPoll(world: World, msg: string, interval: nat) returns (report: Report)
      requires Valid()
      modifies this`pollAttempt, this`pollingInterval
      ensures Stepped(View(), report) == RespondStartPoll(cfg, old(View()), world, msg, interval)
    {
      var prompts := 0;
      if cfg.mfaPollPrompt && Contains(cfg.service, "ssh") && !Blank(msg) {
        if world.inputs == [] { return Report(Waiting, 0, None); }
        prompts := 1;
      }
      if pollAttempt >= 0 { return Report(Finish(PAM_ABORT), prompts, None); }
      pollAttempt := 0;
      pollingInterval := interval;
      report := Report(Next(MfaPoll(AsUnsigned(pollAttempt))), prompts, Some(pollingInterval));
    }

    method HandleMfaPollWait() returns (report: Report)
      requires Valid()
      modifies this`pollAttempt
      ensures Stepped(View(), report) == RespondPollWait(old(View()))
    {
      var next := if pollAttempt < 0 then 0 else NextI32(pollAttempt);
      pollAttempt := next;
      report := Report(Next(MfaPoll(AsUnsigned(pollAttempt))), 0, Some(pollingInterval));
    }

    /** Takes the token out of the client and, where there is none, prompts. */
    method TakeCredential(inputs: seq<Option<string>>) returns (entry: Entry)
      modifies this`authtok
      ensures authtok == None
      ensures old(authtok).Some? ==> entry == Entered(old(authtok).value, 0)
      ensures old(authtok).None? ==>
                if inputs == [] then entry == Unanswered(0)
                else if inputs[0].None? then entry == Dismissed(1)
                else entry == Entered(inputs[0].value, 1)
    {
      var token := authtok;
      authtok := None;
      if token.Some? { return Entered(token.value, 0); }
      if inputs == [] { return Unanswered(0); }
      entry := if inputs[0].None? then Dismissed(1) else Entered(inputs[0].value, 1);
    }

    /** Sends a secret that was entered; a dismissed prompt ends the login. */
    method SendEntry(entry: Entry, request: string -> Request) returns (report: Report)
      ensures Stepped(View(), report) == NewSecret(View(), entry, request)
    {
      match entry
      case Entered(secret, prompts) => report := Report(Next(request(secret)), prompts, None);
      case Dismissed(prompts) => report := Report(Finish(PAM_ABORT), prompts, None);
      case Unanswered(prompts) => report := Report(Waiting, prompts, None);
    }

    method HandlePassword(world: World) returns (report: Report)
      modifies this`authtok
      ensures Stepped(View(), report) == TokenOrPrompt(old(View()), world, cred => Password(cred))
    {
      var entry := TakeCredential(world.inputs);
      report := SendEntry(entry, cred => Password(cred));
    }

    method HandlePin(world: World) returns (report: Report)
      modifies this`authtok
      ensures Stepped(View(), report) == TokenOrPrompt(old(View()), world, cred => Pin(cred))
    {
      var entry := TakeCredential(world.inputs);
      report := SendEntry(entry, cred => Pin(cred));
    }

    /** Asks for a new secret and its confirmation, again and again until they agree. */
    method AskTwice(rule: SecretRule, inputs: seq<Option<string>>) returns (entry: Entry)
      ensures entry == EnterTwice(Accepts(rule), inputs)
    {
      var i := 0;
      while i < |inputs|
        invariant 0 <= i <= |inputs|
        invariant EnterTwice(Accepts(rule), inputs) == After(i, EnterTwice(Accepts(rule), inputs[i..]))
        decreases |inputs| - i
      {
        var secret := inputs[i];
        if secret.None? { return Dismissed(i + 1); }
        if !Acceptable(rule, secret.value) {
          i := i + 1;
          continue;
        }
        if i + 1 == |inputs| { return Unanswered(i + 1); }
        var confirm := inputs[i + 1];
        if confirm.None? { return Dismissed(i + 2); }
        if secret.value == confirm.value { return Entered(secret.value, i + 2); }
        assert inputs[i..][2..] == inputs[i + 2..];
        i := i + 2;
      }
      entry := Unanswered(i);
    }

    method HandleSetupPin(world: World) returns (report: Report)
      ensures Stepped(View(), report) ==
              NewSecret(View(), EnterTwice(Accepts(PinRule(cfg.pinMinLength, world.policy)), world.inputs),
                        pin => SetupPin(pin))
    {
      var entry := AskTwice(PinRule(cfg.pinMinLength, world.policy), world.inputs);
      report := SendEntry(entry, pin => SetupPin(pin));
    }

    method HandleChangePassword(world: World) returns (report: Report)
      ensures Stepped(View(), report) ==
              NewSecret(View(), EnterTwice(Accepts(PasswordRule), world.inputs), cred => Password(cred))
    {
      var entry := AskTwice(PasswordRule, world.inputs);
      report := SendEntry(entry, cred => Password(cred));
    }

    method HandleFido(world: World, hasPhysicalKey: bool, hasCrossDevice: bool) returns (report: Report)
      ensures Stepped(View(), report) == RespondFido(cfg, View(), world, hasPhysicalKey, hasCrossDevice)
    {
      var d := world.devices;
      var graphical := Contains(cfg.service, "gdm");
      var phone := hasCrossDevice && d.bluetooth == PoweredOn;
      if !hasPhysicalKey && !phone {
        if hasCrossDevice && d.bluetooth == PoweredOff && graphical {
          var i := 0;
          while i < 30
            invariant 0 <= i <= 30
            invariant !phone
            invariant forall j | 0 <= j < i :: !(j < |d.laterBluetooth| && d.laterBluetooth[j] == PoweredOn)
          {
            if i < |d.laterBluetooth| && d.laterBluetooth[i] == PoweredOn {
              phone := true;
              break;
            }
            i := i + 1;
          }
          assert phone <==> BluetoothComesOn(d);
        }
        if !phone { return Report(Next(FidoUnavailable), 0, None); }
      }
      var result: Outcome;
      if hasPhysicalKey && phone && graphical {
        result := if d.runtime then RaceResult(d.usbFirst, UsbTask(d), d.phone) else Err(PAM_AUTH_ERR);
      } else if phone && graphical {
        result := if d.runtime then d.phone else Err(PAM_AUTH_ERR);
      } else {
        result := d.usbKey;
      }
      report := if result.Ok? then Report(Next(Fido(result.value)), 0, None) else Report(Finish(PAM_ABORT), 0, None);
    }

    method HandlePrompt(world: World, request: string -> Request) returns (report: Report)
      ensures Stepped(View(), report) == PromptOnce(View(), world, request)
    {
      if world.inputs == [] {
        report := Report(Waiting, 0, None);
      } else if world.inputs[0].None? {
        report := Report(Finish(PAM_ABORT), 1, None);
      } else {
        report := Report(Next(request(world.inputs[0].value)), 1, None);
      }
    }

    /** One call to the daemon and the handling of its reply. */
    method RequestResponse(world: World) returns (report: Report)
      requires Valid()
      modifies this
      ensures Valid()
      ensures Stepped(View(), report) == Respond(cfg, old(View()), world)
    {
      if !world.reply.Step? { return Report(Finish(PAM_ABORT), 0, None); }
      match world.reply.response
      case Unknown =>
        report := Report(Finish(if cfg.ignoreUnknownUser then PAM_IGNORE else PAM_USER_UNKNOWN), 0, None);
      case Success => report := Report(Finish(PAM_SUCCESS), 0, None);
      case Denied(_) => report := Report(Next(InitRequest(cfg)), 0, None);
      case InitDenied(_) => report := Report(Finish(PAM_ABORT), 0, None);
      case AskPassword => report := HandlePassword(world);
      case AskMfaCode(_) => report := HandlePrompt(world, cred => MfaCode(cred));
      case AskHelloTotp(msg) =>
        if StartsWith(msg, "otpauth://") && cfg.service != "gdm-password" && !world.totpShown {
          report := Report(Finish(PAM_ABORT), 0, None);
        } else {
          report := HandlePrompt(world, cred => HelloTotp(cred));
        }
      case StartPoll(msg, interval) => report := HandleMfaPoll(world, msg, interval);
      case PollWait => report := HandleMfaPollWait();
      case AskSetupPin(_) => report := HandleSetupPin(world);
      case AskPin => report := HandlePin(world);
      case AskFido(hasPhysicalKey, hasCrossDevice) => report := HandleFido(world, hasPhysicalKey, hasCrossDevice);
      case AskChangePassword(_) => report := HandleChangePassword(world);
    }
  }

  /**
   The request loop. Without a daemon the login is ignored; otherwise the loop follows the run that
   the daemon and the user play, and returns a code once that run has finished.
   */
  method Authenticate(connected: bool, cfg: Config, worlds: seq<World>) returns (code: Option<PamResultCode>)
    ensures !connected ==> code == Some(PAM_IGNORE)
    ensures connected ==> code == (if Play(cfg, worlds).next.Finish? then Some(Play(cfg, worlds).next.code) else None)
    ensures connected && code.Some? ==>
            code.value in {PAM_SUCCESS, PAM_ABORT, PAM_IGNORE, PAM_USER_UNKNOWN}
    ensures code == Some(PAM_SUCCESS) ==>
            var trace := Play(cfg, worlds).trace;
            trace != [] && trace[|trace| - 1].world.reply == Step(Success)
  {
    if !connected { return Some(PAM_IGNORE); }
    var client := new Client(cfg);
    var req := InitRequest(cfg);
    ghost var run := Start(cfg);
    var i := 0;
    while i < |worlds|
      invariant 0 <= i <= |worlds|
      invariant client.Valid() && client.cfg == cfg
      invariant run == Play(cfg, worlds[..i])
      invariant run.state == client.View() && run.next == Next(req)
    {
      var report := client.RequestResponse(worlds[i]);
      assert worlds[..i + 1][..i] == worlds[..i];
      run := Advance(cfg, run, worlds[i]);
      i := i + 1;
      if !report.next.Next? {
        FinishedRunsStay(cfg, worlds, i);
        RunsConform(cfg, worlds);
        return if report.next.Finish? then Some(report.next.code) else None;
      }
      req := report.next.request;
    }
    assert worlds[..|worlds|] == worlds;
    code := None;
  }

  /** Nothing that happens later changes a run that has stopped. */
  lemma {:induction false} FinishedRunsStay(cfg: Config, worlds: seq<World>, i: nat)
    requires i <= |worlds| && !Play(cfg, worlds[..i]).next.Next?
    ensures Play(cfg, worlds) == Play(cfg, worlds[..i])
  {
    if i == |worlds| {
      assert worlds[..i] == worlds;
    } else {
      assert worlds[..|worlds| - 1][..i] == worlds[..i];
      FinishedRunsStay(cfg, worlds[..|worlds| - 1], i);
    }
  }
}
