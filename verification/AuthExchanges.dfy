/**
 What each exchange of a run comes to, told from the run so far and from what the daemon, the user
 and the devices do: which request is sent, when the login is aborted and when it waits.
 */
module AuthExchanges {
  import opened Text
  import opened Pam
  import opened HelloPin
  import opened AuthProtocol
  import opened AuthRuns

  // -- Secrets that are accepted -------------------------------------------------------------

  /** All the rules for a new PIN: long enough, no arithmetic progression, and what the policy asks for. */
  ghost predicate GoodPin(minLength: nat, policy: Policy, pin: string) {
    && ByteLen(pin) >= minLength && ByteLen(pin) >= 6
    && (forall start, delta | 0 <= start < 10 && 0 <= delta < 10 :: !IsProgression(pin, start, delta))
    && policy.Some? && Reaches(policy.value, pin)
  }

  /** An accepted PIN meets all the rules; below 2^32 characters those that do are accepted. */
  lemma PinRuleExactly(minLength: nat, policy: Policy, pin: string)
    ensures Acceptable(PinRule(minLength, policy), pin) ==> GoodPin(minLength, policy, pin)
    ensures |pin| < 0x1_0000_0000 && GoodPin(minLength, policy, pin) ==> Acceptable(PinRule(minLength, policy), pin)
  {
    AcceptedReaches(policy, pin);
    if ByteLen(pin) >= 6 { SimplePinClosedForm(pin); }
  }

  ghost function GoodPins(minLength: nat, policy: Policy): string -> bool {
    pin => GoodPin(minLength, policy, pin)
  }

  /** Passwords of eight bytes and more. */
  function GoodPasswords(): string -> bool {
    password => ByteLen(password) >= 8
  }

  /** The entry depends on the rule only through its verdicts on what is typed. */
  lemma {:induction false} SameVerdictsSameEntry(
    accepts: string -> bool, accepts': string -> bool, inputs: seq<Option<string>>)
    requires forall s | Some(s) in inputs :: accepts(s) == accepts'(s)
    ensures EnterTwice(accepts, inputs) == EnterTwice(accepts', inputs)
    decreases |inputs|
  {
    if inputs != [] && inputs[0].Some? {
      assert inputs[0] in inputs;
      if !accepts(inputs[0].value) {
        SameVerdictsSameEntry(accepts, accepts', inputs[1..]);
      } else if |inputs| > 1 && inputs[1].Some? && inputs[0] != inputs[1] {
        SameVerdictsSameEntry(accepts, accepts', inputs[2..]);
      }
    }
  }

  /** The entry is dismissed, rather than waited on, exactly if some prompt is dismissed and no secret was taken. */
  lemma {:induction false} DismissedExactly(accepts: string -> bool, inputs: seq<Option<string>>)
    ensures EnterTwice(accepts, inputs).Dismissed? <==> !EnterTwice(accepts, inputs).Entered? && None in inputs
    decreases |inputs|
  {
    if inputs != [] && inputs[0].Some? {
      if !accepts(inputs[0].value) {
        DismissedExactly(accepts, inputs[1..]);
        assert inputs == [inputs[0]] + inputs[1..];
      } else if |inputs| > 1 && inputs[1].Some? && inputs[0] != inputs[1] {
        DismissedExactly(accepts, inputs[2..]);
        assert inputs == [inputs[0], inputs[1]] + inputs[2..];
      }
    }
  }

  /** The user came to confirm this secret, after any number of failing attempts. */
  ghost predicate Confirms(accepts: string -> bool, inputs: seq<Option<string>>, secret: string) {
    exists attempts :: TypedUntilConfirmed(accepts, inputs, attempts, secret)
  }

  lemma EnteredExactly(accepts: string -> bool, inputs: seq<Option<string>>, secret: string)
    ensures Confirms(accepts, inputs, secret) <==>
            EnterTwice(accepts, inputs).Entered? && EnterTwice(accepts, inputs).secret == secret
  {
    var entry := EnterTwice(accepts, inputs);
    if entry.Entered? { SecretTakenExactlyWhenConfirmed(accepts, inputs, secret, entry.prompts); }
    forall attempts | TypedUntilConfirmed(accepts, inputs, attempts, secret)
      ensures entry == Entered(secret, |Typed(attempts)| + 2)
    {
      SecretTakenExactlyWhenConfirmed(accepts, inputs, secret, |Typed(attempts)| + 2);
    }
  }

  // -- The outcome of an exchange -----------------------------------------------------------------

  /** A credential comes from PAM's token while there is one, otherwise from the first prompt. */
  predicate Supplied(token: Option<string>, inputs: seq<Option<string>>, cred: string) {
    token == Some(cred) || (token == None && [Some(cred)] <= inputs)
  }

  /** The enrolment of a TOTP can be shown, or needs no showing. */
  predicate Shows(cfg: Config, world: World, msg: string) {
    "otpauth://" <= msg && cfg.service != "gdm-password" ==> world.totpShown
  }

  /** The user has pressed enter, where that is asked for. */
  predicate Ready(cfg: Config, world: World, msg: string) {
    cfg.mfaPollPrompt && Contains(cfg.service, "ssh") && !Blank(msg) ==> world.inputs != []
  }

  /** A phone can be reached: Bluetooth is on, or the user of a graphical login turns it on within thirty checks. */
  predicate PhoneThere(cfg: Config, d: Devices, key: bool, cross: bool) {
    var checks := if |d.laterBluetooth| > 30 then d.laterBluetooth[..30] else d.laterBluetooth;
    cross && (d.bluetooth == PoweredOn ||
              (!key && d.bluetooth == PoweredOff && Contains(cfg.service, "gdm") && PoweredOn in checks))
  }

  predicate NoDevice(cfg: Config, d: Devices, key: bool, cross: bool) {
    !key && !PhoneThere(cfg, d, key, cross)
  }

  /**
   This assertion is given. A phone is asked in graphical logins only, and there a key, if there is
   one, is asked beside it; otherwise the key alone is asked.
   */
  predicate Asserts(cfg: Config, d: Devices, key: bool, cross: bool, a: string) {
    var keyGives := !d.usbPanics && d.usbKey.Ok?;
    if !(Contains(cfg.service, "gdm") && PhoneThere(cfg, d, key, cross)) then d.usbKey == Ok(a)
    else
      && d.runtime
      && (if key && keyGives && (d.usbFirst || d.phone.Err?) then d.usbKey == Ok(a) else d.phone == Ok(a))
  }

  /** The request that is sent, told from the token and the number of polls so far. */
  ghost predicate Sends(cfg: Config, token: Option<string>, polls: nat, world: World, request: Request) {
    world.reply.Step? &&
    match world.reply.response
    case Unknown => false
    case Success => false
    case InitDenied(_) => false
    case Denied(_) => request == Init(cfg.account, cfg.service, cfg.noHelloPin, cfg.forceReauth)
    case AskPassword => request.Password? && Supplied(token, world.inputs, request.cred)
    case AskPin => request.Pin? && Supplied(token, world.inputs, request.cred)
    case AskMfaCode(_) => request.MfaCode? && [Some(request.cred)] <= world.inputs
    case AskHelloTotp(msg) => request.HelloTotp? && Shows(cfg, world, msg) && [Some(request.cred)] <= world.inputs
    case StartPoll(msg, _) => request == MfaPoll(0) && polls % CYCLE == 0 && Ready(cfg, world, msg)
    case PollWait => request == MfaPoll(polls % CYCLE)
    case AskSetupPin(_) =>
      request.SetupPin? && Confirms(GoodPins(cfg.pinMinLength, world.policy), world.inputs, request.pin)
    case AskChangePassword(_) => request.Password? && Confirms(GoodPasswords(), world.inputs, request.cred)
    case AskFido(key, cross) =>
      if NoDevice(cfg, world.devices, key, cross) then request == FidoUnavailable
      else request.Fido? && Asserts(cfg, world.devices, key, cross, request.assertion)
  }

  /** The login is aborted. */
  ghost predicate Aborts(cfg: Config, token: Option<string>, polls: nat, world: World) {
    !world.reply.Step? ||
    match world.reply.response
    case InitDenied(_) => true
    case AskPassword => token == None && [None] <= world.inputs
    case AskPin => token == None && [None] <= world.inputs
    case AskMfaCode(_) => [None] <= world.inputs
    case AskHelloTotp(msg) => !Shows(cfg, world, msg) || [None] <= world.inputs
    case StartPoll(msg, _) => polls % CYCLE != 0 && Ready(cfg, world, msg)
    case AskSetupPin(_) =>
      None in world.inputs && forall pin :: !Confirms(GoodPins(cfg.pinMinLength, world.policy), world.inputs, pin)
    case AskChangePassword(_) =>
      None in world.inputs && forall password :: !Confirms(GoodPasswords(), world.inputs, password)
    case AskFido(key, cross) =>
      !NoDevice(cfg, world.devices, key, cross) && forall a :: !Asserts(cfg, world.devices, key, cross, a)
    case _ => false
  }

  /** The login waits at a prompt that nobody has answered yet. */
  ghost predicate Waits(cfg: Config, token: Option<string>, world: World) {
    world.reply.Step? &&
    match world.reply.response
    case AskPassword => token == None && world.inputs == []
    case AskPin => token == None && world.inputs == []
    case AskMfaCode(_) => world.inputs == []
    case AskHelloTotp(msg) => Shows(cfg, world, msg) && world.inputs == []
    case StartPoll(msg, _) => !Ready(cfg, world, msg)
    case AskSetupPin(_) =>
      None !in world.inputs && forall pin :: !Confirms(GoodPins(cfg.pinMinLength, world.policy), world.inputs, pin)
    case AskChangePassword(_) =>
      None !in world.inputs && forall password :: !Confirms(GoodPasswords(), world.inputs, password)
    case _ => false
  }

  /** New PINs are typed in fewer than 2^32 characters, up to which the policy check is exact. */
  predicate PinsFit(world: World) {
    world.reply.Step? && world.reply.response.AskSetupPin? ==>
      forall i | 0 <= i < |world.inputs| && world.inputs[i].Some? :: |world.inputs[i].value| < 0x1_0000_0000
  }

  ghost predicate ComesTo(cfg: Config, token: Option<string>, polls: nat, world: World, next: WhatNext) {
    && (forall request :: next == Next(request) <==> Sends(cfg, token, polls, world, request))
    && (next == Finish(PAM_ABORT) <==> Aborts(cfg, token, polls, world))
    && (next == Waiting <==> Waits(cfg, token, world))
    && (next == Finish(PAM_SUCCESS) <==> world.reply == Step(Success))
  }

  lemma PinsConfirmed(minLength: nat, policy: Policy, inputs: seq<Option<string>>)
    requires forall i | 0 <= i < |inputs| && inputs[i].Some? :: |inputs[i].value| < 0x1_0000_0000
    ensures EnterTwice(Accepts(PinRule(minLength, policy)), inputs) == EnterTwice(GoodPins(minLength, policy), inputs)
  {
    forall s | Some(s) in inputs ensures Accepts(PinRule(minLength, policy))(s) == GoodPins(minLength, policy)(s) {
      PinRuleExactly(minLength, policy, s);
    }
    SameVerdictsSameEntry(Accepts(PinRule(minLength, policy)), GoodPins(minLength, policy), inputs);
  }

  lemma PasswordsConfirmed(inputs: seq<Option<string>>)
    ensures EnterTwice(Accepts(PasswordRule), inputs) == EnterTwice(GoodPasswords(), inputs)
  {
    SameVerdictsSameEntry(Accepts(PasswordRule), GoodPasswords(), inputs);
  }

  /** How a new secret is entered decides between sending, aborting and waiting. */
  lemma NewSecretComesTo(
    st: ClientState, accepts: string -> bool, inputs: seq<Option<string>>, request: string -> Request)
    ensures var next := NewSecret(st, EnterTwice(accepts, inputs), request).report.next;
            && (forall secret | Confirms(accepts, inputs, secret) :: next == Next(request(secret)))
            && (next.Next? ==> exists secret :: Confirms(accepts, inputs, secret))
            && (next == Finish(PAM_ABORT) <==>
                None in inputs && forall secret :: !Confirms(accepts, inputs, secret))
            && (next == Waiting <==> None !in inputs && forall secret :: !Confirms(accepts, inputs, secret))
            && (next.Finish? ==> next.code == PAM_ABORT)
  {
    var entry := EnterTwice(accepts, inputs);
    DismissedExactly(accepts, inputs);
    forall secret
      ensures Confirms(accepts, inputs, secret) <==> entry.Entered? && entry.secret == secret
    {
      EnteredExactly(accepts, inputs, secret);
    }
    if entry.Entered? { assert Confirms(accepts, inputs, entry.secret); }
  }

  lemma NewPinStep(cfg: Config, st: ClientState, polls: nat, world: World)
    requires ValidState(st) && world.reply.Step? && world.reply.response.AskSetupPin? && PinsFit(world)
    ensures ComesTo(cfg, st.authtok, polls, world, Respond(cfg, st, world).report.next)
  {
    var good := GoodPins(cfg.pinMinLength, world.policy);
    PinsConfirmed(cfg.pinMinLength, world.policy, world.inputs);
    NewPinComesTo(cfg, st, polls, world, good, NewSecret(st, EnterTwice(good, world.inputs), pin => SetupPin(pin)));
  }

  lemma NewPinComesTo(cfg: Config, st: ClientState, polls: nat, world: World, good: string -> bool, stepped: Stepped)
    requires world.reply.Step? && world.reply.response.AskSetupPin?
    requires good == GoodPins(cfg.pinMinLength, world.policy)
    requires stepped == NewSecret(st, EnterTwice(good, world.inputs), pin => SetupPin(pin))
    ensures ComesTo(cfg, st.authtok, polls, world, stepped.report.next)
  {
    NewSecretComesTo(st, good, world.inputs, pin => SetupPin(pin));
  }

  lemma NewPasswordStep(cfg: Config, st: ClientState, polls: nat, world: World)
    requires ValidState(st) && world.reply.Step? && world.reply.response.AskChangePassword?
    ensures ComesTo(cfg, st.authtok, polls, world, Respond(cfg, st, world).report.next)
  {
    PasswordsConfirmed(world.inputs);
    NewSecretComesTo(st, GoodPasswords(), world.inputs, cred => Password(cred));
  }

  lemma FidoStep(cfg: Config, st: ClientState, polls: nat, world: World)
    requires ValidState(st) && world.reply.Step? && world.reply.response.AskFido?
    ensures ComesTo(cfg, st.authtok, polls, world, Respond(cfg, st, world).report.next)
  {
  }

  predicate AsksToPoll(world: World) {
    world.reply.Step? && (world.reply.response.StartPoll? || world.reply.response.PollWait?)
  }

  lemma PollStep(cfg: Config, st: ClientState, polls: nat, world: World)
    requires ValidState(st) && CounterAfter(polls, st.pollAttempt) && AsksToPoll(world)
    ensures ComesTo(cfg, st.authtok, polls, world, Respond(cfg, st, world).report.next)
  {
  }

  lemma OtherStep(cfg: Config, st: ClientState, polls: nat, world: World)
    requires ValidState(st) && !AsksToPoll(world)
    requires !AsksForSecret(world) && !(world.reply.Step? && world.reply.response.AskFido?)
    ensures ComesTo(cfg, st.authtok, polls, world, Respond(cfg, st, world).report.next)
  {
  }

  lemma StepComesTo(cfg: Config, st: ClientState, polls: nat, world: World)
    requires ValidState(st) && CounterAfter(polls, st.pollAttempt) && PinsFit(world)
    ensures ComesTo(cfg, st.authtok, polls, world, Respond(cfg, st, world).report.next)
  {
    if AsksForSecret(world) && world.reply.response.AskSetupPin? {
      NewPinStep(cfg, st, polls, world);
    } else if AsksForSecret(world) {
      NewPasswordStep(cfg, st, polls, world);
    } else if world.reply.Step? && world.reply.response.AskFido? {
      FidoStep(cfg, st, polls, world);
    } else if AsksToPoll(world) {
      PollStep(cfg, st, polls, world);
    } else {
      OtherStep(cfg, st, polls, world);
    }
  }

  /**
   Every exchange of every run sends a request, aborts, waits or succeeds exactly when the daemon's
   reply, the answers typed, the devices, the token not yet used and the polls so far call for it.
   */
  lemma ExchangesComeTo(cfg: Config, worlds: seq<World>, i: nat)
    requires i < |Play(cfg, worlds).trace| && PinsFit(Play(cfg, worlds).trace[i].world)
    ensures var trace := Play(cfg, worlds).trace;
            ComesTo(cfg, TokenAfter(cfg, trace[..i]), |Polls(Sent(trace[..i + 1]))|,
                    trace[i].world, trace[i].report.next)
  {
    var before := PlayTraceStep(cfg, worlds, i);
    TokenIsKeptUntilAskedFor(cfg, worlds[..i]);
    PollsAreNumbered(cfg, worlds[..i]);
    StepComesTo(cfg, before.state, |Polls(Requests(before))|, worlds[i]);
  }

  /** In every run a new PIN that is sent meets all the rules, however long it is. */
  lemma NewPinsAreGood(cfg: Config, worlds: seq<World>, i: nat)
    requires i < |Play(cfg, worlds).trace|
    ensures var e := Play(cfg, worlds).trace[i];
            e.report.next.Next? && e.report.next.request.SetupPin? ==>
              GoodPin(cfg.pinMinLength, e.world.policy, e.report.next.request.pin)
  {
    var e := Play(cfg, worlds).trace[i];
    if e.report.next.Next? && e.report.next.request.SetupPin? {
      NewSecretsAreConfirmed(cfg, worlds, i);
      PinRuleExactly(cfg.pinMinLength, e.world.policy, e.report.next.request.pin);
    }
  }
}
