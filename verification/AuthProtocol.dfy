/**
 One exchange of the PAM client with the daemon, on values: what the client answers to each
 response, which prompts it puts to the user and how its own state changes.
 */
module AuthProtocol {
  import opened Text
  import opened Pam
  import opened HelloPin
  import opened FidoRace

  datatype Config = Config(
    account: string,
    service: string,
    authtok: Option<string>,
    noHelloPin: bool,
    forceReauth: bool,
    ignoreUnknownUser: bool,
    mfaPollPrompt: bool,
    pinMinLength: nat)

  datatype Bluetooth = PoweredOn | PoweredOff | NoAdapter

  /** The devices an assertion may come from, and how each would answer. */
  datatype Devices = Devices(
    bluetooth: Bluetooth,
    laterBluetooth: seq<Bluetooth>,
    runtime: bool,
    usbKey: Outcome,
    usbPanics: bool,
    phone: Outcome,
    usbFirst: bool)

  /**
   Everything outside the client during one exchange: the daemon's reply, the user's answers to
   the prompts (`None` when a prompt is dismissed), the devices, the PIN policy, and whether a
   TOTP enrolment can be displayed.
   */
  datatype World = World(
    reply: Reply,
    inputs: seq<Option<string>>,
    devices: Devices,
    policy: Policy,
    totpShown: bool)

  datatype ClientState = ClientState(authtok: Option<string>, pollAttempt: int, pollingInterval: nat)

  /** `Waiting`: the client is still at a prompt that has not been answered. */
  datatype WhatNext = Next(request: Request) | Finish(code: PamResultCode) | Waiting

  /** What one exchange did: its result, the prompts answered, and the pause before a poll. */
  datatype Report = Report(next: WhatNext, prompts: nat, pollSleep: Option<nat>)

  datatype Stepped = Stepped(state: ClientState, report: Report)

  // -- Signed 32-bit poll counter -------------------------------------------------

  const I32_MAX: int := 0x7fff_ffff
  const TWO_32: int := 0x1_0000_0000

  /** Addition of one on a signed 32-bit number, wrapping around. */
  function NextI32(n: int): int {
    if n == I32_MAX then -I32_MAX - 1 else n + 1
  }

  /** The cast of a signed 32-bit number to an unsigned one. */
  function AsUnsigned(n: int): nat
    requires -I32_MAX - 1 <= n
  {
    if n < 0 then n + TWO_32 else n
  }

  predicate ValidState(st: ClientState) {
    -I32_MAX - 1 <= st.pollAttempt <= I32_MAX
  }

  // -- Entering a secret twice ------------------------------------------------------

  datatype SecretRule = PinRule(minLength: nat, policy: Policy) | PasswordRule

  predicate Acceptable(rule: SecretRule, secret: string) {
    match rule
    case PinRule(minLength, policy) =>
      && ByteLen(secret) >= minLength
      && !IsSimplePin(secret)
      && MeetsIntunePinPolicy(policy, secret) == Compliant
    case PasswordRule => ByteLen(secret) >= 8
  }

  function Accepts(rule: SecretRule): string -> bool {
    secret => Acceptable(rule, secret)
  }

  /** How the entry of a new secret ends, with the number of prompts answered. */
  datatype Entry = Entered(secret: string, prompts: nat) | Dismissed(prompts: nat) | Unanswered(prompts: nat)

  function After(n: nat, entry: Entry): Entry {
    match entry
    case Entered(secret, prompts) => Entered(secret, n + prompts)
    case Dismissed(prompts) => Dismissed(n + prompts)
    case Unanswered(prompts) => Unanswered(n + prompts)
  }

  /** Asks for a secret and its confirmation until both agree. */
  function EnterTwice(accepts: string -> bool, inputs: seq<Option<string>>): Entry {
    if inputs == [] then Unanswered(0)
    else if inputs[0].None? then Dismissed(1)
    else if !accepts(inputs[0].value) then After(1, EnterTwice(accepts, inputs[1..]))
    else if |inputs| == 1 then Unanswered(1)
    else if inputs[1].None? then Dismissed(2)
    else if inputs[0] == inputs[1] then Entered(inputs[0].value, 2)
    else After(2, EnterTwice(accepts, inputs[2..]))
  }

  /** An attempt that has to be repeated: a refused secret, or a confirmation that differs. */
  datatype Attempt = Refused(secret: string) | Mismatch(secret: string, other: string)

  predicate Fails(accepts: string -> bool, attempt: Attempt) {
    match attempt
    case Refused(secret) => !accepts(secret)
    case Mismatch(secret, other) => accepts(secret) && secret != other
  }

  function TypedOnce(attempt: Attempt): seq<Option<string>> {
    match attempt
    case Refused(secret) => [Some(secret)]
    case Mismatch(secret, other) => [Some(secret), Some(other)]
  }

  function Typed(attempts: seq<Attempt>): seq<Option<string>> {
    if attempts == [] then []
    else TypedOnce(attempts[0]) + Typed(attempts[1..])
  }

  predicate AllFail(accepts: string -> bool, attempts: seq<Attempt>) {
    forall i | 0 <= i < |attempts| :: Fails(accepts, attempts[i])
  }

  /** The user typed failing attempts and then an acceptable secret twice. */
  predicate TypedUntilConfirmed(
    accepts: string -> bool, inputs: seq<Option<string>>, attempts: seq<Attempt>, secret: string)
  {
    && AllFail(accepts, attempts) && accepts(secret)
    && Typed(attempts) + [Some(secret), Some(secret)] <= inputs
  }

  lemma {:induction false} EnteredMeansConfirmed(accepts: string -> bool, inputs: seq<Option<string>>)
    returns (attempts: seq<Attempt>)
    requires EnterTwice(accepts, inputs).Entered?
    ensures TypedUntilConfirmed(accepts, inputs, attempts, EnterTwice(accepts, inputs).secret)
    ensures EnterTwice(accepts, inputs).prompts == |Typed(attempts)| + 2
    decreases |inputs|
  {
    if !accepts(inputs[0].value) {
      var rest := EnteredMeansConfirmed(accepts, inputs[1..]);
      attempts := OneMoreAttempt(
        accepts, inputs, Refused(inputs[0].value), rest, EnterTwice(accepts, inputs[1..]).secret);
    } else if inputs[0] != inputs[1] {
      var rest := EnteredMeansConfirmed(accepts, inputs[2..]);
      attempts := OneMoreAttempt(
        accepts, inputs, Mismatch(inputs[0].value, inputs[1].value), rest, EnterTwice(accepts, inputs[2..]).secret);
    } else {
      attempts := [];
    }
  }

  lemma OneMoreAttempt(
    accepts: string -> bool, inputs: seq<Option<string>>, first: Attempt, rest: seq<Attempt>, secret: string)
    returns (attempts: seq<Attempt>)
    requires Fails(accepts, first) && TypedOnce(first) <= inputs
    requires TypedUntilConfirmed(accepts, inputs[|TypedOnce(first)|..], rest, secret)
    ensures TypedUntilConfirmed(accepts, inputs, attempts, secret)
    ensures |Typed(attempts)| == |TypedOnce(first)| + |Typed(rest)|
  {
    attempts := [first] + rest;
    var twice := [Some(secret), Some(secret)];
    assert attempts[1..] == rest;
    assert Typed(attempts) + twice == TypedOnce(first) + (Typed(rest) + twice);
    assert inputs == TypedOnce(first) + inputs[|TypedOnce(first)|..];
  }

  /** A failing attempt is passed over. */
  lemma FailingAttemptIsRepeated(accepts: string -> bool, attempt: Attempt, later: seq<Option<string>>)
    requires Fails(accepts, attempt)
    ensures EnterTwice(accepts, TypedOnce(attempt) + later) == After(|TypedOnce(attempt)|, EnterTwice(accepts, later))
  {
    var inputs := TypedOnce(attempt) + later;
    assert inputs[|TypedOnce(attempt)|..] == later;
  }

  lemma EqualSecretsAreTaken(accepts: string -> bool, secret: string, later: seq<Option<string>>)
    requires accepts(secret)
    ensures EnterTwice(accepts, [Some(secret), Some(secret)] + later) == Entered(secret, 2)
  {
  }

  lemma {:induction false} ConfirmedMeansEntered(
    accepts: string -> bool, attempts: seq<Attempt>, secret: string, later: seq<Option<string>>)
    requires AllFail(accepts, attempts) && accepts(secret)
    ensures EnterTwice(accepts, Typed(attempts) + ([Some(secret), Some(secret)] + later))
         == Entered(secret, |Typed(attempts)| + 2)
    decreases |attempts|
  {
    var twice := [Some(secret), Some(secret)] + later;
    if attempts == [] {
      assert Typed(attempts) + twice == twice;
      EqualSecretsAreTaken(accepts, secret, later);
    } else {
      var rest := attempts[1..];
      assert AllFail(accepts, rest) by {
        forall i | 0 <= i < |rest| ensures Fails(accepts, rest[i]) { assert rest[i] == attempts[i + 1]; }
      }
      ConfirmedMeansEntered(accepts, rest, secret, later);
      assert Typed(attempts) + twice == TypedOnce(attempts[0]) + (Typed(rest) + twice);
      FailingAttemptIsRepeated(accepts, attempts[0], Typed(rest) + twice);
    }
  }

  /**
   A secret is taken exactly when the user typed failing attempts followed by that secret,
   acceptable, and once more as its confirmation; the prompts answered are just those.
   */
  lemma SecretTakenExactlyWhenConfirmed(
    accepts: string -> bool, inputs: seq<Option<string>>, secret: string, prompts: nat)
    ensures EnterTwice(accepts, inputs) == Entered(secret, prompts) <==>
            exists attempts :: TypedUntilConfirmed(accepts, inputs, attempts, secret) &&
                               prompts == |Typed(attempts)| + 2
  {
    if EnterTwice(accepts, inputs) == Entered(secret, prompts) {
      var attempts := EnteredMeansConfirmed(accepts, inputs);
    }
    forall attempts | TypedUntilConfirmed(accepts, inputs, attempts, secret)
      ensures EnterTwice(accepts, inputs) == Entered(secret, |Typed(attempts)| + 2)
    {
      var typed := Typed(attempts) + [Some(secret), Some(secret)];
      assert inputs == Typed(attempts) + ([Some(secret), Some(secret)] + inputs[|typed|..]);
      ConfirmedMeansEntered(accepts, attempts, secret, inputs[|typed|..]);
    }
  }

  /** An entered secret is acceptable and was typed twice in a row, just before the answer. */
  lemma EnteredTwiceInARow(accepts: string -> bool, inputs: seq<Option<string>>)
    requires EnterTwice(accepts, inputs).Entered?
    ensures var Entered(secret, prompts) := EnterTwice(accepts, inputs);
            && 2 <= prompts <= |inputs|
            && inputs[prompts - 2] == inputs[prompts - 1] == Some(secret)
            && accepts(secret)
  {
    var attempts := EnteredMeansConfirmed(accepts, inputs);
    var secret := EnterTwice(accepts, inputs).secret;
    var typed := Typed(attempts) + [Some(secret), Some(secret)];
    assert inputs[|typed| - 2] == typed[|typed| - 2] && inputs[|typed| - 1] == typed[|typed| - 1];
  }

  // -- Answers to the daemon ----------------------------------------------------------

  function InitRequest(cfg: Config): Request {
    Init(cfg.account, cfg.service, cfg.noHelloPin, cfg.forceReauth)
  }

  function Fail(st: ClientState, prompts: nat): Stepped {
    Stepped(st, Report(Finish(PAM_ABORT), prompts, None))
  }

  function Still(st: ClientState, prompts: nat): Stepped {
    Stepped(st, Report(Waiting, prompts, None))
  }

  function Answer(st: ClientState, request: Request, prompts: nat): Stepped {
    Stepped(st, Report(Next(request), prompts, None))
  }

  /** SSH does not show messages of its own accord, so the user is asked to press enter. */
  predicate PromptsBeforePoll(cfg: Config, msg: string) {
    cfg.mfaPollPrompt && Contains(cfg.service, "ssh") && !Blank(msg)
  }

  function RespondStartPoll(cfg: Config, st: ClientState, world: World, msg: string, interval: nat): Stepped {
    var prompts := if PromptsBeforePoll(cfg, msg) then 1 else 0;
    if |world.inputs| < prompts then Still(st, 0)
    else if st.pollAttempt >= 0 then Fail(st, prompts)
    else Stepped(st.(pollAttempt := 0, pollingInterval := interval),
                 Report(Next(MfaPoll(0)), prompts, Some(interval)))
  }

  function RespondPollWait(st: ClientState): Stepped
    requires ValidState(st)
  {
    var attempt := if st.pollAttempt < 0 then 0 else NextI32(st.pollAttempt);
    Stepped(st.(pollAttempt := attempt),
            Report(Next(MfaPoll(AsUnsigned(attempt))), 0, Some(st.pollingInterval)))
  }

  /** A credential from one prompt. */
  function PromptOnce(st: ClientState, world: World, request: string -> Request): Stepped {
    if world.inputs == [] then Still(st, 0)
    else match world.inputs[0]
      case None => Fail(st, 1)
      case Some(cred) => Answer(st, request(cred), 1)
  }

  /** The token handed over by PAM is taken out of the state, so it can be used only once. */
  function TokenOrPrompt(st: ClientState, world: World, request: string -> Request): Stepped {
    match st.authtok
    case Some(cred) => Answer(st.(authtok := None), request(cred), 0)
    case None => PromptOnce(st, world, request)
  }

  function NewSecret(st: ClientState, entry: Entry, request: string -> Request): Stepped {
    match entry
    case Entered(secret, prompts) => Answer(st, request(secret), prompts)
    case Dismissed(prompts) => Fail(st, prompts)
    case Unanswered(prompts) => Still(st, prompts)
  }

  predicate Graphical(cfg: Config) {
    Contains(cfg.service, "gdm")
  }

  /** Bluetooth comes on in one of the thirty checks made while the user is asked to enable it. */
  predicate BluetoothComesOn(devices: Devices) {
    exists i | 0 <= i < 30 :: i < |devices.laterBluetooth| && devices.laterBluetooth[i] == PoweredOn
  }

  predicate PhoneUsable(cfg: Config, devices: Devices, hasPhysicalKey: bool, hasCrossDevice: bool) {
    hasCrossDevice &&
    (devices.bluetooth == PoweredOn ||
     (!hasPhysicalKey && devices.bluetooth == PoweredOff && Graphical(cfg) && BluetoothComesOn(devices)))
  }

  function UsbTask(devices: Devices): Joined {
    if devices.usbPanics then JoinError else Finished(devices.usbKey)
  }

  function Assertion(cfg: Config, devices: Devices, hasPhysicalKey: bool, phoneUsable: bool): Outcome {
    if phoneUsable && Graphical(cfg) then
      if !devices.runtime then Err(PAM_AUTH_ERR)
      else if hasPhysicalKey then RaceResult(devices.usbFirst, UsbTask(devices), devices.phone)
      else devices.phone
    else devices.usbKey
  }

  function RespondFido(
    cfg: Config, st: ClientState, world: World, hasPhysicalKey: bool, hasCrossDevice: bool): Stepped
  {
    var phoneUsable := PhoneUsable(cfg, world.devices, hasPhysicalKey, hasCrossDevice);
    if !hasPhysicalKey && !phoneUsable then Answer(st, FidoUnavailable, 0)
    else match Assertion(cfg, world.devices, hasPhysicalKey, phoneUsable)
      case Ok(assertion) => Answer(st, Fido(assertion), 0)
      case Err(_) => Fail(st, 0)
  }

  function RespondHelloTotp(cfg: Config, st: ClientState, world: World, msg: string): Stepped {
    if StartsWith(msg, "otpauth://") && cfg.service != "gdm-password" && !world.totpShown then Fail(st, 0)
    else PromptOnce(st, world, cred => HelloTotp(cred))
  }

  /** The whole of one exchange, from the daemon's reply on. */
  function Respond(cfg: Config, st: ClientState, world: World): (r: Stepped)
    requires ValidState(st)
    ensures ValidState(r.state)
  {
    if !world.reply.Step? then Fail(st, 0)
    else match world.reply.response
      case Unknown =>
        Stepped(st, Report(Finish(if cfg.ignoreUnknownUser then PAM_IGNORE else PAM_USER_UNKNOWN), 0, None))
      case Success => Stepped(st, Report(Finish(PAM_SUCCESS), 0, None))
      case Denied(_) => Answer(st, InitRequest(cfg), 0)
      case InitDenied(_) => Fail(st, 0)
      case AskPassword => TokenOrPrompt(st, world, cred => Password(cred))
      case AskMfaCode(_) => PromptOnce(st, world, cred => MfaCode(cred))
      case AskHelloTotp(msg) => RespondHelloTotp(cfg, st, world, msg)
      case StartPoll(msg, interval) => RespondStartPoll(cfg, st, world, msg, interval)
      case PollWait => RespondPollWait(st)
      case AskSetupPin(_) =>
        NewSecret(st, EnterTwice(Accepts(PinRule(cfg.pinMinLength, world.policy)), world.inputs), pin => SetupPin(pin))
      case AskPin => TokenOrPrompt(st, world, cred => Pin(cred))
      case AskFido(hasPhysicalKey, hasCrossDevice) => RespondFido(cfg, st, world, hasPhysicalKey, hasCrossDevice)
      case AskChangePassword(_) =>
        NewSecret(st, EnterTwice(Accepts(PasswordRule), world.inputs), cred => Password(cred))
  }

  /**
   The answer to a FIDO response: the fallback is requested exactly when neither kind of device is
   usable; an assertion sent is one a device really gave; and when key and phone both took part,
   the login is aborted exactly when both failed.
   */
  lemma FidoAnswers(cfg: Config, st: ClientState, world: World, hasPhysicalKey: bool, hasCrossDevice: bool)
    ensures var r := RespondFido(cfg, st, world, hasPhysicalKey, hasCrossDevice);
            var d := world.devices;
            var phone := PhoneUsable(cfg, d, hasPhysicalKey, hasCrossDevice);
            && r.state == st
            && (r.report.next == Next(FidoUnavailable) <==> !hasPhysicalKey && !phone)
            && (forall a :: r.report.next == Next(Fido(a)) ==>
                  (d.usbKey == Ok(a) || (phone && Graphical(cfg) && d.phone == Ok(a))))
            && (hasPhysicalKey && phone && Graphical(cfg) && d.runtime ==>
                  (r.report.next == Finish(PAM_ABORT) <==> !UsbSucceeds(UsbTask(d)) && d.phone.Err?))
  {
  }
}
