/**
 The race between a USB security key and a phone reached by QR code and Bluetooth.
 The two paths and the selecting task take their steps in any interleaving.
 */
module FidoRace {
  import opened Text
  import opened Pam

  /** How one path ends: an assertion or an error code. */
  type Outcome = Result<string, PamResultCode>

  /** How the USB task ends for its joiner: its outcome, or a failed join. */
  datatype Joined = Finished(outcome: Outcome) | JoinError

  datatype Phase =
    | Selecting
    | AwaitingQr(fallback: PamResultCode)
    | AwaitingUsb
    | Done(result: Outcome)

  datatype Race = Race(usb: Option<Joined>, qr: Option<Outcome>, phase: Phase)

  const START := Race(None, None, Selecting)

  // -- Steps ------------------------------------------------------------------

  predicate UsbCompletes(s: Race, s': Race, usb: Joined) {
    s.usb == None && s' == s.(usb := Some(usb))
  }

  /** The QR path is polled by the selecting task, so it stands still once that task is done. */
  predicate QrCompletes(s: Race, s': Race, qr: Outcome) {
    s.qr == None && !s.phase.Done? && s' == s.(qr := Some(qr))
  }

  /** The select takes the USB branch: success wins, failure falls back to the QR path. */
  predicate SelectsUsb(s: Race, s': Race) {
    && s.phase == Selecting && s.usb.Some?
    && s' == s.(phase :=
        match s.usb.value
        case Finished(Ok(assertion)) => Done(Ok(assertion))
        case Finished(Err(e)) => AwaitingQr(e)
        case JoinError => AwaitingQr(PAM_AUTH_ERR))
  }

  /** The select takes the QR branch: success wins, failure falls back to the USB path. */
  predicate SelectsQr(s: Race, s': Race) {
    && s.phase == Selecting && s.qr.Some?
    && s' == s.(phase := if s.qr.value.Ok? then Done(s.qr.value) else AwaitingUsb)
  }

  predicate FallsBackToQr(s: Race, s': Race) {
    && s.phase.AwaitingQr? && s.qr.Some?
    && s' == s.(phase := Done(if s.qr.value.Ok? then s.qr.value else Err(s.phase.fallback)))
  }

  predicate FallsBackToUsb(s: Race, s': Race) {
    && s.phase.AwaitingUsb? && s.usb.Some?
    && s' == s.(phase := Done(
        match s.usb.value
        case Finished(outcome) => outcome
        case JoinError => Err(PAM_AUTH_ERR)))
  }

  predicate SelectorStep(s: Race, s': Race) {
    SelectsUsb(s, s') || SelectsQr(s, s') || FallsBackToQr(s, s') || FallsBackToUsb(s, s')
  }

  /** One step of the race whose paths end as `usb` and `qr`. */
  predicate Next(s: Race, s': Race, usb: Joined, qr: Outcome) {
    UsbCompletes(s, s', usb) || QrCompletes(s, s', qr) || SelectorStep(s, s')
  }

  /** An interleaving: from the start, one step at a time. */
  predicate IsRun(run: seq<Race>, usb: Joined, qr: Outcome) {
    && |run| > 0 && run[0] == START
    && forall i | 0 <= i < |run| - 1 :: Next(run[i], run[i + 1], usb, qr)
  }

  // -- The verdict, without any order -------------------------------------------

  predicate UsbSucceeds(usb: Joined) {
    usb.Finished? && usb.outcome.Ok?
  }

  function UsbError(usb: Joined): PamResultCode
    requires !UsbSucceeds(usb)
  {
    if usb.Finished? then usb.outcome.error else PAM_AUTH_ERR
  }

  /** The result depends on the outcomes alone; only a double success leaves a choice. */
  predicate Verdict(usb: Joined, qr: Outcome, result: Outcome) {
    if UsbSucceeds(usb) && qr.Ok? then result == usb.outcome || result == qr
    else if UsbSucceeds(usb) then result == usb.outcome
    else if qr.Ok? then result == qr
    else result == Err(UsbError(usb))
  }

  predicate Invariant(s: Race, usb: Joined, qr: Outcome) {
    && (s.usb.Some? ==> s.usb.value == usb)
    && (s.qr.Some? ==> s.qr.value == qr)
    && (s.phase.AwaitingQr? ==> s.usb.Some? && !UsbSucceeds(usb) && s.phase.fallback == UsbError(usb))
    && (s.phase.AwaitingUsb? ==> s.qr.Some? && qr.Err?)
    && (s.phase.Done? ==> Verdict(usb, qr, s.phase.result))
  }

  lemma {:induction false} InvariantHolds(run: seq<Race>, usb: Joined, qr: Outcome, i: nat)
    requires IsRun(run, usb, qr) && i < |run|
    ensures Invariant(run[i], usb, qr)
  {
    if i > 0 {
      InvariantHolds(run, usb, qr, i - 1);
      assert Next(run[i - 1], run[i - 1 + 1], usb, qr);
    }
  }

  /** Whatever the interleaving, a finished race has the verdict of its two outcomes. */
  lemma RaceIsOrderIndependent(run: seq<Race>, usb: Joined, qr: Outcome, i: nat)
    requires IsRun(run, usb, qr) && i < |run| && run[i].phase.Done?
    ensures Verdict(usb, qr, run[i].phase.result)
    ensures run[i].phase.result.Ok? <==> UsbSucceeds(usb) || qr.Ok?
  {
    InvariantHolds(run, usb, qr, i);
  }

  // -- Progress -----------------------------------------------------------------

  function Remaining(s: Race): nat {
    (if s.usb.None? then 1 else 0) + (if s.qr.None? then 1 else 0)
    + match s.phase
      case Selecting => 2
      case Done(_) => 0
      case _ => 1
  }

  lemma {:induction false} RemainingShrinks(run: seq<Race>, usb: Joined, qr: Outcome, i: nat)
    requires IsRun(run, usb, qr) && i < |run|
    ensures Remaining(run[i]) + i <= 4
  {
    if i > 0 {
      RemainingShrinks(run, usb, qr, i - 1);
      assert Next(run[i - 1], run[i - 1 + 1], usb, qr);
    }
  }

  /**
   No interleaving lasts longer than four steps, and once both paths have ended the selecting
   task can always move until it is done: the race neither loops nor gets stuck.
   */
  lemma RaceFinishes(run: seq<Race>, usb: Joined, qr: Outcome)
    requires IsRun(run, usb, qr)
    ensures |run| <= 5
    ensures var s := run[|run| - 1];
            s.usb.Some? && s.qr.Some? && !s.phase.Done? ==> exists s' :: SelectorStep(s, s')
  {
    RemainingShrinks(run, usb, qr, |run| - 1);
    InvariantHolds(run, usb, qr, |run| - 1);
    var s := run[|run| - 1];
    if s.usb.Some? && s.qr.Some? {
      match s.phase
      case Selecting =>
        assert SelectorStep(s, s.(phase := if s.qr.value.Ok? then Done(s.qr.value) else AwaitingUsb));
      case AwaitingQr(e) =>
        assert SelectorStep(s, s.(phase := Done(if s.qr.value.Ok? then s.qr.value else Err(e))));
      case AwaitingUsb =>
        assert SelectorStep(s, s.(phase := Done(
          match s.usb.value case Finished(outcome) => outcome case JoinError => Err(PAM_AUTH_ERR))));
      case Done(_) =>
    }
  }

  /** The race as its caller sees it, once it is known which path the select took first. */
  function RaceResult(usbFirst: bool, usb: Joined, qr: Outcome): Outcome {
    if usbFirst then
      match usb
      case Finished(Ok(assertion)) => Ok(assertion)
      case Finished(Err(e)) => if qr.Ok? then qr else Err(e)
      case JoinError => if qr.Ok? then qr else Err(PAM_AUTH_ERR)
    else if qr.Ok? then qr
    else
      match usb
      case Finished(outcome) => outcome
      case JoinError => Err(PAM_AUTH_ERR)
  }

  /** Both orders occur as interleavings, and no interleaving ends in anything else. */
  lemma RaceResultsAreTheInterleavings(usb: Joined, qr: Outcome, result: Outcome)
    ensures (exists run: seq<Race> :: IsRun(run, usb, qr) && run[|run| - 1].phase == Done(result)) <==>
            result == RaceResult(true, usb, qr) || result == RaceResult(false, usb, qr)
  {
    forall run: seq<Race> | IsRun(run, usb, qr) && run[|run| - 1].phase == Done(result)
      ensures result == RaceResult(true, usb, qr) || result == RaceResult(false, usb, qr)
    {
      RaceIsOrderIndependent(run, usb, qr, |run| - 1);
    }
    if result == RaceResult(true, usb, qr) {
      var run := UsbFirstRun(usb, qr);
    }
    if result == RaceResult(false, usb, qr) {
      var run := QrFirstRun(usb, qr);
    }
  }

  lemma UsbFirstRun(usb: Joined, qr: Outcome) returns (run: seq<Race>)
    ensures IsRun(run, usb, qr) && run[|run| - 1].phase == Done(RaceResult(true, usb, qr))
  {
    var s1 := START.(usb := Some(usb));
    if UsbSucceeds(usb) {
      run := [START, s1, s1.(phase := Done(usb.outcome))];
    } else {
      var s2 := s1.(phase := AwaitingQr(UsbError(usb)));
      var s3 := s2.(qr := Some(qr));
      run := [START, s1, s2, s3, s3.(phase := Done(RaceResult(true, usb, qr)))];
    }
  }

  lemma QrFirstRun(usb: Joined, qr: Outcome) returns (run: seq<Race>)
    ensures IsRun(run, usb, qr) && run[|run| - 1].phase == Done(RaceResult(false, usb, qr))
  {
    var s1 := START.(qr := Some(qr));
    if qr.Ok? {
      run := [START, s1, s1.(phase := Done(qr))];
    } else {
      var s2 := s1.(phase := AwaitingUsb);
      var s3 := s2.(usb := Some(usb));
      run := [START, s1, s2, s3, s3.(phase := Done(RaceResult(false, usb, qr)))];
    }
  }
}
