/**
 The vocabulary shared by the PAM client: result codes and the messages exchanged with the daemon.
 */
module Pam {

  datatype PamResultCode =
    | PAM_SUCCESS
    | PAM_ABORT
    | PAM_IGNORE
    | PAM_USER_UNKNOWN
    | PAM_AUTH_ERR
    | PAM_CRED_INSUFFICIENT
    | PAM_SYSTEM_ERR
    | PAM_SERVICE_ERR

  datatype Request =
    | Init(account: string, service: string, noHelloPin: bool, forceReauth: bool)
    | Password(cred: string)
    | MfaCode(cred: string)
    | HelloTotp(cred: string)
    | MfaPoll(attempt: nat)
    | SetupPin(pin: string)
    | Pin(cred: string)
    | Fido(assertion: string)
    | FidoUnavailable

  datatype Response =
    | Unknown
    | Success
    | Denied(msg: string)
    | InitDenied(msg: string)
    | AskPassword
    | AskMfaCode(msg: string)
    | AskHelloTotp(msg: string)
    | StartPoll(msg: string, interval: nat)
    | PollWait
    | AskSetupPin(msg: string)
    | AskPin
    | AskFido(hasPhysicalKey: bool, hasCrossDevice: bool)
    | AskChangePassword(msg: string)

  /** What one call to the daemon brings back. */
  datatype Reply = SocketError | UnexpectedReply | Step(response: Response)
}
