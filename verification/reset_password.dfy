/** The submit handler of the reset-password page (src/pages/reset-password.page.jsx):
    two local checks in a fixed order, then a single `resetPassword` request. The request's
    outcome is a parameter; toasts and navigation are returned as data. */
module ResetPassword {
  import opened Wrappers
  import opened Json
  import opened Text

  const MismatchText: string := "Passwords do not match!"
  const TooShortText: string := "Password must be at least 6 characters!"
  const SuccessText: string := "Password reset successful! You can now login."
  const FailureFallback: string := "Failed to reset password. The link may have expired."

  /** The length the code enforces; the page's requirements panel advertises 8. */
  const MinLength: nat := 6

  /** The body of the `resetPassword` mutation: the route token and the new password. */
  datatype Request = Request(token: Val, password: string)

  /** The result of the local checks: an error toast and no request, or the request. */
  datatype Check = Invalid(message: string) | Send(request: Request)

  /** The two checks of `onSubmit`, mismatch first, then length in UTF-16 code units. */
  function Validate(password: string, confirmPassword: string, token: Val): (r: Check)
    ensures r.Send? <==> password == confirmPassword && Utf16Length(password) >= MinLength
    ensures password != confirmPassword ==> r == Invalid(MismatchText)
    ensures password == confirmPassword && Utf16Length(password) < MinLength ==> r == Invalid(TooShortText)
    ensures r.Send? ==> r.request == Request(token, password)
  {
    if password != confirmPassword then Invalid(MismatchText)
    else if Utf16Length(password) < MinLength then Invalid(TooShortText)
    else Send(Request(token, password))
  }

  /** How the server answers the request. */
  datatype Reply = Fulfilled | Rejected(error: Val)

  datatype Toast = SuccessToast(text: Json) | ErrorToast(text: Json)

  /** Everything one submit does: the requests issued, the toast shown, and whether the
      page moves on to the login route. */
  datatype Effect = Effect(requests: seq<Request>, toast: Toast, toLogin: bool)

  /** `error?.data?.message || fallback` */
  function FailureText(error: Val): (r: Json)
    ensures Truthy(Get(Get(error, "data"), "message")) ==> Some(r) == Get(Get(error, "data"), "message")
    ensures !Truthy(Get(Get(error, "data"), "message")) ==> r == JStr(FailureFallback)
  {
    OrDefault(Get(Get(error, "data"), "message"), JStr(FailureFallback))
  }

  /** `onSubmit` */
  function Submit(password: string, confirmPassword: string, token: Val, reply: Reply): (r: Effect)
    ensures |r.requests| <= 1
    ensures |r.requests| == 1 <==> Validate(password, confirmPassword, token).Send?
    ensures |r.requests| == 1 ==> r.requests[0] == Request(token, password)
    ensures r.requests == [] ==> r.toast == ErrorToast(JStr(Validate(password, confirmPassword, token).message))
    ensures r.toLogin <==> |r.requests| == 1 && reply.Fulfilled?
    ensures |r.requests| == 1 && reply.Rejected? ==> r.toast == ErrorToast(FailureText(reply.error))
    ensures |r.requests| == 1 && reply.Fulfilled? ==> r.toast == SuccessToast(JStr(SuccessText))
  {
    match Validate(password, confirmPassword, token)
    case Invalid(message) => Effect([], ErrorToast(JStr(message)), false)
    case Send(request) =>
      match reply
      case Fulfilled => Effect([request], SuccessToast(JStr(SuccessText)), true)
      case Rejected(error) => Effect([request], ErrorToast(FailureText(error)), false)
  }

  /** The mismatch check comes first: a short mismatched password reports only the
      mismatch. */
  lemma MismatchReportedFirst(password: string, confirmPassword: string, token: Val, reply: Reply)
    requires password != confirmPassword && Utf16Length(password) < MinLength
    ensures Submit(password, confirmPassword, token, reply) == Effect([], ErrorToast(JStr(MismatchText)), false)
  {
  }

  /** A six-character password is sent, although the page lists eight as the minimum. */
  lemma SixCharactersAccepted(token: Val)
    ensures Validate("abc123", "abc123", token).Send?
  {
    assert "abc123"[1..][1..][1..][1..][1..][1..] == "";
  }

  /** The reply changes only the toast and the navigation, never the requests. */
  lemma RequestsIndependentOfReply(password: string, confirmPassword: string, token: Val, a: Reply, b: Reply)
    ensures Submit(password, confirmPassword, token, a).requests == Submit(password, confirmPassword, token, b).requests
  {
  }
}
