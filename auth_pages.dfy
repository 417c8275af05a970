/** The register and login pages: the session gate, the password check before any
    request, and what each page does with the answer. Each submit handler is split at
    its `await`: `Submit…` runs up to the request, `Finish…` when it settles. */
module AuthPages {
  import opened Js
  import opened PasswordPolicy
  import opened UriComponent

  /** `useSession().status`. */
  datatype SessionStatus = Loading | Authenticated | Unauthenticated

  /** A `toast.success` or `toast.error` notification. */
  datatype Toast = Success(text: string) | Error(text: string)

  /** The email and password captured when the form was submitted. */
  datatype Credentials = Credentials(email: string, password: string)

  /** How `fetch` and `res.json()` settled: the `ok` flag and `data.error`, or an exception. */
  datatype FetchOutcome = Answered(ok: bool, error: Option<string>) | Threw

  /** What `signIn("credentials", { redirect: false, … })` settled to: `undefined`, a
      result with its `error` field, or a rejection. */
  datatype SignInResult = NoResult | SignInResponse(error: Option<string>) | Rejected

  const RegisterRule: string :=
    "Password must be at least 8 characters long, with uppercase, lowercase, number, and special character."
  const LoginRule: string :=
    "Password must be at least 8 characters and include uppercase, lowercase, number, and special character."
  const OtpSentToast: string := "OTP sent successfully!"
  const SendOtpFailed: string := "Failed to send OTP"
  const ServerErrorToast: string := "Server error, please try again"
  const LoginSuccessful: string := "Login successful!"
  const InvalidCredentials: string := "Invalid credentials"
  const VerifyOtpPrefix: string := "/register/verify-otp?email="
  const PasswordParam: string := "&password="
  const ChatPath: string := "/chat"
  const HomePath: string := "/"

  /** Both pages render their form only while the session is neither loading nor present. */
  predicate ShowsForm(status: SessionStatus) {
    !(status == Loading || status == Authenticated)
  }

  /** The characters a query built from encoded values may hold. */
  predicate QueryChar(c: char) {
    Unreserved(c) || c == '%' || c == '&' || c == '='
  }

  lemma ParamChars()
    ensures forall i | 0 <= i < |PasswordParam| :: QueryChar(PasswordParam[i])
  {
    assert PasswordParam == ['&', 'p', 'a', 's', 's', 'w', 'o', 'r', 'd', '='];
  }

  /** The page register navigates to after the OTP is sent. */
  function VerifyOtpUrl(email: string, password: string): (url: string)
    ensures VerifyOtpPrefix <= url
    ensures forall i | |VerifyOtpPrefix| <= i < |url| :: QueryChar(url[i])
  {
    var query := VerifyOtpQuery(email, password);
    QueryChars(email, password);
    var url := VerifyOtpPrefix + query;
    assert forall i | |VerifyOtpPrefix| <= i < |url| :: url[i] == query[i - |VerifyOtpPrefix|];
    url
  }

  lemma QueryChars(email: string, password: string)
    ensures forall i | 0 <= i < |VerifyOtpQuery(email, password)| :: QueryChar(VerifyOtpQuery(email, password)[i])
  {
    var e, p := Encode(email), Encode(password);
    ParamChars();
    var query := e + PasswordParam + p;
    forall i | 0 <= i < |query| ensures QueryChar(query[i]) {
      if i < |e| {
        assert query[i] == e[i];
      } else if i < |e| + |PasswordParam| {
        assert query[i] == PasswordParam[i - |e|];
      } else {
        assert query[i] == p[i - |e| - |PasswordParam|];
      }
    }
  }

  /** The query after `?email=`: both values percent-encoded. */
  function VerifyOtpQuery(email: string, password: string): string {
    Encode(email) + PasswordParam + Encode(password)
  }

  function IndexOf(s: string, c: char): (r: Option<nat>)
    ensures r.Some? ==> r.value < |s| && s[r.value] == c && forall j | 0 <= j < r.value :: s[j] != c
    ensures r.None? ==> forall j | 0 <= j < |s| :: s[j] != c
  {
    if s == [] then None
    else if s[0] == c then Some(0)
    else
      match IndexOf(s[1..], c)
      case None => None
      case Some(i) => Some(i + 1)
  }

  /** A reader of that URL: only the verify page's URL is read, and its query by `ReadQuery`. */
  function ReadVerifyOtpUrl(url: string): (r: Option<Credentials>)
    ensures r.Some? ==> VerifyOtpPrefix <= url && ReadQuery(url[|VerifyOtpPrefix|..]) == r
  {
    if VerifyOtpPrefix <= url then ReadQuery(url[|VerifyOtpPrefix|..]) else None
  }

  /** The `email` value runs to the first `&`, the `password` parameter follows it, and
      both values are percent-decoded. */
  function ReadQuery(query: string): (r: Option<Credentials>)
    ensures r.Some? ==> exists i | 0 <= i < |query| && query[i] == '&' ::
      && (forall j | 0 <= j < i :: query[j] != '&')
      && PasswordParam <= query[i..]
      && Decode(query[..i]) == Some(r.value.email)
      && Decode(query[i + |PasswordParam|..]) == Some(r.value.password)
  {
    match IndexOf(query, '&')
    case None => None
    case Some(i) =>
      var tail := query[i..];
      if !(PasswordParam <= tail) then None
      else
        assert tail[|PasswordParam|..] == query[i + |PasswordParam|..];
        match (Decode(query[..i]), Decode(tail[|PasswordParam|..]))
        case (Some(e), Some(p)) => Some(Credentials(e, p))
        case _ => None
  }

  /** The URL carries exactly the submitted email and password, whatever characters
      they contain. */
  lemma VerifyOtpUrlCarriesCredentials(email: string, password: string)
    ensures ReadVerifyOtpUrl(VerifyOtpUrl(email, password)) == Some(Credentials(email, password))
  {
    PrefixRead(VerifyOtpQuery(email, password));
    QueryCarriesValues(email, password);
  }

  lemma PrefixRead(query: string)
    ensures ReadVerifyOtpUrl(VerifyOtpPrefix + query) == ReadQuery(query)
  {
    assert (VerifyOtpPrefix + query)[|VerifyOtpPrefix|..] == query;
  }

  lemma QueryCarriesValues(email: string, password: string)
    ensures ReadQuery(VerifyOtpQuery(email, password)) == Some(Credentials(email, password))
  {
    DecodeEncode(email);
    DecodeEncode(password);
    var e := Encode(email);
    assert !Unreserved('&');
    assert forall j | 0 <= j < |e| :: e[j] != '&' by {
      forall j | 0 <= j < |e| ensures e[j] != '&' {
        assert Unreserved(e[j]) || e[j] == '%';
      }
    }
    ReadQueryOf(Encode(email), Encode(password), email, password);
  }

  /** A query whose email part has no `&` is read back part by part. */
  lemma ReadQueryOf(e: string, p: string, email: string, password: string)
    requires forall j | 0 <= j < |e| :: e[j] != '&'
    requires Decode(e) == Some(email) && Decode(p) == Some(password)
    ensures ReadQuery(e + PasswordParam + p) == Some(Credentials(email, password))
  {
    var tail := PasswordParam + p;
    var query := e + tail;
    assert e + PasswordParam + p == query;
    FirstSeparator(e, tail);
    assert query[..|e|] == e;
    assert query[|e|..] == tail;
    ReadQueryAt(query, |e|, p, email, password);
  }

  /** The reader's answer once the first `&` and the two decoded values are known. */
  lemma ReadQueryAt(query: string, i: nat, rest: string, email: string, password: string)
    requires IndexOf(query, '&') == Some(i) && query[i..] == PasswordParam + rest
    requires Decode(query[..i]) == Some(email) && Decode(rest) == Some(password)
    ensures ReadQuery(query) == Some(Credentials(email, password))
  {
    assert query[i..][|PasswordParam|..] == rest;
  }

  /** The first `&` of `e + tail` is the head of `tail` when `e` has none. */
  lemma {:induction false} FirstSeparator(e: string, tail: string)
    requires forall j | 0 <= j < |e| :: e[j] != '&'
    requires tail != [] && tail[0] == '&'
    ensures IndexOf(e + tail, '&') == Some(|e|)
    decreases |e|
  {
    if e == [] {
      assert e + tail == tail;
    } else {
      assert (e + tail)[1..] == e[1..] + tail;
      FirstSeparator(e[1..], tail);
    }
  }

  /** The register page's state that `handleSendOtp` changes. */
  class RegisterPage {
    /** `useSession().status`. */
    var status: SessionStatus
    var loading: bool
    var toasts: seq<Toast>
    var navigations: seq<string>

    /** The first render and the effect's run after it: a visitor already authenticated
        is sent to "/" at once. */
    constructor (status: SessionStatus)
      ensures this.status == status && !loading && toasts == []
      ensures navigations == if status == Authenticated then [HomePath] else []
    {
      this.status := status;
      loading := false;
      toasts := [];
      navigations := if status == Authenticated then [HomePath] else [];
    }

    /** The effect's run after the session status changes: an authenticated visitor is
        sent to "/", anyone else stays. An unchanged status does not re-run it. */
    method SessionChanged(s: SessionStatus)
      requires s != status
      modifies this
      ensures status == s
      ensures s == Authenticated ==> navigations == old(navigations) + [HomePath]
      ensures s != Authenticated ==> navigations == old(navigations)
      ensures loading == old(loading) && toasts == old(toasts)
    {
      status := s;
      if s == Authenticated {
        navigations := navigations + [HomePath];
      }
    }

    /** `handleSendOtp` up to `fetch`: a password the rule refuses is reported and
        nothing else happens; otherwise `loading` is set and `{ email }` is posted to
        /api/send-otp. */
    method SubmitSendOtp(email: string, password: string) returns (pending: Option<Credentials>)
      requires ShowsForm(status)
      modifies this
      ensures status == old(status) && navigations == old(navigations)
      ensures !Accepts(password) ==>
        pending == None && loading == old(loading) && toasts == old(toasts) + [Error(RegisterRule)]
      ensures Accepts(password) ==>
        pending == Some(Credentials(email, password)) && loading && toasts == old(toasts)
    {
      if !Accepts(password) {
        toasts := toasts + [Error(RegisterRule)];
        return None;
      }
      loading := true;
      pending := Some(Credentials(email, password));
    }

    /** `handleSendOtp` once the request settles: on success go to the verify page with
        the submitted credentials, otherwise report the error; `loading` ends false. */
    method FinishSendOtp(submitted: Credentials, outcome: FetchOutcome)
      modifies this
      ensures !loading && status == old(status)
      ensures outcome.Answered? && outcome.ok ==>
        && toasts == old(toasts) + [Success(OtpSentToast)]
        && navigations == old(navigations) + [VerifyOtpUrl(submitted.email, submitted.password)]
      ensures outcome.Answered? && !outcome.ok ==>
        && toasts == old(toasts) + [Error(if Filled(outcome.error) then outcome.error.value else SendOtpFailed)]
        && navigations == old(navigations)
      ensures outcome.Threw? ==>
        toasts == old(toasts) + [Error(ServerErrorToast)] && navigations == old(navigations)
    {
      match outcome {
      case Answered(ok, error) =>
        if ok {
          toasts := toasts + [Success(OtpSentToast)];
          navigations := navigations + [VerifyOtpUrl(submitted.email, submitted.password)];
        } else {
          var text := if Filled(error) then error.value else SendOtpFailed;
          toasts := toasts + [Error(text)];
        }
      case Threw =>
        toasts := toasts + [Error(ServerErrorToast)];
      }
      loading := false;
    }
  }

  /** The login page's state that `handleLogin` changes. */
  class LoginPage {
    /** `useSession().status`. */
    var status: SessionStatus
    var toasts: seq<Toast>
    var navigations: seq<string>

    /** The first render and the effect's run after it: a visitor already authenticated
        is sent to /chat at once. */
    constructor (status: SessionStatus)
      ensures this.status == status && toasts == []
      ensures navigations == if status == Authenticated then [ChatPath] else []
    {
      this.status := status;
      toasts := [];
      navigations := if status == Authenticated then [ChatPath] else [];
    }

    /** The effect's run after the session status changes: an authenticated visitor is
        sent to /chat, anyone else stays. An unchanged status does not re-run it. */
    method SessionChanged(s: SessionStatus)
      requires s != status
      modifies this
      ensures status == s
      ensures s == Authenticated ==> navigations == old(navigations) + [ChatPath]
      ensures s != Authenticated ==> navigations == old(navigations)
      ensures toasts == old(toasts)
    {
      status := s;
      if s == Authenticated {
        navigations := navigations + [ChatPath];
      }
    }

    /** `handleLogin` up to `signIn`: a password the rule refuses is reported and
        `signIn` is not called. */
    method SubmitLogin(email: string, password: string) returns (attempt: Option<Credentials>)
      requires ShowsForm(status)
      modifies this
      ensures status == old(status) && navigations == old(navigations)
      ensures !Accepts(password) ==> attempt == None && toasts == old(toasts) + [Error(LoginRule)]
      ensures Accepts(password) ==> attempt == Some(Credentials(email, password)) && toasts == old(toasts)
    {
      if !Accepts(password) {
        toasts := toasts + [Error(LoginRule)];
        return None;
      }
      attempt := Some(Credentials(email, password));
    }

    /** `handleLogin` once `signIn` settles: without an error (also when the result is
        undefined) go to /chat, otherwise report invalid credentials; a rejection
        escapes the handler and changes nothing. */
    method FinishLogin(result: SignInResult)
      modifies this
      ensures status == old(status)
      ensures result.Rejected? ==> toasts == old(toasts) && navigations == old(navigations)
      ensures (result.NoResult? || (result.SignInResponse? && !Filled(result.error))) ==>
        toasts == old(toasts) + [Success(LoginSuccessful)] && navigations == old(navigations) + [ChatPath]
      ensures result.SignInResponse? && Filled(result.error) ==>
        toasts == old(toasts) + [Error(InvalidCredentials)] && navigations == old(navigations)
    {
      match result
      case Rejected =>
      case NoResult =>
        toasts := toasts + [Success(LoginSuccessful)];
        navigations := navigations + [ChatPath];
      case SignInResponse(error) =>
        if !Filled(error) {
          toasts := toasts + [Success(LoginSuccessful)];
          navigations := navigations + [ChatPath];
        } else {
          toasts := toasts + [Error(InvalidCredentials)];
        }
    }
  }
}
