/** The three account routes, send-otp, verify-otp and register, over the two
    collections they read and write: users and one-time-password records. */
module AuthRoutes {
  import opened Js
  import opened Http
  import opened Otp

  /** A document of the `User` collection: the email and the bcrypt hash of the password. */
  datatype User = User(email: string, passwordHash: string)

  /** The operations of the routes that can throw, in the order the routes reach them. */
  datatype Step =
    | Connect | ReadBody | FindUser | FindOtp | StoreOtp | SendMail
    | HashPassword | CreateUser | DeleteOtps

  /** The first operation that throws during a request, None when none does. An
      operation the route does not reach on its path never throws. */
  type Fault = Option<Step>

  /** The body `{ email, otp, password }` of a verify-otp request; None for an absent field. */
  datatype VerifyRequest = VerifyRequest(email: Option<string>, otp: Option<string>, password: Option<string>)

  /** The outcome of verify-otp's checks before it writes anything. */
  datatype Verdict = Accept | Reject(error: string)

  const BcryptCost: nat := 10
  const FieldsRequired: string := "Email, OTP and password are required"
  const OtpNotFound: string := "OTP not found"
  const OtpExpired: string := "OTP expired"
  const InvalidOtp: string := "Invalid OTP"
  const EmailTaken: string := "User with this email already exists"
  const SendFailed: string := "Failed to send OTP"
  const OtpSent: string := "OTP sent"
  const UserExists: string := "User already exists"
  const Registered: string := "User registered successfully"
  const ServerError: string := "Server error"

  /** `User.findOne({ email })` finds a document. */
  predicate HasUser(users: seq<User>, email: string) {
    exists i | 0 <= i < |users| :: users[i].email == email
  }

  /** A user appended to the collection is found by its email, and no other lookup
      changes. */
  lemma HasUserAfterAppend(users: seq<User>, u: User, email: string)
    ensures HasUser(users + [u], email) <==> HasUser(users, email) || u.email == email
  {
    if HasUser(users, email) {
      var i :| 0 <= i < |users| && users[i].email == email;
      assert (users + [u])[i].email == email;
    }
    if u.email == email {
      assert (users + [u])[|users|].email == email;
    }
  }

  /** No two users share an email. */
  predicate UniqueEmails(users: seq<User>) {
    forall i, j | 0 <= i < j < |users| :: users[i].email != users[j].email
  }

  predicate AllFilled(req: VerifyRequest) {
    Filled(req.email) && Filled(req.otp) && Filled(req.password)
  }

  /** verify-otp's checks in their order: required fields, the latest record of the
      email, its expiry, then the trimmed codes. */
  function VerifyGuard(req: VerifyRequest, otps: seq<OtpRecord>, now: int): (v: Verdict)
    ensures v == Accept ==> AllFilled(req)
    ensures v == Accept ==> exists i | 0 <= i < |otps| ::
      otps[i].email == req.email.value && now <= otps[i].expiresAt
      && Trim(otps[i].code) == Trim(req.otp.value)
    ensures v == Accept ==>
      var latest := Latest(otps, req.email.value);
      latest.Some? && !Expired(latest.value, now) && Trim(latest.value.code) == Trim(req.otp.value)
    ensures v.Reject? && v.error == FieldsRequired <==> !AllFilled(req)
    ensures v.Reject? && v.error == OtpNotFound <==>
      AllFilled(req) && forall i | 0 <= i < |otps| :: otps[i].email != req.email.value
    ensures v.Reject? && v.error == OtpExpired ==>
      var latest := Latest(otps, req.email.value);
      AllFilled(req) && latest.Some? && Expired(latest.value, now)
    ensures v.Reject? && v.error == InvalidOtp ==>
      var latest := Latest(otps, req.email.value);
      AllFilled(req) && latest.Some? && !Expired(latest.value, now) && Trim(latest.value.code) != Trim(req.otp.value)
  {
    if !Filled(req.email) || !Filled(req.otp) || !Filled(req.password) then Reject(FieldsRequired)
    else
      match Latest(otps, req.email.value)
      case None => Reject(OtpNotFound)
      case Some(rec) =>
        if Expired(rec, now) then Reject(OtpExpired)
        else if Trim(rec.code) != Trim(req.otp.value) then Reject(InvalidOtp)
        else Accept
  }

  /** A request missing a field is refused without reading the records or the clock. */
  lemma MissingFieldReadsNothing(req: VerifyRequest, otps1: seq<OtpRecord>, otps2: seq<OtpRecord>, now1: int, now2: int)
    requires !AllFilled(req)
    ensures VerifyGuard(req, otps1, now1) == VerifyGuard(req, otps2, now2) == Reject(FieldsRequired)
  {
  }

  /** Only the latest record of the email matters: stores that agree on it give the
      same verdict, whatever older records they hold. */
  lemma OnlyLatestConsulted(req: VerifyRequest, otps1: seq<OtpRecord>, otps2: seq<OtpRecord>, now: int)
    requires AllFilled(req)
    requires Latest(otps1, req.email.value) == Latest(otps2, req.email.value)
    ensures VerifyGuard(req, otps1, now) == VerifyGuard(req, otps2, now)
  {
  }

  /** Expiry is checked before the code: an expired latest record is reported as
      expired whatever code is entered. */
  lemma ExpiryBeforeCode(req: VerifyRequest, otps: seq<OtpRecord>, now: int)
    requires AllFilled(req)
    requires Latest(otps, req.email.value).Some? && Expired(Latest(otps, req.email.value).value, now)
    ensures VerifyGuard(req, otps, now) == Reject(OtpExpired)
  {
  }

  /** A live latest record whose code differs from the entered one, once both are
      trimmed, is refused as an invalid code. */
  lemma MismatchRejected(req: VerifyRequest, otps: seq<OtpRecord>, now: int)
    requires AllFilled(req) && Latest(otps, req.email.value).Some?
    requires !Expired(Latest(otps, req.email.value).value, now)
    requires Trim(Latest(otps, req.email.value).value.code) != Trim(req.otp.value)
    ensures VerifyGuard(req, otps, now) == Reject(InvalidOtp)
  {
  }

  /** A freshly issued code is accepted, up to and including ten minutes later, when it
      is entered with any surrounding whitespace. */
  lemma IssuedCodeVerifies(
    otps: seq<OtpRecord>, email: string, k: RandomChoice, now: int, t: int,
    pre: string, post: string, password: string)
    requires email != "" && password != ""
    requires forall i | 0 <= i < |otps| && otps[i].email == email :: otps[i].createdAt < now
    requires now <= t <= now + LifetimeMs
    requires forall i | 0 <= i < |pre| :: IsTrimmable(pre[i])
    requires forall i | 0 <= i < |post| :: IsTrimmable(post[i])
    ensures VerifyGuard(
      VerifyRequest(Some(email), Some(pre + GenerateCode(k) + post), Some(password)),
      otps + [Issue(email, k, now)], t) == Accept
  {
    var rec := Issue(email, k, now);
    var code := GenerateCode(k);
    LatestIsFreshest(otps, rec);
    CodeUnpadded(k);
    TrimPadded(pre, code, post);
    GuardAccepts(VerifyRequest(Some(email), Some(pre + code + post), Some(password)), otps + [rec], t, rec);
  }

  /** A generated code has no padding for `trim` to remove. */
  lemma CodeUnpadded(k: RandomChoice)
    ensures var code := GenerateCode(k);
      code != [] && !IsTrimmable(code[0]) && !IsTrimmable(code[|code| - 1]) && Trim(code) == code
  {
    var code := GenerateCode(k);
    assert IsDigit(code[0]) && IsDigit(code[|code| - 1]);
    TrimKeeps(code);
  }

  /** The verdict once the latest record is known to be live and to match. */
  lemma GuardAccepts(req: VerifyRequest, otps: seq<OtpRecord>, now: int, rec: OtpRecord)
    requires AllFilled(req) && Latest(otps, req.email.value) == Some(rec)
    requires !Expired(rec, now) && Trim(rec.code) == Trim(req.otp.value)
    ensures VerifyGuard(req, otps, now) == Accept
  {
  }

  /** After ten minutes the same code is refused as expired. */
  lemma IssuedCodeExpires(
    otps: seq<OtpRecord>, email: string, k: RandomChoice, now: int, t: int, entered: string, password: string)
    requires email != "" && entered != "" && password != ""
    requires forall i | 0 <= i < |otps| && otps[i].email == email :: otps[i].createdAt < now
    requires t > now + LifetimeMs
    ensures VerifyGuard(VerifyRequest(Some(email), Some(entered), Some(password)),
      otps + [Issue(email, k, now)], t) == Reject(OtpExpired)
  {
    LatestIsFreshest(otps, Issue(email, k, now));
  }

  /** A request replayed after a successful verification finds no record. */
  lemma NoReplay(req: VerifyRequest, otps: seq<OtpRecord>, now: int)
    requires AllFilled(req)
    ensures VerifyGuard(req, DeleteMany(otps, req.email.value), now) == Reject(OtpNotFound)
  {
    NothingLatestAfterDelete(otps, req.email.value);
  }

  /** The users and OTP records the routes share. */
  class AuthStore {
    var users: seq<User>
    var otps: seq<OtpRecord>

    constructor (users: seq<User>, otps: seq<OtpRecord>)
      ensures this.users == users && this.otps == otps
    {
      this.users := users;
      this.otps := otps;
    }

    /** `POST /api/send-otp` with body `{ email }` at time `now`; `k` is the random
        choice and `mail` the message handed to the transport, if any. */
    method SendOtp(email: string, k: RandomChoice, now: int, fault: Fault) returns (r: Response, mail: Option<Mail>)
      modifies this
      ensures users == old(users)
      ensures fault in {Some(Connect), Some(ReadBody), Some(FindUser)} ==>
        r == Failure(500, SendFailed) && otps == old(otps) && mail == None
      ensures fault !in {Some(Connect), Some(ReadBody), Some(FindUser)} && HasUser(old(users), email) ==>
        r == Failure(400, EmailTaken) && otps == old(otps) && mail == None
      ensures (fault !in {Some(Connect), Some(ReadBody), Some(FindUser)} && !HasUser(old(users), email)
               && (fault == Some(StoreOtp) || email == "")) ==>
        r == Failure(500, SendFailed) && otps == old(otps) && mail == None
      ensures (fault !in {Some(Connect), Some(ReadBody), Some(FindUser), Some(StoreOtp)}
               && !HasUser(old(users), email) && email != "") ==>
        && otps == old(otps) + [Issue(email, k, now)]
        && mail == Some(OtpMail(email, GenerateCode(k)))
        && r == (if fault == Some(SendMail) then Failure(500, SendFailed)
                 else Response(200, MessageBody(OtpSent)))
    {
      mail := None;
      if fault in {Some(Connect), Some(ReadBody), Some(FindUser)} {
        return Failure(500, SendFailed), mail;
      }
      if HasUser(users, email) {
        return Failure(400, EmailTaken), mail;
      }
      var code := GenerateCode(k);
      var expiresAt := ExpiresAt(now);
      // The schema's `required` validator refuses an empty email, so `Otp.create` throws.
      if fault == Some(StoreOtp) || email == "" {
        return Failure(500, SendFailed), mail;
      }
      otps := otps + [OtpRecord(email, code, expiresAt, now)];
      mail := Some(OtpMail(email, code));
      if fault == Some(SendMail) {
        return Failure(500, SendFailed), mail;
      }
      r := Response(200, MessageBody(OtpSent));
    }

    /** `POST /api/verify-otp` at time `now`; `hash` is bcrypt with its cost factor. */
    method VerifyOtp(req: VerifyRequest, now: int, hash: (string, nat) -> string, fault: Fault) returns (r: Response)
      modifies this
      ensures fault in {Some(Connect), Some(ReadBody)} || (fault == Some(FindOtp) && AllFilled(req)) ==>
        r == Failure(500, ServerError) && users == old(users) && otps == old(otps)
      ensures (!(fault in {Some(Connect), Some(ReadBody)} || (fault == Some(FindOtp) && AllFilled(req)))
               && VerifyGuard(req, old(otps), now).Reject?) ==>
        r == Failure(400, VerifyGuard(req, old(otps), now).error)
        && users == old(users) && otps == old(otps)
      ensures (fault !in {Some(Connect), Some(ReadBody), Some(FindOtp)} && VerifyGuard(req, old(otps), now) == Accept
               && fault in {Some(HashPassword), Some(CreateUser)}) ==>
        r == Failure(500, ServerError) && users == old(users) && otps == old(otps)
      ensures (fault !in {Some(Connect), Some(ReadBody), Some(FindOtp), Some(HashPassword), Some(CreateUser)}
               && VerifyGuard(req, old(otps), now) == Accept) ==>
        && users == old(users) + [User(req.email.value, hash(req.password.value, BcryptCost))]
        && (fault == Some(DeleteOtps) ==> r == Failure(500, ServerError) && otps == old(otps))
        && (fault != Some(DeleteOtps) ==>
              r == Response(200, MessageBody(Registered)) && otps == DeleteMany(old(otps), req.email.value))
    {
      if fault in {Some(Connect), Some(ReadBody)} {
        return Failure(500, ServerError);
      }
      if !Filled(req.email) || !Filled(req.otp) || !Filled(req.password) {
        return Failure(400, FieldsRequired);
      }
      if fault == Some(FindOtp) {
        return Failure(500, ServerError);
      }
      var email := req.email.value;
      var latest := Latest(otps, email);
      if latest.None? {
        return Failure(400, OtpNotFound);
      }
      var rec := latest.value;
      if Expired(rec, now) {
        return Failure(400, OtpExpired);
      }
      if Trim(rec.code) != Trim(req.otp.value) {
        return Failure(400, InvalidOtp);
      }
      if fault in {Some(HashPassword), Some(CreateUser)} {
        return Failure(500, ServerError);
      }
      var hashed := hash(req.password.value, BcryptCost);
      users := users + [User(email, hashed)];
      if fault == Some(DeleteOtps) {
        return Failure(500, ServerError);
      }
      otps := DeleteMany(otps, email);
      r := Response(200, MessageBody(Registered));
    }

    /** `POST /api/register` with body `{ email, password }`. */
    method Register(email: string, password: string, hash: (string, nat) -> string, fault: Fault) returns (r: Response)
      modifies this
      ensures otps == old(otps)
      ensures fault in {Some(Connect), Some(ReadBody), Some(FindUser)} ==>
        r == Failure(500, ServerError) && users == old(users)
      ensures fault !in {Some(Connect), Some(ReadBody), Some(FindUser)} && HasUser(old(users), email) ==>
        r == Failure(400, UserExists) && users == old(users)
      ensures (fault !in {Some(Connect), Some(ReadBody), Some(FindUser)} && !HasUser(old(users), email)
               && fault in {Some(HashPassword), Some(CreateUser)}) ==>
        r == Failure(500, ServerError) && users == old(users)
      ensures (fault !in {Some(Connect), Some(ReadBody), Some(FindUser), Some(HashPassword), Some(CreateUser)}
               && !HasUser(old(users), email)) ==>
        r == Response(201, MessageBody(Registered))
        && users == old(users) + [User(email, hash(password, BcryptCost))]
      ensures UniqueEmails(old(users)) ==> UniqueEmails(users)
    {
      if fault in {Some(Connect), Some(ReadBody), Some(FindUser)} {
        return Failure(500, ServerError);
      }
      if HasUser(users, email) {
        return Failure(400, UserExists);
      }
      if fault in {Some(HashPassword), Some(CreateUser)} {
        return Failure(500, ServerError);
      }
      var hashed := hash(password, BcryptCost);
      users := users + [User(email, hashed)];
      r := Response(201, MessageBody(Registered));
    }
  }

  /** The code just mailed is accepted a millisecond later. */
  lemma AcceptedAtOnce(email: string, k: RandomChoice, password: string)
    requires email != "" && password != ""
    ensures VerifyGuard(VerifyRequest(Some(email), Some(GenerateCode(k)), Some(password)), [Issue(email, k, 0)], 1) == Accept
  {
    var rec := Issue(email, k, 0);
    LatestIsFreshest([], rec);
    assert [] + [rec] == [rec];
    CodeUnpadded(k);
    GuardAccepts(VerifyRequest(Some(email), Some(GenerateCode(k)), Some(password)), [rec], 1, rec);
  }

  /** verify-otp does not look for an existing user: an OTP requested before the email was
      registered through the register route still creates a second account for it. */
  method DuplicateAccountScenario(email: string, password: string, hash: (string, nat) -> string, k: RandomChoice)
    returns (users: seq<User>)
    requires email != "" && password != ""
    ensures |users| == 2 && users[0].email == users[1].email == email
    ensures !UniqueEmails(users)
  {
    var store := RegisterWhileOtpPending(email, password, hash, k);
    var request := VerifyRequest(Some(email), Some(GenerateCode(k)), Some(password));
    AcceptedAtOnce(email, k, password);
    var verified := store.VerifyOtp(request, 1, hash, None);
    users := store.users;
  }

  /** An OTP is sent at time 0, then the same email registers through the register route. */
  method RegisterWhileOtpPending(email: string, password: string, hash: (string, nat) -> string, k: RandomChoice)
    returns (store: AuthStore)
    requires email != ""
    ensures fresh(store)
    ensures store.users == [User(email, hash(password, BcryptCost))] && store.otps == [Issue(email, k, 0)]
  {
    store := new AuthStore([], []);
    assert !HasUser(store.users, email);
    var sent, mail := store.SendOtp(email, k, 0, None);
    assert store.otps == [Issue(email, k, 0)] && store.users == [];
    var registered := store.Register(email, password, hash, None);
  }
}
