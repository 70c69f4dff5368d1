/**
 * The request handlers of the authentication blueprint, each as a function
 * from the store before the request to the response and the store after it.
 * A request field is None when the JSON body lacks it; a field counts as
 * given only when it is present and non-empty (Python's truthiness of a
 * string). The clock, the OTP generator's choices and the password hashing
 * are inputs.
 */
module Handlers {
  import opened Store

  const ALL_FIELDS_REQUIRED := "All fields are required"
  const USERNAME_EXISTS := "Username already exists"
  const EMAIL_EXISTS := "Email already exists"
  const REGISTERED := "User registered successfully. OTP has been sent to your email."
  const EMAIL_AND_PASSWORD_REQUIRED := "Email and password are required"
  const INVALID_CREDENTIALS := "Invalid credentials"
  const USER_NOT_FOUND := "User not found"
  const EMAIL_REQUIRED := "Email is required"
  const OTP_SENT := "OTP sent successfully"
  const EMAIL_AND_OTP_REQUIRED := "Email and OTP are required"
  const INVALID_OTP := "Invalid OTP"
  const OTP_EXPIRED := "OTP expired"

  /** An access token; only the identity it was minted for is modelled. */
  datatype Token = Token(identity: nat)

  /** The JSON body of a response. */
  datatype Body =
    | Error(error: string)
    | Message(message: string)
    | AccessToken(accessToken: Token)
    | ProfileInfo(id: nat, username: string, email: string)

  datatype Response = Response(status: nat, body: Body)

  /** What a mutating handler returns and what it leaves in the store. */
  datatype Outcome = Outcome(response: Response, db: Db)

  predicate Present(field: Option<string>) {
    field.Some? && field.value != ""
  }

  /**
   * POST /register. `hash` stands for set_password; `otpCode` and
   * `otpExpiresAt` are what generate_otp picks for the new user.
   */
  function Register(db: Db, username: Option<string>, email: Option<string>, password: Option<string>,
                    hash: string -> string, otpCode: string, otpExpiresAt: int): (r: Outcome)
    ensures !(Present(username) && Present(email) && Present(password))
            ==> r == Outcome(Response(400, Error(ALL_FIELDS_REQUIRED)), db)
    ensures Present(username) && Present(email) && Present(password)
            && UsernameTaken(db.users, username.value)
            ==> r == Outcome(Response(400, Error(USERNAME_EXISTS)), db)
    ensures Present(username) && Present(email) && Present(password)
            && !UsernameTaken(db.users, username.value) && EmailTaken(db.users, email.value)
            ==> r == Outcome(Response(400, Error(EMAIL_EXISTS)), db)
    ensures r.response.status == 201 <==>
            Present(username) && Present(email) && Present(password)
            && !UsernameTaken(db.users, username.value) && !EmailTaken(db.users, email.value)
    ensures r.response.status == 201 ==>
            && r.response.body == Message(REGISTERED)
            && r.db.users == db.users + [User(db.nextUserId, username.value, email.value, hash(password.value))]
            && r.db.otps == db.otps + [Otp(db.nextOtpId, db.nextUserId, otpCode, otpExpiresAt)]
            && r.db.nextUserId == db.nextUserId + 1 && r.db.nextOtpId == db.nextOtpId + 1
  {
    if !Present(username) || !Present(password) || !Present(email) then
      Outcome(Response(400, Error(ALL_FIELDS_REQUIRED)), db)
    else if UserWithUsername(db.users, username.value).Some? then
      Outcome(Response(400, Error(USERNAME_EXISTS)), db)
    else if UserWithEmail(db.users, email.value).Some? then
      Outcome(Response(400, Error(EMAIL_EXISTS)), db)
    else
      var user := User(db.nextUserId, username.value, email.value, hash(password.value));
      var added := db.(users := db.users + [user], nextUserId := db.nextUserId + 1);
      Outcome(Response(201, Message(REGISTERED)), IssueOtp(added, user.id, otpCode, otpExpiresAt))
  }

  /** POST /login. `check(hash, password)` stands for check_password. */
  function Login(db: Db, email: Option<string>, password: Option<string>,
                 check: (string, string) -> bool): (r: Response)
    ensures !(Present(email) && Present(password))
            ==> r == Response(400, Error(EMAIL_AND_PASSWORD_REQUIRED))
    ensures Present(email) && Present(password) && !EmailTaken(db.users, email.value)
            ==> r == Response(401, Error(INVALID_CREDENTIALS))
    ensures forall i ::
              Present(email) && Present(password) && FirstWithEmail(db.users, email.value, i) ==>
                r == if check(db.users[i].passwordHash, password.value)
                     then Response(200, AccessToken(Token(db.users[i].id)))
                     else Response(401, Error(INVALID_CREDENTIALS))
  {
    if !Present(password) || !Present(email) then
      Response(400, Error(EMAIL_AND_PASSWORD_REQUIRED))
    else match UserWithEmail(db.users, email.value)
      case Some(i) =>
        if check(db.users[i].passwordHash, password.value) then
          Response(200, AccessToken(Token(db.users[i].id)))
        else
          Response(401, Error(INVALID_CREDENTIALS))
      case None => Response(401, Error(INVALID_CREDENTIALS))
  }

  /** GET /profile, for a request whose token has already been accepted. */
  function Profile(db: Db, token: Token): (r: Response)
    ensures !IdTaken(db.users, token.identity) ==> r == Response(404, Error(USER_NOT_FOUND))
    ensures IdTaken(db.users, token.identity) ==>
            exists i :: 0 <= i < |db.users| && db.users[i].id == token.identity
                        && r == Response(200, ProfileInfo(db.users[i].id, db.users[i].username, db.users[i].email))
  {
    match UserWithId(db.users, token.identity)
    case None => Response(404, Error(USER_NOT_FOUND))
    case Some(i) => Response(200, ProfileInfo(db.users[i].id, db.users[i].username, db.users[i].email))
  }

  /** POST /request-otp. `code` and `expiresAt` are what generate_otp picks. */
  function RequestOtp(db: Db, email: Option<string>, code: string, expiresAt: int): (r: Outcome)
    ensures r.db.users == db.users && r.db.nextUserId == db.nextUserId
    ensures |db.otps| <= |r.db.otps| && r.db.otps[..|db.otps|] == db.otps
    ensures !Present(email) ==> r == Outcome(Response(400, Error(EMAIL_REQUIRED)), db)
    ensures Present(email) && !EmailTaken(db.users, email.value)
            ==> r == Outcome(Response(404, Error(USER_NOT_FOUND)), db)
    ensures forall i ::
              Present(email) && FirstWithEmail(db.users, email.value, i) ==>
                r == Outcome(Response(200, Message(OTP_SENT)), IssueOtp(db, db.users[i].id, code, expiresAt))
  {
    if !Present(email) then
      Outcome(Response(400, Error(EMAIL_REQUIRED)), db)
    else match UserWithEmail(db.users, email.value)
      case None => Outcome(Response(404, Error(USER_NOT_FOUND)), db)
      case Some(i) => Outcome(Response(200, Message(OTP_SENT)), IssueOtp(db, db.users[i].id, code, expiresAt))
  }

  /**
   * POST /verify-otp at clock reading `now`. The first OTP row matching the
   * user and the code is deleted whether it has expired or not; a row whose
   * expiry equals `now` is still accepted.
   */
  function VerifyOtp(db: Db, email: Option<string>, code: Option<string>, now: int): (r: Outcome)
    ensures r.db.users == db.users && r.db.nextUserId == db.nextUserId && r.db.nextOtpId == db.nextOtpId
    ensures !(Present(email) && Present(code))
            ==> r == Outcome(Response(400, Error(EMAIL_AND_OTP_REQUIRED)), db)
    ensures Present(email) && Present(code) && !EmailTaken(db.users, email.value)
            ==> r == Outcome(Response(404, Error(USER_NOT_FOUND)), db)
    ensures forall i ::
              Present(email) && Present(code) && FirstWithEmail(db.users, email.value, i)
              && !CodeIssued(db.otps, db.users[i].id, code.value) ==>
                r == Outcome(Response(400, Error(INVALID_OTP)), db)
    ensures forall i, k ::
              Present(email) && Present(code) && FirstWithEmail(db.users, email.value, i)
              && FirstMatch(db.otps, db.users[i].id, code.value, k) ==>
                && r.db.otps == RemoveAt(db.otps, k)
                && r.response == if db.otps[k].expiresAt < now
                                 then Response(400, Error(OTP_EXPIRED))
                                 else Response(200, AccessToken(Token(db.users[i].id)))
  {
    if !Present(email) || !Present(code) then
      Outcome(Response(400, Error(EMAIL_AND_OTP_REQUIRED)), db)
    else match UserWithEmail(db.users, email.value)
      case None => Outcome(Response(404, Error(USER_NOT_FOUND)), db)
      case Some(i) =>
        match OtpFor(db.otps, db.users[i].id, code.value)
        case None => Outcome(Response(400, Error(INVALID_OTP)), db)
        case Some(k) =>
          var remaining := db.(otps := RemoveAt(db.otps, k));
          if db.otps[k].expiresAt < now then
            Outcome(Response(400, Error(OTP_EXPIRED)), remaining)
          else
            Outcome(Response(200, AccessToken(Token(db.users[i].id))), remaining)
  }

  lemma RegisterKeepsConsistent(db: Db, username: Option<string>, email: Option<string>, password: Option<string>,
                                hash: string -> string, otpCode: string, otpExpiresAt: int)
    requires Consistent(db)
    ensures Consistent(Register(db, username, email, password, hash, otpCode, otpExpiresAt).db)
  {
    var r := Register(db, username, email, password, hash, otpCode, otpExpiresAt);
    if r.response.status == 201 {
      var user := User(db.nextUserId, username.value, email.value, hash(password.value));
      var added := db.(users := db.users + [user], nextUserId := db.nextUserId + 1);
      assert Consistent(added) by {
        forall k | 0 <= k < |added.otps| ensures IdTaken(added.users, added.otps[k].userId) {
          var i :| 0 <= i < |db.users| && db.users[i].id == db.otps[k].userId;
          assert added.users[i] == db.users[i];
        }
      }
      assert IdTaken(added.users, user.id) by {
        assert added.users[|db.users|] == user;
      }
      IssueOtpKeepsConsistent(added, user.id, otpCode, otpExpiresAt);
    }
  }

  lemma RequestOtpKeepsConsistent(db: Db, email: Option<string>, code: string, expiresAt: int)
    requires Consistent(db)
    ensures Consistent(RequestOtp(db, email, code, expiresAt).db)
  {
  }

  lemma VerifyOtpKeepsConsistent(db: Db, email: Option<string>, code: Option<string>, now: int)
    requires Consistent(db)
    ensures Consistent(VerifyOtp(db, email, code, now).db)
  {
  }
}
