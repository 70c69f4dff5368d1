/**
 * The handlers that write to the database, as methods of the shared store
 * object. Each one runs its guards in the order the controller does, then
 * adds or deletes rows step by step, and is proved to leave exactly the
 * response and store the corresponding function of Handlers describes.
 */
module AuthController {
  import opened Store
  import opened Handlers

  class AuthStore {
    var users: seq<User>
    var otps: seq<Otp>
    var nextUserId: nat
    var nextOtpId: nat

    /** The store's contents as a value. */
    function Snapshot(): Db
      reads this
    {
      Db(users, otps, nextUserId, nextOtpId)
    }

    ghost predicate Valid()
      reads this
    {
      Consistent(Snapshot())
    }

    /** An empty database; primary keys start at 1. */
    constructor ()
      ensures Valid()
      ensures users == [] && otps == [] && nextUserId == 1 && nextOtpId == 1
    {
      users, otps := [], [];
      nextUserId, nextOtpId := 1, 1;
    }

    /** `generate_otp(user_id)`; the caller has already looked the user up. */
    method GenerateOtp(userId: nat, code: string, expiresAt: int) returns (issued: string)
      requires Valid() && IdTaken(users, userId)
      modifies this
      ensures Valid()
      ensures Snapshot() == IssueOtp(old(Snapshot()), userId, code, expiresAt)
      ensures issued == code
    {
      IssueOtpKeepsConsistent(Snapshot(), userId, code, expiresAt);
      otps := otps + [Otp(nextOtpId, userId, code, expiresAt)];
      nextOtpId := nextOtpId + 1;
      issued := code;
    }

    /** POST /register; sending the code by e-mail is left out. */
    method Register(username: Option<string>, email: Option<string>, password: Option<string>,
                    hash: string -> string, otpCode: string, otpExpiresAt: int) returns (response: Response)
      requires Valid()
      modifies this
      ensures Valid()
      ensures Outcome(response, Snapshot())
           == Handlers.Register(old(Snapshot()), username, email, password, hash, otpCode, otpExpiresAt)
    {
      if !Present(username) || !Present(password) || !Present(email) {
        return Response(400, Error(ALL_FIELDS_REQUIRED));
      }
      if UserWithUsername(users, username.value).Some? {
        return Response(400, Error(USERNAME_EXISTS));
      }
      if UserWithEmail(users, email.value).Some? {
        return Response(400, Error(EMAIL_EXISTS));
      }
      ghost var before := Snapshot();
      var newUser := User(nextUserId, username.value, email.value, hash(password.value));
      users := users + [newUser];
      nextUserId := nextUserId + 1;
      assert users[|users| - 1] == newUser;
      assert Valid() by {
        forall k | 0 <= k < |otps| ensures IdTaken(users, otps[k].userId) {
          var i :| 0 <= i < |before.users| && before.users[i].id == otps[k].userId;
          assert users[i] == before.users[i];
        }
      }
      var issued := GenerateOtp(newUser.id, otpCode, otpExpiresAt);
      response := Response(201, Message(REGISTERED));
    }

    /** POST /request-otp; the debug print of the code is left out. */
    method RequestOtp(email: Option<string>, code: string, expiresAt: int) returns (response: Response)
      requires Valid()
      modifies this
      ensures Valid()
      ensures Outcome(response, Snapshot()) == Handlers.RequestOtp(old(Snapshot()), email, code, expiresAt)
    {
      if !Present(email) {
        return Response(400, Error(EMAIL_REQUIRED));
      }
      var found := UserWithEmail(users, email.value);
      if found.None? {
        return Response(404, Error(USER_NOT_FOUND));
      }
      var user := users[found.value];
      var issued := GenerateOtp(user.id, code, expiresAt);
      response := Response(200, Message(OTP_SENT));
    }

    /** POST /verify-otp at clock reading `now`. */
    method VerifyOtp(email: Option<string>, code: Option<string>, now: int) returns (response: Response)
      requires Valid()
      modifies this
      ensures Valid()
      ensures Outcome(response, Snapshot()) == Handlers.VerifyOtp(old(Snapshot()), email, code, now)
    {
      if !Present(email) || !Present(code) {
        return Response(400, Error(EMAIL_AND_OTP_REQUIRED));
      }
      var found := UserWithEmail(users, email.value);
      if found.None? {
        return Response(404, Error(USER_NOT_FOUND));
      }
      var user := users[found.value];
      var matched := OtpFor(otps, user.id, code.value);
      if matched.None? {
        return Response(400, Error(INVALID_OTP));
      }
      VerifyOtpKeepsConsistent(Snapshot(), email, code, now);
      var otp := otps[matched.value];
      if otp.expiresAt < now {
        otps := RemoveAt(otps, matched.value);
        return Response(400, Error(OTP_EXPIRED));
      }
      otps := RemoveAt(otps, matched.value);
      response := Response(200, AccessToken(Token(user.id)));
    }
  }
}
