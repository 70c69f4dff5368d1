/**
 * What sequences of requests guarantee: a matched OTP row is used up by the
 * verification that finds it (success or expiry alike), issuing a new code
 * does not revoke earlier ones, and a registered user can log in and verify
 * the code sent to them exactly once.
 */
module Properties {
  import opened Store
  import opened Handlers

  /**
   * A verification that gets past the user lookup consumes one row for the
   * user's (id, code) pair if there is one, and nothing otherwise.
   */
  lemma VerifyConsumesOneRecord(db: Db, email: string, code: string, now: int, i: nat)
    requires email != "" && code != "" && FirstWithEmail(db.users, email, i)
    ensures var r := VerifyOtp(db, Some(email), Some(code), now);
            var before := CountMatching(db.otps, db.users[i].id, code);
            && (CodeIssued(db.otps, db.users[i].id, code) <==>
                  r.response.status == 200 || r.response == Response(400, Error(OTP_EXPIRED)))
            && (CodeIssued(db.otps, db.users[i].id, code) ==>
                  |r.db.otps| == |db.otps| - 1 && CountMatching(r.db.otps, db.users[i].id, code) == before - 1)
            && (!CodeIssued(db.otps, db.users[i].id, code) ==>
                  r == Outcome(Response(400, Error(INVALID_OTP)), db))
  {
    var uid := db.users[i].id;
    if CodeIssued(db.otps, uid, code) {
      var k := OtpFor(db.otps, uid, code).value;
      assert FirstMatch(db.otps, uid, code, k);
      CountAfterRemoveAt(db.otps, k, uid, code);
    }
  }

  /**
   * Single use: once a verification has matched a row (and so deleted it),
   * repeating it with the same e-mail and code, at any later time, is told
   * "Invalid OTP", provided no second row for that user carried the same code.
   */
  lemma VerifySingleUse(db: Db, email: string, code: string, now: int, later: int, i: nat)
    requires email != "" && code != "" && FirstWithEmail(db.users, email, i)
    requires CountMatching(db.otps, db.users[i].id, code) <= 1
    ensures var first := VerifyOtp(db, Some(email), Some(code), now);
            var second := VerifyOtp(first.db, Some(email), Some(code), later);
            (first.response.status == 200 || first.response == Response(400, Error(OTP_EXPIRED)))
            ==> second == Outcome(Response(400, Error(INVALID_OTP)), first.db)
  {
    var first := VerifyOtp(db, Some(email), Some(code), now);
    VerifyConsumesOneRecord(db, email, code, now, i);
    if first.response.status == 200 || first.response == Response(400, Error(OTP_EXPIRED)) {
      assert CountMatching(first.db.otps, db.users[i].id, code) == 0;
      assert FirstWithEmail(first.db.users, email, i);
    }
  }

  /**
   * Issuing a code to anyone does not revoke a code that would have been
   * accepted: verifying it afterwards gives the same token.
   */
  lemma RequestOtpKeepsEarlierCodes(db: Db, email: Option<string>, code: Option<string>, now: int,
                                    requestEmail: Option<string>, newCode: string, newExpiresAt: int)
    requires VerifyOtp(db, email, code, now).response.status == 200
    ensures var issued := RequestOtp(db, requestEmail, newCode, newExpiresAt).db;
            VerifyOtp(issued, email, code, now).response == VerifyOtp(db, email, code, now).response
  {
  }

  /**
   * A user who has just registered can log in with the password they gave,
   * provided the password check accepts what the hashing stored, and gets a
   * token for their new id.
   */
  lemma RegisterThenLogin(db: Db, username: string, email: string, password: string,
                          hash: string -> string, check: (string, string) -> bool,
                          otpCode: string, otpExpiresAt: int)
    requires Register(db, Some(username), Some(email), Some(password), hash, otpCode, otpExpiresAt).response.status == 201
    requires check(hash(password), password)
    ensures var registered := Register(db, Some(username), Some(email), Some(password), hash, otpCode, otpExpiresAt).db;
            Login(registered, Some(email), Some(password), check) == Response(200, AccessToken(Token(db.nextUserId)))
  {
    var registered := Register(db, Some(username), Some(email), Some(password), hash, otpCode, otpExpiresAt).db;
    assert FirstWithEmail(registered.users, email, |db.users|);
  }

  /**
   * The flow end to end: register, ask for a second code, verify it (a token
   * for the new user), verify it again ("Invalid OTP"). The codes must
   * differ: see SameCodeVerifiesOncePerRow for what happens when they do not.
   */
  lemma RegisterRequestVerifyTwice(db: Db, username: string, email: string, password: string,
                                   hash: string -> string, code1: string, expires1: int,
                                   code2: string, expires2: int, now: int, later: int)
    requires Consistent(db)
    requires username != "" && email != "" && password != "" && code2 != ""
    requires !UsernameTaken(db.users, username) && !EmailTaken(db.users, email)
    requires code1 != code2 && now <= expires2
    ensures var registered := Register(db, Some(username), Some(email), Some(password), hash, code1, expires1);
            var requested := RequestOtp(registered.db, Some(email), code2, expires2);
            var verified := VerifyOtp(requested.db, Some(email), Some(code2), now);
            var again := VerifyOtp(verified.db, Some(email), Some(code2), later);
            && registered.response.status == 201
            && requested.response.status == 200
            && verified.response == Response(200, AccessToken(Token(db.nextUserId)))
            && again.response == Response(400, Error(INVALID_OTP))
  {
    var registered := Register(db, Some(username), Some(email), Some(password), hash, code1, expires1);
    var n := |db.users|;
    var uid := db.nextUserId;
    assert FirstWithEmail(registered.db.users, email, n);
    var requested := RequestOtp(registered.db, Some(email), code2, expires2);
    var otps := requested.db.otps;
    assert otps == db.otps + [Otp(db.nextOtpId, uid, code1, expires1), Otp(db.nextOtpId + 1, uid, code2, expires2)];
    // No row older than the registration can belong to the new user.
    assert forall k :: 0 <= k < |db.otps| ==> db.otps[k].userId != uid;
    assert FirstMatch(otps, uid, code2, |db.otps| + 1);
    CountAfterAppend(db.otps, Otp(db.nextOtpId, uid, code1, expires1), uid, code2);
    CountAfterAppend(db.otps + [Otp(db.nextOtpId, uid, code1, expires1)], Otp(db.nextOtpId + 1, uid, code2, expires2), uid, code2);
    assert !CodeIssued(db.otps, uid, code2);
    assert otps == (db.otps + [Otp(db.nextOtpId, uid, code1, expires1)]) + [Otp(db.nextOtpId + 1, uid, code2, expires2)];
    assert CountMatching(otps, uid, code2) == 1;
    VerifySingleUse(requested.db, email, code2, now, later, n);
  }

  /**
   * Single use holds per row, not per code: when the code issued at
   * registration and a later requested code coincide, the same (e-mail, code)
   * pair verifies twice, once for each row.
   */
  lemma SameCodeVerifiesOncePerRow(db: Db, username: string, email: string, password: string,
                                   hash: string -> string, code: string, expires1: int,
                                   expires2: int, now: int, later: int)
    requires Consistent(db)
    requires username != "" && email != "" && password != "" && code != ""
    requires !UsernameTaken(db.users, username) && !EmailTaken(db.users, email)
    requires now <= expires1 && later <= expires2
    ensures var registered := Register(db, Some(username), Some(email), Some(password), hash, code, expires1);
            var requested := RequestOtp(registered.db, Some(email), code, expires2);
            var verified := VerifyOtp(requested.db, Some(email), Some(code), now);
            var again := VerifyOtp(verified.db, Some(email), Some(code), later);
            && verified.response == Response(200, AccessToken(Token(db.nextUserId)))
            && again.response == Response(200, AccessToken(Token(db.nextUserId)))
  {
    var registered := Register(db, Some(username), Some(email), Some(password), hash, code, expires1);
    var n := |db.users|;
    var uid := db.nextUserId;
    assert FirstWithEmail(registered.db.users, email, n);
    var requested := RequestOtp(registered.db, Some(email), code, expires2);
    var otps := requested.db.otps;
    var m := |db.otps|;
    assert otps == db.otps + [Otp(db.nextOtpId, uid, code, expires1), Otp(db.nextOtpId + 1, uid, code, expires2)];
    assert forall k :: 0 <= k < m ==> db.otps[k].userId != uid;
    assert FirstMatch(otps, uid, code, m);
    var verified := VerifyOtp(requested.db, Some(email), Some(code), now);
    assert verified.db.otps == RemoveAt(otps, m);
    assert FirstMatch(verified.db.otps, uid, code, m);
  }
}
