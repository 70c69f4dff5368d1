/**
 * The persistent store the authentication handlers work on: the users table,
 * the OTP table, and the primary keys the database would hand out next.
 * `Model.query.filter_by(...).first()` is FindFirst, `db.session.delete(row)`
 * is RemoveAt, and `generate_otp` is IssueOtp.
 */
module Store {

  datatype Option<+T> = None | Some(value: T)

  /** A row of the users table. The password is kept only as the hash set_password stored. */
  datatype User = User(id: nat, username: string, email: string, passwordHash: string)

  /** A row of the OTP table; expiresAt is a reading of the same integer clock the handlers get. */
  datatype Otp = Otp(id: nat, userId: nat, code: string, expiresAt: int)

  /** The database as the handlers see it. */
  datatype Db = Db(users: seq<User>, otps: seq<Otp>, nextUserId: nat, nextOtpId: nat)

  /** The index of the first element of s that satisfies p, as `.first()` returns it. */
  function FindFirst<T>(s: seq<T>, p: T -> bool): (r: Option<nat>)
    ensures r.Some? ==> r.value < |s| && p(s[r.value])
    ensures r.Some? ==> forall j :: 0 <= j < r.value ==> !p(s[j])
    ensures r.None? ==> forall j :: 0 <= j < |s| ==> !p(s[j])
  {
    if s == [] then None
    else if p(s[0]) then Some(0)
    else match FindFirst(s[1..], p)
      case None => None
      case Some(k) => Some(k + 1)
  }

  ghost predicate UsernameTaken(users: seq<User>, username: string) {
    exists i :: 0 <= i < |users| && users[i].username == username
  }

  ghost predicate EmailTaken(users: seq<User>, email: string) {
    exists i :: 0 <= i < |users| && users[i].email == email
  }

  ghost predicate IdTaken(users: seq<User>, id: nat) {
    exists i :: 0 <= i < |users| && users[i].id == id
  }

  /** users[i] is the row `User.query.filter_by(email=email).first()` yields. */
  ghost predicate FirstWithEmail(users: seq<User>, email: string, i: int) {
    0 <= i < |users| && users[i].email == email
    && forall j :: 0 <= j < i ==> users[j].email != email
  }

  /** The filter of `OTP.query.filter_by(user_id=userId, code=code)`. */
  predicate Matches(otp: Otp, userId: nat, code: string) {
    otp.userId == userId && otp.code == code
  }

  ghost predicate CodeIssued(otps: seq<Otp>, userId: nat, code: string) {
    exists k :: 0 <= k < |otps| && Matches(otps[k], userId, code)
  }

  /** otps[k] is the row `OTP.query.filter_by(user_id=userId, code=code).first()` yields. */
  ghost predicate FirstMatch(otps: seq<Otp>, userId: nat, code: string, k: int) {
    0 <= k < |otps| && Matches(otps[k], userId, code)
    && forall j :: 0 <= j < k ==> !Matches(otps[j], userId, code)
  }

  /** `User.query.filter_by(username=username).first()` */
  function UserWithUsername(users: seq<User>, username: string): (r: Option<nat>)
    ensures r.Some? ==> r.value < |users| && users[r.value].username == username
    ensures r.None? <==> !UsernameTaken(users, username)
  {
    FindFirst(users, (u: User) => u.username == username)
  }

  /** `User.query.filter_by(email=email).first()` */
  function UserWithEmail(users: seq<User>, email: string): (r: Option<nat>)
    ensures r.Some? ==> FirstWithEmail(users, email, r.value)
    ensures r.None? <==> !EmailTaken(users, email)
  {
    FindFirst(users, (u: User) => u.email == email)
  }

  /** `User.query.get(id)`: lookup by primary key. */
  function UserWithId(users: seq<User>, id: nat): (r: Option<nat>)
    ensures r.Some? ==> r.value < |users| && users[r.value].id == id
    ensures r.None? <==> !IdTaken(users, id)
  {
    FindFirst(users, (u: User) => u.id == id)
  }

  /** `OTP.query.filter_by(user_id=userId, code=code).first()` */
  function OtpFor(otps: seq<Otp>, userId: nat, code: string): (r: Option<nat>)
    ensures r.Some? ==> FirstMatch(otps, userId, code, r.value)
    ensures r.None? <==> !CodeIssued(otps, userId, code)
  {
    FindFirst(otps, (o: Otp) => Matches(o, userId, code))
  }

  /** Deleting the row at index k: every other row stays, in its order. */
  function RemoveAt<T>(s: seq<T>, k: nat): (r: seq<T>)
    requires k < |s|
    ensures |r| == |s| - 1
    ensures forall j :: 0 <= j < k ==> r[j] == s[j]
    ensures forall j :: k <= j < |r| ==> r[j] == s[j + 1]
    ensures multiset(r) + multiset{s[k]} == multiset(s)
  {
    assert s == s[..k] + [s[k]] + s[k + 1..];
    s[..k] + s[k + 1..]
  }

  /** How many outstanding OTP rows carry this (user, code) pair. */
  function CountMatching(otps: seq<Otp>, userId: nat, code: string): (n: nat)
    ensures n <= |otps|
    ensures n == 0 <==> !CodeIssued(otps, userId, code)
  {
    if otps == [] then 0
    else
      var rest := CountMatching(otps[1..], userId, code);
      assert CodeIssued(otps[1..], userId, code) ==> CodeIssued(otps, userId, code) by {
        if CodeIssued(otps[1..], userId, code) {
          var k :| 0 <= k < |otps[1..]| && Matches(otps[1..][k], userId, code);
          assert Matches(otps[k + 1], userId, code);
        }
      }
      (if Matches(otps[0], userId, code) then 1 else 0) + rest
  }

  lemma {:induction false} CountAfterRemoveAt(otps: seq<Otp>, k: nat, userId: nat, code: string)
    requires k < |otps|
    ensures CountMatching(RemoveAt(otps, k), userId, code)
         == CountMatching(otps, userId, code) - (if Matches(otps[k], userId, code) then 1 else 0)
  {
    if k == 0 {
      assert RemoveAt(otps, 0) == otps[1..];
    } else {
      var r := RemoveAt(otps, k);
      CountAfterRemoveAt(otps[1..], k - 1, userId, code);
      assert r[1..] == RemoveAt(otps[1..], k - 1);
      assert CountMatching(r, userId, code)
          == (if Matches(otps[0], userId, code) then 1 else 0) + CountMatching(r[1..], userId, code);
    }
  }

  lemma {:induction false} CountAfterAppend(otps: seq<Otp>, otp: Otp, userId: nat, code: string)
    ensures CountMatching(otps + [otp], userId, code)
         == CountMatching(otps, userId, code) + (if Matches(otp, userId, code) then 1 else 0)
  {
    if otps != [] {
      CountAfterAppend(otps[1..], otp, userId, code);
      assert (otps + [otp])[1..] == otps[1..] + [otp];
    }
  }

  /**
   * The invariant the handlers keep: primary keys below the next key and
   * distinct, usernames and emails unique (the two register checks), and
   * every OTP row owned by an existing user.
   */
  ghost predicate Consistent(db: Db) {
    && (forall i :: 0 <= i < |db.users| ==> db.users[i].id < db.nextUserId)
    && (forall i, j :: 0 <= i < j < |db.users| ==> db.users[i].id != db.users[j].id)
    && (forall i, j :: 0 <= i < j < |db.users| ==> db.users[i].username != db.users[j].username)
    && (forall i, j :: 0 <= i < j < |db.users| ==> db.users[i].email != db.users[j].email)
    && (forall k :: 0 <= k < |db.otps| ==> db.otps[k].id < db.nextOtpId)
    && (forall k :: 0 <= k < |db.otps| ==> IdTaken(db.users, db.otps[k].userId))
    && (forall k, l :: 0 <= k < l < |db.otps| ==> db.otps[k].id != db.otps[l].id)
  }

  /**
   * `generate_otp(user_id)`: stores one new OTP row for the user. The code and
   * the expiry are what the generator chose; they are inputs here.
   */
  function IssueOtp(db: Db, userId: nat, code: string, expiresAt: int): (r: Db)
    ensures r.users == db.users && r.nextUserId == db.nextUserId
    ensures |r.otps| == |db.otps| + 1 && r.otps[..|db.otps|] == db.otps
    ensures r.otps[|db.otps|] == Otp(db.nextOtpId, userId, code, expiresAt)
    ensures r.nextOtpId == db.nextOtpId + 1
  {
    db.(otps := db.otps + [Otp(db.nextOtpId, userId, code, expiresAt)], nextOtpId := db.nextOtpId + 1)
  }

  lemma IssueOtpKeepsConsistent(db: Db, userId: nat, code: string, expiresAt: int)
    requires Consistent(db) && IdTaken(db.users, userId)
    ensures Consistent(IssueOtp(db, userId, code, expiresAt))
  {
  }

  /** Issuing adds exactly one row for (userId, code) and leaves every other pair's rows alone. */
  lemma IssueOtpCounts(db: Db, userId: nat, code: string, expiresAt: int, u: nat, c: string)
    ensures CountMatching(IssueOtp(db, userId, code, expiresAt).otps, u, c)
         == CountMatching(db.otps, u, c) + (if u == userId && c == code then 1 else 0)
  {
    CountAfterAppend(db.otps, Otp(db.nextOtpId, userId, code, expiresAt), u, c);
  }
}
