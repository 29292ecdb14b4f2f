/** The account life cycle of backend/routes/auth.js: signup stores an
    unverified user with a one-time code, verify-otp checks the code and marks
    the user verified, resend-otp replaces the code under a cooldown, and
    login issues a session token to verified users only.

    Collaborators are parameters: the bcrypt hash of the password
    (`hashed`), bcrypt's compare (`passwordMatches`), the outcome of sending
    the code by mail (`mailDelivered`), the clock (`now`, in ms), the random
    draw of the code (`otpOffset`) and the id a new document receives. */
module AuthRoutes {
  import opened Common
  import opened OtpHelper
  import opened UserModel
  import opened Store

  /** A signed session token. Only its `{ _id }` payload is modelled; the
      signature, the secret and the 7-day lifetime belong to jsonwebtoken. */
  datatype SessionToken = SessionToken(userId: Id)

  /** The `{ user: { _id, name, username, email, avatar }, token }` body of a
      successful verify-otp or login. */
  datatype Session = Session(id: Id, name: string, username: string, email: string, avatar: string, token: SessionToken)

  /** A code mailed to an address (`sendOTPEmail(email, otp)`). */
  datatype OtpMail = OtpMail(to: string, code: string)

  /** The outcomes of login: a session (200), "verify first" with the user's
      id (403), or an error status with its message. */
  datatype LoginReply = Granted(session: Session) | NotVerified(userId: Id) | Denied(status: nat, message: string)

  function SessionFor(u: User): (s: Session)
    ensures s.id == u.id && s.token.userId == u.id
    ensures s.username == u.username && s.email == u.email
  {
    Session(u.id, u.name, u.username, u.email, u.avatar, SessionToken(u.id))
  }

  /** Lines 18-23: the four signup fields must all be truthy. */
  predicate SignupFieldsGiven(name: string, username: string, email: string, password: string) {
    name != "" && username != "" && email != "" && password != ""
  }

  /** Lines 46-48: what signup writes into the record it saves (new or
      reused): the fresh hash, a fresh code with its expiry, and "not
      verified". Identity, profile and follow lists are left as they were. */
  function Reissued(u: User, hashed: string, code: string, expiresAt: int): (v: User)
    ensures v.password == hashed && v.otp == OtpState(Some(code), Some(expiresAt)) && !v.isEmailVerified
    ensures v.(password := u.password, otp := u.otp, isEmailVerified := u.isEmailVerified) == u
  {
    u.(password := hashed, otp := OtpState(Some(code), Some(expiresAt)), isEmailVerified := false)
  }

  /** Lines 126-127: a verified record has no pending code; nothing else
      changes. */
  function MarkVerified(u: User): (v: User)
    ensures v.isEmailVerified && v.otp.code.None? && v.otp.expiresAt.None?
    ensures v.(isEmailVerified := u.isEmailVerified, otp := u.otp) == u
  {
    u.(isEmailVerified := true, otp := NoOtp)
  }

  /** Line 118: the stored code of `u` accepts `supplied` at `now`. */
  predicate CodeAccepted(u: User, supplied: JsonValue, now: int) {
    IsOtpValid(u.otp.code, supplied, u.otp.expiresAt, now)
  }

  /** The resend cooldown in milliseconds: 50 minutes. */
  const ResendCooldown: int := 50 * MsPerMinute

  /** Lines 184-191: with a stored expiry, a new code is refused while fewer
      than 50 minutes have passed since that expiry
      (`(now - expiresAt) / 60000 < 50`, a division over the reals, which
      is `now - expiresAt < 3000000`). Without a stored expiry it is allowed. */
  function ResendAllowed(u: User, now: int): (allowed: bool)
    ensures u.otp.expiresAt.None? ==> allowed
    ensures u.otp.expiresAt.Some? ==> (allowed <==> now >= u.otp.expiresAt.value + 3000000)
  {
    match u.otp.expiresAt
    case None => true
    case Some(e) => !(now - e < ResendCooldown)
  }

  /** One character of `toLowerCase()`, for the ASCII letters. */
  function LowerChar(c: char): (d: char)
    ensures 'A' <= c <= 'Z' ==> d as int == c as int + 32
    ensures !('A' <= c <= 'Z') ==> d == c
    ensures !('A' <= d <= 'Z')
  {
    if 'A' <= c <= 'Z' then (c as int + 32) as char else c
  }

  /** `email.toLowerCase()`, for the ASCII letters. */
  function ToLower(s: string): (r: string)
    ensures |r| == |s|
    ensures forall k :: 0 <= k < |s| ==> r[k] == LowerChar(s[k])
    ensures forall k :: 0 <= k < |r| ==> !('A' <= r[k] <= 'Z')
  {
    if s == [] then []
    else
      var rest := ToLower(s[1..]);
      var r := [LowerChar(s[0])] + rest;
      assert forall k :: 1 <= k < |r| ==> r[k] == rest[k - 1];
      r
  }

  // ===== POST /signup =====

  /** Lines 13-73. */
  method Signup(db: Db, name: string, username: string, email: string, password: string,
                hashed: string, otpOffset: nat, now: int, newId: Id, mailDelivered: bool)
    returns (r: Reply<Id>, sent: Option<OtpMail>)
    requires otpOffset < CodeSpan
    requires hashed != ""
    requires UserById(db.users, newId).None?
    modifies db`users
    ensures !SignupFieldsGiven(name, username, email, password) ==>
      r == Fail(400, "All fields are required") && sent.None? && db.users == old(db.users)
    ensures var m := UserByEmailOrUsername(old(db.users), email, username);
      SignupFieldsGiven(name, username, email, password) && m.Some? && old(db.users)[m.value].isEmailVerified ==>
        r == Fail(400, "Email or username already in use") && sent.None? && db.users == old(db.users)
    ensures var m := UserByEmailOrUsername(old(db.users), email, username);
      var code, expiry := GenerateOtp(otpOffset), ExpiryTime(now, Some(DefaultValidMinutes));
      SignupFieldsGiven(name, username, email, password) && m.Some? && !old(db.users)[m.value].isEmailVerified ==>
        && db.users == old(db.users)[m.value := Reissued(old(db.users)[m.value], hashed, code, expiry)]
        && sent == Some(OtpMail(email, code))
        && r == (if mailDelivered then Ok(201, old(db.users)[m.value].id)
                 else Fail(500, "Failed to send verification email. Please try again."))
    ensures var m := UserByEmailOrUsername(old(db.users), email, username);
      var code, expiry := GenerateOtp(otpOffset), ExpiryTime(now, Some(DefaultValidMinutes));
      SignupFieldsGiven(name, username, email, password) && m.None? ==>
        && db.users == old(db.users) + [Reissued(NewUser(newId, name, username, email, hashed), hashed, code, expiry)]
        && sent == Some(OtpMail(email, code))
        && r == (if mailDelivered then Ok(201, newId)
                 else Fail(500, "Failed to send verification email. Please try again."))
    ensures UniqueKeys(old(db.users)) ==> UniqueKeys(db.users)
    ensures UniqueIds(old(db.users)) ==> UniqueIds(db.users)
  {
    sent := None;
    if !(name != "" && username != "" && email != "" && password != "") {
      r := Fail(400, "All fields are required");
      return;
    }

    var existing := UserByEmailOrUsername(db.users, email, username);
    if existing.Some? && db.users[existing.value].isEmailVerified {
      r := Fail(400, "Email or username already in use");
      return;
    }

    var otp := GenerateOtp(otpOffset);
    var expiryTime := ExpiryTime(now, Some(DefaultValidMinutes));

    var user := if existing.Some? then db.users[existing.value] else NewUser(newId, name, username, email, hashed);
    user := user.(password := hashed);
    user := user.(otp := OtpState(Some(otp), Some(expiryTime)));
    user := user.(isEmailVerified := false);

    // user.save(): overwrite the reused document, or insert the new one
    if existing.Some? {
      assert user == Reissued(db.users[existing.value], hashed, otp, expiryTime);
      SameKeysKeepUnique(db.users, db.users[existing.value := user]);
      db.users := db.users[existing.value := user];
    } else {
      assert user == Reissued(NewUser(newId, name, username, email, hashed), hashed, otp, expiryTime);
      AppendFreshKeepsUnique(db.users, user);
      db.users := db.users + [user];
    }

    sent := Some(OtpMail(email, otp));
    if !mailDelivered {
      r := Fail(500, "Failed to send verification email. Please try again.");
      return;
    }
    r := Ok(201, user.id);
  }

  // ===== POST /verify-otp =====

  /** Lines 76-154. `email` is `None` when the body has no email: the
      `toLowerCase()` call at line 80 then throws and the handler answers 500
      before its own "required" check at line 93 is reached. */
  method VerifyOtp(db: Db, email: Option<string>, otp: JsonValue, now: int) returns (r: Reply<Session>)
    modifies db`users
    ensures email.None? ==> r == Fail(500, "Server error") && db.users == old(db.users)
    ensures email.Some? && UserByEmail(old(db.users), ToLower(email.value)).None? ==>
      r == Fail(404, "User not found") && db.users == old(db.users)
    ensures (email.Some? && UserByEmail(old(db.users), ToLower(email.value)).Some?
             && (email.value == "" || !JsonTruthy(otp))) ==>
      r == Fail(400, "Email and OTP are required") && db.users == old(db.users)
    ensures email.Some? ==> var i := UserByEmail(old(db.users), ToLower(email.value));
      i.Some? && email.value != "" && JsonTruthy(otp) && old(db.users)[i.value].isEmailVerified ==>
        r == Fail(400, "Email already verified") && db.users == old(db.users)
    ensures email.Some? ==> var i := UserByEmail(old(db.users), ToLower(email.value));
      i.Some? && email.value != "" && JsonTruthy(otp) && !old(db.users)[i.value].isEmailVerified
      && !CodeAccepted(old(db.users)[i.value], otp, now) ==>
        r == Fail(400, "Invalid or expired OTP") && db.users == old(db.users)
    ensures email.Some? ==> var i := UserByEmail(old(db.users), ToLower(email.value));
      i.Some? && email.value != "" && JsonTruthy(otp) && !old(db.users)[i.value].isEmailVerified
      && CodeAccepted(old(db.users)[i.value], otp, now) ==>
        && db.users == old(db.users)[i.value := MarkVerified(old(db.users)[i.value])]
        && r == Ok(200, SessionFor(MarkVerified(old(db.users)[i.value])))
    ensures UniqueKeys(old(db.users)) ==> UniqueKeys(db.users)
    ensures UniqueIds(old(db.users)) ==> UniqueIds(db.users)
  {
    if email.None? {
      r := Fail(500, "Server error");
      return;
    }
    var lowered := ToLower(email.value);
    var existingUser := UserByEmail(db.users, lowered);
    if existingUser.None? {
      r := Fail(404, "User not found");
      return;
    }

    // the email tested here is the lowered one; a stored user never has an
    // empty email, so only a falsy code reaches this branch
    if lowered == "" || !JsonTruthy(otp) {
      r := Fail(400, "Email and OTP are required");
      return;
    }

    // the second lookup at lines 101-107 finds the same user
    var i := existingUser.value;
    var user := db.users[i];
    if user.isEmailVerified {
      r := Fail(400, "Email already verified");
      return;
    }

    if !IsOtpValid(user.otp.code, otp, user.otp.expiresAt, now) {
      r := Fail(400, "Invalid or expired OTP");
      return;
    }

    user := user.(isEmailVerified := true);
    user := user.(otp := OtpState(None, None));
    db.users := db.users[i := user];

    r := Ok(200, Session(user.id, user.name, user.username, user.email, user.avatar, SessionToken(user.id)));
  }

  // ===== POST /resend-otp =====

  /** Lines 157-221. The email is looked up as given, without lowering. */
  method ResendOtp(db: Db, email: string, otpOffset: nat, now: int, mailDelivered: bool)
    returns (r: Reply<string>, sent: Option<OtpMail>)
    requires otpOffset < CodeSpan
    modifies db`users
    ensures email == "" ==> r == Fail(400, "Email is required") && sent.None? && db.users == old(db.users)
    ensures email != "" && UserByEmail(old(db.users), email).None? ==>
      r == Fail(404, "User not found") && sent.None? && db.users == old(db.users)
    ensures var i := UserByEmail(old(db.users), email);
      email != "" && i.Some? && old(db.users)[i.value].isEmailVerified ==>
        r == Fail(400, "Email already verified") && sent.None? && db.users == old(db.users)
    ensures var i := UserByEmail(old(db.users), email);
      email != "" && i.Some? && !old(db.users)[i.value].isEmailVerified && !ResendAllowed(old(db.users)[i.value], now) ==>
        r == Fail(429, "Please wait before requesting a new OTP") && sent.None? && db.users == old(db.users)
    ensures var i := UserByEmail(old(db.users), email);
      var code, expiry := GenerateOtp(otpOffset), ExpiryTime(now, Some(DefaultValidMinutes));
      email != "" && i.Some? && !old(db.users)[i.value].isEmailVerified && ResendAllowed(old(db.users)[i.value], now) ==>
        && db.users == old(db.users)[i.value := old(db.users)[i.value].(otp := OtpState(Some(code), Some(expiry)))]
        && sent == Some(OtpMail(email, code))
        && r == (if mailDelivered then Ok(200, "OTP resent successfully")
                 else Fail(500, "Failed to send OTP. Please try again."))
    ensures UniqueKeys(old(db.users)) ==> UniqueKeys(db.users)
    ensures UniqueIds(old(db.users)) ==> UniqueIds(db.users)
  {
    sent := None;
    if email == "" {
      r := Fail(400, "Email is required");
      return;
    }
    var found := UserByEmail(db.users, email);
    if found.None? {
      r := Fail(404, "User not found");
      return;
    }
    var i := found.value;
    var user := db.users[i];
    if user.isEmailVerified {
      r := Fail(400, "Email already verified");
      return;
    }

    if user.otp.expiresAt.Some? {
      var elapsed := now - user.otp.expiresAt.value;
      if elapsed < ResendCooldown {
        r := Fail(429, "Please wait before requesting a new OTP");
        return;
      }
    }

    var otp := GenerateOtp(otpOffset);
    var expiryTime := ExpiryTime(now, Some(DefaultValidMinutes));
    user := user.(otp := OtpState(Some(otp), Some(expiryTime)));
    db.users := db.users[i := user];

    sent := Some(OtpMail(email, otp));
    if !mailDelivered {
      r := Fail(500, "Failed to send OTP. Please try again.");
      return;
    }
    r := Ok(200, "OTP resent successfully");
  }

  // ===== POST /login =====

  /** Lines 224-290. An unknown user and a wrong password get the same 400
      answer; a right password on an unverified account gets 403 and no
      token; only a verified account gets a session. */
  function Login(users: seq<User>, emailOrUsername: string, password: string,
                 passwordMatches: (string, string) -> bool): (r: LoginReply)
    ensures emailOrUsername == "" || password == "" ==>
      r == Denied(400, "Email/Username and password are required")
    ensures r.Granted? <==>
      && emailOrUsername != "" && password != ""
      && var i := UserByEmailOrUsername(users, emailOrUsername, emailOrUsername);
         i.Some? && passwordMatches(password, users[i.value].password) && users[i.value].isEmailVerified
    ensures r.Granted? ==> var i := UserByEmailOrUsername(users, emailOrUsername, emailOrUsername);
      r.session == SessionFor(users[i.value])
    ensures r.NotVerified? <==>
      && emailOrUsername != "" && password != ""
      && var i := UserByEmailOrUsername(users, emailOrUsername, emailOrUsername);
         i.Some? && passwordMatches(password, users[i.value].password) && !users[i.value].isEmailVerified
    ensures r.NotVerified? ==> var i := UserByEmailOrUsername(users, emailOrUsername, emailOrUsername);
      r.userId == users[i.value].id
    ensures r.Denied? && emailOrUsername != "" && password != "" ==> r == Denied(400, "Invalid credentials")
  {
    if emailOrUsername == "" || password == "" then
      Denied(400, "Email/Username and password are required")
    else
      match UserByEmailOrUsername(users, emailOrUsername, emailOrUsername)
      case None => Denied(400, "Invalid credentials")
      case Some(i) =>
        if !passwordMatches(password, users[i].password) then Denied(400, "Invalid credentials")
        else if !users[i].isEmailVerified then NotVerified(users[i].id)
        else Granted(SessionFor(users[i]))
  }

  // ===== properties of the life cycle =====

  /** The code signup or resend stores is accepted by verify-otp, as text or
      as a number, up to and including ten minutes after it was issued and
      not a millisecond later; nothing else that is sent as text is accepted. */
  lemma {:induction false} IssuedCodeAcceptedForTenMinutes(u: User, hashed: string, otpOffset: nat, issuedAt: int, now: int, other: string)
    requires otpOffset < CodeSpan
    requires other != GenerateOtp(otpOffset)
    ensures var code := GenerateOtp(otpOffset);
      var v := Reissued(u, hashed, code, ExpiryTime(issuedAt, Some(DefaultValidMinutes)));
      && (CodeAccepted(v, Str(code), now) <==> now <= issuedAt + 600000)
      && (CodeAccepted(v, Num(LowestCode + otpOffset), now) <==> now <= issuedAt + 600000)
      && !CodeAccepted(v, Str(other), now)
  {
    FreshCodeAcceptedForTenMinutes(otpOffset, issuedAt, now, other);
    assert ExpiryTime(issuedAt, Some(DefaultValidMinutes)) == ExpiryTime(issuedAt, None);
  }

  /** Once verified, a record accepts no code at all. */
  lemma VerifiedRecordAcceptsNoCode(u: User, supplied: JsonValue, now: int)
    ensures !CodeAccepted(MarkVerified(u), supplied, now)
  {
  }

  /** The cooldown counts from the expiry, so after a code issued at
      `issuedAt` with the usual ten-minute life, resend is refused until a
      full hour after issue. */
  lemma ResendWaitsAnHourAfterIssue(u: User, hashed: string, code: string, issuedAt: int, now: int)
    ensures var v := Reissued(u, hashed, code, ExpiryTime(issuedAt, Some(DefaultValidMinutes)));
      ResendAllowed(v, now) <==> now >= issuedAt + 3600000
  {
  }

  /** While a stored code can still be accepted, resend is refused: the
      cooldown covers the whole life of a code. */
  lemma ResendRefusedWhileCodeLive(u: User, supplied: JsonValue, now: int)
    requires u.otp.expiresAt.Some?
    requires CodeAccepted(u, supplied, now)
    ensures !ResendAllowed(u, now)
  {
  }

  /** Verify-otp looks the user up by the lowered email while signup stores
      the email as it was given, so a user whose stored email holds an
      upper-case letter is never found by verify-otp, whatever is sent. */
  lemma UpperCaseEmailNeverVerified(users: seq<User>, given: string, k: nat, j: nat)
    requires k < |users| && j < |users[k].email|
    requires 'A' <= users[k].email[j] <= 'Z'
    ensures UserByEmail(users, ToLower(given)) != Some(k)
  {
  }
}
