/** Whole request sequences run against a fresh store, each ending in what a
    client sees: the account life cycle from signup to login, and a double
    upvote. */
module Scenarios {
  import opened Common
  import opened OtpHelper
  import opened UserModel
  import opened PostModel
  import opened Store
  import opened AuthRoutes
  import opened PostsRoutes

  /** The record signup stores for a new user whose code is drawn with
      `otpOffset` at `now`. */
  function Enrolled(newId: Id, name: string, username: string, email: string, hashed: string,
                    otpOffset: nat, now: int): (u: User)
    requires otpOffset < CodeSpan
    ensures u.id == newId && u.username == username && u.email == email && u.password == hashed
    ensures u.otp == OtpState(Some(GenerateOtp(otpOffset)), Some(now + 600000)) && !u.isEmailVerified
  {
    Reissued(NewUser(newId, name, username, email, hashed), hashed, GenerateOtp(otpOffset),
             ExpiryTime(now, Some(DefaultValidMinutes)))
  }

  /** Signup into an empty store, then a login by username before the email
      is verified. */
  method SignupStep(name: string, username: string, email: string, password: string, hashed: string,
                    otpOffset: nat, now: int, newId: Id, passwordMatches: (string, string) -> bool)
    returns (db: Db, signedUp: Reply<Id>, mailed: OtpMail, early: LoginReply)
    requires SignupFieldsGiven(name, username, email, password) && hashed != ""
    requires otpOffset < CodeSpan
    requires passwordMatches(password, hashed)
    ensures fresh(db)
    ensures db.users == [Enrolled(newId, name, username, email, hashed, otpOffset, now)]
    ensures signedUp == Ok(201, newId)
    ensures mailed == OtpMail(email, GenerateOtp(otpOffset))
    ensures early == NotVerified(newId)
  {
    db := new Db();
    var sent;
    signedUp, sent := Signup(db, name, username, email, password, hashed, otpOffset, now, newId, true);
    mailed := sent.value;
    early := Login(db.users, username, password, passwordMatches);
  }

  /** Verify-otp on the only, unverified user of the store with a code its
      record does not accept: refused, and nothing changes. */
  method WrongCodeStep(db: Db, email: string, supplied: JsonValue, now: int) returns (rejected: Reply<Session>)
    requires |db.users| == 1 && db.users[0].email == email && email != "" && ToLower(email) == email
    requires !db.users[0].isEmailVerified && JsonTruthy(supplied)
    requires !CodeAccepted(db.users[0], supplied, now)
    modifies db`users
    ensures rejected == Fail(400, "Invalid or expired OTP")
    ensures db.users == old(db.users)
  {
    assert UserByEmail(db.users, ToLower(email)) == Some(0);
    rejected := VerifyOtp(db, Some(email), supplied, now);
  }

  /** Verify-otp on the only, unverified user of the store with a code its
      record accepts: a session, and the record is verified. */
  method RightCodeStep(db: Db, email: string, supplied: JsonValue, now: int) returns (verified: Reply<Session>)
    requires |db.users| == 1 && db.users[0].email == email && email != "" && ToLower(email) == email
    requires !db.users[0].isEmailVerified && JsonTruthy(supplied)
    requires CodeAccepted(db.users[0], supplied, now)
    modifies db`users
    ensures verified == Ok(200, SessionFor(MarkVerified(old(db.users)[0])))
    ensures db.users == [MarkVerified(old(db.users)[0])]
  {
    assert UserByEmail(db.users, ToLower(email)) == Some(0);
    verified := VerifyOtp(db, Some(email), supplied, now);
  }

  /** Signup; login before verifying (403, no token); verify-otp with a wrong
      code a second later (400, still unverified); verify-otp with the mailed
      code a minute later (200 with a session); login again (a session). */
  method SignupVerifyLogin(name: string, username: string, email: string, password: string, hashed: string,
                           otpOffset: nat, now: int, newId: Id, wrong: string,
                           passwordMatches: (string, string) -> bool)
    returns (signedUp: Reply<Id>, early: LoginReply, rejected: Reply<Session>, verified: Reply<Session>, late: LoginReply)
    requires SignupFieldsGiven(name, username, email, password) && hashed != ""
    requires otpOffset < CodeSpan
    requires wrong != "" && wrong != GenerateOtp(otpOffset)
    requires ToLower(email) == email
    requires passwordMatches(password, hashed)
    ensures signedUp == Ok(201, newId)
    ensures early == NotVerified(newId)
    ensures rejected == Fail(400, "Invalid or expired OTP")
    ensures verified.Ok? && verified.body.id == newId && verified.body.token == SessionToken(newId)
    ensures late.Granted? && late.session.token == SessionToken(newId)
  {
    var db, mailed;
    db, signedUp, mailed, early := SignupStep(name, username, email, password, hashed, otpOffset, now, newId, passwordMatches);
    ghost var stored := db.users[0];

    IssuedCodeAcceptedForTenMinutes(NewUser(newId, name, username, email, hashed), hashed, otpOffset, now, now + 1000, wrong);
    rejected := WrongCodeStep(db, email, Str(wrong), now + 1000);

    IssuedCodeAcceptedForTenMinutes(NewUser(newId, name, username, email, hashed), hashed, otpOffset, now, now + 60000, wrong);
    verified := RightCodeStep(db, email, Str(mailed.code), now + 60000);

    assert UserByEmailOrUsername(db.users, email, email) == Some(0);
    late := Login(db.users, email, password, passwordMatches);
  }

  /** Two upvotes by a voter with no vote on the post: the first answers
      "upvoted" with one more upvote, the second "not upvoted" with the count
      back where it was. */
  method DoubleUpvote(p: Post, u: Id) returns (first: Reply<VoteReply>, second: Reply<VoteReply>)
    requires u !in p.upvotes && u !in p.downvotes
    ensures first.Ok? && first.body.hasUpvoted && first.body.upvotes == |p.upvotes| + 1
    ensures second.Ok? && !second.body.hasUpvoted && second.body.upvotes == |p.upvotes|
    ensures second.body.downvotes == |p.downvotes|
  {
    var db := new Db();
    db.posts := [p];
    first := Upvote(db, p.id, u);
    second := Upvote(db, p.id, u);
    UpvoteTwiceRestores(p, u);
  }
}
