/** The user document (backend/models/User.js): identity, password hash,
    profile, the two sides of the follow graph, the pending one-time code and
    the verification flag. */
module UserModel {
  import opened Common

  /** The `otp` sub-document: a code and its expiry instant (ms), each `null`
      until a code is issued and again once it has been used. */
  datatype OtpState = OtpState(code: Option<string>, expiresAt: Option<int>)

  /** `{ code: null, expiresAt: null }`: the schema default, and what a
      successful verification writes back. */
  const NoOtp: OtpState := OtpState(None, None)

  datatype User = User(
    id: Id,
    name: string,
    username: string,
    email: string,
    password: string,        // the bcrypt hash, never the password itself
    avatar: string,
    bio: string,
    followers: seq<Id>,
    following: seq<Id>,
    otp: OtpState,
    isEmailVerified: bool)

  /** Mongoose's `required` on a String path rejects a missing value and the
      empty string, so a saved user has all four of these non-empty. */
  predicate UserRequiredFields(u: User) {
    u.name != "" && u.username != "" && u.email != "" && u.password != ""
  }

  /** `new User({ name, username, email, password })`: the given fields and
      the schema defaults for all the others. */
  function NewUser(id: Id, name: string, username: string, email: string, password: string): (u: User)
    ensures u.id == id && u.name == name && u.username == username && u.email == email && u.password == password
    ensures u.avatar == "" && u.bio == ""
    ensures u.followers == [] && u.following == []
    ensures u.otp.code.None? && u.otp.expiresAt.None? && !u.isEmailVerified
    ensures UserRequiredFields(u) <==> name != "" && username != "" && email != "" && password != ""
  {
    User(id, name, username, email, password, "", "", [], [], NoOtp, false)
  }

  /** The unique indexes on `username` and on `email`: no two stored users
      share either. */
  ghost predicate UniqueKeys(users: seq<User>) {
    forall i, j :: 0 <= i < j < |users| ==>
      users[i].username != users[j].username && users[i].email != users[j].email
  }

  /** No two stored users share an id. */
  ghost predicate UniqueIds(users: seq<User>) {
    forall i, j :: 0 <= i < j < |users| ==> users[i].id != users[j].id
  }

  /** Users at the same positions with the same id, username and email. */
  ghost predicate SameKeys(a: seq<User>, b: seq<User>) {
    |a| == |b| && forall k :: 0 <= k < |a| ==> a[k].id == b[k].id && a[k].username == b[k].username && a[k].email == b[k].email
  }

  /** A change that keeps every id, username and email in place keeps the
      unique indexes satisfied. */
  lemma SameKeysKeepUnique(a: seq<User>, b: seq<User>)
    requires SameKeys(a, b)
    ensures UniqueIds(a) ==> UniqueIds(b)
    ensures UniqueKeys(a) ==> UniqueKeys(b)
  {
  }

  /** Adding a user whose id, username and email no stored user has keeps
      the unique indexes satisfied. */
  lemma AppendFreshKeepsUnique(users: seq<User>, u: User)
    requires forall k :: 0 <= k < |users| ==> users[k].id != u.id
    requires forall k :: 0 <= k < |users| ==> users[k].username != u.username && users[k].email != u.email
    ensures UniqueIds(users) ==> UniqueIds(users + [u])
    ensures UniqueKeys(users) ==> UniqueKeys(users + [u])
  {
    var r := users + [u];
    assert forall k :: 0 <= k < |users| ==> r[k] == users[k];
  }

  /** The public part of a user that the profile routes send (`select('-password')`). */
  datatype Profile = Profile(
    id: Id, name: string, username: string, email: string, avatar: string, bio: string,
    followers: seq<Id>, following: seq<Id>, isEmailVerified: bool)

  function ProfileOf(u: User): (p: Profile)
    ensures p.id == u.id && p.username == u.username && p.email == u.email
  {
    Profile(u.id, u.name, u.username, u.email, u.avatar, u.bio, u.followers, u.following, u.isEmailVerified)
  }
}
