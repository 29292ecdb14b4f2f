/** The follow toggle and the profile update of backend/routes/users.js.

    The follow graph is stored twice, as `following` on the follower and
    `followers` on the followed user; the toggle writes both sides, so the
    two stay mirror images of each other. */
module UsersRoutes {
  import opened Common
  import opened UserModel
  import opened Store

  // ===== POST /follow/:id =====

  /** Lines 34-41 on the two documents: when `me` follows `target`, every
      occurrence of each in the other's list goes and the rest keep their
      order; otherwise each is appended once at the end. Afterwards the two
      sides agree for this pair, whatever they said before, and no entry for
      any other user moves. */
  function ToggleFollow(me: User, target: User): (r: (User, User))
    ensures target.id in r.0.following <==> target.id !in me.following
    ensures me.id in r.1.followers <==> target.id !in me.following
    ensures target.id in r.0.following <==> me.id in r.1.followers
    ensures target.id in me.following ==>
      r.0.following == RemoveAll(me.following, target.id) && r.1.followers == RemoveAll(target.followers, me.id)
    ensures target.id !in me.following ==>
      r.0.following == me.following + [target.id] && r.1.followers == target.followers + [me.id]
    ensures forall v :: v != target.id ==> Count(r.0.following, v) == Count(me.following, v)
    ensures forall v :: v != me.id ==> Count(r.1.followers, v) == Count(target.followers, v)
    ensures r.0.(following := me.following) == me
    ensures r.1.(followers := target.followers) == target
  {
    if target.id in me.following then
      (me.(following := RemoveAll(me.following, target.id)),
       target.(followers := RemoveAll(target.followers, me.id)))
    else
      forall v | v != target.id ensures Count(me.following + [target.id], v) == Count(me.following, v) {
        CountConcat(me.following, [target.id], v);
      }
      forall v | v != me.id ensures Count(target.followers + [me.id], v) == Count(target.followers, v) {
        CountConcat(target.followers, [me.id], v);
      }
      (me.(following := me.following + [target.id]),
       target.(followers := target.followers + [me.id]))
  }

  /** The users after `users[mi]` toggles following `users[ti]`. */
  function FollowToggled(users: seq<User>, mi: nat, ti: nat): (r: seq<User>)
    requires mi < |users| && ti < |users| && mi != ti
    ensures |r| == |users|
    ensures (r[mi], r[ti]) == ToggleFollow(users[mi], users[ti])
    ensures forall k :: 0 <= k < |r| && k != mi && k != ti ==> r[k] == users[k]
    ensures SameKeys(users, r)
  {
    var pair := ToggleFollow(users[mi], users[ti]);
    users[mi := pair.0][ti := pair.1]
  }

  /** The two sides of the follow graph agree: `a` lists `b` among those it
      follows exactly when `b` lists `a` among its followers. */
  ghost predicate FollowSymmetric(users: seq<User>) {
    forall i, j :: 0 <= i < |users| && 0 <= j < |users| ==>
      (users[j].id in users[i].following <==> users[i].id in users[j].followers)
  }

  /** A toggle keeps the whole follow graph symmetric: the pair it touches
      agrees afterwards by construction, and every other pair reads lists the
      toggle leaves alone as far as that pair is concerned. */
  lemma {:induction false} FollowKeepsSymmetry(users: seq<User>, mi: nat, ti: nat)
    requires mi < |users| && ti < |users| && mi != ti
    requires UniqueIds(users)
    requires FollowSymmetric(users)
    ensures FollowSymmetric(FollowToggled(users, mi, ti))
  {
    var r := FollowToggled(users, mi, ti);
    var me, target := users[mi], users[ti];
    assert me.id != target.id;
    forall i, j | 0 <= i < |r| && 0 <= j < |r|
      ensures r[j].id in r[i].following <==> r[i].id in r[j].followers
    {
      assert r[i].id == users[i].id && r[j].id == users[j].id;
      if i == mi && j == ti {
      } else {
        // the following list of `i` is unchanged as far as `users[j]` goes
        assert r[j].id in r[i].following <==> users[j].id in users[i].following by {
          if i == mi {
            assert j != ti;
            assert users[j].id != target.id by {
              if j < ti { } else { }
            }
            assert Count(r[i].following, users[j].id) == Count(users[i].following, users[j].id);
          }
        }
        // the followers list of `j` is unchanged as far as `users[i]` goes
        assert r[i].id in r[j].followers <==> users[i].id in users[j].followers by {
          if j == ti {
            assert i != mi;
            assert users[i].id != me.id by {
              if i < mi { } else { }
            }
            assert Count(r[j].followers, users[i].id) == Count(users[j].followers, users[i].id);
          }
        }
      }
    }
  }

  /** No user lists themselves as followed or as a follower. */
  ghost predicate NoSelfFollow(users: seq<User>) {
    forall i :: 0 <= i < |users| ==> users[i].id !in users[i].following && users[i].id !in users[i].followers
  }

  /** The toggle of two different users never makes anyone follow
      themselves: it only ever adds the other user of the pair. */
  lemma {:induction false} FollowKeepsNoSelfFollow(users: seq<User>, mi: nat, ti: nat)
    requires mi < |users| && ti < |users| && mi != ti
    requires UniqueIds(users)
    requires NoSelfFollow(users)
    ensures NoSelfFollow(FollowToggled(users, mi, ti))
  {
    var r := FollowToggled(users, mi, ti);
    var me, target := users[mi], users[ti];
    assert me.id != target.id by {
      if mi < ti { } else { }
    }
    assert r[mi].id !in r[mi].following by {
      assert Count(r[mi].following, me.id) == Count(me.following, me.id);
    }
    assert r[mi].id !in r[mi].followers;
    assert r[ti].id !in r[ti].followers by {
      assert Count(r[ti].followers, target.id) == Count(target.followers, target.id);
    }
    assert r[ti].id !in r[ti].following;
  }

  /** The invariants the follow graph keeps under one toggle, gathered for
      the handler. */
  lemma ToggleFollowPreserves(users: seq<User>, mi: nat, ti: nat)
    requires mi < |users| && ti < |users| && mi != ti
    ensures UniqueIds(users) && FollowSymmetric(users) ==> FollowSymmetric(FollowToggled(users, mi, ti))
    ensures UniqueIds(users) && NoSelfFollow(users) ==> NoSelfFollow(FollowToggled(users, mi, ti))
    ensures UniqueIds(users) ==> UniqueIds(FollowToggled(users, mi, ti))
    ensures UniqueKeys(users) ==> UniqueKeys(FollowToggled(users, mi, ti))
  {
    if UniqueIds(users) && FollowSymmetric(users) {
      FollowKeepsSymmetry(users, mi, ti);
    }
    if UniqueIds(users) && NoSelfFollow(users) {
      FollowKeepsNoSelfFollow(users, mi, ti);
    }
    SameKeysKeepUnique(users, FollowToggled(users, mi, ti));
  }

  /** Toggling twice gives back both memberships of a pair that agreed
      before, and gives back the documents themselves when neither side
      listed the other. */
  lemma FollowTwiceRestores(me: User, target: User)
    requires target.id in me.following <==> me.id in target.followers
    ensures var once := ToggleFollow(me, target);
      var twice := ToggleFollow(once.0, once.1);
      && (target.id in twice.0.following <==> target.id in me.following)
      && (me.id in twice.1.followers <==> me.id in target.followers)
    ensures target.id !in me.following ==>
      var once := ToggleFollow(me, target);
      ToggleFollow(once.0, once.1) == (me, target)
  {
    if target.id !in me.following {
      RemoveAllAfterPush(me.following, target.id);
      RemoveAllAfterPush(target.followers, me.id);
    }
  }

  /** The notification sent to the followed user's room. */
  datatype FollowNotice = FollowNotice(to: Id, kind: string, from: Id)

  /** Lines 25-54. The answer's `following` is the new state of the pair;
      `notice` is the event emitted to the target when sockets are running
      (`ioRunning`). */
  method Follow(db: Db, userId: Id, targetId: Id, ioRunning: bool)
    returns (r: Reply<bool>, notice: Option<FollowNotice>)
    modifies db`users
    ensures userId == targetId ==>
      r == Fail(400, "Cannot follow yourself") && notice.None? && db.users == old(db.users)
    ensures userId != targetId && (UserById(old(db.users), userId).None? || UserById(old(db.users), targetId).None?) ==>
      r == Fail(404, "User not found") && notice.None? && db.users == old(db.users)
    ensures var mi, ti := UserById(old(db.users), userId), UserById(old(db.users), targetId);
      userId != targetId && mi.Some? && ti.Some? ==>
        var wasFollowing := targetId in old(db.users)[mi.value].following;
        && db.users == FollowToggled(old(db.users), mi.value, ti.value)
        && r == Ok(200, !wasFollowing)
        && (targetId in db.users[mi.value].following <==> !wasFollowing)
        && notice == (if ioRunning then Some(FollowNotice(targetId, if wasFollowing then "unfollow" else "follow", userId)) else None)
    ensures UniqueIds(old(db.users)) && FollowSymmetric(old(db.users)) ==> FollowSymmetric(db.users)
    ensures UniqueIds(old(db.users)) && NoSelfFollow(old(db.users)) ==> NoSelfFollow(db.users)
    ensures UniqueIds(old(db.users)) ==> UniqueIds(db.users)
    ensures UniqueKeys(old(db.users)) ==> UniqueKeys(db.users)
  {
    notice := None;
    if userId == targetId {
      r := Fail(400, "Cannot follow yourself");
      return;
    }
    var foundMe := UserById(db.users, userId);
    var foundTarget := UserById(db.users, targetId);
    if foundMe.None? || foundTarget.None? {
      r := Fail(404, "User not found");
      return;
    }
    var mi, ti := foundMe.value, foundTarget.value;
    var me, target := db.users[mi], db.users[ti];

    var isFollowing := targetId in me.following;
    if isFollowing {
      me := me.(following := RemoveAll(me.following, targetId));
      target := target.(followers := RemoveAll(target.followers, userId));
    } else {
      me := me.(following := me.following + [targetId]);
      target := target.(followers := target.followers + [userId]);
    }
    ghost var before := db.users;
    assert me == ToggleFollow(before[mi], before[ti]).0;
    assert target == ToggleFollow(before[mi], before[ti]).1;
    ToggleFollowPreserves(before, mi, ti);
    db.users := db.users[mi := me][ti := target];
    assert db.users == FollowToggled(before, mi, ti);

    if ioRunning {
      notice := Some(FollowNotice(targetId, if isFollowing then "unfollow" else "follow", userId));
    }
    r := Ok(200, !isFollowing);
  }

  // ===== PUT /:id =====

  /** Line 60: the only paths a profile update may set. */
  const UpdatableFields: seq<string> := ["name", "username", "avatar", "email", "bio"]

  /** The update a body asks for: its truthy values on whitelisted paths. */
  function Whitelisted(body: map<string, string>): (update: map<string, string>)
    ensures forall k :: k in update <==> k in UpdatableFields && k in body && body[k] != ""
    ensures forall k :: k in update ==> update[k] == body[k]
  {
    map k | k in body && k in UpdatableFields && body[k] != "" :: body[k]
  }

  /** Lines 60-62: the update object holds exactly the whitelisted fields the
      body gives a truthy value, each with that value. */
  method BuildUpdate(body: map<string, string>) returns (update: map<string, string>)
    ensures forall k :: k in update <==> k in UpdatableFields && k in body && body[k] != ""
    ensures forall k :: k in update ==> update[k] == body[k]
    ensures "password" !in update
    ensures update == Whitelisted(body)
  {
    update := map[];
    var n := 0;
    while n < |UpdatableFields|
      invariant 0 <= n <= |UpdatableFields|
      invariant forall k :: k in update <==> k in UpdatableFields[..n] && k in body && body[k] != ""
      invariant forall k :: k in update ==> update[k] == body[k]
    {
      var k := UpdatableFields[n];
      if k in body && body[k] != "" {
        update := update[k := body[k]];
      }
      assert UpdatableFields[..n + 1] == UpdatableFields[..n] + [k];
      n := n + 1;
    }
    assert UpdatableFields[..n] == UpdatableFields;
  }

  /** The document after `findByIdAndUpdate` applies `update` to it: each
      whitelisted path present in the update takes its value; the password,
      the follow lists, the code and the verification flag never change. */
  function ApplyUpdate(u: User, update: map<string, string>): (v: User)
    ensures v.id == u.id && v.password == u.password
    ensures v.followers == u.followers && v.following == u.following
    ensures v.otp == u.otp && v.isEmailVerified == u.isEmailVerified
    ensures v.name == (if "name" in update then update["name"] else u.name)
    ensures v.username == (if "username" in update then update["username"] else u.username)
    ensures v.avatar == (if "avatar" in update then update["avatar"] else u.avatar)
    ensures v.email == (if "email" in update then update["email"] else u.email)
    ensures v.bio == (if "bio" in update then update["bio"] else u.bio)
  {
    u.(name := if "name" in update then update["name"] else u.name,
       username := if "username" in update then update["username"] else u.username,
       avatar := if "avatar" in update then update["avatar"] else u.avatar,
       email := if "email" in update then update["email"] else u.email,
       bio := if "bio" in update then update["bio"] else u.bio)
  }

  /** The unique indexes refuse a document at position `i` whose username or
      email another stored user already has. */
  predicate ClashesWithOthers(users: seq<User>, i: nat, v: User) {
    exists k :: 0 <= k < |users| && k != i && (users[k].username == v.username || users[k].email == v.email)
  }

  /** An empty field in the body never erases a profile value: only truthy
      values reach the update. */
  lemma {:induction false} EmptyFieldsIgnored(u: User, body: map<string, string>, update: map<string, string>, k: string)
    requires forall f :: f in update <==> f in UpdatableFields && f in body && body[f] != ""
    requires forall f :: f in update ==> update[f] == body[f]
    requires k in body && body[k] == ""
    ensures k == "name" ==> ApplyUpdate(u, update).name == u.name
    ensures k == "email" ==> ApplyUpdate(u, update).email == u.email
    ensures k == "username" ==> ApplyUpdate(u, update).username == u.username
  {
    assert k !in update;
  }

  /** Lines 57-66. A missing user is answered with 200 and no user; an update
      that collides with another user's username or email makes the store
      refuse it, answered with 500. */
  method UpdateProfile(db: Db, userId: Id, pathId: Id, body: map<string, string>)
    returns (r: Reply<Option<Profile>>)
    modifies db`users
    ensures userId != pathId ==> r == Fail(403, "Not allowed") && db.users == old(db.users)
    ensures userId == pathId && UserById(old(db.users), pathId).None? ==>
      r == Ok(200, None) && db.users == old(db.users)
    ensures userId == pathId && UserById(old(db.users), pathId).Some? ==>
      var i := UserById(old(db.users), pathId).value;
      var v := ApplyUpdate(old(db.users)[i], Whitelisted(body));
      && (ClashesWithOthers(old(db.users), i, v) ==> r == Fail(500, "Server error") && db.users == old(db.users))
      && (!ClashesWithOthers(old(db.users), i, v) ==>
            r == Ok(200, Some(ProfileOf(v))) && db.users == old(db.users)[i := v])
    ensures |db.users| == |old(db.users)|
    ensures forall i :: 0 <= i < |db.users| ==> db.users[i].password == old(db.users)[i].password
    ensures UniqueKeys(old(db.users)) ==> UniqueKeys(db.users)
    ensures UniqueIds(old(db.users)) ==> UniqueIds(db.users)
  {
    if userId != pathId {
      r := Fail(403, "Not allowed");
      return;
    }
    var update := BuildUpdate(body);
    var found := UserById(db.users, pathId);
    if found.None? {
      r := Ok(200, None);
      return;
    }
    var i := found.value;
    var v := ApplyUpdate(db.users[i], update);
    if ClashesWithOthers(db.users, i, v) {
      r := Fail(500, "Server error");
      return;
    }
    db.users := db.users[i := v];
    r := Ok(200, Some(ProfileOf(v)));
  }
}
