/** The post handlers of backend/routes/posts.js: the feed, creating a post
    into a project, commenting, the two vote toggles and deletion with its
    cascade over comments and the project's post list.

    Media upload (Cloudinary with a local-disk fallback) is a parameter: the
    URL it produced, or `None` when both ways failed. */
module PostsRoutes {
  import opened Common
  import opened PostModel
  import opened ProjectModel
  import opened Sorting
  import opened Store

  // ===== the vote toggle =====

  /** One vote toggle of `u` on a post, seen from the list being voted on
      (`own`: `upvotes` for an upvote) and the opposite list (`other`).
      A vote already cast is withdrawn, every occurrence of it; otherwise it
      is cast once and any opposite vote of `u` is withdrawn. Afterwards `u`
      is in at most one of the two lists, and no other user's entries move. */
  function ToggleVote(own: seq<Id>, other: seq<Id>, u: Id): (r: (seq<Id>, seq<Id>))
    ensures u in r.0 <==> u !in own
    ensures u in r.1 <==> u in other && u in own
    ensures !(u in r.0 && u in r.1)
    ensures forall v :: v != u ==> Count(r.0, v) == Count(own, v) && Count(r.1, v) == Count(other, v)
    ensures u !in own ==> Count(r.0, u) == 1
    ensures u in own ==> r.0 == RemoveAll(own, u) && r.1 == other
    ensures u !in own ==> r.0 == own + [u] && r.1 == RemoveAll(other, u)
  {
    if u in own then
      (RemoveAll(own, u), other)
    else
      CountConcat(own, [u], u);
      forall v | v != u ensures Count(own + [u], v) == Count(own, v) {
        CountConcat(own, [u], v);
      }
      (own + [u], RemoveAll(other, u))
  }

  /** No user is in both lists of a post. */
  ghost predicate VotesExclusive(p: Post) {
    forall v :: !(v in p.upvotes && v in p.downvotes)
  }

  /** Lines 184-196: the post after `u` upvotes it. */
  function Upvoted(p: Post, u: Id): (q: Post)
    ensures (q.upvotes, q.downvotes) == ToggleVote(p.upvotes, p.downvotes, u)
    ensures q.(upvotes := p.upvotes, downvotes := p.downvotes) == p
  {
    var lists := ToggleVote(p.upvotes, p.downvotes, u);
    p.(upvotes := lists.0, downvotes := lists.1)
  }

  /** Lines 226-238, the mirror image: the post after `u` downvotes it. */
  function Downvoted(p: Post, u: Id): (q: Post)
    ensures (q.downvotes, q.upvotes) == ToggleVote(p.downvotes, p.upvotes, u)
    ensures q.(upvotes := p.upvotes, downvotes := p.downvotes) == p
  {
    var lists := ToggleVote(p.downvotes, p.upvotes, u);
    p.(downvotes := lists.0, upvotes := lists.1)
  }

  /** The body of a vote answer: the new list lengths and the voter's flags. */
  datatype VoteReply = VoteReply(upvotes: nat, downvotes: nat, hasUpvoted: bool, hasDownvoted: bool)

  /** Lines 174-213. */
  method Upvote(db: Db, postId: Id, userId: Id) returns (r: Reply<VoteReply>)
    modifies db`posts
    ensures PostById(old(db.posts), postId).None? ==>
      r == Fail(404, "Post not found") && db.posts == old(db.posts)
    ensures PostById(old(db.posts), postId).Some? ==>
      var i := PostById(old(db.posts), postId).value;
      var q := Upvoted(old(db.posts)[i], userId);
      && db.posts == old(db.posts)[i := q]
      && r == Ok(200, VoteReply(|q.upvotes|, |q.downvotes|, userId !in old(db.posts)[i].upvotes, false))
  {
    var found := PostById(db.posts, postId);
    if found.None? {
      r := Fail(404, "Post not found");
      return;
    }
    var i := found.value;
    var post := db.posts[i];

    var hasUpvoted := userId in post.upvotes;
    var hasDownvoted := userId in post.downvotes;

    if hasUpvoted {
      post := post.(upvotes := RemoveAll(post.upvotes, userId));
    } else {
      post := post.(upvotes := post.upvotes + [userId]);
      if hasDownvoted {
        post := post.(downvotes := RemoveAll(post.downvotes, userId));
      } else {
        RemoveAllAbsent(post.downvotes, userId);
      }
    }

    db.posts := db.posts[i := post];
    r := Ok(200, VoteReply(|post.upvotes|, |post.downvotes|, !hasUpvoted, false));
  }

  /** Lines 216-255. */
  method Downvote(db: Db, postId: Id, userId: Id) returns (r: Reply<VoteReply>)
    modifies db`posts
    ensures PostById(old(db.posts), postId).None? ==>
      r == Fail(404, "Post not found") && db.posts == old(db.posts)
    ensures PostById(old(db.posts), postId).Some? ==>
      var i := PostById(old(db.posts), postId).value;
      var q := Downvoted(old(db.posts)[i], userId);
      && db.posts == old(db.posts)[i := q]
      && r == Ok(200, VoteReply(|q.upvotes|, |q.downvotes|, false, userId !in old(db.posts)[i].downvotes))
  {
    var found := PostById(db.posts, postId);
    if found.None? {
      r := Fail(404, "Post not found");
      return;
    }
    var i := found.value;
    var post := db.posts[i];

    var hasDownvoted := userId in post.downvotes;
    var hasUpvoted := userId in post.upvotes;

    if hasDownvoted {
      post := post.(downvotes := RemoveAll(post.downvotes, userId));
    } else {
      post := post.(downvotes := post.downvotes + [userId]);
      if hasUpvoted {
        post := post.(upvotes := RemoveAll(post.upvotes, userId));
      } else {
        RemoveAllAbsent(post.upvotes, userId);
      }
    }

    db.posts := db.posts[i := post];
    r := Ok(200, VoteReply(|post.upvotes|, |post.downvotes|, false, !hasDownvoted));
  }

  /** Votes never put a user in both lists: a post whose lists are disjoint
      keeps them disjoint under any vote of any user. */
  lemma {:induction false} VotesStayExclusive(p: Post, u: Id)
    requires VotesExclusive(p)
    ensures VotesExclusive(Upvoted(p, u))
    ensures VotesExclusive(Downvoted(p, u))
  {
    var q, d := Upvoted(p, u), Downvoted(p, u);
    forall v | v != u
      ensures (v in q.upvotes <==> v in p.upvotes) && (v in q.downvotes <==> v in p.downvotes)
      ensures (v in d.upvotes <==> v in p.upvotes) && (v in d.downvotes <==> v in p.downvotes)
    {
      assert Count(q.upvotes, v) == Count(p.upvotes, v);
      assert Count(q.downvotes, v) == Count(p.downvotes, v);
      assert Count(d.upvotes, v) == Count(p.upvotes, v);
      assert Count(d.downvotes, v) == Count(p.downvotes, v);
    }
  }

  /** Upvoting twice, starting without an upvote, gives back the upvote list
      exactly; the only trace left is that an earlier downvote is gone. */
  lemma UpvoteTwiceRestores(p: Post, u: Id)
    requires u !in p.upvotes
    ensures Upvoted(Upvoted(p, u), u).upvotes == p.upvotes
    ensures Upvoted(Upvoted(p, u), u).downvotes == RemoveAll(p.downvotes, u)
    ensures u !in p.downvotes ==> Upvoted(Upvoted(p, u), u) == p
  {
    RemoveAllAfterPush(p.upvotes, u);
    if u !in p.downvotes {
      RemoveAllAbsent(p.downvotes, u);
    }
  }

  /** The mirror image for downvotes. */
  lemma DownvoteTwiceRestores(p: Post, u: Id)
    requires u !in p.downvotes
    ensures Downvoted(Downvoted(p, u), u).downvotes == p.downvotes
    ensures Downvoted(Downvoted(p, u), u).upvotes == RemoveAll(p.upvotes, u)
    ensures u !in p.upvotes ==> Downvoted(Downvoted(p, u), u) == p
  {
    RemoveAllAfterPush(p.downvotes, u);
    if u !in p.upvotes {
      RemoveAllAbsent(p.upvotes, u);
    }
  }

  // ===== GET / : the feed =====

  /** A post as the feed sends it: the document with the viewer's vote flags
      and both vote counts. */
  datatype FeedEntry = FeedEntry(post: Post, hasUpvoted: bool, hasDownvoted: bool, upvoteCount: nat, downvoteCount: nat)

  /** Lines 38-44 for one post: the flags say whether a (truthy) viewer is in
      each list; without a viewer both are false. */
  function Annotate(p: Post, viewer: Option<Id>): (e: FeedEntry)
    ensures e.post == p && e.upvoteCount == |p.upvotes| && e.downvoteCount == |p.downvotes|
    ensures e.hasUpvoted <==> OptTruthy(viewer) && viewer.value in p.upvotes
    ensures e.hasDownvoted <==> OptTruthy(viewer) && viewer.value in p.downvotes
  {
    var seen := OptTruthy(viewer);
    FeedEntry(p, seen && viewer.value in p.upvotes, seen && viewer.value in p.downvotes, |p.upvotes|, |p.downvotes|)
  }

  function AnnotateAll(posts: seq<Post>, viewer: Option<Id>): (feed: seq<FeedEntry>)
    ensures |feed| == |posts|
    ensures forall k :: 0 <= k < |posts| ==> feed[k] == Annotate(posts[k], viewer)
  {
    if posts == [] then [] else [Annotate(posts[0], viewer)] + AnnotateAll(posts[1..], viewer)
  }

  /** Lines 21-51: all posts, newest first, annotated. The route is mounted
      without the auth middleware, so `req.user` and `req.userId` are never
      set and the feed is annotated for no viewer. */
  function Feed(posts: seq<Post>): (feed: seq<FeedEntry>)
    ensures |feed| == |posts|
    ensures forall i, j :: 0 <= i < j < |feed| ==> feed[i].post.createdAt >= feed[j].post.createdAt
    ensures multiset(Sorted(posts)) == multiset(posts)
    ensures forall k :: 0 <= k < |feed| ==> feed[k] == Annotate(Sorted(posts)[k], None)
    ensures forall k :: 0 <= k < |feed| ==> !feed[k].hasUpvoted && !feed[k].hasDownvoted
  {
    AnnotateAll(Sorted(posts), None)
  }

  /** `.sort({ createdAt: -1 })`: ascending in the negated timestamp. */
  function Sorted(posts: seq<Post>): (r: seq<Post>)
    ensures |r| == |posts| && multiset(r) == multiset(posts)
    ensures forall i, j :: 0 <= i < j < |r| ==> r[i].createdAt >= r[j].createdAt
  {
    var r := SortBy(posts, (p: Post) => -p.createdAt);
    assert SortedBy(r, (p: Post) => -p.createdAt);
    r
  }

  /** The answer of a vote agrees with what the feed would show the voter
      afterwards, provided the voter was not in both lists before (which no
      sequence of votes produces, by `VotesStayExclusive`). */
  lemma {:induction false} VoteReplyMatchesFeed(p: Post, u: Id)
    requires u != ""
    requires !(u in p.upvotes && u in p.downvotes)
    ensures var q := Upvoted(p, u);
      var e := Annotate(q, Some(u));
      VoteReply(e.upvoteCount, e.downvoteCount, e.hasUpvoted, e.hasDownvoted)
        == VoteReply(|q.upvotes|, |q.downvotes|, u !in p.upvotes, false)
    ensures var q := Downvoted(p, u);
      var e := Annotate(q, Some(u));
      VoteReply(e.upvoteCount, e.downvoteCount, e.hasUpvoted, e.hasDownvoted)
        == VoteReply(|q.upvotes|, |q.downvotes|, false, u !in p.downvotes)
  {
  }

  /** Without that precondition the upvote answer can disagree with the state
      it leaves: a user in both lists who upvotes keeps the downvote while the
      answer says there is none. */
  lemma UpvoteReplyFromBothLists(p: Post, u: Id)
    requires u in p.upvotes && u in p.downvotes
    ensures u in Upvoted(p, u).downvotes
  {
  }

  // ===== POST /:id/comment =====

  /** Lines 130-171. The comment gets the fresh id `newId`. */
  method AddComment(db: Db, postId: Id, text: string, userId: Id, newId: Id) returns (r: Reply<Comment>)
    requires FreshCommentId(db.comments, newId)
    modifies db`posts, db`comments
    ensures text == "" ==>
      r == Fail(400, "Comment text is required") && db.posts == old(db.posts) && db.comments == old(db.comments)
    ensures text != "" && PostById(old(db.posts), postId).None? ==>
      r == Fail(404, "Post not found") && db.posts == old(db.posts) && db.comments == old(db.comments)
    ensures text != "" && PostById(old(db.posts), postId).Some? ==>
      var i := PostById(old(db.posts), postId).value;
      var c := Comment(newId, text, userId, postId);
      && db.comments == old(db.comments) + [c]
      && db.posts == old(db.posts)[i := old(db.posts)[i].(comments := old(db.posts)[i].comments + [newId])]
      && r == Ok(200, c)
  {
    if text == "" {
      r := Fail(400, "Comment text is required");
      return;
    }
    var found := PostById(db.posts, postId);
    if found.None? {
      r := Fail(404, "Post not found");
      return;
    }
    var i := found.value;
    var post := db.posts[i];
    var comment := Comment(newId, text, userId, post.id);
    db.comments := db.comments + [comment];

    post := post.(comments := post.comments + [comment.id]);
    db.posts := db.posts[i := post];
    r := Ok(200, comment);
  }

  // ===== the project's post list =====

  /** Lines 99-105: when the post names a project (`projectRef` truthy) and
      that project exists, the post's id is appended to the end of its list;
      every other project, and every other field, stays as it was. */
  function AttachPost(projects: seq<Project>, projectRef: Id, postId: Id): (r: seq<Project>)
    ensures |r| == |projects|
    ensures forall k :: 0 <= k < |r| ==> r[k].(posts := projects[k].posts) == projects[k]
    ensures projectRef == "" || ProjectById(projects, projectRef).None? ==> r == projects
    ensures projectRef != "" && ProjectById(projects, projectRef).Some? ==>
      var j := ProjectById(projects, projectRef).value;
      && r[j].posts == projects[j].posts + [postId]
      && forall k :: 0 <= k < |r| && k != j ==> r[k] == projects[k]
  {
    if projectRef == "" then projects
    else
      match ProjectById(projects, projectRef)
      case None => projects
      case Some(j) => projects[j := projects[j].(posts := projects[j].posts + [postId])]
  }

  /** Lines 279-285: when the post names a project that exists, every
      occurrence of the post's id leaves that project's list; every other
      project, and every other field, stays as it was. */
  function DetachPost(projects: seq<Project>, projectRef: Id, postId: Id): (r: seq<Project>)
    ensures |r| == |projects|
    ensures forall k :: 0 <= k < |r| ==> r[k].(posts := projects[k].posts) == projects[k]
    ensures projectRef == "" || ProjectById(projects, projectRef).None? ==> r == projects
    ensures projectRef != "" && ProjectById(projects, projectRef).Some? ==>
      var j := ProjectById(projects, projectRef).value;
      && r[j].posts == RemoveAll(projects[j].posts, postId)
      && postId !in r[j].posts
      && (forall v :: v in r[j].posts <==> v in projects[j].posts && v != postId)
      && forall k :: 0 <= k < |r| && k != j ==> r[k] == projects[k]
  {
    if projectRef == "" then projects
    else
      match ProjectById(projects, projectRef)
      case None => projects
      case Some(j) => projects[j := projects[j].(posts := RemoveAll(projects[j].posts, postId))]
  }

  /** Attaching a post that is not yet listed and then detaching it gives the
      projects back: creating and deleting a post leaves the project lists as
      they were. */
  lemma DetachUndoesAttach(projects: seq<Project>, projectRef: Id, postId: Id)
    requires forall k :: 0 <= k < |projects| ==> postId !in projects[k].posts
    ensures DetachPost(AttachPost(projects, projectRef, postId), projectRef, postId) == projects
  {
    var a := AttachPost(projects, projectRef, postId);
    if projectRef != "" && ProjectById(projects, projectRef).Some? {
      var j := ProjectById(projects, projectRef).value;
      assert ProjectById(a, projectRef) == Some(j) by {
        assert forall k :: 0 <= k < |a| ==> a[k].id == projects[k].id;
      }
      RemoveAllAfterPush(projects[j].posts, postId);
    } else {
      assert a == projects;
    }
  }

  // ===== DELETE /:id =====

  /** Lines 258-299. A post without an author makes `post.user.toString()`
      throw, which the handler answers with 500. */
  method DeletePost(db: Db, postId: Id, userId: Id) returns (r: Reply<string>)
    modifies db`posts, db`comments, db`projects
    ensures PostById(old(db.posts), postId).None? ==>
      && r == Fail(404, "Post not found")
      && db.posts == old(db.posts) && db.comments == old(db.comments) && db.projects == old(db.projects)
    ensures PostById(old(db.posts), postId).Some? ==>
      var p := old(db.posts)[PostById(old(db.posts), postId).value];
      p.user.None? ==>
        && r == Fail(500, "Failed to delete post")
        && db.posts == old(db.posts) && db.comments == old(db.comments) && db.projects == old(db.projects)
    ensures PostById(old(db.posts), postId).Some? ==>
      var p := old(db.posts)[PostById(old(db.posts), postId).value];
      p.user.Some? && p.user.value != userId ==>
        && r == Fail(403, "Not authorized to delete this post")
        && db.posts == old(db.posts) && db.comments == old(db.comments) && db.projects == old(db.projects)
    ensures PostById(old(db.posts), postId).Some? ==>
      var i := PostById(old(db.posts), postId).value;
      var p := old(db.posts)[i];
      p.user == Some(userId) ==>
        && r == Ok(200, "Post deleted successfully")
        && db.posts == RemoveAt(old(db.posts), i)
        && db.comments == Filter(old(db.comments), (c: Comment) => c.post != postId)
        && db.projects == DetachPost(old(db.projects), p.project, postId)
  {
    var found := PostById(db.posts, postId);
    if found.None? {
      r := Fail(404, "Post not found");
      return;
    }
    var i := found.value;
    var post := db.posts[i];
    if post.user.None? {
      r := Fail(500, "Failed to delete post");
      return;
    }
    if post.user.value != userId {
      r := Fail(403, "Not authorized to delete this post");
      return;
    }

    db.comments := Filter(db.comments, (c: Comment) => c.post != post.id);

    if post.project != "" {
      var owner := ProjectById(db.projects, post.project);
      if owner.Some? {
        var j := owner.value;
        var project := db.projects[j];
        project := project.(posts := RemoveAll(project.posts, post.id));
        db.projects := db.projects[j := project];
      }
    }

    db.posts := RemoveAt(db.posts, i);
    r := Ok(200, "Post deleted successfully");
  }

  /** Detaching a post from the project whose list holds its id once keeps
      every other id of that list, in order. */
  lemma RemovePostKeepsOrder(projects: seq<Project>, projectRef: Id, postId: Id, before: seq<Id>, after: seq<Id>)
    requires projectRef != "" && ProjectById(projects, projectRef).Some?
    requires projects[ProjectById(projects, projectRef).value].posts == before + [postId] + after
    requires postId !in before && postId !in after
    ensures DetachPost(projects, projectRef, postId)[ProjectById(projects, projectRef).value].posts == before + after
  {
    RemoveAllConcat(before + [postId], after, postId);
    RemoveAllAfterPush(before, postId);
    RemoveAllAbsent(after, postId);
  }

  // ===== POST / =====

  /** Lines 54-127. `mimetype` is the uploaded file's type (`None`: no file),
      `mediaUrl` the address the upload produced (`None`: both the upload and
      the local fallback failed). Saving validates the required `mediaUrl`
      and `project`; a failed validation is answered with 500. The post is
      saved even when `projectId` names no project, and only an existing
      project has the post appended to its list. */
  method CreatePost(db: Db, caption: Option<string>, projectId: Option<Id>, userId: Id,
                    mimetype: Option<string>, mediaUrl: Option<string>, newId: Id, now: int)
    returns (r: Reply<FeedEntry>)
    modifies db`posts, db`projects
    ensures mimetype.None? ==>
      r == Fail(400, "Media file is required") && db.posts == old(db.posts) && db.projects == old(db.projects)
    ensures mimetype.Some? && mediaUrl.None? ==>
      r == Fail(500, "Failed to save media") && db.posts == old(db.posts) && db.projects == old(db.projects)
    ensures mimetype.Some? && mediaUrl.Some? && !(mediaUrl.value != "" && OptTruthy(projectId)) ==>
      r.Fail? && r.status == 500 && db.posts == old(db.posts) && db.projects == old(db.projects)
    ensures mimetype.Some? && OptTruthy(mediaUrl) && OptTruthy(projectId) ==>
      var p := NewPost(newId, caption, mediaUrl.value, mimetype, projectId.value, Some(userId), now);
      && db.posts == old(db.posts) + [p]
      && r == Ok(201, Annotate(p, None))
      && db.projects == AttachPost(old(db.projects), projectId.value, newId)
  {
    if mimetype.None? {
      r := Fail(400, "Media file is required");
      return;
    }
    if mediaUrl.None? {
      r := Fail(500, "Failed to save media");
      return;
    }

    var project := match projectId case None => "" case Some(id) => id;
    var post := NewPost(newId, caption, mediaUrl.value, mimetype, project, Some(userId), now);
    if !PostRequiredFields(post) {
      r := Fail(500, "Post validation failed");
      return;
    }
    db.posts := db.posts + [post];

    if project != "" {
      var owner := ProjectById(db.projects, project);
      if owner.Some? {
        var j := owner.value;
        db.projects := db.projects[j := db.projects[j].(posts := db.projects[j].posts + [post.id])];
      }
    }

    r := Ok(201, FeedEntry(post, false, false, 0, 0));
  }

  /** A new post is answered as unvoted with no votes, and it starts with
      disjoint vote lists. */
  lemma NewPostUnvoted(id: Id, caption: Option<string>, mediaUrl: string, mimetype: Option<string>,
                       project: Id, user: Option<Id>, now: int)
    ensures var p := NewPost(id, caption, mediaUrl, mimetype, project, user, now);
      var e := Annotate(p, None);
      !e.hasUpvoted && !e.hasDownvoted && e.upvoteCount == 0 && e.downvoteCount == 0 && VotesExclusive(p)
  {
  }
}
