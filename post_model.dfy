/** The post document (backend/models/Post.js): a media update inside a
    project, with its kind, author, votes and comments. */
module PostModel {
  import opened Common

  /** The `type` path, restricted by its enum. */
  datatype PostType = Update | Announcement | Milestone

  /** The string stored for each kind. */
  function TypeName(t: PostType): string {
    match t
    case Update => "update"
    case Announcement => "announcement"
    case Milestone => "milestone"
  }

  /** The value a `type` given to the constructor ends up as: the default
      'update' when none is given, the matching kind for one of the three enum
      strings, and a validation failure (`None`) for anything else. */
  function ParsePostType(v: Option<string>): (r: Option<PostType>)
    ensures v.None? ==> r == Some(Update)
    ensures v.Some? && r.Some? ==> TypeName(r.value) == v.value
    ensures v.Some? && v.value !in {"update", "announcement", "milestone"} ==> r.None?
  {
    match v
    case None => Some(Update)
    case Some(s) =>
      if s == "update" then Some(Update)
      else if s == "announcement" then Some(Announcement)
      else if s == "milestone" then Some(Milestone)
      else None
  }

  /** Every kind survives being stored as its string and read back. */
  lemma TypeNameRoundTrip(t: PostType)
    ensures ParsePostType(Some(TypeName(t))) == Some(t)
  {
  }

  datatype Post = Post(
    id: Id,
    caption: string,
    mediaUrl: string,
    contentType: Option<string>,   // the uploaded file's mime type
    project: Id,
    kind: PostType,                // the `type` path
    user: Option<Id>,              // the author; the schema does not require it
    upvotes: seq<Id>,
    downvotes: seq<Id>,
    comments: seq<Id>,
    createdAt: int)

  /** `mediaUrl` and `project` are required. */
  predicate PostRequiredFields(p: Post) {
    p.mediaUrl != "" && p.project != ""
  }

  /** `new Post({ caption, mediaUrl, user, project, contentType })`: caption
      defaults to '', the kind to 'update', and the vote and comment lists
      start empty. */
  function NewPost(id: Id, caption: Option<string>, mediaUrl: string, contentType: Option<string>,
                   project: Id, user: Option<Id>, createdAt: int): (p: Post)
    ensures p.id == id && p.mediaUrl == mediaUrl && p.project == project && p.user == user
    ensures caption.None? ==> p.caption == ""
    ensures caption.Some? ==> p.caption == caption.value
    ensures p.kind == Update
    ensures p.upvotes == [] && p.downvotes == [] && p.comments == []
    ensures PostRequiredFields(p) <==> mediaUrl != "" && project != ""
  {
    var c := match caption case None => "" case Some(s) => s;
    Post(id, c, mediaUrl, contentType, project, ParsePostType(None).value, user, [], [], [], createdAt)
  }
}
