/** The project handlers of backend/routes/projects.js: creation owned by the
    caller, the owner's and a username's project lists, and the owner-scoped
    update and delete (the delete cascading over the project's posts).

    The cover upload is a parameter: whether a file came with the request and
    the URL its upload produced (`None`: the upload threw). */
module ProjectsRoutes {
  import opened Common
  import opened UserModel
  import opened PostModel
  import opened ProjectModel
  import opened Sorting
  import opened Store

  /** `.sort('-createdAt')` on projects: newest first, nothing gained or lost. */
  function NewestFirst(projects: seq<Project>): (r: seq<Project>)
    ensures |r| == |projects| && multiset(r) == multiset(projects)
    ensures forall p :: p in r <==> p in projects
    ensures forall i, j :: 0 <= i < j < |r| ==> r[i].createdAt >= r[j].createdAt
  {
    var r := SortBy(projects, (p: Project) => -p.createdAt);
    assert SortedBy(r, (p: Project) => -p.createdAt);
    r
  }

  /** `Project.find({ user: owner }).sort('-createdAt')`: exactly the
      projects of `owner`, newest first. */
  function ProjectsOwnedBy(projects: seq<Project>, owner: Id): (r: seq<Project>)
    ensures forall p :: p in r <==> p in projects && p.user == owner
    ensures multiset(r) <= multiset(projects)
    ensures forall p :: multiset(r)[p] == if p.user == owner then multiset(projects)[p] else 0
    ensures forall i, j :: 0 <= i < j < |r| ==> r[i].createdAt >= r[j].createdAt
  {
    var owned := Filter(projects, (p: Project) => p.user == owner);
    NewestFirst(owned)
  }

  /** `findOne({ _id: id, user: owner })`: the first project with that id and
      that owner. */
  function OwnedProject(projects: seq<Project>, id: Id, owner: Id): (r: Option<nat>)
    ensures r.Some? ==> r.value < |projects| && projects[r.value].id == id && projects[r.value].user == owner
    ensures r.None? <==> forall k :: 0 <= k < |projects| ==> !(projects[k].id == id && projects[k].user == owner)
  {
    FindFirst(projects, (p: Project) => p.id == id && p.user == owner)
  }

  /** With unique project ids, someone else's project is not found by the
      owner-scoped lookup: it is answered exactly like a missing one. */
  lemma ForeignProjectNotFound(projects: seq<Project>, k: nat, caller: Id)
    requires k < |projects| && projects[k].user != caller
    requires forall i, j :: 0 <= i < j < |projects| ==> projects[i].id != projects[j].id
    ensures OwnedProject(projects, projects[k].id, caller).None?
  {
  }

  // ===== POST / =====

  /** Lines 11-36. The owner is always the caller (`req.user._id` and
      `req.userId` are the same id, as the middleware sets them). */
  method CreateProject(db: Db, userId: Id, title: Option<string>, description: Option<string>,
                       category: Option<string>, hasFile: bool, uploadedUrl: Option<string>,
                       newId: Id, now: int)
    returns (r: Reply<Project>)
    modifies db`projects
    ensures hasFile && uploadedUrl.None? ==>
      r == Fail(500, "Failed to create project") && db.projects == old(db.projects)
    ensures var cover := if hasFile then uploadedUrl else None;
      !(hasFile && uploadedUrl.None?) ==>
        match NewProject(newId, userId, title, description, category, cover, now)
        case None => r == Fail(500, "Failed to create project") && db.projects == old(db.projects)
        case Some(p) => r == Ok(201, p) && db.projects == old(db.projects) + [p]
    ensures r.Ok? ==> r.body.user == userId && r.body.posts == [] && ProjectRequiredFields(r.body)
  {
    var coverImage: Option<string> := None;
    if hasFile {
      if uploadedUrl.None? {
        r := Fail(500, "Failed to create project");
        return;
      }
      coverImage := uploadedUrl;
    }
    var project := NewProject(newId, userId, title, description, category, coverImage, now);
    if project.None? {
      r := Fail(500, "Failed to create project");
      return;
    }
    db.projects := db.projects + [project.value];
    r := Ok(201, project.value);
  }

  // ===== GET /my and GET /user/:username =====

  /** Lines 39-50. */
  function MyProjects(projects: seq<Project>, userId: Id): (r: Reply<seq<Project>>)
    ensures r.Ok? && r.status == 200
    ensures forall p :: p in r.body <==> p in projects && p.user == userId
    ensures r.body == ProjectsOwnedBy(projects, userId)
  {
    Ok(200, ProjectsOwnedBy(projects, userId))
  }

  /** Lines 53-72: the projects of the user with that username, or 404. */
  function ProjectsOfUsername(users: seq<User>, projects: seq<Project>, username: string): (r: Reply<seq<Project>>)
    ensures UserByUsername(users, username).None? <==> r == Fail(404, "User not found")
    ensures UserByUsername(users, username).Some? ==> r.Ok? && r.status == 200
    ensures r.Ok? ==> var owner := users[UserByUsername(users, username).value];
      owner.username == username && r.body == ProjectsOwnedBy(projects, owner.id)
  {
    match UserByUsername(users, username)
    case None => Fail(404, "User not found")
    case Some(i) => Ok(200, ProjectsOwnedBy(projects, users[i].id))
  }

  // ===== PUT /:id =====

  /** Lines 123-132: each of title, description and category is assigned
      (through its trimming setter) only when the body gives it a truthy
      value, the cover only when a new one was uploaded; the owner, the post
      list and the timestamps stay. */
  function EditProject(p: Project, title: Option<string>, description: Option<string>,
                       category: Option<string>, cover: Option<string>): (q: Project)
    ensures q.title == (if OptTruthy(title) then Trim(title.value) else p.title)
    ensures q.description == (if OptTruthy(description) then Some(Trim(description.value)) else p.description)
    ensures q.category == (if OptTruthy(category) then Trim(category.value) else p.category)
    ensures q.coverImage == (if cover.Some? then cover else p.coverImage)
    ensures q.id == p.id && q.user == p.user && q.posts == p.posts && q.createdAt == p.createdAt
  {
    var q := if OptTruthy(title) then p.(title := Trim(title.value)) else p;
    var q := if OptTruthy(description) then q.(description := SetTrimmed(description)) else q;
    var q := if OptTruthy(category) then q.(category := Trim(category.value)) else q;
    if cover.Some? then q.(coverImage := cover) else q
  }

  /** An update that gives nothing changes nothing. */
  lemma EmptyEditChangesNothing(p: Project)
    ensures EditProject(p, None, Some(""), Some(""), None) == p
  {
  }

  /** Lines 115-140. A title or category that trims to nothing fails the
      `required` validation on save, answered with 500 and nothing saved. */
  method UpdateProject(db: Db, projectId: Id, userId: Id, title: Option<string>, description: Option<string>,
                       category: Option<string>, hasFile: bool, uploadedUrl: Option<string>)
    returns (r: Reply<Project>)
    modifies db`projects
    ensures OwnedProject(old(db.projects), projectId, userId).None? ==>
      r == Fail(404, "Project not found or unauthorized") && db.projects == old(db.projects)
    ensures OwnedProject(old(db.projects), projectId, userId).Some? && hasFile && uploadedUrl.None? ==>
      r == Fail(500, "Failed to update project") && db.projects == old(db.projects)
    ensures OwnedProject(old(db.projects), projectId, userId).Some? && !(hasFile && uploadedUrl.None?) ==>
      var j := OwnedProject(old(db.projects), projectId, userId).value;
      var q := EditProject(old(db.projects)[j], title, description, category, if hasFile then uploadedUrl else None);
      && (ProjectRequiredFields(q) ==> r == Ok(200, q) && db.projects == old(db.projects)[j := q])
      && (!ProjectRequiredFields(q) ==> r == Fail(500, "Failed to update project") && db.projects == old(db.projects))
  {
    var found := OwnedProject(db.projects, projectId, userId);
    if found.None? {
      r := Fail(404, "Project not found or unauthorized");
      return;
    }
    var j := found.value;
    var project := db.projects[j];

    if OptTruthy(title) {
      project := project.(title := Trim(title.value));
    }
    if OptTruthy(description) {
      project := project.(description := SetTrimmed(description));
    }
    if OptTruthy(category) {
      project := project.(category := Trim(category.value));
    }
    if hasFile {
      if uploadedUrl.None? {
        r := Fail(500, "Failed to update project");
        return;
      }
      project := project.(coverImage := uploadedUrl);
    }

    if !ProjectRequiredFields(project) {
      r := Fail(500, "Failed to update project");
      return;
    }
    db.projects := db.projects[j := project];
    r := Ok(200, project);
  }

  /** Whitespace around a new title is dropped, and a title of spaces alone
      is refused rather than stored empty. */
  lemma BlankTitleRefused(p: Project)
    requires ProjectRequiredFields(p)
    ensures !ProjectRequiredFields(EditProject(p, Some("  "), None, None, None))
    ensures EditProject(p, Some(" x "), None, None, None).title == "x"
  {
    assert Trim("  ") == [] by {
      assert forall k :: 0 <= k < |"  "| ==> IsJsSpace("  "[k]);
    }
    assert !IsJsSpace(" x "[1]);
    assert SkipSpaces(" x ", 0) == 1;
    assert SkipSpacesBack(" x ", 1, 3) == 2;
  }

  // ===== DELETE /:id =====

  /** Lines 143-162: every post of the project goes, then the project.
      Comments on those posts stay where they are. */
  method DeleteProject(db: Db, projectId: Id, userId: Id) returns (r: Reply<string>)
    modifies db`posts, db`projects
    ensures OwnedProject(old(db.projects), projectId, userId).None? ==>
      && r == Fail(404, "Project not found or unauthorized")
      && db.posts == old(db.posts) && db.projects == old(db.projects)
    ensures OwnedProject(old(db.projects), projectId, userId).Some? ==>
      && r == Ok(200, "Project deleted successfully")
      && db.posts == Filter(old(db.posts), (p: Post) => p.project != projectId)
      && db.projects == RemoveAt(old(db.projects), OwnedProject(old(db.projects), projectId, userId).value)
    ensures forall k :: 0 <= k < |db.posts| ==> db.posts[k] in old(db.posts)
    ensures OwnedProject(old(db.projects), projectId, userId).Some? ==>
      && (forall k :: 0 <= k < |db.posts| ==> db.posts[k].project != projectId)
      && (forall p :: p in old(db.posts) && p.project != projectId ==> p in db.posts)
  {
    var found := OwnedProject(db.projects, projectId, userId);
    if found.None? {
      r := Fail(404, "Project not found or unauthorized");
      return;
    }
    var j := found.value;
    var project := db.projects[j];

    db.posts := Filter(db.posts, (p: Post) => p.project != project.id);

    db.projects := RemoveAt(db.projects, j);
    r := Ok(200, "Project deleted successfully");
  }
}
