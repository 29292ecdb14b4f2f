/** The project document (backend/models/Project.js): an owner, trimmed
    title/description/category, an optional cover, the ordered list of its
    posts, and the derived `postCount`. */
module ProjectModel {
  import opened Common

  /** The code points `String.prototype.trim` strips: ECMAScript WhiteSpace
      (tab, vertical tab, form feed, space, no-break space, the byte order
      mark and the Unicode space separators) and LineTerminator. */
  predicate IsJsSpace(c: char) {
    var n := c as int;
    n == 0x09 || n == 0x0A || n == 0x0B || n == 0x0C || n == 0x0D || n == 0x20 || n == 0xA0
    || n == 0x1680 || (0x2000 <= n <= 0x200A) || n == 0x2028 || n == 0x2029 || n == 0x202F
    || n == 0x205F || n == 0x3000 || n == 0xFEFF
  }

  /** The index of the first non-whitespace character of `s` at or after
      `i`, or `|s|` when there is none. */
  function SkipSpaces(s: string, i: nat): (j: nat)
    requires i <= |s|
    ensures i <= j <= |s|
    ensures forall k :: i <= k < j ==> IsJsSpace(s[k])
    ensures j == |s| || !IsJsSpace(s[j])
    decreases |s| - i
  {
    if i < |s| && IsJsSpace(s[i]) then SkipSpaces(s, i + 1) else i
  }

  /** The index just past the last non-whitespace character of `s` before
      `j` and not before `lo`, or `lo` when there is none. */
  function SkipSpacesBack(s: string, lo: nat, j: nat): (i: nat)
    requires lo <= j <= |s|
    ensures lo <= i <= j
    ensures forall k :: i <= k < j ==> IsJsSpace(s[k])
    ensures i == lo || !IsJsSpace(s[i - 1])
  {
    if lo < j && IsJsSpace(s[j - 1]) then SkipSpacesBack(s, lo, j - 1) else j
  }

  /** `s.trim()`: the contiguous part of `s` left once the whitespace before
      it and after it is cut off. It starts and ends with a non-space, and it
      is empty exactly when `s` was nothing but whitespace. */
  function Trim(s: string): (r: string)
    ensures |r| <= |s|
    ensures var a := SkipSpaces(s, 0);
      && a + |r| <= |s|
      && r == s[a..a + |r|]
      && (forall k :: 0 <= k < a ==> IsJsSpace(s[k]))
      && (forall k :: a + |r| <= k < |s| ==> IsJsSpace(s[k]))
    ensures r == [] || (!IsJsSpace(r[0]) && !IsJsSpace(r[|r| - 1]))
    ensures r == [] <==> forall k :: 0 <= k < |s| ==> IsJsSpace(s[k])
  {
    var a := SkipSpaces(s, 0);
    var b := SkipSpacesBack(s, a, |s|);
    s[a..b]
  }

  /** Trimming an already trimmed string changes nothing, so saving a project
      again leaves its text fields as they are. */
  lemma TrimIdempotent(s: string)
    ensures Trim(Trim(s)) == Trim(s)
  {
    var r := Trim(s);
    assert SkipSpaces(r, 0) == 0;
    assert SkipSpacesBack(r, 0, |r|) == |r|;
  }

  datatype Project = Project(
    id: Id,
    user: Id,                      // the owner
    title: string,
    description: Option<string>,
    category: string,
    coverImage: Option<string>,
    posts: seq<Id>,
    createdAt: int)

  /** A value assigned to a path with `trim: true` goes through `trim()`. */
  function SetTrimmed(v: Option<string>): (r: Option<string>)
    ensures r.Some? <==> v.Some?
    ensures r.Some? ==> r.value == Trim(v.value)
  {
    match v
    case None => None
    case Some(s) => Some(Trim(s))
  }

  /** `user`, `title` and `category` are required; Mongoose's String
      `required` check rejects the empty string. */
  predicate ProjectRequiredFields(p: Project) {
    p.user != "" && p.title != "" && p.category != ""
  }

  /** `new Project({ user, title, description, category, coverImage }).save()`:
      the text fields go through their trimming setters and the document is
      validated. `None` is a validation failure: a title or category that is
      missing or only whitespace. */
  function NewProject(id: Id, user: Id, title: Option<string>, description: Option<string>,
                      category: Option<string>, coverImage: Option<string>, createdAt: int): (r: Option<Project>)
    ensures r.Some? <==> user != "" && OptTruthy(SetTrimmed(title)) && OptTruthy(SetTrimmed(category))
    ensures r.Some? ==> r.value.id == id && r.value.user == user && r.value.posts == []
    ensures r.Some? ==> r.value.title == Trim(title.value) && r.value.category == Trim(category.value)
    ensures r.Some? ==> r.value.description == SetTrimmed(description) && r.value.coverImage == coverImage
    ensures r.Some? ==> ProjectRequiredFields(r.value)
  {
    var t, c := SetTrimmed(title), SetTrimmed(category);
    if user != "" && OptTruthy(t) && OptTruthy(c) then
      Some(Project(id, user, t.value, SetTrimmed(description), c.value, coverImage, [], createdAt))
    else
      None
  }

  /** The `postCount` virtual: the length of `posts`, or 0 when the document
      was read without its `posts` path. */
  function PostCount(posts: Option<seq<Id>>): (n: nat)
    ensures posts.None? ==> n == 0
    ensures posts.Some? ==> n == |posts.value|
  {
    match posts
    case None => 0
    case Some(ps) => |ps|
  }
}
