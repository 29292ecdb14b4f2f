/** The document store the route handlers read and write. Every collection
    is a sequence in natural (insertion) order, so that MongoDB's `findOne`
    is "the first document that matches" and `findById` is "the first
    document with that id". Query machinery (`populate`, projections) is not
    modelled. */
module Store {
  import opened Common
  import opened UserModel
  import opened PostModel
  import opened ProjectModel

  /** Comment, chat and message documents. Their schema files are not part of
      this model; each carries the fields the routes read and write. */
  datatype Comment = Comment(id: Id, text: string, user: Id, post: Id)

  datatype Chat = Chat(id: Id, members: seq<Id>)

  datatype Message = Message(id: Id, chatId: Id, sender: Id, text: string, createdAt: int)

  /** The database, one field per collection. A handler runs as one atomic
      step against it. */
  class Db {
    var users: seq<User>
    var posts: seq<Post>
    var projects: seq<Project>
    var comments: seq<Comment>
    var chats: seq<Chat>
    var messages: seq<Message>

    constructor ()
      ensures users == [] && posts == [] && projects == []
      ensures comments == [] && chats == [] && messages == []
    {
      users, posts, projects := [], [], [];
      comments, chats, messages := [], [], [];
    }
  }

  /** `User.findById(id)`. */
  function UserById(users: seq<User>, id: Id): (r: Option<nat>)
    ensures r.Some? ==> r.value < |users| && users[r.value].id == id
    ensures r.Some? ==> forall k :: 0 <= k < r.value ==> users[k].id != id
    ensures r.None? <==> forall k :: 0 <= k < |users| ==> users[k].id != id
  {
    FindFirst(users, (u: User) => u.id == id)
  }

  /** `User.findOne({ email })`. */
  function UserByEmail(users: seq<User>, email: string): (r: Option<nat>)
    ensures r.Some? ==> r.value < |users| && users[r.value].email == email
    ensures r.Some? ==> forall k :: 0 <= k < r.value ==> users[k].email != email
    ensures r.None? <==> forall k :: 0 <= k < |users| ==> users[k].email != email
  {
    FindFirst(users, (u: User) => u.email == email)
  }

  /** `User.findOne({ username })`. */
  function UserByUsername(users: seq<User>, username: string): (r: Option<nat>)
    ensures r.Some? ==> r.value < |users| && users[r.value].username == username
    ensures r.Some? ==> forall k :: 0 <= k < r.value ==> users[k].username != username
    ensures r.None? <==> forall k :: 0 <= k < |users| ==> users[k].username != username
  {
    FindFirst(users, (u: User) => u.username == username)
  }

  /** `User.findOne({ $or: [{ email }, { username }] })`: the first user
      whose email or whose username matches. */
  function UserByEmailOrUsername(users: seq<User>, email: string, username: string): (r: Option<nat>)
    ensures r.Some? ==> r.value < |users| && (users[r.value].email == email || users[r.value].username == username)
    ensures r.Some? ==> forall k :: 0 <= k < r.value ==> users[k].email != email && users[k].username != username
    ensures r.None? <==> forall k :: 0 <= k < |users| ==> users[k].email != email && users[k].username != username
  {
    FindFirst(users, (u: User) => u.email == email || u.username == username)
  }

  /** `Post.findById(id)`. */
  function PostById(posts: seq<Post>, id: Id): (r: Option<nat>)
    ensures r.Some? ==> r.value < |posts| && posts[r.value].id == id
    ensures r.Some? ==> forall k :: 0 <= k < r.value ==> posts[k].id != id
    ensures r.None? <==> forall k :: 0 <= k < |posts| ==> posts[k].id != id
  {
    FindFirst(posts, (p: Post) => p.id == id)
  }

  /** `Project.findById(id)`. */
  function ProjectById(projects: seq<Project>, id: Id): (r: Option<nat>)
    ensures r.Some? ==> r.value < |projects| && projects[r.value].id == id
    ensures r.Some? ==> forall k :: 0 <= k < r.value ==> projects[k].id != id
    ensures r.None? <==> forall k :: 0 <= k < |projects| ==> projects[k].id != id
  {
    FindFirst(projects, (p: Project) => p.id == id)
  }

  /** `Chat.findById(id)`. */
  function ChatById(chats: seq<Chat>, id: Id): (r: Option<nat>)
    ensures r.Some? ==> r.value < |chats| && chats[r.value].id == id
    ensures r.Some? ==> forall k :: 0 <= k < r.value ==> chats[k].id != id
    ensures r.None? <==> forall k :: 0 <= k < |chats| ==> chats[k].id != id
  {
    FindFirst(chats, (c: Chat) => c.id == id)
  }

  /** No comment in the collection has this id: what a newly created
      ObjectId guarantees. */
  predicate FreshCommentId(comments: seq<Comment>, id: Id) {
    forall k :: 0 <= k < |comments| ==> comments[k].id != id
  }

  predicate FreshMessageId(messages: seq<Message>, id: Id) {
    forall k :: 0 <= k < |messages| ==> messages[k].id != id
  }
}
