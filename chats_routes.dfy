/** Direct chats of backend/routes/chats.js: the chat of two users is found
    by its members, or created on first use. The Chat schema file is not part
    of this model; a chat carries its id and its member list. */
module ChatsRoutes {
  import opened Common
  import opened Store

  /** `members: { $all: [a, b] }`: the chat lists both users (once each is
      enough, in any order). */
  predicate HasMembers(c: Chat, a: Id, b: Id) {
    a in c.members && b in c.members
  }

  /** `Chat.findOne({ members: { $all: [a, b] } })`. */
  function FindChat(chats: seq<Chat>, a: Id, b: Id): (r: Option<nat>)
    ensures r.Some? ==> r.value < |chats| && HasMembers(chats[r.value], a, b)
    ensures r.Some? ==> forall k :: 0 <= k < r.value ==> !HasMembers(chats[k], a, b)
    ensures r.None? <==> forall k :: 0 <= k < |chats| ==> !HasMembers(chats[k], a, b)
  {
    FindFirst(chats, (c: Chat) => HasMembers(c, a, b))
  }

  /** The lookup does not depend on who asks: both users find the same
      chat. */
  lemma {:induction false} FindChatSymmetric(chats: seq<Chat>, a: Id, b: Id)
    ensures FindChat(chats, a, b) == FindChat(chats, b, a)
  {
    var x, y := FindChat(chats, a, b), FindChat(chats, b, a);
    if x.Some? && y.Some? {
      if x.value < y.value {
        assert HasMembers(chats[x.value], b, a);
      } else if y.value < x.value {
        assert HasMembers(chats[y.value], a, b);
      }
    } else if x.Some? {
      assert HasMembers(chats[x.value], b, a);
    }
  }

  /** Lines 9-25: the existing chat of the pair, or a new chat `[me, other]`
      with the fresh id `newId`, appended to the store. */
  method GetOrCreate(db: Db, me: Id, other: Id, newId: Id) returns (r: Reply<Chat>)
    modifies db`chats
    ensures FindChat(old(db.chats), me, other).Some? ==>
      r == Ok(200, old(db.chats)[FindChat(old(db.chats), me, other).value]) && db.chats == old(db.chats)
    ensures FindChat(old(db.chats), me, other).None? ==>
      r == Ok(200, Chat(newId, [me, other])) && db.chats == old(db.chats) + [Chat(newId, [me, other])]
    ensures r.Ok? && HasMembers(r.body, me, other)
    ensures r.body in db.chats
  {
    var found := FindChat(db.chats, me, other);
    var chat: Chat;
    if found.Some? {
      chat := db.chats[found.value];
    } else {
      chat := Chat(newId, [me, other]);
      db.chats := db.chats + [chat];
    }
    r := Ok(200, chat);
  }

  /** After a chat is created for a pair, the next request of either user of
      that pair finds it, so repeated calls create at most one chat. */
  lemma CreatedChatFoundNextTime(chats: seq<Chat>, a: Id, b: Id, newId: Id)
    requires FindChat(chats, a, b).None?
    ensures FindChat(chats + [Chat(newId, [a, b])], a, b) == Some(|chats|)
    ensures FindChat(chats + [Chat(newId, [a, b])], b, a) == Some(|chats|)
  {
    var after := chats + [Chat(newId, [a, b])];
    assert forall k :: 0 <= k < |chats| ==> after[k] == chats[k];
    assert HasMembers(after[|chats|], a, b);
    var found := FindChat(after, a, b);
    assert found.Some?;
    assert found.value == |chats|;
    FindChatSymmetric(after, a, b);
  }

  /** A user asking for a chat with themselves gets the first chat that lists
      them at all, since `$all` of `[me, me]` only asks for `me`. */
  lemma SelfChatIsAnyChatOfMine(chats: seq<Chat>, me: Id, k: nat)
    requires k < |chats| && me in chats[k].members
    ensures FindChat(chats, me, me).Some? && FindChat(chats, me, me).value <= k
  {
  }
}
