/** Chat messages of backend/routes/messages.js: sending stores the message
    and emits it to every other member of the chat; reading lists a chat's
    messages oldest first. The Message schema file is not part of this model.

    The socket server is a parameter: whether it is running (`ioRunning`) and
    the position in the member list at which an emit throws, if any
    (`emitFailsAt`). */
module MessagesRoutes {
  import opened Common
  import opened Sorting
  import opened Store

  /** Lines 35-39: the members an event goes to, in member order: every
      member but the sender. */
  method Recipients(members: seq<Id>, sender: Id) returns (rs: seq<Id>)
    ensures rs == RemoveAll(members, sender)
    ensures sender !in rs
    ensures forall m :: m in members && m != sender ==> m in rs
  {
    rs := [];
    var n := 0;
    while n < |members|
      invariant 0 <= n <= |members|
      invariant rs == RemoveAll(members[..n], sender)
    {
      var m := members[n];
      assert members[..n + 1] == members[..n] + [m];
      RemoveAllSnoc(members[..n], m, sender);
      if m != sender {
        rs := rs + [m];
      }
      n := n + 1;
    }
    assert members[..n] == members;
  }

  /** The event sent to each recipient. */
  datatype MessageEvent = MessageEvent(to: Id, message: Message)

  /** Lines 20-48. The message is stored with the caller as its sender, whether
      or not the caller is a member of the chat. Events go out until an emit
      throws; the failure is swallowed and the answer is the same either way. */
  method Send(db: Db, userId: Id, chatId: Id, text: string, newId: Id, now: int,
              ioRunning: bool, emitFailsAt: Option<nat>)
    returns (r: Reply<Message>, events: seq<MessageEvent>)
    requires FreshMessageId(db.messages, newId)
    modifies db`messages
    ensures chatId == "" || text == "" ==>
      r == Fail(400, "Missing fields") && events == [] && db.messages == old(db.messages)
    ensures chatId != "" && text != "" && ChatById(db.chats, chatId).None? ==>
      r == Fail(404, "Chat not found") && events == [] && db.messages == old(db.messages)
    ensures chatId != "" && text != "" && ChatById(db.chats, chatId).Some? ==>
      var m := Message(newId, chatId, userId, text, now);
      && r == Ok(200, m)
      && db.messages == old(db.messages) + [m]
    ensures forall e :: e in events ==> e.to != userId && e.message.sender == userId
    ensures chatId != "" && text != "" && ChatById(db.chats, chatId).Some? ==>
      var members := db.chats[ChatById(db.chats, chatId).value].members;
      var m := Message(newId, chatId, userId, text, now);
      && (!ioRunning ==> events == [])
      && (ioRunning ==> events == Events(RemoveAll(members[..EmitStop(|members|, emitFailsAt)], userId), m))
      && (ioRunning && emitFailsAt.None? ==> events == Events(RemoveAll(members, userId), m))
  {
    events := [];
    if chatId == "" || text == "" {
      r := Fail(400, "Missing fields");
      return;
    }
    var found := ChatById(db.chats, chatId);
    if found.None? {
      r := Fail(404, "Chat not found");
      return;
    }
    var chat := db.chats[found.value];
    var message := Message(newId, chatId, userId, text, now);
    db.messages := db.messages + [message];

    if ioRunning {
      var stop := EmitStop(|chat.members|, emitFailsAt);
      var to := Recipients(chat.members[..stop], userId);
      if emitFailsAt.None? {
        assert chat.members[..stop] == chat.members;
      }
      events := Events(to, message);
    }
    r := Ok(200, message);
  }

  /** How many members the emit loop gets through: all of them, or those
      before the one whose emit throws. */
  function EmitStop(count: nat, failsAt: Option<nat>): (n: nat)
    ensures n <= count
    ensures failsAt.None? ==> n == count
    ensures failsAt.Some? && failsAt.value < count ==> n == failsAt.value
  {
    match failsAt
    case None => count
    case Some(k) => if k < count then k else count
  }

  /** One event per recipient, in order. */
  function Events(to: seq<Id>, m: Message): (es: seq<MessageEvent>)
    ensures |es| == |to|
    ensures forall k :: 0 <= k < |es| ==> es[k] == MessageEvent(to[k], m)
  {
    if to == [] then [] else [MessageEvent(to[0], m)] + Events(to[1..], m)
  }

  /** Lines 9-17: the messages of one chat, oldest first. */
  function ChatMessages(messages: seq<Message>, chatId: Id): (r: seq<Message>)
    ensures forall m :: m in r <==> m in messages && m.chatId == chatId
    ensures multiset(r) <= multiset(messages)
    ensures forall m :: multiset(r)[m] == if m.chatId == chatId then multiset(messages)[m] else 0
    ensures forall i, j :: 0 <= i < j < |r| ==> r[i].createdAt <= r[j].createdAt
  {
    var r := SortBy(Filter(messages, (m: Message) => m.chatId == chatId), (m: Message) => m.createdAt);
    assert SortedBy(r, (m: Message) => m.createdAt);
    r
  }

  /** A message just sent is in its chat's listing, and every other chat's
      listing stays exactly as it was. */
  lemma {:induction false} SentMessageListed(messages: seq<Message>, m: Message, other: Id)
    requires other != m.chatId
    ensures m in ChatMessages(messages + [m], m.chatId)
    ensures m !in ChatMessages(messages + [m], other)
    ensures ChatMessages(messages + [m], other) == ChatMessages(messages, other)
  {
    var p := (x: Message) => x.chatId == other;
    FilterAppendRejected(messages, m, p);
  }

  /** Appending an element the predicate rejects does not change the filter. */
  lemma {:induction false} FilterAppendRejected<T(!new)>(s: seq<T>, x: T, p: T -> bool)
    requires !p(x)
    ensures Filter(s + [x], p) == Filter(s, p)
  {
    if s == [] {
      assert s + [x] == [x];
    } else {
      assert (s + [x])[0] == s[0];
      assert (s + [x])[1..] == s[1..] + [x];
      FilterAppendRejected(s[1..], x, p);
    }
  }
}
