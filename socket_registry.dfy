/** The `userSockets` map of backend/server.js (lines 63-80): which socket a
    user registered from. Registering overwrites (one socket per user, the
    latest wins); a socket that disconnects takes every entry pointing at it
    along. Rooms, `join` and the transport itself are not modelled. */
module SocketRegistry {
  import opened Common

  /** A socket.io connection id. */
  type SocketId = string

  /** `m` without the entries whose socket is `s`. */
  function WithoutSocket(m: map<Id, SocketId>, s: SocketId): (r: map<Id, SocketId>)
    ensures forall u :: u in r <==> u in m && m[u] != s
    ensures forall u :: u in r ==> r[u] == m[u]
    ensures s !in r.Values
  {
    map u | u in m && m[u] != s :: m[u]
  }

  class Registry {
    var sockets: map<Id, SocketId>

    constructor ()
      ensures sockets == map[]
    {
      sockets := map[];
    }

    /** Lines 68-70: `userSockets.set(userId, socket.id)`. */
    method Register(u: Id, s: SocketId)
      modifies this
      ensures sockets == old(sockets)[u := s]
      ensures u in sockets && sockets[u] == s
    {
      sockets := sockets[u := s];
    }

    /** Lines 75-79: walk the entries and delete each one whose socket is
        `s`. */
    method Disconnect(s: SocketId)
      modifies this
      ensures sockets == WithoutSocket(old(sockets), s)
    {
      var pending := sockets.Keys;
      while pending != {}
        invariant pending <= old(sockets).Keys
        invariant forall u :: u in sockets <==> u in old(sockets) && (u in pending || old(sockets)[u] != s)
        invariant forall u :: u in sockets ==> sockets[u] == old(sockets)[u]
        decreases pending
      {
        var u :| u in pending;
        if sockets[u] == s {
          sockets := map k | k in sockets && k != u :: sockets[k];
        }
        pending := pending - {u};
      }
      assert sockets.Keys == WithoutSocket(old(sockets), s).Keys;
    }
  }

  /** A socket registered under several users loses all of them when it
      disconnects; entries of other sockets stay as they were. */
  lemma DisconnectDropsEveryUserOfTheSocket(m: map<Id, SocketId>, u: Id, v: Id, s: SocketId, t: SocketId)
    requires u != v && t != s
    ensures var d := WithoutSocket(m[u := s][v := s], s); u !in d && v !in d
    ensures forall w :: w in m && m[w] == t ==> w in WithoutSocket(m, s) && WithoutSocket(m, s)[w] == t
  {
  }

  /** A later registration replaces an earlier one: a user never has two
      sockets. */
  lemma RegisterLastWriteWins(m: map<Id, SocketId>, u: Id, s1: SocketId, s2: SocketId)
    ensures m[u := s1][u := s2] == m[u := s2]
  {
  }

  /** Registering from a socket and disconnecting it leaves no entry for that
      user, and restores the map when the socket was not in use before. */
  lemma {:induction false} RegisterThenDisconnect(m: map<Id, SocketId>, u: Id, s: SocketId)
    requires s !in m.Values
    ensures WithoutSocket(m[u := s], s) == m - {u}
  {
    var d := WithoutSocket(m[u := s], s);
    forall w | w in m
      ensures m[w] != s
    {
      assert m[w] in m.Values;
    }
    assert d.Keys == (m - {u}).Keys;
  }
}
