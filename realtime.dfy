/**
 * The realtime connection registry: the process-wide `userSocketMap`
 * object that maps a connected user's id (the `userId` of the socket
 * handshake) to the id of that user's socket, and the three socket
 * handlers that write, read and clean it.
 *
 * The object is modelled as a sequence of entries with distinct keys, in
 * key-insertion order. That is the order in which a JavaScript object lists
 * keys that are not array indices, and the order in which the disconnect
 * handler's `for...in` loop walks them.
 */
module Realtime {

  import opened Http

  type SocketId = string

  datatype Entry = Entry(user: string, socket: SocketId)

  /** A connected socket: its id and the `userId` query value of its handshake. */
  datatype Socket = Socket(id: SocketId, userId: Option<string>)

  /** One `emit` to one socket. */
  datatype Delivery = Delivery(to: SocketId, event: string, senderId: Option<string>, message: string)

  predicate KeysDistinct(entries: seq<Entry>)
  {
    forall i, j :: 0 <= i < j < |entries| ==> entries[i].user != entries[j].user
  }

  /** `userSocketMap[user]`: the socket stored under `user`, if any. */
  function Lookup(entries: seq<Entry>, user: string): (r: Option<SocketId>)
    ensures r.Some? ==> Entry(user, r.value) in entries
    ensures r.None? ==> forall i :: 0 <= i < |entries| ==> entries[i].user != user
  {
    if entries == [] then None
    else if entries[0].user == user then Some(entries[0].socket)
    else
      var r := Lookup(entries[1..], user);
      assert forall i :: 0 < i < |entries| ==> entries[i] == entries[1..][i - 1];
      r
  }

  /** The keys that come after the first entry, when the keys are distinct, do not include the first key. */
  lemma TailLookup(entries: seq<Entry>)
    requires KeysDistinct(entries) && entries != []
    ensures KeysDistinct(entries[1..])
    ensures Lookup(entries[1..], entries[0].user) == None
  {
    assert forall i :: 0 <= i < |entries[1..]| ==> entries[1..][i] == entries[i + 1];
  }

  /**
   * `userSocketMap[user] = socket`: an existing key keeps its place and gets
   * the new value; a new key is added at the end.
   */
  function Assign(entries: seq<Entry>, user: string, socket: SocketId): (r: seq<Entry>)
    ensures Lookup(r, user) == Some(socket)
    ensures forall k :: k != user ==> Lookup(r, k) == Lookup(entries, k)
    ensures Lookup(entries, user).None? ==> r == entries + [Entry(user, socket)]
  {
    if entries == [] then [Entry(user, socket)]
    else if entries[0].user == user then
      var r := [Entry(user, socket)] + entries[1..];
      assert r[1..] == entries[1..];
      r
    else
      var rest := Assign(entries[1..], user, socket);
      var r := [entries[0]] + rest;
      assert r[1..] == rest;
      assert entries == [entries[0]] + entries[1..];
      r
  }

  /** Assignment never moves a key: the keys already present keep their positions. */
  lemma {:induction false} AssignKeepsPositions(entries: seq<Entry>, user: string, socket: SocketId)
    ensures var r := Assign(entries, user, socket);
      |r| >= |entries| && forall i :: 0 <= i < |entries| ==> r[i].user == entries[i].user
  {
    if entries != [] && entries[0].user != user {
      AssignKeepsPositions(entries[1..], user, socket);
    }
  }

  /** Assignment keeps keys distinct, and every entry it leaves is an old one or the new binding. */
  lemma {:induction false} AssignKeepsKeysDistinct(entries: seq<Entry>, user: string, socket: SocketId)
    requires KeysDistinct(entries)
    ensures KeysDistinct(Assign(entries, user, socket))
    ensures forall e :: e in Assign(entries, user, socket) ==> e in entries || e == Entry(user, socket)
  {
    if entries != [] {
      TailLookup(entries);
      var r := Assign(entries, user, socket);
      if entries[0].user == user {
        assert r == [Entry(user, socket)] + entries[1..];
        forall i, j | 0 <= i < j < |r| ensures r[i].user != r[j].user {
          assert r[j] == entries[j];
          if i > 0 {
            assert r[i] == entries[i];
          }
        }
      } else {
        AssignKeepsKeysDistinct(entries[1..], user, socket);
        var rest := Assign(entries[1..], user, socket);
        assert r == [entries[0]] + rest;
        assert Lookup(rest, entries[0].user) == None;
        forall e | e in r ensures e in entries || e == Entry(user, socket) {
          if e != entries[0] {
            assert e in rest;
          }
        }
        forall i, j | 0 <= i < j < |r| ensures r[i].user != r[j].user {
          assert r[j] == rest[j - 1];
          if i > 0 {
            assert r[i] == rest[i - 1];
          }
        }
      }
    }
  }

  /**
   * The disconnect cleanup as a specification: the first entry (in key
   * order) whose value is `socket` is deleted, and nothing else.
   */
  function DropFirstSocket(entries: seq<Entry>, socket: SocketId): (r: seq<Entry>)
    ensures (forall i :: 0 <= i < |entries| ==> entries[i].socket != socket) ==> r == entries
    ensures (exists i :: 0 <= i < |entries| && entries[i].socket == socket) ==> |r| == |entries| - 1
    ensures forall e :: e in r ==> e in entries
  {
    if entries == [] then []
    else if entries[0].socket == socket then entries[1..]
    else
      assert forall i :: 0 <= i < |entries[1..]| ==> entries[1..][i] == entries[i + 1];
      [entries[0]] + DropFirstSocket(entries[1..], socket)
  }

  /** When index `i` is the first entry holding `socket`, the cleanup is the deletion at `i`. */
  lemma {:induction false} DropFirstAt(entries: seq<Entry>, socket: SocketId, i: nat)
    requires i < |entries| && entries[i].socket == socket
    requires forall j :: 0 <= j < i ==> entries[j].socket != socket
    ensures DropFirstSocket(entries, socket) == entries[..i] + entries[i + 1..]
  {
    if i > 0 {
      DropFirstAt(entries[1..], socket, i - 1);
      assert entries[1..][..i - 1] + entries[1..][i..] == entries[1..i] + entries[i + 1..];
      assert entries[..i] == [entries[0]] + entries[1..i];
    }
  }

  /**
   * Per key, the cleanup either changes nothing or drops a key whose value
   * was the disconnecting socket.
   */
  lemma {:induction false} DropFirstLookup(entries: seq<Entry>, socket: SocketId, user: string)
    requires KeysDistinct(entries)
    ensures var r := DropFirstSocket(entries, socket);
      || Lookup(r, user) == Lookup(entries, user)
      || (Lookup(entries, user) == Some(socket) && Lookup(r, user) == None)
  {
    if entries != [] {
      TailLookup(entries);
      if entries[0].socket != socket {
        DropFirstLookup(entries[1..], socket, user);
      }
    }
  }

  /** Deleting the entry at `i` unbinds exactly its key; every other key keeps its socket. */
  lemma {:induction false} DeleteAtLookup(entries: seq<Entry>, i: nat, user: string)
    requires KeysDistinct(entries) && i < |entries|
    ensures Lookup(entries[..i] + entries[i + 1..], user)
         == if user == entries[i].user then None else Lookup(entries, user)
  {
    TailLookup(entries);
    if i == 0 {
      assert entries[..i] + entries[i + 1..] == entries[1..];
    } else {
      DeleteAtLookup(entries[1..], i - 1, user);
      assert entries[..i] + entries[i + 1..] == [entries[0]] + (entries[1..][..i - 1] + entries[1..][i..]);
      assert entries[1..][i - 1] == entries[i];
    }
  }

  /**
   * The cleanup deletes at most one key: when some entry holds the socket,
   * exactly the key of the first such entry is unbound (and it was bound to
   * that socket); every other key keeps its socket.
   */
  lemma DisconnectUnbindsFirstHolder(entries: seq<Entry>, socket: SocketId, i: nat)
    requires KeysDistinct(entries)
    requires i < |entries| && entries[i].socket == socket
    requires forall j :: 0 <= j < i ==> entries[j].socket != socket
    ensures Lookup(entries, entries[i].user) == Some(socket)
    ensures forall k :: Lookup(DropFirstSocket(entries, socket), k)
                     == if k == entries[i].user then None else Lookup(entries, k)
  {
    DropFirstAt(entries, socket, i);
    forall k ensures Lookup(DropFirstSocket(entries, socket), k)
                  == if k == entries[i].user then None else Lookup(entries, k) {
      DeleteAtLookup(entries, i, k);
    }
    LookupAtKey(entries, i);
  }

  /** In a list with distinct keys, the lookup of an entry's key finds that entry's socket. */
  lemma {:induction false} LookupAtKey(entries: seq<Entry>, i: nat)
    requires KeysDistinct(entries) && i < |entries|
    ensures Lookup(entries, entries[i].user) == Some(entries[i].socket)
  {
    if i > 0 {
      TailLookup(entries);
      LookupAtKey(entries[1..], i - 1);
      assert entries[1..][i - 1] == entries[i];
    }
  }

  /** The cleanup keeps keys distinct. */
  lemma {:induction false} DropFirstKeepsKeysDistinct(entries: seq<Entry>, socket: SocketId)
    requires KeysDistinct(entries)
    ensures KeysDistinct(DropFirstSocket(entries, socket))
  {
    if entries != [] {
      TailLookup(entries);
      if entries[0].socket != socket {
        DropFirstKeepsKeysDistinct(entries[1..], socket);
        var tail := DropFirstSocket(entries[1..], socket);
        var r := [entries[0]] + tail;
        forall i, j | 0 <= i < j < |r| ensures r[i].user != r[j].user {
          assert r[j] == tail[j - 1] && r[j] in entries[1..];
          if i == 0 {
            var m :| 0 <= m < |entries[1..]| && entries[1..][m] == r[j];
          } else {
            assert r[i] == tail[i - 1];
          }
        }
      }
    }
  }

  /**
   * A user who reconnected (overwriting the entry) keeps the new entry when
   * the old socket disconnects afterwards.
   */
  lemma ReconnectSurvivesOldDisconnect(entries: seq<Entry>, user: string, oldSocket: SocketId, newSocket: SocketId)
    requires KeysDistinct(entries) && oldSocket != newSocket
    ensures Lookup(DropFirstSocket(Assign(entries, user, newSocket), oldSocket), user) == Some(newSocket)
  {
    AssignKeepsKeysDistinct(entries, user, newSocket);
    DropFirstLookup(Assign(entries, user, newSocket), oldSocket, user);
  }

  /**
   * The `for...in` walk of the disconnect handler: the position of the
   * first entry whose value is `socket`, or `|entries|` when there is none.
   */
  method IndexOfSocket(entries: seq<Entry>, socket: SocketId) returns (i: nat)
    ensures i <= |entries|
    ensures forall j :: 0 <= j < i ==> entries[j].socket != socket
    ensures i < |entries| ==> entries[i].socket == socket
  {
    i := 0;
    while i < |entries|
      invariant i <= |entries|
      invariant forall j :: 0 <= j < i ==> entries[j].socket != socket
    {
      if entries[i].socket == socket {
        return;
      }
      i := i + 1;
    }
  }

  class ConnectionRegistry {
    var entries: seq<Entry>

    /** Keys are distinct (an object has each key once) and every stored socket id is non-empty. */
    ghost predicate Valid()
      reads this
    {
      KeysDistinct(entries) && forall e :: e in entries ==> e.socket != ""
    }

    constructor ()
      ensures Valid() && entries == []
    {
      entries := [];
    }

    /** The `connection` handler: a truthy handshake `userId` is (re)bound to this socket. */
    method Connect(socket: Socket)
      requires Valid()
      requires socket.id != ""
      modifies this
      ensures Valid()
      ensures Truthy(socket.userId) ==> entries == Assign(old(entries), socket.userId.value, socket.id)
      ensures !Truthy(socket.userId) ==> entries == old(entries)
    {
      if Truthy(socket.userId) {
        AssignKeepsKeysDistinct(entries, socket.userId.value, socket.id);
        entries := Assign(entries, socket.userId.value, socket.id);
      }
    }

    /**
     * The `directMessage` handler: a `newMessage` event to the recipient's
     * socket when the recipient is registered, carrying the sender's own
     * handshake `userId` and the message as sent; otherwise nothing.
     */
    function DirectMessage(sender: Socket, recipientId: string, message: string): (d: Option<Delivery>)
      reads this
      requires Valid()
      ensures d.Some? <==> Lookup(entries, recipientId).Some?
      ensures d.Some? ==>
        d.value == Delivery(Lookup(entries, recipientId).value, "newMessage", sender.userId, message)
    {
      var recipientSocketId := Lookup(entries, recipientId);
      if recipientSocketId.Some? && recipientSocketId.value != "" then
        Some(Delivery(recipientSocketId.value, "newMessage", sender.userId, message))
      else
        None
    }

    /** The `disconnect` handler: deletes the first entry bound to this socket, if any. */
    method Disconnect(socket: Socket)
      requires Valid()
      modifies this
      ensures Valid()
      ensures entries == DropFirstSocket(old(entries), socket.id)
    {
      var i := IndexOfSocket(entries, socket.id);
      if i < |entries| {
        DropFirstAt(entries, socket.id, i);
        DropFirstKeepsKeysDistinct(entries, socket.id);
        entries := entries[..i] + entries[i + 1..];
      }
    }
  }
}
