/** The socket index of the notifications gateway, against the connections that are really live. */
module NotificationsGateway {
  import opened Wrappers
  import opened Entities

  type Index = map<Id, seq<Id>>

  /** What the socket server reports. `auth` is the user of a valid token, if there is one. */
  datatype Event = Connect(socket: Id, auth: Option<Id>) | Disconnect(socket: Id)

  // ---------- what is really connected ----------

  /** The live authenticated connections after the events, as pairs of user and socket. */
  ghost function Live(events: seq<Event>): set<(Id, Id)> {
    if events == [] then {} else
    var before := Live(events[..|events| - 1]);
    match events[|events| - 1]
    case Connect(socket, auth) => if auth.Some? then before + {(auth.value, socket)} else before
    case Disconnect(socket) => set c | c in before && c.1 != socket
  }

  /** A socket id that connects is not already live. */
  ghost predicate Fresh(events: seq<Event>) {
    events != [] ==>
      var before := events[..|events| - 1];
      && Fresh(before)
      && (events[|events| - 1].Connect? ==> forall c | c in Live(before) :: c.1 != events[|events| - 1].socket)
  }

  // ---------- what the gateway does to its index ----------

  /** The list without the first occurrence of the socket. */
  function Spliced(sockets: seq<Id>, socket: Id): seq<Id> {
    if sockets == [] then []
    else if sockets[0] == socket then sockets[1..]
    else [sockets[0]] + Spliced(sockets[1..], socket)
  }

  function Connected(index: Index, socket: Id, auth: Option<Id>): Index {
    if auth.None? then index
    else index[auth.value := (if auth.value in index then index[auth.value] else []) + [socket]]
  }

  function Disconnected(index: Index, socket: Id): Index {
    map u | u in index && !(socket in index[u] && Spliced(index[u], socket) == []) :: Spliced(index[u], socket)
  }

  function Indexed(events: seq<Event>): Index {
    if events == [] then map[] else
    match events[|events| - 1]
    case Connect(socket, auth) => Connected(Indexed(events[..|events| - 1]), socket, auth)
    case Disconnect(socket) => Disconnected(Indexed(events[..|events| - 1]), socket)
  }

  class Gateway {
    var userSockets: Index

    constructor ()
      ensures userSockets == Indexed([])
    {
      userSockets := map[];
    }

    /** Returns whether the client stays connected. */
    method HandleConnection(socket: Id, auth: Option<Id>) returns (kept: bool)
      modifies this
      ensures userSockets == Connected(old(userSockets), socket, auth)
      ensures kept == auth.Some?
    {
      if auth.None? {
        return false;
      }
      var user := auth.value;
      if user !in userSockets {
        userSockets := userSockets[user := []];
      }
      userSockets := userSockets[user := userSockets[user] + [socket]];
      kept := true;
    }

    /** Visits every entry, also while entries are being deleted. */
    method HandleDisconnect(socket: Id)
      modifies this
      ensures userSockets == Disconnected(old(userSockets), socket)
    {
      ghost var before := userSockets;
      var todo := userSockets.Keys;
      while todo != {}
        invariant todo <= before.Keys
        invariant forall u | u in todo :: u in userSockets && userSockets[u] == before[u]
        invariant forall u | u in before && u !in todo ::
          (u in userSockets <==> u in Disconnected(before, socket))
          && (u in userSockets ==> userSockets[u] == Spliced(before[u], socket))
        invariant userSockets.Keys <= before.Keys
        decreases todo
      {
        var u :| u in todo;
        var index := IndexOf(userSockets[u], socket);
        if index < |userSockets[u]| {
          var rest := userSockets[u][..index] + userSockets[u][index + 1..];
          userSockets := userSockets[u := rest];
          if |rest| == 0 {
            userSockets := userSockets - {u};
          }
        }
        todo := todo - {u};
      }
    }

    /** The sockets an event is emitted to, in order. */
    method SendToUser(user: Id) returns (emitted: seq<Id>)
      ensures emitted == if user in userSockets then userSockets[user] else []
    {
      emitted := [];
      if user in userSockets && |userSockets[user]| > 0 {
        var sockets := userSockets[user];
        for i := 0 to |sockets|
          invariant emitted == sockets[..i]
        {
          emitted := emitted + [sockets[i]];
        }
      }
    }
  }

  /** The position of the socket, or the length of the list when it is not there. */
  method IndexOf(sockets: seq<Id>, socket: Id) returns (i: nat)
    ensures i == |sockets| <==> socket !in sockets
    ensures i < |sockets| ==> Spliced(sockets, socket) == sockets[..i] + sockets[i + 1..]
    ensures i == |sockets| ==> Spliced(sockets, socket) == sockets
    ensures i <= |sockets|
  {
    i := 0;
    while i < |sockets| && sockets[i] != socket
      invariant i <= |sockets| && socket !in sockets[..i]
    {
      i := i + 1;
    }
    assert sockets[..|sockets|] == sockets;
    SplicedAt(sockets, socket, i);
  }

  lemma {:induction false} SplicedAt(sockets: seq<Id>, socket: Id, i: nat)
    requires i <= |sockets| && socket !in sockets[..i] && (i < |sockets| ==> sockets[i] == socket)
    ensures Spliced(sockets, socket) == if i < |sockets| then sockets[..i] + sockets[i + 1..] else sockets
  {
    if i > 0 {
      assert sockets[..i][0] == sockets[0];
      assert sockets[1..][..i - 1] == sockets[..i][1..];
      SplicedAt(sockets[1..], socket, i - 1);
    }
  }

  // ---------- the index is the live relation ----------

  predicate NoRepeats(s: seq<Id>) {
    forall i, j | 0 <= i < j < |s| :: s[i] != s[j]
  }

  ghost predicate Represents(index: Index, live: set<(Id, Id)>) {
    && (forall u, s :: (u, s) in live <==> u in index && s in index[u])
    && (forall u | u in index :: index[u] != [] && NoRepeats(index[u]))
  }

  lemma {:induction false} SplicedRemoves(sockets: seq<Id>, socket: Id)
    requires NoRepeats(sockets)
    ensures NoRepeats(Spliced(sockets, socket))
    ensures forall s :: s in Spliced(sockets, socket) <==> s in sockets && s != socket
  {
    if sockets != [] {
      assert sockets[0] !in sockets[1..];
      SplicedRemoves(sockets[1..], socket);
      assert sockets == [sockets[0]] + sockets[1..];
      if sockets[0] != socket {
        var rest := Spliced(sockets[1..], socket);
        assert sockets[0] !in rest;
        assert Spliced(sockets, socket) == [sockets[0]] + rest;
      }
    }
  }

  /** After any events with fresh socket ids the index holds exactly the live authenticated connections,
      no user with an empty list, and no socket twice. */
  lemma {:induction false} IndexIsLive(events: seq<Event>)
    requires Fresh(events)
    ensures Represents(Indexed(events), Live(events))
  {
    if events != [] {
      var before := events[..|events| - 1];
      IndexIsLive(before);
      var index := Indexed(before);
      match events[|events| - 1]
      case Connect(socket, auth) =>
        if auth.Some? {
          var list := if auth.value in index then index[auth.value] else [];
          assert socket !in list;
        }
      case Disconnect(socket) =>
        forall u | u in index
          ensures NoRepeats(Spliced(index[u], socket))
          ensures forall s :: s in Spliced(index[u], socket) <==> s in index[u] && s != socket
        {
          SplicedRemoves(index[u], socket);
        }
    }
  }

  lemma {:induction false} CountWithoutRepeats(s: seq<Id>, x: Id)
    requires NoRepeats(s)
    ensures multiset(s)[x] == if x in s then 1 else 0
  {
    if s != [] {
      CountWithoutRepeats(s[1..], x);
      assert s == [s[0]] + s[1..];
    }
  }

  /** A message to a user goes to each of the user's live sockets exactly once and to no other socket. */
  lemma SendReachesLiveSockets(events: seq<Event>, user: Id, socket: Id)
    requires Fresh(events)
    ensures
      var emitted := if user in Indexed(events) then Indexed(events)[user] else [];
      multiset(emitted)[socket] == if (user, socket) in Live(events) then 1 else 0
  {
    IndexIsLive(events);
    if user in Indexed(events) {
      CountWithoutRepeats(Indexed(events)[user], socket);
    }
  }
}
