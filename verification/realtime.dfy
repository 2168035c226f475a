/**
 * The Socket.io hooks of backend/src/index.ts: a connection joins college
 * rooms, and a `newForumPost` message from any client is relayed unchanged
 * to the room its `collegeName` names, or to every connection when it names
 * none. REST handlers never emit here; only client messages are relayed.
 */
module Realtime {
  import opened Common

  /** A `socket.id`. */
  type ConnId = nat

  /** The payload of a `newForumPost` message; only `collegeName` is read. */
  datatype Payload = Payload(collegeName: Option<string>, content: string)

  /** The live connections and the rooms each has joined. */
  datatype Server = Server(rooms: map<ConnId, set<string>>)

  /** One `emit` of the server: the event, who receives it, and what they receive. */
  datatype Emission = Emission(event: string, recipients: set<ConnId>, payload: Option<Payload>)

  /** The event name used both ways. */
  const ForumEvent := "newForumPost"

  /** `io.on("connection")`: a new connection in no college room yet. */
  function Connect(s: Server, c: ConnId): (r: Server)
    requires c !in s.rooms
    ensures r.rooms.Keys == s.rooms.Keys + {c}
    ensures r.rooms[c] == {}
    ensures forall d :: d in s.rooms ==> r.rooms[d] == s.rooms[d]
  {
    Server(s.rooms[c := {}])
  }

  /** `joinCollege`: adds one room to the connection's rooms and keeps the others. */
  function JoinCollege(s: Server, c: ConnId, college: string): (r: Server)
    requires c in s.rooms
    ensures r.rooms.Keys == s.rooms.Keys
    ensures r.rooms[c] == s.rooms[c] + {college}
    ensures forall d :: d in s.rooms && d != c ==> r.rooms[d] == s.rooms[d]
  {
    Server(s.rooms[c := s.rooms[c] + {college}])
  }

  /** `disconnect`: Socket.io drops the connection and all its rooms. */
  function Disconnect(s: Server, c: ConnId): (r: Server)
    ensures c !in r.rooms
    ensures forall d :: d != c ==> (d in r.rooms <==> d in s.rooms)
    ensures forall d :: d in r.rooms ==> r.rooms[d] == s.rooms[d]
  {
    Server(s.rooms - {c})
  }

  /** The connections in one room. */
  function Members(s: Server, room: string): (m: set<ConnId>)
    ensures forall c :: c in m <==> c in s.rooms && room in s.rooms[c]
  {
    set c | c in s.rooms && room in s.rooms[c]
  }

  /**
   * `newForumPost` from connection `sender`: with a non-empty `collegeName`
   * the payload goes to that room, otherwise (or for a null payload) to every
   * connection. The payload is relayed unchanged.
   */
  function RelayForumPost(s: Server, sender: ConnId, payload: Option<Payload>): (e: Emission)
    requires sender in s.rooms
    ensures e.event == ForumEvent
    ensures e.payload == payload
    ensures payload.Some? && Filled(payload.value.collegeName) ==>
      e.recipients == Members(s, payload.value.collegeName.value)
    ensures payload.None? || !Filled(payload.value.collegeName) ==> e.recipients == s.rooms.Keys
    ensures e.recipients <= s.rooms.Keys
  {
    var college := if payload.Some? then payload.value.collegeName else None;
    if Filled(college) then Emission(ForumEvent, Members(s, college.value), payload)
    else Emission(ForumEvent, s.rooms.Keys, payload)
  }

  /**
   * A connection that joined only college `a` never receives a message sent
   * for another college `b`. The rooms here are the ones joined through
   * `joinCollege`; socket.io also puts every socket in a private room named
   * by its own id, which this model leaves out, so a `collegeName` equal to
   * a socket's id would reach that socket as well.
   */
  lemma NoCrossCollegeDelivery(s: Server, sender: ConnId, c: ConnId, a: string, b: string, content: string)
    requires sender in s.rooms && c in s.rooms
    requires s.rooms[c] == {a}
    requires b != "" && b != a
    ensures c !in RelayForumPost(s, sender, Some(Payload(Some(b), content))).recipients
  {
  }

  /**
   * After joining `a` and then `b`, a connection receives the messages of
   * both rooms: membership accumulates.
   */
  lemma JoinedRoomsAccumulate(s: Server, c: ConnId, a: string, b: string, sender: ConnId, content: string)
    requires c in s.rooms && sender in s.rooms
    requires a != "" && b != ""
    ensures var t := JoinCollege(JoinCollege(s, c, a), c, b);
      && c in RelayForumPost(t, sender, Some(Payload(Some(a), content))).recipients
      && c in RelayForumPost(t, sender, Some(Payload(Some(b), content))).recipients
  {
  }

  /** A disconnected connection receives nothing, whatever was sent. */
  lemma DisconnectedReceivesNothing(s: Server, c: ConnId, sender: ConnId, payload: Option<Payload>)
    requires sender in s.rooms && sender != c
    ensures c !in RelayForumPost(Disconnect(s, c), sender, payload).recipients
  {
  }

  /**
   * Until it joins a college, a fresh connection receives exactly the
   * messages that name no college; its arrival changes no other delivery.
   */
  lemma FreshConnectionGetsOnlyBroadcasts(s: Server, c: ConnId, sender: ConnId, payload: Option<Payload>)
    requires c !in s.rooms && sender in s.rooms
    ensures var e := RelayForumPost(Connect(s, c), sender, payload);
      && (c in e.recipients <==> payload.None? || !Filled(payload.value.collegeName))
      && e.recipients - {c} == RelayForumPost(s, sender, payload).recipients
  {
  }
}
