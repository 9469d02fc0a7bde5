/** The connection actor (`WsClientSession`): one per socket. It reads the
    text command protocol, remembers which room the coordinator bound it to,
    forwards commands to the coordinator and writes the coordinator's text
    replies to its socket. */
module WsSession {
  import opened Common
  import opened Text
  import opened WsServer

  /** `text` is `verb`, a space, and `rest`, where `verb` has no space. */
  ghost predicate VerbAndRest(text: string, verb: string, rest: string)
  {
    text == verb + " " + rest && ' ' !in verb
  }

  /** A text frame cut at its first space (`splitn(2, ' ')`) into a verb and
      the rest; `None` when the frame has no space at all. */
  function Frame(text: string): (r: Option<(string, string)>)
    ensures r.None? <==> ' ' !in text
    ensures r.Some? ==> text == r.value.0 + " " + r.value.1 && ' ' !in r.value.0
    ensures forall verb, rest | VerbAndRest(text, verb, rest) :: r == Some((verb, rest))
  {
    var split := SplitN(text, ' ', 2);
    assert forall verb, rest | VerbAndRest(text, verb, rest) :: split == [verb, rest] by {
      forall verb, rest | VerbAndRest(text, verb, rest) ensures split == [verb, rest] {
        assert Join([verb, rest], ' ') == text;
        SplitNJoin([verb, rest], ' ', 2);
      }
    }
    if |split| == 2 then
      assert Join(split, ' ') == split[0] + [' '] + Join(split[1..], ' ');
      assert split[1..] == [split[1]];
      Some((split[0], split[1]))
    else
      assert Join(split, ' ') == split[0];
      None
  }

  /** `payload` names the room `id` in the `plan:session:host` form: the
      first two colons end the plan and the session name, and the host keeps
      any further colons. */
  ghost predicate JoinTarget(payload: string, id: SessionIdentifier)
  {
    && payload == id.planName + ":" + id.sessionName + ":" + id.host
    && ':' !in id.planName && ':' !in id.sessionName
  }

  /** The room a `tJoin`/`sJoin` payload names, split by `splitn(3, ':')`.
      `None` is the case of fewer than two colons, where the source indexes
      past the end of the split. */
  function ParseJoinTarget(payload: string): (r: Option<SessionIdentifier>)
    ensures r.Some? ==> JoinTarget(payload, r.value)
    ensures forall id | JoinTarget(payload, id) :: r == Some(id)
  {
    var parts := SplitN(payload, ':', 3);
    assert forall id | JoinTarget(payload, id) :: parts == [id.planName, id.sessionName, id.host] by {
      forall id | JoinTarget(payload, id) ensures parts == [id.planName, id.sessionName, id.host] {
        TargetSplits(payload, id);
      }
    }
    if |parts| == 3 then
      SplitsToTarget(payload);
      Some(SessionIdentifier(parts[0], parts[1], parts[2]))
    else
      None
  }

  lemma TargetSplits(payload: string, id: SessionIdentifier)
    requires JoinTarget(payload, id)
    ensures SplitN(payload, ':', 3) == [id.planName, id.sessionName, id.host]
  {
    var named := [id.planName, id.sessionName, id.host];
    assert named[1..] == [id.sessionName, id.host];
    assert named[1..][1..] == [id.host];
    assert Join(named[1..], ':') == id.sessionName + [':'] + id.host;
    assert payload == id.planName + [':'] + (id.sessionName + [':'] + id.host);
    assert Join(named, ':') == payload;
    SplitNJoin(named, ':', 3);
  }

  lemma SplitsToTarget(payload: string)
    requires |SplitN(payload, ':', 3)| == 3
    ensures var parts := SplitN(payload, ':', 3);
      JoinTarget(payload, SessionIdentifier(parts[0], parts[1], parts[2]))
  {
    var parts := SplitN(payload, ':', 3);
    assert parts[1..][1..] == [parts[2]];
    assert Join(parts, ':') == parts[0] + [':'] + (parts[1] + [':'] + parts[2]);
  }

  /** What handling one text frame comes to: one message forwarded to the
      coordinator, nothing, or a panic. */
  datatype Routed = Forward(message: ServerMessage) | Drop | Panic

  predicate IsJoinVerb(verb: string) { verb == "tJoin" || verb == "sJoin" }

  /** The verbs that only make sense inside a room. */
  predicate IsRoomVerb(verb: string)
  {
    verb == "tInst" || verb == "sUpdate" || verb == "sDoc" || verb == "txtm"
  }

  /** Whether `message` is bound to the room the connection is in. */
  predicate RoomScoped(message: ServerMessage)
  {
    message.ControlInstruction? || message.UpdateStudentCode? || message.SetStudentDoc? || message.SendTextMessage?
  }

  /** A `tJoin`/`sJoin` frame: the named room joined under the connection's
      own username and address, or a panic when the payload names no room. */
  function RouteJoin(verb: string, payload: string, username: string, addr: Handle): (r: Routed)
    requires IsJoinVerb(verb)
    ensures (r.Panic? <==> ParseJoinTarget(payload).None?) && !r.Drop?
    ensures r.Forward? ==>
      && !RoomScoped(r.message)
      && (r.message.TeacherJoin? <==> verb == "tJoin")
      && (r.message.TeacherJoin? || r.message.StudentJoin?)
      && r.message.addr == addr && r.message.username == username
      && JoinTarget(payload, r.message.identifier)
  {
    match ParseJoinTarget(payload)
    case None => Panic
    case Some(id) =>
      if verb == "tJoin" then Forward(TeacherJoin(id, addr, username))
      else Forward(StudentJoin(id, addr, username))
  }

  /** A frame with a room verb: forwarded to the bound room, with the rest of
      the frame unchanged, and dropped when the connection is in no room. */
  function RouteRoom(verb: string, rest: string, username: string, addr: Handle,
                     connected: Option<SessionIdentifier>): (r: Routed)
    requires IsRoomVerb(verb)
    ensures (r.Forward? <==> connected.Some?) && !r.Panic?
    ensures r.Forward? ==>
      && RoomScoped(r.message)
      && connected.Some? && r.message.identifier == connected.value
      && (r.message.ControlInstruction? <==> verb == "tInst")
      && (r.message.UpdateStudentCode? <==> verb == "sUpdate")
      && (r.message.SetStudentDoc? <==> verb == "sDoc")
      && (r.message.ControlInstruction? ==> r.message.instruction == rest)
      && (r.message.UpdateStudentCode? || r.message.SetStudentDoc? ==>
            r.message.code == rest && r.message.username == username && r.message.studentAddr == addr)
      && (r.message.SendTextMessage? ==> r.message.text == rest && r.message.username == username)
  {
    match connected
    case None => Drop
    case Some(id) =>
      if verb == "tInst" then Forward(ControlInstruction(rest, id))
      else if verb == "sUpdate" then Forward(UpdateStudentCode(id, username, rest, addr))
      else if verb == "sDoc" then Forward(SetStudentDoc(id, username, rest, addr))
      else Forward(SendTextMessage(id, username, rest))
  }

  /** `StreamHandler::handle` for a text frame, given the connection's
      username, its own address and the room it is bound to. */
  function Route(text: string, username: string, addr: Handle, connected: Option<SessionIdentifier>): (r: Routed)
    // frames without a space, and unknown verbs, are dropped
    ensures Frame(text).None? ==> r == Drop
    ensures Frame(text).Some? && !IsJoinVerb(Frame(text).value.0) && !IsRoomVerb(Frame(text).value.0) ==> r == Drop
    // joins: own username and address, any binding; a short payload panics
    ensures Frame(text).Some? && IsJoinVerb(Frame(text).value.0) ==>
      (r.Panic? <==> ParseJoinTarget(Frame(text).value.1).None?) && !r.Drop?
    ensures r.Panic? ==> Frame(text).Some? && IsJoinVerb(Frame(text).value.0)
    ensures r.Forward? && !RoomScoped(r.message) ==>
      && Frame(text).Some? && IsJoinVerb(Frame(text).value.0)
      && (r.message.TeacherJoin? <==> Frame(text).value.0 == "tJoin")
      && (r.message.TeacherJoin? || r.message.StudentJoin?)
      && r.message.addr == addr && r.message.username == username
      && JoinTarget(Frame(text).value.1, r.message.identifier)
    // room verbs: forwarded exactly when bound, to the bound room, with the rest unchanged
    ensures Frame(text).Some? && IsRoomVerb(Frame(text).value.0) ==>
      (r.Forward? <==> connected.Some?) && !r.Panic?
    ensures r.Forward? && RoomScoped(r.message) ==>
      && connected.Some? && r.message.identifier == connected.value
      && Frame(text).Some? && IsRoomVerb(Frame(text).value.0)
      && var (verb, rest) := Frame(text).value;
      && (r.message.ControlInstruction? <==> verb == "tInst")
      && (r.message.UpdateStudentCode? <==> verb == "sUpdate")
      && (r.message.SetStudentDoc? <==> verb == "sDoc")
      && (r.message.ControlInstruction? ==> r.message.instruction == rest)
      && (r.message.UpdateStudentCode? || r.message.SetStudentDoc? ==>
            r.message.code == rest && r.message.username == username && r.message.studentAddr == addr)
      && (r.message.SendTextMessage? ==> r.message.text == rest && r.message.username == username)
  {
    match Frame(text)
    case None => Drop
    case Some((verb, rest)) =>
      if IsJoinVerb(verb) then RouteJoin(verb, rest, username, addr)
      else if IsRoomVerb(verb) then RouteRoom(verb, rest, username, addr, connected)
      else Drop
  }

  /** A join is routed the same whatever room the connection is bound to. */
  lemma JoinIgnoresBinding(text: string, username: string, addr: Handle, a: Option<SessionIdentifier>, b: Option<SessionIdentifier>)
    requires Frame(text).Some? && IsJoinVerb(Frame(text).value.0)
    ensures Route(text, username, addr, a) == Route(text, username, addr, b)
  {
  }

  /** The defect: a join whose payload has fewer than two colons is indexed
      out of bounds, whatever room the connection is bound to. */
  lemma ShortJoinPanics(verb: string, payload: string, username: string, addr: Handle,
                        connected: Option<SessionIdentifier>)
    requires IsJoinVerb(verb) && ParseJoinTarget(payload).None?
    ensures Route(verb + " " + payload, username, addr, connected) == Panic
  {
    assert VerbAndRest(verb + " " + payload, verb, payload);
  }

  /** Payloads with one colon, or none, name no room. */
  lemma ShortPayloads(plan: string, session: string)
    requires ':' !in plan && ':' !in session
    ensures ParseJoinTarget(plan + ":" + session).None?
    ensures ParseJoinTarget(plan).None?
  {
    assert Join([plan, session], ':') == plan + ":" + session;
    SplitNJoin([plan, session], ':', 3);
    assert SplitN(plan, ':', 3) == [plan];
  }

  class WsClientSession {
    const username: string
    /** This actor's own address (`ctx.address().recipient()`). */
    const addr: Handle
    /** The room the coordinator last bound this connection to. */
    var connectedSession: Option<SessionIdentifier>
    /** Messages sent to the coordinator, oldest first. */
    var toServer: seq<ServerMessage>
    /** Text written to the socket with `ctx.text`, oldest first. */
    var written: seq<string>

    /** As `session_service` starts the actor: not bound to any room. */
    constructor (username: string, addr: Handle)
      ensures this.username == username && this.addr == addr
      ensures connectedSession == None && toServer == [] && written == []
    {
      this.username := username;
      this.addr := addr;
      connectedSession := None;
      toServer := [];
      written := [];
    }

    /** `StreamHandler::handle` for a text frame: sends the routed message,
        if any, to the coordinator. The binding is only read, never set. */
    method HandleText(text: string) returns (outcome: Routed)
      modifies this`toServer
      ensures outcome == Route(text, username, addr, connectedSession)
      ensures toServer == old(toServer) + if outcome.Forward? then [outcome.message] else []
    {
      outcome := Route(text, username, addr, connectedSession);
      if outcome.Forward? {
        toServer := toServer + [outcome.message];
      }
    }

    /** `Handler<WSResponse>`: text goes to the socket; a binding replaces
        the remembered room. */
    method HandleResponse(response: WSResponse)
      modifies this`connectedSession, this`written
      ensures response.Msg? ==> written == old(written) + [response.text] && connectedSession == old(connectedSession)
      ensures response.SetConnectedSession? ==>
        connectedSession == Some(response.identifier) && written == old(written)
    {
      match response
      case Msg(text) => written := written + [text];
      case SetConnectedSession(identifier) => connectedSession := Some(identifier);
    }

    /** `stopped`: a bound connection tells the coordinator, once, that it
        leaves its room; an unbound one sends nothing. */
    method Stopped()
      modifies this`toServer
      ensures connectedSession.Some? ==> toServer == old(toServer) + [Leave(connectedSession.value, addr)]
      ensures connectedSession.None? ==> toServer == old(toServer)
    {
      if connectedSession.Some? {
        toServer := toServer + [Leave(connectedSession.value, addr)];
      }
    }
  }
}
