/** Runs of several handlers in a row, on fresh actors, and what each run
    is guaranteed to produce. Each method is a client of the actor classes:
    it knows them only through their contracts. */
module Scenarios {
  import opened Common
  import opened Decimal
  import opened WsServer
  import opened TeacherCodes
  import opened WsSession

  /** The responses addressed to `h`, oldest first. */
  function Inbox(outbox: seq<Envelope>, h: Handle): seq<WSResponse>
  {
    if outbox == [] then []
    else
      var last := outbox[|outbox| - 1];
      Inbox(outbox[..|outbox| - 1], h) + if last.to == h then [last.response] else []
  }

  lemma InboxAppend(a: seq<Envelope>, b: seq<Envelope>, h: Handle)
    ensures Inbox(a + b, h) == Inbox(a, h) + Inbox(b, h)
    decreases |b|
  {
    if b == [] {
      assert a + b == a;
    } else {
      var init := b[..|b| - 1];
      InboxAppend(a, init, h);
      assert (a + b)[..|a + b| - 1] == a + init;
    }
  }

  /** A fan-out to nobody sends nothing. */
  lemma FanoutToNobody(before: seq<Envelope>, after: seq<Envelope>, response: WSResponse)
    requires Extends(before, after, {}, response)
    ensures after == before
  {
    var sent := after[|before|..];
    if |sent| > 0 {
      assert Recipients(sent)[0] in Recipients(sent);
    }
    assert after == after[..|before|] + sent;
  }

  /** A list without duplicates whose only member is `x` is `[x]`. */
  lemma Singleton<T>(s: seq<T>, x: T)
    requires NoDuplicates(s) && forall y :: y in s <==> y == x
    ensures s == [x]
  {
    assert x in s;
    assert s[0] in s;
    assert s[|s| - 1] in s;
  }

  /** `setSection` with a section written as `{}` writes it is read back
      as that section. */
  lemma ParseSetSection(n: nat)
    requires n <= UsizeMax
    ensures ParseInstruction("setSection " + Show(n)) == SetSection(n)
  {
    var digits := Show(n);
    assert Command("setSection " + digits, "setSection", digits);
    ParseShow(n);
  }

  /** After a teacher and one student join, the teacher's list is exactly
      that student, and anyone else's list is empty. */
  method StudentListScenario(room: SessionIdentifier, teacher: Handle, bob: Handle, other: string)
    returns (forAlice: seq<string>, forOther: seq<string>)
    requires other != "alice"
    ensures forAlice == ["bob"]
    ensures forOther == []
  {
    var server := new SessionServer();
    server.TeacherJoin(room, teacher, "alice");
    server.StudentJoin(room, bob, "bob");
    forAlice := server.GetStudentData(room, "alice");
    Singleton(forAlice, "bob");
    forOther := server.GetStudentData(room, other);
  }

  /** A section set before anyone joins reaches a student who joins later:
      the section is sent to nobody while the room is empty, and right after
      being bound to the room, the student is told the section. */
  method LateJoinerScenario(room: SessionIdentifier, teacher: Handle, bob: Handle, n: nat)
    returns (sectionSent: seq<Envelope>, toBob: seq<WSResponse>)
    requires teacher != bob && n <= UsizeMax
    ensures sectionSent == []
    ensures toBob == [SetConnectedSession(room), Msg("sec " + Show(n))]
  {
    var server := new SessionServer();
    server.TeacherJoin(room, teacher, "alice");
    var afterJoin := server.outbox;
    ghost var empty := server.sessions[room];
    assert empty.students.Values == {};
    ParseSetSection(n);
    server.ControlInstruction("setSection " + Show(n), room);
    FanoutToNobody(afterJoin, server.outbox, Msg("sec " + Show(n)));
    sectionSent := server.outbox[|afterJoin|..];
    server.StudentJoin(room, bob, "bob");
    var first := [Envelope(teacher, SetConnectedSession(room))];
    var second := [Envelope(bob, SetConnectedSession(room)), Envelope(bob, Msg("sec " + Show(n)))];
    assert server.outbox == first + second;
    InboxAppend(first, second, bob);
    assert Inbox(first, bob) == [] by {
      assert first[..0] == [];
    }
    assert Inbox(second, bob) == [SetConnectedSession(room), Msg("sec " + Show(n))] by {
      assert second[..1] == [second[0]];
      assert second[..1][..0] == [];
    }
    toBob := Inbox(server.outbox, bob);
  }

  /** `subscribe u` for a username without spaces is read as such. */
  lemma ParseSubscribe(u: string)
    requires ' ' !in u
    ensures ParseInstruction("subscribe " + u) == Subscribe(u)
  {
    assert Command("subscribe " + u, "subscribe", u);
  }

  /** A room whose teacher is `teacher`, with `bob` and `carol` registered
      and `bob` in the spotlight. */
  method SpotlitRoom(room: SessionIdentifier, teacher: Handle, b: Handle, c: Handle,
                     bob: string, carol: string)
    returns (server: SessionServer)
    requires b != c && bob != carol && ' ' !in bob
    ensures fresh(server) && server.Valid()
    ensures room in server.sessions && server.sessions[room].teacher.addr == teacher
    ensures server.sessions[room].students == map[bob := b, carol := c]
    ensures server.Spotlit(room, bob)
  {
    server := new SessionServer();
    server.TeacherJoin(room, teacher, "alice");
    server.StudentJoin(room, b, bob);
    server.StudentJoin(room, c, carol);
    assert server.sessions[room].students == map[bob := b, carol := c];
    ParseSubscribe(bob);
    server.ControlInstruction("subscribe " + bob, room);
  }

  /** The spotlight gate: with `bob` spotlighted, code from `carol` is
      answered with `"unsub"` and code from `bob` reaches the teacher;
      moving the spotlight to `carol` unsubscribes `bob` before subscribing
      `carol`. */
  method SpotlightScenario(room: SessionIdentifier, teacher: Handle, b: Handle, c: Handle,
                           bob: string, carol: string, code: string)
    returns (toCarol: Envelope, relayed: Envelope, switch: seq<Envelope>)
    requires b != c && bob != carol && ' ' !in bob && ' ' !in carol
    ensures toCarol == Envelope(c, Msg("unsub"))
    ensures relayed == Envelope(teacher, Msg("sUpdate " + code))
    ensures switch == [Envelope(b, Msg("unsub")), Envelope(c, Msg("subscribe"))]
  {
    var server := SpotlitRoom(room, teacher, b, c, bob, carol);
    server.UpdateStudentCode(room, carol, code, c);
    toCarol := server.outbox[|server.outbox| - 1];
    server.UpdateStudentCode(room, bob, code, b);
    relayed := server.outbox[|server.outbox| - 1];
    var before := |server.outbox|;
    ParseSubscribe(carol);
    server.ControlInstruction("subscribe " + carol, room);
    switch := server.outbox[before..];
  }

  /** A room where `bob` was spotlighted and then evicted by `carol`
      joining on the same address. */
  method StaleRoom(room: SessionIdentifier, teacher: Handle, h: Handle, bob: string, carol: string)
    returns (server: SessionServer)
    requires bob != carol && ' ' !in bob
    ensures fresh(server) && server.Valid()
    ensures room in server.sessions && server.sessions[room].teacher.addr == teacher
    ensures server.sessions[room].students == map[carol := h]
    ensures server.Spotlit(room, bob)
  {
    server := new SessionServer();
    server.TeacherJoin(room, teacher, "alice");
    server.StudentJoin(room, h, bob);
    ParseSubscribe(bob);
    server.ControlInstruction("subscribe " + bob, room);
    server.StudentJoin(room, h, carol);
    assert server.sessions[room].students == map[carol := h];
  }

  /** The `StudentJoin` handler taken alone does not keep the spotlighted
      name registered: a join under a new username from the spotlighted
      student's address evicts that name but leaves the spotlight on it,
      and code sent under the evicted name is still relayed to the teacher.
      A later `subscribe` then sends no `"unsub"`, since the evicted name
      has no address. A `WsClientSession` always joins with its own fixed
      username and address, so no connection sends this pair of joins. */
  method StaleSpotlightScenario(room: SessionIdentifier, teacher: Handle, h: Handle,
                                bob: string, carol: string, code: string)
    returns (bobRegistered: bool, spotlight: Option<string>, relayed: Envelope, switch: seq<Envelope>)
    requires bob != carol && ' ' !in bob && ' ' !in carol
    ensures !bobRegistered && spotlight == Some(bob)
    ensures relayed == Envelope(teacher, Msg("sUpdate " + code))
    ensures switch == [Envelope(h, Msg("subscribe"))]
  {
    var server := StaleRoom(room, teacher, h, bob, carol);
    bobRegistered := bob in server.sessions[room].students;
    spotlight := server.sessions[room].currentStudentUsername;
    server.UpdateStudentCode(room, bob, code, h);
    relayed := server.outbox[|server.outbox| - 1];
    var before := |server.outbox|;
    ParseSubscribe(carol);
    server.ControlInstruction("subscribe " + carol, room);
    switch := server.outbox[before..];
  }

  /** A teacher's code is stable across calls, resolves back to the
      teacher, is six characters long, and a code never issued resolves to
      nobody. */
  method PairingScenario(d1: nat, d2: nat)
    returns (first: string, again: string, owner: Option<string>, unissued: Option<string>)
    requires FirstDraw <= d1 <= LastDraw && FirstDraw <= d2 <= LastDraw && d1 != d2
    ensures first == again == Code(d1) && |first| == 6
    ensures owner == Some("alice")
    ensures unissued == None
  {
    var registry := new TeacherCodeManager();
    first := registry.GetCode("alice", d1);
    again := registry.GetCode("alice", d2);
    owner := registry.GetTeacher(first);
    assert Code(d2) != Code(d1);
    assert registry.codes == map["alice" := Code(d1)];
    unissued := registry.GetTeacher(Code(d2));
  }

  /** Collisions are not checked: a second teacher who draws the same
      number takes the code over, and the first teacher, having lost it,
      is issued a new one on the next request. */
  method CollisionScenario(d: nat, d2: nat)
    returns (forAlice: string, forBob: string, owner: Option<string>, aliceAgain: string)
    requires FirstDraw <= d <= LastDraw && FirstDraw <= d2 <= LastDraw
    ensures forAlice == forBob == Code(d)
    ensures owner == Some("bob")
    ensures aliceAgain == Code(d2)
  {
    var registry := new TeacherCodeManager();
    forAlice := registry.GetCode("alice", d);
    forBob := registry.GetCode("bob", d);
    assert registry.codes == map["bob" := Code(d)];
    owner := registry.GetTeacher(forBob);
    aliceAgain := registry.GetCode("alice", d2);
  }

  lemma InstructionFramed(instruction: string)
    ensures Frame("tInst " + instruction) == Some(("tInst", instruction))
  {
    assert VerbAndRest("tInst " + instruction, "tInst", instruction);
  }

  lemma InstructionRouted(instruction: string, username: string, me: Handle, connected: Option<SessionIdentifier>)
    ensures Route("tInst " + instruction, username, me, connected)
         == if connected.Some? then Forward(ControlInstruction(instruction, connected.value)) else Drop
  {
    InstructionFramed(instruction);
    assert !IsJoinVerb("tInst") && IsRoomVerb("tInst");
    assert Route("tInst " + instruction, username, me, connected) == RouteRoom("tInst", instruction, username, me, connected);
  }

  lemma JoinFramed(payload: string)
    ensures Frame("tJoin " + payload) == Some(("tJoin", payload))
  {
    assert VerbAndRest("tJoin " + payload, "tJoin", payload);
  }

  lemma TeacherJoinRouted(payload: string, id: SessionIdentifier, username: string, me: Handle,
                           connected: Option<SessionIdentifier>)
    requires JoinTarget(payload, id)
    ensures Route("tJoin " + payload, username, me, connected) == Forward(TeacherJoin(id, me, username))
  {
    JoinFramed(payload);
    assert IsJoinVerb("tJoin");
    assert Route("tJoin " + payload, username, me, connected) == RouteJoin("tJoin", payload, username, me);
    assert ParseJoinTarget(payload) == Some(id);
  }

  /** A fresh connection sends a room instruction before any join, which is
      dropped, and then `tJoin`, which is forwarded with the connection's own
      name and address. */
  method JoinRequest(username: string, me: Handle, id: SessionIdentifier, instruction: string)
    returns (connection: WsClientSession, early: Routed, join: Routed)
    requires ':' !in id.planName && ':' !in id.sessionName
    ensures fresh(connection)
    ensures connection.username == username && connection.addr == me
    ensures connection.connectedSession == None
    ensures early == Drop
    ensures join == Forward(TeacherJoin(id, me, username))
    ensures connection.toServer == [join.message]
  {
    connection := new WsClientSession(username, me);
    InstructionRouted(instruction, username, me, None);
    early := connection.HandleText("tInst " + instruction);
    var payload := id.planName + ":" + id.sessionName + ":" + id.host;
    TeacherJoinRouted(payload, id, username, me, None);
    join := connection.HandleText("tJoin " + payload);
  }

  /** The first half of a connection's life: after the join request above,
      the coordinator's reply binds the connection to the room. */
  method JoinedConnection(username: string, me: Handle, id: SessionIdentifier, instruction: string)
    returns (connection: WsClientSession, early: Routed, join: Routed)
    requires ':' !in id.planName && ':' !in id.sessionName
    ensures fresh(connection)
    ensures connection.username == username && connection.addr == me
    ensures connection.connectedSession == Some(id)
    ensures early == Drop
    ensures join == Forward(TeacherJoin(id, me, username))
    ensures connection.toServer == [join.message]
  {
    connection, early, join := JoinRequest(username, me, id, instruction);
    var server := new SessionServer();
    server.TeacherJoin(join.message.identifier, join.message.addr, join.message.username);
    connection.HandleResponse(server.outbox[|server.outbox| - 1].response);
  }

  /** One connection through its life: after the join above, the same
      instruction is forwarded to the bound room, and stopping sends one
      `Leave` for that room. */
  method ConnectionScenario(username: string, me: Handle, plan: string, session: string, host: string,
                            instruction: string)
    returns (early: Routed, join: Routed, late: Routed, sent: seq<ServerMessage>)
    requires ':' !in plan && ':' !in session
    ensures early == Drop
    ensures join == Forward(TeacherJoin(SessionIdentifier(plan, session, host), me, username))
    ensures late == Forward(ControlInstruction(instruction, SessionIdentifier(plan, session, host)))
    ensures sent == [join.message, late.message, Leave(SessionIdentifier(plan, session, host), me)]
  {
    var id := SessionIdentifier(plan, session, host);
    var connection;
    connection, early, join := JoinedConnection(username, me, id, instruction);
    InstructionRouted(instruction, username, me, Some(id));
    late := connection.HandleText("tInst " + instruction);
    ghost var beforeStop := connection.toServer;
    assert beforeStop == [join.message, late.message];
    connection.Stopped();
    sent := connection.toServer;
    assert sent == beforeStop + [Leave(id, me)];
  }
}
