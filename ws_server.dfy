/** The room coordinator (`SessionServer`): one actor that owns every live
    classroom room and handles join, instruction, code-stream and chat
    messages one at a time. Each `do_send` it makes is recorded, in order,
    as an `Envelope` appended to `outbox`. */
module WsServer {
  import opened Common
  import opened Text
  import opened Decimal
  import opened BiMaps

  /** The key of a room: lesson plan, session name and hosting teacher. */
  datatype SessionIdentifier = SessionIdentifier(planName: string, sessionName: string, host: string)

  /** The address of one connection actor (`Recipient<WSResponse>`); only
      compared for equality. */
  datatype Handle = Handle(id: nat)

  /** What the coordinator sends to a connection actor. */
  datatype WSResponse = Msg(text: string) | SetConnectedSession(identifier: SessionIdentifier)

  /** One `do_send`: `response` delivered to the actor at `to`. */
  datatype Envelope = Envelope(to: Handle, response: WSResponse)

  datatype User = User(addr: Handle, username: string)

  /** A room: its teacher, the one-to-one register of students (username to
      address), the section the class is on, and the spotlighted student. */
  datatype SessionRoom = SessionRoom(
    teacher: User,
    students: map<string, Handle>,
    currentSection: nat,
    currentStudentUsername: Option<string>)

  /** `SessionRoom::new`: a room for the given teacher, with no students,
      on section 0, and nobody in the spotlight. */
  function NewRoom(teacherAddr: Handle, username: string): (room: SessionRoom)
    ensures room.teacher.addr == teacherAddr && room.teacher.username == username
    ensures room.students == map[] && room.currentSection == 0
    ensures room.currentStudentUsername.None?
  {
    SessionRoom(User(teacherAddr, username), map[], 0, None)
  }

  /** The messages connection actors send to the coordinator. */
  datatype ServerMessage =
    | TeacherJoin(identifier: SessionIdentifier, addr: Handle, username: string)
    | StudentJoin(identifier: SessionIdentifier, addr: Handle, username: string)
    | ControlInstruction(instruction: string, identifier: SessionIdentifier)
    | UpdateStudentCode(identifier: SessionIdentifier, username: string, code: string, studentAddr: Handle)
    | SetStudentDoc(identifier: SessionIdentifier, username: string, code: string, studentAddr: Handle)
    | SendTextMessage(identifier: SessionIdentifier, username: string, text: string)
    | Leave(identifier: SessionIdentifier, addr: Handle)

  /** A control instruction, once split on spaces. */
  datatype Instruction = SetSection(section: nat) | Subscribe(student: string) | Ignored

  /** `s` is exactly `verb`, one space, and an argument without spaces. */
  ghost predicate Command(s: string, verb: string, arg: string)
  {
    s == verb + " " + arg && ' ' !in arg
  }

  lemma CommandSplit(s: string, verb: string, arg: string)
    requires ' ' !in verb && Command(s, verb, arg)
    ensures Split(s, ' ') == [verb, arg]
  {
    assert Join([verb, arg], ' ') == s;
    SplitJoin([verb, arg], ' ');
  }

  lemma SplitCommand(s: string)
    requires |Split(s, ' ')| == 2
    ensures Command(s, Split(s, ' ')[0], Split(s, ' ')[1])
  {
    var parts := Split(s, ' ');
    assert Join(parts, ' ') == parts[0] + [' '] + Join(parts[1..], ' ');
    assert parts[1..] == [parts[1]];
  }

  /** How the `ControlInstruction` handler reads an instruction: split on
      every space, it must be exactly two tokens, `setSection` with a
      `usize`, or `subscribe` with a username; anything else is ignored. */
  function ParseInstruction(s: string): (ins: Instruction)
    ensures ins.SetSection? ==> ins.section <= UsizeMax
    ensures ins.SetSection? ==> exists arg :: Command(s, "setSection", arg) && ParseUsize(arg) == Some(ins.section)
    ensures ins.Subscribe? ==> Command(s, "subscribe", ins.student)
    ensures forall arg | Command(s, "setSection", arg) && ParseUsize(arg).Some? :: ins == SetSection(ParseUsize(arg).value)
    ensures forall arg | Command(s, "subscribe", arg) :: ins == Subscribe(arg)
  {
    var parts := Split(s, ' ');
    assert forall arg | Command(s, "setSection", arg) :: parts == ["setSection", arg] by {
      forall arg | Command(s, "setSection", arg) ensures parts == ["setSection", arg] {
        CommandSplit(s, "setSection", arg);
      }
    }
    assert forall arg | Command(s, "subscribe", arg) :: parts == ["subscribe", arg] by {
      forall arg | Command(s, "subscribe", arg) ensures parts == ["subscribe", arg] {
        CommandSplit(s, "subscribe", arg);
      }
    }
    if |parts| == 2 then
      SplitCommand(s);
      if parts[0] == "setSection" then
        match ParseUsize(parts[1])
        case Some(n) => SetSection(n)
        case None => Ignored
      else if parts[0] == "subscribe" then
        Subscribe(parts[1])
      else
        Ignored
    else
      Ignored
  }

  /** `sent` delivers `response` once to every address in `to` and to
      nobody else. */
  ghost predicate Fanout(sent: seq<Envelope>, to: set<Handle>, response: WSResponse)
  {
    && (forall k | 0 <= k < |sent| :: sent[k].response == response)
    && NoDuplicates(Recipients(sent))
    && (forall h :: h in Recipients(sent) <==> h in to)
  }

  function Recipients(sent: seq<Envelope>): (hs: seq<Handle>)
    ensures |hs| == |sent| && forall k | 0 <= k < |sent| :: hs[k] == sent[k].to
  {
    if sent == [] then [] else Recipients(sent[..|sent| - 1]) + [sent[|sent| - 1].to]
  }

  /** `after` is `before` followed by a fan-out of `response` to `to`. */
  ghost predicate Extends(before: seq<Envelope>, after: seq<Envelope>, to: set<Handle>, response: WSResponse)
  {
    |before| <= |after| && after[..|before|] == before && Fanout(after[|before|..], to, response)
  }

  /** The `"unsub"` a `subscribe u` owes the previously spotlighted student:
      one, when that student differs from `u` and is still registered. */
  function UnsubPrevious(room: SessionRoom, u: string): seq<Envelope>
  {
    match room.currentStudentUsername
    case Some(prev) =>
      if prev != u && prev in room.students then [Envelope(room.students[prev], Msg("unsub"))] else []
    case None => []
  }

  ghost predicate RoomValid(room: SessionRoom)
  {
    Injective(room.students) && room.currentSection <= UsizeMax
  }

  class SessionServer {
    var sessions: map<SessionIdentifier, SessionRoom>
    /** Every message the coordinator has sent, oldest first. */
    var outbox: seq<Envelope>

    /** Every room's student register is one-to-one and its section fits in
        a `usize`. */
    ghost predicate Valid()
      reads this
    {
      forall id | id in sessions :: RoomValid(sessions[id])
    }

    /** The room exists and has `username` in the spotlight. */
    predicate Spotlit(identifier: SessionIdentifier, username: string)
      reads this
    {
      identifier in sessions && sessions[identifier].currentStudentUsername == Some(username)
    }

    /** `SessionServer::new`: no rooms, nothing sent. */
    constructor ()
      ensures Valid() && sessions == map[] && outbox == []
    {
      sessions := map[];
      outbox := [];
    }

    /** `Handler<TeacherJoin>`: an upsert. An existing room gets the new
        teacher and keeps its students, section and spotlight; an unknown
        identifier gets a fresh room. Either way the joining address alone
        is told which room it is bound to. */
    method TeacherJoin(identifier: SessionIdentifier, addr: Handle, username: string)
      requires Valid()
      modifies this
      ensures Valid()
      ensures sessions.Keys == old(sessions).Keys + {identifier}
      ensures forall id | id in old(sessions) && id != identifier :: sessions[id] == old(sessions)[id]
      ensures sessions[identifier].teacher == User(addr, username)
      ensures identifier in old(sessions) ==>
        var room := old(sessions)[identifier];
        && sessions[identifier].students == room.students
        && sessions[identifier].currentSection == room.currentSection
        && sessions[identifier].currentStudentUsername == room.currentStudentUsername
      ensures identifier !in old(sessions) ==>
        && sessions[identifier].students == map[]
        && sessions[identifier].currentSection == 0
        && sessions[identifier].currentStudentUsername == None
      ensures outbox == old(outbox) + [Envelope(addr, SetConnectedSession(identifier))]
    {
      if identifier in sessions {
        var room := sessions[identifier];
        sessions := sessions[identifier := room.(teacher := User(addr, username))];
      } else {
        sessions := sessions[identifier := NewRoom(addr, username)];
      }
      outbox := outbox + [Envelope(addr, SetConnectedSession(identifier))];
    }

    /** `Handler<StudentJoin>`: nothing happens for an unknown room. In a
        known room the joiner is bound to the room, then told the current
        section, and then registered, evicting any student that had the
        same username or the same address. */
    method StudentJoin(identifier: SessionIdentifier, addr: Handle, username: string)
      requires Valid()
      modifies this
      ensures Valid()
      ensures identifier !in old(sessions) ==> sessions == old(sessions) && outbox == old(outbox)
      ensures identifier in old(sessions) ==>
        var room := old(sessions)[identifier];
        && sessions == old(sessions)[identifier := room.(students := Insert(room.students, username, addr))]
        && outbox == old(outbox) + [Envelope(addr, SetConnectedSession(identifier)),
                                    Envelope(addr, Msg("sec " + Show(room.currentSection)))]
    {
      if identifier in sessions {
        var room := sessions[identifier];
        outbox := outbox + [Envelope(addr, SetConnectedSession(identifier))];
        outbox := outbox + [Envelope(addr, Msg("sec " + Show(room.currentSection)))];
        sessions := sessions[identifier := room.(students := Insert(room.students, username, addr))];
      }
    }

    /** `Handler<ControlInstruction>`. `setSection n` in a known room sets
        the section and sends `"sec n"` to every student and nobody else.
        `subscribe u` for a registered student `u` first unsubscribes a
        different, still registered, spotlighted student, then spotlights
        `u` and tells `u`. Anything else changes nothing and sends nothing. */
    method ControlInstruction(instruction: string, identifier: SessionIdentifier)
      requires Valid()
      modifies this
      ensures Valid()
      ensures
        var ins := ParseInstruction(instruction);
        (identifier !in old(sessions) || ins.Ignored? ||
         (ins.Subscribe? && ins.student !in old(sessions)[identifier].students))
        ==> sessions == old(sessions) && outbox == old(outbox)
      ensures
        var ins := ParseInstruction(instruction);
        ins.SetSection? && identifier in old(sessions) ==>
          var room := old(sessions)[identifier];
          && sessions == old(sessions)[identifier := room.(currentSection := ins.section)]
          && Extends(old(outbox), outbox, room.students.Values, Msg("sec " + Show(ins.section)))
      ensures
        var ins := ParseInstruction(instruction);
        ins.Subscribe? && identifier in old(sessions) && ins.student in old(sessions)[identifier].students ==>
          var room := old(sessions)[identifier];
          && sessions == old(sessions)[identifier := room.(currentStudentUsername := Some(ins.student))]
          && outbox == old(outbox) + UnsubPrevious(room, ins.student)
                                   + [Envelope(room.students[ins.student], Msg("subscribe"))]
    {
      var ins := ParseInstruction(instruction);
      match ins
      case SetSection(n) =>
        if identifier in sessions {
          var room := sessions[identifier];
          sessions := sessions[identifier := room.(currentSection := n)];
          Broadcast(room.students.Values, Msg("sec " + Show(n)));
        }
      case Subscribe(u) =>
        if identifier in sessions && u in sessions[identifier].students {
          var room := sessions[identifier];
          var studentAddr := room.students[u];
          match room.currentStudentUsername {
            case Some(prev) =>
              if prev != u && prev in room.students {
                outbox := outbox + [Envelope(room.students[prev], Msg("unsub"))];
              }
            case None =>
          }
          sessions := sessions[identifier := room.(currentStudentUsername := Some(u))];
          outbox := outbox + [Envelope(studentAddr, Msg("subscribe"))];
        }
      case Ignored =>
    }

    /** One `do_send` of `response` to each address in `to`, in whatever
        order the set is walked. */
    method Broadcast(to: set<Handle>, response: WSResponse)
      modifies this`outbox
      ensures Extends(old(outbox), outbox, to, response)
    {
      var left := to;
      ghost var sent: seq<Envelope> := [];
      while left != {}
        invariant left <= to
        invariant outbox == old(outbox) + sent
        invariant forall k | 0 <= k < |sent| :: sent[k].response == response
        invariant NoDuplicates(Recipients(sent))
        invariant forall h :: h in Recipients(sent) <==> h in to && h !in left
        decreases left
      {
        var h :| h in left;
        outbox := outbox + [Envelope(h, response)];
        sent := sent + [Envelope(h, response)];
        left := left - {h};
      }
      assert outbox[|old(outbox)|..] == sent;
    }

    /** `Handler<GetStudentData>`: the usernames of the room's students,
        each once, when the room exists and the caller is its teacher; an
        empty list otherwise. Nothing changes. */
    method GetStudentData(identifier: SessionIdentifier, username: string) returns (names: seq<string>)
      ensures identifier in sessions && sessions[identifier].teacher.username == username ==>
        NoDuplicates(names) && forall u :: u in names <==> u in sessions[identifier].students
      ensures !(identifier in sessions && sessions[identifier].teacher.username == username) ==> names == []
    {
      names := [];
      if identifier in sessions && sessions[identifier].teacher.username == username {
        var students := sessions[identifier].students;
        var left := students.Keys;
        while left != {}
          invariant left <= students.Keys
          invariant NoDuplicates(names)
          invariant forall u :: u in names <==> u in students && u !in left
          decreases left
        {
          var u :| u in left;
          names := names + [u];
          left := left - {u};
        }
      }
    }

    /** `Handler<UpdateStudentCode>`: the spotlighted student's code goes to
        the teacher as `"sUpdate <code>"`; from anyone else, or for an
        unknown room, the sender is told `"unsub"`. Rooms never change. */
    method UpdateStudentCode(identifier: SessionIdentifier, username: string, code: string, studentAddr: Handle)
      modifies this`outbox
      ensures Spotlit(identifier, username) ==>
        outbox == old(outbox) + [Envelope(sessions[identifier].teacher.addr, Msg("sUpdate " + code))]
      ensures !Spotlit(identifier, username) ==>
        outbox == old(outbox) + [Envelope(studentAddr, Msg("unsub"))]
    {
      if identifier in sessions {
        var room := sessions[identifier];
        if room.currentStudentUsername == Some(username) {
          outbox := outbox + [Envelope(room.teacher.addr, Msg("sUpdate " + code))];
          return;
        }
      }
      outbox := outbox + [Envelope(studentAddr, Msg("unsub"))];
    }

    /** `Handler<SetStudentDoc>`: as `UpdateStudentCode`, with the starting
        document relayed as `"sDoc <code>"`. */
    method SetStudentDoc(identifier: SessionIdentifier, username: string, code: string, studentAddr: Handle)
      modifies this`outbox
      ensures Spotlit(identifier, username) ==>
        outbox == old(outbox) + [Envelope(sessions[identifier].teacher.addr, Msg("sDoc " + code))]
      ensures !Spotlit(identifier, username) ==>
        outbox == old(outbox) + [Envelope(studentAddr, Msg("unsub"))]
    {
      if identifier in sessions {
        var room := sessions[identifier];
        if room.currentStudentUsername == Some(username) {
          outbox := outbox + [Envelope(room.teacher.addr, Msg("sDoc " + code))];
          return;
        }
      }
      outbox := outbox + [Envelope(studentAddr, Msg("unsub"))];
    }

    /** `Handler<SendTextMessage>`: in a known room the same `"txtm ..."`
        text goes once to every student and then to the teacher. `chat` is
        the JSON object `{username, uuid, text}` as serde_json renders it,
        with its fresh UUID; the model takes it ready-made. */
    method SendTextMessage(identifier: SessionIdentifier, chat: string)
      modifies this`outbox
      ensures identifier !in sessions ==> outbox == old(outbox)
      ensures identifier in sessions ==>
        var room := sessions[identifier];
        && |outbox| > |old(outbox)|
        && outbox[|outbox| - 1] == Envelope(room.teacher.addr, Msg("txtm " + chat))
        && Extends(old(outbox), outbox[..|outbox| - 1], room.students.Values, Msg("txtm " + chat))
    {
      if identifier in sessions {
        var room := sessions[identifier];
        var text := "txtm " + chat;
        Broadcast(room.students.Values, Msg(text));
        ghost var fanned := outbox;
        outbox := outbox + [Envelope(room.teacher.addr, Msg(text))];
        assert outbox[..|outbox| - 1] == fanned;
      }
    }
  }
}
