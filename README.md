# CodeHarmony live-classroom actors, modelled in Dafny

CodeHarmony runs live programming lessons. A teacher opens a room for a
lesson plan, and students join it over WebSockets. The teacher moves the
class from section to section, puts one student's editor in the
"spotlight" so that student's code streams to the teacher, and everyone
can chat. Three actors coordinate this, and this project models all three:

- **The room coordinator** (`SessionServer`, `src/actors/ws_server.rs`),
  in `ws_server.dfy`.
  - It is a class whose `sessions` map holds each live room. A room has a
    teacher, a one-to-one register from student username to connection
    address, the current section, and an optional spotlighted student.
  - Each handler is a method. Every `do_send` the coordinator makes is
    appended, in order, to the `outbox` sequence as an
    `Envelope(address, response)`.
  - Connection addresses are opaque `Handle`s that are only compared for
    equality.
- **The pairing registry** (`TeacherCodeManager`,
  `src/actors/teacher_code_manager.rs`), in `teacher_code_manager.dfy`.
  - It is a class over a one-to-one map from teacher username to a
    six-digit code.
  - `GetCode` is get-or-create. `GetTeacher` is the reverse lookup.
- **The connection actor** (`WsClientSession`, `src/actors/ws_session.rs`),
  in `ws_session.dfy`.
  - Parsing a text frame into what it sends to the coordinator is the pure
    function `Route`.
  - The actor is a class. It remembers the room it is bound to, records what
    it forwards to the coordinator (`toServer`), and records what it writes
    to its socket (`written`).

Library behaviour the handlers rely on is modelled exactly, in its own
modules:

- `text.dfy`: Rust's `str::splitn` and `str::split` on one character, with
  round-trip lemmas against joining.
- `decimal.dfy`:
  - `format!("{}")` of a `usize`
  - `str::parse::<usize>()`, which accepts one optional `+` and leading
    zeros, rejects the empty string, and rejects values above 2^64 - 1 on a
    64-bit target
  - `format!("{:0>6}")` padding
- `bimap.dfy`: the `bimap` crate's `BiMap::insert`, which evicts both the
  pair with the same left value and the pair with the same right value.

`scenarios.dfy` runs several handlers in a row on fresh actors, using only
their contracts. It proves end-to-end behaviour:

- a late joiner learns the current section
- the spotlight gate relays one student's code and unsubscribes the others
- pairing codes are stable and resolve back to their teacher
- a connection's life runs from `tJoin` to `Leave`

Actix processes one message at a time per actor, so each handler is an
atomic, sequential method. Hash-order iteration over the student register
(`right_values()`, `left_values()`) is modelled as a loop that takes the
students in an arbitrary order. The contracts therefore promise "each
student exactly once, nobody else", not a particular order.

### Behaviour of the code that the model keeps as written

- **Short join payloads panic.** `tJoin`/`sJoin` split the payload with
  `splitn(3, ':')` and then index parts 0, 1 and 2
  (`src/actors/ws_session.rs:54-60`, `66-71`). A payload with fewer than
  two colons therefore indexes past the end and panics. It is not dropped.
  - `Route` returns an explicit `Panic` outcome for this case.
  - `ShortJoinPanics` proves a panic for every such payload, whatever room
    the connection is bound to.
  - `ShortPayloads` shows that `plan` and `plan:session` are such payloads.
- **The `StudentJoin` handler can leave the spotlight on a name that is no
  longer registered.** The intended room invariant is that the
  spotlighted student is a registered student. The handler taken alone
  does not keep it.
  - `StudentJoin` registers the joiner with `BiMap::insert`
    (`src/actors/ws_server.rs:159`). A join under a new username from the
    spotlighted student's address evicts the spotlighted name but leaves
    `current_student_username` as it was.
  - The model follows the code. `Scenarios.StaleSpotlightScenario` proves
    the consequences: the evicted name is no longer registered but is
    still spotlighted, code sent under that name still reaches the
    teacher, and the next `subscribe` sends no `"unsub"`.
  - This state cannot be reached through the connection actor. A
    `WsClientSession` always sends its own fixed username and its own
    address (`src/actors/ws_session.rs:9-13`, `49-50`, `66-75`), so no
    connection can send two `StudentJoin`s from one address under two
    usernames. It is a property of the coordinator's handler, which
    accepts any such message.
- **Pairing codes can collide.** `GetCode` never checks whether a freshly
  drawn code is already held. A colliding draw takes the code from its
  previous holder. `Scenarios.CollisionScenario` proves this.

## Model

| member | source | states |
|---|---|---|
| Text.SplitN | src/actors/ws_session.rs:47 | `splitn(n, sep)`: between 1 and `n` parts that join back to the input; every part except the last is free of the separator, and the last is too unless the limit `n` was reached |
| Text.Split | src/actors/ws_server.rs:175 | `split(sep)`: at least one part, every part free of the separator, and the parts join back to the input |
| Text.SplitNJoin | src/actors/ws_session.rs:54 | `splitn` undoes joining: parts that obey the separator rule for limit `n` come back out unchanged |
| Text.SplitJoin | src/actors/ws_server.rs:175 | `split` undoes joining separator-free parts |
| Decimal.Show | src/actors/ws_server.rs:185 | `{}` of a number: a non-empty digit string with no leading zero whose value is the number |
| Decimal.ParseUsize | src/actors/ws_server.rs:182 | `parse::<usize>()`: succeeds exactly on a non-empty run of digits (after one optional `+`, leading zeros allowed) whose value fits in a 64-bit `usize`, and then returns that value; the empty string fails |
| Decimal.ParseShow | src/actors/ws_server.rs:182-185 | what `{}` writes, `parse::<usize>()` reads back as the same number |
| Decimal.ZeroPad | src/actors/teacher_code_manager.rs:38 | `{:0>w}`: a shorter string is padded with `'0'` on the left to exactly `w` characters; a longer one is kept whole |
| Decimal.ValueLeadingZeros | src/actors/teacher_code_manager.rs:38 | left padding with zeros keeps the value of a digit string |
| Decimal.ShowLength | src/actors/teacher_code_manager.rs:38 | a number below 10^k takes at most k digits |
| BiMaps.Insert | src/actors/ws_server.rs:159 | `BiMap::insert(l, r)`: maps `l` to `r`, keeps every pair that shares neither `l` nor `r`, drops the pairs that share one of them, and keeps the map one-to-one |
| WsServer.NewRoom | src/actors/ws_server.rs:58-70 | `SessionRoom::new`: a room with the given teacher address and username, no students, section 0 and nobody in the spotlight |
| WsServer.ParseInstruction | src/actors/ws_server.rs:175-211 | an instruction is `setSection n` exactly when it is `setSection`, one space, and a space-free argument that parses as a `usize` `n`; it is `subscribe u` exactly when it is `subscribe`, one space, and a space-free `u`; anything else is ignored |
| WsServer.SessionServer.constructor | src/actors/ws_server.rs:77-80 | a new coordinator has no rooms and has sent nothing |
| WsServer.SessionServer.TeacherJoin | src/actors/ws_server.rs:110-133 | upsert: an existing room gets only a new teacher (students, section and spotlight kept); an unknown identifier gets a room with no students, section 0 and no spotlight; other rooms are unchanged; exactly one `SetConnectedSession(identifier)` goes to the joining address; student registers stay one-to-one |
| WsServer.SessionServer.StudentJoin | src/actors/ws_server.rs:143-162 | an unknown room: nothing changes and nothing is sent; a known room: the joiner gets `SetConnectedSession` and then `"sec <section>"`, and the register becomes `BiMap::insert(username, addr)` of the old one, still one-to-one |
| WsServer.SessionServer.ControlInstruction | src/actors/ws_server.rs:171-213 | `setSection n` in a known room sets the section and sends `"sec n"` once to every student and nobody else; `subscribe u` for a registered `u` first sends `"unsub"` to a different spotlighted student who is still registered, then spotlights `u` and sends `"subscribe"` to `u`; every other case changes nothing and sends nothing |
| WsServer.SessionServer.Broadcast | src/actors/ws_server.rs:187-190 | one `do_send` of the response to each address in the set, each exactly once, in any order, and to nobody else |
| WsServer.SessionServer.GetStudentData | src/actors/ws_server.rs:222-237 | when the room exists and the caller is its teacher: every registered username, each once; otherwise an empty list; nothing changes |
| WsServer.SessionServer.UpdateStudentCode | src/actors/ws_server.rs:248-270 | exactly one message: `"sUpdate <code>"` to the teacher when the room exists and the sender is spotlighted, otherwise `"unsub"` to the sender; rooms never change |
| WsServer.SessionServer.SetStudentDoc | src/actors/ws_server.rs:281-303 | as `UpdateStudentCode`, with `"sDoc <code>"` |
| WsServer.SessionServer.SendTextMessage | src/actors/ws_server.rs:313-332 | an unknown room: nothing is sent; a known room: the same `"txtm ..."` text goes once to every student and then, last, to the teacher |
| TeacherCodes.Code | src/actors/teacher_code_manager.rs:37-38 | a code is all digits and denotes its draw, so distinct draws give distinct codes; a draw below 10^6 gives exactly six characters |
| TeacherCodes.CodeOf42 | src/actors/teacher_code_manager.rs:38 | draw 42 is issued as `"000042"` |
| TeacherCodes.TeacherCodeManager.constructor | src/actors/teacher_code_manager.rs:16-20 | a new registry holds no codes |
| TeacherCodes.TeacherCodeManager.GetCode | src/actors/teacher_code_manager.rs:28-43 | get-or-create: a teacher with a code gets it back and nothing changes; otherwise the draw's padded code is inserted with `BiMap::insert`, evicting a colliding holder; either way the teacher holds the returned six-digit code and the map stays one-to-one |
| TeacherCodes.TeacherCodeManager.GetTeacher | src/actors/teacher_code_manager.rs:51-61 | `Some(u)` exactly when the code is held, and then `u` is the teacher holding it; `None` for any code not held; nothing changes |
| WsSession.Frame | src/actors/ws_session.rs:47-48 | `splitn(2, ' ')`: no frame without a space; otherwise the frame is verb, space, rest, with a space-free verb, and that decomposition is the only one |
| WsSession.ParseJoinTarget | src/actors/ws_session.rs:54-60 | the room named by `plan:session:host`: defined exactly when the payload has that form with a colon-free plan and session name (the host keeps any further colons), and then it is that room |
| WsSession.RouteJoin | src/actors/ws_session.rs:53-75 | `tJoin`/`sJoin` send `TeacherJoin`/`StudentJoin` for the named room with the connection's own username and address; a payload that names no room panics; a join is never dropped |
| WsSession.RouteRoom | src/actors/ws_session.rs:76-110 | `tInst`, `sUpdate`, `sDoc` and `txtm` are forwarded exactly when the connection is bound, to the bound room, with the rest of the frame as instruction, code or text, and with the connection's own username and address where the message carries them |
| WsSession.Route | src/actors/ws_session.rs:45-111 | a frame without a space, or with an unknown verb, sends nothing; joins are forwarded or panic as in `RouteJoin`, whatever the binding; room verbs are forwarded as in `RouteRoom`; only a join can panic |
| WsSession.JoinIgnoresBinding | src/actors/ws_session.rs:53-75 | a join frame is routed the same whatever room the connection is bound to |
| WsSession.ShortJoinPanics | src/actors/ws_session.rs:54-60 | a `tJoin`/`sJoin` whose payload names no room panics, whatever the binding |
| WsSession.ShortPayloads | src/actors/ws_session.rs:66-71 | payloads with one colon or none name no room |
| WsSession.WsClientSession.constructor | src/actors/ws_server.rs:20-24 | a new connection is bound to no room and has sent and written nothing |
| WsSession.WsClientSession.HandleText | src/actors/ws_session.rs:45-111 | the frame is routed with the connection's username, address and current binding; the coordinator receives the routed message exactly when it is forwarded; the binding does not change |
| WsSession.WsClientSession.HandleResponse | src/actors/ws_session.rs:126-137 | `Msg(text)` writes `text` to the socket and keeps the binding; `SetConnectedSession(id)` binds the connection to `id` and writes nothing |
| WsSession.WsClientSession.Stopped | src/actors/ws_session.rs:22-28 | a bound connection sends exactly one `Leave` for its room with its own address; an unbound one sends nothing |
| Scenarios.ParseSetSection | src/actors/ws_server.rs:181-185 | `setSection` followed by any section as `{}` writes it is read as that section |
| Scenarios.ParseSubscribe | src/actors/ws_server.rs:193 | `subscribe u` with a space-free `u` is read as a subscription to `u` |
| Scenarios.StudentListScenario | src/actors/ws_server.rs:222-237 | after a teacher and one student join, the teacher's list is exactly that student, and any caller other than the teacher gets an empty list |
| Scenarios.LateJoinerScenario | src/actors/ws_server.rs:150-156 | a section set before anyone joins sends no message at all, and a student who joins later receives exactly the binding and then that section |
| Scenarios.SpotlightScenario | src/actors/ws_server.rs:193-269 | with one student spotlighted, another student's code is answered with `"unsub"`, the spotlighted student's code reaches the teacher, and moving the spotlight sends `"unsub"` to the old student before `"subscribe"` to the new one |
| Scenarios.StaleSpotlightScenario | src/actors/ws_server.rs:159 | for the `StudentJoin` handler taken alone: a join under a new username from the spotlighted student's address evicts the spotlighted name but leaves the spotlight on it; code sent under that name still reaches the teacher, and the next `subscribe` sends no `"unsub"` |
| Scenarios.PairingScenario | src/actors/teacher_code_manager.rs:28-61 | a teacher's code is six characters, is the same on a second request, resolves back to that teacher, and a code never issued resolves to nobody |
| Scenarios.CollisionScenario | src/actors/teacher_code_manager.rs:37-39 | a second teacher who draws the same number takes over the code, and the first teacher is issued a new one on the next request |
| Scenarios.InstructionRouted | src/actors/ws_session.rs:76-83 | `tInst <instruction>` is forwarded unchanged to the bound room, and dropped when the connection is unbound |
| Scenarios.TeacherJoinRouted | src/actors/ws_session.rs:53-64 | `tJoin plan:session:host` sends `TeacherJoin` for that room with the connection's own name and address |
| Scenarios.ConnectionScenario | src/actors/ws_session.rs:22-134 | over one connection's life, an instruction before any join is dropped, `tJoin` is forwarded, the coordinator's reply binds the connection, the instruction is then forwarded to that room, and stopping sends one `Leave` for it |

## Left out

- The `Leave` handler: `src/actors/ws_session.rs:24` sends `Leave`, but the coordinator's handler for it is not in `src/actors/ws_server.rs`. Only the sending is modelled, not what leaving does to a room.
- `WSResponse::Close` is matched in `src/actors/ws_session.rs:135` but is not defined by the enum in `src/actors/ws_server.rs:96-99`. Only `Msg` and `SetConnectedSession` are modelled.
- WebSocket transport: the upgrade in `session_service`, the Close and Continuation frames, other frame kinds, and protocol errors. These only close or stop the connection, or write a fixed reply (`src/actors/ws_session.rs:37-43`, `113-120`).
- The actix runtime (mailboxes, `Addr`/`Recipient` delivery, `do_send`) is modelled as sequential atomic handlers. Messages a connection sends are recorded in `toServer` and not delivered automatically; the scenarios deliver a coordinator reply by calling `HandleResponse` themselves.
- WsSession.WsClientSession.HandleText: on the `Panic` outcome it changes nothing. What actix does to the actor and its thread after a panic is not modelled.
- TeacherCodes.TeacherCodeManager.GetCode: `rand::thread_rng().gen_range(1..999999)` is a parameter `draw`, required to lie in 1 to 999998, because randomness is not modelled.
- WsServer.SessionServer.SendTextMessage: the `txtm` payload is the JSON object built by `serde_json` with a fresh `Uuid::new_v4()` (`src/actors/ws_server.rs:318-319`). It is passed in ready-made as `chat`, because serde_json and uuid are not modelled. The contract does not tie `chat` to the sender's username or text.
- `println!` logging is not modelled.
- `usize` is taken to be 64 bits wide; `current_section` is kept at or below 2^64 - 1, as parsing guarantees.
- The HTTP endpoints (`src/endpoints/*.rs`), SQL persistence, password hashing, the code-execution proxy and `src/main.rs` are outside the actors. The root-level `src/ws_server.rs`, `src/ws_session.rs` and other files that `src/main.rs` does not compile are left out too.
