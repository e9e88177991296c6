# WsSession core, modelled in Dafny

WsSession is a real-time relay. A client opens a websocket and either creates a
session (a room named by a random five-letter code) or joins one. Every message
a member sends is then fanned out to the other members of its session. This
project models the in-memory engine behind that:

- the bounded keyed pool and its error codes (`Pool`, base.dfy and pool.dfy);
- the session-code generator (`Code`, code.dfy);
- a connection's lifecycle (`Client`, client.dfy): the `open` flag, the
  15-slot outbound channel, `Start`, `Write`, `End`, and the writer and
  listener loops;
- sessions, membership and broadcast (`Controllers`, controllers.dfy): join,
  leave, create with code retry, recipient selection and message dispatch.

Each operation is one atomic step here. Most Go operations hold their mutex
for the whole body. The exceptions are listed under "Left out":
- `End` and `Start` test `open` before taking the lock;
- `End` releases the lock before closing;
- `JoinSession` releases the session lock before its broadcast;
- `HandleClientClose` broadcasts after `RemoveMemberFromSession` has released
  the session lock;
- `CreateNewSession` holds no lock across its retry loop; each `Store` is its
  own critical section.

Objects that Go updates in place are classes: `Pool.Pool` with its
`values` map, `Client.Client`, and `Controllers.Session` with its member list.
Pure code is functions. The session registry (`SessionPool` in Go) is a
`Pool<string, Session?>` passed to each operation; `Session?` stands for Go's
`*Session`, whose zero value is nil. A Go `Member` points back to its session.
Here a member is the pair of its id and its client's id, and the session is
an explicit argument.

These outside calls are parameters:
- `uuid.NewString` is an id argument;
- `rand.IntN(26)` is a sequence of draws;
- `json.Marshal` and `json.Unmarshal` are function arguments;
- the websocket is the sequence of inbound frames given to `Listener`, plus
  ghost logs of what was written and handled.

A broadcast returns the members whose clients were handed the packet, in order.
That is how the model joins the controllers to the connections.

Several core files come from different revisions and do not agree. Each file's
own logic is modelled:
- session.go calls `NewClient(w, r)` and `code.Generate(7)`;
- message.go calls `Client.Send`;
- session.go calls an undefined `BroadcastText`, modelled as `BroadcastJSON`
  of the control message.

Where the code and the intended design differ, the model follows the code:
- a text packet that fails to decode is dropped silently; no error goes back
  to the sender (internal/controllers/message.go:27-30);
- the join handshake carries no session name.

There is one exception. `Client.Client.Start` is the corrected Start, with
closed as a final state. The code as written is `Client.Client.StartAsWritten`
(see "Findings").

## Model

| member | source | states |
|---|---|---|
| Pool.String | internal/pkg/pool/errors.go:11-21 | every value has a non-empty message; exactly the values other than the three named codes get "Unspecified Error" |
| Pool.Error | internal/pkg/pool/errors.go:24-26 | `Error()` always equals `String()` |
| Pool.StringIdentifiesCode | internal/pkg/pool/errors.go:5-21 | two values have the same message iff they are equal or both unnamed, so DUPLICATE_KEY, MAX_CAPACITY and KEY_NOT_FOUND (0, 1, 2) are distinct and their messages pairwise distinct |
| Pool.Pool.constructor | internal/pkg/pool/pool.go:13-20 | NewPool yields an empty map with the given cap (negative means unbounded) |
| Pool.Pool.Delete | internal/pkg/pool/pool.go:21-25 | removes the key, and is a no-op when the key is absent |
| Pool.Pool.DeleteAll | internal/pkg/pool/pool.go:27-31 | empties the map whatever its argument |
| Pool.Pool.Store | internal/pkg/pool/pool.go:33-46 | a present key gives DUPLICATE_KEY (checked before the cap, so also when full); a full bounded pool gives MAX_CAPACITY; on error nothing changes; success adds exactly key↦value and grows the size by one; the cap invariant is kept |
| Pool.Pool.Update | internal/pkg/pool/pool.go:48-59 | a missing key gives KEY_NOT_FOUND with no change; a present one has only its value replaced and the size is unchanged |
| Pool.Pool.Get | internal/pkg/pool/pool.go:61-69 | succeeds exactly when the key is present and then returns its value; otherwise KEY_NOT_FOUND |
| Pool.Pool.Exists | internal/pkg/pool/pool.go:71-76 | holds exactly when the key is present, the same condition on which Get succeeds |
| Pool.Pool.Size | internal/pkg/pool/pool.go:78-82 | the number of entries, never above `max` when bounded |
| Code.CodeOf | internal/pkg/code/generator.go:11-14 | character i is 65 plus draw i (Go's byte conversion never wraps here), so the result is a five-letter 'A'..'Z' code |
| Code.Generate | internal/pkg/code/generator.go:7-16 | the loop over the buffer yields a code of length CODE_LENGTH = 5 in 'A'..'Z', namely the one the draws determine |
| Code.DrawsOf | internal/pkg/code/generator.go:11-14 | reads a code back as its draws, each in [0, 26) |
| Code.CodeOfDrawsOf | internal/pkg/code/generator.go:9-16 | the draws recovered from a code produce that code again |
| Code.DrawsOfCodeOf | internal/pkg/code/generator.go:11-14 | the code determines the draws (the generator is one-to-one on draw sequences) |
| Code.EveryCodeIsGenerated | internal/pkg/code/generator.go:9-16 | every five-letter upper-case string is produced by some draws |
| Client.Client.constructor | internal/pkg/client/client.go:47-57 | a new client is not open, not closed, and has an empty queue (capacity 15) |
| Client.Client.Start | internal/pkg/client/client.go:97-113 | a no-op on an open or closed client; from the unstarted state the non-nil initial message is the whole queue before `open` becomes true, a nil one enqueues nothing |
| Client.Client.StartAsWritten | internal/pkg/client/client.go:97-113 | Start as the source has it: a no-op when open; on an ended client a non-nil message is sent on the closed channel (a panic, nothing changes), and a nil one re-opens the client; otherwise the message, if any, is appended to the queue and to what was accepted, and the client is open; nothing is written or handled |
| Client.Client.Write | internal/pkg/client/client.go:115-126 | while open appends `p` at the tail and returns (len(p), nil); otherwise returns 0 and an error and the queue is unchanged |
| Client.Client.End | internal/pkg/client/client.go:60-78 | a no-op unless open; otherwise not open, channel closed, handleClose called once more (so at most once in all) |
| Client.Client.Writer | internal/pkg/client/client.go:91-95 | hands the queued packets to WriteMessage in FIFO order, so everything ever accepted is handed over in acceptance order (handed over, not delivered: packets still buffered at End go to the connection End already closed); it has exited iff the channel is closed |
| Client.Delivered | internal/pkg/client/client.go:80-89 | the data of the frames before the first close frame or read error, in arrival order: each delivered item is the payload of the frame at its position, and the frame after the last one delivered, if any, is a close frame or an error |
| Client.Client.Listener | internal/pkg/client/client.go:80-89 | handleMessage once per data frame in arrival order up to the first close frame or read error, then End |
| Client.HandshakeComesFirst | internal/pkg/client/client.go:97-126 | after Start(h) and two Writes the transport receives h first, then the writes in order |
| Client.StartAfterEndSendsOnClosedChannel | internal/pkg/client/client.go:67-77 | with the source's Start, Start after End sends on a closed channel |
| Client.StartAfterEndIsRefused | internal/pkg/client/client.go:97-126 | with the guarded Start, Start after End leaves the client closed and a later Write returns 0 with an error |
| Controllers.Session.constructor | internal/controllers/session.go:184-192 | NewSession gives the name and code and an empty member list |
| Controllers.NewMember | internal/controllers/session.go:194-209 | a member with the fresh id and the given client; it does not touch the session |
| Controllers.Ids | internal/controllers/session.go:213-219 | the ids in list order, as many as members |
| Controllers.GetMemberIds | internal/controllers/session.go:211-219 | the append loop returns exactly the members' ids in list order |
| Controllers.Others | internal/controllers/session.go:158-160 | a member is kept iff it was present and its id differs from the given one; never longer than the list |
| Controllers.OthersCount | internal/controllers/message.go:51-57 | each member with another id receives the packet as often as it is listed; a member with the sender's id never does |
| Controllers.OthersConcat | internal/controllers/session.go:158-160 | filtering distributes over concatenation, so the kept members stay in list order |
| Controllers.OthersUnchanged | internal/controllers/session.go:157-163 | nothing is removed iff no member has the id, and then the list is unchanged |
| Controllers.OthersIdempotent | internal/controllers/session.go:171-181 | filtering twice by one id equals filtering once, so the departed member's notice reaches every remaining member |
| Controllers.OthersOnce | internal/controllers/message.go:51-57 | with unique ids every member other than the sender receives a broadcast exactly once |
| Controllers.AllDepartedLeavesEmpty | internal/controllers/session.go:154-169 | after every member has left, in any order, the member list is empty |
| Controllers.BroadcastOf | internal/controllers/message.go:60-67 | a broadcast happens iff marshalling succeeds; it is a text packet of the encoding, to the members other than the sender |
| Controllers.BroadcastUnsync | internal/controllers/message.go:51-57 | the loop hands the packet to each member whose id differs from the sender's, once per entry, in list order; the sender never receives it |
| Controllers.Broadcast | internal/controllers/message.go:42-46 | the same recipients as BroadcastUnsync |
| Controllers.BroadcastJSON | internal/controllers/message.go:60-67 | a marshal error is returned and nothing is broadcast; otherwise no error and the encoding is broadcast |
| Controllers.HandleMessage | internal/controllers/message.go:23-38 | a text packet that fails to decode is dropped; a decoded one is re-encoded with `from` set to the sender's id and broadcast; any other packet is broadcast unchanged |
| Controllers.FromIsOverwritten | internal/controllers/message.go:23-38 | HandleMessage relays two text packets whose decoded data agree identically, whatever `from` each claims; a broadcast happens iff the message stamped with the sender's id marshals |
| Controllers.JoinSession | internal/controllers/session.go:97-151 | an unknown code gives 404 and changes nothing; a full session gives the 507 "Session is full" handshake, no notice, and keeps its list; otherwise exactly the newcomer is appended, the 200 handshake lists the ids present before it, and MEMBER_JOINED naming it goes to the members other than the newcomer (with a fresh id: exactly the earlier members, and ids stay unique); the registry invariant is kept |
| Controllers.AddMember | internal/controllers/session.go:114-151 | at five members 507 and no change; otherwise the newcomer is appended at the end, the handshake lists the ids present before it (not the newcomer's), and MEMBER_JOINED goes to exactly those earlier members |
| Controllers.JoinNotice | internal/controllers/session.go:119-128 | a newcomer with a fresh id is not notified of itself, and ids stay unique |
| Controllers.RemoveMemberFromSession | internal/controllers/session.go:154-169 | deletes the members with the id and keeps the rest in order; "member not found" and no change iff there were none; an emptied session's code is deleted from the registry; the registry invariant (no empty or over-full session is registered) is kept |
| Controllers.HandleClientClose | internal/controllers/session.go:171-182 | no notice and no change to the registry when removal fails; otherwise MEMBER_LEFT naming the departed id goes to every remaining member; a leave that keeps members leaves the registry as it was (the session is still registered), and one that empties the session removes exactly its code |
| Controllers.FirstFree | internal/controllers/session.go:57-78 | the index of the first drawn code not in the registry; all earlier ones are taken |
| Controllers.CreateNewSession | internal/controllers/session.go:52-78 | codes are retried while Store reports DUPLICATE_KEY; at the first free code the session is stored under it, its Code equals the key and the handshake carries it with 200; a full registry gives 507 and no change; the creator is the sole member |
| Controllers.CreateThenJoinPastCapacity | test/session_test.go:76-99 | create then four joins give five members with status 200 each, and each join's handshake lists the members already there; one more join gives 507 with no members listed (the full-session branch, internal/controllers/session.go:116-118) |

## Left out

- Concurrency: goroutines, the `sync.RWMutex` of every type, and the memory races between them. Each operation is one atomic method.
- Client.Client.End and Client.Client.Start test `open` before taking the lock (internal/pkg/client/client.go:67-70, 101-104). End also releases it before `conn.Close`, `close(c.send)` and `handleClose` (client.go:71-77). The listener's deferred End (client.go:81) and a handler's End (internal/controllers/session.go:93, 144) can therefore both pass the test; the second `close(c.send)` panics and handleClose runs twice. That End must not be called twice is only a comment in the source (client.go:62-63). The model's "handleClose at most once" (`closeCalls` in `Valid`) holds only because each End is atomic.
- Controllers.JoinSession releases the session lock (internal/controllers/session.go:129) before the MEMBER_JOINED broadcast (session.go:151); another join or leave in between can change who receives it. The model broadcasts to the member list as the join left it.
- Client.Client.Write: a full channel blocks the sender in Go; here a full queue is excluded by a precondition.
- Client.Client.Listener and Client.Client.Writer require a started client; in Go both goroutines are spawned by Start.
- Pool.Pool.Get: on a miss the returned value is an arbitrary value of V, not Go's zero value.
- Controllers.RemoveMemberFromSession and Controllers.HandleClientClose require that the session is the one its code names in the registry, or that its code is unregistered. The sequential model keeps this true. In Go, JoinSession reads the session from the pool and only then takes the session lock. A leave in between can unregister the session and the join still lands. When that member later leaves, deleting by code could remove a newer session that drew the same code.
- Controllers.HandleClientClose broadcasts after RemoveMemberFromSession has released the session lock (its deferred unlock, internal/controllers/session.go:156, runs on return, before the broadcast at session.go:180); a join or leave in between can change who receives MEMBER_LEFT. The model sends it to the member list as the removal left it.
- Controllers.CreateNewSession holds no lock across its retry loop (internal/controllers/session.go:57-78): each Store (session.go:60) is its own critical section, so another creation can take a code between two attempts. The model's loop treats the registry as unchanged from one attempt to the next.
- Controllers.CreateNewSession requires that some draw yields a code not in the registry. The Go loop runs forever otherwise.
- The 500 branches of JoinSession and CreateNewSession are modelled but unreachable, because the pool only returns the three error codes.
- The websocket upgrade and its failure path in NewClient, `ReadMessage` / `WriteMessage`, `r.Body.Close`, `chi.URLParam`: no I/O is modelled. The constructor is the state after a successful upgrade.
- The handlers' tail is not modelled: marshal the handshake, `Start` the client with it, `time.Sleep`, then `End` on failure (internal/controllers/session.go:80-95, 132-146). These steps are not chained to the Client class. The handshake is returned instead.
- The handleMessage and handleClose callbacks that NewMember installs are recorded in ghost logs (`handled`, `closeCalls`). They are not invoked.
- `BroadcastUnsyncJSON` (internal/controllers/message.go:71-79) is not modelled; no core operation calls it.
- MEMBER_JOINED and MEMBER_LEFT are the constants 0 and 1. No member states that they differ.
- internal/pkg/auth/jwt.go, cmd/main.go, internal/router/router.go, internal/controllers/client.go and internal/controllers/types.go are not part of this model. They cover auth, startup, routing and a superseded revision of the client.

## Findings

| source | as written | input that shows it | evidently intended | confidence | as-written member | corrected member |
|---|---|---|---|---|---|---|
| internal/pkg/client/client.go:97-113 | Start checks only `open`. After End the client is not open, so Start goes ahead on a closed channel | Start(m), End(), Start(m2): m2 is sent on the closed channel (a panic); with a nil message the client is re-opened over the closed channel instead | a closed client stays closed: Start after End does nothing | medium, not executed | Client.StartAfterEndSendsOnClosedChannel | Client.Client.Start |
