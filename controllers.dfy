/** Package `controllers`: sessions, membership and broadcast
    (internal/controllers/session.go and message.go). The registry is the
    `SessionPool` of session.go, passed in explicitly. A member's connection
    is named by its client id: handing a packet to a member's connection is
    recorded as that member appearing among the recipients of a broadcast.
    `uuid.NewString`, the code generator's random draws and `encoding/json`
    are parameters. */
module Controllers {
  import opened Base
  import opened Pool
  import Code

  const MAX_SESSIONS := 500
  const MAX_USERS_PER_SESSION := 5

  // =====================================================================
  // session.go: data

  /** `Member`: an id from `uuid.NewString` and the id of its client. Go's
      back-pointer to the session is the Session argument of the operations. */
  datatype Member = Member(id: string, client: string)

  /** `Session`: a name, the code it is registered under and its members in
      join order. */
  class Session {
    var code: string
    var name: string
    var members: seq<Member>

    /** `NewSession(name, code)`. */
    constructor (name: string, code: string)
      ensures this.name == name && this.code == code && members == []
    {
      this.code := code;
      this.name := name;
      members := [];
    }
  }

  /** `HandshakeMessage`; an omitted field is "" or []. */
  datatype Handshake = Handshake(sessionCode: string, statusCode: int, status: string, members: seq<string>)

  /** The registry: Go's `pool.Pool[string, *Session]`; a missing entry reads as nil. */
  type Registry = Pool<string, Session?>

  /** `NewMember`: a member with a fresh id and the given client; being a
      function it cannot change the session. */
  function NewMember(id: string, client: string): (m: Member)
    ensures m.id == id && m.client == client
  {
    Member(id, client)
  }

  /** The ids of `members`, in list order. */
  function Ids(members: seq<Member>): (ids: seq<string>)
    ensures |ids| == |members|
    ensures forall i :: 0 <= i < |members| ==> ids[i] == members[i].id
  {
    if members == [] then []
    else Ids(members[..|members| - 1]) + [members[|members| - 1].id]
  }

  predicate UniqueIds(members: seq<Member>) {
    forall i, j :: 0 <= i < j < |members| ==> members[i].id != members[j].id
  }

  /** `getMemberIds`: the append loop over the member list. */
  method GetMemberIds(ses: Session) returns (memberIds: seq<string>)
    ensures memberIds == Ids(ses.members)
    ensures |memberIds| == |ses.members|
  {
    memberIds := [];
    for i := 0 to |ses.members|
      invariant memberIds == Ids(ses.members[..i])
    {
      assert ses.members[..i + 1][..i] == ses.members[..i];
      memberIds := memberIds + [ses.members[i].id];
    }
    assert ses.members[..|ses.members|] == ses.members;
  }

  // =====================================================================
  // Filtering by id: what `slices.DeleteFunc` leaves in RemoveMemberFromSession,
  // and the recipients BroadcastUnsync picks.

  /** The members whose id is not `id`, in list order. */
  function Others(members: seq<Member>, id: string): (r: seq<Member>)
    ensures |r| <= |members|
    ensures forall m :: m in r <==> m in members && m.id != id
  {
    if members == [] then []
    else
      var n := |members| - 1;
      Others(members[..n], id) + (if members[n].id == id then [] else [members[n]])
  }

  /** Each member with another id is kept as often as it occurs; none with `id` is. */
  lemma {:induction false} OthersCount(members: seq<Member>, id: string, m: Member)
    ensures multiset(Others(members, id))[m] == if m.id == id then 0 else multiset(members)[m]
  {
    if members != [] {
      var n := |members| - 1;
      assert members == members[..n] + [members[n]];
      OthersCount(members[..n], id, m);
    }
  }

  /** Filtering distributes over concatenation, so the kept members stay in order. */
  lemma {:induction false} OthersConcat(a: seq<Member>, b: seq<Member>, id: string)
    ensures Others(a + b, id) == Others(a, id) + Others(b, id)
  {
    if b == [] {
      assert a + b == a;
    } else {
      var n := |b| - 1;
      assert (a + b)[..|a + b| - 1] == a + b[..n];
      OthersConcat(a, b[..n], id);
    }
  }

  /** Nothing is removed exactly when no member has the id, and then the list is unchanged. */
  lemma {:induction false} OthersUnchanged(members: seq<Member>, id: string)
    ensures |Others(members, id)| == |members| <==> id !in Ids(members)
    ensures id !in Ids(members) ==> Others(members, id) == members
  {
    if members != [] {
      var n := |members| - 1;
      OthersUnchanged(members[..n], id);
      assert Ids(members) == Ids(members[..n]) + [members[n].id];
    }
  }

  /** Filtering twice by the same id is filtering once. */
  lemma OthersIdempotent(members: seq<Member>, id: string)
    ensures Others(Others(members, id), id) == Others(members, id)
  {
    var r := Others(members, id);
    forall i | 0 <= i < |r| ensures Ids(r)[i] != id {
      assert r[i] in r;
    }
    OthersUnchanged(r, id);
  }

  /** With unique ids, every member other than `id` is kept exactly once. */
  lemma {:induction false} OthersOnce(members: seq<Member>, id: string, m: Member)
    requires UniqueIds(members) && m in members && m.id != id
    ensures multiset(Others(members, id))[m] == 1
  {
    OthersCount(members, id, m);
    UniqueOccursOnce(members, m);
  }

  lemma {:induction false} UniqueOccursOnce(members: seq<Member>, m: Member)
    requires UniqueIds(members) && m in members
    ensures multiset(members)[m] == 1
  {
    var n := |members| - 1;
    assert members == members[..n] + [members[n]];
    if members[n] == m {
      assert m !in members[..n];
    } else {
      UniqueOccursOnce(members[..n], m);
    }
  }

  /** The first element of a non-empty list is in it. A separate lemma so that
      the impossible base case below needs no index expression of its own. */
  lemma HeadIsMember(members: seq<Member>)
    requires members != []
    ensures members[0] in members
  {
  }

  /** The member list after each id in `departed` has been removed in turn. */
  function RemoveEach(members: seq<Member>, departed: seq<string>): seq<Member>
    decreases departed
  {
    if departed == [] then members else RemoveEach(Others(members, departed[0]), departed[1..])
  }

  /** Once every member has left, in any order, the list is empty. */
  lemma {:induction false} AllDepartedLeavesEmpty(members: seq<Member>, departed: seq<string>)
    requires forall m :: m in members ==> m.id in departed
    ensures RemoveEach(members, departed) == []
    decreases departed
  {
    if departed == [] {
      if members != [] {
        HeadIsMember(members);
        assert false;
      }
    } else {
      var rest := Others(members, departed[0]);
      forall m | m in rest ensures m.id in departed[1..] {
        assert m.id in departed && m.id != departed[0];
      }
      AllDepartedLeavesEmpty(rest, departed[1..]);
    }
  }

  // =====================================================================
  // The registry invariant

  /** A registered session: found under its own code, a valid code, with one
      to five members. */
  ghost predicate Registered(s: Session?, code: string)
    reads s
  {
    s != null && s.code == code && Code.IsCode(code)
    && 1 <= |s.members| <= MAX_USERS_PER_SESSION
  }

  /** No empty session is registered, none is over capacity, and the registry
      holds at most MAX_SESSIONS sessions. */
  ghost predicate RegistryInv(reg: Registry)
    reads reg, reg.values.Values
  {
    && reg.Valid()
    && reg.max == MAX_SESSIONS
    && forall code :: code in reg.values ==> Registered(reg.values[code], code)
  }

  // =====================================================================
  // message.go

  const MEMBER_JOINED := 0
  const MEMBER_LEFT := 1

  /** `client.Packet`'s type: text, binary, or any other websocket frame type. */
  datatype FrameType = TextMessage | BinaryMessage | OtherType(code: int)

  datatype Packet = Packet(kind: FrameType, data: Bytes)

  /** `Message`: a chat message; `from` names its sender. */
  datatype ChatMessage = ChatMessage(data: string, from: string)

  /** `ControlMessage`: a join or leave notice naming the member concerned. */
  datatype ControlMessage = ControlMessage(control: int, from: string)

  /** The Go values handed to `json.Marshal` by the handlers. */
  datatype Json = Chat(chat: ChatMessage) | Control(ctl: ControlMessage)

  /** One broadcast: the packet and the members whose clients were handed it, in order. */
  datatype Sent = Sent(packet: Packet, to: seq<Member>)

  /** What `BroadcastJSON(sender, v)` hands out, given `json.Marshal`'s answer. */
  function BroadcastOf(members: seq<Member>, senderId: string, encoded: Result<Bytes>): (s: Option<Sent>)
    ensures s.Some? <==> encoded.Success?
    ensures s.Some? ==> s.value.packet == Packet(TextMessage, encoded.value)
    ensures s.Some? ==> forall m :: m in s.value.to <==> m in members && m.id != senderId
  {
    if encoded.Success? then Some(Sent(Packet(TextMessage, encoded.value), Others(members, senderId)))
    else None
  }

  /** `BroadcastUnsync`: the packet goes to each member whose id is not the
      sender's, in list order; the sender never receives it. */
  method BroadcastUnsync(sender: Member, ses: Session, p: Packet) returns (to: seq<Member>)
    ensures to == Others(ses.members, sender.id)
    ensures forall m :: m in to ==> m.id != sender.id
  {
    to := [];
    for i := 0 to |ses.members|
      invariant to == Others(ses.members[..i], sender.id)
    {
      assert ses.members[..i + 1][..i] == ses.members[..i];
      var member := ses.members[i];
      if member.id != sender.id {
        to := to + [member];
      }
    }
    assert ses.members[..|ses.members|] == ses.members;
  }

  /** `Broadcast`: BroadcastUnsync under the session's read lock. */
  method Broadcast(sender: Member, ses: Session, p: Packet) returns (to: seq<Member>)
    ensures to == Others(ses.members, sender.id)
  {
    to := BroadcastUnsync(sender, ses, p);
  }

  /** `BroadcastJSON`: a marshal error is returned and nothing is broadcast;
      otherwise the encoding is broadcast as a text packet. */
  method BroadcastJSON(sender: Member, ses: Session, v: Json, marshal: Json -> Result<Bytes>)
    returns (err: Option<string>, sent: Option<Sent>)
    ensures marshal(v).Failure? ==> err == Some(marshal(v).error) && sent == None
    ensures marshal(v).Success? ==> err == None
    ensures sent == BroadcastOf(ses.members, sender.id, marshal(v))
  {
    var data := marshal(v);
    if data.Failure? {
      return Some(data.error), None;
    }
    var p := Packet(TextMessage, data.value);
    var to := Broadcast(sender, ses, p);
    err, sent := None, Some(Sent(p, to));
  }

  /** `HandleMessage`: a text packet is decoded, its `from` replaced by the
      sender's id and re-encoded; one that does not decode is dropped. Any
      other packet is broadcast unchanged. */
  method HandleMessage(sender: Member, ses: Session, p: Packet,
                       unmarshal: Bytes -> Option<ChatMessage>, marshal: Json -> Result<Bytes>)
    returns (sent: Option<Sent>)
    ensures p.kind != TextMessage ==> sent == Some(Sent(p, Others(ses.members, sender.id)))
    ensures p.kind == TextMessage && unmarshal(p.data).None? ==> sent == None
    ensures p.kind == TextMessage && unmarshal(p.data).Some? ==>
              sent == BroadcastOf(ses.members, sender.id,
                                  marshal(Chat(ChatMessage(unmarshal(p.data).value.data, sender.id))))
  {
    if p.kind == TextMessage {
      var msg := unmarshal(p.data);
      if msg.None? {
        return None;
      }
      var stamped := ChatMessage(msg.value.data, sender.id);
      var err;
      err, sent := BroadcastJSON(sender, ses, Chat(stamped), marshal);
    } else {
      var to := Broadcast(sender, ses, p);
      sent := Some(Sent(p, to));
    }
  }

  /** Whatever `from` a client puts in its text packet, HandleMessage
      broadcasts the same thing: two text packets whose decoded data agree,
      whatever `from` each claims, are relayed identically, stamped with the
      sender's id. */
  method FromIsOverwritten(sender: Member, ses: Session, p: Packet, q: Packet,
                           unmarshal: Bytes -> Option<ChatMessage>, marshal: Json -> Result<Bytes>)
    returns (sentP: Option<Sent>, sentQ: Option<Sent>)
    requires p.kind == q.kind == TextMessage
    requires unmarshal(p.data).Some? && unmarshal(q.data).Some?
    requires unmarshal(p.data).value.data == unmarshal(q.data).value.data
    ensures sentP == sentQ
    ensures sentP.Some? <==> marshal(Chat(ChatMessage(unmarshal(p.data).value.data, sender.id))).Success?
  {
    sentP := HandleMessage(sender, ses, p, unmarshal, marshal);
    sentQ := HandleMessage(sender, ses, q, unmarshal, marshal);
  }

  // =====================================================================
  // session.go: operations

  /** `JoinSession`: a code that is not registered gives 404 and changes
      nothing; otherwise the session's locked part runs (AddMember). */
  method JoinSession(reg: Registry, code: string, client: string, newId: string,
                     marshal: Json -> Result<Bytes>)
    returns (hs: Handshake, joined: Option<Member>, notice: Option<Sent>)
    requires RegistryInv(reg)
    modifies (if code in reg.values then {reg.values[code]} else {})`members
    ensures RegistryInv(reg) && reg.values == old(reg.values)
    ensures code !in reg.values ==>
              hs == Handshake("", 404, "Could not find session", []) && joined == None && notice == None
    ensures code in reg.values ==>
              (joined.Some? <==> |old(reg.values[code].members)| < MAX_USERS_PER_SESSION)
    ensures code in reg.values && joined.None? ==>
              hs == Handshake("", 507, "Session is full", []) && notice == None
              && reg.values[code].members == old(reg.values[code].members)
    ensures code in reg.values && joined.Some? ==>
              && joined.value == Member(newId, client)
              && reg.values[code].members == old(reg.values[code].members) + [joined.value]
              && hs == Handshake("", 200, "Success", Ids(old(reg.values[code].members)))
              && notice == BroadcastOf(reg.values[code].members, newId,
                                       marshal(Control(ControlMessage(MEMBER_JOINED, newId))))
    ensures code in reg.values && joined.Some? && newId !in Ids(old(reg.values[code].members)) ==>
              && newId !in hs.members
              && (notice.Some? ==> notice.value.to == old(reg.values[code].members))
              && (UniqueIds(old(reg.values[code].members)) ==> UniqueIds(reg.values[code].members))
  {
    var ses, err := reg.Get(code);
    if err != Ok {
      hs := if err == Err(KEY_NOT_FOUND) then Handshake("", 404, "Could not find session", [])
            else Handshake("", 500, "Server Error", []);
      return hs, None, None;
    }
    assert Registered(reg.values[code], code);
    hs, joined, notice := AddMember(reg, code, ses, client, newId, marshal);
  }

  /** The part of `JoinSession` under the session's lock, and the
      MEMBER_JOINED notice that follows: 507 and no change at five members;
      otherwise the newcomer is appended, the handshake lists the ids of the
      members already there, and they are notified. */
  method AddMember(reg: Registry, code: string, ses: Session, client: string, newId: string,
                   marshal: Json -> Result<Bytes>)
    returns (hs: Handshake, joined: Option<Member>, notice: Option<Sent>)
    requires RegistryInv(reg) && code in reg.values && reg.values[code] == ses
    modifies ses`members
    ensures RegistryInv(reg)
    ensures |old(ses.members)| == MAX_USERS_PER_SESSION ==>
              hs == Handshake("", 507, "Session is full", []) && joined == None
              && notice == None && ses.members == old(ses.members)
    ensures |old(ses.members)| < MAX_USERS_PER_SESSION ==>
              && joined == Some(Member(newId, client))
              && ses.members == old(ses.members) + [Member(newId, client)]
              && hs == Handshake("", 200, "Success", Ids(old(ses.members)))
              && notice == BroadcastOf(ses.members, newId, marshal(Control(ControlMessage(MEMBER_JOINED, newId))))
    ensures |old(ses.members)| < MAX_USERS_PER_SESSION && newId !in Ids(old(ses.members)) ==>
              && newId !in hs.members
              && (notice.Some? ==> notice.value.to == old(ses.members))
              && (UniqueIds(old(ses.members)) ==> UniqueIds(ses.members))
  {
    assert Registered(reg.values[code], code);
    if |ses.members| == MAX_USERS_PER_SESSION {
      return Handshake("", 507, "Session is full", []), None, None;
    }
    ghost var before := ses.members;
    var currentMembers := GetMemberIds(ses);
    var newMember := NewMember(newId, client);
    ses.members := ses.members + [newMember];
    hs := Handshake("", 200, "Success", currentMembers);
    joined := Some(newMember);
    var e;
    e, notice := BroadcastJSON(newMember, ses, Control(ControlMessage(MEMBER_JOINED, newMember.id)), marshal);
    forall k | k in reg.values ensures Registered(reg.values[k], k) {
      assert old(Registered(reg.values[k], k));
    }
    if newId !in Ids(before) {
      JoinNotice(before, newMember);
    }
  }

  /** A newcomer with a fresh id is not among the earlier members, is not
      notified of its own arrival, and keeps the ids unique. */
  lemma JoinNotice(before: seq<Member>, newMember: Member)
    requires newMember.id !in Ids(before)
    ensures Others(before + [newMember], newMember.id) == before
    ensures UniqueIds(before) ==> UniqueIds(before + [newMember])
  {
    OthersConcat(before, [newMember], newMember.id);
    OthersUnchanged(before, newMember.id);
    assert Others([newMember], newMember.id) == [];
    forall i | 0 <= i < |before| ensures before[i].id != newMember.id {
      assert Ids(before)[i] == before[i].id;
    }
  }

  /** `RemoveMemberFromSession`: deletes the members with `mem`'s id, keeping
      the others in order; "member not found" and no change when there are
      none; an emptied session is deleted from the registry. The session must
      be the one its code names, or its code must be unregistered. */
  method RemoveMemberFromSession(reg: Registry, ses: Session, mem: Member) returns (err: Option<string>)
    requires RegistryInv(reg)
    requires ses.code in reg.values ==> reg.values[ses.code] == ses
    modifies ses`members, reg`values
    ensures RegistryInv(reg)
    ensures ses.members == Others(old(ses.members), mem.id)
    ensures err.Some? <==> mem.id !in Ids(old(ses.members))
    ensures err.Some? ==>
              err == Some("member not found") && ses.members == old(ses.members) && reg.values == old(reg.values)
    ensures err.None? && ses.members == [] ==> reg.values == old(reg.values) - {ses.code}
    ensures err.None? && ses.members != [] ==> reg.values == old(reg.values)
  {
    var prevLen := |ses.members|;
    ghost var before := ses.members;
    ses.members := Others(ses.members, mem.id);
    OthersUnchanged(before, mem.id);
    if prevLen == |ses.members| {
      return Some("member not found");
    }
    if |ses.members| == 0 {
      reg.Delete(ses.code);
    }
    forall k | k in reg.values ensures Registered(reg.values[k], k) {
      assert k in old(reg.values) && reg.values[k] == old(reg.values[k]);
      assert old(Registered(reg.values[k], k));
    }
    return None;
  }

  /** `HandleClientClose`: removal, then a MEMBER_LEFT notice naming the
      departed member to those who remain; nothing is sent when removal fails. */
  method HandleClientClose(reg: Registry, ses: Session, mem: Member, marshal: Json -> Result<Bytes>)
    returns (err: Option<string>, notice: Option<Sent>)
    requires RegistryInv(reg)
    requires ses.code in reg.values ==> reg.values[ses.code] == ses
    modifies ses`members, reg`values
    ensures RegistryInv(reg)
    ensures ses.members == Others(old(ses.members), mem.id)
    ensures err.Some? <==> mem.id !in Ids(old(ses.members))
    ensures err.Some? ==> notice == None && reg.values == old(reg.values)
    ensures err.None? ==>
              notice == BroadcastOf(ses.members, mem.id, marshal(Control(ControlMessage(MEMBER_LEFT, mem.id))))
    ensures err.None? && notice.Some? ==> notice.value.to == ses.members
    ensures err.None? && ses.members == [] ==> ses.code !in reg.values
    ensures err.None? && ses.members == [] ==> reg.values == old(reg.values) - {ses.code}
    ensures err.None? && ses.members != [] ==> reg.values == old(reg.values)
  {
    err := RemoveMemberFromSession(reg, ses, mem);
    if err.Some? {
      return err, None;
    }
    var e;
    e, notice := BroadcastJSON(mem, ses, Control(ControlMessage(MEMBER_LEFT, mem.id)), marshal);
    OthersIdempotent(old(ses.members), mem.id);
  }

  /** The index of the first draw whose code is not taken. */
  function FirstFree(draws: seq<seq<int>>, taken: set<string>): (j: nat)
    requires forall i :: 0 <= i < |draws| ==> Code.ValidDraws(draws[i])
    requires exists i :: 0 <= i < |draws| && Code.CodeOf(draws[i]) !in taken
    ensures j < |draws| && Code.CodeOf(draws[j]) !in taken
    ensures forall i :: 0 <= i < j ==> Code.CodeOf(draws[i]) in taken
  {
    if Code.CodeOf(draws[0]) !in taken then 0
    else
      assert exists i :: 1 <= i < |draws| && Code.CodeOf(draws[i]) !in taken;
      var i :| 1 <= i < |draws| && Code.CodeOf(draws[i]) !in taken;
      assert Code.CodeOf(draws[1..][i - 1]) !in taken;
      1 + FirstFree(draws[1..], taken)
  }

  /** The code-choosing part of `CreateNewSession`: the creator is the sole
      member; codes are generated until Store stops reporting DUPLICATE_KEY.
      Store succeeds at the first untaken code unless the registry is full,
      which gives 507. The draws must eventually yield an untaken code, or
      the Go loop would not end. */
  method CreateNewSession(reg: Registry, name: string, client: string, memberId: string,
                          draws: seq<seq<int>>)
    returns (hs: Handshake, ses: Session, tries: nat)
    requires RegistryInv(reg)
    requires forall i :: 0 <= i < |draws| ==> Code.ValidDraws(draws[i])
    requires exists i :: 0 <= i < |draws| && Code.CodeOf(draws[i]) !in reg.values
    modifies reg`values
    ensures RegistryInv(reg)
    ensures fresh(ses) && ses.name == name && ses.members == [Member(memberId, client)]
    ensures tries == FirstFree(draws, old(reg.values).Keys) + 1
    ensures var c := Code.CodeOf(draws[tries - 1]);
            if |old(reg.values)| < MAX_SESSIONS then
              reg.values == old(reg.values)[c := ses] && ses.code == c
              && hs == Handshake(c, 200, "Success", [])
            else
              reg.values == old(reg.values) && ses.code == ""
              && hs == Handshake("", 507, "Server is full", [])
  {
    ses := new Session(name, "");
    var newMember := NewMember(memberId, client);
    ses.members := ses.members + [newMember];
    ghost var first := FirstFree(draws, reg.values.Keys);
    var i := 0;
    while true
      invariant 0 <= i <= first
      invariant reg.values == old(reg.values) && RegistryInv(reg)
      invariant fresh(ses) && ses.name == name && ses.code == "" && ses.members == [newMember]
      decreases first - i
    {
      var sessionCode := Code.Generate(draws[i]);
      var err := reg.Store(sessionCode, ses);
      if err == Ok {
        ses.code := sessionCode;
        hs := Handshake(sessionCode, 200, "Success", []);
        break;
      } else if err == Err(DUPLICATE_KEY) {
        i := i + 1;
      } else {
        hs := if err == Err(MAX_CAPACITY) then Handshake("", 507, "Server is full", [])
              else Handshake("", 500, "Server Error", []);
        break;
      }
    }
    tries := i + 1;
    forall k | k in reg.values ensures Registered(reg.values[k], k) {
      if reg.values[k] != ses {
        assert k in old(reg.values) && reg.values[k] == old(reg.values[k]);
        assert old(Registered(reg.values[k], k));
      }
    }
  }

  // =====================================================================
  // The integration test's scenario

  /** The ids of a list with one more member at the end. */
  lemma IdsSnoc(members: seq<Member>, m: Member)
    ensures Ids(members + [m]) == Ids(members) + [m.id]
  {
    assert (members + [m])[..|members|] == members;
  }

  /** One join of the scenario below, seen through the status, the
      handshake's member list and the session's ids. */
  method JoinStatus(reg: Registry, code: string, ses: Session, client: string, newId: string,
                    marshal: Json -> Result<Bytes>)
    returns (status: int, listed: seq<string>)
    requires RegistryInv(reg) && code in reg.values && reg.values[code] == ses
    modifies ses`members
    ensures RegistryInv(reg) && reg.values == old(reg.values)
    ensures |old(ses.members)| < MAX_USERS_PER_SESSION ==>
              status == 200 && listed == Ids(old(ses.members))
              && Ids(ses.members) == listed + [newId] && |ses.members| == |old(ses.members)| + 1
    ensures |old(ses.members)| >= MAX_USERS_PER_SESSION ==>
              status == 507 && listed == [] && ses.members == old(ses.members)
  {
    var hs, joined, notice := JoinSession(reg, code, client, newId, marshal);
    status, listed := hs.statusCode, hs.members;
    if joined.Some? {
      IdsSnoc(old(ses.members), joined.value);
    }
  }

  /** The scenario's first step: on an empty registry, create "Party". */
  method CreateParty(draws: seq<int>) returns (reg: Registry, ses: Session, hs: Handshake)
    requires Code.ValidDraws(draws)
    ensures RegistryInv(reg) && reg.values == map[hs.sessionCode := ses]
    ensures hs == Handshake(Code.CodeOf(draws), 200, "Success", [])
    ensures Ids(ses.members) == ["member0"] && |ses.members| == 1
    ensures fresh(ses)
  {
    reg := new Pool<string, Session?>(MAX_SESSIONS);
    assert [draws][0] == draws && Code.CodeOf([draws][0]) !in reg.values;
    var tries;
    hs, ses, tries := CreateNewSession(reg, "Party", "client0", "member0", [draws]);
  }

  /** On an empty registry: create "Party", join its code four times (five
      members), then once more. Each successful join's handshake lists the
      members that were already there; the refused one lists nobody. */
  method CreateThenJoinPastCapacity(draws: seq<int>, marshal: Json -> Result<Bytes>)
    returns (statuses: seq<int>, listed: seq<seq<string>>, code: string, size: int)
    requires Code.ValidDraws(draws)
    ensures statuses == [200, 200, 200, 200, 200, 507]
    ensures listed == [[], ["member0"], ["member0", "member1"], ["member0", "member1", "member2"],
                       ["member0", "member1", "member2", "member3"], []]
    ensures code == Code.CodeOf(draws) && size == MAX_USERS_PER_SESSION
  {
    var reg, ses, hs := CreateParty(draws);
    code := hs.sessionCode;
    var st1, ids1 := JoinStatus(reg, code, ses, "client1", "member1", marshal);
    assert st1 == 200 && ids1 == ["member0"] && |ses.members| == 2;
    assert Ids(ses.members) == ["member0", "member1"];
    var st2, ids2 := JoinStatus(reg, code, ses, "client2", "member2", marshal);
    assert st2 == 200 && |ses.members| == 3;
    assert Ids(ses.members) == ["member0", "member1", "member2"];
    var st3, ids3 := JoinStatus(reg, code, ses, "client3", "member3", marshal);
    assert st3 == 200 && |ses.members| == 4;
    assert Ids(ses.members) == ["member0", "member1", "member2", "member3"];
    var st4, ids4 := JoinStatus(reg, code, ses, "client4", "member4", marshal);
    assert st4 == 200 && |ses.members| == 5;
    var st5, ids5 := JoinStatus(reg, code, ses, "client5", "member5", marshal);
    statuses := [hs.statusCode, st1, st2, st3, st4, st5];
    listed := [hs.members, ids1, ids2, ids3, ids4, ids5];
    size := |ses.members|;
  }
}
