/** Package `client`: one connection's lifecycle (internal/pkg/client/client.go).
    The websocket, the goroutines and the mutex are not modelled; each method is
    one atomic step. What the connection and the callbacks observe is recorded
    in ghost logs: `accepted` (every packet put on the send channel), `written`
    (what the writer loop handed to the transport), `handled` (the frames given
    to handleMessage) and `closeCalls` (invocations of handleClose). */
module Client {
  import opened Base

  /** Capacity of the `send` channel. */
  const SEND_CAPACITY := 15

  /** What one `conn.ReadMessage` call yields. */
  datatype Inbound = Frame(data: Bytes) | CloseFrame | ReadError

  /** The frames handleMessage is called with: those before the first close frame or error. */
  function Delivered(frames: seq<Inbound>): (r: seq<Bytes>)
    ensures |r| <= |frames|
    ensures forall i :: 0 <= i < |r| ==> frames[i] == Frame(r[i])
    ensures |r| < |frames| ==> !frames[|r|].Frame?
  {
    if frames == [] || !frames[0].Frame? then [] else [frames[0].data] + Delivered(frames[1..])
  }

  /** Whether the read loop meets a close frame or a read error among `frames`. */
  predicate Stops(frames: seq<Inbound>) {
    exists i :: 0 <= i < |frames| && !frames[i].Frame?
  }

  class Client {
    const cid: string
    const sid: string
    /** Go's `open` field. */
    var open: bool
    /** `close(c.send)` (and `conn.Close()`) has happened. */
    var sendClosed: bool
    /** Packets buffered in `send`, oldest first. */
    var queue: seq<Bytes>
    ghost var accepted: seq<Bytes>
    ghost var written: seq<Bytes>
    ghost var handled: seq<Bytes>
    ghost var closeCalls: nat

    /** The three states: unstarted (nothing has happened), open, and closed
        (terminal; handleClose has been called exactly once). The writer loop
        hands over packets in the order they were accepted. */
    ghost predicate Valid()
      reads this
    {
      && |queue| <= SEND_CAPACITY
      && !(open && sendClosed)
      && (!open && !sendClosed ==> queue == [] && accepted == [] && written == [] && handled == [])
      && closeCalls == (if sendClosed then 1 else 0)
      && written + queue == accepted
    }

    ghost predicate Unstarted() reads this { !open && !sendClosed }
    ghost predicate Closed() reads this { sendClosed }

    /** `NewClient` after a successful upgrade: not open, nothing queued.
        The CID comes from `uuid.NewString`. */
    constructor (cid: string, sid: string)
      ensures Valid() && Unstarted()
      ensures this.cid == cid && this.sid == sid && queue == []
    {
      this.cid := cid;
      this.sid := sid;
      open := false;
      sendClosed := false;
      queue := [];
      accepted := [];
      written := [];
      handled := [];
      closeCalls := 0;
    }

    /** `Start`, with the guard the lifecycle needs: a no-op when open or
        already closed. From the unstarted state a non-nil initial message is
        the first packet on the channel, so it precedes every later Write. */
    method Start(msg: Option<Bytes>)
      requires Valid()
      modifies this
      ensures Valid()
      ensures old(open) || old(sendClosed) ==>
                open == old(open) && sendClosed == old(sendClosed) && queue == old(queue)
                && accepted == old(accepted) && closeCalls == old(closeCalls)
      ensures old(Unstarted()) ==> open && !sendClosed
      ensures old(Unstarted()) ==> accepted == queue == (if msg.Some? then [msg.value] else [])
      ensures written == old(written) && handled == old(handled)
    {
      if open || sendClosed {
        return;
      }
      // the listener and writer goroutines start here
      if msg.Some? {
        queue := queue + [msg.value];
        accepted := accepted + [msg.value];
      }
      open := true;
    }

    /** `Start` as written: a client that was ended is not open, so Start goes
        ahead. A non-nil message is then sent on the closed channel (a panic;
        nothing changes), and a nil one re-opens the client over a closed
        channel. */
    method StartAsWritten(msg: Option<Bytes>) returns (panicked: bool)
      requires Valid()
      modifies this
      ensures panicked <==> !old(open) && old(sendClosed) && msg.Some?
      ensures old(open) || panicked ==>
                open == old(open) && queue == old(queue) && accepted == old(accepted)
      ensures !old(open) && !panicked ==> open
      ensures !old(open) && !panicked ==> accepted == old(accepted) + (if msg.Some? then [msg.value] else [])
      ensures !old(open) && !panicked ==> queue == old(queue) + (if msg.Some? then [msg.value] else [])
      ensures sendClosed == old(sendClosed) && closeCalls == old(closeCalls)
      ensures written == old(written) && handled == old(handled)
    {
      panicked := false;
      if open {
        return;
      }
      if msg.Some? {
        if sendClosed {
          panicked := true;
          return;
        }
        queue := queue + [msg.value];
        accepted := accepted + [msg.value];
      }
      open := true;
    }

    /** `Write`: enqueues the whole packet while open; otherwise 0 and an error.
        A full channel blocks the caller in Go; here it is excluded. */
    method Write(p: Bytes) returns (n: int, err: Option<string>)
      requires Valid()
      requires open ==> |queue| < SEND_CAPACITY
      modifies this
      ensures Valid()
      ensures open == old(open) && sendClosed == old(sendClosed) && closeCalls == old(closeCalls)
      ensures old(open) ==> n == |p| && err == None
      ensures old(open) ==> queue == old(queue) + [p] && accepted == old(accepted) + [p]
      ensures !old(open) ==> n == 0 && err == Some("client has been closed")
      ensures !old(open) ==> queue == old(queue) && accepted == old(accepted)
      ensures written == old(written) && handled == old(handled)
    {
      if open {
        queue := queue + [p];
        accepted := accepted + [p];
        return |p|, None;
      }
      return 0, Some("client has been closed");
    }

    /** `End`: a no-op unless open; otherwise closes the connection and the
        channel and calls handleClose. The connection is closed before the
        channel, so packets still buffered are handed by the writer to a
        closed connection: `written` records the writer's WriteMessage calls,
        not deliveries. Likewise the listener may still see data frames after
        End, and `Listener` handles them. */
    method End()
      requires Valid()
      modifies this
      ensures Valid()
      ensures !old(open) ==>
                open == old(open) && sendClosed == old(sendClosed) && closeCalls == old(closeCalls)
      ensures old(open) ==> !open && sendClosed && closeCalls == old(closeCalls) + 1
      ensures queue == old(queue) && accepted == old(accepted)
      ensures written == old(written) && handled == old(handled)
    {
      if !open {
        return;
      }
      open := false;
      sendClosed := true;
      closeCalls := closeCalls + 1;
    }

    /** The `writer` loop, run until the channel is empty: it hands the
        buffered packets to the transport oldest first, and has exited
        exactly when the channel was closed. */
    method Writer() returns (out: seq<Bytes>, exited: bool)
      requires Valid()
      requires open || sendClosed
      modifies this
      ensures Valid()
      ensures out == old(queue)
      ensures written == old(written) + out && queue == []
      ensures exited == sendClosed
      ensures open == old(open) && sendClosed == old(sendClosed) && closeCalls == old(closeCalls)
      ensures accepted == old(accepted) && handled == old(handled)
    {
      out := [];
      while queue != []
        invariant Valid()
        invariant written == old(written) + out
        invariant out + queue == old(queue)
        invariant open == old(open) && sendClosed == old(sendClosed) && closeCalls == old(closeCalls)
        invariant accepted == old(accepted) && handled == old(handled)
        decreases |queue|
      {
        var p := queue[0];
        out := out + [p];
        written := written + [p];
        queue := queue[1..];
      }
      exited := sendClosed;
    }

    /** The `listener` loop over the frames that arrive: handleMessage once per
        frame in arrival order until a close frame or read error, then End.
        If every frame is a data frame the loop is still waiting afterwards. */
    method Listener(frames: seq<Inbound>) returns (stopped: bool)
      requires Valid()
      requires open || sendClosed
      modifies this
      ensures Valid()
      ensures handled == old(handled) + Delivered(frames)
      ensures stopped == Stops(frames)
      ensures stopped && old(open) ==> !open && sendClosed && closeCalls == old(closeCalls) + 1
      ensures !(stopped && old(open)) ==>
                open == old(open) && sendClosed == old(sendClosed) && closeCalls == old(closeCalls)
      ensures queue == old(queue) && accepted == old(accepted) && written == old(written)
    {
      var i := 0;
      while i < |frames|
        invariant 0 <= i <= |frames|
        invariant Valid()
        invariant forall j :: 0 <= j < i ==> frames[j].Frame?
        invariant handled == old(handled) + Delivered(frames[..i])
        invariant open == old(open) && sendClosed == old(sendClosed) && closeCalls == old(closeCalls)
        invariant queue == old(queue) && accepted == old(accepted) && written == old(written)
      {
        if !frames[i].Frame? {
          DeliveredStopsAt(frames, i);
          assert Stops(frames);
          End();
          return true;
        }
        DeliveredSnoc(frames[..i], frames[i].data);
        assert frames[..i+1] == frames[..i] + [frames[i]];
        handled := handled + [frames[i].data];
        i := i + 1;
      }
      assert frames[..i] == frames;
      return false;
    }
  }

  /** Nothing after the first close frame or error is delivered. */
  lemma {:induction false} DeliveredStopsAt(frames: seq<Inbound>, i: nat)
    requires i < |frames| && !frames[i].Frame?
    requires forall j :: 0 <= j < i ==> frames[j].Frame?
    ensures Delivered(frames) == Delivered(frames[..i])
  {
    if i > 0 {
      assert frames[..i][1..] == frames[1..][..i-1];
      DeliveredStopsAt(frames[1..], i - 1);
    }
  }

  lemma {:induction false} DeliveredSnoc(frames: seq<Inbound>, d: Bytes)
    requires forall j :: 0 <= j < |frames| ==> frames[j].Frame?
    ensures Delivered(frames + [Frame(d)]) == Delivered(frames) + [d]
  {
    if frames != [] {
      assert (frames + [Frame(d)])[1..] == frames[1..] + [Frame(d)];
      DeliveredSnoc(frames[1..], d);
    }
  }

  /** Start, two Writes and the writer loop: the initial message reaches the
      transport before any written packet, and the rest keep their order. */
  method HandshakeComesFirst(handshake: Bytes, a: Bytes, b: Bytes) returns (out: seq<Bytes>)
    ensures out == [handshake, a, b]
  {
    var c := new Client("cid", "sid");
    c.Start(Some(handshake));
    var n, err := c.Write(a);
    n, err := c.Write(b);
    var exited;
    out, exited := c.Writer();
  }

  /** Start as written, after End: the initial message is sent on the closed
      channel. */
  method StartAfterEndSendsOnClosedChannel(first: Bytes, again: Bytes) returns (panicked: bool)
    ensures panicked
  {
    var c := new Client("cid", "sid");
    c.Start(Some(first));
    c.End();
    panicked := c.StartAsWritten(Some(again));
  }

  /** With the guard, Start after End leaves the client closed: it is not
      re-opened and a later Write is refused. */
  method StartAfterEndIsRefused(first: Bytes, again: Bytes, later: Bytes)
    returns (reopened: bool, n: int, err: Option<string>)
    ensures !reopened && n == 0 && err.Some?
  {
    var c := new Client("cid", "sid");
    c.Start(Some(first));
    c.End();
    c.Start(Some(again));
    reopened := c.open;
    n, err := c.Write(later);
  }
}
