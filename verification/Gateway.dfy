// gateway: parses what maintenance terminals send and forwards commands to
// locator; writes acknowledgements back (gateway/main.cpp).
module Gateways {
  import opened Wire
  import opened Framing
  import opened StreamBuffers
  import opened TcpServers
  import opened MessageQueues
  import opened Processes

  // What handing one frame to the handler puts on locator's queue.
  function ForwardedFrom(f: Bytes): seq<Envelope> {
    if RequestCheck(f) == Ok then [Envelope(IDX_LOCATOR, IpcLockRequest(0, RequestOf(f)))] else []
  }

  function Forwarded(frames: seq<Bytes>): seq<Envelope> {
    if frames == [] then [] else ForwardedFrom(frames[0]) + Forwarded(frames[1..])
  }

  // One envelope for each LockRequest among the frames, in order.
  lemma {:induction false} ForwardedMeansRequests(frames: seq<Bytes>)
    ensures |Forwarded(frames)| == |Requests(frames)|
    ensures forall i | 0 <= i < |Requests(frames)| ::
              Forwarded(frames)[i] == Envelope(IDX_LOCATOR, IpcLockRequest(0, Requests(frames)[i]))
  {
    if frames != [] {
      ForwardedMeansRequests(frames[1..]);
    }
  }

  // The connection's bytes have all been drained down to less than a frame.
  predicate Drained(data: Bytes) {
    NextCut(data) == NeedMore
  }

  // Between drains less than one maximal message is pending, and right after
  // an append at most one more read on top of that.
  lemma PendingIsBounded(data: Bytes, chunk: Bytes)
    requires Drained(data) && |chunk| <= READ_CHUNK
    ensures |data| <= 1023 && |data + chunk| <= 2047
    ensures |Parse(data + chunk).residue| <= 1023
  {
    DrainBound(data + chunk);
  }

  // The frames of a connection are numbered; lost(k) says that frame k, if it
  // is a request, does not get to locator's queue. Kept leaves those out.
  function Kept(frames: seq<Bytes>, from: nat, lost: nat -> bool): seq<Bytes> {
    if frames == [] then []
    else (if lost(from) then [] else [frames[0]]) + Kept(frames[1..], from + 1, lost)
  }

  lemma {:induction false} KeptAppend(a: seq<Bytes>, b: seq<Bytes>, from: nat, lost: nat -> bool)
    ensures Kept(a + b, from, lost) == Kept(a, from, lost) + Kept(b, from + |a|, lost)
  {
    if a == [] {
      assert a + b == b;
    } else {
      var first := if lost(from) then [] else [a[0]];
      assert (a + b)[0] == a[0] && (a + b)[1..] == a[1..] + b;
      KeptAppend(a[1..], b, from + 1, lost);
      AppendInTurn(first, Kept(a[1..], from + 1, lost), Kept(b, from + |a|, lost));
    }
  }

  lemma {:induction false} KeptAll(frames: seq<Bytes>, from: nat, lost: nat -> bool)
    requires forall k: nat | from <= k < from + |frames| :: !lost(k)
    ensures Kept(frames, from, lost) == frames
  {
    if frames != [] {
      KeptAll(frames[1..], from + 1, lost);
    }
  }

  // What draining this buffer puts on the queue, when its first frame is
  // number from.
  function ToForward(data: Bytes, from: nat, lost: nat -> bool): seq<Envelope> {
    Forwarded(Kept(Parse(data).frames, from, lost))
  }

  lemma ForwardPass(data: Bytes, from: nat, lost: nat -> bool)
    requires NextCut(data) != NeedMore
    ensures HeaderCheck(Front(data)) != Ok ==> ToForward(data, from, lost) == ForwardedFrom(Front(data)) == []
    ensures HeaderCheck(Front(data)) == Ok ==>
              ToForward(data, from, lost)
              == (if lost(from) then [] else ForwardedFrom(Front(data)))
                 + ToForward(data[|Front(data)|..], from + 1, lost)
  {
    DrainPass(data);
    if HeaderCheck(Front(data)) == Ok {
      var frames, rest := Parse(data).frames, Kept(Parse(data[|Front(data)|..]).frames, from + 1, lost);
      assert frames[1..] == Parse(data[|Front(data)|..]).frames;
      if lost(from) {
        assert [] + rest == rest;
      } else {
        assert ([frames[0]] + rest)[1..] == rest;
      }
    }
  }

  function PassedOn(msg: Bytes, lost: bool): seq<Envelope> {
    if lost then [] else ForwardedFrom(msg)
  }

  lemma {:induction false} ForwardedAppend(a: seq<Bytes>, b: seq<Bytes>)
    ensures Forwarded(a + b) == Forwarded(a) + Forwarded(b)
  {
    if a == [] {
      assert a + b == b;
    } else {
      var first, rest, last := ForwardedFrom(a[0]), Forwarded(a[1..]), Forwarded(b);
      assert (a + b)[0] == a[0] && (a + b)[1..] == a[1..] + b;
      ForwardedAppend(a[1..], b);
      AppendInTurn(first, rest, last);
    }
  }

  // What gateway and the queues look like between two steps.
  datatype GatewayView = GatewayView(client: bool, rx: Bytes, mail: seq<Envelope>)

  // What a drain of this buffer leaves.
  function AfterDrain(mail: seq<Envelope>, data: Bytes, from: nat, lost: nat -> bool): GatewayView {
    GatewayView(Parse(data).open, Parse(data).residue, mail + ToForward(data, from, lost))
  }

  lemma DrainEnds(mail: seq<Envelope>, data: Bytes, from: nat, lost: nat -> bool)
    requires NextCut(data) == NeedMore
    ensures AfterDrain(mail, data, from, lost) == GatewayView(true, data, mail)
  {
    AppendInTurn(mail, [], []);
  }

  // One pass of the drain loop.
  lemma DrainGoesOn(mail: seq<Envelope>, data: Bytes, from: nat, lost: nat -> bool)
    requires NextCut(data) != NeedMore
    ensures var later := mail + PassedOn(Front(data), lost(from));
            AfterDrain(mail, data, from, lost)
            == if HeaderCheck(Front(data)) != Ok then GatewayView(false, [], later)
               else AfterDrain(later, data[|Front(data)|..], from + 1, lost)
  {
    DrainPass(data);
    ForwardPass(data, from, lost);
    if HeaderCheck(Front(data)) == Ok {
      AppendInTurn(mail, PassedOn(Front(data), lost(from)), ToForward(data[|Front(data)|..], from + 1, lost));
    }
  }

  // Frame k of the connection cannot be passed on: locator is not running, or
  // msgsnd refuses it.
  function Lost(up: bool, refused: nat -> bool): nat -> bool {
    (k: nat) => !up || refused(k)
  }

  // The drain loop as a recursion: one pass, then the rest. up: locator's
  // queue exists; refused(k): msgsnd refuses frame k.
  function DrainLoop(mail: seq<Envelope>, data: Bytes, from: nat, up: bool, refused: nat -> bool): GatewayView
    decreases |data|
  {
    if NextCut(data) == NeedMore then GatewayView(true, data, mail)
    else
      var later := mail + PassedOn(Front(data), !up || refused(from));
      if HeaderCheck(Front(data)) != Ok then GatewayView(false, [], later)
      else DrainLoop(later, data[|Front(data)|..], from + 1, up, refused)
  }

  lemma LoopPass(mail: seq<Envelope>, data: Bytes, from: nat, up: bool, refused: nat -> bool)
    requires NextCut(data) != NeedMore
    ensures var later := mail + PassedOn(Front(data), !up || refused(from));
            DrainLoop(mail, data, from, up, refused)
            == if HeaderCheck(Front(data)) != Ok then GatewayView(false, [], later)
               else DrainLoop(later, data[|Front(data)|..], from + 1, up, refused)
  {
  }

  lemma {:induction false} LoopIsAfterDrain(mail: seq<Envelope>, data: Bytes, from: nat, up: bool, refused: nat -> bool)
    ensures DrainLoop(mail, data, from, up, refused) == AfterDrain(mail, data, from, Lost(up, refused))
    decreases |data|
  {
    var lost := Lost(up, refused);
    if NextCut(data) == NeedMore {
      DrainEnds(mail, data, from, lost);
    } else {
      DrainGoesOn(mail, data, from, lost);
      if HeaderCheck(Front(data)) == Ok {
        LoopIsAfterDrain(mail + PassedOn(Front(data), lost(from)), data[|Front(data)|..], from + 1, up, refused);
      }
    }
  }

  // One on_idle: a waiting connection is accepted first, then one read is
  // handled. from is the number of the first frame it may complete.
  function AfterGatewayIdle(v: GatewayView, from: nat, lost: nat -> bool, accepted: bool, input: Received): GatewayView {
    var w := if accepted then v.(client := true, rx := []) else v;
    if !w.client then w
    else
      match input
      case Data(bytes) =>
        var s := w.rx + bytes;
        AfterDrain(w.mail, s, from, lost)
      case EndOfFile => w.(client := false, rx := [])
      case Broken => w.(client := false, rx := [])
      case _ => w
  }

  class Gateway {
    const tcp: TcpServer
    const rx: StreamBuffer
    const kernel: Kernel

    ghost predicate Valid()
      reads rx
    {
      tcp.listening && Drained(rx.data)
    }

    ghost function Seen(): GatewayView
      reads tcp, rx, kernel
    {
      GatewayView(tcp.client, rx.data, kernel.mail)
    }

    constructor (kernel: Kernel)
      ensures fresh(tcp) && fresh(rx) && this.kernel == kernel
      ensures Valid() && !tcp.client && rx.data == []
    {
      tcp := new TcpServer(true);
      rx := new StreamBuffer();
      this.kernel := kernel;
    }

    // refused: msgsnd fails.
    method HandleFromMaint(buf: Bytes, refused: bool) returns (sev: Severity)
      modifies kernel
      ensures kernel.up == old(kernel.up)
      ensures sev == if HeaderCheck(buf) != Ok then SevStream else SevMessage
      ensures kernel.mail == old(kernel.mail) +
              PassedOn(buf, IDX_LOCATOR !in kernel.up || refused)
    {
      var e, h := UnpackHeader(buf);
      if e != Ok {
        return SevStream;
      }
      if h.code != CODE_LOCK_REQUEST {
        return SevMessage;
      }
      var request;
      e, request := UnpackLockRequest(buf);
      if e != Ok {
        return SevMessage;
      }
      var ok := kernel.SendTo(IDX_LOCATOR, IpcLockRequest(0, request), refused);
      return SevMessage;
    }

    // One pass of the drain loop: the handler, the consume and, on a broken
    // stream, the end of the connection.
    method Pass(msg: Bytes, refused: bool) returns (stays: bool)
      requires tcp.client && |msg| <= |rx.data|
      modifies tcp, rx, kernel
      ensures kernel.up == old(kernel.up)
      ensures kernel.mail == old(kernel.mail) + PassedOn(msg, IDX_LOCATOR !in kernel.up || refused)
      ensures stays <==> HeaderCheck(msg) == Ok
      ensures tcp.client == stays && rx.data == if stays then old(rx.data)[|msg|..] else []
    {
      var sev := HandleFromMaint(msg, refused);
      rx.Consume(|msg|);
      stays := sev != SevStream;
      if !stays {
        tcp.DropClient();
        rx.Reset();
      }
    }

    // The drain loop of on_idle. passes counts its iterations; from is the
    // number of the first frame.
    method Drain(from: nat, refused: nat -> bool) returns (ghost passes: nat)
      requires tcp.client
      modifies tcp, rx, kernel
      ensures kernel.up == old(kernel.up)
      ensures Seen() == DrainLoop(old(kernel.mail), old(rx.data), from, IDX_LOCATOR in kernel.up, refused)
      ensures HEADER_SIZE * passes <= |old(rx.data)|
    {
      passes := 0;
      var frame := from;
      ghost var up := IDX_LOCATOR in kernel.up;
      ghost var goal := DrainLoop(kernel.mail, rx.data, from, up, refused);
      var found, msg := rx.Next();
      while found
        invariant found <==> NextCut(rx.data) != NeedMore
        invariant found ==> msg == Front(rx.data)
        invariant tcp.client && kernel.up == old(kernel.up)
        invariant goal == DrainLoop(kernel.mail, rx.data, frame, up, refused)
        invariant HEADER_SIZE * passes + |rx.data| <= |old(rx.data)|
        decreases |rx.data|
      {
        LoopPass(kernel.mail, rx.data, frame, up, refused);
        ghost var later := kernel.mail + PassedOn(msg, !up || refused(frame));
        ghost var next := DrainLoop(later, rx.data[|msg|..], frame + 1, up, refused);
        var stays := Pass(msg, refused(frame));
        assert kernel.mail == later;
        passes := passes + 1;
        if !stays {
          return;
        }
        assert goal == next;
        frame := frame + 1;
        found, msg := rx.Next();
      }
    }

    // One pass of the socket side: accept, read, drain.
    method OnIdle(pending: bool, input: Received, from: nat, refused: nat -> bool) returns (ghost passes: nat)
      requires Valid()
      requires input.Data? ==> 0 < |input.bytes| <= READ_CHUNK
      modifies tcp, rx, kernel
      ensures Valid() && kernel.up == old(kernel.up)
      ensures Seen() == AfterGatewayIdle(old(Seen()), from, Lost(IDX_LOCATOR in kernel.up, refused), pending, input)
      ensures HEADER_SIZE * passes <= |old(rx.data)| + if input.Data? then |input.bytes| else 0
    {
      passes := 0;
      var accepted := tcp.PollAccept(pending);
      if accepted {
        rx.Reset();
      }
      var n, chunk := tcp.PollRead(input, READ_CHUNK);
      if n < 0 {
        rx.Reset();
        return;
      }
      if n == 0 {
        return;
      }
      rx.Append(chunk);
      ParseDecomposes(rx.data);
      LoopIsAfterDrain(kernel.mail, rx.data, from, IDX_LOCATOR in kernel.up, refused);
      passes := Drain(from, refused);
    }

    // The queue side: an acknowledgement on its way to the maintenance
    // terminal. data.IpcLockResponse? is the size check.
    method OnLockResponse(data: Ipc, answers: nat -> SendResult, ghost calm: nat)
      returns (sev: Severity, ghost sent: nat)
      requires forall k: nat | k >= calm :: answers(k) != SendInterrupted && answers(k) != WouldBlock
      modifies tcp
      ensures sev == SevMessage
      ensures !data.IpcLockResponse? || !old(tcp.client) ==>
                sent == 0 && tcp.wire == old(tcp.wire) && tcp.client == old(tcp.client)
      ensures data.IpcLockResponse? && old(tcp.client) ==>
                && sent <= RESPONSE_SIZE && tcp.wire == old(tcp.wire) + EncodeResponse(data.response)[..sent]
                && (tcp.client <==> sent == RESPONSE_SIZE) && (tcp.client <==> TakesAll(answers, RESPONSE_SIZE))
                && (!tcp.client ==> exists k :: Refuses(answers(k)) && NoRefusal(answers, k) && sent == Offered(answers, k))
    {
      sev, sent := SevMessage, 0;
      if SizeOf(data) != 8 + RESPONSE_SIZE {
        return;
      }
      if !tcp.client {
        return;
      }
      var out := new byte[MAX_MESSAGE_LEN];
      var n := PackLockResponse(Little, data.response, out);
      var ok;
      assert out[..n] == EncodeResponse(data.response);
      ok, sent := tcp.Send(out[..n], answers, calm);
    }
  }

  // ---- a whole connection ----

  // from is the number of the next frame of the connection.
  function AfterInputs(v: GatewayView, from: nat, lost: nat -> bool, inputs: seq<Received>): GatewayView
    decreases |inputs|
  {
    if inputs == [] then v
    else AfterInputs(AfterGatewayIdle(v, from, lost, false, inputs[0]), from + NewFrames(v, inputs[0]), lost, inputs[1..])
  }

  // How many frames this read completes.
  function NewFrames(v: GatewayView, input: Received): nat {
    if v.client && input.Data? then |Parse(v.rx + input.bytes).frames| else 0
  }

  function Chunk(input: Received): Bytes {
    if input.Data? then input.bytes else []
  }

  function Chunks(inputs: seq<Received>): seq<Bytes> {
    if inputs == [] then [] else [Chunk(inputs[0])] + Chunks(inputs[1..])
  }

  function ViewOf(c: Session, mail: seq<Envelope>, lost: nat -> bool): GatewayView {
    GatewayView(c.open, c.pending, mail + Forwarded(Kept(c.frames, 0, lost)))
  }

  lemma IdleFeeds(c: Session, mail: seq<Envelope>, lost: nat -> bool, input: Received)
    requires Settled(c) && !input.EndOfFile? && !input.Broken?
    ensures var v := ViewOf(c, mail, lost);
            && AfterGatewayIdle(v, |c.frames|, lost, false, input) == ViewOf(Feed(c, Chunk(input)), mail, lost)
            && |Feed(c, Chunk(input)).frames| == |c.frames| + NewFrames(v, input)
  {
    if !input.Data? {
      FeedNothing(c);
    } else if c.open {
      var frames := Parse(c.pending + input.bytes).frames;
      KeptAppend(c.frames, frames, 0, lost);
      ForwardedAppend(Kept(c.frames, 0, lost), Kept(frames, |c.frames|, lost));
      AppendInTurn(mail, Forwarded(Kept(c.frames, 0, lost)), Forwarded(Kept(frames, |c.frames|, lost)));
    }
  }

  lemma {:induction false} InputsFeed(c: Session, mail: seq<Envelope>, lost: nat -> bool, inputs: seq<Received>)
    requires Settled(c) && forall i | 0 <= i < |inputs| :: !inputs[i].EndOfFile? && !inputs[i].Broken?
    ensures AfterInputs(ViewOf(c, mail, lost), |c.frames|, lost, inputs) == ViewOf(FeedAll(c, Chunks(inputs)), mail, lost)
    decreases |inputs|
  {
    if inputs != [] {
      IdleFeeds(c, mail, lost, inputs[0]);
      FeedSettles(c, Chunk(inputs[0]));
      InputsFeed(Feed(c, Chunk(inputs[0])), mail, lost, inputs[1..]);
      assert Chunks(inputs)[1..] == Chunks(inputs[1..]);
    }
  }

  // From accept on, however the connection's bytes are cut into reads and
  // however many empty reads come between them, gateway forwards exactly those
  // LockRequests of the one-shot parse of the whole stream whose send does not
  // fail, keeps or drops the connection as it says, and is left with its
  // residue.
  lemma ConnectionIsParsed(v: GatewayView, lost: nat -> bool, inputs: seq<Received>)
    requires v.client && v.rx == [] && forall i | 0 <= i < |inputs| :: !inputs[i].EndOfFile? && !inputs[i].Broken?
    ensures var p := Parse(Concat(Chunks(inputs)));
            && AfterInputs(v, 0, lost, inputs) == GatewayView(p.open, p.residue, v.mail + Forwarded(Kept(p.frames, 0, lost)))
            && ((forall k: nat | k < |p.frames| :: !lost(k)) ==> Kept(p.frames, 0, lost) == p.frames)
  {
    assert v.mail + [] == v.mail;
    InputsFeed(FRESH, v.mail, lost, inputs);
    ChunkingIsIrrelevant(Chunks(inputs));
    var frames := Parse(Concat(Chunks(inputs))).frames;
    if forall k: nat | k < |frames| :: !lost(k) {
      KeptAll(frames, 0, lost);
    }
  }
}
