// The socket workers of the two screens, without Qt: the vehicle terminal's
// (term_gui/comm_worker.cpp) and the maintenance screen's
// (maint_gui/maint_worker.cpp).
module Workers {
  import opened Wire
  import opened Framing
  import opened StreamBuffers

  // Sequence numbers count the commands, modulo 2^16, from 1.
  predicate Numbered(sent: seq<LockRequest>, next: uint16) {
    && next == (1 + |sent|) % 0x1_0000
    && forall i | 0 <= i < |sent| :: sent[i].header.seqNo == (1 + i) % 0x1_0000
  }

  // Until a write falls short, the connection carries whole frames.
  ghost predicate LineOk(wire: Bytes, frames: seq<Bytes>, cut: bool) {
    AllWellFormed(frames) && (!cut ==> wire == Concat(frames))
  }

  lemma LineAfterWrite(wire: Bytes, frames: seq<Bytes>, cut: bool, request: LockRequest, n: nat)
    requires LineOk(wire, frames, cut) && n <= REQUEST_SIZE && RequestCheck(EncodeRequest(request)) == Ok
    ensures var f := EncodeRequest(request);
            LineOk(wire + f[..n], if n == REQUEST_SIZE then frames + [f] else frames, cut || 0 < n < REQUEST_SIZE)
  {
    var f := EncodeRequest(request);
    ConcatAppend(frames, f);
    assert f[..REQUEST_SIZE] == f;
    assert n == 0 ==> wire + f[..n] == wire;
  }

  // The buffer is always large enough.
  method Packed(request: LockRequest) returns (frame: Bytes)
    ensures frame == EncodeRequest(request)
  {
    var buf := new byte[MAX_MESSAGE_LEN];
    var n := PackLockRequest(Little, request, buf);
    frame := buf[..n];
  }

  lemma NumberedOneMore(sent: seq<LockRequest>, next: uint16, request: LockRequest)
    requires Numbered(sent, next) && request.header.seqNo == next
    ensures Numbered(sent + [request], (next + 1) % 0x1_0000)
  {
  }

  class CommWorker {
    const rx: StreamBuffer
    var connected: bool
    // The lockReceived signals emitted so far.
    var received: seq<LockRequest>

    constructor ()
      ensures fresh(rx) && rx.data == [] && !connected && received == []
    {
      rx := new StreamBuffer();
      connected := false;
      received := [];
    }

    method OnConnected()
      modifies this, rx
      ensures connected && rx.data == [] && received == old(received)
    {
      connected := true;
      rx.Reset();
    }

    method OnDisconnected()
      modifies this, rx
      ensures !connected && rx.data == [] && received == old(received)
    {
      connected := false;
      rx.Reset();
    }

    // abort() delivers disconnected() at once, so the handler resets the
    // buffer while the drain loop is running.
    method HandleMessage(buf: Bytes)
      requires connected
      modifies this, rx
      ensures HeaderCheck(buf) != Ok ==> !connected && rx.data == [] && received == old(received)
      ensures HeaderCheck(buf) == Ok ==> connected && rx.data == old(rx.data)
      ensures received == old(received) + if RequestCheck(buf) == Ok then [RequestOf(buf)] else []
    {
      var e, h := UnpackHeader(buf);
      if e != Ok {
        rx.Reset();
        OnDisconnected();
        return;
      }
      if h.code != CODE_LOCK_REQUEST {
        return;
      }
      var request;
      e, request := UnpackLockRequest(buf);
      if e != Ok {
        return;
      }
      received := received + [request];
    }

    method OnReadyRead(chunk: Bytes)
      requires connected
      modifies this, rx
      ensures var p := Parse(old(rx.data) + chunk);
              && connected == p.open && rx.data == p.residue
              && received == old(received) + Requests(p.frames)
    {
      rx.Append(chunk);
      ghost var p := Parse(rx.data);
      ghost var goal := received + Requests(p.frames);
      var found, msg := rx.Next();
      while found
        invariant found <==> NextCut(rx.data) != NeedMore
        invariant found ==> msg == Front(rx.data) && connected
        invariant connected ==> p.open == Parse(rx.data).open && p.residue == Parse(rx.data).residue
        invariant connected ==> goal == received + Requests(Parse(rx.data).frames)
        invariant !connected ==> !p.open && p.residue == rx.data == [] && goal == received
        decreases |rx.data|
      {
        DrainPass(rx.data);
        ghost var rest := Parse(rx.data[|msg|..]).frames;
        RequestsPrepend(msg, rest);
        AppendInTurn(received, if RequestCheck(msg) == Ok then [RequestOf(msg)] else [], Requests(rest));
        HandleMessage(msg);
        rx.Consume(|msg|);
        found, msg := rx.Next();
      }
      AppendInTurn(received, [], []);
    }
  }

  class MaintWorker {
    const rx: StreamBuffer
    var connected: bool
    var nextSeq: uint16
    // The commands written whole to the socket, and the ackReceived signals.
    var sent: seq<LockRequest>
    var acks: seq<LockResponse>
    // Every byte the socket took on this connection; the frames it took whole;
    // whether it ever took part of one only.
    ghost var wire: Bytes
    ghost var frames: seq<Bytes>
    ghost var cut: bool

    ghost predicate Valid()
      reads this
    {
      Numbered(sent, nextSeq) && LineOk(wire, frames, cut)
    }

    constructor ()
      ensures Valid() && fresh(rx) && rx.data == [] && !connected && sent == [] && acks == []
    {
      rx := new StreamBuffer();
      connected := false;
      nextSeq := 1;
      sent := [];
      acks := [];
      wire, frames, cut := [], [], false;
    }

    method OnConnected()
      requires Valid()
      modifies this, rx
      ensures Valid() && connected && rx.data == [] && sent == old(sent) && acks == old(acks)
      ensures wire == [] && !cut
    {
      connected := true;
      wire, frames, cut := [], [], false;
      rx.Reset();
    }

    method OnDisconnected()
      requires Valid()
      modifies this, rx
      ensures Valid() && !connected && rx.data == [] && sent == old(sent) && acks == old(acks)
      ensures wire == old(wire) && frames == old(frames) && cut == old(cut)
    {
      connected := false;
      rx.Reset();
    }

    // The socket takes n bytes of the command.
    ghost method Took(request: LockRequest, n: nat)
      requires Valid() && n <= REQUEST_SIZE && RequestCheck(EncodeRequest(request)) == Ok
      modifies this`wire, this`frames, this`cut
      ensures Valid()
      ensures wire == old(wire) + EncodeRequest(request)[..n] && cut == (old(cut) || 0 < n < REQUEST_SIZE)
      ensures frames == old(frames) + if n == REQUEST_SIZE then [EncodeRequest(request)] else []
    {
      LineAfterWrite(wire, frames, cut, request, n);
      wire := wire + EncodeRequest(request)[..n];
      frames := if n == REQUEST_SIZE then frames + [EncodeRequest(request)] else frames;
      cut := cut || 0 < n < REQUEST_SIZE;
    }

    // text is the Latin-1 form of the number typed; written is what the
    // socket's write reports, -1 for an error. After a short write the
    // connection stays, part of a frame is on it, and the sequence number is
    // used again.
    method SendLock(text: Bytes, now: uint64, written: int)
      requires Valid() && -1 <= written <= REQUEST_SIZE
      modifies this
      ensures Valid() && connected == old(connected) && acks == old(acks)
      ensures !old(connected) || |text| != 4 ==>
                sent == old(sent) && nextSeq == old(nextSeq) && wire == old(wire) && frames == old(frames) && cut == old(cut)
      ensures old(connected) && |text| == 4 ==>
                var request := MakeLockRequest(text, old(nextSeq), now);
                && wire == old(wire) + EncodeRequest(request)[..if written < 0 then 0 else written]
                && (cut <==> old(cut) || 0 < written < REQUEST_SIZE)
                && frames == old(frames) + (if written == REQUEST_SIZE then [EncodeRequest(request)] else [])
                && sent == old(sent) + (if written == REQUEST_SIZE then [request] else [])
                && nextSeq == if written == REQUEST_SIZE then (old(nextSeq) + 1) % 0x1_0000 else old(nextSeq)
    {
      if !connected {
        return;
      }
      if |text| != 4 {
        return;
      }
      var request := MakeLockRequest(text, nextSeq, now);
      var frame := Packed(request);
      ghost var taken := if written < 0 then 0 else written;
      Took(request, taken);
      if written != |frame| {
        return;
      }
      NumberedOneMore(sent, nextSeq, request);
      sent := sent + [request];
      nextSeq := (nextSeq as int + 1) % 0x1_0000;
    }

    // As long as no write fell short, gateway decodes a prefix of the commands
    // written on this connection from whatever part of it has arrived.
    lemma WholeWritesAreDecoded(arrived: Bytes)
      requires Valid() && !cut && arrived <= wire
      ensures Parse(arrived).open && Parse(arrived).frames <= frames
      ensures arrived == wire ==> Parse(arrived).frames == frames
    {
      PrefixParsesToPrefix(frames, arrived);
    }

    method HandleMessage(buf: Bytes)
      requires Valid() && connected
      modifies this, rx
      ensures Valid() && sent == old(sent) && wire == old(wire) && frames == old(frames) && cut == old(cut)
      ensures HeaderCheck(buf) != Ok ==> !connected && rx.data == [] && acks == old(acks)
      ensures HeaderCheck(buf) == Ok ==> connected && rx.data == old(rx.data)
      ensures acks == old(acks) + if ResponseCheck(buf) == Ok then [ResponseOf(buf)] else []
    {
      var e, h := UnpackHeader(buf);
      if e != Ok {
        rx.Reset();
        OnDisconnected();
        return;
      }
      if h.code != CODE_LOCK_RESPONSE {
        return;
      }
      var response;
      e, response := UnpackLockResponse(buf);
      if e != Ok {
        return;
      }
      acks := acks + [response];
    }

    method OnReadyRead(chunk: Bytes)
      requires Valid() && connected
      modifies this, rx
      ensures Valid() && sent == old(sent) && wire == old(wire) && frames == old(frames) && cut == old(cut)
      ensures var p := Parse(old(rx.data) + chunk);
              && connected == p.open && rx.data == p.residue
              && acks == old(acks) + Responses(p.frames)
    {
      rx.Append(chunk);
      ghost var p := Parse(rx.data);
      ghost var goal := acks + Responses(p.frames);
      var found, msg := rx.Next();
      while found
        invariant Valid() && sent == old(sent) && wire == old(wire) && frames == old(frames) && cut == old(cut)
        invariant found <==> NextCut(rx.data) != NeedMore
        invariant found ==> msg == Front(rx.data) && connected
        invariant connected ==> p.open == Parse(rx.data).open && p.residue == Parse(rx.data).residue
        invariant connected ==> goal == acks + Responses(Parse(rx.data).frames)
        invariant !connected ==> !p.open && p.residue == rx.data == [] && goal == acks
        decreases |rx.data|
      {
        DrainPass(rx.data);
        ghost var rest := Parse(rx.data[|msg|..]).frames;
        ResponsesPrepend(msg, rest);
        AppendInTurn(acks, if ResponseCheck(msg) == Ok then [ResponseOf(msg)] else [], Responses(rest));
        HandleMessage(msg);
        rx.Consume(|msg|);
        found, msg := rx.Next();
      }
      AppendInTurn(acks, [], []);
    }
  }
}
