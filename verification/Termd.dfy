// termd: one process per terminal. It registers the terminal, keeps the
// terminal's row in step with its socket, writes commands to the terminal and
// reports back to gateway (termd/main.cpp).
module Termds {
  import opened Wire
  import opened Framing
  import opened StreamBuffers
  import opened TcpServers
  import opened MessageQueues
  import opened TerminalTable
  import opened Locators

  // What termd knows between two steps: its socket, its buffer, the table.
  datatype TermdView = TermdView(client: bool, rx: Bytes, rows: seq<Row>)

  function Put(rows: seq<Row>, op: Op, locked: bool): seq<Row> {
    if locked then Apply(op, rows) else rows
  }

  function SetConnected(slot: int, now: uint64): Op
    requires IsSlot(slot)
  {
    SetState(TermdTermNo(slot), TERM_STATE_CONNECTED, CAP_LOCK, now)
  }

  function SetDisconnected(slot: int, now: uint64): Op
    requires IsSlot(slot)
  {
    SetState(TermdTermNo(slot), TERM_STATE_DISCONNECTED, 0, now)
  }

  // One on_idle: a waiting connection is accepted first, then one read is
  // handled. locked and now are the outcome of lock() and the clock for the
  // two calls of set_state.
  function AfterTermdIdle(
    slot: int, v: TermdView, accepted: bool, input: Received,
    locked: bool, now: uint64, locked': bool, now': uint64): TermdView
    requires IsSlot(slot)
  {
    var w := if accepted then TermdView(true, [], Put(v.rows, SetConnected(slot, now), locked)) else v;
    if !w.client then w
    else
      match input
      case Data(bytes) =>
        var p := Parse(w.rx + bytes);
        TermdView(p.open, p.residue, w.rows)
      case EndOfFile => TermdView(false, [], Put(w.rows, SetDisconnected(slot, now'), locked'))
      case Broken => TermdView(false, [], Put(w.rows, SetDisconnected(slot, now'), locked'))
      case _ => w
  }

  // What a command makes termd put on the queues: the response, delivered to
  // gateway if its queue exists.
  function Response(m: LockRequest, now: uint64): LockResponse {
    MakeLockResponse(m.termNo, m.header.seqNo, RESULT_OK, now)
  }

  function TermdSends(m: LockRequest, up: set<int>, now: uint64, refused: bool): seq<Envelope> {
    if IDX_GATEWAY in up && !refused then [Envelope(IDX_GATEWAY, IpcLockResponse(IDX_GATEWAY, Response(m, now)))] else []
  }

  // Every command is answered: success, with its number and its sequence
  // number, to gateway, and lost only if gateway is not running or the send
  // fails.
  lemma EveryCommandIsAnswered(m: LockRequest, up: set<int>, now: uint64, refused: bool)
    ensures var r, sends := Response(m, now), TermdSends(m, up, now, refused);
            && r.result == 0 && r.termNo == m.termNo && r.header.seqNo == m.header.seqNo && r.header.timestamp == now
            && ResponseCheck(EncodeResponse(r)) == Ok
            && sends == if IDX_GATEWAY in up && !refused then [Envelope(IDX_GATEWAY, IpcLockResponse(IDX_GATEWAY, r))] else []
  {
  }

  class Termd {
    const slot: int
    const tcp: TcpServer
    const rx: StreamBuffer
    const table: ShmTable
    const kernel: Kernel

    ghost predicate Valid()
      reads rx, table
    {
      IsSlot(slot) && tcp.listening && NextCut(rx.data) == NeedMore && table.Valid() && table.isOpen
    }

    ghost function Seen(): TermdView
      reads this, tcp, rx, table, table.rows
    {
      TermdView(tcp.client, rx.data, table.rows[..])
    }

    constructor (slot: int, table: ShmTable, kernel: Kernel)
      requires IsSlot(slot) && table.Valid() && table.isOpen
      ensures Valid() && this.slot == slot && this.table == table && this.kernel == kernel
      ensures fresh(tcp) && fresh(rx) && !tcp.client && rx.data == []
    {
      this.slot := slot;
      this.table := table;
      this.kernel := kernel;
      tcp := new TcpServer(true);
      rx := new StreamBuffer();
    }

    // on_init, after the table is open: refuses to run without a row.
    method OnInit(locked: bool) returns (ok: bool)
      requires Valid()
      modifies table.rows
      ensures Valid() && table.rows[..] == Put(old(table.rows[..]), Register(TermdTermNo(slot)), locked)
      ensures Done(ok) == if locked then ReplyTo(Register(TermdTermNo(slot)), old(table.rows[..])) else Done(false)
    {
      ok := table.RegisterTerminal(ToUint32(1000 + slot), locked);
      RegistrationKeepsOrigin(slot, {}, []);
    }

    method HandleFromTerminal(buf: Bytes)
      modifies tcp, rx
      ensures HeaderCheck(buf) != Ok ==> !tcp.client && rx.data == []
      ensures HeaderCheck(buf) == Ok ==> tcp.client == old(tcp.client) && rx.data == old(rx.data)
    {
      var e, h := UnpackHeader(buf);
      if e != Ok {
        tcp.DropClient();
        rx.Reset();
      }
    }

    // The drain loop of on_idle. The handler may reset the buffer under the
    // loop; the loop still ends, and passes stays within the header bound.
    method Drain() returns (ghost passes: nat)
      requires tcp.client
      modifies tcp, rx
      ensures var p := Parse(old(rx.data)); tcp.client == p.open && rx.data == p.residue
      ensures HEADER_SIZE * passes <= |old(rx.data)|
    {
      passes := 0;
      ghost var p := Parse(rx.data);
      var found, msg := rx.Next();
      while found
        invariant found <==> NextCut(rx.data) != NeedMore
        invariant found ==> msg == Front(rx.data)
        invariant tcp.client ==> p.open == Parse(rx.data).open && p.residue == Parse(rx.data).residue
        invariant !tcp.client ==> !p.open && p.residue == [] && rx.data == []
        invariant HEADER_SIZE * passes + |rx.data| <= |old(rx.data)|
        decreases |rx.data|
      {
        DrainPass(rx.data);
        passes := passes + 1;
        HandleFromTerminal(msg);
        rx.Consume(|msg|);
        found, msg := rx.Next();
      }
    }

    method OnIdle(pending: bool, input: Received, locked: bool, now: uint64, locked': bool, now': uint64)
      returns (ghost passes: nat)
      requires Valid()
      requires input.Data? ==> 0 < |input.bytes| <= READ_CHUNK
      modifies tcp, rx, table.rows
      ensures Valid()
      ensures Seen() == AfterTermdIdle(slot, old(Seen()), pending, input, locked, now, locked', now')
      ensures HEADER_SIZE * passes <= |old(rx.data)| + if input.Data? then |input.bytes| else 0
    {
      passes := 0;
      var accepted := tcp.PollAccept(pending);
      if accepted {
        rx.Reset();
        var done := table.SetTerminalState(ToUint32(1000 + slot), TERM_STATE_CONNECTED, CAP_LOCK, now, locked);
      }
      var n, chunk := tcp.PollRead(input, READ_CHUNK);
      if n < 0 {
        rx.Reset();
        var done := table.SetTerminalState(ToUint32(1000 + slot), TERM_STATE_DISCONNECTED, 0, now', locked');
        return;
      }
      if n == 0 {
        return;
      }
      rx.Append(chunk);
      ParseDecomposes(rx.data);
      passes := Drain();
    }

    // A command for the terminal. It is answered RESULT_OK whether or not a
    // terminal was there to take it. data.IpcLockRequest? is the size check.
    method OnLockRequest(data: Ipc, answers: nat -> SendResult, ghost calm: nat, now: uint64, refused: bool)
      returns (ghost sent: nat)
      requires forall k: nat | k >= calm :: answers(k) != SendInterrupted && answers(k) != WouldBlock
      modifies tcp, kernel
      ensures kernel.up == old(kernel.up)
      ensures !data.IpcLockRequest? ==>
                tcp.client == old(tcp.client) && tcp.wire == old(tcp.wire) && kernel.mail == old(kernel.mail)
      ensures data.IpcLockRequest? ==>
                && sent <= REQUEST_SIZE && (!old(tcp.client) ==> sent == 0)
                && tcp.wire == old(tcp.wire) + EncodeRequest(data.request)[..sent]
                && (tcp.client <==> old(tcp.client) && sent == REQUEST_SIZE)
                && (old(tcp.client) ==> (tcp.client <==> TakesAll(answers, REQUEST_SIZE)))
                && (old(tcp.client) && !tcp.client ==>
                      exists k :: Refuses(answers(k)) && NoRefusal(answers, k) && sent == Offered(answers, k))
                && kernel.mail == old(kernel.mail) + TermdSends(data.request, kernel.up, now, refused)
    {
      sent := 0;
      if SizeOf(data) != 8 + REQUEST_SIZE {
        return;
      }
      if tcp.client {
        var out := new byte[MAX_MESSAGE_LEN];
        var n := PackLockRequest(Little, data.request, out);
        var ok;
        assert out[..n] == EncodeRequest(data.request);
        ok, sent := tcp.Send(out[..n], answers, calm);
      }
      var response := MakeLockResponse(data.request.termNo, data.request.header.seqNo, RESULT_OK, now);
      var ok := kernel.SendTo(IDX_GATEWAY, IpcLockResponse(IDX_GATEWAY, response), refused);
    }
  }

  // ---- the socket and the row ----

  // What the terminal's row says, apart from its number.
  function OwnInfo(slot: int, rows: seq<Row>): Info
    requires IsSlot(slot)
  {
    if IsRegistered(slot, rows) then InfoOf(rows[IndexOf(rows, TermdTermNo(slot))]) else InfoOf(FREE_ROW)
  }

  function OwnState(slot: int, rows: seq<Row>): byte
    requires IsSlot(slot)
  {
    OwnInfo(slot, rows).state
  }

  // Anyone may look this terminal up; only its own termd writes its row.
  predicate LeavesRowAlone(op: Op, slot: int)
    requires IsSlot(slot)
  {
    op.Snapshot? || op.Find? || op.termNo != TermdTermNo(slot)
  }

  // A step of one termd, or a call by any other process, killed part way or
  // not; no other process runs for the same slot. set_state succeeds; sent is
  // what the kernel took of a command.
  datatype TermdEvent =
    | Idle(accepted: bool, input: Received, now: uint64, now': uint64)
    | Command(sent: nat)
    | Others(op: Op, fields: set<Field>)

  ghost predicate TermdStep(slot: int, v: TermdView, e: TermdEvent, v': TermdView)
    requires IsSlot(slot)
  {
    match e
    case Idle(accepted, input, now, now') =>
      v' == AfterTermdIdle(slot, v, accepted, input, true, now, true, now')
    case Command(sent) =>
      v' == v.(client := v.client && sent == REQUEST_SIZE)
    case Others(op, fields) =>
      LeavesRowAlone(op, slot) && fields <= WrittenFields(op) && v' == v.(rows := WriteFields(op, fields, v.rows))
  }

  lemma StateAfterSet(slot: int, rows: seq<Row>, op: Op)
    requires IsSlot(slot) && IsRegistered(slot, rows) && op.SetState? && op.termNo == TermdTermNo(slot)
    ensures IsRegistered(slot, Apply(op, rows))
    ensures OwnInfo(slot, Apply(op, rows)) == Info(op.state, op.capabilities, op.now)
  {
    var i, later := IndexOf(rows, op.termNo), Apply(op, rows);
    assert forall j | 0 <= j < |rows| :: later[j].termNo == rows[j].termNo;
    assert IndexOf(later, op.termNo) == i;
  }

  // Calls about other terminals leave this one's row alone.
  lemma StateAfterOthers(slot: int, rows: seq<Row>, op: Op, fields: set<Field>)
    requires IsSlot(slot) && IsRegistered(slot, rows)
    requires LeavesRowAlone(op, slot)
    ensures var later := WriteFields(op, fields, rows);
            IsRegistered(slot, later) && OwnInfo(slot, later) == OwnInfo(slot, rows)
  {
    var i, later := IndexOf(rows, TermdTermNo(slot)), WriteFields(op, fields, rows);
    assert later[i] == rows[i];
    assert forall j | 0 <= j < i :: later[j].termNo != TermdTermNo(slot);
    assert IndexOf(later, TermdTermNo(slot)) == i;
  }

  // The connection ends inside this step without set_state being called: the
  // stream desynchronised, or a command could not be written.
  ghost predicate DropsSilently(v: TermdView, e: TermdEvent) {
    match e
    case Idle(accepted, input, _, _) =>
      && (accepted || v.client) && input.Data?
      && !Parse((if accepted then [] else v.rx) + input.bytes).open
    case Command(sent) => v.client && sent != REQUEST_SIZE
    case Others(_, _) => false
  }

  lemma StepState(slot: int, v: TermdView, e: TermdEvent, v': TermdView)
    requires IsSlot(slot) && IsRegistered(slot, v.rows) && TermdStep(slot, v, e, v')
    ensures IsRegistered(slot, v'.rows)
    ensures OwnInfo(slot, v'.rows) ==
            if e.Idle? && (e.accepted || v.client) && (e.input.EndOfFile? || e.input.Broken?)
            then Info(TERM_STATE_DISCONNECTED, 0, e.now')
            else if e.Idle? && e.accepted then Info(TERM_STATE_CONNECTED, CAP_LOCK, e.now)
            else OwnInfo(slot, v.rows)
  {
    if e.Idle? {
      var connect, disconnect := SetConnected(slot, e.now), SetDisconnected(slot, e.now');
      StateAfterSet(slot, v.rows, connect);
      StateAfterSet(slot, v.rows, disconnect);
      StateAfterSet(slot, Apply(connect, v.rows), disconnect);
    } else if e.Others? {
      StateAfterOthers(slot, v.rows, e.op, e.fields);
    }
  }

  // A run of one termd from its registration on, seen at loop boundaries.
  ghost predicate TermdRun(slot: int, views: seq<TermdView>, events: seq<TermdEvent>)
    requires IsSlot(slot)
  {
    && |views| == |events| + 1 && IsRegistered(slot, views[0].rows) && !views[0].client
    && forall i | 0 <= i < |events| :: TermdStep(slot, views[i], events[i], views[i + 1])
  }

  // At every loop boundary of every run, holding a socket means the row says
  // CONNECTED.
  lemma {:induction false} SocketMeansConnected(slot: int, views: seq<TermdView>, events: seq<TermdEvent>, n: nat)
    requires IsSlot(slot) && TermdRun(slot, views, events) && n <= |events|
    ensures IsRegistered(slot, views[n].rows)
    ensures views[n].client ==> OwnState(slot, views[n].rows) == TERM_STATE_CONNECTED
  {
    if n != 0 {
      SocketMeansConnected(slot, views, events, n - 1);
      StepState(slot, views[n - 1], events[n - 1], views[n]);
    }
  }

  predicate Accepts(e: TermdEvent) {
    e.Idle? && e.accepted
  }

  // Event k is the last before n to bring in a client.
  predicate LastAccept(events: seq<TermdEvent>, n: nat, k: nat) {
    k < n <= |events| && Accepts(events[k]) && forall j | k < j < n :: !Accepts(events[j])
  }

  lemma RowWhileHeld(slot: int, v: TermdView, e: TermdEvent, v': TermdView)
    requires IsSlot(slot) && IsRegistered(slot, v.rows) && TermdStep(slot, v, e, v') && v'.client
    ensures if Accepts(e) then OwnInfo(slot, v'.rows) == Info(TERM_STATE_CONNECTED, CAP_LOCK, e.now)
            else v.client && OwnInfo(slot, v'.rows) == OwnInfo(slot, v.rows)
  {
    StepState(slot, v, e, v');
  }

  lemma LastAcceptStays(events: seq<TermdEvent>, n: nat, k: nat)
    requires n < |events| && LastAccept(events, n, k) && !Accepts(events[n])
    ensures LastAccept(events, n + 1, k)
  {
  }

  // More than that: the row of a terminal whose socket is held says that it can
  // lock, and when it was accepted.
  lemma {:induction false} RowTellsLastAccept(slot: int, views: seq<TermdView>, events: seq<TermdEvent>, n: nat)
    returns (k: nat)
    requires IsSlot(slot) && TermdRun(slot, views, events) && n <= |events| && views[n].client
    ensures LastAccept(events, n, k)
    ensures OwnInfo(slot, views[n].rows) == Info(TERM_STATE_CONNECTED, CAP_LOCK, events[k].now)
  {
    SocketMeansConnected(slot, views, events, n - 1);
    RowWhileHeld(slot, views[n - 1], events[n - 1], views[n]);
    if Accepts(events[n - 1]) {
      k := n - 1;
    } else {
      k := RowTellsLastAccept(slot, views, events, n - 1);
      LastAcceptStays(events, n - 1, k);
    }
  }

  // The bytes read since the last accept.
  function HeardSince(events: seq<TermdEvent>, n: nat): Bytes
    requires n <= |events|
  {
    if n == 0 then []
    else
      var e := events[n - 1];
      (if Accepts(e) then [] else HeardSince(events, n - 1)) + if e.Idle? && e.input.Data? then e.input.bytes else []
  }

  // And the buffer holds what is left of that client's own bytes: nothing of an
  // earlier connection gets into it.
  lemma {:induction false} BufferIsTheClients(slot: int, views: seq<TermdView>, events: seq<TermdEvent>, n: nat)
    requires IsSlot(slot) && TermdRun(slot, views, events) && n <= |events|
    ensures views[n].client ==>
              var p := Parse(HeardSince(events, n)); p.open && p.residue == views[n].rx
  {
    if n != 0 && views[n].client {
      var e, before := events[n - 1], HeardSince(events, n - 1);
      if !Accepts(e) {
        BufferIsTheClients(slot, views, events, n - 1);
        if e.Idle? && e.input.Data? {
          ParseExtends(before, e.input.bytes);
        } else {
          assert before + [] == before;
        }
      } else if !(e.Idle? && e.input.Data?) {
        assert Parse([]) == Parsed([], true, []);
      }
    }
  }

  predicate Agrees(slot: int, v: TermdView)
    requires IsSlot(slot)
  {
    v.client <==> OwnState(slot, v.rows) == TERM_STATE_CONNECTED
  }

  // The converse does not survive every step: from agreement in both
  // directions, a step keeps it exactly when it does not drop the client
  // silently.
  lemma AgreementSurvivesIff(slot: int, v: TermdView, e: TermdEvent, v': TermdView)
    requires IsSlot(slot) && IsRegistered(slot, v.rows) && TermdStep(slot, v, e, v') && Agrees(slot, v)
    ensures Agrees(slot, v') <==> !DropsSilently(v, e)
  {
    StepState(slot, v, e, v');
  }

  // The step calls set_state: a client is accepted, or one is seen to leave.
  ghost predicate Records(v: TermdView, e: TermdEvent) {
    e.Idle? && (e.accepted || (v.client && (e.input.EndOfFile? || e.input.Broken?)))
  }

  // The last thing that happened to the connection, if anything, was a silent
  // drop; if nothing did, the row was left CONNECTED by an earlier termd.
  ghost predicate Stale(slot: int, views: seq<TermdView>, events: seq<TermdEvent>, n: nat)
    requires IsSlot(slot) && n <= |events| < |views|
  {
    if n == 0 then OwnState(slot, views[0].rows) == TERM_STATE_CONNECTED
    else
      var v, e := views[n - 1], events[n - 1];
      DropsSilently(v, e) || (!Records(v, e) && Stale(slot, views, events, n - 1))
  }

  lemma AgreementStep(slot: int, v: TermdView, e: TermdEvent, v': TermdView)
    requires IsSlot(slot) && IsRegistered(slot, v.rows) && TermdStep(slot, v, e, v')
    requires v.client ==> OwnState(slot, v.rows) == TERM_STATE_CONNECTED
    ensures Agrees(slot, v') <==> !DropsSilently(v, e) && (Records(v, e) || Agrees(slot, v))
  {
    StepState(slot, v, e, v');
  }

  // At every loop boundary of every run, socket and row agree exactly when no
  // silent drop has happened since the last accept or recorded disconnect.
  lemma {:induction false} AgreesUnlessStale(slot: int, views: seq<TermdView>, events: seq<TermdEvent>, n: nat)
    requires IsSlot(slot) && TermdRun(slot, views, events) && n <= |events|
    ensures Agrees(slot, views[n]) <==> !Stale(slot, views, events, n)
  {
    if n != 0 {
      AgreesUnlessStale(slot, views, events, n - 1);
      SocketMeansConnected(slot, views, events, n - 1);
      AgreementStep(slot, views[n - 1], events[n - 1], views[n]);
    }
  }

  // Twenty zero bytes on a fresh connection are enough.
  lemma StaleConnectedRow(slot: int, rows: seq<Row>, now: uint64)
    requires IsSlot(slot) && IsRegistered(slot, rows)
    ensures var v := AfterTermdIdle(slot, TermdView(false, [], rows), true, Data(seq(20, _ => 0)), true, now, true, now);
            !v.client && OwnState(slot, v.rows) == TERM_STATE_CONNECTED
  {
    StateAfterSet(slot, rows, SetConnected(slot, now));
    var zeroes: Bytes := seq(20, _ => 0);
    assert [] + zeroes == zeroes;
    assert NextCut(zeroes) == Desync;
  }
}
