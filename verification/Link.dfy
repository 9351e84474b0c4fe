// One direction of a TCP link over its whole life: a server that sends frames
// with TcpServer::send (common/tcp_server.cpp) and a worker that connects,
// reads and decodes (term_gui/comm_worker.cpp, maint_gui/maint_worker.cpp).
// Connections come and go; each is a reliable, ordered byte stream (section
// 2.2 of RFC 9293), cut into chunks at will.
module Link {
  import opened Wire
  import opened Framing

  // One connection. attempts: the frames handed to send(), in order; wire:
  // the bytes the kernel took; broken: a send failed; got: the frames the
  // worker decoded; taken: how many bytes it has read.
  datatype Connection = Connection(
    attempts: seq<Bytes>, wire: Bytes, broken: bool, got: seq<Bytes>, taken: nat)

  const NEW_CONNECTION: Connection := Connection([], [], false, [], 0)

  // server and worker name the connection each end has, if any; accepted
  // counts the connections the server has taken or passed over. rx is the
  // worker's buffer. log is every frame ever handed to send(), in order.
  datatype Net = Net(
    conns: seq<Connection>, server: int, accepted: nat, worker: int, rx: Bytes, log: seq<Bytes>)

  const NOBODY: int := -1
  const START: Net := Net([], NOBODY, 0, NOBODY, [], [])

  datatype Event =
    | Dial
    | Accept(conn: nat)
    | Send(frame: Bytes, sent: nat)
    | DropClient
    | Receive(count: nat)
    | Lost

  // sent is what TcpServer.Send reports.
  function Sent(c: Connection, frame: Bytes, sent: nat): Connection
    requires sent <= |frame|
  {
    c.(attempts := c.attempts + [frame], wire := c.wire + frame[..sent], broken := sent < |frame|)
  }

  function Taken(c: Connection, frames: seq<Bytes>, count: nat): Connection {
    c.(got := c.got + frames, taken := c.taken + count)
  }

  // onReadyRead with the next count bytes: append, drain, and close the
  // connection if the stream is out of step.
  function AfterReceive(n: Net, count: nat): Net
    requires 0 <= n.worker < |n.conns| && n.conns[n.worker].taken + count <= |n.conns[n.worker].wire|
  {
    var c := n.conns[n.worker];
    var p := Parse(n.rx + c.wire[c.taken..c.taken + count]);
    n.(conns := n.conns[n.worker := Taken(c, p.frames, count)], rx := p.residue,
       worker := if p.open then n.worker else NOBODY)
  }

  ghost predicate Step(n: Net, e: Event, n': Net) {
    match e
    case Dial =>
      // onConnected resets the buffer.
      && n.worker == NOBODY
      && n' == n.(conns := n.conns + [NEW_CONNECTION], worker := |n.conns|, rx := [])
    case Accept(c) =>
      // The new client replaces the old one.
      && n.accepted <= c < |n.conns|
      && n' == n.(server := c, accepted := c + 1)
    case Send(frame, sent) =>
      // A short count drops the client.
      && WellFormed(frame) && sent <= |frame| && 0 <= n.server < |n.conns|
      && n' == n.(conns := n.conns[n.server := Sent(n.conns[n.server], frame, sent)],
                  server := if sent < |frame| then NOBODY else n.server, log := n.log + [frame])
    case DropClient =>
      n' == n.(server := NOBODY)
    case Receive(count) =>
      && 0 <= n.worker < |n.conns| && n.conns[n.worker].taken + count <= |n.conns[n.worker].wire|
      && n' == AfterReceive(n, count)
    case Lost =>
      // onDisconnected resets the buffer.
      n' == n.(worker := NOBODY, rx := [])
  }

  // The wire holds every attempt but, after a failed send, the end of the
  // last one.
  ghost predicate WireOk(c: Connection) {
    && AllWellFormed(c.attempts)
    && c.wire <= Concat(c.attempts)
    && (!c.broken ==> c.wire == Concat(c.attempts))
  }

  // What the worker has read of the stream and not yet decoded.
  function Left(c: Connection): Bytes {
    if |Concat(c.got)| <= c.taken <= |c.wire| then c.wire[|Concat(c.got)|..c.taken] else []
  }

  // What the worker has read is the frames it decoded and the beginning of
  // one more.
  ghost predicate ReadOk(c: Connection) {
    && c.taken <= |c.wire| && c.wire[..c.taken] == Concat(c.got) + Left(c)
    && AllWellFormed(c.got) && NextCut(Left(c)) == NeedMore
  }

  ghost predicate ConnectionOk(c: Connection) {
    WireOk(c) && ReadOk(c)
  }

  // Everything attempted, and everything decoded, connection by connection.
  function Attempts(conns: seq<Connection>): seq<Bytes> {
    if conns == [] then [] else Attempts(conns[..|conns| - 1]) + conns[|conns| - 1].attempts
  }

  function Decoded(conns: seq<Connection>): seq<Bytes> {
    if conns == [] then [] else Decoded(conns[..|conns| - 1]) + conns[|conns| - 1].got
  }

  ghost predicate AllOk(conns: seq<Connection>) {
    forall i | 0 <= i < |conns| :: ConnectionOk(conns[i])
  }

  // Frames only ever went to the connection the server has and to earlier
  // ones, and the connections it may still use are whole.
  ghost predicate Books(n: Net) {
    && n.accepted <= |n.conns| && -1 <= n.server < n.accepted && -1 <= n.worker < |n.conns|
    && (n.server >= 0 ==> !n.conns[n.server].broken)
    && (forall i | n.accepted <= i < |n.conns| :: !n.conns[i].broken)
    && (forall i | 0 <= i < |n.conns| && (i >= n.accepted || 0 <= n.server < i) :: n.conns[i].attempts == [])
    && Attempts(n.conns) == n.log
  }

  // The worker's buffer holds what is left of its own connection's stream and
  // nothing of an earlier one's.
  ghost predicate InStep(n: Net) {
    0 <= n.worker < |n.conns| ==> n.rx == Left(n.conns[n.worker])
  }

  ghost predicate Inv(n: Net) {
    Books(n) && AllOk(n.conns) && InStep(n)
  }

  lemma SendKeepsWire(c: Connection, frame: Bytes, sent: nat)
    requires WireOk(c) && !c.broken && WellFormed(frame) && sent <= |frame|
    ensures WireOk(Sent(c, frame, sent))
  {
    ConcatAppend(c.attempts, frame);
    assert c.wire + frame[..sent] == Concat(c.attempts + [frame])[..|c.wire| + sent];
  }

  lemma SendKeepsConnection(c: Connection, frame: Bytes, sent: nat)
    requires ConnectionOk(c) && !c.broken && WellFormed(frame) && sent <= |frame|
    ensures ConnectionOk(Sent(c, frame, sent)) && Left(Sent(c, frame, sent)) == Left(c)
  {
    SendKeepsWire(c, frame, sent);
    assert (c.wire + frame[..sent])[..c.taken] == c.wire[..c.taken];
  }

  // Reading on from a to b continues the parse of what was read before.
  lemma ReadingResumes(wire: Bytes, a: nat, b: nat, got: seq<Bytes>, rx: Bytes)
    requires a <= b <= |wire|
    requires Parse(wire[..a]) == Parsed(got, true, rx) && Parse(wire[..b]).open
    ensures var p := Parse(rx + wire[a..b]);
            p.open && Parse(wire[..b]) == Parsed(got + p.frames, true, p.residue)
  {
    assert wire[..b] == wire[..a] + wire[a..b];
    ParseExtends(wire[..a], wire[a..b]);
  }

  lemma WireIsOpen(c: Connection, n: nat)
    requires WireOk(c) && n <= |c.wire|
    ensures Parse(c.wire[..n]).open && Parse(c.wire[..n]).frames <= c.attempts
    ensures !c.broken && n == |c.wire| ==> Parse(c.wire[..n]).frames == c.attempts
  {
    assert c.wire[..n] <= Concat(c.attempts);
    PrefixParsesToPrefix(c.attempts, c.wire[..n]);
    assert c.wire[..|c.wire|] == c.wire;
  }

  // A send on the latest connection used goes to the end of the log.
  lemma {:induction false} AttemptsGrow(conns: seq<Connection>, i: nat, c: Connection, frame: Bytes)
    requires i < |conns| && c.attempts == conns[i].attempts + [frame]
    requires forall j | i < j < |conns| :: conns[j].attempts == []
    ensures Attempts(conns[i := c]) == Attempts(conns) + [frame]
  {
    var n := |conns| - 1;
    if i < n {
      AttemptsGrow(conns[..n], i, c, frame);
      assert conns[i := c][..n] == conns[..n][i := c];
    } else {
      assert conns[i := c][..n] == conns[..n];
    }
  }

  lemma {:induction false} AttemptsUnchanged(conns: seq<Connection>, i: nat, c: Connection)
    requires i < |conns| && c.attempts == conns[i].attempts
    ensures Attempts(conns[i := c]) == Attempts(conns)
  {
    var n := |conns| - 1;
    if i < n {
      AttemptsUnchanged(conns[..n], i, c);
      assert conns[i := c][..n] == conns[..n][i := c];
    } else {
      assert conns[i := c][..n] == conns[..n];
    }
  }

  lemma UpdateKeepsAllOk(conns: seq<Connection>, i: nat, c: Connection)
    requires AllOk(conns) && i < |conns| && ConnectionOk(c)
    ensures AllOk(conns[i := c])
  {
    var after := conns[i := c];
    forall k | 0 <= k < |conns| ensures ConnectionOk(after[k]) {
      assert ConnectionOk(conns[k]);
    }
  }

  lemma NewConnectionOk()
    ensures ConnectionOk(NEW_CONNECTION) && Left(NEW_CONNECTION) == []
  {
  }

  lemma DialKeepsBooks(n: Net, n': Net)
    requires Books(n) && Step(n, Dial, n')
    ensures Books(n')
  {
    assert (n.conns + [NEW_CONNECTION])[..|n.conns|] == n.conns;
  }

  lemma DialKeepsAllOk(conns: seq<Connection>)
    requires AllOk(conns)
    ensures AllOk(conns + [NEW_CONNECTION])
  {
    NewConnectionOk();
    forall k | 0 <= k <= |conns| ensures ConnectionOk((conns + [NEW_CONNECTION])[k]) {
      if k < |conns| {
        assert ConnectionOk(conns[k]);
      }
    }
  }

  lemma DialKeepsInv(n: Net, n': Net)
    requires Inv(n) && Step(n, Dial, n')
    ensures Inv(n')
  {
    DialKeepsBooks(n, n');
    DialKeepsAllOk(n.conns);
    NewConnectionOk();
  }

  lemma SendKeepsBooks(n: Net, frame: Bytes, sent: nat, n': Net)
    requires Books(n) && Step(n, Send(frame, sent), n')
    ensures Books(n')
  {
    AttemptsGrow(n.conns, n.server, n'.conns[n.server], frame);
  }

  lemma SendKeepsInv(n: Net, frame: Bytes, sent: nat, n': Net)
    requires Inv(n) && Step(n, Send(frame, sent), n')
    ensures Inv(n')
  {
    SendKeepsBooks(n, frame, sent, n');
    assert ConnectionOk(n.conns[n.server]);
    SendKeepsConnection(n.conns[n.server], frame, sent);
    UpdateKeepsAllOk(n.conns, n.server, Sent(n.conns[n.server], frame, sent));
  }

  lemma ReadMeansParsed(c: Connection)
    requires ReadOk(c)
    ensures Parse(c.wire[..c.taken]) == Parsed(c.got, true, Left(c))
  {
    OpenMeansDecomposed(c.wire[..c.taken], c.got, Left(c));
  }

  lemma ParsedMeansRead(c: Connection, p: Parsed)
    requires c.taken <= |c.wire| && p == Parse(c.wire[..c.taken]) && p.open && p.frames == c.got
    ensures ReadOk(c) && p.residue == Left(c)
  {
    OpenMeansDecomposed(c.wire[..c.taken], c.got, p.residue);
    assert c.wire[..c.taken][|Concat(c.got)|..] == p.residue;
  }

  lemma ReadingOn(c: Connection, rx: Bytes, count: nat)
    requires c.taken + count <= |c.wire| && Parse(c.wire[..c.taken + count]).open
    requires Parse(c.wire[..c.taken]) == Parsed(c.got, true, rx)
    ensures var p := Parse(rx + c.wire[c.taken..c.taken + count]);
            p.open && ReadOk(Taken(c, p.frames, count)) && p.residue == Left(Taken(c, p.frames, count))
  {
    ReadingResumes(c.wire, c.taken, c.taken + count, c.got, rx);
    var p, after := Parse(rx + c.wire[c.taken..c.taken + count]), Parse(c.wire[..c.taken + count]);
    ParsedMeansRead(Taken(c, p.frames, count), after);
  }

  // A worker in step with the stream stays in step, whatever it reads.
  lemma ReceiveKeepsConnection(c: Connection, count: nat)
    requires ConnectionOk(c) && c.taken + count <= |c.wire|
    ensures var p := Parse(Left(c) + c.wire[c.taken..c.taken + count]);
            p.open && ConnectionOk(Taken(c, p.frames, count)) && p.residue == Left(Taken(c, p.frames, count))
  {
    ReadMeansParsed(c);
    WireIsOpen(c, c.taken + count);
    ReadingOn(c, Left(c), count);
  }

  lemma ReceiveKeepsBooks(n: Net, count: nat, n': Net)
    requires Books(n) && Step(n, Receive(count), n')
    ensures Books(n')
  {
    AttemptsUnchanged(n.conns, n.worker, n'.conns[n.worker]);
  }

  // A read replaces the worker's connection by one in order, and its buffer by
  // what is left of that.
  lemma ReceiveUpdates(n: Net, count: nat) returns (c: Connection)
    requires 0 <= n.worker < |n.conns| && n.conns[n.worker].taken + count <= |n.conns[n.worker].wire|
    requires ConnectionOk(n.conns[n.worker]) && InStep(n)
    ensures ConnectionOk(c) && AfterReceive(n, count) == n.(conns := n.conns[n.worker := c], rx := Left(c))
  {
    ReceiveKeepsConnection(n.conns[n.worker], count);
    c := AfterReceive(n, count).conns[n.worker];
  }

  lemma ReceiveKeepsInv(n: Net, count: nat, n': Net)
    requires Inv(n) && Step(n, Receive(count), n')
    ensures Inv(n') && n'.worker == n.worker
  {
    ReceiveKeepsBooks(n, count, n');
    var c := ReceiveUpdates(n, count);
    UpdateKeepsAllOk(n.conns, n.worker, c);
  }

  lemma QuietStepKeepsInv(n: Net, e: Event, n': Net)
    requires Inv(n) && Step(n, e, n') && (e.Accept? || e.DropClient? || e.Lost?)
    ensures Inv(n')
  {
    assert n'.conns == n.conns;
    assert Books(n');
  }

  lemma StepKeepsInv(n: Net, e: Event, n': Net)
    requires Inv(n) && Step(n, e, n')
    ensures Inv(n')
  {
    match e
    case Dial => DialKeepsInv(n, n');
    case Send(frame, sent) => SendKeepsInv(n, frame, sent, n');
    case Receive(count) => ReceiveKeepsInv(n, count, n');
    case _ => QuietStepKeepsInv(n, e, n');
  }

  ghost predicate Run(nets: seq<Net>, events: seq<Event>) {
    && |nets| == |events| + 1 && nets[0] == START
    && forall i | 0 <= i < |events| :: Step(nets[i], events[i], nets[i + 1])
  }

  lemma {:induction false} RunKeepsInv(nets: seq<Net>, events: seq<Event>, n: nat)
    requires Run(nets, events) && n <= |events|
    ensures Inv(nets[n])
  {
    if n != 0 {
      RunKeepsInv(nets, events, n - 1);
      StepKeepsInv(nets[n - 1], events[n - 1], nets[n]);
    }
  }

  lemma LogUnchanged(n: Net, e: Event, n': Net)
    requires Step(n, e, n') && !e.Send?
    ensures n'.log == n.log
  {
  }

  lemma LogIsAttempts(n: Net)
    requires Inv(n)
    ensures n.log == Attempts(n.conns)
  {
  }

  lemma DecodedIsPrefix(n: Net, c: nat)
    requires Inv(n) && c < |n.conns|
    ensures var conn := n.conns[c];
            && conn.got <= conn.attempts
            && (!conn.broken && conn.taken == |conn.wire| ==> conn.got == conn.attempts)
  {
    var conn := n.conns[c];
    assert ConnectionOk(conn);
    WireIsOpen(conn, conn.taken);
    ReadMeansParsed(conn);
  }

  // Over any number of connections, failed and partial sends, and any cutting
  // of the streams: on every connection the worker's frames are a prefix of
  // those sent on that same connection, and all of them once no send failed
  // and every byte was read. The worker never sees a desynchronised stream.
  lemma DecodedIsPrefixOfSent(nets: seq<Net>, events: seq<Event>, n: nat, c: nat)
    requires Run(nets, events) && n <= |events| && c < |nets[n].conns|
    ensures var conn := nets[n].conns[c];
            && conn.got <= conn.attempts
            && (!conn.broken && conn.taken == |conn.wire| ==> conn.got == conn.attempts)
    ensures n < |events| && events[n].Receive? ==> nets[n + 1].worker == nets[n].worker
  {
    RunKeepsInv(nets, events, n);
    DecodedIsPrefix(nets[n], c);
    if n < |events| && events[n].Receive? {
      assert Step(nets[n], events[n], nets[n + 1]);
      ReceiveKeepsInv(nets[n], events[n].count, nets[n + 1]);
    }
  }
}
