// gateway over its whole life: any number of connections, replaced, closed or
// broken at any point (gateway/main.cpp), and the same turns as steps of the
// maintenance connections of Uplink.
module GatewayRuns {
  import opened Wire
  import opened Framing
  import opened TcpServers
  import opened MessageQueues
  import opened Gateways
  import U = Uplink

  // One on_idle: whether a connection was waiting, and what the read brought.
  datatype Turn = Turn(accepted: bool, input: Received)

  // lost(c, k): frame k of the c-th connection, if it is a request, does not
  // get to locator's queue.
  type Losses = (nat, nat) -> bool

  function On(lost: Losses, c: nat): nat -> bool {
    (k: nat) => lost(c, k)
  }

  // Gateway after some turns: what it holds, how many connections it has
  // accepted, and how many frames the latest one has brought.
  datatype Place = Place(view: GatewayView, conn: nat, frames: nat)

  function NewFramesOf(v: GatewayView, t: Turn): nat {
    if t.accepted then (if t.input.Data? then |Parse(t.input.bytes).frames| else 0) else NewFrames(v, t.input)
  }

  function AfterTurn(p: Place, lost: Losses, t: Turn): Place {
    var conn, from := if t.accepted then p.conn + 1 else p.conn, if t.accepted then 0 else p.frames;
    Place(AfterGatewayIdle(p.view, from, On(lost, conn), t.accepted, t.input), conn, from + NewFramesOf(p.view, t))
  }

  function AfterTurns(mail: seq<Envelope>, lost: Losses, turns: seq<Turn>): Place {
    if turns == [] then Place(GatewayView(false, [], mail), 0, 0)
    else AfterTurn(AfterTurns(mail, lost, turns[..|turns| - 1]), lost, turns[|turns| - 1])
  }

  // ---- what was on the wire, whoever parses it ----

  // The latest connection has not been closed or broken yet.
  predicate Live(turns: seq<Turn>) {
    turns != []
    && var t := turns[|turns| - 1];
       (t.accepted || Live(turns[..|turns| - 1])) && !t.input.EndOfFile? && !t.input.Broken?
  }

  // The bytes of each connection, in the order of the connections.
  function Streams(turns: seq<Turn>): seq<Bytes> {
    if turns == [] then []
    else
      var before, t := turns[..|turns| - 1], turns[|turns| - 1];
      var streams := if t.accepted then Streams(before) + [[]] else Streams(before);
      if streams != [] && (t.accepted || Live(before)) && t.input.Data?
      then streams[..|streams| - 1] + [streams[|streams| - 1] + t.input.bytes]
      else streams
  }

  // What the requests in each connection's own bytes come to at locator.
  function ForwardedFromAll(streams: seq<Bytes>, lost: Losses): seq<Envelope> {
    if streams == [] then []
    else
      ForwardedFromAll(streams[..|streams| - 1], lost)
      + Forwarded(Kept(Parse(streams[|streams| - 1]).frames, 0, On(lost, |streams|)))
  }

  // ---- one connection ----

  lemma KeptFromStart(a: seq<Bytes>, b: seq<Bytes>, lost: nat -> bool)
    ensures Kept(a + b, 0, lost) == Kept(a, 0, lost) + Kept(b, |a|, lost)
  {
    KeptAppend(a, b, 0, lost);
  }

  lemma JoinForwarded(whole: seq<Bytes>, a: seq<Bytes>, b: seq<Bytes>)
    requires whole == a + b
    ensures Forwarded(whole) == Forwarded(a) + Forwarded(b)
  {
    ForwardedAppend(a, b);
  }

  lemma MoreFrames(a: seq<Bytes>, b: seq<Bytes>, lost: nat -> bool)
    ensures Forwarded(Kept(a + b, 0, lost)) == Forwarded(Kept(a, 0, lost)) + Forwarded(Kept(b, |a|, lost))
  {
    KeptFromStart(a, b, lost);
    JoinForwarded(Kept(a + b, 0, lost), Kept(a, 0, lost), Kept(b, |a|, lost));
  }

  // Parsing on after more bytes forwards what the new bytes complete.
  lemma MoreBytes(stream: Bytes, bytes: Bytes, lost: nat -> bool)
    requires Parse(stream).open
    ensures var p, q := Parse(stream), Parse(Parse(stream).residue + bytes);
            && Parse(stream + bytes) == Parsed(p.frames + q.frames, q.open, q.residue)
            && Forwarded(Kept(Parse(stream + bytes).frames, 0, lost))
               == Forwarded(Kept(p.frames, 0, lost)) + ToForward(p.residue + bytes, |p.frames|, lost)
  {
    ParseExtends(stream, bytes);
    MoreFrames(Parse(stream).frames, Parse(Parse(stream).residue + bytes).frames, lost);
  }

  lemma DeadStaysDead(stream: Bytes, bytes: Bytes)
    requires !Parse(stream).open
    ensures Parse(stream + bytes) == Parse(stream)
  {
    ParseExtends(stream, bytes);
  }

  // What gateway holds, from the latest connection's bytes alone.
  predicate Holds(p: Place, streams: seq<Bytes>, live: bool) {
    && p.conn == |streams|
    && (p.view.client <==> live && streams != [] && Parse(streams[|streams| - 1]).open)
    && (p.view.client ==>
          p.view.rx == Parse(streams[|streams| - 1]).residue && p.frames == |Parse(streams[|streams| - 1]).frames|)
    && (!p.view.client ==> p.view.rx == [])
  }

  // The turn is its accept followed by its read.
  lemma TurnInTwo(p: Place, lost: Losses, t: Turn)
    ensures var accepted := if t.accepted then Place(GatewayView(true, [], p.view.mail), p.conn + 1, 0) else p;
            AfterTurn(p, lost, t) == AfterTurn(accepted, lost, Turn(false, t.input))
  {
    if t.accepted && t.input.Data? {
      assert [] + t.input.bytes == t.input.bytes;
    }
  }

  lemma ReadHolds(p: Place, lost: Losses, input: Received, streams: seq<Bytes>, live: bool)
    requires Holds(p, streams, live)
    ensures var n := |streams| - 1;
            var later := if live && streams != [] && input.Data? then streams[..n] + [streams[n] + input.bytes] else streams;
            && Holds(AfterTurn(p, lost, Turn(false, input)), later, live && !input.EndOfFile? && !input.Broken?)
            && AfterTurn(p, lost, Turn(false, input)).view.mail
               == p.view.mail + if p.view.client && input.Data?
                                then ToForward(p.view.rx + input.bytes, p.frames, On(lost, p.conn)) else []
  {
    if live && streams != [] && input.Data? {
      var stream := streams[|streams| - 1];
      if p.view.client {
        MoreBytes(stream, input.bytes, On(lost, p.conn));
        ParseDecomposes(stream + input.bytes);
      } else {
        DeadStaysDead(stream, input.bytes);
      }
    }
  }

  lemma ForwardedLast(streams: seq<Bytes>, lost: Losses)
    requires streams != []
    ensures var n := |streams| - 1;
            ForwardedFromAll(streams, lost)
            == ForwardedFromAll(streams[..n], lost) + Forwarded(Kept(Parse(streams[n]).frames, 0, On(lost, n + 1)))
  {
  }

  lemma ReadForwards(p: Place, lost: Losses, bytes: Bytes, streams: seq<Bytes>, live: bool)
    requires Holds(p, streams, live) && live && streams != []
    ensures var n := |streams| - 1;
            ForwardedFromAll(streams[..n] + [streams[n] + bytes], lost)
            == ForwardedFromAll(streams, lost)
               + if p.view.client then ToForward(p.view.rx + bytes, p.frames, On(lost, p.conn)) else []
  {
    var n := |streams| - 1;
    var later, own := streams[..n] + [streams[n] + bytes], Forwarded(Kept(Parse(streams[n]).frames, 0, On(lost, n + 1)));
    assert later[..n] == streams[..n] && later[n] == streams[n] + bytes;
    ForwardedLast(later, lost);
    ForwardedLast(streams, lost);
    if p.view.client {
      MoreBytes(streams[n], bytes, On(lost, n + 1));
      AppendInTurn(ForwardedFromAll(streams[..n], lost), own, ToForward(p.view.rx + bytes, p.frames, On(lost, n + 1)));
    } else {
      DeadStaysDead(streams[n], bytes);
      AppendInTurn(ForwardedFromAll(streams, lost), [], []);
    }
  }

  lemma AcceptHolds(p: Place, streams: seq<Bytes>, live: bool)
    requires Holds(p, streams, live)
    ensures Holds(Place(GatewayView(true, [], p.view.mail), p.conn + 1, 0), streams + [[]], true)
  {
    assert Parse([]) == Parsed([], true, []);
  }

  lemma AcceptForwards(streams: seq<Bytes>, lost: Losses)
    ensures ForwardedFromAll(streams + [[]], lost) == ForwardedFromAll(streams, lost)
  {
    var later := streams + [[]];
    assert later[..|streams|] == streams;
    assert Parse([]).frames == [];
    ForwardedLast(later, lost);
    AppendInTurn(ForwardedFromAll(streams, lost), [], []);
  }

  // ---- gateway's whole life ----

  predicate IsWhole(mail: seq<Envelope>, lost: Losses, p: Place, streams: seq<Bytes>, live: bool) {
    Holds(p, streams, live) && p.view.mail == mail + ForwardedFromAll(streams, lost)
  }

  lemma StreamsGrow(turns: seq<Turn>)
    requires turns != []
    ensures var before, t := turns[..|turns| - 1], turns[|turns| - 1];
            var started := if t.accepted then Streams(before) + [[]] else Streams(before);
            var open, n := t.accepted || Live(before), |started| - 1;
            && Streams(turns)
               == (if started != [] && open && t.input.Data? then started[..n] + [started[n] + t.input.bytes] else started)
            && Live(turns) == (open && !t.input.EndOfFile? && !t.input.Broken?)
  {
  }

  lemma PlaceGrows(mail: seq<Envelope>, lost: Losses, turns: seq<Turn>)
    requires turns != []
    ensures AfterTurns(mail, lost, turns)
            == AfterTurn(AfterTurns(mail, lost, turns[..|turns| - 1]), lost, turns[|turns| - 1])
  {
  }

  lemma HoldsOneMore(mail: seq<Envelope>, lost: Losses, turns: seq<Turn>)
    requires turns != []
    requires var before := turns[..|turns| - 1];
             IsWhole(mail, lost, AfterTurns(mail, lost, before), Streams(before), Live(before))
    ensures IsWhole(mail, lost, AfterTurns(mail, lost, turns), Streams(turns), Live(turns))
  {
    var before := turns[..|turns| - 1];
    StreamsGrow(turns);
    PlaceGrows(mail, lost, turns);
    OneMoreTurn(mail, lost, AfterTurns(mail, lost, before), turns[|turns| - 1], Streams(before), Live(before));
  }

  lemma {:induction false} HoldsAlways(mail: seq<Envelope>, lost: Losses, turns: seq<Turn>)
    ensures IsWhole(mail, lost, AfterTurns(mail, lost, turns), Streams(turns), Live(turns))
  {
    if turns == [] {
      assert mail + [] == mail;
    } else {
      HoldsAlways(mail, lost, turns[..|turns| - 1]);
      HoldsOneMore(mail, lost, turns);
    }
  }

  // Over any turns, with connections accepted, replaced, closed, broken or
  // desynchronised anywhere: gateway forwards, connection by connection, the
  // requests of the one-shot parse of that connection's bytes alone, but for
  // those whose send fails; it has a client exactly while the latest
  // connection is up and its bytes parse, and its buffer holds what they leave.
  lemma ConnectionsAreParsedApart(mail: seq<Envelope>, lost: Losses, turns: seq<Turn>)
    ensures var v, streams := AfterTurns(mail, lost, turns).view, Streams(turns);
            && v.mail == mail + ForwardedFromAll(streams, lost)
            && (v.client <==> Live(turns) && streams != [] && Parse(streams[|streams| - 1]).open)
            && v.rx == if v.client then Parse(streams[|streams| - 1]).residue else []
  {
    HoldsAlways(mail, lost, turns);
  }

  lemma OneMoreTurn(mail: seq<Envelope>, lost: Losses, p: Place, t: Turn, streams: seq<Bytes>, live: bool)
    requires IsWhole(mail, lost, p, streams, live)
    ensures var started := if t.accepted then streams + [[]] else streams;
            var open, n := t.accepted || live, |started| - 1;
            var later := if started != [] && open && t.input.Data? then started[..n] + [started[n] + t.input.bytes] else started;
            IsWhole(mail, lost, AfterTurn(p, lost, t), later, open && !t.input.EndOfFile? && !t.input.Broken?)
  {
    TurnInTwo(p, lost, t);
    if t.accepted {
      AcceptHolds(p, streams, live);
      AcceptForwards(streams, lost);
      ReadTurn(mail, lost, Place(GatewayView(true, [], p.view.mail), p.conn + 1, 0), t.input, streams + [[]], true);
    } else {
      ReadTurn(mail, lost, p, t.input, streams, live);
    }
  }

  lemma ReadTurn(mail: seq<Envelope>, lost: Losses, p: Place, input: Received, streams: seq<Bytes>, live: bool)
    requires IsWhole(mail, lost, p, streams, live)
    ensures var n := |streams| - 1;
            var later := if streams != [] && live && input.Data? then streams[..n] + [streams[n] + input.bytes] else streams;
            IsWhole(mail, lost, AfterTurn(p, lost, Turn(false, input)), later, live && !input.EndOfFile? && !input.Broken?)
  {
    ReadHolds(p, lost, input, streams, live);
    var more := if p.view.client && input.Data? then ToForward(p.view.rx + input.bytes, p.frames, On(lost, p.conn)) else [];
    AppendInTurn(mail, ForwardedFromAll(streams, lost), more);
    if streams != [] && live && input.Data? {
      ReadForwards(p, lost, input.bytes, streams, live);
    } else {
      AppendInTurn(p.view.mail, [], []);
    }
  }

  // ---- the same turns, as steps on the screen's connections ----

  // Gateway's client and buffer are the reader and the buffer of Uplink.
  predicate Same(v: GatewayView, u: U.Up) {
    (v.client <==> u.reader != U.NOBODY) && v.rx == u.rx
  }

  function Accepted(u: U.Up, c: nat): U.Up {
    u.(reader := c, passed := c + 1, rx := [])
  }

  // The bytes are the next ones on the connection gateway reads.
  predicate NextOnLine(u: U.Up, bytes: Bytes) {
    && 0 <= u.reader < |u.lines|
    && var l := u.lines[u.reader];
       l.read + |bytes| <= |l.wire| && bytes == l.wire[l.read..l.read + |bytes|]
  }

  // The steps of one turn that follow a possible accept.
  ghost predicate ReadsAs(u: U.Up, input: Received, u': U.Up) {
    if u.reader == U.NOBODY then u' == u
    else
      match input
      case Data(bytes) => U.Step(u, U.Read(|bytes|), u')
      case EndOfFile => U.Step(u, U.Drop, u')
      case Broken => U.Step(u, U.Drop, u')
      case _ => u' == u
  }

  // What gateway forwards are the LockRequests that Uplink counts as accepted.
  lemma {:induction false} ForwardedAreRequests(frames: seq<Bytes>)
    requires AllWellFormed(frames)
    ensures Forwarded(frames) == Forwarded(U.RequestFrames(frames))
    ensures |Forwarded(frames)| == |U.RequestFrames(frames)|
  {
    if frames != [] {
      ForwardedAreRequests(frames[1..]);
      var rest := U.RequestFrames(frames[1..]);
      if U.IsRequest(frames[0]) {
        assert ([frames[0]] + rest)[0] == frames[0] && ([frames[0]] + rest)[1..] == rest;
      } else {
        assert ForwardedFrom(frames[0]) == [];
        assert [] + Forwarded(rest) == Forwarded(rest) && [] + rest == rest;
      }
    }
  }

  lemma SameBytes(v: GatewayView, u: U.Up, bytes: Bytes)
    requires Same(v, u) && v.client && NextOnLine(u, bytes)
    ensures U.Brought(u, |bytes|) == Parse(v.rx + bytes)
  {
  }

  lemma DataIsUplink(v: GatewayView, u: U.Up, from: nat, lost: nat -> bool, bytes: Bytes)
    requires Same(v, u) && U.Places(u) && v.client && NextOnLine(u, bytes)
    ensures Same(AfterDrain(v.mail, v.rx + bytes, from, lost), U.AfterReading(u, |bytes|))
    ensures U.Places(U.AfterReading(u, |bytes|))
    ensures U.AcceptedOn(U.AfterReading(u, |bytes|).lines)
            == U.AcceptedOn(u.lines) + U.RequestFrames(Parse(v.rx + bytes).frames)
  {
    SameBytes(v, u, bytes);
    SameAfterData(v, u, from, lost, bytes);
    U.ReadGrows(u, |bytes|);
  }

  lemma SameAfterData(v: GatewayView, u: U.Up, from: nat, lost: nat -> bool, bytes: Bytes)
    requires Same(v, u) && v.client && NextOnLine(u, bytes) && U.Brought(u, |bytes|) == Parse(v.rx + bytes)
    ensures Same(AfterDrain(v.mail, v.rx + bytes, from, lost), U.AfterReading(u, |bytes|))
  {
  }

  lemma IdleIsUplink(v: GatewayView, u: U.Up, from: nat, lost: nat -> bool, input: Received) returns (u': U.Up)
    requires Same(v, u) && U.Places(u) && !(input.Data? && v.client)
    ensures ReadsAs(u, input, u') && Same(AfterGatewayIdle(v, from, lost, false, input), u') && U.Places(u')
    ensures AfterGatewayIdle(v, from, lost, false, input).mail == v.mail && u'.lines == u.lines
  {
    u' := if v.client && (input.EndOfFile? || input.Broken?) then u.(reader := U.NOBODY, rx := []) else u;
  }

  lemma ReadIsUplink(v: GatewayView, u: U.Up, from: nat, lost: nat -> bool, input: Received) returns (u': U.Up)
    requires Same(v, u) && U.Places(u) && (input.Data? && v.client ==> NextOnLine(u, input.bytes))
    ensures ReadsAs(u, input, u') && Same(AfterGatewayIdle(v, from, lost, false, input), u') && U.Places(u')
    ensures var frames := if v.client && input.Data? then Parse(v.rx + input.bytes).frames else [];
            && AfterGatewayIdle(v, from, lost, false, input).mail == v.mail + Forwarded(Kept(frames, from, lost))
            && U.AcceptedOn(u'.lines) == U.AcceptedOn(u.lines) + U.RequestFrames(frames)
  {
    if v.client && input.Data? {
      DataIsUplink(v, u, from, lost, input.bytes);
      u' := U.AfterReading(u, |input.bytes|);
    } else {
      u' := IdleIsUplink(v, u, from, lost, input);
      AppendInTurn(v.mail, [], []);
      AppendInTurn(U.AcceptedOn(u.lines), [], []);
    }
  }

  // Every turn of gateway is a step or two of Uplink: the accept, if there is
  // one, then the read, the end of the connection, or nothing. What it forwards
  // are the requests that Uplink accepts there, but for the lost ones.
  lemma TurnIsUplink(v: GatewayView, u: U.Up, from: nat, lost: nat -> bool, accepted: bool, c: nat, input: Received)
    returns (u': U.Up)
    requires Same(v, u) && U.Places(u) && (accepted ==> u.passed <= c < |u.lines|)
    requires var started := if accepted then Accepted(u, c) else u;
             input.Data? && started.reader != U.NOBODY ==> NextOnLine(started, input.bytes)
    ensures var started := if accepted then Accepted(u, c) else u;
            && (accepted ==> U.Step(u, U.Accept(c), started))
            && ReadsAs(started, input, u')
    ensures Same(AfterGatewayIdle(v, from, lost, accepted, input), u') && U.Places(u')
    ensures var rx := if accepted then [] else v.rx;
            var frames := if (accepted || v.client) && input.Data? then Parse(rx + input.bytes).frames else [];
            && AfterGatewayIdle(v, from, lost, accepted, input).mail == v.mail + Forwarded(Kept(frames, from, lost))
            && U.AcceptedOn(u'.lines) == U.AcceptedOn(u.lines) + U.RequestFrames(frames)
  {
    if accepted {
      var w := v.(client := true, rx := []);
      assert AfterGatewayIdle(v, from, lost, true, input) == AfterGatewayIdle(w, from, lost, false, input);
      u' := ReadIsUplink(w, Accepted(u, c), from, lost, input);
    } else {
      u' := ReadIsUplink(v, u, from, lost, input);
    }
  }
}
