// From the frames gateway accepts to the frames a vehicle terminal decodes:
// the pipeline and the link of one terminal as one system.
module EndToEnd {
  import opened Wire
  import opened Framing
  import opened Locators
  import opened Subsequences
  import P = Pipeline
  import L = Link

  function Frames(requests: seq<LockRequest>): (frames: seq<Bytes>)
    ensures |frames| == |requests|
    ensures forall i | 0 <= i < |requests| :: frames[i] == EncodeRequest(requests[i])
  {
    seq(|requests|, i requires 0 <= i < |requests| => EncodeRequest(requests[i]))
  }

  predicate IsFor(f: Bytes, text: TermNo) {
    |f| == REQUEST_SIZE && f[20..24] == text
  }

  // The frames that carry this terminal number.
  function AcceptedFor(accepted: seq<Bytes>, text: TermNo): seq<Bytes> {
    if accepted == [] then []
    else
      var f := accepted[|accepted| - 1];
      AcceptedFor(accepted[..|accepted| - 1], text) + if IsFor(f, text) then [f] else []
  }

  lemma FramesSubsequence(a: seq<LockRequest>, b: seq<LockRequest>)
    requires IsSubsequence(a, b)
    ensures IsSubsequence(Frames(a), Frames(b))
  {
    var at: seq<nat> :| Embeds(a, b, at);
    assert Embeds(Frames(a), Frames(b), at);
  }

  lemma {:induction false} AcceptedMeansParsed(accepted: seq<Bytes>, parsed: seq<LockRequest>, text: TermNo)
    requires |accepted| == |parsed|
    requires forall i | 0 <= i < |parsed| :: accepted[i] == EncodeRequest(parsed[i])
    ensures Frames(P.ForText(parsed, text)) == AcceptedFor(accepted, text)
  {
    if accepted != [] {
      var n := |accepted| - 1;
      AcceptedMeansParsed(accepted[..n], parsed[..n], text);
      assert accepted[n][20..24] == parsed[n].termNo;
    }
  }

  lemma {:induction false} DecodedIsSubsequence(conns: seq<L.Connection>)
    requires forall i | 0 <= i < |conns| :: conns[i].got <= conns[i].attempts
    ensures IsSubsequence(L.Decoded(conns), L.Attempts(conns))
  {
    if conns == [] {
      SubsequenceOfSelf<Bytes>([]);
    } else {
      var n := |conns| - 1;
      var last := conns[n];
      DecodedIsSubsequence(conns[..n]);
      SubsequenceOfSelf(last.attempts);
      assert last.attempts == last.got + last.attempts[|last.got|..];
      Prefix(last.got, last.attempts[|last.got|..], last.attempts);
      Both(L.Decoded(conns[..n]), L.Attempts(conns[..n]), last.got, last.attempts);
    }
  }

  // ---- the pipeline and the link of terminal 1000+slot, together ----

  datatype Whole = Whole(sys: P.Sys, net: L.Net)

  // A daemon does something that does not concern the link; something happens
  // on the link other than a command; or the terminal's termd takes a command
  // off its queue and hands it to the socket, which takes sent bytes of it.
  datatype Move = Daemons(a: P.Action) | OnLink(e: L.Event) | Command(a: P.Action, sent: nat)

  predicate ServesTerminal(a: P.Action, slot: int) {
    a.Serve? && a.dest == TermdIndex(slot)
  }

  ghost predicate WholeStep(slot: int, w: Whole, m: Move, w': Whole) {
    match m
    case Daemons(a) =>
      && P.Step(w.sys, a, w'.sys) && w'.net == w.net
      && (ServesTerminal(a, slot) ==> !a.client && w.net.server == L.NOBODY)
    case OnLink(e) =>
      L.Step(w.net, e, w'.net) && !e.Send? && w'.sys == w.sys
    case Command(a, sent) =>
      && ServesTerminal(a, slot) && a.client && (a.whole <==> sent == REQUEST_SIZE)
      && P.Step(w.sys, a, w'.sys)
      && L.Step(w.net, L.Send(EncodeRequest(w.sys.mail[a.k].ipc.request), sent), w'.net)
  }

  ghost predicate WholeRun(slot: int, wholes: seq<Whole>, moves: seq<Move>) {
    && |wholes| == |moves| + 1 && wholes[0] == Whole(P.Start(), L.START)
    && forall i | 0 <= i < |moves| :: WholeStep(slot, wholes[i], moves[i], wholes[i + 1])
  }

  ghost predicate SysInv(slot: int, s: P.Sys)
    requires 0 < slot <= 8999
  {
    P.AllAddressed(s) && P.InOrder(s, slot) && P.LogsAgree(s) && P.OnlyParsedTravels(s)
  }

  // What was ever handed to the link is what termd handed to the socket.
  ghost predicate LogsMeet(slot: int, s: P.Sys, net: L.Net) {
    net.log == Frames(P.DeliveredTo(s.attempted, TermdIndex(slot)))
  }

  lemma AttemptsElsewhere(slot: int, s: P.Sys, a: P.Action, s': P.Sys)
    requires P.Step(s, a, s') && (ServesTerminal(a, slot) ==> !a.client)
    ensures P.DeliveredTo(s'.attempted, TermdIndex(slot)) == P.DeliveredTo(s.attempted, TermdIndex(slot))
  {
    if a.Serve? && a.client {
      P.DeliveredOneMore(s.attempted, P.Delivery(a.dest, s.mail[a.k].ipc.request), TermdIndex(slot));
    }
  }

  lemma FramesOneMore(requests: seq<LockRequest>, m: LockRequest)
    ensures Frames(requests + [m]) == Frames(requests) + [EncodeRequest(m)]
  {
  }

  lemma CommandMeets(slot: int, w: Whole, m: Move, w': Whole)
    requires LogsMeet(slot, w.sys, w.net) && m.Command? && WholeStep(slot, w, m, w')
    ensures LogsMeet(slot, w'.sys, w'.net)
  {
    var request := w.sys.mail[m.a.k].ipc.request;
    P.DeliveredOneMore(w.sys.attempted, P.Delivery(m.a.dest, request), TermdIndex(slot));
    FramesOneMore(P.DeliveredTo(w.sys.attempted, TermdIndex(slot)), request);
  }

  lemma LogsMeetStep(slot: int, w: Whole, m: Move, w': Whole)
    requires LogsMeet(slot, w.sys, w.net) && WholeStep(slot, w, m, w')
    ensures LogsMeet(slot, w'.sys, w'.net)
  {
    match m
    case Daemons(a) => AttemptsElsewhere(slot, w.sys, a, w'.sys);
    case OnLink(e) => L.LogUnchanged(w.net, e, w'.net);
    case Command(_, _) => CommandMeets(slot, w, m, w');
  }

  // A run of both contains a run of each.
  lemma SysMoves(slot: int, w: Whole, m: Move, w': Whole)
    requires WholeStep(slot, w, m, w')
    ensures if m.OnLink? then w'.sys == w.sys else P.Step(w.sys, m.a, w'.sys)
  {
  }

  function LinkEvent(w: Whole, m: Move): L.Event
    requires m.Command? ==> m.a.Serve? && m.a.k < |w.sys.mail| && w.sys.mail[m.a.k].ipc.IpcLockRequest?
  {
    match m
    case Command(a, sent) => L.Send(EncodeRequest(w.sys.mail[a.k].ipc.request), sent)
    case OnLink(e) => e
    case Daemons(_) => L.DropClient
  }

  lemma LinkMoves(slot: int, w: Whole, m: Move, w': Whole)
    requires WholeStep(slot, w, m, w')
    ensures m.Command? ==> m.a.Serve? && m.a.k < |w.sys.mail| && w.sys.mail[m.a.k].ipc.IpcLockRequest?
    ensures if m.Daemons? then w'.net == w.net else L.Step(w.net, LinkEvent(w, m), w'.net)
  {
  }

  lemma MoreSys(states: seq<P.Sys>, actions: seq<P.Action>, a: P.Action, s: P.Sys)
    requires P.Run(states, actions) && P.Step(states[|actions|], a, s)
    ensures P.Run(states + [s], actions + [a])
  {
  }

  lemma MoreLink(nets: seq<L.Net>, events: seq<L.Event>, e: L.Event, n: L.Net)
    requires L.Run(nets, events) && L.Step(nets[|events|], e, n)
    ensures L.Run(nets + [n], events + [e])
  {
  }

  lemma StepAt(slot: int, wholes: seq<Whole>, moves: seq<Move>, n: nat)
    requires WholeRun(slot, wholes, moves) && 0 < n <= |moves|
    ensures WholeStep(slot, wholes[n - 1], moves[n - 1], wholes[n])
  {
  }

  lemma {:induction false} SysRun(slot: int, wholes: seq<Whole>, moves: seq<Move>, n: nat)
    returns (states: seq<P.Sys>, actions: seq<P.Action>)
    requires WholeRun(slot, wholes, moves) && n <= |moves|
    ensures P.Run(states, actions) && states[|actions|] == wholes[n].sys
  {
    if n == 0 {
      states, actions := [wholes[0].sys], [];
    } else {
      states, actions := SysRun(slot, wholes, moves, n - 1);
      StepAt(slot, wholes, moves, n);
      SysMoves(slot, wholes[n - 1], moves[n - 1], wholes[n]);
      if !moves[n - 1].OnLink? {
        MoreSys(states, actions, moves[n - 1].a, wholes[n].sys);
        states, actions := states + [wholes[n].sys], actions + [moves[n - 1].a];
      }
    }
  }

  lemma {:induction false} LinkRun(slot: int, wholes: seq<Whole>, moves: seq<Move>, n: nat)
    returns (nets: seq<L.Net>, events: seq<L.Event>)
    requires WholeRun(slot, wholes, moves) && n <= |moves|
    ensures L.Run(nets, events) && nets[|events|] == wholes[n].net
  {
    if n == 0 {
      nets, events := [wholes[0].net], [];
    } else {
      nets, events := LinkRun(slot, wholes, moves, n - 1);
      StepAt(slot, wholes, moves, n);
      LinkMoves(slot, wholes[n - 1], moves[n - 1], wholes[n]);
      if !moves[n - 1].Daemons? {
        var e := LinkEvent(wholes[n - 1], moves[n - 1]);
        MoreLink(nets, events, e, wholes[n].net);
        nets, events := nets + [wholes[n].net], events + [e];
      }
    }
  }

  lemma SysInvInRun(slot: int, wholes: seq<Whole>, moves: seq<Move>, n: nat)
    requires 0 < slot <= 8999 && WholeRun(slot, wholes, moves) && n <= |moves|
    ensures SysInv(slot, wholes[n].sys)
  {
    var states, actions := SysRun(slot, wholes, moves, n);
    P.RunKeepsAddressing(states, actions, |actions|);
    P.RunKeepsOrder(states, actions, |actions|, slot);
    P.RelayIsTransparent(states, actions, |actions|);
  }

  lemma LinkInvInRun(slot: int, wholes: seq<Whole>, moves: seq<Move>, n: nat)
    requires WholeRun(slot, wholes, moves) && n <= |moves|
    ensures L.Inv(wholes[n].net)
  {
    var nets, events := LinkRun(slot, wholes, moves, n);
    L.RunKeepsInv(nets, events, |events|);
  }

  lemma {:induction false} LogsMeetInRun(slot: int, wholes: seq<Whole>, moves: seq<Move>, n: nat)
    requires WholeRun(slot, wholes, moves) && n <= |moves|
    ensures LogsMeet(slot, wholes[n].sys, wholes[n].net)
  {
    if n != 0 {
      LogsMeetInRun(slot, wholes, moves, n - 1);
      LogsMeetStep(slot, wholes[n - 1], moves[n - 1], wholes[n]);
    }
  }

  // Every command waiting for a terminal is a frame its link can carry, so the
  // link never stands in the way of a Command step.
  lemma CommandsAreWellFormed(slot: int, s: P.Sys, k: nat)
    requires 0 < slot <= 8999 && SysInv(slot, s) && k < |s.mail| && s.mail[k].ipc.IpcLockRequest?
    ensures WellFormed(EncodeRequest(s.mail[k].ipc.request))
  {
    var i :| 0 <= i < |s.parsed| && s.parsed[i] == s.mail[k].ipc.request;
    assert RequestCheck(s.accepted[i]) == Ok;
  }

  lemma AttemptsAreAccepted(slot: int, s: P.Sys)
    requires 0 < slot <= 8999 && SysInv(slot, s)
    ensures IsSubsequence(Frames(P.DeliveredTo(s.attempted, TermdIndex(slot))), AcceptedFor(s.accepted, Spell(1000 + slot)))
  {
    var text := Spell(1000 + slot);
    P.AttemptsInOrder(s, slot);
    FramesSubsequence(P.DeliveredTo(s.attempted, TermdIndex(slot)), P.ForText(s.parsed, text));
    AcceptedMeansParsed(s.accepted, s.parsed, text);
  }

  // In every run of the pipeline and the link of terminal 1000+slot together,
  // over all the connections of that link: what the terminal has decoded is,
  // in order and byte for byte, a subsequence of the frames gateway accepted
  // for that terminal.
  lemma TerminalDecodesAcceptedFrames(slot: int, wholes: seq<Whole>, moves: seq<Move>, n: nat)
    requires 0 < slot <= 8999 && WholeRun(slot, wholes, moves) && n <= |moves|
    ensures IsSubsequence(L.Decoded(wholes[n].net.conns), AcceptedFor(wholes[n].sys.accepted, Spell(1000 + slot)))
  {
    SysInvInRun(slot, wholes, moves, n);
    LinkInvInRun(slot, wholes, moves, n);
    LogsMeetInRun(slot, wholes, moves, n);
    var s, net := wholes[n].sys, wholes[n].net;
    AttemptsAreAccepted(slot, s);
    forall i | 0 <= i < |net.conns| ensures net.conns[i].got <= net.conns[i].attempts {
      L.DecodedIsPrefix(net, i);
    }
    DecodedIsSubsequence(net.conns);
    L.LogIsAttempts(net);
    Transitive(L.Decoded(net.conns), net.log, AcceptedFor(s.accepted, Spell(1000 + slot)));
  }
}
