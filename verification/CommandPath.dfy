// The command path as a whole: a maintenance screen's connections, gateway,
// locator, the shared table with all the processes that use it, the termds,
// and the link of one vehicle terminal, as one transition system.
module CommandPath {
  import opened Wire
  import opened TerminalTable
  import opened TableHistory
  import opened Locators
  import opened Subsequences
  import T = TableProtocol
  import P = Pipeline
  import L = Link
  import U = Uplink
  import E = EndToEnd

  datatype Path = Path(whole: E.Whole, up: U.Up, world: T.World)

  // Inside: the pipeline and the terminal's link. OnTable: process p takes a
  // step inside the table's code.
  datatype Move = Inside(m: E.Move) | OnUplink(e: U.Event) | OnTable(p: nat, a: T.Action)

  // Gateway hands on what it accepts, in that order.
  predicate TakesNext(accepted: seq<Bytes>, found: seq<Bytes>, m: E.Move) {
    m.Daemons? && m.a.Arrive? ==> |accepted| < |found| && m.a.frame == found[|accepted|]
  }

  predicate IsTableMove(m: E.Move) {
    m.Daemons? && m.a.Table?
  }

  // A step that ends a call on the table, by its unlock or by a kill, is a
  // Table action of the pipeline; the others do not concern it.
  ghost predicate TableStep(slot: int, p: Path, q: nat, a: T.Action, p': Path) {
    && T.Step(p.world, q, a, p'.world) && (a.Call? ==> P.TableOpAllowed(a.callOp))
    && if p'.world.history == p.world.history then p'.whole == p.whole
       else p'.world.history != []
            && E.WholeStep(slot, p.whole, E.Daemons(P.Table(Last(p'.world.history))), p'.whole)
  }

  function Last(history: seq<Event>): Event
    requires history != []
  {
    history[|history| - 1]
  }

  ghost predicate Step(slot: int, p: Path, m: Move, p': Path) {
    match m
    case Inside(m) =>
      && E.WholeStep(slot, p.whole, m, p'.whole) && !IsTableMove(m)
      && TakesNext(p.whole.sys.accepted, U.AcceptedOn(p.up.lines), m)
      && p'.up == p.up && p'.world == p.world
    case OnUplink(e) =>
      U.Step(p.up, e, p'.up) && p'.whole == p.whole && p'.world == p.world
    case OnTable(q, a) =>
      TableStep(slot, p, q, a, p') && p'.up == p.up
  }

  function Start(): Path {
    Path(E.Whole(P.Start(), L.START), U.IDLE, T.Boot())
  }

  ghost predicate Run(slot: int, paths: seq<Path>, moves: seq<Move>) {
    && |paths| == |moves| + 1 && paths[0] == Start()
    && forall i | 0 <= i < |moves| :: Step(slot, paths[i], moves[i], paths[i + 1])
  }

  // ---- what one step does to the pipeline's logs ----

  lemma WholeStepAccepts(slot: int, w: E.Whole, m: E.Move, w': E.Whole)
    requires E.WholeStep(slot, w, m, w')
    ensures w'.sys.accepted == w.sys.accepted + if m.Daemons? && m.a.Arrive? then [m.a.frame] else []
    ensures w'.sys.rows == if IsTableMove(m) then Effect(m.a.e, w.sys.rows) else w.sys.rows
  {
  }

  // ---- the three parts keep their own invariants ----

  lemma StepOfWhole(slot: int, p: Path, m: Move, p': Path) returns (moved: bool, inner: E.Move)
    requires Step(slot, p, m, p')
    ensures if moved then E.WholeStep(slot, p.whole, inner, p'.whole) else p'.whole == p.whole
  {
    moved, inner := false, E.OnLink(L.Lost);
    if m.Inside? {
      moved, inner := true, m.m;
    } else if m.OnTable? && p'.world.history != p.world.history {
      moved, inner := true, E.Daemons(P.Table(Last(p'.world.history)));
    }
  }

  lemma StepInRun(slot: int, paths: seq<Path>, moves: seq<Move>, n: nat) returns (moved: bool, m: E.Move)
    requires Run(slot, paths, moves) && 0 < n <= |moves|
    ensures if moved then E.WholeStep(slot, paths[n - 1].whole, m, paths[n].whole) else paths[n].whole == paths[n - 1].whole
  {
    moved, m := StepOfWhole(slot, paths[n - 1], moves[n - 1], paths[n]);
  }

  lemma ExtendWhole(slot: int, wholes: seq<E.Whole>, moves: seq<E.Move>, m: E.Move, w: E.Whole)
    requires E.WholeRun(slot, wholes, moves) && E.WholeStep(slot, wholes[|moves|], m, w)
    ensures E.WholeRun(slot, wholes + [w], moves + [m])
  {
  }

  // A run of the whole path contains a run of the pipeline and the link.
  lemma {:induction false} PipelineRun(slot: int, paths: seq<Path>, moves: seq<Move>, n: nat)
    returns (wholes: seq<E.Whole>, inner: seq<E.Move>)
    requires Run(slot, paths, moves) && n <= |moves|
    ensures E.WholeRun(slot, wholes, inner) && wholes[|inner|] == paths[n].whole
  {
    if n == 0 {
      wholes, inner := [paths[0].whole], [];
    } else {
      wholes, inner := PipelineRun(slot, paths, moves, n - 1);
      var moved, m := StepInRun(slot, paths, moves, n);
      if moved {
        ExtendWhole(slot, wholes, inner, m, paths[n].whole);
        wholes, inner := wholes + [paths[n].whole], inner + [m];
      }
    }
  }

  lemma UplinkStep(slot: int, p: Path, m: Move, p': Path)
    requires Step(slot, p, m, p') && U.Inv(p.up)
    ensures U.Inv(p'.up)
  {
    if m.OnUplink? {
      U.StepKeepsInv(p.up, m.e, p'.up);
    }
  }

  lemma {:induction false} UplinkInRun(slot: int, paths: seq<Path>, moves: seq<Move>, n: nat)
    requires Run(slot, paths, moves) && n <= |moves|
    ensures U.Inv(paths[n].up)
  {
    if n != 0 {
      UplinkInRun(slot, paths, moves, n - 1);
      UplinkStep(slot, paths[n - 1], moves[n - 1], paths[n]);
    }
  }

  // ---- gateway and the maintenance connections ----

  ghost predicate HandsOn(p: Path) {
    p.whole.sys.accepted <= U.AcceptedOn(p.up.lines)
  }

  lemma HandsOnStep(slot: int, p: Path, m: Move, p': Path)
    requires Step(slot, p, m, p') && U.Places(p.up) && HandsOn(p)
    ensures HandsOn(p')
  {
    match m
    case Inside(m) => WholeStepAccepts(slot, p.whole, m, p'.whole);
    case OnUplink(e) => U.AcceptedOnlyGrows(p.up, e, p'.up);
    case OnTable(q, a) =>
      if p'.world.history != p.world.history {
        WholeStepAccepts(slot, p.whole, E.Daemons(P.Table(Last(p'.world.history))), p'.whole);
      }
  }

  lemma {:induction false} HandsOnInRun(slot: int, paths: seq<Path>, moves: seq<Move>, n: nat)
    requires Run(slot, paths, moves) && n <= |moves|
    ensures HandsOn(paths[n])
  {
    if n != 0 {
      HandsOnInRun(slot, paths, moves, n - 1);
      UplinkInRun(slot, paths, moves, n - 1);
      HandsOnStep(slot, paths[n - 1], moves[n - 1], paths[n]);
    }
  }

  lemma FilterLast(frames: seq<Bytes>, text: TermNo)
    requires frames != []
    ensures var n := |frames| - 1;
            E.AcceptedFor(frames, text) == E.AcceptedFor(frames[..n], text) + if E.IsFor(frames[n], text) then [frames[n]] else []
  {
  }

  lemma GrowBoth(a: seq<Bytes>, b: seq<Bytes>, x: Bytes, taken: bool, kept: bool)
    requires IsSubsequence(a, b)
    ensures IsSubsequence(a + if taken && kept then [x] else [], b + if kept then [x] else [])
  {
    Skip(a, b, if kept then [x] else []);
    assert a + [] == a;
    if taken && kept {
      Extend(a, b, x);
    }
  }

  lemma {:induction false} FilterSubsequence(a: seq<Bytes>, b: seq<Bytes>, text: TermNo)
    requires IsSubsequence(a, b)
    ensures IsSubsequence(E.AcceptedFor(a, text), E.AcceptedFor(b, text))
    decreases |b|
  {
    if a == [] {
      EmptyIsSubsequence<Bytes>(E.AcceptedFor(b, text));
    } else {
      var taken := SplitLast(a, b);
      var n := |b| - 1;
      var start := if taken then a[..|a| - 1] else a;
      FilterSubsequence(start, b[..n], text);
      FilterLast(a, text);
      FilterLast(b, text);
      GrowBoth(E.AcceptedFor(start, text), E.AcceptedFor(b[..n], text), b[n], taken, E.IsFor(b[n], text));
      assert !taken ==> E.AcceptedFor(start, text) + [] == E.AcceptedFor(a, text);
    }
  }

  // From the screen to the vehicle: over all its connections, and as long as
  // no command was written behind a short write, what the terminal has decoded
  // is, in order and byte for byte, a subsequence of the commands for it that
  // the screen wrote, over all of the screen's connections.
  lemma TerminalDecodesWrittenCommands(slot: int, paths: seq<Path>, moves: seq<Move>, n: nat)
    requires 0 < slot <= 8999 && Run(slot, paths, moves) && n <= |moves|
    requires U.NothingSpoilt(paths[n].up.lines)
    ensures IsSubsequence(L.Decoded(paths[n].whole.net.conns),
                          E.AcceptedFor(U.WrittenOn(paths[n].up.lines), Spell(1000 + slot)))
  {
    var sys, lines, text := paths[n].whole.sys, paths[n].up.lines, Spell(1000 + slot);
    var wholes, inner := PipelineRun(slot, paths, moves, n);
    E.TerminalDecodesAcceptedFrames(slot, wholes, inner, |inner|);
    UplinkInRun(slot, paths, moves, n);
    HandsOnInRun(slot, paths, moves, n);
    U.AcceptedWasWritten(lines);
    var found := U.AcceptedOn(lines);
    assert found == sys.accepted + found[|sys.accepted|..];
    Prefix(sys.accepted, found[|sys.accepted|..], U.WrittenOn(lines));
    FilterSubsequence(sys.accepted, U.WrittenOn(lines), text);
    Transitive(L.Decoded(paths[n].whole.net.conns), E.AcceptedFor(sys.accepted, text),
               E.AcceptedFor(U.WrittenOn(lines), text));
  }

  // ---- locator's rows and the shared memory ----

  ghost predicate OpsAllowed(w: T.World) {
    forall q | q in w.procs :: OpAllowed(w.procs[q].pc)
  }

  ghost predicate OpAllowed(pc: T.Pc) {
    match pc
    case Wanting(op) => P.TableOpAllowed(op)
    case Holding(op, _) => P.TableOpAllowed(op)
    case _ => true
  }

  ghost predicate RowsAreShared(p: Path) {
    p.whole.sys.rows == Replay(p.world.history)
  }

  lemma HistoryGrows(w: T.World, q: nat, a: T.Action, w': T.World)
    requires T.Step(w, q, a, w') && w'.history != w.history
    ensures w'.history != [] && w'.history[..|w'.history| - 1] == w.history
    ensures q in w.procs && w.procs[q].pc.Holding? && Last(w'.history).op == w.procs[q].pc.op
  {
  }

  lemma TableStepShares(slot: int, p: Path, q: nat, a: T.Action, p': Path)
    requires TableStep(slot, p, q, a, p') && RowsAreShared(p)
    ensures RowsAreShared(p')
  {
    if p'.world.history != p.world.history {
      HistoryGrows(p.world, q, a, p'.world);
      WholeStepAccepts(slot, p.whole, E.Daemons(P.Table(Last(p'.world.history))), p'.whole);
    }
  }

  lemma SharingStep(slot: int, p: Path, m: Move, p': Path)
    requires Step(slot, p, m, p') && RowsAreShared(p)
    ensures RowsAreShared(p')
  {
    match m
    case Inside(m) => WholeStepAccepts(slot, p.whole, m, p'.whole);
    case OnUplink(_) =>
    case OnTable(q, a) => TableStepShares(slot, p, q, a, p');
  }

  lemma TableInvStep(slot: int, p: Path, m: Move, p': Path)
    requires Step(slot, p, m, p') && T.Inv(p.world)
    ensures T.Inv(p'.world)
  {
    if m.OnTable? {
      T.StepKeepsInv(p.world, m.p, m.a, p'.world);
    }
  }

  // The rows locator resolves with are, in every run, the table as the history
  // of all processes' calls left it, kills included.
  lemma {:induction false} LocatorUsesTheSharedTable(slot: int, paths: seq<Path>, moves: seq<Move>, n: nat)
    requires Run(slot, paths, moves) && n <= |moves|
    ensures T.Inv(paths[n].world) && RowsAreShared(paths[n])
  {
    if n == 0 {
      T.BootIsSafe();
    } else {
      LocatorUsesTheSharedTable(slot, paths, moves, n - 1);
      TableInvStep(slot, paths[n - 1], moves[n - 1], paths[n]);
      SharingStep(slot, paths[n - 1], moves[n - 1], paths[n]);
    }
  }

  lemma EventIsPossible(w: T.World, q: nat, a: T.Action, w': T.World)
    requires T.Inv(w) && OpsAllowed(w) && T.Step(w, q, a, w') && w'.history != w.history
    ensures w'.history != []
    ensures P.TableOpAllowed(Last(w'.history).op) && EventFits(Last(w'.history), Replay(w.history))
  {
    HistoryGrows(w, q, a, w');
    T.StepKeepsInv(w, q, a, w');
    assert OpAllowed(w.procs[q].pc);
    assert EventFits(w'.history[|w'.history| - 1], Replay(w'.history[..|w'.history| - 1]));
  }

  // And the pipeline never stands in the table's way: whatever a process does
  // there, the pipeline can make the matching step.
  lemma TableIsFree(slot: int, p: Path, q: nat, a: T.Action, world: T.World) returns (p': Path)
    requires T.Inv(p.world) && OpsAllowed(p.world) && RowsAreShared(p)
    requires T.Step(p.world, q, a, world) && (a.Call? ==> P.TableOpAllowed(a.callOp))
    ensures Step(slot, p, OnTable(q, a), p') && p'.world == world && OpsAllowed(world)
  {
    OpsStayAllowed(p.world, q, a, world);
    p' := p.(world := world);
    if world.history != p.world.history {
      EventIsPossible(p.world, q, a, world);
      p' := p'.(whole := WithRows(p.whole, Effect(Last(world.history), p.whole.sys.rows)));
      TableMove(slot, p.whole, Last(world.history));
    }
  }

  function WithRows(w: E.Whole, rows: seq<Row>): E.Whole {
    w.(sys := w.sys.(rows := rows))
  }

  lemma TableMove(slot: int, w: E.Whole, e: Event)
    requires P.TableOpAllowed(e.op) && EventFits(e, w.sys.rows)
    ensures E.WholeStep(slot, w, E.Daemons(P.Table(e)), WithRows(w, Effect(e, w.sys.rows)))
  {
  }

  lemma OpsStayAllowed(w: T.World, q: nat, a: T.Action, w': T.World)
    requires OpsAllowed(w) && T.Step(w, q, a, w') && (a.Call? ==> P.TableOpAllowed(a.callOp))
    ensures OpsAllowed(w')
  {
    forall r | r in w'.procs ensures OpAllowed(w'.procs[r].pc) {
      assert r in w.procs ==> OpAllowed(w.procs[r].pc);
      assert q in w.procs ==> OpAllowed(w.procs[q].pc);
    }
  }
}
