// What the processes of TableProtocol can do from here: a call that got the
// lock can always finish, and a reader can be handed a torn row
// (common/shm_table.cpp).
module TableReach {
  import opened Wire
  import opened TerminalTable
  import opened TableHistory
  import opened TableSections
  import opened TableProtocol
  import opened TableRuns

  ghost predicate Leads(w: World, worlds: seq<World>, pids: seq<nat>, actions: seq<Action>, w': World) {
    Run(worlds, pids, actions) && worlds[0] == w && worlds[|pids|] == w'
  }

  // Some run leads from w to w'.
  ghost predicate Reaches(w: World, w': World) {
    exists worlds, pids, actions :: Leads(w, worlds, pids, actions, w')
  }

  lemma ReachesSelf(w: World)
    ensures Reaches(w, w)
  {
    assert Leads(w, [w], [], [], w);
  }

  lemma ReachesByStep(w: World, w': World, p: nat, a: Action, w'': World)
    requires Reaches(w, w') && Step(w', p, a, w'')
    ensures Reaches(w, w'')
  {
    var worlds, pids, actions :| Leads(w, worlds, pids, actions, w');
    assert Leads(w, worlds + [w''], pids + [p], actions + [a], w'');
  }

  lemma {:induction false} RunReachesOn(w: World, worlds: seq<World>, pids: seq<nat>, actions: seq<Action>, n: nat)
    requires Run(worlds, pids, actions) && n <= |pids| && Reaches(w, worlds[0])
    ensures Reaches(w, worlds[n])
  {
    if n != 0 {
      RunReachesOn(w, worlds, pids, actions, n - 1);
      ReachesByStep(w, worlds[n - 1], pids[n - 1], actions[n - 1], worlds[n]);
    }
  }

  lemma ReachesOn(w: World, w': World, w'': World)
    requires Reaches(w, w') && Reaches(w', w'')
    ensures Reaches(w, w'')
  {
    var worlds, pids, actions :| Leads(w', worlds, pids, actions, w'');
    RunReachesOn(w, worlds, pids, actions, |pids|);
  }

  // ---- a call that is in can finish ----

  // How many accesses a call has left at most.
  function Rank(c: Section): int {
    match c
    case Seek(i) => 400 + MAX_TERMINALS - i
    case SeekFree(i) => 10 + MAX_TERMINALS - i
    case Write(_, todo) => 1 + |todo|
    case Copy(i, todo, _, _) => (MAX_TERMINALS - i) * 6 + 1 + |todo|
    case Gather(i, _) => (MAX_TERMINALS - i) * 6 + 6
    case Finished(_) => 0
  }

  lemma WritesAtMostFour(op: Op)
    ensures |WrittenFields(op)| <= 4 && |ALL_FIELDS| == 4
  {
  }

  // The part of being on track that the next access needs.
  predicate Placed(op: Op, c: Section) {
    match c
    case Seek(i) => !op.Snapshot? && i <= MAX_TERMINALS
    case SeekFree(i) => i <= MAX_TERMINALS
    case Write(i, _) => i < MAX_TERMINALS
    case Copy(i, _, _, _) => i < MAX_TERMINALS
    case Gather(i, _) => op.Snapshot? && i <= MAX_TERMINALS
    case Finished(_) => true
  }

  lemma OnTrackIsPlaced(op: Op, c: Section, base: seq<Row>, rows: seq<Row>)
    requires OnTrack(op, c, base, rows)
    ensures Placed(op, c) && |rows| == MAX_TERMINALS
  {
  }

  lemma RankDrops(todo: set<Field>, f: Field)
    requires f in todo
    ensures |todo - {f}| == |todo| - 1
  {
  }

  lemma CanSeek(op: Op, c: Section, rows: seq<Row>) returns (c': Section)
    requires Placed(op, c) && |rows| == MAX_TERMINALS && (c.Seek? || c.SeekFree? || c.Gather?)
    ensures Advance(op, c, rows, c', rows) && 0 <= Rank(c') < Rank(c)
  {
    WritesAtMostFour(op);
    match c
    case Seek(i) =>
      c' := if i >= MAX_TERMINALS then SeekEnds(op)
            else if rows[i].termNo == op.termNo then SeekHits(op, i) else Seek(i + 1);
    case SeekFree(i) =>
      c' := if i >= MAX_TERMINALS then Finished(Done(false))
            else if rows[i].termNo == 0 then Write(i, WrittenFields(op)) else SeekFree(i + 1);
    case Gather(i, taken) =>
      c' := if i >= MAX_TERMINALS || |taken| >= op.cap then Finished(Rows(taken))
            else if rows[i].termNo != 0 then Copy(i, ALL_FIELDS, FREE_ROW, taken) else Gather(i + 1, taken);
  }

  lemma CanWrite(op: Op, c: Section, rows: seq<Row>) returns (c': Section, rows': seq<Row>)
    requires Placed(op, c) && |rows| == MAX_TERMINALS && c.Write?
    ensures |rows'| == MAX_TERMINALS && Advance(op, c, rows, c', rows') && 0 <= Rank(c') < Rank(c)
  {
    if c.todo == {} {
      c', rows' := Finished(Done(true)), rows;
    } else {
      var f :| f in c.todo;
      c', rows' := Write(c.i, c.todo - {f}), rows[c.i := Merge(rows[c.i], Source(op), {f})];
      RankDrops(c.todo, f);
      assert WritesOne(op, c, rows, c', rows');
    }
  }

  lemma CanCopy(op: Op, c: Section, rows: seq<Row>) returns (c': Section)
    requires Placed(op, c) && |rows| == MAX_TERMINALS && c.Copy?
    ensures Advance(op, c, rows, c', rows) && 0 <= Rank(c') < Rank(c)
  {
    if c.todo == {} {
      c' := if op.Snapshot? then Gather(c.i + 1, c.taken + [c.got]) else Finished(Found(c.got));
    } else {
      var f :| f in c.todo;
      c' := Copy(c.i, c.todo - {f}, Merge(c.got, rows[c.i], {f}), c.taken);
      RankDrops(c.todo, f);
      assert CopiesOne(c, rows, c');
    }
  }

  lemma CanAdvance(op: Op, c: Section, rows: seq<Row>) returns (c': Section, rows': seq<Row>)
    requires Placed(op, c) && |rows| == MAX_TERMINALS && !c.Finished?
    ensures |rows'| == MAX_TERMINALS && Advance(op, c, rows, c', rows') && 0 <= Rank(c') < Rank(c)
  {
    rows' := rows;
    if c.Write? {
      c', rows' := CanWrite(op, c, rows);
    } else if c.Copy? {
      c' := CanCopy(op, c, rows);
    } else {
      c' := CanSeek(op, c, rows);
    }
  }

  lemma HolderAdvances(w: World, p: nat) returns (c: Section, rows: seq<Row>, w': World)
    requires Inv(w) && p in w.procs && w.procs[p].pc.Holding? && !w.procs[p].pc.section.Finished?
    ensures w' == w.(rows := rows, procs := Moved(w, p, Holding(w.procs[p].pc.op, c)))
    ensures Step(w, p, Inside(c, rows), w') && 0 <= Rank(c) < Rank(w.procs[p].pc.section)
  {
    var pc := w.procs[p].pc;
    assert Tracks(pc, Replay(w.history), w.rows);
    OnTrackIsPlaced(pc.op, pc.section, Replay(w.history), w.rows);
    c, rows := CanAdvance(pc.op, pc.section, w.rows);
    w' := w.(rows := rows, procs := Moved(w, p, Holding(pc.op, c)));
  }

  // What is left to p in a world, other than where it is in its call.
  ghost predicate SameButSection(w: World, p: nat, w': World)
    requires p in w.procs && w.procs[p].pc.Holding?
  {
    && p in w'.procs && w'.procs[p].pc.Holding? && w'.procs[p].pc.op == w.procs[p].pc.op
    && w' == w.(rows := w'.rows, procs := w.procs[p := w.procs[p].(pc := w'.procs[p].pc)])
  }

  lemma SameButSectionTwice(w: World, p: nat, next: World, w': World)
    requires p in w.procs && w.procs[p].pc.Holding? && SameButSection(w, p, next) && SameButSection(next, p, w')
    ensures SameButSection(w, p, w')
  {
    assert w.procs[p := next.procs[p]][p := w'.procs[p]] == w.procs[p := w'.procs[p]];
  }

  lemma AdvanceReaches(w: World, p: nat) returns (w': World)
    requires Inv(w) && p in w.procs && w.procs[p].pc.Holding? && !w.procs[p].pc.section.Finished?
    ensures Inv(w') && Reaches(w, w') && SameButSection(w, p, w')
    ensures 0 <= Rank(w'.procs[p].pc.section) < Rank(w.procs[p].pc.section)
  {
    var c, rows;
    c, rows, w' := HolderAdvances(w, p);
    StepKeepsInv(w, p, Inside(c, rows), w');
    ReachesSelf(w);
    ReachesByStep(w, w, p, Inside(c, rows), w');
  }

  lemma {:induction false} HolderFinishes(w: World, p: nat) returns (w': World)
    requires Inv(w) && p in w.procs && w.procs[p].pc.Holding?
    ensures Inv(w') && Reaches(w, w') && SameButSection(w, p, w') && w'.procs[p].pc.section.Finished?
    decreases Rank(w.procs[p].pc.section)
  {
    if w.procs[p].pc.section.Finished? {
      w' := w;
      ReachesSelf(w);
      assert w.procs == w.procs[p := w.procs[p]];
    } else {
      var next := AdvanceReaches(w, p);
      w' := HolderFinishes(next, p);
      ReachesOn(w, next, w');
      SameButSectionTwice(w, p, next, w');
    }
  }

  lemma CallIsMade(w: World, p: nat, op: Op) returns (w': World)
    requires Inv(w) && p in w.procs && w.procs[p].pc == Opened && Admitted(op)
    ensures Inv(w') && Reaches(w, w') && w' == w.(procs := w.procs[p := Proc(Wanting(op), 0)])
  {
    assert w.procs[p].semadj == 0;
    w' := w.(procs := w.procs[p := Proc(Wanting(op), 0)]);
    assert Step(w, p, Call(op), w');
    StepKeepsInv(w, p, Call(op), w');
    ReachesSelf(w);
    ReachesByStep(w, w, p, Call(op), w');
  }

  lemma LockIsTaken(w: World, p: nat, op: Op) returns (w': World)
    requires Inv(w) && w.sem == Present(1, true) && p in w.procs && w.procs[p] == Proc(Wanting(op), 0)
    ensures Inv(w') && Reaches(w, w')
    ensures w' == w.(sem := Present(0, true), procs := w.procs[p := Proc(Holding(op, Enter(op)), 1)])
  {
    w' := w.(sem := Present(0, true), procs := w.procs[p := Proc(Holding(op, Enter(op)), 1)]);
    assert Step(w, p, Acquire, w');
    StepKeepsInv(w, p, Acquire, w');
    ReachesSelf(w);
    ReachesByStep(w, w, p, Acquire, w');
  }

  lemma CallEnters(w: World, p: nat, op: Op) returns (w': World)
    requires Inv(w) && w.sem == Present(1, true) && p in w.procs && w.procs[p].pc == Opened && Admitted(op)
    ensures Inv(w') && Reaches(w, w')
    ensures w' == w.(sem := Present(0, true), procs := w.procs[p := Proc(Holding(op, Enter(op)), 1)])
  {
    var wanting := CallIsMade(w, p, op);
    w' := LockIsTaken(wanting, p, op);
    ReachesOn(w, wanting, w');
    assert w'.procs == w.procs[p := Proc(Holding(op, Enter(op)), 1)];
  }

  lemma CallLeaves(w: World, p: nat) returns (w': World)
    requires Inv(w) && p in w.procs && w.procs[p].pc.Holding? && w.procs[p].pc.section.Finished?
    requires w.sem == Present(0, true) && w.procs[p].semadj == 1
    ensures Inv(w') && Reaches(w, w') && w'.procs == w.procs[p := Proc(Opened, 0)] && w'.sem == Present(1, true)
    ensures var op := w.procs[p].pc.op;
            w'.history == w.history + [Completed(op, ReplyTo(op, Replay(w.history)))]
  {
    var pc := w.procs[p].pc;
    assert Tracks(pc, Replay(w.history), w.rows);
    w' := w.(sem := Present(1, true), procs := w.procs[p := Proc(Opened, 0)],
             history := w.history + [Completed(pc.op, pc.section.reply)]);
    assert Step(w, p, Release, w');
    StepKeepsInv(w, p, Release, w');
    ReachesSelf(w);
    ReachesByStep(w, w, p, Release, w');
  }

  lemma PutBack(procs: map<nat, Proc>, p: nat, a: Proc, b: Proc)
    requires p in procs
    ensures procs[p := a][p := b][p := procs[p]] == procs
  {
  }

  // From any reachable state in which the lock is free, any process that is
  // idle can run any call from lock to unlock, and gets the sequential answer.
  lemma CallRuns(w: World, p: nat, op: Op) returns (w': World)
    requires Inv(w) && w.sem == Present(1, true) && p in w.procs && w.procs[p] == Proc(Opened, 0) && Admitted(op)
    ensures Inv(w') && Reaches(w, w') && w'.procs == w.procs && w'.sem == w.sem
    ensures w'.history == w.history + [Completed(op, ReplyTo(op, Replay(w.history)))]
  {
    var inside := CallEnters(w, p, op);
    var done := HolderFinishes(inside, p);
    w' := CallLeaves(done, p);
    ReachesOn(w, inside, done);
    ReachesOn(w, done, w');
    PutBack(w.procs, p, inside.procs[p], done.procs[p]);
  }

  // ---- a reader can be handed a torn row ----

  const STATE_WRITES: set<Field> := {StateField, CapabilitiesField, LastSeenField}

  ghost predicate AboutToSetState(w: World, p: nat) {
    && p in w.procs && w.procs[p].pc.Holding? && w.procs[p].pc.op.SetState?
    && w.procs[p].pc.section.Write? && w.procs[p].pc.section.todo == STATE_WRITES
  }

  lemma FindsWritten(op: Op, base: seq<Row>)
    requires op.SetState? && |base| == MAX_TERMINALS && WriteIndex(op, base) < MAX_TERMINALS
    ensures var i, rows := WriteIndex(op, base), WriteFields(op, {StateField}, base);
            ReplyTo(Find(op.termNo), rows) == Found(base[i].(state := op.state))
  {
    var i, rows := WriteIndex(op, base), WriteFields(op, {StateField}, base);
    assert forall j | 0 <= j < |rows| :: rows[j].termNo == base[j].termNo;
    assert IndexOf(rows, op.termNo) == i;
  }

  ghost predicate HasWrittenState(w: World, p: nat, op: Op) {
    && p in w.procs && w.procs[p].pc.Holding? && w.procs[p].pc.op == op && op.SetState?
    && w.procs[p].pc.section.Write? && w.procs[p].pc.section.todo == STATE_WRITES - {StateField}
  }

  lemma FirstWrite(w: World, p: nat) returns (w': World)
    requires Inv(w) && AboutToSetState(w, p)
    ensures Inv(w') && Reaches(w, w') && HasWrittenState(w', p, w.procs[p].pc.op)
    ensures w'.sem == w.sem && w'.history == w.history && w'.procs - {p} == w.procs - {p}
  {
    var op, i := w.procs[p].pc.op, w.procs[p].pc.section.i;
    assert Tracks(w.procs[p].pc, Replay(w.history), w.rows);
    var c, rows := Write(i, STATE_WRITES - {StateField}), w.rows[i := Merge(w.rows[i], Source(op), {StateField})];
    w' := w.(procs := Moved(w, p, Holding(op, c)), rows := rows);
    assert WritesOne(op, w.procs[p].pc.section, w.rows, c, rows);
    assert Step(w, p, Inside(c, rows), w');
    StepKeepsInv(w, p, Inside(c, rows), w');
    ReachesSelf(w);
    ReachesByStep(w, w, p, Inside(c, rows), w');
  }

  lemma ThenKill(w: World, p: nat, op: Op) returns (w': World)
    requires Inv(w) && HasWrittenState(w, p, op) && w.sem.Present?
    ensures Inv(w') && Reaches(w, w') && w'.sem == Present(1, true) && w'.procs == w.procs - {p}
    ensures w'.history == w.history + [Torn(op, {StateField})]
  {
    assert Progress(op, w.procs[p].pc.section) == {StateField};
    w' := w.(sem := w.sem.(value := w.sem.value + w.procs[p].semadj), procs := w.procs - {p},
             history := w.history + [Torn(op, Progress(op, w.procs[p].pc.section))]);
    assert Step(w, p, Kill, w');
    StepKeepsInv(w, p, Kill, w');
    KillReturnsTheLock(w, p, w');
    ReachesSelf(w);
    ReachesByStep(w, w, p, Kill, w');
  }

  lemma FirstWriteThenKill(w: World, p: nat) returns (w': World)
    requires Inv(w) && AboutToSetState(w, p) && w.sem.Present?
    ensures Inv(w') && Reaches(w, w') && w'.sem == Present(1, true) && w'.procs == w.procs - {p}
    ensures w'.history == w.history + [Torn(w.procs[p].pc.op, {StateField})]
  {
    var torn := FirstWrite(w, p);
    w' := ThenKill(torn, p, w.procs[p].pc.op);
    ReachesOn(w, torn, w');
  }

  // What a find gets right after a set_state that only got to write the state.
  lemma FindAfterTear(history: seq<Event>, op: Op)
    requires op.SetState? && WriteIndex(op, Replay(history)) < MAX_TERMINALS
    ensures var torn := history + [Torn(op, {StateField})];
            var row := Replay(history)[WriteIndex(op, Replay(history))];
            torn + [Completed(Find(op.termNo), ReplyTo(Find(op.termNo), Replay(torn)))]
            == history + [Torn(op, {StateField}), Completed(Find(op.termNo), Found(row.(state := op.state)))]
  {
    assert (history + [Torn(op, {StateField})])[..|history|] == history;
    FindsWritten(op, Replay(history));
  }

  lemma RowIsThere(w: World, p: nat)
    requires Inv(w) && AboutToSetState(w, p)
    ensures WriteIndex(w.procs[p].pc.op, Replay(w.history)) < MAX_TERMINALS
  {
    assert Tracks(w.procs[p].pc, Replay(w.history), w.rows);
  }

  // p is about to make the three writes of a set_state; it makes the first and
  // is killed; q then looks the terminal up and gets the half-written row.
  lemma TornRowIsRead(w: World, p: nat, q: nat) returns (w': World)
    requires Inv(w) && AboutToSetState(w, p) && w.sem.Present?
    requires q != p && q in w.procs && w.procs[q] == Proc(Opened, 0)
    ensures Inv(w') && Reaches(w, w')
    ensures var op, base := w.procs[p].pc.op, Replay(w.history);
            var i := WriteIndex(op, base);
            && i < MAX_TERMINALS
            && w'.history == w.history + [Torn(op, {StateField}), Completed(Find(op.termNo), Found(base[i].(state := op.state)))]
  {
    var op := w.procs[p].pc.op;
    RowIsThere(w, p);
    FindAfterTear(w.history, op);
    var killed := FirstWriteThenKill(w, p);
    w' := CallRuns(killed, q, Find(op.termNo));
    ReachesOn(w, killed, w');
  }

  lemma ReachedIsSafe(w: World)
    requires Reaches(Boot(), w)
    ensures Inv(w)
  {
    var worlds, pids, actions :| Leads(Boot(), worlds, pids, actions, w);
    RunKeepsInv(worlds, pids, actions, |pids|);
  }

  // Process 0 creates the semaphore and process 1 finds it there.
  lemma TwoProcesses() returns (w: World)
    ensures Reaches(Boot(), w) && w.history == [] && w.sem == Present(1, true) && w.procs.Keys == {0, 1}
    ensures w.procs[0] == w.procs[1] == Proc(Opened, 0)
  {
    var fresh0, ready := Proc(Starting, 0), Proc(Opened, 0);
    var w1 := Boot().(procs := map[0 := fresh0]);
    var w2 := w1.(sem := Present(0, false), procs := map[0 := Proc(Creator, 0)]);
    var w3 := w2.(sem := Present(1, true), procs := map[0 := ready], inits := 1);
    var w4 := w3.(procs := map[0 := ready, 1 := fresh0]);
    var w5 := w3.(procs := map[0 := ready, 1 := Proc(Waiting(0), 0)]);
    w := w3.(procs := map[0 := ready, 1 := ready]);
    ReachesSelf(Boot());
    ReachesByStep(Boot(), Boot(), 0, Spawn, w1);
    ReachesByStep(Boot(), w1, 0, CreateExclusive, w2);
    ReachesByStep(Boot(), w2, 0, Initialise, w3);
    ReachesByStep(Boot(), w3, 1, Spawn, w4);
    ReachesByStep(Boot(), w4, 1, CreateExclusive, w5);
    ReachesByStep(Boot(), w5, 1, Poll, w);
  }

  // In the only row of the table, the search hits at once.
  lemma SearchHits(w: World, p: nat, t: uint32) returns (w': World)
    requires Inv(w) && p in w.procs && t != 0 && Replay(w.history)[0].termNo == t
    requires w.procs[p].pc.Holding? && w.procs[p].pc.section == Seek(0)
    requires w.procs[p].pc.op.SetState? && w.procs[p].pc.op.termNo == t
    ensures Inv(w') && Reaches(w, w') && AboutToSetState(w', p)
    ensures SameButSection(w, p, w')
  {
    var pc := w.procs[p].pc;
    assert Tracks(pc, Replay(w.history), w.rows);
    WriteNothing(pc.op, Replay(w.history));
    var c := Write(0, STATE_WRITES);
    w' := w.(procs := Moved(w, p, Holding(pc.op, c)));
    assert Step(w, p, Inside(c, w.rows), w');
    StepKeepsInv(w, p, Inside(c, w.rows), w');
    ReachesSelf(w);
    ReachesByStep(w, w, p, Inside(c, w.rows), w');
  }

  lemma AfterRegistration(t: uint32)
    requires t != 0
    ensures var h := [Completed(Register(t), ReplyTo(Register(t), EmptyTable()))];
            && h[0].reply == Done(true)
            && Replay(h)[0] == CommittedRow(h, 0) == Row(t, 0, TERM_STATE_DISCONNECTED, 0)
  {
    var h := [Completed(Register(t), ReplyTo(Register(t), EmptyTable()))];
    assert h[..0] == [];
    assert IndexOf(EmptyTable(), t) == MAX_TERMINALS && IndexOf(EmptyTable(), 0) == 0;
    assert Writes(h, 0, 0);
  }

  // So from a machine just started, two processes are enough for a reader to
  // be handed a row that no completed call ever left: a terminal that was only
  // ever registered is reported as connected.
  lemma TornReadIsReachable(t: uint32, capabilities: uint32, now: uint64) returns (w: World)
    requires t != 0
    ensures Reaches(Boot(), w)
    ensures var committed := Row(t, 0, TERM_STATE_DISCONNECTED, 0);
            && w.history == [Completed(Register(t), Done(true)),
                             Torn(SetState(t, TERM_STATE_CONNECTED, capabilities, now), {StateField}),
                             Completed(Find(t), Found(committed.(state := TERM_STATE_CONNECTED)))]
            && CommittedRow(w.history[..2], 0) == committed
  {
    var op := SetState(t, TERM_STATE_CONNECTED, capabilities, now);
    var start := TwoProcesses();
    ReachedIsSafe(start);
    var registered := CallRuns(start, 0, Register(t));
    AfterRegistration(t);
    var inside := CallEnters(registered, 0, op);
    var ready := SearchHits(inside, 0, t);
    w := TornRowIsRead(ready, 0, 1);
    ReachesOn(Boot(), start, registered);
    ReachesOn(Boot(), registered, inside);
    ReachesOn(Boot(), inside, ready);
    ReachesOn(Boot(), ready, w);
    var h := registered.history;
    assert w.history[..2] == h + [Torn(op, {StateField})];
    assert w.history[..2][..1] == h;
  }
}
