// Any number of processes sharing the terminal table under one System V
// semaphore: the creation race in ShmTable::open, lock and unlock with
// SEM_UNDO, the calls one memory access at a time, and kill -9 at any point
// (common/shm_table.cpp).
//
// semop and SEM_UNDO behave as POSIX.1-2017 System Interfaces, semop(),
// describes; that a new set starts at 0 is the code's own assumption
// (common/shm_table.cpp:92).
module TableProtocol {
  import opened Wire
  import opened TerminalTable
  import opened TableHistory
  import opened TableSections

  const INIT_RETRIES: nat := 100

  datatype Pc =
    | Starting
    | Creator
    | Waiting(tries: nat)
    | GaveUp
    | Opened
    | Wanting(op: Op)
    | Holding(op: Op, section: Section)

  datatype Proc = Proc(pc: Pc, semadj: int)

  datatype Semaphore = Absent | Present(value: int, otime: bool)

  // inits counts the initial +1 operations ever executed.
  datatype World = World(
    sem: Semaphore, procs: map<nat, Proc>, rows: seq<Row>, history: seq<Event>, inits: nat)

  function Boot(): World {
    World(Absent, map[], EmptyTable(), [], 0)
  }

  datatype Action =
    | Spawn
    | CreateExclusive
    | Initialise
    | Poll
    | OpenFails
    | Call(callOp: Op)
    | LockFails
    | Acquire
    | Inside(next: Section, written: seq<Row>)
    | Release
    | Kill

  function Moved(w: World, p: nat, pc: Pc): map<nat, Proc>
    requires p in w.procs
  {
    w.procs[p := w.procs[p].(pc := pc)]
  }

  ghost predicate Step(w: World, p: nat, a: Action, w': World) {
    && |w.rows| == MAX_TERMINALS
    && (a.Spawn? <==> p !in w.procs)
    && match a
       case Spawn => w' == w.(procs := w.procs[p := Proc(Starting, 0)])
       case CreateExclusive =>
         && w.procs[p].pc == Starting
         && w' == if w.sem.Absent? then w.(sem := Present(0, false), procs := Moved(w, p, Creator))
                  else w.(procs := Moved(w, p, Waiting(0)))
       case Initialise =>
         && w.procs[p].pc == Creator && w.sem.Present?
         && w' == w.(sem := Present(w.sem.value + 1, true), procs := Moved(w, p, Opened), inits := w.inits + 1)
       case Poll =>
         && w.procs[p].pc.Waiting? && w.sem.Present?
         && var tries := w.procs[p].pc.tries;
            w' == w.(procs := Moved(w, p, if tries >= INIT_RETRIES then GaveUp
                                          else if w.sem.otime then Opened else Waiting(tries + 1)))
       case OpenFails =>
         && (w.procs[p].pc in {Starting, Creator} || w.procs[p].pc.Waiting?)
         && w' == w.(procs := Moved(w, p, GaveUp))
       case Call(op) =>
         w.procs[p].pc == Opened && Admitted(op) && w' == w.(procs := Moved(w, p, Wanting(op)))
       case LockFails =>
         w.procs[p].pc.Wanting? && w' == w.(procs := Moved(w, p, Opened))
       case Acquire =>
         && w.procs[p].pc.Wanting? && w.sem.Present? && w.sem.value >= 1
         && w' == w.(sem := Present(w.sem.value - 1, true),
                     procs := w.procs[p := Proc(Holding(w.procs[p].pc.op, Enter(w.procs[p].pc.op)), w.procs[p].semadj + 1)])
       case Inside(section, rows) =>
         && w.procs[p].pc.Holding? && |rows| == MAX_TERMINALS
         && Advance(w.procs[p].pc.op, w.procs[p].pc.section, w.rows, section, rows)
         && w' == w.(procs := Moved(w, p, Holding(w.procs[p].pc.op, section)), rows := rows)
       case Release =>
         && w.procs[p].pc.Holding? && w.procs[p].pc.section.Finished? && w.sem.Present?
         && var pc := w.procs[p].pc;
            w' == w.(sem := Present(w.sem.value + 1, true),
                     procs := w.procs[p := Proc(Opened, w.procs[p].semadj - 1)],
                     history := w.history + [Completed(pc.op, pc.section.reply)])
       case Kill =>
         // The kernel applies the undo count of the dead process.
         var q := w.procs[p];
         w' == w.(sem := if w.sem.Present? then w.sem.(value := w.sem.value + q.semadj) else Absent,
                  procs := w.procs - {p},
                  history := if q.pc.Holding? then w.history + [Torn(q.pc.op, Progress(q.pc.op, q.pc.section))]
                             else w.history)
  }

  function Holders(w: World): set<nat> {
    set p | p in w.procs && w.procs[p].pc.Holding?
  }

  function InitialisedCount(w: World): nat {
    if w.sem.Present? && w.sem.otime then 1 else 0
  }

  predicate Opening(pc: Pc) {
    pc == Starting || pc == Creator || pc.Waiting? || pc == GaveUp
  }

  // The value of the semaphore plus the number of lock holders is 1 once the
  // semaphore is initialised and 0 before.
  predicate LockBalanced(w: World) {
    && (w.sem.Present? ==> w.sem.value >= 0)
    && (if w.sem.Present? then w.sem.value else 0) + |Holders(w)| == InitialisedCount(w)
  }

  predicate UndoMatchesHolding(w: World) {
    forall p | p in w.procs :: w.procs[p].semadj == if w.procs[p].pc.Holding? then 1 else 0
  }

  // Before initialisation nobody is past open(), and only the one creator can
  // initialise; afterwards there is no creator.
  predicate OpenRaceSafe(w: World) {
    && w.inits == InitialisedCount(w)
    && (w.sem.Absent? ==> forall p | p in w.procs :: w.procs[p].pc in {Starting, GaveUp})
    && (w.inits == 0 ==> forall p | p in w.procs :: Opening(w.procs[p].pc))
    && (w.inits == 1 ==> forall p | p in w.procs :: w.procs[p].pc != Creator)
    && (forall p, q | p in w.procs && q in w.procs && p != q :: !(w.procs[p].pc == Creator && w.procs[q].pc == Creator))
    && (forall p | p in w.procs && w.procs[p].pc.Waiting? :: w.procs[p].pc.tries <= INIT_RETRIES)
  }

  // What a process's place says about the memory, given the replayed history.
  ghost predicate Tracks(pc: Pc, base: seq<Row>, rows: seq<Row>) {
    match pc
    case Holding(op, section) => Admitted(op) && OnTrack(op, section, base, rows)
    case Wanting(op) => Admitted(op)
    case _ => true
  }

  // The memory is the replayed history, plus the work of the one holder.
  ghost predicate Linearised(w: World) {
    && Sequential(w.history)
    && (Holders(w) == {} ==> w.rows == Replay(w.history))
    && (forall p | p in w.procs :: Tracks(w.procs[p].pc, Replay(w.history), w.rows))
  }

  ghost predicate Inv(w: World) {
    && |w.rows| == MAX_TERMINALS
    && LockBalanced(w) && UndoMatchesHolding(w) && OpenRaceSafe(w) && Linearised(w)
  }

  // ---- preservation ----

  // How one process changing its place changes the set of holders.
  lemma HoldersChange(w: World, p: nat, w': World)
    requires OnlyChanges(w, p, w')
    ensures Holders(w') == if p in w'.procs && w'.procs[p].pc.Holding? then Holders(w) + {p} else Holders(w) - {p}
    ensures p in Holders(w) <==> p in w.procs && w.procs[p].pc.Holding?
  {
  }

  lemma OneHolder(w: World, p: nat)
    requires LockBalanced(w) && p in Holders(w)
    ensures Holders(w) == {p}
  {
    var others := Holders(w) - {p};
    assert Holders(w) == others + {p};
    assert |others| == 0;
  }

  lemma BootIsSafe()
    ensures Inv(Boot())
  {
    assert Holders(Boot()) == {};
  }

  // The lock's books balance when the value and the undo count of p move
  // against its holding the lock.
  lemma BooksBalance(w: World, p: nat, w': World, delta: int)
    requires LockBalanced(w) && UndoMatchesHolding(w) && OnlyChanges(w, p, w')
    requires w.sem.Present? && w'.sem.Present? && w'.sem.value == w.sem.value + delta >= 0
    requires InitialisedCount(w') == InitialisedCount(w)
    requires (if p in Holders(w') then 1 else 0) + delta == if p in Holders(w) then 1 else 0
    requires p in w'.procs ==> w'.procs[p].semadj == if w'.procs[p].pc.Holding? then 1 else 0
    ensures LockBalanced(w') && UndoMatchesHolding(w')
  {
    HoldersChange(w, p, w');
  }

  // Before anyone holds the lock, only the semaphore itself matters.
  lemma NobodyHolds(w: World, p: nat, a: Action, w': World)
    requires LockBalanced(w) && UndoMatchesHolding(w) && OpenRaceSafe(w) && Step(w, p, a, w')
    requires w.sem.Absent? || a.Initialise?
    ensures LockBalanced(w') && UndoMatchesHolding(w')
  {
    HoldersChange(w, p, w');
    NobodyInsideYet(w);
  }

  lemma NobodyInsideYet(w: World)
    requires OpenRaceSafe(w) && w.inits == 0
    ensures Holders(w) == {}
  {
  }

  lemma LockStep(w: World, p: nat, a: Action, w': World)
    requires Inv(w) && Step(w, p, a, w')
    ensures LockBalanced(w') && UndoMatchesHolding(w')
  {
    if w.sem.Absent? || a.Initialise? {
      NobodyHolds(w, p, a, w');
    } else {
      HoldersChange(w, p, w');
      BooksBalance(w, p, w', w'.sem.value - w.sem.value);
    }
  }

  ghost predicate OnlyChanges(w: World, p: nat, w': World) {
    forall q | q != p :: (q in w'.procs <==> q in w.procs) && (q in w.procs ==> w'.procs[q] == w.procs[q])
  }

  // Once initialised, a step that leaves p past open(), or gone, is harmless.
  lemma PastOpen(w: World, p: nat, w': World)
    requires OpenRaceSafe(w) && OnlyChanges(w, p, w')
    requires w.inits == w'.inits == InitialisedCount(w) == InitialisedCount(w') == 1
    requires p in w'.procs ==> !Opening(w'.procs[p].pc)
    ensures OpenRaceSafe(w')
  {
  }

  // A step inside open() that does not touch the semaphore.
  lemma StillOpening(w: World, p: nat, w': World)
    requires OpenRaceSafe(w) && OnlyChanges(w, p, w')
    requires w.inits == w'.inits && InitialisedCount(w) == InitialisedCount(w') && w.sem.Absent? == w'.sem.Absent?
    requires p in w'.procs ==>
               var pc := w'.procs[p].pc;
               || pc in {Starting, GaveUp}
               || (pc.Waiting? && pc.tries <= INIT_RETRIES && w.sem.Present?)
               || (pc == Opened && w.inits == 1)
    ensures OpenRaceSafe(w')
  {
  }

  lemma SemaphoreStep(w: World, p: nat, a: Action, w': World)
    requires OpenRaceSafe(w) && Step(w, p, a, w')
    requires (a.CreateExclusive? && w.sem.Absent?) || a.Initialise?
    ensures OpenRaceSafe(w')
  {
  }

  lemma OpenStep(w: World, p: nat, a: Action, w': World)
    requires OpenRaceSafe(w) && Step(w, p, a, w') && (a.Kill? ==> UndoMatchesHolding(w))
    ensures OpenRaceSafe(w')
  {
    match a
    case Spawn => StillOpening(w, p, w');
    case CreateExclusive =>
      if w.sem.Absent? { SemaphoreStep(w, p, a, w'); } else { StillOpening(w, p, w'); }
    case Initialise => SemaphoreStep(w, p, a, w');
    case Poll => StillOpening(w, p, w');
    case OpenFails => StillOpening(w, p, w');
    case Kill => StillOpening(w, p, w');
    case _ =>
      assert !Opening(w.procs[p].pc);
      PastOpen(w, p, w');
  }

  // Processes that do not hold the lock have no opinion on the memory.
  lemma OutsidersTrackAnything(w: World, p: nat, base: seq<Row>, rows: seq<Row>)
    requires Linearised(w) && Holders(w) <= {p}
    ensures forall q | q in w.procs && q != p :: Tracks(w.procs[q].pc, base, rows)
  {
    forall q | q in w.procs && q != p ensures Tracks(w.procs[q].pc, base, rows) {
      assert q !in Holders(w);
      assert Tracks(w.procs[q].pc, Replay(w.history), w.rows);
    }
  }

  lemma InsideStep(w: World, p: nat, a: Action, w': World)
    requires Inv(w) && Step(w, p, a, w') && a.Inside?
    ensures Linearised(w')
  {
    var base, pc := Replay(w.history), w.procs[p].pc;
    HoldersChange(w, p, w');
    OneHolder(w, p);
    OutsidersTrackAnything(w, p, base, w'.rows);
    assert Tracks(pc, base, w.rows);
    AdvanceStaysOnTrack(pc.op, pc.section, base, w.rows, a.next, a.written);
    assert Tracks(w'.procs[p].pc, base, w'.rows);
  }

  lemma ReleaseStep(w: World, p: nat, a: Action, w': World)
    requires Inv(w) && Step(w, p, a, w') && a.Release?
    ensures Linearised(w')
  {
    var base, pc := Replay(w.history), w.procs[p].pc;
    HoldersChange(w, p, w');
    OneHolder(w, p);
    assert Tracks(pc, base, w.rows);
    assert w.rows == Apply(pc.op, base) && pc.section.reply == ReplyTo(pc.op, base);
    SequentialExtends(w.history, Completed(pc.op, pc.section.reply));
    assert w'.rows == Replay(w'.history);
    OutsidersTrackAnything(w, p, Replay(w'.history), w'.rows);
  }

  lemma ProgressIsWritten(op: Op, c: Section)
    ensures Progress(op, c) <= WrittenFields(op)
  {
  }

  lemma KillStep(w: World, p: nat, a: Action, w': World)
    requires Inv(w) && Step(w, p, a, w') && a.Kill?
    ensures Linearised(w')
  {
    var base, pc := Replay(w.history), w.procs[p].pc;
    HoldersChange(w, p, w');
    assert Tracks(pc, base, w.rows);
    if pc.Holding? {
      OneHolder(w, p);
      ProgressIsWritten(pc.op, pc.section);
      SequentialExtends(w.history, Torn(pc.op, Progress(pc.op, pc.section)));
      OutsidersTrackAnything(w, p, Replay(w'.history), w'.rows);
    }
  }

  lemma AcquireStep(w: World, p: nat, a: Action, w': World)
    requires Inv(w) && Step(w, p, a, w') && a.Acquire?
    ensures Linearised(w')
  {
    HoldersChange(w, p, w');
    assert Holders(w) == {};
    assert Tracks(w.procs[p].pc, w.rows, w.rows);
    EnterIsOnTrack(w.procs[p].pc.op, w.rows);
  }

  lemma MemoryUntouched(w: World, p: nat, w': World)
    requires Linearised(w) && OnlyChanges(w, p, w') && w'.rows == w.rows && w'.history == w.history
    requires p !in Holders(w) && p !in Holders(w')
    requires p in w'.procs && w'.procs[p].pc.Wanting? ==> Admitted(w'.procs[p].pc.op)
    ensures Linearised(w')
  {
    HoldersChange(w, p, w');
    assert Holders(w') == Holders(w);
    forall q | q in w'.procs ensures Tracks(w'.procs[q].pc, Replay(w'.history), w'.rows) {
      if q != p {
        assert Tracks(w.procs[q].pc, Replay(w.history), w.rows);
      }
    }
  }

  lemma OutsideStep(w: World, p: nat, a: Action, w': World)
    requires Inv(w) && Step(w, p, a, w')
    requires !a.Inside? && !a.Release? && !a.Kill? && !a.Acquire?
    ensures Linearised(w')
  {
    MemoryUntouched(w, p, w');
  }

  // Any process doing anything, a kill included, keeps the invariant.
  lemma StepKeepsInv(w: World, p: nat, a: Action, w': World)
    requires Inv(w) && Step(w, p, a, w')
    ensures Inv(w')
  {
    LockStep(w, p, a, w');
    OpenStep(w, p, a, w');
    match a
    case Inside(_, _) => InsideStep(w, p, a, w');
    case Release => ReleaseStep(w, p, a, w');
    case Kill => KillStep(w, p, a, w');
    case Acquire => AcquireStep(w, p, a, w');
    case _ => OutsideStep(w, p, a, w');
  }
}
