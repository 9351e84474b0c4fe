// Every run of the processes that share the terminal table: what is true in
// each reachable state (common/shm_table.cpp).
module TableRuns {
  import opened Wire
  import opened TerminalTable
  import opened TableHistory
  import opened TableSections
  import opened TableProtocol

  ghost predicate Run(worlds: seq<World>, pids: seq<nat>, actions: seq<Action>) {
    && |worlds| == |pids| + 1 == |actions| + 1
    && forall i | 0 <= i < |pids| :: Step(worlds[i], pids[i], actions[i], worlds[i + 1])
  }

  ghost predicate RunFromBoot(worlds: seq<World>, pids: seq<nat>, actions: seq<Action>) {
    Run(worlds, pids, actions) && worlds[0] == Boot()
  }

  lemma {:induction false} RunKeepsInv(worlds: seq<World>, pids: seq<nat>, actions: seq<Action>, i: nat)
    requires RunFromBoot(worlds, pids, actions) && i < |worlds|
    ensures Inv(worlds[i])
  {
    if i == 0 {
      BootIsSafe();
    } else {
      RunKeepsInv(worlds, pids, actions, i - 1);
      assert Step(worlds[i - 1], pids[i - 1], actions[i - 1], worlds[i]);
      StepKeepsInv(worlds[i - 1], pids[i - 1], actions[i - 1], worlds[i]);
    }
  }

  // In every reachable state of every run: the value and the holders add up,
  // undo counts mark exactly the holders, at most one process is inside, and
  // the initial +1 happened at most once and before anyone got past open().
  lemma LockIsNeverLostOrDoubled(worlds: seq<World>, pids: seq<nat>, actions: seq<Action>, i: nat)
    requires RunFromBoot(worlds, pids, actions) && i < |worlds|
    ensures var w := worlds[i];
            && (if w.sem.Present? then w.sem.value else 0) + |Holders(w)| == InitialisedCount(w)
            && (forall p | p in w.procs :: w.procs[p].semadj == if p in Holders(w) then 1 else 0)
            && (forall p, q | p in Holders(w) && q in Holders(w) :: p == q)
            && w.inits == InitialisedCount(w) <= 1
            && (forall p | p in w.procs && !Opening(w.procs[p].pc) :: w.inits == 1)
  {
    RunKeepsInv(worlds, pids, actions, i);
    var w := worlds[i];
    forall p, q | p in Holders(w) && q in Holders(w) ensures p == q {
      OneHolder(w, p);
    }
  }

  // A kill gives the lock back exactly when the victim held it; the exit of
  // any other process, the creator's included, leaves the value alone.
  lemma KillReturnsTheLock(w: World, p: nat, w': World)
    requires Inv(w) && Step(w, p, Kill, w') && w.sem.Present?
    ensures w'.sem == if p in Holders(w) then Present(1, true) else w.sem
    ensures Holders(w') == Holders(w) - {p}
  {
    HoldersChange(w, p, w');
    if p in Holders(w) {
      OneHolder(w, p);
    }
  }

  // ---- the table through every run ----

  lemma RowsKeepShape(w: World)
    requires Inv(w)
    ensures Shape(w.rows)
  {
    ReplayKeepsShape(w.history);
    if Holders(w) != {} {
      var p :| p in Holders(w);
      var pc := w.procs[p].pc;
      assert Tracks(pc, Replay(w.history), w.rows);
      ProgressIsWritten(pc.op, pc.section);
      WriteKeepsShape(pc.op, Progress(pc.op, pc.section), Replay(w.history));
    }
  }

  lemma NamesNeverChange(w: World, p: nat, a: Action, w': World)
    requires Inv(w) && Step(w, p, a, w')
    ensures NamesKept(w.rows, w'.rows)
  {
    if a.Inside? && w.procs[p].pc.section.Write? {
      var pc, base := w.procs[p].pc, Replay(w.history);
      assert Tracks(pc, base, w.rows);
    }
  }

  // Whatever the interleaving and whoever is killed where: outside critical
  // sections the memory is the history replayed one whole call at a time,
  // every completed call got the sequential answer, occupied rows are always
  // a prefix with distinct numbers, and numbers never change.
  lemma TableIsLinearisable(worlds: seq<World>, pids: seq<nat>, actions: seq<Action>, i: nat)
    requires RunFromBoot(worlds, pids, actions) && i < |worlds|
    ensures Sequential(worlds[i].history)
    ensures Holders(worlds[i]) == {} ==> worlds[i].rows == Replay(worlds[i].history)
    ensures Shape(worlds[i].rows) && Shape(Replay(worlds[i].history))
    ensures i + 1 < |worlds| ==> NamesKept(worlds[i].rows, worlds[i + 1].rows)
  {
    RunKeepsInv(worlds, pids, actions, i);
    RowsKeepShape(worlds[i]);
    ReplayKeepsShape(worlds[i].history);
    if i + 1 < |worlds| {
      NamesNeverChange(worlds[i], pids[i], actions[i], worlds[i + 1]);
    }
  }

  // ---- the creator dies too early ----

  // The set exists, nobody has raised it, and nobody is left who would.
  predicate Orphaned(w: World) {
    && w.sem == Present(0, false)
    && (forall p | p in w.procs :: w.procs[p].pc != Creator)
  }

  lemma CreatorDeathOrphans(w: World, p: nat, a: Action, w': World)
    requires Inv(w) && Step(w, p, a, w') && (a == Kill || a == OpenFails)
    requires !a.Spawn? && w.procs[p].pc == Creator
    ensures Orphaned(w')
  {
    NobodyInsideYet(w);
  }

  // How many more steps of open() a process can take in an orphaned world.
  function OpenBudget(pc: Pc): nat {
    match pc
    case Starting => INIT_RETRIES + 2
    case Waiting(tries) => if tries <= INIT_RETRIES then INIT_RETRIES + 1 - tries else 1
    case _ => 0
  }

  lemma OrphanStep(w: World, p: nat, a: Action, w': World)
    requires Inv(w) && Orphaned(w) && Step(w, p, a, w')
    ensures Inv(w') && Orphaned(w') && Holders(w') == {}
    ensures forall q | q in w'.procs :: Opening(w'.procs[q].pc)
    ensures a != Kill && a != Spawn ==> p in w'.procs && OpenBudget(w'.procs[p].pc) < OpenBudget(w.procs[p].pc)
  {
    StepKeepsInv(w, p, a, w');
    if p in w.procs {
      assert Opening(w.procs[p].pc);
    }
    NobodyInsideYet(w');
  }

  function StepsOf(pids: seq<nat>, p: nat): nat {
    if pids == [] then 0 else StepsOf(pids[..|pids| - 1], p) + if pids[|pids| - 1] == p then 1 else 0
  }

  // If the creator dies before its +1, then whatever happens next no process
  // ever enters a critical section, and every process still in open() gives
  // up within its bounded retries.
  lemma {:induction false} OrphanedTableIsNeverEntered(
    worlds: seq<World>, pids: seq<nat>, actions: seq<Action>, p: nat, n: nat)
    requires Run(worlds, pids, actions) && Inv(worlds[0]) && Orphaned(worlds[0]) && n <= |pids|
    requires p in worlds[0].procs && forall i | 0 <= i < |pids| :: pids[i] == p ==> actions[i] != Kill
    ensures Inv(worlds[n]) && Orphaned(worlds[n])
    ensures forall q | q in worlds[n].procs :: Opening(worlds[n].procs[q].pc)
    ensures p in worlds[n].procs
    ensures StepsOf(pids[..n], p) + OpenBudget(worlds[n].procs[p].pc) <= OpenBudget(worlds[0].procs[p].pc)
  {
    if n != 0 {
      OrphanedTableIsNeverEntered(worlds, pids, actions, p, n - 1);
      var w, w' := worlds[n - 1], worlds[n];
      assert Step(w, pids[n - 1], actions[n - 1], w');
      OrphanStep(w, pids[n - 1], actions[n - 1], w');
      assert pids[..n][..n - 1] == pids[..n - 1];
      if pids[n - 1] != p {
        OthersStay(w, pids[n - 1], actions[n - 1], w', p);
      }
    }
  }

  lemma OthersStay(w: World, p: nat, a: Action, w': World, q: nat)
    requires Step(w, p, a, w') && q in w.procs && q != p
    ensures q in w'.procs && w'.procs[q] == w.procs[q]
  {
  }
}
