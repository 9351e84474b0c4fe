// How long open() waits for a semaphore set that somebody else made
// (common/shm_table.cpp:108-139).
module TableWaiting {
  import opened TableProtocol
  import opened TableRuns

  // What p's polls of sem_otime showed, in order; the last of too many is no
  // look at it but the end of the loop.
  function Looks(worlds: seq<World>, pids: seq<nat>, p: nat, n: nat): seq<bool>
    requires n <= |pids| < |worlds|
  {
    if n == 0 then []
    else
      Looks(worlds, pids, p, n - 1)
      + if pids[n - 1] == p then [worlds[n - 1].sem.Present? && worlds[n - 1].sem.otime] else []
  }

  // None of the first n looks showed a first operation on the set.
  predicate SawNothing(looks: seq<bool>, n: nat)
    requires n <= |looks|
  {
    forall k | 0 <= k < n :: !looks[k]
  }

  // Where a process that does nothing but wait is after these looks.
  predicate WaitsAfter(pc: Pc, looks: seq<bool>) {
    && (pc == GaveUp <==> |looks| > INIT_RETRIES && SawNothing(looks, INIT_RETRIES))
    && (pc == Opened <==> exists k | 0 <= k < |looks| && k < INIT_RETRIES :: looks[k])
    && (pc.Waiting? <==> |looks| <= INIT_RETRIES && SawNothing(looks, |looks|))
    && (pc.Waiting? ==> pc.tries == |looks|)
    && (pc == GaveUp || pc == Opened || pc.Waiting?)
  }

  lemma PollWaits(w: World, p: nat, w': World, looks: seq<bool>)
    requires Step(w, p, Poll, w') && WaitsAfter(w.procs[p].pc, looks)
    ensures p in w'.procs && WaitsAfter(w'.procs[p].pc, looks + [w.sem.otime])
  {
    var later := looks + [w.sem.otime];
    assert later[|looks|] == w.sem.otime;
    assert forall k | 0 <= k < |looks| :: later[k] == looks[k];
  }

  // p makes no move but polls.
  predicate OnlyPolls(pids: seq<nat>, actions: seq<Action>, p: nat) {
    |pids| == |actions| && forall i | 0 <= i < |pids| && pids[i] == p :: actions[i] == Poll
  }

  lemma {:induction false} WaitsInRun(worlds: seq<World>, pids: seq<nat>, actions: seq<Action>, p: nat, n: nat)
    requires Run(worlds, pids, actions) && n <= |pids| && OnlyPolls(pids, actions, p)
    requires p in worlds[0].procs && worlds[0].procs[p].pc == Waiting(0)
    ensures p in worlds[n].procs && WaitsAfter(worlds[n].procs[p].pc, Looks(worlds, pids, p, n))
  {
    if n != 0 {
      WaitsInRun(worlds, pids, actions, p, n - 1);
      var before := Looks(worlds, pids, p, n - 1);
      assert Step(worlds[n - 1], pids[n - 1], actions[n - 1], worlds[n]);
      if pids[n - 1] == p {
        PollWaits(worlds[n - 1], p, worlds[n], before);
      } else {
        OthersStay(worlds[n - 1], pids[n - 1], actions[n - 1], worlds[n], p);
        assert before + [] == before;
      }
    }
  }

  // A process that found the set there, and then does nothing but wait: it
  // gives up exactly when a hundred looks in a row showed no first operation,
  // and gets in exactly when one of the first hundred did.
  lemma WaitingEndsIff(worlds: seq<World>, pids: seq<nat>, actions: seq<Action>, p: nat, n: nat)
    requires Run(worlds, pids, actions) && n <= |pids| && OnlyPolls(pids, actions, p)
    requires p in worlds[0].procs && worlds[0].procs[p].pc == Waiting(0)
    ensures p in worlds[n].procs
    ensures var pc, looks := worlds[n].procs[p].pc, Looks(worlds, pids, p, n);
            && (pc == GaveUp <==> |looks| > 100 && forall k | 0 <= k < 100 :: !looks[k])
            && (pc == Opened <==> exists k | 0 <= k < |looks| && k < 100 :: looks[k])
  {
    WaitsInRun(worlds, pids, actions, p, n);
  }
}
