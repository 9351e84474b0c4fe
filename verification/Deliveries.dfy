// What the pipeline does get done: where each handler step sends its message
// and when it may drop it, what every acknowledgement says, and that a command
// for a registered terminal can always be brought to it
// (gateway/main.cpp, locator/main.cpp, termd/main.cpp).
module Deliveries {
  import opened Wire
  import opened TerminalTable
  import opened MessageQueues
  import opened Locators
  import opened Termds
  import opened Pipeline

  // ---- what locator does with a request ----

  // The request can be brought to the terminal process of this slot.
  predicate CanGoTo(s: Sys, m: LockRequest, slot: int) {
    Spells(m.termNo, slot) && IsRegistered(slot, s.rows) && TermdIndex(slot) in s.up
  }

  // The request goes on to the process of the registered terminal it names,
  // exactly as it is; a "0000" comes back while a row is free; and a request
  // is dropped if and only if the lock or the send fails or it has no such
  // place to go.
  lemma LocateOutcome(s: Sys, k: nat, locked: bool, refused: bool, s': Sys)
    requires AllAddressed(s) && Step(s, Locate(k, locked, refused), s')
    ensures k < |s.mail| && s.mail[k].ipc.IpcLockRequest?
    ensures var m := s.mail[k].ipc.request;
            && (s'.dropped == s.dropped + [m]
                <==> || !locked || refused
                     || ((forall slot :: !CanGoTo(s, m, slot))
                         && !(m.termNo == ZEROES && IndexOf(s.rows, 0) < |s.rows| && IDX_LOCATOR in s.up)))
            && (s'.dropped != s.dropped + [m] ==> s'.dropped == s.dropped)
            && (forall slot | locked && !refused && CanGoTo(s, m, slot) ::
                  s'.mail == Without(s.mail, k) + [Envelope(TermdIndex(slot), IpcLockRequest(TermdIndex(slot), m))])
            && s'.handled == s.handled && s'.up == s.up && s'.rows == s.rows
  {
    var m := s.mail[k].ipc.request;
    if slot :| Spells(m.termNo, slot) {
      RegisteredGoesOn(m, s.rows, s.up, locked, refused, slot);
      SpelledText(m.termNo, slot);
      forall other | Spells(m.termNo, other) ensures other == slot {
        SpellsOne(m.termNo, slot, other);
      }
      assert forall other :: CanGoTo(s, m, other) ==> other == slot;
      assert CanGoTo(s, m, slot) <==> IsRegistered(slot, s.rows) && TermdIndex(slot) in s.up;
    } else if m.termNo == ZEROES {
      ZeroesComeBack(m, s.rows, s.up, locked, refused);
      assert forall slot :: !CanGoTo(s, m, slot);
    } else {
      OthersGoNowhere(m, s.rows, s.up, locked, refused);
      assert forall slot :: !CanGoTo(s, m, slot);
    }
  }

  lemma SpellsOne(t: TermNo, a: int, b: int)
    requires Spells(t, a) && Spells(t, b)
    ensures a == b
  {
    SpelledText(t, a);
    SpelledText(t, b);
  }

  // ---- what termd does with one ----

  // The command is handled whatever happens; it is handed to the socket if and
  // only if a terminal is connected, and taken whole if and only if the kernel
  // does; success is reported to gateway, and the report is lost if and only if
  // gateway is not running or the send fails.
  lemma ServeOutcome(s: Sys, a: Action, s': Sys) returns (r: LockResponse)
    requires Step(s, a, s') && a.Serve?
    ensures a.k < |s.mail| && s.mail[a.k].ipc.IpcLockRequest?
    ensures var m := s.mail[a.k].ipc.request;
            && r.result == RESULT_OK && r.termNo == m.termNo && r.header.seqNo == m.header.seqNo
            && r.header.timestamp == a.now && ResponseCheck(EncodeResponse(r)) == Ok
            && s'.handled == s.handled + [Delivery(a.dest, m)]
            && s'.attempted == s.attempted + (if a.client then [Delivery(a.dest, m)] else [])
            && s'.written == s.written + (if a.client && a.whole then [Delivery(a.dest, m)] else [])
            && s'.dropped == s.dropped && s'.up == s.up && s'.rows == s.rows && s'.delivered == s.delivered
            && if IDX_GATEWAY in s.up && !a.refused
               then && s'.lost == s.lost
                    && s'.mail == Without(s.mail, a.k) + [Envelope(IDX_GATEWAY, IpcLockResponse(IDX_GATEWAY, r))]
               else s'.lost == s.lost + [r] && s'.mail == Without(s.mail, a.k)
  {
    var m := s.mail[a.k].ipc.request;
    r := Response(m, a.now);
    EveryCommandIsAnswered(m, s.up, a.now, a.refused);
  }

  // ---- what every acknowledgement says ----

  // A response that reports success, is one every receiver accepts, and
  // carries the number and the sequence number of a handled request.
  ghost predicate Truthful(r: LockResponse, handled: seq<Delivery>) {
    && r.result == 0 && ResponseCheck(EncodeResponse(r)) == Ok
    && exists i | 0 <= i < |handled| ::
         handled[i].request.termNo == r.termNo && handled[i].request.header.seqNo == r.header.seqNo
  }

  ghost predicate AllTruthful(s: Sys) {
    && (forall i | 0 <= i < |s.mail| && s.mail[i].ipc.IpcLockResponse? :: Truthful(s.mail[i].ipc.response, s.handled))
    && (forall i | 0 <= i < |s.lost| :: Truthful(s.lost[i], s.handled))
    && (forall i | 0 <= i < |s.delivered| :: Truthful(s.delivered[i], s.handled))
  }

  lemma StaysTruthful(r: LockResponse, handled: seq<Delivery>, more: seq<Delivery>)
    requires Truthful(r, handled)
    ensures Truthful(r, handled + more)
  {
    var i :| 0 <= i < |handled| && handled[i].request.termNo == r.termNo
             && handled[i].request.header.seqNo == r.header.seqNo;
    assert (handled + more)[i] == handled[i];
  }

  lemma ServeKeepsTruthful(s: Sys, a: Action, s': Sys)
    requires AllTruthful(s) && Step(s, a, s') && a.Serve?
    ensures AllTruthful(s')
  {
    var r := ServeOutcome(s, a, s');
    var d := Delivery(a.dest, s.mail[a.k].ipc.request);
    assert s'.handled[|s.handled|] == d;
    assert Truthful(r, s'.handled);
    var n := |Without(s.mail, a.k)|;
    forall i | 0 <= i < |s'.mail| && s'.mail[i].ipc.IpcLockResponse? ensures Truthful(s'.mail[i].ipc.response, s'.handled) {
      if i < n {
        assert s'.mail[i] == s.mail[if i < a.k then i else i + 1];
        StaysTruthful(s'.mail[i].ipc.response, s.handled, [d]);
      }
    }
    forall i | 0 <= i < |s'.lost| ensures Truthful(s'.lost[i], s'.handled) {
      if i < |s.lost| {
        StaysTruthful(s.lost[i], s.handled, [d]);
      }
    }
    forall i | 0 <= i < |s'.delivered| ensures Truthful(s'.delivered[i], s'.handled) {
      StaysTruthful(s.delivered[i], s.handled, [d]);
    }
  }

  lemma TruthfulStep(s: Sys, a: Action, s': Sys)
    requires AllTruthful(s) && Step(s, a, s')
    ensures AllTruthful(s')
  {
    if a.Serve? {
      ServeKeepsTruthful(s, a, s');
    } else if IsHandlerStep(a) {
      HandlerMail(s, a, s');
      var n := |Without(s.mail, a.k)|;
      forall i | 0 <= i < |s'.mail| && s'.mail[i].ipc.IpcLockResponse? ensures Truthful(s'.mail[i].ipc.response, s'.handled) {
        if i < n {
          assert s'.mail[i] == s.mail[if i < a.k then i else i + 1];
        }
      }
    } else if a.Arrive? {
      ArriveOutcome(s, a, s');
    }
  }

  // In every run: whatever gateway has taken off its queue as an
  // acknowledgement, and whatever still waits or was lost, reports success for
  // a request that a termd handled, in a form every receiver accepts; and for
  // each number and sequence number, gateway never takes more of them than
  // requests were handled.
  lemma AnswersAreTruthful(states: seq<Sys>, actions: seq<Action>, n: nat, key: Key)
    requires Run(states, actions) && n <= |actions|
    ensures AllTruthful(states[n])
    ensures Answers(states[n].delivered, key) <= Handled(states[n].handled, HasKey(key))
  {
    NothingIsLostOrDoubled(states, actions, n, HasKey(key), key);
    TruthfulInRun(states, actions, n);
  }

  lemma {:induction false} TruthfulInRun(states: seq<Sys>, actions: seq<Action>, n: nat)
    requires Run(states, actions) && n <= |actions|
    ensures AllTruthful(states[n])
  {
    if n != 0 {
      TruthfulInRun(states, actions, n - 1);
      TruthfulStep(states[n - 1], actions[n - 1], states[n]);
    }
  }

  // ---- a command can always be brought to its terminal ----

  // Handlers lead from s to s'.
  ghost predicate Leads(s: Sys, states: seq<Sys>, actions: seq<Action>, s': Sys) {
    && |states| == |actions| + 1 && states[0] == s && states[|actions|] == s'
    && forall i | 0 <= i < |actions| :: IsHandlerStep(actions[i]) && Step(states[i], actions[i], states[i + 1])
  }

  ghost predicate HandlersLead(s: Sys, s': Sys) {
    exists states, actions :: Leads(s, states, actions, s')
  }

  lemma LeadNowhere(s: Sys)
    ensures HandlersLead(s, s)
  {
    assert Leads(s, [s], [], s);
  }

  lemma LeadOn(s: Sys, s': Sys, a: Action, s'': Sys)
    requires HandlersLead(s, s') && IsHandlerStep(a) && Step(s', a, s'')
    ensures HandlersLead(s, s'')
  {
    var states, actions :| Leads(s, states, actions, s');
    assert Leads(s, states + [s''], actions + [a], s'');
  }

  // The request waits at position i, for process dest.
  predicate WaitsAt(s: Sys, i: nat, dest: int, m: LockRequest) {
    i < |s.mail| && s.mail[i].dest == dest && s.mail[i].ipc.IpcLockRequest? && s.mail[i].ipc.request == m
  }

  // The step a process takes on the oldest message of its queue, when no call
  // fails and a terminal that takes everything is connected.
  function GoodStep(dest: int, k: nat): Action {
    if dest == IDX_LOCATOR then Locate(k, true, false) else Serve(dest, k, true, true, 0, false)
  }

  function AfterGood(s: Sys, dest: int, k: nat): Sys
    requires k < |s.mail| && s.mail[k].ipc.IpcLockRequest?
  {
    if dest == IDX_LOCATOR then AfterLocate(s, k, true, false) else AfterServe(s, dest, k, true, true, 0, false)
  }

  lemma GoodStepIsOne(s: Sys, dest: int, k: nat)
    requires AllAddressed(s) && OldestAt(s.mail, dest, k) && (dest == IDX_LOCATOR || dest > IDX_TERMD_BASE)
    ensures s.mail[k].ipc.IpcLockRequest?
    ensures var s' := AfterGood(s, dest, k);
            && IsHandlerStep(GoodStep(dest, k)) && Step(s, GoodStep(dest, k), s') && AllAddressed(s')
            && s'.up == s.up && s'.rows == s.rows
            && exists added :: s'.mail == Without(s.mail, k) + added
  {
    assert WellAddressed(s.mail[k]);
    var s' := AfterGood(s, dest, k);
    assert Step(s, GoodStep(dest, k), s');
    AddressingStep(s, GoodStep(dest, k), s');
    HandlerMail(s, GoodStep(dest, k), s');
  }

  // A step on an older message of the same queue brings the request closer.
  lemma CloserByOne(s: Sys, i: nat, dest: int, m: LockRequest, k: nat)
    requires AllAddressed(s) && WaitsAt(s, i, dest, m) && OldestAt(s.mail, dest, k) && k < i
    requires dest == IDX_LOCATOR || dest > IDX_TERMD_BASE
    ensures s.mail[k].ipc.IpcLockRequest?
    ensures WaitsAt(AfterGood(s, dest, k), i - 1, dest, m)
  {
    GoodStepIsOne(s, dest, k);
    var added :| AfterGood(s, dest, k).mail == Without(s.mail, k) + added;
    assert AfterGood(s, dest, k).mail[i - 1] == s.mail[i];
  }

  // By its own steps, a process gets to any request in its queue.
  lemma {:induction false} GetsToIt(s: Sys, i: nat, dest: int, m: LockRequest) returns (s': Sys, k: nat)
    requires AllAddressed(s) && WaitsAt(s, i, dest, m) && (dest == IDX_LOCATOR || dest > IDX_TERMD_BASE)
    ensures HandlersLead(s, s') && AllAddressed(s') && s'.up == s.up && s'.rows == s.rows
    ensures WaitsAt(s', k, dest, m) && OldestAt(s'.mail, dest, k)
  {
    LeadNowhere(s);
    s', k := GetsToItFrom(s, s, i, dest, m);
  }

  lemma {:induction false} GetsToItFrom(start: Sys, s: Sys, i: nat, dest: int, m: LockRequest) returns (s': Sys, k: nat)
    requires HandlersLead(start, s)
    requires AllAddressed(s) && WaitsAt(s, i, dest, m) && (dest == IDX_LOCATOR || dest > IDX_TERMD_BASE)
    ensures HandlersLead(start, s') && AllAddressed(s') && s'.up == s.up && s'.rows == s.rows
    ensures WaitsAt(s', k, dest, m) && OldestAt(s'.mail, dest, k)
    decreases i
  {
    k := FindOldest(s.mail, dest, i);
    if k == i {
      s' := s;
    } else {
      GoodStepIsOne(s, dest, k);
      CloserByOne(s, i, dest, m, k);
      LeadOn(start, s, GoodStep(dest, k), AfterGood(s, dest, k));
      s', k := GetsToItFrom(start, AfterGood(s, dest, k), i - 1, dest, m);
    }
  }

  // Locator can bring it to the terminal's own queue.
  lemma CanBeLocated(start: Sys, s: Sys, i: nat, m: LockRequest, slot: int) returns (s': Sys, k: nat)
    requires HandlersLead(start, s) && AllAddressed(s) && WaitsAt(s, i, IDX_LOCATOR, m) && CanGoTo(s, m, slot)
    ensures HandlersLead(start, s') && AllAddressed(s') && s'.up == s.up && s'.rows == s.rows
    ensures WaitsAt(s', k, TermdIndex(slot), m)
  {
    var near, j := GetsToItFrom(start, s, i, IDX_LOCATOR, m);
    GoodStepIsOne(near, IDX_LOCATOR, j);
    s' := AfterGood(near, IDX_LOCATOR, j);
    LeadOn(start, near, GoodStep(IDX_LOCATOR, j), s');
    LocateOutcome(near, j, true, false, s');
    assert CanGoTo(near, m, slot);
    k := |Without(near.mail, j)|;
  }

  // And its termd can then hand it to the terminal.
  lemma CanBeServed(start: Sys, s: Sys, i: nat, m: LockRequest, slot: int) returns (s': Sys)
    requires HandlersLead(start, s) && AllAddressed(s) && WaitsAt(s, i, TermdIndex(slot), m) && 0 < slot
    ensures HandlersLead(start, s') && AllAddressed(s')
    ensures var d := Delivery(TermdIndex(slot), m);
            && s'.handled != [] && s'.handled[|s'.handled| - 1] == d
            && s'.written != [] && s'.written[|s'.written| - 1] == d
  {
    var dest := TermdIndex(slot);
    var near, j := GetsToItFrom(start, s, i, dest, m);
    GoodStepIsOne(near, dest, j);
    s' := AfterGood(near, dest, j);
    LeadOn(start, near, GoodStep(dest, j), s');
    var r := ServeOutcome(near, GoodStep(dest, j), s');
  }

  // From every reachable state, and indeed from every well-addressed one: a
  // request that waits for locator and names a registered terminal whose
  // process is running can be brought, by handler steps alone and past
  // whatever waits before it, to that process, and by it to the terminal.
  lemma CommandsCanArrive(s: Sys, i: nat, m: LockRequest, slot: int) returns (s': Sys)
    requires AllAddressed(s) && WaitsAt(s, i, IDX_LOCATOR, m)
    requires Spells(m.termNo, slot) && IsRegistered(slot, s.rows) && TermdIndex(slot) in s.up
    ensures HandlersLead(s, s')
    ensures var d := Delivery(TermdIndex(slot), m);
            && s'.handled != [] && s'.handled[|s'.handled| - 1] == d
            && s'.written != [] && s'.written[|s'.written| - 1] == d
  {
    LeadNowhere(s);
    var located, k := CanBeLocated(s, s, i, m, slot);
    s' := CanBeServed(s, located, k, m, slot);
  }
}
