// The loop every daemon runs (common/process.cpp): receive with a timeout,
// idle when nothing came, dispatch by internal message code otherwise.
module Processes {
  import opened MessageQueues

  // How far a failure reaches (common/error_policy.h).
  datatype Severity = SevMessage | SevStream | SevPeer | SevProcess

  const IPC_LOCK_REQUEST: int := 1
  const IPC_LOCK_RESPONSE: int := 2

  function CodeOf(m: Ipc): int {
    if m.IpcLockRequest? then IPC_LOCK_REQUEST else IPC_LOCK_RESPONSE
  }

  // The one code each daemon registers a handler for.
  function HandledCode(index: int): int {
    if index == IDX_GATEWAY then IPC_LOCK_RESPONSE else IPC_LOCK_REQUEST
  }

  // What a daemon does, as seen from the loop: S is everything it can change.
  datatype Outcome<S> = Outcome(state: S, sev: Severity)
  datatype Daemon<!S> = Daemon(handlers: map<int, (S, Ipc) -> Outcome<S>>, idle: S -> S)

  // The turns a daemon takes notice of: a timeout, and a message it has a
  // handler for.
  predicate Noticed<S>(d: Daemon<S>, r: RecvResult) {
    r.Timeout? || (r.Received? && CodeOf(r.ipc) in d.handlers)
  }

  function Heed<S>(d: Daemon<S>, s: S, r: RecvResult): Outcome<S>
    requires Noticed(d, r)
  {
    if r.Timeout? then Outcome(d.idle(s), SevMessage) else d.handlers[CodeOf(r.ipc)](s, r.ipc)
  }

  function NoticedOnly<S>(d: Daemon<S>, rs: seq<RecvResult>): seq<RecvResult> {
    if rs == [] then []
    else NoticedOnly(d, rs[..|rs| - 1]) + if Noticed(d, rs[|rs| - 1]) then [rs[|rs| - 1]] else []
  }

  // The state after these turns, all of which the daemon notices, and how the
  // last one ended.
  function AfterAll<S>(d: Daemon<S>, s: S, rs: seq<RecvResult>): Outcome<S>
    requires forall i | 0 <= i < |rs| :: Noticed(d, rs[i])
  {
    if rs == [] then Outcome(s, SevMessage)
    else Heed(d, AfterAll(d, s, rs[..|rs| - 1]).state, rs[|rs| - 1])
  }

  function Results(results: nat -> RecvResult, n: nat): (rs: seq<RecvResult>)
    ensures |rs| == n
  {
    if n == 0 then [] else Results(results, n - 1) + [results(n - 1)]
  }

  lemma AfterOneMore<S>(d: Daemon<S>, s: S, rs: seq<RecvResult>, r: RecvResult)
    requires forall i | 0 <= i < |rs| :: Noticed(d, rs[i])
    requires Noticed(d, r)
    ensures AfterAll(d, s, rs + [r]) == Heed(d, AfterAll(d, s, rs).state, r)
  {
    assert (rs + [r])[..|rs|] == rs;
  }

  // One turn of the loop, from s to s'.
  predicate Turn<S(==)>(d: Daemon<S>, s: S, r: RecvResult, s': S) {
    match r
    case Timeout => s' == d.idle(s)
    case Received(m) => s' == if CodeOf(m) in d.handlers then d.handlers[CodeOf(m)](s, m).state else s
    case Error => false
  }

  // The turn ends with a handler asking the process to stop.
  predicate AsksToStop<S>(d: Daemon<S>, s: S, r: RecvResult) {
    r.Received? && CodeOf(r.ipc) in d.handlers && d.handlers[CodeOf(r.ipc)](s, r.ipc).sev == SevProcess
  }

  // The states of a daemon before, between and after its turns.
  ghost predicate IsTrace<S>(d: Daemon<S>, results: nat -> RecvResult, trace: seq<S>) {
    trace != [] && forall k | 0 <= k < |trace| - 1 :: Turn(d, trace[k], results(k), trace[k + 1])
  }

  lemma OneMoreTurn<S>(d: Daemon<S>, results: nat -> RecvResult, trace: seq<S>, s: S)
    requires IsTrace(d, results, trace) && Turn(d, trace[|trace| - 1], results(|trace| - 1), s)
    ensures IsTrace(d, results, trace + [s])
  {
  }

  lemma NoticedOneMore<S>(d: Daemon<S>, rs: seq<RecvResult>, r: RecvResult)
    ensures NoticedOnly(d, rs + [r]) == NoticedOnly(d, rs) + if Noticed(d, r) then [r] else []
  {
    assert (rs + [r])[..|rs|] == rs;
  }

  lemma TurnOnNoticed<S>(d: Daemon<S>, start: S, noticed: seq<RecvResult>, r: RecvResult, s: S, s': S)
    requires forall i | 0 <= i < |noticed| :: Noticed(d, noticed[i])
    requires s == AfterAll(d, start, noticed).state && Turn(d, s, r, s')
    ensures var later := noticed + if Noticed(d, r) then [r] else [];
            (forall i | 0 <= i < |later| :: Noticed(d, later[i])) && s' == AfterAll(d, start, later).state
  {
    if Noticed(d, r) {
      AfterOneMore(d, start, noticed, r);
    } else {
      assert noticed + [] == noticed;
    }
  }

  // A message nobody handles might as well not have come: only the timeouts
  // and the messages with a handler matter, in their order.
  lemma {:induction false} UnknownCodesAreInvisible<S>(d: Daemon<S>, results: nat -> RecvResult, trace: seq<S>, n: nat)
    requires IsTrace(d, results, trace) && n < |trace|
    ensures var noticed := NoticedOnly(d, Results(results, n));
            && (forall i | 0 <= i < |noticed| :: Noticed(d, noticed[i]))
            && trace[n] == AfterAll(d, trace[0], noticed).state
  {
    if n != 0 {
      UnknownCodesAreInvisible(d, results, trace, n - 1);
      var rs, r := Results(results, n - 1), results(n - 1);
      assert Turn(d, trace[n - 1], r, trace[n]);
      TurnOnNoticed(d, trace[0], NoticedOnly(d, rs), r, trace[n - 1], trace[n]);
      NoticedOneMore(d, rs, r);
    }
  }

  class Process<S> {
    const daemon: Daemon<S>
    var state: S

    constructor (daemon: Daemon<S>, state: S)
      ensures this.daemon == daemon && this.state == state
    {
      this.daemon := daemon;
      this.state := state;
    }

    method OnIdle()
      modifies this
      ensures state == daemon.idle(old(state))
    {
      state := daemon.idle(state);
    }

    // An unknown code is not fatal.
    method Dispatch(m: Ipc) returns (sev: Severity)
      modifies this
      ensures CodeOf(m) in daemon.handlers ==> Outcome(state, sev) == daemon.handlers[CodeOf(m)](old(state), m)
      ensures CodeOf(m) !in daemon.handlers ==> state == old(state) && sev == SevMessage
    {
      var code := CodeOf(m);
      if code !in daemon.handlers {
        return SevMessage;
      }
      var handler := daemon.handlers[code];
      var outcome := handler(state, m);
      state := outcome.state;
      sev := outcome.sev;
    }

    // results(k) is what the k-th receive reports and stop(k) whether a
    // shutdown flag is set when it is due; some receive fails or some check
    // stops the loop by turn last. turns counts the turns taken, and trace
    // holds the states before, between and after them.
    method Run(results: nat -> RecvResult, stop: nat -> bool, ghost last: nat)
      returns (code: int, turns: nat, ghost trace: seq<S>)
      requires stop(last) || results(last) == Error
      modifies this
      ensures turns <= last && |trace| == turns + 1 && trace[0] == old(state) && trace[turns] == state
      ensures forall k: nat | k < turns :: !stop(k) && results(k) != Error
      // Nothing came: the daemon idles.
      ensures forall k | 0 <= k < turns && results(k) == Timeout :: trace[k + 1] == daemon.idle(trace[k])
      // A message goes to the handler of its code; only the last one's may ask
      // to stop.
      ensures forall k | 0 <= k < turns && results(k).Received? && CodeOf(results(k).ipc) in daemon.handlers ::
                var outcome := daemon.handlers[CodeOf(results(k).ipc)](trace[k], results(k).ipc);
                trace[k + 1] == outcome.state && (outcome.sev == SevProcess ==> k + 1 == turns && code == 1)
      ensures forall k | 0 <= k < turns && results(k).Received? && CodeOf(results(k).ipc) !in daemon.handlers ::
                trace[k + 1] == trace[k]
      // How it ends.
      ensures code == 0 ==> stop(turns)
      ensures code != 0 ==> code == 1
      ensures code == 1 && (stop(turns) || results(turns) != Error) ==>
                && turns > 0 && results(turns - 1).Received? && CodeOf(results(turns - 1).ipc) in daemon.handlers
                && daemon.handlers[CodeOf(results(turns - 1).ipc)](trace[turns - 1], results(turns - 1).ipc).sev == SevProcess
      ensures IsTrace(daemon, results, trace)
    {
      turns, trace := 0, [state];
      while !stop(turns)
        invariant turns <= last && |trace| == turns + 1 && trace[0] == old(state) && trace[turns] == state
        invariant IsTrace(daemon, results, trace)
        invariant forall k: nat | k < turns :: !stop(k) && results(k) != Error
        invariant forall k | 0 <= k < turns :: !AsksToStop(daemon, trace[k], results(k))
        decreases last - turns
      {
        match results(turns)
        case Timeout =>
          OnIdle();
          OneMoreTurn(daemon, results, trace, state);
          turns, trace := turns + 1, trace + [state];
        case Error =>
          return 1, turns, trace;
        case Received(m) =>
          var sev := Dispatch(m);
          OneMoreTurn(daemon, results, trace, state);
          turns, trace := turns + 1, trace + [state];
          if sev == SevProcess {
            return 1, turns, trace;
          }
      }
      code := 0;
    }
  }
}
