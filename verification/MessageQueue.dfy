// System V message queues, one per process (common/msgq.h, common/msgq.cpp,
// common/ipc_message.h) and the sliced wait of recv_timeout.
module MessageQueues {
  import opened Wire

  const IDX_GATEWAY: int := 1000
  const IDX_LOCATOR: int := 2000
  const IDX_TERMD_BASE: int := 3000
  const MSGQ_MAX_PAYLOAD: nat := 1024
  const SLICE_MS: nat := 50

  // The two internal messages. They are copied between processes as structs.
  datatype Ipc =
    | IpcLockRequest(destIndex: int, request: LockRequest)
    | IpcLockResponse(destIndex: int, response: LockResponse)

  // sizeof(IpcLockRequest) and sizeof(IpcLockResponse): an 8-byte IpcHeader
  // and the host form of the message.
  function SizeOf(m: Ipc): nat {
    if m.IpcLockRequest? then 8 + REQUEST_SIZE else 8 + RESPONSE_SIZE
  }

  // A message sitting in the queue of process dest.
  datatype Envelope = Envelope(dest: int, ipc: Ipc)

  // All the kernel's queues at once, in sending order: the queue of one
  // process is what is addressed to it.
  function QueueOf(mail: seq<Envelope>, dest: int): seq<Ipc> {
    if mail == [] then []
    else (if mail[0].dest == dest then [mail[0].ipc] else []) + QueueOf(mail[1..], dest)
  }

  lemma {:induction false} QueueAppend(a: seq<Envelope>, b: seq<Envelope>, dest: int)
    ensures QueueOf(a + b, dest) == QueueOf(a, dest) + QueueOf(b, dest)
  {
    if a == [] {
      assert a + b == b;
    } else {
      var first := if a[0].dest == dest then [a[0].ipc] else [];
      var rest, last := QueueOf(a[1..], dest), QueueOf(b, dest);
      assert (a + b)[0] == a[0] && (a + b)[1..] == a[1..] + b;
      QueueAppend(a[1..], b, dest);
      assert first + (rest + last) == (first + rest) + last;
    }
  }

  // The oldest envelope for dest sits at k.
  predicate OldestAt(mail: seq<Envelope>, dest: int, k: nat) {
    k < |mail| && mail[k].dest == dest && forall j | 0 <= j < k :: mail[j].dest != dest
  }

  function Without(mail: seq<Envelope>, k: nat): seq<Envelope>
    requires k < |mail|
  {
    mail[..k] + mail[k + 1..]
  }

  lemma {:induction false} NothingBefore(mail: seq<Envelope>, dest: int)
    requires forall j | 0 <= j < |mail| :: mail[j].dest != dest
    ensures QueueOf(mail, dest) == []
  {
    if mail != [] {
      NothingBefore(mail[1..], dest);
    }
  }

  // Taking the oldest envelope for dest pops the front of its queue and
  // leaves every other queue alone.
  lemma TakeIsFifo(mail: seq<Envelope>, dest: int, k: nat, other: int)
    requires OldestAt(mail, dest, k)
    ensures QueueOf(mail, dest) == [mail[k].ipc] + QueueOf(Without(mail, k), dest)
    ensures other != dest ==> QueueOf(Without(mail, k), other) == QueueOf(mail, other)
  {
    var pre, post := mail[..k], mail[k + 1..];
    assert mail == pre + ([mail[k]] + post);
    NothingBefore(pre, dest);
    QueueAppend(pre, [mail[k]] + post, dest);
    QueueAppend([mail[k]], post, dest);
    QueueAppend(pre, post, dest);
    QueueAppend(pre, [mail[k]] + post, other);
    QueueAppend([mail[k]], post, other);
    QueueAppend(pre, post, other);
    assert [mail[k]][1..] == [];
  }

  // The kernel: which queues exist, and what is in them.
  class Kernel {
    var up: set<int>
    var mail: seq<Envelope>

    // up: the processes whose queues exist so far.
    constructor (up: set<int>)
      ensures this.up == up && mail == []
    {
      this.up, mail := up, [];
    }

    // Process::send_to. refused: msgsnd failed for a reason of its own.
    method SendTo(dest: int, m: Ipc, refused: bool) returns (ok: bool)
      modifies this
      ensures ok <==> dest in up && !refused
      ensures up == old(up) && mail == if ok then old(mail) + [Envelope(dest, m)] else old(mail)
    {
      if dest !in up || SizeOf(m) > MSGQ_MAX_PAYLOAD || refused {
        return false;
      }
      mail := mail + [Envelope(dest, m)];
      ok := true;
    }

    // A non-blocking msgrcv by process dest; before it gets there, arrivals
    // come in from the others.
    method Receive(dest: int, arrivals: seq<Envelope>, outcome: Attempt) returns (answer: Poll)
      modifies this
      ensures up == old(up)
      ensures outcome != Normal ==> mail == old(mail) + arrivals && answer == (if outcome == Signalled then Interrupted else Failed)
      ensures outcome == Normal ==> answer.Empty? || answer.Got?
      ensures answer == Empty ==> mail == old(mail) + arrivals && QueueOf(mail, dest) == []
      ensures answer.Got? ==> IsTaken(old(mail) + arrivals, dest, answer.ipc, mail)
    {
      mail := mail + arrivals;
      if outcome == Signalled {
        return Interrupted;
      }
      if outcome == Refused {
        return Failed;
      }
      var k := 0;
      while k < |mail| && mail[k].dest != dest
        invariant k <= |mail|
        invariant forall j | 0 <= j < k :: mail[j].dest != dest
      {
        k := k + 1;
      }
      if k == |mail| {
        NothingBefore(mail, dest);
        return Empty;
      }
      answer := Got(mail[k].ipc);
      TakeIsFifoForAll(mail, dest, k);
      mail := Without(mail, k);
    }
  }

  // Between before and after, process dest took m from the front of its queue
  // and nothing else changed.
  ghost predicate IsTaken(before: seq<Envelope>, dest: int, m: Ipc, after: seq<Envelope>) {
    && QueueOf(before, dest) == [m] + QueueOf(after, dest)
    && forall other :: other != dest ==> QueueOf(after, other) == QueueOf(before, other)
  }

  lemma TakeIsFifoForAll(mail: seq<Envelope>, dest: int, k: nat)
    requires OldestAt(mail, dest, k)
    ensures IsTaken(mail, dest, mail[k].ipc, Without(mail, k))
  {
    forall other ensures other != dest ==> QueueOf(Without(mail, k), other) == QueueOf(mail, other) {
      TakeIsFifo(mail, dest, k, other);
    }
    TakeIsFifo(mail, dest, k, dest);
  }

  // ---- recv_timeout ----

  // What the kernel makes of one non-blocking msgrcv, and what it reports.
  datatype Attempt = Normal | Signalled | Refused
  datatype Poll = Got(ipc: Ipc) | Empty | Interrupted | Failed

  datatype RecvResult = Received(ipc: Ipc) | Timeout | Error

  // What came in before the first n polls.
  function Arrived(arrivals: nat -> seq<Envelope>, n: nat): seq<Envelope> {
    if n == 0 then [] else Arrived(arrivals, n - 1) + arrivals(n - 1)
  }

  function Signals(outcomes: nat -> Attempt, n: nat): nat {
    if n == 0 then 0 else Signals(outcomes, n - 1) + if outcomes(n - 1) == Signalled then 1 else 0
  }

  // The number of slices a timeout is worth, rounded up.
  function Slices(timeoutMs: int): nat {
    if timeoutMs <= 0 then 0 else (timeoutMs + SLICE_MS - 1) / SLICE_MS
  }

  // It is the least number of slices that covers the timeout.
  lemma SlicesCoverTimeout(timeoutMs: int, n: nat)
    ensures Slices(timeoutMs) <= n <==> 50 * n >= timeoutMs
  {
  }

  lemma ArrivedNext(mail: seq<Envelope>, arrivals: nat -> seq<Envelope>, n: nat)
    ensures mail + Arrived(arrivals, n) + arrivals(n) == mail + Arrived(arrivals, n + 1)
  {
  }

  // The k-th poll was interrupted or found the queue empty.
  predicate FoundNothing(
    mail: seq<Envelope>, arrivals: nat -> seq<Envelope>, outcomes: nat -> Attempt, dest: int, k: nat) {
    && outcomes(k) != Refused
    && (outcomes(k) == Normal ==> QueueOf(mail + Arrived(arrivals, k + 1), dest) == [])
  }

  // arrivals(k) is what the other processes send before the k-th msgrcv of
  // this call and outcomes(k) how it fares; from call calm on no signal
  // interrupts it. polled counts the calls made, sleeps the naps.
  method RecvTimeout(
    kernel: Kernel, dest: int, isOpen: bool, cap: nat, timeoutMs: int,
    arrivals: nat -> seq<Envelope>, outcomes: nat -> Attempt, ghost calm: nat)
    returns (r: RecvResult, sleeps: nat, polled: nat)
    requires forall k: nat | k >= calm :: outcomes(k) != Signalled
    modifies kernel
    ensures kernel.up == old(kernel.up)
    ensures !isOpen ==> r == Error && sleeps == polled == 0 && kernel.mail == old(kernel.mail)
    // Every poll is a nap, an interruption, or the last one.
    ensures isOpen ==> polled == sleeps + Signals(outcomes, polled) + 1 && sleeps <= Slices(timeoutMs)
    // Every nap follows a poll that found the queue empty.
    ensures forall k: nat | k + 1 < polled :: FoundNothing(old(kernel.mail), arrivals, outcomes, dest, k)
    // The whole time through there was nothing for this process.
    ensures r == Timeout ==>
              && sleeps == Slices(timeoutMs)
              && kernel.mail == old(kernel.mail) + Arrived(arrivals, polled) && QueueOf(kernel.mail, dest) == []
    // The front of the queue, as it was sent.
    ensures r.Received? ==>
              SizeOf(r.ipc) <= cap && IsTaken(old(kernel.mail) + Arrived(arrivals, polled), dest, r.ipc, kernel.mail)
    ensures r == Error && isOpen ==>
              || (outcomes(polled - 1) == Refused && kernel.mail == old(kernel.mail) + Arrived(arrivals, polled))
              || (exists m :: SizeOf(m) > cap && IsTaken(old(kernel.mail) + Arrived(arrivals, polled), dest, m, kernel.mail))
  {
    sleeps, polled := 0, 0;
    if !isOpen {
      return Error, sleeps, polled;
    }
    var waited := 0;
    assert kernel.mail == old(kernel.mail) + Arrived(arrivals, 0);
    while true
      invariant kernel.up == old(kernel.up) && kernel.mail == old(kernel.mail) + Arrived(arrivals, polled)
      invariant waited == SLICE_MS * sleeps && sleeps <= Slices(timeoutMs)
      invariant polled == sleeps + Signals(outcomes, polled)
      invariant forall k: nat | k < polled :: FoundNothing(old(kernel.mail), arrivals, outcomes, dest, k)
      decreases Slices(timeoutMs) - sleeps, if polled < calm then calm - polled else 0
    {
      ArrivedNext(old(kernel.mail), arrivals, polled);
      var answer := kernel.Receive(dest, arrivals(polled), outcomes(polled));
      polled := polled + 1;
      if answer.Got? {
        if SizeOf(answer.ipc) > cap {
          return Error, sleeps, polled;
        }
        return Received(answer.ipc), sleeps, polled;
      }
      if answer.Empty? {
        if waited >= timeoutMs {
          return Timeout, sleeps, polled;
        }
        sleeps := sleeps + 1;
        waited := waited + SLICE_MS;
        continue;
      }
      if answer.Interrupted? {
        continue;
      }
      return Error, sleeps, polled;
    }
  }

  // run() receives into a buffer that holds any message send() accepts.
  lemma EverythingSentFits(m: Ipc)
    ensures SizeOf(m) <= MSGQ_MAX_PAYLOAD <= MAX_MESSAGE_LEN
  {
  }
}
