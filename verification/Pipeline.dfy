// gateway -> locator -> termd -> gateway as one system: handlers are atomic
// steps over the kernel's queues, any send may fail
// (gateway/main.cpp, locator/main.cpp, termd/main.cpp, common/process.cpp).
module Pipeline {
  import opened Wire
  import opened TerminalTable
  import opened TableHistory
  import opened MessageQueues
  import opened Gateways
  import opened Locators
  import opened Processes
  import opened Termds
  import opened Subsequences

  // What a response says about its request.
  datatype Key = Key(termNo: TermNo, seqNo: uint16)

  // A request at the terminal process of index dest.
  datatype Delivery = Delivery(dest: int, request: LockRequest)

  // The queues and the table, and a log of everything that happened:
  // accepted frames and the requests parsed from them, requests dropped by
  // gateway or locator, requests handled by a termd, those of them handed to
  // a terminal's socket and those taken whole by it, responses lost on the
  // way and responses taken by gateway.
  datatype Sys = Sys(
    up: set<int>,
    mail: seq<Envelope>,
    rows: seq<Row>,
    accepted: seq<Bytes>,
    parsed: seq<LockRequest>,
    dropped: seq<LockRequest>,
    handled: seq<Delivery>,
    attempted: seq<Delivery>,
    written: seq<Delivery>,
    lost: seq<LockResponse>,
    delivered: seq<LockResponse>)

  function Start(): Sys {
    Sys({}, [], EmptyTable(), [], [], [], [], [], [], [], [])
  }

  // k is the position of the envelope a handler takes. Table: some process
  // completes a call on the table, or is killed inside one.
  datatype Action =
    | Open(index: int)
    | Table(e: Event)
    | Arrive(frame: Bytes, refused: bool)
    | Locate(k: nat, locked: bool, refused: bool)
    | Serve(dest: int, k: nat, client: bool, whole: bool, now: uint64, refused: bool)
    | Ack(k: nat)
    | Unhandled(dest: int, k: nat)

  // dispatch finds a handler for this message in process dest.
  predicate Handles(dest: int, m: Ipc) {
    CodeOf(m) == HandledCode(dest)
  }

  predicate TableOpAllowed(op: Op) {
    op.Register? ==> exists slot | 0 < slot < 0x8000_0000 :: op.termNo == TermdTermNo(slot)
  }

  function KeyOf(m: LockRequest): Key {
    Key(m.termNo, m.header.seqNo)
  }

  function ResponseKey(m: LockResponse): Key {
    Key(m.termNo, m.header.seqNo)
  }

  // Gateway.HandleFromMaint on an accepted frame.
  function AfterArrive(s: Sys, frame: Bytes, refused: bool): Sys
    requires |frame| == REQUEST_SIZE
  {
    var m := RequestOf(frame);
    var gone := IDX_LOCATOR !in s.up || refused;
    s.(accepted := s.accepted + [frame], parsed := s.parsed + [m],
       mail := s.mail + PassedOn(frame, gone),
       dropped := if gone then s.dropped + [m] else s.dropped)
  }

  // Locator.OnLockRequest on the envelope at k.
  function AfterLocate(s: Sys, k: nat, locked: bool, refused: bool): Sys
    requires k < |s.mail| && s.mail[k].ipc.IpcLockRequest?
  {
    var m := s.mail[k].ipc.request;
    var sends := LocatorSends(m, s.rows, s.up, locked, refused);
    s.(mail := Without(s.mail, k) + sends, dropped := if sends != [] then s.dropped else s.dropped + [m])
  }

  // Termd.OnLockRequest on the envelope at k. client: a terminal is
  // connected; whole: the kernel took the whole frame.
  function AfterServe(s: Sys, dest: int, k: nat, client: bool, whole: bool, now: uint64, refused: bool): Sys
    requires k < |s.mail| && s.mail[k].ipc.IpcLockRequest?
  {
    var m := s.mail[k].ipc.request;
    var d := Delivery(dest, m);
    var sends := TermdSends(m, s.up, now, refused);
    s.(handled := s.handled + [d],
       attempted := if client then s.attempted + [d] else s.attempted,
       written := if client && whole then s.written + [d] else s.written,
       mail := Without(s.mail, k) + sends,
       lost := if sends != [] then s.lost else s.lost + [Response(m, now)])
  }

  ghost predicate Step(s: Sys, a: Action, s': Sys) {
    match a
    case Open(index) => s' == s.(up := s.up + {index})
    case Table(e) => TableOpAllowed(e.op) && EventFits(e, s.rows) && s' == s.(rows := Effect(e, s.rows))
    case Arrive(frame, refused) =>
      && |frame| == REQUEST_SIZE && RequestCheck(frame) == Ok
      && s' == AfterArrive(s, frame, refused)
    case Locate(k, locked, refused) =>
      && OldestAt(s.mail, IDX_LOCATOR, k) && Handles(IDX_LOCATOR, s.mail[k].ipc)
      && s' == AfterLocate(s, k, locked, refused)
    case Serve(dest, k, client, whole, now, refused) =>
      && dest > IDX_TERMD_BASE && OldestAt(s.mail, dest, k) && Handles(dest, s.mail[k].ipc)
      && s' == AfterServe(s, dest, k, client, whole, now, refused)
    case Ack(k) =>
      && OldestAt(s.mail, IDX_GATEWAY, k) && Handles(IDX_GATEWAY, s.mail[k].ipc)
      && s' == s.(mail := Without(s.mail, k),
                  delivered := s.delivered + [s.mail[k].ipc.response])
    case Unhandled(dest, k) =>
      && OldestAt(s.mail, dest, k) && !Handles(dest, s.mail[k].ipc)
      && s' == s.(mail := Without(s.mail, k))
  }

  ghost predicate Run(states: seq<Sys>, actions: seq<Action>) {
    && |states| == |actions| + 1 && states[0] == Start()
    && forall i | 0 <= i < |actions| :: Step(states[i], actions[i], states[i + 1])
  }

  // ---- addressing ----

  // A request addressed to a termd spells the number that termd registered.
  predicate ForTermd(dest: int, m: Ipc) {
    && IDX_TERMD_BASE < dest <= IDX_TERMD_BASE + 8999
    && m.IpcLockRequest? && m.destIndex == dest
    && m.request.termNo == Spell(1000 + (dest - IDX_TERMD_BASE))
  }

  predicate WellAddressed(e: Envelope) {
    if e.dest == IDX_GATEWAY then e.ipc.IpcLockResponse?
    else if e.dest == IDX_LOCATOR then e.ipc.IpcLockRequest?
    else ForTermd(e.dest, e.ipc)
  }

  predicate AllAddressed(s: Sys) {
    RegisteredByTermd(s.rows) && forall i | 0 <= i < |s.mail| :: WellAddressed(s.mail[i])
  }

  lemma LocateAddresses(m: LockRequest, rows: seq<Row>, up: set<int>, locked: bool, refused: bool)
    requires RegisteredByTermd(rows)
    ensures var sends := LocatorSends(m, rows, up, locked, refused);
            sends != [] ==> WellAddressed(sends[0]) && (sends[0].dest == IDX_LOCATOR <==> m.termNo == ZEROES)
  {
    if m.termNo == ZEROES {
      ZeroesResolveToLocator(rows);
    } else if Resolved(m.termNo, rows) != 0 {
      ResolvedText(m.termNo, rows);
      SpellingIsUnique(m.termNo, DecimalValue(m.termNo));
    }
  }

  lemma TableKeepsOrigin(op: Op, fields: set<Field>, rows: seq<Row>)
    requires RegisteredByTermd(rows) && TableOpAllowed(op)
    ensures RegisteredByTermd(WriteFields(op, fields, rows))
  {
    if op.Register? {
      var slot :| 0 < slot < 0x8000_0000 && op.termNo == TermdTermNo(slot);
      RegistrationKeepsOrigin(slot, fields, rows);
    }
  }

  lemma TakeKeepsAddressed(s: Sys, k: nat, added: seq<Envelope>)
    requires AllAddressed(s) && k < |s.mail|
    requires forall i | 0 <= i < |added| :: WellAddressed(added[i])
    ensures forall i | 0 <= i < |Without(s.mail, k) + added| :: WellAddressed((Without(s.mail, k) + added)[i])
  {
    var n := |Without(s.mail, k)|;
    forall i | 0 <= i < n + |added| ensures WellAddressed((Without(s.mail, k) + added)[i]) {
      if i < n {
        assert WellAddressed(s.mail[if i < k then i else i + 1]);
      } else {
        assert WellAddressed(added[i - n]);
      }
    }
  }

  // What a handler step appends to the mail.
  function Added(s: Sys, a: Action): seq<Envelope>
    requires a.Locate? || a.Serve? ==> a.k < |s.mail| && s.mail[a.k].ipc.IpcLockRequest?
  {
    match a
    case Locate(k, locked, refused) => LocatorSends(s.mail[k].ipc.request, s.rows, s.up, locked, refused)
    case Serve(_, k, _, _, now, refused) => TermdSends(s.mail[k].ipc.request, s.up, now, refused)
    case _ => []
  }

  // Taking one message off a queue and handling it.
  predicate IsHandlerStep(a: Action) {
    a.Locate? || a.Serve? || a.Ack? || a.Unhandled?
  }

  lemma HandlerMail(s: Sys, a: Action, s': Sys)
    requires Step(s, a, s') && IsHandlerStep(a)
    ensures a.k < |s.mail| && s'.mail == Without(s.mail, a.k) + Added(s, a)
    ensures s'.up == s.up && s'.rows == s.rows && s'.parsed == s.parsed && s'.accepted == s.accepted
  {
  }

  lemma AddressingStep(s: Sys, a: Action, s': Sys)
    requires AllAddressed(s) && Step(s, a, s')
    ensures AllAddressed(s')
  {
    if IsHandlerStep(a) {
      HandlerMail(s, a, s');
      if a.Locate? {
        LocateAddresses(s.mail[a.k].ipc.request, s.rows, s.up, a.locked, a.refused);
      }
      TakeKeepsAddressed(s, a.k, Added(s, a));
    } else if a.Table? {
      TableKeepsOrigin(a.e.op, FieldsOf(a.e), s.rows);
    }
  }

  // ---- conservation ----

  // Counting the requests of any kind the reader cares about.
  type Kind = LockRequest -> bool

  function Count(requests: seq<LockRequest>, p: Kind): nat {
    if requests == [] then 0
    else Count(requests[..|requests| - 1], p) + if p(requests[|requests| - 1]) then 1 else 0
  }

  function Waiting(mail: seq<Envelope>, p: Kind): nat {
    if mail == [] then 0
    else (if mail[0].ipc.IpcLockRequest? && p(mail[0].ipc.request) then 1 else 0) + Waiting(mail[1..], p)
  }

  function Handled(d: seq<Delivery>, p: Kind): nat {
    if d == [] then 0 else Handled(d[..|d| - 1], p) + if p(d[|d| - 1].request) then 1 else 0
  }

  function HasKey(key: Key): Kind {
    m => KeyOf(m) == key
  }

  // How many responses with this key wait in some queue.
  function AnswersWaiting(mail: seq<Envelope>, key: Key): nat {
    if mail == [] then 0
    else (if mail[0].ipc.IpcLockResponse? && ResponseKey(mail[0].ipc.response) == key then 1 else 0)
         + AnswersWaiting(mail[1..], key)
  }

  // How many of these responses have this key.
  function Answers(responses: seq<LockResponse>, key: Key): nat {
    if responses == [] then 0
    else Answers(responses[..|responses| - 1], key) + if ResponseKey(responses[|responses| - 1]) == key then 1 else 0
  }

  lemma AnswersOneMore(responses: seq<LockResponse>, r: LockResponse, key: Key)
    ensures Answers(responses + [r], key) == Answers(responses, key) + if ResponseKey(r) == key then 1 else 0
  {
    assert (responses + [r])[..|responses|] == responses;
  }

  lemma {:induction false} MailAppend(a: seq<Envelope>, b: seq<Envelope>, p: Kind, key: Key)
    ensures Waiting(a + b, p) == Waiting(a, p) + Waiting(b, p)
    ensures AnswersWaiting(a + b, key) == AnswersWaiting(a, key) + AnswersWaiting(b, key)
  {
    if a == [] {
      assert a + b == b;
    } else {
      assert (a + b)[0] == a[0] && (a + b)[1..] == a[1..] + b;
      MailAppend(a[1..], b, p, key);
    }
  }

  lemma MailOfOne(e: Envelope, p: Kind, key: Key)
    ensures Waiting([e], p) == if e.ipc.IpcLockRequest? && p(e.ipc.request) then 1 else 0
    ensures AnswersWaiting([e], key) == if e.ipc.IpcLockResponse? && ResponseKey(e.ipc.response) == key then 1 else 0
  {
    var one := [e];
    assert one[1..] == [];
  }

  lemma MailWithout(mail: seq<Envelope>, k: nat, p: Kind, key: Key)
    requires k < |mail|
    ensures Waiting(mail, p) == Waiting(Without(mail, k), p) + Waiting([mail[k]], p)
    ensures AnswersWaiting(mail, key) == AnswersWaiting(Without(mail, k), key) + AnswersWaiting([mail[k]], key)
  {
    var pre, post := mail[..k], mail[k + 1..];
    assert mail == pre + ([mail[k]] + post);
    MailAppend(pre, [mail[k]] + post, p, key);
    MailAppend([mail[k]], post, p, key);
    MailAppend(pre, post, p, key);
  }

  lemma LogsOneMore(requests: seq<LockRequest>, d: seq<Delivery>, m: LockRequest, one: Delivery, p: Kind)
    ensures Count(requests + [m], p) == Count(requests, p) + if p(m) then 1 else 0
    ensures Handled(d + [one], p) == Handled(d, p) + if p(one.request) then 1 else 0
  {
    assert (requests + [m])[..|requests|] == requests;
    assert (d + [one])[..|d|] == d;
  }

  // Every parsed request is in exactly one place: a queue, the dropped ones
  // or the handled ones.
  predicate RequestsConserved(s: Sys, p: Kind) {
    Count(s.parsed, p) == Waiting(s.mail, p) + Count(s.dropped, p) + Handled(s.handled, p)
  }

  // Every handled request has exactly one response, in exactly one place: a
  // queue, the lost ones or the delivered ones.
  predicate AnswersConserved(s: Sys, key: Key) {
    Handled(s.handled, HasKey(key)) == AnswersWaiting(s.mail, key) + Answers(s.lost, key) + Answers(s.delivered, key)
  }

  predicate ConservedAt(s: Sys, p: Kind, key: Key) {
    RequestsConserved(s, p) && AnswersConserved(s, key)
  }

  // What a handler step does to the counts of waiting messages.
  lemma MailBalance(s: Sys, a: Action, s': Sys, p: Kind, key: Key)
    requires Step(s, a, s') && IsHandlerStep(a)
    ensures a.k < |s.mail|
    ensures Waiting(s'.mail, p) == Waiting(s.mail, p) - Waiting([s.mail[a.k]], p) + Waiting(Added(s, a), p)
    ensures AnswersWaiting(s'.mail, key)
            == AnswersWaiting(s.mail, key) - AnswersWaiting([s.mail[a.k]], key) + AnswersWaiting(Added(s, a), key)
  {
    HandlerMail(s, a, s');
    MailWithout(s.mail, a.k, p, key);
    MailAppend(Without(s.mail, a.k), Added(s, a), p, key);
  }

  lemma AddedCounts(s: Sys, a: Action, p: Kind, key: Key)
    requires a.Locate? || a.Serve? ==> a.k < |s.mail| && s.mail[a.k].ipc.IpcLockRequest?
    ensures Waiting(Added(s, a), p)
            == if a.Locate? && Added(s, a) != [] && p(s.mail[a.k].ipc.request) then 1 else 0
    ensures AnswersWaiting(Added(s, a), key)
            == if a.Serve? && Added(s, a) != [] && KeyOf(s.mail[a.k].ipc.request) == key then 1 else 0
  {
    if Added(s, a) != [] {
      MailOfOne(Added(s, a)[0], p, key);
    }
  }

  lemma ServeCounts(s: Sys, a: Action, s': Sys, p: Kind, key: Key)
    requires Step(s, a, s') && a.Serve?
    ensures var m := s.mail[a.k].ipc.request;
            && Waiting(s'.mail, p) == Waiting(s.mail, p) - (if p(m) then 1 else 0)
            && Handled(s'.handled, p) == Handled(s.handled, p) + (if p(m) then 1 else 0)
            && AnswersWaiting(s'.mail, key)
               == AnswersWaiting(s.mail, key) + if Added(s, a) != [] && KeyOf(m) == key then 1 else 0
  {
    var m := s.mail[a.k].ipc.request;
    MailBalance(s, a, s', p, key);
    MailOfOne(s.mail[a.k], p, key);
    AddedCounts(s, a, p, key);
    LogsOneMore([], s.handled, m, Delivery(a.dest, m), p);
  }

  lemma ServeKeepsRequests(s: Sys, a: Action, s': Sys, p: Kind, key: Key)
    requires RequestsConserved(s, p) && Step(s, a, s') && a.Serve?
    ensures RequestsConserved(s', p)
  {
    ServeCounts(s, a, s', p, key);
  }

  lemma ServeKeepsAnswers(s: Sys, a: Action, s': Sys, key: Key)
    requires AnswersConserved(s, key) && Step(s, a, s') && a.Serve?
    ensures AnswersConserved(s', key)
  {
    ServeCounts(s, a, s', HasKey(key), key);
    AnswersOneMore(s.lost, Response(s.mail[a.k].ipc.request, a.now), key);
  }

  lemma HandlerConserves(s: Sys, a: Action, s': Sys, p: Kind, key: Key)
    requires AllAddressed(s) && ConservedAt(s, p, key) && Step(s, a, s') && IsHandlerStep(a) && !a.Serve?
    ensures ConservedAt(s', p, key)
  {
    MailBalance(s, a, s', p, key);
    assert WellAddressed(s.mail[a.k]);
    MailOfOne(s.mail[a.k], p, key);
    AddedCounts(s, a, p, key);
    if a.Locate? {
      var m := s.mail[a.k].ipc.request;
      LogsOneMore(s.dropped, [], m, Delivery(0, m), p);
    } else if a.Ack? {
      AnswersOneMore(s.delivered, s.mail[a.k].ipc.response, key);
    }
  }

  // Gateway's message gets to locator's queue.
  predicate GetsOn(s: Sys, a: Action)
    requires a.Arrive?
  {
    IDX_LOCATOR in s.up && !a.refused
  }

  // An accepted request goes to locator, and is dropped only if locator is not
  // running or the send fails.
  lemma ArriveOutcome(s: Sys, a: Action, s': Sys)
    requires Step(s, a, s') && a.Arrive?
    ensures var m := RequestOf(a.frame);
            && s'.parsed == s.parsed + [m] && s'.handled == s.handled
            && s'.lost == s.lost && s'.delivered == s.delivered
            && if GetsOn(s, a)
               then s'.mail == s.mail + [Envelope(IDX_LOCATOR, IpcLockRequest(0, m))] && s'.dropped == s.dropped
               else s'.mail == s.mail && s'.dropped == s.dropped + [m]
  {
    assert s.mail + [] == s.mail;
  }

  lemma ArriveConserves(s: Sys, a: Action, s': Sys, p: Kind, key: Key)
    requires ConservedAt(s, p, key) && Step(s, a, s') && a.Arrive?
    ensures ConservedAt(s', p, key)
  {
    var m := RequestOf(a.frame);
    var e := Envelope(IDX_LOCATOR, IpcLockRequest(0, m));
    ArriveOutcome(s, a, s');
    MailOfOne(e, p, key);
    MailAppend(s.mail, [e], p, key);
    LogsOneMore(s.parsed, [], m, Delivery(0, m), p);
    LogsOneMore(s.dropped, [], m, Delivery(0, m), p);
  }

  lemma ConservationStep(s: Sys, a: Action, s': Sys, p: Kind, key: Key)
    requires AllAddressed(s) && ConservedAt(s, p, key) && Step(s, a, s')
    ensures ConservedAt(s', p, key)
  {
    if a.Serve? {
      ServeKeepsRequests(s, a, s', p, key);
      ServeKeepsAnswers(s, a, s', key);
    } else if IsHandlerStep(a) {
      HandlerConserves(s, a, s', p, key);
    } else if a.Arrive? {
      ArriveConserves(s, a, s', p, key);
    }
  }

  // ---- relay transparency ----

  predicate LogsAgree(s: Sys) {
    && |s.accepted| == |s.parsed|
    && (forall i | 0 <= i < |s.parsed| :: s.accepted[i] == EncodeRequest(s.parsed[i]) && RequestCheck(s.accepted[i]) == Ok)
  }

  lemma LogsStep(s: Sys, a: Action, s': Sys)
    requires LogsAgree(s) && Step(s, a, s')
    ensures LogsAgree(s')
  {
    if a.Arrive? {
      RequestReencodes(a.frame);
      assert a.frame[..REQUEST_SIZE] == a.frame;
    }
  }

  // Requests are passed on unchanged: whatever travels was parsed.
  predicate OnlyParsedTravels(s: Sys) {
    && (forall i | 0 <= i < |s.mail| && s.mail[i].ipc.IpcLockRequest? :: s.mail[i].ipc.request in s.parsed)
    && (forall i | 0 <= i < |s.attempted| :: s.attempted[i].request in s.parsed)
    && (forall i | 0 <= i < |s.written| :: s.written[i].request in s.parsed)
  }

  lemma TravelStep(s: Sys, a: Action, s': Sys)
    requires OnlyParsedTravels(s) && Step(s, a, s')
    ensures OnlyParsedTravels(s')
  {
    if IsHandlerStep(a) {
      HandlerMail(s, a, s');
      var n := |Without(s.mail, a.k)|;
      forall i | 0 <= i < |s'.mail| && s'.mail[i].ipc.IpcLockRequest? ensures s'.mail[i].ipc.request in s'.parsed {
        if i < n {
          assert s'.mail[i] == s.mail[if i < a.k then i else i + 1];
        } else {
          assert s'.mail[i] == Added(s, a)[i - n];
        }
      }
    } else if a.Arrive? {
      assert s'.parsed[|s.parsed|] == RequestOf(a.frame);
      assert s.parsed <= s'.parsed;
    }
  }

  // ---- order and isolation per terminal ----

  function ForText(requests: seq<LockRequest>, text: TermNo): seq<LockRequest> {
    if requests == [] then []
    else ForText(requests[..|requests| - 1], text)
         + if requests[|requests| - 1].termNo == text then [requests[|requests| - 1]] else []
  }

  function DeliveredTo(d: seq<Delivery>, dest: int): seq<LockRequest> {
    if d == [] then []
    else DeliveredTo(d[..|d| - 1], dest) + if d[|d| - 1].dest == dest then [d[|d| - 1].request] else []
  }

  predicate IsRequestFor(m: Ipc, text: TermNo) {
    m.IpcLockRequest? && m.request.termNo == text
  }

  // The requests with this text among these messages.
  function WithText(queue: seq<Ipc>, text: TermNo): seq<LockRequest> {
    if queue == [] then []
    else (if IsRequestFor(queue[0], text) then [queue[0].request] else []) + WithText(queue[1..], text)
  }

  // The requests with this text in the queue of dest, oldest first.
  function Queued(mail: seq<Envelope>, dest: int, text: TermNo): seq<LockRequest> {
    WithText(QueueOf(mail, dest), text)
  }

  lemma {:induction false} WithTextAppend(a: seq<Ipc>, b: seq<Ipc>, text: TermNo)
    ensures WithText(a + b, text) == WithText(a, text) + WithText(b, text)
  {
    if a == [] {
      assert a + b == b;
    } else {
      var first := if IsRequestFor(a[0], text) then [a[0].request] else [];
      var rest, last := WithText(a[1..], text), WithText(b, text);
      assert (a + b)[0] == a[0] && (a + b)[1..] == a[1..] + b;
      WithTextAppend(a[1..], b, text);
      assert first + (rest + last) == (first + rest) + last;
    }
  }

  lemma QueuedAppend(a: seq<Envelope>, b: seq<Envelope>, dest: int, text: TermNo)
    ensures Queued(a + b, dest, text) == Queued(a, dest, text) + Queued(b, dest, text)
  {
    QueueAppend(a, b, dest);
    WithTextAppend(QueueOf(a, dest), QueueOf(b, dest), text);
  }

  lemma QueuedOne(e: Envelope, dest: int, text: TermNo)
    ensures Queued([e], dest, text) == if e.dest == dest && IsRequestFor(e.ipc, text) then [e.ipc.request] else []
    ensures QueueOf([e], dest) == if e.dest == dest then [e.ipc] else []
  {
    var one, queue := [e], [e.ipc];
    assert one[1..] == [] && queue[1..] == [];
    assert QueueOf(one, dest) == if e.dest == dest then queue else [];
    assert WithText(queue, text) == if IsRequestFor(e.ipc, text) then [e.ipc.request] else [];
  }

  // Taking the oldest message of a queue pops the front of its texts.
  lemma QueuedTake(mail: seq<Envelope>, from: int, k: nat, dest: int, text: TermNo)
    requires OldestAt(mail, from, k)
    ensures Queued(mail, dest, text) == Queued([mail[k]], dest, text) + Queued(Without(mail, k), dest, text)
  {
    TakeIsFifo(mail, from, k, dest);
    QueuedOne(mail[k], dest, text);
    if dest == from {
      WithTextAppend([mail[k].ipc], QueueOf(Without(mail, k), dest), text);
    } else {
      assert [] + Queued(mail, dest, text) == Queued(mail, dest, text);
    }
  }

  // The requests for one terminal still on their way or already handled, in
  // the order they will have been handled.
  function Track(s: Sys, slot: int): seq<LockRequest>
    requires 0 < slot <= 8999
  {
    var text := Spell(1000 + slot);
    DeliveredTo(s.handled, TermdIndex(slot)) + Queued(s.mail, TermdIndex(slot), text) + Queued(s.mail, IDX_LOCATOR, text)
  }

  ghost predicate InOrder(s: Sys, slot: int)
    requires 0 < slot <= 8999
  {
    var dest := TermdIndex(slot);
    && IsSubsequence(Track(s, slot), ForText(s.parsed, Spell(1000 + slot)))
    && IsSubsequence(DeliveredTo(s.attempted, dest), DeliveredTo(s.handled, dest))
    && IsSubsequence(DeliveredTo(s.written, dest), DeliveredTo(s.attempted, dest))
  }

  lemma QueuedAfter(s: Sys, a: Action, s': Sys, from: int, dest: int, text: TermNo)
    requires Step(s, a, s') && IsHandlerStep(a) && a.k < |s.mail| && OldestAt(s.mail, from, a.k)
    ensures Queued(s.mail, dest, text) == Queued([s.mail[a.k]], dest, text) + Queued(Without(s.mail, a.k), dest, text)
    ensures Queued(s'.mail, dest, text) == Queued(Without(s.mail, a.k), dest, text) + Queued(Added(s, a), dest, text)
  {
    HandlerMail(s, a, s');
    QueuedTake(s.mail, from, a.k, dest, text);
    QueuedAppend(Without(s.mail, a.k), Added(s, a), dest, text);
  }

  lemma DestinationOfText(m: LockRequest, rows: seq<Row>, slot: int)
    requires RegisteredByTermd(rows) && 0 < slot <= 8999 && m.termNo == Spell(1000 + slot)
    ensures Resolved(m.termNo, rows) in {0, TermdIndex(slot)}
  {
    SpellingIsUnique(m.termNo, 1000 + slot);
    ZeroText(m.termNo);
    ResolvedText(m.termNo, rows);
  }

  function Own(m: LockRequest, text: TermNo): seq<LockRequest> {
    if m.termNo == text then [m] else []
  }

  lemma NoneAdded(dest: int, text: TermNo)
    ensures Queued([], dest, text) == []
  {
  }

  // What locator appends, seen from one terminal.
  lemma LocateAdds(s: Sys, a: Action, slot: int)
    requires RegisteredByTermd(s.rows) && 0 < slot <= 8999
    requires a.Locate? && a.k < |s.mail| && s.mail[a.k].ipc.IpcLockRequest?
    ensures var text, m := Spell(1000 + slot), s.mail[a.k].ipc.request;
            && Queued(Added(s, a), IDX_LOCATOR, text) == []
            && Queued(Added(s, a), TermdIndex(slot), text)
               == if Added(s, a) != [] then Own(m, text) else []
  {
    var text, m := Spell(1000 + slot), s.mail[a.k].ipc.request;
    if m.termNo == text {
      DestinationOfText(m, s.rows, slot);
    }
    if Added(s, a) == [] {
      NoneAdded(IDX_LOCATOR, text);
      NoneAdded(TermdIndex(slot), text);
    } else {
      QueuedOne(Added(s, a)[0], IDX_LOCATOR, text);
      QueuedOne(Added(s, a)[0], TermdIndex(slot), text);
    }
  }

  // Locator moves the front of its queue to the terminal's, or drops it.
  lemma LocateTakes(s: Sys, a: Action, s': Sys, slot: int)
    requires 0 < slot <= 8999 && AllAddressed(s) && Step(s, a, s') && a.Locate?
    ensures var text, m := Spell(1000 + slot), s.mail[a.k].ipc.request;
            Queued(s.mail, IDX_LOCATOR, text) == Own(m, text) + Queued(s'.mail, IDX_LOCATOR, text)
  {
    var text := Spell(1000 + slot);
    QueuedAfter(s, a, s', IDX_LOCATOR, IDX_LOCATOR, text);
    QueuedOne(s.mail[a.k], IDX_LOCATOR, text);
    LocateAdds(s, a, slot);
    var left := Queued(Without(s.mail, a.k), IDX_LOCATOR, text);
    assert left + [] == left;
  }

  lemma LocateGives(s: Sys, a: Action, s': Sys, slot: int)
    requires 0 < slot <= 8999 && AllAddressed(s) && Step(s, a, s') && a.Locate?
    ensures var text, dest, m := Spell(1000 + slot), TermdIndex(slot), s.mail[a.k].ipc.request;
            Queued(s'.mail, dest, text) == Queued(s.mail, dest, text) + if Added(s, a) != [] then Own(m, text) else []
  {
    var text, dest := Spell(1000 + slot), TermdIndex(slot);
    QueuedAfter(s, a, s', IDX_LOCATOR, dest, text);
    QueuedOne(s.mail[a.k], dest, text);
    LocateAdds(s, a, slot);
    var left := Queued(Without(s.mail, a.k), dest, text);
    assert [] + left == left;
  }

  lemma MoveAlong(head: seq<LockRequest>, there: seq<LockRequest>, own: seq<LockRequest>, rest: seq<LockRequest>)
    ensures head + (there + own) + rest == head + there + (own + rest)
    ensures (head + own) + there + rest == head + (own + there) + rest
    ensures head + (there + []) + rest == (head + there) + rest
    ensures head + there + (own + rest) == (head + there) + own + rest
    ensures head + (there + []) == head + there
  {
  }

  lemma LocateInOrder(s: Sys, a: Action, s': Sys, slot: int)
    requires 0 < slot <= 8999 && AllAddressed(s) && InOrder(s, slot) && Step(s, a, s') && a.Locate?
    ensures InOrder(s', slot)
  {
    LocateTakes(s, a, s', slot);
    LocateGives(s, a, s', slot);
    var text, dest, m := Spell(1000 + slot), TermdIndex(slot), s.mail[a.k].ipc.request;
    var own := Own(m, text);
    var head, there := DeliveredTo(s.handled, dest), Queued(s.mail, dest, text);
    var rest := Queued(s'.mail, IDX_LOCATOR, text);
    MoveAlong(head, there, own, rest);
    if own == [m] && Added(s, a) == [] {
      Forget(head + there, m, rest, ForText(s.parsed, text));
    }
  }

  lemma ServeInOrder(s: Sys, a: Action, s': Sys, slot: int)
    requires 0 < slot <= 8999 && AllAddressed(s) && InOrder(s, slot) && Step(s, a, s') && a.Serve?
    ensures InOrder(s', slot)
  {
    var text, dest, m := Spell(1000 + slot), TermdIndex(slot), s.mail[a.k].ipc.request;
    ServeTrack(s, a, s', slot);
    ServeLogs(s, a, s', dest);
  }

  // A termd takes the front of its own queue and adds no request to any.
  lemma ServeTakes(s: Sys, a: Action, s': Sys, dest: int, text: TermNo)
    requires Step(s, a, s') && a.Serve?
    ensures Queued(s.mail, dest, text) == Queued([s.mail[a.k]], dest, text) + Queued(s'.mail, dest, text)
  {
    QueuedAfter(s, a, s', a.dest, dest, text);
    NoneAdded(dest, text);
    if Added(s, a) != [] {
      QueuedOne(Added(s, a)[0], dest, text);
    }
    var left := Queued(Without(s.mail, a.k), dest, text);
    assert left + [] == left;
  }

  lemma ServeQueues(s: Sys, a: Action, s': Sys, slot: int)
    requires 0 < slot <= 8999 && AllAddressed(s) && Step(s, a, s') && a.Serve?
    ensures var text, dest, m := Spell(1000 + slot), TermdIndex(slot), s.mail[a.k].ipc.request;
            && Queued(s.mail, dest, text) == (if a.dest == dest then [m] else []) + Queued(s'.mail, dest, text)
            && Queued(s.mail, IDX_LOCATOR, text) == [] + Queued(s'.mail, IDX_LOCATOR, text)
  {
    var text, dest := Spell(1000 + slot), TermdIndex(slot);
    assert WellAddressed(s.mail[a.k]);
    ServeTakes(s, a, s', dest, text);
    ServeTakes(s, a, s', IDX_LOCATOR, text);
    QueuedOne(s.mail[a.k], dest, text);
    QueuedOne(s.mail[a.k], IDX_LOCATOR, text);
  }

  lemma ServeTrack(s: Sys, a: Action, s': Sys, slot: int)
    requires 0 < slot <= 8999 && AllAddressed(s) && Step(s, a, s') && a.Serve?
    ensures Track(s', slot) == Track(s, slot)
  {
    ServeQueues(s, a, s', slot);
    var text, dest, m := Spell(1000 + slot), TermdIndex(slot), s.mail[a.k].ipc.request;
    DeliveredOneMore(s.handled, Delivery(a.dest, m), dest);
    MoveAlong(DeliveredTo(s.handled, dest), Queued(s'.mail, dest, text), if a.dest == dest then [m] else [],
              Queued(s'.mail, IDX_LOCATOR, text));
  }

  lemma DeliveredOneMore(d: seq<Delivery>, one: Delivery, dest: int)
    ensures DeliveredTo(d + [one], dest) == DeliveredTo(d, dest) + if one.dest == dest then [one.request] else []
  {
    assert (d + [one])[..|d|] == d;
  }

  lemma ServeLogs(s: Sys, a: Action, s': Sys, dest: int)
    requires Step(s, a, s') && a.Serve?
    requires IsSubsequence(DeliveredTo(s.attempted, dest), DeliveredTo(s.handled, dest))
    requires IsSubsequence(DeliveredTo(s.written, dest), DeliveredTo(s.attempted, dest))
    ensures IsSubsequence(DeliveredTo(s'.attempted, dest), DeliveredTo(s'.handled, dest))
    ensures IsSubsequence(DeliveredTo(s'.written, dest), DeliveredTo(s'.attempted, dest))
  {
    var one := Delivery(a.dest, s.mail[a.k].ipc.request);
    DeliveredOneMore(s.handled, one, dest);
    DeliveredOneMore(s.attempted, one, dest);
    DeliveredOneMore(s.written, one, dest);
    if a.dest == dest {
      Extend(DeliveredTo(s.attempted, dest), DeliveredTo(s.handled, dest), one.request);
      Skip(DeliveredTo(s.attempted, dest), DeliveredTo(s.handled, dest), [one.request]);
      Extend(DeliveredTo(s.written, dest), DeliveredTo(s.attempted, dest), one.request);
      Skip(DeliveredTo(s.written, dest), DeliveredTo(s.attempted, dest), [one.request]);
    } else {
      assert DeliveredTo(s'.handled, dest) == DeliveredTo(s.handled, dest);
      assert DeliveredTo(s'.attempted, dest) == DeliveredTo(s.attempted, dest);
      assert DeliveredTo(s'.written, dest) == DeliveredTo(s.written, dest);
    }
  }

  lemma ArriveQueues(s: Sys, a: Action, s': Sys, dest: int, text: TermNo)
    requires Step(s, a, s') && a.Arrive?
    ensures Queued(s'.mail, dest, text)
            == Queued(s.mail, dest, text) + if GetsOn(s, a) && dest == IDX_LOCATOR then Own(RequestOf(a.frame), text) else []
  {
    var e := Envelope(IDX_LOCATOR, IpcLockRequest(0, RequestOf(a.frame)));
    ArriveOutcome(s, a, s');
    QueuedAppend(s.mail, [e], dest, text);
    QueuedOne(e, dest, text);
    var queued := Queued(s.mail, dest, text);
    assert queued + [] == queued;
  }

  lemma ParsedGrows(parsed: seq<LockRequest>, m: LockRequest, text: TermNo)
    ensures ForText(parsed + [m], text) == ForText(parsed, text) + Own(m, text)
  {
    assert (parsed + [m])[..|parsed|] == parsed;
  }

  lemma Grow(a: seq<LockRequest>, b: seq<LockRequest>, own: seq<LockRequest>, taken: bool)
    requires IsSubsequence(a, b) && |own| <= 1
    ensures IsSubsequence(a + if taken then own else [], b + own)
  {
    Skip(a, b, own);
    assert a + [] == a;
    if own != [] {
      Extend(a, b, own[0]);
      assert own == [own[0]];
    }
  }

  lemma ArriveInOrder(s: Sys, a: Action, s': Sys, slot: int)
    requires 0 < slot <= 8999 && InOrder(s, slot) && Step(s, a, s') && a.Arrive?
    ensures InOrder(s', slot)
  {
    var text, dest, m := Spell(1000 + slot), TermdIndex(slot), RequestOf(a.frame);
    var own := Own(m, text);
    ArriveQueues(s, a, s', dest, text);
    ArriveQueues(s, a, s', IDX_LOCATOR, text);
    ParsedGrows(s.parsed, m, text);
    Grow(Track(s, slot), ForText(s.parsed, text), own, GetsOn(s, a));
    MoveAlong(DeliveredTo(s.handled, dest), Queued(s.mail, dest, text), Queued(s.mail, IDX_LOCATOR, text),
              if GetsOn(s, a) then own else []);
    assert Track(s', slot) == Track(s, slot) + if GetsOn(s, a) then own else [];
  }

  lemma AckTakesNoRequest(s: Sys, a: Action, s': Sys, dest: int, text: TermNo)
    requires Step(s, a, s') && a.Ack?
    ensures Queued(s'.mail, dest, text) == Queued(s.mail, dest, text)
  {
    QueuedAfter(s, a, s', IDX_GATEWAY, dest, text);
    QueuedOne(s.mail[a.k], dest, text);
    NoneAdded(dest, text);
    var left := Queued(Without(s.mail, a.k), dest, text);
    assert left + [] == left && [] + left == left;
  }

  lemma AckInOrder(s: Sys, a: Action, s': Sys, slot: int)
    requires 0 < slot <= 8999 && InOrder(s, slot) && Step(s, a, s') && a.Ack?
    ensures InOrder(s', slot)
  {
    AckTakesNoRequest(s, a, s', TermdIndex(slot), Spell(1000 + slot));
    AckTakesNoRequest(s, a, s', IDX_LOCATOR, Spell(1000 + slot));
  }

  // No process ever receives a message it has no handler for.
  lemma NothingIsMisrouted(s: Sys, dest: int, k: nat)
    requires AllAddressed(s) && OldestAt(s.mail, dest, k)
    ensures Handles(dest, s.mail[k].ipc)
  {
    assert WellAddressed(s.mail[k]);
  }

  lemma OrderStep(s: Sys, a: Action, s': Sys, slot: int)
    requires 0 < slot <= 8999 && AllAddressed(s) && InOrder(s, slot) && Step(s, a, s')
    ensures InOrder(s', slot)
  {
    match a
    case Arrive(_, _) => ArriveInOrder(s, a, s', slot);
    case Locate(_, _, _) => LocateInOrder(s, a, s', slot);
    case Serve(_, _, _, _, _, _) => ServeInOrder(s, a, s', slot);
    case Ack(_) => AckInOrder(s, a, s', slot);
    case Unhandled(dest, k) =>
      NothingIsMisrouted(s, dest, k);
      assert false;
    case _ =>
  }

  // ---- every run ----

  lemma StartIsInOrder(slot: int)
    requires 0 < slot <= 8999
    ensures InOrder(Start(), slot)
  {
    SubsequenceOfSelf<LockRequest>([]);
    assert Track(Start(), slot) == [];
  }

  lemma {:induction false} RunKeepsAddressing(states: seq<Sys>, actions: seq<Action>, n: nat)
    requires Run(states, actions) && n <= |actions|
    ensures AllAddressed(states[n])
  {
    if n != 0 {
      RunKeepsAddressing(states, actions, n - 1);
      AddressingStep(states[n - 1], actions[n - 1], states[n]);
    }
  }

  // Conservation: in every reachable state, of any kind of request, each
  // parsed one is in exactly one of the queues, the dropped and the handled
  // ones; and the handled ones with a given terminal and sequence number have
  // exactly as many responses waiting, lost or delivered.
  lemma {:induction false} NothingIsLostOrDoubled(
    states: seq<Sys>, actions: seq<Action>, n: nat, p: Kind, key: Key)
    requires Run(states, actions) && n <= |actions|
    ensures var s := states[n];
            && Count(s.parsed, p) == Waiting(s.mail, p) + Count(s.dropped, p) + Handled(s.handled, p)
            && Handled(s.handled, HasKey(key)) == AnswersWaiting(s.mail, key) + Answers(s.lost, key) + Answers(s.delivered, key)
  {
    if n != 0 {
      NothingIsLostOrDoubled(states, actions, n - 1, p, key);
      RunKeepsAddressing(states, actions, n - 1);
      ConservationStep(states[n - 1], actions[n - 1], states[n], p, key);
    }
  }

  // So responses never exceed requests, key by key.
  lemma AnswersNeverExceedRequests(states: seq<Sys>, actions: seq<Action>, n: nat, key: Key)
    requires Run(states, actions) && n <= |actions|
    ensures var s := states[n];
            AnswersWaiting(s.mail, key) + Answers(s.lost, key) + Answers(s.delivered, key) <= Count(s.parsed, HasKey(key))
  {
    NothingIsLostOrDoubled(states, actions, n, HasKey(key), key);
  }

  // Relay transparency: the bytes termd hands to a terminal's socket are,
  // byte for byte, a frame that gateway accepted, timestamp and reserved
  // field included.
  lemma {:induction false} RelayIsTransparent(states: seq<Sys>, actions: seq<Action>, n: nat)
    requires Run(states, actions) && n <= |actions|
    ensures LogsAgree(states[n]) && OnlyParsedTravels(states[n])
    ensures var s := states[n];
            && (forall i | 0 <= i < |s.attempted| :: EncodeRequest(s.attempted[i].request) in s.accepted)
            && (forall i | 0 <= i < |s.written| :: EncodeRequest(s.written[i].request) in s.accepted)
  {
    if n != 0 {
      RelayIsTransparent(states, actions, n - 1);
      LogsStep(states[n - 1], actions[n - 1], states[n]);
      TravelStep(states[n - 1], actions[n - 1], states[n]);
    }
  }

  lemma {:induction false} RunKeepsOrder(states: seq<Sys>, actions: seq<Action>, n: nat, slot: int)
    requires Run(states, actions) && n <= |actions| && 0 < slot <= 8999
    ensures InOrder(states[n], slot)
  {
    if n == 0 {
      StartIsInOrder(slot);
    } else {
      RunKeepsOrder(states, actions, n - 1, slot);
      RunKeepsAddressing(states, actions, n - 1);
      OrderStep(states[n - 1], actions[n - 1], states[n], slot);
    }
  }

  lemma HandledInOrder(handled: seq<LockRequest>, here: seq<LockRequest>, there: seq<LockRequest>, parsed: seq<LockRequest>)
    requires IsSubsequence(handled + here + there, parsed)
    ensures IsSubsequence(handled, parsed)
  {
    assert handled + here + there == handled + (here + there);
    Prefix(handled, here + there, parsed);
  }

  lemma AttemptsInOrder(s: Sys, slot: int)
    requires 0 < slot <= 8999 && InOrder(s, slot)
    ensures var dest, text := TermdIndex(slot), Spell(1000 + slot);
            && IsSubsequence(DeliveredTo(s.attempted, dest), ForText(s.parsed, text))
            && IsSubsequence(DeliveredTo(s.written, dest), ForText(s.parsed, text))
  {
    var dest, text := TermdIndex(slot), Spell(1000 + slot);
    var handled, parsed := DeliveredTo(s.handled, dest), ForText(s.parsed, text);
    HandledInOrder(handled, Queued(s.mail, dest, text), Queued(s.mail, IDX_LOCATOR, text), parsed);
    Transitive(DeliveredTo(s.attempted, dest), handled, parsed);
    Transitive(DeliveredTo(s.written, dest), DeliveredTo(s.attempted, dest), parsed);
  }

  // Order and isolation: what reaches the socket of terminal 1000+slot is, in
  // order, a subsequence of the accepted requests that spell its number, and
  // its termd's queue holds no other terminal's requests.
  lemma TerminalGetsItsOwnInOrder(states: seq<Sys>, actions: seq<Action>, n: nat, slot: int)
    requires Run(states, actions) && n <= |actions| && 0 < slot <= 8999
    ensures var s, dest, text := states[n], TermdIndex(slot), Spell(1000 + slot);
            && IsSubsequence(DeliveredTo(s.attempted, dest), ForText(s.parsed, text))
            && IsSubsequence(DeliveredTo(s.written, dest), ForText(s.parsed, text))
            && (forall i | 0 <= i < |s.mail| && s.mail[i].dest == dest :: ForTermd(dest, s.mail[i].ipc))
  {
    RunKeepsOrder(states, actions, n, slot);
    RunKeepsAddressing(states, actions, n);
    var s, dest := states[n], TermdIndex(slot);
    AttemptsInOrder(s, slot);
    forall i | 0 <= i < |s.mail| && s.mail[i].dest == dest ensures ForTermd(dest, s.mail[i].ipc) {
      assert WellAddressed(s.mail[i]);
    }
  }

  // ---- draining ----

  function Cost(e: Envelope): nat {
    if e.dest == IDX_LOCATOR then 3 else if e.dest == IDX_GATEWAY then 1 else 2
  }

  // 3 for each message at locator, 2 at a termd, 1 at gateway.
  function Load(mail: seq<Envelope>): nat {
    if mail == [] then 0 else Cost(mail[0]) + Load(mail[1..])
  }

  lemma {:induction false} LoadAppend(a: seq<Envelope>, b: seq<Envelope>)
    ensures Load(a + b) == Load(a) + Load(b)
  {
    if a == [] {
      assert a + b == b;
    } else {
      assert (a + b)[0] == a[0] && (a + b)[1..] == a[1..] + b;
      LoadAppend(a[1..], b);
    }
  }

  lemma LoadOfOne(e: Envelope)
    ensures Load([e]) == Cost(e)
  {
    var one := [e];
    assert one[1..] == [];
  }

  lemma LoadBalance(s: Sys, a: Action, s': Sys)
    requires Step(s, a, s') && IsHandlerStep(a)
    ensures a.k < |s.mail| && Load(s'.mail) == Load(s.mail) - Cost(s.mail[a.k]) + Load(Added(s, a))
  {
    HandlerMail(s, a, s');
    var pre, post := s.mail[..a.k], s.mail[a.k + 1..];
    assert s.mail == pre + ([s.mail[a.k]] + post);
    LoadAppend(pre, [s.mail[a.k]] + post);
    LoadAppend([s.mail[a.k]], post);
    LoadAppend(pre, post);
    LoadAppend(Without(s.mail, a.k), Added(s, a));
    LoadOfOne(s.mail[a.k]);
  }

  // A request for "0000" that finds a free row goes back to locator.
  predicate Circulates(s: Sys, a: Action) {
    && a.Locate? && a.k < |s.mail| && s.mail[a.k].ipc.IpcLockRequest? && s.mail[a.k].ipc.request.termNo == ZEROES
    && a.locked && !a.refused && IDX_LOCATOR in s.up && IndexOf(s.rows, 0) < |s.rows|
  }

  lemma CirculatesMeansSentBack(s: Sys, a: Action)
    requires AllAddressed(s) && a.Locate? && a.k < |s.mail| && s.mail[a.k].ipc.IpcLockRequest?
    ensures Circulates(s, a) <==> Added(s, a) != [] && Added(s, a)[0].dest == IDX_LOCATOR
  {
    var m := s.mail[a.k].ipc.request;
    LocateAddresses(m, s.rows, s.up, a.locked, a.refused);
    ZeroesResolveToLocator(s.rows);
  }

  // Every handler step lightens the load, whichever sends fail, with the one
  // exception, which leaves it as it was.
  lemma HandlersDrain(s: Sys, a: Action, s': Sys)
    requires AllAddressed(s) && Step(s, a, s') && IsHandlerStep(a)
    ensures Load(s'.mail) < Load(s.mail) <==> !Circulates(s, a)
    ensures Circulates(s, a) ==> Load(s'.mail) == Load(s.mail)
  {
    LoadBalance(s, a, s');
    assert WellAddressed(s.mail[a.k]);
    if Added(s, a) != [] {
      LoadOfOne(Added(s, a)[0]);
    }
    if a.Locate? {
      CirculatesMeansSentBack(s, a);
    }
  }

  predicate NoZeroes(mail: seq<Envelope>) {
    forall i | 0 <= i < |mail| && mail[i].ipc.IpcLockRequest? :: mail[i].ipc.request.termNo != ZEROES
  }

  lemma NoZeroesStep(s: Sys, a: Action, s': Sys)
    requires Step(s, a, s') && IsHandlerStep(a) && NoZeroes(s.mail)
    ensures NoZeroes(s'.mail)
  {
    HandlerMail(s, a, s');
    var n := |Without(s.mail, a.k)|;
    forall i | 0 <= i < |s'.mail| && s'.mail[i].ipc.IpcLockRequest? ensures s'.mail[i].ipc.request.termNo != ZEROES {
      if i < n {
        assert s'.mail[i] == s.mail[if i < a.k then i else i + 1];
      } else {
        assert s'.mail[i] == Added(s, a)[i - n];
      }
    }
  }

  predicate Drains(s: Sys, a: Action) {
    IsHandlerStep(a) && !Circulates(s, a)
  }

  lemma QuietStep(s: Sys, a: Action, s': Sys)
    requires AllAddressed(s) && Step(s, a, s') && !a.Arrive?
    ensures AllAddressed(s') && (if Drains(s, a) then 1 else 0) + Load(s'.mail) <= Load(s.mail)
  {
    AddressingStep(s, a, s');
    if IsHandlerStep(a) {
      HandlersDrain(s, a, s');
    }
  }

  lemma StepWithoutZeroes(s: Sys, a: Action, s': Sys)
    requires AllAddressed(s) && Step(s, a, s') && !a.Arrive? && NoZeroes(s.mail)
    ensures NoZeroes(s'.mail) && (Drains(s, a) <==> IsHandlerStep(a))
  {
    if IsHandlerStep(a) {
      NoZeroesStep(s, a, s');
    }
  }

  // How many of the first n actions are handler steps, and how many of those
  // do not hand a "0000" back.
  function HandlerSteps(actions: seq<Action>, n: nat): nat
    requires n <= |actions|
  {
    if n == 0 then 0 else HandlerSteps(actions, n - 1) + if IsHandlerStep(actions[n - 1]) then 1 else 0
  }

  function DrainingSteps(states: seq<Sys>, actions: seq<Action>, n: nat): nat
    requires n <= |actions| <= |states|
  {
    if n == 0 then 0
    else DrainingSteps(states, actions, n - 1)
         + if Drains(states[n - 1], actions[n - 1]) then 1 else 0
  }

  // No input arrives; the table and the set of processes may change.
  ghost predicate RunWithoutInput(states: seq<Sys>, actions: seq<Action>) {
    && |states| == |actions| + 1 && AllAddressed(states[0])
    && forall i | 0 <= i < |actions| :: !actions[i].Arrive? && Step(states[i], actions[i], states[i + 1])
  }

  lemma {:induction false} AddressedInRun(states: seq<Sys>, actions: seq<Action>, n: nat)
    requires RunWithoutInput(states, actions) && n <= |actions|
    ensures AllAddressed(states[n])
  {
    if n != 0 {
      AddressedInRun(states, actions, n - 1);
      AddressingStep(states[n - 1], actions[n - 1], states[n]);
    }
  }

  lemma QuietStepOfRun(states: seq<Sys>, actions: seq<Action>, n: nat)
    requires RunWithoutInput(states, actions) && 0 < n <= |actions|
    ensures DrainingSteps(states, actions, n) + Load(states[n].mail)
            <= DrainingSteps(states, actions, n - 1) + Load(states[n - 1].mail)
  {
    AddressedInRun(states, actions, n - 1);
    QuietStep(states[n - 1], actions[n - 1], states[n]);
  }

  // Once input stops, at most as many handler steps as the load at that point
  // do anything but hand a "0000" back to locator.
  lemma {:induction false} PipelineQuiesces(states: seq<Sys>, actions: seq<Action>, n: nat)
    requires RunWithoutInput(states, actions) && n <= |actions|
    ensures DrainingSteps(states, actions, n) + Load(states[n].mail) <= Load(states[0].mail)
  {
    if n != 0 {
      PipelineQuiesces(states, actions, n - 1);
      QuietStepOfRun(states, actions, n);
    }
  }

  lemma StepOfRunWithoutZeroes(states: seq<Sys>, actions: seq<Action>, n: nat)
    requires RunWithoutInput(states, actions) && 0 < n <= |actions| && NoZeroes(states[n - 1].mail)
    ensures NoZeroes(states[n].mail) && (Drains(states[n - 1], actions[n - 1]) <==> IsHandlerStep(actions[n - 1]))
  {
    AddressedInRun(states, actions, n - 1);
    StepWithoutZeroes(states[n - 1], actions[n - 1], states[n]);
  }

  lemma {:induction false} NothingCirculates(states: seq<Sys>, actions: seq<Action>, n: nat)
    requires RunWithoutInput(states, actions) && n <= |actions| && NoZeroes(states[0].mail)
    ensures NoZeroes(states[n].mail) && HandlerSteps(actions, n) == DrainingSteps(states, actions, n)
  {
    if n != 0 {
      NothingCirculates(states, actions, n - 1);
      StepOfRunWithoutZeroes(states, actions, n);
    }
  }

  // So without a "0000" on its way, all handlers come to rest within that many
  // steps.
  lemma QuiescesWithoutZeroes(states: seq<Sys>, actions: seq<Action>, n: nat)
    requires RunWithoutInput(states, actions) && n <= |actions| && NoZeroes(states[0].mail)
    ensures HandlerSteps(actions, n) + Load(states[n].mail) <= Load(states[0].mail)
  {
    PipelineQuiesces(states, actions, n);
    NothingCirculates(states, actions, n);
  }

  // With a free row, locator takes a request for "0000" from the front of its
  // queue and puts it back at the end; no other queue changes.
  lemma ZeroesGoRound(s: Sys, k: nat, dest: int)
    requires OldestAt(s.mail, IDX_LOCATOR, k) && s.mail[k].ipc.IpcLockRequest?
    requires Circulates(s, Locate(k, true, false))
    ensures QueueOf(s.mail, IDX_LOCATOR) != []
    ensures var again := IpcLockRequest(IDX_LOCATOR, s.mail[k].ipc.request);
            var s' := s.(mail := Without(s.mail, k) + [Envelope(IDX_LOCATOR, again)]);
            && Step(s, Locate(k, true, false), s')
            && QueueOf(s'.mail, IDX_LOCATOR) == QueueOf(s.mail, IDX_LOCATOR)[1..] + [again]
            && (dest != IDX_LOCATOR ==> QueueOf(s'.mail, dest) == QueueOf(s.mail, dest))
  {
    var e := Envelope(IDX_LOCATOR, IpcLockRequest(IDX_LOCATOR, s.mail[k].ipc.request));
    ZeroesResolveToLocator(s.rows);
    assert LocatorSends(s.mail[k].ipc.request, s.rows, s.up, true, false) == [e];
    TakeIsFifo(s.mail, IDX_LOCATOR, k, dest);
    QueueAppend(Without(s.mail, k), [e], IDX_LOCATOR);
    QueueAppend(Without(s.mail, k), [e], dest);
    QueuedOne(e, IDX_LOCATOR, ZEROES);
    QueuedOne(e, dest, ZEROES);
  }

  // A "0000" waits at locator, which will not get rid of it.
  ghost predicate ZeroesWait(s: Sys) {
    && IDX_LOCATOR in s.up && IndexOf(s.rows, 0) < |s.rows|
    && exists i :: ZeroesAt(s.mail, i)
  }

  predicate ZeroesAt(mail: seq<Envelope>, i: nat) {
    i < |mail| && mail[i].dest == IDX_LOCATOR && mail[i].ipc.IpcLockRequest? && mail[i].ipc.request.termNo == ZEROES
  }

  lemma {:induction false} FindOldest(mail: seq<Envelope>, dest: int, i: nat) returns (k: nat)
    requires i < |mail| && mail[i].dest == dest
    ensures OldestAt(mail, dest, k) && k <= i
    decreases i
  {
    if j :| 0 <= j < i && mail[j].dest == dest {
      k := FindOldest(mail, dest, j);
    } else {
      k := i;
    }
  }

  lemma LocateKeepsZeroes(s: Sys) returns (a: Action, s': Sys)
    requires AllAddressed(s) && ZeroesWait(s)
    ensures a.Locate? && Step(s, a, s') && ZeroesWait(s')
  {
    var i: nat :| ZeroesAt(s.mail, i);
    var k := FindOldest(s.mail, IDX_LOCATOR, i);
    assert WellAddressed(s.mail[k]);
    a, s' := Locate(k, true, false), AfterLocate(s, k, true, false);
    if k == i {
      ZeroesGoRound(s, k, IDX_LOCATOR);
      assert ZeroesAt(s'.mail, |Without(s.mail, k)|);
    } else {
      assert s'.mail[i - 1] == s.mail[i];
      assert ZeroesAt(s'.mail, i - 1);
    }
  }

  // The exception is real, and for ever: with a free row and a request for
  // "0000" anywhere in its queue, locator can take any number of steps and
  // still have it.
  lemma {:induction false} ZeroesSpin(s: Sys, n: nat) returns (states: seq<Sys>, actions: seq<Action>)
    requires AllAddressed(s) && ZeroesWait(s)
    ensures |actions| == n && RunWithoutInput(states, actions) && states[0] == s && ZeroesWait(states[n])
    ensures AllAddressed(states[n]) && forall i | 0 <= i < n :: actions[i].Locate?
  {
    if n == 0 {
      states, actions := [s], [];
    } else {
      var before, taken := ZeroesSpin(s, n - 1);
      var a, s' := LocateKeepsZeroes(before[n - 1]);
      AddressingStep(before[n - 1], a, s');
      states, actions := before + [s'], taken + [a];
    }
  }

  // And it only comes to rest empty: a waiting message can always be handled.
  lemma WaitingCanBeHandled(s: Sys)
    requires AllAddressed(s) && s.mail != []
    ensures exists a, s' :: IsHandlerStep(a) && Step(s, a, s')
  {
    assert WellAddressed(s.mail[0]);
    var dest := s.mail[0].dest;
    assert OldestAt(s.mail, dest, 0);
    if dest == IDX_LOCATOR {
      assert Step(s, Locate(0, true, false), AfterLocate(s, 0, true, false));
    } else if dest == IDX_GATEWAY {
      assert Step(s, Ack(0), s.(mail := Without(s.mail, 0),
                                delivered := s.delivered + [s.mail[0].ipc.response]));
    } else {
      assert Step(s, Serve(dest, 0, false, false, 0, false), AfterServe(s, dest, 0, false, false, 0, false));
    }
  }
}
