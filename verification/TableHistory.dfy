// What has been done to the terminal table, one whole or broken-off call after
// another, and what its rows, its readers and its shape owe to that history
// (common/shm_table.h, common/shm_table.cpp). TableProtocol shows that every
// run of the processes has such a history.
module TableHistory {
  import opened Wire
  import opened TerminalTable

  // A call that ran to its unlock, or one whose process was killed inside the
  // critical section with only some of its fields written.
  datatype Event = Completed(op: Op, reply: Reply) | Torn(op: Op, written: set<Field>)

  function Effect(e: Event, rows: seq<Row>): seq<Row> {
    match e
    case Completed(op, _) => Apply(op, rows)
    case Torn(op, written) => WriteFields(op, written, rows)
  }

  // The table after running the events one whole call at a time.
  function Replay(history: seq<Event>): (rows: seq<Row>)
    ensures |rows| == MAX_TERMINALS
  {
    if history == [] then EmptyTable()
    else Effect(history[|history| - 1], Replay(history[..|history| - 1]))
  }

  // A completed call got the answer the sequential table gives on these rows.
  predicate EventFits(e: Event, rows: seq<Row>) {
    && Admitted(e.op)
    && match e
       case Completed(op, reply) => reply == ReplyTo(op, rows)
       case Torn(op, written) => written <= WrittenFields(op)
  }

  ghost predicate Sequential(history: seq<Event>) {
    forall k | 0 <= k < |history| :: EventFits(history[k], Replay(history[..k]))
  }

  lemma SequentialExtends(history: seq<Event>, e: Event)
    requires Sequential(history) && EventFits(e, Replay(history))
    ensures Sequential(history + [e])
    ensures Replay(history + [e]) == Effect(e, Replay(history))
  {
    var longer := history + [e];
    assert longer[..|history|] == history;
    forall k | 0 <= k < |longer| ensures EventFits(longer[k], Replay(longer[..k])) {
      if k < |history| {
        assert longer[..k] == history[..k];
      }
    }
  }

  lemma {:induction false} ReplayKeepsShape(history: seq<Event>)
    requires Sequential(history)
    ensures Shape(Replay(history))
  {
    if history != [] {
      var n := |history| - 1;
      forall k | 0 <= k < n ensures EventFits(history[..n][k], Replay(history[..n][..k])) {
        assert history[..n][..k] == history[..k];
      }
      ReplayKeepsShape(history[..n]);
      var e := history[n];
      WriteKeepsShape(e.op, if e.Completed? then WrittenFields(e.op) else e.written, Replay(history[..n]));
    }
  }

  lemma SequentialPrefix(history: seq<Event>, n: nat)
    requires Sequential(history) && n <= |history|
    ensures Sequential(history[..n])
  {
    forall k | 0 <= k < n ensures EventFits(history[..n][k], Replay(history[..n][..k])) {
      assert history[..n][..k] == history[..k];
    }
  }

  // ---- committed and torn ----

  // Event k of the history writes row i.
  predicate Writes(history: seq<Event>, k: nat, i: nat)
    requires k < |history|
  {
    WriteIndex(history[k].op, Replay(history[..k])) == i
  }

  function FieldsOf(e: Event): set<Field> {
    if e.Completed? then WrittenFields(e.op) else e.written
  }

  // What completed calls last wrote to each field of row i.
  function CommittedRow(history: seq<Event>, i: nat): Row {
    if history == [] then FREE_ROW
    else
      var n := |history| - 1;
      if history[n].Completed? && Writes(history, n, i)
      then Merge(CommittedRow(history[..n], i), Source(history[n].op), WrittenFields(history[n].op))
      else CommittedRow(history[..n], i)
  }

  // The fields of row i that a killed call was the last to write.
  function TornFields(history: seq<Event>, i: nat): set<Field> {
    if history == [] then {}
    else
      var n := |history| - 1;
      var before := TornFields(history[..n], i);
      if !Writes(history, n, i) then before
      else if history[n].Completed? then before - WrittenFields(history[n].op)
      else before + history[n].written
  }

  // What killed calls last wrote to each field of row i.
  function TornValues(history: seq<Event>, i: nat): Row {
    if history == [] then FREE_ROW
    else
      var n := |history| - 1;
      if history[n].Torn? && Writes(history, n, i)
      then Merge(TornValues(history[..n], i), Source(history[n].op), history[n].written)
      else TornValues(history[..n], i)
  }

  function ValueOf(row: Row, f: Field): nat {
    match f
    case TermNoField => row.termNo
    case CapabilitiesField => row.capabilities
    case StateField => row.state
    case LastSeenField => row.lastSeen
  }

  // Whatever killed calls were the last to write to row i is what completed
  // calls had last written there.
  predicate TornInVain(history: seq<Event>, i: nat) {
    forall f | f in TornFields(history, i) :: ValueOf(TornValues(history, i), f) == ValueOf(CommittedRow(history, i), f)
  }

  lemma MergeTwice(row: Row, a: Row, s: set<Field>, b: Row, t: set<Field>)
    ensures Merge(Merge(row, a, s), b, t) == Merge(row, Merge(a, b, t), s + t)
    ensures Merge(Merge(row, a, s), b, t) == Merge(Merge(row, b, t), a, s - t)
  {
  }

  // A row is its committed value with the torn fields on top.
  lemma {:induction false} RowIsCommittedPlusTorn(history: seq<Event>, i: nat)
    requires i < MAX_TERMINALS
    ensures Replay(history)[i] == Merge(CommittedRow(history, i), TornValues(history, i), TornFields(history, i))
  {
    if history != [] {
      var n := |history| - 1;
      RowIsCommittedPlusTorn(history[..n], i);
      if Writes(history, n, i) {
        MergeTwice(CommittedRow(history[..n], i), TornValues(history[..n], i), TornFields(history[..n], i),
                   Source(history[n].op), FieldsOf(history[n]));
      }
    }
  }

  lemma SameRow(a: Row, b: Row)
    requires forall f :: ValueOf(a, f) == ValueOf(b, f)
    ensures a == b
  {
    assert ValueOf(a, TermNoField) == ValueOf(b, TermNoField);
    assert ValueOf(a, CapabilitiesField) == ValueOf(b, CapabilitiesField);
    assert ValueOf(a, StateField) == ValueOf(b, StateField);
    assert ValueOf(a, LastSeenField) == ValueOf(b, LastSeenField);
  }

  lemma MergeChangesNothingIff(row: Row, source: Row, fields: set<Field>)
    ensures Merge(row, source, fields) == row <==> forall f | f in fields :: ValueOf(source, f) == ValueOf(row, f)
  {
    var merged := Merge(row, source, fields);
    assert forall f :: ValueOf(merged, f) == ValueOf(if f in fields then source else row, f);
    if forall f | f in fields :: ValueOf(source, f) == ValueOf(row, f) {
      SameRow(merged, row);
    }
  }

  // A row holds its committed value exactly when whatever killed calls were
  // the last to write to it is that same value.
  lemma RowIsCommittedIff(history: seq<Event>, i: nat)
    requires i < MAX_TERMINALS
    ensures Replay(history)[i] == CommittedRow(history, i) <==> TornInVain(history, i)
  {
    RowIsCommittedPlusTorn(history, i);
    MergeChangesNothingIff(CommittedRow(history, i), TornValues(history, i), TornFields(history, i));
  }

  predicate WritesField(history: seq<Event>, k: nat, i: nat, f: Field) {
    k < |history| && Writes(history, k, i) && f in FieldsOf(history[k])
  }

  // Event k is the last to write field f of row i.
  predicate LastWriter(history: seq<Event>, i: nat, f: Field, k: nat) {
    WritesField(history, k, i, f) && forall j: nat | k < j < |history| :: !WritesField(history, j, i, f)
  }

  lemma WritesFieldBefore(history: seq<Event>, k: nat, i: nat, f: Field)
    requires k + 1 < |history|
    ensures WritesField(history[..|history| - 1], k, i, f) == WritesField(history, k, i, f)
  {
    assert history[..|history| - 1][..k] == history[..k];
  }

  lemma LastWriterBefore(history: seq<Event>, i: nat, f: Field, k: nat)
    requires k + 1 < |history| && !WritesField(history, |history| - 1, i, f)
    ensures LastWriter(history, i, f, k) == LastWriter(history[..|history| - 1], i, f, k)
  {
    var n, before := |history| - 1, history[..|history| - 1];
    forall j: nat | j < n ensures WritesField(before, j, i, f) == WritesField(history, j, i, f) {
      WritesFieldBefore(history, j, i, f);
    }
    if LastWriter(before, i, f, k) {
      forall j: nat | k < j < |history| ensures !WritesField(history, j, i, f) {
        assert j < n ==> !WritesField(before, j, i, f);
      }
    }
  }

  lemma FieldAfterEvent(history: seq<Event>, i: nat, f: Field)
    requires history != []
    ensures var n := |history| - 1;
            if WritesField(history, n, i, f)
            then && (f in TornFields(history, i) <==> history[n].Torn?)
                 && (i < MAX_TERMINALS ==> ValueOf(Replay(history)[i], f) == ValueOf(Source(history[n].op), f))
            else && (f in TornFields(history, i) <==> f in TornFields(history[..n], i))
                 && (i < MAX_TERMINALS ==> ValueOf(Replay(history)[i], f) == ValueOf(Replay(history[..n])[i], f))
  {
  }

  // The recursion above means what it should: a field is torn exactly when the
  // last call to write it was killed, and it holds what that call wrote.
  lemma {:induction false} TornMeansKilledLast(history: seq<Event>, i: nat, f: Field, k: nat)
    requires LastWriter(history, i, f, k)
    ensures f in TornFields(history, i) <==> history[k].Torn?
    ensures i < MAX_TERMINALS ==> ValueOf(Replay(history)[i], f) == ValueOf(Source(history[k].op), f)
  {
    var n := |history| - 1;
    FieldAfterEvent(history, i, f);
    if k < n {
      assert !WritesField(history, n, i, f);
      LastWriterBefore(history, i, f, k);
      TornMeansKilledLast(history[..n], i, f, k);
    }
  }

  lemma {:induction false} TornHasWriter(history: seq<Event>, i: nat, f: Field)
    requires f in TornFields(history, i)
    ensures exists k :: LastWriter(history, i, f, k)
  {
    var n := |history| - 1;
    if WritesField(history, n, i, f) {
      assert LastWriter(history, i, f, n);
    } else {
      TornHasWriter(history[..n], i, f);
      var k :| LastWriter(history[..n], i, f, k);
      LastWriterBefore(history, i, f, k);
    }
  }

  // A row holds its committed value as long as every field of it was last
  // written, if at all, by a call that completed.
  lemma UntornRowIsCommitted(history: seq<Event>, i: nat)
    requires i < MAX_TERMINALS
    requires forall f, k: nat :: LastWriter(history, i, f, k) ==> history[k].Completed?
    ensures Replay(history)[i] == CommittedRow(history, i)
  {
    forall f | f in TornFields(history, i) ensures false {
      TornHasWriter(history, i, f);
      var k :| LastWriter(history, i, f, k);
      TornMeansKilledLast(history, i, f, k);
    }
    RowIsCommittedIff(history, i);
  }

  // ---- what readers get ----

  // What a reader copied out is what completed calls last wrote to each field,
  // exactly when no killed call, the last to write one, left another value.
  lemma ReaderSeesCommittedRow(history: seq<Event>, k: nat)
    requires Sequential(history) && k < |history|
    requires history[k].Completed? && history[k].op.Find? && history[k].reply.Found?
    ensures var i := IndexOf(Replay(history[..k]), history[k].op.termNo);
            && i < MAX_TERMINALS
            && history[k].reply.row.termNo == history[k].op.termNo
            && (history[k].reply.row == CommittedRow(history[..k], i) <==> TornInVain(history[..k], i))
  {
    assert EventFits(history[k], Replay(history[..k]));
    RowIsCommittedIff(history[..k], IndexOf(Replay(history[..k]), history[k].op.termNo));
  }

  lemma SnapshotSeesCommittedRows(history: seq<Event>, k: nat, i: nat)
    requires Sequential(history) && k < |history|
    requires history[k].Completed? && history[k].op.Snapshot? && history[k].reply.Rows?
    requires i < |history[k].reply.rows|
    ensures i < MAX_TERMINALS && history[k].reply.rows[i] == Replay(history[..k])[i]
    ensures history[k].reply.rows[i] == CommittedRow(history[..k], i) <==> TornInVain(history[..k], i)
  {
    assert EventFits(history[k], Replay(history[..k]));
    SequentialPrefix(history, k);
    ReplayKeepsShape(history[..k]);
    SnapshotIsInOrder(history[k].op.cap, Replay(history[..k]));
    RowIsCommittedIff(history[..k], i);
  }

  // The exception is real: killed after the first of its three writes, a
  // set_state leaves in any disconnected terminal's row a value other than the
  // committed one.
  lemma TornRowDiffers(history: seq<Event>, t: uint32, capabilities: uint32, now: uint64)
    requires Sequential(history) && t != 0 && IndexOf(Replay(history), t) < MAX_TERMINALS
    requires TornInVain(history, IndexOf(Replay(history), t))
    requires Replay(history)[IndexOf(Replay(history), t)].state == TERM_STATE_DISCONNECTED
    ensures var i := IndexOf(Replay(history), t);
            var longer := history + [Torn(SetState(t, TERM_STATE_CONNECTED, capabilities, now), {StateField})];
            Sequential(longer) && Replay(longer)[i] != CommittedRow(longer, i)
  {
    var i := IndexOf(Replay(history), t);
    var cut := Torn(SetState(t, TERM_STATE_CONNECTED, capabilities, now), {StateField});
    SequentialExtends(history, cut);
    RowIsCommittedIff(history, i);
    assert (history + [cut])[..|history|] == history;
  }

  // Only a completed call that writes the torn field mends it: touch mends no
  // state, and registering a terminal again mends nothing.
  lemma TornFieldStays(history: seq<Event>, i: nat, f: Field, e: Event)
    requires i < MAX_TERMINALS && f in TornFields(history, i) && e.Completed?
    requires WriteIndex(e.op, Replay(history)) == i ==> f !in WrittenFields(e.op)
    ensures var longer := history + [e];
            && f in TornFields(longer, i)
            && ValueOf(Replay(longer)[i], f) == ValueOf(Replay(history)[i], f)
            && ValueOf(CommittedRow(longer, i), f) == ValueOf(CommittedRow(history, i), f)
  {
    assert (history + [e])[..|history|] == history;
  }

  // ---- the order of registration ----

  // The event writes a terminal's number, if there is room for a new one.
  predicate Names(e: Event) {
    e.op.Register? && (e.Completed? || TermNoField in e.written)
  }

  function NumbersAfter(e: Event, numbers: seq<uint32>): seq<uint32> {
    if Names(e) && e.op.termNo !in numbers && |numbers| < MAX_TERMINALS
    then numbers + [e.op.termNo]
    else numbers
  }

  // The numbers in the order in which they were first registered.
  function Registered(history: seq<Event>): seq<uint32> {
    if history == [] then [] else NumbersAfter(history[|history| - 1], Registered(history[..|history| - 1]))
  }

  // The rows carry these numbers in this order, and the rest are free.
  predicate Lists(rows: seq<Row>, numbers: seq<uint32>) {
    && |numbers| <= |rows|
    && (forall k | 0 <= k < |numbers| :: rows[k].termNo == numbers[k] != 0)
    && (forall k | |numbers| <= k < |rows| :: rows[k].termNo == 0)
  }

  lemma ListedIndex(rows: seq<Row>, numbers: seq<uint32>, t: uint32)
    requires Lists(rows, numbers)
    ensures t != 0 ==> (IndexOf(rows, t) < |rows| <==> t in numbers)
    ensures IndexOf(rows, 0) == |numbers|
  {
    assert forall k | 0 <= k < |numbers| :: rows[k].termNo != 0;
    assert |numbers| < |rows| ==> rows[|numbers|].termNo == 0;
    if t != 0 && t in numbers {
      var k :| 0 <= k < |numbers| && numbers[k] == t;
      assert rows[k].termNo == t;
    }
  }

  lemma ListsAfter(e: Event, rows: seq<Row>, numbers: seq<uint32>)
    requires Lists(rows, numbers) && |rows| == MAX_TERMINALS && EventFits(e, rows)
    ensures Lists(Effect(e, rows), NumbersAfter(e, numbers))
  {
    if !e.op.Snapshot? {
      ListedIndex(rows, numbers, e.op.termNo);
    }
  }

  lemma {:induction false} RowsListRegistered(history: seq<Event>)
    requires Sequential(history)
    ensures Lists(Replay(history), Registered(history))
  {
    if history != [] {
      var n := |history| - 1;
      SequentialPrefix(history, n);
      RowsListRegistered(history[..n]);
      assert EventFits(history[n], Replay(history[..n]));
      ListsAfter(history[n], Replay(history[..n]), Registered(history[..n]));
    }
  }

  // A snapshot lists the terminals in the order they were first registered.
  lemma SnapshotInRegistrationOrder(history: seq<Event>, k: nat)
    requires Sequential(history) && k < |history|
    requires history[k].Completed? && history[k].op.Snapshot?
    ensures var numbers, reply := Registered(history[..k]), history[k].reply;
            && reply.Rows? && |reply.rows| == Min(history[k].op.cap, |numbers|)
            && forall i | 0 <= i < |reply.rows| :: reply.rows[i].termNo == numbers[i]
  {
    var rows := Replay(history[..k]);
    assert EventFits(history[k], rows);
    SequentialPrefix(history, k);
    ReplayKeepsShape(history[..k]);
    RowsListRegistered(history[..k]);
    ListedIndex(rows, Registered(history[..k]), 0);
    SnapshotIsInOrder(history[k].op.cap, rows);
  }

  // ---- the table as a map, call by call ----

  // Every completed call does to the map and answers from it what it should;
  // a killed one touches no terminal but its own.
  lemma HistoryActsOnTheMap(history: seq<Event>, k: nat)
    requires Sequential(history) && k < |history|
    ensures var e, before, after := history[k], View(Replay(history[..k])), View(Replay(history[..k + 1]));
            && (e.Completed? ==> after == MapApply(e.op, before) && MapReply(e.op, before, e.reply))
            && (e.Torn? ==> forall t: uint32 | t != WrittenNumber(e.op) ::
                  (t in after <==> t in before) && (t in after ==> after[t] == before[t]))
  {
    var e, rows := history[k], Replay(history[..k]);
    assert EventFits(e, rows);
    SequentialPrefix(history, k);
    ReplayKeepsShape(history[..k]);
    assert history[..k + 1][..k] == history[..k];
    if e.Completed? {
      CallsActOnTheMap(e.op, rows);
    } else {
      forall t: uint32 | t != WrittenNumber(e.op)
        ensures var after := View(Replay(history[..k + 1]));
                (t in after <==> t in View(rows)) && (t in after ==> after[t] == View(rows)[t])
      {
        OtherTerminalsStay(e.op, rows, e.written, t);
      }
    }
  }

  // A registration that was not killed succeeds exactly when the terminal is
  // already there or there is room.
  lemma RegisterSucceedsIff(history: seq<Event>, k: nat)
    requires Sequential(history) && k < |history|
    requires history[k].Completed? && history[k].op.Register?
    ensures var t, before := history[k].op.termNo, View(Replay(history[..k]));
            history[k].reply == Done(t in before || |before| < MAX_TERMINALS)
  {
    HistoryActsOnTheMap(history, k);
  }
}
