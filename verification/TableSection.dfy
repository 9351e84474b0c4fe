// A call on the shared table from inside its critical section, one memory
// access at a time, and what it has done to the rows so far
// (common/shm_table.cpp:181-281).
module TableSections {
  import opened Wire
  import opened TerminalTable

  // Where a call is: the scan loops, the row being written field by field in
  // an order the compiler is free to choose, the row being copied out, or
  // finished with only the unlock left.
  datatype Section =
    | Seek(i: nat)
    | SeekFree(i: nat)
    | Write(i: nat, todo: set<Field>)
    | Copy(i: nat, todo: set<Field>, got: Row, taken: seq<Row>)
    | Gather(i: nat, taken: seq<Row>)
    | Finished(reply: Reply)

  const ALL_FIELDS: set<Field> := {TermNoField, CapabilitiesField, StateField, LastSeenField}

  function Enter(op: Op): Section {
    if op.Snapshot? then Gather(0, []) else Seek(0)
  }

  function SeekEnds(op: Op): Section
    requires !op.Snapshot?
  {
    match op
    case Register(_) => SeekFree(0)
    case Find(_) => Finished(NotFound)
    case _ => Finished(Done(false))
  }

  function SeekHits(op: Op, i: nat): Section
    requires !op.Snapshot?
  {
    match op
    case Register(_) => Finished(Done(true))
    case Find(_) => Copy(i, ALL_FIELDS, FREE_ROW, [])
    case _ => Write(i, WrittenFields(op))
  }

  ghost predicate WritesOne(op: Op, c: Section, rows: seq<Row>, c': Section, rows': seq<Row>)
    requires c.Write? && c.i < |rows|
  {
    exists f | f in c.todo ::
      c' == Write(c.i, c.todo - {f}) && rows' == rows[c.i := Merge(rows[c.i], Source(op), {f})]
  }

  ghost predicate CopiesOne(c: Section, rows: seq<Row>, c': Section)
    requires c.Copy? && c.i < |rows|
  {
    exists f | f in c.todo :: c' == Copy(c.i, c.todo - {f}, Merge(c.got, rows[c.i], {f}), c.taken)
  }

  // One memory access or one branch of the call's own code.
  ghost predicate Advance(op: Op, c: Section, rows: seq<Row>, c': Section, rows': seq<Row>)
    requires |rows| == MAX_TERMINALS
  {
    match c
    case Seek(i) =>
      && !op.Snapshot? && rows' == rows
      && c' == if i >= MAX_TERMINALS then SeekEnds(op)
               else if rows[i].termNo == op.termNo then SeekHits(op, i) else Seek(i + 1)
    case SeekFree(i) =>
      && rows' == rows
      && c' == if i >= MAX_TERMINALS then Finished(Done(false))
               else if rows[i].termNo == 0 then Write(i, WrittenFields(op)) else SeekFree(i + 1)
    case Write(i, todo) =>
      && i < MAX_TERMINALS
      && if todo == {} then c' == Finished(Done(true)) && rows' == rows
         else WritesOne(op, c, rows, c', rows')
    case Copy(i, todo, got, taken) =>
      && i < MAX_TERMINALS && rows' == rows
      && if todo == {} then c' == if op.Snapshot? then Gather(i + 1, taken + [got]) else Finished(Found(got))
         else CopiesOne(c, rows, c')
    case Gather(i, taken) =>
      && op.Snapshot? && rows' == rows
      && c' == if i >= MAX_TERMINALS || |taken| >= op.cap then Finished(Rows(taken))
               else if rows[i].termNo != 0 then Copy(i, ALL_FIELDS, FREE_ROW, taken) else Gather(i + 1, taken)
    case Finished(_) => false
  }

  // The fields the call has written so far.
  function Progress(op: Op, c: Section): set<Field> {
    match c
    case Write(_, todo) => WrittenFields(op) - todo
    case Finished(_) => WrittenFields(op)
    case _ => {}
  }

  // What holds inside a call that found the table as base: the memory is base
  // with the written fields of one row replaced, and the local state agrees.
  ghost predicate OnTrack(op: Op, c: Section, base: seq<Row>, rows: seq<Row>) {
    && |base| == MAX_TERMINALS
    && rows == WriteFields(op, Progress(op, c), base)
    && match c
       case Seek(i) => !op.Snapshot? && i <= MAX_TERMINALS && i <= IndexOf(base, op.termNo)
       case SeekFree(i) =>
         op.Register? && i <= MAX_TERMINALS && IndexOf(base, op.termNo) == MAX_TERMINALS && i <= IndexOf(base, 0)
       case Write(i, todo) =>
         && todo <= WrittenFields(op) && WrittenFields(op) != {}
         && i == WriteIndex(op, base) < MAX_TERMINALS
       case Copy(i, todo, got, taken) =>
         && WrittenFields(op) == {} && i < MAX_TERMINALS && todo <= ALL_FIELDS
         && Merge(base[i], got, ALL_FIELDS - todo) == base[i]
         && (op.Find? ==> i == IndexOf(base, op.termNo) && taken == [])
         && (op.Snapshot? ==> base[i].termNo != 0 && taken == Occupied(base[..i]) && |taken| < op.cap)
       case Gather(i, taken) =>
         op.Snapshot? && i <= MAX_TERMINALS && taken == Occupied(base[..i]) && |taken| <= op.cap
       case Finished(reply) => reply == ReplyTo(op, base)
  }

  lemma EnterIsOnTrack(op: Op, rows: seq<Row>)
    requires |rows| == MAX_TERMINALS
    ensures OnTrack(op, Enter(op), rows, rows)
  {
    WriteNothing(op, rows);
  }

  lemma WriteNothing(op: Op, rows: seq<Row>)
    ensures WriteFields(op, {}, rows) == rows
  {
  }

  lemma WriteOneMore(op: Op, done: set<Field>, f: Field, base: seq<Row>)
    requires WriteIndex(op, base) < |base|
    ensures var i := WriteIndex(op, base);
            var rows := WriteFields(op, done, base);
            rows[i := Merge(rows[i], Source(op), {f})] == WriteFields(op, done + {f}, base)
  {
  }

  lemma AdvanceStaysOnTrack(op: Op, c: Section, base: seq<Row>, rows: seq<Row>, c': Section, rows': seq<Row>)
    requires OnTrack(op, c, base, rows) && Advance(op, c, rows, c', rows')
    ensures OnTrack(op, c', base, rows')
  {
    WriteNothing(op, base);
    match c
    case Seek(i) =>
      if i < MAX_TERMINALS && rows[i].termNo == op.termNo {
        assert i == IndexOf(base, op.termNo);
      }
    case SeekFree(i) =>
    case Write(i, todo) =>
      AdvanceWrite(op, c, base, rows, c', rows');
    case Copy(i, todo, got, taken) =>
      AdvanceCopy(op, c, base, rows, c', rows');
    case Gather(i, taken) =>
      GatherStep(op, i, taken, base);
  }

  lemma AdvanceWrite(op: Op, c: Section, base: seq<Row>, rows: seq<Row>, c': Section, rows': seq<Row>)
    requires c.Write? && OnTrack(op, c, base, rows) && Advance(op, c, rows, c', rows')
    ensures OnTrack(op, c', base, rows')
  {
    if c.todo == {} {
      assert WrittenFields(op) - c.todo == WrittenFields(op);
    } else {
      var f :| f in c.todo && c' == Write(c.i, c.todo - {f}) && rows' == rows[c.i := Merge(rows[c.i], Source(op), {f})];
      WriteOneMore(op, WrittenFields(op) - c.todo, f, base);
      assert WrittenFields(op) - (c.todo - {f}) == (WrittenFields(op) - c.todo) + {f};
    }
  }

  lemma AdvanceCopy(op: Op, c: Section, base: seq<Row>, rows: seq<Row>, c': Section, rows': seq<Row>)
    requires c.Copy? && OnTrack(op, c, base, rows) && Advance(op, c, rows, c', rows')
    ensures OnTrack(op, c', base, rows')
  {
    WriteNothing(op, base);
    if c.todo == {} {
      assert ALL_FIELDS - c.todo == ALL_FIELDS;
      assert c.got == base[c.i];
      OccupiedStep(base[..c.i], base[c.i]);
      assert base[..c.i + 1] == base[..c.i] + [base[c.i]];
    } else {
      var f :| f in c.todo && c' == Copy(c.i, c.todo - {f}, Merge(c.got, rows[c.i], {f}), c.taken);
      assert ALL_FIELDS - (c.todo - {f}) == (ALL_FIELDS - c.todo) + {f};
    }
  }

  lemma GatherStep(op: Op, i: nat, taken: seq<Row>, base: seq<Row>)
    requires op.Snapshot? && |base| == MAX_TERMINALS && i <= MAX_TERMINALS
    requires taken == Occupied(base[..i]) && |taken| <= op.cap
    ensures i < MAX_TERMINALS && base[i].termNo == 0 ==> Occupied(base[..i + 1]) == taken
    ensures i == MAX_TERMINALS || |taken| == op.cap ==> Rows(taken) == ReplyTo(op, base)
  {
    if i < MAX_TERMINALS {
      OccupiedStep(base[..i], base[i]);
      assert base[..i + 1] == base[..i] + [base[i]];
    }
    OccupiedAppend(base[..i], base[i..]);
    assert base == base[..i] + base[i..];
  }
}
