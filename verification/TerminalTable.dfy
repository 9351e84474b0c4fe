// The terminal table: 64 rows in shared memory (common/shm_table.h,
// common/shm_table.cpp). Apply says what one whole call does to the rows;
// class ShmTable is the code of the calls.
module TerminalTable {
  import opened Wire

  const MAX_TERMINALS: nat := 64
  const TERM_STATE_UNUSED: byte := 0
  const TERM_STATE_DISCONNECTED: byte := 1
  const TERM_STATE_CONNECTED: byte := 2
  const CAP_LOCK: uint32 := 1

  // One row; termNo 0 means free. The reserved bytes are never anything but 0.
  datatype Row = Row(termNo: uint32, capabilities: uint32, state: byte, lastSeen: uint64)

  const FREE_ROW: Row := Row(0, 0, TERM_STATE_UNUSED, 0)

  // A fresh segment is zero-filled.
  function EmptyTable(): (rows: seq<Row>)
    ensures |rows| == MAX_TERMINALS
    ensures forall i | 0 <= i < |rows| :: rows[i] == FREE_ROW
  {
    seq(MAX_TERMINALS, _ => FREE_ROW)
  }

  datatype Field = TermNoField | CapabilitiesField | StateField | LastSeenField

  // The calls; now is the wall clock read inside the call.
  datatype Op =
    | Register(termNo: uint32)
    | SetState(termNo: uint32, state: byte, capabilities: uint32, now: uint64)
    | Touch(termNo: uint32, now: uint64)
    | Find(termNo: uint32)
    | Snapshot(cap: nat)

  datatype Reply = Done(ok: bool) | Found(row: Row) | NotFound | Rows(rows: seq<Row>)

  // The first row with this number, or the length.
  function IndexOf(rows: seq<Row>, termNo: uint32): (i: nat)
    ensures i <= |rows|
    ensures i < |rows| ==> rows[i].termNo == termNo
    ensures forall j | 0 <= j < i :: rows[j].termNo != termNo
  {
    if rows == [] then 0
    else if rows[0].termNo == termNo then 0
    else 1 + IndexOf(rows[1..], termNo)
  }

  function Occupied(rows: seq<Row>): seq<Row> {
    if rows == [] then []
    else (if rows[0].termNo != 0 then [rows[0]] else []) + Occupied(rows[1..])
  }

  function Min(a: nat, b: nat): nat {
    if a < b then a else b
  }

  // The fields a call writes, and the values it writes there.
  function WrittenFields(op: Op): set<Field> {
    match op
    case Register(_) => {TermNoField, CapabilitiesField, StateField, LastSeenField}
    case SetState(_, _, _, _) => {StateField, CapabilitiesField, LastSeenField}
    case Touch(_, _) => {LastSeenField}
    case Find(_) => {}
    case Snapshot(_) => {}
  }

  function Source(op: Op): Row {
    match op
    case Register(t) => Row(t, 0, TERM_STATE_DISCONNECTED, 0)
    case SetState(t, state, capabilities, now) => Row(t, capabilities, state, now)
    case Touch(t, now) => FREE_ROW.(lastSeen := now)
    case Find(_) => FREE_ROW
    case Snapshot(_) => FREE_ROW
  }

  function Merge(row: Row, source: Row, fields: set<Field>): Row {
    Row(if TermNoField in fields then source.termNo else row.termNo,
        if CapabilitiesField in fields then source.capabilities else row.capabilities,
        if StateField in fields then source.state else row.state,
        if LastSeenField in fields then source.lastSeen else row.lastSeen)
  }

  // The row a call writes, or the length when it writes none.
  function WriteIndex(op: Op, rows: seq<Row>): (i: nat)
    ensures i <= |rows|
  {
    match op
    case Register(t) => if IndexOf(rows, t) < |rows| then |rows| else IndexOf(rows, 0)
    case SetState(t, _, _, _) => IndexOf(rows, t)
    case Touch(t, _) => IndexOf(rows, t)
    case Find(_) => |rows|
    case Snapshot(_) => |rows|
  }

  // The rows with only some of a call's fields written.
  function WriteFields(op: Op, fields: set<Field>, rows: seq<Row>): (r: seq<Row>)
    ensures |r| == |rows|
  {
    var i := WriteIndex(op, rows);
    if i < |rows| then rows[i := Merge(rows[i], Source(op), fields)] else rows
  }

  function Apply(op: Op, rows: seq<Row>): seq<Row> {
    WriteFields(op, WrittenFields(op), rows)
  }

  function ReplyTo(op: Op, rows: seq<Row>): Reply {
    match op
    case Register(t) => Done(IndexOf(rows, t) < |rows| || IndexOf(rows, 0) < |rows|)
    case SetState(t, _, _, _) => Done(IndexOf(rows, t) < |rows|)
    case Touch(t, _) => Done(IndexOf(rows, t) < |rows|)
    case Find(t) => if IndexOf(rows, t) < |rows| then Found(rows[IndexOf(rows, t)]) else NotFound
    case Snapshot(cap) => Rows(Occupied(rows)[..Min(cap, |Occupied(rows)|)])
  }

  // ---- the shape of the table ----

  // Occupied rows form a prefix and their numbers are pairwise distinct.
  predicate Dense(rows: seq<Row>) {
    && (forall i, j | 0 <= i < j < |rows| :: rows[j].termNo != 0 ==> rows[i].termNo != 0)
    && (forall i, j | 0 <= i < j < |rows| :: rows[j].termNo != 0 ==> rows[i].termNo != rows[j].termNo)
  }

  predicate Shape(rows: seq<Row>) {
    |rows| == MAX_TERMINALS && Dense(rows)
  }

  predicate NamesKept(rows: seq<Row>, later: seq<Row>) {
    |later| == |rows| && forall i | 0 <= i < |rows| :: rows[i].termNo != 0 ==> later[i].termNo == rows[i].termNo
  }

  // However few of its fields a call gets to write, occupied rows stay a
  // prefix with distinct numbers, and no number ever changes.
  lemma WriteKeepsShape(op: Op, fields: set<Field>, rows: seq<Row>)
    requires Shape(rows) && fields <= WrittenFields(op)
    ensures Shape(WriteFields(op, fields, rows))
    ensures NamesKept(rows, WriteFields(op, fields, rows))
  {
  }

  // ---- the table as a map ----

  datatype Info = Info(state: byte, capabilities: uint32, lastSeen: uint64)

  function InfoOf(row: Row): Info {
    Info(row.state, row.capabilities, row.lastSeen)
  }

  function View(rows: seq<Row>): map<uint32, Info> {
    if rows == [] then map[]
    else
      var rest, last := View(rows[..|rows| - 1]), rows[|rows| - 1];
      if last.termNo == 0 then rest else rest[last.termNo := InfoOf(last)]
  }

  function OccupiedCount(rows: seq<Row>): (k: nat)
    ensures k <= |rows|
  {
    IndexOf(rows, 0)
  }

  lemma {:induction false} NoneOccupied(rows: seq<Row>)
    requires forall i | 0 <= i < |rows| :: rows[i].termNo == 0
    ensures Occupied(rows) == []
  {
    if rows != [] {
      NoneOccupied(rows[1..]);
    }
  }

  lemma {:induction false} AllOccupied(rows: seq<Row>)
    requires forall i | 0 <= i < |rows| :: rows[i].termNo != 0
    ensures Occupied(rows) == rows
  {
    if rows != [] {
      AllOccupied(rows[1..]);
      assert rows == [rows[0]] + rows[1..];
    }
  }

  lemma OccupiedOfParts(rows: seq<Row>, taken: seq<Row>, free: seq<Row>)
    requires rows == taken + free
    requires forall i | 0 <= i < |taken| :: taken[i].termNo != 0
    requires forall i | 0 <= i < |free| :: free[i].termNo == 0
    ensures Occupied(rows) == taken
  {
    AllOccupied(taken);
    NoneOccupied(free);
    OccupiedAppend(taken, free);
  }

  lemma OccupiedIsPrefix(rows: seq<Row>)
    requires Dense(rows)
    ensures Occupied(rows) == rows[..OccupiedCount(rows)]
  {
    var k := OccupiedCount(rows);
    assert k < |rows| ==> rows[k].termNo == 0;
    OccupiedOfParts(rows, rows[..k], rows[k..]);
  }

  lemma {:induction false} ViewSize(rows: seq<Row>)
    requires Dense(rows)
    ensures |View(rows)| == OccupiedCount(rows)
  {
    if rows != [] {
      var n := |rows| - 1;
      ViewSize(rows[..n]);
      ViewHas(rows[..n], rows[n].termNo);
      if rows[n].termNo != 0 {
        assert rows[..n][..OccupiedCount(rows[..n])] == rows[..OccupiedCount(rows[..n])];
        assert OccupiedCount(rows[..n]) == n;
      }
    }
  }

  lemma {:induction false} ViewHas(rows: seq<Row>, t: uint32)
    requires Dense(rows)
    ensures t in View(rows) <==> t != 0 && IndexOf(rows, t) < |rows|
    ensures t in View(rows) ==> View(rows)[t] == InfoOf(rows[IndexOf(rows, t)])
  {
    if rows != [] {
      var n := |rows| - 1;
      ViewHas(rows[..n], t);
      if IndexOf(rows[..n], t) < n {
        assert rows[..n][IndexOf(rows[..n], t)] == rows[IndexOf(rows, t)];
      }
    }
  }

  // Every call is what it should be on a map from terminal number to
  // information that holds at most 64 terminals.
  function MapApply(op: Op, m: map<uint32, Info>): map<uint32, Info> {
    match op
    case Register(t) =>
      if t in m || |m| >= MAX_TERMINALS then m else m[t := Info(TERM_STATE_DISCONNECTED, 0, 0)]
    case SetState(t, state, capabilities, now) =>
      if t in m then m[t := Info(state, capabilities, now)] else m
    case Touch(t, now) => if t in m then m[t := m[t].(lastSeen := now)] else m
    case Find(_) => m
    case Snapshot(_) => m
  }

  // Some row carries this number.
  predicate Matches(m: map<uint32, Info>, t: uint32) {
    t in m || (t == 0 && |m| < MAX_TERMINALS)
  }

  // The reply a call on the map may give. Number 0 is no terminal, but to the
  // calls that only search it stands for any free row.
  predicate MapReply(op: Op, m: map<uint32, Info>, r: Reply) {
    match op
    case Register(t) => r == Done(t in m || |m| < MAX_TERMINALS)
    case SetState(t, _, _, _) => r == Done(Matches(m, t))
    case Touch(t, _) => r == Done(Matches(m, t))
    case Find(t) =>
      if Matches(m, t) then r.Found? && r.row.termNo == t && (t != 0 ==> InfoOf(r.row) == m[t]) else r == NotFound
    case Snapshot(cap) =>
      && r.Rows? && |r.rows| == Min(cap, |m|)
      && (forall i | 0 <= i < |r.rows| :: r.rows[i].termNo in m && m[r.rows[i].termNo] == InfoOf(r.rows[i]))
      && (forall i, j | 0 <= i < j < |r.rows| :: r.rows[i].termNo != r.rows[j].termNo)
  }

  // register_terminal(0) is refused before the lock; the other calls are not.
  predicate Admitted(op: Op) {
    op.Register? ==> op.termNo != 0
  }

  lemma CallsActOnTheMap(op: Op, rows: seq<Row>)
    requires Shape(rows) && Admitted(op)
    ensures Shape(Apply(op, rows))
    ensures View(Apply(op, rows)) == MapApply(op, View(rows))
    ensures MapReply(op, View(rows), ReplyTo(op, rows))
  {
    WriteKeepsShape(op, WrittenFields(op), rows);
    ViewSize(rows);
    match op
    case Snapshot(cap) =>
      SnapshotReplies(cap, rows);
    case _ =>
      ViewHas(rows, op.termNo);
      if WriteIndex(op, rows) < |rows| {
        ViewAfterWrite(op, rows);
      }
  }

  lemma SnapshotReplies(cap: nat, rows: seq<Row>)
    requires Shape(rows)
    ensures MapReply(Snapshot(cap), View(rows), ReplyTo(Snapshot(cap), rows))
  {
    OccupiedIsPrefix(rows);
    ViewSize(rows);
    var out := ReplyTo(Snapshot(cap), rows).rows;
    forall i | 0 <= i < |out|
      ensures out[i].termNo in View(rows) && View(rows)[out[i].termNo] == InfoOf(out[i])
    {
      ViewHas(rows, out[i].termNo);
      assert out[i] == rows[i];
    }
  }

  lemma IndexAfterWrite(op: Op, rows: seq<Row>, fields: set<Field>, t: uint32)
    requires Shape(rows) && Admitted(op) && fields <= WrittenFields(op)
    requires t != 0 && t != WrittenNumber(op)
    ensures IndexOf(WriteFields(op, fields, rows), t) == IndexOf(rows, t)
  {
    var k, later := WriteIndex(op, rows), WriteFields(op, fields, rows);
    assert forall i | 0 <= i < |rows| && i != k :: later[i] == rows[i];
    if k < |rows| {
      assert later[k].termNo != t && rows[k].termNo != t;
    }
  }

  // The number of the row a call writes; 0 for a free row or none.
  function WrittenNumber(op: Op): uint32 {
    if op.Snapshot? then 0 else op.termNo
  }

  // A call, cut short or not, changes what the table says about the terminal
  // it is about and about no other.
  lemma OtherTerminalsStay(op: Op, rows: seq<Row>, fields: set<Field>, t: uint32)
    requires Shape(rows) && Admitted(op) && fields <= WrittenFields(op) && t != WrittenNumber(op)
    ensures var later := View(WriteFields(op, fields, rows));
            (t in later <==> t in View(rows)) && (t in later ==> later[t] == View(rows)[t])
  {
    WriteKeepsShape(op, fields, rows);
    ViewHas(rows, t);
    ViewHas(WriteFields(op, fields, rows), t);
    if t != 0 {
      IndexAfterWrite(op, rows, fields, t);
    }
  }

  lemma SameMap(a: map<uint32, Info>, b: map<uint32, Info>)
    requires forall t: uint32 :: t in a <==> t in b
    requires forall t: uint32 | t in a :: a[t] == b[t]
    ensures a == b
  {
  }

  lemma WrittenTerminal(op: Op, rows: seq<Row>)
    requires Shape(rows) && Admitted(op) && WriteIndex(op, rows) < |rows| && op.termNo != 0
    ensures var later := Apply(op, rows);
            op.termNo in View(later) && View(later)[op.termNo] == InfoOf(later[WriteIndex(op, rows)])
  {
    var k, later := WriteIndex(op, rows), Apply(op, rows);
    WriteKeepsShape(op, WrittenFields(op), rows);
    assert later[k].termNo == op.termNo;
    assert forall i | 0 <= i < k :: later[i] == rows[i] && rows[i].termNo != op.termNo;
    assert IndexOf(later, op.termNo) == k;
    ViewHas(later, op.termNo);
  }

  lemma ViewAfterWrite(op: Op, rows: seq<Row>)
    requires Shape(rows) && Admitted(op) && WriteIndex(op, rows) < |rows|
    ensures var later := Apply(op, rows);
            View(later) == if op.termNo == 0 then View(rows)
                           else View(rows)[op.termNo := InfoOf(later[WriteIndex(op, rows)])]
  {
    var k, after := WriteIndex(op, rows), View(Apply(op, rows));
    var expected := if op.termNo == 0 then View(rows) else View(rows)[op.termNo := InfoOf(Apply(op, rows)[k])];
    if op.termNo != 0 {
      WrittenTerminal(op, rows);
    }
    forall t: uint32
      ensures t in after <==> t in expected
      ensures t in after ==> after[t] == expected[t]
    {
      if t != op.termNo {
        OtherTerminalsStay(op, rows, WrittenFields(op), t);
      } else if t == 0 {
        WriteKeepsShape(op, WrittenFields(op), rows);
        ViewHas(rows, 0);
        ViewHas(Apply(op, rows), 0);
      }
    }
    SameMap(after, expected);
  }

  // Snapshot returns the leading occupied rows, in table order.
  lemma SnapshotIsInOrder(cap: nat, rows: seq<Row>)
    requires Shape(rows)
    ensures ReplyTo(Snapshot(cap), rows) == Rows(rows[..Min(cap, OccupiedCount(rows))])
  {
    OccupiedIsPrefix(rows);
  }

  // Registering an existing terminal changes nothing, a stale state included.
  lemma ReRegisteringKeepsState(t: uint32, rows: seq<Row>)
    requires Shape(rows) && t in View(rows)
    ensures Apply(Register(t), rows) == rows
  {
    ViewHas(rows, t);
  }

  // ---- the code of the calls ----

  // locked is what lock() returned; the rest of each body is the critical
  // section. The clock is a parameter.
  class ShmTable {
    const rows: array<Row>
    var isOpen: bool

    ghost predicate Valid() reads this {
      rows.Length == MAX_TERMINALS
    }

    constructor (segment: array<Row>)
      requires segment.Length == MAX_TERMINALS
      ensures Valid() && rows == segment && isOpen
    {
      rows := segment;
      isOpen := true;
    }

    method RegisterTerminal(termNo: uint32, locked: bool) returns (ok: bool)
      requires Valid()
      modifies rows
      ensures var runs := isOpen && termNo != 0 && locked;
              && rows[..] == (if runs then Apply(Register(termNo), old(rows[..])) else old(rows[..]))
              && Done(ok) == (if runs then ReplyTo(Register(termNo), old(rows[..])) else Done(false))
    {
      if !isOpen || termNo == 0 || !locked {
        return false;
      }
      ok := false;
      for i := 0 to MAX_TERMINALS
        invariant !ok && rows[..] == old(rows[..])
        invariant forall j | 0 <= j < i :: rows[j].termNo != termNo
      {
        if rows[i].termNo == termNo {
          ok := true;
          break;
        }
      }
      if !ok {
        for i := 0 to MAX_TERMINALS
          invariant !ok && rows[..] == old(rows[..])
          invariant forall j | 0 <= j < i :: rows[j].termNo != 0
        {
          if rows[i].termNo == 0 {
            rows[i] := Row(termNo, 0, TERM_STATE_DISCONNECTED, 0);
            ok := true;
            break;
          }
        }
      }
    }

    method SetTerminalState(termNo: uint32, state: byte, capabilities: uint32, now: uint64, locked: bool)
      returns (ok: bool)
      requires Valid()
      modifies rows
      ensures var op, runs := SetState(termNo, state, capabilities, now), isOpen && locked;
              && rows[..] == (if runs then Apply(op, old(rows[..])) else old(rows[..]))
              && Done(ok) == (if runs then ReplyTo(op, old(rows[..])) else Done(false))
    {
      if !isOpen || !locked {
        return false;
      }
      ok := false;
      for i := 0 to MAX_TERMINALS
        invariant !ok && rows[..] == old(rows[..])
        invariant forall j | 0 <= j < i :: rows[j].termNo != termNo
      {
        if rows[i].termNo == termNo {
          rows[i] := rows[i].(state := state);
          rows[i] := rows[i].(capabilities := capabilities);
          rows[i] := rows[i].(lastSeen := now);
          ok := true;
          break;
        }
      }
    }

    method TouchTerminal(termNo: uint32, now: uint64, locked: bool) returns (ok: bool)
      requires Valid()
      modifies rows
      ensures var op, runs := Touch(termNo, now), isOpen && locked;
              && rows[..] == (if runs then Apply(op, old(rows[..])) else old(rows[..]))
              && Done(ok) == (if runs then ReplyTo(op, old(rows[..])) else Done(false))
    {
      if !isOpen || !locked {
        return false;
      }
      ok := false;
      for i := 0 to MAX_TERMINALS
        invariant !ok && rows[..] == old(rows[..])
        invariant forall j | 0 <= j < i :: rows[j].termNo != termNo
      {
        if rows[i].termNo == termNo {
          rows[i] := rows[i].(lastSeen := now);
          ok := true;
          break;
        }
      }
    }

    method FindTerminal(termNo: uint32, locked: bool) returns (ok: bool, out: Row)
      requires Valid()
      ensures ok <==> isOpen && locked && IndexOf(rows[..], termNo) < MAX_TERMINALS
      ensures ok ==> Found(out) == ReplyTo(Find(termNo), rows[..])
    {
      ok, out := false, FREE_ROW;
      if !isOpen || !locked {
        return;
      }
      for i := 0 to MAX_TERMINALS
        invariant !ok
        invariant forall j | 0 <= j < i :: rows[j].termNo != termNo
      {
        if rows[i].termNo == termNo {
          ok, out := true, rows[i];
          break;
        }
      }
    }

    method SnapshotRows(cap: nat, locked: bool) returns (out: seq<Row>)
      requires Valid()
      ensures Rows(out) == if isOpen && locked then ReplyTo(Snapshot(cap), rows[..]) else Rows([])
    {
      out := [];
      if !isOpen || !locked {
        return;
      }
      var i := 0;
      while i < MAX_TERMINALS && |out| < cap
        invariant 0 <= i <= MAX_TERMINALS && |out| <= cap
        invariant out == Occupied(rows[..i])
      {
        OccupiedStep(rows[..i], rows[i]);
        assert rows[..i + 1] == rows[..i] + [rows[i]];
        if rows[i].termNo != 0 {
          out := out + [rows[i]];
        }
        i := i + 1;
      }
      OccupiedAppend(rows[..i], rows[i..]);
      assert rows[..] == rows[..i] + rows[i..];
    }
  }

  lemma OccupiedStep(rows: seq<Row>, row: Row)
    ensures Occupied(rows + [row]) == Occupied(rows) + if row.termNo != 0 then [row] else []
  {
    OccupiedAppend(rows, [row]);
  }

  lemma {:induction false} OccupiedAppend(a: seq<Row>, b: seq<Row>)
    ensures Occupied(a + b) == Occupied(a) + Occupied(b)
  {
    if a == [] {
      assert a + b == b;
    } else {
      var first := if a[0].termNo != 0 then [a[0]] else [];
      assert (a + b)[0] == a[0] && (a + b)[1..] == a[1..] + b;
      OccupiedAppend(a[1..], b);
      assert first + (Occupied(a[1..]) + Occupied(b)) == (first + Occupied(a[1..])) + Occupied(b);
    }
  }
}
