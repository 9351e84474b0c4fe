// locator: turns a terminal number into a process index and passes the
// command on (locator/main.cpp), and the agreement with termd it rests on.
module Locators {
  import opened Wire
  import opened TerminalTable
  import opened MessageQueues

  const ASCII_0: byte := 0x30
  const ASCII_9: byte := 0x39

  // uint32_t and int32_t conversions.
  function ToUint32(x: int): uint32 {
    x % 0x1_0000_0000
  }

  function ToInt32(x: uint32): int {
    if x < 0x8000_0000 then x as int else x as int - 0x1_0000_0000
  }

  predicate IsDigit(c: byte) {
    ASCII_0 <= c <= ASCII_9
  }

  predicate IsNumeral(t: seq<byte>) {
    forall i | 0 <= i < |t| :: IsDigit(t[i])
  }

  function DecimalValue(t: seq<byte>): int {
    if t == [] then 0 else 10 * DecimalValue(t[..|t| - 1]) + (t[|t| - 1] as int - ASCII_0 as int)
  }

  // The four-digit text of n.
  function Spell(n: nat): TermNo
    requires n <= 9999
  {
    [ASCII_0 as int + n / 1000, ASCII_0 as int + n / 100 % 10, ASCII_0 as int + n / 10 % 10, ASCII_0 as int + n % 10]
  }

  function Digit(c: byte): int {
    c as int - ASCII_0 as int
  }

  lemma DecimalStep(t: seq<byte>, i: nat)
    requires i < |t|
    ensures DecimalValue(t[..i + 1]) == 10 * DecimalValue(t[..i]) + Digit(t[i])
  {
    assert t[..i + 1][..i] == t[..i];
  }

  lemma FourDigits(t: TermNo)
    ensures DecimalValue(t) == 1000 * Digit(t[0]) + 100 * Digit(t[1]) + 10 * Digit(t[2]) + Digit(t[3])
  {
    DecimalStep(t, 0);
    DecimalStep(t, 1);
    DecimalStep(t, 2);
    DecimalStep(t, 3);
    assert t[..4] == t;
  }

  lemma SplitDigits(n: nat)
    ensures n == 1000 * (n / 1000) + 100 * (n / 100 % 10) + 10 * (n / 10 % 10) + n % 10
  {
    assert n / 100 == n / 10 / 10 && n / 1000 == n / 10 / 10 / 10;
  }

  lemma DigitsAreUnique(a: int, b: int, c: int, d: int, a': int, b': int, c': int, d': int)
    requires 0 <= b <= 9 && 0 <= c <= 9 && 0 <= d <= 9 && 0 <= b' <= 9 && 0 <= c' <= 9 && 0 <= d' <= 9
    requires 1000 * a + 100 * b + 10 * c + d == 1000 * a' + 100 * b' + 10 * c' + d'
    ensures a == a' && b == b' && c == c' && d == d'
  {
  }

  lemma SpellingIsUnique(t: TermNo, n: nat)
    requires n <= 9999
    ensures IsNumeral(t) && DecimalValue(t) == n <==> t == Spell(n)
  {
    var s := Spell(n);
    FourDigits(t);
    FourDigits(s);
    SplitDigits(n);
    if IsNumeral(t) && DecimalValue(t) == n {
      DigitsAreUnique(Digit(t[0]), Digit(t[1]), Digit(t[2]), Digit(t[3]), Digit(s[0]), Digit(s[1]), Digit(s[2]), Digit(s[3]));
      assert t == [t[0], t[1], t[2], t[3]];
    }
  }

  // What resolve answers for this text on this table; 0 is "unknown".
  function Resolved(t: TermNo, rows: seq<Row>): int {
    if !IsNumeral(t) || !(0 <= DecimalValue(t) <= 9999) then 0
    else if IndexOf(rows, DecimalValue(t)) >= |rows| then 0
    else IDX_TERMD_BASE + ToInt32(ToUint32(DecimalValue(t) - 1000))
  }

  // ---- what termd does ----

  // slot is argv[1], checked to be a positive int.
  predicate IsSlot(slot: int) {
    0 < slot < 0x8000_0000
  }

  function TermdTermNo(slot: int): uint32
    requires IsSlot(slot)
  {
    ToUint32(1000 + slot)
  }

  function TermdIndex(slot: int): int {
    IDX_TERMD_BASE + slot
  }

  // Every occupied row was registered by some termd.
  predicate RegisteredByTermd(rows: seq<Row>) {
    forall i | 0 <= i < |rows| && rows[i].termNo != 0 :: rows[i].termNo > 1000
  }

  // A registration by any termd, killed half way through its row or not, does
  // not change that; nor does any other call.
  lemma RegistrationKeepsOrigin(slot: int, fields: set<Field>, rows: seq<Row>)
    requires IsSlot(slot) && RegisteredByTermd(rows)
    ensures TermdTermNo(slot) > 1000
    ensures RegisteredByTermd(WriteFields(Register(TermdTermNo(slot)), fields, rows))
  {
  }

  predicate IsRegistered(slot: int, rows: seq<Row>)
    requires IsSlot(slot)
  {
    IndexOf(rows, TermdTermNo(slot)) < |rows|
  }

  const ZEROES: TermNo := [ASCII_0, ASCII_0, ASCII_0, ASCII_0]

  // ---- the agreement ----

  lemma NoWrap(n: nat)
    requires n <= 9999
    ensures ToInt32(ToUint32(n - 1000)) == n - 1000
  {
    if n < 1000 {
      assert (n - 1000) % 0x1_0000_0000 == n - 1000 + 0x1_0000_0000;
    } else {
      assert (n - 1000) % 0x1_0000_0000 == n - 1000;
    }
  }

  // A text other than "0000" resolves exactly when it spells the number of a
  // registered terminal, and then to the index that terminal's termd owns.
  lemma RoutingAgrees(t: TermNo, rows: seq<Row>, slot: int)
    requires RegisteredByTermd(rows) && t != ZEROES && IsSlot(slot)
    ensures Resolved(t, rows) == TermdIndex(slot)
            <==> slot <= 8999 && t == Spell(1000 + slot) && IsRegistered(slot, rows)
    ensures Resolved(t, rows) != 0 ==> exists s | 0 < s <= 8999 :: Resolved(t, rows) == TermdIndex(s)
  {
    ResolvedText(t, rows);
    if slot <= 8999 {
      SpellingIsUnique(t, 1000 + slot);
      assert TermdTermNo(slot) == 1000 + slot;
    }
    if Resolved(t, rows) != 0 {
      var s := DecimalValue(t) - 1000;
      assert 0 < s <= 8999 && Resolved(t, rows) == TermdIndex(s);
    }
  }

  // Anything that resolves is the text of a registered number.
  lemma ResolvedText(t: TermNo, rows: seq<Row>)
    requires RegisteredByTermd(rows) && t != ZEROES
    ensures Resolved(t, rows) != 0
            <==> IsNumeral(t) && 1000 < DecimalValue(t) <= 9999 && IndexOf(rows, DecimalValue(t)) < |rows|
    ensures Resolved(t, rows) != 0 ==> Resolved(t, rows) == TermdIndex(DecimalValue(t) - 1000)
  {
    ZeroText(t);
    if Resolved(t, rows) != 0 {
      NoWrap(DecimalValue(t));
      assert rows[IndexOf(rows, DecimalValue(t))].termNo == DecimalValue(t);
    } else if IsNumeral(t) && 1000 < DecimalValue(t) <= 9999 && IndexOf(rows, DecimalValue(t)) < |rows| {
      NoWrap(DecimalValue(t));
    }
  }

  lemma ZeroText(t: TermNo)
    ensures IsNumeral(t) && DecimalValue(t) == 0 <==> t == ZEROES
  {
    SpellingIsUnique(t, 0);
    assert Spell(0) == ZEROES;
  }

  // "0000" names no terminal, yet matches any free row: it resolves to the
  // locator itself as long as the table is not full.
  lemma ZeroesResolveToLocator(rows: seq<Row>)
    ensures Resolved(ZEROES, rows) == if IndexOf(rows, 0) < |rows| then IDX_LOCATOR else 0
  {
    ZeroText(ZEROES);
    NoWrap(0);
  }

  // No two texts lead to the same index, and nothing leads to a terminal
  // whose number needs more than four digits.
  lemma RoutingIsInjective(a: TermNo, b: TermNo, rows: seq<Row>)
    ensures Resolved(a, rows) == Resolved(b, rows) != 0 ==> a == b
  {
    if Resolved(a, rows) == Resolved(b, rows) != 0 {
      NoWrap(DecimalValue(a));
      NoWrap(DecimalValue(b));
      SpellingIsUnique(a, DecimalValue(a));
      SpellingIsUnique(b, DecimalValue(b));
    }
  }

  lemma HighSlotsAreUnreachable(t: TermNo, rows: seq<Row>, slot: int)
    requires slot > 8999
    ensures Resolved(t, rows) != TermdIndex(slot)
  {
    if Resolved(t, rows) != 0 {
      NoWrap(DecimalValue(t));
    }
  }

  // ---- the code ----

  // What a request makes locator put on the queues, given which exist.
  // locked: lock() succeeded; refused: msgsnd failed.
  function LocatorSends(m: LockRequest, rows: seq<Row>, up: set<int>, locked: bool, refused: bool): seq<Envelope> {
    var index := if locked then Resolved(m.termNo, rows) else 0;
    if index != 0 && index in up && !refused then [Envelope(index, IpcLockRequest(index, m))] else []
  }

  // The text is the number of the terminal in this slot.
  predicate Spells(t: TermNo, slot: int) {
    0 < slot <= 8999 && t == Spell(1000 + slot)
  }

  lemma SpelledText(t: TermNo, slot: int)
    requires Spells(t, slot)
    ensures IsNumeral(t) && DecimalValue(t) == 1000 + slot && t != ZEROES
  {
    SpellingIsUnique(t, 1000 + slot);
    ZeroText(t);
  }

  lemma SpelledResolves(t: TermNo, rows: seq<Row>, slot: int)
    requires RegisteredByTermd(rows) && Spells(t, slot)
    ensures Resolved(t, rows) == if IsRegistered(slot, rows) then TermdIndex(slot) else 0
  {
    SpelledText(t, slot);
    ResolvedText(t, rows);
  }

  // A request that spells the number of a registered terminal goes on to that
  // terminal's own process, unless the lock or the send fails or that process
  // is not running.
  lemma RegisteredGoesOn(m: LockRequest, rows: seq<Row>, up: set<int>, locked: bool, refused: bool, slot: int)
    requires RegisteredByTermd(rows) && Spells(m.termNo, slot)
    ensures LocatorSends(m, rows, up, locked, refused)
            == if locked && !refused && IsRegistered(slot, rows) && TermdIndex(slot) in up
               then [Envelope(TermdIndex(slot), IpcLockRequest(TermdIndex(slot), m))] else []
  {
    SpelledResolves(m.termNo, rows, slot);
  }

  // One for "0000" comes back to locator, if there is a free row.
  lemma ZeroesComeBack(m: LockRequest, rows: seq<Row>, up: set<int>, locked: bool, refused: bool)
    requires m.termNo == ZEROES
    ensures LocatorSends(m, rows, up, locked, refused)
            == if locked && !refused && IndexOf(rows, 0) < |rows| && IDX_LOCATOR in up
               then [Envelope(IDX_LOCATOR, IpcLockRequest(IDX_LOCATOR, m))] else []
  {
    ZeroesResolveToLocator(rows);
  }

  // Any other goes nowhere.
  lemma OthersGoNowhere(m: LockRequest, rows: seq<Row>, up: set<int>, locked: bool, refused: bool)
    requires RegisteredByTermd(rows) && m.termNo != ZEROES
    requires forall slot | 0 < slot <= 8999 :: !Spells(m.termNo, slot)
    ensures LocatorSends(m, rows, up, locked, refused) == []
  {
    ResolvedText(m.termNo, rows);
    if Resolved(m.termNo, rows) != 0 {
      SpellingIsUnique(m.termNo, DecimalValue(m.termNo));
      assert Spells(m.termNo, DecimalValue(m.termNo) - 1000);
    }
  }

  class Locator {
    const table: ShmTable
    const kernel: Kernel

    constructor (table: ShmTable, kernel: Kernel)
      ensures this.table == table && this.kernel == kernel
    {
      this.table := table;
      this.kernel := kernel;
    }

    method Resolve(t: TermNo, locked: bool) returns (index: int)
      requires table.Valid() && table.isOpen
      ensures index == if locked then Resolved(t, table.rows[..]) else 0
    {
      var n: uint32 := 0;
      for i := 0 to 4
        invariant IsNumeral(t[..i]) && n as int == DecimalValue(t[..i])
        invariant (i <= 3 ==> n <= 999) && (i <= 2 ==> n <= 99) && (i <= 1 ==> n <= 9) && (i == 0 ==> n == 0) && n <= 9999
      {
        var c := t[i];
        assert t[..i + 1][..i] == t[..i];
        if c < ASCII_0 || c > ASCII_9 {
          assert !IsDigit(t[i]);
          return 0;
        }
        n := ToUint32(n as int * 10 + (c as int - ASCII_0 as int));
      }
      assert t[..4] == t;
      var found, row := table.FindTerminal(n, locked);
      if !found {
        return 0;
      }
      index := IDX_TERMD_BASE + ToInt32(ToUint32(n as int - 1000));
    }

    // data.IpcLockRequest? is the size check.
    method OnLockRequest(data: Ipc, locked: bool, refused: bool)
      requires table.Valid() && table.isOpen
      modifies kernel
      ensures kernel.up == old(kernel.up)
      ensures kernel.mail == old(kernel.mail) +
              if data.IpcLockRequest? then LocatorSends(data.request, table.rows[..], kernel.up, locked, refused) else []
    {
      if SizeOf(data) != 8 + REQUEST_SIZE {
        return;
      }
      var index := Resolve(data.request.termNo, locked);
      if index == 0 {
        return;
      }
      var ok := kernel.SendTo(index, IpcLockRequest(index, data.request), refused);
    }
  }
}
