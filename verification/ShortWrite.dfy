// What becomes of the connection when the maintenance screen writes only part
// of a command and then, on the same connection, another whole one
// (maint_gui/maint_worker.cpp:71-79).
module ShortWrites {
  import opened Wire
  import opened Framing
  import opened Locators

  // A command as the screen builds it.
  function Command(text: TermNo, seqNo: uint16, now: uint64): (f: Bytes)
    ensures |f| == REQUEST_SIZE
  {
    EncodeRequest(MakeLockRequest(text, seqNo, now))
  }

  // The first n bytes of one command and the beginning of the next.
  function Mixed(f: Bytes, g: Bytes, n: nat): (m: Bytes)
    requires |f| == |g| == REQUEST_SIZE && n <= REQUEST_SIZE
    ensures |m| == REQUEST_SIZE
  {
    f[..n] + g[..REQUEST_SIZE - n]
  }

  predicate IsCommand(f: Bytes) {
    && |f| == REQUEST_SIZE && f[..6] == [MAGIC0, MAGIC1, PROTO_VERSION, CODE_LOCK_REQUEST, 0, 24]
    && f[16..20] == [0, 0, 0, 0]
  }

  lemma CommandBytes(text: TermNo, seqNo: uint16, now: uint64)
    ensures var f := Command(text, seqNo, now);
            && IsCommand(f) && f[8..16] == Digits(now, 8) && f[20..24] == text
  {
    var f := Command(text, seqNo, now);
    assert Digits(REQUEST_SIZE, 2) == [0, 24];
    assert Digits(0, 4) == [0, 0, 0, 0];
    assert f[16..20] == Digits(0, 4);
    assert f[4..6] == Digits(REQUEST_SIZE, 2);
    assert f[..6] == f[..4] + f[4..6];
  }

  lemma MixedIsAccepted(f: Bytes, g: Bytes, n: nat)
    requires IsCommand(f) && IsCommand(g) && 6 <= n < REQUEST_SIZE
    ensures RequestCheck(Mixed(f, g, n)) == Ok
    ensures Parse(f[..n] + g).frames != [] && Parse(f[..n] + g).frames[0] == Mixed(f, g, n)
  {
    var m, rest := Mixed(f, g, n), g[REQUEST_SIZE - n..];
    assert m[..6] == f[..6];
    assert m[0] == f[..6][0] && m[1] == f[..6][1] && m[2] == f[..6][2] && m[3] == f[..6][3];
    assert m[4] == f[..6][4] && m[5] == f[..6][5];
    assert f[..n] + g == m + rest;
    ParseFrame(m, rest);
  }

  lemma MixedText(f: Bytes, g: Bytes, n: nat)
    requires IsCommand(f) && IsCommand(g) && 6 <= n < REQUEST_SIZE
    ensures n < 8 || n > 14 ==> !IsNumeral(Mixed(f, g, n)[20..24])
    ensures n == 8 ==> Mixed(f, g, n)[20..24] == g[12..16]
  {
    var m, t := Mixed(f, g, n), Mixed(f, g, n)[20..24];
    assert forall i | n <= i < REQUEST_SIZE :: m[i] == g[i - n];
    assert g[0] == g[..6][0] && g[4] == g[..6][4] && g[5] == g[..6][5];
    assert g[16] == g[16..20][0];
    if n < 8 {
      assert t[n - 4] == m[16 + n] == g[16];
    } else if n >= 20 {
      assert t[n - 20] == m[n] == g[0];
    } else if n == 19 {
      assert t[3] == m[23] == g[4];
    } else if n > 14 {
      assert t[n - 15] == m[n + 5] == g[5];
    }
  }

  // The next command behind n bytes of one. With 1, 3 or 4 bytes gateway drops
  // the connection at once; with 2 or 5 it accepts nothing and waits for more;
  // with 6 or more it accepts a command made of the two, which goes nowhere
  // unless n is from 8 to 14, when its number is taken from the second
  // command's sequence number and time.
  lemma NextAfterShortWrite(f: Bytes, g: Bytes, n: nat)
    requires IsCommand(f) && IsCommand(g) && 0 < n < REQUEST_SIZE
    ensures n in {1, 3, 4} ==> Parse(f[..n] + g) == Parsed([], false, [])
    ensures n in {2, 5} ==> Parse(f[..n] + g) == Parsed([], true, f[..n] + g)
    ensures n >= 6 ==>
              && RequestCheck(Mixed(f, g, n)) == Ok
              && Parse(f[..n] + g).frames != [] && Parse(f[..n] + g).frames[0] == Mixed(f, g, n)
    ensures n in {6, 7} || n >= 15 ==> !IsNumeral(Mixed(f, g, n)[20..24])
  {
    if n >= 6 {
      MixedIsAccepted(f, g, n);
      MixedText(f, g, n);
    } else {
      var s := f[..n] + g;
      assert f[4] == f[..6][4];
      assert g[0] == g[..6][0] && g[1] == g[..6][1] && g[2] == g[..6][2] && g[3] == g[..6][3] && g[4] == g[..6][4];
      assert s[4] == if n == 5 then f[4] else g[4 - n];
      assert s[5] == g[5 - n];
      assert n in {1, 3, 4} ==> NextCut(s) == Desync;
      assert n in {2, 5} ==> NextCut(s) == NeedMore;
    }
  }

  // Whatever the two commands say, at any moment whose last four bytes spell
  // "1001" eight bytes of the first and the whole second one lock terminal
  // 1001, which neither of them may name.
  lemma ShortWriteCanMisdirect(a: TermNo, p: uint16, earlier: uint64, b: TermNo, q: uint16, now: uint64)
    requires now % 0x1_0000_0000 == 0x31303031
    ensures var f, g := Command(a, p, earlier), Command(b, q, now);
            Parse(f[..8] + g).frames != [] && RequestOf(Parse(f[..8] + g).frames[0]).termNo == Spell(1001)
  {
    var f, g := Command(a, p, earlier), Command(b, q, now);
    CommandBytes(a, p, earlier);
    CommandBytes(b, q, now);
    NextAfterShortWrite(f, g, 8);
    MixedText(f, g, 8);
    assert g[12..16] == g[8..16][4..];
    LowDigits(now, now / 0x1_0000_0000);
  }

  lemma LastDigit(v: nat, q: nat, d: nat, n: nat)
    requires v == 256 * q + d && d < 256 && n > 0
    ensures Digits(v, n) == Digits(q, n - 1) + [d]
  {
    assert v / 256 == q && v % 256 == d;
  }

  lemma LastFour(high: nat, a: nat, b: nat, c: nat, d: nat, n: nat)
    requires a < 256 && b < 256 && c < 256 && d < 256 && n >= 4
    ensures Digits(256 * (256 * (256 * (256 * high + a) + b) + c) + d, n)[n - 4..] == [a, b, c, d]
  {
    var v3 := 256 * high + a;
    var v2 := 256 * v3 + b;
    var v1 := 256 * v2 + c;
    LastDigit(256 * v1 + d, v1, d, n);
    LastDigit(v1, v2, c, n - 1);
    LastDigit(v2, v3, b, n - 2);
    LastDigit(v3, high, a, n - 3);
  }

  // The time, when its last four bytes spell "1001".
  lemma LowDigits(v: nat, high: nat)
    requires v == 0x1_0000_0000 * high + 0x31303031
    ensures Digits(v, 8)[4..] == [0x31, 0x30, 0x30, 0x31] == Spell(1001)
  {
    LastFour(high, 0x31, 0x30, 0x30, 0x31, 8);
  }
}
