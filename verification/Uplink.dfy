// The maintenance screen's end of the command path: a worker that writes
// commands to its connection (maint_gui/maint_worker.cpp) and gateway, which
// accepts connections one after another and reads them (gateway/main.cpp,
// common/tcp_server.cpp). A connection is a reliable, ordered byte stream
// (section 2.2 of RFC 9293), read in chunks of any size.
module Uplink {
  import opened Wire
  import opened Framing
  import opened Subsequences

  // One connection. frames: the commands the socket took whole; wire: every
  // byte it took; part: the piece of a command a short write left behind;
  // spoilt: something was written after that. read: how many bytes gateway has
  // read; accepted: the LockRequests it found.
  datatype Line = Line(
    frames: seq<Bytes>, wire: Bytes, part: Bytes, spoilt: bool, read: nat, accepted: seq<Bytes>)

  const NEW_LINE: Line := Line([], [], [], false, 0, [])

  // writing: the worker is connected, to the latest line. reader is the line
  // of gateway's client, if any, rx its buffer; passed counts the connections
  // gateway has accepted or passed over.
  datatype Up = Up(lines: seq<Line>, writing: bool, reader: int, passed: nat, rx: Bytes)

  const NOBODY: int := -1
  const IDLE: Up := Up([], false, NOBODY, 0, [])

  datatype Event = Connect | Write(frame: Bytes, n: nat) | Leave | Accept(line: nat) | Read(count: nat) | Drop

  predicate IsRequest(f: Bytes) {
    |f| == REQUEST_SIZE && RequestCheck(f) == Ok
  }

  predicate AllRequests(frames: seq<Bytes>) {
    forall i | 0 <= i < |frames| :: IsRequest(frames[i])
  }

  function RequestFrames(frames: seq<Bytes>): seq<Bytes> {
    if frames == [] then []
    else (if IsRequest(frames[0]) then [frames[0]] else []) + RequestFrames(frames[1..])
  }

  // MaintWorker.SendLock: the socket takes n bytes of the command.
  function Written(l: Line, frame: Bytes, n: nat): Line
    requires n <= |frame|
  {
    l.(frames := if n == |frame| then l.frames + [frame] else l.frames,
       wire := l.wire + frame[..n],
       part := if n == |frame| then l.part else l.part + frame[..n],
       spoilt := l.spoilt || (l.part != [] && n > 0))
  }

  function AfterRead(l: Line, frames: seq<Bytes>, count: nat): Line {
    l.(read := l.read + count, accepted := l.accepted + RequestFrames(frames))
  }

  // What one read brings.
  function Brought(u: Up, count: nat): Parsed
    requires 0 <= u.reader < |u.lines| && u.lines[u.reader].read + count <= |u.lines[u.reader].wire|
  {
    var l := u.lines[u.reader];
    Parse(u.rx + l.wire[l.read..l.read + count])
  }

  function AfterReading(u: Up, count: nat): Up
    requires 0 <= u.reader < |u.lines| && u.lines[u.reader].read + count <= |u.lines[u.reader].wire|
  {
    var l := u.lines[u.reader];
    var p := Brought(u, count);
    u.(lines := u.lines[u.reader := AfterRead(l, p.frames, count)], rx := p.residue,
       reader := if p.open then u.reader else NOBODY)
  }

  ghost predicate Step(u: Up, e: Event, u': Up) {
    match e
    case Connect =>
      u' == u.(lines := u.lines + [NEW_LINE], writing := true)
    case Write(frame, n) =>
      && u.writing && u.lines != [] && IsRequest(frame) && n <= |frame|
      && var last := |u.lines| - 1;
         u' == u.(lines := u.lines[last := Written(u.lines[last], frame, n)])
    case Leave =>
      u' == u.(writing := false)
    case Accept(c) =>
      u.passed <= c < |u.lines| && u' == u.(reader := c, passed := c + 1, rx := [])
    case Read(count) =>
      && 0 <= u.reader < |u.lines| && u.lines[u.reader].read + count <= |u.lines[u.reader].wire|
      && u' == AfterReading(u, count)
    case Drop =>
      u' == u.(reader := NOBODY, rx := [])
  }

  // Line by line, in the order of the connections.
  function AcceptedOn(lines: seq<Line>): seq<Bytes> {
    if lines == [] then [] else AcceptedOn(lines[..|lines| - 1]) + lines[|lines| - 1].accepted
  }

  function WrittenOn(lines: seq<Line>): seq<Bytes> {
    if lines == [] then [] else WrittenOn(lines[..|lines| - 1]) + lines[|lines| - 1].frames
  }

  // ---- invariants ----

  ghost predicate LineWritten(l: Line) {
    && AllRequests(l.frames)
    && (!l.spoilt ==> l.wire == Concat(l.frames) + l.part && NextCut(l.part) == NeedMore)
  }

  // What gateway accepted is what the one-shot parse of what it read accepts,
  // whatever was written.
  ghost predicate LineRead(l: Line) {
    l.read <= |l.wire| && l.accepted == RequestFrames(Parse(l.wire[..l.read]).frames)
  }

  ghost predicate AllLines(lines: seq<Line>) {
    forall i | 0 <= i < |lines| :: LineWritten(lines[i]) && LineRead(lines[i])
  }

  // Gateway reads the last connection it accepted, if any.
  predicate Places(u: Up) {
    && u.passed <= |u.lines| && (u.reader == NOBODY || 0 <= u.reader == u.passed - 1)
    && forall i | u.passed <= i < |u.lines| :: u.lines[i].read == 0 && u.lines[i].accepted == []
  }

  ghost predicate Follows(l: Line, rx: Bytes) {
    l.read <= |l.wire| && Parse(l.wire[..l.read]).open && Parse(l.wire[..l.read]).residue == rx
  }

  ghost predicate InStep(u: Up) {
    0 <= u.reader < |u.lines| ==> Follows(u.lines[u.reader], u.rx)
  }

  ghost predicate Inv(u: Up) {
    Places(u) && AllLines(u.lines) && InStep(u)
  }

  // ---- one line ----

  lemma RequestIsWellFormed(f: Bytes)
    requires IsRequest(f)
    ensures WellFormed(f)
  {
  }

  lemma PieceIsIncomplete(f: Bytes, n: nat)
    requires IsRequest(f) && n < |f|
    ensures NextCut(f[..n]) == NeedMore
  {
    if n >= HEADER_SIZE {
      HeaderIsLocal(f[..n], f[n..]);
      assert f == f[..n] + f[n..];
    }
  }

  // The bytes of a line, when a command is written behind whole ones.
  lemma WireAfterWrite(l: Line, frame: Bytes, n: nat)
    requires n <= |frame| && l.part == [] && l.wire == Concat(l.frames) + l.part
    ensures var l' := Written(l, frame, n); l'.wire == Concat(l'.frames) + l'.part
  {
    ConcatAppend(l.frames, frame);
    assert frame[..|frame|] == frame;
  }

  lemma WriteKeepsLine(l: Line, frame: Bytes, n: nat)
    requires LineWritten(l) && IsRequest(frame) && n <= |frame|
    ensures LineWritten(Written(l, frame, n))
  {
    if !l.spoilt && l.part == [] {
      WireAfterWrite(l, frame, n);
      if n < |frame| {
        PieceIsIncomplete(frame, n);
        assert l.part + frame[..n] == frame[..n];
      }
    } else if n == 0 {
      assert l.part + frame[..n] == l.part && l.wire + frame[..n] == l.wire;
    }
  }

  lemma WriteKeepsReading(l: Line, frame: Bytes, n: nat, rx: Bytes)
    requires LineRead(l) && n <= |frame|
    ensures LineRead(Written(l, frame, n))
    ensures Follows(l, rx) ==> Follows(Written(l, frame, n), rx)
  {
    assert (l.wire + frame[..n])[..l.read] == l.wire[..l.read];
  }

  lemma {:induction false} RequestFramesAppend(a: seq<Bytes>, b: seq<Bytes>)
    ensures RequestFrames(a + b) == RequestFrames(a) + RequestFrames(b)
  {
    if a == [] {
      assert a + b == b;
    } else {
      var first := if IsRequest(a[0]) then [a[0]] else [];
      assert (a + b)[0] == a[0] && (a + b)[1..] == a[1..] + b;
      RequestFramesAppend(a[1..], b);
      AppendInTurn(first, RequestFrames(a[1..]), RequestFrames(b));
    }
  }

  // Reading on: the requests in the whole are those in the first part and
  // those in what the rest adds.
  lemma ReadInTwo(s: Bytes, t: Bytes, whole: Bytes)
    requires whole == s + t && Parse(s).open
    ensures var p, q := Parse(Parse(s).residue + t), Parse(whole);
            && q.open == p.open && q.residue == p.residue
            && RequestFrames(q.frames) == RequestFrames(Parse(s).frames) + RequestFrames(p.frames)
  {
    ParseExtends(s, t);
    RequestFramesAppend(Parse(s).frames, Parse(Parse(s).residue + t).frames);
  }

  lemma ReadKeepsLine(l: Line, rx: Bytes, count: nat)
    requires LineRead(l) && Follows(l, rx) && l.read + count <= |l.wire|
    ensures var p := Parse(rx + l.wire[l.read..l.read + count]);
            var l' := AfterRead(l, p.frames, count);
            LineRead(l') && (p.open ==> Follows(l', p.residue))
  {
    ReadLine(l, rx, count, l.wire[..l.read], l.wire[l.read..l.read + count], l.wire[..l.read + count]);
  }

  lemma ReadLine(l: Line, rx: Bytes, count: nat, s: Bytes, t: Bytes, whole: Bytes)
    requires l.read + count <= |l.wire| && s == l.wire[..l.read] && whole == l.wire[..l.read + count]
    requires t == l.wire[l.read..l.read + count]
    requires Parse(s).open && Parse(s).residue == rx && l.accepted == RequestFrames(Parse(s).frames)
    ensures var p, q := Parse(rx + t), Parse(whole);
            && l.accepted + RequestFrames(p.frames) == RequestFrames(q.frames)
            && q.open == p.open && q.residue == p.residue
  {
    assert whole == s + t;
    ReadInTwo(s, t, whole);
  }

  lemma {:induction false} AllRequestsStay(frames: seq<Bytes>)
    requires AllRequests(frames)
    ensures RequestFrames(frames) == frames
  {
    if frames != [] {
      AllRequestsStay(frames[1..]);
    }
  }

  // The beginning of a stream that stays open yields its first frames.
  lemma BeginningOfOpen(s: Bytes, t: Bytes)
    requires Parse(s + t).open
    ensures Parse(s).open && Parse(s).frames <= Parse(s + t).frames
  {
    ParseExtends(s, t);
  }

  lemma WrittenParses(l: Line)
    requires LineWritten(l) && !l.spoilt
    ensures Parse(l.wire) == Parsed(l.frames, true, l.part)
  {
    forall i | 0 <= i < |l.frames| ensures WellFormed(l.frames[i]) {
      RequestIsWellFormed(l.frames[i]);
    }
    OpenMeansDecomposed(l.wire, l.frames, l.part);
  }

  lemma BeginningOfRequests(s: Bytes, t: Bytes, frames: seq<Bytes>)
    requires Parse(s + t).open && Parse(s + t).frames == frames && AllRequests(frames)
    ensures RequestFrames(Parse(s).frames) <= frames
    ensures t == [] ==> RequestFrames(Parse(s).frames) == frames
  {
    BeginningOfOpen(s, t);
    AllRequestsStay(Parse(s).frames);
    assert t == [] ==> s + t == s;
  }

  // As long as nothing follows a short write, gateway accepts from a
  // connection exactly the first so many commands written whole to it, and all
  // of them once it has read everything.
  lemma LineIsFaithful(l: Line)
    requires LineWritten(l) && LineRead(l) && !l.spoilt
    ensures l.accepted <= l.frames
    ensures l.read == |l.wire| ==> l.accepted == l.frames
  {
    WrittenParses(l);
    assert l.wire == l.wire[..l.read] + l.wire[l.read..];
    BeginningOfRequests(l.wire[..l.read], l.wire[l.read..], l.frames);
  }

  // ---- all lines ----

  lemma UpdateKeepsLines(lines: seq<Line>, i: nat, l: Line)
    requires AllLines(lines) && i < |lines| && LineWritten(l) && LineRead(l)
    ensures AllLines(lines[i := l])
  {
    var after := lines[i := l];
    forall k | 0 <= k < |lines| ensures LineWritten(after[k]) && LineRead(after[k]) {
      assert LineWritten(lines[k]) && LineRead(lines[k]);
    }
  }

  lemma NewLineIsFine()
    ensures LineWritten(NEW_LINE) && LineRead(NEW_LINE) && Follows(NEW_LINE, [])
  {
    assert NEW_LINE.wire[..0] == [];
    assert Concat(NEW_LINE.frames) + NEW_LINE.part == [];
  }

  lemma ConnectKeepsLines(lines: seq<Line>)
    requires AllLines(lines)
    ensures AllLines(lines + [NEW_LINE])
  {
    NewLineIsFine();
    var after := lines + [NEW_LINE];
    forall k | 0 <= k <= |lines| ensures LineWritten(after[k]) && LineRead(after[k]) {
      assert k < |lines| ==> LineWritten(lines[k]) && LineRead(lines[k]);
    }
  }

  lemma WriteUpdates(l: Line, frame: Bytes, n: nat, rx: Bytes)
    requires LineWritten(l) && LineRead(l) && IsRequest(frame) && n <= |frame|
    ensures LineWritten(Written(l, frame, n)) && LineRead(Written(l, frame, n))
    ensures Follows(l, rx) ==> Follows(Written(l, frame, n), rx)
  {
    WriteKeepsLine(l, frame, n);
    WriteKeepsReading(l, frame, n, rx);
  }

  // Replacing one line by one that is in order keeps everything in order.
  lemma ReplaceKeepsInv(u: Up, i: nat, l: Line, rx: Bytes, reader: int)
    requires Inv(u) && i < |u.lines| && LineWritten(l) && LineRead(l)
    requires i < u.passed || (l.read == 0 && l.accepted == [])
    requires reader == NOBODY || reader == u.reader
    requires reader != NOBODY ==> if reader == i then Follows(l, rx) else rx == u.rx
    ensures Inv(u.(lines := u.lines[i := l], rx := rx, reader := reader))
  {
    UpdateKeepsLines(u.lines, i, l);
    ReplaceKeepsPlaces(u, i, l, rx, reader);
  }

  lemma ReplaceKeepsPlaces(u: Up, i: nat, l: Line, rx: Bytes, reader: int)
    requires Places(u) && i < |u.lines| && (i < u.passed || (l.read == 0 && l.accepted == []))
    requires reader == NOBODY || reader == u.reader
    ensures Places(u.(lines := u.lines[i := l], rx := rx, reader := reader))
  {
  }

  lemma LineOfInv(u: Up, i: nat)
    requires Inv(u) && i < |u.lines|
    ensures LineWritten(u.lines[i]) && LineRead(u.lines[i]) && (i == u.reader ==> Follows(u.lines[i], u.rx))
    ensures i < u.passed || (u.lines[i].read == 0 && u.lines[i].accepted == [])
  {
  }

  lemma WriteKeepsInv(u: Up, frame: Bytes, n: nat)
    requires Inv(u) && u.lines != [] && IsRequest(frame) && n <= |frame|
    ensures var last := |u.lines| - 1;
            Inv(u.(lines := u.lines[last := Written(u.lines[last], frame, n)]))
  {
    var last := |u.lines| - 1;
    LineOfInv(u, last);
    WriteUpdates(u.lines[last], frame, n, u.rx);
    ReplaceKeepsInv(u, last, Written(u.lines[last], frame, n), u.rx, u.reader);
  }

  lemma ReadKeepsWritten(l: Line, frames: seq<Bytes>, count: nat)
    requires LineWritten(l)
    ensures LineWritten(AfterRead(l, frames, count))
  {
  }

  // A read replaces the line of gateway's client, and its buffer.
  lemma ReadUpdates(u: Up, count: nat) returns (l: Line, p: Parsed)
    requires 0 <= u.reader < |u.lines| && u.lines[u.reader].read + count <= |u.lines[u.reader].wire|
    requires LineRead(u.lines[u.reader]) && Follows(u.lines[u.reader], u.rx)
    ensures l == AfterRead(u.lines[u.reader], p.frames, count) && LineRead(l) && (p.open ==> Follows(l, p.residue))
    ensures AfterReading(u, count)
            == u.(lines := u.lines[u.reader := l], rx := p.residue, reader := if p.open then u.reader else NOBODY)
  {
    var was := u.lines[u.reader];
    ReadKeepsLine(was, u.rx, count);
    p := Parse(u.rx + was.wire[was.read..was.read + count]);
    l := AfterRead(was, p.frames, count);
  }

  lemma ReadKeepsInv(u: Up, count: nat)
    requires Inv(u) && 0 <= u.reader < |u.lines| && u.lines[u.reader].read + count <= |u.lines[u.reader].wire|
    ensures Inv(AfterReading(u, count))
  {
    LineOfInv(u, u.reader);
    var l, p := ReadUpdates(u, count);
    ReadKeepsWritten(u.lines[u.reader], p.frames, count);
    ReplaceKeepsInv(u, u.reader, l, p.residue, if p.open then u.reader else NOBODY);
  }

  lemma NothingRead(l: Line)
    requires l.read == 0
    ensures Follows(l, [])
  {
    assert l.wire[..0] == [];
  }

  lemma StepKeepsInv(u: Up, e: Event, u': Up)
    requires Inv(u) && Step(u, e, u')
    ensures Inv(u')
  {
    match e
    case Connect => ConnectKeepsLines(u.lines);
    case Write(frame, n) => WriteKeepsInv(u, frame, n);
    case Read(count) => ReadKeepsInv(u, count);
    case Accept(c) => NothingRead(u.lines[c]);
    case _ =>
  }

  lemma {:induction false} AcceptedGrows(lines: seq<Line>, i: nat, l: Line, more: seq<Bytes>)
    requires i < |lines| && l.accepted == lines[i].accepted + more
    requires forall j | i < j < |lines| :: lines[j].accepted == []
    ensures AcceptedOn(lines[i := l]) == AcceptedOn(lines) + more
  {
    var n := |lines| - 1;
    if i < n {
      AcceptedGrows(lines[..n], i, l, more);
      assert lines[i := l][..n] == lines[..n][i := l];
    } else {
      assert lines[i := l][..n] == lines[..n];
    }
  }

  lemma {:induction false} AcceptedStays(lines: seq<Line>, i: nat, l: Line)
    requires i < |lines| && l.accepted == lines[i].accepted
    ensures AcceptedOn(lines[i := l]) == AcceptedOn(lines)
  {
    var n := |lines| - 1;
    if i < n {
      AcceptedStays(lines[..n], i, l);
      assert lines[i := l][..n] == lines[..n][i := l];
    } else {
      assert lines[i := l][..n] == lines[..n];
    }
  }

  lemma ReadGrows(u: Up, count: nat)
    requires Places(u) && 0 <= u.reader < |u.lines|
    requires u.lines[u.reader].read + count <= |u.lines[u.reader].wire|
    ensures AcceptedOn(AfterReading(u, count).lines) == AcceptedOn(u.lines) + RequestFrames(Brought(u, count).frames)
    ensures Places(AfterReading(u, count))
  {
    var l := u.lines[u.reader];
    var frames := Brought(u, count).frames;
    AcceptedGrows(u.lines, u.reader, AfterRead(l, frames, count), RequestFrames(frames));
  }

  lemma ConnectGrows(lines: seq<Line>)
    ensures AcceptedOn(lines + [NEW_LINE]) == AcceptedOn(lines)
  {
    assert (lines + [NEW_LINE])[..|lines|] == lines;
  }

  // Gateway goes through the connections in order, so what it has accepted
  // only ever grows at the end.
  lemma AcceptedOnlyGrows(u: Up, e: Event, u': Up)
    requires Places(u) && Step(u, e, u')
    ensures AcceptedOn(u.lines) <= AcceptedOn(u'.lines)
  {
    match e
    case Connect => ConnectGrows(u.lines);
    case Write(frame, n) =>
      AcceptedStays(u.lines, |u.lines| - 1, Written(u.lines[|u.lines| - 1], frame, n));
    case Read(count) => ReadGrows(u, count);
    case _ =>
  }

  predicate NothingSpoilt(lines: seq<Line>) {
    forall i | 0 <= i < |lines| :: !lines[i].spoilt
  }

  lemma LineIsSubsequence(l: Line)
    requires LineWritten(l) && LineRead(l) && !l.spoilt
    ensures IsSubsequence(l.accepted, l.frames)
  {
    LineIsFaithful(l);
    PrefixIsSubsequence(l.accepted, l.frames);
  }

  lemma LastLine(lines: seq<Line>)
    requires lines != [] && AllLines(lines) && NothingSpoilt(lines)
    ensures var n := |lines| - 1;
            && AllLines(lines[..n]) && NothingSpoilt(lines[..n])
            && LineWritten(lines[n]) && LineRead(lines[n]) && !lines[n].spoilt
  {
    var n := |lines| - 1;
    assert LineWritten(lines[n]) && LineRead(lines[n]);
    forall k | 0 <= k < n ensures LineWritten(lines[..n][k]) && LineRead(lines[..n][k]) {
      assert LineWritten(lines[k]) && LineRead(lines[k]);
    }
  }

  lemma {:induction false} AcceptedWasWritten(lines: seq<Line>)
    requires AllLines(lines) && NothingSpoilt(lines)
    ensures IsSubsequence(AcceptedOn(lines), WrittenOn(lines))
  {
    if lines == [] {
      SubsequenceOfSelf<Bytes>([]);
    } else {
      var n := |lines| - 1;
      LastLine(lines);
      AcceptedWasWritten(lines[..n]);
      LineIsSubsequence(lines[n]);
      Both(AcceptedOn(lines[..n]), WrittenOn(lines[..n]), lines[n].accepted, lines[n].frames);
    }
  }
}
