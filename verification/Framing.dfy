// Message boundaries in a byte stream: what common/stream_buffer.cpp and the
// drain loops around it compute, stated once as a one-shot parser over the
// whole stream, and the laws that make the incremental version agree with it.
module Framing {
  import opened Wire

  datatype Cut = NeedMore | Frame(len: nat) | Desync

  // What StreamBuffer::next sees at the front of s.
  function NextCut(s: Bytes): (c: Cut)
    ensures c.Frame? ==> HEADER_SIZE <= c.len <= |s|
  {
    if |s| < HEADER_SIZE then NeedMore
    else
      var length := LengthField(s);
      if length < HEADER_SIZE || length > MAX_MESSAGE_LEN then Desync
      else if |s| < length then NeedMore
      else Frame(length)
  }

  // The verdict on a stream: the frames in it, whether the connection
  // survives, and the bytes still waiting for the rest of a frame.
  datatype Parsed = Parsed(frames: seq<Bytes>, open: bool, residue: Bytes)

  // The one-shot parser. A frame whose header is rejected ends the stream, as
  // does a length field out of range.
  function Parse(s: Bytes): Parsed
    decreases |s|
  {
    match NextCut(s)
    case NeedMore => Parsed([], true, s)
    case Desync => Parsed([], false, [])
    case Frame(n) =>
      if HeaderCheck(s[..n]) != Ok then Parsed([], false, [])
      else Prepend(s[..n], Parse(s[n..]))
  }

  function Prepend(f: Bytes, p: Parsed): Parsed {
    Parsed([f] + p.frames, p.open, p.residue)
  }

  function Concat(frames: seq<Bytes>): Bytes {
    if frames == [] then [] else frames[0] + Concat(frames[1..])
  }

  lemma {:induction false} ConcatAppend(frames: seq<Bytes>, f: Bytes)
    ensures Concat(frames + [f]) == Concat(frames) + f
  {
    if frames == [] {
      assert Concat([f]) == f + Concat([f][1..]) == f + [];
    } else {
      assert (frames + [f])[0] == frames[0] && (frames + [f])[1..] == frames[1..] + [f];
      ConcatAppend(frames[1..], f);
    }
  }

  // A frame the receivers accept as a message, whatever its code.
  predicate WellFormed(f: Bytes) {
    HeaderCheck(f) == Ok && LengthField(f) == |f|
  }

  predicate AllWellFormed(frames: seq<Bytes>) {
    forall i | 0 <= i < |frames| :: WellFormed(frames[i])
  }

  // The bytes at the front end the stream: either no frame can be cut, or the
  // frame that can be cut has a bad header.
  predicate Corrupt(s: Bytes) {
    match NextCut(s)
    case NeedMore => false
    case Desync => true
    case Frame(n) => HeaderCheck(s[..n]) != Ok
  }

  // ---- a prefix decides the cut ----

  lemma HeaderIsLocal(s: Bytes, t: Bytes)
    requires |s| >= HEADER_SIZE
    ensures LengthField(s + t) == LengthField(s)
    ensures HeaderCheck(s + t) == HeaderCheck(s)
  {
  }

  lemma CutIsStable(s: Bytes, t: Bytes)
    ensures NextCut(s) != NeedMore ==> NextCut(s + t) == NextCut(s)
    ensures NextCut(s).Frame? ==> (s + t)[..NextCut(s).len] == s[..NextCut(s).len]
                                  && (s + t)[NextCut(s).len..] == s[NextCut(s).len..] + t
    ensures Corrupt(s) ==> Corrupt(s + t)
  {
    if |s| >= HEADER_SIZE {
      HeaderIsLocal(s, t);
    }
  }

  lemma CutOfFrame(f: Bytes, t: Bytes)
    requires WellFormed(f)
    ensures NextCut(f + t) == Frame(|f|)
    ensures (f + t)[..|f|] == f && (f + t)[|f|..] == t
  {
    HeaderIsLocal(f, t);
  }

  lemma FrameIsWellFormed(s: Bytes)
    requires NextCut(s).Frame? && HeaderCheck(s[..NextCut(s).len]) == Ok
    ensures WellFormed(s[..NextCut(s).len])
  {
    var n := NextCut(s).len;
    assert s == s[..n] + s[n..];
    HeaderIsLocal(s[..n], s[n..]);
  }

  // ---- the prefix-extension law ----

  // A parse with more bytes coming in behind it: it resumes from its residue,
  // and stays dead once dead.
  function Then(p: Parsed, t: Bytes): Parsed {
    if p.open then
      var q := Parse(p.residue + t);
      Parsed(p.frames + q.frames, q.open, q.residue)
    else p
  }

  lemma ThenPrepend(f: Bytes, p: Parsed, t: Bytes)
    ensures Then(Prepend(f, p), t) == Prepend(f, Then(p, t))
  {
    if p.open {
      var q := Parse(p.residue + t);
      assert ([f] + p.frames) + q.frames == [f] + (p.frames + q.frames);
    }
  }

  lemma ParseFrame(f: Bytes, t: Bytes)
    requires WellFormed(f)
    ensures Parse(f + t) == Prepend(f, Parse(t))
  {
    CutOfFrame(f, t);
  }

  lemma {:induction false} ParseExtends(s: Bytes, t: Bytes)
    ensures Parse(s + t) == Then(Parse(s), t)
    decreases |s|
  {
    CutIsStable(s, t);
    if NextCut(s).Frame? && HeaderCheck(s[..NextCut(s).len]) == Ok {
      var f, rest := s[..NextCut(s).len], s[NextCut(s).len..];
      FrameIsWellFormed(s);
      calc {
        Parse(s + t);
        { assert s + t == f + (rest + t); ParseFrame(f, rest + t); }
        Prepend(f, Parse(rest + t));
        { ParseExtends(rest, t); }
        Prepend(f, Then(Parse(rest), t));
        { ThenPrepend(f, Parse(rest), t); }
        Then(Prepend(f, Parse(rest)), t);
      }
    }
  }

  lemma {:induction false} ParseConcat(frames: seq<Bytes>, t: Bytes)
    requires AllWellFormed(frames)
    ensures var p := Parse(t);
            Parse(Concat(frames) + t) == Parsed(frames + p.frames, p.open, p.residue)
  {
    if frames == [] {
      assert Concat(frames) + t == t;
    } else {
      var f, rest, p := frames[0], frames[1..], Parse(t);
      calc {
        Parse(Concat(frames) + t);
        { assert Concat(frames) + t == f + (Concat(rest) + t); }
        Parse(f + (Concat(rest) + t));
        { ParseConcat(rest, t); ParseFrame(f, Concat(rest) + t); }
        Parsed([f] + (rest + p.frames), p.open, p.residue);
        { assert [f] + (rest + p.frames) == frames + p.frames; }
        Parsed(frames + p.frames, p.open, p.residue);
      }
    }
  }

  // ---- the parser means what it should: unique decomposition ----

  // What a verdict on s says about s itself.
  predicate Explains(p: Parsed, s: Bytes) {
    && AllWellFormed(p.frames)
    && (p.open ==> s == Concat(p.frames) + p.residue && NextCut(p.residue) == NeedMore)
    && (!p.open ==> p.residue == [] && Concat(p.frames) <= s && Corrupt(s[|Concat(p.frames)|..]))
  }

  lemma ExplainsPrepend(f: Bytes, p: Parsed, t: Bytes)
    requires WellFormed(f) && Explains(p, t)
    ensures Explains(Prepend(f, p), f + t)
  {
    assert Prepend(f, p).frames[1..] == p.frames;
    if !p.open {
      var k := |Concat(p.frames)|;
      assert (f + t)[|f| + k..] == t[k..];
    }
  }

  lemma ParseFront(s: Bytes)
    requires NextCut(s).Frame? && HeaderCheck(s[..NextCut(s).len]) == Ok
    ensures var n := NextCut(s).len;
            WellFormed(s[..n]) && s == s[..n] + s[n..] && Parse(s) == Prepend(s[..n], Parse(s[n..]))
  {
    FrameIsWellFormed(s);
  }

  lemma ExplainsEnd(s: Bytes)
    requires NextCut(s).Frame? ==> HeaderCheck(s[..NextCut(s).len]) != Ok
    ensures Explains(Parse(s), s)
  {
    assert s[0..] == s;
  }

  lemma {:induction false} ParseDecomposes(s: Bytes)
    ensures Explains(Parse(s), s)
    decreases |s|
  {
    if NextCut(s).Frame? && HeaderCheck(s[..NextCut(s).len]) == Ok {
      ParseFront(s);
      var f, t := s[..NextCut(s).len], s[NextCut(s).len..];
      ParseDecomposes(t);
      ExplainsPrepend(f, Parse(t), t);
    } else {
      ExplainsEnd(s);
    }
  }

  // An open verdict with these frames and this residue is the same thing as
  // the stream being exactly those well-formed frames followed by an
  // incomplete one.
  lemma OpenMeansDecomposed(s: Bytes, frames: seq<Bytes>, residue: Bytes)
    ensures Parse(s) == Parsed(frames, true, residue)
            <==> s == Concat(frames) + residue && AllWellFormed(frames) && NextCut(residue) == NeedMore
  {
    ParseDecomposes(s);
    if s == Concat(frames) + residue && AllWellFormed(frames) && NextCut(residue) == NeedMore {
      ParseConcat(frames, residue);
      assert frames + [] == frames;
    }
  }

  // A dropped connection with these accepted frames is the same thing as
  // those frames being followed by bytes that no receiver accepts.
  lemma DroppedMeansCorrupt(s: Bytes, frames: seq<Bytes>)
    ensures Parse(s) == Parsed(frames, false, [])
            <==> AllWellFormed(frames) && Concat(frames) <= s && Corrupt(s[|Concat(frames)|..])
  {
    ParseDecomposes(s);
    if AllWellFormed(frames) && Concat(frames) <= s {
      var t := s[|Concat(frames)|..];
      ParseConcat(frames, t);
      assert s == Concat(frames) + t;
      assert frames + [] == frames;
      if Corrupt(t) {
        assert Parse(t) == Parsed([], false, []);
      }
    }
  }

  // ---- feeding the stream in pieces ----

  // One connection as a receiver sees it: dead or alive, the buffered bytes,
  // and every frame accepted so far.
  datatype Session = Session(open: bool, pending: Bytes, frames: seq<Bytes>)

  const FRESH: Session := Session(true, [], [])

  // One append followed by a drain.
  function Feed(c: Session, chunk: Bytes): Session {
    if !c.open then c
    else
      var p := Parse(c.pending + chunk);
      Session(p.open, p.residue, c.frames + p.frames)
  }

  function FeedAll(c: Session, chunks: seq<Bytes>): Session
    decreases |chunks|
  {
    if chunks == [] then c else FeedAll(Feed(c, chunks[0]), chunks[1..])
  }

  predicate Settled(c: Session) {
    c.open ==> NextCut(c.pending) == NeedMore
  }

  lemma FeedSettles(c: Session, chunk: Bytes)
    requires Settled(c)
    ensures Settled(Feed(c, chunk))
  {
    if c.open {
      ParseDecomposes(c.pending + chunk);
    }
  }

  lemma FeedTwice(c: Session, a: Bytes, b: Bytes)
    ensures Feed(Feed(c, a), b) == Feed(c, a + b)
  {
    if c.open {
      var s := c.pending + a;
      assert c.pending + (a + b) == s + b;
      ParseExtends(s, b);
      FeedThen(c.frames, Parse(s), b);
    }
  }

  lemma FeedThen(frames: seq<Bytes>, p: Parsed, b: Bytes)
    ensures var q := Then(p, b);
            Feed(Session(p.open, p.residue, frames + p.frames), b) == Session(q.open, q.residue, frames + q.frames)
  {
    if p.open {
      var more := Parse(p.residue + b).frames;
      assert (frames + p.frames) + more == frames + (p.frames + more);
    }
  }

  lemma FeedNothing(c: Session)
    requires Settled(c)
    ensures Feed(c, []) == c
  {
    assert c.pending + [] == c.pending;
    assert c.frames + [] == c.frames;
  }

  lemma {:induction false} FeedAllIsOneFeed(c: Session, chunks: seq<Bytes>)
    requires Settled(c)
    ensures FeedAll(c, chunks) == Feed(c, Concat(chunks))
    decreases |chunks|
  {
    if chunks == [] {
      FeedNothing(c);
    } else {
      FeedSettles(c, chunks[0]);
      FeedAllIsOneFeed(Feed(c, chunks[0]), chunks[1..]);
      FeedTwice(c, chunks[0], Concat(chunks[1..]));
    }
  }

  // However the network cuts the stream, the receiver ends with the frames,
  // the verdict and the residue of parsing it in one go, corrupt or not.
  lemma ChunkingIsIrrelevant(chunks: seq<Bytes>)
    ensures var p := Parse(Concat(chunks));
            FeedAll(FRESH, chunks) == Session(p.open, p.residue, p.frames)
  {
    FeedAllIsOneFeed(FRESH, chunks);
    assert [] + Concat(chunks) == Concat(chunks);
    assert [] + Parse(Concat(chunks)).frames == Parse(Concat(chunks)).frames;
  }

  // ---- bounds ----

  // Every pass of a drain loop takes at least a header off the buffer, the
  // pass that drops the connection included.
  lemma {:induction false} DrainBound(s: Bytes)
    ensures var p := Parse(s);
            HEADER_SIZE * (|p.frames| + if p.open then 0 else 1) + |p.residue| <= |s|
    ensures |Parse(s).residue| < MAX_MESSAGE_LEN
    decreases |s|
  {
    if NextCut(s).Frame? && HeaderCheck(s[..NextCut(s).len]) == Ok {
      DrainBound(s[NextCut(s).len..]);
    }
  }

  // ---- framing and decoding fit together ----

  // The bad-length branch hands over the whole buffer; whatever it holds, its
  // header is rejected.
  lemma DesyncIsRejected(s: Bytes)
    ensures NextCut(s) == Desync ==> HeaderCheck(s) != Ok && HeaderCheck(s) != TooShort
  {
  }

  // A frame cut by its length field is never too short and never out of range.
  lemma FramedIsNeverShort(s: Bytes)
    ensures NextCut(s).Frame? ==> HeaderCheck(s[..NextCut(s).len]) !in {TooShort, BadLength}
    ensures NextCut(s).Frame? ==> RequestCheck(s[..NextCut(s).len]) !in {TooShort, BadLength}
    ensures NextCut(s).Frame? ==> ResponseCheck(s[..NextCut(s).len]) !in {TooShort, BadLength}
  {
    if NextCut(s).Frame? {
      var n := NextCut(s).len;
      assert s == s[..n] + s[n..];
      HeaderIsLocal(s[..n], s[n..]);
    }
  }

  // ---- one pass of a drain loop ----

  // What StreamBuffer::next hands out: the frame, or on a bad length all of it.
  function Front(data: Bytes): (msg: Bytes)
    requires NextCut(data) != NeedMore
    ensures HEADER_SIZE <= |msg| <= |data|
  {
    match NextCut(data)
    case Frame(n) => data[..n]
    case Desync => data
  }

  // One pass of a drain loop: either the stream ends here, or the frame is the
  // first of those to come and the rest of the buffer takes its place.
  lemma DrainPass(data: Bytes)
    requires NextCut(data) != NeedMore
    ensures HeaderCheck(Front(data)) != Ok ==> Parse(data) == Parsed([], false, [])
    ensures HeaderCheck(Front(data)) == Ok ==>
              Parse(data) == Prepend(Front(data), Parse(data[|Front(data)|..]))
  {
    DesyncIsRejected(data);
  }

  // A log that grows message by message ends as if it had grown at once.
  lemma AppendInTurn<T>(log: seq<T>, own: seq<T>, rest: seq<T>)
    ensures log + (own + rest) == (log + own) + rest
    ensures log + [] == log
  {
  }

  // ---- the messages in a list of frames ----

  function Requests(frames: seq<Bytes>): seq<LockRequest> {
    if frames == [] then []
    else if RequestCheck(frames[0]) == Ok then [RequestOf(frames[0])] + Requests(frames[1..])
    else Requests(frames[1..])
  }

  function Responses(frames: seq<Bytes>): seq<LockResponse> {
    if frames == [] then []
    else if ResponseCheck(frames[0]) == Ok then [ResponseOf(frames[0])] + Responses(frames[1..])
    else Responses(frames[1..])
  }

  lemma {:induction false} RequestsAppend(a: seq<Bytes>, b: seq<Bytes>)
    ensures Requests(a + b) == Requests(a) + Requests(b)
  {
    if a == [] {
      assert a + b == b;
    } else {
      var first := if RequestCheck(a[0]) == Ok then [RequestOf(a[0])] else [];
      assert (a + b)[0] == a[0] && (a + b)[1..] == a[1..] + b;
      RequestsAppend(a[1..], b);
      assert first + (Requests(a[1..]) + Requests(b)) == (first + Requests(a[1..])) + Requests(b);
    }
  }

  lemma {:induction false} ResponsesAppend(a: seq<Bytes>, b: seq<Bytes>)
    ensures Responses(a + b) == Responses(a) + Responses(b)
  {
    if a == [] {
      assert a + b == b;
    } else {
      var first := if ResponseCheck(a[0]) == Ok then [ResponseOf(a[0])] else [];
      assert (a + b)[0] == a[0] && (a + b)[1..] == a[1..] + b;
      ResponsesAppend(a[1..], b);
      assert first + (Responses(a[1..]) + Responses(b)) == (first + Responses(a[1..])) + Responses(b);
    }
  }

  lemma RequestsPrepend(f: Bytes, frames: seq<Bytes>)
    ensures Requests([f] + frames) == (if RequestCheck(f) == Ok then [RequestOf(f)] else []) + Requests(frames)
  {
    assert ([f] + frames)[1..] == frames;
  }

  lemma ResponsesPrepend(f: Bytes, frames: seq<Bytes>)
    ensures Responses([f] + frames) == (if ResponseCheck(f) == Ok then [ResponseOf(f)] else []) + Responses(frames)
  {
    assert ([f] + frames)[1..] == frames;
  }

  // The frames that carry the LockRequest code.
  function OnlyRequests(frames: seq<Bytes>): seq<Bytes> {
    if frames == [] then []
    else (if |frames[0]| >= HEADER_SIZE && frames[0][3] == CODE_LOCK_REQUEST then [frames[0]] else [])
         + OnlyRequests(frames[1..])
  }

  lemma {:induction false} RequestsIgnoreOthers(frames: seq<Bytes>)
    ensures Requests(frames) == Requests(OnlyRequests(frames))
  {
    if frames != [] {
      RequestsIgnoreOthers(frames[1..]);
      if |frames[0]| >= HEADER_SIZE && frames[0][3] == CODE_LOCK_REQUEST {
        var only := OnlyRequests(frames);
        assert only[0] == frames[0] && only[1..] == OnlyRequests(frames[1..]);
      } else {
        assert OnlyRequests(frames) == OnlyRequests(frames[1..]);
      }
    }
  }

  // Forward compatibility. Two streams that begin with well-formed frames
  // agreeing on the LockRequest ones, however many other frames are mixed in,
  // and then go on with the same bytes, are forwarded alike and end alike:
  // under any chunking of either, and whatever the common tail holds.
  lemma UnknownFramesAreInvisible(
    a: seq<Bytes>, b: seq<Bytes>, tail: Bytes, aChunks: seq<Bytes>, bChunks: seq<Bytes>)
    requires AllWellFormed(a) && AllWellFormed(b) && OnlyRequests(a) == OnlyRequests(b)
    requires Concat(aChunks) == Concat(a) + tail && Concat(bChunks) == Concat(b) + tail
    ensures var x, y := FeedAll(FRESH, aChunks), FeedAll(FRESH, bChunks);
            && Requests(x.frames) == Requests(y.frames)
            && x.open == y.open && x.pending == y.pending
  {
    ChunkingIsIrrelevant(aChunks);
    ChunkingIsIrrelevant(bChunks);
    ParseConcat(a, tail);
    ParseConcat(b, tail);
    RequestsAppend(a, Parse(tail).frames);
    RequestsAppend(b, Parse(tail).frames);
    RequestsIgnoreOthers(a);
    RequestsIgnoreOthers(b);
  }

  // ---- truncated streams ----

  // What has arrived of a stream of whole frames decodes to a prefix of them,
  // never desynchronises, and decodes to all of them once all has arrived.
  lemma {:induction false} PrefixParsesToPrefix(frames: seq<Bytes>, s: Bytes)
    requires AllWellFormed(frames) && s <= Concat(frames)
    ensures Parse(s).open && Parse(s).frames <= frames
    ensures s == Concat(frames) ==> Parse(s) == Parsed(frames, true, [])
    decreases |frames|
  {
    if frames == [] {
      assert s == [];
    } else {
      var f, rest := frames[0], Concat(frames[1..]);
      if |s| >= |f| {
        assert s[..|f|] == f by { assert s <= f + rest; }
        var t := s[|f|..];
        assert s == f + t;
        assert t <= rest by {
          assert s[|f|..] == (f + rest)[..|s|][|f|..];
        }
        PrefixParsesToPrefix(frames[1..], t);
        CutOfFrame(f, t);
        assert Parse(s).frames == [f] + Parse(t).frames;
        assert frames == [f] + frames[1..];
      } else {
        assert s == (f + rest)[..|s|] == f[..|s|];
        if |s| >= HEADER_SIZE {
          assert f == s + f[|s|..];
          HeaderIsLocal(s, f[|s|..]);
        }
        assert NextCut(s) == NeedMore;
      }
    }
  }
}
