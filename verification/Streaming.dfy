/**
 * The receiver's framing: octets arrive in arbitrary chunks, pile up in a 4 MB buffer and are
 * drained frame by frame.  When does the chunking not matter?
 */
module Streaming {
  import opened Bytes
  import opened Wire

  const RECV_CAP := 4 * 1024 * 1024
  const CHUNK_MAX := 65536
  /** The longest frame that can never overflow the buffer: RECV_CAP - CHUNK_MAX - 3. */
  const FRAME_FIT := 4128765

  predicate ChunkSized(chunks: seq<seq<byte>>) {
    forall i :: 0 <= i < |chunks| ==> 1 <= |chunks[i]| <= CHUNK_MAX
  }

  function Flatten(chunks: seq<seq<byte>>): seq<byte> {
    if chunks == [] then [] else chunks[0] + Flatten(chunks[1..])
  }

  /** Append a chunk, drain every complete frame, go on with the next chunk. */
  function Feed(c: Codec, buf: seq<byte>, chunks: seq<seq<byte>>): Parse
    decreases |chunks|
  {
    if chunks == [] then Parse([], Waiting(buf))
    else if |buf| + |chunks[0]| > RECV_CAP then Parse([], Overflow)
    else
      var p := ParseStream(c, buf + chunks[0]);
      if p.end.Waiting? then Prepend(p.msgs, Feed(c, p.end.rest, chunks[1..])) else p
  }

  // ---------- parsing a stream piece by piece ----------

  lemma {:induction false} ParseSplit(c: Codec, a: seq<byte>, b: seq<byte>)
    ensures var p := ParseStream(c, a);
            ParseStream(c, a + b) ==
            if p.end.Waiting? then Prepend(p.msgs, ParseStream(c, p.end.rest + b)) else p
    decreases |a|
  {
    DecodeSplit(c, a, b);
    hide DecodeOne;
    match DecodeOne(c, a)
    case NeedMore =>
      assert [] + ParseStream(c, a + b).msgs == ParseStream(c, a + b).msgs;
    case Bad =>
    case Got(m, used) =>
      assert (a + b)[used..] == a[used..] + b;
      ParseSplit(c, a[used..], b);
      var p := ParseStream(c, a[used..]);
      if p.end.Waiting? {
        var q := ParseStream(c, p.end.rest + b);
        assert [m] + (p.msgs + q.msgs) == ([m] + p.msgs) + q.msgs;
      }
  }

  lemma DecodeSplit(c: Codec, a: seq<byte>, b: seq<byte>)
    ensures !DecodeOne(c, a).NeedMore? ==> DecodeOne(c, a + b) == DecodeOne(c, a)
  {
    hide ParseBody;
    if |a| >= 4 {
      assert (a + b)[..4] == a[..4];
      var len := FromBE(a[..4]);
      if 4 + len <= |a| { assert (a + b)[4..4 + len] == a[4..4 + len]; }
    }
  }

  /** The unfinished tail is a suffix that holds no complete frame. */
  lemma {:induction false} WaitingTail(c: Codec, s: seq<byte>)
    requires ParseStream(c, s).end.Waiting?
    ensures var r := ParseStream(c, s).end.rest;
            |r| <= |s| && DecodeOne(c, r).NeedMore? && ParseStream(c, r) == Parse([], Waiting(r))
    decreases |s|
  {
    hide DecodeOne;
    match DecodeOne(c, s)
    case NeedMore =>
    case Got(m, used) => WaitingTail(c, s[used..]);
  }

  // ---------- the exact condition ----------

  function FrameLength(s: seq<byte>): nat
    requires |s| >= 4
  {
    FromBE(s[..4])
  }

  /** At this point of the stream an unlucky chunking can push the buffer over its size. */
  predicate Hazard(s: seq<byte>) {
    |s| > RECV_CAP && FRAME_FIT < FrameLength(s) <= FRAME_MAX
  }

  /** No frame start of the stream is a hazard. */
  predicate Safe(c: Codec, s: seq<byte>)
    decreases |s|
  {
    && !Hazard(s)
    && match DecodeOne(c, s)
       case Got(_, used) => Safe(c, s[used..])
       case _ => true
  }

  /** In particular every stream whose frames all fit is safe. */
  predicate FramesFit(c: Codec, s: seq<byte>)
    decreases |s|
  {
    && (|s| >= 4 ==> FrameLength(s) <= FRAME_FIT || FrameLength(s) > FRAME_MAX)
    && match DecodeOne(c, s)
       case Got(_, used) => FramesFit(c, s[used..])
       case _ => true
  }

  lemma {:induction false} FittingIsSafe(c: Codec, s: seq<byte>)
    requires FramesFit(c, s)
    ensures Safe(c, s)
    decreases |s|
  {
    hide DecodeOne;
    if DecodeOne(c, s).Got? { FittingIsSafe(c, s[DecodeOne(c, s).used..]); }
  }

  lemma {:induction false} SafeTail(c: Codec, a: seq<byte>, b: seq<byte>)
    requires Safe(c, a + b) && ParseStream(c, a).end.Waiting?
    ensures Safe(c, ParseStream(c, a).end.rest + b)
    decreases |a|
  {
    DecodeSplit(c, a, b);
    hide DecodeOne, Hazard;
    match DecodeOne(c, a)
    case NeedMore =>
    case Got(m, used) =>
      assert (a + b)[used..] == a[used..] + b;
      SafeTail(c, a[used..], b);
  }

  lemma NoOverflow(c: Codec, buf: seq<byte>, chunk: seq<byte>, later: seq<byte>)
    requires DecodeOne(c, buf).NeedMore? && |chunk| <= CHUNK_MAX && Safe(c, buf + (chunk + later))
    ensures |buf| + |chunk| <= RECV_CAP
  {
    hide ParseBody, FromBE;
    var s := buf + (chunk + later);
    if |buf| >= 4 { assert s[..4] == buf[..4]; }
  }

  lemma {:induction false} SafeFeeds(c: Codec, buf: seq<byte>, chunks: seq<seq<byte>>)
    requires DecodeOne(c, buf).NeedMore? && ChunkSized(chunks) && Safe(c, buf + Flatten(chunks))
    ensures Feed(c, buf, chunks) == ParseStream(c, buf + Flatten(chunks))
    decreases |chunks|
  {
    hide DecodeOne, Safe;
    if chunks == [] {
      assert buf + [] == buf;
    } else {
      var later := Flatten(chunks[1..]);
      NoOverflow(c, buf, chunks[0], later);
      assert buf + Flatten(chunks) == (buf + chunks[0]) + later;
      ParseSplit(c, buf + chunks[0], later);
      if ParseStream(c, buf + chunks[0]).end.Waiting? {
        WaitingTail(c, buf + chunks[0]);
        SafeTail(c, buf + chunks[0], later);
        SafeFeeds(c, ParseStream(c, buf + chunks[0]).end.rest, chunks[1..]);
      }
    }
  }

  /** Chunking does not matter: same messages, same first error, no overflow. */
  lemma ChunkingIndependent(c: Codec, chunks: seq<seq<byte>>)
    requires ChunkSized(chunks) && Safe(c, Flatten(chunks))
    ensures Feed(c, [], chunks) == ParseStream(c, Flatten(chunks))
  {
    assert [] + Flatten(chunks) == Flatten(chunks);
    SafeFeeds(c, [], chunks);
  }

  // ---------- the condition is necessary ----------

  /** Full-sized chunks, the last one possibly shorter. */
  function Cut(s: seq<byte>): (chunks: seq<seq<byte>>)
    ensures ChunkSized(chunks)
    decreases |s|
  {
    if s == [] then []
    else if |s| <= CHUNK_MAX then [s]
    else [s[..CHUNK_MAX]] + Cut(s[CHUNK_MAX..])
  }

  lemma {:induction false} CutFlattens(s: seq<byte>)
    ensures Flatten(Cut(s)) == s
    decreases |s|
  {
    if |s| > CHUNK_MAX {
      CutFlattens(s[CHUNK_MAX..]);
      assert Cut(s)[1..] == Cut(s[CHUNK_MAX..]);
    } else if s != [] {
      assert Cut(s)[1..] == [];
    }
  }

  lemma {:induction false} FlattenAppend(a: seq<seq<byte>>, b: seq<seq<byte>>)
    ensures Flatten(a + b) == Flatten(a) + Flatten(b)
  {
    if a == [] {
      assert a + b == b;
    } else {
      FlattenAppend(a[1..], b);
      assert (a + b)[0] == a[0] && (a + b)[1..] == a[1..] + b;
      JoinAssociates(a[0], Flatten(a[1..]), Flatten(b));
    }
  }

  lemma JoinAssociates(x: seq<byte>, y: seq<byte>, z: seq<byte>)
    ensures x + (y + z) == (x + y) + z
  {}

  lemma {:induction false} FeedAppend(c: Codec, buf: seq<byte>, a: seq<seq<byte>>, b: seq<seq<byte>>)
    ensures var p := Feed(c, buf, a);
            Feed(c, buf, a + b) == if p.end.Waiting? then Prepend(p.msgs, Feed(c, p.end.rest, b)) else p
    decreases |a|
  {
    hide ParseStream;
    if a == [] {
      assert a + b == b;
      assert [] + Feed(c, buf, b).msgs == Feed(c, buf, b).msgs;
    } else {
      assert (a + b)[1..] == a[1..] + b;
      var p := ParseStream(c, buf + a[0]);
      if p.end.Waiting? {
        FeedAppend(c, p.end.rest, a[1..], b);
        var q := Feed(c, p.end.rest, a[1..]);
        if q.end.Waiting? {
          var r := Feed(c, q.end.rest, b);
          assert p.msgs + (q.msgs + r.msgs) == (p.msgs + q.msgs) + r.msgs;
        }
      }
    }
  }

  /** A prefix that fits the buffer is never a hazard. */
  lemma {:induction false} ShortIsSafe(c: Codec, s: seq<byte>)
    requires |s| <= RECV_CAP
    ensures Safe(c, s)
    decreases |s|
  {
    hide DecodeOne;
    if DecodeOne(c, s).Got? { ShortIsSafe(c, s[DecodeOne(c, s).used..]); }
  }

  /** Feeding a short piece cut into chunks parses it. */
  lemma FeedShort(c: Codec, s: seq<byte>)
    requires |s| <= RECV_CAP
    ensures Feed(c, [], Cut(s)) == ParseStream(c, s)
  {
    CutFlattens(s);
    ShortIsSafe(c, s);
    ChunkingIndependent(c, Cut(s));
  }

  /** At a hazard: fill the buffer to 4128769 octets, one frame still unfinished, then a full chunk. */
  lemma HazardOverflows(c: Codec, s: seq<byte>) returns (chunks: seq<seq<byte>>)
    requires Hazard(s)
    ensures ChunkSized(chunks) && Flatten(chunks) == s && Feed(c, [], chunks).end.Overflow?
  {
    var fill := FRAME_FIT + 4;
    var a, b := s[..fill], s[fill..];
    chunks := Cut(a) + Cut(b);
    CutFlattens(a); CutFlattens(b);
    FlattenAppend(Cut(a), Cut(b));
    assert a + b == s;
    FeedShort(c, a);
    assert a[..4] == s[..4];
    assert ParseStream(c, a) == Parse([], Waiting(a));
    FeedAppend(c, [], Cut(a), Cut(b));
    assert |Cut(b)[0]| == CHUNK_MAX;
  }

  lemma {:induction false} UnsafeOverflows(c: Codec, s: seq<byte>) returns (chunks: seq<seq<byte>>)
    requires !Safe(c, s)
    ensures ChunkSized(chunks) && Flatten(chunks) == s && Feed(c, [], chunks).end.Overflow?
    decreases |s|
  {
    hide *;
    if Hazard(s) {
      chunks := HazardOverflows(c, s);
    } else {
      FirstFrame(c, s);
      var used := DecodeOne(c, s).used;
      var later := UnsafeOverflows(c, s[used..]);
      chunks := Cut(s[..used]) + later;
      OverflowAfter(c, s[..used], later);
      assert s == s[..used] + s[used..];
    }
  }

  lemma OverflowAfter(c: Codec, a: seq<byte>, later: seq<seq<byte>>)
    requires |a| <= RECV_CAP && ParseStream(c, a).end == Waiting([])
    requires ChunkSized(later) && Feed(c, [], later).end.Overflow?
    ensures ChunkSized(Cut(a) + later) && Flatten(Cut(a) + later) == a + Flatten(later)
    ensures Feed(c, [], Cut(a) + later).end.Overflow?
  {
    hide Feed, ParseStream, Cut, Flatten;
    CutFlattens(a);
    FlattenAppend(Cut(a), later);
    FeedShort(c, a);
    FeedAppend(c, [], Cut(a), later);
  }

  lemma FirstFrame(c: Codec, s: seq<byte>)
    requires !Hazard(s) && !Safe(c, s)
    ensures DecodeOne(c, s).Got? && !Safe(c, s[DecodeOne(c, s).used..])
    ensures var used := DecodeOne(c, s).used;
            used <= RECV_CAP && ParseStream(c, s[..used]).end == Waiting([])
  {
    if |s| <= RECV_CAP { ShortIsSafe(c, s); }
    FrameAlone(c, s);
    hide ParseStream;
  }

  lemma FrameAlone(c: Codec, s: seq<byte>)
    requires DecodeOne(c, s).Got?
    ensures ParseStream(c, s[..DecodeOne(c, s).used]).end == Waiting([])
  {
    var used := DecodeOne(c, s).used;
    var a := s[..used];
    assert a[..4] == s[..4] && a[4..used] == s[4..used];
    assert DecodeOne(c, a) == DecodeOne(c, s);
    assert DecodeOne(c, []) == NeedMore;
    hide DecodeOne;
    assert a[used..] == [];
  }

  /**
   * Exactly when the receiver understands a stream the same way under every chunking: when no
   * frame start is a hazard.
   */
  lemma ChunkingIndependentIff(c: Codec, s: seq<byte>)
    ensures Safe(c, s) <==>
            forall chunks :: ChunkSized(chunks) && Flatten(chunks) == s ==>
                               Feed(c, [], chunks) == ParseStream(c, s)
  {
    if Safe(c, s) {
      forall chunks | ChunkSized(chunks) && Flatten(chunks) == s
        ensures Feed(c, [], chunks) == ParseStream(c, s)
      {
        ChunkingIndependent(c, chunks);
      }
    } else {
      var chunks := UnsafeOverflows(c, s);
    }
  }

  // ---------- what the client sends ----------

  lemma {:induction false} SentStreamFits(c: Codec, msgs: seq<Msg>)
    requires Faithful(c) && forall m :: m in msgs ==> Sendable(m)
    ensures FramesFit(c, TransmitAll(c, msgs))
  {
    if msgs != [] {
      var rest := TransmitAll(c, msgs[1..]);
      TransmitParses(c, msgs[0], rest);
      SentStreamFits(c, msgs[1..]);
    }
  }

  /** However TCP cuts it up, a connection delivers exactly the messages sent on it, in order. */
  lemma ConnectionDelivers(c: Codec, msgs: seq<Msg>, chunks: seq<seq<byte>>)
    requires Faithful(c) && forall m :: m in msgs ==> Sendable(m)
    requires ChunkSized(chunks) && Flatten(chunks) == TransmitAll(c, msgs)
    ensures Feed(c, [], chunks) == Parse(msgs, Waiting([]))
  {
    SentStreamFits(c, msgs);
    FittingIsSafe(c, Flatten(chunks));
    ChunkingIndependent(c, chunks);
    StreamRoundTrip(c, msgs);
  }
}
