/**
 * Frames on a TCP stream: a 4-octet big-endian length, then either "abc" and a compressed block
 * message, or a control string.  Compression is a parameter of the model.
 */
module Wire {
  import opened Bytes
  import opened MsgPack
  import opened Protocol
  import opened Wrappers

  // ---------- the codec ----------

  /** Zstd at one level: compression, decompression, and the content size a frame declares. */
  datatype Codec = Codec(compress: seq<byte> -> seq<byte>,
                         decompress: seq<byte> -> Option<seq<byte>>,
                         contentSize: seq<byte> -> Option<nat>)

  function CompressBound(n: nat): nat { n + n / 8 + 64 }

  /** What the wire format needs of Zstd on non-empty input. */
  ghost predicate Faithful(c: Codec) {
    forall m: seq<byte> :: m != [] ==>
      var z := c.compress(m);
      z != [] && |z| <= CompressBound(|m|) && c.decompress(z) == Some(m) && c.contentSize(z) == Some(|m|)
  }

  /** The hypotheses can be met: the identity codec meets them. */
  lemma IdentityCodecIsFaithful()
    ensures Faithful(Codec(m => m, z => Some(z), z => Some(|z|)))
  {}

  // ---------- messages and frames ----------

  datatype Msg = Data(block: Block) | CtlIncremental | CtlEndIncremental

  const SEND_SCRATCH_SIZE := 0x13_0000
  const DECODED_MAX := BLOCK_SIZE + 4096
  const FRAME_MAX := 100 * 1024 * 1024
  const MAGIC: seq<byte> := [0x61, 0x62, 0x63]
  /** "ctlIncremental" with its terminating NUL. */
  const CTL_INCREMENTAL: seq<byte> :=
    [0x63, 0x74, 0x6c, 0x49, 0x6e, 0x63, 0x72, 0x65, 0x6d, 0x65, 0x6e, 0x74, 0x61, 0x6c, 0]
  /** "ctlEndIncremental" without one. */
  const CTL_END_INCREMENTAL: seq<byte> :=
    [0x63, 0x74, 0x6c, 0x45, 0x6e, 0x64, 0x49, 0x6e, 0x63, 0x72, 0x65, 0x6d, 0x65, 0x6e, 0x74, 0x61, 0x6c]

  function Frame(body: seq<byte>): (f: seq<byte>)
    requires |body| < 0x1_0000_0000
    ensures |f| == 4 + |body|
  {
    ToBE(|body|, 4) + body
  }

  /** The frame built in a scratch buffer of the given size, or None where the send is refused. */
  function WireSend(c: Codec, msg: seq<byte>, scratchCap: nat): Option<seq<byte>>
    requires scratchCap < 0x1_0000_0000
  {
    var bound := CompressBound(|msg|);
    if bound + 3 + 4 > scratchCap then None
    else
      var z := c.compress(msg);
      if |z| > bound then None else Some(Frame(MAGIC + z))
  }

  function WireSendControl(m: Msg): seq<byte>
    requires !m.Data?
  {
    Frame(if m.CtlIncremental? then CTL_INCREMENTAL else CTL_END_INCREMENTAL)
  }

  /** What one message puts on the stream; a payload the queue or the scratch buffer refuses is None. */
  function Transmit(c: Codec, m: Msg): Option<seq<byte>>
    requires m.Data? ==> |m.block.data| < 0x1_0000_0000
  {
    if !m.Data? then Some(WireSendControl(m))
    else if |Encode(m.block)| > QUEUE_ENTRY_MAX_PAYLOAD then None
    else WireSend(c, Encode(m.block), SEND_SCRATCH_SIZE)
  }

  // ---------- the receiver's view ----------

  function ParseData(c: Codec, z: seq<byte>): Option<Msg> {
    if z == [] then None
    else
      var size :- c.contentSize(z);
      if size > DECODED_MAX then None
      else
        var msg :- c.decompress(z);
        if |msg| > size then None
        else
          var block :- Decode(msg);
          Some(Data(block))
  }

  function ParseBody(c: Codec, body: seq<byte>): Option<Msg> {
    if |body| >= 3 && body[..3] == MAGIC then ParseData(c, body[3..])
    else if body == CTL_INCREMENTAL then Some(CtlIncremental)
    else if body == CTL_END_INCREMENTAL then Some(CtlEndIncremental)
    else None
  }

  datatype Step = NeedMore | Bad | Got(msg: Msg, used: nat)

  /** One decoding attempt on the buffered octets. */
  function DecodeOne(c: Codec, s: seq<byte>): (r: Step)
    ensures r.Got? ==> 4 <= r.used <= |s|
  {
    if |s| < 4 then NeedMore
    else
      var len := FromBE(s[..4]);
      if len > FRAME_MAX then Bad
      else if |s| < 4 + len then NeedMore
      else match ParseBody(c, s[4..4 + len])
        case None => Bad
        case Some(m) => Got(m, 4 + len)
  }

  datatype End = Waiting(rest: seq<byte>) | Broken | Overflow
  datatype Parse = Parse(msgs: seq<Msg>, end: End)

  function Prepend(msgs: seq<Msg>, p: Parse): Parse { Parse(msgs + p.msgs, p.end) }

  /** The reference: the whole stream parsed at once, up to the first error. */
  function ParseStream(c: Codec, s: seq<byte>): (p: Parse)
    ensures !p.end.Overflow?
    decreases |s|
  {
    match DecodeOne(c, s)
    case NeedMore => Parse([], Waiting(s))
    case Bad => Parse([], Broken)
    case Got(m, used) => Prepend([m], ParseStream(c, s[used..]))
  }

  // ---------- round trip ----------

  /** A message the client can produce: at most one full block of data. */
  predicate Sendable(m: Msg) { m.Data? ==> |m.block.data| <= BLOCK_SIZE }

  lemma FrameParses(c: Codec, body: seq<byte>, rest: seq<byte>)
    requires |body| <= FRAME_MAX
    ensures DecodeOne(c, Frame(body) + rest) ==
            match ParseBody(c, body) case None => Bad case Some(m) => Got(m, 4 + |body|)
    ensures (Frame(body) + rest)[4 + |body|..] == rest
  {
    hide ParseBody;
    Radices();
    FromToBE(|body|, 4);
    var s := Frame(body) + rest;
    assert s[..4] == ToBE(|body|, 4);
    assert s[4..4 + |body|] == body;
  }

  lemma ControlParses(c: Codec, m: Msg)
    requires !m.Data?
    ensures ParseBody(c, if m.CtlIncremental? then CTL_INCREMENTAL else CTL_END_INCREMENTAL) == Some(m)
  {
    hide ParseData;
    assert CTL_INCREMENTAL[0] != MAGIC[0] && CTL_END_INCREMENTAL[0] != MAGIC[0];
  }

  lemma DataParses(c: Codec, b: Block)
    requires Faithful(c) && |b.data| <= BLOCK_SIZE
    ensures var z := c.compress(Encode(b));
            && Transmit(c, Data(b)) == Some(Frame(MAGIC + z))
            && |z| <= 1179737
            && ParseBody(c, MAGIC + z) == Some(Data(b))
  {
    var msg := Encode(b);
    hide Encode, Decode, Frame;
    var z := c.compress(msg);
    RoundTrip(b, []);
    assert msg + [] == msg;
    var body := MAGIC + z;
    assert body[..3] == MAGIC && body[3..] == z;
  }

  /**
   * Every block of up to 1 MB passes the queue limit, the scratch bound and the receiver's size
   * limits, and comes back unchanged; so does either control message.
   */
  lemma TransmitParses(c: Codec, m: Msg, rest: seq<byte>)
    requires Faithful(c) && Sendable(m)
    ensures Transmit(c, m).Some?
    ensures var f := Transmit(c, m).value;
            && |f| <= 1179744
            && DecodeOne(c, f + rest) == Got(m, |f|)
            && (f + rest)[|f|..] == rest
  {
    hide DecodeOne, ParseBody, Encode, Faithful;
    if m.Data? {
      DataParses(c, m.block);
      FrameParses(c, MAGIC + c.compress(Encode(m.block)), rest);
    } else {
      ControlParses(c, m);
      FrameParses(c, if m.CtlIncremental? then CTL_INCREMENTAL else CTL_END_INCREMENTAL, rest);
    }
  }

  /** The octets of a text. */
  function Ascii(text: string): seq<byte> {
    seq(|text|, i requires 0 <= i < |text| => if text[i] < 128 as char then text[i] as int else 0)
  }

  /** The length a frame announces. */
  function Announced(f: seq<byte>): int
    requires |f| >= 4
  {
    var a: int, b: int, c: int, d: int := f[0], f[1], f[2], f[3];
    a * 0x100_0000 + b * 0x1_0000 + c * 0x100 + d
  }

  lemma HeaderIsLength(body: seq<byte>)
    requires |body| < 0x1_0000_0000
    ensures var f := Frame(body);
            Announced(f) == |body| && f[4..] == body
  {
    hide ToBE, Radix;
    SmallRadices();
    ToBEDigits(|body|, 4, 0); ToBEDigits(|body|, 4, 1); ToBEDigits(|body|, 4, 2); ToBEDigits(|body|, 4, 3);
    FourDigits(|body|);
  }

  lemma SmallRadices()
    ensures Radix(0) == 1 && Radix(1) == 0x100 && Radix(2) == 0x1_0000 && Radix(3) == 0x100_0000
  {}

  lemma FourDigits(n: nat)
    requires n < 0x1_0000_0000
    ensures n / 0x100_0000 % 256 * 0x100_0000 + n / 0x1_0000 % 256 * 0x1_0000 + n / 0x100 % 256 * 0x100 + n / 1 % 256 == n
  {
    DivTwice(n, 256); DivTwice(n, 0x1_0000);
  }

  /**
   * What every message looks like on the wire: its length in four octets, most significant first,
   * then "abc" and the compressed block, or a control word, the first with a NUL and the second without.
   */
  lemma FrameLayout(c: Codec, m: Msg)
    requires Faithful(c) && Sendable(m)
    ensures Transmit(c, m).Some? && |Transmit(c, m).value| >= 4
    ensures var f := Transmit(c, m).value;
            && Announced(f) == |f| - 4
            && f[4..] == match m
                         case Data(b) => Ascii("abc") + c.compress(Encode(b))
                         case CtlIncremental => Ascii("ctlIncremental") + [0]
                         case CtlEndIncremental => Ascii("ctlEndIncremental")
  {
    hide Faithful, Encode, Frame;
    match m
    case Data(b) =>
      DataParses(c, b);
      assert Ascii("abc") == MAGIC;
      HeaderIsLength(MAGIC + c.compress(Encode(b)));
    case CtlIncremental =>
      assert Ascii("ctlIncremental") + [0] == CTL_INCREMENTAL;
      HeaderIsLength(CTL_INCREMENTAL);
    case CtlEndIncremental =>
      assert Ascii("ctlEndIncremental") == CTL_END_INCREMENTAL;
      HeaderIsLength(CTL_END_INCREMENTAL);
  }

  /**
   * The receiver gives up a stream at a frame announcing more than 100 MB, and at a complete data
   * frame whose compressed block is empty or declares more than 1 MB and 4096 octets.
   */
  lemma Refusals(c: Codec, s: seq<byte>)
    requires |s| >= 4
    ensures FromBE(s[..4]) > 104857600 ==> DecodeOne(c, s) == Bad
    ensures FromBE(s[..4]) <= 104857600 ==> (DecodeOne(c, s) == NeedMore <==> |s| < 4 + FromBE(s[..4]))
    ensures 3 <= FromBE(s[..4]) <= |s| - 4 && s[4..7] == [0x61, 0x62, 0x63] ==>
              var z := s[7..4 + FromBE(s[..4])];
              z == [] || c.contentSize(z).None? || c.contentSize(z).value > 1052672 ==> DecodeOne(c, s) == Bad
  {
    hide FromBE, Decode;
    var len := FromBE(s[..4]);
    if 3 <= len <= |s| - 4 {
      var body := s[4..4 + len];
      assert body[..3] == s[4..7] && body[3..] == s[7..4 + len];
    }
  }

  /** The stream a list of messages becomes on one connection. */
  function TransmitAll(c: Codec, msgs: seq<Msg>): seq<byte>
    requires Faithful(c) && forall m :: m in msgs ==> Sendable(m)
  {
    if msgs == [] then []
    else
      TransmitParses(c, msgs[0], []);
      Transmit(c, msgs[0]).value + TransmitAll(c, msgs[1..])
  }

  /** A stream of mixed data and control frames parses to exactly the messages sent. */
  lemma {:induction false} StreamRoundTrip(c: Codec, msgs: seq<Msg>)
    requires Faithful(c) && forall m :: m in msgs ==> Sendable(m)
    ensures ParseStream(c, TransmitAll(c, msgs)) == Parse(msgs, Waiting([]))
  {
    if msgs != [] {
      hide DecodeOne, Transmit, Faithful;
      TransmitParses(c, msgs[0], TransmitAll(c, msgs[1..]));
      StreamRoundTrip(c, msgs[1..]);
    }
  }
}
