/** From messages on several connections to octets on disk. */
module EndToEnd {
  import opened Bytes
  import opened Wire
  import opened Streaming
  import opened Disk
  import opened Receiver

  /** The block writes a list of messages asks for, in order. */
  function BlockWrites(msgs: seq<Msg>): seq<Write> {
    if msgs == [] then []
    else BlockWrites(msgs[..|msgs| - 1]) +
         match msgs[|msgs| - 1]
         case Data(b) => [WriteOf(b, |b.data|)]
         case _ => []
  }

  function MsgsOf(inputs: seq<Input>): seq<Msg> {
    seq(|inputs|, i requires 0 <= i < |inputs| => inputs[i].msg)
  }

  /** Every data frame names an open disk and is written completely. */
  predicate AllSucceed(usable: set<int>, inputs: seq<Input>) {
    forall i :: 0 <= i < |inputs| && inputs[i].msg.Data? ==> Succeeds(usable, inputs[i])
  }

  lemma {:induction false} RunWrites(st: State, inputs: seq<Input>)
    requires st.history == [] && AllSucceed(st.usable, inputs)
    ensures Writes(Run(st, inputs).history) == BlockWrites(MsgsOf(inputs))
  {
    if inputs != [] {
      var n := |inputs| - 1;
      RunWrites(st, inputs[..n]);
      UsableFixed(st, inputs[..n]);
      HandleWrites(Run(st, inputs[..n]), inputs[n]);
      assert MsgsOf(inputs)[..n] == MsgsOf(inputs[..n]);
      assert MsgsOf(inputs)[n] == inputs[n].msg;
      var ws := BlockWrites(MsgsOf(inputs[..n]));
      assert ws + [] == ws;
    }
  }

  /** The writes each connection carries. */
  function ConnWrites(sent: seq<seq<Msg>>): seq<seq<Write>> {
    seq(|sent|, i requires 0 <= i < |sent| => BlockWrites(sent[i]))
  }

  /** What the sessions decode from the chunks they receive. */
  function Decoded(c: Codec, chunks: seq<seq<seq<byte>>>): seq<seq<Msg>> {
    seq(|chunks|, i requires 0 <= i < |chunks| => Feed(c, [], chunks[i]).msgs)
  }

  /** inputs is one way to serve the sessions: each session's blocks in the order it decoded them. */
  ghost predicate Serves(inputs: seq<Input>, decoded: seq<seq<Msg>>) {
    Delivery(BlockWrites(MsgsOf(inputs)), ConnWrites(decoded))
  }

  /** chunks is one way for TCP to cut the octets of the messages sent. */
  ghost predicate Carries(c: Codec, sent: seq<seq<Msg>>, chunks: seq<seq<seq<byte>>>)
    requires Faithful(c) && forall i, m :: 0 <= i < |sent| && m in sent[i] ==> Sendable(m)
  {
    && |chunks| == |sent|
    && forall i :: 0 <= i < |sent| ==> ChunkSized(chunks[i]) && Flatten(chunks[i]) == TransmitAll(c, sent[i])
  }

  lemma DecodedIsSent(c: Codec, sent: seq<seq<Msg>>, chunks: seq<seq<seq<byte>>>)
    requires Faithful(c) && (forall i, m :: 0 <= i < |sent| && m in sent[i] ==> Sendable(m))
    requires Carries(c, sent, chunks)
    ensures Decoded(c, chunks) == sent
  {
    hide Faithful, Feed;
    forall i | 0 <= i < |sent|
      ensures Decoded(c, chunks)[i] == sent[i]
    {
      ConnectionDelivers(c, sent[i], chunks[i]);
    }
  }

  lemma {:induction false} BlockIsWritten(msgs: seq<Msg>, m: Msg)
    requires m in msgs && m.Data?
    ensures WriteOf(m.block, |m.block.data|) in BlockWrites(msgs)
  {
    var n := |msgs| - 1;
    if m != msgs[n] {
      assert msgs == msgs[..n] + [msgs[n]];
      BlockIsWritten(msgs[..n], m);
    }
  }

  /**
   * However TCP cuts the streams and in whatever order the receiver serves its sessions, serving
   * what they decoded leaves the same disks, and every block sent reads back from them.
   */
  lemma DisksDetermined(c: Codec, sent: seq<seq<Msg>>, chunks: seq<seq<seq<byte>>>, chunks': seq<seq<seq<byte>>>,
                        st: State, inputs: seq<Input>, inputs': seq<Input>)
    requires Faithful(c) && (forall i, m :: 0 <= i < |sent| && m in sent[i] ==> Sendable(m))
    requires Carries(c, sent, chunks) && Carries(c, sent, chunks')
    requires Serves(inputs, Decoded(c, chunks)) && Serves(inputs', Decoded(c, chunks'))
    requires st.history == [] && AllSucceed(st.usable, inputs) && AllSucceed(st.usable, inputs')
    requires forall a, b :: OnSome(a, ConnWrites(sent)) && OnSome(b, ConnWrites(sent)) ==> Agree(a, b)
    ensures Volatile(st.base, Run(st, inputs).history) == Volatile(st.base, Run(st, inputs').history)
    ensures forall i, m :: 0 <= i < |sent| && m in sent[i] && m.Data? ==>
              var b := m.block;
              ReadBlock(Volatile(st.base, Run(st, inputs).history), b.devno, b.offset, |b.data|) == b.data
  {
    hide Faithful, Feed, Run, Writes, Volatile, Agree, Delivery, BlockWrites, ReadBlock, WriteOf;
    DecodedIsSent(c, sent, chunks);
    DecodedIsSent(c, sent, chunks');
    RunWrites(st, inputs);
    RunWrites(st, inputs');
    VolatileIsReplay(st.base, Run(st, inputs).history);
    VolatileIsReplay(st.base, Run(st, inputs').history);
    var ws := BlockWrites(MsgsOf(inputs));
    DeliveryConfluent(st.base, ConnWrites(sent), ws, BlockWrites(MsgsOf(inputs')));
    forall i, m | 0 <= i < |sent| && m in sent[i] && m.Data?
      ensures var b := m.block; ReadBlock(ApplyAll(st.base, ws), b.devno, b.offset, |b.data|) == b.data
    {
      SentReadsBack(st.base, sent, ws, i, m);
    }
  }

  lemma SentReadsBack(img: Image, sent: seq<seq<Msg>>, ws: seq<Write>, i: nat, m: Msg)
    requires Delivery(ws, ConnWrites(sent)) && i < |sent| && m in sent[i] && m.Data?
    requires forall a, b :: OnSome(a, ConnWrites(sent)) && OnSome(b, ConnWrites(sent)) ==> Agree(a, b)
    ensures var b := m.block; ReadBlock(ApplyAll(img, ws), b.devno, b.offset, |b.data|) == b.data
  {
    hide Delivery, BlockWrites, Agree, ReadBlock, ApplyAll;
    var w := WriteOf(m.block, |m.block.data|);
    BlockIsWritten(sent[i], m);
    assert w in ConnWrites(sent)[i];
    forall v: Write ensures v in ws <==> OnSome(v, ConnWrites(sent)) { DeliversExactly(ws, ConnWrites(sent), v); }
    ReadAfter(img, ws, w);
    assert m.block.data[..|m.block.data|] == m.block.data;
  }
}
