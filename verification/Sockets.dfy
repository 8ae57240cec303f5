/** Single and batched receive (mcanbus/src/socket.rs), with the kernel's answers as arguments. */
module Sockets {
  import opened Bits
  import opened Ids
  import opened Frames

  /** One datagram with the timestamp the library attaches to it. */
  datatype Message = Message(bytes: seq<byte>, timestamp: Option<nat>)

  /** `Socket::recv` on one datagram: data frames only, anything else reads as nothing. */
  function Recv(o: ByteOrder, m: Message): Option<Frame> {
    match DecodeWire(o, m.bytes, m.timestamp)
    case Some(Data(frame)) => Some(frame)
    case _ => None
  }

  datatype KernelAnswer = Again | Failed(errno: int) | Messages(msgs: seq<Message>)

  const MAX_BATCH: nat := 64

  // The batch loop is stated for any decoder that makes nothing of a short buffer; RecvDropsShort
  // says that `Recv` is one.

  predicate DropsShort(decode: Message -> Option<Frame>, msgs: seq<Message>) {
    forall i :: 0 <= i < |msgs| && |msgs[i].bytes| < CAN_FRAME_SIZE ==> decode(msgs[i]) == None
  }

  lemma RecvDropsShort(o: ByteOrder, msgs: seq<Message>)
    ensures DropsShort(m => Recv(o, m), msgs)
  {
  }

  /** The data frames among the messages, in order. */
  function DataFrames(decode: Message -> Option<Frame>, msgs: seq<Message>): (fs: seq<Frame>)
    ensures |fs| <= |msgs|
  {
    if msgs == [] then []
    else
      var before := DataFrames(decode, msgs[..|msgs| - 1]);
      match decode(msgs[|msgs| - 1])
      case Some(f) => before + [f]
      case None => before
  }

  /** One message at a time, so exactly what decodes is kept, in order. */
  lemma DataFramesOfOne(decode: Message -> Option<Frame>, m: Message)
    ensures DataFrames(decode, [m]) == match decode(m) { case Some(f) => [f] case None => [] }
  {
    assert [m][..0] == [];
  }

  lemma {:induction false} DataFramesAppend(decode: Message -> Option<Frame>, a: seq<Message>, b: seq<Message>)
    ensures DataFrames(decode, a + b) == DataFrames(decode, a) + DataFrames(decode, b)
  {
    if b == [] {
      assert a + b == a;
    } else {
      assert (a + b)[..|a + b| - 1] == a + b[..|b| - 1];
      DataFramesAppend(decode, a, b[..|b| - 1]);
    }
  }

  /** A single receive gives exactly the data frames: nothing short, no remote and no error frame. */
  lemma RecvOutcome(o: ByteOrder, m: Message)
    ensures Recv(o, m).Some? <==>
              && |m.bytes| >= CAN_FRAME_SIZE
              && And(Get32(o, m.bytes[..4]), CAN_RTR_FLAG) == 0 && And(Get32(o, m.bytes[..4]), CAN_ERR_FLAG) == 0
    ensures Recv(o, m).Some? ==> DecodeWire(o, m.bytes, m.timestamp) == Some(Data(Recv(o, m).value))
  {
    if |m.bytes| >= CAN_FRAME_SIZE {
      DecodeOutcome(o, m.bytes, m.timestamp);
      MasksAreBitwise(Get32(o, m.bytes[..4]));
    }
  }

  /** `got` is what a receiver makes of `sent`, stamped `ts`. */
  predicate SameStamped(sent: Frame, got: Frame, ts: Option<nat>) {
    && sent.len <= MAX_FD_DATA_LEN && got.len <= MAX_FD_DATA_LEN
    && SameMessage(sent, got) && got.timestamp == ts
  }

  lemma {:induction false} DataFramesOfDecodable(decode: Message -> Option<Frame>, frames: seq<Frame>,
                                                 msgs: seq<Message>)
    requires |frames| == |msgs|
    requires forall i :: 0 <= i < |frames| ==>
               decode(msgs[i]).Some? && SameStamped(frames[i], decode(msgs[i]).value, msgs[i].timestamp)
    ensures |DataFrames(decode, msgs)| == |frames|
    ensures forall i :: 0 <= i < |frames| ==> SameStamped(frames[i], DataFrames(decode, msgs)[i], msgs[i].timestamp)
  {
    if frames != [] {
      var n := |frames| - 1;
      DataFramesOfDecodable(decode, frames[..n], msgs[..n]);
    }
  }

  lemma SentIsReceived(o: ByteOrder, f: Frame, m: Message)
    requires f.WellFormed() && m.bytes == SentBytes(o, f)
    ensures Recv(o, m).Some? && SameStamped(f, Recv(o, m).value, m.timestamp)
  {
    WireRoundTrip(o, f, m.timestamp);
  }

  /** Batches lose nothing: well-formed frames sent one per message arrive as they were. */
  lemma DataFramesOfSent(o: ByteOrder, frames: seq<Frame>, msgs: seq<Message>)
    requires |frames| == |msgs|
    requires forall i :: 0 <= i < |frames| ==> frames[i].WellFormed() && msgs[i].bytes == SentBytes(o, frames[i])
    ensures var got := DataFrames(m => Recv(o, m), msgs);
            && |got| == |frames|
            && forall i :: 0 <= i < |got| ==> SameStamped(frames[i], got[i], msgs[i].timestamp)
  {
    forall i | 0 <= i < |frames|
      ensures Recv(o, msgs[i]).Some? && SameStamped(frames[i], Recv(o, msgs[i]).value, msgs[i].timestamp)
    {
      SentIsReceived(o, frames[i], msgs[i]);
    }
    DataFramesOfDecodable(m => Recv(o, m), frames, msgs);
  }

  /** `Socket::recv_batch` after its syscall, compacting the data frames to the front of `out`. */
  method RecvBatch(decode: Message -> Option<Frame>, out: array<Frame>, kernel: KernelAnswer)
    returns (r: Result<nat, int>)
    requires kernel.Messages? ==> |kernel.msgs| <= Min(out.Length, MAX_BATCH)
    requires kernel.Messages? ==> DropsShort(decode, kernel.msgs)
    modifies out
    ensures r.Err? <==> out.Length > 0 && kernel.Failed?
    ensures r.Err? ==> r.error == kernel.errno
    ensures r.Ok? ==> r.value <= Min(out.Length, MAX_BATCH)
    ensures r.Ok? ==> out[..r.value] == if kernel.Messages? then DataFrames(decode, kernel.msgs) else []
    ensures out[if r.Ok? then r.value else 0..] == old(out[..])[if r.Ok? then r.value else 0..]
  {
    if out.Length == 0 {
      assert kernel.Messages? ==> kernel.msgs == [];
      return Ok(0);
    }
    match kernel
    case Again => return Ok(0);
    case Failed(errno) => return Err(errno);
    case Messages(msgs) =>
      var delivered := 0;
      for i := 0 to |msgs|
        invariant delivered <= i
        invariant out[..delivered] == DataFrames(decode, msgs[..i])
        invariant out[delivered..] == old(out[..])[delivered..]
      {
        assert msgs[..i + 1][..i] == msgs[..i];
        if |msgs[i].bytes| < CAN_FRAME_SIZE {
          continue;
        }
        match decode(msgs[i]) {
          case None =>
          case Some(frame) =>
            ghost var was := out[..];
            out[delivered] := frame;
            assert out[..delivered + 1] == was[..delivered] + [frame];
            assert out[delivered + 1..] == was[delivered..][1..];
            delivered := delivered + 1;
        }
      }
      assert msgs[..|msgs|] == msgs;
      return Ok(delivered);
  }
}
