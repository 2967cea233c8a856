// The two ends of the serial link put together: what the sender packs, a receiver set up for the
// protocol's own frames hands on.
module Link {
  import opened Checksum
  import opened Stream
  import opened Frame
  import opened LastByte
  import opened Receiver

  /**
   * Whatever bytes a fresh receiver is fed, one by one, it hands on the frames a scan of all of
   * them finds.
   */
  method Receive(bytes: seq<Byte>) returns (delivered: seq<seq<Byte>>)
    ensures delivered == Parse(ProtocolFormat(), bytes).frames
  {
    hide Parse;
    ProtocolLengths();
    var receiver := new RecvStream(ProtocolFormat(), _ => true);
    for k := 0 to |bytes|
      invariant receiver.Idle() && receiver.fed == bytes[..k] && receiver.format == ProtocolFormat()
      invariant fresh(receiver) && fresh(receiver.recvBuff)
    {
      var _ := receiver.ByteHandler(bytes[k]);
      assert bytes[..k] + [bytes[k]] == bytes[..k + 1];
    }
    assert bytes[..|bytes|] == bytes;
    delivered := receiver.delivered;
  }

  /**
   * A command packed for this device and fed byte by byte to a fresh receiver is handed on once,
   * unchanged, with its last byte and not before; fields and data are read back from it.
   */
  method Transfer(session: SessionId, seqNum: bv16, cmdSet: Byte, cmdId: Byte, data: seq<Byte>)
    returns (delivered: seq<seq<Byte>>, fedBefore: nat)
    requires |data| < 1006
    ensures var s := PackCommand(CommandHeader(session, DEVICE, seqNum, |data|), cmdSet, cmdId, data);
      delivered == [s] && fedBefore == |s| - 1
    ensures |delivered[0]| >= HEADER_LEN + CMD_SET_PREFIX_LEN + CRC_DATA_LEN
      && CmdSetOf(delivered[0]) == cmdSet && CmdIdOf(delivered[0]) == cmdId && CmdDataOf(delivered[0]) == data
      && SeqNumOf(delivered[0]) == seqNum
  {
    hide Parse, PackCommand, LengthOf, CmdSetOf, CmdIdOf, CmdDataOf, SeqNumOf;
    ProtocolLengths();
    var s := PackCommand(CommandHeader(session, DEVICE, seqNum, |data|), cmdSet, cmdId, data);
    PackedSize(session, seqNum, cmdSet, cmdId, data);
    var receiver := new RecvStream(ProtocolFormat(), _ => true);
    fedBefore := 0;
    for k := 0 to |s|
      invariant receiver.Idle() && receiver.fed == s[..k] && receiver.format == ProtocolFormat()
      invariant fresh(receiver) && fresh(receiver.recvBuff)
      invariant receiver.delivered == if k == |s| then [s] else []
      invariant k == |s| ==> fedBefore == |s| - 1
    {
      SentIsReceived(session, seqNum, cmdSet, cmdId, data, k + 1);
      var _ := receiver.ByteHandler(s[k]);
      assert s[..k] + [s[k]] == s[..k + 1];
      if receiver.delivered != [] {
        fedBefore := k;
      }
    }
    delivered := receiver.delivered;
    SentIsReceived(session, seqNum, cmdSet, cmdId, data, |s|);
  }

  function Last(frame: seq<Byte>): seq<Byte>
    requires |frame| > 0
  {
    [frame[|frame| - 1]]
  }

  ghost predicate AllFrames(frames: seq<seq<Byte>>) {
    forall k :: 0 <= k < |frames| ==> IsFrame(ProtocolFormat(), frames[k])
  }

  function Concat(frames: seq<seq<Byte>>): seq<Byte> {
    if frames == [] then [] else Concat(frames[..|frames| - 1]) + frames[|frames| - 1]
  }

  // Frames one behind the other, each but the first behind the last byte of the one before, again.
  function Refed(frames: seq<seq<Byte>>): seq<Byte>
    requires forall k :: 0 <= k < |frames| ==> |frames[k]| > 0
  {
    if |frames| <= 1 then Concat(frames)
    else Refed(frames[..|frames| - 1]) + Last(frames[|frames| - 2]) + frames[|frames| - 1]
  }

  // In front of each frame what is left of the one before, its last byte twice, is quiet.
  ghost predicate QuietBetween(frames: seq<seq<Byte>>) {
    && AllFrames(frames)
    && forall k :: 0 < k < |frames| ==>
      Quiet(ProtocolFormat(), Tail(frames[k - 1]) + Last(frames[k - 1]), frames[k])
  }

  lemma ConcatNext(frames: seq<seq<Byte>>, k: nat)
    requires k < |frames|
    ensures Concat(frames[..k + 1]) == Concat(frames[..k]) + frames[k]
  {
    assert frames[..k + 1][..k] == frames[..k];
  }

  lemma {:induction false} ConcatPrefix(frames: seq<seq<Byte>>, k: nat)
    requires k <= |frames|
    ensures Concat(frames[..k]) <= Concat(frames)
    decreases |frames|
  {
    assert frames[..|frames|] == frames;
    if k < |frames| {
      ConcatPrefix(frames[..|frames| - 1], k);
      assert frames[..|frames| - 1][..k] == frames[..k];
    }
  }

  lemma AllLong(frames: seq<seq<Byte>>)
    requires AllFrames(frames)
    ensures forall k :: 0 <= k < |frames| ==> |frames[k]| >= HEADER_LEN
  {}

  lemma RefedNext(frames: seq<seq<Byte>>, k: nat)
    requires k < |frames| && forall i :: 0 <= i < |frames| ==> |frames[i]| > 0
    ensures Refed(frames[..k + 1]) == Refed(frames[..k]) + Chunk(frames, k)
  {
    assert frames[..k + 1][..k] == frames[..k];
    if k == 0 { assert frames[..1] == [frames[0]] && Concat([frames[0]][..0]) == []; }
  }

  // The last byte in front of something and the thing itself.
  lemma Slice(all: seq<Byte>, front: seq<Byte>, frame: seq<Byte>)
    requires front + frame <= all && front != []
    ensures all[|front| - 1..|front| + |frame|] == [front[|front| - 1]] + frame
  {}

  // Of a buffer of frames, what one call takes up: the last byte used before, and one frame.
  function Chunk(frames: seq<seq<Byte>>, k: nat): seq<Byte>
    requires k < |frames| && forall i :: 0 <= i < |frames| ==> |frames[i]| > 0
  {
    (if k == 0 then [] else Last(frames[k - 1])) + frames[k]
  }

  function Left(frames: seq<seq<Byte>>, k: nat): seq<Byte>
    requires k <= |frames| && forall i :: 0 <= i < |frames| ==> |frames[i]| >= HEADER_LEN
  {
    if k == 0 then [] else Tail(frames[k - 1])
  }

  lemma NothingReceived(frames: seq<seq<Byte>>)
    requires AllFrames(frames)
    ensures frames[..0] == [] && Refed(frames[..0]) == []
    ensures (forall k :: 0 <= k < |frames| ==> |frames[k]| >= HEADER_LEN)
      && Parse(ProtocolFormat(), []) == Scan([], Left(frames, 0))
  {}

  // Where in the buffer it lies.
  lemma Stretch(frames: seq<seq<Byte>>, k: nat)
    requires k < |frames| && forall i :: 0 <= i < |frames| ==> |frames[i]| > 0
    ensures var b, e := |Concat(frames[..k])|, |Concat(frames[..k + 1])|;
      && e == b + |frames[k]| && e <= |Concat(frames)|
      && if k == 0 then b == 0 && Concat(frames)[..e] == Chunk(frames, k)
         else b > 0 && Concat(frames)[b - 1..e] == Chunk(frames, k)
  {
    hide Concat;
    ConcatNext(frames, k);
    ConcatPrefix(frames, k + 1);
    if k > 0 {
      ConcatNext(frames, k - 1);
      Slice(Concat(frames), Concat(frames[..k]), frames[k]);
    } else {
      NoFrames(frames);
    }
  }

  lemma NoFrames(frames: seq<seq<Byte>>)
    ensures Concat(frames[..0]) == []
  {}

  // The stretch a call takes up ends the stream in a frame, and no shorter one does.
  lemma ChunkEnds(f: Format, fed: seq<Byte>, frames: seq<seq<Byte>>, k: nat, j: nat)
    requires k < |frames| && (forall i :: 0 <= i < |frames| ==> |frames[i]| >= HEADER_LEN) && IsFrame(f, frames[k])
    requires Quiet(f, Left(frames, k) + Chunk(frames, k)[..|Chunk(frames, k)| - |frames[k]|], frames[k])
    requires Parse(f, fed) == Scan(frames[..k], Left(frames, k)) && 0 < j <= |Chunk(frames, k)|
    ensures EndsInFrame(f, fed + Chunk(frames, k)[..j]) <==> j == |Chunk(frames, k)|
    ensures Parse(f, fed + Chunk(frames, k)) == Scan(frames[..k + 1], Left(frames, k + 1))
  {
    hide EndsInFrame, Parse, IsFrame, Quiet;
    var left, chunk := Left(frames, k), Chunk(frames, k);
    var noise := left + chunk[..|chunk| - |frames[k]|];
    assert noise + frames[k] == left + chunk;
    assert (left + chunk)[..|left| + j] == left + chunk[..j];
    QuietFrame(f, noise, frames[k], |left| + j);
    EndsIncremental(f, fed, chunk[..j]);
    Incremental(f, fed, chunk);
  }

  /**
   * Frames the device has read into one buffer are received one a call, all of them and in order,
   * although each call begins with the last byte of the frame before, which is so fed twice.
   */
  method ReceiveInARow(frames: seq<seq<Byte>>)
    returns (received: seq<bool>, delivered: seq<seq<Byte>>, ghost fed: seq<Byte>)
    requires QuietBetween(frames) && |Concat(frames)| < BUFFER_SIZE
    ensures delivered == frames && |received| == |frames| && forall k :: 0 <= k < |frames| ==> received[k]
    ensures fed == Refed(frames)
  {
    hide Parse, EndsInFrame, Concat, Refed, IsFrame, Quiet, Left, Chunk;
    ProtocolLengths();
    NothingReceived(frames);
    var receiver := new RecvStream(ProtocolFormat(), _ => true);
    received := [];
    for k := 0 to |frames|
      invariant receiver.Idle() && Received(receiver, frames, k)
      invariant fresh(receiver) && fresh(receiver.recvBuff)
      invariant |received| == k && forall i :: 0 <= i < k ==> received[i]
    {
      var isFrame := ReceiveNext(receiver, frames, k);
      received := received + [isFrame];
    }
    delivered := receiver.delivered;
    fed := receiver.fed;
  }

  // The first k frames of a buffer have been received.
  ghost predicate Received(r: RecvStream, frames: seq<seq<Byte>>, k: nat)
    requires QuietBetween(frames) && k <= |frames|
    reads r
  {
    && r.format == ProtocolFormat() && (forall n :: r.answers(n))
    && r.delivered == frames[..k] && r.fed == Refed(frames[..k])
    && Parse(ProtocolFormat(), r.fed) == Scan(frames[..k], Left(frames, k))
    && if k == 0 then r.readPos == |r.readBuff| == 0
       else r.readBuff == Concat(frames) && r.readPos + 1 == |Concat(frames[..k])|
  }

  // Where the next call begins, and that its stretch of the buffer is the next frame's.
  lemma NextStretch(r: RecvStream, frames: seq<seq<Byte>>, k: nat)
    requires QuietBetween(frames) && k < |frames| && Received(r, frames, k)
    ensures r.NextBuff(Concat(frames)) == Concat(frames)
    ensures var start, end := r.NextPos(), |Concat(frames[..k + 1])|;
      start < end <= |Concat(frames)| && Concat(frames)[start..end] == Chunk(frames, k)
  {
    hide Parse, Concat, Refed, Left, Quiet;
    Stretch(frames, k);
  }

  lemma Part(all: seq<Byte>, start: nat, e: nat, end: nat)
    requires start <= e <= end <= |all|
    ensures all[start..e] == all[start..end][..e - start] && all[start..end][..end - start] == all[start..end]
  {}

  // The caller is told of a frame at the end of the stretch and not before.
  lemma ToldAtEnd(r: RecvStream, frames: seq<seq<Byte>>, k: nat, e: nat)
    requires QuietBetween(frames) && k < |frames| && Received(r, frames, k)
    requires r.NextPos() < e <= |Concat(frames[..k + 1])| <= |Concat(frames)|
    requires Concat(frames)[r.NextPos()..|Concat(frames[..k + 1])|] == Chunk(frames, k)
    ensures r.Told(r.fed + Concat(frames)[r.NextPos()..e]) <==> e == |Concat(frames[..k + 1])|
  {
    hide Parse, EndsInFrame, Concat, Refed, Quiet, IsFrame, Left, Chunk;
    AllLong(frames);
    var start, end := r.NextPos(), |Concat(frames[..k + 1])|;
    Part(Concat(frames), start, e, end);
    QuietInFront(frames, k);
    ChunkEnds(ProtocolFormat(), r.fed, frames, k, e - start);
  }

  lemma QuietInFront(frames: seq<seq<Byte>>, k: nat)
    requires QuietBetween(frames) && k < |frames|
    ensures |Chunk(frames, k)| >= |frames[k]|
    ensures Quiet(ProtocolFormat(), Left(frames, k) + Chunk(frames, k)[..|Chunk(frames, k)| - |frames[k]|], frames[k])
  {
    var front := Chunk(frames, k)[..|Chunk(frames, k)| - |frames[k]|];
    if k > 0 { assert front == Last(frames[k - 1]); } else { assert Left(frames, k) + front == []; }
  }

  method ReceiveNext(r: RecvStream, frames: seq<seq<Byte>>, k: nat) returns (isFrame: bool)
    requires QuietBetween(frames) && |Concat(frames)| < BUFFER_SIZE && k < |frames|
    requires r.Idle() && Received(r, frames, k)
    modifies r, r.recvBuff
    ensures r.Idle() && Received(r, frames, k + 1) && isFrame
  {
    hide Parse, EndsInFrame, Concat, Refed, Quiet, IsFrame, Left, Chunk, RecvStream.Told;
    ghost var fed, start, end := r.fed, r.NextPos(), |Concat(frames[..k + 1])|;
    AllLong(frames);
    NextStretch(r, frames, k);
    forall e | start < e <= end ensures r.Told(fed + Concat(frames)[start..e]) <==> e == end {
      ToldAtEnd(r, frames, k, e);
    }
    isFrame := r.Receive(Concat(frames));
    assert r.readPos + 1 == end;
    QuietInFront(frames, k);
    ChunkEnds(ProtocolFormat(), fed, frames, k, end - start);
    RefedNext(frames, k);
  }

  lemma PackedSize(session: SessionId, seqNum: bv16, cmdSet: Byte, cmdId: Byte, data: seq<Byte>)
    ensures |PackCommand(CommandHeader(session, DEVICE, seqNum, |data|), cmdSet, cmdId, data)|
         == HEADER_LEN + CMD_SET_PREFIX_LEN + |data| + CRC_DATA_LEN
  {
    CommandReadBack(CommandHeader(session, DEVICE, seqNum, |data|), cmdSet, cmdId, data);
  }
}
