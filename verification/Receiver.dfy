// The receiving end of the serial protocol: a parser that works in place, with the bytes
// under inspection at the front of one buffer and bytes to inspect again at its back.
module Receiver {
  import opened Checksum
  import opened Stream
  import opened LastByte

  const BUFFER_SIZE: nat := 4096

  class RecvStream {
    const format: Format
    const recvBuff: array<Byte>
    // What the protocol answers when it is handed the n-th frame: whether the application gets it.
    const answers: nat -> bool
    var recvIndex: nat
    var reuseIndex: nat
    var reuseCount: nat
    // The bytes read from the device, and how many of them have been used up.
    var readBuff: seq<Byte>
    var readPos: nat
    // The frames handed on so far, and everything ever fed.
    var delivered: seq<seq<Byte>>
    ghost var fed: seq<Byte>

    // The two regions lie apart.
    ghost predicate Apart()
      reads this`recvIndex, this`reuseIndex
    {
      recvBuff.Length == MAX_PACK_SIZE && recvIndex <= reuseIndex <= MAX_PACK_SIZE
    }

    // The front region holds bytes nothing is decided about.
    ghost predicate Valid()
      reads this`recvIndex, this`reuseIndex, recvBuff
    {
      Apart() && Waiting(format, Head())
    }

    function Head(): seq<Byte>
      requires recvIndex <= recvBuff.Length
      reads this`recvIndex, recvBuff
    {
      recvBuff[..recvIndex]
    }

    function Pending(): seq<Byte>
      requires reuseIndex <= recvBuff.Length
      reads this`reuseIndex, recvBuff
    {
      recvBuff[reuseIndex..]
    }

    // What the frames delivered and the bytes in the two regions amount to.
    ghost function Outcome(): Scan
      requires Apart()
      reads this`recvIndex, this`reuseIndex, this`delivered, recvBuff
    {
      After(delivered, Parse(format, Head() + Pending()))
    }

    // Between two bytes of input nothing waits to be inspected again, and what was delivered
    // is what a scan of the whole input finds.
    ghost predicate Idle()
      reads this`recvIndex, this`reuseIndex, this`delivered, this`fed, recvBuff
    {
      Valid() && TenBitLengths(format) && Parse(format, fed) == Scan(delivered, Head())
    }

    // Whether both regions together end in a frame.
    ghost predicate Ending()
      requires Apart()
      reads this`recvIndex, this`reuseIndex, recvBuff
    {
      EndsInFrame(format, Head() + Pending())
    }

    // The caller is told of a frame the bytes end in, if the application gets it.
    predicate Told(bytes: seq<Byte>) {
      EndsInFrame(format, bytes) && |Parse(format, bytes).frames| > 0 && answers(|Parse(format, bytes).frames| - 1)
    }

    constructor (format: Format, answers: nat -> bool)
      requires TenBitLengths(format)
      ensures Idle() && fed == [] && delivered == [] && readBuff == [] && readPos == 0 && fresh(recvBuff)
      ensures this.format == format && this.answers == answers
    {
      this.format, this.answers := format, answers;
      readBuff, readPos := [], 0;
      recvBuff := new Byte[MAX_PACK_SIZE](_ => 0);
      recvIndex, reuseIndex, reuseCount := 0, MAX_PACK_SIZE, 0;
      delivered, fed := [], [];
    }

    /**
     * One byte of input. Afterwards the frames delivered since the start, and the bytes kept,
     * are those of a scan of everything fed since the start. The caller is told of a frame if and
     * only if it ends with this very byte and the application gets it.
     */
    method ByteHandler(byte: Byte) returns (isFrame: bool)
      requires Idle()
      modifies this`recvIndex, this`reuseIndex, this`reuseCount, this`delivered, this`fed, recvBuff
      ensures Idle() && fed == old(fed) + [byte]
      ensures old(delivered) <= delivered
      ensures isFrame <==> Told(fed)
      ensures reuseCount == 0
    {
      hide Parse, EndsInFrame;
      ghost var before, head := delivered, Head();
      reuseCount := 0;
      reuseIndex := MAX_PACK_SIZE;
      assert head + [byte] + Pending() == head + [byte];
      isFrame := StreamHandler(byte);
      ghost var last := before < delivered;
      if reuseCount != 0 {
        isFrame, last := InspectAgain(isFrame, last);
        reuseCount := 0;
      }
      assert Head() + Pending() == Head();
      OneMoreByte(format, fed, byte, before, head, delivered, Head());
      EndsIncremental(format, fed, [byte]);
      fed := fed + [byte];
    }

    // The bytes waiting at the back, one after the other; the flag is that of the last one.
    method InspectAgain(wasFrame: bool, ghost wasLast: bool) returns (isFrame: bool, ghost last: bool)
      requires Valid() && TenBitLengths(format)
      requires (wasLast ==> delivered != []) && (wasFrame <==> wasLast && answers(|delivered| - 1))
      modifies this`recvIndex, this`reuseIndex, this`reuseCount, this`delivered, recvBuff
      ensures Valid() && Pending() == [] && old(delivered) <= delivered && Outcome() == old(Outcome())
      ensures (last ==> delivered != []) && (isFrame <==> last && answers(|delivered| - 1))
      ensures last <==> if old(Pending()) == [] then wasLast else old(Ending())
    {
      hide Parse, EndsInFrame, Waiting;
      isFrame, last := wasFrame, wasLast;
      while reuseIndex < MAX_PACK_SIZE
        invariant Valid() && old(delivered) <= delivered && Outcome() == old(Outcome())
        invariant (last ==> delivered != []) && (isFrame <==> last && answers(|delivered| - 1))
        invariant (if Pending() == [] then last else Ending()) <==>
          if old(Pending()) == [] then wasLast else old(Ending())
        decreases recvIndex + |Pending()|, |Pending()|
      {
        ghost var h, p, d := Head(), Pending(), delivered;
        reuseIndex := reuseIndex + 1;
        assert Head() == h && Pending() == p[1..] && h + [p[0]] + p[1..] == h + p;
        isFrame := StreamHandler(recvBuff[reuseIndex - 1]);
        last := d < delivered;
      }
    }

    // The bytes the next call to Receive works on, and the first of them.
    function NextBuff(input: seq<Byte>): seq<Byte>
      reads this`readBuff, this`readPos
    {
      if readPos >= |readBuff| then input else readBuff
    }

    function NextPos(): nat
      reads this`readBuff, this`readPos
    {
      if readPos >= |readBuff| then 0 else readPos
    }

    /**
     * Feeds the bytes read before, or else those the device has now, up to the first with which
     * the caller is told of a frame. This byte is not used up: the next call feeds it once more.
     */
    method Receive(input: seq<Byte>) returns (isFrame: bool)
      requires Idle() && |input| < BUFFER_SIZE
      modifies this, recvBuff
      ensures Idle() && old(delivered) <= delivered
      ensures readBuff == old(NextBuff(input)) && old(NextPos()) <= readPos <= |readBuff|
      ensures isFrame <==> readPos < |readBuff|
      ensures isFrame ==> Told(fed) && fed == old(fed) + readBuff[old(NextPos())..readPos + 1]
      ensures !isFrame ==> fed == old(fed) + readBuff[old(NextPos())..]
      ensures forall e :: old(NextPos()) < e <= readPos ==> !Told(old(fed) + readBuff[old(NextPos())..e])
    {
      hide Parse, EndsInFrame, Waiting, Told;
      if readPos >= |readBuff| {
        readPos := 0;
        readBuff := input;
      }
      ghost var start := readPos;
      assert readBuff[start..start] == [];
      while readPos < |readBuff|
        invariant start <= readPos <= |readBuff| && readBuff == old(NextBuff(input))
        invariant Idle() && old(delivered) <= delivered && fed == old(fed) + readBuff[start..readPos]
        invariant forall e :: start < e <= readPos ==> !Told(old(fed) + readBuff[start..e])
      {
        isFrame := ByteHandler(readBuff[readPos]);
        assert readBuff[start..readPos] + [readBuff[readPos]] == readBuff[start..readPos + 1];
        if isFrame {
          return true;
        }
        readPos := readPos + 1;
      }
      assert readBuff[start..readPos] == readBuff[start..];
      return false;
    }

    /** One byte taken in: what it and the bytes still pending contain is kept, delivered or dropped. */
    method StreamHandler(byte: Byte) returns (isFrame: bool)
      requires Valid() && TenBitLengths(format) && (recvIndex < reuseIndex || recvIndex == MAX_PACK_SIZE)
      modifies this`recvIndex, this`reuseIndex, this`reuseCount, this`delivered, recvBuff
      ensures Valid() && fed == old(fed)
      ensures Handed(old(delivered), isFrame)
      ensures Outcome() == After(old(delivered), Parse(format, old(Head()) + [byte] + old(Pending())))
      ensures EndsInFrame(format, old(Head()) + [byte] + old(Pending())) <==>
        if Pending() == [] then old(delivered) < delivered else Ending()
      ensures recvIndex + |Pending()| <= old(recvIndex) + 1 + |old(Pending())|
      ensures recvIndex + |Pending()| == old(recvIndex) + 1 + |old(Pending())| ==> Pending() == old(Pending())
      ensures reuseCount == old(reuseCount) ==> Pending() == old(Pending())
      ensures old(reuseCount) <= reuseCount
    {
      hide Parse, EndsInFrame;
      if recvIndex < MAX_PACK_SIZE {
        recvBuff[recvIndex] := byte;
        recvIndex := recvIndex + 1;
        assert Head() == old(Head()) + [byte];
        assert Pending() == old(Pending());
        isFrame := CheckStream();
      } else {
        OverflowParse(format, old(Head()), byte, old(Pending()));
        OverflowEnds(format, old(Head()), byte, old(Pending()));
        forall i | 0 <= i < recvIndex { recvBuff[i] := 0; }
        recvIndex := 0;
        assert Pending() == old(Pending());
        assert Head() + Pending() == Pending();
        isFrame := CheckStream();
      }
    }

    // The front region holds undecided bytes and one more.
    method CheckStream() returns (isFrame: bool)
      requires Apart() && (recvIndex > 0 ==> Waiting(format, Head()[..recvIndex - 1]))
      modifies this`recvIndex, this`reuseIndex, this`reuseCount, this`delivered, recvBuff
      ensures Valid() && fed == old(fed)
      ensures Handed(old(delivered), isFrame) && Outcome() == old(Outcome())
      ensures old(Ending()) <==> if Pending() == [] then old(delivered) < delivered else Ending()
      ensures recvIndex + |Pending()| <= old(recvIndex) + |old(Pending())|
      ensures recvIndex + |Pending()| == old(recvIndex) + |old(Pending())| ==> Pending() == old(Pending())
      ensures reuseCount == old(reuseCount) ==> Pending() == old(Pending())
      ensures old(reuseCount) <= reuseCount
    {
      hide Parse, EndsInFrame;
      isFrame := false;
      if recvIndex < HEADER_LEN {
        WaitingNoEnd(format, Head(), Pending());
        return false;
      } else if recvIndex == HEADER_LEN {
        isFrame := VerifyHeader();
      } else if recvIndex == format.length(recvBuff[..HEADER_LEN]) {
        assert Head()[..HEADER_LEN] == Head()[..recvIndex - 1][..HEADER_LEN] == recvBuff[..HEADER_LEN];
        isFrame := VerifyData();
      } else {
        assert Head()[..HEADER_LEN] == Head()[..recvIndex - 1][..HEADER_LEN] == recvBuff[..HEADER_LEN];
        WaitingNoEnd(format, Head(), Pending());
      }
    }

    // The front region is one header long.
    method VerifyHeader() returns (isFrame: bool)
      requires Apart() && recvIndex == HEADER_LEN
      modifies this`recvIndex, this`reuseIndex, this`reuseCount, this`delivered, recvBuff
      ensures Valid() && fed == old(fed)
      ensures Handed(old(delivered), isFrame) && Outcome() == old(Outcome())
      ensures old(Ending()) <==> if Pending() == [] then old(delivered) < delivered else Ending()
      ensures recvIndex <= old(recvIndex) && Pending() == old(Pending()) && reuseCount == old(reuseCount)
    {
      hide Parse, EndsInFrame;
      ghost var h, p := Head(), Pending();
      assert recvBuff[..HEADER_LEN] == h && h[..HEADER_LEN] == h;
      isFrame := false;
      if format.header(recvBuff[..HEADER_LEN]) {
        if format.length(recvBuff[..HEADER_LEN]) == HEADER_LEN {
          isFrame := Accept();
        } else {
          assert Waiting(format, Head());
          WaitingNoEnd(format, Head(), Pending());
        }
      } else {
        BadParse(format, h, p);
        ShiftStream();
        assert h[1..HEADER_LEN] == h[1..] && h[HEADER_LEN..] + p == p;
        BadEnds(format, h, p);
        WaitingNoEnd(format, Head(), Pending());
      }
    }

    // The front region is a frame: hand it on and keep its last bytes.
    method Accept() returns (isFrame: bool)
      requires Apart() && recvIndex >= HEADER_LEN && IsFrame(format, Head())
      modifies this`recvIndex, this`reuseIndex, this`reuseCount, this`delivered, recvBuff
      ensures Valid() && fed == old(fed) && (isFrame <==> answers(|old(delivered)|))
      ensures delivered == old(delivered) + [old(Head())] && recvIndex < old(recvIndex)
      ensures Outcome() == old(Outcome()) && (old(Ending()) <==> Pending() == [] || Ending())
      ensures Pending() == old(Pending()) && reuseCount == old(reuseCount)
    {
      hide Parse, EndsInFrame, IsFrame;
      FrameParse(format, delivered, Head(), Pending());
      FrameEnds(format, Head(), Pending());
      isFrame := ContainerHandler(recvIndex);
      PrepareStream();
    }

    method VerifyData() returns (isFrame: bool)
      requires Apart() && recvIndex > HEADER_LEN
      requires format.header(Head()[..HEADER_LEN]) && format.length(Head()[..HEADER_LEN]) == recvIndex
      modifies this`recvIndex, this`reuseIndex, this`reuseCount, this`delivered, recvBuff
      ensures Valid() && fed == old(fed)
      ensures Handed(old(delivered), isFrame) && Outcome() == old(Outcome())
      ensures old(Ending()) <==> if Pending() == [] then old(delivered) < delivered else Ending()
      ensures recvIndex + |Pending()| < old(recvIndex) + |old(Pending())|
      ensures reuseCount == old(reuseCount) ==> Pending() == old(Pending())
      ensures old(reuseCount) <= reuseCount
    {
      hide Parse, EndsInFrame;
      ghost var h, p := Head(), Pending();
      assert h == recvBuff[..recvIndex] && h[..|h|] == h;
      isFrame := false;
      if format.intact(recvBuff[..recvIndex]) {
        isFrame := Accept();
      } else {
        BadParse(format, h, p);
        BadEnds(format, h, p);
        ReuseStream();
      }
    }

    // At most one frame has been handed on; the flag is the protocol's answer to it.
    predicate Handed(before: seq<seq<Byte>>, isFrame: bool)
      reads this`delivered
    {
      && before <= delivered && |delivered| <= |before| + 1
      && (isFrame <==> before < delivered && answers(|before|))
    }

    // Handing a frame on; what the protocol then does with it is the session machine's business.
    method ContainerHandler(length: nat) returns (isFrame: bool)
      requires length <= recvBuff.Length
      modifies this`delivered
      ensures delivered == old(delivered) + [recvBuff[..length]] && isFrame == answers(|old(delivered)|)
    {
      isFrame := answers(|delivered|);
      delivered := delivered + [recvBuff[..length]];
    }

    // Keep the last bytes of a frame, one too few for a header.
    method PrepareStream()
      requires Apart() && recvIndex >= HEADER_LEN
      modifies this`recvIndex, recvBuff
      ensures Apart() && Head() == old(Head())[old(recvIndex) - (HEADER_LEN - 1)..]
      ensures Pending() == old(Pending())
    {
      var bytesToMove := HEADER_LEN - 1;
      var indexOfMove := recvIndex - bytesToMove;
      forall i | 0 <= i < bytesToMove { recvBuff[i] := recvBuff[indexOfMove + i]; }
      forall i | bytesToMove <= i < recvIndex { recvBuff[i] := 0; }
      assert recvBuff[..bytesToMove] == old(Head())[indexOfMove..];
      recvIndex := bytesToMove;
    }

    // Drop the oldest byte.
    method ShiftStream()
      requires Apart()
      modifies this`recvIndex, recvBuff
      ensures Apart() && Head() == if old(recvIndex) == 0 then [] else old(Head())[1..]
      ensures Pending() == old(Pending())
    {
      if recvIndex != 0 {
        recvIndex := recvIndex - 1;
        if recvIndex != 0 {
          forall i | 0 <= i < recvIndex { recvBuff[i] := recvBuff[i + 1]; }
        }
      }
    }

    // Drop the oldest byte of a damaged frame, keep the rest of its header at the front, and put
    // everything behind the header in front of the bytes already waiting at the back.
    method ReuseStream()
      requires Apart() && HEADER_LEN <= recvIndex
      modifies this`recvIndex, this`reuseIndex, this`reuseCount, recvBuff
      ensures Apart() && Head() == old(Head())[1..HEADER_LEN]
      ensures Pending() == old(Head())[HEADER_LEN..] + old(Pending())
      ensures reuseCount == old(reuseCount) + 1
    {
      var bytesToMove := recvIndex - HEADER_LEN;
      var destIndex := reuseIndex - bytesToMove;
      forall i | 0 <= i < bytesToMove { recvBuff[destIndex + i] := recvBuff[HEADER_LEN + i]; }
      assert recvBuff[destIndex..] == old(Head())[HEADER_LEN..] + old(Pending());
      recvIndex := HEADER_LEN;
      assert Head() == old(Head())[..HEADER_LEN];
      reuseIndex := destIndex;
      ShiftStream();
      reuseCount := reuseCount + 1;
    }
  }

  lemma ParseFromDecided(f: Format, h: seq<Byte>, p: seq<Byte>)
    requires !Waiting(f, h)
    ensures Parse(f, h + p) == After(Found(f, h), Parse(f, h[Advance(f, h)..] + p))
  {
    Decided(f, h, p);
    assert (h + p)[Advance(f, h)..] == h[Advance(f, h)..] + p;
  }

  // The front region is one whole frame.
  lemma FrameParse(f: Format, d: seq<seq<Byte>>, h: seq<Byte>, p: seq<Byte>)
    requires IsFrame(f, h)
    ensures After(d, Parse(f, h + p)) == After(d + [h], Parse(f, Tail(h) + p))
  {
    hide Parse;
    assert h[..|h|] == h;
    ParseFromDecided(f, h, p);
    AfterAfter(d, [h], Parse(f, Tail(h) + p));
  }

  lemma NothingBefore(scan: Scan)
    ensures After([], scan) == scan
  {
    assert [] + scan.frames == scan.frames;
  }

  // The front region is a bad header, or a frame that is not intact.
  lemma BadParse(f: Format, h: seq<Byte>, p: seq<Byte>)
    requires |h| >= HEADER_LEN
    requires if |h| == HEADER_LEN then !f.header(h)
      else f.header(h[..HEADER_LEN]) && f.length(h[..HEADER_LEN]) == |h| && !f.intact(h)
    ensures Parse(f, h + p) == Parse(f, h[1..HEADER_LEN] + (h[HEADER_LEN..] + p))
  {
    hide Parse;
    assert !Waiting(f, h) && Found(f, h) == [] && Advance(f, h) == 1 by {
      assert h[..|h|] == h;
    }
    ParseFromDecided(f, h, p);
    assert h[1..HEADER_LEN] + (h[HEADER_LEN..] + p) == h[1..] + p;
    NothingBefore(Parse(f, h[1..] + p));
  }

  lemma OneMoreByte(f: Format, fed: seq<Byte>, byte: Byte, d0: seq<seq<Byte>>, h0: seq<Byte>, d1: seq<seq<Byte>>,
      h1: seq<Byte>)
    requires Parse(f, fed) == Scan(d0, h0) && Waiting(f, h1)
    requires After(d0, Parse(f, h0 + [byte])) == After(d1, Parse(f, h1))
    ensures Parse(f, fed + [byte]) == Scan(d1, h1)
  {
    Incremental(f, fed, [byte]);
    assert d1 + [] == d1;
  }

  // Bytes nothing is decided about, with no more behind them, do not end in a frame.
  lemma WaitingNoEnd(f: Format, h: seq<Byte>, p: seq<Byte>)
    requires Waiting(f, h)
    ensures p == [] ==> !EndsInFrame(f, h + p)
  {
    EndsIs(f, h);
    assert h + [] == h;
  }

  lemma FrameEnds(f: Format, h: seq<Byte>, p: seq<Byte>)
    requires IsFrame(f, h)
    ensures EndsInFrame(f, h + p) <==> p == [] || EndsInFrame(f, Tail(h) + p)
  {
    if p == [] { assert h + p == h; } else { FrameNotLast(f, h, p); }
  }

  lemma BadEnds(f: Format, h: seq<Byte>, p: seq<Byte>)
    requires |h| >= HEADER_LEN
    requires if |h| == HEADER_LEN then !f.header(h)
      else f.header(h[..HEADER_LEN]) && f.length(h[..HEADER_LEN]) == |h| && !f.intact(h)
    ensures EndsInFrame(f, h + p) <==> EndsInFrame(f, h[1..HEADER_LEN] + (h[HEADER_LEN..] + p))
  {
    hide EndsInFrame;
    var s := h + p;
    assert s[..HEADER_LEN] == h[..HEADER_LEN] && s[..|h|] == h && h[..|h|] == h;
    assert s[1..] == h[1..HEADER_LEN] + (h[HEADER_LEN..] + p);
    RejectedIsNoFrame(f, s);
    RejectedCostsOneByte(f, s);
    EndsIs(f, s);
  }

  lemma OverflowEnds(f: Format, h: seq<Byte>, byte: Byte, p: seq<Byte>)
    requires TenBitLengths(f) && |h| == MAX_PACK_SIZE && Waiting(f, h)
    ensures EndsInFrame(f, h + [byte] + p) <==> EndsInFrame(f, p)
  {
    hide EndsInFrame;
    var s := h + [byte] + p;
    assert s[..HEADER_LEN] == h[..HEADER_LEN];
    assert s[MAX_PACK_SIZE + 1..] == p;
    EndsIs(f, s);
  }

  // A front region filling the whole buffer is stuck behind a header that announces too little.
  lemma OverflowParse(f: Format, h: seq<Byte>, byte: Byte, p: seq<Byte>)
    requires TenBitLengths(f) && |h| == MAX_PACK_SIZE && Waiting(f, h)
    ensures Parse(f, h + [byte] + p) == Parse(f, p)
  {
    var s := h + [byte] + p;
    assert s[..HEADER_LEN] == h[..HEADER_LEN];
    assert s[MAX_PACK_SIZE + 1..] == p;
    assert [] + Parse(f, p).frames == Parse(f, p).frames;
  }
}
