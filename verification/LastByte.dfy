// Frames that end with the last byte of a stream: the only ones a receiver tells its caller of.
module LastByte {
  import opened Checksum
  import opened Stream

  // Whether the scan of a stream hands on a frame that ends where the stream ends.
  predicate EndsInFrame(f: Format, s: seq<Byte>)
    decreases |s|
  {
    IsFrame(f, s) || (!Waiting(f, s) && EndsInFrame(f, s[Advance(f, s)..]))
  }

  lemma EndsIs(f: Format, s: seq<Byte>)
    ensures EndsInFrame(f, s) <==> IsFrame(f, s) || (!Waiting(f, s) && EndsInFrame(f, s[Advance(f, s)..]))
    ensures IsFrame(f, s) ==> !Waiting(f, s)
  {
    assert s[..|s|] == s;
  }

  // Only a stream nothing was decided about can be made a frame by one more byte.
  lemma DecidedIsNoFrame(f: Format, s: seq<Byte>, t: seq<Byte>)
    requires !Waiting(f, s) && t != []
    ensures !IsFrame(f, s + t) && !Waiting(f, s + t) && Advance(f, s + t) == Advance(f, s)
    ensures (s + t)[Advance(f, s)..] == s[Advance(f, s)..] + t
  {
    Decided(f, s, t);
    assert (s + t)[..HEADER_LEN] == s[..HEADER_LEN];
  }

  /** Once something is decided about its beginning, a longer stream ends as its remainder does. */
  lemma EndsLater(f: Format, s: seq<Byte>, t: seq<Byte>)
    requires !Waiting(f, s) && t != []
    ensures EndsInFrame(f, s + t) <==> EndsInFrame(f, s[Advance(f, s)..] + t)
  {
    hide EndsInFrame, IsFrame, Advance;
    DecidedIsNoFrame(f, s, t);
    EndsIs(f, s + t);
  }

  /** With the next byte a stream ends in a frame exactly when the bytes left over from it do. */
  lemma {:induction false} EndsIncremental(f: Format, s: seq<Byte>, t: seq<Byte>)
    requires t != []
    ensures EndsInFrame(f, s + t) <==> EndsInFrame(f, Parse(f, s).rest + t)
    decreases |s|
  {
    hide EndsInFrame, Parse, IsFrame;
    ParseIs(f, s);
    if !Waiting(f, s) {
      EndsLater(f, s, t);
      EndsIncremental(f, s[Advance(f, s)..], t);
    }
  }

  lemma TailWaits(f: Format, frame: seq<Byte>)
    requires |frame| >= HEADER_LEN
    ensures Parse(f, Tail(frame)) == Scan([], Tail(frame))
  {}

  lemma FrameAlone(f: Format, frame: seq<Byte>)
    requires IsFrame(f, frame)
    ensures Parse(f, frame) == Scan([frame], Tail(frame))
  {
    hide Parse, IsFrame;
    FrameLong(f, frame);
    assert frame + [] == frame && Tail(frame) + [] == Tail(frame);
    FrameFirst(f, frame, []);
    TailWaits(f, frame);
    assert [frame] + [] == [frame];
  }

  // The last frame of a scan and what the scan leaves over.
  ghost predicate LastFrame(s: seq<Byte>, scan: Scan) {
    && scan.frames != []
    && var frame := scan.frames[|scan.frames| - 1];
      && HEADER_LEN <= |frame| <= |s| && s[|s| - |frame|..] == frame && scan.rest == Tail(frame)
  }

  lemma {:induction false} EndsLast(f: Format, s: seq<Byte>)
    requires EndsInFrame(f, s)
    ensures LastFrame(s, Parse(f, s))
    decreases |s|
  {
    hide EndsInFrame, Parse, IsFrame, Waiting, Found, Advance;
    EndsIs(f, s);
    ParseIs(f, s);
    if IsFrame(f, s) {
      FrameAlone(f, s);
      FrameLong(f, s);
    } else {
      var t := s[Advance(f, s)..];
      EndsLast(f, t);
      LastFurtherOn(s, t, Advance(f, s), Found(f, s), Parse(f, t));
    }
  }

  lemma FrameLong(f: Format, frame: seq<Byte>)
    requires IsFrame(f, frame)
    ensures |frame| >= HEADER_LEN
  {}

  lemma LastFurtherOn(s: seq<Byte>, t: seq<Byte>, n: nat, found: seq<seq<Byte>>, scan: Scan)
    requires n <= |s| && t == s[n..] && LastFrame(t, scan)
    ensures LastFrame(s, After(found, scan))
  {
    var frames := found + scan.frames;
    assert frames[|frames| - 1] == scan.frames[|scan.frames| - 1];
  }

  /**
   * The frame a stream ends in is the last one of its scan and is made up of its last bytes;
   * without the last byte it is not found.
   */
  lemma EndsMeans(f: Format, s: seq<Byte>)
    requires EndsInFrame(f, s)
    ensures LastFrame(s, Parse(f, s)) && s != []
    ensures Parse(f, s[..|s| - 1]).frames < Parse(f, s).frames
  {
    hide EndsInFrame, Parse;
    EndsLast(f, s);
    var before, last := s[..|s| - 1], s[|s| - 1..];
    assert s == before + last;
    EndsIncremental(f, before, last);
    EndsLast(f, Parse(f, before).rest + last);
    Incremental(f, before, last);
  }

  // Without a frame found a stream does not end in one.
  lemma NoneFoundNoEnd(f: Format, s: seq<Byte>)
    requires Parse(f, s).frames == []
    ensures !EndsInFrame(f, s)
  {
    if EndsInFrame(f, s) { EndsLast(f, s); }
  }

  /** What follows a frame in a stream keeps the stream from ending in that frame. */
  lemma FrameNotLast(f: Format, frame: seq<Byte>, t: seq<Byte>)
    requires IsFrame(f, frame) && t != []
    ensures EndsInFrame(f, frame + t) <==> EndsInFrame(f, Tail(frame) + t)
  {
    hide EndsInFrame;
    assert frame[..|frame|] == frame;
    EndsLater(f, frame, t);
  }

  /** Behind quiet noise a stream ends in a frame if it ends in one without the noise. */
  lemma {:induction false} QuietEnds(f: Format, noise: seq<Byte>, frame: seq<Byte>, t: seq<Byte>)
    requires IsFrame(f, frame) && Quiet(f, noise, frame + t)
    ensures EndsInFrame(f, noise + (frame + t)) <==> EndsInFrame(f, frame + t)
    decreases |noise|
  {
    hide EndsInFrame, IsFrame, Rejected, Quiet;
    if noise == [] {
      assert noise + (frame + t) == frame + t;
    } else {
      var s := noise + (frame + t);
      QuietLater(f, noise, frame + t);
      RejectedCostsOneByte(f, s);
      RejectedIsNoFrame(f, s);
      EndsIs(f, s);
      assert s[1..] == noise[1..] + (frame + t);
      QuietEnds(f, noise[1..], frame, t);
    }
  }

  lemma RejectedIsNoFrame(f: Format, s: seq<Byte>)
    requires Rejected(f, s)
    ensures !IsFrame(f, s)
  {
    assert s[..|s|] == s;
  }

  // Nothing is found in a part of a stream in which nothing is found.
  lemma NoneSooner(f: Format, s: seq<Byte>, k: nat)
    requires k <= |s| && Parse(f, s).frames == []
    ensures Parse(f, s[..k]).frames == []
  {
    hide Parse;
    assert s == s[..k] + s[k..];
    Incremental(f, s[..k], s[k..]);
  }

  /** Behind quiet noise a stream ends in a frame when the last byte of it has come, and never before. */
  lemma QuietFrame(f: Format, noise: seq<Byte>, frame: seq<Byte>, k: nat)
    requires IsFrame(f, frame) && Quiet(f, noise, frame) && k <= |noise + frame|
    ensures Parse(f, noise + frame) == Scan([frame], Tail(frame))
    ensures EndsInFrame(f, (noise + frame)[..k]) <==> k == |noise + frame|
  {
    hide EndsInFrame, Parse, IsFrame, Quiet;
    FrameLong(f, frame);
    var s := noise + frame;
    assert frame + [] == frame && Tail(frame) + [] == Tail(frame) && [frame] + [] == [frame];
    Resynchronise(f, noise, frame, []);
    TailWaits(f, frame);
    QuietEnds(f, noise, frame, []);
    EndsIs(f, frame);
    assert s[..|s|] == s;
    if k < |s| {
      EndsMeans(f, s);
      NoneSooner(f, s[..|s| - 1], k);
      assert s[..|s| - 1][..k] == s[..k];
      NoneFoundNoEnd(f, s[..k]);
    }
  }

  /**
   * An intact frame inside a damaged one, with bytes behind it that make up no frame, is found with
   * the last byte of the damaged frame, but the stream does not end in it: the caller is not told.
   */
  lemma FoundUntold(f: Format, noise: seq<Byte>, frame: seq<Byte>, t: seq<Byte>)
    requires IsFrame(f, frame) && t != [] && Quiet(f, noise, frame + t) && Parse(f, Tail(frame) + t).frames == []
    requires var damaged := noise + (frame + t);
      |damaged| > HEADER_LEN && f.header(damaged[..HEADER_LEN]) && f.length(damaged[..HEADER_LEN]) == |damaged|
    ensures var damaged := noise + (frame + t);
      && Parse(f, damaged[..|damaged| - 1]).frames == []
      && Parse(f, damaged).frames == [frame] && !EndsInFrame(f, damaged)
  {
    hide EndsInFrame, Parse, IsFrame, Quiet;
    FrameLong(f, frame);
    Resynchronise(f, noise, frame, t);
    QuietEnds(f, noise, frame, t);
    FrameNotLast(f, frame, t);
    NoneFoundNoEnd(f, Tail(frame) + t);
    WholeWaits(f, noise + (frame + t));
  }

  // All but the last byte of what a header announces is undecided.
  lemma WholeWaits(f: Format, s: seq<Byte>)
    requires |s| > HEADER_LEN && f.header(s[..HEADER_LEN]) && f.length(s[..HEADER_LEN]) == |s|
    ensures Parse(f, s[..|s| - 1]) == Scan([], s[..|s| - 1])
  {
    assert s[..|s| - 1][..HEADER_LEN] == s[..HEADER_LEN];
  }
}
