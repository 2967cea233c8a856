// What a byte stream contains: the frames that a scanner restarting one byte later after
// every bad header and every bad checksum finds in it. The receiver is proved against this.
module Stream {
  import opened Checksum

  const HEADER_LEN: nat := 12
  const MAX_PACK_SIZE: nat := 4096

  /**
   * A frame format: which twelve bytes are a header, the frame length a header announces,
   * and which whole frames are intact.
   */
  datatype Format = Format(
    header: seq<Byte> -> bool,
    length: seq<Byte> -> nat,
    intact: seq<Byte> -> bool)

  // The length field has ten bits.
  ghost predicate TenBitLengths(f: Format) {
    forall h :: f.length(h) < 1024
  }

  datatype Scan = Scan(frames: seq<seq<Byte>>, rest: seq<Byte>)

  function After(frames: seq<seq<Byte>>, scan: Scan): Scan {
    Scan(frames + scan.frames, scan.rest)
  }

  // No decision about the first byte can be taken yet.
  predicate Waiting(f: Format, s: seq<Byte>) {
    || |s| < HEADER_LEN
    || (f.header(s[..HEADER_LEN]) &&
        if f.length(s[..HEADER_LEN]) < HEADER_LEN then |s| <= MAX_PACK_SIZE
        else |s| < f.length(s[..HEADER_LEN]))
  }

  predicate CompleteFrame(f: Format, s: seq<Byte>)
    requires |s| >= HEADER_LEN
  {
    var length := f.length(s[..HEADER_LEN]);
    HEADER_LEN <= length <= |s| && (length == HEADER_LEN || f.intact(s[..length]))
  }

  // The frame starting at the first byte, if there is one, ...
  function Found(f: Format, s: seq<Byte>): seq<seq<Byte>>
    requires !Waiting(f, s)
  {
    if f.header(s[..HEADER_LEN]) && CompleteFrame(f, s) then [s[..f.length(s[..HEADER_LEN])]] else []
  }

  /**
   * ... and how many bytes are then done with. After a frame its last eleven bytes are scanned
   * again; a header announcing less than itself blocks the scanner until its buffer overflows,
   * which loses one byte more than the buffer holds; anything else costs one byte.
   */
  function Advance(f: Format, s: seq<Byte>): (n: nat)
    requires !Waiting(f, s)
    ensures 0 < n <= |s|
  {
    var length := f.length(s[..HEADER_LEN]);
    if !f.header(s[..HEADER_LEN]) then 1
    else if length < HEADER_LEN then MAX_PACK_SIZE + 1
    else if CompleteFrame(f, s) then length - HEADER_LEN + 1
    else 1
  }

  /** All frames of a stream, and the bytes no decision was taken on. */
  function Parse(f: Format, s: seq<Byte>): Scan
    decreases |s|
  {
    if Waiting(f, s) then Scan([], s)
    else After(Found(f, s), Parse(f, s[Advance(f, s)..]))
  }

  // A decision once taken does not depend on what follows.
  lemma Decided(f: Format, s: seq<Byte>, t: seq<Byte>)
    requires !Waiting(f, s)
    ensures !Waiting(f, s + t) && Found(f, s + t) == Found(f, s) && Advance(f, s + t) == Advance(f, s)
  {
    assert (s + t)[..HEADER_LEN] == s[..HEADER_LEN];
    var length := f.length(s[..HEADER_LEN]);
    if HEADER_LEN <= length <= |s| {
      assert (s + t)[..length] == s[..length];
    }
  }

  lemma AfterAfter(a: seq<seq<Byte>>, b: seq<seq<Byte>>, scan: Scan)
    ensures After(a, After(b, scan)) == After(a + b, scan)
  {
    assert a + (b + scan.frames) == (a + b) + scan.frames;
  }

  /** Parsing in two instalments, keeping only the undecided bytes of the first, loses nothing. */
  lemma {:induction false} Incremental(f: Format, s: seq<Byte>, t: seq<Byte>)
    ensures Parse(f, s + t) == After(Parse(f, s).frames, Parse(f, Parse(f, s).rest + t))
    decreases |s|
  {
    if Waiting(f, s) {
      assert [] + Parse(f, s + t).frames == Parse(f, s + t).frames;
    } else {
      var n := Advance(f, s);
      Decided(f, s, t);
      assert (s + t)[n..] == s[n..] + t;
      Incremental(f, s[n..], t);
      var p := Parse(f, s[n..]);
      AfterAfter(Found(f, s), p.frames, Parse(f, p.rest + t));
    }
  }

  /** The bytes left over are themselves undecided, so nothing is found in them again. */
  lemma {:induction false} RestWaits(f: Format, s: seq<Byte>)
    ensures Waiting(f, Parse(f, s).rest)
    ensures |Parse(f, s).rest| <= |s|
    decreases |s|
  {
    if !Waiting(f, s) {
      RestWaits(f, s[Advance(f, s)..]);
    }
  }

  // A whole frame of the format and nothing else.
  predicate IsFrame(f: Format, s: seq<Byte>) {
    |s| >= HEADER_LEN && f.header(s[..HEADER_LEN]) && f.length(s[..HEADER_LEN]) == |s| && CompleteFrame(f, s)
  }

  lemma HeadDecides(f: Format, head: seq<Byte>, s: seq<Byte>)
    requires |head| == HEADER_LEN && head <= s
    ensures IsFrame(f, s) <==> f.header(head) && f.length(head) == |s| && (|s| == HEADER_LEN || f.intact(s))
  {
    assert s[..HEADER_LEN] == head && s[..|s|] == s;
  }

  // The bytes of a frame that are scanned again.
  function Tail(frame: seq<Byte>): (t: seq<Byte>)
    requires |frame| >= HEADER_LEN
    ensures |t| == HEADER_LEN - 1
  {
    frame[|frame| - HEADER_LEN + 1..]
  }

  // The twelve bytes starting at one place of a stream.
  function Window(s: seq<Byte>, i: nat): seq<Byte>
    requires i + HEADER_LEN <= |s|
  {
    s[i..i + HEADER_LEN]
  }

  // A stream beginning with a bad header, or with a whole frame that is not intact.
  predicate Rejected(f: Format, s: seq<Byte>) {
    && |s| >= HEADER_LEN
    && (f.header(s[..HEADER_LEN]) ==>
          var length := f.length(s[..HEADER_LEN]);
          HEADER_LEN < length <= |s| && !f.intact(s[..length]))
  }

  /** Of such a stream, and of no other, nothing is found in front and just the first byte is dropped. */
  lemma RejectedCostsOneByte(f: Format, s: seq<Byte>)
    ensures Rejected(f, s) <==> !Waiting(f, s) && Found(f, s) == [] && Advance(f, s) == 1
  {}

  // Noise in front of the rest of a stream: whatever starts in it is rejected.
  ghost predicate Quiet(f: Format, noise: seq<Byte>, rest: seq<Byte>) {
    forall i :: 0 <= i < |noise| ==> Rejected(f, (noise + rest)[i..])
  }

  // One particular kind of noise: no header starts in it, not even one running into the frame.
  lemma NoHeaderIsQuiet(f: Format, noise: seq<Byte>, frame: seq<Byte>, t: seq<Byte>)
    requires |frame| >= HEADER_LEN
    requires forall i :: 0 <= i < |noise| ==> !f.header(Window(noise + frame, i))
    ensures Quiet(f, noise, frame + t)
  {
    forall i | 0 <= i < |noise| ensures Rejected(f, (noise + (frame + t))[i..]) {
      assert (noise + (frame + t))[i..][..HEADER_LEN] == Window(noise + frame, i);
    }
  }

  lemma QuietLater(f: Format, noise: seq<Byte>, rest: seq<Byte>)
    requires noise != [] && Quiet(f, noise, rest)
    ensures Rejected(f, noise + rest) && Quiet(f, noise[1..], rest)
  {
    hide Rejected;
    assert (noise + rest)[0..] == noise + rest;
    forall i | 0 <= i < |noise| - 1 ensures Rejected(f, (noise[1..] + rest)[i..]) {
      assert (noise[1..] + rest)[i..] == (noise + rest)[i + 1..];
    }
  }

  lemma FrameFirst(f: Format, frame: seq<Byte>, t: seq<Byte>)
    requires IsFrame(f, frame)
    ensures Parse(f, frame + t) == After([frame], Parse(f, Tail(frame) + t))
  {
    var s := frame + t;
    assert s[..HEADER_LEN] == frame[..HEADER_LEN] && s[..|frame|] == frame && frame[..|frame|] == frame;
    assert s[Advance(f, s)..] == Tail(frame) + t;
  }

  /** A frame behind quiet noise is found, and only its last eleven bytes stay in play. */
  lemma {:induction false} Resynchronise(f: Format, noise: seq<Byte>, frame: seq<Byte>, t: seq<Byte>)
    requires IsFrame(f, frame) && Quiet(f, noise, frame + t)
    ensures Parse(f, noise + (frame + t)) == After([frame], Parse(f, Tail(frame) + t))
    decreases |noise|
  {
    hide Rejected, Quiet;
    if noise == [] {
      assert noise + (frame + t) == frame + t;
      FrameFirst(f, frame, t);
    } else {
      var s := noise + (frame + t);
      QuietLater(f, noise, frame + t);
      RejectedCostsOneByte(f, s);
      assert s[1..] == noise[1..] + (frame + t);
      Resynchronise(f, noise[1..], frame, t);
      AfterAfter([], [frame], Parse(f, Tail(frame) + t));
      assert [] + [frame] == [frame];
    }
  }

  /** A frame damaged behind its header costs nothing but itself: the intact frame behind it is found. */
  lemma DamageIsPassed(f: Format, damaged: seq<Byte>, frame: seq<Byte>, t: seq<Byte>)
    requires |damaged| > HEADER_LEN && f.length(damaged[..HEADER_LEN]) == |damaged| && !f.intact(damaged)
    requires IsFrame(f, frame)
    requires forall i :: 1 <= i < |damaged| ==> !f.header(Window(damaged + frame, i))
    ensures Parse(f, damaged + (frame + t)) == After([frame], Parse(f, Tail(frame) + t))
  {
    forall i | 0 <= i < |damaged| ensures Rejected(f, (damaged + (frame + t))[i..]) {
      var u := (damaged + (frame + t))[i..];
      if i == 0 {
        assert u[..HEADER_LEN] == damaged[..HEADER_LEN] && u[..|damaged|] == damaged;
      } else {
        assert u[..HEADER_LEN] == Window(damaged + frame, i);
      }
    }
    Resynchronise(f, damaged, frame, t);
  }

  datatype Segment = Segment(noise: seq<Byte>, frame: seq<Byte>)

  function Joined(segments: seq<Segment>): seq<Byte> {
    if segments == [] then [] else segments[0].noise + segments[0].frame + Joined(segments[1..])
  }

  function Frames(segments: seq<Segment>): seq<seq<Byte>> {
    if segments == [] then [] else [segments[0].frame] + Frames(segments[1..])
  }

  ghost predicate QuietSegments(f: Format, carry: seq<Byte>, segments: seq<Segment>)
    decreases |segments|
  {
    segments != [] ==>
      && IsFrame(f, segments[0].frame)
      && Quiet(f, carry + segments[0].noise, segments[0].frame + Joined(segments[1..]))
      && QuietSegments(f, Tail(segments[0].frame), segments[1..])
  }

  /**
   * Any number of frames, each behind noise in which (with the end of the frame before it) all
   * that starts is rejected, damaged frames included, is parsed into exactly these frames in order.
   */
  lemma {:induction false} FindsAllFrames(f: Format, carry: seq<Byte>, segments: seq<Segment>)
    requires QuietSegments(f, carry, segments) && |carry| < HEADER_LEN
    ensures Parse(f, carry + Joined(segments)).frames == Frames(segments)
    ensures |Parse(f, carry + Joined(segments)).rest| < HEADER_LEN
    decreases |segments|
  {
    if segments == [] {
      assert carry + Joined(segments) == carry;
    } else {
      var first, more := segments[0], segments[1..];
      assert carry + Joined(segments) == (carry + first.noise) + (first.frame + Joined(more));
      Resynchronise(f, carry + first.noise, first.frame, Joined(more));
      FindsAllFrames(f, Tail(first.frame), more);
    }
  }

  /**
   * A header announcing less than its own length hides whatever follows until the buffer has overflowed; the byte
   * that made it overflow is lost too.
   */
  lemma ShortHeaderHides(f: Format, head: seq<Byte>, t: seq<Byte>)
    requires |head| == HEADER_LEN && f.header(head) && f.length(head) < HEADER_LEN
    ensures var hidden := MAX_PACK_SIZE + 1 - HEADER_LEN;
      Parse(f, head + t) == if |t| < hidden then Scan([], head + t) else Parse(f, t[hidden..])
  {
    hide Parse;
    assert (head + t)[..HEADER_LEN] == head;
    var hidden := MAX_PACK_SIZE + 1 - HEADER_LEN;
    ParseIs(f, head + t);
    if |t| >= hidden {
      assert (head + t)[MAX_PACK_SIZE + 1..] == t[hidden..];
      assert [] + Parse(f, t[hidden..]).frames == Parse(f, t[hidden..]).frames;
    }
  }

  lemma ParseIs(f: Format, s: seq<Byte>)
    ensures Parse(f, s) == if Waiting(f, s) then Scan([], s) else After(Found(f, s), Parse(f, s[Advance(f, s)..]))
  {}

  /**
   * An accepted header is always decided about once as many bytes have arrived as it announces
   * exactly when it announces at least its own length.
   */
  lemma DecidedAtItsLength(f: Format, head: seq<Byte>)
    requires |head| == HEADER_LEN && f.header(head)
    ensures (forall t :: |head + t| >= f.length(head) ==> !Waiting(f, head + t)) <==> f.length(head) >= HEADER_LEN
  {
    forall t ensures (head + t)[..HEADER_LEN] == head {}
    assert head + [] == head;
    if f.length(head) < HEADER_LEN { assert Waiting(f, head + []); }
  }

  // A frame lies at one place of a stream.
  ghost predicate StandsAt(s: seq<Byte>, frame: seq<Byte>, p: nat) {
    p + |frame| <= |s| && s[p..p + |frame|] == frame
  }

  // Frames of the format at places of a stream, one behind the other from some place on, with
  // at most eleven bytes in common.
  ghost predicate StandInOrder(f: Format, s: seq<Byte>, frames: seq<seq<Byte>>, places: seq<nat>, start: nat) {
    && |places| == |frames|
    && (forall k :: 0 <= k < |places| ==>
          start <= places[k] && IsFrame(f, frames[k]) && StandsAt(s, frames[k], places[k]))
    && (forall k :: 0 < k < |places| ==> places[k] + HEADER_LEN - 1 >= places[k - 1] + |frames[k - 1]|)
  }

  function Moved(places: seq<nat>, n: nat): seq<nat> {
    seq(|places|, k requires 0 <= k < |places| => places[k] + n)
  }

  lemma StandFurtherOn(f: Format, s: seq<Byte>, frames: seq<seq<Byte>>, places: seq<nat>, n: nat)
    requires n <= |s| && StandInOrder(f, s[n..], frames, places, 0)
    ensures StandInOrder(f, s, frames, Moved(places, n), n)
  {
    hide IsFrame;
    forall k | 0 <= k < |places| ensures StandsAt(s, frames[k], places[k] + n) {
      var p, l := places[k], |frames[k]|;
      assert StandsAt(s[n..], frames[k], p);
      assert s[p + n..p + n + l] == s[n..][p..p + l];
    }
  }

  lemma OneInFront(f: Format, s: seq<Byte>, frame: seq<Byte>, frames: seq<seq<Byte>>, places: seq<nat>, start: nat)
    requires IsFrame(f, frame) && StandsAt(s, frame, 0) && start + HEADER_LEN - 1 >= |frame|
    requires StandInOrder(f, s, frames, places, start)
    ensures StandInOrder(f, s, [frame] + frames, [0] + places, 0)
  {
    hide IsFrame, StandsAt;
    var all, at := [frame] + frames, [0] + places;
    forall k | 0 <= k < |at| ensures IsFrame(f, all[k]) && StandsAt(s, all[k], at[k]) {
      if k > 0 { assert all[k] == frames[k - 1] && at[k] == places[k - 1]; }
    }
    forall k | 0 < k < |at| ensures at[k] + HEADER_LEN - 1 >= at[k - 1] + |all[k - 1]| {
      assert all[k - 1] == (if k == 1 then frame else frames[k - 2]);
      assert at[k] == places[k - 1] && at[k - 1] == (if k == 1 then 0 else places[k - 2]);
    }
  }

  /**
   * All that a scan hands on are frames of the format standing in the stream, one behind the
   * other and overlapping in at most eleven bytes.
   */
  lemma {:induction false} FramesStand(f: Format, s: seq<Byte>) returns (places: seq<nat>)
    ensures StandInOrder(f, s, Parse(f, s).frames, places, 0)
    decreases |s|
  {
    hide Parse, StandInOrder, Found, Advance, Moved, StandsAt;
    ParseIs(f, s);
    if Waiting(f, s) {
      places := [];
      NoneStand(f, s);
    } else {
      var n := Advance(f, s);
      var later := FramesStand(f, s[n..]);
      StandFurtherOn(f, s, Parse(f, s[n..]).frames, later, n);
      places := Moved(later, n);
      if Found(f, s) == [] {
        assert [] + Parse(f, s[n..]).frames == Parse(f, s[n..]).frames;
        StandSooner(f, s, Parse(f, s[n..]).frames, places, n);
      } else {
        FoundInFront(f, s);
        OneInFront(f, s, Found(f, s)[0], Parse(f, s[n..]).frames, places, n);
        assert [Found(f, s)[0]] == Found(f, s);
        places := [0] + places;
      }
    }
  }

  lemma NoneStand(f: Format, s: seq<Byte>)
    ensures StandInOrder(f, s, [], [], 0)
  {}

  lemma StandSooner(f: Format, s: seq<Byte>, frames: seq<seq<Byte>>, places: seq<nat>, start: nat)
    requires StandInOrder(f, s, frames, places, start)
    ensures StandInOrder(f, s, frames, places, 0)
  {
    hide IsFrame, StandsAt;
  }

  lemma FoundInFront(f: Format, s: seq<Byte>)
    requires !Waiting(f, s) && Found(f, s) != []
    ensures |Found(f, s)| == 1
    ensures var frame := Found(f, s)[0];
      IsFrame(f, frame) && StandsAt(s, frame, 0) && Advance(f, s) + HEADER_LEN - 1 == |frame|
  {
    var length := f.length(s[..HEADER_LEN]);
    assert s[..length][..HEADER_LEN] == s[..HEADER_LEN] && s[..length][..length] == s[..length];
  }

  /** A frame fed to an empty scanner is found at its last byte and not before. */
  lemma FoundAtLastByte(f: Format, frame: seq<Byte>, k: nat)
    requires IsFrame(f, frame) && k <= |frame|
    ensures Parse(f, frame[..k]).frames == if k == |frame| then [frame] else []
  {
    if k == |frame| {
      assert frame + [] == frame && frame[..k] == frame;
      FrameFirst(f, frame, []);
      assert Tail(frame) + [] == Tail(frame);
    } else if k >= HEADER_LEN {
      assert frame[..k][..HEADER_LEN] == frame[..HEADER_LEN];
    }
  }
}
