// The frames of the serial protocol: the twelve-byte bit-packed header, commands and
// acknowledgements, and that what is packed is what is read back.
module Frame {
  import opened Checksum
  import opened Crc
  import opened Stream

  const CRC_HEAD_LEN: nat := 2
  const CRC_DATA_LEN: nat := 4
  const CMD_SET_PREFIX_LEN: nat := 2
  const SOF: Byte := 0xAA
  const VERSION: Byte := 0
  const DEVICE: Byte := 0
  const BROADCAST: Byte := 0xFF
  const SESSION_TABLE_NUM: nat := 32

  type SessionId = i: nat | i < 32

  // The fields of a header apart from the constant ones: start mark, version, reserved bits.
  datatype Header = Header(length: nat, session: SessionId, isAck: bool, sender: Byte, receiver: Byte, seqNum: bv16)

  // Fields as they are stored: of the length only ten bits.
  function Body(h: Header): (s: seq<Byte>)
    ensures |s| == HEADER_LEN - CRC_HEAD_LEN
  {
    [ SOF,
      ByteOf(h.length % 256),
      ByteOf(h.length / 256 % 4) | (VERSION << 2),
      SessionByte(h.session, h.isAck),
      h.sender,
      h.receiver,
      0, 0 ] + Le16(h.seqNum)
  }

  function Pack(h: Header): (s: seq<Byte>)
    ensures |s| == HEADER_LEN
  {
    Body(h) + Le16(Crc16(Body(h)))
  }

  function LengthOf(s: seq<Byte>): nat {
    if |s| < HEADER_LEN then 0 else (s[1] as nat) + 256 * ((s[2] & 3) as nat)
  }

  function VersionOf(s: seq<Byte>): Byte
    requires |s| >= HEADER_LEN
  {
    s[2] >> 2
  }

  function SessionOf(s: seq<Byte>): SessionId
    requires |s| >= HEADER_LEN
  {
    FiveBits(s[3]);
    (s[3] & 31) as nat
  }

  function IsAck(s: seq<Byte>): bool
    requires |s| >= HEADER_LEN
  {
    (s[3] >> 5) & 1 == 1
  }

  function Reserved0Of(s: seq<Byte>): Byte
    requires |s| >= HEADER_LEN
  {
    s[3] >> 6
  }

  function SeqNumOf(s: seq<Byte>): bv16
    requires |s| >= HEADER_LEN
  {
    Join16(s[8], s[9])
  }

  function Unpack(s: seq<Byte>): Header
    requires |s| >= HEADER_LEN
  {
    Header(LengthOf(s), SessionOf(s), IsAck(s), s[4], s[5], SeqNumOf(s))
  }

  lemma FiveBits(b: Byte)
    ensures (b & 31) as nat < SESSION_TABLE_NUM
  {}

  // The byte with a given value.
  function ByteOf(n: nat): (b: Byte)
    requires n < 256
    ensures b as nat == n
  {
    if n == 0 then 0 else ByteOf(n - 1) + 1
  }

  lemma Fits2(b: Byte)
    requires b as nat < 4
    ensures b & 3 == b && (b | (VERSION << 2)) & 3 == b && (b | (VERSION << 2)) >> 2 == VERSION
  {}

  function SessionByte(session: SessionId, isAck: bool): Byte
  {
    if isAck then ByteOf(session) | 0x20 else ByteOf(session)
  }

  lemma WithAck(b: Byte)
    requires b as nat < 32
    ensures (b | 0x20) & 31 == b && ((b | 0x20) >> 5) & 1 == 1 && (b | 0x20) >> 6 == 0
  {}

  lemma WithoutAck(b: Byte)
    requires b as nat < 32
    ensures b & 31 == b && (b >> 5) & 1 == 0 && b >> 6 == 0
  {}

  lemma SessionBits(session: SessionId, isAck: bool)
    ensures var b := SessionByte(session, isAck);
      (b & 31) as nat == session && ((b >> 5) & 1 == 1 <==> isAck) && b >> 6 == 0
  {
    if isAck { WithAck(ByteOf(session)); } else { WithoutAck(ByteOf(session)); }
  }

  lemma TenBits(n: nat)
    ensures n % 256 + 256 * (n / 256 % 4) == n % 1024
  {
    assert n == 1024 * (n / 1024) + n % 1024;
    assert n / 256 == 4 * (n / 1024) + (n % 1024) / 256;
  }

  lemma LengthField(h: Header, s: seq<Byte>)
    requires |s| >= HEADER_LEN && Body(h) <= s
    ensures LengthOf(s) == h.length % 1024 && VersionOf(s) == VERSION
  {
    Fits2(ByteOf(h.length / 256 % 4));
    TenBits(h.length);
    assert s[1] == Body(h)[1] && s[2] == Body(h)[2];
  }

  lemma ByteThree(h: Header, s: seq<Byte>)
    requires |s| >= HEADER_LEN && Body(h) <= s
    ensures s[3] == SessionByte(h.session, h.isAck)
  {
    assert s[3] == Body(h)[3];
  }

  lemma ReadByteThree(s: seq<Byte>, b: Byte, session: nat, isAck: bool)
    requires |s| >= HEADER_LEN && s[3] == b
    requires (b & 31) as nat == session && ((b >> 5) & 1 == 1 <==> isAck) && b >> 6 == 0
    ensures SessionOf(s) == session && IsAck(s) == isAck && Reserved0Of(s) == 0
  {}

  lemma SessionField(h: Header, s: seq<Byte>)
    requires |s| >= HEADER_LEN && Body(h) <= s
    ensures SessionOf(s) == h.session && IsAck(s) == h.isAck && Reserved0Of(s) == 0
  {
    ByteThree(h, s);
    SessionBits(h.session, h.isAck);
    ReadByteThree(s, SessionByte(h.session, h.isAck), h.session, h.isAck);
  }

  lemma SeqField(h: Header, s: seq<Byte>)
    requires |s| >= HEADER_LEN && Body(h) <= s
    ensures SeqNumOf(s) == h.seqNum
  {
    Whole16(h.seqNum);
    assert s[8] == Body(h)[8] && s[9] == Body(h)[9];
  }

  lemma ByteFields(h: Header, s: seq<Byte>)
    requires |s| >= HEADER_LEN && Body(h) <= s
    ensures s[0] == SOF && s[4] == h.sender && s[5] == h.receiver && s[6] == 0 && s[7] == 0
  {
    var b := Body(h);
    assert s[0] == b[0] && s[4] == b[4] && s[5] == b[5] && s[6] == b[6] && s[7] == b[7];
  }

  /** Reading the fields of a packed header gives them back, the length reduced to its ten bits. */
  lemma HeaderRoundTrip(h: Header, s: seq<Byte>)
    requires |s| >= HEADER_LEN && Body(h) <= s
    ensures Unpack(s) == h.(length := h.length % 1024)
    ensures VersionOf(s) == VERSION && Reserved0Of(s) == 0 && s[0] == SOF && s[6] == 0 && s[7] == 0
  {
    LengthField(h, s);
    SessionField(h, s);
    SeqField(h, s);
    ByteFields(h, s);
  }

  // What the receiver accepts as a header.
  predicate CheckHeader(s: seq<Byte>) {
    && |s| == HEADER_LEN
    && s[0] == SOF && VersionOf(s) == VERSION && LengthOf(s) < MAX_PACK_SIZE
    && Reserved0Of(s) == 0 && s[6] == 0 && s[7] == 0
    && (s[5] == DEVICE || s[5] == BROADCAST)
    && Crc16(s) == 0
  }

  predicate CheckFrame(s: seq<Byte>) {
    Crc32(s) == 0
  }

  function ProtocolFormat(): Format {
    Format(CheckHeader, LengthOf, CheckFrame)
  }

  lemma LengthBound(s: seq<Byte>)
    ensures LengthOf(s) < 1024
  {
    if |s| >= HEADER_LEN { TwoBits(s[2]); }
  }

  lemma TwoBits(b: Byte)
    ensures (b & 3) as nat < 4
  {}

  lemma ProtocolLengths()
    ensures TenBitLengths(ProtocolFormat())
  {
    forall s ensures ProtocolFormat().length(s) < 1024 { LengthBound(s); }
  }

  /** A packed header is accepted exactly when it is addressed to this device or to everyone. */
  lemma PackedHeaderAccepted(h: Header)
    ensures CheckHeader(Pack(h)) <==> h.receiver == DEVICE || h.receiver == BROADCAST
  {
    HeaderRoundTrip(h, Pack(h));
    LengthBound(Pack(h));
    Closed16(Body(h), Le16(Crc16(Body(h))));
  }

  lemma SameByte(a: Byte, b: Byte)
    requires a as nat == b as nat
    ensures a == b
  {}

  lemma LowBits(b: Byte)
    requires b >> 2 == VERSION
    ensures b & 3 == b && b | (VERSION << 2) == b
  {}

  lemma SessionBitsBack(b: Byte)
    requires b >> 6 == 0
    ensures if (b >> 5) & 1 == 1 then (b & 31) | 0x20 == b else b & 31 == b
  {}

  lemma ByteOfBack(b: Byte)
    ensures ByteOf(b as nat) == b
  {
    SameByte(ByteOf(b as nat), b);
  }

  // The fields read from an accepted header make up its first ten bytes.
  lemma FieldsMakeBody(s: seq<Byte>)
    requires |s| == HEADER_LEN && s[0] == SOF && VersionOf(s) == VERSION && Reserved0Of(s) == 0
    requires s[6] == 0 && s[7] == 0
    ensures Body(Unpack(s)) == s[..HEADER_LEN - CRC_HEAD_LEN]
  {
    hide ByteOf, LengthOf, SessionOf, IsAck, SeqNumOf, Le16, SessionByte, VersionOf, Reserved0Of;
    LengthBytes(s);
    SessionBack(s);
    SeqBack(s);
  }

  lemma SessionBack(s: seq<Byte>)
    requires |s| == HEADER_LEN && Reserved0Of(s) == 0
    ensures SessionByte(SessionOf(s), IsAck(s)) == s[3]
  {
    hide ByteOf;
    FiveBits(s[3]);
    SessionBitsBack(s[3]);
    ByteOfBack(s[3] & 31);
  }

  lemma SeqBack(s: seq<Byte>)
    requires |s| == HEADER_LEN
    ensures Le16(SeqNumOf(s)) == [s[8], s[9]]
  {
    Unpack16(s[8], s[9]);
  }

  lemma TenBitsBack(b: Byte, low: nat)
    requires b as nat < 4 && low < 256
    ensures (low + 256 * (b as nat)) % 256 == low && (low + 256 * (b as nat)) / 256 % 4 == b as nat
  {}

  lemma LengthBytes(s: seq<Byte>)
    requires |s| == HEADER_LEN && VersionOf(s) == VERSION
    ensures ByteOf(LengthOf(s) % 256) == s[1] && ByteOf(LengthOf(s) / 256 % 4) | (VERSION << 2) == s[2]
  {
    hide ByteOf;
    TwoBits(s[2]);
    LowBits(s[2]);
    ByteOfBack(s[1]);
    ByteOfBack(s[2]);
    TenBitsBack(s[2], s[1] as nat);
  }

  /**
   * Twelve bytes are accepted as a header if and only if they are one that is packed from the
   * fields read from them, for this device or for everyone.
   */
  lemma AcceptedIsPacked(s: seq<Byte>)
    requires |s| == HEADER_LEN
    ensures CheckHeader(s) <==> s == Pack(Unpack(s)) && (s[5] == DEVICE || s[5] == BROADCAST)
  {
    hide Body, Crc16, Le16, LengthOf, SessionOf, IsAck, SeqNumOf, VersionOf, Reserved0Of;
    var h, front, tail := Unpack(s), s[..HEADER_LEN - CRC_HEAD_LEN], s[HEADER_LEN - CRC_HEAD_LEN..];
    assert s == front + tail;
    Closed16(front, tail);
    if CheckHeader(s) {
      FieldsMakeBody(s);
    }
    if s == Pack(h) {
      PackedHeaderAccepted(h);
    }
  }

  function Seal(front: seq<Byte>): seq<Byte> {
    front + Le32(Crc32(front))
  }

  // The header of a command and its length in all.
  function CommandHeader(session: SessionId, receiver: Byte, seqNum: bv16, size: nat): Header {
    Header(HEADER_LEN + CMD_SET_PREFIX_LEN + size + CRC_DATA_LEN, session, false, DEVICE, receiver, seqNum)
  }

  function PackCommand(h: Header, cmdSet: Byte, cmdId: Byte, data: seq<Byte>): seq<Byte> {
    Seal(Pack(h) + [cmdId, cmdSet] + data)
  }

  // An acknowledgement without data is a bare header.
  function AckHeader(session: SessionId, receiver: Byte, seqNum: bv16, size: nat): Header {
    Header(if size == 0 then HEADER_LEN else HEADER_LEN + size + CRC_DATA_LEN, session, true, DEVICE, receiver, seqNum)
  }

  function PackAck(h: Header, data: seq<Byte>): seq<Byte> {
    if data == [] then Pack(h) else Seal(Pack(h) + data)
  }

  // What the receiver reads from a command.
  function CmdIdOf(frame: seq<Byte>): Byte
    requires |frame| >= HEADER_LEN + CMD_SET_PREFIX_LEN
  {
    frame[HEADER_LEN]
  }

  function CmdSetOf(frame: seq<Byte>): Byte
    requires |frame| >= HEADER_LEN + CMD_SET_PREFIX_LEN
  {
    frame[HEADER_LEN + 1]
  }

  function CmdDataOf(frame: seq<Byte>): seq<Byte>
    requires |frame| >= HEADER_LEN + CMD_SET_PREFIX_LEN + CRC_DATA_LEN
  {
    frame[HEADER_LEN + CMD_SET_PREFIX_LEN..|frame| - CRC_DATA_LEN]
  }

  function AckDataOf(frame: seq<Byte>): seq<Byte>
    requires |frame| >= HEADER_LEN + CRC_DATA_LEN
  {
    frame[HEADER_LEN..|frame| - CRC_DATA_LEN]
  }

  lemma SealHolds(front: seq<Byte>)
    ensures CheckFrame(Seal(front))
  {
    Closed32(front, Le32(Crc32(front)));
  }

  lemma PackedLength(h: Header)
    ensures LengthOf(Pack(h)) == h.length % 1024
  {
    LengthField(h, Pack(h));
  }

  lemma FrameOf(f: Format, head: seq<Byte>, s: seq<Byte>, local: bool, length: nat)
    requires |head| == HEADER_LEN && head <= s && |s| == length
    requires f.header(head) <==> local
    requires f.length(head) == length % 1024
    requires |s| == HEADER_LEN || f.intact(s)
    ensures IsFrame(f, s) <==> local && length < 1024
  {
    HeadDecides(f, head, s);
  }

  lemma UnpackHead(s: seq<Byte>)
    requires |s| >= HEADER_LEN
    ensures Unpack(s) == Unpack(s[..HEADER_LEN]) && LengthOf(s) == LengthOf(s[..HEADER_LEN])
  {}

  /**
   * More bytes than a header are a frame if and only if they are the packed header of the fields
   * read from them, for this device or for everyone, and a payload, sealed, as long as announced.
   */
  lemma FrameIsPacked(s: seq<Byte>)
    requires |s| >= HEADER_LEN + CRC_DATA_LEN
    ensures IsFrame(ProtocolFormat(), s) <==>
      && s == Seal(Pack(Unpack(s)) + s[HEADER_LEN..|s| - CRC_DATA_LEN])
      && (s[5] == DEVICE || s[5] == BROADCAST) && LengthOf(s) == |s|
  {
    hide Pack, Unpack, LengthOf, CheckHeader, Crc32, Le32, IsFrame;
    var head, front, tail := s[..HEADER_LEN], s[..|s| - CRC_DATA_LEN], s[|s| - CRC_DATA_LEN..];
    HeadDecides(ProtocolFormat(), head, s);
    UnpackHead(s);
    AcceptedIsPacked(head);
    assert s == front + tail && front == head + s[HEADER_LEN..|s| - CRC_DATA_LEN];
    Closed32(front, tail);
  }

  // A packed header in front of a payload, sealed.
  lemma SealedIsFrame(h: Header, payload: seq<Byte>)
    requires h.length == HEADER_LEN + |payload| + CRC_DATA_LEN
    ensures var s := Seal(Pack(h) + payload);
      |s| == h.length && Pack(h) <= s &&
      (IsFrame(ProtocolFormat(), s) <==> (h.receiver == DEVICE || h.receiver == BROADCAST) && h.length < 1024)
  {
    var s := Seal(Pack(h) + payload);
    PackedHeaderAccepted(h);
    PackedLength(h);
    SealHolds(Pack(h) + payload);
    FrameOf(ProtocolFormat(), Pack(h), s, h.receiver == DEVICE || h.receiver == BROADCAST, h.length);
  }

  lemma ReadCommand(head: seq<Byte>, cmdSet: Byte, cmdId: Byte, data: seq<Byte>, tail: seq<Byte>)
    requires |head| == HEADER_LEN && |tail| == CRC_DATA_LEN
    ensures var s := head + [cmdId, cmdSet] + data + tail;
      CmdSetOf(s) == cmdSet && CmdIdOf(s) == cmdId && CmdDataOf(s) == data
  {}

  lemma ReadAck(head: seq<Byte>, data: seq<Byte>, tail: seq<Byte>)
    requires |head| == HEADER_LEN && |tail| == CRC_DATA_LEN
    ensures AckDataOf(head + data + tail) == data
  {}

  lemma CommandPayload(h: Header, cmdSet: Byte, cmdId: Byte, data: seq<Byte>)
    ensures PackCommand(h, cmdSet, cmdId, data) == Seal(Pack(h) + ([cmdId, cmdSet] + data))
  {
    assert Pack(h) + [cmdId, cmdSet] + data == Pack(h) + ([cmdId, cmdSet] + data);
  }

  lemma CommandReadBack(h: Header, cmdSet: Byte, cmdId: Byte, data: seq<Byte>)
    ensures var s := PackCommand(h, cmdSet, cmdId, data);
      && |s| == HEADER_LEN + CMD_SET_PREFIX_LEN + |data| + CRC_DATA_LEN
      && CmdSetOf(s) == cmdSet && CmdIdOf(s) == cmdId && CmdDataOf(s) == data
  {
    ReadCommand(Pack(h), cmdSet, cmdId, data, Le32(Crc32(Pack(h) + [cmdId, cmdSet] + data)));
  }

  // The three things said about a sealed or bare frame, kept apart from its bytes.
  ghost predicate RoundTrips(h: Header, s: seq<Byte>) {
    && |s| == h.length
    && (IsFrame(ProtocolFormat(), s) <==> (h.receiver == DEVICE || h.receiver == BROADCAST) && h.length < 1024)
    && (h.length < 1024 ==> |s| >= HEADER_LEN && Unpack(s) == h)
  }

  lemma SameFields(a: Header, b: Header, h: Header)
    requires a == b && b == h.(length := h.length % 1024) && h.length < 1024
    ensures a == h
  {}

  lemma FieldsReadBack(h: Header, s: seq<Byte>)
    requires Pack(h) <= s && h.length < 1024
    ensures Unpack(s) == h
  {
    UnpackPrefix(h, s);
    SameFields(Unpack(s), h.(length := h.length % 1024), h);
  }

  lemma SealedRoundTrips(h: Header, payload: seq<Byte>)
    requires h.length == HEADER_LEN + |payload| + CRC_DATA_LEN
    ensures RoundTrips(h, Seal(Pack(h) + payload))
  {
    SealedIsFrame(h, payload);
    if h.length < 1024 {
      FieldsReadBack(h, Seal(Pack(h) + payload));
    }
  }

  /**
   * A command is a frame for the receiver exactly when it is addressed to it and at most 1023
   * bytes long, and the receiver then reads back every field and all of the data.
   */
  lemma CommandRoundTrip(h: Header, cmdSet: Byte, cmdId: Byte, data: seq<Byte>)
    requires h == CommandHeader(h.session, h.receiver, h.seqNum, |data|)
    ensures RoundTrips(h, PackCommand(h, cmdSet, cmdId, data))
    ensures CmdSetOf(PackCommand(h, cmdSet, cmdId, data)) == cmdSet
    ensures CmdIdOf(PackCommand(h, cmdSet, cmdId, data)) == cmdId
    ensures CmdDataOf(PackCommand(h, cmdSet, cmdId, data)) == data
  {
    CommandReadBack(h, cmdSet, cmdId, data);
    CommandPayload(h, cmdSet, cmdId, data);
    SealedRoundTrips(h, [cmdId, cmdSet] + data);
  }

  lemma AckReadBack(h: Header, data: seq<Byte>)
    requires data != []
    ensures var s := PackAck(h, data);
      |s| == HEADER_LEN + |data| + CRC_DATA_LEN && AckDataOf(s) == data
  {
    ReadAck(Pack(h), data, Le32(Crc32(Pack(h) + data)));
  }

  lemma BareRoundTrips(h: Header)
    requires h.length == HEADER_LEN
    ensures RoundTrips(h, Pack(h))
  {
    PackedLength(h);
    PackedHeaderAccepted(h);
    FrameOf(ProtocolFormat(), Pack(h), Pack(h), h.receiver == DEVICE || h.receiver == BROADCAST, h.length);
    FieldsReadBack(h, Pack(h));
  }

  /** The same for an acknowledgement; one without data is a bare header. */
  lemma AckRoundTrip(h: Header, data: seq<Byte>)
    requires h == AckHeader(h.session, h.receiver, h.seqNum, |data|)
    ensures RoundTrips(h, PackAck(h, data))
    ensures data != [] ==> AckDataOf(PackAck(h, data)) == data
  {
    if data != [] {
      AckReadBack(h, data);
      SealedRoundTrips(h, data);
    } else {
      BareRoundTrips(h);
    }
  }

  lemma UnpackPrefix(h: Header, s: seq<Byte>)
    requires Pack(h) <= s
    ensures Unpack(s) == h.(length := h.length % 1024)
  {
    assert Body(h) <= Pack(h) <= s;
    HeaderRoundTrip(h, s);
  }

  /**
   * Of a command for this device a scan finds nothing until its last byte is there, and then just
   * the command, which carries what was sent.
   */
  lemma SentIsReceived(session: SessionId, seqNum: bv16, cmdSet: Byte, cmdId: Byte, data: seq<Byte>, k: nat)
    requires |data| < 1006
    requires k <= HEADER_LEN + CMD_SET_PREFIX_LEN + |data| + CRC_DATA_LEN
    ensures var s := PackCommand(CommandHeader(session, DEVICE, seqNum, |data|), cmdSet, cmdId, data);
      && k <= |s|
      && Parse(ProtocolFormat(), s[..k]).frames == (if k == |s| then [s] else [])
      && CmdSetOf(s) == cmdSet && CmdIdOf(s) == cmdId && CmdDataOf(s) == data && SeqNumOf(s) == seqNum
  {
    var h := CommandHeader(session, DEVICE, seqNum, |data|);
    CommandRoundTrip(h, cmdSet, cmdId, data);
    var s := PackCommand(h, cmdSet, cmdId, data);
    assert Unpack(s).seqNum == seqNum;
    FoundAtLastByte(ProtocolFormat(), s, k);
  }

  /**
   * A header for this device that announces less than twelve bytes is accepted, and then no frame is found in the
   * 4085 bytes behind it, whatever they are.
   */
  lemma ShortHeaderBlinds(h: Header, t: seq<Byte>)
    requires h.length < HEADER_LEN && (h.receiver == DEVICE || h.receiver == BROADCAST)
    ensures |t| < 4085 ==> Parse(ProtocolFormat(), Pack(h) + t).frames == []
    ensures |t| >= 4085 ==> Parse(ProtocolFormat(), Pack(h) + t) == Parse(ProtocolFormat(), t[4085..])
  {
    hide Parse, Pack, CheckHeader, CheckFrame, LengthOf;
    PackedHeaderAccepted(h);
    PackedLength(h);
    ShortHeaderHides(ProtocolFormat(), Pack(h), t);
  }

  /** Damage to at most four consecutive bytes of an intact frame never leaves an intact frame. */
  lemma DamagedFrameRejected(s: seq<Byte>, t: seq<Byte>, k: nat)
    requires CheckFrame(s) && |t| == |s| && k + 4 <= |s|
    requires forall i :: 0 <= i < |s| && !(k <= i < k + 4) ==> s[i] == t[i]
    ensures CheckFrame(t) <==> t == s
  {
    Detects32(s, t, k);
  }

  /**
   * A frame damaged within four consecutive bytes behind its header is passed over, and the
   * frame behind it is found, as long as no header starts among its bytes by chance.
   */
  lemma DamagedFramePassed(s: seq<Byte>, damaged: seq<Byte>, k: nat, frame: seq<Byte>, t: seq<Byte>)
    requires IsFrame(ProtocolFormat(), s) && IsFrame(ProtocolFormat(), frame)
    requires |damaged| == |s| && damaged != s && HEADER_LEN <= k && k + 4 <= |s|
    requires forall i :: 0 <= i < |s| && !(k <= i < k + 4) ==> s[i] == damaged[i]
    requires forall i :: 1 <= i < |damaged| ==> !CheckHeader(Window(damaged + frame, i))
    ensures Parse(ProtocolFormat(), damaged + (frame + t)) == After([frame], Parse(ProtocolFormat(), Tail(frame) + t))
  {
    hide Parse, CheckFrame, CheckHeader, LengthOf;
    assert s[..|s|] == s;
    DamagedFrameRejected(s, damaged, k);
    assert damaged[..HEADER_LEN] == s[..HEADER_LEN];
    DamageIsPassed(ProtocolFormat(), damaged, frame, t);
  }

  /** Damage to at most two consecutive bytes of an accepted header never leaves an accepted header. */
  lemma DamagedHeaderRejected(s: seq<Byte>, t: seq<Byte>, k: nat)
    requires CheckHeader(s) && |t| == HEADER_LEN && k + 2 <= HEADER_LEN
    requires forall i :: 0 <= i < HEADER_LEN && !(k <= i < k + 2) ==> s[i] == t[i]
    ensures CheckHeader(t) <==> t == s
  {
    Detects16(s, t, k);
  }
}
