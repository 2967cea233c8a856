// The session machine of the serial protocol as a value: command sessions waiting for an
// acknowledgement, stored acknowledgements, the packets both keep in the memory pool, and a
// log of everything sent and delivered.
module Sessions {
  import opened Options
  import opened Checksum
  import opened PoolSpec
  import opened Stream
  import opened Frame

  const RECEIVER_NUM: nat := 6

  datatype Mode = Session0 | Session1 | SessionAuto

  datatype CmdSession = CmdSession(
    used: bool, block: nat, cmdSet: Byte, cmdId: Byte, sent: nat, retryTime: nat, preSeqNum: Option<bv16>)

  datatype AckStatus = Idle | Process | Using

  datatype AckSession = AckSession(status: AckStatus, block: Option<nat>)

  type SessionIndex = i: nat | i < 32

  // A row of the acknowledgement table and a session from 1 to 31.
  datatype AckKey = AckKey(receiver: nat, session: SessionIndex)

  predicate ValidKey(key: AckKey) {
    key.receiver < RECEIVER_NUM && key.session > 0
  }

  /** What happens on the wire and at the interface to the application. */
  datatype Event =
    | SentOnce(frame: seq<Byte>)
    | Opened(session: SessionIndex, retryTime: nat, frame: seq<Byte>)
    | Sent(session: SessionIndex, frame: seq<Byte>)
    | Closed(session: SessionIndex)
    | AckReceived(session: SessionIndex, frame: seq<Byte>)
    | AckSent(key: AckKey, seqNum: bv16, frame: seq<Byte>)
    | AckResent(key: AckKey, seqNum: bv16, frame: seq<Byte>)
    | Message(frame: seq<Byte>)
    | Delivered(key: AckKey, seqNum: bv16, frame: seq<Byte>)

  datatype State = State(
    cmd: seq<CmdSession>, ack: map<AckKey, AckSession>, live: Live, limits: Limits, seqNum: bv16, log: seq<Event>)

  ghost predicate Shaped(s: State) {
    |s.cmd| == SESSION_TABLE_NUM && forall key :: ValidKey(key) <==> key in s.ack
  }

  // Every packet a step may look at is there.
  ghost predicate Stocked(s: State) {
    && Shaped(s)
    && (forall i: SessionIndex :: s.cmd[i].used ==> HasPacket(s.live, s.cmd[i].block))
    && (forall key :: key in s.ack && s.ack[key].status == Using ==>
          s.ack[key].block.Some? && HasPacket(s.live, s.ack[key].block.value))
  }

  predicate HasPacket(live: Live, block: nat) {
    block in live && |live[block]| >= HEADER_LEN
  }

  // ------------------------------------------------------------ steps

  // The lowest automatic session not in use.
  function FirstIdle(cmd: seq<CmdSession>, i: nat): (r: Option<SessionIndex>)
    requires |cmd| == SESSION_TABLE_NUM
    ensures r.Some? ==> i <= r.value && !cmd[r.value].used && forall k :: i <= k < r.value ==> cmd[k].used
    ensures r.None? ==> forall k :: i <= k < SESSION_TABLE_NUM ==> cmd[k].used
    decreases 32 - i
  {
    if i >= 32 then None else if !cmd[i].used then Some(i) else FirstIdle(cmd, i + 1)
  }

  function SessionFor(cmd: seq<CmdSession>, mode: Mode): (r: Option<SessionIndex>)
    requires |cmd| == SESSION_TABLE_NUM
    ensures r.Some? ==> !cmd[r.value].used
  {
    match mode
    case Session0 => if cmd[0].used then None else Some(0)
    case Session1 => if cmd[1].used then None else Some(1)
    case SessionAuto => FirstIdle(cmd, 2)
  }

  datatype Command = Command(cmdSet: Byte, cmdId: Byte, receiver: Byte, data: seq<Byte>)

  function CommandSize(c: Command): nat {
    HEADER_LEN + CMD_SET_PREFIX_LEN + |c.data| + CRC_DATA_LEN
  }

  function CommandFrame(c: Command, i: SessionIndex, seqNum: bv16): seq<Byte> {
    PackCommand(CommandHeader(i, c.receiver, seqNum, |c.data|), c.cmdSet, c.cmdId, c.data)
  }

  // Sequence numbers have sixteen bits and wrap around.
  function Succ(n: bv16): bv16 {
    n + 1
  }

  // A session that was used before does not use the same sequence number twice running.
  function NextSeqNum(s: State, i: SessionIndex): bv16
    requires |s.cmd| == SESSION_TABLE_NUM
  {
    if s.cmd[i].preSeqNum == Some(s.seqNum) then Succ(s.seqNum) else s.seqNum
  }

  // A command that wants no acknowledgement: its slot is given back as soon as it is sent.
  function SentAtOnce(s: State, c: Command, slot: nat): State
    requires |s.cmd| == SESSION_TABLE_NUM
  {
    s.(cmd := s.cmd[0 := s.cmd[0].(block := slot)],
       seqNum := Succ(s.seqNum),
       log := s.log + [SentOnce(CommandFrame(c, 0, s.seqNum))])
  }

  // A command sent for the first time, its packet kept for retransmission.
  function SentAndKept(s: State, i: SessionIndex, c: Command, slot: nat, retryTime: nat): State
    requires |s.cmd| == SESSION_TABLE_NUM
  {
    var seqNum := NextSeqNum(s, i);
    var frame := CommandFrame(c, i, seqNum);
    s.(cmd := s.cmd[i := CmdSession(true, slot, c.cmdSet, c.cmdId, 1, retryTime, Some(seqNum))],
       live := s.live[slot := frame],
       seqNum := Succ(seqNum),
       log := s.log + [Opened(i, retryTime, frame), Sent(i, frame)])
  }

  function SendCMD(s: State, mode: Mode, c: Command, retryTime: nat): (State, bool)
    requires |s.cmd| == SESSION_TABLE_NUM
  {
    var i := SessionFor(s.cmd, mode);
    if c.data == [] || i.None? then (s, false)
    else
      var slot := Chosen(s.live, CommandSize(c), s.limits);
      if slot.None? then (s, false)
      else if mode == Session0 then (SentAtOnce(s, c, slot.value), true)
      else (SentAndKept(s, i.value, c, slot.value, if mode == Session1 then 1 else retryTime), true)
  }

  function AckSize(data: seq<Byte>): nat {
    if data == [] then HEADER_LEN else HEADER_LEN + |data| + CRC_DATA_LEN
  }

  function AckFrame(key: AckKey, seqNum: bv16, data: seq<Byte>): seq<Byte>
    requires ValidKey(key)
  {
    PackAck(AckHeader(key.session, ByteOf(key.receiver), seqNum, |data|), data)
  }

  // The pool once the acknowledgement stored before has been given back.
  function Released(s: State, key: AckKey): Live
    requires key in s.ack
  {
    match s.ack[key].block
    case None => s.live
    case Some(b) => s.live - {b}
  }

  function SendACK(s: State, session: nat, seqNum: bv16, receiver: nat, data: seq<Byte>): (State, bool)
    requires receiver < RECEIVER_NUM && Shaped(s)
  {
    if session == 0 || session > 31 then (s, false)
    else
      var key := AckKey(receiver, session);
      assert ValidKey(key);
      var slot := Chosen(Released(s, key), AckSize(data), s.limits);
      if slot.None? then (s.(live := Released(s, key)), false)
      else
        var frame := AckFrame(key, seqNum, data);
        (s.(ack := s.ack[key := AckSession(Using, slot)],
            live := Released(s, key)[slot.value := frame],
            log := s.log + [AckSent(key, seqNum, frame)]), true)
  }

  // The bytes the device sends for a stored packet: as many as its header announces.
  function Announced(packet: seq<Byte>): seq<Byte> {
    if LengthOf(packet) <= |packet| then packet[..LengthOf(packet)] else packet
  }

  function CloseSession(s: State, i: SessionIndex, events: seq<Event>): State
    requires |s.cmd| == SESSION_TABLE_NUM
  {
    s.(cmd := s.cmd[i := s.cmd[i].(used := false)],
       live := s.live - {s.cmd[i].block},
       log := s.log + events + [Closed(i)])
  }

  // A session whose acknowledgement is overdue.
  function Timeout(s: State, i: SessionIndex): State
    requires Stocked(s)
  {
    var c := s.cmd[i];
    if !c.used then s
    else if c.retryTime > 0 && c.sent >= c.retryTime then CloseSession(s, i, [])
    else
      var again := s.(log := s.log + [Sent(i, Announced(s.live[c.block]))]);
      if c.retryTime > 0 then again.(cmd := s.cmd[i := c.(sent := c.sent + 1)]) else again
  }

  function KeyOf(frame: seq<Byte>): AckKey
    requires |frame| >= HEADER_LEN
  {
    AckKey(frame[5] as nat, SessionOf(frame))
  }

  // A frame handed on by the receiver; the flag says whether the application gets it.
  function Handle(s: State, frame: seq<Byte>): (State, bool)
    requires Stocked(s) && |frame| >= HEADER_LEN
    requires !IsAck(frame) && SessionOf(frame) > 0 ==> frame[5] as nat < RECEIVER_NUM
  {
    var i := SessionOf(frame);
    if IsAck(frame) then
      if i > 0 && s.cmd[i].used && SessionOf(s.live[s.cmd[i].block]) == i
      then (CloseSession(s, i, [AckReceived(i, frame)]), true)
      else (s, false)
    else if i == 0 then (s.(log := s.log + [Message(frame)]), true)
    else
      var key, seqNum := KeyOf(frame), SeqNumOf(frame);
      assert ValidKey(key);
      var a := s.ack[key];
      var delivered := s.log + [Delivered(key, seqNum, frame)];
      match a.status
      case Idle =>
        (s.(ack := if i > 1 then s.ack[key := a.(status := Process)] else s.ack, log := delivered), true)
      case Process => (s, false)
      case Using =>
        var stored := s.live[a.block.value];
        if SeqNumOf(stored) == seqNum
        then (s.(log := s.log + [AckResent(key, seqNum, Announced(stored))]), false)
        else (s.(ack := s.ack[key := a.(status := Process)], log := delivered), true)
  }
}
