// The protocol object: session tables, sequence number and memory pool, changed in place by
// senders, the retry loop and the receiver, each as one step under the pool's lock.
module ProtocolObject {
  import opened Options
  import opened Checksum
  import opened Crc
  import opened PoolSpec
  import opened PoolLayout
  import opened Memory
  import opened Stream
  import opened Frame
  import opened Sessions
  import opened SessionLog
  import opened SessionInvariant
  import opened SessionRuns
  import opened SessionEffects

  // Writing behind a prefix already written extends the prefix.
  lemma OverwriteExtends(content: seq<Byte>, done: seq<Byte>, data: seq<Byte>)
    requires done <= content && |done| + |data| <= |content|
    ensures done + data <= Overwrite(content, |done|, data)
  {}

  /** What the application is given of a received frame. */
  datatype Container = Container(header: Header, needAck: bool, cmdSet: Byte, cmdId: Byte, data: seq<Byte>)

  // A frame that carries its fixed fields; of a shorter one the source copies a negative length.
  predicate LongEnough(frame: seq<Byte>)
    requires |frame| >= HEADER_LEN
  {
    |frame| >= HEADER_LEN + CRC_DATA_LEN + (if IsAck(frame) then 0 else CMD_SET_PREFIX_LEN)
  }

  // An acknowledgement is filed under the command it answers.
  function ContainerOf(cmd: seq<CmdSession>, frame: seq<Byte>): Container
    requires |cmd| == SESSION_TABLE_NUM && |frame| >= HEADER_LEN && LongEnough(frame)
  {
    var i := SessionOf(frame);
    if IsAck(frame) then Container(Unpack(frame), true, cmd[i].cmdSet, cmd[i].cmdId, AckDataOf(frame))
    else Container(Unpack(frame), i > 0, CmdSetOf(frame), CmdIdOf(frame), CmdDataOf(frame))
  }

  // What the application gets of a frame that is for it.
  function Handed(cmd: seq<CmdSession>, frame: seq<Byte>): Option<Container>
    requires |cmd| == SESSION_TABLE_NUM && |frame| >= HEADER_LEN
  {
    if LongEnough(frame) then Some(ContainerOf(cmd, frame)) else None
  }

  /**
   * Every command that is packed carries its fixed fields, and of the acknowledgements exactly
   * those with data: a bare one is a frame for the receiver, and too short for what it reads.
   */
  lemma PackedLongEnough(h: Header, cmdSet: Byte, cmdId: Byte, data: seq<Byte>)
    requires h.receiver == DEVICE || h.receiver == BROADCAST
    ensures h == CommandHeader(h.session, h.receiver, h.seqNum, |data|) && h.length < 1024 ==>
      var s := PackCommand(h, cmdSet, cmdId, data);
      IsFrame(ProtocolFormat(), s) && LongEnough(s)
    ensures h == AckHeader(h.session, h.receiver, h.seqNum, |data|) && h.length < 1024 ==>
      var s := PackAck(h, data);
      IsFrame(ProtocolFormat(), s) && (LongEnough(s) <==> data != [])
  {
    hide PackCommand, PackAck, IsFrame, IsAck, SessionOf, SeqNumOf, LengthOf;
    if h == CommandHeader(h.session, h.receiver, h.seqNum, |data|) && h.length < 1024 {
      CommandRoundTrip(h, cmdSet, cmdId, data);
      assert Unpack(PackCommand(h, cmdSet, cmdId, data)) == h;
    }
    if h == AckHeader(h.session, h.receiver, h.seqNum, |data|) && h.length < 1024 {
      AckRoundTrip(h, data);
      assert Unpack(PackAck(h, data)) == h;
    }
  }

  // The pool with a block given back, if there is one.
  function Without(live: Live, block: Option<nat>): Live {
    match block
    case None => live
    case Some(b) => live - {b}
  }

  /** Of a packed command the application is given the header, the command and its data. */
  lemma CommandHanded(cmd: seq<CmdSession>, h: Header, cmdSet: Byte, cmdId: Byte, data: seq<Byte>)
    requires |cmd| == SESSION_TABLE_NUM && h.length < 1024
    requires h == CommandHeader(h.session, h.receiver, h.seqNum, |data|)
    ensures |PackCommand(h, cmdSet, cmdId, data)| >= HEADER_LEN
    ensures Handed(cmd, PackCommand(h, cmdSet, cmdId, data)) == Some(Container(h, h.session != 0, cmdSet, cmdId, data))
  {
    hide PackCommand, IsAck, SessionOf, SeqNumOf, LengthOf, CmdSetOf, CmdIdOf, CmdDataOf;
    CommandRoundTrip(h, cmdSet, cmdId, data);
    assert Unpack(PackCommand(h, cmdSet, cmdId, data)) == h;
  }

  /** Of a packed acknowledgement with data it is given the header, the data and the command of its session. */
  lemma AckHanded(cmd: seq<CmdSession>, h: Header, data: seq<Byte>)
    requires |cmd| == SESSION_TABLE_NUM && h.length < 1024 && data != []
    requires h == AckHeader(h.session, h.receiver, h.seqNum, |data|)
    ensures |PackAck(h, data)| >= HEADER_LEN
    ensures Handed(cmd, PackAck(h, data)) ==
      Some(Container(h, true, cmd[h.session].cmdSet, cmd[h.session].cmdId, data))
  {
    hide PackAck, IsAck, SessionOf, SeqNumOf, LengthOf, AckDataOf;
    AckRoundTrip(h, data);
    assert Unpack(PackAck(h, data)) == h;
  }

  /**
   * The answer to a command: an acknowledgement packed for its session, with data and under
   * whatever number, is accepted and given to the application as one to this very command.
   */
  lemma AnswerIsFiled(s: State, mode: Mode, c: Command, retryTime: nat, h: Header, data: seq<Byte>)
    returns (i: SessionIndex)
    requires Inv(s) && CommandSize(c) < 1024 && mode != Session0 && Sessions.SendCMD(s, mode, c, retryTime).1
    requires h.length < 1024 && data != []
    ensures var t := Sessions.SendCMD(s, mode, c, retryTime).0;
      && Stocked(t) && LifeOf(t.log, i).Waits?
      && (h == AckHeader(i, h.receiver, h.seqNum, |data|) ==>
            var frame := PackAck(h, data);
            && |frame| >= HEADER_LEN && IsAck(frame) && Handle(t, frame).1
            && Handed(t.cmd, frame) == Some(Container(h, true, c.cmdSet, c.cmdId, data))
            && LifeOf(Handle(t, frame).0.log, i) == Over)
  {
    hide Inv, LifeOf, PackAck, IsAck, SessionOf, SeqNumOf, LengthOf, AckDataOf, Carries, CommandSize, Names, Handle,
      Handed, CmdSetOf, CmdIdOf, LastNumber;
    InvParts(s);
    var t := Sessions.SendCMD(s, mode, c, retryTime).0;
    var frame;
    i, frame := CommandSent(s, mode, c, retryTime);
    SendKeepsInv(s, mode, c, retryTime);
    InvStocked(t);
    SentIsNamed(t, i, frame, c);
    if h == AckHeader(i, h.receiver, h.seqNum, |data|) {
      AckRoundTrip(h, data);
      assert Unpack(PackAck(h, data)) == h;
      AckHanded(t.cmd, h, data);
      AcknowledgementAccepted(t, PackAck(h, data));
    }
  }

  // The table names the command that waits.
  lemma SentIsNamed(s: State, i: SessionIndex, frame: seq<Byte>, c: Command)
    requires Inv(s) && LifeOf(s.log, i).Waits? && LifeOf(s.log, i).frame == frame && Carries(frame, c)
    ensures s.cmd[i].cmdSet == c.cmdSet && s.cmd[i].cmdId == c.cmdId
  {
    assert CmdMatches(s, i);
  }

  // The sessions to look at in one round, from the first up to one.
  function Overdue(overdue: seq<bool>, n: nat): (actions: seq<Action>)
    requires n <= |overdue| <= SESSION_TABLE_NUM
  {
    if n <= 1 then [] else Overdue(overdue, n - 1) + (if overdue[n - 1] then [DoTimeout(n - 1)] else [])
  }

  class Protocol {
    const pool: MemoryPool
    var cmdSessionTable: seq<CmdSession>
    var ackSessionTable: map<AckKey, AckSession>
    var seqNum: bv16
    ghost var log: seq<Event>

    ghost function Abs(): State
      requires pool.Valid()
      reads this, pool, pool.table, pool.memory
    {
      State(cmdSessionTable, ackSessionTable, pool.Live(), pool.limits, seqNum, log)
    }

    ghost predicate Valid()
      reads this, pool, pool.table, pool.memory
    {
      pool.Valid() && Shaped(Abs()) && Inv(Abs())
    }

    constructor (preSeqNums: seq<Option<bv16>>)
      requires |preSeqNums| == SESSION_TABLE_NUM
      ensures Valid() && Initial(Abs()) && pool.limits == Limits(MAX_PACK_SIZE, 4096, SESSION_TABLE_NUM)
      ensures fresh(pool) && fresh(pool.table) && fresh(pool.memory)
    {
      pool := new MemoryPool(MAX_PACK_SIZE, 4096, SESSION_TABLE_NUM);
      cmdSessionTable := seq(SESSION_TABLE_NUM, i requires 0 <= i < SESSION_TABLE_NUM =>
        CmdSession(false, 0, 0, 0, 0, 0, preSeqNums[i]));
      ackSessionTable := map r: nat, i: SessionIndex | r < RECEIVER_NUM && 0 < i < 32 ::
        AckKey(r, i) := AckSession(Idle, None);
      seqNum := 0;
      log := [];
      new;
      InitialInv(Abs());
    }

    // More bytes of a packet written into its block.
    method Append(slot: nat, ghost done: seq<Byte>, offset: nat, data: seq<Byte>)
      requires pool.Valid() && slot in pool.Live() && done <= pool.Live()[slot]
      requires |done| == offset && |done| + |data| <= |pool.Live()[slot]|
      modifies pool.memory
      ensures pool.Valid() && slot in pool.Live() && done + data <= pool.Live()[slot]
      ensures pool.Live() == old(pool.Live())[slot := pool.Live()[slot]]
        && |pool.Live()[slot]| == old(|pool.Live()[slot]|)
    {
      hide Layout, Contents, Overwrite;
      OverwriteExtends(pool.Live()[slot], done, data);
      pool.Store(slot, offset, data);
    }

    // A header packed into a block, its checksum computed over the bytes before it.
    method WriteHeader(slot: nat, h: Header)
      requires pool.Valid() && slot in pool.Live() && |pool.Live()[slot]| >= HEADER_LEN
      modifies pool.memory
      ensures pool.Valid() && slot in pool.Live() && Pack(h) <= pool.Live()[slot]
      ensures pool.Live() == old(pool.Live())[slot := pool.Live()[slot]]
        && |pool.Live()[slot]| == old(|pool.Live()[slot]|)
    {
      hide Body, Le16, Crc16, Layout, Contents;
      Append(slot, [], 0, Body(h));
      var packed := pool.Load(slot);
      var crc := CRC16Calc(packed[..HEADER_LEN - CRC_HEAD_LEN]);
      assert packed[..HEADER_LEN - CRC_HEAD_LEN] == Body(h) == [] + Body(h);
      Append(slot, Body(h), HEADER_LEN - CRC_HEAD_LEN, Le16(crc));
    }

    // The checksum of all but the last bytes of a block, written there.
    method WriteTail(slot: nat, ghost front: seq<Byte>)
      requires pool.Valid() && slot in pool.Live()
      requires front <= pool.Live()[slot] && |pool.Live()[slot]| == |front| + CRC_DATA_LEN
      modifies pool.memory
      ensures pool.Valid() && slot in pool.Live() && pool.Live() == old(pool.Live())[slot := Seal(front)]
    {
      hide Le32, Crc32, Layout, Contents;
      var packed := pool.Load(slot);
      var crc := CRC32Calc(packed[..|packed| - CRC_DATA_LEN]);
      assert packed[..|packed| - CRC_DATA_LEN] == front;
      Append(slot, front, |packed| - CRC_DATA_LEN, Le32(crc));
      assert pool.Live()[slot] == Seal(front);
    }

    // A whole command packet: header, prefix, data and checksum, one after the other.
    method WriteCommand(slot: nat, h: Header, c: Command)
      requires pool.Valid() && slot in pool.Live() && |pool.Live()[slot]| == CommandSize(c)
      modifies pool.memory
      ensures pool.Valid() && pool.Live() == old(pool.Live())[slot := PackCommand(h, c.cmdSet, c.cmdId, c.data)]
    {
      hide Pack, Seal, Layout, Contents;
      WriteHeader(slot, h);
      Append(slot, Pack(h), HEADER_LEN, [c.cmdId, c.cmdSet]);
      Append(slot, Pack(h) + [c.cmdId, c.cmdSet], HEADER_LEN + CMD_SET_PREFIX_LEN, c.data);
      WriteTail(slot, Pack(h) + [c.cmdId, c.cmdSet] + c.data);
    }

    method WriteAck(slot: nat, h: Header, data: seq<Byte>)
      requires pool.Valid() && slot in pool.Live() && |pool.Live()[slot]| == AckSize(data)
      modifies pool.memory
      ensures pool.Valid() && pool.Live() == old(pool.Live())[slot := PackAck(h, data)]
    {
      hide Pack, Seal, Layout, Contents;
      WriteHeader(slot, h);
      if data != [] {
        Append(slot, Pack(h), HEADER_LEN, data);
        WriteTail(slot, Pack(h) + data);
      } else {
        assert pool.Live()[slot] == Pack(h);
      }
    }

    // A free session of the mode asked for, with a block of its own.
    method AllocCMDSession(mode: Mode, size: nat) returns (session: Option<SessionIndex>)
      requires pool.Valid() && |cmdSessionTable| == SESSION_TABLE_NUM && size > 0
      modifies this`cmdSessionTable, pool.table, pool.memory
      ensures pool.Valid() && |cmdSessionTable| == SESSION_TABLE_NUM
      ensures var i, slot := SessionFor(old(cmdSessionTable), mode), Chosen(old(pool.Live()), size, pool.limits);
        if i.None? || slot.None? then
          session == None && cmdSessionTable == old(cmdSessionTable) && pool.Live() == old(pool.Live())
        else
          session == i
          && cmdSessionTable ==
               old(cmdSessionTable)[i.value := old(cmdSessionTable)[i.value].(used := true, block := slot.value)]
          && Granted(old(pool.Live()), pool.Live(), slot.value, size)
    {
      hide Layout, Contents, Chosen, Granted, Undisturbed, SomeFit, BestFit, SessionFor, MemoryPool.Live;
      session := PickSession(mode);
      if session.None? {
        return;
      }
      var i := session.value;
      ghost var table := cmdSessionTable;
      cmdSessionTable := cmdSessionTable[i := cmdSessionTable[i].(used := true)];
      var slot := pool.AllocMemory(size);
      if slot.None? {
        cmdSessionTable := cmdSessionTable[i := cmdSessionTable[i].(used := false)];
        assert cmdSessionTable == table;
        session := None;
      } else {
        cmdSessionTable := cmdSessionTable[i := cmdSessionTable[i].(block := slot.value)];
      }
    }

    // The session of a mode, if it is not in use.
    method PickSession(mode: Mode) returns (session: Option<SessionIndex>)
      requires |cmdSessionTable| == SESSION_TABLE_NUM
      ensures session == SessionFor(cmdSessionTable, mode)
    {
      if mode != SessionAuto {
        var i: SessionIndex := if mode == Session0 then 0 else 1;
        session := if cmdSessionTable[i].used then None else Some(i);
      } else {
        session := FindIdle();
      }
    }

    method FindIdle() returns (session: Option<SessionIndex>)
      requires |cmdSessionTable| == SESSION_TABLE_NUM
      ensures session == FirstIdle(cmdSessionTable, 2)
    {
      var i := 2;
      while i < SESSION_TABLE_NUM
        invariant 2 <= i <= SESSION_TABLE_NUM && FirstIdle(cmdSessionTable, i) == FirstIdle(cmdSessionTable, 2)
      {
        if !cmdSessionTable[i].used {
          return Some(i);
        }
        i := i + 1;
      }
      return None;
    }

    method FreeCMDSession(i: SessionIndex)
      requires pool.Valid() && |cmdSessionTable| == SESSION_TABLE_NUM
      requires cmdSessionTable[i].used ==> cmdSessionTable[i].block in pool.Live()
      modifies this`cmdSessionTable, pool.table
      ensures pool.Valid()
      ensures cmdSessionTable == old(cmdSessionTable)[i := old(cmdSessionTable)[i].(used := false)]
      ensures pool.Live() ==
        if old(cmdSessionTable)[i].used then old(pool.Live()) - {old(cmdSessionTable)[i].block} else old(pool.Live())
    {
      hide Layout, Contents;
      assert cmdSessionTable[i := cmdSessionTable[i]] == cmdSessionTable;
      if cmdSessionTable[i].used {
        HeldIsInner(pool.table[..], pool.memory[..], cmdSessionTable[i].block);
        pool.FreeMemory(Some(cmdSessionTable[i].block));
        cmdSessionTable := cmdSessionTable[i := cmdSessionTable[i].(used := false)];
      }
    }

    // A session has been set aside, and a block for it; nothing else has changed since state s.
    ghost predicate SetAside(s: State, i: SessionIndex, slot: nat, size: nat)
      reads this, pool, pool.table, pool.memory
    {
      && pool.Valid() && |s.cmd| == SESSION_TABLE_NUM && !s.cmd[i].used && slot !in s.live
      && cmdSessionTable == s.cmd[i := s.cmd[i].(used := true, block := slot)]
      && ackSessionTable == s.ack && pool.limits == s.limits && seqNum == s.seqNum && log == s.log
      && Granted(s.live, pool.Live(), slot, size)
    }

    method SendAtOnce(c: Command, slot: nat, ghost s: State)
      requires SetAside(s, 0, slot, CommandSize(c))
      modifies this, pool.table, pool.memory
      ensures pool.Valid() && Abs() == SentAtOnce(s, c, slot)
    {
      hide Layout, Contents, Succ, CommandFrame, MemoryPool.Live;
      PackInto(0, c, slot, s);
      seqNum, log := Succ(seqNum), log + [SentOnce(CommandFrame(c, 0, seqNum))];
      FreeCMDSession(0);
      AddedAndRemoved(s.live, slot, CommandFrame(c, 0, s.seqNum));
      assert cmdSessionTable == s.cmd[0 := s.cmd[0].(block := slot)];
    }

    method SendAndKeep(i: SessionIndex, c: Command, slot: nat, retryTime: nat, ghost s: State)
      requires SetAside(s, i, slot, CommandSize(c))
      modifies this, pool.table, pool.memory
      ensures pool.Valid() && Abs() == SentAndKept(s, i, c, slot, retryTime)
    {
      hide Layout, Contents, Granted, Succ;
      if cmdSessionTable[i].preSeqNum == Some(seqNum) {
        seqNum := Succ(seqNum);
      }
      assert seqNum == NextSeqNum(s, i);
      PackInto(i, c, slot, s);
      Keep(i, c, slot, retryTime, s);
    }

    // The session entered in the table, its packet being in the pool already.
    method Keep(i: SessionIndex, c: Command, slot: nat, retryTime: nat, ghost s: State)
      requires pool.Valid() && |s.cmd| == SESSION_TABLE_NUM
      requires cmdSessionTable == s.cmd[i := s.cmd[i].(used := true, block := slot)]
      requires ackSessionTable == s.ack && pool.limits == s.limits && log == s.log && seqNum == NextSeqNum(s, i)
      requires pool.Live() == s.live[slot := CommandFrame(c, i, seqNum)]
      modifies this
      ensures pool.Valid() && Abs() == SentAndKept(s, i, c, slot, retryTime)
    {
      hide NextSeqNum, CommandFrame, MemoryPool.Valid, MemoryPool.Live, Succ;
      ghost var frame := CommandFrame(c, i, seqNum);
      cmdSessionTable := cmdSessionTable[i := CmdSession(true, slot, c.cmdSet, c.cmdId, 1, retryTime, Some(seqNum))];
      log := log + [Opened(i, retryTime, frame), Sent(i, frame)];
      seqNum := Succ(seqNum);
    }

    // The packet of a command in the block set aside for it.
    method PackInto(i: SessionIndex, c: Command, slot: nat, ghost s: State)
      requires pool.Valid() && Granted(s.live, pool.Live(), slot, CommandSize(c))
      modifies pool.memory
      ensures pool.Valid() && pool.Live() == s.live[slot := CommandFrame(c, i, seqNum)]
    {
      hide Layout, Contents, PackCommand;
      WriteCommand(slot, CommandHeader(i, c.receiver, seqNum, |c.data|), c);
    }

    /** A command sent, and kept for retransmission unless it wants no acknowledgement. */
    method SendCMD(mode: Mode, c: Command, retryTime: nat) returns (ok: bool)
      requires Valid() && CommandSize(c) < 1024
      modifies this, pool.table, pool.memory
      ensures Valid() && (Abs(), ok) == Sessions.SendCMD(old(Abs()), mode, c, retryTime)
    {
      hide Inv, Layout, Contents, Chosen, SentAtOnce, SentAndKept, Granted;
      ghost var s := Abs();
      SendKeepsInv(s, mode, c, retryTime);
      InvShaped(Sessions.SendCMD(s, mode, c, retryTime).0);
      if c.data == [] {
        return false;
      }
      var session := AllocCMDSession(mode, CommandSize(c));
      if session.None? {
        assert Abs() == s;
        return false;
      }
      var i := session.value;
      var slot := cmdSessionTable[i].block;
      match mode {
        case Session0 => SendAtOnce(c, slot, s);
        case Session1 => SendAndKeep(i, c, slot, 1, s);
        case SessionAuto => SendAndKeep(i, c, slot, retryTime, s);
      }
      ok := true;
    }

    // The block of an acknowledgement session, the one it had before given back first.
    method AllocACKSession(key: AckKey, size: nat) returns (ok: bool)
      requires pool.Valid() && key in ackSessionTable && size > 0
      requires ackSessionTable[key].block.Some? ==> ackSessionTable[key].block.value in pool.Live()
      modifies this`ackSessionTable, pool.table, pool.memory
      ensures pool.Valid()
      ensures var live := Without(old(pool.Live()), old(ackSessionTable)[key].block);
        var slot := Chosen(live, size, pool.limits);
        ok == slot.Some? &&
        if ok then
          ackSessionTable == old(ackSessionTable)[key := old(ackSessionTable)[key].(block := slot)]
          && Granted(live, pool.Live(), slot.value, size)
        else ackSessionTable == old(ackSessionTable) && pool.Live() == live
    {
      hide Layout, Contents, Chosen, Undisturbed, SomeFit, BestFit;
      if ackSessionTable[key].block.Some? {
        FreeACKSession(key);
      }
      var slot := pool.AllocMemory(size);
      ok := slot.Some?;
      if ok {
        ackSessionTable := ackSessionTable[key := ackSessionTable[key].(block := slot)];
      }
    }

    method FreeACKSession(key: AckKey)
      requires pool.Valid() && key in ackSessionTable
      requires ackSessionTable[key].block.Some? ==> ackSessionTable[key].block.value in pool.Live()
      modifies pool.table
      ensures pool.Valid()
      ensures pool.Live() == Without(old(pool.Live()), ackSessionTable[key].block)
    {
      hide Layout, Contents;
      if ackSessionTable[key].block.Some? {
        HeldIsInner(pool.table[..], pool.memory[..], ackSessionTable[key].block.value);
      }
      pool.FreeMemory(ackSessionTable[key].block);
    }

    /**
     * An acknowledgement sent, and kept to answer retransmissions of the command. The object
     * stays consistent exactly when it does not give up a stored one without finding room.
     */
    method SendACK(session: nat, ackSeqNum: bv16, receiver: nat, data: seq<Byte>) returns (ok: bool)
      requires Valid() && receiver < RECEIVER_NUM && AckSize(data) < 1024
      modifies this, pool.table, pool.memory
      ensures pool.Valid() && (Abs(), ok) == Sessions.SendACK(old(Abs()), session, ackSeqNum, receiver, data)
      ensures Valid() <==> AckFits(old(Abs()), session, receiver, data)
    {
      hide Inv, Layout, Contents, Chosen, PackAck, AckFits, AckFrame, Granted, MemoryPool.Live;
      ghost var s := Abs();
      UnfitAckDangles(s, session, ackSeqNum, receiver, data);
      AckKeepsShape(s, session, ackSeqNum, receiver, data);
      if session == 0 || session > 31 {
        return false;
      }
      var key := AckKey(receiver, session);
      assert ValidKey(key);
      AckHeld(s, key);
      ok := AllocACKSession(key, AckSize(data));
      if ok {
        KeepAck(key, ackSessionTable[key].block.value, ackSeqNum, data, s);
      }
    }

    // The acknowledgement packed into the block its session was given, and entered as the one that stands.
    method KeepAck(key: AckKey, slot: nat, ackSeqNum: bv16, data: seq<Byte>, ghost s: State)
      requires pool.Valid() && ValidKey(key) && Shaped(s) && AckSize(data) < 1024
      requires ackSessionTable == s.ack[key := s.ack[key].(block := Some(slot))] && cmdSessionTable == s.cmd
      requires pool.limits == s.limits && seqNum == s.seqNum && log == s.log
      requires Granted(Released(s, key), pool.Live(), slot, AckSize(data))
      modifies this`ackSessionTable, this`log, pool.memory
      ensures pool.Valid()
      ensures Abs() == s.(ack := s.ack[key := AckSession(Using, Some(slot))],
                          live := Released(s, key)[slot := AckFrame(key, ackSeqNum, data)],
                          log := s.log + [AckSent(key, ackSeqNum, AckFrame(key, ackSeqNum, data))])
    {
      hide Layout, Contents, PackAck, Released;
      WriteAck(slot, AckHeader(key.session, ByteOf(key.receiver), ackSeqNum, |data|), data);
      log := log + [AckSent(key, ackSeqNum, AckFrame(key, ackSeqNum, data))];
      ackSessionTable := ackSessionTable[key := ackSessionTable[key].(status := Using)];
    }

    /** One look at a command session: nothing yet, one more transmission, or giving up. */
    method CheckSession(i: SessionIndex, overdue: bool)
      requires Valid()
      modifies this, pool.table
      ensures Valid() && Stocked(old(Abs()))
      ensures Abs() == if overdue then Timeout(old(Abs()), i) else old(Abs())
    {
      hide Inv, Layout, Contents;
      ghost var s := Abs();
      InvStocked(s);
      TimeoutKeepsInv(s, i);
      if cmdSessionTable[i].used && overdue {
        CommandHeld(s, i);
        if cmdSessionTable[i].retryTime > 0 {
          if cmdSessionTable[i].sent >= cmdSessionTable[i].retryTime {
            FreeCMDSession(i);
            log := log + [] + [Closed(i)];
          } else {
            DeviceSend(i);
            cmdSessionTable := cmdSessionTable[i := cmdSessionTable[i].(sent := cmdSessionTable[i].sent + 1)];
          }
        } else {
          DeviceSend(i);
        }
      }
    }

    // The stored packet of a command session sent once more.
    method DeviceSend(i: SessionIndex)
      requires pool.Valid() && |cmdSessionTable| == SESSION_TABLE_NUM && cmdSessionTable[i].block in pool.Live()
      modifies this`log
      ensures log == old(log) + [Sent(i, Announced(pool.Live()[cmdSessionTable[i].block]))]
    {
      hide Layout, Contents;
      var packet := pool.Load(cmdSessionTable[i].block);
      log := log + [Sent(i, Announced(packet))];
    }

    /**
     * One round of the retry loop: a run of timeouts, one for each session overdue and in their
     * order. Every one of these that waits is sent once more or given up, and no other session.
     */
    method AutoRepeatSendCheck(overdue: seq<bool>)
      requires Valid() && |overdue| == SESSION_TABLE_NUM
      modifies this, pool.table
      ensures Valid() && Reaches(old(Abs()), Overdue(overdue, SESSION_TABLE_NUM), Abs())
      ensures forall i: SessionIndex ::
        LifeOf(log, i) == if overdue[i] then TimedOut(LifeOf(old(log), i)) else LifeOf(old(log), i)
    {
      hide Inv, Layout, Contents, Timeout, LifeOf;
      NeverWaits(Abs());
      for i := 1 to SESSION_TABLE_NUM
        invariant Valid() && Reaches(old(Abs()), Overdue(overdue, i), Abs())
        invariant forall j: SessionIndex ::
          LifeOf(log, j) == if j < i && overdue[j] then TimedOut(LifeOf(old(log), j)) else LifeOf(old(log), j)
      {
        ghost var t := Abs();
        CheckSession(i, overdue[i]);
        if overdue[i] {
          TimeoutDoes(t, i);
          ReachesSnoc(old(Abs()), Overdue(overdue, i), t, DoTimeout(i));
        } else {
          assert Overdue(overdue, i + 1) == Overdue(overdue, i);
        }
      }
    }

    /** A received frame: delivered, answered, matched with a waiting command, or dropped. */
    method ContainerHandler(frame: seq<Byte>) returns (isFrame: bool, container: Option<Container>)
      requires Valid() && Enabled(Abs(), DoHandle(frame))
      modifies this, pool.table
      ensures Valid() && Stocked(old(Abs()))
      ensures (Abs(), isFrame) == Handle(old(Abs()), frame)
      ensures container == if isFrame then Handed(old(cmdSessionTable), frame) else None
    {
      hide Inv, Layout, Contents, SessionOf, IsAck, SeqNumOf, LengthOf, Unpack, Handed;
      ghost var s := Abs();
      InvStocked(s);
      HandleKeepsInv(s, frame);
      InvShaped(Handle(s, frame).0);
      var i := SessionOf(frame);
      isFrame, container := false, None;
      if IsAck(frame) {
        if i > 0 && cmdSessionTable[i].used {
          CommandHeld(s, i);
          var stored := pool.Load(cmdSessionTable[i].block);
          if SessionOf(stored) == i {
            isFrame, container := true, Handed(cmdSessionTable, frame);
            FreeCMDSession(i);
            log := log + [AckReceived(i, frame)] + [Closed(i)];
          }
        }
      } else if i == 0 {
        isFrame, container := true, Handed(cmdSessionTable, frame);
        log := log + [Message(frame)];
      } else {
        isFrame := HandleCommand(frame);
        if isFrame {
          container := Handed(cmdSessionTable, frame);
        }
      }
    }

    // A command that wants an acknowledgement.
    method HandleCommand(frame: seq<Byte>) returns (isFrame: bool)
      requires pool.Valid() && Stocked(Abs()) && |frame| >= HEADER_LEN
      requires !IsAck(frame) && SessionOf(frame) > 0 && frame[5] as nat < RECEIVER_NUM
      modifies this
      ensures pool.Valid() && (Abs(), isFrame) == Handle(old(Abs()), frame)
      ensures cmdSessionTable == old(cmdSessionTable)
    {
      hide Layout, Contents, SessionOf, IsAck, SeqNumOf, LengthOf;
      var key := KeyOf(frame);
      assert ValidKey(key);
      match ackSessionTable[key].status {
        case Idle =>
          if key.session > 1 {
            ackSessionTable := ackSessionTable[key := ackSessionTable[key].(status := Process)];
          }
          log := log + [Delivered(key, SeqNumOf(frame), frame)];
          isFrame := true;
        case Process =>
          isFrame := false;
        case Using =>
          var stored := pool.Load(ackSessionTable[key].block.value);
          if SeqNumOf(stored) == SeqNumOf(frame) {
            log := log + [AckResent(key, SeqNumOf(frame), Announced(stored))];
            isFrame := false;
          } else {
            ackSessionTable := ackSessionTable[key := ackSessionTable[key].(status := Process)];
            log := log + [Delivered(key, SeqNumOf(frame), frame)];
            isFrame := true;
          }
      }
    }
  }

  // Session 0 keeps nothing.
  lemma NeverWaits(s: State)
    requires Inv(s)
    ensures LifeOf(s.log, 0) == TimedOut(LifeOf(s.log, 0))
  {
    assert CmdMatches(s, 0);
  }

  lemma InvShaped(s: State)
    requires Inv(s)
    ensures Shaped(s)
  {}

  lemma AddedAndRemoved(live: Live, slot: nat, data: seq<Byte>)
    requires slot !in live
    ensures live[slot := data] - {slot} == live
  {}

  lemma AckKeepsShape(s: State, session: nat, seqNum: bv16, receiver: nat, data: seq<Byte>)
    requires Inv(s) && receiver < RECEIVER_NUM
    ensures Shaped(Sessions.SendACK(s, session, seqNum, receiver, data).0)
  {
    if 0 < session < 32 { assert ValidKey(AckKey(receiver, session)); }
  }

  lemma AckHeld(s: State, key: AckKey)
    requires Inv(s) && key in s.ack
    ensures s.ack[key].block.Some? ==> s.ack[key].block.value in s.live
  {
    assert AckMatches(s, key);
  }

  lemma CommandHeld(s: State, i: SessionIndex)
    requires Inv(s)
    ensures s.cmd[i].used ==> s.cmd[i].block in s.live
  {
    assert CmdMatches(s, i);
  }
}
