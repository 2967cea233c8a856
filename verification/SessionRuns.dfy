// Runs of the session machine: sends, acknowledgements, timeouts and received frames in any
// order, and what holds after every one of them.
module SessionRuns {
  import opened Options
  import opened Checksum
  import opened PoolSpec
  import opened Stream
  import opened Frame
  import opened Sessions
  import opened SessionLog
  import opened SessionInvariant

  datatype Action =
    | DoSend(mode: Mode, command: Command, retryTime: nat)
    | DoAck(session: nat, seqNum: bv16, receiver: nat, data: seq<Byte>)
    | DoTimeout(index: SessionIndex)
    | DoHandle(frame: seq<Byte>)

  /**
   * An acknowledgement that replaces a stored one respects the block limit, and fits the arena
   * together with the bytes held once the stored one is given back.
   */
  ghost predicate AckFits(s: State, session: nat, receiver: nat, data: seq<Byte>)
    requires Shaped(s) && receiver < RECEIVER_NUM
  {
    0 < session < 32 ==>
      var key := AckKey(receiver, session);
      assert ValidKey(key);
      s.ack[key].block.Some? ==>
        AckSize(data) <= s.limits.maxBlockSize
        && Total(Released(s, key), s.limits.slots) + AckSize(data) <= s.limits.memorySize
  }

  // The slot given back is free, so only the bytes count.
  lemma FitsIsChosen(s: State, key: AckKey, size: nat)
    requires Inv(s) && key in s.ack && s.ack[key].block.Some?
    ensures Chosen(Released(s, key), size, s.limits).Some?
       <==> size <= s.limits.maxBlockSize && Total(Released(s, key), s.limits.slots) + size <= s.limits.memorySize
  {
    assert AckMatches(s, key);
    FirstFreeIsLowest(Released(s, key), 1, s.limits.slots, s.ack[key].block.value);
  }

  /**
   * Frames fit the ten bits of their length field, addresses fit the acknowledgement table, and
   * replacing a stored acknowledgement does not run out of memory.
   */
  ghost predicate Enabled(s: State, a: Action)
    requires Shaped(s)
  {
    match a
    case DoSend(_, command, _) => CommandSize(command) < 1024
    case DoAck(session, _, receiver, data) =>
      receiver < RECEIVER_NUM && AckSize(data) < 1024 && AckFits(s, session, receiver, data)
    case DoTimeout(_) => true
    case DoHandle(frame) =>
      |frame| >= HEADER_LEN && (!IsAck(frame) && SessionOf(frame) > 0 ==> frame[5] as nat < RECEIVER_NUM)
  }

  ghost function Step(s: State, a: Action): State
    requires Stocked(s) && Enabled(s, a)
  {
    match a
    case DoSend(mode, command, retryTime) => SendCMD(s, mode, command, retryTime).0
    case DoAck(session, seqNum, receiver, data) => SendACK(s, session, seqNum, receiver, data).0
    case DoTimeout(i) => Timeout(s, i)
    case DoHandle(frame) => Handle(s, frame).0
  }

  // Fields no invariant mentions.
  lemma IdleChangeKeepsInv(s: State, t: State)
    requires Shaped(s) && Inv(s) && |t.cmd| == |s.cmd| && t == s.(cmd := t.cmd, seqNum := t.seqNum)
    requires forall i: SessionIndex ::
      t.cmd[i] == s.cmd[i] || (!t.cmd[i].used && !s.cmd[i].used && t.cmd[i].preSeqNum == s.cmd[i].preSeqNum)
    ensures Inv(t)
  {
    hide LifeOf, StatusOf, LastAck, LastNumber, Whole, Names;
    SameKeepsOwned(s, t);
    forall i: SessionIndex ensures CmdMatches(t, i) { assert CmdMatches(s, i); }
    forall key | key in t.ack ensures AckMatches(t, key) { assert AckMatches(s, key); }
  }

  lemma OpenAndSendKeepsInv(s: State, i: SessionIndex, w: CmdSession, frame: seq<Byte>, seqNum: bv16)
    requires Shaped(s) && Inv(s) && i > 0 && !s.cmd[i].used && w.used && w.sent == 1
    requires w.block !in s.live && 0 < w.block < s.limits.slots - 1
    requires Whole(frame, i) && Names(frame, w.cmdSet, w.cmdId)
    requires w.preSeqNum == Some(SeqNumOf(frame)) && LastNumber(s.log, i) != w.preSeqNum
    ensures Inv(s.(cmd := s.cmd[i := w], live := s.live[w.block := frame], seqNum := seqNum,
                   log := s.log + [Opened(i, w.retryTime, frame), Sent(i, frame)]))
  {
    hide CmdMatches, AckMatches, AllLegal, Whole, Names, Owned, LastNumber, SeqNumOf;
    var unsent := w.(sent := 0);
    OpenKeepsInv(s, i, unsent, frame);
    var e := Opened(i, w.retryTime, frame);
    var mid := s.(cmd := s.cmd[i := unsent], live := s.live[w.block := frame], log := s.log + [e]);
    ResendKeepsInv(mid, i, 1);
    var after := mid.(cmd := mid.cmd[i := w], log := mid.log + [Sent(i, frame)]);
    assert mid.cmd[i].(sent := 1) == w;
    IdleChangeKeepsInv(after, after.(seqNum := seqNum));
    assert after.log == s.log + [e, Sent(i, frame)];
    assert after.cmd == s.cmd[i := w];
  }

  lemma SentAtOnceKeepsInv(s: State, c: Command, slot: nat)
    requires Shaped(s) && Inv(s) && !s.cmd[0].used
    ensures Inv(SentAtOnce(s, c, slot))
  {
    hide Inv, CommandFrame;
    var mid := s.(cmd := s.cmd[0 := s.cmd[0].(block := slot)], seqNum := Succ(s.seqNum));
    IdleChangeKeepsInv(s, mid);
    SilentKeepsInv(mid, SentOnce(CommandFrame(c, 0, s.seqNum)));
  }

  lemma SuccDiffers(n: bv16)
    ensures Succ(n) != n
  {}

  // A session never uses the number of its last command again.
  lemma NumberIsFresh(s: State, i: SessionIndex)
    requires Inv(s)
    ensures LastNumber(s.log, i) != Some(NextSeqNum(s, i))
  {
    hide LifeOf, LastNumber, Succ;
    SuccDiffers(s.seqNum);
    assert CmdMatches(s, i);
  }

  lemma SentAndKeptKeepsInv(s: State, i: SessionIndex, c: Command, slot: nat, retryTime: nat)
    requires Shaped(s) && Inv(s) && i > 0 && !s.cmd[i].used && CommandSize(c) < 1024
    requires slot !in s.live && 0 < slot < s.limits.slots - 1
    ensures Inv(SentAndKept(s, i, c, slot, retryTime))
  {
    hide Inv, CommandFrame, Whole, Names, NextSeqNum, SeqNumOf, LastNumber;
    var seqNum := NextSeqNum(s, i);
    CommandIsWhole(c, i, seqNum);
    NumberIsFresh(s, i);
    var w := CmdSession(true, slot, c.cmdSet, c.cmdId, 1, retryTime, Some(seqNum));
    OpenAndSendKeepsInv(s, i, w, CommandFrame(c, i, seqNum), Succ(seqNum));
  }

  lemma SendKeepsInv(s: State, mode: Mode, c: Command, retryTime: nat)
    requires Shaped(s) && Inv(s) && CommandSize(c) < 1024
    ensures Inv(SendCMD(s, mode, c, retryTime).0)
  {
    hide Inv, SentAtOnce, SentAndKept, Chosen, CommandSize;
    var i := SessionFor(s.cmd, mode);
    var slot := Chosen(s.live, CommandSize(c), s.limits);
    if c.data != [] && i.Some? && slot.Some? {
      if mode == Session0 {
        SentAtOnceKeepsInv(s, c, slot.value);
      } else {
        SentAndKeptKeepsInv(s, i.value, c, slot.value, if mode == Session1 then 1 else retryTime);
      }
    }
  }

  lemma AckStepKeepsInv(s: State, session: nat, seqNum: bv16, receiver: nat, data: seq<Byte>)
    requires Inv(s) && receiver < RECEIVER_NUM && AckSize(data) < 1024
    requires AckFits(s, session, receiver, data)
    ensures Inv(SendACK(s, session, seqNum, receiver, data).0)
  {
    hide CmdMatches, AckMatches, AllLegal, Whole, AckFrame, Owned;
    if 0 < session < 32 {
      var key := AckKey(receiver, session);
      assert ValidKey(key);
      var slot := Chosen(Released(s, key), AckSize(data), s.limits);
      if slot.Some? {
        AckIsWhole(key, seqNum, data);
        AckKeepsInv(s, key, seqNum, slot.value, AckFrame(key, seqNum, data));
      } else {
        if s.ack[key].block.Some? { FitsIsChosen(s, key, AckSize(data)); }
        assert Released(s, key) == s.live;
      }
    }
  }

  lemma TimeoutKeepsInv(s: State, i: SessionIndex)
    requires Inv(s) && Stocked(s)
    ensures Inv(Timeout(s, i))
  {
    hide AckMatches, AllLegal, Owned, LifeOf;
    var c := s.cmd[i];
    if c.used {
      assert CmdMatches(s, i);
      WholeIsAnnounced(s.live[c.block], i);
      if c.retryTime > 0 && c.sent >= c.retryTime {
        CloseKeepsInv(s, i);
      } else {
        ResendKeepsInv(s, i, if c.retryTime > 0 then c.sent + 1 else c.sent);
        assert s.cmd[i := c.(sent := c.sent)] == s.cmd;
      }
    }
  }

  lemma HandleKeepsInv(s: State, frame: seq<Byte>)
    requires Inv(s) && Stocked(s) && Enabled(s, DoHandle(frame))
    ensures Inv(Handle(s, frame).0)
  {
    hide AllLegal, Owned, LifeOf, StatusOf, LastAck, SessionOf, SeqNumOf, LengthOf, IsAck;
    var i := SessionOf(frame);
    if IsAck(frame) {
      if Handle(s, frame).1 {
        assert CmdMatches(s, i);
        SilentKeepsInv(s, AckReceived(i, frame));
        var mid := s.(log := s.log + [AckReceived(i, frame)]);
        assert CmdMatches(mid, i);
        CloseKeepsInv(mid, i);
        assert CloseSession(mid, i, []) == CloseSession(s, i, [AckReceived(i, frame)]) by {
          assert mid.log + [] == mid.log;
        }
      }
    } else if i == 0 {
      SilentKeepsInv(s, Message(frame));
    } else {
      HandleCommandKeepsInv(s, frame);
    }
  }

  lemma HandleCommandKeepsInv(s: State, frame: seq<Byte>)
    requires Inv(s) && Stocked(s) && Enabled(s, DoHandle(frame)) && !IsAck(frame) && SessionOf(frame) > 0
    ensures Inv(Handle(s, frame).0)
  {
    hide AllLegal, Owned, LifeOf, StatusOf, LastAck, SessionOf, SeqNumOf, LengthOf, IsAck, CmdMatches;
    var key, seqNum := KeyOf(frame), SeqNumOf(frame);
    assert ValidKey(key);
    var a := s.ack[key];
    assert AckMatches(s, key);
    match a.status
    case Idle =>
      DeliverKeepsInv(s, key, seqNum, frame);
      assert s.ack[key := a] == s.ack;
    case Process =>
    case Using =>
      var stored := s.live[a.block.value];
      WholeIsAnnounced(stored, key.session);
      if SeqNumOf(stored) == seqNum {
        SilentKeepsInv(s, AckResent(key, seqNum, stored));
      } else {
        DeliverKeepsInv(s, key, seqNum, frame);
      }
  }

  /** Every enabled step can be taken, and keeps the invariant. */
  lemma StepKeepsInv(s: State, a: Action)
    requires Inv(s) && Enabled(s, a)
    ensures Stocked(s) && Inv(Step(s, a))
  {
    hide Inv;
    InvStocked(s);
    match a
    case DoSend(mode, command, retryTime) => SendKeepsInv(s, mode, command, retryTime);
    case DoAck(session, seqNum, receiver, data) => AckStepKeepsInv(s, session, seqNum, receiver, data);
    case DoTimeout(i) => TimeoutKeepsInv(s, i);
    case DoHandle(frame) => HandleKeepsInv(s, frame);
  }

  // ------------------------------------------------------------ runs

  // The tables as they are set up; what a command session remembers of earlier numbers is arbitrary.
  ghost predicate Initial(s: State) {
    && Shaped(s)
    && (forall i: SessionIndex :: !s.cmd[i].used)
    && (forall key :: key in s.ack ==> s.ack[key] == AckSession(Idle, None))
    && s.live == map[] && s.log == []
  }

  // A run: enabled steps one after the other.
  ghost predicate Reaches(s: State, actions: seq<Action>, t: State)
    decreases |actions|
  {
    if actions == [] then t == s
    else Stocked(s) && Enabled(s, actions[0]) && Reaches(Step(s, actions[0]), actions[1..], t)
  }

  lemma InitialInv(s: State)
    requires Initial(s)
    ensures Inv(s)
  {
    forall o ensures Holds(s, o) == None {}
  }

  lemma {:induction false} RunsKeepInv(s: State, actions: seq<Action>, t: State)
    requires Inv(s) && Reaches(s, actions, t)
    ensures Inv(t)
    decreases |actions|
  {
    hide Inv;
    if actions != [] {
      StepKeepsInv(s, actions[0]);
      RunsKeepInv(Step(s, actions[0]), actions[1..], t);
    }
  }

  /**
   * After any run from the start, every slot of the pool in use belongs to exactly one waiting
   * command or stored acknowledgement, and nothing the log records was illegal when it happened.
   */
  lemma RunsAreSafe(s: State, actions: seq<Action>, t: State)
    requires Initial(s) && Reaches(s, actions, t)
    ensures Shaped(t) && Owned(t) && AllLegal(t.log)
  {
    InitialInv(s);
    RunsKeepInv(s, actions, t);
  }

  /** In any run no command with a positive retry time is transmitted more often than that. */
  lemma RunsRetryAtMost(s: State, actions: seq<Action>, t: State, i: SessionIndex)
    requires Initial(s) && Reaches(s, actions, t)
    ensures RetryTimeOf(t.log, i) > 0 ==> SentSinceOpened(t.log, i) <= RetryTimeOf(t.log, i)
  {
    RunsAreSafe(s, actions, t);
    TransmissionsBounded(t.log, i);
  }

  /** In any run two deliveries on a session from 2 to 31 have an acknowledgement between them. */
  lemma RunsDeliverOnce(s: State, actions: seq<Action>, t: State, key: AckKey, p: nat, q: nat)
    requires Initial(s) && Reaches(s, actions, t) && key.session >= 2 && p < q < |t.log|
    requires t.log[p].Delivered? && t.log[p].key == key && t.log[q].Delivered? && t.log[q].key == key
    ensures exists k :: p < k < q && t.log[k].AckSent? && t.log[k].key == key
    ensures LastAck(t.log[..q], key).Some? && LastAck(t.log[..q], key).value.seqNum != t.log[q].seqNum
  {
    RunsAreSafe(s, actions, t);
    NoDuplicateDelivery(t.log, key, p, q);
  }

  /** In any run a session ends only acknowledged, or after exactly as many transmissions as its retry time. */
  lemma RunsEndForAReason(s: State, actions: seq<Action>, t: State, i: SessionIndex, p: nat)
    requires Initial(s) && Reaches(s, actions, t) && p < |t.log| && t.log[p] == Closed(i)
    ensures JustAnswered(t.log[..p], i) || 0 < RetryTimeOf(t.log[..p], i) == SentSinceOpened(t.log[..p], i)
  {
    RunsAreSafe(s, actions, t);
    EndsForAReason(t.log, i, p);
  }

  /** In any run two commands sent one after the other on one session have different numbers. */
  lemma RunsNumbersDiffer(s: State, actions: seq<Action>, t: State, i: SessionIndex, p: nat, q: nat)
    requires Initial(s) && Reaches(s, actions, t) && p < q < |t.log|
    requires t.log[p].Opened? && t.log[p].session == i && t.log[q].Opened? && t.log[q].session == i
    requires forall k :: p < k < q ==> !(t.log[k].Opened? && t.log[k].session == i)
    ensures |t.log[p].frame| >= HEADER_LEN && |t.log[q].frame| >= HEADER_LEN
    ensures SeqNumOf(t.log[p].frame) != SeqNumOf(t.log[q].frame)
  {
    RunsAreSafe(s, actions, t);
    NumbersDiffer(t.log, i, p, q);
  }

  // ------------------------------------------------------------ answers to received frames

  /** A command already acknowledged under its number is answered with the very same bytes again. */
  lemma RetransmissionAnswered(s: State, frame: seq<Byte>)
    requires Inv(s) && Stocked(s) && Enabled(s, DoHandle(frame)) && !IsAck(frame) && SessionOf(frame) > 0
    requires StatusOf(s.log, KeyOf(frame)) == Using
    requires LastAck(s.log, KeyOf(frame)).Some? && LastAck(s.log, KeyOf(frame)).value.seqNum == SeqNumOf(frame)
    ensures var again := AckResent(KeyOf(frame), SeqNumOf(frame), LastAck(s.log, KeyOf(frame)).value.frame);
      Handle(s, frame) == (s.(log := s.log + [again]), false)
  {
    hide StatusOf, LastAck, SessionOf, SeqNumOf, LengthOf, IsAck;
    var key := KeyOf(frame);
    assert ValidKey(key);
    assert AckMatches(s, key);
    WholeIsAnnounced(s.live[s.ack[key].block.value], key.session);
  }

  /** A command still being processed is dropped without a trace. */
  lemma RetransmissionDropped(s: State, frame: seq<Byte>)
    requires Inv(s) && Stocked(s) && Enabled(s, DoHandle(frame)) && !IsAck(frame) && SessionOf(frame) > 0
    requires StatusOf(s.log, KeyOf(frame)) == Process
    ensures Handle(s, frame) == (s, false)
  {
    hide StatusOf, LastAck, SessionOf, SeqNumOf, LengthOf, IsAck;
    assert ValidKey(KeyOf(frame));
    assert AckMatches(s, KeyOf(frame));
  }

  /** An acknowledgement for a waiting session always ends it, whatever its sequence number. */
  lemma AcknowledgementAccepted(s: State, frame: seq<Byte>)
    requires Inv(s) && Stocked(s) && |frame| >= HEADER_LEN && IsAck(frame)
    ensures Handle(s, frame).1 <==> LifeOf(s.log, SessionOf(frame)).Waits?
    ensures Handle(s, frame).1 ==> LifeOf(Handle(s, frame).0.log, SessionOf(frame)) == Over
  {
    hide LifeOf, SessionOf, SeqNumOf, LengthOf, IsAck;
    var i := SessionOf(frame);
    assert CmdMatches(s, i);
    Snoc(s.log + [AckReceived(i, frame)], Closed(i));
  }

  /**
   * Session 1 is the exception: the frame of a command just delivered is delivered once more,
   * when it comes again, exactly if its session is 1 and was never acknowledged.
   */
  lemma RedeliveryOnlyOnSessionOne(s: State, frame: seq<Byte>)
    requires Inv(s) && Stocked(s) && Enabled(s, DoHandle(frame)) && !IsAck(frame) && SessionOf(frame) > 0
    requires Handle(s, frame).1
    ensures Stocked(Handle(s, frame).0)
    ensures Handle(Handle(s, frame).0, frame).1
       <==> SessionOf(frame) == 1 && StatusOf(s.log, KeyOf(frame)) == Idle
  {
    hide AllLegal, Owned, InPool, LifeOf, StatusOf, LastAck, SessionOf, SeqNumOf, LengthOf, IsAck, CmdMatches;
    var t := Handle(s, frame).0;
    HandleKeepsInv(s, frame);
    InvStocked(t);
    assert ValidKey(KeyOf(frame));
    assert AckMatches(s, KeyOf(frame));
  }

  /** A command for session 1 that comes twice at the start of a run is delivered twice. */
  lemma DeliveredTwice(s: State, c: Command, seqNum: bv16) returns (t: State)
    requires Initial(s) && c.receiver == DEVICE && CommandSize(c) < 1024
    ensures var frame := CommandFrame(c, 1, seqNum);
      && IsFrame(ProtocolFormat(), frame)
      && Reaches(s, [DoHandle(frame), DoHandle(frame)], t)
      && t.log == [Delivered(AckKey(0, 1), seqNum, frame), Delivered(AckKey(0, 1), seqNum, frame)]
  {
    var h := CommandHeader(1, c.receiver, seqNum, |c.data|);
    var frame := CommandFrame(c, 1, seqNum);
    CommandRoundTrip(h, c.cmdSet, c.cmdId, c.data);
    Unpacked(h, frame);
    t := HandledTwice(s, frame);
  }

  lemma HandledTwice(s: State, frame: seq<Byte>) returns (t: State)
    requires Initial(s) && |frame| >= HEADER_LEN && Unpack(frame).session == 1
    requires !Unpack(frame).isAck && Unpack(frame).receiver == DEVICE
    ensures Reaches(s, [DoHandle(frame), DoHandle(frame)], t)
    ensures var e := Delivered(KeyOf(frame), SeqNumOf(frame), frame); t.log == [e, e]
  {
    hide Inv, SessionOf, SeqNumOf, IsAck;
    InitialInv(s);
    InvStocked(s);
    var key := KeyOf(frame);
    assert ValidKey(key);
    var a := DoHandle(frame);
    var mid := Step(s, a);
    StepKeepsInv(s, a);
    InvStocked(mid);
    t := Step(mid, a);
    assert [a, a][1..] == [a];
    assert Reaches(mid, [a], t) by { assert [a][1..] == []; }
  }

  // ------------------------------------------------------------ where the hypotheses matter

  /**
   * The invariant survives an acknowledgement exactly when it does not have to give up a stored
   * one without finding room for its own: the table then still points at the slot given back.
   */
  lemma UnfitAckDangles(s: State, session: nat, seqNum: bv16, receiver: nat, data: seq<Byte>)
    requires Inv(s) && receiver < RECEIVER_NUM && AckSize(data) < 1024
    ensures Inv(SendACK(s, session, seqNum, receiver, data).0) <==> AckFits(s, session, receiver, data)
  {
    if AckFits(s, session, receiver, data) {
      AckStepKeepsInv(s, session, seqNum, receiver, data);
    } else {
      var key := AckKey(receiver, session);
      var t := SendACK(s, session, seqNum, receiver, data).0;
      assert ValidKey(key);
      FitsIsChosen(s, key, AckSize(data));
      assert Holds(t, Acks(key)) == s.ack[key].block;
      assert !Owned(t);
    }
  }

  lemma {:induction false} ReachesSnoc(s: State, actions: seq<Action>, t: State, a: Action)
    requires Reaches(s, actions, t) && Stocked(t) && Enabled(t, a)
    ensures Reaches(s, actions + [a], Step(t, a))
    decreases |actions|
  {
    if actions == [] {
      assert ([a])[1..] == [];
      assert actions + [a] == [a];
    } else {
      assert (actions + [a])[1..] == actions[1..] + [a];
      ReachesSnoc(Step(s, actions[0]), actions[1..], t, a);
    }
  }

  // Data for an acknowledgement of a thousand bytes.
  function Filler(): (data: seq<Byte>)
    ensures AckSize(data) == 1000
  {
    seq(984, _ => 0)
  }

  function Answers(n: nat): seq<Action>
    requires n <= 4
  {
    if n == 0 then [] else Answers(n - 1) + [DoAck(n, 0, 0, Filler())]
  }

  // Sessions 1 to n have been answered, holding so many bytes in the lowest slots.
  ghost predicate Answered(s: State, n: nat, bytes: nat) {
    && Inv(s) && s.limits == Limits(MAX_PACK_SIZE, 4096, SESSION_TABLE_NUM)
    && (forall b :: b in s.live <==> 1 <= b <= n)
    && Total(s.live, SESSION_TABLE_NUM) == bytes
    && (forall i: SessionIndex :: i > 0 ==>
          s.ack[AckKey(0, i)].block == if i <= n then Some(i as nat) else None)
  }

  // One more session answered while there is room.
  lemma AnswerOne(s: State, n: nat, bytes: nat, data: seq<Byte>)
    requires Answered(s, n, bytes) && n < 30 && AckSize(data) < 1024 && bytes + AckSize(data) <= 4096
    ensures Stocked(s) && Enabled(s, DoAck(n + 1, 0, 0, data))
    ensures Answered(Step(s, DoAck(n + 1, 0, 0, data)), n + 1, bytes + AckSize(data))
    ensures var t := Step(s, DoAck(n + 1, 0, 0, data)); n + 1 in t.live && |t.live[n + 1]| == AckSize(data)
  {
    hide Inv, AckFrame, AckSize;
    var key := AckKey(0, n + 1);
    assert ValidKey(key);
    var a := DoAck(n + 1, 0, 0, data);
    StepKeepsInv(s, a);
    FirstFreeIsLowest(s.live, 1, SESSION_TABLE_NUM, n + 1);
    assert Chosen(s.live, AckSize(data), s.limits) == Some(n + 1);
    AckIsWhole(key, 0, data);
    TotalUpdate(s.live, n + 1, AckFrame(key, 0, data), SESSION_TABLE_NUM);
  }

  lemma {:induction false} NothingTotal(n: nat)
    ensures Total(map[], n) == 0
  {
    if n > 0 { NothingTotal(n - 1); }
  }

  lemma NoneAnswered(s: State)
    requires Initial(s) && s.limits == Limits(MAX_PACK_SIZE, 4096, SESSION_TABLE_NUM)
    ensures Answered(s, 0, 0)
  {
    hide Inv;
    InitialInv(s);
    NothingTotal(SESSION_TABLE_NUM);
    forall i: SessionIndex | i > 0 ensures s.ack[AckKey(0, i)].block == None {
      assert ValidKey(AckKey(0, i));
    }
  }

  lemma {:induction false} AnswerAll(s: State, n: nat) returns (t: State)
    requires Initial(s) && s.limits == Limits(MAX_PACK_SIZE, 4096, SESSION_TABLE_NUM) && n <= 4
    ensures Reaches(s, Answers(n), t) && Answered(t, n, 1000 * n)
    decreases n
  {
    hide Inv, Answered, Initial, Step, Enabled, Stocked, AckSize;
    if n == 0 {
      t := s;
      NoneAnswered(s);
    } else {
      var mid := AnswerAll(s, n - 1);
      AnswerOne(mid, n - 1, 1000 * (n - 1), Filler());
      t := Step(mid, DoAck(n, 0, 0, Filler()));
      ReachesSnoc(s, Answers(n - 1), mid, DoAck(n, 0, 0, Filler()));
    }
  }

  /**
   * Four full acknowledgements and a bare one from the start on, and the bare one cannot be
   * replaced by a full one: sending it leaves the table with a slot already given back.
   */
  lemma UnfitAckReached(s: State) returns (t: State)
    requires Initial(s) && s.limits == Limits(MAX_PACK_SIZE, 4096, SESSION_TABLE_NUM)
    ensures Reaches(s, Answers(4) + [DoAck(5, 0, 0, [])], t)
    ensures Inv(t) && !AckFits(t, 5, 0, Filler()) && !Inv(SendACK(t, 5, 0, 0, Filler()).0)
  {
    hide Inv;
    var mid := AnswerAll(s, 4);
    AnswerOne(mid, 4, 4000, []);
    t := Step(mid, DoAck(5, 0, 0, []));
    ReachesSnoc(s, Answers(4), mid, DoAck(5, 0, 0, []));
    TotalRemove(t.live, 5, SESSION_TABLE_NUM);
    assert ValidKey(AckKey(0, 5));
    UnfitAckDangles(t, 5, 0, 0, Filler());
  }

  function Timeouts(i: SessionIndex, n: nat): seq<Action> {
    if n == 0 then [] else [DoTimeout(i)] + Timeouts(i, n - 1)
  }

  /** A command with retry time zero is transmitted again at every timeout, without end. */
  lemma {:induction false} ZeroRetriesForever(s: State, i: SessionIndex, n: nat) returns (t: State)
    requires Shaped(s) && Inv(s) && s.cmd[i].used && s.cmd[i].retryTime == 0
    ensures Reaches(s, Timeouts(i, n), t)
    ensures SentSinceOpened(t.log, i) == SentSinceOpened(s.log, i) + n
    decreases n
  {
    hide Inv;
    if n == 0 {
      t := s;
    } else {
      StepKeepsInv(s, DoTimeout(i));
      var u := Step(s, DoTimeout(i));
      assert u.log[..|u.log| - 1] == s.log;
      t := ZeroRetriesForever(u, i, n - 1);
      assert Timeouts(i, n)[1..] == Timeouts(i, n - 1);
    }
  }

  /** Such a command comes from one call at the start of a run. */
  lemma ZeroRetriesReached(s: State, c: Command, n: nat) returns (t: State)
    requires Initial(s) && s.limits == Limits(MAX_PACK_SIZE, 4096, SESSION_TABLE_NUM)
    requires c.data != [] && CommandSize(c) < 1024
    ensures Reaches(s, [DoSend(SessionAuto, c, 0)] + Timeouts(2, n), t)
    ensures SentSinceOpened(t.log, 2) == n + 1
  {
    hide Inv, CommandFrame;
    InitialInv(s);
    NothingTotal(SESSION_TABLE_NUM);
    FirstFreeIsLowest(s.live, 1, SESSION_TABLE_NUM, 1);
    var a := DoSend(SessionAuto, c, 0);
    StepKeepsInv(s, a);
    var u := Step(s, a);
    SentFirst(u.log);
    t := ZeroRetriesForever(u, 2, n);
    assert ([a] + Timeouts(2, n))[1..] == Timeouts(2, n);
  }

  lemma SentFirst(log: seq<Event>)
    requires |log| == 2 && log[0].Opened? && log[1].Sent? && log[0].session == log[1].session
    ensures SentSinceOpened(log, log[0].session) == 1
  {
    assert log[..1][0] == log[0];
  }
}
