// What the steps of the session machine do, said of the frames on the wire, of what is read from
// the log, and of what the application is given.
module SessionEffects {
  import opened Options
  import opened Checksum
  import opened PoolSpec
  import opened Stream
  import opened Frame
  import opened Sessions
  import opened SessionLog
  import opened SessionInvariant
  import opened SessionRuns

  // ------------------------------------------------------------ commands sent

  // What the other side reads from a frame is this command.
  ghost predicate Carries(frame: seq<Byte>, c: Command) {
    && |frame| == CommandSize(c) && LengthOf(frame) == |frame| && !IsAck(frame)
    && frame[4] == DEVICE && frame[5] == c.receiver
    && CmdSetOf(frame) == c.cmdSet && CmdIdOf(frame) == c.cmdId && CmdDataOf(frame) == c.data
  }

  lemma FrameCarries(c: Command, i: SessionIndex, seqNum: bv16)
    requires CommandSize(c) < 1024
    ensures var frame := CommandFrame(c, i, seqNum);
      Carries(frame, c) && SessionOf(frame) == i && SeqNumOf(frame) == seqNum
  {
    hide CmdSetOf, CmdIdOf, CmdDataOf, LengthOf, SessionOf, SeqNumOf, IsAck, PackCommand;
    var h := CommandHeader(i, c.receiver, seqNum, |c.data|);
    CommandRoundTrip(h, c.cmdSet, c.cmdId, c.data);
    assert Unpack(CommandFrame(c, i, seqNum)) == h;
  }

  /**
   * A command that is sent goes out as one frame that carries it, and is transmitted once. Without
   * a session nothing of it is kept. With one it is kept as it was sent, under a number other than
   * the last one of its session, to be sent once on session 1 and as often as asked on another.
   */
  lemma CommandSent(s: State, mode: Mode, c: Command, retryTime: nat) returns (i: SessionIndex, frame: seq<Byte>)
    requires Inv(s) && CommandSize(c) < 1024 && SendCMD(s, mode, c, retryTime).1
    ensures Carries(frame, c) && SessionOf(frame) == i
    ensures match mode
      case Session0 => i == 0
      case Session1 => i == 1
      case SessionAuto => 2 <= i && forall k :: 2 <= k < i ==> s.cmd[k].used
    ensures var t := SendCMD(s, mode, c, retryTime).0;
      if mode == Session0 then t.log == s.log + [SentOnce(frame)] && t.live == s.live
      else
        var r := if mode == Session1 then 1 else retryTime;
        && t.log == s.log + [Opened(i, r, frame), Sent(i, frame)] && LifeOf(t.log, i) == Waits(r, frame, 1)
        && LastNumber(s.log, i) != Some(SeqNumOf(frame)) && !s.cmd[i].used && t.cmd[i].used
        && t.cmd[i].block !in s.live && t.live == s.live[t.cmd[i].block := frame]
  {
    hide Inv, Carries, CommandFrame, Chosen, NextSeqNum, LastNumber, SessionOf, SeqNumOf, CommandSize;
    InvParts(s);
    i := SessionFor(s.cmd, mode).value;
    var seqNum := if mode == Session0 then s.seqNum else NextSeqNum(s, i);
    frame := CommandFrame(c, i, seqNum);
    FrameCarries(c, i, seqNum);
    if mode != Session0 {
      NumberIsFresh(s, i);
      var r := if mode == Session1 then 1 else retryTime;
      Snoc(s.log, Opened(i, r, frame));
      Snoc(s.log + [Opened(i, r, frame)], Sent(i, frame));
      assert s.log + [Opened(i, r, frame)] + [Sent(i, frame)] == s.log + [Opened(i, r, frame), Sent(i, frame)];
    }
  }

  lemma InvParts(s: State)
    requires Inv(s)
    ensures Shaped(s) && AllLegal(s.log)
  {}

  // Whether all sessions a mode may use are taken.
  ghost predicate Busy(s: State, mode: Mode)
    requires Shaped(s)
  {
    match mode
    case Session0 => s.cmd[0].used
    case Session1 => s.cmd[1].used
    case SessionAuto => forall k :: 2 <= k < SESSION_TABLE_NUM ==> s.cmd[k].used
  }

  // The pool takes no more bytes, or has no slot left.
  ghost predicate NoRoom(s: State, size: nat) {
    || size > s.limits.maxBlockSize || Total(s.live, s.limits.slots) + size > s.limits.memorySize
    || forall k :: 0 < k < s.limits.slots - 1 ==> k in s.live
  }

  /** Sending fails only for want of data, of a session or of room; nothing has happened then. */
  lemma SendingFails(s: State, mode: Mode, c: Command, retryTime: nat)
    requires Shaped(s)
    ensures !SendCMD(s, mode, c, retryTime).1 <==> c.data == [] || Busy(s, mode) || NoRoom(s, CommandSize(c))
    ensures !SendCMD(s, mode, c, retryTime).1 ==> SendCMD(s, mode, c, retryTime).0 == s
  {
    RequestGranted(s.live, CommandSize(c), s.limits);
    hide Chosen, CommandSize, Total;
  }

  // ------------------------------------------------------------ timeouts

  // A command's life after a timeout.
  function TimedOut(life: Life): Life {
    match life
    case Waits(r, frame, n) => if r == 0 || n < r then Waits(r, frame, n + 1) else Over
    case _ => life
  }

  /**
   * A timeout transmits a waiting command once more, the very bytes it was sent as, if its retry
   * time is zero or not used up, and gives it up otherwise; it does nothing to a session that does
   * not wait.
   */
  lemma TimeoutDoes(s: State, i: SessionIndex)
    requires Inv(s) && Stocked(s)
    ensures !LifeOf(s.log, i).Waits? ==> Timeout(s, i) == s
    ensures LifeOf(s.log, i).Waits? ==>
      var life := LifeOf(s.log, i);
      var again := life.retryTime == 0 || life.transmissions < life.retryTime;
      Timeout(s, i).log == s.log + [if again then Sent(i, life.frame) else Closed(i)]
    ensures forall j: SessionIndex ::
      LifeOf(Timeout(s, i).log, j) == if j == i then TimedOut(LifeOf(s.log, i)) else LifeOf(s.log, j)
  {
    hide LifeOf, Owned, InPool, AllLegal, AckMatches, LastNumber, Names, LengthOf, SessionOf;
    assert CmdMatches(s, i);
    var life, c := LifeOf(s.log, i), s.cmd[i];
    if life.Waits? {
      WholeIsAnnounced(s.live[c.block], i);
      Snoc(s.log, Sent(i, life.frame));
      Snoc(s.log, Closed(i));
      TransmissionsBounded(s.log, i);
      assert s.log + [] + [Closed(i)] == s.log + [Closed(i)];
    }
  }

  lemma SentCounts(log: seq<Event>, i: SessionIndex, frame: seq<Byte>)
    ensures SentSinceOpened(log + [Sent(i, frame)], i) == SentSinceOpened(log, i) + 1
    ensures SentSinceOpened(log + [Closed(i)], i) == SentSinceOpened(log, i)
  {
    assert (log + [Sent(i, frame)])[..|log|] == log && (log + [Closed(i)])[..|log|] == log;
  }

  /** A command that waits is transmitted at each timeout until its retry time is used up, and then given up. */
  lemma {:induction false} RetriesUsedUp(s: State, i: SessionIndex, n: nat) returns (t: State)
    requires Inv(s) && LifeOf(s.log, i).Waits?
    requires LifeOf(s.log, i).retryTime > 0 && n == LifeOf(s.log, i).retryTime - LifeOf(s.log, i).transmissions + 1
    ensures Reaches(s, Timeouts(i, n), t) && LifeOf(t.log, i) == Over
    ensures SentSinceOpened(t.log, i) == LifeOf(s.log, i).retryTime
    decreases n
  {
    hide Inv, LifeOf, SentSinceOpened, Timeout;
    InvStocked(s);
    InvParts(s);
    TransmissionsBounded(s.log, i);
    TimeoutDoes(s, i);
    StepKeepsInv(s, DoTimeout(i));
    var life, u := LifeOf(s.log, i), Timeout(s, i);
    SentCounts(s.log, i, life.frame);
    assert Timeouts(i, n)[0] == DoTimeout(i) && Timeouts(i, n)[1..] == Timeouts(i, n - 1);
    if n == 1 {
      t := u;
    } else {
      t := RetriesUsedUp(u, i, n - 1);
    }
  }

  /**
   * A command sent with a positive retry time and never acknowledged is transmitted exactly that
   * often, its session being free again with the timeout after the last transmission.
   */
  lemma TransmittedExactly(s: State, mode: Mode, c: Command, retryTime: nat) returns (i: SessionIndex, t: State)
    requires Inv(s) && CommandSize(c) < 1024 && mode != Session0 && SendCMD(s, mode, c, retryTime).1
    requires retryTime > 0
    ensures var r := if mode == Session1 then 1 else retryTime;
      && Reaches(s, [DoSend(mode, c, retryTime)] + Timeouts(i, r), t) && Inv(t)
      && SentSinceOpened(t.log, i) == r && LifeOf(t.log, i) == Over && !t.cmd[i].used
  {
    hide Inv, LifeOf, SentSinceOpened, Carries, SendCMD, CommandSize, LastNumber;
    var r := if mode == Session1 then 1 else retryTime;
    var frame;
    i, frame := CommandSent(s, mode, c, retryTime);
    var a := DoSend(mode, c, retryTime);
    StepKeepsInv(s, a);
    t := RetriesUsedUp(Step(s, a), i, r);
    assert ([a] + Timeouts(i, r))[1..] == Timeouts(i, r);
    RunsKeepInv(Step(s, a), Timeouts(i, r), t);
    FreeWhenOver(t, i);
  }

  lemma FreeWhenOver(s: State, i: SessionIndex)
    requires Inv(s)
    ensures s.cmd[i].used <==> LifeOf(s.log, i).Waits?
  {
    assert CmdMatches(s, i);
  }

  // ------------------------------------------------------------ frames received

  /**
   * A command that wants an acknowledgement is delivered if and only if nothing stands under its
   * session and receiver, or the acknowledgement that stands there was for another number.
   */
  lemma CommandDelivered(s: State, frame: seq<Byte>)
    requires Inv(s) && Stocked(s) && Enabled(s, DoHandle(frame)) && !IsAck(frame) && SessionOf(frame) > 0
    ensures var key := AckKey(frame[5] as nat, SessionOf(frame));
      var ack := LastAck(s.log, key);
      Handle(s, frame).1 <==>
        || StatusOf(s.log, key) == Idle
        || (StatusOf(s.log, key) == Using && ack.Some? && ack.value.seqNum != SeqNumOf(frame))
    ensures Handle(s, frame).1 ==>
      Handle(s, frame).0.log ==
        s.log + [Delivered(AckKey(frame[5] as nat, SessionOf(frame)), SeqNumOf(frame), frame)]
  {
    hide AllLegal, Owned, InPool, LifeOf, StatusOf, LastAck, SessionOf, SeqNumOf, LengthOf, IsAck, CmdMatches;
    var key := AckKey(frame[5] as nat, SessionOf(frame));
    assert ValidKey(key);
    assert AckMatches(s, key);
  }

  /** A command on session 0 is always delivered, and leaves nothing but that. */
  lemma MessageDelivered(s: State, frame: seq<Byte>)
    requires Stocked(s) && |frame| >= HEADER_LEN && !IsAck(frame) && SessionOf(frame) == 0
    ensures Handle(s, frame) == (s.(log := s.log + [Message(frame)]), true)
  {}

  // ------------------------------------------------------------ acknowledgements sent

  // What the other side reads from a frame is this acknowledgement.
  ghost predicate Acknowledges(frame: seq<Byte>, key: AckKey, seqNum: bv16, data: seq<Byte>) {
    && |frame| == AckSize(data) && LengthOf(frame) == |frame| && IsAck(frame)
    && frame[4] == DEVICE && frame[5] as nat == key.receiver
    && SessionOf(frame) == key.session && SeqNumOf(frame) == seqNum
    && (data != [] ==> AckDataOf(frame) == data)
  }

  lemma FrameAcknowledges(key: AckKey, seqNum: bv16, data: seq<Byte>)
    requires ValidKey(key) && AckSize(data) < 1024
    ensures Acknowledges(AckFrame(key, seqNum, data), key, seqNum, data)
  {
    hide AckDataOf, LengthOf, SessionOf, SeqNumOf, IsAck, PackAck;
    var h := AckHeader(key.session, ByteOf(key.receiver), seqNum, |data|);
    AckRoundTrip(h, data);
    assert Unpack(AckFrame(key, seqNum, data)) == h;
  }

  /**
   * Sending an acknowledgement fails only for a session that has none, or for want of room once
   * the one before has been given back. It goes out as one frame, and is from then on the answer
   * to the command of this number.
   */
  lemma AckIsSent(s: State, session: nat, seqNum: bv16, receiver: nat, data: seq<Byte>) returns (frame: seq<Byte>)
    requires Inv(s) && receiver < RECEIVER_NUM && AckSize(data) < 1024
    ensures 0 < session < 32 ==> AckKey(receiver, session) in s.ack
    ensures SendACK(s, session, seqNum, receiver, data).1 <==>
      0 < session < 32 && !NoRoom(s.(live := Released(s, AckKey(receiver, session))), AckSize(data))
    ensures !SendACK(s, session, seqNum, receiver, data).1 ==>
      SendACK(s, session, seqNum, receiver, data).0.log == s.log
    ensures SendACK(s, session, seqNum, receiver, data).1 ==>
      var key, t := AckKey(receiver, session), SendACK(s, session, seqNum, receiver, data).0;
      && Acknowledges(frame, key, seqNum, data) && t.log == s.log + [AckSent(key, seqNum, frame)]
      && StatusOf(t.log, key) == Using && LastAck(t.log, key) == Some(Ack(seqNum, frame))
  {
    hide Inv, Acknowledges, AckFrame, Chosen, Total, AckSize;
    InvParts(s);
    frame := [];
    if 0 < session < 32 {
      var key := AckKey(receiver, session);
      assert ValidKey(key);
      RequestGranted(Released(s, key), AckSize(data), s.limits);
      frame := AckFrame(key, seqNum, data);
      FrameAcknowledges(key, seqNum, data);
      Snoc(s.log, AckSent(key, seqNum, frame));
    }
  }
}
