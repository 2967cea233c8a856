// What every run of the session machine keeps: each packet in the pool belongs to exactly one
// waiting command or stored acknowledgement, and the log only records what is legal.
module SessionInvariant {
  import opened Options
  import opened Checksum
  import opened Stream
  import opened Frame
  import opened Sessions
  import opened SessionLog

  datatype Owner = Commands(session: SessionIndex) | Acks(key: AckKey)

  // The pool slot an owner holds.
  ghost function Holds(s: State, o: Owner): Option<nat>
    requires |s.cmd| == SESSION_TABLE_NUM
  {
    match o
    case Commands(i) => if s.cmd[i].used then Some(s.cmd[i].block) else None
    case Acks(key) => if key in s.ack then s.ack[key].block else None
  }

  /** Owners hold different slots, all of them in use, and no slot in use is without an owner. */
  ghost predicate Owned(s: State)
    requires |s.cmd| == SESSION_TABLE_NUM
  {
    && (forall o :: Holds(s, o).Some? ==> Holds(s, o).value in s.live)
    && (forall o, p :: o != p && Holds(s, o).Some? && Holds(s, p).Some? ==> Holds(s, o) != Holds(s, p))
    && (forall b :: b in s.live ==> exists o :: Holds(s, o) == Some(b))
  }

  lemma AcquireKeepsOwned(s: State, t: State, o: Owner, slot: nat)
    requires |s.cmd| == |t.cmd| == SESSION_TABLE_NUM && Owned(s)
    requires Holds(s, o) == None && Holds(t, o) == Some(slot)
    requires forall p :: p != o ==> Holds(t, p) == Holds(s, p)
    requires slot !in s.live && t.live.Keys == s.live.Keys + {slot}
    ensures Owned(t)
  {
    forall b | b in t.live ensures exists p :: Holds(t, p) == Some(b) {
      if b == slot {
        assert Holds(t, o) == Some(b);
      } else {
        var p :| Holds(s, p) == Some(b);
        assert Holds(t, p) == Some(b);
      }
    }
  }

  lemma ReleaseKeepsOwned(s: State, t: State, o: Owner)
    requires |s.cmd| == |t.cmd| == SESSION_TABLE_NUM && Owned(s)
    requires Holds(s, o).Some? && Holds(t, o) == None
    requires forall p :: p != o ==> Holds(t, p) == Holds(s, p)
    requires t.live.Keys == s.live.Keys - {Holds(s, o).value}
    ensures Owned(t)
  {
    forall b | b in t.live ensures exists p :: Holds(t, p) == Some(b) {
      var p :| Holds(s, p) == Some(b);
      assert Holds(t, p) == Some(b);
    }
  }

  lemma SameKeepsOwned(s: State, t: State)
    requires |s.cmd| == |t.cmd| == SESSION_TABLE_NUM && Owned(s)
    requires forall p :: Holds(t, p) == Holds(s, p)
    requires t.live.Keys == s.live.Keys
    ensures Owned(t)
  {
    forall b | b in t.live ensures exists p :: Holds(t, p) == Some(b) {
      var p :| Holds(s, p) == Some(b);
      assert Holds(t, p) == Some(b);
    }
  }

  // A packet that says its own length and session.
  ghost predicate Whole(packet: seq<Byte>, session: nat) {
    |packet| >= HEADER_LEN && LengthOf(packet) == |packet| && SessionOf(packet) == session
  }

  lemma WholeIsAnnounced(packet: seq<Byte>, session: nat)
    requires Whole(packet, session)
    ensures Announced(packet) == packet
  {}

  lemma WholeIsLong(packet: seq<Byte>, session: nat)
    requires Whole(packet, session)
    ensures |packet| >= HEADER_LEN
  {}

  lemma CommandIsWhole(c: Command, i: SessionIndex, seqNum: bv16)
    requires CommandSize(c) < 1024
    ensures Whole(CommandFrame(c, i, seqNum), i) && |CommandFrame(c, i, seqNum)| == CommandSize(c)
    ensures Names(CommandFrame(c, i, seqNum), c.cmdSet, c.cmdId) && SeqNumOf(CommandFrame(c, i, seqNum)) == seqNum
  {
    var h := CommandHeader(i, c.receiver, seqNum, |c.data|);
    CommandRoundTrip(h, c.cmdSet, c.cmdId, c.data);
    Unpacked(h, CommandFrame(c, i, seqNum));
  }

  lemma AckIsWhole(key: AckKey, seqNum: bv16, data: seq<Byte>)
    requires ValidKey(key) && AckSize(data) < 1024
    ensures Whole(AckFrame(key, seqNum, data), key.session) && |AckFrame(key, seqNum, data)| == AckSize(data)
    ensures SeqNumOf(AckFrame(key, seqNum, data)) == seqNum
  {
    var h := AckHeader(key.session, ByteOf(key.receiver), seqNum, |data|);
    AckRoundTrip(h, data);
    Unpacked(h, AckFrame(key, seqNum, data));
  }

  lemma Unpacked(h: Header, s: seq<Byte>)
    requires |s| >= HEADER_LEN && Unpack(s) == h
    ensures LengthOf(s) == h.length && SessionOf(s) == h.session && SeqNumOf(s) == h.seqNum
  {}

  // A packet that names its command.
  ghost predicate Names(packet: seq<Byte>, cmdSet: Byte, cmdId: Byte) {
    |packet| >= HEADER_LEN + CMD_SET_PREFIX_LEN && CmdSetOf(packet) == cmdSet && CmdIdOf(packet) == cmdId
  }

  // A command session and what the log says about it.
  ghost predicate CmdMatches(s: State, i: SessionIndex)
    requires |s.cmd| == SESSION_TABLE_NUM
  {
    var c := s.cmd[i];
    (LastNumber(s.log, i).Some? ==> c.preSeqNum == LastNumber(s.log, i)) &&
    if c.used then
      i > 0 && c.block in s.live && Whole(s.live[c.block], i) && Names(s.live[c.block], c.cmdSet, c.cmdId)
      && LifeOf(s.log, i).Waits? && LifeOf(s.log, i).retryTime == c.retryTime
      && LifeOf(s.log, i).frame == s.live[c.block]
      && (c.retryTime > 0 ==> LifeOf(s.log, i).transmissions == c.sent)
    else
      !LifeOf(s.log, i).Waits?
  }

  // An acknowledgement session and what the log says about it.
  ghost predicate AckMatches(s: State, key: AckKey)
    requires key in s.ack
  {
    var a := s.ack[key];
    && a.status == StatusOf(s.log, key)
    && (a.block.Some? <==> LastAck(s.log, key).Some?)
    && (a.block.Some? ==>
          a.block.value in s.live && Whole(s.live[a.block.value], key.session)
          && LastAck(s.log, key) == Some(Ack(SeqNumOf(s.live[a.block.value]), s.live[a.block.value])))
  }

  // Slots in use are slots the pool hands out.
  ghost predicate InPool(s: State) {
    forall b :: b in s.live ==> 0 < b < s.limits.slots - 1
  }

  ghost predicate Inv(s: State) {
    && Shaped(s)
    && Owned(s)
    && InPool(s)
    && (forall i: SessionIndex :: CmdMatches(s, i))
    && (forall key :: key in s.ack ==> AckMatches(s, key))
    && AllLegal(s.log)
  }

  lemma InvStocked(s: State)
    requires Inv(s)
    ensures Stocked(s)
  {
    forall i: SessionIndex | s.cmd[i].used ensures HasPacket(s.live, s.cmd[i].block) {
      assert CmdMatches(s, i);
    }
    forall key | key in s.ack && s.ack[key].status == Using
      ensures s.ack[key].block.Some? && HasPacket(s.live, s.ack[key].block.value)
    {
      assert AckMatches(s, key);
      UsingHasAck(s.log, key);
    }
  }

  // ------------------------------------------------------------ elementary changes

  // One more event that says nothing about any session's life or any key's acknowledgement.
  ghost predicate Silent(e: Event) {
    e.SentOnce? || e.AckReceived? || e.AckResent? || e.Message?
  }

  lemma SilentKeepsInv(s: State, e: Event)
    requires Inv(s) && Silent(e) && Legal(s.log, e)
    ensures Inv(s.(log := s.log + [e]))
  {
    var t := s.(log := s.log + [e]);
    Snoc(s.log, e);
    AllLegalSnoc(s.log, e);
    SameKeepsOwned(s, t);
    forall i: SessionIndex ensures CmdMatches(t, i) { assert CmdMatches(s, i); }
    forall key | key in t.ack ensures AckMatches(t, key) { assert AckMatches(s, key); }
  }

  // Slots held by different owners are different.
  lemma Separate(s: State, o: Owner, p: Owner)
    requires |s.cmd| == SESSION_TABLE_NUM && Owned(s) && o != p
    ensures Holds(s, o).Some? ==> Holds(s, o).value in s.live && Holds(s, o) != Holds(s, p)
  {}

  lemma CloseKeepsInv(s: State, i: SessionIndex)
    requires Inv(s) && s.cmd[i].used && Legal(s.log, Closed(i))
    ensures Inv(CloseSession(s, i, []))
  {
    hide LifeOf, StatusOf, LastAck, LastNumber, Whole, Names;
    var t := CloseSession(s, i, []);
    assert CmdMatches(s, i);
    assert t.log == s.log + [Closed(i)];
    Snoc(s.log, Closed(i));
    AllLegalSnoc(s.log, Closed(i));
    assert Holds(s, Commands(i)) == Some(s.cmd[i].block);
    ReleaseKeepsOwned(s, t, Commands(i));
    forall j: SessionIndex ensures CmdMatches(t, j) {
      assert CmdMatches(s, j);
      if j != i { Separate(s, Commands(j), Commands(i)); }
    }
    forall key | key in t.ack ensures AckMatches(t, key) {
      assert AckMatches(s, key);
      Separate(s, Acks(key), Commands(i));
    }
  }

  // A waiting command transmitted once more.
  lemma ResendKeepsInv(s: State, i: SessionIndex, sent: nat)
    requires Inv(s) && s.cmd[i].used && s.cmd[i].block in s.live
    requires s.cmd[i].retryTime > 0 ==> s.cmd[i].sent < s.cmd[i].retryTime && sent == s.cmd[i].sent + 1
    ensures Inv(s.(cmd := s.cmd[i := s.cmd[i].(sent := sent)], log := s.log + [Sent(i, s.live[s.cmd[i].block])]))
  {
    hide LifeOf, StatusOf, LastAck, LastNumber, Whole, Names;
    assert CmdMatches(s, i);
    var e := Sent(i, s.live[s.cmd[i].block]);
    var t := s.(cmd := s.cmd[i := s.cmd[i].(sent := sent)], log := s.log + [e]);
    Snoc(s.log, e);
    AllLegalSnoc(s.log, e);
    SameKeepsOwned(s, t);
    forall j: SessionIndex ensures CmdMatches(t, j) { assert CmdMatches(s, j); }
    forall key | key in t.ack ensures AckMatches(t, key) { assert AckMatches(s, key); }
  }

  // A command session opened with its packet in a fresh slot, before the first transmission.
  lemma OpenKeepsInv(s: State, i: SessionIndex, c: CmdSession, frame: seq<Byte>)
    requires Inv(s) && i > 0 && !s.cmd[i].used && c.used && c.sent == 0
    requires c.block !in s.live && 0 < c.block < s.limits.slots - 1
    requires Whole(frame, i) && Names(frame, c.cmdSet, c.cmdId)
    requires c.preSeqNum == Some(SeqNumOf(frame)) && LastNumber(s.log, i) != c.preSeqNum
    ensures Inv(s.(cmd := s.cmd[i := c], live := s.live[c.block := frame],
                   log := s.log + [Opened(i, c.retryTime, frame)]))
  {
    hide LifeOf, StatusOf, LastAck, LastNumber, Whole, Names, Owned, AllLegal, SeqNumOf;
    WholeIsLong(frame, i);
    assert CmdMatches(s, i);
    var e := Opened(i, c.retryTime, frame);
    var t := s.(cmd := s.cmd[i := c], live := s.live[c.block := frame], log := s.log + [e]);
    Snoc(s.log, e);
    AllLegalSnoc(s.log, e);
    AcquireKeepsOwned(s, t, Commands(i), c.block);
    forall j: SessionIndex ensures CmdMatches(t, j) { assert CmdMatches(s, j); }
    forall key | key in t.ack ensures AckMatches(t, key) { assert AckMatches(s, key); }
  }

  // A command of the other side delivered.
  lemma DeliverKeepsInv(s: State, key: AckKey, seqNum: bv16, frame: seq<Byte>)
    requires Inv(s) && key in s.ack && Legal(s.log, Delivered(key, seqNum, frame))
    ensures var e := Delivered(key, seqNum, frame);
      Inv(s.(ack := s.ack[key := s.ack[key].(status := StatusStep(s.ack[key].status, key, e))], log := s.log + [e]))
  {
    hide LifeOf, StatusOf, LastAck, LastNumber, Whole, Names;
    var e := Delivered(key, seqNum, frame);
    var t := s.(ack := s.ack[key := s.ack[key].(status := StatusStep(s.ack[key].status, key, e))], log := s.log + [e]);
    Snoc(s.log, e);
    AllLegalSnoc(s.log, e);
    SameKeepsOwned(s, t);
    forall j: SessionIndex ensures CmdMatches(t, j) { assert CmdMatches(s, j); }
    forall k | k in t.ack ensures AckMatches(t, k) { assert AckMatches(s, k); }
  }

  // The state after an acknowledgement is stored in a fresh slot, in place of one stored before.
  ghost function Acknowledged(s: State, key: AckKey, seqNum: bv16, slot: nat, frame: seq<Byte>): State
    requires key in s.ack
  {
    s.(ack := s.ack[key := AckSession(Using, Some(slot))],
       live := Released(s, key)[slot := frame],
       log := s.log + [AckSent(key, seqNum, frame)])
  }

  lemma AckKeepsOwned(s: State, key: AckKey, seqNum: bv16, slot: nat, frame: seq<Byte>)
    requires Shaped(s) && Owned(s) && key in s.ack && slot !in Released(s, key)
    ensures Owned(Acknowledged(s, key, seqNum, slot, frame))
  {
    var mid := s.(ack := s.ack[key := AckSession(Using, None)], live := Released(s, key));
    if s.ack[key].block.Some? {
      ReleaseKeepsOwned(s, mid, Acks(key));
    } else {
      SameKeepsOwned(s, mid);
    }
    AcquireKeepsOwned(mid, Acknowledged(s, key, seqNum, slot, frame), Acks(key), slot);
  }

  // What another owner holds is untouched.
  lemma AckSparesOthers(s: State, key: AckKey, seqNum: bv16, slot: nat, frame: seq<Byte>, o: Owner)
    requires Shaped(s) && Owned(s) && key in s.ack && slot !in Released(s, key) && o != Acks(key)
    ensures var t := Acknowledged(s, key, seqNum, slot, frame);
      Holds(t, o) == Holds(s, o) &&
      (Holds(s, o).Some? ==>
        var b := Holds(s, o).value; b in s.live && b in t.live && t.live[b] == s.live[b])
  {
    Separate(s, o, Acks(key));
  }

  lemma AckStaysInPool(s: State, key: AckKey, seqNum: bv16, slot: nat, frame: seq<Byte>)
    requires InPool(s) && key in s.ack && 0 < slot < s.limits.slots - 1
    ensures InPool(Acknowledged(s, key, seqNum, slot, frame))
  {}

  lemma AckKeepsInv(s: State, key: AckKey, seqNum: bv16, slot: nat, frame: seq<Byte>)
    requires Inv(s) && ValidKey(key) && slot !in Released(s, key) && 0 < slot < s.limits.slots - 1
    requires Whole(frame, key.session) && SeqNumOf(frame) == seqNum
    ensures Inv(Acknowledged(s, key, seqNum, slot, frame))
  {
    hide LifeOf, StatusOf, LastAck, LastNumber, Whole, Names, Owned, InPool, AllLegal, Released, SeqNumOf;
    var e := AckSent(key, seqNum, frame);
    var t := Acknowledged(s, key, seqNum, slot, frame);
    Snoc(s.log, e);
    AllLegalSnoc(s.log, e);
    AckKeepsOwned(s, key, seqNum, slot, frame);
    AckStaysInPool(s, key, seqNum, slot, frame);
    forall j: SessionIndex ensures CmdMatches(t, j) {
      assert CmdMatches(s, j);
      AckSparesOthers(s, key, seqNum, slot, frame, Commands(j));
    }
    forall k | k in t.ack ensures AckMatches(t, k) {
      assert AckMatches(s, k);
      if k != key { AckSparesOthers(s, key, seqNum, slot, frame, Acks(k)); }
    }
  }
}
