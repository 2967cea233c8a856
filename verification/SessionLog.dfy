// What a log of the session machine says about itself: the life of each command session, the
// last acknowledgement of each key, and which event may follow which log.
module SessionLog {
  import opened Options
  import opened Checksum
  import opened Stream
  import opened Frame
  import opened Sessions

  // ------------------------------------------------------------ reading a log

  function StatusStep(before: AckStatus, key: AckKey, e: Event): AckStatus {
    if e.AckSent? && e.key == key then Using
    else if e.Delivered? && e.key == key then
      // Session 1 is never marked as being processed before its first acknowledgement.
      if key.session == 1 && before == Idle then Idle else Process
    else before
  }

  function StatusOf(log: seq<Event>, key: AckKey): AckStatus {
    if log == [] then Idle else StatusStep(StatusOf(log[..|log| - 1], key), key, log[|log| - 1])
  }

  datatype Ack = Ack(seqNum: bv16, frame: seq<Byte>)

  function LastAckStep(before: Option<Ack>, key: AckKey, e: Event): Option<Ack> {
    if e.AckSent? && e.key == key then Some(Ack(e.seqNum, e.frame)) else before
  }

  function LastAck(log: seq<Event>, key: AckKey): Option<Ack> {
    if log == [] then None else LastAckStep(LastAck(log[..|log| - 1], key), key, log[|log| - 1])
  }

  // A command session: not opened yet, waiting after so many transmissions, or closed.
  datatype Life = Unopened | Waits(retryTime: nat, frame: seq<Byte>, transmissions: nat) | Over

  function LifeStep(before: Life, i: SessionIndex, e: Event): Life {
    match e
    case Opened(j, retryTime, frame) => if j == i then Waits(retryTime, frame, 0) else before
    case Sent(j, _) => if j == i && before.Waits? then before.(transmissions := before.transmissions + 1) else before
    case Closed(j) => if j == i then Over else before
    case _ => before
  }

  function LifeOf(log: seq<Event>, i: SessionIndex): Life {
    if log == [] then Unopened else LifeStep(LifeOf(log[..|log| - 1], i), i, log[|log| - 1])
  }

  // The sequence number of the command a session sent last.
  function LastNumberStep(before: Option<bv16>, i: SessionIndex, e: Event): Option<bv16> {
    if e.Opened? && e.session == i && |e.frame| >= HEADER_LEN then Some(SeqNumOf(e.frame)) else before
  }

  function LastNumber(log: seq<Event>, i: SessionIndex): Option<bv16> {
    if log == [] then None else LastNumberStep(LastNumber(log[..|log| - 1], i), i, log[|log| - 1])
  }

  // Whether the last thing that happened is that a session's acknowledgement came in.
  predicate JustAnswered(log: seq<Event>, i: SessionIndex) {
    log != [] && log[|log| - 1].AckReceived? && log[|log| - 1].session == i
  }

  lemma Snoc(log: seq<Event>, e: Event)
    ensures forall key :: StatusOf(log + [e], key) == StatusStep(StatusOf(log, key), key, e)
    ensures forall key :: LastAck(log + [e], key) == LastAckStep(LastAck(log, key), key, e)
    ensures forall i: SessionIndex :: LifeOf(log + [e], i) == LifeStep(LifeOf(log, i), i, e)
    ensures forall i: SessionIndex :: LastNumber(log + [e], i) == LastNumberStep(LastNumber(log, i), i, e)
  {
    assert (log + [e])[..|log|] == log;
  }

  // ------------------------------------------------------------ what may happen next

  /**
   * A command gets another number than its session's command before. It is sent only while its
   * session waits, always as the same bytes, and no more often than its retry time if that is
   * positive; its session ends only when it is acknowledged, or when it has been sent that often.
   * A command of the other side is delivered only if it
   * is the first of its session or the last one was acknowledged under another sequence number;
   * an acknowledgement is repeated only for the command it acknowledged, byte for byte.
   */
  predicate Legal(log: seq<Event>, e: Event) {
    match e
    case SentOnce(_) => true
    case Opened(i, _, frame) =>
      i > 0 && !LifeOf(log, i).Waits? && |frame| >= HEADER_LEN && LastNumber(log, i) != Some(SeqNumOf(frame))
    case Sent(i, frame) =>
      var life := LifeOf(log, i);
      life.Waits? && frame == life.frame && (life.retryTime > 0 ==> life.transmissions < life.retryTime)
    case Closed(i) =>
      var life := LifeOf(log, i);
      life.Waits? && (JustAnswered(log, i) || (life.retryTime > 0 && life.transmissions >= life.retryTime))
    case AckReceived(i, _) => LifeOf(log, i).Waits?
    case AckSent(key, _, _) => ValidKey(key)
    case AckResent(key, seqNum, frame) =>
      StatusOf(log, key) == Using && LastAck(log, key) == Some(Ack(seqNum, frame))
    case Message(_) => true
    case Delivered(key, seqNum, _) =>
      StatusOf(log, key) == Idle
      || (StatusOf(log, key) == Using && LastAck(log, key).Some? && LastAck(log, key).value.seqNum != seqNum)
  }

  ghost predicate AllLegal(log: seq<Event>) {
    forall k :: 0 <= k < |log| ==> Legal(log[..k], log[k])
  }

  lemma AllLegalSnoc(log: seq<Event>, e: Event)
    requires AllLegal(log) && Legal(log, e)
    ensures AllLegal(log + [e])
  {
    var after := log + [e];
    forall k | 0 <= k < |after| ensures Legal(after[..k], after[k]) {
      assert after[..k] == log[..k];
    }
  }

  // ------------------------------------------------------------ what legal logs have in common

  lemma {:induction false} UsingHasAck(log: seq<Event>, key: AckKey)
    ensures StatusOf(log, key) == Using ==> LastAck(log, key).Some?
  {
    if log != [] { UsingHasAck(log[..|log| - 1], key); }
  }

  // How often a command session has sent since it was last opened.
  function SentSinceOpened(log: seq<Event>, i: SessionIndex): nat {
    if log == [] then 0
    else
      var e := log[|log| - 1];
      if e.Opened? && e.session == i then 0
      else SentSinceOpened(log[..|log| - 1], i) + (if e.Sent? && e.session == i then 1 else 0)
  }

  function RetryTimeOf(log: seq<Event>, i: SessionIndex): nat {
    if log == [] then 0
    else
      var e := log[|log| - 1];
      if e.Opened? && e.session == i then e.retryTime else RetryTimeOf(log[..|log| - 1], i)
  }

  lemma LegalPrefix(log: seq<Event>, n: nat)
    requires AllLegal(log) && n <= |log|
    ensures AllLegal(log[..n])
  {
    forall k | 0 <= k < n ensures Legal(log[..n][..k], log[..n][k]) {
      assert log[..n][..k] == log[..k];
    }
  }

  /** A command with a positive retry time is never transmitted more often than that. */
  lemma {:induction false} TransmissionsBounded(log: seq<Event>, i: SessionIndex)
    requires AllLegal(log)
    ensures RetryTimeOf(log, i) > 0 ==> SentSinceOpened(log, i) <= RetryTimeOf(log, i)
    ensures LifeOf(log, i).Waits? ==>
      LifeOf(log, i).retryTime == RetryTimeOf(log, i) && LifeOf(log, i).transmissions == SentSinceOpened(log, i)
  {
    if log != [] {
      var before, e := log[..|log| - 1], log[|log| - 1];
      LegalPrefix(log, |log| - 1);
      TransmissionsBounded(before, i);
      assert Legal(before, e);
    }
  }

  /** A session ends only with the acknowledgement, or after exactly as many transmissions as its retry time. */
  lemma EndsForAReason(log: seq<Event>, i: SessionIndex, p: nat)
    requires AllLegal(log) && p < |log| && log[p] == Closed(i)
    ensures JustAnswered(log[..p], i) || 0 < RetryTimeOf(log[..p], i) == SentSinceOpened(log[..p], i)
  {
    assert Legal(log[..p], log[p]);
    LegalPrefix(log, p);
    TransmissionsBounded(log[..p], i);
  }

  lemma {:induction false} NumberStays(log: seq<Event>, i: SessionIndex, p: nat, n: nat)
    requires p < n <= |log| && log[p].Opened? && log[p].session == i && |log[p].frame| >= HEADER_LEN
    requires forall k :: p < k < n ==> !(log[k].Opened? && log[k].session == i)
    ensures LastNumber(log[..n], i) == Some(SeqNumOf(log[p].frame))
  {
    assert log[..n][..n - 1] == log[..n - 1];
    if p < n - 1 { NumberStays(log, i, p, n - 1); }
  }

  /** Two commands sent one after the other on one session have different numbers. */
  lemma NumbersDiffer(log: seq<Event>, i: SessionIndex, p: nat, q: nat)
    requires AllLegal(log) && p < q < |log|
    requires log[p].Opened? && log[p].session == i && log[q].Opened? && log[q].session == i
    requires forall k :: p < k < q ==> !(log[k].Opened? && log[k].session == i)
    ensures |log[p].frame| >= HEADER_LEN && |log[q].frame| >= HEADER_LEN
    ensures SeqNumOf(log[p].frame) != SeqNumOf(log[q].frame)
  {
    assert Legal(log[..p], log[p]) && Legal(log[..q], log[q]);
    NumberStays(log, i, p, q);
  }

  // Without an acknowledgement a delivered command keeps its session busy.
  lemma {:induction false} StaysBusy(log: seq<Event>, key: AckKey, p: nat, n: nat)
    requires key.session >= 2 && p < n <= |log| && log[p].Delivered? && log[p].key == key
    requires forall k :: p < k < n ==> !(log[k].AckSent? && log[k].key == key)
    ensures StatusOf(log[..n], key) == Process
  {
    assert log[..n][..n - 1] == log[..n - 1];
    if p < n - 1 {
      StaysBusy(log, key, p, n - 1);
    } else {
      NeverIdleAgain(log, key, p);
    }
  }

  // Only session 1 can be idle after a delivery.
  lemma NeverIdleAgain(log: seq<Event>, key: AckKey, p: nat)
    requires key.session >= 2 && p < |log| && log[p].Delivered? && log[p].key == key
    ensures StatusOf(log[..p + 1], key) == Process
  {
    assert log[..p + 1][..p] == log[..p];
  }

  lemma {:induction false} IdleMeansUntouched(log: seq<Event>, key: AckKey, p: nat, n: nat)
    requires key.session >= 2 && p < n <= |log| && log[p].Delivered? && log[p].key == key
    ensures StatusOf(log[..n], key) != Idle
  {
    assert log[..n][..n - 1] == log[..n - 1];
    if p < n - 1 { IdleMeansUntouched(log, key, p, n - 1); } else { NeverIdleAgain(log, key, p); }
  }

  /**
   * Between two commands delivered on one session from 2 to 31 an acknowledgement was sent, and
   * the later command has another sequence number than the last one acknowledged.
   */
  lemma NoDuplicateDelivery(log: seq<Event>, key: AckKey, p: nat, q: nat)
    requires AllLegal(log) && key.session >= 2 && p < q < |log|
    requires log[p].Delivered? && log[p].key == key && log[q].Delivered? && log[q].key == key
    ensures exists k :: p < k < q && log[k].AckSent? && log[k].key == key
    ensures LastAck(log[..q], key).Some? && LastAck(log[..q], key).value.seqNum != log[q].seqNum
  {
    assert Legal(log[..q], log[q]);
    IdleMeansUntouched(log, key, p, q);
    if forall k :: p < k < q ==> !(log[k].AckSent? && log[k].key == key) {
      StaysBusy(log, key, p, q);
      assert false;
    }
  }

  // ------------------------------------------------------------ what the readings mean

  // Some event up to a place acknowledges a key, or delivers a command under it.
  predicate Acks(e: Event, key: AckKey) {
    e.AckSent? && e.key == key
  }

  predicate Delivers(e: Event, key: AckKey) {
    e.Delivered? && e.key == key
  }

  /** A key is idle if nothing was acknowledged under it and, but for session 1, nothing delivered. */
  lemma {:induction false} IdleMeans(log: seq<Event>, key: AckKey)
    ensures StatusOf(log, key) == Idle <==>
      forall k :: 0 <= k < |log| ==> !Acks(log[k], key) && (key.session == 1 || !Delivers(log[k], key))
  {
    if log != [] {
      var before, n := log[..|log| - 1], |log| - 1;
      IdleMeans(before, key);
      assert forall k :: 0 <= k < n ==> log[k] == before[k];
      if StatusOf(before, key) != Idle && StatusOf(log, key) == Idle { assert false; }
    }
  }

  /** The acknowledgement of a key stands if nothing was delivered under it since the last one. */
  lemma {:induction false} UsingMeans(log: seq<Event>, key: AckKey)
    ensures StatusOf(log, key) == Using <==>
      exists p :: 0 <= p < |log| && Acks(log[p], key) && forall k :: p < k < |log| ==> !Delivers(log[k], key)
  {
    if log != [] {
      var before, n := log[..|log| - 1], |log| - 1;
      UsingMeans(before, key);
      assert forall k :: 0 <= k < n ==> log[k] == before[k];
      if Acks(log[n], key) {
      } else if !Delivers(log[n], key) {
        if StatusOf(log, key) == Using {
          var p :| 0 <= p < n && Acks(before[p], key) && forall k :: p < k < n ==> !Delivers(before[k], key);
          assert Acks(log[p], key);
        }
        if p :| 0 <= p < |log| && Acks(log[p], key) && forall k :: p < k < |log| ==> !Delivers(log[k], key) {
          assert Acks(before[p], key);
        }
      }
    }
  }

  /** A session waits if it was opened and has not been closed since. */
  lemma {:induction false} LifeMeans(log: seq<Event>, i: SessionIndex)
    ensures LifeOf(log, i).Waits? <==>
      exists p :: 0 <= p < |log| && log[p].Opened? && log[p].session == i
        && forall k :: p < k < |log| ==> log[k] != Closed(i)
  {
    if log != [] {
      var before, n := log[..|log| - 1], |log| - 1;
      LifeMeans(before, i);
      assert forall k :: 0 <= k < n ==> log[k] == before[k];
      if log[n].Opened? && log[n].session == i {
        assert log[n].Opened?;
      } else if log[n] != Closed(i) {
        if LifeOf(before, i).Waits? {
          var p :| 0 <= p < n && before[p].Opened? && before[p].session == i
            && forall k :: p < k < n ==> before[k] != Closed(i);
          assert log[p].Opened? && forall k :: p < k < |log| ==> log[k] != Closed(i);
        }
        if p :| && 0 <= p < n && log[p].Opened? && log[p].session == i
                && forall k :: p < k < |log| ==> log[k] != Closed(i) {
          assert before[p].Opened?;
        }
      }
    }
  }
}
