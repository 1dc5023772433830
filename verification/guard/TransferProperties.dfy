// What holds of every run of a transfer: delivery, the agreement of the two windows, the
// congestion window, the absence of dead ends, and the one way delivery can fail.
module TransferProperties {
  import opened ByteStrings
  import opened Chunks
  import opened Congestion
  import opened Receiver
  import opened Sender
  import opened Transfer

  // A run: every step is enabled where it is taken.
  ghost predicate Runs(j: Job, D: nat -> Bytes, v: System, steps: seq<Step>, w: System)
    decreases |steps|
  {
    if steps == [] then v == w
    else Enabled(j, D, v, steps[0]) && Runs(j, D, Apply(j, v, steps[0]), steps[1..], w)
  }

  lemma {:induction false} RunKeeps(j: Job, D: nat -> Bytes, v: System, steps: seq<Step>, w: System)
    requires SysInv(j, D, v) && Runs(j, D, v, steps, w)
    ensures SysInv(j, D, w)
    decreases |steps|
  {
    hide SysInv; hide Chunk; hide Packets;
    if steps != [] {
      StepKeeps(j, D, v, steps[0]);
      RunKeeps(j, D, Apply(j, v, steps[0]), steps[1..], w);
    }
  }

  // If send returns true and no START copy was delivered after the receiver had acknowledged a
  // DATA frame and before it returned the message, the receiver has returned exactly the bytes
  // given to send; and it has done so once, if no START copy was delivered afterwards. That is
  // so for every interleaving of loss, repetition, reordering, retransmission, foreign sessions
  // and receiver timeouts. And whatever happens, only whole messages are ever returned, each for
  // its own session.
  lemma Delivered(j: Job, D: nat -> Bytes, v: System, steps: seq<Step>, w: System)
    requires Initial(j, D, v) && Runs(j, D, v, steps, w)
    ensures w.s.phase == Succeeded && !w.lateStart ==> Count(w.log, j.sid) >= 1
    ensures !w.restarted ==> Count(w.log, j.sid) <= 1
    ensures D(j.sid) == j.d && forall x :: x in w.log ==> x.message == D(x.session)
  {
    hide Runs; hide Initial; hide Receiver.Inv; hide Taken; hide Count;
    InitialOk(j, D, v);
    RunKeeps(j, D, v, steps, w);
  }

  // The windows of the two ends agree.
  lemma WindowsAgree(j: Job, D: nat -> Bytes, v: System, steps: seq<Step>, w: System)
    requires Initial(j, D, v) && Runs(j, D, v, steps, w)
    // The window is open and at most the receiver's capacity wide, as it is and as the sender
    // last read it.
    ensures 1 <= Min(w.s.control.cwnd, w.s.rwnd) <= WINDOW && 1 <= Min(w.s.curCwnd, w.s.curRwnd) <= WINDOW
    ensures forall a :: a in w.acks ==> 1 <= a.window <= WINDOW
    // The sender is never ahead of the receiver, and no DATA frame that can still arrive
    // lies beyond the receiver's window.
    ensures !w.lateStart && Count(w.log, j.sid) == 0 && w.r.active && w.r.session == j.sid ==>
              w.s.base <= w.r.base && forall f :: f in w.net && f.kind == DATA ==> f.seqNum < w.r.base + WINDOW
    // No number computed on the way exceeds the packet count by more than 513.
    ensures w.s.base <= w.s.next <= j.N() + 1
    ensures w.r.active && w.r.session == j.sid ==> w.r.base + WINDOW <= j.N() + 513
  {
    hide Runs; hide Initial; hide Packets; hide Chunk; hide CreditOk;
    InitialOk(j, D, v);
    RunKeeps(j, D, v, steps, w);
    if !w.lateStart && Count(w.log, j.sid) == 0 && w.r.active && w.r.session == j.sid { SenderNotAhead(j, D, w); }
  }

  lemma SenderNotAhead(j: Job, D: nat -> Bytes, w: System)
    requires SysInv(j, D, w) && !w.lateStart && Count(w.log, j.sid) == 0 && w.r.active && w.r.session == j.sid
    ensures w.s.base <= w.r.base
  {
    hide Packets; hide Chunk; hide CreditOk; hide NetOk;
    assert w.r.base < w.s.base ==> HasAck(w, w.r.base);
  }

  // However many copies of acknowledgements arrive, each data packet is credited to the
  // congestion window at most once, and the window and its threshold stay sound.
  lemma CreditedOnce(j: Job, D: nat -> Bytes, v: System, steps: seq<Step>, w: System)
    requires Initial(j, D, v) && Runs(j, D, v, steps, w)
    ensures forall a, b :: 0 <= a < b < |w.s.credited| ==> w.s.credited[a] != w.s.credited[b]
    ensures forall i :: i in w.s.credited ==> 1 <= i <= j.N() && HasAck(w, i)
    ensures Sound(w.s.control)
  {
    hide Runs; hide Initial; hide Packets; hide Chunk; hide LinkOk; hide Receiver.Inv; hide Sound;
    InitialOk(j, D, v);
    RunKeeps(j, D, v, steps, w);
  }

  // ---------- No dead ends ----------

  // While packets are left, the oldest one is ready to leave the window, or can be sent
  // under the current window, or is buffered for retransmission.
  lemma NotStuck(j: Job, D: nat -> Bytes, v: System)
    requires SysInv(j, D, v) && v.s.phase == Sending && v.s.base <= j.N()
    ensures Acked(v.s, v.s.base) ||
            (v.s.next == v.s.base && v.s.next < v.s.base + Min(v.s.control.cwnd, v.s.rwnd)) ||
            (v.s.base in v.s.buffer && !v.s.buffer[v.s.base].acked && j.DataFrame(v.s.base) in v.net)
  {
    hide Packets; hide Chunk; hide AckOk; hide LinkOk; hide CreditOk;
  }

  // The first step of a run, and the rest.
  lemma RunsHead(j: Job, D: nat -> Bytes, v: System, steps: seq<Step>, w: System) returns (u: System)
    requires Runs(j, D, v, steps, w) && steps != []
    ensures Enabled(j, D, v, steps[0]) && u == Apply(j, v, steps[0]) && Runs(j, D, u, steps[1..], w)
  {
    u := Apply(j, v, steps[0]);
  }

  lemma RunsNowhere(j: Job, D: nat -> Bytes, v: System, w: System)
    requires Runs(j, D, v, [], w)
    ensures v == w
  {}

  lemma RunsCons(j: Job, D: nat -> Bytes, v: System, step: Step, rest: seq<Step>, w: System)
    requires Enabled(j, D, v, step) && Runs(j, D, Apply(j, v, step), rest, w)
    ensures Runs(j, D, v, [step] + rest, w)
  {
    hide Chunk; hide Packets; hide React; hide OnAck; hide SendOne; hide Slide; hide Shrink; hide Genuine; hide Count;
    assert ([step] + rest)[1..] == rest;
  }

  lemma {:induction false} RunsAppend(j: Job, D: nat -> Bytes, v: System, s1: seq<Step>, u: System, s2: seq<Step>,
                                      w: System)
    requires Runs(j, D, v, s1, u) && Runs(j, D, u, s2, w)
    ensures Runs(j, D, v, s1 + s2, w)
    decreases |s1|
  {
    hide Runs; hide Enabled; hide Apply;
    if s1 == [] {
      RunsNowhere(j, D, v, u);
      assert s1 + s2 == s2;
    } else {
      var v' := RunsHead(j, D, v, s1, u);
      RunsAppend(j, D, v', s1[1..], u, s2, w);
      RunsCons(j, D, v, s1[0], s1[1..] + s2, w);
      assert [s1[0]] + (s1[1..] + s2) == s1 + s2;
    }
  }

  // Taking one more step.
  lemma Then(j: Job, D: nat -> Bytes, v: System, steps: seq<Step>, u: System, step: Step)
    requires SysInv(j, D, u) && Runs(j, D, v, steps, u) && Enabled(j, D, u, step)
    ensures SysInv(j, D, Apply(j, u, step)) && Runs(j, D, v, steps + [step], Apply(j, u, step))
  {
    hide SysInv;
    StepKeeps(j, D, u, step);
    var w := Apply(j, u, step);
    assert Runs(j, D, w, [], w);
    assert Runs(j, D, u, [step], w);
    RunsAppend(j, D, v, steps, u, [step], w);
  }

  // The receiver is in the session of a transfer whose START came in time, and has not returned
  // the message yet.
  ghost predicate Live(j: Job, D: nat -> Bytes, v: System) {
    SysInv(j, D, v) && !v.lateStart && Count(v.log, j.sid) == 0 && v.r.active && v.r.session == j.sid
  }

  // The oldest packet left has been sent.
  lemma SendFront(j: Job, D: nat -> Bytes, v: System) returns (steps: seq<Step>, w: System)
    requires Live(j, D, v) && v.s.phase == Sending && v.s.base <= j.N()
    ensures Runs(j, D, v, steps, w) && Live(j, D, w)
    ensures w.s.phase == Sending && w.s.base == v.s.base < w.s.next && w.log == v.log
  {
    hide Runs; hide Packets; hide Chunk; hide NetOk; hide AckOk; hide LinkOk; hide CreditOk; hide Receiver.Inv;
    hide LogOk;
    steps, w := [], v;
    assert Runs(j, D, v, [], v) by { RunsNone(j, D, v); }
    if v.s.next == v.s.base {
      Then(j, D, v, steps, w, ReadCwnd);
      steps, w := steps + [ReadCwnd], Apply(j, w, ReadCwnd);
      Then(j, D, v, steps, w, ReadRwnd);
      steps, w := steps + [ReadRwnd], Apply(j, w, ReadRwnd);
      Then(j, D, v, steps, w, SendData);
      steps, w := steps + [SendData], Apply(j, w, SendData);
    }
  }

  lemma RunsNone(j: Job, D: nat -> Bytes, v: System)
    ensures Runs(j, D, v, [], v)
  {}

  // A copy of the oldest packet that reaches the receiver is acknowledged, and the
  // receiver stays in the session.
  lemma FrontIsAcknowledged(j: Job, D: nat -> Bytes, v: System)
    requires Live(j, D, v) && v.s.phase == Sending && v.s.base <= j.N() && v.s.base < v.s.next
    ensures j.DataFrame(v.s.base) in v.net
    ensures var w := Apply(j, v, Deliver(j.DataFrame(v.s.base)));
            !w.lateStart && w.r.active && w.r.session == j.sid && w.s == v.s && HasAck(w, v.s.base) && w.log == v.log
  {
    hide Packets; hide Chunk; hide Drain; hide AckOk; hide CreditOk; hide LogOk;
    SenderNotAhead(j, D, v);
    var f := j.DataFrame(v.s.base);
    var o := React(v.r, f);
    if v.r.base <= f.seqNum { AcceptSession(v.r, f); }
    var a := AckFrame(v.r.session, f.seqNum, |v.r.buffer|);
    assert o.acks == [a];
    assert a in Apply(j, v, Deliver(f)).acks;
  }

  // The oldest packet has been acknowledged.
  lemma AckFront(j: Job, D: nat -> Bytes, v: System) returns (steps: seq<Step>, w: System)
    requires Live(j, D, v) && v.s.phase == Sending && v.s.base <= j.N() && v.s.base < v.s.next
    ensures Runs(j, D, v, steps, w) && Live(j, D, w)
    ensures w.s.phase == Sending && w.s.base == v.s.base && Acked(w.s, w.s.base) && w.log == v.log
  {
    hide Runs; hide Packets; hide Chunk; hide React; hide NetOk; hide AckOk; hide LinkOk; hide CreditOk;
    hide Receiver.Inv; hide LogOk;
    steps, w := [], v;
    RunsNone(j, D, v);
    if !Acked(v.s, v.s.base) {
      var f := j.DataFrame(v.s.base);
      FrontIsAcknowledged(j, D, v);
      Then(j, D, v, steps, w, Deliver(f));
      steps, w := steps + [Deliver(f)], Apply(j, w, Deliver(f));
      var a :| a in w.acks && a.seqNum == v.s.base;
      Then(j, D, v, steps, w, HearAck(a));
      steps, w := steps + [HearAck(a)], Apply(j, w, HearAck(a));
    }
  }

  // The end of a transfer all of whose packets are acknowledged.
  lemma EndIsAcknowledged(j: Job, D: nat -> Bytes, v: System)
    requires Live(j, D, v) && v.s.phase == Ending
    ensures j.EndFrame() in v.net
    ensures var w := Apply(j, v, Deliver(j.EndFrame())); !w.lateStart && w.s == v.s && HasAck(w, j.N() + 1)
  {
    hide Packets; hide Chunk; hide AckOk; hide CreditOk; hide LogOk; hide SenderOk; hide LinkOk; hide Taken;
    var f := j.EndFrame();
    var a := AckFrame(v.r.session, f.seqNum, |v.r.buffer|);
    assert React(v.r, f).acks == [a];
    assert a in Apply(j, v, Deliver(f)).acks;
  }

  // When END has been acknowledged, the sender only has to hear of it.
  lemma HearEnd(j: Job, D: nat -> Bytes, v: System) returns (steps: seq<Step>, w: System)
    requires SysInv(j, D, v) && v.s.phase == Ending && HasAck(v, j.N() + 1)
    ensures Runs(j, D, v, steps, w) && SysInv(j, D, w)
    ensures w.s.phase == Succeeded && w.log == v.log && w.lateStart == v.lateStart
  {
    hide Runs; hide Packets; hide Chunk; hide React; hide NetOk; hide AckOk; hide LinkOk; hide CreditOk;
    hide Receiver.Inv;
    hide LogOk; hide Count; hide Grow; hide Sound; hide ReturnOk;
    steps, w := [], v;
    RunsNone(j, D, v);
    if !Acked(v.s, j.N() + 1) {
      var a :| a in w.acks && a.seqNum == j.N() + 1;
      Then(j, D, v, steps, w, HearAck(a));
      steps, w := steps + [HearAck(a)], Apply(j, w, HearAck(a));
    }
    Then(j, D, v, steps, w, EndAcked);
    steps, w := steps + [EndAcked], Apply(j, w, EndAcked);
  }

  lemma Conclude(j: Job, D: nat -> Bytes, v: System) returns (steps: seq<Step>, w: System)
    requires Live(j, D, v) && v.s.phase == Ending
    ensures Runs(j, D, v, steps, w) && SysInv(j, D, w) && !w.lateStart && w.s.phase == Succeeded
  {
    hide Runs; hide Packets; hide Chunk; hide React; hide SysInv; hide Count; hide HasAck;
    RunsNone(j, D, v);
    var f := j.EndFrame();
    EndIsAcknowledged(j, D, v);
    Then(j, D, v, [], v, Deliver(f));
    var u := Apply(j, v, Deliver(f));
    var s2;
    s2, w := HearEnd(j, D, u);
    steps := [] + [Deliver(f)] + s2;
    RunsAppend(j, D, v, [] + [Deliver(f)], u, s2, w);
  }

  // Every packet left is sent, acknowledged and leaves the window; nothing is returned yet.
  lemma {:induction false} AllPackets(j: Job, D: nat -> Bytes, v: System) returns (steps: seq<Step>, w: System)
    requires Live(j, D, v) && v.s.phase == Sending
    ensures Runs(j, D, v, steps, w) && Live(j, D, w)
    ensures w.s.phase == Sending && w.s.base == j.N() + 1 && w.log == v.log
    decreases j.N() + 1 - v.s.base
  {
    hide Runs; hide Packets; hide Chunk; hide React; hide NetOk; hide AckOk; hide CreditOk; hide Receiver.Inv;
    hide LogOk; hide LinkOk;
    if v.s.base > j.N() {
      steps, w := [], v;
      RunsNone(j, D, v);
    } else {
      var s1, v1 := SendFront(j, D, v);
      var s2, v2 := AckFront(j, D, v1);
      RunsAppend(j, D, v, s1, v1, s2, v2);
      Then(j, D, v, s1 + s2, v2, SlideBase);
      var v3 := Apply(j, v2, SlideBase);
      var s4, v4 := AllPackets(j, D, v3);
      RunsAppend(j, D, v, s1 + s2 + [SlideBase], v3, s4, v4);
      steps, w := s1 + s2 + [SlideBase] + s4, v4;
    }
  }

  // While START is unanswered, a delivered copy of it opens the session.
  lemma Open(j: Job, D: nat -> Bytes, v: System) returns (steps: seq<Step>, w: System)
    requires SysInv(j, D, v) && v.s.phase == Starting
    ensures Runs(j, D, v, steps, w) && Live(j, D, w) && w.s.phase == Sending && w.log == v.log
  {
    hide Runs; hide Packets; hide Chunk; hide NetOk; hide AckOk; hide CreditOk; hide Receiver.Inv; hide LogOk;
    hide Taken;
    hide Count; hide ReturnOk; hide Sound;
    NothingYet(j, D, v);
    steps, w := [], v;
    RunsNone(j, D, v);
    var f := j.StartFrame();
    assert f in v.net by { StartOnNet(j, v); }
    var a := AckFrame(j.sid, 0, 0);
    Then(j, D, v, steps, w, Deliver(f));
    steps, w := steps + [Deliver(f)], Apply(j, w, Deliver(f));
    assert a in w.acks && w.log == v.log && !w.lateStart;
    Then(j, D, v, steps, w, HearAck(a));
    steps, w := steps + [HearAck(a)], Apply(j, w, HearAck(a));
    assert w.r.active && w.r.session == j.sid && w.log == v.log;
    Then(j, D, v, steps, w, StartAcked);
    steps, w := steps + [StartAcked], Apply(j, w, StartAcked);
  }

  lemma NothingYet(j: Job, D: nat -> Bytes, v: System)
    requires SysInv(j, D, v) && v.s.phase == Starting
    ensures Count(v.log, j.sid) == 0 && !v.lateStart && !v.dataAcked
  {
    hide Packets; hide Chunk; hide Count; hide Taken;
  }

  lemma StartOnNet(j: Job, v: System)
    requires NetOk(j, v)
    ensures j.StartFrame() in v.net
  {}

  // No dead end: from every state of every run in which the transfer is still opening, or is
  // under way with a live receiver, or waits for its end after the message was returned, a
  // continuation without loss ends in success and the receiver has then returned the message.
  lemma CanComplete(j: Job, D: nat -> Bytes, v: System) returns (steps: seq<Step>, w: System)
    requires SysInv(j, D, v)
    requires v.s.phase == Starting || ((v.s.phase == Sending || v.s.phase == Ending) && Live(j, D, v)) ||
             (v.s.phase == Ending && Count(v.log, j.sid) > 0)
    ensures Runs(j, D, v, steps, w) && w.s.phase == Succeeded && Delivery(j.sid, j.d) in w.log
  {
    hide Runs; hide SysInv; hide Packets; hide Count;
    if v.s.phase == Ending && Count(v.log, j.sid) > 0 {
      EndHeard(j, D, v);
      steps, w := HearEnd(j, D, v);
    } else {
      var s1, v1 := [], v;
      RunsNone(j, D, v);
      if v.s.phase == Starting { s1, v1 := Open(j, D, v); }
      if v1.s.phase == Sending {
        var s2, v2 := AllPackets(j, D, v1);
        RunsAppend(j, D, v, s1, v1, s2, v2);
        Then(j, D, v, s1 + s2, v2, SendEnd);
        s1, v1 := s1 + s2 + [SendEnd], Apply(j, v2, SendEnd);
      }
      var s3, v3 := Conclude(j, D, v1);
      RunsAppend(j, D, v, s1, v1, s3, v3);
      steps, w := s1 + s3, v3;
      SucceededIsReturned(j, D, w);
    }
    ReturnedIsDelivered(j, D, w);
  }

  lemma EndHeard(j: Job, D: nat -> Bytes, v: System)
    requires SysInv(j, D, v) && Count(v.log, j.sid) > 0
    ensures HasAck(v, j.N() + 1)
  {
    hide Packets; hide Chunk; hide Taken; hide Count; hide HasAck;
  }

  lemma SucceededIsReturned(j: Job, D: nat -> Bytes, w: System)
    requires SysInv(j, D, w) && w.s.phase == Succeeded && !w.lateStart
    ensures Count(w.log, j.sid) > 0
  {
    hide Packets; hide Chunk; hide Taken; hide Count;
  }

  lemma ReturnedIsDelivered(j: Job, D: nat -> Bytes, w: System)
    requires SysInv(j, D, w) && Count(w.log, j.sid) > 0
    ensures Delivery(j.sid, j.d) in w.log
  {
    hide Packets; hide Chunk; hide Taken;
    var k := CountedThere(w.log, j.sid);
    assert w.log[k] in w.log;
  }

  // ---------- A late START loses the message ----------

  // The receiver after a copy of START.
  function Reset(j: Job): ReceiverState {
    ReceiverState(true, j.sid, 1, |j.d|, j.N(), [], map[], false)
  }

  // A receiver that was reset acknowledges END without having the message.
  lemma EndAfterReset(j: Job, D: nat -> Bytes, v: System) returns (steps: seq<Step>, w: System)
    requires SysInv(j, D, v) && v.s.phase == Sending && v.s.base == j.N() + 1 && j.N() >= 1 && v.r == Reset(j)
    ensures Runs(j, D, v, steps, w)
    ensures w.s.phase == Succeeded && w.lateStart == v.lateStart && w.log == v.log
  {
    hide Runs; hide Packets; hide Chunk; hide NetOk; hide CreditOk; hide LogOk; hide Taken; hide Drain; hide AckOk;
    hide LinkOk; hide Receiver.Inv; hide Count; hide ReturnOk; hide Sound;
    var end, a := j.EndFrame(), AckFrame(j.sid, j.N() + 1, 0);
    RunsNone(j, D, v);
    Then(j, D, v, [], v, SendEnd);
    var u := Apply(j, v, SendEnd);
    Then(j, D, v, [] + [SendEnd], u, Deliver(end));
    var u' := Apply(j, u, Deliver(end));
    assert a in u'.acks;
    var s3;
    s3, w := HearEnd(j, D, u');
    steps := [] + [SendEnd] + [Deliver(end)] + s3;
    RunsAppend(j, D, v, [] + [SendEnd] + [Deliver(end)], u', s3, w);
  }

  // For every message of at least one packet there is a run in which a copy of START
  // arrives after acknowledged data, send returns true and the receiver has returned nothing.
  lemma LateStartLoses(j: Job, D: nat -> Bytes) returns (v: System, steps: seq<Step>, w: System)
    requires D(j.sid) == j.d && j.N() >= 1
    ensures Initial(j, D, v) && Runs(j, D, v, steps, w)
    ensures w.s.phase == Succeeded && w.lateStart && w.log == []
  {
    hide Runs; hide Packets; hide Chunk; hide NetOk; hide CreditOk; hide LogOk; hide Taken; hide Drain;
    v := System(Sender.Init(j), Begin(map[]), {j.StartFrame()}, {}, [], false, false, false);
    InitialOk(j, D, v);
    var s1, v1 := Open(j, D, v);
    var s2, v2 := AllPackets(j, D, v1);
    RunsAppend(j, D, v, s1, v1, s2, v2);
    assert HasAck(v2, 1);
    StartOnNet(j, v2);
    var start := j.StartFrame();
    Then(j, D, v, s1 + s2, v2, Deliver(start));
    var v3 := Apply(j, v2, Deliver(start));
    var s4, v4 := EndAfterReset(j, D, v3);
    RunsAppend(j, D, v, s1 + s2 + [Deliver(start)], v3, s4, v4);
    steps, w := s1 + s2 + [Deliver(start)] + s4, v4;
  }

  // ---------- Progress is measured ----------

  // The frames in the window that wait for an acknowledgement.
  function Waiting(s: SenderState): set<nat> {
    set i | i in s.buffer && s.base <= i < s.next && !s.buffer[i].acked
  }

  // Packets left, packets unsent, packets unacknowledged.
  predicate Less(j: Job, s: SenderState, t: SenderState)
    requires s.base <= s.next <= j.N() + 1 && t.base <= t.next <= j.N() + 1
  {
    s.base > t.base ||
    (s.base == t.base && s.next > t.next) ||
    (s.base == t.base && s.next == t.next && |Waiting(s)| < |Waiting(t)|)
  }

  lemma SlideFalls(j: Job, s: SenderState)
    requires SenderOk(j, s) && s.phase == Sending && Acked(s, s.base)
    ensures Slide(s).base <= Slide(s).next <= j.N() + 1 && Less(j, Slide(s), s)
  {
    hide Packets; hide Chunk; hide Waiting;
  }

  lemma SendFalls(j: Job, s: SenderState)
    requires SenderOk(j, s) && CanSend(j, s)
    ensures SendOne(j, s).base <= SendOne(j, s).next <= j.N() + 1 && Less(j, SendOne(j, s), s)
  {
    hide Packets; hide Chunk; hide Waiting;
  }

  lemma AckFalls(j: Job, s: SenderState, i: nat, window: nat)
    requires SenderOk(j, s)
    ensures var t := OnAck(j, s, i, window);
            t.base == s.base && t.next == s.next && Waiting(t) == Waiting(s) - {i}
  {
    hide Packets; hide Chunk; hide Grow; hide Sound;
    var t := OnAck(j, s, i, window);
    forall k ensures k in Waiting(t) <==> k in Waiting(s) - {i} {}
  }

  // Each slide, each send and each first acknowledgement of a data packet lowers the
  // measure, and a retransmission or a further copy of an acknowledgement leaves it alone.
  lemma MeasureFalls(j: Job, D: nat -> Bytes, v: System, step: Step)
    requires SysInv(j, D, v) && Enabled(j, D, v, step) && v.s.phase == Sending
    requires step.SlideBase? || step.SendData? || step.HearAck?
    ensures var w := Apply(j, v, step);
            w.s.base <= w.s.next <= j.N() + 1 &&
            if step.HearAck? && !(step.ack.seqNum in Waiting(v.s)) then Waiting(w.s) == Waiting(v.s)
            else Less(j, w.s, v.s)
  {
    hide Packets; hide Chunk; hide NetOk; hide AckOk; hide LinkOk; hide CreditOk; hide LogOk; hide Receiver.Inv;
    hide Grow;
    hide ReturnOk; hide Waiting; hide OnAck; hide Slide; hide SendOne; hide Count; hide React; hide Sound;
    match step
    case SlideBase => SlideFalls(j, v.s);
    case SendData => SendFalls(j, v.s);
    case HearAck(a) => AckFalls(j, v.s, a.seqNum, a.window);
  }
}
