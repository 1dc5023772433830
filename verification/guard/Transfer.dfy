// One transfer as a step system: the sender's moves, its listener, the receiver, and a
// network that loses, repeats and reorders frames. Every frame ever sent stays available
// for delivery, so loss is a frame never delivered and a resent frame is the same frame.
module Transfer {
  import opened ByteStrings
  import opened Chunks
  import opened Congestion
  import opened Receiver
  import opened Sender

  // A value the receiver has returned, and the session it was sent in.
  datatype Delivery = Delivery(session: nat, message: Bytes)

  // log holds what the receiver has returned. dataAcked: the receiver has acknowledged a DATA
  // frame of this session; lateStart: a START frame of it was delivered after that and before
  // the message was returned; restarted: one was delivered after the message was returned.
  datatype System = System(s: SenderState, r: ReceiverState, net: set<Frame>, acks: set<Frame>,
                           log: seq<Delivery>, dataAcked: bool, lateStart: bool, restarted: bool)

  // How many values of a session have been returned.
  function Count(log: seq<Delivery>, sid: nat): nat {
    if log == [] then 0
    else Count(log[..|log| - 1], sid) + if log[|log| - 1].session == sid then 1 else 0
  }

  datatype Step =
    | StartAcked | ReadCwnd | ReadRwnd | SendData | Retransmit(seqs: set<nat>) | SlideBase
    | SendEnd | EndAcked | GiveUp
    | HearAck(ack: Frame)
    | Deliver(frame: Frame)
    | Foreign(frame: Frame)
    | ReceiverTimeout

  // The receiver may be in any state earlier sessions can have left it in.
  ghost predicate Initial(j: Job, D: nat -> Bytes, v: System) {
    D(j.sid) == j.d &&
    Receiver.Inv(D, v.r) && (v.r.active ==> v.r.session != j.sid) &&
    v == System(Sender.Init(j), v.r, {j.StartFrame()}, {}, [], false, false, false)
  }

  ghost predicate Enabled(j: Job, D: nat -> Bytes, v: System, step: Step) {
    match step
    case StartAcked => v.s.phase == Starting && Acked(v.s, 0)
    case ReadCwnd => v.s.phase == Sending
    case ReadRwnd => v.s.phase == Sending
    case SendData => v.s.phase == Sending && 1 <= v.s.next && CanSend(j, v.s)
    case Retransmit(seqs) => v.s.phase == Sending && seqs != {} &&
                             forall i :: i in seqs ==>
                               v.s.base <= i < v.s.next && i in v.s.buffer && !v.s.buffer[i].acked
    case SlideBase => v.s.phase == Sending && Acked(v.s, v.s.base)
    case SendEnd => v.s.phase == Sending && v.s.base > j.N()
    case EndAcked => v.s.phase == Ending && Acked(v.s, j.N() + 1)
    case GiveUp => v.s.phase == Starting || v.s.phase == Ending
    case HearAck(a) => a in v.acks
    case Deliver(f) => f in v.net
    case Foreign(f) => f.session != j.sid && Genuine(D, f)
    case ReceiverTimeout => true
  }

  function Returned(f: Frame, o: Outcome): seq<Delivery> {
    if o.result.Some? then [Delivery(f.session, o.result.value)] else []
  }

  lemma CountReturned(log: seq<Delivery>, f: Frame, o: Outcome, sid: nat)
    ensures Count(log + Returned(f, o), sid) == Count(log, sid) + if o.result.Some? && f.session == sid then 1 else 0
  {
    var more := log + Returned(f, o);
    if o.result.Some? {
      assert more[..|more| - 1] == log;
    } else {
      assert more == log;
    }
  }

  lemma {:induction false} CountedThere(log: seq<Delivery>, sid: nat) returns (k: nat)
    requires Count(log, sid) > 0
    ensures k < |log| && log[k].session == sid
  {
    k := |log| - 1;
    if log[k].session != sid { k := CountedThere(log[..k], sid); }
  }

  function Apply(j: Job, v: System, step: Step): System
    requires step.SendData? ==> 1 <= v.s.next <= j.N()
    requires step.SlideBase? ==> Acked(v.s, v.s.base)
  {
    match step
    case StartAcked => v.(s := v.s.(phase := Sending))
    case ReadCwnd => v.(s := v.s.(curCwnd := v.s.control.cwnd))
    case ReadRwnd => v.(s := v.s.(curRwnd := v.s.rwnd))
    case SendData => v.(s := SendOne(j, v.s), net := v.net + {j.DataFrame(v.s.next)})
    case Retransmit(seqs) => v.(s := v.s.(control := Shrink(v.s.control)))
    case SlideBase => v.(s := Slide(v.s))
    case SendEnd => v.(s := v.s.(phase := Ending, buffer := v.s.buffer[j.N() + 1 := Entry(j.EndFrame(), false)]),
                       net := v.net + {j.EndFrame()})
    case EndAcked => v.(s := v.s.(phase := Succeeded))
    case GiveUp => v.(s := v.s.(phase := Failed))
    case HearAck(a) => v.(s := OnAck(j, v.s, a.seqNum, a.window))
    case Deliver(f) =>
      var o := React(v.r, f);
      v.(r := o.state, acks := v.acks + (set a | a in o.acks), log := v.log + Returned(f, o),
         dataAcked := v.dataAcked || (f.kind == DATA && o.acks != []),
         lateStart := v.lateStart || (f.kind == START && v.dataAcked && Count(v.log, j.sid) == 0),
         restarted := v.restarted || (f.kind == START && Count(v.log, j.sid) > 0))
    case Foreign(f) =>
      var o := React(v.r, f);
      v.(r := o.state, log := v.log + Returned(f, o))
    case ReceiverTimeout => v.(r := Begin(v.r.buffer))
  }

  // ---------- The invariant ----------

  ghost predicate SenderOk(j: Job, s: SenderState) {
    1 <= s.base <= s.next <= j.N() + 1 && s.next <= s.base + WINDOW &&
    (s.phase == Starting ==> s.next == 1) &&
    (s.phase == Ending || s.phase == Succeeded ==> s.base == j.N() + 1 && j.N() + 1 in s.buffer) &&
    (s.phase == Starting || s.phase == Sending ==> j.N() + 1 !in s.buffer) &&
    (forall i :: i in s.buffer ==> i == 0 || s.base <= i < s.next || (i == j.N() + 1 && s.base == i)) &&
    (forall i :: s.base <= i < s.next ==> i in s.buffer && s.buffer[i].frame == j.DataFrame(i)) &&
    0 in s.buffer &&
    Sound(s.control) && 1 <= s.rwnd <= WINDOW && 1 <= s.curCwnd && 1 <= s.curRwnd <= WINDOW
  }

  // The frames on the network are exactly those the sender has reached.
  ghost predicate NetOk(j: Job, v: System) {
    (forall f :: f in v.net ==>
      f == j.StartFrame() ||
      (f.kind == DATA && 1 <= f.seqNum < v.s.next && f.seqNum <= j.N() && f == j.DataFrame(f.seqNum)) ||
      (f == j.EndFrame() && v.s.base == j.N() + 1)) &&
    j.StartFrame() in v.net &&
    (forall i :: 1 <= i < v.s.next && i <= j.N() ==> j.DataFrame(i) in v.net) &&
    (v.s.phase == Ending || v.s.phase == Succeeded ==> j.EndFrame() in v.net) &&
    (j.EndFrame() in v.net ==> v.s.phase != Starting && v.s.phase != Sending)
  }

  ghost predicate HasAck(v: System, i: nat) {
    exists a :: a in v.acks && a.seqNum == i
  }

  // Everything the sender counts as acknowledged has been acknowledged.
  ghost predicate AckOk(j: Job, v: System) {
    (forall a :: a in v.acks ==> a.kind == ACK && 1 <= a.window <= WINDOW && a.seqNum <= j.N() + 1) &&
    (forall i :: Acked(v.s, i) ==> HasAck(v, i)) &&
    (forall i :: 1 <= i < v.s.base ==> HasAck(v, i)) &&
    (v.s.phase == Succeeded ==> HasAck(v, j.N() + 1))
  }

  // As long as the message has not been returned, an acknowledged packet has been taken in; an
  // acknowledged END was the end of a call that returned the message.
  ghost predicate LinkOk(j: Job, v: System) {
    (v.dataAcked ==> v.s.next > 1) && (v.lateStart ==> v.dataAcked) &&
    (v.r.active && v.r.session == j.sid && v.r.ended ==> EndReached(j, v)) &&
    (!v.lateStart ==>
      (Count(v.log, j.sid) == 0 ==>
        forall i :: 1 <= i <= j.N() && HasAck(v, i) ==> v.dataAcked && Taken(v.r, j.sid, i)) &&
      (HasAck(v, j.N() + 1) ==> Count(v.log, j.sid) > 0))
  }

  // END was sent and acknowledged.
  ghost predicate EndReached(j: Job, v: System) {
    j.EndFrame() in v.net && HasAck(v, j.N() + 1)
  }

  // The message is returned when END is acknowledged, and not twice without another START in between.
  ghost predicate ReturnOk(j: Job, v: System) {
    (Count(v.log, j.sid) > 0 ==> EndReached(j, v)) &&
    (!v.restarted ==> Count(v.log, j.sid) <= 1) &&
    (!v.restarted && Count(v.log, j.sid) == 1 ==> !(v.r.active && v.r.session == j.sid))
  }

  ghost predicate Distinct(q: seq<nat>) {
    forall a, b :: 0 <= a < b < |q| ==> q[a] != q[b]
  }

  // No packet is credited to the congestion window twice.
  ghost predicate CreditOk(j: Job, s: SenderState) {
    Distinct(s.credited) &&
    forall i :: i in s.credited ==> 1 <= i < s.next && (i < s.base || Acked(s, i))
  }

  // Only whole messages of their sessions are ever returned.
  ghost predicate LogOk(D: nat -> Bytes, log: seq<Delivery>) {
    forall x :: x in log ==> x.message == D(x.session)
  }

  ghost predicate SysInv(j: Job, D: nat -> Bytes, v: System) {
    D(j.sid) == j.d && Receiver.Inv(D, v.r) &&
    SenderOk(j, v.s) && NetOk(j, v) && AckOk(j, v) && LinkOk(j, v) && ReturnOk(j, v) && CreditOk(j, v.s) &&
    LogOk(D, v.log)
  }

  lemma InitialOk(j: Job, D: nat -> Bytes, v: System)
    requires Initial(j, D, v)
    ensures SysInv(j, D, v)
  {}

  // ---------- The sender's own moves ----------

  predicate SenderMove(step: Step) {
    step.StartAcked? || step.ReadCwnd? || step.ReadRwnd? || step.SendData? || step.Retransmit? ||
    step.SlideBase? || step.SendEnd? || step.EndAcked? || step.GiveUp?
  }

  lemma SendKeepsSender(j: Job, s: SenderState)
    requires SenderOk(j, s) && s.phase == Sending && CanSend(j, s)
    ensures SenderOk(j, SendOne(j, s))
  {
    hide Chunk; hide Packets; hide Sound;
  }

  lemma SlideKeepsSender(j: Job, s: SenderState)
    requires SenderOk(j, s) && s.phase == Sending && Acked(s, s.base)
    ensures SenderOk(j, Slide(s))
  {
    hide Chunk; hide Packets; hide Sound;
  }

  lemma SenderMoveKeepsSender(j: Job, D: nat -> Bytes, v: System, step: Step)
    requires SenderOk(j, v.s) && Enabled(j, D, v, step) && SenderMove(step)
    ensures SenderOk(j, Apply(j, v, step).s)
  {
    hide Chunk; hide Packets; hide Sound; hide Shrink; hide Count; hide React; hide SendOne; hide Slide;
    match step
    case SendData => SendKeepsSender(j, v.s);
    case SlideBase => SlideKeepsSender(j, v.s);
    case _ =>
      OneFrame(v.s.control);
      SoundKept(v.s.control);
  }

  lemma OneFrame(c: Control)
    requires Sound(c)
    ensures c.cwnd >= 1
  {}

  lemma SenderMoveKeepsCredit(j: Job, D: nat -> Bytes, v: System, step: Step)
    requires SysInv(j, D, v) && Enabled(j, D, v, step) && SenderMove(step)
    ensures CreditOk(j, Apply(j, v, step).s)
  {
    hide Count; hide Chunk; hide Packets; hide NetOk; hide AckOk; hide LinkOk; hide Receiver.Inv; hide Shrink;
    hide Distinct;
  }

  lemma SenderMoveKeepsNet(j: Job, D: nat -> Bytes, v: System, step: Step)
    requires SysInv(j, D, v) && Enabled(j, D, v, step) && SenderMove(step)
    ensures NetOk(j, Apply(j, v, step))
  {
    hide Count; hide Chunk; hide Packets; hide Shrink; hide AckOk; hide LinkOk; hide CreditOk; hide Receiver.Inv;
    hide LogOk; hide Sound;
  }

  lemma SenderMoveKeepsAck(j: Job, D: nat -> Bytes, v: System, step: Step)
    requires SysInv(j, D, v) && Enabled(j, D, v, step) && SenderMove(step)
    ensures AckOk(j, Apply(j, v, step)) && forall i :: HasAck(Apply(j, v, step), i) == HasAck(v, i)
  {
    hide Count; hide Chunk; hide Packets; hide Shrink; hide NetOk; hide CreditOk; hide Receiver.Inv; hide LogOk;
    hide Sound; hide Taken; hide LinkOk; hide ReturnOk;
    var v' := Apply(j, v, step);
    assert forall i :: HasAck(v', i) == HasAck(v, i);
  }

  lemma SenderMoveKeepsLink(j: Job, D: nat -> Bytes, v: System, step: Step)
    requires SysInv(j, D, v) && Enabled(j, D, v, step) && SenderMove(step)
    ensures LinkOk(j, Apply(j, v, step)) && ReturnOk(j, Apply(j, v, step))
  {
    hide Count; hide Chunk; hide Packets; hide Shrink; hide NetOk; hide CreditOk; hide Receiver.Inv; hide LogOk;
    hide Sound; hide Taken; hide AckOk; hide HasAck;
    SenderMoveKeepsAck(j, D, v, step);
  }

  // ---------- The listener ----------

  lemma OnAckKeepsSender(j: Job, s: SenderState, i: nat, window: nat)
    requires SenderOk(j, s) && 1 <= window <= WINDOW
    ensures SenderOk(j, OnAck(j, s, i, window))
  {
    hide Chunk; hide Packets;
    SoundKept(s.control);
  }

  lemma OnAckKeepsCredit(j: Job, s: SenderState, i: nat, window: nat)
    requires SenderOk(j, s) && CreditOk(j, s)
    ensures CreditOk(j, OnAck(j, s, i, window))
  {
    hide Chunk; hide Packets; hide Grow; hide Sound;
    var s' := OnAck(j, s, i, window);
    assert forall k :: Acked(s, k) ==> Acked(s', k);
    if s'.credited != s.credited {
      assert i !in s.credited;
      assert forall k :: k in s'.credited ==> k in s.credited || k == i;
    }
  }

  lemma HearAckKeepsAck(j: Job, v: System, a: Frame)
    requires AckOk(j, v) && a in v.acks
    ensures AckOk(j, Apply(j, v, HearAck(a)))
    ensures forall i :: HasAck(Apply(j, v, HearAck(a)), i) == HasAck(v, i)
  {
    hide Chunk; hide Packets; hide Grow; hide Count;
    var v' := Apply(j, v, HearAck(a));
    assert HasAck(v, a.seqNum);
    assert forall i :: HasAck(v', i) == HasAck(v, i);
    assert forall i :: Acked(v'.s, i) ==> Acked(v.s, i) || i == a.seqNum;
  }

  lemma HearAckKeeps(j: Job, D: nat -> Bytes, v: System, a: Frame)
    requires SysInv(j, D, v) && a in v.acks
    ensures SysInv(j, D, Apply(j, v, HearAck(a)))
  {
    hide Count; hide Chunk; hide Packets; hide Grow; hide SenderOk; hide CreditOk; hide Receiver.Inv; hide Taken;
    hide HasAck; hide LogOk; hide Sound;
    AcksHaveWindows(j, v, a);
    OnAckKeepsSender(j, v.s, a.seqNum, a.window);
    OnAckKeepsCredit(j, v.s, a.seqNum, a.window);
    HearAckKeepsAck(j, v, a);
    hide AckOk;
  }

  lemma AcksHaveWindows(j: Job, v: System, a: Frame)
    requires AckOk(j, v) && a in v.acks
    ensures 1 <= a.window <= WINDOW
  {}

  // ---------- The receiver ----------

  lemma NetIsGenuine(j: Job, D: nat -> Bytes, v: System, f: Frame)
    requires D(j.sid) == j.d && NetOk(j, v) && f in v.net
    ensures Genuine(D, f) && f.session == j.sid && f.kind != ACK
    ensures f.kind == START ==> f.seqNum == 0
    ensures f.kind == DATA ==> 1 <= f.seqNum <= j.N()
    ensures f.kind == END ==> f.seqNum == j.N() + 1 && v.s.base == j.N() + 1
  {}

  // The acknowledgements a delivered frame adds.
  lemma DeliverKeepsAck(j: Job, D: nat -> Bytes, v: System, f: Frame)
    requires SysInv(j, D, v) && f in v.net
    ensures AckOk(j, Apply(j, v, Deliver(f)))
    ensures forall i :: HasAck(Apply(j, v, Deliver(f)), i) ==>
            HasAck(v, i) || (i == f.seqNum && React(v.r, f).acks != [])
  {
    hide Chunk; hide Packets; hide React; hide Sound; hide LinkOk; hide SenderOk; hide CreditOk;
    var v' := Apply(j, v, Deliver(f));
    NetIsGenuine(j, D, v, f);
    AdvertisedWindow(D, v.r, f);
    assert forall i :: HasAck(v, i) ==> HasAck(v', i);
  }

  // The receiver can only have ended the session because END was sent, and has acknowledged it.
  lemma DeliverEnded(j: Job, D: nat -> Bytes, v: System, f: Frame)
    requires SysInv(j, D, v) && f in v.net
    ensures var r := React(v.r, f).state;
            r.active && r.session == j.sid && r.ended ==> EndReached(j, Apply(j, v, Deliver(f)))
    ensures React(v.r, f).result.Some? ==> EndReached(j, Apply(j, v, Deliver(f)))
  {
    hide Chunk; hide Packets; hide React; hide SenderOk; hide CreditOk; hide Taken; hide HasAck; hide Receiver.Inv;
    hide AckOk; hide LogOk; hide ReturnOk; hide Count;
    NetIsGenuine(j, D, v, f);
    AcksAdded(j, D, v, f);
    var o := React(v.r, f);
    if o.state.active && o.state.session == j.sid && o.state.ended && f.kind != END { EndedByEnd(v.r, f, j.sid); }
    if o.result.Some? { ReturnsAtEnd(D, v.r, f); }
    if f.kind == END && (o.result.Some? || (o.state.active && o.state.session == j.sid && o.state.ended)) {
      EndedIsAcknowledged(D, v.r, f);
    }
  }

  // Delivering a frame adds its acknowledgements.
  lemma AcksAdded(j: Job, D: nat -> Bytes, v: System, f: Frame)
    requires SysInv(j, D, v) && f in v.net
    ensures forall i :: HasAck(v, i) ==> HasAck(Apply(j, v, Deliver(f)), i)
    ensures React(v.r, f).acks != [] ==> HasAck(Apply(j, v, Deliver(f)), f.seqNum)
  {
    hide Chunk; hide Packets; hide React; hide SenderOk; hide CreditOk; hide Taken; hide Receiver.Inv;
    hide AckOk; hide LogOk; hide ReturnOk; hide Count;
    var v' := Apply(j, v, Deliver(f));
    NetIsGenuine(j, D, v, f);
    AdvertisedWindow(D, v.r, f);
    if React(v.r, f).acks != [] {
      var a := React(v.r, f).acks[0];
      assert a in React(v.r, f).acks;
      assert a in v'.acks && a.seqNum == f.seqNum;
    }
    assert forall i :: HasAck(v, i) ==> HasAck(v', i);
  }

  // Before the message is returned, a packet that was acknowledged stays taken in.
  lemma DeliverTakes(j: Job, D: nat -> Bytes, v: System, f: Frame, i: nat)
    requires SysInv(j, D, v) && f in v.net && 1 <= i <= j.N()
    requires var v' := Apply(j, v, Deliver(f)); !v'.lateStart && Count(v.log, j.sid) == 0 && HasAck(v', i)
    ensures var v' := Apply(j, v, Deliver(f)); v'.dataAcked && Taken(v'.r, j.sid, i)
  {
    hide Chunk; hide Packets; hide React; hide SenderOk; hide CreditOk; hide Taken; hide HasAck; hide Receiver.Inv;
    hide Count; hide LogOk; hide ReturnOk; hide AckOk;
    NetIsGenuine(j, D, v, f);
    DeliverKeepsAck(j, D, v, f);
    if HasAck(v, i) {
      TakenKept(D, v.r, f, j.sid, i);
    } else {
      if f.kind == START { assert false; }
      AcknowledgedIsTaken(D, v.r, f);
    }
  }

  // When END is acknowledged the message has been returned.
  lemma DeliverReturns(j: Job, D: nat -> Bytes, v: System, f: Frame)
    requires SysInv(j, D, v) && f in v.net
    requires var v' := Apply(j, v, Deliver(f)); !v'.lateStart && HasAck(v', j.N() + 1)
    ensures Count(Apply(j, v, Deliver(f)).log, j.sid) > 0
  {
    hide Chunk; hide Packets; hide React; hide CreditOk; hide Taken; hide HasAck; hide Receiver.Inv;
    hide Count; hide LogOk; hide ReturnOk;
    CountReturned(v.log, f, React(v.r, f), j.sid);
    if !HasAck(v, j.N() + 1) && Count(v.log, j.sid) == 0 {
      NetIsGenuine(j, D, v, f);
      DeliverKeepsAck(j, D, v, f);
      assert forall i :: 1 <= i <= j.N() ==> HasAck(v, i);
      EndReturns(D, v.r, f);
    }
  }

  lemma DeliverKeepsLink(j: Job, D: nat -> Bytes, v: System, f: Frame)
    requires SysInv(j, D, v) && f in v.net
    ensures LinkOk(j, Apply(j, v, Deliver(f)))
  {
    hide Chunk; hide Packets; hide React; hide Sound; hide SenderOk; hide CreditOk; hide Taken; hide HasAck;
    hide Receiver.Inv; hide Count; hide LogOk; hide ReturnOk; hide AckOk;
    var v' := Apply(j, v, Deliver(f));
    NetIsGenuine(j, D, v, f);
    DeliverEnded(j, D, v, f);
    CountReturned(v.log, f, React(v.r, f), j.sid);
    if !v'.lateStart {
      if Count(v'.log, j.sid) == 0 {
        forall i | 1 <= i <= j.N() && HasAck(v', i) ensures v'.dataAcked && Taken(v'.r, j.sid, i) {
          DeliverTakes(j, D, v, f, i);
        }
      }
      if HasAck(v', j.N() + 1) { DeliverReturns(j, D, v, f); }
    }
  }

  lemma DeliverKeepsReturn(j: Job, D: nat -> Bytes, v: System, f: Frame)
    requires SysInv(j, D, v) && f in v.net
    ensures ReturnOk(j, Apply(j, v, Deliver(f)))
  {
    hide Chunk; hide Packets; hide React; hide Sound; hide SenderOk; hide CreditOk; hide Taken; hide HasAck;
    hide Receiver.Inv; hide Count; hide LogOk; hide AckOk; hide LinkOk;
    NetIsGenuine(j, D, v, f);
    DeliverEnded(j, D, v, f);
    AcksAdded(j, D, v, f);
    CountReturned(v.log, f, React(v.r, f), j.sid);
    if React(v.r, f).result.Some? { ReturnsAtEnd(D, v.r, f); }
    if Count(v.log, j.sid) == 1 && !v.restarted && f.kind != START { EnteredByStart(D, v.r, f, j.sid); }
  }

  lemma DeliverKeepsLog(j: Job, D: nat -> Bytes, v: System, f: Frame)
    requires SysInv(j, D, v) && Genuine(D, f)
    ensures Receiver.Inv(D, React(v.r, f).state) && LogOk(D, v.log + Returned(f, React(v.r, f)))
  {
    hide Chunk; hide Packets; hide React; hide LinkOk; hide AckOk; hide SenderOk; hide CreditOk; hide Genuine;
    ReactKeeps(D, v.r, f);
  }

  lemma DeliverKeeps(j: Job, D: nat -> Bytes, v: System, f: Frame)
    requires SysInv(j, D, v) && f in v.net
    ensures SysInv(j, D, Apply(j, v, Deliver(f)))
  {
    hide Chunk; hide Packets; hide React; hide LinkOk; hide AckOk; hide SenderOk; hide CreditOk; hide ReturnOk;
    hide LogOk;
    hide Count;
    NetIsGenuine(j, D, v, f);
    DeliverKeepsLog(j, D, v, f);
    DeliverKeepsAck(j, D, v, f);
    DeliverKeepsLink(j, D, v, f);
    DeliverKeepsReturn(j, D, v, f);
  }

  lemma ForeignKeepsLink(j: Job, D: nat -> Bytes, v: System, f: Frame)
    requires SysInv(j, D, v) && f.session != j.sid && Genuine(D, f)
    ensures LinkOk(j, Apply(j, v, Foreign(f))) && ReturnOk(j, Apply(j, v, Foreign(f)))
  {
    hide Chunk; hide Packets; hide React; hide SenderOk; hide CreditOk; hide Receiver.Inv; hide Genuine; hide Taken;
    hide Count; hide LogOk; hide AckOk; hide NetOk;
    var v' := Apply(j, v, Foreign(f));
    CountReturned(v.log, f, React(v.r, f), j.sid);
    assert forall i :: HasAck(v', i) == HasAck(v, i);
    if v'.r.active && v'.r.session == j.sid && v'.r.ended { EndedByEnd(v.r, f, j.sid); }
    if !(v.r.active && v.r.session == j.sid) { EnteredByStart(D, v.r, f, j.sid); }
    forall i | Taken(v.r, j.sid, i) ensures Taken(v'.r, j.sid, i) { TakenKept(D, v.r, f, j.sid, i); }
  }

  lemma ForeignKeeps(j: Job, D: nat -> Bytes, v: System, f: Frame)
    requires SysInv(j, D, v) && f.session != j.sid && Genuine(D, f)
    ensures SysInv(j, D, Apply(j, v, Foreign(f)))
  {
    hide Chunk; hide Packets; hide React; hide SenderOk; hide CreditOk; hide Receiver.Inv; hide Genuine; hide Taken;
    hide LinkOk; hide ReturnOk; hide LogOk;
    var v' := Apply(j, v, Foreign(f));
    DeliverKeepsLog(j, D, v, f);
    ForeignKeepsLink(j, D, v, f);
    assert forall i :: HasAck(v', i) == HasAck(v, i);
  }

  lemma TimeoutKeeps(j: Job, D: nat -> Bytes, v: System)
    requires SysInv(j, D, v)
    ensures SysInv(j, D, Apply(j, v, ReceiverTimeout))
  {
    hide Chunk; hide Packets; hide SenderOk; hide CreditOk;
    assert forall i :: HasAck(Apply(j, v, ReceiverTimeout), i) == HasAck(v, i);
  }

  lemma StepKeeps(j: Job, D: nat -> Bytes, v: System, step: Step)
    requires SysInv(j, D, v) && Enabled(j, D, v, step)
    ensures SysInv(j, D, Apply(j, v, step))
  {
    match step
    case HearAck(a) => HearAckKeeps(j, D, v, a);
    case Deliver(f) => DeliverKeeps(j, D, v, f);
    case Foreign(f) => ForeignKeeps(j, D, v, f);
    case ReceiverTimeout => TimeoutKeeps(j, D, v);
    case _ =>
      hide Chunk; hide Packets; hide NetOk; hide AckOk; hide LinkOk; hide CreditOk; hide SenderOk; hide Count;
      SenderMoveKeepsSender(j, D, v, step);
      SenderMoveKeepsCredit(j, D, v, step);
      SenderMoveKeepsNet(j, D, v, step);
      SenderMoveKeepsAck(j, D, v, step);
      SenderMoveKeepsLink(j, D, v, step);
  }
}
