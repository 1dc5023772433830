// The receiving end of the guard's link protocol: its reaction to one frame as a function,
// what every reaction keeps, and the class that carries it out.
module Receiver {
  import opened ByteStrings
  import opened Chunks

  const WINDOW := 512

  datatype Option<+T> = None | Some(value: T)

  datatype Kind = START | DATA | ACK | END | UNKNOWN

  // The header fields and payload of a frame that passed the length, address and CRC checks.
  datatype Frame = Frame(kind: Kind, session: nat, seqNum: nat, totalSize: nat, window: nat, payload: Bytes)

  type Buffer = map<nat, Bytes>

  datatype ReceiverState = ReceiverState(active: bool, session: nat, base: nat, total: nat, packets: nat,
                                         data: Bytes, buffer: Buffer, ended: bool)

  // What one frame leads to: the next state, the acknowledgements sent, and the value
  // returned if the transfer is over.
  datatype Outcome = Outcome(state: ReceiverState, acks: seq<Frame>, result: Option<Bytes>)

  // A call to receive starts without a session; only the reorder buffer survives calls.
  function Begin(buffer: Buffer): ReceiverState {
    ReceiverState(false, 0, 0, 0, 0, [], buffer, false)
  }

  function AckFrame(session: nat, seqNum: nat, buffered: nat): Frame {
    Frame(ACK, session, seqNum, 0, if WINDOW > buffered then WINDOW - buffered else 0, [])
  }

  // Moves buffered packets that have become next in line into the data.
  function Drain(base: nat, data: Bytes, buffer: Buffer): (nat, Bytes, Buffer)
    decreases |buffer|
  {
    if base in buffer then Drain(base + 1, data + buffer[base], buffer - {base})
    else (base, data, buffer)
  }

  // The check made after every frame that was not skipped.
  function Finish(r: ReceiverState, acks: seq<Frame>): Outcome {
    if r.active && r.ended && r.base == r.packets + 1 then
      Outcome(Begin(r.buffer), acks, Some(if |r.data| == r.total then r.data else []))
    else Outcome(r, acks, None)
  }

  function Accept(r: ReceiverState, f: Frame): ReceiverState
    requires r.base <= f.seqNum
  {
    if f.seqNum == r.base then
      var (base, data, buffer) := Drain(r.base + 1, r.data + f.payload, r.buffer);
      r.(base := base, data := data, buffer := buffer)
    else if f.seqNum in r.buffer then r
    else r.(buffer := r.buffer[f.seqNum := f.payload])
  }

  // Data of another session, or outside any, is skipped without the check.
  predicate Skipped(r: ReceiverState, f: Frame) {
    f.kind == DATA && (!r.active || r.session != f.session)
  }

  // What the frame does before the check, and the acknowledgements it causes.
  function Process(r: ReceiverState, f: Frame): (ReceiverState, seq<Frame>) {
    match f.kind
    case START =>
      if f.seqNum == 0 then
        (ReceiverState(true, f.session, 1, f.totalSize, Packets(f.totalSize), [], map[], false),
          [AckFrame(f.session, 0, 0)])
      else (r, [])
    case DATA =>
      if r.base <= f.seqNum < r.base + WINDOW then (Accept(r, f), [AckFrame(r.session, f.seqNum, |r.buffer|)])
      else if f.seqNum < r.base then (r, [AckFrame(r.session, f.seqNum, |r.buffer|)])
      else (r, [])
    case END =>
      if r.active && r.session == f.session && f.seqNum == r.packets + 1 then
        (r.(ended := true), [AckFrame(r.session, f.seqNum, |r.buffer|)])
      else (r, [])
    case _ => (r, [])
  }

  function React(r: ReceiverState, f: Frame): Outcome {
    if Skipped(r, f) then Outcome(r, [], None)
    else var (r', acks) := Process(r, f); Finish(r', acks)
  }

  // ---------- What every reaction keeps ----------

  // A frame that some sender of the message D(session) built. Other kinds say nothing.
  ghost predicate Genuine(D: nat -> Bytes, f: Frame) {
    var d := D(f.session);
    (f.kind == START ==> f.totalSize == |d|) &&
    (f.kind == DATA ==> 1 <= f.seqNum <= Packets(|d|) && f.payload == Chunk(d, f.seqNum))
  }

  // Every buffered packet is the right one and lies above base and within the window.
  ghost predicate GoodBuffer(d: Bytes, base: nat, buffer: Buffer, window: nat) {
    forall s :: s in buffer ==> base <= s < base + window && 1 <= s <= Packets(|d|) && buffer[s] == Chunk(d, s)
  }

  // The state before the check that may end the transfer.
  ghost predicate Consistent(d: Bytes, r: ReceiverState) {
    r.total == |d| && r.packets == Packets(|d|) && 1 <= r.base <= r.packets + 1 &&
    r.data == Prefix(d, r.base) && r.base !in r.buffer && GoodBuffer(d, r.base, r.buffer, WINDOW)
  }

  ghost predicate Inv(D: nat -> Bytes, r: ReceiverState) {
    r.active ==> Consistent(D(r.session), r) && !(r.ended && r.base == r.packets + 1)
  }

  // Draining keeps the data a prefix of the message and stops at a gap.
  lemma {:induction false} DrainKeeps(d: Bytes, base: nat, data: Bytes, buffer: Buffer, window: nat)
    requires 1 <= base <= Packets(|d|) + 1 && data == Prefix(d, base) && GoodBuffer(d, base, buffer, window)
    ensures var (base', data', buffer') := Drain(base, data, buffer);
            base <= base' <= Packets(|d|) + 1 && data' == Prefix(d, base') && base' !in buffer' &&
            GoodBuffer(d, base', buffer', window) &&
            forall s :: s in buffer ==> s < base' || s in buffer'
    decreases |buffer|
  {
    hide GoodBuffer;
    if base in buffer {
      FirstBuffered(d, base, buffer, window);
      PrefixNext(d, base);
      DrainKeeps(d, base + 1, data + buffer[base], buffer - {base}, window);
    }
  }

  lemma FirstBuffered(d: Bytes, base: nat, buffer: Buffer, window: nat)
    requires GoodBuffer(d, base, buffer, window) && base in buffer
    ensures base <= Packets(|d|) && buffer[base] == Chunk(d, base) && GoodBuffer(d, base + 1, buffer - {base}, window)
  {}

  lemma FinishKeeps(D: nat -> Bytes, r: ReceiverState, acks: seq<Frame>)
    requires r.active ==> Consistent(D(r.session), r)
    ensures var o := Finish(r, acks);
            Inv(D, o.state) && (o.result.Some? ==> r.active && o.result == Some(D(r.session)))
  {
    if r.active { PrefixAll(D(r.session)); }
  }

  lemma AcceptKeeps(d: Bytes, r: ReceiverState, f: Frame)
    requires Consistent(d, r) && r.base <= f.seqNum < r.base + WINDOW
    requires f.seqNum <= Packets(|d|) && f.payload == Chunk(d, f.seqNum)
    ensures Consistent(d, Accept(r, f))
  {
    hide Drain;
    if f.seqNum == r.base {
      PrefixNext(d, r.base);
      DrainKeeps(d, r.base + 1, r.data + f.payload, r.buffer, WINDOW);
    }
  }

  lemma ProcessKeeps(D: nat -> Bytes, r: ReceiverState, f: Frame)
    requires Inv(D, r) && Genuine(D, f) && !Skipped(r, f)
    ensures var r' := Process(r, f).0;
            (r'.active ==> Consistent(D(r'.session), r')) && (r' == r || (r'.active && r'.session == f.session))
  {
    hide Accept;
    if f.kind == DATA && r.base <= f.seqNum < r.base + WINDOW {
      AcceptKeeps(D(f.session), r, f);
      assert Accept(r, f).session == r.session && Accept(r, f).active by { AcceptSession(r, f); }
    }
  }

  lemma AcceptSession(r: ReceiverState, f: Frame)
    requires r.base <= f.seqNum
    ensures var r' := Accept(r, f); r' == r.(base := r'.base, data := r'.data, buffer := r'.buffer)
  {}

  // The invariant is kept by any genuine frame of any session, in any order, and the only
  // value ever returned is the whole message of the session the frame belongs to.
  lemma ReactKeeps(D: nat -> Bytes, r: ReceiverState, f: Frame)
    requires Inv(D, r) && Genuine(D, f)
    ensures var o := React(r, f);
            Inv(D, o.state) && (o.result.Some? ==> o.result == Some(D(f.session)))
  {
    if !Skipped(r, f) {
      var (r', acks) := Process(r, f);
      ProcessKeeps(D, r, f);
      FinishKeeps(D, r', acks);
      assert r' == r ==> Finish(r', acks).result == None;
    }
  }

  // ---------- What is taken in stays taken in ----------

  // Packet i of session sid is in the data or the reorder buffer, unless the receiver is
  // not in that session at all.
  ghost predicate Taken(r: ReceiverState, sid: nat, i: nat) {
    r.active && r.session == sid ==> i < r.base || i in r.buffer
  }

  lemma AcceptTakes(d: Bytes, r: ReceiverState, f: Frame, i: nat)
    requires Consistent(d, r) && r.base <= f.seqNum < r.base + WINDOW
    requires f.seqNum <= Packets(|d|) && f.payload == Chunk(d, f.seqNum)
    requires i < r.base || i in r.buffer || i == f.seqNum
    ensures i < Accept(r, f).base || i in Accept(r, f).buffer
  {
    hide Drain;
    if f.seqNum == r.base {
      PrefixNext(d, r.base);
      DrainKeeps(d, r.base + 1, r.data + f.payload, r.buffer, WINDOW);
    }
  }

  // Only a START of the same session makes the receiver forget a packet.
  lemma TakenKept(D: nat -> Bytes, r: ReceiverState, f: Frame, sid: nat, i: nat)
    requires Inv(D, r) && Genuine(D, f) && !(f.kind == START && f.session == sid)
    requires Taken(r, sid, i)
    ensures Taken(React(r, f).state, sid, i)
  {
    hide Accept; hide Consistent;
    if f.kind == DATA && !Skipped(r, f) && r.base <= f.seqNum < r.base + WINDOW {
      AcceptSession(r, f);
      if r.session == sid { AcceptTakes(D(r.session), r, f, i); }
    }
  }

  // An acknowledged DATA frame has been taken in.
  lemma AcknowledgedIsTaken(D: nat -> Bytes, r: ReceiverState, f: Frame)
    requires Inv(D, r) && Genuine(D, f) && f.kind == DATA && React(r, f).acks != []
    ensures Taken(React(r, f).state, f.session, f.seqNum)
  {
    hide Accept; hide Consistent;
    if r.base <= f.seqNum < r.base + WINDOW {
      AcceptSession(r, f);
      AcceptTakes(D(r.session), r, f, f.seqNum);
    }
  }

  // Only an END of a session marks that session as ended.
  lemma EndedByEnd(r: ReceiverState, f: Frame, sid: nat)
    requires !(f.kind == END && f.session == sid)
    requires var r' := React(r, f).state; r'.active && r'.session == sid && r'.ended
    ensures r.active && r.session == sid && r.ended
  {
    hide Drain;
  }

  // A receiver that has taken in every packet ends the transfer on END, and returns the message.
  lemma EndReturns(D: nat -> Bytes, r: ReceiverState, f: Frame)
    requires Inv(D, r) && f.kind == END && React(r, f).acks != []
    requires forall i :: 1 <= i <= Packets(|D(f.session)|) ==> Taken(r, f.session, i)
    ensures React(r, f).result == Some(D(f.session))
  {
    var d := D(f.session);
    assert r.base <= Packets(|d|) ==> Taken(r, f.session, r.base);
    PrefixAll(d);
  }

  // What is returned is returned on END, or on a DATA frame of the session after its END; then
  // the receiver is in no session.
  lemma ReturnsAtEnd(D: nat -> Bytes, r: ReceiverState, f: Frame)
    requires Inv(D, r) && React(r, f).result.Some?
    ensures f.kind == END || (f.kind == DATA && r.active && r.session == f.session && r.ended)
    ensures !React(r, f).state.active
  {
    hide Drain; hide Consistent;
  }

  // An END that ends the session, or returns its message, is acknowledged, unless the session was
  // ended before.
  lemma EndedIsAcknowledged(D: nat -> Bytes, r: ReceiverState, f: Frame)
    requires Inv(D, r) && f.kind == END
    requires var o := React(r, f); o.result.Some? || (o.state.active && o.state.session == f.session && o.state.ended)
    ensures React(r, f).acks != [] || (r.active && r.session == f.session && r.ended)
  {
    hide Drain; hide Consistent;
  }

  // Only a START of a session brings the receiver into it.
  lemma EnteredByStart(D: nat -> Bytes, r: ReceiverState, f: Frame, sid: nat)
    requires Inv(D, r) && !(r.active && r.session == sid) && !(f.kind == START && f.session == sid)
    ensures var o := React(r, f);
            !(o.state.active && o.state.session == sid) && (f.session == sid ==> o.result.None?)
  {
    hide Drain; hide Consistent;
  }

  // ---------- The advertised window ----------

  lemma {:induction false} BoundedSet(keys: set<nat>, lo: nat, n: nat)
    requires forall k :: k in keys ==> lo <= k < lo + n
    ensures |keys| <= n
  {
    if n > 0 {
      var last := lo + n - 1;
      BoundedSet(keys - {last}, lo, n - 1);
      assert keys <= (keys - {last}) + {last};
      CardinalityOfSubset(keys, (keys - {last}) + {last});
    } else {
      assert keys == {};
    }
  }

  lemma {:induction false} CardinalityOfSubset(a: set<nat>, b: set<nat>)
    requires a <= b
    ensures |a| <= |b|
  {
    if a != {} {
      var k :| k in a;
      CardinalityOfSubset(a - {k}, b - {k});
    }
  }

  // The reorder buffer never fills, so every acknowledgement advertises room for at least
  // one and at most 512 frames; it is sent for the frame's own session and number.
  lemma AdvertisedWindow(D: nat -> Bytes, r: ReceiverState, f: Frame)
    requires Inv(D, r) && Genuine(D, f)
    ensures r.active ==> |r.buffer| <= WINDOW - 1
    ensures forall a :: a in React(r, f).acks ==>
              a.kind == ACK && a.session == f.session && a.seqNum == f.seqNum && 1 <= a.window <= WINDOW
  {
    if r.active {
      BoundedSet(r.buffer.Keys, r.base + 1, WINDOW - 1);
      assert |r.buffer.Keys| == |r.buffer|;
    }
  }

  // ---------- Whole runs ----------

  datatype Event = Arrive(frame: Frame) | Timeout

  // The state after the events and the values returned by completed transfers, in order.
  // A timeout abandons the running call.
  function Run(r: ReceiverState, es: seq<Event>): (ReceiverState, seq<Bytes>)
    decreases |es|
  {
    if es == [] then (r, [])
    else match es[0]
      case Timeout => Run(Begin(r.buffer), es[1..])
      case Arrive(f) =>
        var o := React(r, f);
        var (r', log) := Run(o.state, es[1..]);
        (r', (if o.result.Some? then [o.result.value] else []) + log)
  }

  // Whatever genuine frames of whatever sessions arrive in whatever order and however
  // often, restarts and timeouts included: the data is always a prefix of the running
  // session's message, and only whole messages are returned.
  lemma {:induction false} ReceiverSafety(D: nat -> Bytes, r: ReceiverState, es: seq<Event>)
    requires Inv(D, r)
    requires forall e :: e in es && e.Arrive? ==> Genuine(D, e.frame)
    ensures var (r', log) := Run(r, es);
            Inv(D, r') && forall x :: x in log ==> exists s :: x == D(s)
    decreases |es|
  {
    hide React;
    if es != [] {
      assert es[0] in es;
      match es[0]
      case Timeout => ReceiverSafety(D, Begin(r.buffer), es[1..]);
      case Arrive(f) =>
        ReactKeeps(D, r, f);
        ReceiverSafety(D, React(r, f).state, es[1..]);
    }
  }

  // ---------- Selective repeat ----------

  // What every DATA frame of the running session does that lies less than 512 above base: one
  // acknowledgement of its number, with the room there was, and from then on the packet is in the
  // data or in the reorder buffer, unless it was the last and the message is returned.
  lemma DataIsHeld(D: nat -> Bytes, r: ReceiverState, f: Frame)
    requires Inv(D, r) && Genuine(D, f) && f.kind == DATA
    requires r.active && r.session == f.session && f.seqNum < r.base + 512
    ensures var acks := React(r, f).acks;
            |acks| == 1 && acks[0].kind == ACK && acks[0].session == f.session && acks[0].seqNum == f.seqNum &&
            acks[0].window + |r.buffer| == 512
    ensures var o := React(r, f);
            if o.result.Some? then o.result == Some(D(f.session)) && !o.state.active
            else o.state.active && o.state.session == f.session &&
                 (f.seqNum < o.state.base || (f.seqNum in o.state.buffer && o.state.buffer[f.seqNum] == f.payload))
  {
    AdvertisedWindow(D, r, f);
    ReactKeeps(D, r, f);
    hide Chunk; hide Packets; hide Prefix; hide Drain; hide Accept;
    if r.base <= f.seqNum { DataTakenIn(D, r, f); }
  }

  // The packet after it was taken in.
  lemma DataTakenIn(D: nat -> Bytes, r: ReceiverState, f: Frame)
    requires Inv(D, r) && Genuine(D, f) && f.kind == DATA
    requires r.active && r.session == f.session && r.base <= f.seqNum < r.base + WINDOW
    ensures var r' := Accept(r, f);
            r'.active && r'.session == r.session &&
            (f.seqNum < r'.base || (f.seqNum in r'.buffer && r'.buffer[f.seqNum] == f.payload))
  {
    AcceptSession(r, f);
    AcceptKeeps(D(f.session), r, f);
    AcceptTakes(D(f.session), r, f, f.seqNum);
    hide Accept; hide Chunk; hide Packets; hide Prefix;
  }

  // And a frame further ahead does nothing.
  lemma DataTooFarAhead(r: ReceiverState, f: Frame)
    requires f.kind == DATA && r.active && r.session == f.session && f.seqNum >= r.base + 512
    requires !(r.ended && r.base == r.packets + 1)
    ensures React(r, f) == Outcome(r, [], None)
  {}

  // Draining takes exactly the run of numbers that follows, and leaves the rest of the buffer.
  lemma {:induction false} DrainExact(base: nat, data: Bytes, buffer: Buffer)
    ensures var (base', data', buffer') := Drain(base, data, buffer);
            base <= base' && base' !in buffer && (forall k :: base <= k < base' ==> k in buffer) &&
            buffer' == map k | k in buffer && !(base <= k < base') :: buffer[k]
    decreases |buffer|
  {
    if base in buffer {
      var rest := buffer - {base};
      DrainExact(base + 1, data + buffer[base], rest);
      var (base', data', buffer') := Drain(base, data, buffer);
      forall k | base <= k < base' ensures k in buffer {
        if k != base { assert k in rest; }
      }
      assert buffer' == map k | k in buffer && !(base <= k < base') :: buffer[k];
    } else {
      assert buffer == map k | k in buffer && !(base <= k < base) :: buffer[k];
    }
  }

  // m is the least number from one on that is not in s.
  ghost predicate FirstMissing(s: set<nat>, m: nat) {
    1 <= m && m !in s && forall k :: 1 <= k < m ==> k in s
  }

  // The receiver is in session sid of message d and has been given the packets s.
  ghost predicate HasPackets(d: Bytes, sid: nat, s: set<nat>, ended: bool, r: ReceiverState) {
    (forall n :: n in s ==> 1 <= n <= Packets(|d|)) && FirstMissing(s, r.base) &&
    r == ReceiverState(true, sid, r.base, |d|, Packets(|d|), Prefix(d, r.base), r.buffer, ended) &&
    r.buffer == map n | n in s && n > r.base :: Chunk(d, n)
  }

  // The numbers from one on with n filled in and the run that follows it.
  lemma NextMissing(s: set<nat>, n: nat, m: nat)
    requires FirstMissing(s, n) && n < m && m !in s && forall k :: n < k < m ==> k in s
    ensures FirstMissing(s + {n}, m)
  {}

  // Taking in the packet that is next in line.
  lemma NextPacketAdded(d: Bytes, sid: nat, s: set<nat>, ended: bool, r: ReceiverState, f: Frame)
    requires HasPackets(d, sid, s, ended, r) && r.base == f.seqNum <= Packets(|d|) && f.payload == Chunk(d, f.seqNum)
    ensures HasPackets(d, sid, s + {f.seqNum}, ended, Accept(r, f))
  {
    hide Chunk; hide Packets; hide Prefix; hide Drain;
    var n, s' := f.seqNum, s + {f.seqNum};
    PrefixNext(d, n);
    DrainExact(n + 1, r.data + f.payload, r.buffer);
    DrainPrefix(d, n + 1, r.data + f.payload, r.buffer);
    var r' := Accept(r, f);
    assert forall k :: k > n ==> (k in r.buffer <==> k in s);
    NextMissing(s, n, r'.base);
    hide FirstMissing;
    assert r'.buffer == map k | k in s' && k > r'.base :: Chunk(d, k);
  }

  // Taking in one more packet, wherever it lies in the window.
  lemma PacketAdded(d: Bytes, sid: nat, s: set<nat>, ended: bool, r: ReceiverState, f: Frame)
    requires HasPackets(d, sid, s, ended, r) && r.base <= f.seqNum <= Packets(|d|) && f.payload == Chunk(d, f.seqNum)
    ensures HasPackets(d, sid, s + {f.seqNum}, ended, Accept(r, f))
  {
    hide Chunk; hide Packets; hide Prefix; hide Drain;
    if f.seqNum == r.base {
      NextPacketAdded(d, sid, s, ended, r, f);
    } else {
      var s' := s + {f.seqNum};
      assert Accept(r, f).buffer == map k | k in s' && k > r.base :: Chunk(d, k);
    }
  }

  lemma {:induction false} DrainPrefix(d: Bytes, base: nat, data: Bytes, buffer: Buffer)
    requires 1 <= base <= Packets(|d|) + 1 && data == Prefix(d, base)
    requires forall k :: k in buffer ==> 1 <= k <= Packets(|d|) && buffer[k] == Chunk(d, k)
    ensures var (base', data', _) := Drain(base, data, buffer); base' >= 1 && data' == Prefix(d, base')
    decreases |buffer|
  {
    hide Chunk; hide Prefix; hide Packets;
    if base in buffer {
      PrefixNext(d, base);
      DrainPrefix(d, base + 1, data + buffer[base], buffer - {base});
    }
  }

  // A frame of the message: a copy of one of its packets, or of its END.
  ghost predicate PartOf(d: Bytes, sid: nat, f: Frame) {
    f.session == sid &&
    ((f.kind == DATA && 1 <= f.seqNum <= Packets(|d|) && f.payload == Chunk(d, f.seqNum)) ||
     (f.kind == END && f.seqNum == Packets(|d|) + 1))
  }

  // The numbers of the packets among the frames.
  ghost function Numbers(fs: seq<Frame>): set<nat> {
    set i | 0 <= i < |fs| && fs[i].kind == DATA :: fs[i].seqNum
  }

  ghost predicate EndAmong(fs: seq<Frame>) {
    exists i :: 0 <= i < |fs| && fs[i].kind == END
  }

  // Every packet comes while it lies less than 512 above the first that is missing.
  ghost predicate InWindow(fs: seq<Frame>) {
    forall i, m: nat :: 0 <= i < |fs| && fs[i].kind == DATA && FirstMissing(Numbers(fs[..i]), m) ==>
      fs[i].seqNum < m + 512
  }

  // END and all packets are there.
  ghost predicate AllThere(d: Bytes, fs: seq<Frame>) {
    EndAmong(fs) && forall n :: 1 <= n <= Packets(|d|) ==> n in Numbers(fs)
  }

  function Arrivals(fs: seq<Frame>): seq<Event> {
    seq(|fs|, i requires 0 <= i < |fs| => Arrive(fs[i]))
  }

  // How things stand after a START and some frames: either the message is incomplete and the
  // receiver has what has come, or it has been returned, once.
  ghost predicate Standing(d: Bytes, sid: nat, fs: seq<Frame>, w: ReceiverState, log: seq<Bytes>) {
    if AllThere(d, fs) then !w.active && log == [d]
    else HasPackets(d, sid, Numbers(fs), EndAmong(fs), w) && log == []
  }

  lemma {:induction false} RunAppend(r: ReceiverState, a: seq<Event>, b: seq<Event>)
    ensures var (r1, l1) := Run(r, a); var (r2, l2) := Run(r1, b); Run(r, a + b) == (r2, l1 + l2)
    decreases |a|
  {
    hide React;
    if a == [] {
      assert a + b == b && [] + Run(r, b).1 == Run(r, b).1;
    } else {
      assert (a + b)[1..] == a[1..] + b;
      match a[0]
      case Timeout => RunAppend(Begin(r.buffer), a[1..], b);
      case Arrive(f) =>
        var o := React(r, f);
        RunAppend(o.state, a[1..], b);
        var (r1, l1) := Run(o.state, a[1..]);
        var (r2, l2) := Run(r1, b);
        Join(if o.result.Some? then [o.result.value] else [], l1, l2);
    }
  }

  lemma Join(a: seq<Bytes>, b: seq<Bytes>, c: seq<Bytes>)
    ensures a + (b + c) == (a + b) + c && a + [] == a
  {}

  lemma RunOne(r: ReceiverState, f: Frame)
    ensures var o := React(r, f); Run(r, [Arrive(f)]) == (o.state, if o.result.Some? then [o.result.value] else [])
  {
    hide React;
    assert [Arrive(f)][1..] == [];
    Join(if React(r, f).result.Some? then [React(r, f).result.value] else [], [], []);
  }

  // What one more frame adds to the numbers and the END.
  lemma OneMoreFrame(d: Bytes, fs: seq<Frame>, f: Frame)
    ensures Numbers(fs + [f]) == Numbers(fs) + if f.kind == DATA then {f.seqNum} else {}
    ensures EndAmong(fs + [f]) <==> EndAmong(fs) || f.kind == END
    ensures AllThere(d, fs) ==> AllThere(d, fs + [f])
  {
    var more := fs + [f];
    forall n ensures n in Numbers(more) <==> n in Numbers(fs) + if f.kind == DATA then {f.seqNum} else {} {
      if n in Numbers(fs) {
        var i :| 0 <= i < |fs| && fs[i].kind == DATA && fs[i].seqNum == n;
        assert more[i] == fs[i];
      }
      if f.kind == DATA && n == f.seqNum { assert more[|fs|] == f; }
    }
    if EndAmong(fs) {
      var i :| 0 <= i < |fs| && fs[i].kind == END;
      assert more[i] == fs[i];
    }
    if f.kind == END { assert more[|fs|] == f; }
  }

  // The check that ends the transfer, for a receiver that has the packets s.
  lemma FinishStanding(d: Bytes, sid: nat, fs: seq<Frame>, r: ReceiverState, acks: seq<Frame>)
    requires HasPackets(d, sid, Numbers(fs), EndAmong(fs), r)
    ensures var o := Finish(r, acks);
            Standing(d, sid, fs, o.state, if o.result.Some? then [o.result.value] else [])
  {
    hide Chunk; hide Packets; hide Prefix; hide Numbers; hide EndAmong;
    PrefixAll(d);
    assert r.base > 1 ==> r.base - 1 in Numbers(fs);
  }

  // One more frame, before the message is complete.
  lemma StandingNext(d: Bytes, sid: nat, fs: seq<Frame>, r: ReceiverState, f: Frame)
    requires HasPackets(d, sid, Numbers(fs), EndAmong(fs), r) && !AllThere(d, fs) && PartOf(d, sid, f)
    requires f.kind == DATA ==> f.seqNum < r.base + 512
    ensures var o := React(r, f);
            Standing(d, sid, fs + [f], o.state, if o.result.Some? then [o.result.value] else [])
  {
    hide Chunk; hide Packets; hide Prefix; hide Numbers; hide EndAmong; hide AllThere; hide Accept;
    OneMoreFrame(d, fs, f);
    if f.kind == DATA && r.base <= f.seqNum {
      PacketAdded(d, sid, Numbers(fs), EndAmong(fs), r, f);
    } else if f.kind == DATA {
      assert Numbers(fs) + {f.seqNum} == Numbers(fs);
    } else {
      assert Numbers(fs) + {} == Numbers(fs);
    }
    hide HasPackets; hide Standing;
    FinishStanding(d, sid, fs + [f], Process(r, f).0, Process(r, f).1);
  }

  // Once the message is returned, further copies do nothing.
  lemma StandingDone(d: Bytes, sid: nat, r: ReceiverState, f: Frame)
    requires !r.active && PartOf(d, sid, f)
    ensures !React(r, f).state.active && React(r, f).result.None?
  {
    hide Chunk; hide Packets; hide Drain;
  }

  // The packets of a message in any order and any number of copies, each in the window when it
  // comes, and END at any time and any number of times: the message is returned, once, exactly if
  // all of it has come, and until then the receiver has exactly what has come.
  lemma {:induction false} InAnyOrder(d: Bytes, sid: nat, r: ReceiverState, start: Frame, fs: seq<Frame>)
    requires start.kind == START && start.session == sid && start.seqNum == 0 && start.totalSize == |d|
    requires (forall i :: 0 <= i < |fs| ==> PartOf(d, sid, fs[i])) && InWindow(fs)
    ensures var (w, log) := Run(r, [Arrive(start)] + Arrivals(fs)); Standing(d, sid, fs, w, log)
    decreases |fs|
  {
    hide React; hide PartOf; hide HasPackets; hide AllThere; hide FirstMissing; hide Run;
    if fs == [] {
      StandingStart(d, sid, r, start);
      assert [Arrive(start)] + Arrivals(fs) == [Arrive(start)];
    } else {
      var k := |fs| - 1;
      var before, f := fs[..k], fs[k];
      assert fs == before + [f];
      BeforeInWindow(fs, k);
      InAnyOrder(d, sid, r, start, before);
      assert [Arrive(start)] + Arrivals(fs) == ([Arrive(start)] + Arrivals(before)) + [Arrive(f)];
      RunAppend(r, [Arrive(start)] + Arrivals(before), [Arrive(f)]);
      var (w, log) := Run(r, [Arrive(start)] + Arrivals(before));
      RunOne(w, f);
      OneMoreFrame(d, before, f);
      if AllThere(d, before) {
        StandingDone(d, sid, w, f);
      } else {
        BaseMissing(d, sid, before, w);
        StandingNext(d, sid, before, w, f);
      }
    }
  }

  // The packets of one window: any order will do.
  lemma OneWindow(d: Bytes, sid: nat, r: ReceiverState, start: Frame, fs: seq<Frame>)
    requires start.kind == START && start.session == sid && start.seqNum == 0 && start.totalSize == |d|
    requires |d| <= 512 * 1400 && forall i :: 0 <= i < |fs| ==> PartOf(d, sid, fs[i])
    ensures Run(r, [Arrive(start)] + Arrivals(fs)).1 == if AllThere(d, fs) then [d] else []
  {
    hide React; hide Run; hide Standing; hide AllThere;
    InAnyOrder(d, sid, r, start, fs);
    StandingLog(d, sid, fs, Run(r, [Arrive(start)] + Arrivals(fs)).0, Run(r, [Arrive(start)] + Arrivals(fs)).1);
  }

  lemma StandingLog(d: Bytes, sid: nat, fs: seq<Frame>, w: ReceiverState, log: seq<Bytes>)
    requires Standing(d, sid, fs, w, log)
    ensures log == if AllThere(d, fs) then [d] else []
  {}

  lemma BeforeInWindow(fs: seq<Frame>, k: nat)
    requires InWindow(fs) && k <= |fs|
    ensures InWindow(fs[..k])
  {
    forall i, m: nat | 0 <= i < k && fs[..k][i].kind == DATA && FirstMissing(Numbers(fs[..k][..i]), m)
      ensures fs[..k][i].seqNum < m + 512
    {
      assert fs[..k][..i] == fs[..i];
    }
  }

  lemma BaseMissing(d: Bytes, sid: nat, fs: seq<Frame>, w: ReceiverState)
    requires HasPackets(d, sid, Numbers(fs), EndAmong(fs), w)
    ensures FirstMissing(Numbers(fs), w.base)
  {}

  lemma StandingStart(d: Bytes, sid: nat, r: ReceiverState, start: Frame)
    requires start.kind == START && start.session == sid && start.seqNum == 0 && start.totalSize == |d|
    ensures var (w, log) := Run(r, [Arrive(start)]); Standing(d, sid, [], w, log)
  {
    RunOne(r, start);
    assert Prefix(d, 1) == [];
    assert Numbers([]) == {};
  }

  // ---------- The class ----------

  // The receiving object. Its only field that outlives a call is the reorder buffer; the
  // local variables of the running call are fields here, because frames interrupt it.
  class GuardL2Receiver {
    var buffer: Buffer
    var active: bool
    var session: nat
    var base: nat
    var total: nat
    var packets: nat
    var data: Bytes
    var ended: bool

    function View(): ReceiverState
      reads this
    {
      ReceiverState(active, session, base, total, packets, data, buffer, ended)
    }

    constructor ()
      ensures View() == Begin(map[])
    {
      buffer := map[];
      active, session, base, total, packets, data, ended := false, 0, 0, 0, 0, [], false;
    }

    // Starts a call to receive; also what a timeout leads to.
    method BeginCall()
      modifies this
      ensures View() == Begin(old(buffer))
    {
      active, session, base, total, packets, data, ended := false, 0, 0, 0, 0, [], false;
    }

    method SendAck(seqNum: nat) returns (ack: Frame)
      ensures ack == AckFrame(session, seqNum, |buffer|)
    {
      var used := |buffer|;
      var available := if WINDOW > used then WINDOW - used else 0;
      ack := Frame(ACK, session, seqNum, 0, available, []);
    }

    // Appends a packet that is next in line and all that follow it, or buffers it.
    method TakeIn(f: Frame)
      requires base <= f.seqNum
      modifies this
      ensures View() == Accept(old(View()), f)
    {
      if f.seqNum == base {
        ghost var was := View();
        data := data + f.payload;
        base := base + 1;
        while base in buffer
          invariant Drain(base, data, buffer) == Drain(was.base + 1, was.data + f.payload, was.buffer)
          invariant View() == was.(base := base, data := data, buffer := buffer)
          decreases |buffer|
        {
          data := data + buffer[base];
          buffer := buffer - {base};
          base := base + 1;
        }
      } else if f.seqNum !in buffer {
        buffer := buffer[f.seqNum := f.payload];
      }
    }

    // A DATA frame of the session is taken in if the window allows, and acknowledged if it was
    // taken in now or before.
    method HandleData(f: Frame) returns (acks: seq<Frame>)
      requires f.kind == DATA
      modifies this
      ensures (View(), acks) == Process(old(View()), f)
    {
      hide Accept;
      acks := [];
      if f.seqNum >= base && f.seqNum < base + WINDOW {
        var ack := SendAck(f.seqNum);
        acks := [ack];
        TakeIn(f);
      } else if f.seqNum < base {
        var ack := SendAck(f.seqNum);
        acks := [ack];
      }
    }

    // What a frame does before the check that may end the transfer.
    method ProcessFrame(f: Frame) returns (acks: seq<Frame>)
      modifies this
      ensures (View(), acks) == Process(old(View()), f)
    {
      hide Accept;
      acks := [];
      match f.kind {
        case START =>
          if f.seqNum == 0 {
            active, session, ended := true, f.session, false;
            base := 1;
            total := f.totalSize;
            packets := if total == 0 then 0 else (total + 1400 - 1) / 1400;
            data, buffer := [], map[];
            var ack := SendAck(f.seqNum);
            acks := [ack];
          }
        case DATA =>
          acks := HandleData(f);
        case END =>
          if active && session == f.session && f.seqNum == packets + 1 {
            var ack := SendAck(f.seqNum);
            acks := [ack];
            ended := true;
          }
        case _ =>
      }
    }

    // One turn of the receive loop on a frame that passed the validity checks.
    method Handle(f: Frame) returns (acks: seq<Frame>, result: Option<Bytes>)
      modifies this
      ensures var o := React(old(View()), f); View() == o.state && acks == o.acks && result == o.result
    {
      hide Process;
      acks, result := [], None;
      if f.kind == DATA && (!active || session != f.session) { return; }
      acks := ProcessFrame(f);
      if active && ended && base == packets + 1 {
        result := Some(if |data| == total then data else []);
        BeginCall();
      }
    }
  }
}
