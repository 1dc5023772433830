// The sending end of the guard's link protocol: its moves as functions and the class whose
// loops carry them out.
module Sender {
  import opened ByteStrings
  import opened Chunks
  import opened Congestion
  import opened Receiver

  // A transmitted frame that is kept until the window slides over it.
  datatype Entry = Entry(frame: Frame, acked: bool)

  datatype Phase = Starting | Sending | Ending | Succeeded | Failed

  // curCwnd and curRwnd are the values the main loop last read under the two locks, before that
  // the ones both windows start with.
  // credited lists, in order, the data packets whose acknowledgement widened or counted
  // towards the congestion window.
  datatype SenderState = SenderState(phase: Phase, base: nat, next: nat, buffer: map<nat, Entry>,
                                     control: Control, rwnd: nat, curCwnd: nat, curRwnd: nat, credited: seq<nat>)

  // A transfer of message d in session sid.
  datatype Job = Job(sid: nat, d: Bytes) {
    function N(): nat { Packets(|d|) }

    function StartFrame(): Frame { Frame(START, sid, 0, |d|, 0, []) }

    function DataFrame(i: nat): Frame
      requires 1 <= i <= N()
    {
      Frame(DATA, sid, i, |d|, 0, Chunk(d, i))
    }

    function EndFrame(): Frame { Frame(END, sid, N() + 1, |d|, 0, []) }
  }

  // The state in which START is first sent.
  function Init(j: Job): SenderState {
    SenderState(Starting, 1, 1, map[0 := Entry(j.StartFrame(), false)], FRESH, 64, 1, 64, [])
  }

  function Acked(s: SenderState, i: nat): bool { i in s.buffer && s.buffer[i].acked }

  // What the listener does with an acknowledgement of its session.
  function OnAck(j: Job, s: SenderState, seqNum: nat, window: nat): SenderState {
    if seqNum in s.buffer && !s.buffer[seqNum].acked then
      var s' := s.(buffer := s.buffer[seqNum := s.buffer[seqNum].(acked := true)], rwnd := window);
      if seqNum == 0 || seqNum > j.N() then s'
      else s'.(control := Grow(s.control), credited := s.credited + [seqNum])
    else s
  }

  predicate CanSend(j: Job, s: SenderState) {
    s.next < s.base + Min(s.curCwnd, s.curRwnd) && s.next <= j.N()
  }

  // One frame enters the send buffer and goes out.
  function SendOne(j: Job, s: SenderState): SenderState
    requires 1 <= s.next <= j.N()
  {
    s.(buffer := s.buffer[s.next := Entry(j.DataFrame(s.next), false)], next := s.next + 1)
  }

  // All frames the window admits, and the state after them.
  function SendAll(j: Job, s: SenderState): (SenderState, seq<Frame>)
    requires 1 <= s.next
    decreases j.N() + 1 - s.next
  {
    if CanSend(j, s) then
      var (s', fs) := SendAll(j, SendOne(j, s));
      (s', [j.DataFrame(s.next)] + fs)
    else (s, [])
  }

  // The frames are those numbered from first on, all below the limit.
  ghost predicate Admitted(j: Job, first: nat, limit: nat, frames: seq<Frame>)
    requires 1 <= first
  {
    forall k :: 0 <= k < |frames| ==> first + k < limit && first + k <= j.N() && frames[k] == j.DataFrame(first + k)
  }

  // The frames whose timer has run out, oldest first.
  function Overdue(s: SenderState, timedOut: set<nat>, i: nat): seq<nat>
    decreases s.next - i
  {
    if i >= s.next then []
    else (if i in s.buffer && !s.buffer[i].acked && i in timedOut then [i] else []) + Overdue(s, timedOut, i + 1)
  }

  lemma OverdueNext(s: SenderState, timedOut: set<nat>, i: nat, due: seq<nat>)
    ensures i >= s.next ==> due + Overdue(s, timedOut, i) == due
    ensures i < s.next && i in s.buffer && !s.buffer[i].acked && i in timedOut ==>
              due + Overdue(s, timedOut, i) == (due + [i]) + Overdue(s, timedOut, i + 1)
    ensures i < s.next && !(i in s.buffer && !s.buffer[i].acked && i in timedOut) ==>
              due + Overdue(s, timedOut, i) == due + Overdue(s, timedOut, i + 1)
  {}

  function Slide(s: SenderState): SenderState
    requires Acked(s, s.base)
  {
    s.(buffer := s.buffer - {s.base}, base := s.base + 1)
  }

  function SlideAll(s: SenderState): SenderState
    decreases |s.buffer|
  {
    if Acked(s, s.base) then SlideAll(Slide(s)) else s
  }

  // ---------- What the moves amount to ----------

  // The first number that may not be sent: beyond the smaller window, or after the last packet.
  function SendLimit(j: Job, s: SenderState): nat {
    Max(s.next, Min(s.base + Min(s.curCwnd, s.curRwnd), j.N() + 1))
  }

  function Max(a: nat, b: nat): nat { if a < b then b else a }

  // Sending sends the data frames up to the limit, each once and in order, and files them.
  lemma {:induction false} SendAllIsExact(j: Job, s: SenderState)
    requires 1 <= s.next
    ensures var (t, frames) := SendAll(j, s);
            var limit := SendLimit(j, s);
            |frames| == limit - s.next && t == s.(next := limit, buffer := t.buffer) &&
            (forall k :: 0 <= k < |frames| ==> s.next + k <= j.N() && frames[k] == j.DataFrame(s.next + k)) &&
            (forall i :: i in t.buffer <==> i in s.buffer || s.next <= i < limit) &&
            forall i :: i in t.buffer ==>
              if s.next <= i < limit then i <= j.N() && t.buffer[i] == Entry(j.DataFrame(i), false)
              else i in s.buffer && t.buffer[i] == s.buffer[i]
    decreases j.N() + 1 - s.next
  {
    hide Chunk; hide Packets;
    if CanSend(j, s) { SendAllIsExact(j, SendOne(j, s)); }
  }

  // What is resent are the frames in the window that wait and whose time is up, oldest first.
  lemma {:induction false} OverdueIsExact(s: SenderState, timedOut: set<nat>, i: nat)
    ensures var due := Overdue(s, timedOut, i);
            (forall a, b :: 0 <= a < b < |due| ==> due[a] < due[b]) &&
            forall k :: k in due <==> i <= k < s.next && k in s.buffer && !s.buffer[k].acked && k in timedOut
    decreases s.next - i
  {
    if i < s.next {
      OverdueIsExact(s, timedOut, i + 1);
      var rest, due := Overdue(s, timedOut, i + 1), Overdue(s, timedOut, i);
      assert forall k :: 0 <= k < |rest| ==> rest[k] in rest;
      forall k ensures k in due <==> k in rest || (k == i && k in s.buffer && !s.buffer[k].acked && k in timedOut) {}
    }
  }

  // Sliding stops at the first frame that is not acknowledged, and drops those before it.
  lemma {:induction false} SlideAllIsExact(s: SenderState)
    ensures var t := SlideAll(s);
            t == s.(base := t.base, buffer := t.buffer) && s.base <= t.base && !Acked(s, t.base) &&
            (forall i :: s.base <= i < t.base ==> Acked(s, i)) &&
            t.buffer == map i | i in s.buffer && !(s.base <= i < t.base) :: s.buffer[i]
    decreases |s.buffer|
  {
    if Acked(s, s.base) {
      var u := Slide(s);
      SlideAllIsExact(u);
      var t := SlideAll(u);
      forall i | s.base <= i < t.base ensures Acked(s, i) {
        if i != s.base { assert Acked(u, i); }
      }
      assert t.buffer == map i | i in s.buffer && !(s.base <= i < t.base) :: s.buffer[i];
    } else {
      assert s.buffer == map i | i in s.buffer && !(s.base <= i < s.base) :: s.buffer[i];
    }
  }

  // After the first acknowledgement of a frame, nothing is sent beyond the window it advertised.
  lemma AdvertisedIsObeyed(j: Job, s: SenderState, i: nat, window: nat)
    requires i in s.buffer && !s.buffer[i].acked && 1 <= s.next
    ensures var t := OnAck(j, s, i, window);
            SendLimit(j, t.(curCwnd := t.control.cwnd, curRwnd := t.rwnd)) <= Max(s.next, s.base + window)
  {}

  // ---------- The class ----------

  class GuardL2Sender {
    const job: Job
    var phase: Phase
    var base: nat
    var next: nat
    var sendBuffer: map<nat, Entry>
    var cwnd: nat
    var ssthresh: nat
    var ackCount: nat
    var rwnd: nat
    var curCwnd: nat
    var curRwnd: nat
    ghost var credited: seq<nat>

    ghost function View(): SenderState
      reads this
    {
      SenderState(phase, base, next, sendBuffer, Control(cwnd, ssthresh, ackCount), rwnd, curCwnd, curRwnd, credited)
    }

    constructor (j: Job)
      ensures job == j && View() == Init(j)
      ensures base == next == cwnd == curCwnd == 1 && ssthresh == rwnd == curRwnd == 64 && ackCount == 0
    {
      job := j;
      phase, base, next := Starting, 1, 1;
      sendBuffer := map[0 := Entry(j.StartFrame(), false)];
      cwnd, ssthresh, ackCount := 1, 64, 0;
      rwnd, curCwnd, curRwnd := 64, 1, 64;
      credited := [];
    }

    // The listener's reaction to an acknowledgement, in one locked region.
    method AckListener(seqNum: nat, window: nat)
      modifies this
      ensures View() == OnAck(job, old(View()), seqNum, window)
    {
      if seqNum in sendBuffer && !sendBuffer[seqNum].acked {
        sendBuffer := sendBuffer[seqNum := sendBuffer[seqNum].(acked := true)];
        OnAckReceived(seqNum, window);
      }
    }

    method OnAckReceived(seqNum: nat, window: nat)
      modifies this
      ensures var s := old(View());
              View() == if seqNum == 0 || seqNum > job.N() then s.(rwnd := window)
                        else s.(rwnd := window, control := Grow(s.control), credited := s.credited + [seqNum])
    {
      rwnd := window;
      if seqNum == 0 || seqNum > (|job.d| + 1400 - 1) / 1400 { return; }
      credited := credited + [seqNum];
      if cwnd < ssthresh {
        cwnd := cwnd + 1;
      } else {
        ackCount := ackCount + 1;
        if ackCount >= cwnd {
          cwnd := cwnd + 1;
          ackCount := 0;
        }
      }
    }

    method OnPacketLoss()
      modifies this
      ensures View() == old(View()).(control := Shrink(old(View()).control))
    {
      ssthresh := if cwnd / 2 > 2 then cwnd / 2 else 2;
      cwnd := 1;
      ackCount := 0;
    }

    // Builds the frames the effective window admits, then files and sends them.
    method Fill() returns (frames: seq<Frame>)
      requires 1 <= next
      modifies this
      ensures var s := old(View());
              (View(), frames) == SendAll(job, s.(curCwnd := s.control.cwnd, curRwnd := s.rwnd))
    {
      curCwnd := cwnd;
      curRwnd := rwnd;
      var effective := Min(curCwnd, curRwnd);
      ghost var start := View();
      frames := [];
      var i := next;
      while i < base + effective && i <= job.N()
        invariant start.next <= i && i == start.next + |frames|
        invariant Admitted(job, next, base + effective, frames)
      {
        frames := frames + [job.DataFrame(i)];
        i := i + 1;
      }
      assert !(start.next + |frames| < base + effective && start.next + |frames| <= job.N());
      File(frames);
    }

    lemma OneMore(frames: seq<Frame>, sent: nat, rest: seq<Frame>)
      requires sent < |frames|
      ensures frames[..sent] + ([frames[sent]] + rest) == frames[..sent + 1] + rest
    {}

    // Files and sends the frames; the first is numbered next, and no further one is admitted.
    method File(frames: seq<Frame>)
      requires 1 <= next
      requires Admitted(job, next, base + Min(curCwnd, curRwnd), frames)
      requires !(next + |frames| < base + Min(curCwnd, curRwnd) && next + |frames| <= job.N())
      modifies this
      ensures (View(), frames) == SendAll(job, old(View()))
    {
      hide Chunk; hide Packets;
      ghost var start := View();
      ghost var (end, all) := SendAll(job, start);
      var sent := 0;
      assert frames[..0] + all == all;
      while sent < |frames|
        invariant 0 <= sent <= |frames|
        invariant View() == start.(buffer := sendBuffer, next := start.next + sent)
        invariant SendAll(job, View()).0 == end && frames[..sent] + SendAll(job, View()).1 == all
      {
        ghost var s := View();
        var f := frames[sent];
        assert f == job.DataFrame(s.next) && CanSend(job, s);
        sendBuffer := sendBuffer[f.seqNum := Entry(f, false)];
        if f.seqNum >= next { next := f.seqNum + 1; }
        assert View() == SendOne(job, s);
        OneMore(frames, sent, SendAll(job, View()).1);
        sent := sent + 1;
      }
      assert SendAll(job, View()) == (View(), []);
      assert frames[..sent] + [] == frames;
    }

    // Resends every unacknowledged frame whose timer has run out; timedOut stands for the
    // clock. One loss is recorded however many timers ran out.
    method Retransmit(timedOut: set<nat>) returns (frames: seq<Frame>)
      modifies this
      ensures var due := Overdue(old(View()), timedOut, old(base));
              |frames| == |due| &&
              (forall k :: 0 <= k < |due| ==>
                due[k] in old(sendBuffer) && frames[k] == old(sendBuffer)[due[k]].frame) &&
              View() == if due == [] then old(View()) else old(View()).(control := Shrink(old(View()).control))
    {
      hide Overdue; hide Shrink;
      var due: seq<nat> := [];
      var i := base;
      assert due + Overdue(View(), timedOut, i) == Overdue(View(), timedOut, base);
      while i < next
        invariant base <= i
        invariant View() == old(View()) && due + Overdue(View(), timedOut, i) == Overdue(View(), timedOut, base)
        invariant forall k :: k in due ==> k in sendBuffer
        decreases next - i
      {
        OverdueNext(View(), timedOut, i, due);
        if i in sendBuffer && !sendBuffer[i].acked && i in timedOut {
          due := due + [i];
        }
        i := i + 1;
      }
      OverdueNext(View(), timedOut, i, due);
      assert due == Overdue(old(View()), timedOut, old(base));
      frames := [];
      if due != [] {
        OnPacketLoss();
        frames := Stored(due);
      }
    }

    method Stored(due: seq<nat>) returns (frames: seq<Frame>)
      requires forall i :: i in due ==> i in sendBuffer
      ensures |frames| == |due| && forall k :: 0 <= k < |due| ==> frames[k] == sendBuffer[due[k]].frame
    {
      frames := [];
      var k := 0;
      while k < |due|
        invariant 0 <= k <= |due| && |frames| == k
        invariant forall l :: 0 <= l < k ==> frames[l] == sendBuffer[due[l]].frame
      {
        frames := frames + [sendBuffer[due[k]].frame];
        k := k + 1;
      }
    }

    // Drops acknowledged frames from the front of the window.
    method SlideWindow()
      modifies this
      ensures View() == SlideAll(old(View()))
    {
      while base in sendBuffer && sendBuffer[base].acked
        invariant SlideAll(View()) == SlideAll(old(View()))
        decreases |sendBuffer|
      {
        sendBuffer := sendBuffer - {base};
        base := base + 1;
      }
    }
  }
}
