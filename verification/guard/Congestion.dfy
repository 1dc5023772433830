// Slow start and congestion avoidance. The code keeps the congestion window as a double
// that only ever holds whole numbers: it starts at 1, grows by 1 and is reset to 1.
module Congestion {

  datatype Control = Control(cwnd: nat, ssthresh: nat, count: nat)

  // A transfer starts with one frame and the threshold at the initial window size.
  const FRESH := Control(1, 64, 0)

  // A first acknowledgement of a data frame.
  function Grow(c: Control): Control {
    if c.cwnd < c.ssthresh then c.(cwnd := c.cwnd + 1)
    else if c.count + 1 >= c.cwnd then c.(cwnd := c.cwnd + 1, count := 0)
    else c.(count := c.count + 1)
  }

  // A retransmission timeout.
  function Shrink(c: Control): Control {
    Control(1, if c.cwnd / 2 > 2 then c.cwnd / 2 else 2, 0)
  }

  ghost predicate Sound(c: Control) {
    c.cwnd >= 1 && c.ssthresh >= 2 && c.count < c.cwnd && (c.cwnd < c.ssthresh ==> c.count == 0)
  }

  lemma SoundKept(c: Control)
    requires Sound(c)
    ensures Sound(Grow(c)) && Sound(Shrink(c))
    ensures c.cwnd <= Grow(c).cwnd <= c.cwnd + 1
  {}

  function GrowTimes(c: Control, n: nat): Control {
    if n == 0 then c else Grow(GrowTimes(c, n - 1))
  }

  // w + (w + 1) + ... + (w + k - 1).
  function SumFrom(w: nat, k: nat): nat {
    if k == 0 then 0 else SumFrom(w, k - 1) + w + k - 1
  }

  lemma {:induction false} CountUp(c: Control, n: nat, m: nat)
    requires GrowTimes(c, n).cwnd >= c.ssthresh && GrowTimes(c, n).ssthresh == c.ssthresh
    requires GrowTimes(c, n).count == 0 && m < GrowTimes(c, n).cwnd
    ensures GrowTimes(c, n + m) == GrowTimes(c, n).(count := m)
  {
    if m > 0 { CountUp(c, n, m - 1); }
  }

  // In congestion avoidance, widening the window from w to w + k takes exactly
  // w + (w + 1) + ... + (w + k - 1) first acknowledgements, and no fewer.
  lemma {:induction false} AvoidanceIsExact(c: Control, k: nat)
    requires Sound(c) && c.cwnd >= c.ssthresh && c.count == 0
    ensures GrowTimes(c, SumFrom(c.cwnd, k)) == c.(cwnd := c.cwnd + k)
    ensures forall n :: 0 <= n < SumFrom(c.cwnd, k) ==> GrowTimes(c, n).cwnd < c.cwnd + k
  {
    if k > 0 {
      AvoidanceIsExact(c, k - 1);
      var s, w := SumFrom(c.cwnd, k - 1), c.cwnd + k - 1;
      CountUp(c, s, w - 1);
      assert SumFrom(c.cwnd, k) == (s + (w - 1)) + 1;
      forall n | s <= n < s + w ensures GrowTimes(c, n).cwnd == w {
        CountUp(c, s, n - s);
      }
    }
  }

  // In slow start every first acknowledgement widens the window by one.
  lemma {:induction false} SlowStartIsExact(c: Control, n: nat)
    requires Sound(c) && c.cwnd + n <= c.ssthresh
    ensures GrowTimes(c, n) == c.(cwnd := c.cwnd + n)
  {
    if n > 0 { SlowStartIsExact(c, n - 1); }
  }

  lemma {:induction false} GrowTimesTwice(c: Control, n: nat, m: nat)
    ensures GrowTimes(GrowTimes(c, n), m) == GrowTimes(c, n + m)
  {
    if m > 0 { GrowTimesTwice(c, n, m - 1); }
  }

  lemma {:induction false} NeverLess(c: Control, n: nat)
    ensures GrowTimes(c, n).cwnd >= c.cwnd
  {
    if n > 0 { NeverLess(c, n - 1); }
  }

  // From a window of 1 with threshold h: the window widens by one with each first acknowledgement
  // up to h, and from there on takes exactly as many of them for k more as congestion avoidance.
  ghost predicate ClimbsTo(c: Control, h: nat, k: nat)
    requires h >= 2
  {
    (forall n :: 0 <= n < h ==> GrowTimes(c, n).cwnd == n + 1) &&
    (forall n :: h - 1 <= n < h - 1 + SumFrom(h, k) ==> h <= GrowTimes(c, n).cwnd < h + k) &&
    GrowTimes(c, h - 1 + SumFrom(h, k)).cwnd == h + k
  }

  lemma Plateau(c: Control, h: nat, k: nat, n: nat)
    requires h >= 2 && c == Control(1, h, 0) && h - 1 <= n <= h - 1 + SumFrom(h, k)
    ensures h <= GrowTimes(c, n).cwnd && (GrowTimes(c, n).cwnd < h + k <==> n < h - 1 + SumFrom(h, k))
    ensures n == h - 1 + SumFrom(h, k) ==> GrowTimes(c, n).cwnd == h + k
  {
    hide GrowTimes; hide SumFrom;
    SlowStartIsExact(c, h - 1);
    var up := c.(cwnd := h);
    AvoidanceIsExact(up, k);
    GrowTimesTwice(c, h - 1, n - (h - 1));
    NeverLess(up, n - (h - 1));
  }

  lemma Climb(c: Control, h: nat, k: nat)
    requires h >= 2 && c == Control(1, h, 0)
    ensures ClimbsTo(c, h, k)
  {
    hide GrowTimes; hide SumFrom;
    forall n | 0 <= n < h ensures GrowTimes(c, n).cwnd == n + 1 { SlowStartIsExact(c, n); }
    forall n | h - 1 <= n < h - 1 + SumFrom(h, k) ensures h <= GrowTimes(c, n).cwnd < h + k { Plateau(c, h, k, n); }
    Plateau(c, h, k, h - 1 + SumFrom(h, k));
  }

  // After a loss at window w the window starts again at 1, and climbs quickly to half of w, or to 2
  // if that is more, and slowly from there.
  lemma Recovery(c: Control, k: nat)
    requires Sound(c)
    ensures Shrink(c).cwnd == 1 && ClimbsTo(Shrink(c), if c.cwnd >= 4 then c.cwnd / 2 else 2, k)
  {
    hide ClimbsTo;
    Climb(Shrink(c), if c.cwnd >= 4 then c.cwnd / 2 else 2, k);
  }

  // A new transfer climbs quickly to 64.
  lemma FreshGrowth(k: nat)
    ensures FRESH.cwnd == 1 && ClimbsTo(FRESH, 64, k)
  {
    hide ClimbsTo;
    Climb(FRESH, 64, k);
  }
}
