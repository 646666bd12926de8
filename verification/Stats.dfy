/** Receive statistics of one RTP stream (core/rtp/stats.go). Times are nanoseconds; 0 is the unset time. */
module Stats {
  import opened Words
  import opened PacketIndex
  import opened Mos

  datatype Arrival = Arrival(sn: u16, at: int)

  datatype Counters = Counters(received: nat, lost: nat, jitter: real, lastSeq: u16, lastArrival: int,
                               initialized: bool, rollover: u16, highest: u32)

  const ZERO := Counters(0, 0, 0.0, 0, 0, false, 0, 0)

  /** Whole milliseconds of a duration, truncated toward zero. */
  function Milliseconds(ns: int): int {
    if ns >= 0 then ns / 1_000_000 else -(-ns / 1_000_000)
  }

  /** How far two arrivals are from being 20 ms apart. */
  function Deviation(prev: int, at: int): (d: real)
    ensures d >= 0.0
  {
    var d := Milliseconds(at - prev) as real - 20.0;
    if d < 0.0 then -d else d
  }

  /** The forward distance from one sequence number to the next, around the circle. */
  function Forward(a: u16, b: u16): (d: nat)
    ensures d < TWO16
  {
    if b >= a then b - a else b - a + TWO16
  }

  function Ingest(c: Counters, p: Arrival): Counters {
    if !c.initialized then
      c.(received := c.received + 1, lastSeq := p.sn, lastArrival := p.at, initialized := true, highest := p.sn)
    else
      var rollover := if p.sn - c.lastSeq < -TWO15 then (c.rollover + 1) % TWO16 else c.rollover;
      var extended := rollover * TWO16 + p.sn;
      var step := Forward(c.lastSeq, p.sn);
      Counters(c.received + 1,
               c.lost + (if step > 1 then step - 1 else 0),
               if c.lastArrival != 0 then c.jitter * 0.9 + Deviation(c.lastArrival, p.at) * 0.1 else c.jitter,
               p.sn, p.at, true, rollover,
               if extended > c.highest then extended else c.highest)
  }

  class RtpStats {
    var packetsReceived: nat
    var packetsLost: nat
    var jitter: real
    var lastSeq: u16
    var lastArrival: int
    var initialized: bool
    var rollover: u16
    var highestSeqExtended: u32

    function View(): Counters reads this {
      Counters(packetsReceived, packetsLost, jitter, lastSeq, lastArrival, initialized, rollover, highestSeqExtended)
    }

    constructor ()
      ensures View() == ZERO
    {
      packetsReceived, packetsLost, jitter := 0, 0, 0.0;
      lastSeq, lastArrival, initialized, rollover, highestSeqExtended := 0, 0, false, 0, 0;
    }

    method Update(sn: u16, arrival: int)
      modifies this
      ensures View() == Ingest(old(View()), Arrival(sn, arrival))
    {
      hide Milliseconds;
      if !initialized {
        lastSeq := sn;
        lastArrival := arrival;
        initialized := true;
        packetsReceived := packetsReceived + 1;
        highestSeqExtended := sn;
        return;
      }
      packetsReceived := packetsReceived + 1;
      if sn - lastSeq < -TWO15 {
        rollover := (rollover + 1) % TWO16;
      }
      var extended := rollover * TWO16 + sn;
      if extended > highestSeqExtended {
        highestSeqExtended := extended;
      }
      var diff := sn - lastSeq;
      if diff < 0 {
        diff := diff + TWO16;
      }
      if diff > 1 {
        packetsLost := packetsLost + diff - 1;
      }
      lastSeq := sn;
      if lastArrival != 0 {
        var deviation := Milliseconds(arrival - lastArrival) as real - 20.0;
        if deviation < 0.0 {
          deviation := -deviation;
        }
        jitter := jitter * 0.9 + deviation * 0.1;
      }
      lastArrival := arrival;
    }

    function LossPercent(): (r: real)
      reads this
      ensures 0.0 <= r <= 100.0
    {
      LossPercentBounded(View());
      LossOf(View())
    }
  }

  function LossOf(c: Counters): real {
    var total := c.received + c.lost;
    if total == 0 then 0.0 else c.lost as real * 100.0 / total as real
  }

  // ---- whole runs ----

  function IngestAll(ps: seq<Arrival>): Counters {
    if ps == [] then ZERO else Ingest(IngestAll(ps[..|ps| - 1]), ps[|ps| - 1])
  }

  lemma IngestFront(ps: seq<Arrival>)
    requires ps != []
    ensures IngestAll(ps) == Ingest(IngestAll(ps[..|ps| - 1]), ps[|ps| - 1])
  {}

  lemma IngestAppend(ps: seq<Arrival>, p: Arrival)
    ensures IngestAll(ps + [p]) == Ingest(IngestAll(ps), p)
  {
    assert (ps + [p])[..|ps|] == ps;
  }

  lemma IngestOne(p: Arrival)
    ensures IngestAll([p]) == Ingest(ZERO, p)
  {
    assert [p][..0] == [];
  }

  function Seqs(ps: seq<Arrival>): (r: seq<u16>)
    ensures |r| == |ps| && forall k :: 0 <= k < |ps| ==> r[k] == ps[k].sn
  {
    seq(|ps|, k requires 0 <= k < |ps| => ps[k].sn)
  }

  /** The largest 32-bit extended number among the packet indices an SRTP receiver computes for the same stream. */
  function LargestIndex(sns: seq<u16>): u32 {
    if sns == [] then 0
    else
      Larger(LargestIndex(sns[..|sns| - 1]), TrackAll(FRESH, sns).index % TWO32)
  }

  function Larger(a: nat, b: nat): nat { if b > a then b else a }

  lemma SeqsFront(ps: seq<Arrival>)
    requires ps != []
    ensures Seqs(ps)[..|ps| - 1] == Seqs(ps[..|ps| - 1])
  {}

  /** The statistics hold the low 32 bits of the tracker's index, split in two fields. */
  ghost predicate Agree(c: Counters, t: Tracker) {
    c.initialized && Synced(t) && c.lastSeq == t.lastSeq && c.rollover == t.index / TWO16 % TWO16
  }

  lemma Low32(v: nat)
    ensures v / TWO16 % TWO16 * TWO16 + v % TWO16 == v % TWO32
  {}

  lemma NextRoc(roc: nat, sn: u16)
    requires roc < TWO48
    ensures var v := (roc + 1) * TWO16 % TWO64 + sn;
      v / TWO16 % TWO16 == (roc % TWO16 + 1) % TWO16 && v % TWO16 == sn
  {
    assert (roc + 1) * TWO16 % TWO64 == (roc + 1) % TWO48 * TWO16;
  }

  /** The two low words of the next index, from those of the last one. */
  lemma TrackWords(t: Tracker, sn: u16)
    ensures var (roc, v) := (t.index / TWO16 % TWO16, Track(t, sn).index);
      var next := if sn - t.lastSeq < -TWO15 then (roc + 1) % TWO16 else roc;
      v / TWO16 % TWO16 == next && v % TWO16 == sn && v % TWO32 == next * TWO16 + sn
  {
    NextRoc(t.index / TWO16, sn);
    SameRoc(t.index / TWO16, sn);
    Low32(Track(t, sn).index);
  }

  lemma SameRoc(roc: nat, sn: u16)
    ensures (roc * TWO16 + sn) / TWO16 == roc && (roc * TWO16 + sn) % TWO16 == sn
  {}

  lemma AgreeStep(c: Counters, t: Tracker, p: Arrival)
    requires Agree(c, t)
    ensures Agree(Ingest(c, p), Track(t, p.sn))
    ensures Ingest(c, p).highest == Larger(c.highest, Track(t, p.sn).index % TWO32)
  {
    hide Deviation, Forward, Track;
    TrackWords(t, p.sn);
    TrackSetsLast(t, p.sn);
  }

  lemma TrackSetsLast(t: Tracker, sn: u16)
    ensures Track(t, sn).lastSeq == sn
  {}

  /** Two trackers written independently agree: the statistics follow the SRTP index of the same packets. */
  lemma {:induction false} RolloverAgrees(ps: seq<Arrival>)
    ensures ps != [] ==> Agree(IngestAll(ps), TrackAll(FRESH, Seqs(ps)))
    ensures IngestAll(ps).highest == LargestIndex(Seqs(ps))
  {
    if |ps| == 1 {
      assert ps[..0] == [] && Seqs(ps)[..0] == [];
    } else if ps != [] {
      hide Ingest, Track, Agree;
      var front, p := ps[..|ps| - 1], ps[|ps| - 1];
      RolloverAgrees(front);
      SeqsFront(ps);
      AgreeStep(IngestAll(front), TrackAll(FRESH, Seqs(front)), p);
    }
  }

  /** For a recognised stream of true numbers below 2^32 the highest extended number is the largest true number. */
  lemma {:induction false} HighestIsTrue(ps: seq<Arrival>, ns: seq<nat>)
    requires ps != [] && Seqs(ps) == Low16s(ns) && TrackableRun(ns)
    requires forall k :: 0 <= k < |ns| ==> ns[k] < TWO32
    ensures IngestAll(ps).highest in ns && forall k :: 0 <= k < |ns| ==> ns[k] <= IngestAll(ps).highest
  {
    RolloverAgrees(ps);
    LargestOfRun(ns);
  }

  lemma LargestStep(sns: seq<u16>)
    requires sns != [] && TrackAll(FRESH, sns).index < TWO32
    ensures LargestIndex(sns) == Larger(LargestIndex(sns[..|sns| - 1]), TrackAll(FRESH, sns).index)
  {
    hide TrackAll;
  }

  ghost predicate IsLargest(b: nat, ns: seq<nat>) {
    if ns == [] then b == 0 else b in ns && forall k :: 0 <= k < |ns| ==> ns[k] <= b
  }

  lemma LargerExtends(front: seq<nat>, x: nat, big: nat)
    requires IsLargest(big, front)
    ensures IsLargest(Larger(big, x), front + [x])
  {
    assert (front + [x])[|front|] == x;
    assert front <= front + [x];
  }

  lemma {:induction false} LargestOfRun(ns: seq<nat>)
    requires TrackableRun(ns) && forall k :: 0 <= k < |ns| ==> ns[k] < TWO32
    ensures IsLargest(LargestIndex(Low16s(ns)), ns)
  {
    if ns != [] {
      hide *;
      var (n, sns) := (|ns| - 1, Low16s(ns));
      RunPrefix(ns, n);
      LargestOfRun(ns[..n]);
      IndexAt(ns, n);
      assert sns[..n + 1] == sns && sns[..n] == Low16s(ns[..n]);
      LargestStep(sns);
      LargerExtends(ns[..n], ns[n], LargestIndex(sns[..n]));
      assert ns == ns[..n] + [ns[n]];
    }
  }

  // ---- loss accounting ----

  function SumForward(sns: seq<u16>): nat {
    if |sns| < 2 then 0
    else SumForward(sns[..|sns| - 1]) + Forward(sns[|sns| - 2], sns[|sns| - 1])
  }

  function Repeats(sns: seq<u16>): nat {
    if |sns| < 2 then 0
    else Repeats(sns[..|sns| - 1]) + if sns[|sns| - 2] == sns[|sns| - 1] then 1 else 0
  }

  /** One packet on a started stream: it covers the forward distance, and a repeat covers nothing. */
  lemma OneMoreCounted(c: Counters, p: Arrival)
    requires c.initialized
    ensures var d := Ingest(c, p);
      && d.initialized && d.lastSeq == p.sn && d.received == c.received + 1 && d.lost >= c.lost
      && d.received + d.lost == c.received + c.lost + Forward(c.lastSeq, p.sn) + if p.sn == c.lastSeq then 1 else 0
  {}

  lemma FirstCounted(p: Arrival)
    ensures var c := Ingest(ZERO, p); c.initialized && c.lastSeq == p.sn && c.received == 1 && c.lost == 0
  {}

  lemma SumsUnfold(sns: seq<u16>)
    requires |sns| >= 2
    ensures var (front, a, b) := (sns[..|sns| - 1], sns[|sns| - 2], sns[|sns| - 1]);
      && SumForward(sns) == SumForward(front) + Forward(a, b)
      && Repeats(sns) == Repeats(front) + if a == b then 1 else 0
  {}

  /** Nothing is counted twice or forgotten: packets received and lost add up to the ground covered plus the repeats. */
  lemma {:induction false} LossConserved(ps: seq<Arrival>)
    requires ps != []
    ensures var c := IngestAll(ps); c.initialized && c.lastSeq == ps[|ps| - 1].sn && c.received == |ps|
    ensures |ps| + IngestAll(ps).lost == 1 + SumForward(Seqs(ps)) + Repeats(Seqs(ps))
  {
    if |ps| == 1 {
      hide Ingest;
      assert ps == [ps[0]];
      IngestOne(ps[0]);
      FirstCounted(ps[0]);
    } else {
      hide Ingest, IngestAll, Forward, SumForward, Repeats;
      var front, p := ps[..|ps| - 1], ps[|ps| - 1];
      LossConserved(front);
      IngestFront(ps);
      SeqsFront(ps);
      SumsUnfold(Seqs(ps));
      OneMoreCounted(IngestAll(front), p);
    }
  }

  /** The forward distances lead from the first number to the last. */
  lemma {:induction false} DistancesAddUp(sns: seq<u16>)
    requires sns != []
    ensures sns[|sns| - 1] == Low16(sns[0] + SumForward(sns))
  {
    if |sns| > 1 {
      hide Forward, SumForward, Low16;
      var n := |sns| - 1;
      DistancesAddUp(sns[..n]);
      SumsUnfold(sns);
      Around(sns[0], SumForward(sns[..n]), sns[n - 1], sns[n]);
    }
  }

  lemma Around(first: u16, sum: nat, last: u16, b: u16)
    requires Low16(first + sum) == last
    ensures Low16(first + (sum + Forward(last, b))) == b
  {}

  ghost predicate InOrder(ns: seq<nat>) { forall k :: 0 < k < |ns| ==> Gap(ns, k) >= 0 }

  ghost predicate GapsBelow2To16(ns: seq<nat>) { forall k :: 0 < k < |ns| ==> Gap(ns, k) < TWO16 }

  /** The packet numbers that arrived at least once. */
  ghost function Heard(ns: seq<nat>): set<nat> { set n | n in ns }

  /** A step that does not fall counts at most the packets skipped, and all of them unless it reaches 2^16. */
  lemma LossStep(c: Counters, p: Arrival, a: nat, b: nat)
    requires c.initialized && c.lastSeq == Low16(a) && p.sn == Low16(b) && a <= b
    ensures var skipped := if a == b then 0 else b - a - 1;
      && Ingest(c, p).lost <= c.lost + skipped
      && (Ingest(c, p).lost == c.lost + skipped <==> b - a < TWO16)
  {
    assert Forward(Low16(a), Low16(b)) == (b - a) % TWO16;
  }

  lemma GapsFront(ns: seq<nat>)
    requires |ns| > 1
    ensures var n := |ns| - 1;
      && (InOrder(ns) <==> InOrder(ns[..n]) && ns[n - 1] <= ns[n])
      && (GapsBelow2To16(ns) <==> GapsBelow2To16(ns[..n]) && ns[n] - ns[n - 1] < TWO16)
  {
    var n := |ns| - 1;
    assert forall k :: 0 < k < n ==> Gap(ns[..n], k) == Gap(ns, k);
    assert Gap(ns, n) == ns[n] as int - ns[n - 1];
  }

  lemma HeardOneMore(ns: seq<nat>)
    requires ns != []
    ensures var n := |ns| - 1; |Heard(ns)| == |Heard(ns[..n])| + if ns[n] in ns[..n] then 0 else 1
  {
    var n := |ns| - 1;
    assert ns == ns[..n] + [ns[n]];
    assert Heard(ns) == Heard(ns[..n]) + {ns[n]};
  }

  /** In order, everything lies between the first and the last number, so only a new largest number is new. */
  lemma {:induction false} OrderedHeard(ns: seq<nat>)
    requires ns != [] && InOrder(ns)
    ensures forall m :: m in ns ==> ns[0] <= m <= ns[|ns| - 1]
    ensures var n := |ns| - 1;
      |Heard(ns)| == if n == 0 then 1 else |Heard(ns[..n])| + if ns[n] == ns[n - 1] then 0 else 1
  {
    hide InOrder, Heard;
    var n := |ns| - 1;
    assert ns == ns[..n] + [ns[n]];
    HeardOneMore(ns);
    if n == 0 {
      NothingHeard();
    } else {
      GapsFront(ns);
      OrderedHeard(ns[..n]);
      var front := ns[..n];
      assert ns[n - 1] == front[n - 1] && ns[0] == front[0] && front[0] in front;
      forall m | m in ns ensures ns[0] <= m <= ns[n] { assert m in front || m == ns[n]; }
    }
  }

  lemma NothingHeard()
    ensures Heard([]) == {}
  {}

  /**
   * For a stream in order, repeats included, the loss count never exceeds the number of missing packets, and equals it
   * if and only if no gap reaches 2^16.
   */
  lemma {:induction false} LossExact(ps: seq<Arrival>, ns: seq<nat>)
    requires ps != [] && Seqs(ps) == Low16s(ns) && InOrder(ns)
    ensures var missing := ns[|ns| - 1] - ns[0] + 1 - |Heard(ns)|;
      && IngestAll(ps).lost <= missing
      && (IngestAll(ps).lost == missing <==> GapsBelow2To16(ns))
  {
    var n := |ns| - 1;
    OrderedHeard(ns);
    if n == 0 {
      assert ps[..0] == [];
    } else {
      SeqsFront(ps);
      assert Low16s(ns)[..n] == Low16s(ns[..n]);
      hide Ingest, Low16, InOrder, GapsBelow2To16, Heard;
      GapsFront(ns);
      LossExact(ps[..n], ns[..n]);
      LossConserved(ps[..n]);
      assert ps[n - 1].sn == Seqs(ps)[n - 1] && ps[n].sn == Seqs(ps)[n];
      LossStep(IngestAll(ps[..n]), ps[n], ns[n - 1], ns[n]);
    }
  }

  /** One step d behind is charged as 65535 - d lost packets: reordering is not recognised as such. */
  lemma BackwardStepCost(c: Counters, p: Arrival, a: nat, b: nat)
    requires c.initialized && c.lastSeq == Low16(a) && p.sn == Low16(b) && b < a < b + TWO16
    ensures Ingest(c, p).lost == c.lost + TWO16 - 1 - (a - b)
  {
    hide Low16, Deviation;
    ForwardBack(a, b);
  }

  lemma ForwardBack(a: nat, b: nat)
    requires b < a < b + TWO16
    ensures Low16(b) != Low16(a) && Forward(Low16(a), Low16(b)) == b + TWO16 - a
  {}

  /** The lowest and the highest number of a stream. */
  function Lowest(ns: seq<nat>): (lo: nat)
    requires ns != []
    ensures lo in ns && forall k :: 0 <= k < |ns| ==> lo <= ns[k]
  {
    var n := |ns| - 1;
    if n == 0 || ns[n] < Lowest(ns[..n]) then ns[n] else Lowest(ns[..n])
  }

  function Highest(ns: seq<nat>): (hi: nat)
    requires ns != []
    ensures hi in ns && forall k :: 0 <= k < |ns| ==> ns[k] <= hi
  {
    var n := |ns| - 1;
    if n == 0 || ns[n] > Highest(ns[..n]) then ns[n] else Highest(ns[..n])
  }

  /** The numbers between the lowest and the highest that never arrived. */
  ghost function Missing(ns: seq<nat>): int
    requires ns != []
  {
    Highest(ns) - Lowest(ns) + 1 - |Heard(ns)|
  }

  /** Each step goes back by less than 2^15 or forward by less than 2^16. */
  ghost predicate SmallSteps(ns: seq<nat>) { forall k :: 0 < k < |ns| ==> -TWO15 < Gap(ns, k) < TWO16 }

  lemma SmallStepsFront(ns: seq<nat>)
    requires |ns| > 1 && SmallSteps(ns)
    ensures var n := |ns| - 1; SmallSteps(ns[..n]) && -TWO15 < ns[n] - ns[n - 1] < TWO16
  {
    var n := |ns| - 1;
    assert forall k :: 0 < k < n ==> Gap(ns[..n], k) == Gap(ns, k);
    assert Gap(ns, n) == ns[n] as int - ns[n - 1];
  }

  /** How many packets a step from a to b adds to the missing ones, when lo and hi were the extremes before it. */
  function NewlyMissing(lo: nat, hi: nat, b: nat): nat {
    if b > hi then b - hi - 1 else if b < lo then lo - b - 1 else 0
  }

  lemma MissingStep(ns: seq<nat>)
    requires |ns| > 1
    ensures var (n, front) := (|ns| - 1, ns[..|ns| - 1]);
      && Lowest(front) <= ns[n - 1] <= Highest(front)
      && Missing(ns) <= Missing(front) + NewlyMissing(Lowest(front), Highest(front), ns[n])
      && (ns[n] == ns[n - 1] || ns[n] > Highest(front) ==>
          Missing(ns) == Missing(front) + NewlyMissing(Lowest(front), Highest(front), ns[n]))
  {
    hide Heard;
    var (n, front) := (|ns| - 1, ns[..|ns| - 1]);
    HeardOneMore(ns);
    assert front[n - 1] == ns[n - 1];
  }

  /** One packet, from a to b, on a stream whose numbers so far reach from lo to hi. */
  lemma LostStep(c: Counters, p: Arrival, a: nat, b: nat, lo: nat, hi: nat)
    requires c.initialized && c.lastSeq == Low16(a) && p.sn == Low16(b)
    requires lo <= a <= hi && -TWO15 < b - a < TWO16
    ensures var d := Ingest(c, p).lost - c.lost;
      && d >= NewlyMissing(lo, hi, b)
      && (b < a ==> d > NewlyMissing(lo, hi, b))
      && (a == hi && a <= b ==> d == NewlyMissing(lo, hi, b))
  {
    hide Ingest, Low16;
    if b < a {
      BackwardStepCost(c, p, a, b);
    } else {
      LossStep(c, p, a, b);
    }
  }

  lemma OrderedEndsHighest(ns: seq<nat>)
    requires ns != [] && InOrder(ns)
    ensures ns[|ns| - 1] == Highest(ns)
  {
    OrderedHeard(ns);
  }

  /** The count and the stream after one packet: never below, and exact as long as the stream stays in order. */
  lemma BalanceStep(c: Counters, p: Arrival, ns: seq<nat>)
    requires |ns| > 1 && SmallSteps(ns)
    requires c.initialized && c.lastSeq == Low16(ns[|ns| - 2]) && p.sn == Low16(ns[|ns| - 1])
    requires var front := ns[..|ns| - 1]; c.lost >= Missing(front) && (c.lost == Missing(front) <==> InOrder(front))
    ensures Ingest(c, p).lost >= Missing(ns) && (Ingest(c, p).lost == Missing(ns) <==> InOrder(ns))
  {
    hide *;
    var (n, front) := (|ns| - 1, ns[..|ns| - 1]);
    SmallStepsFront(ns);
    GapsFront(ns);
    MissingStep(ns);
    var (a, b, lo, hi) := (ns[n - 1], ns[n], Lowest(front), Highest(front));
    LostStep(c, p, a, b, lo, hi);
    if InOrder(front) {
      OrderedEndsHighest(front);
      assert front[n - 1] == a;
    }
  }

  /**
   * For any stream of any length whose steps go back by less than 2^15 and forward by less than 2^16, repeats included,
   * the loss count is never below the number of missing packets, and it is exact if and only if the stream is in order.
   */
  lemma {:induction false} LossExactIffInOrder(ps: seq<Arrival>, ns: seq<nat>)
    requires ps != [] && Seqs(ps) == Low16s(ns) && SmallSteps(ns)
    ensures IngestAll(ps).lost >= Missing(ns)
    ensures IngestAll(ps).lost == Missing(ns) <==> InOrder(ns)
  {
    var n := |ns| - 1;
    if n == 0 {
      SinglePacket(ps, ns);
    } else {
      SeqsFront(ps);
      assert Low16s(ns)[..n] == Low16s(ns[..n]);
      assert ps[n - 1].sn == Low16(ns[n - 1]) && ps[n].sn == Low16(ns[n]) by {
        assert ps[n - 1].sn == Seqs(ps)[n - 1] && ps[n].sn == Seqs(ps)[n];
      }
      hide *;
      SmallStepsFront(ns);
      LossExactIffInOrder(ps[..n], ns[..n]);
      LossConserved(ps[..n]);
      IngestFront(ps);
      BalanceStep(IngestAll(ps[..n]), ps[n], ns);
    }
  }

  lemma SinglePacket(ps: seq<Arrival>, ns: seq<nat>)
    requires |ps| == |ns| == 1
    ensures IngestAll(ps).lost == 0 == Missing(ns) && InOrder(ns)
  {
    assert ps == [ps[0]];
    IngestOne(ps[0]);
    assert Heard(ns) == {ns[0]};
  }

  /** Packet 1 overtaken by packet 2: nothing is missing, and 65535 packets are reported lost. */
  lemma ReorderedExample(t: int, u: int, v: int)
    ensures IngestAll([Arrival(0, t), Arrival(2, u), Arrival(1, v)]).lost == 65535
  {
    hide Deviation;
    var (a, b, c) := (Arrival(0, t), Arrival(2, u), Arrival(1, v));
    IngestOne(a);
    IngestAppend([a], b);
    IngestAppend([a, b], c);
    assert [a] + [b] == [a, b] && [a, b] + [c] == [a, b, c];
  }

  /**
   * The bound on steps back is sharp: one step backwards over-counts below 2^15, happens to be exact at 2^15, and
   * under-counts beyond; after packet 40000, packet 0 reports 25535 of the 39999 missing ones.
   */
  lemma BackwardPair(p: Arrival, q: Arrival, a: nat, b: nat)
    requires p.sn == Low16(a) && q.sn == Low16(b) && b < a < b + TWO16
    ensures var (lost, missing) := (IngestAll([p, q]).lost, a - b - 1);
      && (lost > missing <==> a - b < TWO15)
      && (lost < missing <==> a - b > TWO15)
      && (a == 40000 && b == 0 ==> lost == 25535 && missing == 39999)
  {
    IngestOne(p);
    IngestAppend([p], q);
    assert [p] + [q] == [p, q];
    BackwardStepCost(IngestAll([p]), q, a, b);
  }

  // ---- quality ----

  function LargestDeviation(ps: seq<Arrival>): real {
    if |ps| < 2 then 0.0
    else
      var before := LargestDeviation(ps[..|ps| - 1]);
      var now := Deviation(ps[|ps| - 2].at, ps[|ps| - 1].at);
      if now > before then now else before
  }

  lemma {:induction false} JitterBounded(ps: seq<Arrival>)
    ensures 0.0 <= IngestAll(ps).jitter <= LargestDeviation(ps)
    ensures ps != [] ==> IngestAll(ps).lastArrival == ps[|ps| - 1].at && IngestAll(ps).initialized
  {
    if ps != [] {
      JitterBounded(ps[..|ps| - 1]);
      if |ps| == 1 {
        assert ps[..0] == [];
      }
    }
  }

  lemma LossPercentBounded(c: Counters)
    ensures 0.0 <= LossOf(c) <= 100.0
  {
    var total := c.received + c.lost;
    if total != 0 {
      var (l, t) := (c.lost as real, total as real);
      assert 0.0 <= l <= t && t > 0.0;
      assert 0.0 <= l * 100.0 / t <= 100.0;
    }
  }

  /** The percentage is a hundred times the share of the lost among all packets, and zero for none at all. */
  lemma LossIsShare(c: Counters)
    ensures LossOf(c) * (c.received + c.lost) as real == 100.0 * c.lost as real
    ensures c.received + c.lost == 0 ==> LossOf(c) == 0.0
  {
    var total := c.received + c.lost;
    if total != 0 {
      var (l, t) := (c.lost as real, total as real);
      assert l * 100.0 / t * t == l * 100.0;
    }
  }

  /** For a stream that only rises, by gaps below 2^16, this is the share of the missing among the numbers spanned. */
  lemma LossIsTrueShare(ps: seq<Arrival>, ns: seq<nat>)
    requires ps != [] && Seqs(ps) == Low16s(ns) && InOrder(ns) && GapsBelow2To16(ns) && |Heard(ns)| == |ns|
    ensures var span: int := ns[|ns| - 1] as int - ns[0] as int + 1;
      LossOf(IngestAll(ps)) * span as real == 100.0 * (span - |ns|) as real
  {
    hide *;
    LossExact(ps, ns);
    LossConserved(ps);
    LossIsShare(IngestAll(ps));
  }

  // ---- jitter ----

  /**
   * Whole milliseconds between two arrivals count, against the 20 of a frame; the rest of a millisecond is dropped, for
   * a clock that went back too.
   */
  lemma DeviationInMilliseconds(prev: int, ms: nat, rest: nat)
    requires rest < 1_000_000
    ensures Deviation(prev, prev + 1_000_000 * ms + rest) == if ms >= 20 then (ms - 20) as real else (20 - ms) as real
    ensures Deviation(prev, prev - 1_000_000 * ms - rest) == (ms + 20) as real
  {
    assert (1_000_000 * ms + rest) / 1_000_000 == ms;
  }

  function Pow(x: real, n: nat): real { if n == 0 then 1.0 else x * Pow(x, n - 1) }

  /** The deviations of a stream, the latest with weight 1/10 and each earlier one with 9/10 of the next. */
  function Weighted(ps: seq<Arrival>, from: nat): real
    requires from <= |ps|
    decreases |ps| - from
  {
    if from + 1 >= |ps| then 0.0
    else Deviation(ps[from].at, ps[from + 1].at) * 0.1 * Pow(0.9, |ps| - from - 2) + Weighted(ps, from + 1)
  }

  /** One more packet scales all weights and adds its own deviation. */
  lemma {:induction false} WeightedStep(ps: seq<Arrival>, p: Arrival, from: nat)
    requires from < |ps|
    ensures Weighted(ps + [p], from) == Weighted(ps, from) * 0.9 + Deviation(ps[|ps| - 1].at, p.at) * 0.1
    decreases |ps| - from
  {
    hide Deviation;
    var qs := ps + [p];
    if from + 1 == |ps| {
      assert Weighted(qs, from + 1) == 0.0 && Pow(0.9, 0) == 1.0;
    } else {
      WeightedStep(ps, p, from + 1);
      var (d, w) := (Deviation(ps[from].at, ps[from + 1].at), Pow(0.9, |ps| - from - 2));
      assert Pow(0.9, |qs| - from - 2) == 0.9 * w;
      Regroup(d, w);
    }
  }

  lemma Regroup(d: real, w: real)
    ensures d * 0.1 * (0.9 * w) == d * 0.1 * w * 0.9
  {}

  /** The jitter of a stream is that weighted sum, as long as no arrival carries the unset time. */
  lemma {:induction false} JitterIsWeightedSum(ps: seq<Arrival>)
    requires forall k :: 0 <= k < |ps| ==> ps[k].at != 0
    ensures IngestAll(ps).jitter == Weighted(ps, 0)
  {
    hide Deviation;
    if |ps| == 1 {
      assert ps == [ps[0]];
      IngestOne(ps[0]);
    } else if ps != [] {
      var front, p := ps[..|ps| - 1], ps[|ps| - 1];
      JitterIsWeightedSum(front);
      JitterBounded(front);
      assert front + [p] == ps;
      IngestFront(ps);
      WeightedStep(front, p, 0);
    }
  }

  /** The score reported at the end of any call lies between 1.00 and 4.43. */
  lemma CallScoreBounded(ps: seq<Arrival>)
    ensures 1.0 <= CalculateMOS(LossOf(IngestAll(ps)), IngestAll(ps).jitter) <= 4.43
  {
    LossPercentBounded(IngestAll(ps));
    JitterBounded(ps);
    ScoreRange(LossOf(IngestAll(ps)), IngestAll(ps).jitter);
  }
}
