/** Reconstruction of the packet index from 16-bit sequence numbers (core/rtp/srtp.go, estimateIndex). */
module PacketIndex {
  import opened Words

  datatype Tracker = Tracker(index: u64, lastSeq: u16)

  const FRESH := Tracker(0, 0)

  /** What one packet does to the two index fields of an SRTP session. */
  function Track(t: Tracker, sn: u16): Tracker {
    var roc := t.index / TWO16;
    var diff := sn - t.lastSeq;
    var v := if diff < -TWO15 then (roc + 1) * TWO16 % TWO64 + sn else roc * TWO16 + sn;
    Tracker(v, sn)
  }

  /** The remembered sequence number is always the low half of the index. */
  ghost predicate Synced(t: Tracker) { t.lastSeq == Low16(t.index) }

  lemma TrackKeepsSync(t: Tracker, sn: u16)
    ensures Synced(Track(t, sn)) && Synced(FRESH)
  {}

  /** Indices small enough that the next rollover still fits in 64 bits. */
  ghost predicate InRange(n: nat) { n + TWO16 < TWO64 }

  /** Indices that even after a step into the next block fit in the 48 bits of an IV. */
  ghost predicate FitsIV(n: nat) { n + 2 * TWO16 < TWO48 }

  /**
   * From index i the packet with true number n is recognised. It must lie in the same block of 2^16
   * numbers and not be more than 2^15 behind, or in the next block and less than 2^15 ahead.
   */
  ghost predicate Trackable(i: nat, n: nat) {
    || (n / TWO16 == i / TWO16 && i - n <= TWO15)
    || (n / TWO16 == i / TWO16 + 1 && n - i < TWO15)
  }

  /** The exact condition under which the estimate is the true packet number. */
  lemma TrackExact(t: Tracker, n: nat)
    requires Synced(t) && InRange(t.index) && InRange(n)
    ensures Track(t, Low16(n)).index == n <==> Trackable(t.index, n)
  {}

  /** In-order packets are recognised whenever the gap is below 2^15, and otherwise only inside a block. */
  lemma ForwardGap(i: nat, n: nat)
    requires i <= n
    ensures Trackable(i, n) <==> n - i < TWO15 || n / TWO16 == i / TWO16
  {}

  /**
   * The estimate of section 3.3.1 of RFC 3711 recognises every packet less than 2^15 away, before or
   * after. This code misses exactly the late packets from before a wrap.
   */
  lemma LateAcrossWrapIsMissed(i: nat, n: nat)
    requires n < i && i - n < TWO15
    ensures Trackable(i, n) <==> n / TWO16 == i / TWO16
  {}

  /** 65536 was the last packet and 65535 arrives late: the index leaps a whole block ahead. */
  lemma LateAcrossWrapExample()
    ensures Track(Tracker(65536, 0), Low16(65535)).index == 131071
  {}

  /** Two trackers a whole number of blocks apart stay exactly that far apart: a missed wrap is never repaired. */
  lemma OffsetPersists(t: Tracker, u: Tracker, sn: u16, blocks: nat)
    requires t.lastSeq == u.lastSeq && u.index == t.index + blocks * TWO16
    requires InRange(u.index)
    ensures Track(u, sn).index == Track(t, sn).index + blocks * TWO16
    ensures Track(u, sn).lastSeq == Track(t, sn).lastSeq
    ensures Track(u, sn).index / TWO16 <= u.index / TWO16 + 1
  {
    var roc := t.index / TWO16;
    assert u.index / TWO16 == roc + blocks by {
      assert t.index == roc * TWO16 + t.index % TWO16;
    }
    assert (roc + blocks + 1) * TWO16 < TWO64;
  }

  /** ... and over any further run: after one missed wrap every later index is wrong by the same amount. */
  lemma {:induction false} OffsetPersistsRun(t: Tracker, u: Tracker, sns: seq<u16>, blocks: nat)
    requires t.lastSeq == u.lastSeq && u.index == t.index + blocks * TWO16
    requires u.index / TWO16 + |sns| + 2 < TWO48
    ensures TrackAll(u, sns).index == TrackAll(t, sns).index + blocks * TWO16
    ensures TrackAll(u, sns).lastSeq == TrackAll(t, sns).lastSeq
    ensures TrackAll(u, sns).index / TWO16 <= u.index / TWO16 + |sns|
  {
    hide Track;
    if sns != [] {
      var front := sns[..|sns| - 1];
      OffsetPersistsRun(t, u, front, blocks);
      OffsetPersists(TrackAll(t, front), TrackAll(u, front), sns[|sns| - 1], blocks);
    }
  }

  // ---- whole runs ----

  /** The tracker after a list of packets. */
  function TrackAll(t: Tracker, sns: seq<u16>): Tracker {
    if sns == [] then t else Track(TrackAll(t, sns[..|sns| - 1]), sns[|sns| - 1])
  }

  /** The low halves of true packet numbers. */
  function Low16s(ns: seq<nat>): (r: seq<u16>)
    ensures |r| == |ns| && forall k :: 0 <= k < |ns| ==> r[k] == Low16(ns[k])
  {
    seq(|ns|, k requires 0 <= k < |ns| => Low16(ns[k]))
  }

  /** The packet number before position k of a run; a fresh session starts at index 0. */
  ghost function Before(ns: seq<nat>, k: nat): nat
    requires k <= |ns|
  {
    if k == 0 then 0 else ns[k - 1]
  }

  ghost predicate TrackableStep(ns: seq<nat>, k: nat)
    requires k < |ns|
  {
    InRange(ns[k]) && Trackable(Before(ns, k), ns[k])
  }

  /** Every step of the run is recognised. */
  ghost predicate TrackableRun(ns: seq<nat>) {
    forall k :: 0 <= k < |ns| ==> TrackableStep(ns, k)
  }

  lemma RunPrefix(ns: seq<nat>, n: nat)
    requires TrackableRun(ns) && n <= |ns|
    ensures TrackableRun(ns[..n]) && InRange(Before(ns, n)) && Low16s(ns)[..n] == Low16s(ns[..n])
    ensures n < |ns| ==> TrackableStep(ns, n)
  {
    forall k | 0 <= k < n ensures TrackableStep(ns[..n], k) {
      assert TrackableStep(ns, k) && Before(ns[..n], k) == Before(ns, k);
    }
    if n > 0 {
      assert TrackableStep(ns, n - 1);
    }
  }

  /** A run is recognised when its front is and its last step is. */
  lemma RunLast(ns: seq<nat>)
    requires ns != []
    ensures var n := |ns| - 1;
      && (TrackableRun(ns) <==> TrackableRun(ns[..n]) && InRange(ns[n]) && Trackable(Before(ns, n), ns[n]))
      && (TrackableRun(ns[..n]) && n > 0 ==> InRange(ns[n - 1]))
  {
    hide Trackable, InRange;
    var n := |ns| - 1;
    forall k | 0 <= k < n ensures TrackableStep(ns[..n], k) <==> TrackableStep(ns, k) {
      assert Before(ns[..n], k) == Before(ns, k);
    }
    assert TrackableStep(ns, n) <==> InRange(ns[n]) && Trackable(Before(ns, n), ns[n]);
    if TrackableRun(ns[..n]) && n > 0 {
      assert TrackableStep(ns[..n], n - 1);
    }
  }

  /** From a fresh tracker a recognised run leaves the true number as the index, over any number of wraps. */
  lemma {:induction false} RunTracksTruth(ns: seq<nat>)
    requires TrackableRun(ns)
    ensures Synced(TrackAll(FRESH, Low16s(ns)))
    ensures TrackAll(FRESH, Low16s(ns)).index == Before(ns, |ns|)
  {
    if ns != [] {
      var n := |ns| - 1;
      RunPrefix(ns, n);
      RunTracksTruth(ns[..n]);
      TrackKeepsSync(TrackAll(FRESH, Low16s(ns[..n])), Low16(ns[n]));
      TrackExact(TrackAll(FRESH, Low16s(ns[..n])), ns[n]);
    }
  }

  lemma IndexAt(ns: seq<nat>, i: nat)
    requires i < |ns| && TrackableRun(ns)
    ensures TrackAll(FRESH, Low16s(ns)[..i + 1]).index == ns[i]
  {
    RunPrefix(ns, i + 1);
    RunTracksTruth(ns[..i + 1]);
  }

  /** The index after each packet of the run is that packet's true number. */
  ghost predicate IndicesTrue(ns: seq<nat>) {
    forall i :: 0 <= i < |ns| ==> TrackAll(FRESH, Low16s(ns)[..i + 1]).index == ns[i]
  }

  /** For numbers within range, all indices of a run are true if and only if every step is recognised. */
  lemma IndicesTrueIff(ns: seq<nat>)
    requires forall k :: 0 <= k < |ns| ==> InRange(ns[k])
    ensures IndicesTrue(ns) <==> TrackableRun(ns)
  {
    if TrackableRun(ns) {
      forall i | 0 <= i < |ns| ensures TrackAll(FRESH, Low16s(ns)[..i + 1]).index == ns[i] {
        IndexAt(ns, i);
      }
    }
    if IndicesTrue(ns) {
      forall i | 0 <= i < |ns| ensures TrackableStep(ns, i) {
        TrueIndexIsTrackable(ns, i);
      }
    }
  }

  lemma TrueIndexIsTrackable(ns: seq<nat>, i: nat)
    requires IndicesTrue(ns) && i < |ns| && forall k :: 0 <= k < |ns| ==> InRange(ns[k])
    ensures TrackableStep(ns, i)
  {
    hide Trackable, Track;
    var sns := Low16s(ns);
    var t := TrackAll(FRESH, sns[..i]);
    assert sns[..i + 1][..i] == sns[..i];
    if i > 0 {
      assert TrackAll(FRESH, sns[..i - 1 + 1]).index == ns[i - 1];
      assert sns[..i][..i - 1] == sns[..i - 1];
      TrackKeepsSync(TrackAll(FRESH, sns[..i - 1]), sns[i - 1]);
    } else {
      TrackKeepsSync(FRESH, 0);
    }
    TrackExact(t, ns[i]);
  }

  /** The distance from the number before. */
  ghost function Gap(ns: seq<nat>, k: nat): int
    requires k < |ns|
  {
    ns[k] - Before(ns, k)
  }

  /** The usual case: the first number fits in 16 bits and later ones rise by less than 2^15. */
  ghost predicate SmallGaps(ns: seq<nat>) {
    && (forall k :: 0 <= k < |ns| ==> InRange(ns[k]))
    && forall k :: 0 <= k < |ns| ==> if k == 0 then Gap(ns, k) < TWO16 else 0 < Gap(ns, k) < TWO15
  }

  lemma SmallGapsTrackable(ns: seq<nat>)
    requires SmallGaps(ns)
    ensures TrackableRun(ns)
  {
    forall k | 0 <= k < |ns| ensures TrackableStep(ns, k) {
      assert 0 <= Gap(ns, k);
      ForwardGap(Before(ns, k), ns[k]);
    }
  }
}
