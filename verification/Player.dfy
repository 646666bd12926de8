/** The stream players (core/rtp/sender.go and the SRTP player of core/rtp/srtp.go) on a shared session. */
module Player {
  import opened Words
  import opened Bytes
  import opened Rtp
  import opened RtpSession
  import opened CounterMode
  import opened PacketIndex
  import opened Srtp

  /** What the outside decides at one tick: whether the stop channel is closed, and whether a packet is accepted. */
  datatype Input = Input(stopped: bool, sendOk: bool)

  /** The part of a player that does not depend on the session. */
  datatype Progress = Progress(idx: nat, onDonePending: bool, onDoneCalls: nat, packetsSent: nat, octetsSent: nat,
                               bytesSent: nat)

  /** With the player's payloads and the octets its packets carry besides them; the second result is Tick's answer. */
  function TickStep(payloads: seq<seq<u8>>, overhead: nat, p: Progress, i: Input): (Progress, bool) {
    if i.stopped || p.idx >= |payloads| then
      (p.(onDonePending := false, onDoneCalls := p.onDoneCalls + if p.onDonePending then 1 else 0), false)
    else
      (p.(idx := p.idx + 1,
          packetsSent := p.packetsSent + if i.sendOk then 1 else 0,
          octetsSent := p.octetsSent + (if i.sendOk then |payloads[p.idx]| else 0),
          bytesSent := p.bytesSent + if i.sendOk then overhead + |payloads[p.idx]| else 0), true)
  }

  lemma RefusalIs(payloads: seq<seq<u8>>, overhead: nat, p: Progress, i: Input)
    requires i.stopped || p.idx >= |payloads|
    ensures TickStep(payloads, overhead, p, i) ==
      (p.(onDonePending := false, onDoneCalls := p.onDoneCalls + if p.onDonePending then 1 else 0), false)
  {}

  lemma SendingIs(payloads: seq<seq<u8>>, overhead: nat, p: Progress, i: Input)
    requires !i.stopped && p.idx < |payloads|
    ensures TickStep(payloads, overhead, p, i).1
    ensures var (q, n) := (TickStep(payloads, overhead, p, i).0, |payloads[p.idx]|);
      && q.idx == p.idx + 1 && q.onDonePending == p.onDonePending && q.onDoneCalls == p.onDoneCalls
      && q.packetsSent == p.packetsSent + (if i.sendOk then 1 else 0)
      && q.octetsSent == p.octetsSent + (if i.sendOk then n else 0)
      && q.bytesSent == p.bytesSent + if i.sendOk then overhead + n else 0
  {}

  class StreamPlayer {
    const sess: Session
    const payloads: seq<seq<u8>>
    const pt: u8
    const tsIncrement: u32
    var idx: nat
    var onDonePending: bool
    var onDoneCalls: nat
    var packetsSent: nat
    var octetsSent: nat
    var bytesSent: nat
    /** The packets handed to the socket, and the session count each of them drew. */
    ghost var wire: seq<seq<u8>>
    ghost var counts: seq<nat>

    function View(): Progress reads this {
      Progress(idx, onDonePending, onDoneCalls, packetsSent, octetsSent, bytesSent)
    }

    ghost predicate Valid() reads this, sess {
      && sess.Valid() && idx <= |payloads| && |wire| == |counts| == idx
      && Rising(counts) && forall k :: 0 <= k < |counts| ==> counts[k] < sess.count
    }

    constructor (sess: Session, payloads: seq<seq<u8>>, pt: u8, tsIncrement: u32, onDone: bool)
      requires sess.Valid()
      ensures Valid() && this.sess == sess && this.payloads == payloads && this.pt == pt
      ensures this.tsIncrement == tsIncrement && View() == Progress(0, onDone, 0, 0, 0, 0)
    {
      this.sess, this.payloads, this.pt, this.tsIncrement := sess, payloads, pt, tsIncrement;
      idx, onDonePending, onDoneCalls, packetsSent, octetsSent, bytesSent := 0, onDone, 0, 0, 0, 0;
      wire, counts := [], [];
    }

    /** Other users of the session may have drawn numbers since the last tick; this player's numbers still only rise. */
    method Tick(i: Input) returns (again: bool)
      requires Valid()
      modifies this, sess
      ensures Valid() && (View(), again) == TickStep(payloads, HEADER, old(View()), i)
      ensures !again ==> counts == old(counts) && wire == old(wire)
      ensures !again ==> sess.count == old(sess.count) && sess.clock == old(sess.clock)
      ensures again ==> sess.count == old(sess.count) + 1 && sess.clock == old(sess.clock) + tsIncrement
      ensures again ==> counts == old(counts) + [old(sess.count)]
      ensures again ==> wire == old(wire) + [Marshal(RtpPacket(pt, false, Low16(old(sess.count)),
                                               old(sess.clock) % TWO32, sess.ssrc, payloads[old(idx)]))]
    {
      hide TickStep, Marshal;
      ghost var was := View();
      if i.stopped || idx >= |payloads| {
        RefusalIs(payloads, HEADER, was, i);
      } else {
        SendingIs(payloads, HEADER, was, i);
      }
      if i.stopped {
        if onDonePending {
          onDoneCalls := onDoneCalls + 1;
          onDonePending := false;
        }
        return false;
      }
      if idx >= |payloads| {
        if onDonePending {
          onDoneCalls := onDoneCalls + 1;
          onDonePending := false;
        }
        return false;
      }
      var payload := payloads[idx];
      idx := idx + 1;
      counts := counts + [sess.count];
      var sn, ts := sess.NextSeqTS(tsIncrement);
      var raw := Marshal(RtpPacket(pt, false, sn, ts, sess.ssrc, payload));
      wire := wire + [raw];
      if i.sendOk {
        packetsSent := packetsSent + 1;
        octetsSent := octetsSent + |payload|;
        bytesSent := bytesSent + |raw|;
      }
      return true;
    }
  }

  /** The same player, with every packet protected by an SRTP session of its own. */
  class StreamSrtpPlayer {
    const sess: Session
    const srtp: SrtpSession
    const payloads: seq<seq<u8>>
    const pt: u8
    const tsIncrement: u32
    var idx: nat
    var onDonePending: bool
    var onDoneCalls: nat
    var packetsSent: nat
    var octetsSent: nat
    var bytesSent: nat
    ghost var raws: Packets
    ghost var wire: seq<seq<u8>>
    ghost var counts: seq<nat>

    function View(): Progress reads this {
      Progress(idx, onDonePending, onDoneCalls, packetsSent, octetsSent, bytesSent)
    }

    /** What went out is exactly what a fresh SRTP sender makes of the numbered raw packets. */
    ghost predicate Valid() reads this, sess, srtp {
      && sess.Valid() && idx <= |payloads| && |raws| == idx
      && srtp.View() == TrackAll(FRESH, SeqsOf(raws)) && wire == Sent(srtp.keys, raws)
      && Logged(payloads, raws, counts, sess.count)
    }

    constructor (sess: Session, srtp: SrtpSession, payloads: seq<seq<u8>>, pt: u8, tsIncrement: u32, onDone: bool)
      requires sess.Valid() && srtp.View() == FRESH
      ensures Valid() && this.sess == sess && this.srtp == srtp && this.payloads == payloads && this.pt == pt
      ensures this.tsIncrement == tsIncrement && View() == Progress(0, onDone, 0, 0, 0, 0)
    {
      this.sess, this.srtp, this.payloads, this.pt, this.tsIncrement := sess, srtp, payloads, pt, tsIncrement;
      idx, onDonePending, onDoneCalls, packetsSent, octetsSent, bytesSent := 0, onDone, 0, 0, 0, 0;
      raws, wire, counts := [], [], [];
    }

    method Tick(i: Input) returns (again: bool)
      requires Valid()
      modifies this, sess, srtp
      ensures Valid() && (View(), again) == TickStep(payloads, HEADER + TAG, old(View()), i)
      ensures !again ==> raws == old(raws) && counts == old(counts) && wire == old(wire)
      ensures !again ==> sess.count == old(sess.count) && sess.clock == old(sess.clock)
      ensures again ==> sess.count == old(sess.count) + 1 && sess.clock == old(sess.clock) + tsIncrement
      ensures again ==> counts == old(counts) + [old(sess.count)]
      ensures again ==> raws == old(raws) + [Marshal(RtpPacket(pt, false, Low16(old(sess.count)),
                                               old(sess.clock) % TWO32, sess.ssrc, payloads[old(idx)]))]
    {
      hide Protect, Track, TrackAll, SeqsOf, Sent, Marshal, Logged, SeqOf, TickStep;
      ghost var was := View();
      if i.stopped || idx >= |payloads| {
        RefusalIs(payloads, HEADER + TAG, was, i);
      } else {
        SendingIs(payloads, HEADER + TAG, was, i);
      }
      if i.stopped {
        if onDonePending {
          onDoneCalls := onDoneCalls + 1;
          onDonePending := false;
        }
        return false;
      }
      if idx >= |payloads| {
        if onDonePending {
          onDoneCalls := onDoneCalls + 1;
          onDonePending := false;
        }
        return false;
      }
      var payload := payloads[idx];
      idx := idx + 1;
      ghost var n := sess.count;
      var sn, ts := sess.NextSeqTS(tsIncrement);
      var packet := RtpPacket(pt, false, sn, ts, sess.ssrc, payload);
      var raw := Marshal(packet);
      MarshalledSeq(packet);
      SentMore(srtp.keys, raws, raw);
      LoggedMore(payloads, raws, counts, n, raw);
      var encrypted := srtp.EncryptPacket(raw);
      raws, wire, counts := raws + [raw], wire + [encrypted], counts + [n];
      if i.sendOk {
        packetsSent := packetsSent + 1;
        octetsSent := octetsSent + |payload|;
        bytesSent := bytesSent + |encrypted|;
      }
      return true;
    }
  }

  /** The raw packets carry the payloads in order, numbered by rising counts that the session has already handed out. */
  ghost predicate Logged(payloads: seq<seq<u8>>, raws: Packets, counts: seq<nat>, total: nat) {
    && Numbered(raws, counts) && Rising(counts) && |raws| <= |payloads|
    && (forall k :: 0 <= k < |counts| ==> counts[k] < total)
    && (forall k :: 0 <= k < |raws| ==> raws[k][HEADER..] == payloads[k])
  }

  lemma LoggedMore(payloads: seq<seq<u8>>, raws: Packets, counts: seq<nat>, n: nat, raw: seq<u8>)
    requires Logged(payloads, raws, counts, n) && |raws| < |payloads|
    requires |raw| >= HEADER && SeqOf(raw) == Low16(n) && raw[HEADER..] == payloads[|raws|]
    ensures Logged(payloads, raws + [raw], counts + [n], n + 1)
  {}

  lemma MarshalledSeq(p: RtpPacket)
    ensures SeqOf(Marshal(p)) == p.sn && Marshal(p)[HEADER..] == p.payload
  {
    var raw := Marshal(p);
    assert raw[2..4] == BigEndian(p.sn, 2);
    assert BigEndian(p.sn, 2) == [Octet(p.sn / 256), Octet(p.sn)];
    assert raw[2] == raw[2..4][0] && raw[3] == raw[2..4][1];
  }

  lemma SentMore(k: Keys, raws: Packets, raw: seq<u8>)
    requires |raw| >= HEADER
    ensures SeqsOf(raws + [raw]) == SeqsOf(raws) + [SeqOf(raw)]
    ensures TrackAll(FRESH, SeqsOf(raws + [raw])) == Track(TrackAll(FRESH, SeqsOf(raws)), SeqOf(raw))
    ensures Sent(k, raws + [raw]) ==
            Sent(k, raws) + [Protect(k, raw, Track(TrackAll(FRESH, SeqsOf(raws)), SeqOf(raw)).index)]
  {
    assert (raws + [raw])[..|raws|] == raws;
    assert SeqsOf(raws + [raw])[..|raws|] == SeqsOf(raws);
  }

  // ---- whole runs ----

  /** The player after a list of ticks, ticked on even after it has refused. */
  function Play(payloads: seq<seq<u8>>, overhead: nat, onDone: bool, inputs: seq<Input>): Progress {
    if inputs == [] then Progress(0, onDone, 0, 0, 0, 0)
    else TickStep(payloads, overhead, Play(payloads, overhead, onDone, inputs[..|inputs| - 1]), inputs[|inputs| - 1]).0
  }

  /** The player's answer to tick k. */
  function Answer(payloads: seq<seq<u8>>, overhead: nat, onDone: bool, inputs: seq<Input>, k: nat): bool
    requires k < |inputs|
  {
    TickStep(payloads, overhead, Play(payloads, overhead, onDone, inputs[..k]), inputs[k]).1
  }

  lemma AnswerFront(payloads: seq<seq<u8>>, overhead: nat, onDone: bool, inputs: seq<Input>, k: nat)
    requires k + 1 < |inputs|
    ensures var front := inputs[..|inputs| - 1];
      Answer(payloads, overhead, onDone, front, k) == Answer(payloads, overhead, onDone, inputs, k)
  {
    assert inputs[..|inputs| - 1][..k] == inputs[..k];
  }

  /** A tick refuses when stopped or out of payloads; the callback runs if it is still pending, and then never again. */
  lemma RefusalCompletes(payloads: seq<seq<u8>>, overhead: nat, p: Progress, i: Input)
    ensures var (q, again) := TickStep(payloads, overhead, p, i);
      && (again ==> q.onDoneCalls == p.onDoneCalls && q.onDonePending == p.onDonePending)
      && (!again ==> q.onDoneCalls == p.onDoneCalls + (if p.onDonePending then 1 else 0) && !q.onDonePending)
  {}

  /** Some tick of the run was refused. */
  ghost predicate Refused(payloads: seq<seq<u8>>, overhead: nat, inputs: seq<Input>) {
    exists k :: 0 <= k < |inputs| && !Answer(payloads, overhead, true, inputs, k)
  }

  lemma RefusedLast(payloads: seq<seq<u8>>, overhead: nat, inputs: seq<Input>)
    requires inputs != []
    ensures var n := |inputs| - 1;
      Refused(payloads, overhead, inputs) <==>
        Refused(payloads, overhead, inputs[..n]) || !Answer(payloads, overhead, true, inputs, n)
  {
    hide Answer;
    var n := |inputs| - 1;
    forall k | 0 <= k < n { AnswerFront(payloads, overhead, true, inputs, k); }
    if Refused(payloads, overhead, inputs[..n]) {
      var k :| 0 <= k < n && !Answer(payloads, overhead, true, inputs[..n], k);
      assert !Answer(payloads, overhead, true, inputs, k);
    }
  }

  /** However often it is ticked, the completion callback runs once if some tick refused and not at all otherwise. */
  lemma {:induction false} CompletesExactlyOnce(payloads: seq<seq<u8>>, overhead: nat, inputs: seq<Input>)
    ensures var (p, refused) := (Play(payloads, overhead, true, inputs), Refused(payloads, overhead, inputs));
      p.onDoneCalls == (if refused then 1 else 0) && p.onDonePending == !refused
  {
    if inputs != [] {
      hide TickStep, Refused;
      var (n, front) := (|inputs| - 1, inputs[..|inputs| - 1]);
      CompletesExactlyOnce(payloads, overhead, front);
      RefusedLast(payloads, overhead, inputs);
      RefusalCompletes(payloads, overhead, Play(payloads, overhead, true, front), inputs[n]);
    }
  }

  /** How many ticks of a run took a payload. */
  function Taken(payloads: seq<seq<u8>>, overhead: nat, onDone: bool, inputs: seq<Input>): nat {
    if inputs == [] then 0
    else
      var n := |inputs| - 1;
      Taken(payloads, overhead, onDone, inputs[..n]) + if Answer(payloads, overhead, onDone, inputs, n) then 1 else 0
  }

  /** The payloads whose packets the socket accepted: the k-th payload belongs to the k-th tick that took one. */
  function Accepted(payloads: seq<seq<u8>>, overhead: nat, onDone: bool, inputs: seq<Input>): seq<nat> {
    if inputs == [] then []
    else
      var n := |inputs| - 1;
      Accepted(payloads, overhead, onDone, inputs[..n]) +
      if Answer(payloads, overhead, onDone, inputs, n) && inputs[n].sendOk
      then [Taken(payloads, overhead, onDone, inputs[..n])] else []
  }

  function Octets(payloads: seq<seq<u8>>, sent: seq<nat>): nat {
    if sent == [] then 0
    else
      var last := sent[|sent| - 1];
      Octets(payloads, sent[..|sent| - 1]) + if last < |payloads| then |payloads[last]| else 0
  }

  lemma OctetsMore(payloads: seq<seq<u8>>, sent: seq<nat>, k: nat)
    requires k < |payloads|
    ensures Octets(payloads, sent + [k]) == Octets(payloads, sent) + |payloads[k]|
  {
    assert (sent + [k])[..|sent|] == sent;
  }

  lemma TickCounts(payloads: seq<seq<u8>>, overhead: nat, p: Progress, i: Input)
    ensures var (q, again) := TickStep(payloads, overhead, p, i);
      && (again <==> !i.stopped && p.idx < |payloads|) && q.idx == p.idx + (if again then 1 else 0)
      && q.packetsSent == p.packetsSent + (if again && i.sendOk then 1 else 0)
      && q.octetsSent == p.octetsSent + if again && i.sendOk then |payloads[p.idx]| else 0
  {}

  /** The counters say how many packets the socket accepted, and how many payload octets those carried. */
  lemma {:induction false} CountersCount(payloads: seq<seq<u8>>, overhead: nat, onDone: bool, inputs: seq<Input>)
    ensures var (p, sent) := (Play(payloads, overhead, onDone, inputs), Accepted(payloads, overhead, onDone, inputs));
      && p.idx == Taken(payloads, overhead, onDone, inputs)
      && p.packetsSent == |sent| && p.octetsSent == Octets(payloads, sent)
  {
    if inputs != [] {
      hide TickStep, Octets;
      var (n, front) := (|inputs| - 1, inputs[..|inputs| - 1]);
      CountersCount(payloads, overhead, onDone, front);
      var (p, sent) := (Play(payloads, overhead, onDone, front), Accepted(payloads, overhead, onDone, front));
      TickCounts(payloads, overhead, p, inputs[n]);
      if p.idx < |payloads| {
        OctetsMore(payloads, sent, p.idx);
      }
      assert sent + [] == sent;
    } else {
      assert Octets(payloads, []) == 0;
    }
  }

  /** What the counters of one player have in common at any time. */
  ghost predicate Accounted(payloads: seq<seq<u8>>, overhead: nat, p: Progress) {
    p.bytesSent == p.octetsSent + overhead * p.packetsSent && p.packetsSent <= p.idx <= |payloads|
  }

  lemma StepKeepsAccount(payloads: seq<seq<u8>>, overhead: nat, p: Progress, i: Input)
    requires Accounted(payloads, overhead, p)
    ensures Accounted(payloads, overhead, TickStep(payloads, overhead, p, i).0)
  {
    var (n, q) := (p.packetsSent, TickStep(payloads, overhead, p, i).0);
    OneMoreTimes(overhead, n);
    assert q.packetsSent == n || q.packetsSent == n + 1;
  }

  lemma OneMoreTimes(a: nat, n: nat)
    ensures a * (n + 1) == a * n + a
  {}

  /** Wire bytes are payload octets plus a fixed amount for every packet the socket accepted. */
  lemma {:induction false} BytesAddUp(payloads: seq<seq<u8>>, overhead: nat, onDone: bool, inputs: seq<Input>)
    ensures var p := Play(payloads, overhead, onDone, inputs);
      p.bytesSent == p.octetsSent + overhead * p.packetsSent && p.packetsSent <= p.idx <= |payloads|
  {
    hide TickStep;
    if inputs != [] {
      var n := |inputs| - 1;
      BytesAddUp(payloads, overhead, onDone, inputs[..n]);
      StepKeepsAccount(payloads, overhead, Play(payloads, overhead, onDone, inputs[..n]), inputs[n]);
    }
  }

  /** If it is never stopped, a player refuses first at tick |payloads|, having taken every payload once, in order. */
  lemma {:induction false} UnstoppedRun(payloads: seq<seq<u8>>, overhead: nat, onDone: bool, inputs: seq<Input>)
    requires forall k :: 0 <= k < |inputs| ==> !inputs[k].stopped
    ensures var p := Play(payloads, overhead, onDone, inputs);
      p.idx == if |inputs| < |payloads| then |inputs| else |payloads|
    ensures forall k :: 0 <= k < |inputs| ==> (Answer(payloads, overhead, onDone, inputs, k) <==> k < |payloads|)
  {
    if inputs != [] {
      var n := |inputs| - 1;
      var front := inputs[..n];
      UnstoppedRun(payloads, overhead, onDone, front);
      forall k | 0 <= k < n { AnswerFront(payloads, overhead, onDone, inputs, k); }
    }
  }

  /**
   * What an SRTP player has put on the wire decrypts, in any selection whose deliveries are recognised, duplicates and
   * reordering included, to the original payloads, although the numbers it drew are shared with other senders.
   */
  lemma PlayerRoundTrip(p: StreamSrtpPlayer, picks: seq<nat>, j: nat)
    requires p.Valid() && Selects(picks, |p.raws|) && j < |picks|
    ensures |p.counts| == |p.wire| == |p.raws|
    ensures TrackableRun(p.counts) && TrackableRun(Pick(p.counts, picks)) ==>
      var r := Received(p.srtp.keys, Pick(p.wire, picks)).1[j];
      r.Ok? && |r.value| >= HEADER && r.value[HEADER..] == p.payloads[picks[j]]
  {
    if TrackableRun(p.counts) && TrackableRun(Pick(p.counts, picks)) {
      RunRoundTrip(p.srtp.keys, p.raws, p.counts, picks);
    }
  }

  /** With a block cipher and long enough payloads, everything comes back intact if and only if it is recognised. */
  lemma PlayerIntactIff(p: StreamSrtpPlayer, picks: seq<nat>)
    requires p.Valid() && TrackableRun(p.counts) && Selects(picks, |p.raws|)
    requires Enciphers(p.srtp.keys.crypto, p.srtp.keys.enc) && FitsIV(p.sess.count)
    requires forall k :: 0 <= k < |p.payloads| ==> |p.payloads[k]| >= 16
    ensures |p.counts| == |p.raws|
    ensures AllIntact(p.srtp.keys, p.raws, picks) <==> TrackableRun(Pick(p.counts, picks))
  {
    LongPackets(p.payloads, p.raws, p.counts, p.sess.count);
    RunIntactIff(p.srtp.keys, p.raws, p.counts, picks);
  }

  lemma LongPackets(payloads: seq<seq<u8>>, raws: Packets, counts: seq<nat>, total: nat)
    requires Logged(payloads, raws, counts, total) && FitsIV(total)
    requires forall k :: 0 <= k < |payloads| ==> |payloads[k]| >= 16
    ensures Ample(raws, counts)
  {
    forall k | 0 <= k < |raws| ensures |raws[k]| >= HEADER + 16 {
      assert |raws[k][HEADER..]| == |payloads[k]|;
    }
  }

  /** No two packets of an SRTP player, nor two blocks of one packet, use the same AES input. */
  lemma PlayerNoCounterReuse(p: StreamSrtpPlayer, i: nat, j: nat, a: u16, b: u16)
    requires p.Valid() && TrackableRun(p.counts) && p.sess.count <= TWO48
    requires i < |p.counts| && j < |p.counts| && (i, a) != (j, b)
    ensures AesInput(p.srtp.keys, SeqsOf(p.raws), i, a) != AesInput(p.srtp.keys, SeqsOf(p.raws), j, b)
  {
    assert SeqsOf(p.raws) == Low16s(p.counts);
    NoCounterReuse(p.srtp.keys, p.counts, i, j, a, b);
  }

  /** With a block cipher, no two full blocks of its packets are XORed with the same octets. */
  lemma PlayerBlocksDistinct(p: StreamSrtpPlayer, i: nat, j: nat, a: u16, b: u16)
    requires p.Valid() && i < |p.raws| && j < |p.raws|
    requires HEADER + 16 * a + 16 <= |p.raws[i]| && HEADER + 16 * b + 16 <= |p.raws[j]|
    ensures |p.counts| == |p.raws|
    ensures TrackableRun(p.counts) && p.sess.count <= TWO48 && Enciphers(p.srtp.keys.crypto, p.srtp.keys.enc) ==>
      (KeyBlock(p.srtp.keys, p.raws, i, a) == KeyBlock(p.srtp.keys, p.raws, j, b) <==> i == j && a == b)
  {
    if TrackableRun(p.counts) && p.sess.count <= TWO48 && Enciphers(p.srtp.keys.crypto, p.srtp.keys.enc) {
      KeyBlocksDistinct(p.srtp.keys, p.raws, p.counts, i, j, a, b);
    }
  }
}
