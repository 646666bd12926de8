/** Telephone events end to end: digits and audio interleaved on one session, a lossy channel, and a collector. */
module DtmfRuns {
  import opened Words
  import opened Bytes
  import opened Rtp
  import opened RtpSession
  import opened Dtmf
  import PacketIndex
  import Srtp
  import opened Wrappers

  const VOLUME: u8 := 10

  function EventPacket(ssrc: u32, count: nat, clock: nat, code: Code, duration: u16, marker: bool,
                       end: bool): RtpPacket {
    RtpPacket(TELEPHONE_EVENT, marker, Low16(count), clock % TWO32, ssrc,
              BuildPayload(Octet(code), VOLUME, duration, end))
  }

  /** Packet number `stage` of a digit: five of 20 ms each, then the end packet, which does not advance the clock. */
  function StagePacket(ssrc: u32, count: nat, clock: nat, code: Code, stage: nat): RtpPacket
    requires stage < 6
  {
    if stage < 5 then EventPacket(ssrc, count, clock, code, (stage + 1) * 160, stage == 0, false)
    else EventPacket(ssrc, count, clock, code, 800, false, true)
  }

  /** The packets of one digit sent without interruption. */
  function DigitPackets(ssrc: u32, count: nat, clock: nat, code: Code, stages: nat): (r: seq<RtpPacket>)
    requires stages <= 6
    ensures |r| == stages
  {
    if stages == 0 then []
    else DigitPackets(ssrc, count, clock, code, stages - 1)
         + [StagePacket(ssrc, count + stages - 1, clock + (stages - 1) * 160, code, stages - 1)]
  }

  /** Unknown digits are skipped without touching the session. */
  method SendDTMF(sess: Session, digit: string) returns (sent: seq<RtpPacket>)
    requires sess.Valid()
    modifies sess
    ensures sess.Valid()
    ensures digit !in DIGIT_CODE ==> sent == [] && sess.count == old(sess.count) && sess.clock == old(sess.clock)
    ensures digit in DIGIT_CODE ==> sess.count == old(sess.count) + 6 && sess.clock == old(sess.clock) + 800
    ensures digit in DIGIT_CODE ==> DIGIT_CODE[digit] < 16
    ensures digit in DIGIT_CODE ==>
      sent == DigitPackets(sess.ssrc, old(sess.count), old(sess.clock), DIGIT_CODE[digit], 6)
  {
    sent := [];
    if digit !in DIGIT_CODE {
      return;
    }
    TablesInverse();
    hide DIGIT_CODE, CODE_DIGIT;
    var code: Code := DIGIT_CODE[digit];
    var dur: u16 := 0;
    for i := 0 to 5
      invariant sess.Valid() && sess.count == old(sess.count) + i && sess.clock == old(sess.clock) + i * 160
      invariant sent == DigitPackets(sess.ssrc, old(sess.count), old(sess.clock), code, i)
      invariant dur == i * 160
    {
      dur := (i + 1) * 160;
      var sn, ts := sess.NextSeqTS(160);
      var payload := BuildPayload(Octet(code), VOLUME, dur, false);
      sent := sent + [RtpPacket(TELEPHONE_EVENT, i == 0, sn, ts, sess.ssrc, payload)];
    }
    var sn, ts := sess.NextSeqTS(0);
    var endPayload := BuildPayload(Octet(code), VOLUME, dur, true);
    sent := sent + [RtpPacket(TELEPHONE_EVENT, false, sn, ts, sess.ssrc, endPayload)];
  }

  lemma {:induction false} DigitPacketAt(ssrc: u32, count: nat, clock: nat, code: Code, stages: nat, i: nat)
    requires i < stages <= 6
    ensures DigitPackets(ssrc, count, clock, code, stages)[i] == StagePacket(ssrc, count + i, clock + i * 160, code, i)
  {
    hide StagePacket;
    if i < stages - 1 {
      DigitPacketAt(ssrc, count, clock, code, stages - 1, i);
    }
  }

  /**
   * The six packets of a digit: consecutive numbers, timestamps and durations 20 ms apart except for the last, which
   * has the duration of the fifth and the end bit; the marker on the first alone; type 101, volume 10.
   */
  lemma DigitShape(ssrc: u32, count: nat, clock: nat, code: Code, i: nat)
    requires i < 6
    ensures var (p, d) := (DigitPackets(ssrc, count, clock, code, 6)[i], if i < 5 then i + 1 else 5);
      && p.pt == 101 && p.ssrc == ssrc && p.sn == Low16(count + i) && p.ts == (clock + 160 * i) % TWO32
      && (p.marker <==> i == 0) && |p.payload| == 4 && p.payload[0] == code && p.payload[1] % 64 == 10
      && (p.payload[1] / 128 == 1 <==> i == 5) && Value(p.payload[2..4]) == 160 * d
  {
    hide BuildPayload, Value, Low16;
    DigitPacketAt(ssrc, count, clock, code, 6, i);
    PayloadFields(Octet(code), VOLUME, if i < 5 then (i + 1) * 160 else 800, i == 5);
  }

  // ---- interleaving ----

  /** One use of the shared session: an audio frame, or the next packet of the digit being sent. */
  datatype Op = Audio(pt: u8, tsIncrement: u32, payload: seq<u8>) | Tone

  /** The end of one digit, at an unbounded clock. */
  datatype EndAt = EndAt(clock: nat, code: Code)

  datatype Sender = Sender(count: nat, clock: nat, tones: nat, wire: seq<RtpPacket>, ends: seq<EndAt>)

  function SendOp(ssrc: u32, codes: seq<Code>, s: Sender, op: Op): Sender {
    match op
    case Audio(pt, inc, payload) =>
      var p := RtpPacket(pt, false, Low16(s.count), s.clock % TWO32, ssrc, payload);
      s.(count := s.count + 1, clock := s.clock + inc, wire := s.wire + [p])
    case Tone =>
      if s.tones / 6 >= |codes| then s
      else
        var (code, stage) := (codes[s.tones / 6], s.tones % 6);
        Sender(s.count + 1, s.clock + (if stage < 5 then 160 else 0), s.tones + 1,
               s.wire + [StagePacket(ssrc, s.count, s.clock, code, stage)],
               if stage < 5 then s.ends else s.ends + [EndAt(s.clock, code)])
  }

  /** Any schedule of audio and tone packets on a session that starts anywhere. */
  function SendOps(ssrc: u32, codes: seq<Code>, count: nat, clock: nat, ops: seq<Op>): Sender {
    if ops == [] then Sender(count, clock, 0, [], [])
    else SendOp(ssrc, codes, SendOps(ssrc, codes, count, clock, ops[..|ops| - 1]), ops[|ops| - 1])
  }

  lemma ToneStep(ssrc: u32, codes: seq<Code>, s: Sender, q: nat, stage: nat)
    requires s.tones == 6 * q + stage && stage < 6 && q < |codes|
    ensures var t := SendOp(ssrc, codes, s, Tone);
      && t.wire == s.wire + [StagePacket(ssrc, s.count, s.clock, codes[q], stage)]
      && t.count == s.count + 1 && t.tones == s.tones + 1 && t.clock == s.clock + (if stage < 5 then 160 else 0)
      && t.ends == if stage < 5 then s.ends else s.ends + [EndAt(s.clock, codes[q])]
  {
    assert s.tones / 6 == q && s.tones % 6 == stage;
  }

  /** The sender after the first packets of an uninterrupted digit. */
  ghost predicate DigitSoFar(ssrc: u32, code: Code, s: Sender, t: Sender, stages: nat)
    requires stages <= 6
  {
    && t.wire == s.wire + DigitPackets(ssrc, s.count, s.clock, code, stages)
    && t.count == s.count + stages && t.tones == s.tones + stages
    && t.clock == s.clock + (if stages < 6 then stages * 160 else 800)
    && t.ends == if stages < 6 then s.ends else s.ends + [EndAt(s.clock + 800, code)]
  }

  lemma DigitSoFarStep(ssrc: u32, code: Code, s: Sender, t: Sender, u: Sender, k: nat)
    requires k < 6 && DigitSoFar(ssrc, code, s, t, k)
    requires u.wire == t.wire + [StagePacket(ssrc, t.count, t.clock, code, k)]
    requires u.count == t.count + 1 && u.tones == t.tones + 1 && u.clock == t.clock + if k < 5 then 160 else 0
    requires u.ends == if k < 5 then t.ends else t.ends + [EndAt(t.clock, code)]
    ensures DigitSoFar(ssrc, code, s, u, k + 1)
  {
    hide StagePacket, DigitPackets;
    UnfoldDigit(ssrc, s.count, s.clock, code, k + 1);
  }

  /** A digit sent without interruption is six tone operations of the schedule. */
  lemma {:induction false} UninterruptedDigit(ssrc: u32, codes: seq<Code>, s: Sender, q: nat, stages: nat)
    requires s.tones == 6 * q && q < |codes| && stages <= 6
    ensures DigitSoFar(ssrc, codes[q], s, ToneTimes(ssrc, codes, s, stages), stages)
  {
    if stages == 0 {
      assert s.wire + [] == s.wire;
    } else {
      hide StagePacket, SendOp, DigitPackets, ToneTimes;
      var k := stages - 1;
      UninterruptedDigit(ssrc, codes, s, q, k);
      var t := ToneTimes(ssrc, codes, s, k);
      assert t.tones == 6 * q + k;
      ToneStep(ssrc, codes, t, q, k);
      UnfoldTones(ssrc, codes, s, stages);
      hide DigitSoFar;
      DigitSoFarStep(ssrc, codes[q], s, t, SendOp(ssrc, codes, t, Tone), k);
    }
  }

  lemma UnfoldDigit(ssrc: u32, count: nat, clock: nat, code: Code, stages: nat)
    requires 0 < stages <= 6
    ensures DigitPackets(ssrc, count, clock, code, stages)
         == DigitPackets(ssrc, count, clock, code, stages - 1)
          + [StagePacket(ssrc, count + stages - 1, clock + (stages - 1) * 160, code, stages - 1)]
  {}

  lemma UnfoldTones(ssrc: u32, codes: seq<Code>, s: Sender, n: nat)
    requires n > 0
    ensures ToneTimes(ssrc, codes, s, n) == SendOp(ssrc, codes, ToneTimes(ssrc, codes, s, n - 1), Tone)
  {}

  function ToneTimes(ssrc: u32, codes: seq<Code>, s: Sender, n: nat): Sender {
    if n == 0 then s else SendOp(ssrc, codes, ToneTimes(ssrc, codes, s, n - 1), Tone)
  }

  // ---- end events seen by a collector ----

  datatype End = End(ts: u32, code: u8)

  predicate IsEnd(pt: u8, p: RtpPacket) {
    p.pt == pt && DecodeEvent(p.payload).Event? && DecodeEvent(p.payload).end
  }

  /** The end events of one payload type, in order. */
  function Ends(pt: u8, ps: seq<RtpPacket>): seq<End> {
    if ps == [] then []
    else
      var p := ps[|ps| - 1];
      Ends(pt, ps[..|ps| - 1]) + if IsEnd(pt, p) then [End(p.ts, p.payload[0])] else []
  }

  ghost predicate KnownCodes(es: seq<End>) { forall k :: 0 <= k < |es| ==> es[k].code < 16 }

  /** Drops every end event equal to the one before it. */
  function Deduped(es: seq<End>): seq<End> {
    if es == [] then []
    else
      var n := |es| - 1;
      Deduped(es[..n]) + if n > 0 && es[n] == es[n - 1] then [] else [es[n]]
  }

  function Names(es: seq<End>): (r: seq<string>)
    requires KnownCodes(es)
    ensures |r| == |es|
  {
    seq(|es|, k requires 0 <= k < |es| => CODE_DIGIT[es[k].code])
  }

  lemma {:induction false} DedupedKnown(es: seq<End>)
    requires KnownCodes(es)
    ensures KnownCodes(Deduped(es)) && |Deduped(es)| <= |es|
  {
    if es != [] {
      DedupedKnown(es[..|es| - 1]);
    }
  }

  /** A fresh collector depends on the end events alone: it records each one that differs from the one before. */
  lemma {:induction false} CollectorSeesEnds(telPT: u8, ps: seq<RtpPacket>)
    ensures var (c, es) := (CollectAll(NewCollector(telPT), ps), Ends(NewCollector(telPT).pt, ps));
      && c.pt == NewCollector(telPT).pt && KnownCodes(es) && KnownCodes(Deduped(es))
      && c.digits == Names(Deduped(es))
      && (c.seeded <==> es != [])
      && (es != [] ==> es[|es| - 1] == End(c.lastTS, c.lastEvt))
  {
    if ps != [] {
      CollectorSeesEnds(telPT, ps[..|ps| - 1]);
      var n := |ps| - 1;
      CollectOne(CollectAll(NewCollector(telPT), ps[..n]), Ends(NewCollector(telPT).pt, ps[..n]), ps[n]);
    }
  }

  lemma DedupedAppend(es: seq<End>, e: End)
    ensures Deduped(es + [e]) == Deduped(es) + if es != [] && e == es[|es| - 1] then [] else [e]
  {
    assert (es + [e])[..|es|] == es;
  }

  lemma NamesAppend(es: seq<End>, e: End)
    requires KnownCodes(es) && e.code < 16
    ensures KnownCodes(es + [e]) && Names(es + [e]) == Names(es) + [CODE_DIGIT[e.code]]
  {}

  lemma CollectOne(c: Collector, es: seq<End>, p: RtpPacket)
    requires KnownCodes(es) && KnownCodes(Deduped(es)) && c.digits == Names(Deduped(es))
    requires (c.seeded <==> es != []) && (es != [] ==> es[|es| - 1] == End(c.lastTS, c.lastEvt))
    ensures var (d, fs) := (Collect(c, p), es + if IsEnd(c.pt, p) then [End(p.ts, p.payload[0])] else []);
      && d.pt == c.pt && KnownCodes(fs) && KnownCodes(Deduped(fs)) && d.digits == Names(Deduped(fs))
      && (d.seeded <==> fs != []) && (fs != [] ==> fs[|fs| - 1] == End(d.lastTS, d.lastEvt))
  {
    hide CODE_DIGIT, Deduped, Names, KnownCodes;
    if IsEnd(c.pt, p) {
      var e := End(p.ts, p.payload[0]);
      DedupedAppend(es, e);
      NamesAppend(es, e);
      NamesAppend(Deduped(es), e);
      assert Deduped(es) + [] == Deduped(es);
    } else {
      assert es + [] == es;
    }
  }

  // ---- the channel ----

  /** `got` repeats every element of `sent` at least once, in order. */
  ghost predicate Stutters(sent: seq<End>, got: seq<End>) {
    if got == [] then sent == []
    else
      && sent != [] && sent[|sent| - 1] == got[|got| - 1]
      && (Stutters(sent, got[..|got| - 1]) || Stutters(sent[..|sent| - 1], got[..|got| - 1]))
  }

  lemma {:induction false} StutterDeduped(sent: seq<End>, got: seq<End>)
    requires Stutters(sent, got)
    ensures Deduped(got) == Deduped(sent) && (got == [] <==> sent == [])
  {
    if got != [] {
      var (s, g) := (sent[..|sent| - 1], got[..|got| - 1]);
      if Stutters(sent, g) {
        StutterDeduped(sent, g);
        assert g[|g| - 1] == sent[|sent| - 1] by { StutterLast(sent, g); }
      } else {
        StutterDeduped(s, g);
        if g != [] {
          StutterLast(s, g);
        }
      }
    }
  }

  lemma StutterLast(sent: seq<End>, got: seq<End>)
    requires Stutters(sent, got) && sent != []
    ensures got != [] && got[|got| - 1] == sent[|sent| - 1]
  {}

  ghost predicate NoTwins(es: seq<End>) { forall k :: 0 < k < |es| ==> !Twins(es, k) }

  /** Two neighbouring end events that a collector cannot tell apart. */
  predicate Twins(es: seq<End>, k: nat)
    requires 0 < k < |es|
  {
    es[k] == es[k - 1]
  }

  lemma {:induction false} DedupedIff(es: seq<End>)
    requires KnownCodes(es)
    ensures NoTwins(es) ==> Deduped(es) == es
    ensures !NoTwins(es) ==> |Deduped(es)| < |es|
  {
    hide CODE_DIGIT;
    if es != [] {
      hide Deduped, KnownCodes, NoTwins;
      var n := |es| - 1;
      KnownFront(es);
      DedupedIff(es[..n]);
      DedupedKnown(es[..n]);
      DedupedAppend(es[..n], es[n]);
      TwinsFront(es);
      assert es == es[..n] + [es[n]];
    }
  }

  lemma KnownFront(es: seq<End>)
    requires es != [] && KnownCodes(es)
    ensures KnownCodes(es[..|es| - 1])
  {}

  lemma TwinsFront(es: seq<End>)
    requires es != []
    ensures var n := |es| - 1; NoTwins(es) <==> NoTwins(es[..n]) && (n > 0 ==> es[n] != es[n - 1])
  {
    var n := |es| - 1;
    assert forall k :: 0 < k < n ==> (Twins(es[..n], k) <==> Twins(es, k));
    assert n > 0 ==> (Twins(es, n) <==> es[n] == es[n - 1]);
  }

  // ---- the sender's end events ----

  function Wire(ends: seq<EndAt>): (r: seq<End>)
    ensures |r| == |ends| && forall k :: 0 <= k < |r| ==> r[k] == End(ends[k].clock % TWO32, Octet(ends[k].code))
  {
    seq(|ends|, k requires 0 <= k < |ends| => End(ends[k].clock % TWO32, Octet(ends[k].code)))
  }

  /** No audio frame uses the given payload type. */
  ghost predicate AudioAvoids(pt: u8, ops: seq<Op>) {
    forall k :: 0 <= k < |ops| ==> ops[k].Audio? ==> ops[k].pt != pt
  }

  /** The clock between the ends of two successive digits. */
  function Apart(ends: seq<EndAt>, k: nat): int
    requires 0 < k < |ends|
  {
    ends[k].clock - ends[k - 1].clock
  }

  /** The sender finishes digits one at a time, and successive end packets are at least 800 ticks apart. */
  ghost predicate Orderly(codes: seq<Code>, s: Sender) {
    && s.tones <= 6 * |codes| && |s.ends| == s.tones / 6
    && (forall k :: 0 <= k < |s.ends| ==> s.ends[k].code == codes[k])
    && (forall k :: 0 < k < |s.ends| ==> Apart(s.ends, k) >= 800)
    && (s.ends != [] ==> s.clock >= s.ends[|s.ends| - 1].clock + 160 * (s.tones % 6))
  }

  lemma OrderlyStep(ssrc: u32, codes: seq<Code>, s: Sender, op: Op)
    requires Orderly(codes, s)
    ensures Orderly(codes, SendOp(ssrc, codes, s, op))
  {
    hide StagePacket;
    var t := SendOp(ssrc, codes, s, op);
    if op.Tone? && s.tones / 6 < |codes| {
      assert t.tones / 6 == (if s.tones % 6 < 5 then s.tones / 6 else s.tones / 6 + 1);
      assert t.tones % 6 == (if s.tones % 6 < 5 then s.tones % 6 + 1 else 0);
      forall k | 0 < k < |t.ends| ensures Apart(t.ends, k) >= 800 {
        if k < |s.ends| {
          assert Apart(s.ends, k) >= 800;
        }
      }
    }
  }

  lemma StageEnds(pt: u8, ssrc: u32, count: nat, clock: nat, code: Code, stage: nat)
    requires stage < 6
    ensures IsEnd(pt, StagePacket(ssrc, count, clock, code, stage)) <==> pt == TELEPHONE_EVENT && stage == 5
    ensures var p := StagePacket(ssrc, count, clock, code, stage);
      p.pt == TELEPHONE_EVENT && p.ts == clock % TWO32 && p.payload[0] == Octet(code)
  {
    hide CODE_DIGIT;
    DecodeBuilt(code, VOLUME, if stage < 5 then (stage + 1) * 160 else 800, stage == 5);
  }

  /** On the wire, end events of type 101 are exactly the ends of the completed digits; other types have none. */
  lemma {:induction false} SentEnds(pt: u8, ssrc: u32, codes: seq<Code>, count: nat, clock: nat, ops: seq<Op>)
    requires AudioAvoids(pt, ops)
    ensures var s := SendOps(ssrc, codes, count, clock, ops);
      Orderly(codes, s) && Ends(pt, s.wire) == if pt == TELEPHONE_EVENT then Wire(s.ends) else []
  {
    if ops != [] {
      hide Orderly, StagePacket, IsEnd, Ends, Wire, CODE_DIGIT;
      var n := |ops| - 1;
      SentEnds(pt, ssrc, codes, count, clock, ops[..n]);
      var s := SendOps(ssrc, codes, count, clock, ops[..n]);
      OrderlyStep(ssrc, codes, s, ops[n]);
      match ops[n] {
        case Audio(apt, inc, payload) =>
          var p := RtpPacket(apt, false, Low16(s.count), s.clock % TWO32, ssrc, payload);
          EndsAppend(pt, s.wire, p);
          AudioIsNoEnd(pt, p);
        case Tone =>
          if s.tones / 6 < |codes| {
            var (code, stage) := (codes[s.tones / 6], s.tones % 6);
            EndsAppend(pt, s.wire, StagePacket(ssrc, s.count, s.clock, code, stage));
            StageEnds(pt, ssrc, s.count, s.clock, code, stage);
            WireAppend(s.ends, EndAt(s.clock, code));
          }
      }
    } else {
      assert Ends(pt, []) == [] == Wire([]);
    }
  }

  lemma EndsAppend(pt: u8, ps: seq<RtpPacket>, p: RtpPacket)
    ensures Ends(pt, ps + [p]) == if IsEnd(pt, p) then Ends(pt, ps) + [End(p.ts, p.payload[0])] else Ends(pt, ps)
  {
    hide IsEnd;
    assert (ps + [p])[..|ps|] == ps;
    assert Ends(pt, ps) + [] == Ends(pt, ps);
  }

  lemma WireAppend(ends: seq<EndAt>, e: EndAt)
    ensures Wire(ends + [e]) == Wire(ends) + [End(e.clock % TWO32, Octet(e.code))]
  {}

  lemma AudioIsNoEnd(pt: u8, p: RtpPacket)
    requires p.pt != pt
    ensures !IsEnd(pt, p)
  {}

  /** The names of the digits whose six packets have all been sent. */
  function CompletedDigits(codes: seq<Code>, s: Sender): seq<string>
    requires |s.ends| <= |codes|
  {
    seq(|s.ends|, k requires 0 <= k < |s.ends| => CODE_DIGIT[codes[k]])
  }

  /** Two equal digits in a row whose end packets carry the same 32-bit timestamp. */
  ghost predicate Confused(s: Sender, k: nat)
    requires 0 < k < |s.ends|
  {
    s.ends[k].code == s.ends[k - 1].code && Apart(s.ends, k) % TWO32 == 0
  }

  /**
   * Whatever else arrives, as long as the end packets of the completed digits arrive in order and at least once
   * each, the collector records exactly those digits if and only if no two equal neighbours are confused.
   */
  lemma DigitsArriveIff(ssrc: u32, codes: seq<Code>, count: nat, clock: nat, ops: seq<Op>, got: seq<RtpPacket>)
    requires AudioAvoids(TELEPHONE_EVENT, ops)
    requires Stutters(Ends(TELEPHONE_EVENT, SendOps(ssrc, codes, count, clock, ops).wire), Ends(TELEPHONE_EVENT, got))
    ensures var s := SendOps(ssrc, codes, count, clock, ops);
      && |s.ends| <= |codes|
      && (CollectAll(NewCollector(TELEPHONE_EVENT), got).digits == CompletedDigits(codes, s)
          <==> forall k :: 0 < k < |s.ends| ==> !Confused(s, k))
  {
    var s := SendOps(ssrc, codes, count, clock, ops);
    var es := Wire(s.ends);
    SentEnds(TELEPHONE_EVENT, ssrc, codes, count, clock, ops);
    CollectorSeesEnds(TELEPHONE_EVENT, got);
    hide SendOps, CollectAll, Ends, Deduped, Stutters, CODE_DIGIT, Wire, KnownCodes, Names, Confused, NoTwins;
    StutterDeduped(es, Ends(TELEPHONE_EVENT, got));
    assert |s.ends| <= |codes|;
    WireNames(codes, s);
    DedupedIff(es);
    TwinsConfused(s);
  }

  lemma WireNames(codes: seq<Code>, s: Sender)
    requires Orderly(codes, s) && |s.ends| <= |codes|
    ensures KnownCodes(Wire(s.ends)) && Names(Wire(s.ends)) == CompletedDigits(codes, s)
  {
    hide CODE_DIGIT;
  }

  lemma TwinsConfused(s: Sender)
    ensures NoTwins(Wire(s.ends)) <==> forall k :: 0 < k < |s.ends| ==> !Confused(s, k)
  {
    forall k | 0 < k < |s.ends| ensures Twins(Wire(s.ends), k) <==> Confused(s, k) {
      SameRemainder(s.ends[k - 1].clock, s.ends[k].clock);
    }
  }

  lemma SameRemainder(a: nat, b: nat)
    ensures a % TWO32 == b % TWO32 <==> (b - a) % TWO32 == 0
  {}

  /** The usual case: the clock advances by less than 2^32 from one digit's end to the next. */
  lemma DigitsArrive(ssrc: u32, codes: seq<Code>, count: nat, clock: nat, ops: seq<Op>, got: seq<RtpPacket>)
    requires AudioAvoids(TELEPHONE_EVENT, ops)
    requires Stutters(Ends(TELEPHONE_EVENT, SendOps(ssrc, codes, count, clock, ops).wire), Ends(TELEPHONE_EVENT, got))
    requires var s := SendOps(ssrc, codes, count, clock, ops); forall k :: 0 < k < |s.ends| ==> Apart(s.ends, k) < TWO32
    ensures var s := SendOps(ssrc, codes, count, clock, ops);
      |s.ends| <= |codes| && CollectAll(NewCollector(TELEPHONE_EVENT), got).digits == CompletedDigits(codes, s)
  {
    hide SendOps, CollectAll, Ends, Stutters, AudioAvoids, CompletedDigits, Wire;
    var s := SendOps(ssrc, codes, count, clock, ops);
    SentEnds(TELEPHONE_EVENT, ssrc, codes, count, clock, ops);
    DigitsArriveIff(ssrc, codes, count, clock, ops, got);
    forall k | 0 < k < |s.ends| ensures !Confused(s, k) {
      assert 800 <= Apart(s.ends, k) < TWO32;
    }
  }

  // ---- a digit that is lost ----

  function Tones(n: nat): seq<Op> { seq(n, _ => Tone) }

  lemma {:induction false} TonesAreToneTimes(ssrc: u32, codes: seq<Code>, count: nat, clock: nat, ops: seq<Op>, n: nat)
    ensures SendOps(ssrc, codes, count, clock, ops + Tones(n)) ==
            ToneTimes(ssrc, codes, SendOps(ssrc, codes, count, clock, ops), n)
  {
    hide SendOp;
    if n == 0 {
      assert ops + Tones(0) == ops;
    } else {
      TonesAreToneTimes(ssrc, codes, count, clock, ops, n - 1);
      assert (ops + Tones(n))[..|ops| + n - 1] == ops + Tones(n - 1);
    }
  }

  lemma OneMoreOp(ssrc: u32, codes: seq<Code>, count: nat, clock: nat, ops: seq<Op>, op: Op)
    ensures SendOps(ssrc, codes, count, clock, ops + [op]) ==
            SendOp(ssrc, codes, SendOps(ssrc, codes, count, clock, ops), op)
  {
    assert (ops + [op])[..|ops|] == ops;
  }

  /** A digit, audio that advances the clock to 2^32, and the same digit again. */
  function Merging(pt: u8, payload: seq<u8>): seq<Op> {
    Tones(6) + [Audio(pt, TWO32 - 800, payload)] + Tones(6)
  }

  lemma MergingEnds(ssrc: u32, code: Code, pt: u8, payload: seq<u8>)
    ensures SendOps(ssrc, [code, code], 0, 0, Merging(pt, payload)).ends == [EndAt(800, code), EndAt(TWO32 + 800, code)]
  {
    hide SendOp, SendOps, StagePacket, DigitPackets, ToneTimes, Tones;
    var codes := [code, code];
    var s0 := SendOps(ssrc, codes, 0, 0, []);
    NothingSent(ssrc, codes);
    TonesAreToneTimes(ssrc, codes, 0, 0, [], 6);
    assert [] + Tones(6) == Tones(6);
    UninterruptedDigit(ssrc, codes, s0, 0, 6);
    var s1 := SendOps(ssrc, codes, 0, 0, Tones(6));
    var audio := Tones(6) + [Audio(pt, TWO32 - 800, payload)];
    OneMoreOp(ssrc, codes, 0, 0, Tones(6), Audio(pt, TWO32 - 800, payload));
    var s2 := SendOps(ssrc, codes, 0, 0, audio);
    AudioStep(ssrc, codes, s1, pt, TWO32 - 800, payload);
    TonesAreToneTimes(ssrc, codes, 0, 0, audio, 6);
    UninterruptedDigit(ssrc, codes, s2, 1, 6);
  }

  lemma NothingSent(ssrc: u32, codes: seq<Code>)
    ensures SendOps(ssrc, codes, 0, 0, []) == Sender(0, 0, 0, [], [])
  {}

  lemma AudioStep(ssrc: u32, codes: seq<Code>, s: Sender, pt: u8, inc: u32, payload: seq<u8>)
    ensures var t := SendOp(ssrc, codes, s, Audio(pt, inc, payload));
      t.tones == s.tones && t.clock == s.clock + inc && t.ends == s.ends
  {}

  /** Sent this way and delivered without loss, two equal digits are recorded as one. */
  lemma TwoDigitsMerge(ssrc: u32, code: Code, pt: u8, payload: seq<u8>)
    requires pt != TELEPHONE_EVENT
    ensures var s := SendOps(ssrc, [code, code], 0, 0, Merging(pt, payload));
      |s.ends| == 2 && CollectAll(NewCollector(TELEPHONE_EVENT), s.wire).digits == [CODE_DIGIT[code]]
  {
    hide SendOps, CollectAll, CODE_DIGIT;
    var s := SendOps(ssrc, [code, code], 0, 0, Merging(pt, payload));
    MergingEnds(ssrc, code, pt, payload);
    SentEnds(TELEPHONE_EVENT, ssrc, [code, code], 0, 0, Merging(pt, payload));
    CollectorSeesEnds(TELEPHONE_EVENT, s.wire);
    var e := End(800, Octet(code));
    assert Wire(s.ends) == [] + [e] + [e];
    DedupedAppend([], e);
    DedupedAppend([] + [e], e);
  }

  /** The sender always uses type 101: a collector set up for another negotiated type records nothing. */
  lemma OtherTypeRecordsNothing(telPT: u8, ssrc: u32, codes: seq<Code>, count: nat, clock: nat, ops: seq<Op>)
    requires telPT != 0 && telPT != TELEPHONE_EVENT && AudioAvoids(telPT, ops)
    ensures CollectAll(NewCollector(telPT), SendOps(ssrc, codes, count, clock, ops).wire).digits == []
  {
    SentEnds(telPT, ssrc, codes, count, clock, ops);
    CollectorSeesEnds(telPT, SendOps(ssrc, codes, count, clock, ops).wire);
  }

  // ---- digits on an SRTP call ----

  lemma EventIsShort(ssrc: u32, count: nat, clock: nat, code: Code, stage: nat)
    requires stage < 6
    ensures |Marshal(StagePacket(ssrc, count, clock, code, stage))| == 16
  {}

  /** Digits are sent as they are, on SRTP calls too; each packet is too short for an SRTP receiver to look at. */
  lemma PlainEventRefused(k: Srtp.Keys, t: PacketIndex.Tracker, ssrc: u32, count: nat, clock: nat, code: Code,
                          stage: nat)
    requires stage < 6
    ensures Srtp.ReceiveStep(k, t, Marshal(StagePacket(ssrc, count, clock, code, stage)))
         == (t, Err("srtp: packet too short"))
  {
    hide StagePacket;
    EventIsShort(ssrc, count, clock, code, stage);
  }

  function OnWire(ps: seq<RtpPacket>): seq<seq<u8>> {
    if ps == [] then [] else OnWire(ps[..|ps| - 1]) + [Marshal(ps[|ps| - 1])]
  }

  function Refusals(n: nat): seq<Result<seq<u8>>> {
    if n == 0 then [] else Refusals(n - 1) + [Err("srtp: packet too short")]
  }

  lemma OneMoreReceived(k: Srtp.Keys, got: seq<seq<u8>>, raw: seq<u8>)
    ensures var ((t, rs), (u, x)) := (Srtp.Received(k, got), Srtp.ReceiveStep(k, Srtp.Received(k, got).0, raw));
      Srtp.Received(k, got + [raw]) == (u, rs + [x])
  {
    assert (got + [raw])[..|got|] == got;
    Srtp.ReceivedLast(k, got + [raw]);
  }

  lemma OnWireAppend(ps: seq<RtpPacket>, p: RtpPacket)
    ensures OnWire(ps + [p]) == OnWire(ps) + [Marshal(p)]
  {
    assert (ps + [p])[..|ps|] == ps;
  }

  /** Whatever it has received so far, an SRTP receiver refuses every packet of a digit and stays where it was. */
  lemma {:induction false} PlainDigitRefused(k: Srtp.Keys, got: seq<seq<u8>>, ssrc: u32, count: nat, clock: nat,
                                             code: Code, stages: nat)
    requires stages <= 6
    ensures var (t, rs) := Srtp.Received(k, got);
      Srtp.Received(k, got + OnWire(DigitPackets(ssrc, count, clock, code, stages))) == (t, rs + Refusals(stages))
  {
    hide Srtp.ReceiveStep, Srtp.Received, StagePacket, Marshal;
    if stages == 0 {
      assert got + [] == got && Srtp.Received(k, got).1 + [] == Srtp.Received(k, got).1;
    } else {
      var n := stages - 1;
      var sent := DigitPackets(ssrc, count, clock, code, n);
      var p := StagePacket(ssrc, count + n, clock + n * 160, code, n);
      UnfoldDigit(ssrc, count, clock, code, stages);
      PlainDigitRefused(k, got, ssrc, count, clock, code, n);
      hide DigitPackets, OnWire;
      OnWireAppend(sent, p);
      OneMoreReceived(k, got + OnWire(sent), Marshal(p));
      PlainEventRefused(k, Srtp.Received(k, got).0, ssrc, count + n, clock + n * 160, code, n);
      assert got + (OnWire(sent) + [Marshal(p)]) == got + OnWire(sent) + [Marshal(p)];
      var (rs, e) := (Srtp.Received(k, got).1, Err("srtp: packet too short"));
      assert rs + (Refusals(n) + [e]) == rs + Refusals(n) + [e];
    }
  }
}
