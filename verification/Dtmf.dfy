/** Telephone events: sender, collector and digit matching (core/rtp/dtmf.go). */
module Dtmf {
  import opened Words
  import opened Bytes
  import opened Rtp

  const TELEPHONE_EVENT: u8 := 101
  const DIGIT_CODE: map<string, nat> := map[
    "0" := 0, "1" := 1, "2" := 2, "3" := 3, "4" := 4, "5" := 5, "6" := 6, "7" := 7, "8" := 8, "9" := 9,
    "*" := 10, "#" := 11, "A" := 12, "B" := 13, "C" := 14, "D" := 15]
  const CODE_DIGIT: seq<string> := ["0", "1", "2", "3", "4", "5", "6", "7", "8", "9", "*", "#", "A", "B", "C", "D"]

  type Code = c: nat | c < 16

  /** The two tables are inverse to each other. */
  lemma TablesInverse()
    ensures forall d :: d in DIGIT_CODE ==> DIGIT_CODE[d] < 16 && CODE_DIGIT[DIGIT_CODE[d]] == d
    ensures forall c: Code :: CODE_DIGIT[c] in DIGIT_CODE && DIGIT_CODE[CODE_DIGIT[c]] == c
  {}

  /** The event codes of section 3.10 of RFC 2833. */
  lemma StandardCodes()
    ensures forall c: Code :: c < 10 ==> CODE_DIGIT[c] == [('0' as int + c) as char]
    ensures CODE_DIGIT[10] == "*" && CODE_DIGIT[11] == "#"
    ensures CODE_DIGIT[12] == "A" && CODE_DIGIT[13] == "B" && CODE_DIGIT[14] == "C" && CODE_DIGIT[15] == "D"
  {}

  // ---- payloads ----

  /** The end bit next to six bits of volume. */
  function Flags(volume: u8, end: bool): u8 { volume % 0x40 + if end then 0x80 else 0 }

  predicate EndBit(flags: u8) { flags / 0x80 % 2 != 0 }

  lemma EndBitSurvives(volume: u8, end: bool)
    ensures EndBit(Flags(volume, end)) <==> end
  {}

  function BuildPayload(code: u8, volume: u8, duration: u16, end: bool): (p: seq<u8>)
    ensures |p| == 4
  {
    [code, Flags(volume, end), Octet(duration / 256), Octet(duration)]
  }

  datatype Decoded = Malformed | Event(digit: string, end: bool)

  /** Section 3.5 of RFC 2833: event, end bit, reserved bit, six bits of volume, and the duration in network order. */
  lemma PayloadFields(code: u8, volume: u8, duration: u16, end: bool)
    ensures var p := BuildPayload(code, volume, duration, end);
      && p[0] == code && p[1] % 64 == volume % 64 && p[1] / 64 % 2 == 0 && (p[1] / 128 == 1 <==> end)
      && Value(p[2..4]) == duration
  {
    var p := BuildPayload(code, volume, duration, end);
    assert p[2..4] == [] + [p[2]] + [p[3]];
    AppendDigit([] + [p[2]], p[3]);
    AppendDigit([], p[2]);
  }

  function DecodeEvent(payload: seq<u8>): Decoded {
    if |payload| < 4 then Malformed
    else if payload[0] >= 16 || CODE_DIGIT[payload[0]] == "" then Malformed
    else Event(CODE_DIGIT[payload[0]], EndBit(payload[1]))
  }

  /** A payload is an event exactly when it has four octets and one of the sixteen codes; the top bit marks the end. */
  lemma DecodesIff(payload: seq<u8>)
    ensures DecodeEvent(payload).Event? <==> |payload| >= 4 && payload[0] < 16
    ensures var e := DecodeEvent(payload);
      e.Event? ==> e.digit == CODE_DIGIT[payload[0]] && (e.end <==> payload[1] >= 128)
  {
    hide CODE_DIGIT;
    if |payload| >= 4 && payload[0] < 16 {
      NoEmptyDigit(payload[0]);
    }
  }

  lemma NoEmptyDigit(c: Code)
    ensures CODE_DIGIT[c] != ""
  {}

  lemma DecodeBuilt(c: Code, volume: u8, duration: u16, end: bool)
    ensures DecodeEvent(BuildPayload(Octet(c), volume, duration, end)) == Event(CODE_DIGIT[c], end)
  {
    hide Flags, EndBit, CODE_DIGIT;
    EndBitSurvives(volume, end);
    NoEmptyDigit(c);
  }

  // ---- the collector ----

  datatype Collector = Collector(pt: u8, digits: seq<string>, lastTS: u32, lastEvt: u8, seeded: bool)

  function NewCollector(telPT: u8): Collector {
    Collector(if telPT == 0 then TELEPHONE_EVENT else telPT, [], 0, 0, false)
  }

  function Accept(c: Collector, ts: u32, code: u8, digit: string): Collector {
    if c.seeded && c.lastTS == ts && c.lastEvt == code then c
    else Collector(c.pt, c.digits + [digit], ts, code, true)
  }

  /** What one received packet does: only the end of a well-formed event of the collector's payload type counts. */
  function Collect(c: Collector, p: RtpPacket): Collector {
    if p.pt == c.pt && DecodeEvent(p.payload).Event? && DecodeEvent(p.payload).end
    then Accept(c, p.ts, p.payload[0], DecodeEvent(p.payload).digit)
    else c
  }

  function CollectAll(c: Collector, ps: seq<RtpPacket>): Collector {
    if ps == [] then c else Collect(CollectAll(c, ps[..|ps| - 1]), ps[|ps| - 1])
  }

  class DtmfCollector {
    const pt: u8
    var digits: seq<string>
    var lastTS: u32
    var lastEvt: u8
    var seeded: bool

    function View(): Collector reads this { Collector(pt, digits, lastTS, lastEvt, seeded) }

    constructor (telPT: u8)
      ensures View() == NewCollector(telPT)
    {
      pt := if telPT == 0 then TELEPHONE_EVENT else telPT;
      digits, lastTS, lastEvt, seeded := [], 0, 0, false;
    }

    method AcceptEnd(ts: u32, eventCode: u8, digit: string)
      modifies this
      ensures View() == Accept(old(View()), ts, eventCode, digit)
    {
      if seeded && lastTS == ts && lastEvt == eventCode {
        return;
      }
      lastTS := ts;
      lastEvt := eventCode;
      seeded := true;
      digits := digits + [digit];
    }

    /** The telephone-event branch of the receive loop. */
    method Receive(p: RtpPacket)
      modifies this
      ensures View() == Collect(old(View()), p)
    {
      if p.pt == pt {
        var e := DecodeEvent(p.payload);
        if e.Event? && e.end {
          AcceptEnd(p.ts, p.payload[0], e.digit);
        }
      }
    }

    /** One greedy pass decides whether the expected digits occur in order among the collected ones. */
    method MatchesExpected(expected: seq<string>) returns (r: bool)
      ensures r <==> exists at: seq<nat> :: Embeds(at, expected, digits)
    {
      if |expected| == 0 {
        assert Embeds([], expected, digits);
        return true;
      }
      var ei := 0;
      ghost var at: seq<nat> := [];
      NothingInNothing(expected[..1], digits[..0]);
      for i := 0 to |digits|
        invariant 0 <= ei < |expected|
        invariant Embeds(at, expected[..ei], digits) && forall k :: 0 <= k < |at| ==> at[k] < i
        invariant Exhausted(expected[..ei + 1], digits[..i])
      {
        if digits[i] == expected[ei] {
          NoLongerMatch(expected, digits, ei, i);
          at := at + [i];
          ei := ei + 1;
          if ei == |expected| {
            assert expected[..ei] == expected;
            assert Embeds(at, expected, digits);
            return true;
          }
        } else {
          NoMatchHere(expected[..ei + 1], digits, i);
        }
      }
      assert digits[..|digits|] == digits;
      NoMatchOfLonger(expected, ei, digits);
      return false;
    }
  }

  // ---- subsequences ----

  /** Strictly increasing positions at which the expected digits are found. */
  ghost predicate Embeds(at: seq<nat>, expected: seq<string>, got: seq<string>) {
    && |at| == |expected|
    && (forall k :: 0 <= k < |at| ==> at[k] < |got| && got[at[k]] == expected[k])
    && Rising(at)
  }

  ghost predicate Exhausted(expected: seq<string>, got: seq<string>) {
    forall at: seq<nat> :: !Embeds(at, expected, got)
  }

  /** Dropping the last positions of an embedding, and the input behind the last one kept. */
  lemma PrefixEmbeds(at: seq<nat>, e: seq<string>, got: seq<string>, n: nat, m: nat)
    requires Embeds(at, e, got) && n <= |e| && m <= |got| && (n > 0 ==> at[n - 1] < m)
    ensures Embeds(at[..n], e[..n], got[..m])
  {}

  lemma NothingInNothing(e: seq<string>, got: seq<string>)
    requires e != [] && got == []
    ensures Exhausted(e, got)
  {
    forall at: seq<nat> ensures !Embeds(at, e, got) {
      if |at| == |e| {
        assert at[0] >= |got|;
      }
    }
  }

  lemma NoMatchHere(e: seq<string>, got: seq<string>, i: nat)
    requires i < |got| && e != [] && got[i] != e[|e| - 1] && Exhausted(e, got[..i])
    ensures Exhausted(e, got[..i + 1])
  {
    var g := got[..i + 1];
    forall at: seq<nat> ensures !Embeds(at, e, g) {
      if Embeds(at, e, g) {
        assert at[..|e|] == at && e[..|e|] == e && g[..i] == got[..i];
        PrefixEmbeds(at, e, g, |e|, i);
      }
    }
  }

  lemma NoLongerMatch(e: seq<string>, got: seq<string>, ei: nat, i: nat)
    requires i < |got| && ei < |e| && Exhausted(e[..ei + 1], got[..i])
    ensures ei + 1 < |e| ==> Exhausted(e[..ei + 2], got[..i + 1])
  {
    if ei + 1 < |e| {
      var (f, g) := (e[..ei + 2], got[..i + 1]);
      assert f[..ei + 1] == e[..ei + 1] && g[..i] == got[..i];
      forall at: seq<nat> ensures !Embeds(at, f, g) {
        if Embeds(at, f, g) {
          assert at[ei] < at[ei + 1];
          PrefixEmbeds(at, f, g, ei + 1, i);
        }
      }
    }
  }

  lemma NoMatchOfLonger(e: seq<string>, ei: nat, got: seq<string>)
    requires ei < |e| && Exhausted(e[..ei + 1], got)
    ensures Exhausted(e, got)
  {
    forall at: seq<nat> ensures !Embeds(at, e, got) {
      if Embeds(at, e, got) {
        assert got[..|got|] == got;
        PrefixEmbeds(at, e, got, ei + 1, |got|);
      }
    }
  }
}
