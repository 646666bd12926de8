/** RTP packets and their wire form: the fixed 12-octet header of section 5.1 of RFC 3550, version 2, no extras. */
module Rtp {
  import opened Words
  import opened Bytes
  import opened Wrappers

  datatype RtpPacket = RtpPacket(pt: u8, marker: bool, sn: u16, ts: u32, ssrc: u32, payload: seq<u8>)

  /** A payload type above 127 spills into the marker bit. */
  function Marshal(p: RtpPacket): (raw: seq<u8>)
    ensures |raw| == 12 + |p.payload|
  {
    [0x80, if p.marker && p.pt < 128 then p.pt + 128 else p.pt]
    + BigEndian(p.sn, 2) + BigEndian(p.ts, 4) + BigEndian(p.ssrc, 4) + p.payload
  }

  /** What section 5.1 of RFC 3550 reads out of a header without padding, extension and contributing sources. */
  function Unmarshal(raw: seq<u8>): Option<RtpPacket> {
    if |raw| < 12 || raw[0] != 0x80 then None
    else
      Bounds(raw);
      Some(RtpPacket(raw[1] % 128, raw[1] / 128 == 1, Value(raw[2..4]), Value(raw[4..8]), Value(raw[8..12]), raw[12..]))
  }

  lemma Bounds(raw: seq<u8>)
    requires |raw| >= 12
    ensures Value(raw[2..4]) < TWO16 && Value(raw[4..8]) < TWO32 && Value(raw[8..12]) < TWO32
  {
    Powers();
    ValueBound(raw[2..4]);
    ValueBound(raw[4..8]);
    ValueBound(raw[8..12]);
  }

  lemma Powers()
    ensures Pow256(2) == TWO16 && Pow256(4) == TWO32
  {
    assert Pow256(4) == 256 * (256 * Pow256(2));
  }

  lemma MarshalParts(p: RtpPacket)
    ensures var raw := Marshal(p);
      && raw[2..4] == BigEndian(p.sn, 2) && raw[4..8] == BigEndian(p.ts, 4) && raw[8..12] == BigEndian(p.ssrc, 4)
      && raw[12..] == p.payload
  {}

  /** Every field of a packet with a 7-bit payload type can be read back from the wire. */
  lemma MarshalRoundTrip(p: RtpPacket)
    requires p.pt < 128
    ensures Unmarshal(Marshal(p)) == Some(p)
  {
    hide BigEndian, Value, Pow256;
    MarshalParts(p);
    Powers();
    ValueOfBigEndian(p.sn, 2);
    ValueOfBigEndian(p.ts, 4);
    ValueOfBigEndian(p.ssrc, 4);
  }
}
