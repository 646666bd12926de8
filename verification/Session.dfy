/** The counter shared by every sender of one RTP flow (core/rtp/session.go). */
module RtpSession {
  import opened Words

  /**
   * `seq` and `ts` are the 16- and 32-bit header counters. The ghost `count` and `clock` are the same
   * counters without wrap-around: how many pairs were handed out, and the sum of their increments.
   */
  class Session {
    const ssrc: u32
    var seqNo: u16
    var ts: u32
    ghost var count: nat
    ghost var clock: nat

    ghost predicate Valid() reads this {
      seqNo == Low16(count) && ts == clock % TWO32
    }

    constructor (ssrc: u32)
      ensures Valid() && count == 0 && clock == 0 && this.ssrc == ssrc
    {
      this.ssrc := ssrc;
      seqNo, ts := 0, 0;
      count, clock := 0, 0;
    }

    /** The n-th call returns the low 16 bits of n and the clock before the call. */
    method NextSeqTS(tsIncrement: u32) returns (outSeq: u16, outTs: u32)
      requires Valid()
      modifies this
      ensures Valid() && count == old(count) + 1 && clock == old(clock) + tsIncrement
      ensures outSeq == Low16(old(count)) && outTs == old(clock) % TWO32
    {
      outSeq := seqNo;
      outTs := ts;
      seqNo := (seqNo + 1) % TWO16;
      ts := (ts + tsIncrement) % TWO32;
      count := count + 1;
      clock := clock + tsIncrement;
    }
  }
}
