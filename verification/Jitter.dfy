/** The de-jitter buffer and the recorder it plays into (core/rtp/jitter.go, core/rtp/recorder.go). */
module Jitter {
  import opened Words

  type Payload = seq<u8>

  datatype Packet = Packet(sn: u16, payload: Payload)

  /** The in-memory buffer of a recorder; empty payloads are ignored, which changes nothing. */
  class AudioRecorder {
    var buf: Payload

    constructor ()
      ensures buf == []
    {
      buf := [];
    }

    method Write(payload: Payload)
      modifies this
      ensures buf == old(buf) + payload
    {
      if |payload| == 0 {
        return;
      }
      buf := buf + payload;
    }
  }

  datatype Config = Config(playoutDelay: int, silenceSize: int)

  datatype Buffer = Buffer(packets: map<u16, Payload>, nextSeq: u16, started: bool, firstPktTime: int,
                           delayExpired: bool, written: Payload)

  const EMPTY := Buffer(map[], 0, false, 0, false, [])

  function Silence(c: Config): (r: Payload)
    ensures |r| == if c.silenceSize > 0 then c.silenceSize else 0
    ensures forall i :: 0 <= i < |r| ==> r[i] == 0
  {
    if c.silenceSize > 0 then seq(c.silenceSize, i => 0) else []
  }

  function PushStep(c: Config, b: Buffer, p: Packet, now: int): Buffer {
    var a := if b.started then b
             else b.(nextSeq := p.sn, started := true, firstPktTime := now, delayExpired := c.playoutDelay == 0);
    if p.sn < a.nextSeq then a else a.(packets := a.packets[p.sn := p.payload])
  }

  predicate Playing(c: Config, started: bool, firstPktTime: int, delayExpired: bool, now: int) {
    started && (delayExpired || now - firstPktTime >= c.playoutDelay)
  }

  function TickStep(c: Config, b: Buffer, now: int): Buffer {
    if !Playing(c, b.started, b.firstPktTime, b.delayExpired, now) then b
    else
      var frame := if b.nextSeq in b.packets then b.packets[b.nextSeq] else Silence(c);
      b.(packets := b.packets - {b.nextSeq}, nextSeq := (b.nextSeq + 1) % TWO16, delayExpired := true,
         written := b.written + frame)
  }

  /** Circular distance ahead of the playout head. */
  function Distance(from: u16, sn: u16): u16 {
    if sn >= from then sn - from else sn - from + TWO16
  }

  /** The payloads whose distance from `from` is below n, in order of distance. */
  function Ahead(packets: map<u16, Payload>, from: u16, n: nat): (r: Payload)
    ensures n == 0 ==> r == []
  {
    if n == 0 then []
    else
      var sn := (from + n - 1) % TWO16;
      Ahead(packets, from, n - 1) + if sn in packets then packets[sn] else []
  }

  class JitterBuffer {
    const c: Config
    const recorder: AudioRecorder
    var packets: map<u16, Payload>
    var nextSeq: u16
    var started: bool
    var firstPktTime: int
    var delayExpired: bool
    var stopped: bool
    var flushed: bool

    function View(): Buffer reads this, recorder {
      Buffer(packets, nextSeq, started, firstPktTime, delayExpired, recorder.buf)
    }

    constructor (recorder: AudioRecorder, c: Config)
      ensures View() == EMPTY.(written := recorder.buf) && !stopped && !flushed
      ensures this.c == c && this.recorder == recorder
    {
      this.c, this.recorder := c, recorder;
      packets, nextSeq, started, firstPktTime, delayExpired := map[], 0, false, 0, false;
      stopped, flushed := false, false;
    }

    /** After the flush the map is nil and storing into it panics. */
    method Push(p: Packet, now: int)
      requires !flushed
      modifies this
      ensures View() == PushStep(c, old(View()), p, now)
      ensures stopped == old(stopped) && flushed == old(flushed)
    {
      if !started {
        nextSeq := p.sn;
        started := true;
        firstPktTime := now;
        delayExpired := c.playoutDelay == 0;
      }
      if started {
        var delta := p.sn - nextSeq;
        if delta < -256 || (delta < 0 && delta > -32768) {
          return;
        }
      }
      packets := packets[p.sn := p.payload];
    }

    /** Close may be called any number of times. */
    method Close()
      modifies this`stopped
      ensures stopped
    {
      stopped := true;
    }

    /** One reactor cycle; the result tells the reactor whether to keep the buffer. */
    method Tick(now: int) returns (keep: bool)
      modifies this, recorder
      ensures keep == !old(stopped) && stopped == old(stopped)
      ensures keep ==> View() == TickStep(c, old(View()), now) && flushed == old(flushed)
      ensures !keep ==> flushed && packets == map[]
      ensures !keep ==> recorder.buf == old(recorder.buf) + Ahead(old(packets), old(nextSeq), TWO16)
    {
      if stopped {
        Flush();
        return false;
      }
      if !started {
        return true;
      }
      if !delayExpired {
        if now - firstPktTime < c.playoutDelay {
          return true;
        }
        delayExpired := true;
      }
      if nextSeq in packets {
        recorder.Write(packets[nextSeq]);
        packets := packets - {nextSeq};
      } else if c.silenceSize > 0 {
        var silenceFrame := Silence(c);
        recorder.Write(silenceFrame);
      }
      assert packets == old(packets) - {old(nextSeq)};
      nextSeq := (nextSeq + 1) % TWO16;
      return true;
    }

    method Flush()
      modifies this, recorder
      ensures flushed && packets == map[] && stopped == old(stopped)
      ensures recorder.buf == old(recorder.buf) + Ahead(old(packets), old(nextSeq), TWO16)
    {
      hide Ahead, Distance;
      var seqs := SortByDistance(packets.Keys, nextSeq);
      ghost var done := 0;
      for i := 0 to |seqs|
        invariant packets == old(packets) && nextSeq == old(nextSeq) && stopped == old(stopped)
        invariant done == (if i == 0 then 0 else Distance(nextSeq, seqs[i - 1]) + 1) <= TWO16
        invariant recorder.buf == old(recorder.buf) + Ahead(packets, nextSeq, done)
      {
        NextInOrder(packets, nextSeq, seqs, i);
        recorder.Write(packets[seqs[i]]);
        done := Distance(nextSeq, seqs[i]) + 1;
      }
      NothingLeft(packets, nextSeq, seqs);
      packets := map[];
      flushed := true;
    }
  }

  // ---- flushing in circular order ----

  /** A list of exactly the given keys, strictly increasing in distance. */
  ghost predicate InOrder(seqs: seq<u16>, keys: set<u16>, from: u16) {
    && (forall k :: k in keys <==> k in seqs)
    && forall i, j :: 0 <= i < j < |seqs| ==> Distance(from, seqs[i]) < Distance(from, seqs[j])
  }

  lemma NearestExists(keys: set<u16>, from: u16)
    requires keys != {}
    ensures exists k :: k in keys && forall j :: j in keys ==> Distance(from, k) <= Distance(from, j)
  {
    var k :| k in keys;
    if j :| j in keys && Distance(from, j) < Distance(from, k) {
      assert j in keys - {k};
      NearestExists(keys - {k}, from);
      var m :| m in keys - {k} && forall j :: j in keys - {k} ==> Distance(from, m) <= Distance(from, j);
      assert forall j :: j in keys ==> Distance(from, m) <= Distance(from, j);
    }
  }

  /** sort.Slice on the map's keys. */
  method SortByDistance(keys: set<u16>, from: u16) returns (seqs: seq<u16>)
    ensures InOrder(seqs, keys, from)
  {
    seqs := [];
    var rest := keys;
    while rest != {}
      invariant InOrder(seqs, keys - rest, from) && rest <= keys
      invariant forall i, k :: 0 <= i < |seqs| && k in rest ==> Distance(from, seqs[i]) < Distance(from, k)
      decreases rest
    {
      NearestExists(rest, from);
      var k :| k in rest && forall j :: j in rest ==> Distance(from, k) <= Distance(from, j);
      assert forall j :: j in rest - {k} ==> Distance(from, k) < Distance(from, j);
      seqs, rest := seqs + [k], rest - {k};
    }
  }

  lemma PlaceAt(from: u16, d: nat)
    requires d < TWO16
    ensures Distance(from, (from + d) % TWO16) == d
  {}

  lemma {:induction false} NothingBetween(packets: map<u16, Payload>, from: u16, a: nat, b: nat)
    requires a <= b <= TWO16
    requires forall sn :: sn in packets ==> Distance(from, sn) < a || b <= Distance(from, sn)
    ensures Ahead(packets, from, a) == Ahead(packets, from, b)
  {
    hide Distance;
    if a < b {
      NothingBetween(packets, from, a, b - 1);
      PlaceAt(from, b - 1);
    }
  }

  lemma NextInOrder(packets: map<u16, Payload>, from: u16, seqs: seq<u16>, i: nat)
    requires InOrder(seqs, packets.Keys, from) && i < |seqs|
    ensures seqs[i] in packets
    ensures var done := if i == 0 then 0 else Distance(from, seqs[i - 1]) + 1;
      Ahead(packets, from, Distance(from, seqs[i]) + 1) == Ahead(packets, from, done) + packets[seqs[i]]
  {
    var done := if i == 0 then 0 else Distance(from, seqs[i - 1]) + 1;
    var d := Distance(from, seqs[i]);
    assert (from + d) % TWO16 == seqs[i];
    hide Distance;
    forall sn | sn in packets ensures Distance(from, sn) < done || d <= Distance(from, sn) {
      var j :| 0 <= j < |seqs| && seqs[j] == sn;
    }
    NothingBetween(packets, from, done, d);
  }

  lemma NothingLeft(packets: map<u16, Payload>, from: u16, seqs: seq<u16>)
    requires InOrder(seqs, packets.Keys, from)
    ensures var done := if seqs == [] then 0 else Distance(from, seqs[|seqs| - 1]) + 1;
      Ahead(packets, from, done) == Ahead(packets, from, TWO16)
  {
    var done := if seqs == [] then 0 else Distance(from, seqs[|seqs| - 1]) + 1;
    forall sn | sn in packets ensures Distance(from, sn) < done {
      var j :| 0 <= j < |seqs| && seqs[j] == sn;
    }
    NothingBetween(packets, from, done, TWO16);
  }
}
