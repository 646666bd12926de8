/** SRTP sessions: protect and unprotect of single packets, and whole sender/receiver runs (core/rtp/srtp.go). */
module Srtp {
  import opened Words
  import opened Bytes
  import opened CounterMode
  import opened PacketIndex
  import opened Wrappers

  const HEADER := 12
  const TAG := 10

  datatype Config = Config(masterKey: seq<u8>, masterSalt: seq<u8>)

  predicate ValidConfig(cfg: Config) { |cfg.masterKey| == 16 && |cfg.masterSalt| == 14 }

  /** Everything about a session that never changes. */
  datatype Keys = Keys(crypto: Crypto, salt: Salt, ssrc: u32, enc: seq<u8>, auth: seq<u8>)

  /** The keys that every session of one configuration and SSRC derives. */
  function KeysOf(c: Crypto, cfg: Config, ssrc: u32): Keys
    requires ValidConfig(cfg)
  {
    Keys(c, cfg.masterSalt, ssrc,
         Kdf(c, cfg.masterKey, cfg.masterSalt, 0x00, 16),
         Kdf(c, cfg.masterKey, cfg.masterSalt, 0x01, 20))
  }

  /** The sequence number in octets 2 and 3 of an RTP header. */
  function SeqOf(raw: seq<u8>): u16 {
    if |raw| < 4 then 0 else SeqField(raw[2], raw[3])
  }

  function SeqField(hi: u8, lo: u8): u16 { hi * 256 + lo }

  function PayloadStream(k: Keys, index: nat, len: nat): (ks: seq<u8>)
    ensures |ks| == len
  {
    KeyStream(k.crypto, k.enc, IV(k.salt, k.ssrc, index), len)
  }

  function Protect(k: Keys, raw: seq<u8>, index: nat): (out: seq<u8>)
    requires |raw| >= HEADER
    ensures |out| == |raw| + TAG
  {
    var enc := raw[..HEADER] + Xor(raw[HEADER..], PayloadStream(k, index, |raw| - HEADER));
    enc + k.crypto.hmac(k.auth, enc)[..TAG]
  }

  function Unprotect(k: Keys, srtp: seq<u8>, index: nat): Result<seq<u8>>
    requires |srtp| >= HEADER + TAG
  {
    var body := srtp[..|srtp| - TAG];
    if k.crypto.hmac(k.auth, body)[..TAG] != srtp[|srtp| - TAG..] then Err("srtp: auth tag mismatch")
    else Ok(body[..HEADER] + Xor(body[HEADER..], PayloadStream(k, index, |body| - HEADER)))
  }

  /** The two ends may differ in anything but the cipher and the authentication key. */
  ghost predicate SameAuth(k: Keys, l: Keys) { k.crypto == l.crypto && k.auth == l.auth }

  /** The tag covers neither index nor SSRC, so an authentic packet is always accepted, whatever index is guessed. */
  lemma UnprotectProtected(k: Keys, l: Keys, raw: seq<u8>, m: nat, n: nat)
    requires |raw| >= HEADER && SameAuth(k, l)
    ensures var len := |raw| - HEADER;
      Unprotect(l, Protect(k, raw, m), n)
      == Ok(raw[..HEADER] + Xor(Xor(raw[HEADER..], PayloadStream(k, m, len)), PayloadStream(l, n, len)))
    ensures SeqOf(Protect(k, raw, m)) == SeqOf(raw)
  {
    hide Xor, PayloadStream;
    var body := raw[..HEADER] + Xor(raw[HEADER..], PayloadStream(k, m, |raw| - HEADER));
    var out := Protect(k, raw, m);
    assert out[..|out| - TAG] == body && out[|out| - TAG..] == k.crypto.hmac(k.auth, body)[..TAG];
    assert body[..HEADER] == raw[..HEADER]
        && body[HEADER..] == Xor(raw[HEADER..], PayloadStream(k, m, |raw| - HEADER));
    assert out[2] == raw[2] && out[3] == raw[3];
  }

  /** The packet comes back intact exactly when both ends use the same key stream over the payload. */
  lemma IntactIffSameStream(k: Keys, l: Keys, raw: seq<u8>, m: nat, n: nat)
    requires |raw| >= HEADER && SameAuth(k, l)
    ensures Unprotect(l, Protect(k, raw, m), n).Ok?
    ensures Unprotect(l, Protect(k, raw, m), n) == Ok(raw)
       <==> PayloadStream(k, m, |raw| - HEADER) == PayloadStream(l, n, |raw| - HEADER)
  {
    hide Xor8, PayloadStream;
    var len := |raw| - HEADER;
    var (p, a, b) := (raw[HEADER..], PayloadStream(k, m, len), PayloadStream(l, n, len));
    UnprotectProtected(k, l, raw, m, n);
    XorCancels(p, b);
    assert raw == raw[..HEADER] + p;
    if raw[..HEADER] + Xor(Xor(p, a), b) == raw {
      assert Xor(Xor(p, a), b) == p;
      XorCancels(Xor(p, a), b);
      XorInjective(p, a, b);
    }
  }

  /**
   * Two sessions of one configuration, each with an SSRC of its own, and any block cipher: every authentic packet is
   * accepted, and one with at least 16 octets of payload is intact if and only if SSRC and index are those it was
   * protected with. The dialer sets up its receiving session with its own SSRC, not the sender's.
   */
  lemma IntactIffSameSsrcAndIndex(c: Crypto, cfg: Config, s: u32, t: u32, raw: seq<u8>, m: nat, n: nat)
    requires ValidConfig(cfg) && Enciphers(c, KeysOf(c, cfg, s).enc)
    requires |raw| >= HEADER + 16 && m < TWO48 && n < TWO48
    ensures var r := Unprotect(KeysOf(c, cfg, t), Protect(KeysOf(c, cfg, s), raw, m), n);
      r.Ok? && (r == Ok(raw) <==> s == t && m == n)
  {
    hide Kdf, KeyStream, Enciphers, Protect, Unprotect;
    var (k, l) := (KeysOf(c, cfg, s), KeysOf(c, cfg, t));
    IntactIffSameStream(k, l, raw, m, n);
    StreamsDistinct(c, k.enc, k.salt, s, t, m, n, |raw| - HEADER);
  }

  lemma AcceptedIsProtected(k: Keys, srtp: seq<u8>, n: nat)
    requires |srtp| >= HEADER + TAG && Unprotect(k, srtp, n).Ok?
    ensures var r := Unprotect(k, srtp, n).value; |r| >= HEADER && Protect(k, r, n) == srtp
  {
    hide Xor, PayloadStream;
    var (r, body) := (Unprotect(k, srtp, n).value, srtp[..|srtp| - TAG]);
    XorCancels(body[HEADER..], PayloadStream(k, n, |body| - HEADER));
    assert r[..HEADER] == body[..HEADER] && r[HEADER..] == Xor(body[HEADER..], PayloadStream(k, n, |body| - HEADER));
    assert body == body[..HEADER] + body[HEADER..];
    assert srtp == body + srtp[|srtp| - TAG..];
  }

  /** The receiver accepts, and returns r, exactly what the sender makes of r: nothing else passes. */
  lemma AcceptsExactlyProtected(k: Keys, srtp: seq<u8>, r: seq<u8>, n: nat)
    requires |srtp| >= HEADER + TAG && |r| >= HEADER
    ensures Unprotect(k, srtp, n) == Ok(r) <==> Protect(k, r, n) == srtp
  {
    hide Xor, PayloadStream;
    if Protect(k, r, n) == srtp {
      hide Protect, Unprotect;
      IntactIffSameStream(k, k, r, n, n);
    }
    if Unprotect(k, srtp, n) == Ok(r) {
      AcceptedIsProtected(k, srtp, n);
    }
  }

  /** A packet that differs from an accepted one in its last ten octets alone is refused. */
  lemma OtherTagRefused(k: Keys, srtp: seq<u8>, other: seq<u8>, n: nat)
    requires |srtp| == |other| >= 22 && srtp[..|srtp| - 10] == other[..|srtp| - 10] && srtp != other
    requires Unprotect(k, srtp, n).Ok?
    ensures Unprotect(k, other, n) == Err("srtp: auth tag mismatch")
  {
    assert srtp == srtp[..|srtp| - 10] + srtp[|srtp| - 10..];
    assert other == other[..|srtp| - 10] + other[|srtp| - 10..];
  }

  /** What an SRTP packet adds to the one it protects, and where it leaves it readable. */
  lemma ProtectedLayout(k: Keys, raw: seq<u8>, n: nat)
    requires |raw| >= 12
    ensures |Protect(k, raw, n)| == |raw| + 10 && Protect(k, raw, n)[..12] == raw[..12]
  {}

  /** Section 4.3.2 of RFC 3711: label 0 gives the cipher key, label 1 the authentication key of 160 bits. */
  lemma SessionKeys(c: Crypto, cfg: Config, ssrc: u32)
    requires ValidConfig(cfg)
    ensures var (k, mk, salt) := (KeysOf(c, cfg, ssrc), cfg.masterKey, cfg.masterSalt);
      && k.salt == salt && k.ssrc == ssrc && k.enc == c.aes(mk, KdfInput(salt, 0, 0))
      && k.auth == c.aes(mk, KdfInput(salt, 1, 0)) + c.aes(mk, KdfInput(salt, 1, 1))[..4]
  {
    hide Kdf, KdfInput;
    KdfSegment(c, cfg.masterKey, cfg.masterSalt, 0, 16, 0);
    KdfSegment(c, cfg.masterKey, cfg.masterSalt, 1, 20, 0);
    KdfSegment(c, cfg.masterKey, cfg.masterSalt, 1, 20, 1);
    var auth := KeysOf(c, cfg, ssrc).auth;
    assert auth == auth[..16] + auth[16..20];
  }

  /** The authentication key does not begin with the cipher key. */
  lemma KeysDiffer(c: Crypto, cfg: Config, ssrc: u32)
    requires ValidConfig(cfg) && Enciphers(c, cfg.masterKey)
    ensures KeysOf(c, cfg, ssrc).enc != KeysOf(c, cfg, ssrc).auth[..16]
  {
    hide Kdf, KdfInput;
    SessionKeys(c, cfg, ssrc);
    if KdfInput(cfg.masterSalt, 0, 0) == KdfInput(cfg.masterSalt, 1, 0) {
      KdfInputsDistinct(cfg.masterSalt, 0, 1, 0, 0);
    }
  }

  // ---- the session object ----

  class SrtpSession {
    const keys: Keys
    var index: u64
    var lastSeq: u16

    function View(): Tracker reads this { Tracker(index, lastSeq) }

    constructor (keys: Keys)
      ensures this.keys == keys && View() == FRESH
    {
      this.keys := keys;
      index, lastSeq := 0, 0;
    }

    /** NewSRTPSenderSession and NewSRTPReceiverSession differ only in a flag that nothing reads. */
    static method NewSession(c: Crypto, cfg: Config, ssrc: u32) returns (r: Result<SrtpSession>)
      ensures r.Ok? <==> |cfg.masterKey| == 16 && |cfg.masterSalt| == 14
      ensures r.Ok? ==> fresh(r.value) && r.value.keys == KeysOf(c, cfg, ssrc) && r.value.View() == FRESH
    {
      if |cfg.masterKey| != 16 {
        return Err("srtp: master key must be 16 bytes");
      }
      if |cfg.masterSalt| != 14 {
        return Err("srtp: master salt must be 14 bytes");
      }
      var encKey := DeriveKey(c, cfg.masterKey, cfg.masterSalt, 0x00, 16);
      var authKey := DeriveKey(c, cfg.masterKey, cfg.masterSalt, 0x01, 20);
      var s := new SrtpSession(Keys(c, cfg.masterSalt, ssrc, encKey, authKey));
      r := Ok(s);
    }

    method EstimateIndex(sn: u16) returns (v: u64)
      modifies this
      ensures View() == Track(old(View()), sn) && v == index
    {
      var roc := index / TWO16;
      v := roc * TWO16 + sn;
      var diff := sn - lastSeq;
      if diff < -TWO15 {
        v := (roc + 1) * TWO16 % TWO64 + sn;
      }
      lastSeq := sn;
      index := v;
    }

    /** XORKeyStream over one buffer, in place from octet `from` on. */
    method XorKeyStream(buf: array<u8>, from: nat, iv: Block)
      requires from <= buf.Length
      modifies buf
      ensures buf[..from] == old(buf[..from])
      ensures buf[from..] == Xor(old(buf[from..]), KeyStream(keys.crypto, keys.enc, iv, buf.Length - from))
    {
      hide Xor8, StreamByte;
      ghost var was := buf[from..];
      ghost var ks := KeyStream(keys.crypto, keys.enc, iv, buf.Length - from);
      var p := 0;
      while p < buf.Length - from
        invariant 0 <= p <= buf.Length - from
        invariant buf[..from] == old(buf[..from])
        invariant forall q :: 0 <= q < p ==> buf[from + q] == Xor8(was[q], ks[q])
        invariant forall q :: p <= q < |was| ==> buf[from + q] == was[q]
      {
        buf[from + p] := Xor8(buf[from + p], StreamByte(keys.crypto, keys.enc, iv, p));
        p := p + 1;
      }
      assert buf[from..] == Xor(was, ks);
    }

    method EncryptPacket(raw: seq<u8>) returns (out: seq<u8>)
      requires |raw| >= HEADER
      modifies this
      ensures View() == Track(old(View()), SeqOf(raw))
      ensures out == Protect(keys, raw, index)
    {
      var i := EstimateIndex(SeqOf(raw));
      var enc := new u8[|raw|](k requires 0 <= k < |raw| => raw[k]);
      assert enc[..] == raw;
      assert enc[..HEADER] == raw[..HEADER] && enc[HEADER..] == raw[HEADER..];
      hide SeqOf, IV, Xor;
      var iv := DeriveIV(keys.salt, keys.ssrc, i);
      XorKeyStream(enc, HEADER, iv);
      assert enc[..] == enc[..HEADER] + enc[HEADER..];
      out := enc[..] + keys.crypto.hmac(keys.auth, enc[..])[..TAG];
    }

    /** A packet with a bad tag is refused, but it has already moved the index. */
    method DecryptPacket(srtp: seq<u8>) returns (r: Result<seq<u8>>)
      modifies this
      ensures (View(), r) == ReceiveStep(keys, old(View()), srtp)
    {
      if |srtp| < HEADER + TAG {
        return Err("srtp: packet too short");
      }
      var authData := srtp[..|srtp| - TAG];
      var i := EstimateIndex(SeqOf(srtp));
      if keys.crypto.hmac(keys.auth, authData)[..TAG] != srtp[|srtp| - TAG..] {
        return Err("srtp: auth tag mismatch");
      }
      var payload := new u8[|authData| - HEADER](k requires 0 <= k < |authData| - HEADER => authData[HEADER + k]);
      assert payload[..] == authData[HEADER..];
      var iv := DeriveIV(keys.salt, keys.ssrc, i);
      XorKeyStream(payload, 0, iv);
      assert payload[0..] == payload[..];
      assert authData[..HEADER] == srtp[..HEADER];
      r := Ok(srtp[..HEADER] + payload[..]);
    }
  }

  function ReceiveStep(k: Keys, t: Tracker, srtp: seq<u8>): (Tracker, Result<seq<u8>>) {
    if |srtp| < HEADER + TAG then (t, Err("srtp: packet too short"))
    else
      var u := Track(t, SeqOf(srtp));
      (u, Unprotect(k, srtp, u.index))
  }

  /** A packet that is long enough moves the index, accepted or not; a shorter one never does. */
  lemma RefusedPacketsMove(k: Keys, t: Tracker, srtp: seq<u8>)
    ensures ReceiveStep(k, t, srtp).0 == if |srtp| < 22 then t else Track(t, SeqOf(srtp))
    ensures |srtp| < 22 ==> ReceiveStep(k, t, srtp).1 == Err("srtp: packet too short")
  {}

  /**
   * So a refused packet can cost the next authentic one: at index 40000 one with number 0 moves the index to 65536, and
   * packet 40001 is then taken for packet 105537.
   */
  lemma RefusedPacketDerails(k: Keys, srtp: seq<u8>, raw: seq<u8>)
    requires |srtp| >= 22 && SeqOf(srtp) == 0 && |raw| >= HEADER && SeqOf(raw) == 40001
    ensures var t := ReceiveStep(k, Tracker(40000, 40000), srtp).0;
      t.index == 65536 && ReceiveStep(k, t, Protect(k, raw, 40001)).0.index == 105537
  {
    hide Unprotect, Protect, SeqOf;
    UnprotectProtected(k, k, raw, 40001, 0);
  }

  // ---- whole runs ----

  type Packets = ps: seq<seq<u8>> | forall i :: 0 <= i < |ps| ==> |ps[i]| >= HEADER

  function SeqsOf(ps: seq<seq<u8>>): (r: seq<u16>)
    ensures |r| == |ps| && forall i :: 0 <= i < |ps| ==> r[i] == SeqOf(ps[i])
  {
    seq(|ps|, i requires 0 <= i < |ps| => SeqOf(ps[i]))
  }

  /** What a fresh sender session puts on the wire. */
  function Sent(k: Keys, raws: Packets): (out: seq<seq<u8>>)
    ensures |out| == |raws|
  {
    if raws == [] then []
    else
      var n := |raws| - 1;
      Sent(k, raws[..n]) + [Protect(k, raws[n], TrackAll(FRESH, SeqsOf(raws)).index)]
  }

  /** What a fresh receiver session makes of a list of datagrams. */
  function Received(k: Keys, got: seq<seq<u8>>): (r: (Tracker, seq<Result<seq<u8>>>))
    ensures |r.1| == |got|
  {
    if got == [] then (FRESH, [])
    else
      var n := |got| - 1;
      var (t, rs) := Received(k, got[..n]);
      var (u, x) := ReceiveStep(k, t, got[n]);
      (u, rs + [x])
  }

  /** The packets carry the low 16 bits of their true numbers. */
  ghost predicate Numbered(raws: seq<seq<u8>>, ns: seq<nat>) {
    |raws| == |ns| && forall i :: 0 <= i < |raws| ==> SeqOf(raws[i]) == Low16(ns[i])
  }

  lemma SentLast(k: Keys, raws: Packets)
    requires raws != []
    ensures var n := |raws| - 1;
      && Sent(k, raws)[n] == Protect(k, raws[n], TrackAll(FRESH, SeqsOf(raws)).index)
      && forall i :: 0 <= i < n ==> Sent(k, raws)[i] == Sent(k, raws[..n])[i]
  {
    hide Protect, TrackAll;
  }

  lemma {:induction false} SentAt(k: Keys, raws: Packets, ns: seq<nat>, i: nat)
    requires i < |raws| && Numbered(raws, ns) && TrackableRun(ns)
    ensures Sent(k, raws)[i] == Protect(k, raws[i], ns[i])
  {
    hide Protect, TrackAll, Track, TrackableStep, SeqOf, Low16;
    var n := |raws| - 1;
    SentLast(k, raws);
    if i == n {
      assert SeqsOf(raws) == Low16s(ns);
      RunTracksTruth(ns);
    } else {
      RunPrefix(ns, n);
      SentAt(k, raws[..n], ns[..n], i);
    }
  }

  /** The picks are positions in a list of n. */
  predicate Selects(picks: seq<nat>, n: nat) { forall j :: 0 <= j < |picks| ==> picks[j] < n }

  function Pick<T>(s: seq<T>, picks: seq<nat>): (r: seq<T>)
    requires Selects(picks, |s|)
    ensures |r| == |picks| && forall j :: 0 <= j < |picks| ==> r[j] == s[picks[j]]
  {
    seq(|picks|, j requires 0 <= j < |picks| => s[picks[j]])
  }

  lemma PickFront<T>(s: seq<T>, picks: seq<nat>)
    requires picks != [] && Selects(picks, |s|)
    ensures var n := |picks| - 1;
      && Selects(picks[..n], |s|) && Pick(s, picks)[..n] == Pick(s, picks[..n])
      && picks[n] < |s| && Pick(s, picks)[n] == s[picks[n]]
  {}

  /** The receiver after the picked packets of a sender run. */
  function Receiver(k: Keys, raws: Packets, picks: seq<nat>): Tracker
    requires Selects(picks, |raws|)
  {
    Received(k, Pick(Sent(k, raws), picks)).0
  }

  /** Every picked packet was decrypted to the original octets. */
  ghost predicate AllIntact(k: Keys, raws: Packets, picks: seq<nat>)
    requires Selects(picks, |raws|)
  {
    var rs := Received(k, Pick(Sent(k, raws), picks)).1;
    forall j :: 0 <= j < |picks| ==> rs[j] == Ok(raws[picks[j]])
  }

  lemma NothingReceived(k: Keys, raws: Packets)
    ensures Receiver(k, raws, []) == FRESH && AllIntact(k, raws, [])
  {}

  lemma LastDelivery(k: Keys, raws: Packets, picks: seq<nat>)
    requires picks != [] && Selects(picks, |raws|)
    ensures var (front, p) := (picks[..|picks| - 1], picks[|picks| - 1]);
      && Selects(front, |raws|) && p < |raws|
      && var (u, x) := ReceiveStep(k, Receiver(k, raws, front), Sent(k, raws)[p]);
      && Receiver(k, raws, picks) == u
      && (AllIntact(k, raws, picks) <==> AllIntact(k, raws, front) && x == Ok(raws[p]))
  {
    hide ReceiveStep, Sent;
    var (n, sent) := (|picks| - 1, Sent(k, raws));
    PickFront(sent, picks);
    hide Received;
    ReceivedLast(k, Pick(sent, picks));
    var (rs, qs) := (Received(k, Pick(sent, picks[..n])).1, Received(k, Pick(sent, picks)).1);
    assert forall j :: 0 <= j < n ==> rs[j] == qs[j];
    if AllIntact(k, raws, picks) {
      forall j | 0 <= j < n ensures rs[j] == Ok(raws[picks[..n][j]]) {
        assert qs[j] == Ok(raws[picks[j]]);
      }
    }
  }

  /** The number of the last packet picked; a fresh session starts at 0. */
  ghost function LastNumber(ns: seq<nat>, picks: seq<nat>): nat
    requires Selects(picks, |ns|)
  {
    if picks == [] then 0 else ns[picks[|picks| - 1]]
  }

  lemma TrackableLast(ns: seq<nat>, picks: seq<nat>)
    requires picks != [] && Selects(picks, |ns|)
    ensures var (front, p) := (picks[..|picks| - 1], picks[|picks| - 1]);
      && Selects(front, |ns|) && p < |ns|
      && (TrackableRun(Pick(ns, front)) ==> InRange(LastNumber(ns, front)))
      && (TrackableRun(Pick(ns, picks)) <==>
          TrackableRun(Pick(ns, front)) && InRange(ns[p]) && Trackable(LastNumber(ns, front), ns[p]))
  {
    hide Trackable, InRange;
    PickFront(ns, picks);
    RunLast(Pick(ns, picks));
    FreshInRange();
  }

  lemma FreshInRange()
    ensures InRange(0)
  {}

  /**
   * A receiver fed any selection of the sent packets (losses, duplicates and reordering included) decrypts
   * every one of them to the original octets, as long as each delivery is recognised.
   */
  lemma {:induction false} RunRoundTrip(k: Keys, raws: Packets, ns: seq<nat>, picks: seq<nat>)
    requires Numbered(raws, ns) && TrackableRun(ns) && Selects(picks, |raws|) && TrackableRun(Pick(ns, picks))
    ensures Synced(Receiver(k, raws, picks)) && Receiver(k, raws, picks).index == LastNumber(ns, picks)
    ensures AllIntact(k, raws, picks)
  {
    NumberedLength(raws, ns);
    if picks == [] {
      hide Sent;
      NothingReceived(k, raws);
      TrackKeepsSync(FRESH, 0);
    } else {
      hide Sent, Received, Receiver, AllIntact, TrackableRun, Numbered, Trackable, InRange, Synced, ReceiveStep, SeqOf;
      hide Protect;
      var (front, p) := (picks[..|picks| - 1], picks[|picks| - 1]);
      LastDelivery(k, raws, picks);
      TrackableLast(ns, picks);
      RunRoundTrip(k, raws, ns, front);
      SentAt(k, raws, ns, p);
      NumberedAt(raws, ns, p);
      RecognisedDelivery(k, Receiver(k, raws, front), raws[p], LastNumber(ns, front), ns[p]);
    }
  }

  lemma NumberedLength(raws: seq<seq<u8>>, ns: seq<nat>)
    requires Numbered(raws, ns)
    ensures |raws| == |ns|
  {}

  lemma NumberedAt(raws: seq<seq<u8>>, ns: seq<nat>, i: nat)
    requires Numbered(raws, ns) && i < |raws|
    ensures i < |ns| && SeqOf(raws[i]) == Low16(ns[i])
  {}

  lemma ReceivedLast(k: Keys, got: seq<seq<u8>>)
    requires got != []
    ensures var (n, (t, rs), (u, qs)) := (|got| - 1, Received(k, got[..|got| - 1]), Received(k, got));
      var (v, x) := ReceiveStep(k, t, got[n]);
      u == v && qs == rs + [x]
  {
    hide ReceiveStep;
  }

  /** A recognised delivery comes back intact and leaves the true number as the index. */
  lemma RecognisedDelivery(k: Keys, t: Tracker, raw: seq<u8>, i: nat, n: nat)
    requires |raw| >= HEADER && SeqOf(raw) == Low16(n) && Synced(t) && t.index == i
    requires InRange(i) && InRange(n) && Trackable(i, n)
    ensures var (u, r) := ReceiveStep(k, t, Protect(k, raw, n)); Synced(u) && u.index == n && r == Ok(raw)
  {
    hide ReceiveStep, Protect, SeqOf, Synced, PayloadStream, Trackable;
    OneDelivery(k, t, raw, n);
  }

  /** One delivery: the packet comes back intact when it is recognised, and otherwise exactly when the streams agree. */
  lemma OneDelivery(k: Keys, t: Tracker, raw: seq<u8>, n: nat)
    requires |raw| >= HEADER && SeqOf(raw) == Low16(n)
    requires Synced(t) && InRange(t.index) && InRange(n)
    ensures var (u, r) := ReceiveStep(k, t, Protect(k, raw, n));
      && Synced(u) && r.Ok? && (u.index == n <==> Trackable(t.index, n))
      && (r == Ok(raw) <==> PayloadStream(k, n, |raw| - HEADER) == PayloadStream(k, u.index, |raw| - HEADER))
  {
    hide Unprotect, Protect, PayloadStream, Track, Trackable, SeqOf, Synced;
    UnprotectProtected(k, k, raw, n, 0);
    TrackExact(t, n);
    TrackKeepsSync(t, SeqOf(raw));
    IntactIffSameStream(k, k, raw, n, Track(t, SeqOf(raw)).index);
  }

  /** With a block cipher and at least 16 octets of payload, a delivery is intact if and only if it is recognised. */
  lemma IntactIffTrackable(k: Keys, t: Tracker, raw: seq<u8>, n: nat)
    requires |raw| >= HEADER + 16 && SeqOf(raw) == Low16(n) && Enciphers(k.crypto, k.enc)
    requires Synced(t) && FitsIV(t.index) && n < TWO48
    ensures var r := ReceiveStep(k, t, Protect(k, raw, n)).1; r.Ok? && (r == Ok(raw) <==> Trackable(t.index, n))
  {
    hide Protect, Unprotect, KeyStream, Trackable, Enciphers, SeqOf, ReceiveStep, Track, Synced;
    var u := ReceiveStep(k, t, Protect(k, raw, n)).0;
    OneDelivery(k, t, raw, n);
    ReceiveIndex(k, t, raw, n);
    StreamsDistinct(k.crypto, k.enc, k.salt, k.ssrc, k.ssrc, n, u.index, |raw| - HEADER);
  }

  lemma ReceiveIndex(k: Keys, t: Tracker, raw: seq<u8>, n: nat)
    requires |raw| >= HEADER && FitsIV(t.index)
    ensures ReceiveStep(k, t, Protect(k, raw, n)).0.index < TWO48
  {
    hide Protect, Unprotect, SeqOf;
  }

  /** Payloads of at least one cipher block, numbered well within 48 bits. */
  ghost predicate Ample(raws: seq<seq<u8>>, ns: seq<nat>) {
    && (forall i :: 0 <= i < |raws| ==> |raws[i]| >= HEADER + 16)
    && forall i :: 0 <= i < |ns| ==> FitsIV(ns[i])
  }

  /**
   * With a block cipher and payloads of at least 16 octets, every delivery of a run comes back intact if and only if
   * every delivery is recognised.
   */
  lemma {:induction false} RunIntactIff(k: Keys, raws: Packets, ns: seq<nat>, picks: seq<nat>)
    requires Numbered(raws, ns) && TrackableRun(ns) && Ample(raws, ns) && Enciphers(k.crypto, k.enc)
    requires Selects(picks, |raws|)
    ensures AllIntact(k, raws, picks) <==> TrackableRun(Pick(ns, picks))
  {
    NumberedLength(raws, ns);
    if picks == [] {
      NothingReceived(k, raws);
      assert Pick(ns, []) == [];
    } else {
      hide Sent, Received, Receiver, AllIntact, TrackableRun, Numbered, Trackable, InRange, Synced, ReceiveStep, SeqOf;
      hide Protect, Enciphers, Ample;
      var (front, p) := (picks[..|picks| - 1], picks[|picks| - 1]);
      LastDelivery(k, raws, picks);
      TrackableLast(ns, picks);
      RunIntactIff(k, raws, ns, front);
      if AllIntact(k, raws, front) {
        RunRoundTrip(k, raws, ns, front);
        SentAt(k, raws, ns, p);
        NumberedAt(raws, ns, p);
        AmpleAt(raws, ns, front, p);
        IntactIffTrackable(k, Receiver(k, raws, front), raws[p], ns[p]);
      }
    }
  }

  lemma AmpleAt(raws: seq<seq<u8>>, ns: seq<nat>, front: seq<nat>, p: nat)
    requires Ample(raws, ns) && |raws| == |ns| && p < |raws| && Selects(front, |ns|)
    ensures |raws[p]| >= HEADER + 16 && ns[p] < TWO48 && InRange(ns[p])
    ensures FitsIV(LastNumber(ns, front))
  {}

  /** The usual case: an in-order subset whose own gaps stay below 2^15, over any number of wraps. */
  lemma InOrderRoundTrip(k: Keys, raws: Packets, ns: seq<nat>, picks: seq<nat>)
    requires Numbered(raws, ns) && SmallGaps(ns) && Selects(picks, |raws|) && SmallGaps(Pick(ns, picks))
    ensures AllIntact(k, raws, picks)
  {
    SmallGapsTrackable(ns);
    SmallGapsTrackable(Pick(ns, picks));
    RunRoundTrip(k, raws, ns, picks);
  }

  /** The AES input of block b of the i-th packet a fresh sender encrypts. */
  function AesInput(k: Keys, sns: seq<u16>, i: nat, b: u16): Block
    requires i < |sns|
  {
    CounterBlock(IV(k.salt, k.ssrc, TrackAll(FRESH, sns[..i + 1]).index), b)
  }

  lemma {:induction false} SentIs(k: Keys, raws: Packets, i: nat)
    requires i < |raws|
    ensures Sent(k, raws)[i] == Protect(k, raws[i], TrackAll(FRESH, SeqsOf(raws)[..i + 1]).index)
  {
    hide Protect, TrackAll, SeqOf;
    var n := |raws| - 1;
    SentLast(k, raws);
    if i == n {
      assert SeqsOf(raws)[..i + 1] == SeqsOf(raws);
    } else {
      SentIs(k, raws[..n], i);
      assert SeqsOf(raws[..n])[..i + 1] == SeqsOf(raws)[..i + 1];
    }
  }

  /** What was XORed onto block b of the payload of the i-th packet on its way to the wire. */
  function KeyBlock(k: Keys, raws: Packets, i: nat, b: nat): (r: seq<u8>)
    requires i < |raws| && HEADER + 16 * b < |raws[i]|
  {
    var (from, n) := (HEADER + 16 * b, Min(16, |raws[i]| - HEADER - 16 * b));
    SentIs(k, raws, i);
    Xor(Sent(k, raws)[i][from..from + n], raws[i][from..from + n])
  }

  lemma SliceOfTail(a: seq<u8>, skip: nat, from: nat, n: nat)
    requires skip + from + n <= |a|
    ensures a[skip..][from..from + n] == a[skip + from..skip + from + n]
  {}

  lemma XorSlice(a: seq<u8>, b: seq<u8>, from: nat, n: nat)
    requires |a| == |b| && from + n <= |a|
    ensures Xor(a, b)[from..from + n] == Xor(a[from..from + n], b[from..from + n])
  {
    hide Xor8;
  }

  lemma ProtectedPayload(k: Keys, raw: seq<u8>, index: nat)
    requires |raw| >= HEADER
    ensures Protect(k, raw, index)[HEADER..|raw|] == Xor(raw[HEADER..], PayloadStream(k, index, |raw| - HEADER))
  {
    hide Xor, PayloadStream;
  }

  /** What was XORed onto one stretch of a protected payload is that stretch of the key stream. */
  lemma RecoveredStream(k: Keys, raw: seq<u8>, index: nat, at: nat, n: nat)
    requires HEADER + at + n <= |raw|
    ensures Xor(Protect(k, raw, index)[HEADER + at..HEADER + at + n], raw[HEADER + at..HEADER + at + n])
         == PayloadStream(k, index, |raw| - HEADER)[at..at + n]
  {
    hide Protect, Xor, PayloadStream;
    var (p, ks, out) := (raw[HEADER..], PayloadStream(k, index, |raw| - HEADER), Protect(k, raw, index));
    ProtectedPayload(k, raw, index);
    SliceOfTail(raw, HEADER, at, n);
    SliceOfTail(out[..|raw|], HEADER, at, n);
    assert out[..|raw|][HEADER..] == out[HEADER..|raw|];
    assert out[..|raw|][HEADER + at..HEADER + at + n] == out[HEADER + at..HEADER + at + n];
    XorSlice(p, ks, at, n);
    XorRecovers(p[at..at + n], ks[at..at + n]);
  }

  /** That is AES of the block's own counter value, in every block of every packet. */
  lemma KeyBlockIs(k: Keys, raws: Packets, i: nat, b: u16)
    requires i < |raws| && HEADER + 16 * b < |raws[i]|
    ensures KeyBlock(k, raws, i, b)
         == k.crypto.aes(k.enc, AesInput(k, SeqsOf(raws), i, b))[..Min(16, |raws[i]| - HEADER - 16 * b)]
  {
    hide TrackAll, Sent, CounterBlock, IV, KeyStream, Xor, SeqOf, Protect;
    var index := TrackAll(FRESH, SeqsOf(raws)[..i + 1]).index;
    var (raw, len) := (raws[i], |raws[i]| - HEADER);
    SentIs(k, raws, i);
    RecoveredStream(k, raw, index, 16 * b, Min(16, len - 16 * b));
    BlockOfStream(k.crypto, k.enc, IV(k.salt, k.ssrc, index), len, b);
  }

  lemma SameSeqs(raws: seq<seq<u8>>, ns: seq<nat>)
    requires Numbered(raws, ns)
    ensures SeqsOf(raws) == Low16s(ns) && |raws| == |ns|
  {}

  lemma SameInputIff(c: Crypto, key: seq<u8>, x: Block, y: Block)
    requires Enciphers(c, key)
    ensures c.aes(key, x)[..16] == c.aes(key, y)[..16] <==> x == y
  {
    assert c.aes(key, x)[..16] == c.aes(key, x) && c.aes(key, y)[..16] == c.aes(key, y);
  }

  /** With a block cipher, no two full blocks a sender ever puts on the wire are XORed with the same octets. */
  lemma KeyBlocksDistinct(k: Keys, raws: Packets, ns: seq<nat>, i: nat, j: nat, a: u16, b: u16)
    requires Numbered(raws, ns) && TrackableRun(ns) && Rising(ns) && forall m :: 0 <= m < |ns| ==> ns[m] < TWO48
    requires Enciphers(k.crypto, k.enc) && i < |raws| && j < |raws|
    requires HEADER + 16 * a + 16 <= |raws[i]| && HEADER + 16 * b + 16 <= |raws[j]|
    ensures KeyBlock(k, raws, i, a) == KeyBlock(k, raws, j, b) <==> i == j && a == b
  {
    hide KeyBlock, AesInput, SeqOf, TrackableRun, Low16, Low16s, SeqsOf, Numbered, Rising, Enciphers;
    SameSeqs(raws, ns);
    KeyBlockIs(k, raws, i, a);
    KeyBlockIs(k, raws, j, b);
    SameInputIff(k.crypto, k.enc, AesInput(k, SeqsOf(raws), i, a), AesInput(k, SeqsOf(raws), j, b));
    if (i, a) != (j, b) {
      NoCounterReuse(k, ns, i, j, a, b);
    }
  }

  /** In a sender run no AES input occurs twice, within a packet or between packets. */
  lemma NoCounterReuse(k: Keys, ns: seq<nat>, i: nat, j: nat, a: u16, b: u16)
    requires TrackableRun(ns) && Rising(ns) && forall m :: 0 <= m < |ns| ==> ns[m] < TWO48
    requires i < |ns| && j < |ns| && (i, a) != (j, b)
    ensures AesInput(k, Low16s(ns), i, a) != AesInput(k, Low16s(ns), j, b)
  {
    IndexAt(ns, i);
    IndexAt(ns, j);
    if AesInput(k, Low16s(ns), i, a) == AesInput(k, Low16s(ns), j, b) {
      CounterBlocksDistinct(k.salt, k.ssrc, k.ssrc, ns[i], ns[j], a, b);
    }
  }
}
