/**
 * Whole runs of the de-jitter buffer against a list of unbounded playout slots: the first packet opens slot
 * `base`, every playing tick plays one slot, and the playout head is `base + plays`.
 */
module JitterRuns {
  import opened Words
  import opened Jitter
  import opened Wrappers

  datatype Event = Pushed(p: Packet, now: int) | Ticked(now: int)

  datatype Slots = Slots(started: bool, firstPktTime: int, delayExpired: bool, base: nat, plays: nat,
                         slots: map<nat, Payload>)
  {
    function Head(): nat { base + plays }
    /** The multiple of 2^16 at or below the head. */
    function Block(): nat { Head() / TWO16 * TWO16 }
  }

  const NO_SLOTS := Slots(false, 0, false, 0, 0, map[])

  /** The slot a packet is meant for: this many places ahead of the head, or none if its number is below the head's. */
  function Target(s: Slots, sn: u16): Option<nat> {
    if !s.started then Some(sn)
    else if sn >= Low16(s.Head()) then Some(s.Head() + sn - Low16(s.Head()))
    else None
  }

  function SlotStep(c: Config, s: Slots, e: Event): Slots {
    match e
    case Pushed(p, now) =>
      var t := Target(s, p.sn);
      var u := if s.started then s
               else s.(base := p.sn, started := true, firstPktTime := now, delayExpired := c.playoutDelay == 0);
      if t.None? then u else u.(slots := u.slots[t.value := p.payload])
    case Ticked(now) =>
      if Playing(c, s.started, s.firstPktTime, s.delayExpired, now)
      then s.(plays := s.plays + 1, delayExpired := true) else s
  }

  function SlotRun(c: Config, es: seq<Event>): Slots {
    if es == [] then NO_SLOTS else SlotStep(c, SlotRun(c, es[..|es| - 1]), es[|es| - 1])
  }

  function BufferStep(c: Config, b: Buffer, e: Event): Buffer {
    match e
    case Pushed(p, now) => PushStep(c, b, p, now)
    case Ticked(now) => TickStep(c, b, now)
  }

  /** A run of a new buffer whose recorder already holds `pre`. */
  function BufferRun(c: Config, pre: Payload, es: seq<Event>): Buffer {
    if es == [] then EMPTY.(written := pre) else BufferStep(c, BufferRun(c, pre, es[..|es| - 1]), es[|es| - 1])
  }

  /** n slots from `from` on: the packet in each slot, or silence. */
  function Played(c: Config, slots: map<nat, Payload>, from: nat, n: nat): Payload {
    if n == 0 then []
    else Played(c, slots, from, n - 1) + if from + n - 1 in slots then slots[from + n - 1] else Silence(c)
  }

  /** n slots from `from` on without filling the gaps. */
  function Kept(slots: map<nat, Payload>, from: nat, n: nat): Payload {
    if n == 0 then [] else Kept(slots, from, n - 1) + if from + n - 1 in slots then slots[from + n - 1] else []
  }

  /** Key `sn` of the map stands for slot `block + sn`, from the head on; below it there is nothing. */
  ghost predicate Mirrors(packets: map<u16, Payload>, nextSeq: u16, slots: map<nat, Payload>, block: nat, sn: u16) {
    if sn < nextSeq then sn !in packets
    else if block + sn in slots then sn in packets && packets[sn] == slots[block + sn]
    else sn !in packets
  }

  /** The buffered packets are exactly the slots from the head, `block + nextSeq`, to the end of its block of 2^16. */
  ghost predicate SameTail(packets: map<u16, Payload>, nextSeq: u16, slots: map<nat, Payload>, base: nat, block: nat) {
    && (forall sn: u16 :: Mirrors(packets, nextSeq, slots, block, sn))
    && (forall m :: m in slots ==> base <= m < block + TWO16)
  }

  ghost predicate Refines(c: Config, pre: Payload, b: Buffer, s: Slots) {
    && b.started == s.started && b.firstPktTime == s.firstPktTime && b.delayExpired == s.delayExpired
    && (!s.started ==> s == NO_SLOTS && b == EMPTY.(written := pre))
    && (s.started ==> b.nextSeq == Low16(s.Head()) && SameTail(b.packets, b.nextSeq, s.slots, s.base, s.Block()))
    && b.written == pre + Played(c, s.slots, s.base, s.plays)
  }

  lemma {:induction false} LaterSlotKeepsPlayed(c: Config, slots: map<nat, Payload>, from: nat, n: nat, m: nat,
                                                x: Payload)
    requires m >= from + n
    ensures Played(c, slots[m := x], from, n) == Played(c, slots, from, n)
  {
    if n > 0 {
      LaterSlotKeepsPlayed(c, slots, from, n - 1, m, x);
    }
  }

  lemma PushTail(packets: map<u16, Payload>, next: u16, slots: map<nat, Payload>, base: nat, block: nat, sn: u16,
                 x: Payload)
    requires SameTail(packets, next, slots, base, block) && base <= block + next && sn >= next
    ensures SameTail(packets[sn := x], next, slots[block + sn := x], base, block)
  {
    var (ps, ss) := (packets[sn := x], slots[block + sn := x]);
    forall k: u16 ensures Mirrors(ps, next, ss, block, k) {
      assert Mirrors(packets, next, slots, block, k);
    }
  }

  lemma TickTail(packets: map<u16, Payload>, next: u16, slots: map<nat, Payload>, base: nat, block: nat)
    requires SameTail(packets, next, slots, base, block)
    ensures if next + 1 < TWO16 then SameTail(packets - {next}, next + 1, slots, base, block)
            else SameTail(packets - {next}, 0, slots, base, block + TWO16)
    ensures Mirrors(packets, next, slots, block, next)
  {
    assert Mirrors(packets, next, slots, block, next);
    var ps := packets - {next};
    if next + 1 < TWO16 {
      var next' := next + 1;
      forall k: u16 ensures Mirrors(ps, next', slots, block, k) {
        assert Mirrors(packets, next, slots, block, k);
      }
    } else {
      var block' := block + TWO16;
      forall k: u16 ensures Mirrors(ps, 0, slots, block', k) {
        assert Mirrors(packets, next, slots, block, k);
      }
    }
  }

  lemma HeadInBlock(s: Slots)
    ensures s.Head() == s.Block() + Low16(s.Head())
    ensures s.Head() < TWO16 ==> s.Block() == 0
  {}

  lemma NextHead(s: Slots)
    ensures var u := s.(plays := s.plays + 1);
      if Low16(s.Head()) + 1 < TWO16 then Low16(u.Head()) == Low16(s.Head()) + 1 && u.Block() == s.Block()
      else Low16(u.Head()) == 0 && u.Block() == s.Block() + TWO16
  {}

  lemma PushRefines(c: Config, pre: Payload, b: Buffer, s: Slots, p: Packet, now: int)
    requires Refines(c, pre, b, s)
    ensures Refines(c, pre, PushStep(c, b, p, now), SlotStep(c, s, Pushed(p, now)))
  {
    hide Silence, SameTail, Low16, Slots.Block, Played;
    HeadInBlock(s);
    HeadInBlock(SlotStep(c, s, Pushed(p, now)));
    if s.started {
      if p.sn >= b.nextSeq {
        PushTail(b.packets, b.nextSeq, s.slots, s.base, s.Block(), p.sn, p.payload);
        LaterSlotKeepsPlayed(c, s.slots, s.base, s.plays, s.Block() + p.sn, p.payload);
      }
    } else {
      FirstPushRefines(c, pre, p, now);
    }
  }

  lemma FirstPushRefines(c: Config, pre: Payload, p: Packet, now: int)
    ensures Refines(c, pre, PushStep(c, EMPTY.(written := pre), p, now), SlotStep(c, NO_SLOTS, Pushed(p, now)))
  {
    hide Silence, Slots.Block, Low16;
    HeadInBlock(SlotStep(c, NO_SLOTS, Pushed(p, now)));
  }

  lemma TickRefines(c: Config, pre: Payload, b: Buffer, s: Slots, now: int)
    requires Refines(c, pre, b, s)
    ensures Refines(c, pre, TickStep(c, b, now), SlotStep(c, s, Ticked(now)))
  {
    if Playing(c, s.started, s.firstPktTime, s.delayExpired, now) {
      hide Silence, SameTail, Low16, Slots.Block;
      HeadInBlock(s);
      NextHead(s);
      HeadInBlock(s.(plays := s.plays + 1));
      TickTail(b.packets, b.nextSeq, s.slots, s.base, s.Block());
    }
  }

  /** After any run of pushes and ticks the recorder holds, slot by slot, the packet of that slot or silence. */
  lemma {:induction false} RunRefines(c: Config, pre: Payload, es: seq<Event>)
    ensures Refines(c, pre, BufferRun(c, pre, es), SlotRun(c, es))
  {
    if es != [] {
      hide Refines, PushStep, TickStep, SlotStep;
      var n := |es| - 1;
      RunRefines(c, pre, es[..n]);
      match es[n] {
        case Pushed(p, now) => PushRefines(c, pre, BufferRun(c, pre, es[..n]), SlotRun(c, es[..n]), p, now);
        case Ticked(now) => TickRefines(c, pre, BufferRun(c, pre, es[..n]), SlotRun(c, es[..n]), now);
      }
    }
  }

  // ---- the playout delay ----

  ghost predicate OnlyTicks(es: seq<Event>) { forall i :: 0 <= i < |es| ==> es[i].Ticked? }

  /** There is no delay d, or some tick came at least d after time t. */
  ghost predicate Expired(d: int, t: int, es: seq<Event>) {
    d == 0 || exists i :: 0 <= i < |es| && TickedBy(es[i], t + d)
  }

  predicate TickedBy(e: Event, deadline: int) { e.Ticked? && e.now >= deadline }

  /** The ticks from the first one on that came at least d after time t, whatever their own times. */
  ghost function DueTicks(d: int, t: int, es: seq<Event>): nat {
    if es == [] then 0
    else DueTicks(d, t, es[..|es| - 1]) + if es[|es| - 1].Ticked? && Expired(d, t, es) then 1 else 0
  }

  lemma ExpiredLast(d: int, t: int, es: seq<Event>)
    requires es != []
    ensures Expired(d, t, es) <==> Expired(d, t, es[..|es| - 1]) || TickedBy(es[|es| - 1], t + d)
  {
    var n := |es| - 1;
    if Expired(d, t, es[..n]) && d != 0 {
      var i :| 0 <= i < n && TickedBy(es[..n][i], t + d);
      assert TickedBy(es[i], t + d);
    }
  }

  lemma {:induction false} NothingBeforeFirstPush(c: Config, lead: seq<Event>)
    requires OnlyTicks(lead)
    ensures SlotRun(c, lead) == NO_SLOTS
  {
    if lead != [] {
      NothingBeforeFirstPush(c, lead[..|lead| - 1]);
    }
  }

  /** After a first push at time t the buffer plays one slot at every due tick and none before. */
  lemma {:induction false} SlotsDue(c: Config, lead: seq<Event>, p: Packet, t: int, es: seq<Event>)
    requires OnlyTicks(lead)
    ensures var s := SlotRun(c, lead + [Pushed(p, t)] + es);
      && s.started && s.base == p.sn && s.firstPktTime == t
      && s.delayExpired == Expired(c.playoutDelay, t, es) && s.plays == DueTicks(c.playoutDelay, t, es)
  {
    var all := lead + [Pushed(p, t)] + es;
    if es == [] {
      NothingBeforeFirstPush(c, lead);
      assert all[..|all| - 1] == lead;
    } else {
      hide OnlyTicks, Expired;
      var n := |es| - 1;
      SlotsDue(c, lead, p, t, es[..n]);
      assert all[..|all| - 1] == lead + [Pushed(p, t)] + es[..n];
      ExpiredLast(c.playoutDelay, t, es);
    }
  }

  /**
   * Ticks before the first packet do nothing. After it the head moves by one, and the recorder gets one slot, at every
   * tick from the first one on that comes at least the playout delay later; before that nothing is played.
   */
  lemma DelayHonoured(c: Config, pre: Payload, lead: seq<Event>, p: Packet, t: int, es: seq<Event>)
    requires OnlyTicks(lead)
    ensures var (b, s) := (BufferRun(c, pre, lead + [Pushed(p, t)] + es), SlotRun(c, lead + [Pushed(p, t)] + es));
      var due := DueTicks(c.playoutDelay, t, es);
      && b.started && b.nextSeq == Low16(p.sn + due) && b.delayExpired == Expired(c.playoutDelay, t, es)
      && b.written == pre + Played(c, s.slots, p.sn, due)
  {
    hide BufferRun, SlotRun, DueTicks, Expired, Played, SameTail, Low16;
    RunRefines(c, pre, lead + [Pushed(p, t)] + es);
    SlotsDue(c, lead, p, t, es);
  }

  /** As long as every tick comes less than a positive delay after the first packet, nothing is played. */
  lemma {:induction false} HeldBack(c: Config, pre: Payload, lead: seq<Event>, p: Packet, t: int, es: seq<Event>)
    requires OnlyTicks(lead) && c.playoutDelay > 0
    requires forall i :: 0 <= i < |es| && es[i].Ticked? ==> es[i].now - t < c.playoutDelay
    ensures var b := BufferRun(c, pre, lead + [Pushed(p, t)] + es);
      b.written == pre && !b.delayExpired && b.nextSeq == p.sn
  {
    hide BufferRun;
    DelayHonoured(c, pre, lead, p, t, es);
    NoneDue(c.playoutDelay, t, es);
    assert pre + [] == pre;
  }

  lemma {:induction false} NoneDue(d: int, t: int, es: seq<Event>)
    requires d > 0 && forall i :: 0 <= i < |es| && es[i].Ticked? ==> es[i].now - t < d
    ensures DueTicks(d, t, es) == 0 && !Expired(d, t, es)
  {
    if es != [] {
      NoneDue(d, t, es[..|es| - 1]);
    }
  }

  // ---- what a slot holds ----

  /** The slot the i-th event fills, if it is a push that is not discarded. */
  function Fills(c: Config, es: seq<Event>, i: nat): Option<nat>
    requires i < |es|
  {
    match es[i]
    case Pushed(p, _) => Target(SlotRun(c, es[..i]), p.sn)
    case Ticked(_) => None
  }

  /** Event i is the last one to fill slot m. */
  ghost predicate LastToFill(c: Config, es: seq<Event>, i: nat, m: nat)
    requires i < |es|
  {
    Fills(c, es, i) == Some(m) && forall j :: i < j < |es| ==> Fills(c, es, j) != Some(m)
  }

  lemma FillsFront(c: Config, es: seq<Event>, n: nat, i: nat)
    requires i < n <= |es|
    ensures Fills(c, es[..n], i) == Fills(c, es, i)
  {
    assert es[..n][..i] == es[..i];
  }

  /** One more event: it is the last to fill the slot it fills, and changes nothing for the others. */
  lemma LastToFillFront(c: Config, es: seq<Event>, m: nat)
    requires es != []
    ensures var n := |es| - 1;
      if Fills(c, es, n) == Some(m) then LastToFill(c, es, n, m) && forall i :: 0 <= i < n ==> !LastToFill(c, es, i, m)
      else
        && !LastToFill(c, es, n, m)
        && forall i :: 0 <= i < n ==> (LastToFill(c, es, i, m) <==> LastToFill(c, es[..n], i, m))
  {
    hide Fills;
    var n := |es| - 1;
    forall i | 0 <= i < n ensures Fills(c, es[..n], i) == Fills(c, es, i) { FillsFront(c, es, n, i); }
  }

  lemma SlotAfter(c: Config, es: seq<Event>, m: nat)
    requires es != []
    ensures var (n, before, after) := (|es| - 1, SlotRun(c, es[..|es| - 1]).slots, SlotRun(c, es).slots);
      if Fills(c, es, n) == Some(m) then es[n].Pushed? && m in after && after[m] == es[n].p.payload
      else (m in after <==> m in before) && (m in before ==> after[m] == before[m])
  {
    hide Target;
  }

  /** A slot is filled exactly when some push was meant for it, and then it holds the packet pushed last. */
  lemma {:induction false} LastPushWins(c: Config, es: seq<Event>, m: nat)
    ensures m in SlotRun(c, es).slots <==> exists i :: 0 <= i < |es| && LastToFill(c, es, i, m)
    ensures forall i :: 0 <= i < |es| && LastToFill(c, es, i, m) ==>
      es[i].Pushed? && m in SlotRun(c, es).slots && SlotRun(c, es).slots[m] == es[i].p.payload
  {
    if es != [] {
      hide SlotRun, Fills, LastToFill;
      var n := |es| - 1;
      LastPushWins(c, es[..n], m);
      LastToFillFront(c, es, m);
      SlotAfter(c, es, m);
      forall i | 0 <= i < n ensures es[..n][i] == es[i] {}
    } else {
      assert m !in SlotRun(c, es).slots;
    }
  }

  // ---- the flush ----

  lemma {:induction false} AheadIsKept(packets: map<u16, Payload>, next: u16, slots: map<nat, Payload>,
                                       base: nat, block: nat, n: nat)
    requires SameTail(packets, next, slots, base, block) && next + n <= TWO16
    ensures Ahead(packets, next, n) == Kept(slots, block + next, n)
  {
    if n > 0 {
      AheadIsKept(packets, next, slots, base, block, n - 1);
      var sn := next + n - 1;
      assert sn % TWO16 == sn && Mirrors(packets, next, slots, block, sn);
    }
  }

  /**
   * Closing after any run: the recorder ends with what it held before, then all played slots, then the still unplayed
   * packets once each in strictly increasing slot order; no packet lies outside those two stretches.
   */
  lemma ClosedRun(c: Config, pre: Payload, es: seq<Event>)
    ensures var (b, s) := (BufferRun(c, pre, es), SlotRun(c, es));
      var left := s.Block() + TWO16 - s.Head();
      && b.written + Ahead(b.packets, b.nextSeq, TWO16)
           == pre + Played(c, s.slots, s.base, s.plays) + Kept(s.slots, s.Head(), left)
      && forall m :: m in s.slots ==> s.base <= m < s.Head() + left
  {
    hide *;
    HeadInBlock(SlotRun(c, es));
    RunRefines(c, pre, es);
    WrittenSoFar(c, pre, BufferRun(c, pre, es), SlotRun(c, es));
    FlushRefines(c, pre, BufferRun(c, pre, es), SlotRun(c, es));
  }

  lemma WrittenSoFar(c: Config, pre: Payload, b: Buffer, s: Slots)
    requires Refines(c, pre, b, s)
    ensures b.written == pre + Played(c, s.slots, s.base, s.plays)
  {
    hide Played, SameTail, Low16, Slots.Block;
  }

  lemma FlushRefines(c: Config, pre: Payload, b: Buffer, s: Slots)
    requires Refines(c, pre, b, s)
    ensures Ahead(b.packets, b.nextSeq, TWO16) == Kept(s.slots, s.Head(), s.Block() + TWO16 - s.Head())
    ensures forall m :: m in s.slots ==> s.base <= m < s.Block() + TWO16
  {
    hide Played, Kept, Ahead, Slots.Block, Low16;
    var left := s.Block() + TWO16 - s.Head();
    HeadInBlock(s);
    if s.started {
      AheadIsKept(b.packets, b.nextSeq, s.slots, s.base, s.Block(), left);
      forall sn | sn in b.packets ensures Distance(b.nextSeq, sn) < left {
        assert Mirrors(b.packets, b.nextSeq, s.slots, s.Block(), sn);
      }
      NothingBetween(b.packets, b.nextSeq, left, TWO16);
    } else {
      NothingBetween(b.packets, b.nextSeq, 0, TWO16);
      NothingKept(0, TWO16);
    }
  }

  lemma {:induction false} NothingKept(from: nat, n: nat)
    ensures Kept(map[], from, n) == []
  {
    if n > 0 {
      NothingKept(from, n - 1);
    }
  }

  lemma {:induction false} PlayedIsKept(c: Config, slots: map<nat, Payload>, from: nat, n: nat, k: nat)
    requires c.silenceSize <= 0
    ensures Played(c, slots, from, n) + Kept(slots, from + n, k) == Kept(slots, from, n + k)
  {
    if k > 0 {
      PlayedIsKept(c, slots, from, n, k - 1);
    } else if n > 0 {
      PlayedIsKept(c, slots, from, n - 1, 0);
    }
  }

  /** Without silence frames a closed run writes every surviving packet exactly once, in slot order, and no more. */
  lemma ClosedRunWithoutSilence(c: Config, pre: Payload, es: seq<Event>)
    requires c.silenceSize <= 0
    ensures var (b, s) := (BufferRun(c, pre, es), SlotRun(c, es));
      b.written + Ahead(b.packets, b.nextSeq, TWO16) == pre + Kept(s.slots, s.base, s.Block() + TWO16 - s.base)
  {
    hide BufferRun, SlotRun, Played, Kept, Ahead;
    var s := SlotRun(c, es);
    var left := s.Block() + TWO16 - s.Head();
    ClosedRun(c, pre, es);
    PlayedIsKept(c, s.slots, s.base, s.plays, left);
    assert pre + Played(c, s.slots, s.base, s.plays) + Kept(s.slots, s.Head(), left)
        == pre + (Played(c, s.slots, s.base, s.plays) + Kept(s.slots, s.Head(), left));
  }

  // ---- lateness around a wrap ----

  /** Where a packet with true number n belongs: its own slot, or nowhere if that slot has been played. */
  function Proper(s: Slots, n: nat): Option<nat> {
    if n >= s.Head() then Some(n) else None
  }

  /**
   * Push promises to handle sequence number wrap-around. For packets less than 2^15 from the head it does so
   * exactly when the packet lies in the head's own block of 2^16 numbers.
   */
  lemma WrapHandledIff(s: Slots, n: nat)
    requires s.started && n - s.Head() < TWO15 && s.Head() - n < TWO15
    ensures Target(s, Low16(n)) == Proper(s, n) <==> n / TWO16 == s.Head() / TWO16
  {}

  /** Packet 65536 arriving one slot early is discarded; packet 65535 arriving one slot late waits for slot 131071. */
  lemma WrapExamples(s: Slots)
    requires s.started
    ensures s.Head() == 65535 ==> Target(s, Low16(65536)) == None
    ensures s.Head() == 65536 ==> Target(s, Low16(65535)) == Some(131071)
  {}
}
