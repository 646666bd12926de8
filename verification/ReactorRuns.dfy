/** Whole runs of the sharded reactor: every item is driven by one shard from its Add to its first refusal. */
module ReactorRuns {
  import opened Words
  import opened Reactor

  /** Items are numbered by the round-robin counter. The answer of item `id` to its k-th tick is arbitrary. */
  type Oracle = (nat, nat) -> bool

  /**
   * `draws` numbers have been drawn. The item at place p of the `log` of appended items has had ticks[p] ticks, and the
   * shards hold places of the log.
   */
  datatype World = World(shards: seq<seq<nat>>, log: seq<nat>, ticks: seq<nat>, draws: nat)

  /** Add has two critical sections, so other adds and ticks may come between drawing a number and appending. */
  datatype Event = Draw | Append(id: nat) | Tick(shard: nat)

  /** The round-robin counter is 64 bits wide. */
  function Route(n: nat, id: nat): nat
    requires n > 0
  {
    id % TWO64 % n
  }

  function Start(n: nat): World { World(seq(n, i => []), [], [], 0) }

  ghost predicate WellFormed(w: World) {
    |w.log| == |w.ticks| && forall s, i :: 0 <= s < |w.shards| && 0 <= i < |w.shards[s]| ==> w.shards[s][i] < |w.ticks|
  }

  function Answers(o: Oracle, w: World, shard: seq<nat>): (r: seq<bool>)
    requires |w.log| == |w.ticks| && forall i :: 0 <= i < |shard| ==> shard[i] < |w.ticks|
    ensures |r| == |shard| && forall i :: 0 <= i < |r| ==> r[i] == o(w.log[shard[i]], w.ticks[shard[i]])
  {
    seq(|shard|, i requires 0 <= i < |shard| => o(w.log[shard[i]], w.ticks[shard[i]]))
  }

  /** A tick counts for every item in the shard, and the shard is filtered by the answers. */
  function Step(o: Oracle, w: World, e: Event): World
    requires w.shards != [] && WellFormed(w)
  {
    match e
    case Draw => w.(draws := w.draws + 1)
    case Append(id) =>
      if id >= w.draws || id in w.log then w
      else
        var s := Route(|w.shards|, id);
        w.(shards := w.shards[s := w.shards[s] + [|w.log|]], log := w.log + [id], ticks := w.ticks + [0])
    case Tick(s) =>
      if s >= |w.shards| then w
      else
        w.(shards := w.shards[s := Keep(w.shards[s], Answers(o, w, w.shards[s]))],
           ticks := seq(|w.ticks|, p requires 0 <= p < |w.ticks| => w.ticks[p] + if p in w.shards[s] then 1 else 0))
  }

  /** Item `id` has answered yes to its first n ticks. */
  ghost predicate YesUntil(o: Oracle, id: nat, n: nat) { forall k :: 0 <= k < n ==> o(id, k) }

  /** A live item sits in its own shard; a finished one does not, and its last tick was its first refusal. */
  ghost predicate Driven(o: Oracle, w: World, p: nat)
    requires w.shards != [] && p < |w.ticks| == |w.log|
  {
    var (id, n) := (w.log[p], w.ticks[p]);
    if p in w.shards[Route(|w.shards|, id)] then YesUntil(o, id, n)
    else n > 0 && !o(id, n - 1) && YesUntil(o, id, n - 1)
  }

  /** A shard holds items of its own, each once, in the order they were appended. */
  ghost predicate Tidy(w: World, s: nat)
    requires w.shards != [] && s < |w.shards|
  {
    && Rising(w.shards[s])
    && forall p :: p in w.shards[s] ==> p < |w.log| && Route(|w.shards|, w.log[p]) == s
  }

  /** Every drawn number is appended at most once, and no other is. */
  ghost predicate LogOk(w: World) { Distinct(w.log) && forall id :: id in w.log ==> id < w.draws }

  ghost predicate Inv(o: Oracle, w: World) {
    && w.shards != [] && |w.log| == |w.ticks| && LogOk(w)
    && (forall s :: 0 <= s < |w.shards| ==> Tidy(w, s))
    && forall p :: 0 <= p < |w.ticks| ==> Driven(o, w, p)
  }

  lemma TidyWellFormed(o: Oracle, w: World)
    requires Inv(o, w)
    ensures WellFormed(w)
  {
    forall s, i | 0 <= s < |w.shards| && 0 <= i < |w.shards[s]| ensures w.shards[s][i] < |w.ticks| {
      assert Tidy(w, s) && w.shards[s][i] in w.shards[s];
    }
  }

  lemma RisingAppend(s: seq<nat>, x: nat)
    requires Rising(s) && forall k :: 0 <= k < |s| ==> s[k] < x
    ensures Rising(s + [x])
  {}

  /** Filtering keeps the order; it keeps exactly the flagged elements. */
  lemma {:induction false} KeepRising(s: seq<nat>, flags: seq<bool>)
    requires |s| == |flags| && Rising(s)
    ensures Rising(Keep(s, flags))
    ensures forall x :: x in Keep(s, flags) <==> exists i :: 0 <= i < |s| && s[i] == x && flags[i]
  {
    KeepDistinct(s, flags);
    if s != [] {
      var n := |s| - 1;
      var front := Keep(s[..n], flags[..n]);
      KeepRising(s[..n], flags[..n]);
      KeepDistinct(s[..n], flags[..n]);
      if flags[n] {
        forall k | 0 <= k < |front| ensures front[k] < s[n] {
          assert front[k] in front;
        }
        RisingAppend(front, s[n]);
        assert Keep(s, flags) == front + [s[n]];
      } else {
        assert Keep(s, flags) == front;
      }
    }
  }

  lemma RouteInRange(n: nat, id: nat)
    requires n > 0
    ensures Route(n, id) < n
  {}

  lemma AppendKeepsInv(o: Oracle, w: World, id: nat)
    requires Inv(o, w) && WellFormed(w) && id < w.draws && id !in w.log
    ensures Inv(o, Step(o, w, Append(id)))
  {
    hide Route, YesUntil;
    var (n, m) := (|w.shards|, |w.ticks|);
    RouteInRange(n, id);
    var u := Step(o, w, Append(id));
    forall s | 0 <= s < n ensures Tidy(u, s) {
      assert Tidy(w, s);
    }
    forall p | 0 <= p < m + 1 ensures Driven(o, u, p) {
      if p < m {
        RouteInRange(n, w.log[p]);
        assert Driven(o, w, p);
      } else {
        NothingSaid(o, id);
      }
    }
  }

  lemma NothingSaid(o: Oracle, id: nat)
    ensures YesUntil(o, id, 0)
  {}

  lemma DrawKeepsInv(o: Oracle, w: World)
    requires Inv(o, w) && WellFormed(w)
    ensures Inv(o, Step(o, w, Draw))
  {
    hide Route;
    var u := Step(o, w, Draw);
    forall s | 0 <= s < |w.shards| ensures Tidy(u, s) {
      assert Tidy(w, s);
    }
    forall p | 0 <= p < |w.ticks| ensures Driven(o, u, p) {
      RouteInRange(|w.shards|, w.log[p]);
      assert Driven(o, w, p);
    }
  }

  lemma TickKeepsInv(o: Oracle, w: World, s: nat)
    requires Inv(o, w) && WellFormed(w) && s < |w.shards|
    ensures Inv(o, Step(o, w, Tick(s)))
  {
    hide Route, Keep, Distinct;
    var n := |w.shards|;
    var (shard, flags) := (w.shards[s], Answers(o, w, w.shards[s]));
    var u := Step(o, w, Tick(s));
    assert Tidy(w, s);
    KeepRising(shard, flags);
    forall t | 0 <= t < n ensures Tidy(u, t) {
      assert Tidy(w, t);
    }
    forall p | 0 <= p < |w.ticks| ensures Driven(o, u, p) {
      RouteInRange(n, w.log[p]);
      assert Driven(o, w, p);
      if p in shard {
        KeptIff(shard, flags, o, w, p);
      }
    }
  }

  lemma KeptIff(shard: seq<nat>, flags: seq<bool>, o: Oracle, w: World, p: nat)
    requires p in shard && Rising(shard) && |flags| == |shard| && p < |w.ticks| == |w.log|
    requires forall i :: 0 <= i < |shard| ==>
      shard[i] < |w.ticks| && flags[i] == o(w.log[shard[i]], w.ticks[shard[i]])
    ensures p in Keep(shard, flags) <==> o(w.log[p], w.ticks[p])
  {
    KeepRising(shard, flags);
  }

  lemma StepKeepsInv(o: Oracle, w: World, e: Event)
    requires Inv(o, w) && WellFormed(w)
    ensures Inv(o, Step(o, w, e))
  {
    hide Inv;
    match e {
      case Draw => DrawKeepsInv(o, w);
      case Append(id) => if id < w.draws && id !in w.log { AppendKeepsInv(o, w, id); }
      case Tick(s) => if s < |w.shards| { TickKeepsInv(o, w, s); }
    }
  }

  function Run(o: Oracle, n: nat, es: seq<Event>): (w: World)
    requires n > 0
    ensures Inv(o, w) && |w.shards| == n
  {
    if es == [] then Start(n)
    else
      var w := Run(o, n, es[..|es| - 1]);
      TidyWellFormed(o, w);
      StepKeepsInv(o, w, es[|es| - 1]);
      Step(o, w, es[|es| - 1])
  }

  /** The answers of an item are yes before tick k, and no at tick k. */
  ghost predicate FirstNo(o: Oracle, id: nat, k: nat) { !o(id, k) && YesUntil(o, id, k) }

  /**
   * Over any run in which adds overlap each other and the ticks: an appended item was appended once, is in no shard but
   * its own, and is there exactly while it has said yes to every tick; shards keep the order of appending; and an item
   * that says no at tick k has been ticked exactly k + 1 times, never again.
   */
  lemma NeitherLostNorRepeated(o: Oracle, n: nat, es: seq<Event>, p: nat)
    requires n > 0 && p < |Run(o, n, es).log|
    ensures var w := Run(o, n, es); |w.ticks| == |w.log|
    ensures var (w, id) := (Run(o, n, es), Run(o, n, es).log[p]);
      && id < w.draws && (forall q :: 0 <= q < |w.log| && q != p ==> w.log[q] != id)
      && (forall s :: 0 <= s < n && p in w.shards[s] ==> s == Route(n, id))
      && Rising(w.shards[Route(n, id)])
      && (p in w.shards[Route(n, id)] <==> YesUntil(o, id, w.ticks[p]))
      && forall k :: FirstNo(o, id, k) && k < w.ticks[p] ==> w.ticks[p] == k + 1
  {
    hide Run, Route;
    var w := Run(o, n, es);
    var id := w.log[p];
    RouteInRange(n, id);
    Others(w.log, p);
    assert id in w.log;
    forall s | 0 <= s < n && p in w.shards[s] ensures s == Route(n, id) {
      assert Tidy(w, s);
    }
    assert Tidy(w, Route(n, id));
    assert Driven(o, w, p);
  }

  ghost predicate Absent(w: World, s: nat, id: nat)
    requires s < |w.shards|
  {
    forall p: nat :: p in w.shards[s] ==> p < |w.log| && w.log[p] != id
  }

  ghost predicate InNoShard(w: World, id: nat) { forall s :: 0 <= s < |w.shards| ==> Absent(w, s, id) }

  lemma UnloggedInNoShard(o: Oracle, w: World, id: nat)
    requires Inv(o, w) && id !in w.log
    ensures InNoShard(w, id)
  {
    forall s | 0 <= s < |w.shards| ensures Absent(w, s, id) {
      assert Tidy(w, s);
      TidyAbsent(w, s, id);
    }
  }

  lemma TidyAbsent(w: World, s: nat, id: nat)
    requires w.shards != [] && s < |w.shards| && Tidy(w, s) && id !in w.log
    ensures Absent(w, s, id)
  {
    hide Route, Rising;
    forall p: nat | p in w.shards[s] ensures p < |w.log| && w.log[p] != id {
      assert w.log[p] in w.log;
    }
  }

  /** A number drawn by an Add that has not appended yet is in no shard; one step puts it at the end of its own. */
  lemma DrawnCanBeAppended(o: Oracle, n: nat, es: seq<Event>, id: nat)
    requires n > 0 && id < Run(o, n, es).draws && id !in Run(o, n, es).log
    ensures var (w, u, s) := (Run(o, n, es), Run(o, n, es + [Append(id)]), Route(n, id));
      && InNoShard(w, id) && u.log == w.log + [id]
      && s < n && u.shards == w.shards[s := w.shards[s] + [|w.log|]]
  {
    hide Route, Inv;
    RouteInRange(n, id);
    assert (es + [Append(id)])[..|es|] == es;
    UnloggedInNoShard(o, Run(o, n, es), id);
  }

  // ---- fairness of the routing ----

  /** How many of the first m adds went to shard s. */
  function Routed(n: nat, s: nat, m: nat): nat
    requires n > 0
  {
    if m == 0 then 0 else Routed(n, s, m - 1) + if Route(n, m - 1) == s then 1 else 0
  }

  /** In every prefix of adds no two shards differ by more than one. */
  ghost predicate Balanced(n: nat, m: nat)
    requires n > 0
  {
    forall s, t :: 0 <= s < n && 0 <= t < n ==> Routed(n, s, m) <= Routed(n, t, m) + 1
  }

  /** The share of shard s in q full rounds and the first r shards of another. */
  function Share(q: nat, r: nat, s: nat): nat { if s < r then q + 1 else q }

  /** The first m adds are shared out evenly until the counter wraps, and for ever if its range is a multiple of n. */
  lemma {:induction false} RoutedEvenly(n: nat, s: nat, m: nat)
    requires n > 0 && s < n && (m <= TWO64 || TWO64 % n == 0)
    ensures Routed(n, s, m) == Share(m / n, m % n, s)
  {
    hide Routed, Route;
    if m == 0 {
      Unique(n, 0, 0, 0);
      NoneYet(n, s);
    } else {
      RoutedEvenly(n, s, m - 1);
      NextRound(n, m - 1);
      OneMore(n, s, m - 1);
      assert Route(n, m - 1) == (m - 1) % n by {
        if m <= TWO64 { RouteBeforeWrap(n, m - 1); } else { RouteWhenDivided(n, m - 1); }
      }
    }
  }

  lemma NoneYet(n: nat, s: nat)
    requires n > 0
    ensures Routed(n, s, 0) == 0
  {}

  lemma RouteBeforeWrap(n: nat, id: nat)
    requires n > 0 && id < TWO64
    ensures Route(n, id) == id % n
  {}

  lemma RouteWhenDivided(n: nat, id: nat)
    requires n > 0 && TWO64 % n == 0
    ensures Route(n, id) == id % n
  {
    var (q, r, c) := (id / TWO64, id % TWO64, TWO64 / n);
    assert TWO64 == n * c && r == n * (r / n) + r % n && id == TWO64 * q + r;
    assert n * c * q == n * (c * q) && n * (c * q + r / n) == n * (c * q) + n * (r / n);
    Unique(n, id, c * q + r / n, r % n);
  }

  lemma NextRound(n: nat, k: nat)
    requires n > 0
    ensures if k % n + 1 < n then (k + 1) / n == k / n && (k + 1) % n == k % n + 1
            else (k + 1) / n == k / n + 1 && (k + 1) % n == 0
  {
    var (q, r) := (k / n, k % n);
    assert k == n * q + r;
    if r + 1 < n {
      Unique(n, k + 1, q, r + 1);
    } else {
      assert n * (q + 1) == n * q + n;
      Unique(n, k + 1, q + 1, 0);
    }
  }

  lemma Unique(n: nat, k: nat, q: nat, r: nat)
    requires n > 0 && k == n * q + r && r < n
    ensures k / n == q && k % n == r
  {
    var (p, t) := (k / n, k % n);
    assert k == n * p + t;
    if p < q {
      Grows(n, p, q);
    } else if p > q {
      Grows(n, q, p);
    }
  }

  lemma Grows(n: nat, a: nat, b: nat)
    requires a < b
    ensures n * a + n <= n * b
  {
    assert n * (a + 1) == n * a + n;
    Monotone(n, a + 1, b);
  }

  lemma Monotone(n: nat, a: nat, b: nat)
    requires a <= b
    ensures n * a <= n * b
  {}

  /** The shards stay within one of each other up to 2^64 adds, and for ever if n divides 2^64. */
  lemma EvenlyBalanced(n: nat, m: nat)
    requires n > 0 && (m <= TWO64 || TWO64 % n == 0)
    ensures Balanced(n, m)
  {
    hide Routed;
    forall s, t | 0 <= s < n && 0 <= t < n ensures Routed(n, s, m) <= Routed(n, t, m) + 1 {
      RoutedEvenly(n, s, m);
      RoutedEvenly(n, t, m);
    }
  }

  /** The counter wraps at 2^64 and the next add goes to shard 0 again, out of turn unless n divides 2^64. */
  lemma UnbalancedAtWrap(n: nat)
    requires n > 0 && TWO64 % n != 0
    ensures !Balanced(n, TWO64 + 1)
  {
    hide Routed;
    RoutedAtWrap(n, 0);
    RoutedAtWrap(n, n - 1);
    assert Routed(n, 0, TWO64 + 1) > Routed(n, n - 1, TWO64 + 1) + 1;
  }

  /** Round robin is balanced after every number of adds if and only if the number of shards divides 2^64. */
  lemma BalancedForeverIff(n: nat)
    requires n > 0
    ensures (forall m: nat :: Balanced(n, m)) <==> TWO64 % n == 0
  {
    hide Balanced;
    if TWO64 % n == 0 {
      forall m: nat ensures Balanced(n, m) { EvenlyBalanced(n, m); }
    } else {
      UnbalancedAtWrap(n);
    }
  }

  lemma RoutedAtWrap(n: nat, s: nat)
    requires n > 0 && s < n
    ensures Routed(n, s, TWO64 + 1) == Share(TWO64 / n, TWO64 % n, s) + if s == 0 then 1 else 0
  {
    RoutedEvenly(n, s, TWO64);
    OneMore(n, s, TWO64);
    RouteAtWrap(n);
  }

  lemma RouteAtWrap(n: nat)
    requires n > 0
    ensures Route(n, TWO64) == 0
  {
    Unique(n, 0, 0, 0);
  }

  lemma OneMore(n: nat, s: nat, m: nat)
    requires n > 0
    ensures Routed(n, s, m + 1) == Routed(n, s, m) + if Route(n, m) == s then 1 else 0
  {}
}
