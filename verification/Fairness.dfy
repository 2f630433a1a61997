/** Round-robin fairness of `Pool.choose` (gateway/egress_relay.py). */
module Fairness {
  import opened Prelude
  import opened Relay

  // Consecutive choices that all see the same ring of candidates.
  ghost predicate Steady(s: PoolState, ops: seq<Op>, settings: Settings, ring: seq<Upstream>)
    decreases |ops|
  {
    ops != [] ==>
      && ops[0].Choose? && RingFor(s, ops[0], settings) == ring
      && Steady(Apply(s, ops[0], settings), ops[1..], settings, ring)
  }

  function RingFor(s: PoolState, op: Op, settings: Settings): seq<Upstream>
    requires op.Choose?
  {
    Ring(Refreshed(s, op.refreshAt, op.fetched, settings.size), op.port, op.excluded, op.now)
  }

  // What those choices return.
  function Picks(s: PoolState, ops: seq<Op>, settings: Settings): seq<Option<Upstream>>
    requires forall i :: 0 <= i < |ops| ==> ops[i].Choose?
    decreases |ops|
  {
    if ops == [] then []
    else
      var op := ops[0];
      [Pick(Refreshed(s, op.refreshAt, op.fetched, settings.size), op.port, op.excluded, op.now)]
      + Picks(Apply(s, op, settings), ops[1..], settings)
  }

  function Times(picks: seq<Option<Upstream>>, u: Upstream): nat {
    if picks == [] then 0 else (if picks[0] == Some(u) then 1 else 0) + Times(picks[1..], u)
  }

  // How many of the `m` numbers from `start` on are congruent to `c` modulo `n`.
  function Hits(start: nat, m: nat, n: nat, c: nat): nat
    requires n > 0
    decreases m
  {
    if m == 0 then 0 else (if start % n == c then 1 else 0) + Hits(start + 1, m - 1, n, c)
  }

  // The numbers below `x` that are congruent to `c`, for c < n.
  function Below(x: nat, n: nat, c: nat): nat
    requires n > 0
  {
    x / n + (if x % n > c then 1 else 0)
  }

  lemma DivModUnique(x: int, n: int, q: int, r: int)
    requires n > 0 && x == q * n + r && 0 <= r < n
    ensures x / n == q && x % n == r
  {
    var d := x / n - q;
    assert x == (x / n) * n + x % n;
    assert d * n == r - x % n;
    assert d > 0 ==> d * n >= n;
    assert d < 0 ==> d * n <= -n;
  }

  lemma BelowStep(x: nat, n: nat, c: nat)
    requires c < n
    ensures Below(x + 1, n, c) == Below(x, n, c) + (if x % n == c then 1 else 0)
  {
    var q, r := x / n, x % n;
    assert x == q * n + r;
    if r + 1 < n { DivModUnique(x + 1, n, q, r + 1); }
    else { assert (q + 1) * n == q * n + n; DivModUnique(x + 1, n, q + 1, 0); }
  }

  lemma BelowTurn(x: nat, n: nat, c: nat)
    requires c < n
    ensures Below(x + n, n, c) == Below(x, n, c) + 1
  {
    var q, r := x / n, x % n;
    assert (q + 1) * n == q * n + n;
    DivModUnique(x + n, n, q + 1, r);
  }

  lemma {:induction false} HitsAreBelow(start: nat, m: nat, n: nat, c: nat)
    requires c < n
    ensures Hits(start, m, n, c) == Below(start + m, n, c) - Below(start, n, c)
    decreases m
  {
    if m > 0 {
      HitsAreBelow(start + 1, m - 1, n, c);
      BelowStep(start, n, c);
    }
  }

  lemma {:induction false} HitsGrow(start: nat, m: nat, m': nat, n: nat, c: nat)
    requires n > 0 && m <= m'
    ensures Hits(start, m, n, c) <= Hits(start, m', n, c)
    decreases m
  {
    if m > 0 { HitsGrow(start + 1, m - 1, m' - 1, n, c); }
  }

  lemma QuotientTurn(x: int, n: int)
    requires n > 0
    ensures (x + n) / n == x / n + 1
  {
    var q, r := x / n, x % n;
    assert (q + 1) * n == q * n + n;
    DivModUnique(x + n, n, q + 1, r);
  }

  // Fewer than a full turn hits at most once.
  lemma PartialTurn(start: nat, m: nat, n: nat, c: nat)
    requires c < n && m < n
    ensures m / n <= Hits(start, m, n, c) <= (m + n - 1) / n
  {
    HitsGrow(start, m, n, n, c);
    HitsAreBelow(start, n, n, c);
    BelowTurn(start, n, c);
    DivModUnique(m, n, 0, m);
    if m > 0 { DivModUnique(m + n - 1, n, 1, m - 1); }
  }

  // floor(m/n) <= hits <= ceil(m/n)
  lemma {:induction false} HitsAreFair(start: nat, m: nat, n: nat, c: nat)
    requires c < n
    ensures m / n <= Hits(start, m, n, c) <= (m + n - 1) / n
    decreases m
  {
    if m < n {
      PartialTurn(start, m, n, c);
    } else {
      HitsAreFair(start, m - n, n, c);
      HitsAreBelow(start, m, n, c);
      HitsAreBelow(start, m - n, n, c);
      BelowTurn(start + m - n, n, c);
      QuotientTurn(m - n, n);
      QuotientTurn(m - 1, n);
    }
  }

  lemma {:induction false} SteadyOps(s: PoolState, ops: seq<Op>, settings: Settings, ring: seq<Upstream>)
    requires Steady(s, ops, settings, ring)
    ensures forall i :: 0 <= i < |ops| ==> ops[i].Choose?
    decreases |ops|
  {
    if ops != [] { SteadyOps(Apply(s, ops[0], settings), ops[1..], settings, ring); }
  }

  lemma TimesOfCons(first: Option<Upstream>, rest: seq<Option<Upstream>>, u: Upstream)
    ensures Times([first] + rest, u) == (if first == Some(u) then 1 else 0) + Times(rest, u)
  {
  }

  lemma SteadyPick(s: PoolState, op: Op, settings: Settings, ring: seq<Upstream>)
    requires op.Choose? && ring != [] && RingFor(s, op, settings) == ring
    ensures Pick(Refreshed(s, op.refreshAt, op.fetched, settings.size), op.port, op.excluded, op.now)
         == Some(ring[s.index % |ring|])
    ensures Apply(s, op, settings).index == s.index + 1
  {
  }

  lemma {:induction false} TimesAreHits(s: PoolState, ops: seq<Op>, settings: Settings, ring: seq<Upstream>, c: nat)
    requires c < |ring| && (forall i, j :: 0 <= i < j < |ring| ==> ring[i] != ring[j])
    requires Steady(s, ops, settings, ring) && forall i :: 0 <= i < |ops| ==> ops[i].Choose?
    ensures Times(Picks(s, ops, settings), ring[c]) == Hits(s.index, |ops|, |ring|, c)
    decreases |ops|
  {
    if ops != [] {
      var t := Apply(s, ops[0], settings);
      TimesAreHits(t, ops[1..], settings, ring, c);
      SteadyPick(s, ops[0], settings, ring);
      TimesOfCons(Some(ring[s.index % |ring|]), Picks(t, ops[1..], settings), ring[c]);
    }
  }

  /** While the candidates stay the same, m consecutive choices from any starting
      index give each of the n candidates floor(m/n) or ceil(m/n) turns. */
  lemma RoundRobinIsFair(s: PoolState, ops: seq<Op>, settings: Settings, ring: seq<Upstream>, c: nat)
    requires c < |ring| && (forall i, j :: 0 <= i < j < |ring| ==> ring[i] != ring[j])
    requires Steady(s, ops, settings, ring)
    ensures forall i :: 0 <= i < |ops| ==> ops[i].Choose?
    ensures |ops| / |ring| <= Times(Picks(s, ops, settings), ring[c]) <= (|ops| + |ring| - 1) / |ring|
  {
    SteadyOps(s, ops, settings, ring);
    var n, m, hits := |ring|, |ops|, Hits(s.index, |ops|, |ring|, c);
    assert m / n <= hits <= (m + n - 1) / n by { HitsAreFair(s.index, m, n, c); }
    assert Times(Picks(s, ops, settings), ring[c]) == hits by { TimesAreHits(s, ops, settings, ring, c); }
  }

  // ---------- In the history of a pool ----------

  // What the operation at `i` returned.
  function ReturnedAt(history: seq<Op>, settings: Settings, i: nat): Option<Upstream>
    requires i < |history|
  {
    var s := Replay(history[..i], settings);
    match history[i]
    case Record(_, _, _, _) => None
    case Choose(refreshAt, fetched, now, port, excluded) =>
      Pick(Refreshed(s, refreshAt, fetched, settings.size), port, excluded, now)
  }

  // How often `u` was returned by the `m` operations from `k` on.
  function Turns(history: seq<Op>, settings: Settings, k: nat, m: nat, u: Upstream): nat
    requires k + m <= |history|
    decreases m
  {
    if m == 0 then 0
    else (if ReturnedAt(history, settings, k) == Some(u) then 1 else 0) + Turns(history, settings, k + 1, m - 1, u)
  }

  // These operations all choose from the same ring.
  ghost predicate SameRing(history: seq<Op>, settings: Settings, k: nat, m: nat, ring: seq<Upstream>)
    requires k + m <= |history|
  {
    forall i {:trigger history[i]} :: k <= i < k + m ==>
      history[i].Choose? && RingFor(Replay(history[..i], settings), history[i], settings) == ring
  }

  lemma TurnIsNext(history: seq<Op>, settings: Settings, k: nat, ring: seq<Upstream>)
    requires k < |history| && history[k].Choose? && ring != []
    requires RingFor(Replay(history[..k], settings), history[k], settings) == ring
    ensures ReturnedAt(history, settings, k) == Some(ring[Replay(history[..k], settings).index % |ring|])
    ensures Replay(history[..k + 1], settings).index == Replay(history[..k], settings).index + 1
  {
    SteadyPick(Replay(history[..k], settings), history[k], settings, ring);
    assert history[..k + 1][..k] == history[..k];
  }

  lemma {:induction false} TurnsAreHits(history: seq<Op>, settings: Settings, k: nat, m: nat, ring: seq<Upstream>,
                                        c: nat)
    requires k + m <= |history| && SameRing(history, settings, k, m, ring)
    requires c < |ring| && (forall i, j :: 0 <= i < j < |ring| ==> ring[i] != ring[j])
    ensures Turns(history, settings, k, m, ring[c]) == Hits(Replay(history[..k], settings).index, m, |ring|, c)
    decreases m
  {
    if m > 0 {
      assert history[k].Choose?;
      TurnIsNext(history, settings, k, ring);
      TurnsAreHits(history, settings, k + 1, m - 1, ring, c);
    }
  }

  /** So in the history of a real pool, whoever asked: while the ring stays the same, m
      consecutive questions give each of its n upstreams floor(m/n) or ceil(m/n) turns. */
  lemma HandlersShareFairly(history: seq<Op>, settings: Settings, k: nat, m: nat, ring: seq<Upstream>, c: nat)
    requires k + m <= |history| && SameRing(history, settings, k, m, ring)
    requires c < |ring| && (forall i, j :: 0 <= i < j < |ring| ==> ring[i] != ring[j])
    ensures m / |ring| <= Turns(history, settings, k, m, ring[c]) <= (m + |ring| - 1) / |ring|
  {
    TurnsAreHits(history, settings, k, m, ring, c);
    HitsAreFair(Replay(history[..k], settings).index, m, |ring|, c);
  }
}
