/** The retry loop of `handle` (gateway/egress_relay.py) while other handlers use
    the same pool between any two of its steps. */
module Failover {
  import opened Prelude
  import opened Relay

  // How connecting ends: a caught error fails over, an IncompleteReadError does not.
  datatype Connect = Connected | Caught | Escaped

  datatype Attempt = Attempt(refreshAt: real, fetched: Fetched, now: real, connect: Connect, recordedAt: real)

  datatype Stop = Served(upstream: Upstream) | NoCandidate | AttemptsUsed | EscapedError

  ghost predicate DistinctKeys(us: seq<Upstream>) {
    forall i, j :: 0 <= i < j < |us| ==> KeyOf(us[i]) != KeyOf(us[j])
  }

  function KeysOf(us: seq<Upstream>): set<string> { set u | u in us :: KeyOf(u) }

  lemma TriedOneMore(order: seq<Upstream>, u: Upstream)
    requires DistinctKeys(order) && KeyOf(u) !in KeysOf(order)
    ensures DistinctKeys(order + [u]) && KeysOf(order + [u]) == KeysOf(order) + {KeyOf(u)}
  {
  }

  // Everything in the pool was tried by this request or is cooling down for its port.
  ghost predicate Exhausted(s: PoolState, tried: set<string>, port: int, now: real) {
    forall u :: Object(u) in s.entries ==> KeyOf(u) in tried || CoolingDown(s, KeyOf(u), port, now)
  }

  // The request's `i`-th question to the pool.
  function Question(order: seq<Upstream>, i: nat, port: int, plan: nat -> Attempt): Op
    requires i <= |order|
  {
    Choose(plan(i).refreshAt, plan(i).fetched, plan(i).now, port, KeysOf(order[..i]))
  }

  // The pool's history after `i` attempts: each is a question, then its outcome unless the
  // error escaped, with what other handlers did before each of the two.
  function AfterAttempts(start: seq<Op>, order: seq<Upstream>, i: nat, port: int, plan: nat -> Attempt,
                         others: nat -> seq<Op>): seq<Op>
    requires i <= |order|
  {
    if i == 0 then start
    else
      var asked := Asked(AfterAttempts(start, order, i - 1, port, plan, others), others(2 * i - 2),
                         Question(order, i - 1, port, plan));
      Told(asked, others(2 * i - 1), order[i - 1], port, plan(i - 1))
  }

  // The history after other handlers' operations and a question.
  function Asked(history: seq<Op>, others: seq<Op>, question: Op): seq<Op> { history + others + [question] }

  // The history after other handlers' operations and the attempt's outcome.
  function Told(history: seq<Op>, others: seq<Op>, u: Upstream, port: int, a: Attempt): seq<Op> {
    history + others + Outcome(u, port, a)
  }

  // What is recorded of an attempt.
  function Outcome(u: Upstream, port: int, a: Attempt): seq<Op> {
    if a.connect == Escaped then [] else [Record(u, port, a.connect == Connected, a.recordedAt)]
  }

  // `u` is the turn's element of the ring, an entry of the pool after `history` and the
  // refresh, and its latest outcome on the port is no failure younger than the cooldown.
  predicate RightlyChosen(u: Upstream, history: seq<Op>, settings: Settings, op: Op)
    requires op.Choose?
  {
    var s := Refreshed(Replay(history, settings), op.refreshAt, op.fetched, settings.size);
    var ring := Ring(s, op.port, op.excluded, op.now);
    && ring != [] && u == ring[s.index % |ring|]
    && Object(u) in s.entries && KeyOf(u) !in op.excluded
    && match LastOutcome(history, KeyOf(u), op.port)
       case None => true
       case Some((success, at)) => success || op.now >= at + settings.cooldown
  }

  // How the loop ended, given the pool then, every operation before it, up to its last attempt
  // and until now, and the upstreams tried, each rightly chosen.  All before the last failed.
  ghost predicate EndedWith(stop: Stop, s: PoolState, settings: Settings, start: seq<Op>, after: seq<Op>,
                            history: seq<Op>, order: seq<Upstream>, port: int, attempts: int,
                            plan: nat -> Attempt, others: nat -> seq<Op>)
  {
    var n := |order|;
    && n <= Max(0, attempts) && (forall i :: 0 <= i < n - 1 ==> plan(i).connect == Caught)
    && InProgress(start, RightChoice(settings), after, order, port, plan, others)
    && history == (if stop != NoCandidate then after else Asked(after, others(2 * n), Question(order, n, port, plan)))
    && match stop
       case NoCandidate =>
         n < attempts && Exhausted(s, KeysOf(order), port, plan(n).now) && (n > 0 ==> plan(n - 1).connect == Caught)
       case AttemptsUsed => n == Max(0, attempts) && (n > 0 ==> plan(n - 1).connect == Caught)
       case EscapedError => n > 0 && plan(n - 1).connect == Escaped
       case Served(u) => n > 0 && plan(n - 1).connect == Connected && order[n - 1] == u
  }

  // When `op` may return `u` after `history`.
  type Rule = (Upstream, seq<Op>, Op) -> bool

  function RightChoice(settings: Settings): Rule {
    (u: Upstream, history: seq<Op>, op: Op) => op.Choose? && RightlyChosen(u, history, settings, op)
  }

  ghost predicate AttemptIsRight(start: seq<Op>, rule: Rule, order: seq<Upstream>, i: nat, port: int,
                                 plan: nat -> Attempt, others: nat -> seq<Op>)
    requires i < |order|
  {
    rule(order[i], AfterAttempts(start, order, i, port, plan, others) + others(2 * i), Question(order, i, port, plan))
  }

  // What came before does not depend on the next upstream.
  lemma {:induction false} AttemptsExtend(start: seq<Op>, order: seq<Upstream>, u: Upstream, i: nat, port: int,
                                          plan: nat -> Attempt, others: nat -> seq<Op>)
    requires i <= |order|
    ensures AfterAttempts(start, order + [u], i, port, plan, others)
         == AfterAttempts(start, order, i, port, plan, others)
    ensures Question(order + [u], i, port, plan) == Question(order, i, port, plan)
  {
    assert (order + [u])[..i] == order[..i];
    if i > 0 { AttemptsExtend(start, order, u, i - 1, port, plan, others); }
  }

  lemma AttemptStaysRight(start: seq<Op>, rule: Rule, order: seq<Upstream>, u: Upstream, i: nat, port: int,
                          plan: nat -> Attempt, others: nat -> seq<Op>)
    requires i < |order| && AttemptIsRight(start, rule, order, i, port, plan, others)
    ensures AttemptIsRight(start, rule, order + [u], i, port, plan, others)
  {
    AttemptsExtend(start, order, u, i, port, plan, others);
    assert (order + [u])[i] == order[i];
  }

  lemma AttemptIsRightToo(start: seq<Op>, rule: Rule, order: seq<Upstream>, u: Upstream, port: int,
                          plan: nat -> Attempt, others: nat -> seq<Op>)
    requires rule(u, AfterAttempts(start, order, |order|, port, plan, others) + others(2 * |order|),
                  Question(order, |order|, port, plan))
    ensures AttemptIsRight(start, rule, order + [u], |order|, port, plan, others)
  {
    AttemptsExtend(start, order, u, |order|, port, plan, others);
    assert (order + [u])[|order|] == u;
  }

  ghost predicate AllRight(start: seq<Op>, rule: Rule, order: seq<Upstream>, port: int,
                           plan: nat -> Attempt, others: nat -> seq<Op>)
  {
    forall i :: 0 <= i < |order| ==> AttemptIsRight(start, rule, order, i, port, plan, others)
  }

  // Distinct upstreams, all rightly chosen, make up the history so far.
  ghost predicate InProgress(start: seq<Op>, rule: Rule, history: seq<Op>, order: seq<Upstream>, port: int,
                             plan: nat -> Attempt, others: nat -> seq<Op>)
  {
    && DistinctKeys(order) && AllRight(start, rule, order, port, plan, others)
    && history == AfterAttempts(start, order, |order|, port, plan, others)
  }

  lemma OneMoreAttempt(start: seq<Op>, rule: Rule, history: seq<Op>, order: seq<Upstream>, u: Upstream,
                       port: int, plan: nat -> Attempt, others: nat -> seq<Op>)
    requires InProgress(start, rule, history, order, port, plan, others)
    requires KeyOf(u) !in KeysOf(order) && rule(u, history + others(2 * |order|), Question(order, |order|, port, plan))
    ensures var n := |order|;
      InProgress(start, rule, Told(Asked(history, others(2 * n), Question(order, n, port, plan)), others(2 * n + 1),
                                       u, port, plan(n)), order + [u], port, plan, others)
    ensures KeysOf(order + [u]) == KeysOf(order) + {KeyOf(u)}
  {
    TriedOneMore(order, u);
    AllStayRight(start, rule, order, u, port, plan, others);
    AttemptsExtend(start, order, u, |order|, port, plan, others);
  }

  lemma AllStayRight(start: seq<Op>, rule: Rule, order: seq<Upstream>, u: Upstream, port: int,
                     plan: nat -> Attempt, others: nat -> seq<Op>)
    requires AllRight(start, rule, order, port, plan, others)
    requires rule(u, AfterAttempts(start, order, |order|, port, plan, others) + others(2 * |order|),
                  Question(order, |order|, port, plan))
    ensures AllRight(start, rule, order + [u], port, plan, others)
  {
    forall i | 0 <= i <= |order| ensures AttemptIsRight(start, rule, order + [u], i, port, plan, others) {
      if i < |order| { AttemptStaysRight(start, rule, order, u, i, port, plan, others); }
      else { AttemptIsRightToo(start, rule, order, u, port, plan, others); }
    }
  }

  lemma {:induction false} EligibleIsExact(s: PoolState, items: seq<Item>, port: int, excluded: set<string>,
                                           now: real, u: Upstream)
    ensures u in Eligible(s, items, port, excluded, now) <==>
      Object(u) in items && KeyOf(u) !in excluded && !CoolingDown(s, KeyOf(u), port, now)
  {
    if items != [] {
      EligibleIsExact(s, items[..|items| - 1], port, excluded, now, u);
      assert items == items[..|items| - 1] + [items[|items| - 1]];
    }
  }

  lemma {:induction false} CapableSplits(us: seq<Upstream>, capable: set<string>)
    ensures multiset(Capable(us, capable, true)) + multiset(Capable(us, capable, false)) == multiset(us)
  {
    if us != [] {
      CapableSplits(us[..|us| - 1], capable);
      assert us == us[..|us| - 1] + [us[|us| - 1]];
    }
  }

  /** The ring holds exactly the entries that are neither excluded nor cooling
      down for this port; the DNS preference only reorders it. */
  lemma RingIsExact(s: PoolState, port: int, excluded: set<string>, now: real, u: Upstream)
    ensures multiset(Ring(s, port, excluded, now)) == multiset(Eligible(s, s.entries, port, excluded, now))
    ensures u in Ring(s, port, excluded, now) <==>
      Object(u) in s.entries && KeyOf(u) !in excluded && !CoolingDown(s, KeyOf(u), port, now)
  {
    var us := Eligible(s, s.entries, port, excluded, now);
    EligibleIsExact(s, s.entries, port, excluded, now, u);
    CapableSplits(us, s.capable);
    assert u in Ring(s, port, excluded, now) <==> u in multiset(Ring(s, port, excluded, now));
    assert u in us <==> u in multiset(us);
  }

  // `us` are elements of `items`, in order, `at` says where.
  ghost predicate InOrder(us: seq<Upstream>, items: seq<Item>, at: seq<nat>) {
    && |at| == |us| && (forall k :: 0 <= k < |at| ==> at[k] < |items| && items[at[k]] == Object(us[k]))
    && (forall j, k :: 0 <= j < k < |at| ==> at[j] < at[k])
  }

  lemma {:induction false} EligibleInOrder(s: PoolState, items: seq<Item>, port: int, excluded: set<string>, now: real)
    returns (at: seq<nat>)
    ensures InOrder(Eligible(s, items, port, excluded, now), items, at)
  {
    at := [];
    if items != [] {
      var last := |items| - 1;
      at := EligibleInOrder(s, items[..last], port, excluded, now);
      if |Eligible(s, items, port, excluded, now)| > |at| { at := at + [last]; }
    }
  }

  lemma {:induction false} CapableInOrder(us: seq<Upstream>, items: seq<Item>, at: seq<nat>, capable: set<string>,
                                          wanted: bool)
    returns (at': seq<nat>)
    requires InOrder(us, items, at)
    ensures InOrder(Capable(us, capable, wanted), items, at')
    ensures forall k :: k in at' ==> k in at
  {
    at' := [];
    if us != [] {
      var last := |us| - 1;
      at' := CapableInOrder(us[..last], items, at[..last], capable, wanted);
      forall j | 0 <= j < |at'| ensures at'[j] < at[last] {
        assert at'[j] in at';
        var i :| 0 <= i < last && at[..last][i] == at'[j];
      }
      if (KeyOf(us[last]) in capable) == wanted { at' := at' + [at[last]]; }
    }
  }

  /** The ring keeps the published order: for DNS, first all upstreams known to be capable and
      then all others, both in the order they were published; otherwise all of them. */
  lemma RingKeepsOrder(s: PoolState, port: int, excluded: set<string>, now: real)
    returns (first: seq<Upstream>, rest: seq<Upstream>, at: seq<nat>, at': seq<nat>)
    ensures Ring(s, port, excluded, now) == first + rest
    ensures InOrder(first, s.entries, at) && InOrder(rest, s.entries, at')
    ensures if port == 53 then
        (forall u :: u in first ==> KeyOf(u) in s.capable) && (forall u :: u in rest ==> KeyOf(u) !in s.capable)
      else rest == []
  {
    var us := Eligible(s, s.entries, port, excluded, now);
    at := EligibleInOrder(s, s.entries, port, excluded, now);
    if port == 53 {
      first, rest := Capable(us, s.capable, true), Capable(us, s.capable, false);
      CapableAgree(us, s.capable, true);
      CapableAgree(us, s.capable, false);
      at' := CapableInOrder(us, s.entries, at, s.capable, false);
      at := CapableInOrder(us, s.entries, at, s.capable, true);
    } else {
      first, rest, at' := us, [], [];
    }
  }

  lemma {:induction false} CapableAgree(us: seq<Upstream>, capable: set<string>, wanted: bool)
    ensures forall i :: 0 <= i < |Capable(us, capable, wanted)| ==>
      (KeyOf(Capable(us, capable, wanted)[i]) in capable) == wanted
  {
    if us != [] { CapableAgree(us[..|us| - 1], capable, wanted); }
  }

  /** The DNS preference is only an order on the ring, and the index keeps
      rotating over all of it: a DNS request gets an upstream known to carry DNS
      over TCP exactly when the index points into the first part of the ring. */
  lemma DnsPreferenceIsPositional(s: PoolState, excluded: set<string>, now: real)
    requires Pick(s, 53, excluded, now).Some?
    ensures var us := Eligible(s, s.entries, 53, excluded, now);
      && |Ring(s, 53, excluded, now)| > 0
      && (KeyOf(Pick(s, 53, excluded, now).value) in s.capable
          <==> s.index % |Ring(s, 53, excluded, now)| < |Capable(us, s.capable, true)|)
  {
    var us := Eligible(s, s.entries, 53, excluded, now);
    CapableAgree(us, s.capable, true);
    CapableAgree(us, s.capable, false);
  }

  /** So with a capable upstream `a` eligible, the other one can still be chosen: a new
      pool serves one request for port 80 and then, less than three seconds later, a DNS one. */
  lemma CapableIsNotAlwaysPreferred(a: Upstream, b: Upstream, settings: Settings, fetched: Fetched)
    requires a.address != "" && b.address != "" && a.address != b.address && settings.size >= 2
    ensures var first := Choose(3.0, Fetched(Some([Object(a), Object(b)]), Some({a.address})), 3.0, 80, {});
      var s := Refreshed(Replay([first], settings), 4.0, fetched, settings.size);
      && KeyOf(a) in s.capable && KeyOf(b) !in s.capable
      && Ring(s, 53, {}, 4.0) == [a, b] && Pick(s, 53, {}, 4.0) == Some(b)
  {
    AfterFirstRequest(a, b, settings);
    var s := PoolState([Object(a), Object(b)], 1, map[], {KeyOf(a)}, 3.0);
    EligibleOfTwo(s, a, b, 53, 4.0);
    CapableOfTwo(a, b, s.capable);
    assert [a] + [b] == [a, b];
  }

  lemma AfterFirstRequest(a: Upstream, b: Upstream, settings: Settings)
    requires settings.size >= 2 && a.address != ""
    ensures var first := Choose(3.0, Fetched(Some([Object(a), Object(b)]), Some({a.address})), 3.0, 80, {});
      Replay([first], settings) == PoolState([Object(a), Object(b)], 1, map[], {KeyOf(a)}, 3.0)
  {
    var items := [Object(a), Object(b)];
    var first := Choose(3.0, Fetched(Some(items), Some({KeyOf(a)})), 3.0, 80, {});
    var filled := PoolState(items, 0, map[], {KeyOf(a)}, 3.0);
    assert [first][..0] == [] && Replay([], settings) == Start();
    assert items[..Min(settings.size, 2)] == items;
    assert Refreshed(Start(), 3.0, first.fetched, settings.size) == filled;
    EligibleOfTwo(filled, a, b, 80, 3.0);
    assert Ring(filled, 80, {}, 3.0) == [a, b];
    assert Replay([first], settings) == Apply(Start(), first, settings);
  }

  lemma CapableOfTwo(a: Upstream, b: Upstream, capable: set<string>)
    requires KeyOf(a) in capable && KeyOf(b) !in capable
    ensures Capable([a, b], capable, true) == [a] && Capable([a, b], capable, false) == [b]
  {
    var us := [a, b];
    assert us[..1] == [a] && us[..1][..0] == [];
    assert Capable(us[..1], capable, true) == [a] && Capable(us[..1], capable, false) == [];
  }

  lemma EligibleOfTwo(s: PoolState, a: Upstream, b: Upstream, port: int, now: real)
    requires s.failures == map[] && now >= 0.0
    ensures Eligible(s, [Object(a), Object(b)], port, {}, now) == [a, b]
  {
    var items := [Object(a), Object(b)];
    assert items[..1] == [Object(a)] && items[..1][..0] == [];
    assert Eligible(s, items[..1], port, {}, now) == [a];
  }

  lemma EmptyRingExhausts(s: PoolState, port: int, tried: set<string>, now: real)
    requires Ring(s, port, tried, now) == []
    ensures Exhausted(s, tried, port, now)
  {
    forall u | Object(u) in s.entries ensures KeyOf(u) in tried || CoolingDown(s, KeyOf(u), port, now) {
      RingIsExact(s, port, tried, now, u);
    }
  }

  lemma RefreshAgain(s: PoolState, at: real, fetched: Fetched, port: int, excluded: set<string>,
                     now: real, settings: Settings)
    requires Pick(Refreshed(s, at, fetched, settings.size), port, excluded, now).None?
    ensures Apply(s, Choose(at, fetched, now, port, excluded), settings) == Refreshed(s, at, fetched, settings.size)
    ensures Ring(Refreshed(s, at, fetched, settings.size), port, excluded, now) == []
  {
  }

  /** The loop: distinct keys, at most `attempts` of them, each rightly chosen at its time,
      and no early give-up.  When it stops without having used its attempts, then in the pool
      as it is at that moment every entry was tried or is cooling down for this port. */
  method TryUpstreams(pool: Pool, port: int, attempts: int, plan: nat -> Attempt, others: nat -> seq<Op>)
    returns (stop: Stop, tried: set<string>, ghost order: seq<Upstream>, ghost after: seq<Op>)
    requires pool.Valid()
    modifies pool
    ensures pool.Valid() && tried == KeysOf(order)
    ensures EndedWith(stop, pool.State(), pool.settings, old(pool.history), after, pool.history, order, port,
                      attempts, plan, others)
  {
    tried, order := {}, [];
    ghost var start := pool.history;
    var i := 0;
    while i < attempts
      invariant 0 <= i <= Max(0, attempts) && |order| == i
      invariant pool.Valid() && tried == KeysOf(order)
      invariant InProgress(start, RightChoice(pool.settings), pool.history, order, port, plan, others)
      invariant forall j :: 0 <= j < i ==> plan(j).connect == Caught
    {
      after := pool.history;
      var candidate := TryNext(pool, i, port, tried, plan, others, start, order);
      if candidate.None? {
        stop := NoCandidate;
        return;
      }
      var u := candidate.value;
      tried, order, after := tried + {KeyOf(u)}, order + [u], pool.history;
      if plan(i).connect == Escaped { stop := EscapedError; return; }
      if plan(i).connect == Connected { stop := Served(u); return; }
      i := i + 1;
    }
    stop, after := AttemptsUsed, pool.history;
  }

  // One turn of the loop.
  method TryNext(pool: Pool, i: nat, port: int, tried: set<string>, plan: nat -> Attempt, others: nat -> seq<Op>,
                 ghost start: seq<Op>, ghost order: seq<Upstream>)
    returns (candidate: Option<Upstream>)
    requires pool.Valid() && i == |order| && tried == KeysOf(order)
    requires InProgress(start, RightChoice(pool.settings), pool.history, order, port, plan, others)
    modifies pool
    ensures pool.Valid()
    ensures match candidate
      case None =>
        && pool.history == Asked(old(pool.history), others(2 * i), Question(order, i, port, plan))
        && Exhausted(pool.State(), tried, port, plan(i).now)
      case Some(u) =>
        && InProgress(start, RightChoice(pool.settings), pool.history, order + [u], port, plan, others)
        && KeysOf(order + [u]) == tried + {KeyOf(u)}
  {
    assert Question(order, i, port, plan) == Choose(plan(i).refreshAt, plan(i).fetched, plan(i).now, port, tried) by {
      assert order[..i] == order;
    }
    candidate := Step(pool, plan(i), port, tried, others(2 * i));
    if candidate.Some? {
      OneMoreAttempt(start, RightChoice(pool.settings), old(pool.history), order, candidate.value, port, plan, others);
      ConnectTo(pool, candidate.value, plan(i), port, others(2 * i + 1));
    }
  }

  // `choose`, after whatever the other handlers did.
  method Step(pool: Pool, a: Attempt, port: int, tried: set<string>, others: seq<Op>)
    returns (candidate: Option<Upstream>)
    requires pool.Valid()
    modifies pool
    ensures pool.Valid()
    ensures pool.history == Asked(old(pool.history), others, Choose(a.refreshAt, a.fetched, a.now, port, tried))
    ensures candidate.Some? ==> KeyOf(candidate.value) !in tried
    ensures candidate.Some? ==>
      RightChoice(pool.settings)(candidate.value, old(pool.history) + others,
                                 Choose(a.refreshAt, a.fetched, a.now, port, tried))
    ensures candidate.None? ==> Exhausted(pool.State(), tried, port, a.now)
  {
    pool.Interleave(others);
    ghost var history, before := pool.history, pool.State();
    candidate := pool.Choose(a.refreshAt, a.fetched, a.now, port, tried);
    if candidate.None? {
      RefreshAgain(before, a.refreshAt, a.fetched, port, tried, a.now, pool.settings);
      EmptyRingExhausts(pool.State(), port, tried, a.now);
    } else {
      PickIsRight(history, pool.settings, Choose(a.refreshAt, a.fetched, a.now, port, tried));
    }
  }

  // Connecting takes time; an outcome is recorded unless the error escapes.
  method ConnectTo(pool: Pool, u: Upstream, a: Attempt, port: int, others: seq<Op>)
    requires pool.Valid()
    modifies pool
    ensures pool.Valid()
    ensures pool.history == Told(old(pool.history), others, u, port, a)
  {
    pool.Interleave(others);
    if a.connect != Escaped { pool.RecordResult(u, port, a.connect == Connected, a.recordedAt); }
  }

  lemma PickIsRight(history: seq<Op>, settings: Settings, op: Op)
    requires op.Choose?
    requires var s := Refreshed(Replay(history, settings), op.refreshAt, op.fetched, settings.size);
      Pick(s, op.port, op.excluded, op.now).Some?
    ensures var s := Refreshed(Replay(history, settings), op.refreshAt, op.fetched, settings.size);
      RightlyChosen(Pick(s, op.port, op.excluded, op.now).value, history, settings, op)
  {
    var s := Refreshed(Replay(history, settings), op.refreshAt, op.fetched, settings.size);
    PickIsEligible(s, op.port, op.excluded, op.now);
    FailuresAreHistory(history, settings, KeyOf(Pick(s, op.port, op.excluded, op.now).value), op.port);
  }

  lemma PickIsEligible(s: PoolState, port: int, excluded: set<string>, now: real)
    requires Pick(s, port, excluded, now).Some?
    ensures var u := Pick(s, port, excluded, now).value;
      Object(u) in s.entries && KeyOf(u) !in excluded && !CoolingDown(s, KeyOf(u), port, now)
  {
    var u := Pick(s, port, excluded, now).value;
    assert u in Ring(s, port, excluded, now);
    RingIsExact(s, port, excluded, now, u);
  }

  // How the established tunnel ends.
  datatype Tunnel = Closed | Broken

  /** The whole request: the statuses written to the client, in order.  Line 243
      also catches errors that come after the 200. */
  method Handle(pool: Pool, port: Result<int>, attempts: int, plan: nat -> Attempt, others: nat -> seq<Op>,
                tunnel: Tunnel)
    returns (replies: seq<int>, ghost stop: Stop, ghost order: seq<Upstream>, ghost after: seq<Op>)
    requires pool.Valid()
    modifies pool
    ensures pool.Valid()
    ensures match port
      case Err(_) => replies == [502] && pool.history == old(pool.history)
      case Ok(p) =>
        && EndedWith(stop, pool.State(), pool.settings, old(pool.history), after, pool.history, order, p, attempts,
                     plan, others)
        && replies == if !stop.Served? then [502] else if tunnel == Closed then [200] else [200, 502]
  {
    stop, order, after := AttemptsUsed, [], pool.history;
    replies := [502];
    if port.Err? { return; }
    var outcome, _, tried, known := TryUpstreams(pool, port.value, attempts, plan, others);
    stop, order, after := outcome, tried, known;
    if !outcome.Served? { return; }
    replies := [200];
    if tunnel == Broken { replies := replies + [502]; }
  }

  // ---------- The cooldown map is the outcome history ----------

  // The latest outcome recorded for this key and port: success or not, and when.
  function LastOutcome(history: seq<Op>, key: string, port: int): Option<(bool, real)> {
    if history == [] then None
    else
      match history[|history| - 1]
      case Choose(_, _, _, _, _) => LastOutcome(history[..|history| - 1], key, port)
      case Record(u, p, success, now) =>
        if KeyOf(u) == key && p == port then Some((success, now))
        else LastOutcome(history[..|history| - 1], key, port)
  }

  lemma {:induction false} FailuresAreHistory(history: seq<Op>, settings: Settings, key: string, port: int)
    ensures var f := Replay(history, settings).failures;
      match LastOutcome(history, key, port)
      case None => (key, port) !in f
      case Some((success, at)) => if success then (key, port) !in f
                                  else (key, port) in f && f[(key, port)] == at + settings.cooldown
  {
    if history != [] { FailuresAreHistory(history[..|history| - 1], settings, key, port); }
  }

  /** Under any interleaving, a key cools down for a port exactly while its latest
      outcome on that very port is a failure younger than the cooldown; outcomes
      on other ports or of other keys do not matter. */
  lemma {:induction false} CooldownIsExact(history: seq<Op>, settings: Settings, key: string, port: int, now: real)
    requires now >= 0.0
    ensures CoolingDown(Replay(history, settings), key, port, now) <==>
      (match LastOutcome(history, key, port)
       case None => false
       case Some((success, at)) => !success && now < at + settings.cooldown)
  {
    FailuresAreHistory(history, settings, key, port);
  }

  /** So an upstream that failed on a port at `at` is never chosen for it before
      `at + cooldown`, unless it succeeded there in between. */
  lemma NeverChosenWhileCooling(history: seq<Op>, settings: Settings, refreshAt: real, fetched: Fetched, now: real,
                                port: int, excluded: set<string>, at: real)
    requires now >= 0.0
    requires var picked := Pick(Refreshed(Replay(history, settings), refreshAt, fetched, settings.size),
                                port, excluded, now);
      picked.Some? && LastOutcome(history, KeyOf(picked.value), port) == Some((false, at))
    ensures now >= at + settings.cooldown
  {
    var s := Refreshed(Replay(history, settings), refreshAt, fetched, settings.size);
    PickIsEligible(s, port, excluded, now);
    FailuresAreHistory(history, settings, KeyOf(Pick(s, port, excluded, now).value), port);
  }

  // ---------- What refreshes and DNS successes leave behind ----------

  // The latest refresh that brought a list: what it brought.
  function LastList(history: seq<Op>): seq<Item> {
    if history == [] then []
    else
      var before, op := history[..|history| - 1], history[|history| - 1];
      if op.Choose? && op.fetched.entries.Some? && op.refreshAt >= LastRefresh(before) + 3.0 then
        op.fetched.entries.value
      else LastList(before)
  }

  // When the pool last asked Redis, with or without an answer.
  function LastRefresh(history: seq<Op>): real {
    if history == [] then 0.0
    else
      var before, op := LastRefresh(history[..|history| - 1]), history[|history| - 1];
      if op.Choose? && op.refreshAt >= before + 3.0 then op.refreshAt else before
  }

  // Known to carry DNS: a success on port 53, or in the set that a refresh brought, whichever
  // came last.
  function KnownCapable(history: seq<Op>, key: string): bool {
    if history == [] then false
    else
      var before, op := history[..|history| - 1], history[|history| - 1];
      match op
      case Record(u, port, success, _) => (port == 53 && success && KeyOf(u) == key) || KnownCapable(before, key)
      case Choose(at, fetched, _, _, _) =>
        if fetched.capable.Some? && at >= LastRefresh(before) + 3.0 then key in fetched.capable.value
        else KnownCapable(before, key)
  }

  // How many questions got an answer.
  function Answered(history: seq<Op>, settings: Settings): nat {
    if history == [] then 0
    else
      var before, op := history[..|history| - 1], history[|history| - 1];
      Answered(before, settings)
      + if op.Choose? && SomebodyEligible(Replay(before, settings), op, settings) then 1 else 0
  }

  // Some entry is neither excluded nor cooling down.
  predicate SomebodyEligible(s: PoolState, op: Op, settings: Settings)
    requires op.Choose?
  {
    var t := Refreshed(s, op.refreshAt, op.fetched, settings.size);
    exists k :: 0 <= k < |t.entries| && t.entries[k].Object? && KeyOf(t.entries[k].upstream) !in op.excluded
      && !CoolingDown(t, KeyOf(t.entries[k].upstream), op.port, op.now)
  }

  lemma IndexCountsAnswers(history: seq<Op>, settings: Settings)
    requires history != [] && history[|history| - 1].Choose?
    ensures var op := history[|history| - 1];
      var before := Replay(history[..|history| - 1], settings);
      Replay(history, settings).index == before.index + if SomebodyEligible(before, op, settings) then 1 else 0
  {
    var op := history[|history| - 1];
    var t := Refreshed(Replay(history[..|history| - 1], settings), op.refreshAt, op.fetched, settings.size);
    if SomebodyEligible(Replay(history[..|history| - 1], settings), op, settings) {
      var k :| 0 <= k < |t.entries| && t.entries[k].Object? && KeyOf(t.entries[k].upstream) !in op.excluded
        && !CoolingDown(t, KeyOf(t.entries[k].upstream), op.port, op.now);
      RingIsExact(t, op.port, op.excluded, op.now, t.entries[k].upstream);
    } else if Ring(t, op.port, op.excluded, op.now) != [] {
      RingIsExact(t, op.port, op.excluded, op.now, Ring(t, op.port, op.excluded, op.now)[0]);
    }
  }

  /** In every reachable pool the entries are the first `size` of the latest list any refresh
      brought, refreshes are at least three seconds apart, the index counts the questions that
      had an eligible entry, and exactly the keys that a DNS success or the latest published
      set made known are preferred. */
  lemma {:induction false} PoolIsItsHistory(history: seq<Op>, settings: Settings, key: string)
    ensures var s, list := Replay(history, settings), LastList(history);
      && s.entries == list[..Min(settings.size, |list|)]
      && s.lastRefresh == LastRefresh(history) && s.index == Answered(history, settings)
      && (key in s.capable <==> KnownCapable(history, key))
  {
    if history != [] {
      PoolIsItsHistory(history[..|history| - 1], settings, key);
      if history[|history| - 1].Choose? { IndexCountsAnswers(history, settings); }
    }
  }
}
