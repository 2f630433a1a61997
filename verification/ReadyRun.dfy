/** The gate can pass: a run of the pipeline after which it accepts, with the ages
    it reports. */
module ReadyRun {
  import opened Prelude
  import opened Text
  import opened Ranking
  import opened RankingTheorems
  import opened Selection
  import opened Pipeline
  import opened PipelineTheorems
  import opened Readiness

  lemma LeadsByOne(s: State, e: Event)
    requires Enabled(s, e)
    ensures Leads(s, Next(s, e))
  {
    assert [e][1..] == [];
    assert Legal(s, [e]) && After(s, [e]) == Next(s, e);
  }

  lemma {:induction false} RunsConcatenate(s: State, a: seq<Event>, b: seq<Event>)
    requires Legal(s, a) && Legal(After(s, a), b)
    ensures Legal(s, a + b) && After(s, a + b) == After(After(s, a), b)
    decreases a
  {
    if a == [] {
      assert a + b == b;
    } else {
      assert (a + b)[1..] == a[1..] + b;
      RunsConcatenate(Next(s, a[0]), a[1..], b);
    }
  }

  lemma LeadsOn(s: State, t: State, u: State)
    requires Leads(s, t) && Leads(t, u)
    ensures Leads(s, u)
  {
    var a :| Legal(s, a) && After(s, a) == t;
    var b :| Legal(t, b) && After(t, b) == u;
    RunsConcatenate(s, a, b);
  }

  lemma OneMore(s: State, t: State, e: Event)
    requires Leads(s, t) && Enabled(t, e)
    ensures Leads(s, Next(t, e))
  {
    LeadsByOne(t, e);
    LeadsOn(s, t, Next(t, e));
  }

  // A candidate that the gate can accept once it is probed.
  predicate Acceptable(raw: Entry, p: Probe) {
    && raw.protocol in ["http", "https", "socks4", "socks5"] && p.exitIp != "" && p.subnet.Some?
    && p.network.asnStatus == "verified" && Strip(p.network.asn) != ""
  }

  lemma Fetches(s: State, raw: Entry) returns (t: State)
    requires s.fetcher == FetcherIdle
    ensures Leads(s, t)
    ensures var raws := Snapshot(s.clock.Floor, [raw], None, None, None);
      t == s.(store := s.store[RawKey := raws], rawLog := s.rawLog + [raws])
  {
    LeadsByOne(s, Fetch([raw]));
    t := Next(s, Fetch([raw]));
    OneMore(s, t, PublishRaw);
    t := Next(t, PublishRaw);
  }

  // One validator cycle that finds its only candidate healthy.
  lemma Validates(s: State, raw: Entry, p: Probe) returns (t: State, v: Validation)
    requires s.validator == ValidatorIdle && RawKey in s.store && s.store[RawKey].entries == [raw]
    ensures Leads(s, t)
    ensures var streaks := PreviousStreaks(EntriesOf(Lookup(s.store, ValidatedKey)));
      var cycle := Cycle(|s.validatedLog|, s.clock.Floor, 1, 1);
      && v.snapshot == Snapshot(s.clock.Floor, [Measured(raw, p, StreakIn(streaks, raw.address) + 1)], Some(cycle),
                                Some(s.store[RawKey].generatedAt), None)
      && t == s.(store := s.store[ValidatedKey := v.snapshot], validatedLog := s.validatedLog + [v],
                 lastSuccess := Some(cycle))
  {
    t := Probes(s, raw, p);
    v, t := Publishes(s, t);
  }

  lemma Probes(s: State, raw: Entry, p: Probe) returns (t: State)
    requires s.validator == ValidatorIdle && RawKey in s.store && s.store[RawKey].entries == [raw]
    ensures Leads(s, t)
    ensures var streaks := PreviousStreaks(EntriesOf(Lookup(s.store, ValidatedKey)));
      t == s.(validator := Probed(s.store[RawKey], [Measured(raw, p, StreakIn(streaks, raw.address) + 1)]))
  {
    LeadsByOne(s, ReadRaw);
    t := Next(s, ReadRaw);
    OneMore(s, t, ReadPrevious);
    t := Next(t, ReadPrevious);
    OneMore(s, t, ProbeAll([Some(p)]));
    OneHealthy(raw, p, PreviousStreaks(EntriesOf(Lookup(s.store, ValidatedKey))));
    t := Next(t, ProbeAll([Some(p)]));
  }

  lemma OneHealthy(raw: Entry, p: Probe, streaks: map<string, int>)
    ensures HealthyEntries([raw], [Some(p)], streaks) == [Measured(raw, p, StreakIn(streaks, raw.address) + 1)]
  {
    assert [raw][..0] == [] && [Some(p)][..0] == [];
  }

  lemma Publishes(s0: State, s: State) returns (v: Validation, t: State)
    requires Leads(s0, s) && s.validator.Probed? && s.validator.entries != []
    ensures Leads(s0, t)
    ensures var p := s.validator;
      var cycle := Cycle(|s.validatedLog|, s.clock.Floor, |p.entries|, |p.raw.entries|);
      && v.snapshot == Snapshot(s.clock.Floor, p.entries, Some(cycle), Some(p.raw.generatedAt), None)
      && t == s.(validator := ValidatorIdle, store := s.store[ValidatedKey := v.snapshot],
                 validatedLog := s.validatedLog + [v], lastSuccess := Some(cycle))
  {
    OneMore(s0, s, Complete);
    t := Next(s, Complete);
    OneMore(s0, t, Stamp);
    t := Next(t, Stamp);
    v := t.validator.validation;
    OneMore(s0, t, PublishValidated);
    t := Next(t, PublishValidated);
    OneMore(s0, t, RecordSuccess);
    t := Next(t, RecordSuccess);
  }

  const ONE: Config := Config(1, 1, 0.0, 1.0, 0.0)

  // Ranking and selecting a single entry with a verified ASN.
  lemma RanksOne(e: Entry) returns (x: Entry)
    requires AsnKey(e).Some?
    ensures ReserveEntries([e], ONE) == [x] && ActiveEntries([e], ONE) == [x]
    ensures x == e.(baseScore := x.baseScore, score := x.score)
  {
    x := Scored(e, [], 1.0);
    assert [e][..0] == [];
    assert BaseScore(e) > 0.0;
    assert Eligible([e], 0.0) == [e];
    assert BestIndex([e], [], 1.0) == 0 && Without([e], 0) == [];
    assert Rank([e], [], 1.0, 1) == Rank([], [x], 1.0, 1) by { assert [] + [x] == [x]; }
    assert AsnKey(x) == AsnKey(e);
    assert Active([x], 1, UnknownLimit(1, 0.0)) == [x] + Active([], 0, UnknownLimit(1, 0.0)) by {
      assert [x][1..] == [];
    }
  }

  lemma Ranks(s: State, e: Entry) returns (t: State, x: Entry)
    requires s.ranker == RankerIdle && ValidatedKey in s.store && s.validatedLog != []
    requires s.store[ValidatedKey].entries == [e] && AsnKey(e).Some?
    ensures Leads(s, t) && x == e.(baseScore := x.baseScore, score := x.score)
    ensures var pool := Carried(s.store[ValidatedKey], [x], s.clock.Floor);
      && t.store == s.store[ReserveKey := pool][ActiveKey := pool][GatewayKey := pool]
      && t.clock == s.clock && t.validator == s.validator && t.lastSuccess == s.lastSuccess
      && t.validatedLog == s.validatedLog
  {
    x := RanksOne(e);
    LeadsByOne(s, ReadValidated);
    t := Next(s, ReadValidated);
    OneMore(s, t, RankAll(ONE));
    t := Next(t, RankAll(ONE));
    OneMore(s, t, PublishReserve);
    t := Next(t, PublishReserve);
    OneMore(s, t, PublishActive);
    t := Next(t, PublishActive);
    OneMore(s, t, PublishGateway);
    t := Next(t, PublishGateway);
  }

  lemma PoolsPass(pools: Pools, last: Cycle, start: int, x: Entry, e: Entry, limits: Limits)
    requires limits.raw >= 60 && limits.validated >= 60 && limits.reserve >= 60 && limits.active >= 60
    requires pools.raw.generatedAt == start && pools.raw.entries != []
    requires pools.validated.generatedAt == start + 10 && pools.validated.entries == [e]
    requires pools.validated.cycle == Some(last) && last.completedAt == start + 10 && last.healthy == 1
    requires pools.validated.sourceGeneratedAt == Some(start)
    requires pools.reserve == pools.active && pools.active.entries == [x] && pools.active.generatedAt == start
    requires pools.active.cycle.Some? && pools.active.cycle.value.completedAt == start
    requires pools.active.cycle.value.healthy == 1
    requires pools.active.sourceGeneratedAt == Some(start) && pools.active.rawSourceGeneratedAt == Some(start)
    requires Usable(x) && IdentityOf(x) == IdentityOf(e)
    ensures Assess(pools, Some(last), (start + 20) as real, limits) == Ok(Ages(10, 20))
    ensures Approved(pools, Some(last), (start + 20) as real, limits)
  {
    AssessApproves(pools, Some(last), (start + 20) as real, limits);
    assert Identities([x]) == {IdentityOf(x)} && Identities([e]) == {IdentityOf(e)};
    RoundIsNearest(10.0);
    RoundIsNearest(20.0);
  }

  /** From any fresh installation: a fetch, a validator cycle and a ranking now, another cycle ten
      seconds later, and ten seconds after that the gate accepts.  It reports that the last
      success is ten seconds old and the cycle behind the active pool twenty. */
  lemma GateCanPass(s: State, start: int, raw: Entry, p: Probe, limits: Limits) returns (t: State, gets: seq<Read>)
    requires Initial(s) && s.clock == start as real && Acceptable(raw, p)
    requires limits.raw >= 60 && limits.validated >= 60 && limits.reserve >= 60 && limits.active >= 60
    ensures Leads(s, t) && t.clock == (start + 20) as real
    ensures gets == [Read(Lookup(t.store, RawKey), t.clock), Read(Lookup(t.store, ValidatedKey), t.clock),
                     Read(Lookup(t.store, ReserveKey), t.clock), Read(Lookup(t.store, ActiveKey), t.clock)]
    ensures GateAccepts(gets, t.lastSuccess, t.clock, t.clock, Lookup(t.store, GatewayKey), p.exitIp, limits,
                        Some(start as real))
    ensures Assess(PoolsOf(gets), t.lastSuccess, t.clock, limits) == Ok(Ages(10, 20))
  {
    var x, e;
    t, x, e := TwoCycles(s, start, raw, p);
    gets := [Read(Lookup(t.store, RawKey), t.clock), Read(Lookup(t.store, ValidatedKey), t.clock),
             Read(Lookup(t.store, ReserveKey), t.clock), Read(Lookup(t.store, ActiveKey), t.clock)];
    PoolsPass(PoolsOf(gets), t.lastSuccess.value, start, x, e, limits);
    Accepted(gets, t.lastSuccess, start, x, limits);
  }

  // The run: the pools it leaves, the published upstream and the newly validated one.
  lemma TwoCycles(s: State, start: int, raw: Entry, p: Probe) returns (t: State, x: Entry, e: Entry)
    requires Initial(s) && s.clock == start as real && Acceptable(raw, p)
    ensures Leads(s, t) && t.clock == (start + 20) as real
    ensures Lookup(t.store, RawKey) == Some(Snapshot(start, [raw], None, None, None))
    ensures t.lastSuccess.Some? && t.lastSuccess.value.completedAt == start + 10 && t.lastSuccess.value.healthy == 1
    ensures Lookup(t.store, ValidatedKey) == Some(Snapshot(start + 10, [e], t.lastSuccess, Some(start), None))
    ensures exists c: Cycle ::
      (c.completedAt == start && c.healthy == 1
       && Lookup(t.store, ActiveKey) == Some(Snapshot(start, [x], Some(c), Some(start), Some(start))))
    ensures Lookup(t.store, ReserveKey) == Lookup(t.store, ActiveKey) == Lookup(t.store, GatewayKey)
    ensures Usable(x) && IdentityOf(x) == IdentityOf(e) && x.exitIp == p.exitIp
  {
    var t1 := Fetches(s, raw);
    var t2, v := Validates(t1, raw, p);
    LeadsOn(s, t1, t2);
    assert AsnKey(v.snapshot.entries[0]).Some?;
    var t3;
    t3, x := Ranks(t2, v.snapshot.entries[0]);
    LeadsOn(s, t2, t3);
    var t4 := Next(t3, Tick((start + 10) as real));
    OneMore(s, t3, Tick((start + 10) as real));
    var t5, v' := Validates(t4, raw, p);
    LeadsOn(s, t4, t5);
    t, e := Next(t5, Tick((start + 20) as real)), v'.snapshot.entries[0];
    OneMore(s, t5, Tick((start + 20) as real));
  }

  lemma Accepted(gets: seq<Read>, last: Option<Cycle>, start: int, x: Entry, limits: Limits)
    requires |gets| == 4 && (forall i :: 0 <= i < 4 ==> gets[i].data.Some? && gets[i].at == (start + 20) as real)
    requires limits.raw >= 60 && limits.validated >= 60 && limits.reserve >= 60 && limits.active >= 60
    requires Approved(PoolsOf(gets), last, (start + 20) as real, limits)
    requires gets[0].data.value.generatedAt == start && gets[1].data.value.generatedAt == start + 10
    requires gets[2].data == gets[3].data && gets[3].data.value.generatedAt == start
    requires gets[1].data.value.cycle.Some? && gets[1].data.value.cycle.value.completedAt == start + 10
    requires gets[3].data.value.cycle.Some? && gets[3].data.value.cycle.value.completedAt == start
    requires gets[3].data.value.entries == [x]
    ensures GateAccepts(gets, last, (start + 20) as real, (start + 20) as real, gets[3].data, x.exitIp, limits,
                        Some(start as real))
  {
    assert x in gets[3].data.value.entries;
  }
}
