/** The readiness gate (deploy/pool_health.py, deploy/readiness.py) and its
    soundness against the pipeline it observes while the pipeline keeps moving. */
module Readiness {
  import opened Prelude
  import opened Ranking
  import opened Pipeline
  import opened PipelineTheorems

  datatype Limits = Limits(raw: int, validated: int, reserve: int, active: int)

  datatype Pools = Pools(raw: Snapshot, validated: Snapshot, reserve: Snapshot, active: Snapshot)

  datatype Ages = Ages(lastSuccess: int, activeCycle: int)

  predicate Fresh(now: real, at: int, limit: int) { -5.0 <= now - at as real <= limit as real }

  predicate PoolFresh(p: Snapshot, now: real, limit: int) { p.entries != [] && Fresh(now, p.generatedAt, limit) }

  predicate CycleFresh(c: Option<Cycle>, now: real, limits: Limits) {
    c.Some? && c.value.healthy >= 1 && Fresh(now, c.value.completedAt, limits.validated)
  }

  predicate RawLineageFresh(rawTime: Option<int>, now: real, limits: Limits) {
    rawTime.Some? && Fresh(now, rawTime.value, limits.raw + limits.validated)
  }

  predicate RankedLineageFresh(p: Snapshot, now: real, limits: Limits) {
    && CycleFresh(p.cycle, now, limits) && RawLineageFresh(p.rawSourceGeneratedAt, now, limits)
    && p.sourceGeneratedAt.Some? && Fresh(now, p.sourceGeneratedAt.value, limits.validated)
  }

  // `subnet` is Some exactly when the exit address parses.
  predicate Usable(e: Entry) {
    e.exitIp != "" && e.subnet.Some? && e.protocol in ["http", "https", "socks4", "socks5"] && e.successStreak >= 1
  }

  function Assess(pools: Pools, lastSuccess: Option<Cycle>, now: real, limits: Limits): Result<Ages> {
    if !PoolFresh(pools.raw, now, limits.raw) || !PoolFresh(pools.validated, now, limits.validated)
      || !PoolFresh(pools.reserve, now, limits.reserve)
      || !PoolFresh(pools.active, now, limits.active) then Err(ValueError)
    else if !CycleFresh(lastSuccess, now, limits) then Err(ValueError)
    else if !CycleFresh(pools.validated.cycle, now, limits)
      || !RawLineageFresh(pools.validated.sourceGeneratedAt, now, limits) then Err(ValueError)
    else if !RankedLineageFresh(pools.reserve, now, limits) then Err(ValueError)
    else if !RankedLineageFresh(pools.active, now, limits) then Err(ValueError)
    else if !(Identities(pools.active.entries) <= Identities(pools.reserve.entries))
      || !(Identities(pools.active.entries) <= Identities(pools.validated.entries)) then Err(ValueError)
    else if exists e :: e in pools.active.entries && !Usable(e) then Err(ValueError)
    else Ok(Ages(RoundHalfEven(now - lastSuccess.value.completedAt as real),
                 RoundHalfEven(now - pools.active.cycle.value.completedAt as real)))
  }

  // ---------- What the gate promises ----------

  // Not older than `limit` seconds, and not more than five seconds in the future.
  predicate InTime(at: int, now: real, limit: int) { (at - 5) as real <= now && now <= (at + limit) as real }

  predicate RealCycle(c: Option<Cycle>, now: real, limits: Limits) {
    c.Some? && c.value.healthy >= 1 && InTime(c.value.completedAt, now, limits.validated)
  }

  predicate InTimeIfKnown(at: Option<int>, now: real, limit: int) { at.Some? && InTime(at.value, now, limit) }

  // The same upstream, credentials and exit.
  predicate Same(e: Entry, f: Entry) {
    e.address == f.address && e.credentialRef == f.credentialRef && e.exitIp == f.exitIp
  }

  // What `assess` must find at `now`.
  ghost predicate Approved(p: Pools, lastSuccess: Option<Cycle>, now: real, limits: Limits) {
    && p.raw.entries != [] && InTime(p.raw.generatedAt, now, limits.raw)
    && p.validated.entries != [] && InTime(p.validated.generatedAt, now, limits.validated)
    && p.reserve.entries != [] && InTime(p.reserve.generatedAt, now, limits.reserve)
    && p.active.entries != [] && InTime(p.active.generatedAt, now, limits.active)
    && RealCycle(lastSuccess, now, limits) && RealCycle(p.validated.cycle, now, limits)
    && RealCycle(p.reserve.cycle, now, limits) && RealCycle(p.active.cycle, now, limits)
    && InTimeIfKnown(p.validated.sourceGeneratedAt, now, limits.raw + limits.validated)
    && InTimeIfKnown(p.reserve.rawSourceGeneratedAt, now, limits.raw + limits.validated)
    && InTimeIfKnown(p.active.rawSourceGeneratedAt, now, limits.raw + limits.validated)
    && InTimeIfKnown(p.reserve.sourceGeneratedAt, now, limits.validated)
    && InTimeIfKnown(p.active.sourceGeneratedAt, now, limits.validated)
    && (forall e {:trigger MemberApproved(e, p)} :: e in p.active.entries ==> MemberApproved(e, p))
  }

  ghost predicate MemberApproved(e: Entry, p: Pools) {
    && (exists f :: f in p.reserve.entries && Same(e, f)) && (exists f :: f in p.validated.entries && Same(e, f))
    && e.exitIp != "" && e.subnet.Some? && e.successStreak >= 1
    && (e.protocol == "http" || e.protocol == "https" || e.protocol == "socks4" || e.protocol == "socks5")
  }

  // One `redis-cli GET` and the clock right after it.
  datatype Read = Read(data: Option<Snapshot>, at: real)

  // What a pool's own check demands, at the time it was read and, after a restart, since then.
  ghost predicate PoolPasses(r: Read, limit: int, since: Option<real>, isRaw: bool) {
    && r.data.Some? && r.data.value.entries != [] && InTime(r.data.value.generatedAt, r.at, limit)
    && (since.Some? ==>
          && r.data.value.generatedAt as real >= since.value
          && (!isRaw ==> CompletedAt(r.data.value) as real >= since.value))
  }

  // `data.get('validator_cycle', {}).get('completed_at', 0)`
  function CompletedAt(s: Snapshot): int { match s.cycle case None => 0 case Some(c) => c.completedAt }

  function LimitOf(limits: Limits, i: nat): int {
    if i == 0 then limits.raw else if i == 1 then limits.validated else if i == 2 then limits.reserve else limits.active
  }

  function AddressList(es: seq<Entry>): seq<string> { seq(|es|, i requires 0 <= i < |es| => es[i].address) }

  function PoolsOf(gets: seq<Read>): Pools
    requires |gets| == 4 && forall i :: 0 <= i < 4 ==> gets[i].data.Some?
  {
    Pools(gets[0].data.value, gets[1].data.value, gets[2].data.value, gets[3].data.value)
  }

  ghost predicate GateAccepts(gets: seq<Read>, lastSuccess: Option<Cycle>, assessAt: real, sourceAt: real,
                              gateway: Option<Snapshot>, echoPeer: string, limits: Limits, since: Option<real>)
    requires |gets| == 4
  {
    && PoolPasses(gets[0], limits.raw, since, true) && PoolPasses(gets[1], limits.validated, since, false)
    && PoolPasses(gets[2], limits.reserve, since, false) && PoolPasses(gets[3], limits.active, since, false)
    && var p := PoolsOf(gets);
      && Approved(p, lastSuccess, assessAt, limits)
      && InTimeIfKnown(p.validated.sourceGeneratedAt, sourceAt, limits.raw + limits.validated)
      && gateway.Some? && |gateway.value.entries| == |p.active.entries|
      && (forall i :: 0 <= i < |p.active.entries| ==> gateway.value.entries[i].address == p.active.entries[i].address)
      && (exists e :: e in p.active.entries && e.exitIp == echoPeer)
  }

  // The ages it reports, rounded to whole seconds.
  ghost predicate AgesAre(ages: Ages, pools: Pools, lastSuccess: Cycle, now: real)
    requires pools.active.cycle.Some?
  {
    && -0.5 <= (lastSuccess.completedAt + ages.lastSuccess) as real - now <= 0.5
    && -0.5 <= (pools.active.cycle.value.completedAt + ages.activeCycle) as real - now <= 0.5
  }

  /** `assess` accepts exactly what is approved. */
  lemma AssessApproves(p: Pools, lastSuccess: Option<Cycle>, now: real, limits: Limits)
    ensures var r := Assess(p, lastSuccess, now, limits);
      && (r.Ok? <==> Approved(p, lastSuccess, now, limits))
      && (r.Ok? ==> AgesAre(r.value, p, lastSuccess.value, now))
      && (r.Err? ==> r == Err(ValueError))
  {
    MembersApprove(p);
    if lastSuccess.Some? { RoundIsNearest(now - lastSuccess.value.completedAt as real); }
    if p.active.cycle.Some? { RoundIsNearest(now - p.active.cycle.value.completedAt as real); }
  }

  lemma MembersApprove(p: Pools)
    ensures (forall e {:trigger MemberApproved(e, p)} :: e in p.active.entries ==> MemberApproved(e, p)) <==>
      && Identities(p.active.entries) <= Identities(p.reserve.entries)
      && Identities(p.active.entries) <= Identities(p.validated.entries)
      && !(exists e :: e in p.active.entries && !Usable(e))
  {
    SubsetIsSame(p.active.entries, p.reserve.entries);
    SubsetIsSame(p.active.entries, p.validated.entries);
    if forall e {:trigger MemberApproved(e, p)} :: e in p.active.entries ==> MemberApproved(e, p) {
      forall e | e in p.active.entries
        ensures exists f :: f in p.reserve.entries && Same(e, f)
        ensures exists f :: f in p.validated.entries && Same(e, f)
        ensures Usable(e)
      {
        assert MemberApproved(e, p);
      }
    }
  }

  lemma SubsetIsSame(es: seq<Entry>, fs: seq<Entry>)
    ensures Identities(es) <= Identities(fs) <==> forall e :: e in es ==> exists f :: f in fs && Same(e, f)
  {
    if Identities(es) <= Identities(fs) {
      forall e | e in es ensures exists f :: f in fs && Same(e, f) {
        assert IdentityOf(e) in Identities(es);
        var f :| f in fs && IdentityOf(f) == IdentityOf(e);
        assert Same(e, f);
      }
    }
    if forall e :: e in es ==> exists f :: f in fs && Same(e, f) {
      forall x | x in Identities(es) ensures x in Identities(fs) {
        var e :| e in es && IdentityOf(e) == x;
        var f :| f in fs && Same(e, f);
        assert IdentityOf(f) == x;
      }
    }
  }

  // ---------- The gate ----------

  // `check`: the pools are read one at a time, each judged on its own clock.
  method Check(gets: seq<Read>, lastSuccess: Option<Cycle>, assessAt: real, sourceAt: real,
               gateway: Option<Snapshot>, echoPeer: string, limits: Limits, since: Option<real>)
    returns (r: Result<Ages>)
    requires |gets| == 4  // raw, validated, reserve, active, in this order
    ensures r.Ok? <==> GateAccepts(gets, lastSuccess, assessAt, sourceAt, gateway, echoPeer, limits, since)
    ensures r.Ok? ==> AgesAre(r.value, PoolsOf(gets), lastSuccess.value, assessAt)
  {
    var read := ReadPools(gets, limits, since);
    if read.Err? { return Err(read.error); }
    var pools := read.value;
    r := Assess(pools, lastSuccess, assessAt, limits);
    AssessApproves(pools, lastSuccess, assessAt, limits);
    if r.Err? { return; }
    if !RawLineageFresh(pools.validated.sourceGeneratedAt, sourceAt, limits) { return Err(RuntimeError); }
    if gateway.None? { return Err(ValueError); }
    if AddressList(gateway.value.entries) != AddressList(pools.active.entries) {
      SameAddresses(gateway.value.entries, pools.active.entries);
      return Err(RuntimeError);
    }
    SameAddresses(gateway.value.entries, pools.active.entries);
    if !(exists e :: e in pools.active.entries && e.exitIp == echoPeer) { return Err(RuntimeError); }
  }

  lemma SameAddresses(es: seq<Entry>, fs: seq<Entry>)
    ensures AddressList(es) == AddressList(fs) <==>
      |es| == |fs| && forall i :: 0 <= i < |fs| ==> es[i].address == fs[i].address
  {
    if AddressList(es) == AddressList(fs) {
      assert |AddressList(es)| == |AddressList(fs)|;
      forall i | 0 <= i < |fs| ensures es[i].address == fs[i].address {
        assert AddressList(es)[i] == AddressList(fs)[i];
      }
    }
  }

  // The first loop: each pool against its own limit, on its own clock.
  method ReadPools(gets: seq<Read>, limits: Limits, since: Option<real>) returns (r: Result<Pools>)
    requires |gets| == 4
    ensures r.Ok? <==>
      && PoolPasses(gets[0], limits.raw, since, true) && PoolPasses(gets[1], limits.validated, since, false)
      && PoolPasses(gets[2], limits.reserve, since, false) && PoolPasses(gets[3], limits.active, since, false)
    ensures r.Ok? ==> r.value == PoolsOf(gets)
  {
    var snapshots: seq<Snapshot> := [];
    for i := 0 to 4
      invariant |snapshots| == i
      invariant forall k :: 0 <= k < i ==>
        PoolPasses(gets[k], LimitOf(limits, k), since, k == 0) && snapshots[k] == gets[k].data.value
    {
      if gets[i].data.None? { return Err(ValueError); }
      var data := gets[i].data.value;
      if data.entries == [] { return Err(RuntimeError); }
      if !Fresh(gets[i].at, data.generatedAt, LimitOf(limits, i)) { return Err(RuntimeError); }
      if since.Some? && (data.generatedAt as real) < since.value { return Err(RuntimeError); }
      if since.Some? && i != 0 && (CompletedAt(data) as real) < since.value { return Err(RuntimeError); }
      snapshots := snapshots + [data];
    }
    return Ok(Pools(snapshots[0], snapshots[1], snapshots[2], snapshots[3]));
  }

  // ---------- Soundness under interleaving ----------

  // Some run leads from `s` to `t`.
  ghost predicate Leads(s: State, t: State) { exists es :: Legal(s, es) && After(s, es) == t }

  lemma LeadsKeeps(s: State, t: State)
    requires Inv(s) && Leads(s, t)
    ensures Inv(t)
    ensures s.clock <= t.clock && s.rawLog <= t.rawLog && s.validatedLog <= t.validatedLog && s.rankedLog <= t.rankedLog
  {
    var es :| Legal(s, es) && After(s, es) == t;
    EveryRunKeepsInv(s, es);
    HistoryGrows(s, es);
  }

  // Where an active snapshot comes from.
  lemma ActiveLineage(s: State) returns (v: Validation)
    requires Inv(s) && ActiveKey in s.store
    ensures v in s.validatedLog && GoodValidation(v, s.rawLog, s.clock)
    ensures var a := s.store[ActiveKey];
      && a.cycle == v.snapshot.cycle && a.rawSourceGeneratedAt == Some(v.raw.generatedAt)
      && Identities(a.entries) <= Identities(v.snapshot.entries)
  {
    var r := s.rankedLog[s.serials[ActiveKey]];
    assert GoodRanked(r, s.validatedLog);
    v := s.validatedLog[r.source];
    RankingKeepsIdentities(v.snapshot.entries, r.config);
  }

  // What acceptance says of the four snapshots themselves.
  lemma AcceptedMembers(gets: seq<Read>, lastSuccess: Option<Cycle>, now: real, sourceAt: real,
                        gateway: Option<Snapshot>, echoPeer: string, limits: Limits, since: Option<real>)
    requires |gets| == 4 && GateAccepts(gets, lastSuccess, now, sourceAt, gateway, echoPeer, limits, since)
    ensures forall k :: 0 <= k < 4 ==> gets[k].data.Some? && gets[k].data.value.entries != []
    ensures forall e :: e in gets[3].data.value.entries ==>
      && IdentityOf(e) in Identities(gets[1].data.value.entries)
      && IdentityOf(e) in Identities(gets[2].data.value.entries)
      && Usable(e)
  {
    forall e | e in gets[3].data.value.entries
      ensures IdentityOf(e) in Identities(gets[1].data.value.entries)
      ensures IdentityOf(e) in Identities(gets[2].data.value.entries)
      ensures Usable(e)
    {
      assert MemberApproved(e, PoolsOf(gets));
      var f :| f in gets[1].data.value.entries && Same(e, f);
      var g :| g in gets[2].data.value.entries && Same(e, g);
      assert IdentityOf(f) == IdentityOf(e) == IdentityOf(g);
    }
  }

  // And of the cycle behind the active one.
  lemma AcceptedLineage(atActive: State, end: State, gets: seq<Read>, lastSuccess: Option<Cycle>, sourceAt: real,
                        gateway: Option<Snapshot>, echoPeer: string, limits: Limits, since: Option<real>)
    returns (v: Validation)
    requires Inv(atActive) && Leads(atActive, end)
    requires |gets| == 4 && gets[3].data == Lookup(atActive.store, ActiveKey)
    requires GateAccepts(gets, lastSuccess, end.clock, sourceAt, gateway, echoPeer, limits, since)
    ensures v in end.validatedLog && v.raw in end.rawLog
    ensures end.clock - limits.validated as real <= v.completed <= end.clock
    ensures end.clock - (limits.raw + limits.validated) as real <= v.raw.generatedAt as real <= end.clock
    ensures since.Some? ==> v.completed >= since.value
    ensures gets[3].data.Some?
    ensures forall e :: e in gets[3].data.value.entries ==>
      IdentityOf(e) in Identities(v.snapshot.entries) && (e.address, e.credentialRef) in Origins(v.raw.entries)
    ensures exists e :: e in v.snapshot.entries && e.exitIp == echoPeer
  {
    LeadsKeeps(atActive, end);
    v := ActiveLineage(atActive);
    var active := atActive.store[ActiveKey];
    forall e | e in active.entries
      ensures exists m :: m in v.snapshot.entries && IdentityOf(m) == IdentityOf(e)
      ensures (e.address, e.credentialRef) in Origins(v.raw.entries)
    {
      assert IdentityOf(e) in Identities(active.entries);
      var m :| m in v.snapshot.entries && IdentityOf(m) == IdentityOf(e);
      assert (m.address, m.credentialRef) in Origins(v.snapshot.entries);
    }
  }

  /** If the gate accepts, having read the pools one after the other at whatever times while
      the workers kept publishing or crashing, the active pool is what one validator cycle
      really published: it completed within the validated limit of `assess`'s clock, every
      active identity was in it, and so was the raw candidate, from a raw snapshot within the
      combined limit.  With `since`, that cycle completed after it.  The exit that answered
      the echo is one this cycle validated. */
  lemma ReadinessIsSound(s: State, atRaw: State, atValidated: State, atReserve: State, atActive: State, end: State,
                         gets: seq<Read>, lastSuccess: Option<Cycle>, sourceAt: real, gateway: Option<Snapshot>,
                         echoPeer: string, limits: Limits, since: Option<real>)
    returns (v: Validation)
    requires Inv(s) && Leads(s, atRaw) && Leads(atRaw, atValidated) && Leads(atValidated, atReserve)
      && Leads(atReserve, atActive) && Leads(atActive, end)
    requires |gets| == 4
      && gets[0].data == Lookup(atRaw.store, RawKey) && gets[1].data == Lookup(atValidated.store, ValidatedKey)
      && gets[2].data == Lookup(atReserve.store, ReserveKey) && gets[3].data == Lookup(atActive.store, ActiveKey)
    requires GateAccepts(gets, lastSuccess, end.clock, sourceAt, gateway, echoPeer, limits, since)
    ensures v in end.validatedLog && v.raw in end.rawLog
    ensures end.clock - limits.validated as real <= v.completed <= end.clock
    ensures end.clock - (limits.raw + limits.validated) as real <= v.raw.generatedAt as real <= end.clock
    ensures since.Some? ==> v.completed >= since.value
    ensures forall k :: 0 <= k < 4 ==> gets[k].data.Some? && gets[k].data.value.entries != []
    ensures forall e :: e in gets[3].data.value.entries ==>
      && IdentityOf(e) in Identities(v.snapshot.entries)
      && (e.address, e.credentialRef) in Origins(v.raw.entries)
      && IdentityOf(e) in Identities(gets[1].data.value.entries)
      && IdentityOf(e) in Identities(gets[2].data.value.entries)
      && Usable(e)
    ensures exists e :: e in v.snapshot.entries && e.exitIp == echoPeer
  {
    LeadsKeeps(s, atRaw);
    LeadsKeeps(atRaw, atValidated);
    LeadsKeeps(atValidated, atReserve);
    LeadsKeeps(atReserve, atActive);
    AcceptedMembers(gets, lastSuccess, end.clock, sourceAt, gateway, echoPeer, limits, since);
    v := AcceptedLineage(atActive, end, gets, lastSuccess, sourceAt, gateway, echoPeer, limits, since);
  }

  /** And the success marker the gate saw belongs to a published cycle that really
      completed within the limit and left somebody healthy. */
  lemma LastSuccessIsReal(s: State, atLast: State, end: State, gets: seq<Read>, sourceAt: real,
                          gateway: Option<Snapshot>, echoPeer: string, limits: Limits, since: Option<real>)
    returns (v: Validation)
    requires Inv(s) && Leads(s, atLast) && Leads(atLast, end) && |gets| == 4
    requires GateAccepts(gets, atLast.lastSuccess, end.clock, sourceAt, gateway, echoPeer, limits, since)
    ensures v in end.validatedLog && v.snapshot.cycle == atLast.lastSuccess && v.snapshot.entries != []
    ensures end.clock - limits.validated as real <= v.completed <= end.clock
  {
    LeadsKeeps(s, atLast);
    LeadsKeeps(atLast, end);
    var i :| 0 <= i < |atLast.validatedLog| && atLast.validatedLog[i].snapshot.cycle == atLast.lastSuccess;
    v := atLast.validatedLog[i];
    assert GoodValidation(v, atLast.rawLog, atLast.clock);
  }

  /** Re-ranking renews nothing: once every validator cycle ever published is
      older than the limit, the gate accepts no sequence of reads. */
  lemma RerankingCannotRenew(s: State, atActive: State, end: State, gets: seq<Read>, lastSuccess: Option<Cycle>,
                             sourceAt: real, gateway: Option<Snapshot>, echoPeer: string, limits: Limits,
                             since: Option<real>)
    requires Inv(s) && Leads(s, atActive) && Leads(atActive, end)
    requires |gets| == 4 && gets[3].data == Lookup(atActive.store, ActiveKey)
    requires forall v :: v in end.validatedLog ==> v.completed < end.clock - limits.validated as real
    ensures !GateAccepts(gets, lastSuccess, end.clock, sourceAt, gateway, echoPeer, limits, since)
  {
    LeadsKeeps(s, atActive);
    if GateAccepts(gets, lastSuccess, end.clock, sourceAt, gateway, echoPeer, limits, since) {
      var _ := AcceptedLineage(atActive, end, gets, lastSuccess, sourceAt, gateway, echoPeer, limits, since);
    }
  }
}
