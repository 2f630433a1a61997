/** Invariants of the pipeline over every interleaving of workers, crashes and
    readers: lineage, success streaks, and the order of publication. */
module PipelineTheorems {
  import opened Prelude
  import opened Ranking
  import opened RankingTheorems
  import opened Selection
  import opened Pipeline

  // ---------- Identities ----------

  type Identity = (string, Option<string>, string)

  function IdentityOf(e: Entry): Identity { (e.address, e.credentialRef, e.exitIp) }

  function Identities(es: seq<Entry>): set<Identity> { set e | e in es :: IdentityOf(e) }

  function Origins(es: seq<Entry>): set<(string, Option<string>)> { set e | e in es :: (e.address, e.credentialRef) }

  lemma {:induction false} EligibleSubset(es: seq<Entry>, minScore: real, e: Entry)
    requires e in Eligible(es, minScore)
    ensures e in es
  {
    var last := |es| - 1;
    if e in Eligible(es[..last], minScore) { EligibleSubset(es[..last], minScore, e); }
  }

  lemma {:induction false} ActiveSubset(ranked: seq<Entry>, pool: nat, unknown: nat, e: Entry)
    requires e in Active(ranked, pool, unknown)
    ensures e in ranked
  {
    if e != ranked[0] {
      var u := if AsnKey(ranked[0]).None? && unknown > 0 then unknown - 1 else unknown;
      var p := if AsnKey(ranked[0]).None? && unknown == 0 then pool else pool - 1;
      assert e in Active(ranked[1..], p, u);
      ActiveSubset(ranked[1..], p, u, e);
    }
  }

  /** Ranking and selecting never invent an identity. */
  lemma RankingKeepsIdentities(es: seq<Entry>, c: Config)
    requires ValidConfig(c)
    ensures Identities(ActiveEntries(es, c)) <= Identities(ReserveEntries(es, c)) <= Identities(es)
  {
    var eligible, ranked := Eligible(es, c.minScore), ReserveEntries(es, c);
    forall e | e in ActiveEntries(es, c) ensures e in ranked {
      ActiveSubset(ranked, c.poolSize, UnknownLimit(c.poolSize, c.maxUnknownRatio), e);
    }
    RankIsGreedy(eligible, c.unknownPenalty, c.reserveSize);
    forall e | e in ranked ensures IdentityOf(e) in Identities(es) {
      var i :| 0 <= i < |ranked| && ranked[i] == e;
      assert PlainAll(ranked)[i] == Plain(e);
      assert Plain(e) in multiset(PlainAll(eligible));
      var k :| 0 <= k < |eligible| && PlainAll(eligible)[k] == Plain(e);
      EligibleSubset(es, c.minScore, eligible[k]);
      assert IdentityOf(Plain(eligible[k])) == IdentityOf(eligible[k]) && IdentityOf(Plain(e)) == IdentityOf(e);
    }
  }

  lemma {:induction false} HealthyFromRaw(raws: seq<Entry>, results: seq<Option<Probe>>, streaks: map<string, int>)
    requires |results| == |raws|
    ensures Origins(HealthyEntries(raws, results, streaks)) <= Origins(raws)
    ensures forall e :: e in HealthyEntries(raws, results, streaks) ==>
      e.successStreak == StreakIn(streaks, e.address) + 1
  {
    if raws != [] {
      var last := |raws| - 1;
      HealthyFromRaw(raws[..last], results[..last], streaks);
      assert raws[last] in raws;
      forall o | o in Origins(raws[..last]) ensures o in Origins(raws) {
        var e :| e in raws[..last] && o == (e.address, e.credentialRef);
        assert e in raws;
      }
    }
  }

  // ---------- Lineage ----------

  ghost predicate GoodValidation(v: Validation, rawLog: seq<Snapshot>, clock: real) {
    && v.raw in rawLog && v.completed <= clock
    && v.snapshot.cycle.Some? && v.snapshot.cycle.value.completedAt == v.completed.Floor
    && v.snapshot.cycle.value.healthy == |v.snapshot.entries|
    && v.snapshot.sourceGeneratedAt == Some(v.raw.generatedAt)
    && Origins(v.snapshot.entries) <= Origins(v.raw.entries)
  }

  ghost predicate GoodRanked(r: Ranked, validatedLog: seq<Validation>) {
    && r.source < |validatedLog| && ValidConfig(r.config)
    && var v := validatedLog[r.source].snapshot;
    && r.reserve.entries == ReserveEntries(v.entries, r.config) && LineageOf(r.reserve, v)
    && r.active.entries == ActiveEntries(v.entries, r.config) && LineageOf(r.active, v)
  }

  // The cycle that validated, when its snapshot was made, and when the raw one was.
  ghost predicate LineageOf(p: Snapshot, v: Snapshot) {
    p.cycle == v.cycle && p.sourceGeneratedAt == Some(v.generatedAt) && p.rawSourceGeneratedAt == v.sourceGeneratedAt
  }

  ghost predicate ValidatorKnows(s: State) {
    match s.validator
    case ValidatorIdle => true
    case HasRaw(raw) => raw in s.rawLog
    case HasPrevious(raw, previous) => raw in s.rawLog && previous == Lookup(s.store, ValidatedKey)
    case Probed(raw, entries) => raw in s.rawLog && Origins(entries) <= Origins(raw.entries)
    case Completed(raw, entries, cycle, at) =>
      raw in s.rawLog && Origins(entries) <= Origins(raw.entries)
      && at <= s.clock && cycle.completedAt == at.Floor && cycle.healthy == |entries|
    case Stamped(v) => GoodValidation(v, s.rawLog, s.clock)
    case PublishedCycle(cycle) => CycleLogged(s.validatedLog, cycle)
  }

  // Some published validator cycle is this one.
  ghost predicate CycleLogged(log: seq<Validation>, cycle: Cycle) {
    exists i :: 0 <= i < |log| && log[i].snapshot.cycle == Some(cycle)
  }

  ghost predicate Lineage(s: State) {
    && (s.fetcher.Fetched? ==> s.fetcher.snapshot.generatedAt as real <= s.clock)
    && (forall r :: r in s.rawLog ==> r.generatedAt as real <= s.clock)
    && (RawKey in s.store ==> s.store[RawKey] in s.rawLog)
    && (forall i :: 0 <= i < |s.validatedLog| ==> GoodValidation(s.validatedLog[i], s.rawLog, s.clock))
    && (ValidatedKey in s.store <==> s.validatedLog != [])
    && (ValidatedKey in s.store ==> s.store[ValidatedKey] == s.validatedLog[|s.validatedLog| - 1].snapshot)
    && ValidatorKnows(s)
    && (s.lastSuccess.Some? ==> s.lastSuccess.value.healthy > 0 && CycleLogged(s.validatedLog, s.lastSuccess.value))
    && (s.ranker.HasValidated? ==>
          (s.ranker.source < |s.validatedLog| && s.ranker.validated == s.validatedLog[s.ranker.source].snapshot))
    && (forall k :: 0 <= k < |s.rankedLog| ==> GoodRanked(s.rankedLog[k], s.validatedLog))
  }

  lemma LineageAfterValidator(s: State, e: Event)
    requires Lineage(s) && Enabled(s, e)
    requires e.ReadRaw? || e.ReadPrevious? || e.ProbeAll? || e.CrashValidator?
    ensures Lineage(Next(s, e))
  {
    if e.ProbeAll? {
      HealthyFromRaw(s.validator.raw.entries, e.results, PreviousStreaks(EntriesOf(s.validator.previous)));
    }
  }

  lemma LineageAfterCycle(s: State, e: Event)
    requires Lineage(s) && Enabled(s, e) && (e.Complete? || e.Stamp? || e.RecordSuccess?)
    ensures Lineage(Next(s, e))
  {
  }

  lemma LoggedStays(log: seq<Validation>, log': seq<Validation>, cycle: Cycle)
    requires log <= log' && CycleLogged(log, cycle)
    ensures CycleLogged(log', cycle)
  {
    var i :| 0 <= i < |log| && log[i].snapshot.cycle == Some(cycle);
    assert log'[i] == log[i];
  }

  lemma LineageAfterRawPublication(s: State, e: Event)
    requires Lineage(s) && Enabled(s, e) && e.PublishRaw?
    ensures Lineage(Next(s, e))
  {
  }

  lemma LineageAfterPublication(s: State, e: Event)
    requires Lineage(s) && Enabled(s, e) && e.PublishValidated?
    ensures Lineage(Next(s, e))
  {
    var t := Next(s, e);
    if s.lastSuccess.Some? { LoggedStays(s.validatedLog, t.validatedLog, s.lastSuccess.value); }
    assert t.validatedLog[|s.validatedLog|] == s.validator.validation;
  }

  lemma LineageAfterTick(s: State, e: Event)
    requires Lineage(s) && Enabled(s, e) && (e.Tick? || e.Fetch? || e.CrashFetcher?)
    ensures Lineage(Next(s, e))
  {
  }

  lemma LineageAfterRead(s: State, e: Event)
    requires Lineage(s) && Enabled(s, e) && (e.ReadValidated? || e.CrashRanker?)
    ensures Lineage(Next(s, e))
  {
  }

  lemma LineageAfterRelay(s: State, e: Event)
    requires Lineage(s) && Enabled(s, e) && (e.Refresh? || e.RestartRelay?)
    ensures Lineage(Next(s, e))
  {
  }

  lemma LineageAfterRanking(s: State, e: Event)
    requires Lineage(s) && Enabled(s, e) && e.RankAll?
    ensures Lineage(Next(s, e))
  {
  }

  lemma LineageAfterRankerPublication(s: State, e: Event)
    requires Lineage(s) && Enabled(s, e)
    requires e.PublishReserve? || e.PublishActive? || e.PublishGateway?
    ensures Lineage(Next(s, e))
  {
  }

  lemma NextKeepsLineage(s: State, e: Event)
    requires Lineage(s) && Enabled(s, e)
    ensures Lineage(Next(s, e))
  {
    match e {
      case PublishRaw => LineageAfterRawPublication(s, e);
      case PublishValidated => LineageAfterPublication(s, e);
      case ReadValidated => LineageAfterRead(s, e);
      case RankAll(_) => LineageAfterRanking(s, e);
      case PublishReserve => LineageAfterRankerPublication(s, e);
      case PublishActive => LineageAfterRankerPublication(s, e);
      case PublishGateway => LineageAfterRankerPublication(s, e);
      case CrashRanker => LineageAfterRead(s, e);
      case Tick(_) => LineageAfterTick(s, e);
      case Fetch(_) => LineageAfterTick(s, e);
      case CrashFetcher => LineageAfterTick(s, e);
      case Refresh(_) => LineageAfterRelay(s, e);
      case RestartRelay => LineageAfterRelay(s, e);
      case Complete => LineageAfterCycle(s, e);
      case Stamp => LineageAfterCycle(s, e);
      case RecordSuccess => LineageAfterCycle(s, e);
      case _ => LineageAfterValidator(s, e);
    }
  }

  // ---------- Success streaks ----------

  function Addresses(es: seq<Entry>): set<string> { set e | e in es :: e.address }

  /** The length of the unbroken run of published cycles ending at `i` that contain `address`. */
  function RunLength(log: seq<Validation>, i: nat, address: string): nat
    requires i < |log|
  {
    if address !in Addresses(log[i].snapshot.entries) then 0
    else 1 + (if i == 0 then 0 else RunLength(log, i - 1, address))
  }

  ghost predicate StreaksAreRuns(log: seq<Validation>) {
    forall i, e :: 0 <= i < |log| && e in log[i].snapshot.entries ==> e.successStreak == RunLength(log, i, e.address)
  }

  // The streak every entry of the next cycle will carry.
  function NextStreak(log: seq<Validation>, address: string): nat {
    1 + (if log == [] then 0 else RunLength(log, |log| - 1, address))
  }

  ghost predicate ContinuesRuns(es: seq<Entry>, log: seq<Validation>) {
    forall e :: e in es ==> e.successStreak == NextStreak(log, e.address)
  }

  ghost predicate Streaks(s: State) {
    && StreaksAreRuns(s.validatedLog)
    && (s.validator.Probed? ==> ContinuesRuns(s.validator.entries, s.validatedLog))
    && (s.validator.Completed? ==> ContinuesRuns(s.validator.entries, s.validatedLog))
    && (s.validator.Stamped? ==> ContinuesRuns(s.validator.validation.snapshot.entries, s.validatedLog))
  }

  lemma {:induction false} RunLengthStable(log: seq<Validation>, v: Validation, i: nat, address: string)
    requires i < |log|
    ensures RunLength(log + [v], i, address) == RunLength(log, i, address)
  {
    if i > 0 { RunLengthStable(log, v, i - 1, address); }
  }

  // Credentials sharing an address carry the same streak, so "last wins" loses nothing.
  lemma {:induction false} PreviousStreaksLookup(es: seq<Entry>, address: string)
    ensures address in PreviousStreaks(es) <==> address in Addresses(es)
    ensures address in PreviousStreaks(es) ==>
      exists e :: e in es && e.address == address && PreviousStreaks(es)[address] == e.successStreak
  {
    if es != [] {
      var last := |es| - 1;
      PreviousStreaksLookup(es[..last], address);
      assert es == es[..last] + [es[last]];
      assert Addresses(es) == Addresses(es[..last]) + {es[last].address};
      if address == es[last].address { assert es[last] in es; }
    }
  }

  lemma ProbingContinuesRuns(s: State, results: seq<Option<Probe>>)
    requires Lineage(s) && Streaks(s) && s.validator.HasPrevious? && |results| == |s.validator.raw.entries|
    ensures ContinuesRuns(HealthyEntries(s.validator.raw.entries, results,
                                         PreviousStreaks(EntriesOf(s.validator.previous))), s.validatedLog)
  {
    var es, log := EntriesOf(s.validator.previous), s.validatedLog;
    var streaks := PreviousStreaks(es);
    HealthyFromRaw(s.validator.raw.entries, results, streaks);
    forall e | e in HealthyEntries(s.validator.raw.entries, results, streaks)
      ensures e.successStreak == NextStreak(log, e.address)
    {
      PreviousStreaksLookup(es, e.address);
    }
  }

  lemma PublishingExtendsRuns(log: seq<Validation>, v: Validation)
    requires StreaksAreRuns(log) && ContinuesRuns(v.snapshot.entries, log)
    ensures StreaksAreRuns(log + [v])
  {
    var log' := log + [v];
    forall i, e | 0 <= i < |log'| && e in log'[i].snapshot.entries
      ensures e.successStreak == RunLength(log', i, e.address)
    {
      if i < |log| {
        RunLengthStable(log, v, i, e.address);
      } else {
        assert e.address in Addresses(v.snapshot.entries);
        if i > 0 { RunLengthStable(log, v, i - 1, e.address); }
      }
    }
  }

  lemma NextKeepsStreaks(s: State, e: Event)
    requires Lineage(s) && Streaks(s) && Enabled(s, e)
    ensures Streaks(Next(s, e))
  {
    match e {
      case ProbeAll(results) => ProbingContinuesRuns(s, results);
      case PublishValidated => PublishingExtendsRuns(s.validatedLog, s.validator.validation);
      case Complete =>
      case Stamp =>
      case _ => StreaksUntouched(s, e);
    }
  }

  lemma StreaksUntouched(s: State, e: Event)
    requires Enabled(s, e) && !e.ProbeAll? && !e.PublishValidated? && !e.Complete? && !e.Stamp?
    ensures var t := Next(s, e);
      && t.validatedLog == s.validatedLog
      && (t.validator == s.validator || t.validator.ValidatorIdle? || t.validator.HasRaw? || t.validator.HasPrevious?)
  {
  }

  // ---------- Order of publication ----------

  function Serial(s: State, k: StoreKey): int { if k in s.serials then s.serials[k] else -1 }

  ghost predicate Holds(s: State, k: StoreKey, reserve: bool) {
    && (k in s.store <==> k in s.serials)
    && (k in s.serials ==>
          (s.serials[k] < |s.rankedLog|
           && s.store[k] == if reserve then s.rankedLog[s.serials[k]].reserve else s.rankedLog[s.serials[k]].active))
  }

  // The copy has the first `size` entries, or all if there are fewer.
  ghost predicate FirstOf(c: Cached, es: seq<Entry>) {
    c.entries <= es && (|c.entries| == c.size || (|c.entries| < c.size && c.entries == es))
  }

  ghost predicate PublicationOrder(s: State) {
    && Serial(s, GatewayKey) <= Serial(s, ActiveKey) <= Serial(s, ReserveKey) < |s.rankedLog|
    && Holds(s, ReserveKey, true) && Holds(s, ActiveKey, false) && Holds(s, GatewayKey, false)
    && (forall n :: n in s.activeLog ==> n < |s.rankedLog|)
    && (ActiveKey in s.serials ==> s.serials[ActiveKey] in s.activeLog)
    && (GatewayKey in s.serials ==> s.serials[GatewayKey] in s.activeLog)
    && (s.ranker.Publishing? ==>
          (s.ranker.done <= 2 && s.rankedLog != []
           && (s.ranker.done >= 1 ==> Serial(s, ReserveKey) == |s.rankedLog| - 1)
           && (s.ranker.done == 2 ==> Serial(s, ActiveKey) == |s.rankedLog| - 1)))
    && (s.relay.Some? ==>
          (s.relay.value.serial in s.activeLog && s.relay.value.serial <= Serial(s, GatewayKey)
           && s.relay.value.serial < |s.rankedLog|
           && FirstOf(s.relay.value, s.rankedLog[s.relay.value.serial].active.entries)))
  }

  lemma PublishingKeepsOrder(s: State, e: Event)
    requires PublicationOrder(s) && Enabled(s, e) && (e.PublishReserve? || e.PublishActive? || e.PublishGateway?)
    ensures PublicationOrder(Next(s, e))
  {
  }

  lemma RankingKeepsOrder(s: State, e: Event)
    requires PublicationOrder(s) && Enabled(s, e) && (e.RankAll? || e.CrashRanker? || e.ReadValidated?)
    ensures PublicationOrder(Next(s, e))
  {
  }

  lemma RelayKeepsOrder(s: State, e: Event)
    requires PublicationOrder(s) && Enabled(s, e) && (e.Refresh? || e.RestartRelay?)
    ensures PublicationOrder(Next(s, e))
  {
  }

  predicate OtherWorker(e: Event) {
    && !e.RankAll? && !e.CrashRanker? && !e.ReadValidated? && !e.PublishReserve? && !e.PublishActive?
    && !e.PublishGateway? && !e.Refresh? && !e.RestartRelay?
  }

  // The other workers do not write what the order is about.
  lemma OthersTouchNothing(s: State, e: Event)
    requires Enabled(s, e) && OtherWorker(e)
    ensures var t := Next(s, e);
      && t.serials == s.serials && t.rankedLog == s.rankedLog && t.activeLog == s.activeLog
      && t.ranker == s.ranker && t.relay == s.relay
      && Lookup(t.store, ReserveKey) == Lookup(s.store, ReserveKey)
      && Lookup(t.store, ActiveKey) == Lookup(s.store, ActiveKey)
      && Lookup(t.store, GatewayKey) == Lookup(s.store, GatewayKey)
  {
  }

  lemma OthersKeepOrder(s: State, e: Event)
    requires PublicationOrder(s) && Enabled(s, e) && OtherWorker(e)
    ensures PublicationOrder(Next(s, e))
  {
    OthersTouchNothing(s, e);
  }

  lemma NextKeepsPublicationOrder(s: State, e: Event)
    requires PublicationOrder(s) && Enabled(s, e)
    ensures PublicationOrder(Next(s, e))
  {
    match e {
      case PublishReserve => PublishingKeepsOrder(s, e);
      case PublishActive => PublishingKeepsOrder(s, e);
      case PublishGateway => PublishingKeepsOrder(s, e);
      case RankAll(_) => RankingKeepsOrder(s, e);
      case CrashRanker => RankingKeepsOrder(s, e);
      case ReadValidated => RankingKeepsOrder(s, e);
      case Refresh(_) => RelayKeepsOrder(s, e);
      case RestartRelay => RelayKeepsOrder(s, e);
      case _ => OthersKeepOrder(s, e);
    }
  }

  // ---------- Over whole runs ----------

  ghost predicate Inv(s: State) { Lineage(s) && Streaks(s) && PublicationOrder(s) }

  lemma {:induction false} EveryRunKeepsInv(s: State, es: seq<Event>)
    requires Inv(s) && Legal(s, es)
    ensures Inv(After(s, es))
    decreases es
  {
    if es != [] {
      NextKeepsLineage(s, es[0]);
      NextKeepsStreaks(s, es[0]);
      NextKeepsPublicationOrder(s, es[0]);
      EveryRunKeepsInv(Next(s, es[0]), es[1..]);
    }
  }

  /** Lineage, in every reachable state: each published validator cycle used a
      published raw snapshot and carries its true completion time, and each
      ranking carries the lineage of a published cycle. */
  lemma EveryRunHasLineage(s: State, es: seq<Event>)
    requires Initial(s) && Legal(s, es)
    ensures var t := After(s, es);
      && (forall i :: 0 <= i < |t.validatedLog| ==> GoodValidation(t.validatedLog[i], t.rawLog, t.clock))
      && (forall k :: 0 <= k < |t.rankedLog| ==> GoodRanked(t.rankedLog[k], t.validatedLog))
  {
    EveryRunKeepsInv(s, es);
  }

  /** Streaks, in every reachable state: each published `success_streak` is the
      length of the unbroken run of published cycles that ends there. */
  lemma EveryRunCountsStreaks(s: State, es: seq<Event>, i: nat, e: Entry)
    requires Initial(s) && Legal(s, es)
    requires i < |After(s, es).validatedLog| && e in After(s, es).validatedLog[i].snapshot.entries
    ensures e.successStreak == RunLength(After(s, es).validatedLog, i, e.address) >= 1
  {
    EveryRunKeepsInv(s, es);
    assert e.address in Addresses(After(s, es).validatedLog[i].snapshot.entries);
  }

  /** Publication, in every reachable state: gateway <= active <= reserve, each
      key holds one whole snapshot of its ranking, and the relay's copy is a
      prefix of an active snapshot that was published. */
  lemma EveryRunPublishesInOrder(s: State, es: seq<Event>)
    requires Initial(s) && Legal(s, es)
    ensures PublicationOrder(After(s, es))
  {
    EveryRunKeepsInv(s, es);
  }

  /** Time and history only grow. */
  lemma {:induction false} HistoryGrows(s: State, es: seq<Event>)
    requires Legal(s, es)
    ensures var t := After(s, es);
      s.clock <= t.clock && s.rawLog <= t.rawLog && s.validatedLog <= t.validatedLog && s.rankedLog <= t.rankedLog
    decreases es
  {
    if es != [] { HistoryGrows(Next(s, es[0]), es[1..]); }
  }

  ghost predicate NoRelayRestart(es: seq<Event>) { RestartRelay !in es }

  lemma RelayUntouched(s: State, e: Event)
    requires Enabled(s, e) && !e.Refresh? && e != RestartRelay
    ensures Next(s, e).relay == s.relay
  {
  }

  lemma RelayStep(s: State, e: Event)
    requires PublicationOrder(s) && Enabled(s, e) && s.relay.Some? && e != RestartRelay
    ensures Next(s, e).relay.Some? && Next(s, e).relay.value.serial >= s.relay.value.serial
  {
    if !e.Refresh? { RelayUntouched(s, e); }
  }

  /** Until it restarts, the relay's copy never goes back to an older active
      snapshot, whatever the writers do in between. */
  lemma {:induction false} RelayMovesForward(s: State, es: seq<Event>)
    requires PublicationOrder(s) && Legal(s, es) && NoRelayRestart(es) && s.relay.Some?
    ensures After(s, es).relay.Some? && After(s, es).relay.value.serial >= s.relay.value.serial
    decreases es
  {
    if es != [] {
      var e := es[0];
      assert e in es;
      NextKeepsPublicationOrder(s, e);
      RelayStep(s, e);
      RelayMovesForward(Next(s, e), es[1..]);
    }
  }
}
