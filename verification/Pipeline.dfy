/** The snapshot pipeline: fetcher, validator and ranker publish to one Redis
    store that the relay and the readiness check read, with no locks between
    them (validator/fetcher.py, validator.py, ranker.py, storage.py).

    The work inside one cycle is code with loops; the interleaving of cycles,
    crashes and readers is a state machine whose events are the store accesses. */
module Pipeline {
  import opened Prelude
  import opened Ranking
  import opened RankingTheorems
  import opened Selection

  datatype Cycle = Cycle(id: nat, completedAt: int, healthy: nat, checked: nat)

  // A decoded JSON snapshot; keys a producer does not write are None.
  datatype Snapshot = Snapshot(
    generatedAt: int, entries: seq<Entry>, cycle: Option<Cycle>,
    sourceGeneratedAt: Option<int>, rawSourceGeneratedAt: Option<int>)

  // What a successful probe observed.
  datatype Probe = Probe(exitIp: string, latencyMs: int, network: Network, subnet: Option<string>)

  // ---------- One validator cycle ----------

  function Measured(raw: Entry, p: Probe, streak: int): Entry {
    raw.(exitIp := p.exitIp, latencyMs := p.latencyMs, network := Some(p.network), subnet := p.subnet,
         successStreak := streak)
  }

  // A dict comprehension: the last entry of an address wins.
  function PreviousStreaks(entries: seq<Entry>): map<string, int> {
    if entries == [] then map[]
    else
      var last := entries[|entries| - 1];
      PreviousStreaks(entries[..|entries| - 1])[last.address := last.successStreak]
  }

  function StreakIn(streaks: map<string, int>, address: string): int {
    if address in streaks then streaks[address] else 0
  }

  function HealthyEntries(raws: seq<Entry>, results: seq<Option<Probe>>, streaks: map<string, int>): seq<Entry>
    requires |results| == |raws|
  {
    if raws == [] then []
    else
      var last := |raws| - 1;
      var rest := HealthyEntries(raws[..last], results[..last], streaks);
      match results[last]
      case None => rest
      case Some(p) => rest + [Measured(raws[last], p, StreakIn(streaks, raws[last].address) + 1)]
  }

  function EntriesOf(s: Option<Snapshot>): seq<Entry> { match s case None => [] case Some(v) => v.entries }

  // `i` is the last entry with this address.
  ghost predicate IsLastOf(es: seq<Entry>, address: string, i: int) {
    0 <= i < |es| && es[i].address == address && forall j :: i < j < |es| ==> es[j].address != address
  }

  // One more than the last previous streak of this address, or 1 if it is new.
  ghost predicate ContinuesStreak(previous: seq<Entry>, address: string, streak: int) {
    || (exists i :: IsLastOf(previous, address, i) && streak == previous[i].successStreak + 1)
    || ((forall j :: 0 <= j < |previous| ==> previous[j].address != address) && streak == 1)
  }

  // `e` is candidate `raw` with what the probe observed and the continued streak.
  ghost predicate IsHealthy(e: Entry, raw: Entry, p: Probe, previous: seq<Entry>) {
    && e.address == raw.address && e.protocol == raw.protocol && e.credentialRef == raw.credentialRef
    && e.baseScore == raw.baseScore && e.score == raw.score
    && e.exitIp == p.exitIp && e.latencyMs == p.latencyMs && e.network == Some(p.network) && e.subnet == p.subnet
    && ContinuesStreak(previous, raw.address, e.successStreak)
  }

  // Entry `k` stems from candidate `from[k]`; exactly the successful probes, in order.
  ghost predicate KeepsTheHealthy(raws: seq<Entry>, results: seq<Option<Probe>>, previous: seq<Entry>,
                                  entries: seq<Entry>, from: seq<nat>)
    requires |results| == |raws|
  {
    && |from| == |entries|
    && (forall k :: 0 <= k < |from| ==> from[k] < |raws| && results[from[k]].Some?)
    && (forall j, k :: 0 <= j < k < |from| ==> from[j] < from[k])
    && (forall i :: 0 <= i < |raws| && results[i].Some? ==> i in from)
    && (forall k :: 0 <= k < |from| ==> IsHealthy(entries[k], raws[from[k]], results[from[k]].value, previous))
  }

  function LastIndex(es: seq<Entry>, address: string): int {
    if es == [] then -1
    else if es[|es| - 1].address == address then |es| - 1
    else LastIndex(es[..|es| - 1], address)
  }

  lemma {:induction false} LastIndexIsLast(es: seq<Entry>, address: string)
    ensures var i := LastIndex(es, address);
      if i < 0 then address !in PreviousStreaks(es) && forall j :: 0 <= j < |es| ==> es[j].address != address
      else IsLastOf(es, address, i) && address in PreviousStreaks(es)
           && PreviousStreaks(es)[address] == es[i].successStreak
  {
    if es != [] { LastIndexIsLast(es[..|es| - 1], address); }
  }

  lemma PreviousStreakIsLast(es: seq<Entry>, address: string)
    ensures ContinuesStreak(es, address, StreakIn(PreviousStreaks(es), address) + 1)
  {
    LastIndexIsLast(es, address);
  }

  lemma KeepsOneMore(raws: seq<Entry>, results: seq<Option<Probe>>, previous: seq<Entry>,
                     entries: seq<Entry>, from: seq<nat>, more: seq<Entry>)
    requires |results| == |raws| > 0
    requires KeepsTheHealthy(raws[..|raws| - 1], results[..|raws| - 1], previous, entries, from)
    requires var last := |raws| - 1;
      if results[last].None? then more == []
      else |more| == 1 && IsHealthy(more[0], raws[last], results[last].value, previous)
    ensures KeepsTheHealthy(raws, results, previous, entries + more,
                            from + if more == [] then [] else [|raws| - 1])
  {
    var last := |raws| - 1;
    var from' := from + if more == [] then [] else [last];
    forall i | 0 <= i < |raws| && results[i].Some? ensures i in from' {
      if i == last { assert from'[|from|] == last; }
    }
  }

  /** Exactly the candidates whose probe succeeded are kept, in order, each with what its
      probe observed and its address's streak continued. */
  lemma {:induction false} HealthyAreKept(raws: seq<Entry>, results: seq<Option<Probe>>, previous: seq<Entry>)
    returns (from: seq<nat>)
    requires |results| == |raws|
    ensures KeepsTheHealthy(raws, results, previous, HealthyEntries(raws, results, PreviousStreaks(previous)), from)
  {
    from := [];
    if raws != [] {
      var last, streaks := |raws| - 1, PreviousStreaks(previous);
      from := HealthyAreKept(raws[..last], results[..last], previous);
      var kept := HealthyEntries(raws[..last], results[..last], streaks);
      PreviousStreakIsLast(previous, raws[last].address);
      var more := if results[last].None? then []
                  else [Measured(raws[last], results[last].value, StreakIn(streaks, raws[last].address) + 1)];
      KeepsOneMore(raws, results, previous, kept, from, more);
      assert HealthyEntries(raws, results, streaks) == kept + more;
      from := from + if more == [] then [] else [last];
    }
  }

  // The loops of `cycle` in validator.py, before and after probing.
  method ValidatorEntries(raws: seq<Entry>, results: seq<Option<Probe>>, previous: Option<Snapshot>)
    returns (entries: seq<Entry>, ghost from: seq<nat>)
    requires |results| == |raws|
    ensures KeepsTheHealthy(raws, results, EntriesOf(previous), entries, from)
    ensures entries == HealthyEntries(raws, results, PreviousStreaks(EntriesOf(previous)))
  {
    var streaks: map<string, int> := map[];
    var old' := EntriesOf(previous);
    for i := 0 to |old'|
      invariant streaks == PreviousStreaks(old'[..i])
    {
      assert old'[..i + 1][..i] == old'[..i];
      streaks := streaks[old'[i].address := old'[i].successStreak];
    }
    assert old'[..|old'|] == old';
    entries := [];
    for i := 0 to |raws|
      invariant entries == HealthyEntries(raws[..i], results[..i], streaks)
    {
      assert raws[..i + 1][..i] == raws[..i] && results[..i + 1][..i] == results[..i];
      match results[i] {
        case None =>
        case Some(p) =>
          var streak := StreakIn(streaks, raws[i].address) + 1;
          entries := entries + [Measured(raws[i], p, streak)];
      }
    }
    assert raws[..|raws|] == raws && results[..|raws|] == results;
    from := HealthyAreKept(raws, results, old');
  }

  // ---------- One ranker cycle ----------

  datatype Config = Config(reserveSize: int, poolSize: int, minScore: real, unknownPenalty: real, maxUnknownRatio: real)

  predicate ValidConfig(c: Config) {
    1 <= c.poolSize <= c.reserveSize && c.unknownPenalty >= 1.0 && 0.0 <= c.maxUnknownRatio <= 1.0
  }

  function ReserveEntries(entries: seq<Entry>, c: Config): seq<Entry>
    requires ValidConfig(c)
  {
    Rank(Eligible(entries, c.minScore), [], c.unknownPenalty, c.reserveSize)
  }

  function ActiveEntries(entries: seq<Entry>, c: Config): seq<Entry>
    requires ValidConfig(c)
  {
    Active(ReserveEntries(entries, c), c.poolSize, UnknownLimit(c.poolSize, c.maxUnknownRatio))
  }

  /** What a cycle publishes, in terms of its configuration: the reserve ranks exactly the
      entries whose base score reaches the threshold, cut at the reserve size, and the active
      pool is the best of it for the pool size and the ratio of unknown ASNs. */
  lemma PublishedAsConfigured(entries: seq<Entry>, c: Config) returns (eligible: seq<Entry>, left: seq<Entry>)
    requires ValidConfig(c)
    ensures forall e :: multiset(eligible)[e] == if BaseScore(e) >= c.minScore then multiset(entries)[e] else 0
    ensures GreedyRanking(eligible, ReserveEntries(entries, c), left, c.unknownPenalty, c.reserveSize)
    ensures BestPool(ReserveEntries(entries, c), ActiveEntries(entries, c), c.poolSize, c.maxUnknownRatio)
  {
    eligible := Eligible(entries, c.minScore);
    left := Leftover(eligible, [], c.unknownPenalty, c.reserveSize);
    forall e ensures multiset(eligible)[e] == if BaseScore(e) >= c.minScore then multiset(entries)[e] else 0 {
      EligibleCount(entries, c.minScore, e);
    }
    RankIsGreedy(eligible, c.unknownPenalty, c.reserveSize);
    ActiveIsBestPool(ReserveEntries(entries, c), c.poolSize, c.maxUnknownRatio);
  }

  // The validator's lineage travels with the entries.
  function Carried(v: Snapshot, entries: seq<Entry>, generatedAt: int): Snapshot {
    Snapshot(generatedAt, entries, v.cycle, Some(v.generatedAt), v.sourceGeneratedAt)
  }

  method RankerCycle(v: Snapshot, c: Config, now: real) returns (r: Result<(Snapshot, Snapshot)>)
    ensures !ValidConfig(c) ==> r == Err(ValueError)
    ensures ValidConfig(c) ==>
      r == Ok((Carried(v, ReserveEntries(v.entries, c), now.Floor), Carried(v, ActiveEntries(v.entries, c), now.Floor)))
  {
    if c.reserveSize < 1 || c.poolSize < 1 { return Err(ValueError); }
    if c.poolSize > c.reserveSize { return Err(ValueError); }
    var ranked := RankEntries(v.entries, c.reserveSize, c.minScore, c.unknownPenalty);
    if ranked.Err? { return Err(ranked.error); }
    var active := SelectActiveEntries(ranked.value, c.poolSize, c.maxUnknownRatio);
    if active.Err? { return Err(active.error); }
    return Ok((Carried(v, ranked.value, now.Floor), Carried(v, active.value, now.Floor)));
  }

  // ---------- The interleaving ----------

  datatype StoreKey = RawKey | ValidatedKey | ReserveKey | ActiveKey | GatewayKey

  // A finished validator cycle: its input, its output, and when it really completed.
  datatype Validation = Validation(raw: Snapshot, snapshot: Snapshot, completed: real)

  // A finished ranking: which validated snapshot it ranked, and both outputs.
  datatype Ranked = Ranked(source: nat, config: Config, reserve: Snapshot, active: Snapshot)

  datatype FetcherPc = FetcherIdle | Fetched(snapshot: Snapshot)

  datatype ValidatorPc =
    | ValidatorIdle
    | HasRaw(raw: Snapshot)
    | HasPrevious(raw: Snapshot, previous: Option<Snapshot>)
    | Probed(raw: Snapshot, entries: seq<Entry>)
    | Completed(raw: Snapshot, entries: seq<Entry>, cycle: Cycle, at: real)
    | Stamped(validation: Validation)
    | PublishedCycle(cycle: Cycle)

  datatype RankerPc = RankerIdle | HasValidated(source: nat, validated: Snapshot) | Publishing(done: nat)

  // The relay's copy: the first `size` entries of the active snapshot number `serial`.
  datatype Cached = Cached(serial: nat, size: nat, entries: seq<Entry>)

  /** `store` and the four worker states are real; the logs record every
      publication so that properties can speak about the past. */
  datatype State = State(
    clock: real,
    store: map<StoreKey, Snapshot>, lastSuccess: Option<Cycle>,
    fetcher: FetcherPc, validator: ValidatorPc, ranker: RankerPc, relay: Option<Cached>,
    rawLog: seq<Snapshot>, validatedLog: seq<Validation>, rankedLog: seq<Ranked>, activeLog: seq<nat>,
    serials: map<StoreKey, nat>)

  datatype Event =
    | Tick(to: real)
    | Fetch(found: seq<Entry>) | PublishRaw
    | ReadRaw | ReadPrevious | ProbeAll(results: seq<Option<Probe>>) | Complete | Stamp
    | PublishValidated | RecordSuccess
    | ReadValidated | RankAll(config: Config) | PublishReserve | PublishActive | PublishGateway
    | Refresh(size: nat)
    | CrashFetcher | CrashValidator | CrashRanker | RestartRelay

  predicate Enabled(s: State, e: Event) {
    match e
    case Tick(to) => to >= s.clock
    case Fetch(_) => s.fetcher == FetcherIdle
    case PublishRaw => s.fetcher.Fetched?
    case ReadRaw => s.validator == ValidatorIdle && RawKey in s.store
    case ReadPrevious => s.validator.HasRaw?
    case ProbeAll(results) => s.validator.HasPrevious? && |results| == |s.validator.raw.entries|
    case Complete => s.validator.Probed?
    case Stamp => s.validator.Completed?
    case PublishValidated => s.validator.Stamped?
    case RecordSuccess => s.validator.PublishedCycle?
    case ReadValidated => s.ranker == RankerIdle && ValidatedKey in s.store && s.validatedLog != []
    case RankAll(config) => s.ranker.HasValidated? && ValidConfig(config)
    case PublishReserve => s.ranker == Publishing(0) && s.rankedLog != []
    case PublishActive => s.ranker == Publishing(1) && s.rankedLog != []
    case PublishGateway => s.ranker == Publishing(2) && s.rankedLog != []
    case Refresh(_) => GatewayKey in s.store && GatewayKey in s.serials
    case _ => true
  }

  function Lookup(store: map<StoreKey, Snapshot>, k: StoreKey): Option<Snapshot> {
    if k in store then Some(store[k]) else None
  }

  function Next(s: State, e: Event): State
    requires Enabled(s, e)
  {
    match e
    case Tick(to) => s.(clock := to)
    case Fetch(found) => s.(fetcher := Fetched(Snapshot(s.clock.Floor, found, None, None, None)))
    case PublishRaw =>
      var snapshot := s.fetcher.snapshot;
      s.(fetcher := FetcherIdle, store := s.store[RawKey := snapshot], rawLog := s.rawLog + [snapshot])
    case ReadRaw => s.(validator := HasRaw(s.store[RawKey]))
    case ReadPrevious => s.(validator := HasPrevious(s.validator.raw, Lookup(s.store, ValidatedKey)))
    case ProbeAll(results) =>
      var v := s.validator;
      s.(validator := Probed(v.raw, HealthyEntries(v.raw.entries, results, PreviousStreaks(EntriesOf(v.previous)))))
    case Complete =>
      var v := s.validator;
      var cycle := Cycle(|s.validatedLog|, s.clock.Floor, |v.entries|, |v.raw.entries|);
      s.(validator := Completed(v.raw, v.entries, cycle, s.clock))
    case Stamp =>
      var v := s.validator;
      var snapshot := Snapshot(s.clock.Floor, v.entries, Some(v.cycle), Some(v.raw.generatedAt), None);
      s.(validator := Stamped(Validation(v.raw, snapshot, v.at)))
    case PublishValidated =>
      var done := s.validator.validation;
      s.(validator := if done.snapshot.cycle.Some? then PublishedCycle(done.snapshot.cycle.value) else ValidatorIdle,
         store := s.store[ValidatedKey := done.snapshot], validatedLog := s.validatedLog + [done])
    case RecordSuccess =>
      var cycle := s.validator.cycle;
      s.(validator := ValidatorIdle, lastSuccess := if cycle.healthy > 0 then Some(cycle) else s.lastSuccess)
    case ReadValidated => s.(ranker := HasValidated(|s.validatedLog| - 1, s.store[ValidatedKey]))
    case RankAll(config) =>
      var v := s.ranker.validated;
      var reserve := Carried(v, ReserveEntries(v.entries, config), s.clock.Floor);
      var active := Carried(v, ActiveEntries(v.entries, config), s.clock.Floor);
      s.(ranker := Publishing(0), rankedLog := s.rankedLog + [Ranked(s.ranker.source, config, reserve, active)])
    case PublishReserve =>
      var n := |s.rankedLog| - 1;
      s.(ranker := Publishing(1), store := s.store[ReserveKey := s.rankedLog[n].reserve],
         serials := s.serials[ReserveKey := n])
    case PublishActive =>
      var n := |s.rankedLog| - 1;
      s.(ranker := Publishing(2), store := s.store[ActiveKey := s.rankedLog[n].active],
         serials := s.serials[ActiveKey := n], activeLog := s.activeLog + [n])
    case PublishGateway =>
      var n := |s.rankedLog| - 1;
      s.(ranker := RankerIdle, store := s.store[GatewayKey := s.rankedLog[n].active],
         serials := s.serials[GatewayKey := n])
    case Refresh(size) =>
      var entries := s.store[GatewayKey].entries;
      s.(relay := Some(Cached(s.serials[GatewayKey], size, entries[..Min(size, |entries|)])))
    case CrashFetcher => s.(fetcher := FetcherIdle)
    case CrashValidator => s.(validator := ValidatorIdle)
    case CrashRanker => s.(ranker := RankerIdle)
    case RestartRelay => s.(relay := None)
  }

  ghost predicate Initial(s: State) {
    && s.store == map[] && s.lastSuccess == None && s.relay == None && s.serials == map[]
    && s.fetcher == FetcherIdle && s.validator == ValidatorIdle && s.ranker == RankerIdle
    && s.rawLog == [] && s.validatedLog == [] && s.rankedLog == [] && s.activeLog == []
  }

  ghost predicate Legal(s: State, es: seq<Event>)
    decreases es
  {
    es != [] ==> Enabled(s, es[0]) && Legal(Next(s, es[0]), es[1..])
  }

  ghost function After(s: State, es: seq<Event>): State
    requires Legal(s, es)
    decreases es
  {
    if es == [] then s else After(Next(s, es[0]), es[1..])
  }
}
