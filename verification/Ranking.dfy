/** Diversity-aware ranking and capped selection (validator/ranking.py).

    The two loops of the source are the methods `RankEntries` and
    `SelectActiveEntries`; they are proved against the functions `Rank` and
    `Active`, which recount the whole prefix where the loops keep counters. */
module Ranking {
  import opened Prelude
  import opened Text

  datatype Network = Network(asnStatus: string, asn: string)

  /** One validated upstream.  `subnet` is the /24 or /48 that `subnet_key`
      derives from the exit address, None when that text is not an address. */
  datatype Entry = Entry(
    address: string,
    protocol: string,
    credentialRef: Option<string>,
    exitIp: string,
    latencyMs: int,
    successStreak: int,
    network: Option<Network>,
    subnet: Option<string>,
    baseScore: real,
    score: real)

  // The entry without the two fields the ranker overwrites.
  function Plain(e: Entry): Entry { e.(baseScore := 0.0, score := 0.0) }

  function PlainAll(es: seq<Entry>): (r: seq<Entry>)
    ensures |r| == |es| && forall i :: 0 <= i < |es| ==> r[i] == Plain(es[i])
  {
    seq(|es|, i requires 0 <= i < |es| => Plain(es[i]))
  }

  // ---------- Scores and keys ----------

  function BaseScore(e: Entry): (r: real)
    ensures 2.0 < r <= 520.0
  {
    var latency := Max(1, e.latencyMs);
    var streak := Max(1, e.successStreak);
    LatencyComponent(latency) + Min(streak, 10) as real * 2.0
  }

  function LatencyComponent(latency: int): (r: real)
    requires latency >= 1
    ensures 0.0 < r <= 500.0
  {
    1000.0 / (1.0 + latency as real)
  }

  // Only an ASN resolved for the observed exit counts, never a claimed one.
  function AsnKey(e: Entry): Option<string> {
    match e.network
    case None => None
    case Some(n) =>
      if n.asnStatus != "verified" then None
      else var value := Upper(Strip(n.asn)); if value == [] then None else Some(value)
  }

  function CountAsn(ranked: seq<Entry>, asn: string): nat {
    if ranked == [] then 0
    else CountAsn(ranked[..|ranked| - 1], asn) + (if AsnKey(ranked[|ranked| - 1]) == Some(asn) then 1 else 0)
  }

  function CountSubnet(ranked: seq<Entry>, subnet: string): nat {
    if ranked == [] then 0
    else CountSubnet(ranked[..|ranked| - 1], subnet) + (if ranked[|ranked| - 1].subnet == Some(subnet) then 1 else 0)
  }

  // The divisor for `e` after the entries `ranked` were picked, counted afresh.
  function Penalty(e: Entry, ranked: seq<Entry>, unknownPenalty: real): (r: real)
    requires unknownPenalty >= 1.0
    ensures r >= 1.0
  {
    (match AsnKey(e) case None => unknownPenalty case Some(a) => 1.0 + CountAsn(ranked, a) as real)
    + (match e.subnet case None => 0.0 case Some(s) => CountSubnet(ranked, s) as real)
  }

  datatype Key = Key(adjusted: real, base: real, address: string)

  function KeyOf(e: Entry, ranked: seq<Entry>, unknownPenalty: real): Key
    requires unknownPenalty >= 1.0
  {
    Key(BaseScore(e) / Penalty(e, ranked, unknownPenalty), BaseScore(e), e.address)
  }

  predicate KeyLe(a: Key, b: Key) {
    || a.adjusted < b.adjusted
    || (a.adjusted == b.adjusted && (a.base < b.base || (a.base == b.base && TextLe(a.address, b.address))))
  }

  lemma KeyLeTotal(a: Key, b: Key)
    ensures KeyLe(a, b) || KeyLe(b, a)
  {
    TextLeTotal(a.address, b.address);
  }

  lemma KeyLeTransitive(a: Key, b: Key, c: Key)
    requires KeyLe(a, b) && KeyLe(b, c)
    ensures KeyLe(a, c)
  {
    if TextLe(a.address, b.address) && TextLe(b.address, c.address) {
      TextLeTransitive(a.address, b.address, c.address);
    }
  }

  // Rounding to six decimals, half to even.
  function Round6(x: real): real {
    RoundHalfEven(x * 1000000.0) as real / 1000000.0
  }

  lemma Round6Monotone(x: real, y: real)
    requires x <= y
    ensures Round6(x) <= Round6(y)
  {
    RoundMonotone(x * 1000000.0, y * 1000000.0);
  }

  function Scored(e: Entry, ranked: seq<Entry>, unknownPenalty: real): Entry
    requires unknownPenalty >= 1.0
  {
    var k := KeyOf(e, ranked, unknownPenalty);
    e.(baseScore := Round6(k.base), score := Round6(k.adjusted))
  }

  // ---------- The ranking as a function ----------

  function KeysOf(remaining: seq<Entry>, ranked: seq<Entry>, unknownPenalty: real): (keys: seq<Key>)
    requires unknownPenalty >= 1.0
    ensures |keys| == |remaining|
    ensures forall i :: 0 <= i < |keys| ==> keys[i] == KeyOf(remaining[i], ranked, unknownPenalty)
  {
    seq(|remaining|, i requires 0 <= i < |remaining| => KeyOf(remaining[i], ranked, unknownPenalty))
  }

  // Python's `max`: the first position whose key no other exceeds.
  function BestOf(keys: seq<Key>): (b: nat)
    requires keys != []
    ensures b < |keys|
  {
    if |keys| == 1 then 0
    else
      var last := |keys| - 1;
      var b := BestOf(keys[..last]);
      if KeyLe(keys[last], keys[b]) then b else last
  }

  function BestIndex(remaining: seq<Entry>, ranked: seq<Entry>, unknownPenalty: real): (b: nat)
    requires remaining != [] && unknownPenalty >= 1.0
    ensures b < |remaining|
  {
    BestOf(KeysOf(remaining, ranked, unknownPenalty))
  }

  function Without(s: seq<Entry>, i: nat): seq<Entry>
    requires i < |s|
  {
    s[..i] + s[i + 1..]
  }

  function Rank(remaining: seq<Entry>, ranked: seq<Entry>, unknownPenalty: real, size: nat): seq<Entry>
    requires unknownPenalty >= 1.0
    decreases |remaining|
  {
    if remaining == [] || |ranked| >= size then ranked
    else
      var b := BestIndex(remaining, ranked, unknownPenalty);
      Rank(Without(remaining, b), ranked + [Scored(remaining[b], ranked, unknownPenalty)], unknownPenalty, size)
  }

  // What `Rank` leaves unranked.
  ghost function Leftover(remaining: seq<Entry>, ranked: seq<Entry>, unknownPenalty: real, size: nat): seq<Entry>
    requires unknownPenalty >= 1.0
    decreases |remaining|
  {
    if remaining == [] || |ranked| >= size then remaining
    else
      var b := BestIndex(remaining, ranked, unknownPenalty);
      Leftover(Without(remaining, b), ranked + [Scored(remaining[b], ranked, unknownPenalty)], unknownPenalty, size)
  }

  function Eligible(entries: seq<Entry>, minScore: real): seq<Entry> {
    if entries == [] then []
    else
      var rest := Eligible(entries[..|entries| - 1], minScore);
      var e := entries[|entries| - 1];
      if BaseScore(e) >= minScore then rest + [e] else rest
  }

  // ---------- The loops ----------

  function CountIn(counts: map<string, nat>, k: string): nat { if k in counts then counts[k] else 0 }

  ghost predicate CountsMatch(asnCounts: map<string, nat>, subnetCounts: map<string, nat>, ranked: seq<Entry>) {
    && (forall a :: CountIn(asnCounts, a) == CountAsn(ranked, a))
    && (forall s :: CountIn(subnetCounts, s) == CountSubnet(ranked, s))
  }

  // `adjusted_score`: the key computed from the running counters.
  function AdjustedScore(e: Entry, asnCounts: map<string, nat>, subnetCounts: map<string, nat>,
                         unknownPenalty: real): Key
    requires unknownPenalty >= 1.0
  {
    var penalty := if AsnKey(e).None? then unknownPenalty else 1.0;
    var penalty := match AsnKey(e) case None => penalty case Some(a) => penalty + CountIn(asnCounts, a) as real;
    var penalty := match e.subnet case None => penalty case Some(s) => penalty + CountIn(subnetCounts, s) as real;
    Key(BaseScore(e) / penalty, BaseScore(e), e.address)
  }

  lemma AdjustedScoreIsKey(e: Entry, asnCounts: map<string, nat>, subnetCounts: map<string, nat>,
                           ranked: seq<Entry>, unknownPenalty: real)
    requires unknownPenalty >= 1.0 && CountsMatch(asnCounts, subnetCounts, ranked)
    ensures AdjustedScore(e, asnCounts, subnetCounts, unknownPenalty) == KeyOf(e, ranked, unknownPenalty)
  {
  }

  lemma CountsAfterPick(asnCounts: map<string, nat>, subnetCounts: map<string, nat>, ranked: seq<Entry>, e: Entry)
    requires CountsMatch(asnCounts, subnetCounts, ranked)
    ensures CountsMatch(BumpAsn(asnCounts, e), BumpSubnet(subnetCounts, e), ranked + [e])
  {
  }

  // `if selected_asn: asn_counts[selected_asn] += 1`, and the same for subnets.
  function BumpAsn(counts: map<string, nat>, e: Entry): map<string, nat> {
    match AsnKey(e) case None => counts case Some(a) => counts[a := CountIn(counts, a) + 1]
  }

  function BumpSubnet(counts: map<string, nat>, e: Entry): map<string, nat> {
    match e.subnet case None => counts case Some(s) => counts[s := CountIn(counts, s) + 1]
  }

  method SelectMax(remaining: seq<Entry>, asnCounts: map<string, nat>, subnetCounts: map<string, nat>,
                   unknownPenalty: real, ghost ranked: seq<Entry>)
    returns (selected: Entry)
    requires remaining != [] && unknownPenalty >= 1.0 && CountsMatch(asnCounts, subnetCounts, ranked)
    ensures selected == remaining[BestIndex(remaining, ranked, unknownPenalty)]
  {
    selected := remaining[0];
    ghost var index := 0;
    ghost var keys := KeysOf(remaining, ranked, unknownPenalty);
    for i := 1 to |remaining|
      invariant index < i && selected == remaining[index]
      invariant index == BestOf(keys[..i])
    {
      assert keys[..i + 1][..i] == keys[..i];
      AdjustedScoreIsKey(remaining[i], asnCounts, subnetCounts, ranked, unknownPenalty);
      AdjustedScoreIsKey(selected, asnCounts, subnetCounts, ranked, unknownPenalty);
      var candidate := AdjustedScore(remaining[i], asnCounts, subnetCounts, unknownPenalty);
      var best := AdjustedScore(selected, asnCounts, subnetCounts, unknownPenalty);
      if !KeyLe(candidate, best) {
        selected, index := remaining[i], i;
      }
    }
    assert keys[..|keys|] == keys;
  }

  // `list.remove`: deletes the first entry that equals `selected`.
  method RemoveFirst(remaining: seq<Entry>, selected: Entry) returns (rest: seq<Entry>, ghost at: nat)
    requires selected in remaining
    ensures at < |remaining| && remaining[at] == selected && rest == Without(remaining, at)
    ensures forall i :: 0 <= i < at ==> remaining[i] != selected
  {
    ghost var k :| 0 <= k < |remaining| && remaining[k] == selected;
    var i := 0;
    while remaining[i] != selected
      invariant i <= k && forall j :: 0 <= j < i ==> remaining[j] != selected
      decreases k - i
    {
      i := i + 1;
    }
    return remaining[..i] + remaining[i + 1..], i;
  }

  lemma {:induction false} BestOfIsFirstMaximum(keys: seq<Key>)
    requires keys != []
    ensures forall i :: 0 <= i < |keys| ==> KeyLe(keys[i], keys[BestOf(keys)])
    ensures forall i :: 0 <= i < BestOf(keys) ==> !KeyLe(keys[BestOf(keys)], keys[i])
  {
    var last := |keys| - 1;
    KeyLeTotal(keys[last], keys[last]);
    if last > 0 {
      BestOfIsFirstMaximum(keys[..last]);
      var best := keys[BestOf(keys[..last])];
      forall i | 0 <= i < last
        ensures KeyLe(keys[i], best)
        ensures !KeyLe(keys[last], best) ==> KeyLe(keys[i], keys[last]) && !KeyLe(keys[last], keys[i])
      {
        assert keys[..last][i] == keys[i];
        OvertakesAll(keys[i], best, keys[last]);
      }
    }
  }

  // Everything before the picked index has a strictly smaller key, so it differs.
  lemma BestIsFirstMaximum(remaining: seq<Entry>, ranked: seq<Entry>, unknownPenalty: real)
    requires remaining != [] && unknownPenalty >= 1.0
    ensures var b := BestIndex(remaining, ranked, unknownPenalty);
      && (forall i :: 0 <= i < |remaining| ==>
            KeyLe(KeyOf(remaining[i], ranked, unknownPenalty), KeyOf(remaining[b], ranked, unknownPenalty)))
      && (forall i :: 0 <= i < b ==>
            !KeyLe(KeyOf(remaining[b], ranked, unknownPenalty), KeyOf(remaining[i], ranked, unknownPenalty)))
  {
    var keys := KeysOf(remaining, ranked, unknownPenalty);
    BestOfIsFirstMaximum(keys);
    var b := BestOf(keys);
    forall i | 0 <= i < |remaining|
      ensures KeyLe(KeyOf(remaining[i], ranked, unknownPenalty), KeyOf(remaining[b], ranked, unknownPenalty))
      ensures i < b ==> !KeyLe(KeyOf(remaining[b], ranked, unknownPenalty), KeyOf(remaining[i], ranked, unknownPenalty))
    {
      assert keys[i] == KeyOf(remaining[i], ranked, unknownPenalty);
      assert keys[b] == KeyOf(remaining[b], ranked, unknownPenalty);
    }
  }

  lemma OvertakesAll(k: Key, best: Key, top: Key)
    requires KeyLe(k, best)
    ensures !KeyLe(top, best) ==> KeyLe(k, top) && !KeyLe(top, k)
  {
    if !KeyLe(top, best) {
      KeyLeTotal(top, best);
      KeyLeTransitive(k, best, top);
      if KeyLe(top, k) { KeyLeTransitive(top, k, best); }
    }
  }

  lemma RemoveDeletesThePick(remaining: seq<Entry>, ranked: seq<Entry>, unknownPenalty: real, at: nat)
    requires remaining != [] && unknownPenalty >= 1.0
    requires at < |remaining| && remaining[at] == remaining[BestIndex(remaining, ranked, unknownPenalty)]
    requires forall i :: 0 <= i < at ==> remaining[i] != remaining[at]
    ensures at == BestIndex(remaining, ranked, unknownPenalty)
  {
    BestIsFirstMaximum(remaining, ranked, unknownPenalty);
    KeyLeTotal(KeyOf(remaining[at], ranked, unknownPenalty), KeyOf(remaining[at], ranked, unknownPenalty));
  }

  method RankEntries(entries: seq<Entry>, reserveSize: int, minScore: real, unknownPenalty: real)
    returns (r: Result<seq<Entry>>)
    ensures reserveSize < 1 || unknownPenalty < 1.0 ==> r == Err(ValueError)
    ensures reserveSize >= 1 && unknownPenalty >= 1.0 ==>
      r == Ok(Rank(Eligible(entries, minScore), [], unknownPenalty, reserveSize))
  {
    if reserveSize < 1 { return Err(ValueError); }
    if unknownPenalty < 1.0 { return Err(ValueError); }
    var remaining := [];
    for i := 0 to |entries|
      invariant remaining == Eligible(entries[..i], minScore)
    {
      assert entries[..i + 1][..i] == entries[..i];
      if BaseScore(entries[i]) >= minScore { remaining := remaining + [entries[i]]; }
    }
    assert entries[..|entries|] == entries;
    var asnCounts: map<string, nat>, subnetCounts: map<string, nat> := map[], map[];
    var ranked: seq<Entry> := [];
    ghost var goal := Rank(remaining, [], unknownPenalty, reserveSize);
    while remaining != [] && |ranked| < reserveSize
      invariant CountsMatch(asnCounts, subnetCounts, ranked)
      invariant Rank(remaining, ranked, unknownPenalty, reserveSize) == goal
      decreases |remaining|
    {
      var selected := SelectMax(remaining, asnCounts, subnetCounts, unknownPenalty, ranked);
      var rest, at := RemoveFirst(remaining, selected);
      RemoveDeletesThePick(remaining, ranked, unknownPenalty, at);
      var key := AdjustedScore(selected, asnCounts, subnetCounts, unknownPenalty);
      var picked := selected.(baseScore := Round6(key.base), score := Round6(key.adjusted));
      AdjustedScoreIsKey(selected, asnCounts, subnetCounts, ranked, unknownPenalty);
      CountsAfterPick(asnCounts, subnetCounts, ranked, picked);
      remaining, ranked := rest, ranked + [picked];
      asnCounts, subnetCounts := BumpAsn(asnCounts, picked), BumpSubnet(subnetCounts, picked);
    }
    return Ok(ranked);
  }
}
