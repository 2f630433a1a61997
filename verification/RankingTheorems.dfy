/** What the ranking promises: a specification that determines its output, and
    the consequences of it (order independence, prefix stability, descending
    scores, the diversity bound). */
module RankingTheorems {
  import opened Prelude
  import opened Ranking
  import opened Text

  // ---------- A specification that mentions no loop ----------

  /** `out` ranks `entries`: it has the right length, it and `left` together are
      exactly the input, and each pick has the greatest key among everything not
      picked before it, with penalties counted over the whole earlier prefix. */
  ghost predicate GreedyRanking(entries: seq<Entry>, out: seq<Entry>, left: seq<Entry>,
                                unknownPenalty: real, size: nat)
    requires unknownPenalty >= 1.0
  {
    && |out| == Min(size, |entries|)
    && multiset(PlainAll(out)) + multiset(PlainAll(left)) == multiset(PlainAll(entries))
    && (forall i :: 0 <= i < |out| ==> PickIsBest(out, left, unknownPenalty, i))
  }

  ghost predicate PickIsBest(out: seq<Entry>, left: seq<Entry>, unknownPenalty: real, i: nat)
    requires unknownPenalty >= 1.0 && i < |out|
  {
    && out[i] == Scored(out[i], out[..i], unknownPenalty)
    && (forall j :: i <= j < |out| ==> Dominates(out, i, unknownPenalty, out[j]))
    && (forall j :: 0 <= j < |left| ==> Dominates(out, i, unknownPenalty, left[j]))
  }

  ghost predicate Dominates(out: seq<Entry>, i: nat, unknownPenalty: real, e: Entry)
    requires unknownPenalty >= 1.0 && i < |out|
  {
    KeyLe(KeyOf(e, out[..i], unknownPenalty), KeyOf(out[i], out[..i], unknownPenalty))
  }

  // Keys do not look at the two score fields.
  lemma PlainKey(a: Entry, b: Entry, ranked: seq<Entry>, unknownPenalty: real)
    requires unknownPenalty >= 1.0 && Plain(a) == Plain(b)
    ensures KeyOf(a, ranked, unknownPenalty) == KeyOf(b, ranked, unknownPenalty)
    ensures AsnKey(a) == AsnKey(b) && a.subnet == b.subnet
  {
  }

  lemma PlainAllConcat(a: seq<Entry>, b: seq<Entry>)
    ensures PlainAll(a + b) == PlainAll(a) + PlainAll(b)
  {
  }

  lemma PlainWithout(remaining: seq<Entry>, b: nat)
    requires b < |remaining|
    ensures multiset(PlainAll(remaining))
         == multiset(PlainAll(Without(remaining, b))) + multiset{Plain(remaining[b])}
  {
    var p := PlainAll(remaining);
    assert PlainAll(Without(remaining, b)) == p[..b] + p[b + 1..];
    assert p == p[..b] + [p[b]] + p[b + 1..];
  }

  lemma PlainHead(s: seq<Entry>, i: nat)
    requires i < |s|
    ensures multiset(PlainAll(s[i..])) == multiset{Plain(s[i])} + multiset(PlainAll(s[i + 1..]))
  {
    assert PlainAll(s[i..]) == [Plain(s[i])] + PlainAll(s[i + 1..]);
  }

  lemma {:induction false} RankExtends(remaining: seq<Entry>, ranked: seq<Entry>, unknownPenalty: real, size: nat)
    requires unknownPenalty >= 1.0
    ensures ranked <= Rank(remaining, ranked, unknownPenalty, size)
    ensures |ranked| <= size ==>
      |Rank(remaining, ranked, unknownPenalty, size)| == Min(size, |ranked| + |remaining|)
    decreases |remaining|
  {
    if remaining != [] && |ranked| < size {
      var b := BestIndex(remaining, ranked, unknownPenalty);
      RankExtends(Without(remaining, b), ranked + [Scored(remaining[b], ranked, unknownPenalty)], unknownPenalty, size);
    }
  }

  // Nothing is lost or invented: the ranked list and the leftover are the input.
  lemma {:induction false} RankConserves(remaining: seq<Entry>, ranked: seq<Entry>, unknownPenalty: real, size: nat)
    requires unknownPenalty >= 1.0
    ensures var out := Rank(remaining, ranked, unknownPenalty, size);
            var left := Leftover(remaining, ranked, unknownPenalty, size);
      |ranked| <= |out| &&
      multiset(PlainAll(out[|ranked|..])) + multiset(PlainAll(left)) == multiset(PlainAll(remaining))
    decreases |remaining|
  {
    RankExtends(remaining, ranked, unknownPenalty, size);
    var out := Rank(remaining, ranked, unknownPenalty, size);
    if remaining == [] || |ranked| >= size {
      assert out[|ranked|..] == [];
      assert PlainAll(out[|ranked|..]) == [];
    } else {
      var b := BestIndex(remaining, ranked, unknownPenalty);
      var pick := Scored(remaining[b], ranked, unknownPenalty);
      RankConserves(Without(remaining, b), ranked + [pick], unknownPenalty, size);
      RankExtends(Without(remaining, b), ranked + [pick], unknownPenalty, size);
      PlainWithout(remaining, b);
      assert out[|ranked|] == (ranked + [pick])[|ranked|] == pick && Plain(pick) == Plain(remaining[b]);
      PlainHead(out, |ranked|);
    }
  }

  lemma {:induction false} RankPicksBest(remaining: seq<Entry>, ranked: seq<Entry>, unknownPenalty: real,
                                         size: nat, i: nat)
    requires unknownPenalty >= 1.0
    requires |ranked| <= i < |Rank(remaining, ranked, unknownPenalty, size)|
    ensures PickIsBest(Rank(remaining, ranked, unknownPenalty, size),
                       Leftover(remaining, ranked, unknownPenalty, size), unknownPenalty, i)
    decreases |remaining|
  {
    var out := Rank(remaining, ranked, unknownPenalty, size);
    var left := Leftover(remaining, ranked, unknownPenalty, size);
    var b := BestIndex(remaining, ranked, unknownPenalty);
    var pick := Scored(remaining[b], ranked, unknownPenalty);
    RankExtends(Without(remaining, b), ranked + [pick], unknownPenalty, size);
    if i > |ranked| {
      RankPicksBest(Without(remaining, b), ranked + [pick], unknownPenalty, size, i);
    } else {
      assert (ranked + [pick])[i] == out[i] && (ranked + [pick])[..i] == ranked && out[..i] == ranked;
      PlainKey(pick, remaining[b], ranked, unknownPenalty);
      forall e | Plain(e) in multiset(PlainAll(remaining)) ensures Dominates(out, i, unknownPenalty, e) {
        BestDominates(remaining, ranked, unknownPenalty, e);
      }
      RankConserves(remaining, ranked, unknownPenalty, size);
      forall j | i <= j < |out| ensures Dominates(out, i, unknownPenalty, out[j]) {
        assert PlainAll(out[i..])[j - i] == Plain(out[j]);
      }
      forall j | 0 <= j < |left| ensures Dominates(out, i, unknownPenalty, left[j]) {
        assert PlainAll(left)[j] == Plain(left[j]);
      }
    }
  }

  lemma BestDominates(remaining: seq<Entry>, ranked: seq<Entry>, unknownPenalty: real, e: Entry)
    requires unknownPenalty >= 1.0 && Plain(e) in multiset(PlainAll(remaining))
    ensures remaining != []
    ensures KeyLe(KeyOf(e, ranked, unknownPenalty),
                  KeyOf(remaining[BestIndex(remaining, ranked, unknownPenalty)], ranked, unknownPenalty))
  {
    var k :| 0 <= k < |remaining| && PlainAll(remaining)[k] == Plain(e);
    PlainKey(e, remaining[k], ranked, unknownPenalty);
    BestIsFirstMaximum(remaining, ranked, unknownPenalty);
  }

  /** The loop's result meets the specification. */
  lemma RankIsGreedy(entries: seq<Entry>, unknownPenalty: real, size: nat)
    requires unknownPenalty >= 1.0
    ensures GreedyRanking(entries, Rank(entries, [], unknownPenalty, size),
                          Leftover(entries, [], unknownPenalty, size), unknownPenalty, size)
  {
    var out := Rank(entries, [], unknownPenalty, size);
    RankExtends(entries, [], unknownPenalty, size);
    RankConserves(entries, [], unknownPenalty, size);
    assert out[0..] == out;
    forall i | 0 <= i < |out| ensures PickIsBest(out, Leftover(entries, [], unknownPenalty, size), unknownPenalty, i) {
      RankPicksBest(entries, [], unknownPenalty, size, i);
    }
  }

  ghost predicate DistinctAddresses(es: seq<Entry>) {
    forall i, j :: 0 <= i < j < |es| ==> es[i].address != es[j].address
  }

  lemma SameAddressSameEntry(es: seq<Entry>, a: Entry, b: Entry)
    requires DistinctAddresses(es) && a.address == b.address
    requires Plain(a) in multiset(PlainAll(es)) && Plain(b) in multiset(PlainAll(es))
    ensures Plain(a) == Plain(b)
  {
  }

  // What is not in the prefix of a ranking is in its tail or its leftover.
  lemma RestOfRanking(entries: seq<Entry>, out: seq<Entry>, left: seq<Entry>, unknownPenalty: real, size: nat, i: nat)
    requires unknownPenalty >= 1.0 && GreedyRanking(entries, out, left, unknownPenalty, size) && i <= |out|
    ensures multiset(PlainAll(out[i..])) + multiset(PlainAll(left))
         == multiset(PlainAll(entries)) - multiset(PlainAll(out[..i]))
  {
    assert out == out[..i] + out[i..];
    PlainAllConcat(out[..i], out[i..]);
  }

  // Everything not yet ranked at step `i` is dominated by the pick.
  lemma PickDominatesRest(entries: seq<Entry>, out: seq<Entry>, left: seq<Entry>, unknownPenalty: real, size: nat,
                          i: nat, e: Entry)
    requires unknownPenalty >= 1.0 && GreedyRanking(entries, out, left, unknownPenalty, size) && i < |out|
    requires Plain(e) in multiset(PlainAll(entries)) - multiset(PlainAll(out[..i]))
    ensures Dominates(out, i, unknownPenalty, e)
  {
    RestOfRanking(entries, out, left, unknownPenalty, size, i);
    assert PickIsBest(out, left, unknownPenalty, i);
    if Plain(e) in PlainAll(out[i..]) {
      var k :| 0 <= k < |out| - i && PlainAll(out[i..])[k] == Plain(e);
      assert Dominates(out, i, unknownPenalty, out[i + k]);
      PlainKey(e, out[i + k], out[..i], unknownPenalty);
    } else {
      var k :| 0 <= k < |left| && PlainAll(left)[k] == Plain(e);
      assert Dominates(out, i, unknownPenalty, left[k]);
      PlainKey(e, left[k], out[..i], unknownPenalty);
    }
  }

  lemma KeyLeAntisymmetric(a: Key, b: Key)
    requires KeyLe(a, b) && KeyLe(b, a)
    ensures a == b
  {
    TextLeAntisymmetric(a.address, b.address);
  }

  // Two rankings of one input that agree so far make the same next pick.
  lemma SamePick(entries: seq<Entry>, out: seq<Entry>, left: seq<Entry>,
                 entries': seq<Entry>, out': seq<Entry>, left': seq<Entry>,
                 unknownPenalty: real, size: nat, k: nat)
    requires unknownPenalty >= 1.0 && DistinctAddresses(entries)
    requires multiset(PlainAll(entries)) == multiset(PlainAll(entries'))
    requires GreedyRanking(entries, out, left, unknownPenalty, size)
    requires GreedyRanking(entries', out', left', unknownPenalty, size)
    requires k < |out| && k < |out'| && out[..k] == out'[..k]
    ensures Plain(out[k]) == Plain(out'[k])
  {
    UnpickedAt(entries, out, left, unknownPenalty, size, k);
    UnpickedAt(entries', out', left', unknownPenalty, size, k);
    PickDominatesRest(entries, out, left, unknownPenalty, size, k, out'[k]);
    PickDominatesRest(entries', out', left', unknownPenalty, size, k, out[k]);
    KeyLeAntisymmetric(KeyOf(out[k], out[..k], unknownPenalty), KeyOf(out'[k], out[..k], unknownPenalty));
    SameAddressSameEntry(entries, out[k], out'[k]);
  }

  // The published score fields follow from the pick and what was picked before.
  lemma SameScores(out: seq<Entry>, left: seq<Entry>, out': seq<Entry>, left': seq<Entry>, unknownPenalty: real, k: nat)
    requires unknownPenalty >= 1.0 && k < |out| && k < |out'| && out[..k] == out'[..k]
    requires PickIsBest(out, left, unknownPenalty, k) && PickIsBest(out', left', unknownPenalty, k)
    requires Plain(out[k]) == Plain(out'[k])
    ensures out[k] == out'[k]
  {
    PlainKey(out[k], out'[k], out[..k], unknownPenalty);
    assert out[k] == Plain(out[k]).(baseScore := out[k].baseScore, score := out[k].score);
    assert out'[k] == Plain(out'[k]).(baseScore := out'[k].baseScore, score := out'[k].score);
  }

  /** With distinct addresses the specification has exactly one answer, and it
      depends only on the input as a multiset. */
  lemma {:induction false} GreedyRankingUnique(entries: seq<Entry>, out: seq<Entry>, left: seq<Entry>,
                            entries': seq<Entry>, out': seq<Entry>, left': seq<Entry>,
                            unknownPenalty: real, size: nat, i: nat)
    requires unknownPenalty >= 1.0 && DistinctAddresses(entries)
    requires multiset(PlainAll(entries)) == multiset(PlainAll(entries'))
    requires GreedyRanking(entries, out, left, unknownPenalty, size)
    requires GreedyRanking(entries', out', left', unknownPenalty, size)
    requires i <= |out|
    ensures |out| == |out'| && out[..i] == out'[..i]
  {
    SameLength(PlainAll(entries), PlainAll(entries'));
    if i > 0 {
      var k := i - 1;
      GreedyRankingUnique(entries, out, left, entries', out', left', unknownPenalty, size, k);
      SamePick(entries, out, left, entries', out', left', unknownPenalty, size, k);
      SameScores(out, left, out', left', unknownPenalty, k);
      assert out[..i] == out[..k] + [out[k]] && out'[..i] == out'[..k] + [out'[k]];
    }
  }

  lemma UnpickedAt(entries: seq<Entry>, out: seq<Entry>, left: seq<Entry>, unknownPenalty: real, size: nat, i: nat)
    requires unknownPenalty >= 1.0 && GreedyRanking(entries, out, left, unknownPenalty, size) && i < |out|
    ensures Plain(out[i]) in multiset(PlainAll(entries)) - multiset(PlainAll(out[..i]))
    ensures Plain(out[i]) in multiset(PlainAll(entries))
  {
    RestOfRanking(entries, out, left, unknownPenalty, size, i);
    assert PlainAll(out[i..])[0] == Plain(out[i]);
  }

  lemma SameLength(a: seq<Entry>, b: seq<Entry>)
    requires multiset(a) == multiset(b)
    ensures |a| == |b|
  {
    assert |multiset(a)| == |a| && |multiset(b)| == |b|;
  }

  lemma {:induction false} EligibleCount(entries: seq<Entry>, minScore: real, e: Entry)
    ensures multiset(Eligible(entries, minScore))[e] == if BaseScore(e) >= minScore then multiset(entries)[e] else 0
  {
    if entries != [] {
      var last := |entries| - 1;
      EligibleCount(entries[..last], minScore, e);
      assert entries == entries[..last] + [entries[last]];
    }
  }

  lemma MultisetWithout(s: seq<Entry>, i: nat)
    requires i < |s|
    ensures multiset(Without(s, i)) == multiset(s) - multiset{s[i]}
  {
    assert s == s[..i] + [s[i]] + s[i + 1..];
  }

  lemma {:induction false} PlainAllMultiset(a: seq<Entry>, b: seq<Entry>)
    requires multiset(a) == multiset(b)
    ensures multiset(PlainAll(a)) == multiset(PlainAll(b))
    decreases |a|
  {
    SameLength(a, b);
    if a != [] {
      assert a[0] in multiset(b);
      var k :| 0 <= k < |b| && b[k] == a[0];
      MultisetWithout(a, 0);
      MultisetWithout(b, k);
      PlainAllMultiset(Without(a, 0), Without(b, k));
      PlainWithout(a, 0);
      PlainWithout(b, k);
    }
  }

  lemma {:induction false} EligibleIsSublist(entries: seq<Entry>, minScore: real)
    requires DistinctAddresses(entries)
    ensures DistinctAddresses(Eligible(entries, minScore))
    ensures forall e :: e in Eligible(entries, minScore) ==> e in entries
  {
    if entries != [] {
      var last := |entries| - 1;
      EligibleIsSublist(entries[..last], minScore);
      var rest := Eligible(entries[..last], minScore);
      forall i | 0 <= i < |rest| ensures rest[i].address != entries[last].address {
        assert rest[i] in entries[..last];
      }
    }
  }

  /** Order independence: any permutation of a snapshot without repeated
      addresses is ranked identically, score fields included. */
  lemma OrderIndependent(entries: seq<Entry>, entries': seq<Entry>, minScore: real, unknownPenalty: real, size: nat)
    requires unknownPenalty >= 1.0 && DistinctAddresses(entries)
    requires multiset(entries) == multiset(entries')
    ensures Rank(Eligible(entries, minScore), [], unknownPenalty, size)
         == Rank(Eligible(entries', minScore), [], unknownPenalty, size)
  {
    var es, es' := Eligible(entries, minScore), Eligible(entries', minScore);
    forall e ensures multiset(es)[e] == multiset(es')[e] {
      EligibleCount(entries, minScore, e);
      EligibleCount(entries', minScore, e);
    }
    assert multiset(es) == multiset(es');
    PlainAllMultiset(es, es');
    EligibleIsSublist(entries, minScore);
    RankIsGreedy(es, unknownPenalty, size);
    RankIsGreedy(es', unknownPenalty, size);
    var out, out' := Rank(es, [], unknownPenalty, size), Rank(es', [], unknownPenalty, size);
    GreedyRankingUnique(es, out, Leftover(es, [], unknownPenalty, size),
                        es', out', Leftover(es', [], unknownPenalty, size), unknownPenalty, size, |out|);
    assert out[..|out|] == out && out'[..|out|] == out';
  }

  /** Prefix stability: a larger reserve only appends. */
  lemma {:induction false} LargerReserveAppends(remaining: seq<Entry>, ranked: seq<Entry>, unknownPenalty: real,
                                                size: nat, size': nat)
    requires unknownPenalty >= 1.0 && size <= size'
    ensures Rank(remaining, ranked, unknownPenalty, size) <= Rank(remaining, ranked, unknownPenalty, size')
    decreases |remaining|
  {
    if remaining == [] || |ranked| >= size {
      RankExtends(remaining, ranked, unknownPenalty, size');
    } else {
      var b := BestIndex(remaining, ranked, unknownPenalty);
      LargerReserveAppends(Without(remaining, b), ranked + [Scored(remaining[b], ranked, unknownPenalty)],
                           unknownPenalty, size, size');
    }
  }

  // ---------- Consequences of greediness ----------

  lemma {:induction false} CountsGrow(out: seq<Entry>, i: nat, j: nat, k: string)
    requires i <= j <= |out|
    ensures CountAsn(out[..i], k) <= CountAsn(out[..j], k)
    ensures CountSubnet(out[..i], k) <= CountSubnet(out[..j], k)
    decreases j
  {
    if i < j {
      assert out[..j][..j - 1] == out[..j - 1];
      CountsGrow(out, i, j - 1, k);
    }
  }

  lemma PenaltyGrows(out: seq<Entry>, i: nat, j: nat, e: Entry, unknownPenalty: real)
    requires unknownPenalty >= 1.0 && i <= j <= |out|
    ensures Penalty(e, out[..i], unknownPenalty) <= Penalty(e, out[..j], unknownPenalty)
  {
    if AsnKey(e).Some? { CountsGrow(out, i, j, AsnKey(e).value); }
    if e.subnet.Some? { CountsGrow(out, i, j, e.subnet.value); }
  }

  lemma DivideLe(x: real, p: real, q: real)
    requires x >= 0.0 && 0.0 < p <= q
    ensures 0.0 <= x / q <= x / p
  {
  }

  // Unrounded: the pick at `i` beats the later pick at `j` under any later prefix.
  lemma AdjustedDescends(out: seq<Entry>, left: seq<Entry>, unknownPenalty: real, i: nat, j: nat)
    requires unknownPenalty >= 1.0 && i <= j < |out| && PickIsBest(out, left, unknownPenalty, i)
    ensures KeyOf(out[i], out[..i], unknownPenalty).adjusted >= KeyOf(out[j], out[..j], unknownPenalty).adjusted >= 0.0
  {
    assert Dominates(out, i, unknownPenalty, out[j]);
    PenaltyGrows(out, i, j, out[j], unknownPenalty);
    DivideLe(BaseScore(out[j]), Penalty(out[j], out[..i], unknownPenalty), Penalty(out[j], out[..j], unknownPenalty));
  }

  /** Published scores never increase along the ranked list. */
  lemma ScoresDescend(entries: seq<Entry>, unknownPenalty: real, size: nat, i: nat, j: nat)
    requires unknownPenalty >= 1.0
    requires i <= j < |Rank(entries, [], unknownPenalty, size)|
    ensures var out := Rank(entries, [], unknownPenalty, size); out[i].score >= out[j].score >= 0.0
  {
    RankIsGreedy(entries, unknownPenalty, size);
    var out := Rank(entries, [], unknownPenalty, size);
    var left := Leftover(entries, [], unknownPenalty, size);
    assert PickIsBest(out, left, unknownPenalty, i) && PickIsBest(out, left, unknownPenalty, j);
    AdjustedDescends(out, left, unknownPenalty, i, j);
    ScoreOrder(out, unknownPenalty, i, j);
  }

  lemma ScoreOrder(out: seq<Entry>, unknownPenalty: real, i: nat, j: nat)
    requires unknownPenalty >= 1.0 && i <= j < |out|
    requires out[i] == Scored(out[i], out[..i], unknownPenalty) && out[j] == Scored(out[j], out[..j], unknownPenalty)
    requires KeyOf(out[i], out[..i], unknownPenalty).adjusted >= KeyOf(out[j], out[..j], unknownPenalty).adjusted >= 0.0
    ensures out[i].score >= out[j].score >= 0.0
  {
    Round6Monotone(KeyOf(out[j], out[..j], unknownPenalty).adjusted, KeyOf(out[i], out[..i], unknownPenalty).adjusted);
    Round6Monotone(0.0, KeyOf(out[j], out[..j], unknownPenalty).adjusted);
  }

  lemma SamePenaltyOrder(x: real, y: real, p: real)
    requires p > 0.0
    ensures x / p <= y / p <==> x <= y
  {
  }

  /** In every ranking that meets the specification, entries that share both the
      ASN key and the subnet key keep their own order: descending base score,
      ties by descending address. */
  lemma SameGroupDescends(entries: seq<Entry>, out: seq<Entry>, left: seq<Entry>, unknownPenalty: real, size: nat,
                          i: nat, j: nat)
    requires unknownPenalty >= 1.0 && GreedyRanking(entries, out, left, unknownPenalty, size)
    requires i < j < |out| && AsnKey(out[i]) == AsnKey(out[j]) && out[i].subnet == out[j].subnet
    ensures BaseScore(out[i]) >= BaseScore(out[j])
    ensures BaseScore(out[i]) == BaseScore(out[j]) ==> TextLe(out[j].address, out[i].address)
  {
    assert PickIsBest(out, left, unknownPenalty, i) && Dominates(out, i, unknownPenalty, out[j]);
    var p := Penalty(out[i], out[..i], unknownPenalty);
    assert p == Penalty(out[j], out[..i], unknownPenalty);
    SamePenaltyOrder(BaseScore(out[j]), BaseScore(out[i]), p);
    SamePenaltyOrder(BaseScore(out[i]), BaseScore(out[j]), p);
  }

  // `c` is still unranked at step `i` and would be picked at its full base score.
  ghost predicate FreshAt(entries: seq<Entry>, out: seq<Entry>, i: nat, c: Entry)
    requires i <= |out|
  {
    && Plain(c) in multiset(PlainAll(entries)) - multiset(PlainAll(out[..i]))
    && AsnKey(c).Some? && CountAsn(out[..i], AsnKey(c).value) == 0
    && (c.subnet.Some? ==> CountSubnet(out[..i], c.subnet.value) == 0)
  }

  // In plain numbers: the pick's base and divisor against the waiting base.
  lemma FreshIsDominated(entries: seq<Entry>, out: seq<Entry>, left: seq<Entry>, unknownPenalty: real, size: nat,
                         i: nat, c: Entry, base: real, divisor: real, waiting: real)
    requires unknownPenalty >= 1.0 && GreedyRanking(entries, out, left, unknownPenalty, size) && i < |out|
    requires FreshAt(entries, out, i, c)
    requires base == BaseScore(out[i]) && waiting == BaseScore(c)
    requires divisor == Penalty(out[i], out[..i], unknownPenalty)
    ensures divisor >= 1.0 && base / divisor >= waiting > 2.0 && base <= 520.0
  {
    PickDominatesRest(entries, out, left, unknownPenalty, size, i, c);
    assert Penalty(c, out[..i], unknownPenalty) == 1.0;
  }

  lemma QuotientBound(base: real, divisor: real, waiting: real)
    requires divisor >= 1.0 && base / divisor >= waiting > 2.0 && base <= 520.0
    ensures base >= divisor * waiting && divisor < 260.0
  {
    var q := base / divisor;
    assert base == q * divisor;
    assert (q - waiting) * divisor >= 0.0;
    assert divisor * (waiting - 2.0) > 0.0;
  }

  /** What repetition costs pick `i`: the k-th of its ASN and the m-th of its
      subnet counts k + m - 1, an unknown ASN counts as the penalty. */
  function Repetition(out: seq<Entry>, i: nat, unknownPenalty: real): real
    requires i < |out|
  {
    (match AsnKey(out[i]) case None => unknownPenalty case Some(a) => CountAsn(out[..i + 1], a) as real)
    + (match out[i].subnet case None => 0.0 case Some(s) => (CountSubnet(out[..i + 1], s) - 1) as real)
  }

  lemma RepetitionIsPenalty(out: seq<Entry>, i: nat, unknownPenalty: real)
    requires unknownPenalty >= 1.0 && i < |out|
    ensures Repetition(out, i, unknownPenalty) == Penalty(out[i], out[..i], unknownPenalty)
    ensures AsnKey(out[i]).Some? ==>
      1.0 <= CountAsn(out[..i + 1], AsnKey(out[i]).value) as real <= Repetition(out, i, unknownPenalty)
    ensures out[i].subnet.Some? ==>
      1.0 <= CountSubnet(out[..i + 1], out[i].subnet.value) as real <= Repetition(out, i, unknownPenalty)
    ensures AsnKey(out[i]).None? ==> unknownPenalty <= Repetition(out, i, unknownPenalty)
  {
    assert out[..i + 1][..i] == out[..i];
  }

  /** Diversity: while a candidate with an unused verified ASN and an unused
      subnet waits, a pick must beat its base score by the factor its repetition
      costs; base scores lie in (2, 520], so that factor stays below 260. */
  lemma DiversityBound(entries: seq<Entry>, out: seq<Entry>, left: seq<Entry>, unknownPenalty: real, size: nat,
                       i: nat, c: Entry, base: real, factor: real, waiting: real)
    requires unknownPenalty >= 1.0 && GreedyRanking(entries, out, left, unknownPenalty, size)
    requires i < |out| && FreshAt(entries, out, i, c)
    requires base == BaseScore(out[i]) && factor == Repetition(out, i, unknownPenalty) && waiting == BaseScore(c)
    ensures base >= factor * waiting && factor < 260.0
  {
    assert factor == Penalty(out[i], out[..i], unknownPenalty) by { RepetitionIsPenalty(out, i, unknownPenalty); }
    FreshIsDominated(entries, out, left, unknownPenalty, size, i, c, base, factor, waiting);
    QuotientBound(base, factor, waiting);
  }

  /** So neither an ASN nor a subnet is picked for the 260th time while such a
      candidate waits, and with a penalty of 260 or more no unknown ASN is. */
  lemma RepetitionIsBounded(entries: seq<Entry>, out: seq<Entry>, left: seq<Entry>, unknownPenalty: real, size: nat,
                            i: nat, c: Entry)
    requires unknownPenalty >= 1.0 && GreedyRanking(entries, out, left, unknownPenalty, size)
    requires i < |out| && FreshAt(entries, out, i, c)
    ensures AsnKey(out[i]).Some? ==> 1 <= CountAsn(out[..i + 1], AsnKey(out[i]).value) < 260
    ensures out[i].subnet.Some? ==> 1 <= CountSubnet(out[..i + 1], out[i].subnet.value) < 260
    ensures AsnKey(out[i]).None? ==> unknownPenalty < 260.0
  {
    RepetitionIsPenalty(out, i, unknownPenalty);
    DiversityBound(entries, out, left, unknownPenalty, size, i, c,
                   BaseScore(out[i]), Repetition(out, i, unknownPenalty), BaseScore(c));
  }

  lemma LatencyOrder(a: int, b: int)
    requires 1 <= a <= b
    ensures LatencyComponent(a) >= LatencyComponent(b)
    ensures a < b ==> LatencyComponent(a) > LatencyComponent(b)
  {
    var x, y := 1.0 + a as real, 1.0 + b as real;
    assert (1000.0 / x) * x == 1000.0 && (1000.0 / y) * y == 1000.0;
    DivideLe(1000.0, x, y);
    assert a < b ==> (1000.0 / x) * (y - x) > 0.0;
  }

  /** The base score rewards lower latency and longer streaks, up to ten cycles. */
  lemma BaseScoreOrder(e: Entry, f: Entry)
    requires Max(1, e.latencyMs) <= Max(1, f.latencyMs)
    requires Min(Max(1, e.successStreak), 10) >= Min(Max(1, f.successStreak), 10)
    ensures BaseScore(e) >= BaseScore(f)
    ensures BaseScore(e) == BaseScore(f) <==>
      Max(1, e.latencyMs) == Max(1, f.latencyMs)
      && Min(Max(1, e.successStreak), 10) == Min(Max(1, f.successStreak), 10)
  {
    LatencyOrder(Max(1, e.latencyMs), Max(1, f.latencyMs));
  }

  // ---------- The formulas, in numbers ----------

  predicate IsUnknown(e: Entry) {
    e.network.None? || e.network.value.asnStatus != "verified" || Strip(e.network.value.asn) == ""
  }

  // Both have a verified ASN, and up to case and surrounding white space it is the same.
  predicate SameAsn(e: Entry, f: Entry) {
    !IsUnknown(e) && !IsUnknown(f) && Upper(Strip(e.network.value.asn)) == Upper(Strip(f.network.value.asn))
  }

  lemma AsnIsVerified(e: Entry, f: Entry)
    ensures AsnKey(e).None? <==> IsUnknown(e)
    ensures SameAsn(e, f) <==> AsnKey(e).Some? && AsnKey(f) == AsnKey(e)
  {
  }

  // The positions of the entries before that share a verified ASN, or a subnet, with `e`.
  function SharingAsn(e: Entry, before: seq<Entry>): set<int> { set j | 0 <= j < |before| && SameAsn(e, before[j]) }

  function SharingSubnet(e: Entry, before: seq<Entry>): set<int> {
    set j | 0 <= j < |before| && e.subnet.Some? && before[j].subnet == e.subnet
  }

  function KeyedAt(asn: string, before: seq<Entry>): set<int> {
    set j | 0 <= j < |before| && AsnKey(before[j]) == Some(asn)
  }

  lemma {:induction false} CountIsKeyed(asn: string, before: seq<Entry>)
    ensures CountAsn(before, asn) == |KeyedAt(asn, before)|
  {
    if before != [] {
      var k := |before| - 1;
      CountIsKeyed(asn, before[..k]);
      assert KeyedAt(asn, before)
          == KeyedAt(asn, before[..k]) + if AsnKey(before[k]) == Some(asn) then {k} else {};
    }
  }

  lemma CountIsSharingAsn(e: Entry, before: seq<Entry>)
    ensures |SharingAsn(e, before)| == if AsnKey(e).Some? then CountAsn(before, AsnKey(e).value) else 0
  {
    forall j | 0 <= j < |before|
      ensures SameAsn(e, before[j]) <==> AsnKey(e).Some? && AsnKey(before[j]) == AsnKey(e)
    {
      AsnIsVerified(e, before[j]);
    }
    if AsnKey(e).Some? {
      CountIsKeyed(AsnKey(e).value, before);
      assert SharingAsn(e, before) == KeyedAt(AsnKey(e).value, before);
    } else {
      assert SharingAsn(e, before) == {};
    }
  }

  lemma {:induction false} CountIsSharingSubnet(e: Entry, before: seq<Entry>)
    ensures |SharingSubnet(e, before)| == if e.subnet.Some? then CountSubnet(before, e.subnet.value) else 0
  {
    if before != [] {
      var k := |before| - 1;
      CountIsSharingSubnet(e, before[..k]);
      assert SharingSubnet(e, before)
          == SharingSubnet(e, before[..k]) + if e.subnet.Some? && before[k].subnet == e.subnet then {k} else {};
    }
  }

  // 1000 / (1 + latency) + 2 * streak, with the latency at least 1 ms and the streak 1 to 10.
  ghost predicate IsBaseScore(e: Entry, base: real) {
    var latency := if e.latencyMs < 1 then 1 else e.latencyMs;
    var streak := if e.successStreak < 1 then 1 else if e.successStreak > 10 then 10 else e.successStreak;
    (base - 2.0 * streak as real) * (latency + 1) as real == 1000.0
  }

  // 1, or the penalty for an unknown ASN, plus one for each earlier entry of the same ASN and
  // one for each of the same subnet.
  ghost predicate IsDivisor(e: Entry, before: seq<Entry>, unknownPenalty: real, divisor: real) {
    divisor == (if IsUnknown(e) then unknownPenalty else 1.0)
               + |SharingAsn(e, before)| as real + |SharingSubnet(e, before)| as real
  }

  lemma BaseScoreFormula(e: Entry)
    ensures IsBaseScore(e, BaseScore(e))
  {
    var latency, streak := Max(1, e.latencyMs), Min(Max(1, e.successStreak), 10);
    var x := 1.0 + latency as real;
    assert BaseScore(e) - 2.0 * streak as real == 1000.0 / x && (latency + 1) as real == x;
    assert (1000.0 / x) * x == 1000.0;
    assert (BaseScore(e) - 2.0 * streak as real) * (latency + 1) as real == 1000.0;
  }

  lemma DivisorFormula(e: Entry, before: seq<Entry>, unknownPenalty: real)
    requires unknownPenalty >= 1.0
    ensures IsDivisor(e, before, unknownPenalty, Penalty(e, before, unknownPenalty))
  {
    AsnIsVerified(e, e);
    CountIsSharingAsn(e, before);
    CountIsSharingSubnet(e, before);
  }

  ghost predicate Near(published: real, exact: real) {
    -0.0000005 <= published - exact <= 0.0000005
  }

  lemma RoundedIsNear(x: real)
    ensures Near(Round6(x), x)
  {
    RoundIsNearest(x * 1000000.0);
    var n := RoundHalfEven(x * 1000000.0) as real;
    assert Round6(x) * 1000000.0 == n;
  }

  /** The published numbers: each entry's base score and score are, to half a millionth, the
      base score its latency and streak give and that divided by its diversity divisor. */
  lemma PublishedScores(entries: seq<Entry>, unknownPenalty: real, size: nat, i: nat)
    returns (base: real, divisor: real)
    requires unknownPenalty >= 1.0 && i < |Rank(entries, [], unknownPenalty, size)|
    ensures var out := Rank(entries, [], unknownPenalty, size);
      && IsBaseScore(out[i], base) && IsDivisor(out[i], out[..i], unknownPenalty, divisor) && divisor >= 1.0
      && Near(out[i].baseScore, base) && Near(out[i].score, base / divisor)
  {
    var out, left := Rank(entries, [], unknownPenalty, size), Leftover(entries, [], unknownPenalty, size);
    RankIsGreedy(entries, unknownPenalty, size);
    assert PickIsBest(out, left, unknownPenalty, i);
    base, divisor := BaseScore(out[i]), Penalty(out[i], out[..i], unknownPenalty);
    BaseScoreFormula(out[i]);
    DivisorFormula(out[i], out[..i], unknownPenalty);
    RoundedIsNear(base);
    RoundedIsNear(base / divisor);
  }

  /** Who is picked: of everything still waiting, the one with the greatest quotient of base
      score and divisor, on a tie the greatest base score, then the last address. */
  lemma PicksInNumbers(entries: seq<Entry>, unknownPenalty: real, size: nat, i: nat, e: Entry)
    returns (base: real, divisor: real, base': real, divisor': real)
    requires unknownPenalty >= 1.0 && i < |Rank(entries, [], unknownPenalty, size)|
    requires Plain(e) in multiset(PlainAll(entries))
                         - multiset(PlainAll(Rank(entries, [], unknownPenalty, size)[..i]))
    ensures var out := Rank(entries, [], unknownPenalty, size);
      && IsBaseScore(out[i], base) && IsDivisor(out[i], out[..i], unknownPenalty, divisor) && divisor >= 1.0
      && IsBaseScore(e, base') && IsDivisor(e, out[..i], unknownPenalty, divisor') && divisor' >= 1.0
      && (|| base / divisor > base' / divisor'
          || (base / divisor == base' / divisor'
              && (base > base' || (base == base' && TextLe(e.address, out[i].address)))))
  {
    var out, left := Rank(entries, [], unknownPenalty, size), Leftover(entries, [], unknownPenalty, size);
    RankIsGreedy(entries, unknownPenalty, size);
    PickDominatesRest(entries, out, left, unknownPenalty, size, i, e);
    base, divisor := BaseScore(out[i]), Penalty(out[i], out[..i], unknownPenalty);
    base', divisor' := BaseScore(e), Penalty(e, out[..i], unknownPenalty);
    BaseScoreFormula(out[i]);
    BaseScoreFormula(e);
    DivisorFormula(out[i], out[..i], unknownPenalty);
    DivisorFormula(e, out[..i], unknownPenalty);
  }
}
