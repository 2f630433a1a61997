/** The capped active pool (`select_active_entries`, validator/ranking.py):
    the one-pass selection is optimal among all selections within the caps. */
module Selection {
  import opened Prelude
  import opened Ranking
  import opened RankingTheorems

  // The pool with `pool` places left, `unknown` of them open to unknown ASNs.
  function Active(ranked: seq<Entry>, pool: nat, unknown: nat): seq<Entry> {
    if ranked == [] || pool == 0 then []
    else if AsnKey(ranked[0]).Some? then [ranked[0]] + Active(ranked[1..], pool - 1, unknown)
    else if unknown == 0 then Active(ranked[1..], pool, 0)
    else [ranked[0]] + Active(ranked[1..], pool - 1, unknown - 1)
  }

  // `int(pool_size * max_unknown_asn_ratio)`
  function UnknownLimit(poolSize: nat, ratio: real): nat
    requires 0.0 <= ratio
  {
    (poolSize as real * ratio).Floor
  }

  // ---------- Sub-selections ----------

  function Unknowns(es: seq<Entry>): nat {
    if es == [] then 0 else (if AsnKey(es[0]).None? then 1 else 0) + Unknowns(es[1..])
  }

  function Total(es: seq<Entry>): real {
    if es == [] then 0.0 else es[0].score + Total(es[1..])
  }

  // The entries of `es` that `mask` marks, in order.
  function Chosen(es: seq<Entry>, mask: seq<bool>): (r: seq<Entry>)
    requires |mask| == |es|
    ensures |r| <= |es|
  {
    if es == [] then []
    else (if mask[0] then [es[0]] else []) + Chosen(es[1..], mask[1..])
  }

  ghost predicate WithinCaps(es: seq<Entry>, pool: nat, unknown: nat) {
    |es| <= pool && Unknowns(es) <= unknown
  }

  ghost predicate DescendingScores(es: seq<Entry>) {
    forall i, j :: 0 <= i <= j < |es| ==> es[i].score >= es[j].score >= 0.0
  }

  lemma {:induction false} NothingChosen(es: seq<Entry>, mask: seq<bool>)
    requires |mask| == |es| && forall i :: 0 <= i < |mask| ==> !mask[i]
    ensures Chosen(es, mask) == []
  {
    if es != [] { NothingChosen(es[1..], mask[1..]); }
  }

  /** The pool is itself a sub-selection of the ranked list within the caps. */
  lemma {:induction false} ActiveWithinCaps(ranked: seq<Entry>, pool: nat, unknown: nat) returns (mask: seq<bool>)
    ensures |mask| == |ranked| && Chosen(ranked, mask) == Active(ranked, pool, unknown)
    ensures WithinCaps(Active(ranked, pool, unknown), pool, unknown)
  {
    if ranked == [] || pool == 0 {
      mask := seq(|ranked|, _ => false);
      NothingChosen(ranked, mask);
    } else {
      var take := AsnKey(ranked[0]).Some? || unknown > 0;
      var rest := ActiveWithinCaps(ranked[1..], if take then pool - 1 else pool,
                                   if AsnKey(ranked[0]).None? && unknown > 0 then unknown - 1 else unknown);
      mask := [take] + rest;
      assert mask[1..] == rest;
    }
  }

  // The three measures of a sub-selection, split at its head.
  lemma ChosenHead(es: seq<Entry>, b: bool, rest: seq<bool>)
    requires es != [] && |rest| == |es| - 1
    ensures var c, t := Chosen(es, [b] + rest), Chosen(es[1..], rest);
      && |c| == |t| + (if b then 1 else 0)
      && Total(c) == Total(t) + (if b then es[0].score else 0.0)
      && Unknowns(c) == Unknowns(t) + (if b && AsnKey(es[0]).None? then 1 else 0)
  {
    var mask := [b] + rest;
    assert mask[1..] == rest;
    if b { assert Chosen(es, mask)[1..] == Chosen(es[1..], rest); }
    else { assert Chosen(es, mask) == Chosen(es[1..], rest); }
  }

  // Drop one chosen entry, an unknown-ASN one if asked and possible, losing at most `top`.
  lemma {:induction false} DropOne(es: seq<Entry>, mask: seq<bool>, top: real, dropUnknown: bool)
    returns (mask': seq<bool>)
    requires |mask| == |es| && Chosen(es, mask) != []
    requires forall i :: 0 <= i < |es| ==> es[i].score <= top
    ensures |mask'| == |es| && |Chosen(es, mask')| == |Chosen(es, mask)| - 1
    ensures Total(Chosen(es, mask)) <= Total(Chosen(es, mask')) + top
    ensures Unknowns(Chosen(es, mask')) <= Unknowns(Chosen(es, mask))
    ensures dropUnknown && Unknowns(Chosen(es, mask)) > 0 ==>
      Unknowns(Chosen(es, mask')) == Unknowns(Chosen(es, mask)) - 1
    decreases |es|
  {
    var rest := mask[1..];
    assert mask == [mask[0]] + rest;
    ChosenHead(es, mask[0], rest);
    if mask[0] && (!dropUnknown || AsnKey(es[0]).None? || Unknowns(Chosen(es[1..], rest)) == 0) {
      mask' := [false] + rest;
      ChosenHead(es, false, rest);
    } else {
      var inner := DropOne(es[1..], rest, top, dropUnknown);
      mask' := [mask[0]] + inner;
      ChosenHead(es, mask[0], inner);
    }
  }

  // How the pool starts: the head is taken unless it is unknown and no place is open to it.
  lemma ActiveHead(ranked: seq<Entry>, pool: nat, unknown: nat)
    requires ranked != [] && pool > 0
    ensures var head, tail := ranked[0], ranked[1..];
      var isUnknown := AsnKey(head).None?;
      if isUnknown && unknown == 0 then Active(ranked, pool, unknown) == Active(tail, pool, 0)
      else
        var rest := Active(tail, pool - 1, if isUnknown then unknown - 1 else unknown);
        && |Active(ranked, pool, unknown)| == 1 + |rest|
        && Total(Active(ranked, pool, unknown)) == head.score + Total(rest)
  {
    if AsnKey(ranked[0]).Some? || unknown > 0 {
      var rest := Active(ranked[1..], pool - 1, if AsnKey(ranked[0]).None? then unknown - 1 else unknown);
      assert Active(ranked, pool, unknown) == [ranked[0]] + rest;
      assert ([ranked[0]] + rest)[1..] == rest;
    }
  }

  // A selection from the whole list, with its head paid for, leaves one from the tail.
  lemma TakeHead(ranked: seq<Entry>, pool: nat, unknown: nat, b: bool, other: seq<bool>) returns (other': seq<bool>)
    requires ranked != [] && |other| == |ranked| - 1 && DescendingScores(ranked) && pool > 0
    requires AsnKey(ranked[0]).None? ==> unknown > 0
    requires WithinCaps(Chosen(ranked, [b] + other), pool, unknown)
    ensures |other'| == |other|
    ensures WithinCaps(Chosen(ranked[1..], other'), pool - 1, if AsnKey(ranked[0]).None? then unknown - 1 else unknown)
    ensures Total(Chosen(ranked, [b] + other)) <= ranked[0].score + Total(Chosen(ranked[1..], other'))
  {
    other' := other;
    ChosenHead(ranked, b, other);
    if !b && Chosen(ranked[1..], other) != [] {
      other' := DropOne(ranked[1..], other, ranked[0].score, AsnKey(ranked[0]).None?);
    }
  }

  /** Optimality: no selection within the caps has a larger total score. */
  lemma {:induction false} ActiveIsOptimal(ranked: seq<Entry>, pool: nat, unknown: nat, mask: seq<bool>)
    requires |mask| == |ranked| && DescendingScores(ranked)
    requires WithinCaps(Chosen(ranked, mask), pool, unknown)
    ensures Total(Chosen(ranked, mask)) <= Total(Active(ranked, pool, unknown))
    decreases |ranked|
  {
    if ranked == [] {
    } else if pool == 0 {
      assert Chosen(ranked, mask) == [];
    } else {
      var isUnknown, other := AsnKey(ranked[0]).None?, mask[1..];
      assert mask == [mask[0]] + other;
      ActiveHead(ranked, pool, unknown);
      if isUnknown && unknown == 0 {
        ChosenHead(ranked, mask[0], other);
        ActiveIsOptimal(ranked[1..], pool, 0, other);
      } else {
        other := TakeHead(ranked, pool, unknown, mask[0], other);
        ActiveIsOptimal(ranked[1..], pool - 1, if isUnknown then unknown - 1 else unknown, other);
      }
    }
  }

  /** The pool has exactly min(pool, verified + min(unknown, limit)) entries. */
  lemma {:induction false} ActiveSize(ranked: seq<Entry>, pool: nat, unknown: nat)
    ensures |Active(ranked, pool, unknown)|
         == Min(pool, |ranked| - Unknowns(ranked) + Min(Unknowns(ranked), unknown))
  {
    UnknownsBounded(ranked);
    if ranked != [] && pool > 0 {
      UnknownsBounded(ranked[1..]);
      ActiveHead(ranked, pool, unknown);
      var isUnknown := AsnKey(ranked[0]).None?;
      if isUnknown && unknown == 0 { ActiveSize(ranked[1..], pool, 0); }
      else { ActiveSize(ranked[1..], pool - 1, if isUnknown then unknown - 1 else unknown); }
    }
  }

  lemma {:induction false} UnknownsBounded(es: seq<Entry>)
    ensures Unknowns(es) <= |es|
  {
    if es != [] { UnknownsBounded(es[1..]); }
  }

  lemma {:induction false} ActiveOfPrefix(a: seq<Entry>, b: seq<Entry>, pool: nat, unknown: nat)
    requires a <= b
    ensures Active(a, pool, unknown) <= Active(b, pool, unknown)
  {
    if a != [] && pool > 0 {
      assert a[1..] <= b[1..];
      ActiveOfPrefix(a[1..], b[1..],
                     if AsnKey(a[0]).None? && unknown == 0 then pool else pool - 1,
                     if AsnKey(a[0]).None? && unknown > 0 then unknown - 1 else unknown);
    }
  }

  // ---------- The pool in terms of its size and the ratio ----------

  // At most `poolSize` entries, of which at most the given share have no verified ASN.
  ghost predicate WithinRatio(es: seq<Entry>, poolSize: nat, ratio: real) {
    |es| <= poolSize && Unknowns(es) as real <= poolSize as real * ratio
  }

  // `mask` selects whatever still fits, from the front.
  ghost predicate TakesWhatFits(ranked: seq<Entry>, mask: seq<bool>, poolSize: nat, ratio: real)
    requires |mask| == |ranked|
  {
    forall i :: 0 <= i < |ranked| ==>
      mask[i] == WithinRatio(Chosen(ranked[..i], mask[..i]) + [ranked[i]], poolSize, ratio)
  }

  ghost predicate NoBetter(ranked: seq<Entry>, mask: seq<bool>, pool: seq<Entry>, poolSize: nat, ratio: real)
    requires |mask| == |ranked|
  {
    WithinRatio(Chosen(ranked, mask), poolSize, ratio) ==>
      |Chosen(ranked, mask)| <= |pool| && (DescendingScores(ranked) ==> Total(Chosen(ranked, mask)) <= Total(pool))
  }

  /** What the selection means: it takes from the front whatever fits, and no selection that
      respects the pool size and the ratio is larger or has a larger total score. */
  ghost predicate BestPool(ranked: seq<Entry>, pool: seq<Entry>, poolSize: nat, ratio: real) {
    && WithinRatio(pool, poolSize, ratio)
    && (exists mask ::
          |mask| == |ranked| && Chosen(ranked, mask) == pool && TakesWhatFits(ranked, mask, poolSize, ratio))
    && (forall mask {:trigger NoBetter(ranked, mask, pool, poolSize, ratio)} ::
          |mask| == |ranked| ==> NoBetter(ranked, mask, pool, poolSize, ratio))
  }

  // A whole number of unknown entries is within the ratio exactly when it is within the limit.
  lemma LimitIsRatio(poolSize: nat, ratio: real, n: nat)
    requires 0.0 <= ratio
    ensures n <= UnknownLimit(poolSize, ratio) <==> n as real <= poolSize as real * ratio
  {
  }

  lemma {:induction false} UnknownsOfConcat(a: seq<Entry>, b: seq<Entry>)
    ensures Unknowns(a + b) == Unknowns(a) + Unknowns(b)
  {
    if a == [] {
      assert a + b == b;
    } else {
      assert (a + b)[1..] == a[1..] + b;
      UnknownsOfConcat(a[1..], b);
    }
  }

  lemma {:induction false} ChosenOfConcat(es: seq<Entry>, mask: seq<bool>, i: nat)
    requires |mask| == |es| && i <= |es|
    ensures Chosen(es, mask) == Chosen(es[..i], mask[..i]) + Chosen(es[i..], mask[i..])
  {
    if i > 0 {
      ChosenOfConcat(es[1..], mask[1..], i - 1);
      assert es[..i][1..] == es[1..][..i - 1] && mask[..i][1..] == mask[1..][..i - 1];
      assert es[1..][i - 1..] == es[i..] && mask[1..][i - 1..] == mask[i..];
    } else {
      assert es[0..] == es && mask[0..] == mask;
    }
  }

  // The greedy choices, given what was already taken in front of `ranked`.
  ghost predicate TakesGreedily(ranked: seq<Entry>, mask: seq<bool>, pool: int, unknown: int)
    requires |mask| == |ranked|
  {
    forall i :: 0 <= i < |ranked| ==> mask[i] == Fits(ranked, mask, i, pool, unknown)
  }

  ghost predicate Fits(ranked: seq<Entry>, mask: seq<bool>, i: nat, pool: int, unknown: int)
    requires |mask| == |ranked| && i < |ranked|
  {
    var taken := Chosen(ranked[..i], mask[..i]);
    |taken| < pool && (AsnKey(ranked[i]).None? ==> Unknowns(taken) < unknown)
  }

  lemma {:induction false} ActiveTakesGreedily(ranked: seq<Entry>, pool: nat, unknown: nat) returns (mask: seq<bool>)
    ensures |mask| == |ranked| && Chosen(ranked, mask) == Active(ranked, pool, unknown)
    ensures TakesGreedily(ranked, mask, pool, unknown)
  {
    if ranked == [] || pool == 0 {
      mask := seq(|ranked|, _ => false);
      NothingChosen(ranked, mask);
    } else {
      var take := AsnKey(ranked[0]).Some? || unknown > 0;
      var pool' := if take then pool - 1 else pool;
      var unknown' := if AsnKey(ranked[0]).None? && unknown > 0 then unknown - 1 else unknown;
      var rest := ActiveTakesGreedily(ranked[1..], pool', unknown');
      mask := [take] + rest;
      assert mask[1..] == rest;
      forall i | 0 <= i < |ranked| ensures mask[i] == Fits(ranked, mask, i, pool, unknown) {
        if i > 0 { FitsBehindHead(ranked, take, rest, i, pool, unknown); }
      }
    }
  }

  lemma FitsBehindHead(ranked: seq<Entry>, take: bool, rest: seq<bool>, i: nat, pool: int, unknown: int)
    requires |rest| + 1 == |ranked| && 0 < i < |ranked|
    ensures Fits(ranked, [take] + rest, i, pool, unknown)
         == Fits(ranked[1..], rest, i - 1, if take then pool - 1 else pool,
                 if take && AsnKey(ranked[0]).None? then unknown - 1 else unknown)
  {
    var mask := [take] + rest;
    assert mask[..i] == [take] + rest[..i - 1];
    assert ranked[..i][1..] == ranked[1..][..i - 1] && ranked[..i][0] == ranked[0];
    ChosenHead(ranked[..i], take, rest[..i - 1]);
  }

  lemma FitsIsRatio(ranked: seq<Entry>, mask: seq<bool>, i: nat, poolSize: nat, ratio: real)
    requires |mask| == |ranked| && i < |ranked| && 0.0 <= ratio
    requires WithinRatio(Chosen(ranked[..i], mask[..i]), poolSize, ratio)
    ensures Fits(ranked, mask, i, poolSize, UnknownLimit(poolSize, ratio))
        <==> WithinRatio(Chosen(ranked[..i], mask[..i]) + [ranked[i]], poolSize, ratio)
  {
    var taken := Chosen(ranked[..i], mask[..i]);
    UnknownsOfConcat(taken, [ranked[i]]);
    LimitIsRatio(poolSize, ratio, Unknowns(taken) + 1);
  }

  lemma PrefixWithinRatio(ranked: seq<Entry>, mask: seq<bool>, i: nat, poolSize: nat, ratio: real)
    requires |mask| == |ranked| && i < |ranked| && WithinRatio(Chosen(ranked, mask), poolSize, ratio)
    ensures WithinRatio(Chosen(ranked[..i], mask[..i]), poolSize, ratio)
  {
    ChosenOfConcat(ranked, mask, i);
    UnknownsOfConcat(Chosen(ranked[..i], mask[..i]), Chosen(ranked[i..], mask[i..]));
  }

  lemma NothingIsBetter(ranked: seq<Entry>, mask: seq<bool>, poolSize: nat, ratio: real)
    requires |mask| == |ranked| && 0.0 <= ratio
    ensures NoBetter(ranked, mask, Active(ranked, poolSize, UnknownLimit(poolSize, ratio)), poolSize, ratio)
  {
    var chosen, unknown := Chosen(ranked, mask), UnknownLimit(poolSize, ratio);
    if WithinRatio(chosen, poolSize, ratio) {
      LimitIsRatio(poolSize, ratio, Unknowns(chosen));
      ActiveSize(ranked, poolSize, unknown);
      ChosenCounts(ranked, mask);
      if DescendingScores(ranked) { ActiveIsOptimal(ranked, poolSize, unknown, mask); }
    }
  }

  // A selection has no more verified and no more unknown entries than the list.
  lemma {:induction false} ChosenCounts(es: seq<Entry>, mask: seq<bool>)
    requires |mask| == |es|
    ensures var c := Chosen(es, mask);
      Unknowns(c) <= Unknowns(es) && |c| - Unknowns(c) <= |es| - Unknowns(es)
  {
    if es != [] {
      assert mask == [mask[0]] + mask[1..];
      ChosenHead(es, mask[0], mask[1..]);
      ChosenCounts(es[1..], mask[1..]);
    }
  }

  lemma ActiveIsBestPool(ranked: seq<Entry>, poolSize: nat, ratio: real)
    requires 0.0 <= ratio
    ensures BestPool(ranked, Active(ranked, poolSize, UnknownLimit(poolSize, ratio)), poolSize, ratio)
  {
    var unknown := UnknownLimit(poolSize, ratio);
    var pool := Active(ranked, poolSize, unknown);
    var _ := ActiveWithinCaps(ranked, poolSize, unknown);
    LimitIsRatio(poolSize, ratio, Unknowns(pool));
    var mask := ActiveTakesGreedily(ranked, poolSize, unknown);
    forall i | 0 <= i < |ranked|
      ensures mask[i] == WithinRatio(Chosen(ranked[..i], mask[..i]) + [ranked[i]], poolSize, ratio)
    {
      PrefixWithinRatio(ranked, mask, i, poolSize, ratio);
      FitsIsRatio(ranked, mask, i, poolSize, ratio);
    }
    assert TakesWhatFits(ranked, mask, poolSize, ratio);
    forall other: seq<bool> | |other| == |ranked| ensures NoBetter(ranked, other, pool, poolSize, ratio) {
      NothingIsBetter(ranked, other, poolSize, ratio);
    }
  }

  method SelectActiveEntries(ranked: seq<Entry>, poolSize: int, ratio: real) returns (r: Result<seq<Entry>>)
    ensures poolSize < 1 || !(0.0 <= ratio <= 1.0) ==> r == Err(ValueError)
    ensures poolSize >= 1 && 0.0 <= ratio <= 1.0 ==>
      r == Ok(Active(ranked, poolSize, UnknownLimit(poolSize, ratio))) && BestPool(ranked, r.value, poolSize, ratio)
  {
    if poolSize < 1 { return Err(ValueError); }
    if !(0.0 <= ratio <= 1.0) { return Err(ValueError); }
    var unknownLimit := UnknownLimit(poolSize, ratio);
    var selected := FillPool(ranked, poolSize, unknownLimit);
    ActiveIsBestPool(ranked, poolSize, ratio);
    return Ok(selected);
  }

  // What is selected so far, followed by what the rest of the list contributes, is the pool.
  ghost predicate OnTrack(ranked: seq<Entry>, goal: seq<Entry>, selected: seq<Entry>, i: nat, pool: int, unknown: int) {
    i <= |ranked| && pool >= 0 && unknown >= 0 && goal == selected + Active(ranked[i..], pool, unknown)
  }

  lemma OneEntryMore(ranked: seq<Entry>, goal: seq<Entry>, selected: seq<Entry>, i: nat, pool: int, unknown: int)
    requires OnTrack(ranked, goal, selected, i, pool, unknown) && i < |ranked| && pool > 0
    ensures var entry := ranked[i];
      if AsnKey(entry).Some? then OnTrack(ranked, goal, selected + [entry], i + 1, pool - 1, unknown)
      else if unknown == 0 then OnTrack(ranked, goal, selected, i + 1, pool, unknown)
      else OnTrack(ranked, goal, selected + [entry], i + 1, pool - 1, unknown - 1)
  {
    var entry, tail := ranked[i], ranked[i + 1..];
    assert ranked[i..][1..] == tail;
    Associates(selected, [entry], Active(tail, pool - 1, unknown));
    if unknown > 0 { Associates(selected, [entry], Active(tail, pool - 1, unknown - 1)); }
  }

  lemma NothingYet(ranked: seq<Entry>, pool: nat, unknown: nat)
    ensures OnTrack(ranked, Active(ranked, pool, unknown), [], 0, pool, unknown)
  {
    assert ranked[0..] == ranked;
  }

  lemma NothingMore(ranked: seq<Entry>, goal: seq<Entry>, selected: seq<Entry>, i: nat, pool: int, unknown: int)
    requires OnTrack(ranked, goal, selected, i, pool, unknown) && (i == |ranked| || pool == 0)
    ensures selected == goal
  {
  }

  // The loop.
  method FillPool(ranked: seq<Entry>, poolSize: nat, unknownLimit: nat) returns (selected: seq<Entry>)
    ensures selected == Active(ranked, poolSize, unknownLimit)
  {
    selected := [];
    var unknownCount := 0;
    ghost var goal := Active(ranked, poolSize, unknownLimit);
    var i := 0;
    NothingYet(ranked, poolSize, unknownLimit);
    while i < |ranked|
      invariant OnTrack(ranked, goal, selected, i, poolSize - |selected|, unknownLimit - unknownCount)
    {
      if |selected| >= poolSize { break; }
      var entry := ranked[i];
      OneEntryMore(ranked, goal, selected, i, poolSize - |selected|, unknownLimit - unknownCount);
      i := i + 1;
      if AsnKey(entry).None? {
        if unknownCount >= unknownLimit { continue; }
        unknownCount := unknownCount + 1;
      }
      selected := selected + [entry];
    }
    NothingMore(ranked, goal, selected, i, poolSize - |selected|, unknownLimit - unknownCount);
  }

  // ---------- The published pool ----------

  /** What a ranker cycle publishes as active: optimal over every legal
      selection from what it publishes as reserve. */
  lemma PublishedPoolIsOptimal(entries: seq<Entry>, ranked: seq<Entry>, unknownPenalty: real, reserveSize: nat,
                               poolSize: nat, ratio: real, mask: seq<bool>)
    requires unknownPenalty >= 1.0 && 0.0 <= ratio
    requires ranked == Rank(entries, [], unknownPenalty, reserveSize) && |mask| == |ranked|
    requires WithinRatio(Chosen(ranked, mask), poolSize, ratio)
    ensures Total(Chosen(ranked, mask)) <= Total(Active(ranked, poolSize, UnknownLimit(poolSize, ratio)))
  {
    forall i, j | 0 <= i <= j < |ranked| ensures ranked[i].score >= ranked[j].score >= 0.0 {
      ScoresDescend(entries, unknownPenalty, reserveSize, i, j);
    }
    NothingIsBetter(ranked, mask, poolSize, ratio);
  }

  /** Enlarging the reserve only appends to the active pool. */
  lemma LargerReserveExtendsPool(entries: seq<Entry>, unknownPenalty: real, size: nat, size': nat,
                                 pool: nat, unknown: nat)
    requires unknownPenalty >= 1.0 && size <= size'
    ensures Active(Rank(entries, [], unknownPenalty, size), pool, unknown)
         <= Active(Rank(entries, [], unknownPenalty, size'), pool, unknown)
  {
    LargerReserveAppends(entries, [], unknownPenalty, size, size');
    ActiveOfPrefix(Rank(entries, [], unknownPenalty, size), Rank(entries, [], unknownPenalty, size'), pool, unknown);
  }
}
