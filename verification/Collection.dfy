/** De-duplicated collection over several connectors (validator/sources/registry.py). */
module Collection {
  import opened Prelude
  import opened Candidate

  type Key = (string, string, nat, Option<string>)

  function KeyOf(c: Proxy): Key { (c.protocol, c.host, c.port, c.credentialRef) }

  /** An insertion-ordered dictionary: overwriting keeps the first position. */
  datatype Dict = Dict(order: seq<Key>, values: map<Key, Proxy>) {
    function Put(c: Proxy): Dict {
      if KeyOf(c) in values then Dict(order, values[KeyOf(c) := c])
      else Dict(order + [KeyOf(c)], values[KeyOf(c) := c])
    }

    ghost predicate Valid() {
      && (forall k :: k in order <==> k in values)
      && (forall k :: k in values ==> KeyOf(values[k]) == k)
      && (forall i, j :: 0 <= i < j < |order| ==> order[i] != order[j])
    }

    function Values(): seq<Proxy>
      requires Valid()
    {
      seq(|order|, i requires 0 <= i < |order| => assert order[i] in order; values[order[i]])
    }
  }

  function PutAll(d: Dict, cs: seq<Proxy>): Dict {
    if cs == [] then d else PutAll(d, cs[..|cs| - 1]).Put(cs[|cs| - 1])
  }

  // What the connectors that did not fail yielded, in connector order.
  function Yielded(results: seq<Result<seq<Proxy>>>): seq<Proxy> {
    if results == [] then []
    else
      Yielded(results[..|results| - 1])
      + (match results[|results| - 1] case Err(_) => [] case Ok(cs) => cs)
  }

  // The keys in the order in which they were first yielded.
  function FirstYielded(cs: seq<Proxy>): seq<Key> {
    if cs == [] then []
    else
      var before, k := FirstYielded(cs[..|cs| - 1]), KeyOf(cs[|cs| - 1]);
      if k in before then before else before + [k]
  }

  lemma {:induction false} PutAllKeepsOrder(cs: seq<Proxy>)
    ensures PutAll(Dict([], map[]), cs).order == FirstYielded(cs)
  {
    if cs != [] {
      PutAllKeepsOrder(cs[..|cs| - 1]);
      PutAllIsLastWins(cs[..|cs| - 1], KeyOf(cs[|cs| - 1]));
    }
  }

  // The position of the first candidate with this key.
  ghost predicate FirstAt(cs: seq<Proxy>, k: Key, i: int) {
    0 <= i < |cs| && KeyOf(cs[i]) == k && forall j :: 0 <= j < i ==> KeyOf(cs[j]) != k
  }

  // `at` says where each key of `ks` was first yielded, and they are all there are.
  ghost predicate FirstPositions(cs: seq<Proxy>, ks: seq<Key>, at: seq<nat>) {
    && |at| == |ks| && (forall i :: 0 <= i < |ks| ==> FirstAt(cs, ks[i], at[i]))
    && (forall i, j :: 0 <= i < j < |at| ==> at[i] < at[j])
    && (forall i :: 0 <= i < |cs| ==> KeyOf(cs[i]) in ks)
  }

  lemma NextYielded(cs: seq<Proxy>, c: Proxy, ks: seq<Key>, at: seq<nat>)
    requires FirstPositions(cs, ks, at)
    ensures if KeyOf(c) in ks then FirstPositions(cs + [c], ks, at)
            else FirstPositions(cs + [c], ks + [KeyOf(c)], at + [|cs|])
  {
    var cs' := cs + [c];
    forall i | 0 <= i < |ks| ensures FirstAt(cs', ks[i], at[i]) {
      assert FirstAt(cs, ks[i], at[i]);
      assert forall j :: 0 <= j < |cs| ==> cs'[j] == cs[j];
    }
    if KeyOf(c) !in ks { FirstAtLast(cs, c, ks); }
  }

  lemma FirstAtLast(cs: seq<Proxy>, c: Proxy, ks: seq<Key>)
    requires KeyOf(c) !in ks && forall i :: 0 <= i < |cs| ==> KeyOf(cs[i]) in ks
    ensures FirstAt(cs + [c], KeyOf(c), |cs|)
  {
  }

  /** A collected list is in the order in which its keys were first yielded. */
  lemma {:induction false} FirstYieldedAscends(cs: seq<Proxy>) returns (at: seq<nat>)
    ensures FirstPositions(cs, FirstYielded(cs), at)
  {
    at := [];
    if cs != [] {
      var last := |cs| - 1;
      at := FirstYieldedAscends(cs[..last]);
      NextYielded(cs[..last], cs[last], FirstYielded(cs[..last]), at);
      assert cs == cs[..last] + [cs[last]];
      if KeyOf(cs[last]) !in FirstYielded(cs[..last]) { at := at + [last]; }
    }
  }

  // The last candidate with this key, if any.
  function LastWith(cs: seq<Proxy>, k: Key): Option<Proxy> {
    if cs == [] then None
    else if KeyOf(cs[|cs| - 1]) == k then Some(cs[|cs| - 1])
    else LastWith(cs[..|cs| - 1], k)
  }

  lemma {:induction false} PutAllIsLastWins(cs: seq<Proxy>, k: Key)
    ensures var d := PutAll(Dict([], map[]), cs);
      && d.Valid()
      && (k in d.values <==> LastWith(cs, k).Some?)
      && (k in d.values ==> Some(d.values[k]) == LastWith(cs, k))
  {
    if cs != [] {
      var c := cs[|cs| - 1];
      PutAllIsLastWins(cs[..|cs| - 1], k);
      PutAllIsLastWins(cs[..|cs| - 1], KeyOf(c));
    }
  }

  lemma {:induction false} PutAllConcat(d: Dict, a: seq<Proxy>, b: seq<Proxy>)
    ensures PutAll(d, a + b) == PutAll(PutAll(d, a), b)
    decreases |b|
  {
    if b == [] {
      assert a + b == a;
    } else {
      PutAllConcat(d, a, b[..|b| - 1]);
      assert (a + b)[..|a + b| - 1] == a + b[..|b| - 1];
    }
  }

  // What de-duplication compares.
  predicate SameCandidate(c: Proxy, d: Proxy) {
    c.protocol == d.protocol && c.host == d.host && c.port == d.port && c.credentialRef == d.credentialRef
  }

  // `c` was yielded, and nothing like it afterwards.
  ghost predicate LastYielded(cs: seq<Proxy>, c: Proxy) {
    exists i :: 0 <= i < |cs| && cs[i] == c && forall j :: i < j < |cs| ==> !SameCandidate(cs[j], c)
  }

  lemma {:induction false} LastWithIsLast(cs: seq<Proxy>, c: Proxy)
    ensures LastWith(cs, KeyOf(c)) == Some(c) <==> LastYielded(cs, c)
  {
    if cs != [] {
      var last := |cs| - 1;
      LastWithIsLast(cs[..last], c);
      if SameCandidate(cs[last], c) {
        assert cs[last] == c ==> LastYielded(cs, c);
      } else {
        if LastYielded(cs[..last], c) {
          var i :| 0 <= i < last && cs[..last][i] == c && forall j :: i < j < last ==> !SameCandidate(cs[..last][j], c);
          assert cs[i] == c && forall j :: i < j < |cs| ==> !SameCandidate(cs[j], c) by {
            assert forall j :: i < j < last ==> cs[..last][j] == cs[j];
          }
        }
        if LastYielded(cs, c) {
          var i :| 0 <= i < |cs| && cs[i] == c && forall j :: i < j < |cs| ==> !SameCandidate(cs[j], c);
          assert cs[..last][i] == c && forall j :: i < j < last ==> !SameCandidate(cs[..last][j], c);
        }
      }
    }
  }

  /** `collect_all`: one entry per key among everything the surviving connectors
      yielded, the last one yielded; a failing connector contributes nothing and
      disturbs nothing. */
  method CollectAll(results: seq<Result<seq<Proxy>>>) returns (collected: seq<Proxy>)
    ensures forall k :: LastWith(Yielded(results), k).Some? <==> exists c :: c in collected && KeyOf(c) == k
    ensures forall c :: c in collected ==> LastWith(Yielded(results), KeyOf(c)) == Some(c)
    ensures forall i, j :: 0 <= i < j < |collected| ==> !SameCandidate(collected[i], collected[j])
    ensures forall c :: c in collected <==> LastYielded(Yielded(results), c)
    ensures |collected| == |FirstYielded(Yielded(results))|
    ensures forall i :: 0 <= i < |collected| ==> KeyOf(collected[i]) == FirstYielded(Yielded(results))[i]
  {
    var unique := Dict([], map[]);
    for i := 0 to |results|
      invariant unique == PutAll(Dict([], map[]), Yielded(results[..i]))
    {
      assert results[..i + 1][..i] == results[..i];
      ghost var before := unique;
      match results[i] {
        case Err(_) =>
          assert Yielded(results[..i + 1]) == Yielded(results[..i]);
        case Ok(cs) =>
          for j := 0 to |cs|
            invariant unique == PutAll(before, cs[..j])
          {
            assert cs[..j + 1][..j] == cs[..j];
            unique := unique.Put(cs[j]);
          }
          assert cs[..|cs|] == cs;
          PutAllConcat(Dict([], map[]), Yielded(results[..i]), cs);
      }
    }
    assert results[..|results|] == results;
    ghost var all := Yielded(results);
    forall k ensures unique.Valid() && (k in unique.values <==> LastWith(all, k).Some?)
                     && (k in unique.values ==> Some(unique.values[k]) == LastWith(all, k))
    {
      PutAllIsLastWins(all, k);
    }
    assert unique.Valid() by { PutAllIsLastWins(all, ("", "", 0, None)); }
    PutAllKeepsOrder(all);
    forall c: Proxy ensures LastWith(all, KeyOf(c)) == Some(c) <==> LastYielded(all, c) { LastWithIsLast(all, c); }
    collected := unique.Values();
    ValuesHaveKeys(unique);
  }

  lemma ValuesHaveKeys(d: Dict)
    requires d.Valid()
    ensures forall k :: k in d.values <==> exists c :: c in d.Values() && KeyOf(c) == k
    ensures forall c :: c in d.Values() ==> KeyOf(c) in d.values && d.values[KeyOf(c)] == c
    ensures forall i, j :: 0 <= i < j < |d.Values()| ==> KeyOf(d.Values()[i]) != KeyOf(d.Values()[j])
    ensures |d.Values()| == |d.order| && forall i :: 0 <= i < |d.order| ==> KeyOf(d.Values()[i]) == d.order[i]
  {
    var vs := d.Values();
    forall i | 0 <= i < |vs| ensures KeyOf(vs[i]) == d.order[i] { assert d.order[i] in d.order; }
    forall k | k in d.values ensures exists c :: c in vs && KeyOf(c) == k {
      assert k in d.order;
      var i :| 0 <= i < |d.order| && d.order[i] == k;
      assert vs[i] in vs && KeyOf(vs[i]) == k;
    }
  }

  /** In a collected list no two entries share address and credential, so an
      address and a credential reference identify a candidate in the pipeline. */
  lemma CollectedIdentitiesAreUnique(cs: seq<Proxy>, norm: string -> Option<string>, i: nat, j: nat)
    requires i < j < |cs| && forall a, b :: 0 <= a < b < |cs| ==> !SameCandidate(cs[a], cs[b])
    requires forall a :: 0 <= a < |cs| ==> Canonical(cs[a], norm)
    ensures AddressOf(cs[i]) != AddressOf(cs[j]) || cs[i].credentialRef != cs[j].credentialRef
  {
    if AddressOf(cs[i]) == AddressOf(cs[j]) { AddressInjective(cs[i], cs[j], norm); }
  }
}
