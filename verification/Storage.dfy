/** Snapshot publication on a shared Redis (validator/storage.py): the workers use
    one store without locks, so commands of other clients fall anywhere between
    the SET and the RENAME of a publication. */
module Storage {
  import opened Prelude

  const ACTIVE_KEY := "proxy_pool:active:v1"
  const GATEWAY_ACTIVE_KEY := "transparent-gateway:validated:v1"

  type Values = map<string, string>

  datatype Command = Set(key: string, value: string) | Rename(source: string, destination: string)

  // RENAME of a missing key is an error and changes nothing.
  function Execute(v: Values, c: Command): Values {
    match c
    case Set(key, value) => v[key := value]
    case Rename(source, destination) => if source in v then (v - {source})[destination := v[source]] else v
  }

  function Contents(v: Values, cs: seq<Command>): Values {
    if cs == [] then v else Execute(Contents(v, cs[..|cs| - 1]), cs[|cs| - 1])
  }

  predicate Avoids(c: Command, k: string) {
    match c
    case Set(key, _) => key != k
    case Rename(source, destination) => source != k && destination != k
  }

  ghost predicate AllAvoid(cs: seq<Command>, k: string) { forall i :: 0 <= i < |cs| ==> Avoids(cs[i], k) }

  ghost predicate SameAt(a: Values, b: Values, k: string) {
    (k in a <==> k in b) && (k in a ==> a[k] == b[k])
  }

  lemma {:induction false} ContentsOfConcat(v: Values, a: seq<Command>, b: seq<Command>)
    ensures Contents(v, a + b) == Contents(Contents(v, a), b)
  {
    if b == [] {
      assert a + b == a;
    } else {
      ContentsOfConcat(v, a, b[..|b| - 1]);
      assert (a + b)[..|a + b| - 1] == a + b[..|b| - 1];
    }
  }

  lemma ContentsOfOne(v: Values, c: Command)
    ensures Contents(v, [c]) == Execute(v, c)
  {
    assert [c][..0] == [];
  }

  // Commands that do not name a key neither change nor need it.
  lemma {:induction false} AvoidedKey(v: Values, cs: seq<Command>, k: string)
    requires AllAvoid(cs, k)
    ensures SameAt(v, Contents(v, cs), k)
    ensures Contents(v, cs) - {k} == Contents(v - {k}, cs)
  {
    if cs != [] { AvoidedKey(v, cs[..|cs| - 1], k); }
  }

  // ---------- One publication ----------

  // `before` and `between` are what other clients do before the SET and before the RENAME.
  function Publication(key: string, temporary: string, encoded: string, before: seq<Command>, between: seq<Command>)
    : seq<Command>
  {
    before + [Set(temporary, encoded)] + between + [Rename(temporary, key)]
  }

  // The part of it that takes effect.
  function Reached(key: string, temporary: string, encoded: string, reach: nat,
                   before: seq<Command>, between: seq<Command>): (done: seq<Command>)
    ensures done <= Publication(key, temporary, encoded, before, between)
  {
    if reach == 0 then before
    else if reach == 1 then before + [Set(temporary, encoded)] + between
    else Publication(key, temporary, encoded, before, between)
  }

  // The same with one indivisible command in place of the two.
  function Indivisible(key: string, encoded: string, before: seq<Command>, between: seq<Command>): seq<Command> {
    before + between + [Set(key, encoded)]
  }

  lemma SetIsInvisible(v: Values, temporary: string, encoded: string, between: seq<Command>)
    requires temporary !in v && AllAvoid(between, temporary)
    ensures Contents(v, [Set(temporary, encoded)] + between) - {temporary} == Contents(v, between)
    ensures var w := Contents(v, [Set(temporary, encoded)] + between); temporary in w && w[temporary] == encoded
  {
    ContentsOfConcat(v, [Set(temporary, encoded)], between);
    ContentsOfOne(v, Set(temporary, encoded));
    AvoidedKey(v[temporary := encoded], between, temporary);
    assert v[temporary := encoded] - {temporary} == v;
  }

  lemma AtomicBeforeRename(v: Values, temporary: string, encoded: string, before: seq<Command>, between: seq<Command>)
    requires temporary !in v && AllAvoid(before, temporary) && AllAvoid(between, temporary)
    ensures var w := Contents(v, before + ([Set(temporary, encoded)] + between));
      w - {temporary} == Contents(v, before + between) && temporary in w && w[temporary] == encoded
    ensures temporary !in Contents(v, before + between)
  {
    AvoidedKey(v, before, temporary);
    AvoidedKey(v, before + between, temporary);
    SetIsInvisible(Contents(v, before), temporary, encoded, between);
    ContentsOfConcat(v, before, [Set(temporary, encoded)] + between);
    ContentsOfConcat(v, before, between);
  }

  lemma AtomicAtRename(v: Values, key: string, temporary: string, encoded: string,
                       before: seq<Command>, between: seq<Command>)
    requires temporary !in v && temporary != key
    requires AllAvoid(before, temporary) && AllAvoid(between, temporary)
    ensures var w := Contents(v, Publication(key, temporary, encoded, before, between));
      && w == Contents(v, Indivisible(key, encoded, before, between)) && temporary !in w
      && key in w && w[key] == encoded
  {
    var most := before + ([Set(temporary, encoded)] + between);
    AtomicBeforeRename(v, temporary, encoded, before, between);
    assert Publication(key, temporary, encoded, before, between) == most + [Rename(temporary, key)];
    ContentsOfConcat(v, most, [Rename(temporary, key)]);
    ContentsOfOne(Contents(v, most), Rename(temporary, key));
    ContentsOfConcat(v, before + between, [Set(key, encoded)]);
    ContentsOfOne(Contents(v, before + between), Set(key, encoded));
  }

  lemma Prefixes(a: seq<Command>, s: Command, b: seq<Command>, r: Command, c: Command, k: nat)
    requires k <= |b|
    ensures (a + [s] + b + [r])[..|a| + 1 + k] == a + ([s] + b[..k])
    ensures (a + b + [c])[..|a| + k] == a + b[..k]
  {
  }

  ghost predicate ReadersSee(v: Values, key: string, temporary: string, encoded: string,
                             before: seq<Command>, between: seq<Command>, n: nat)
    requires n <= |Publication(key, temporary, encoded, before, between)|
  {
    Contents(v, Publication(key, temporary, encoded, before, between)[..n]) - {temporary}
    == Contents(v, Indivisible(key, encoded, before, between)[..if n <= |before| then n else n - 1])
  }

  lemma SeenBeforeSet(v: Values, key: string, temporary: string, encoded: string,
                      before: seq<Command>, between: seq<Command>, n: nat)
    requires temporary !in v && AllAvoid(before, temporary) && n <= |before|
    ensures ReadersSee(v, key, temporary, encoded, before, between, n)
  {
    AvoidedKey(v, before[..n], temporary);
    assert Publication(key, temporary, encoded, before, between)[..n] == before[..n];
    assert Indivisible(key, encoded, before, between)[..n] == before[..n];
  }

  lemma SeenBeforeRename(v: Values, key: string, temporary: string, encoded: string,
                         before: seq<Command>, between: seq<Command>, k: nat)
    requires temporary !in v && AllAvoid(before, temporary) && AllAvoid(between, temporary) && k <= |between|
    ensures ReadersSee(v, key, temporary, encoded, before, between, |before| + 1 + k)
  {
    AtomicBeforeRename(v, temporary, encoded, before, between[..k]);
    Prefixes(before, Set(temporary, encoded), between, Rename(temporary, key), Set(key, encoded), k);
  }

  /** Atomicity: at every moment `n` of a publication, readers of all keys but the
      temporary one find what they would find if the publication were a single SET in the
      place of its RENAME, whatever other clients do meanwhile, to the same key too. */
  lemma PublicationIsAtomic(v: Values, key: string, temporary: string, encoded: string,
                            before: seq<Command>, between: seq<Command>, n: nat)
    requires temporary !in v && temporary != key
    requires AllAvoid(before, temporary) && AllAvoid(between, temporary)
    requires n <= |Publication(key, temporary, encoded, before, between)|
    ensures ReadersSee(v, key, temporary, encoded, before, between, n)
  {
    var cs, single := Publication(key, temporary, encoded, before, between), Indivisible(key, encoded, before, between);
    if n <= |before| {
      SeenBeforeSet(v, key, temporary, encoded, before, between, n);
    } else if n < |cs| {
      SeenBeforeRename(v, key, temporary, encoded, before, between, n - |before| - 1);
    } else {
      AtomicAtRename(v, key, temporary, encoded, before, between);
      assert cs[..n] == cs && single[..n - 1] == single;
    }
  }

  // ---------- The active snapshot under its two keys ----------

  // The gateway's key is unchanged, or it and the active key both hold the new snapshot.
  ghost predicate GatewayFollows(before: Values, now: Values, encoded: string) {
    || SameAt(before, now, GATEWAY_ACTIVE_KEY)
    || BothHold(now, encoded)
  }

  predicate BothHold(now: Values, encoded: string) {
    GATEWAY_ACTIVE_KEY in now && ACTIVE_KEY in now && now[GATEWAY_ACTIVE_KEY] == now[ACTIVE_KEY] == encoded
  }

  // Other clients leave the ranker's two keys and this publication's temporary ones alone.
  ghost predicate Strangers(cs: seq<Command>, t: string, t': string) {
    && AllAvoid(cs, ACTIVE_KEY) && AllAvoid(cs, GATEWAY_ACTIVE_KEY)
    && AllAvoid(cs, t) && AllAvoid(cs, t')
  }

  ghost predicate AllStrangers(others: nat -> seq<Command>, t: string, t': string) {
    forall i {:trigger others(i)} :: 0 <= i < 4 ==> Strangers(others(i), t, t')
  }

  // `others(0)` to `others(3)` fall before the four commands.
  function ActivePublication(t: string, t': string, encoded: string, others: nat -> seq<Command>): seq<Command> {
    Publication(ACTIVE_KEY, t, encoded, others(0), others(1))
    + Publication(GATEWAY_ACTIVE_KEY, t', encoded, others(2), others(3))
  }

  // The part of it that takes effect; the second publication starts after the first.
  function ActiveReached(t: string, t': string, encoded: string, reach: nat, others: nat -> seq<Command>)
    : (done: seq<Command>)
    ensures done <= ActivePublication(t, t', encoded, others)
  {
    Reached(ACTIVE_KEY, t, encoded, reach, others(0), others(1))
    + if reach < 2 then []
      else Reached(GATEWAY_ACTIVE_KEY, t', encoded, reach - 2, others(2), others(3))
  }

  predicate FreshKeys(v: Values, t: string, t': string) {
    t !in v && t' !in v && t != t' && {t, t'} !! {ACTIVE_KEY, GATEWAY_ACTIVE_KEY}
  }

  lemma PublicationAvoids(key: string, temporary: string, encoded: string,
                          before: seq<Command>, between: seq<Command>, k: string)
    requires AllAvoid(before, k) && AllAvoid(between, k) && temporary != k
    ensures AllAvoid(Publication(key, temporary, encoded, before, between)[..|before| + |between| + 1], k)
    ensures key != k ==> AllAvoid(Publication(key, temporary, encoded, before, between), k)
  {
  }

  lemma GatewayWaits(v: Values, t: string, t': string, encoded: string, others: nat -> seq<Command>, n: nat)
    requires FreshKeys(v, t, t') && AllStrangers(others, t, t')
    requires n < |ActivePublication(t, t', encoded, others)|
    ensures SameAt(v, Contents(v, ActivePublication(t, t', encoded, others)[..n]), GATEWAY_ACTIVE_KEY)
  {
    assert Strangers(others(0), t, t') && Strangers(others(1), t, t');
    assert Strangers(others(2), t, t') && Strangers(others(3), t, t');
    PublicationAvoids(ACTIVE_KEY, t, encoded, others(0), others(1), GATEWAY_ACTIVE_KEY);
    PublicationAvoids(GATEWAY_ACTIVE_KEY, t', encoded, others(2), others(3), GATEWAY_ACTIVE_KEY);
    AvoidedKey(v, ActivePublication(t, t', encoded, others)[..n], GATEWAY_ACTIVE_KEY);
  }

  lemma BothAtTheEnd(v: Values, t: string, t': string, encoded: string, others: nat -> seq<Command>)
    requires FreshKeys(v, t, t') && AllStrangers(others, t, t')
    ensures BothHold(Contents(v, ActivePublication(t, t', encoded, others)), encoded)
  {
    var p := Publication(ACTIVE_KEY, t, encoded, others(0), others(1));
    var q := Publication(GATEWAY_ACTIVE_KEY, t', encoded, others(2), others(3));
    assert Strangers(others(0), t, t') && Strangers(others(1), t, t');
    assert Strangers(others(2), t, t') && Strangers(others(3), t, t');
    AtomicAtRename(v, ACTIVE_KEY, t, encoded, others(0), others(1));
    PublicationAvoids(ACTIVE_KEY, t, encoded, others(0), others(1), t');
    AvoidedKey(v, p, t');
    AtomicAtRename(Contents(v, p), GATEWAY_ACTIVE_KEY, t', encoded, others(2), others(3));
    PublicationAvoids(GATEWAY_ACTIVE_KEY, t', encoded, others(2), others(3), ACTIVE_KEY);
    AvoidedKey(Contents(v, p), q, ACTIVE_KEY);
    ContentsOfConcat(v, p, q);
  }

  /** However other clients interleave, no reader ever finds the gateway's key ahead of the
      active key, and at the end both hold the new snapshot. */
  lemma ActiveGoesFirst(v: Values, t: string, t': string, encoded: string, others: nat -> seq<Command>, n: nat)
    requires FreshKeys(v, t, t') && AllStrangers(others, t, t')
    requires n <= |ActivePublication(t, t', encoded, others)|
    ensures var now := Contents(v, ActivePublication(t, t', encoded, others)[..n]);
      && GatewayFollows(v, now, encoded)
      && (n == |ActivePublication(t, t', encoded, others)| ==> BothHold(now, encoded))
  {
    var all := ActivePublication(t, t', encoded, others);
    if n < |all| {
      GatewayWaits(v, t, t', encoded, others, n);
    } else {
      BothAtTheEnd(v, t, t', encoded, others);
      assert all[..n] == all;
    }
  }

  // ---------- The store ----------

  // A uuid4 in hexadecimal has 32 characters.
  function TemporaryKey(key: string, uuid: string): string { key + ":tmp:" + uuid }

  lemma TemporaryKeysAreFresh(v: Values, uuid: string, uuid': string)
    requires |uuid| == |uuid'| == 32
    requires TemporaryKey(ACTIVE_KEY, uuid) !in v && TemporaryKey(GATEWAY_ACTIVE_KEY, uuid') !in v
    ensures FreshKeys(v, TemporaryKey(ACTIVE_KEY, uuid), TemporaryKey(GATEWAY_ACTIVE_KEY, uuid'))
  {
    assert |TemporaryKey(GATEWAY_ACTIVE_KEY, uuid')| > |TemporaryKey(ACTIVE_KEY, uuid)| > |GATEWAY_ACTIVE_KEY|;
    assert |GATEWAY_ACTIVE_KEY| > |ACTIVE_KEY|;
  }

  class Redis {
    var values: Values
    ghost var log: seq<Command>  // every command of every client

    ghost predicate Valid()
      reads this
    {
      values == Contents(map[], log)
    }

    constructor ()
      ensures Valid() && values == map[] && log == []
    {
      values, log := map[], [];
    }

    method Do(c: Command) returns (r: Result<()>)
      requires Valid()
      modifies this
      ensures Valid() && log == old(log) + [c] && values == Execute(old(values), c)
      ensures r == if c.Rename? && c.source !in old(values) then Err(OSError) else Ok(())
    {
      r := Ok(());
      match c {
        case Set(key, value) =>
          values := values[key := value];
        case Rename(source, destination) =>
          if source in values { values := (values - {source})[destination := values[source]]; }
          else { r := Err(OSError); }
      }
      log := log + [c];
      assert log[..|log| - 1] == old(log);
    }

    method Interleave(cs: seq<Command>)
      requires Valid()
      modifies this
      ensures Valid() && log == old(log) + cs && values == Contents(old(values), cs)
    {
      for i := 0 to |cs|
        invariant Valid() && log == old(log) + cs[..i] && values == Contents(old(values), cs[..i])
      {
        assert cs[..i + 1] == cs[..i] + [cs[i]] && cs[..i + 1][..i] == cs[..i];
        var _ := Do(cs[i]);
      }
      assert cs[..|cs|] == cs;
    }

    /** SET of a fresh key, then RENAME, among the commands of other clients.  `reach` of
        the two take effect before the connection or the process is lost. */
    method PublishSnapshot(key: string, uuid: string, encoded: string, reach: nat,
                           before: seq<Command>, between: seq<Command>)
      returns (r: Result<()>)
      requires Valid() && TemporaryKey(key, uuid) !in values
      requires AllAvoid(before, TemporaryKey(key, uuid)) && AllAvoid(between, TemporaryKey(key, uuid))
      modifies this
      ensures Valid()
      ensures var done := Reached(key, TemporaryKey(key, uuid), encoded, reach, before, between);
        && log == old(log) + done && values == Contents(old(values), done)
        && forall n :: 0 <= n <= |done| ==>
          ReadersSee(old(values), key, TemporaryKey(key, uuid), encoded, before, between, n)
      ensures r.Ok? <==> reach >= 2
      ensures r.Ok? ==> values == Contents(old(values), Indivisible(key, encoded, before, between))
    {
      var temporary := TemporaryKey(key, uuid);
      assert |temporary| > |key|;
      ghost var v, done := values, Reached(key, temporary, encoded, reach, before, between);
      forall n | 0 <= n <= |done| ensures ReadersSee(v, key, temporary, encoded, before, between, n) {
        PublicationIsAtomic(v, key, temporary, encoded, before, between, n);
      }
      AtomicAtRename(v, key, temporary, encoded, before, between);
      r := SetAndRename(key, temporary, encoded, reach, before, between);
      ContentsOfConcat(map[], old(log), done);
    }

    method SetAndRename(key: string, temporary: string, encoded: string, reach: nat,
                        before: seq<Command>, between: seq<Command>)
      returns (r: Result<()>)
      requires Valid() && temporary !in values
      requires AllAvoid(before, temporary) && AllAvoid(between, temporary)
      modifies this
      ensures Valid() && log == old(log) + Reached(key, temporary, encoded, reach, before, between)
      ensures r.Ok? <==> reach >= 2
    {
      Interleave(before);
      assert log == old(log) + before;
      if reach < 1 { return Err(OSError); }
      var _ := Do(Set(temporary, encoded));
      AvoidedKey(values, between, temporary);
      Interleave(between);
      assert log == old(log) + (before + [Set(temporary, encoded)] + between);
      if reach < 2 { return Err(OSError); }
      r := Do(Rename(temporary, key));
    }

    /** The active snapshot goes to its own key and then to the gateway's; `others(0)` to
        `others(3)` fall before the four commands. */
    method PublishActiveSnapshot(uuid: string, uuid': string, encoded: string, reach: nat, others: nat -> seq<Command>)
      returns (r: Result<()>)
      requires Valid() && |uuid| == |uuid'| == 32
      requires TemporaryKey(ACTIVE_KEY, uuid) !in values && TemporaryKey(GATEWAY_ACTIVE_KEY, uuid') !in values
      requires AllStrangers(others, TemporaryKey(ACTIVE_KEY, uuid), TemporaryKey(GATEWAY_ACTIVE_KEY, uuid'))
      modifies this
      ensures Valid()
      ensures var done := ActiveReached(TemporaryKey(ACTIVE_KEY, uuid), TemporaryKey(GATEWAY_ACTIVE_KEY, uuid'),
                                        encoded, reach, others);
        && log == old(log) + done && values == Contents(old(values), done)
        && forall n :: 0 <= n <= |done| ==> GatewayFollows(old(values), Contents(old(values), done[..n]), encoded)
      ensures r.Ok? <==> reach >= 4
      ensures r.Ok? ==> BothHold(values, encoded)
    {
      ghost var t, t' := TemporaryKey(ACTIVE_KEY, uuid), TemporaryKey(GATEWAY_ACTIVE_KEY, uuid');
      ghost var v, done := values, ActiveReached(t, t', encoded, reach, others);
      ghost var all := ActivePublication(t, t', encoded, others);
      TemporaryKeysAreFresh(v, uuid, uuid');
      forall n | 0 <= n <= |done| ensures GatewayFollows(v, Contents(v, done[..n]), encoded) {
        assert done[..n] == all[..n];
        ActiveGoesFirst(v, t, t', encoded, others, n);
      }
      ActiveGoesFirst(v, t, t', encoded, others, |all|);
      assert all[..|all|] == all;
      r := PublishBoth(uuid, uuid', encoded, reach, others);
      ContentsOfConcat(map[], old(log), done);
    }

    method PublishBoth(uuid: string, uuid': string, encoded: string, reach: nat, others: nat -> seq<Command>)
      returns (r: Result<()>)
      requires Valid() && FreshKeys(values, TemporaryKey(ACTIVE_KEY, uuid), TemporaryKey(GATEWAY_ACTIVE_KEY, uuid'))
      requires AllStrangers(others, TemporaryKey(ACTIVE_KEY, uuid), TemporaryKey(GATEWAY_ACTIVE_KEY, uuid'))
      modifies this
      ensures Valid()
      ensures log == old(log) + ActiveReached(TemporaryKey(ACTIVE_KEY, uuid), TemporaryKey(GATEWAY_ACTIVE_KEY, uuid'),
                                              encoded, reach, others)
      ensures r.Ok? <==> reach >= 4
    {
      ghost var t, t' := TemporaryKey(ACTIVE_KEY, uuid), TemporaryKey(GATEWAY_ACTIVE_KEY, uuid');
      ghost var first := Reached(ACTIVE_KEY, t, encoded, reach, others(0), others(1));
      r := PublishFirst(uuid, t', encoded, reach, others);
      assert first + [] == first;
      if r.Err? { return; }
      assert Strangers(others(2), t, t') && Strangers(others(3), t, t');
      r := PublishSnapshot(GATEWAY_ACTIVE_KEY, uuid', encoded, reach - 2, others(2), others(3));
      ghost var second := Reached(GATEWAY_ACTIVE_KEY, t', encoded, reach - 2, others(2), others(3));
      Associates(old(log), first, second);
    }

    // The second temporary key is still fresh afterwards.
    method PublishFirst(uuid: string, ghost t': string, encoded: string, reach: nat, others: nat -> seq<Command>)
      returns (r: Result<()>)
      requires Valid() && FreshKeys(values, TemporaryKey(ACTIVE_KEY, uuid), t')
      requires AllStrangers(others, TemporaryKey(ACTIVE_KEY, uuid), t')
      modifies this
      ensures Valid()
      ensures log == old(log)
                     + Reached(ACTIVE_KEY, TemporaryKey(ACTIVE_KEY, uuid), encoded, reach, others(0), others(1))
      ensures r.Ok? <==> reach >= 2
      ensures r.Ok? ==> t' !in values
    {
      ghost var t := TemporaryKey(ACTIVE_KEY, uuid);
      assert Strangers(others(0), t, t') && Strangers(others(1), t, t');
      PublicationAvoids(ACTIVE_KEY, t, encoded, others(0), others(1), t');
      AvoidedKey(values, Publication(ACTIVE_KEY, t, encoded, others(0), others(1)), t');
      r := PublishSnapshot(ACTIVE_KEY, uuid, encoded, reach, others(0), others(1));
    }
  }
}
