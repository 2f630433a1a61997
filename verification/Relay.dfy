/** The egress relay's upstream pool and failover loop (gateway/egress_relay.py).

    `choose` and `record_result` hold one lock, so handlers interleave exactly as
    sequences of these two operations.  The class keeps that sequence as a ghost
    history; its methods are proved against functions on plain values. */
module Relay {
  import opened Prelude

  datatype Upstream = Upstream(address: string, protocol: string, endpoint: string)

  // An element of the published list; the relay skips what is not an object.
  datatype Item = NotAnObject | Object(upstream: Upstream)

  // A refresh updates each part only when Redis returned a list for it.
  datatype Fetched = Fetched(entries: Option<seq<Item>>, capable: Option<set<string>>)

  datatype PoolState = PoolState(
    entries: seq<Item>, index: nat, failures: map<(string, int), real>, capable: set<string>, lastRefresh: real)

  datatype Settings = Settings(size: nat, cooldown: real)

  function KeyOf(u: Upstream): string {
    if u.address != "" then u.address else u.protocol + "://" + u.endpoint
  }

  function Refreshed(s: PoolState, at: real, fetched: Fetched, size: nat): PoolState {
    if at - s.lastRefresh < 3.0 then s
    else
      s.(lastRefresh := at,
         entries := match fetched.entries case None => s.entries case Some(list) => list[..Min(size, |list|)],
         capable := match fetched.capable case None => s.capable case Some(c) => c)
  }

  predicate CoolingDown(s: PoolState, key: string, port: int, now: real) {
    (if (key, port) in s.failures then s.failures[(key, port)] else 0.0) > now
  }

  function Eligible(s: PoolState, items: seq<Item>, port: int, excluded: set<string>, now: real): seq<Upstream> {
    if items == [] then []
    else
      var rest := Eligible(s, items[..|items| - 1], port, excluded, now);
      match items[|items| - 1]
      case NotAnObject => rest
      case Object(u) => if KeyOf(u) !in excluded && !CoolingDown(s, KeyOf(u), port, now) then rest + [u] else rest
  }

  // A stable sort on one boolean: the capable ones first, both parts in order.
  function Capable(us: seq<Upstream>, capable: set<string>, wanted: bool): seq<Upstream> {
    if us == [] then []
    else
      var rest := Capable(us[..|us| - 1], capable, wanted);
      if (KeyOf(us[|us| - 1]) in capable) == wanted then rest + [us[|us| - 1]] else rest
  }

  // The ring the rotating index walks: for DNS only the order differs.
  function Ring(s: PoolState, port: int, excluded: set<string>, now: real): seq<Upstream> {
    var us := Eligible(s, s.entries, port, excluded, now);
    if port == 53 then Capable(us, s.capable, true) + Capable(us, s.capable, false) else us
  }

  function Pick(s: PoolState, port: int, excluded: set<string>, now: real): Option<Upstream> {
    var ring := Ring(s, port, excluded, now);
    if ring == [] then None else Some(ring[s.index % |ring|])
  }

  // ---------- Operations as values ----------

  datatype Op =
    | Choose(refreshAt: real, fetched: Fetched, now: real, port: int, excluded: set<string>)
    | Record(candidate: Upstream, port: int, success: bool, now: real)

  function Apply(s: PoolState, op: Op, settings: Settings): PoolState {
    match op
    case Choose(refreshAt, fetched, now, port, excluded) =>
      var t := Refreshed(s, refreshAt, fetched, settings.size);
      if Pick(t, port, excluded, now).None? then t else t.(index := t.index + 1)
    case Record(candidate, port, success, now) =>
      var key := KeyOf(candidate);
      if success then
        s.(failures := s.failures - {(key, port)}, capable := if port == 53 then s.capable + {key} else s.capable)
      else s.(failures := s.failures[(key, port) := now + settings.cooldown])
  }

  function Start(): PoolState { PoolState([], 0, map[], {}, 0.0) }

  // The pool after every operation of `history`, whoever performed it.
  function Replay(history: seq<Op>, settings: Settings): PoolState {
    if history == [] then Start()
    else Apply(Replay(history[..|history| - 1], settings), history[|history| - 1], settings)
  }

  // ---------- The pool ----------

  class Pool {
    const settings: Settings
    var entries: seq<Item>
    var index: nat
    var failures: map<(string, int), real>
    var capable: set<string>
    var lastRefresh: real
    ghost var history: seq<Op>

    function State(): PoolState
      reads this
    {
      PoolState(entries, index, failures, capable, lastRefresh)
    }

    ghost predicate Valid()
      reads this
    {
      State() == Replay(history, settings)
    }

    constructor (settings: Settings)
      ensures Valid() && history == [] && this.settings == settings
    {
      this.settings := settings;
      entries, index, failures, capable, lastRefresh, history := [], 0, map[], {}, 0.0, [];
    }

    method Candidates(port: int, excluded: set<string>, now: real) returns (ring: seq<Upstream>)
      ensures ring == Ring(State(), port, excluded, now)
    {
      ring := [];
      for i := 0 to |entries|
        invariant ring == Eligible(State(), entries[..i], port, excluded, now)
      {
        assert entries[..i + 1][..i] == entries[..i];
        match entries[i] {
          case NotAnObject =>
          case Object(u) =>
            if KeyOf(u) !in excluded && !CoolingDown(State(), KeyOf(u), port, now) { ring := ring + [u]; }
        }
      }
      assert entries[..|entries|] == entries;
      if port == 53 {
        var first, last := [], [];
        for i := 0 to |ring|
          invariant first == Capable(ring[..i], capable, true) && last == Capable(ring[..i], capable, false)
        {
          assert ring[..i + 1][..i] == ring[..i];
          if KeyOf(ring[i]) in capable { first := first + [ring[i]]; } else { last := last + [ring[i]]; }
        }
        assert ring[..|ring|] == ring;
        ring := first + last;
      }
    }

    // `choose`; `refreshAt` and `now` are the readings of the monotonic clock.
    method Choose(refreshAt: real, fetched: Fetched, now: real, port: int, excluded: set<string>)
      returns (selected: Option<Upstream>)
      requires Valid()
      modifies this
      ensures Valid() && history == old(history) + [Op.Choose(refreshAt, fetched, now, port, excluded)]
      ensures selected == Pick(Refreshed(old(State()), refreshAt, fetched, settings.size), port, excluded, now)
      ensures State() == Apply(old(State()), Op.Choose(refreshAt, fetched, now, port, excluded), settings)
    {
      ghost var op := Op.Choose(refreshAt, fetched, now, port, excluded);
      if refreshAt - lastRefresh >= 3.0 {
        lastRefresh := refreshAt;
        match fetched.entries {
          case Some(list) => entries := list[..Min(settings.size, |list|)];
          case None =>
        }
        match fetched.capable {
          case Some(c) => capable := c;
          case None =>
        }
      }
      var candidates := Candidates(port, excluded, now);
      if candidates == [] {
        selected := None;
      } else {
        selected := Some(candidates[index % |candidates|]);
        index := index + 1;
      }
      history := history + [op];
      assert history[..|history| - 1] == old(history);
    }

    // `record_result`
    method RecordResult(candidate: Upstream, port: int, success: bool, now: real)
      requires Valid()
      modifies this
      ensures Valid() && history == old(history) + [Op.Record(candidate, port, success, now)]
      ensures State() == Apply(old(State()), Op.Record(candidate, port, success, now), settings)
    {
      var key := KeyOf(candidate);
      if success {
        failures := failures - {(key, port)};
        if port == 53 { capable := capable + {key}; }
      } else {
        failures := failures[(key, port) := now + settings.cooldown];
      }
      history := history + [Op.Record(candidate, port, success, now)];
      assert history[..|history| - 1] == old(history);
    }

    // Whatever other handlers do between two steps of this one.
    method Interleave(ops: seq<Op>)
      requires Valid()
      modifies this
      ensures Valid() && history == old(history) + ops
    {
      for i := 0 to |ops|
        invariant Valid() && history == old(history) + ops[..i]
      {
        assert ops[..i + 1] == ops[..i] + [ops[i]];
        match ops[i] {
          case Choose(refreshAt, fetched, now, port, excluded) =>
            var _ := Choose(refreshAt, fetched, now, port, excluded);
          case Record(candidate, port, success, now) =>
            RecordResult(candidate, port, success, now);
        }
      }
    }
  }
}
