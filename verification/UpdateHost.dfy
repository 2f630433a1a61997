/** `update` and `restore` as the straight-line, exception-driven code they are.

    The host's files, tags and containers are mutable fields.  What happens to the
    n-th event of its history is up to the outside world, given once and for all as
    `fate`; no statement can choose it.  Every statement is proved to be one event
    of the protocol, so everything proved about runs holds of every call. */
module UpdateHost {
  import opened Prelude
  import opened UpdateProtocol
  import opened UpdateEndings

  // `states` are the states a run passes through under `events`, of which the statements
  // go as `fate` has it.
  ghost predicate Chain(states: seq<State>, events: seq<Event>, fate: Fate) {
    && |states| == |events| + 1
    && forall k {:trigger Link(states, events, fate, k)} :: 0 <= k < |events| ==> Link(states, events, fate, k)
  }

  ghost predicate Link(states: seq<State>, events: seq<Event>, fate: Fate, k: nat)
    requires k < |events| && k + 1 < |states|
  {
    && Fated(states[k], events[k], fate(k))
    && states[k + 1] == Next(states[k], events[k])
  }

  ghost predicate Fated(s: State, e: Event, f: Fault) {
    Enabled(s, e) && (e.Do? ==> e == EventOf(s, f))
  }

  lemma ExtendChain(states: seq<State>, events: seq<Event>, fate: Fate, e: Event)
    requires Chain(states, events, fate) && Fated(states[|events|], e, fate(|events|))
    ensures Chain(states + [Next(states[|events|], e)], events + [e], fate)
  {
    var states', events' := states + [Next(states[|events|], e)], events + [e];
    forall k {:trigger Link(states', events', fate, k)} | 0 <= k < |events'| ensures Link(states', events', fate, k) {
      if k < |events| { assert Link(states, events, fate, k); }
    }
  }

  /** Safety carries over to the code: every state a host passes through, by any
      sequence of calls, is safe unless a late raise was among the events. */
  lemma {:induction false} RecordedStatesAreSafe(states: seq<State>, events: seq<Event>, fate: Fate, k: nat)
    requires Chain(states, events, fate) && Initial(states[0]) && k <= |events|
    requires forall i :: 0 <= i < k ==> !LateRaise(states[i], events[i])
    ensures Inv(states[k]) && Safe(states[k])
  {
    if k == 0 {
      InitialInv(states[0]);
    } else {
      RecordedStatesAreSafe(states, events, fate, k - 1);
      assert Link(states, events, fate, k - 1);
      NextKeepsInv(states[k - 1], events[k - 1]);
    }
  }

  lemma {:induction false} ChainKeepsTags(states: seq<State>, events: seq<Event>, fate: Fate, i: nat, k: nat)
    requires Chain(states, events, fate) && i <= k <= |events| && TagsImmutable(states[i].world.tags)
    ensures TagsImmutable(states[k].world.tags) && TagsKept(states[i].world.tags, states[k].world.tags)
  {
    if i < k {
      ChainKeepsTags(states, events, fate, i, k - 1);
      assert Link(states, events, fate, k - 1);
      NextKeepsTags(states[k - 1], events[k - 1]);
    }
  }

  /** Statements recorded up to the end of a process are the process run to its end. */
  lemma {:induction false} ChainRunsOn(states: seq<State>, events: seq<Event>, fate: Fate, i: nat)
    requires Chain(states, events, fate) && i < |events| && states[|events|].proc == Idle
    requires forall k :: i <= k < |events| ==> events[k].Do?
    ensures states[i].proc != Idle
    ensures RunOn(states[i], fate, i)
         == Ending(states[|events|], states[|events| - 1].proc, events[|events| - 1].outcome)
    decreases |events| - i
  {
    assert Link(states, events, fate, i);
    if i + 1 < |events| {
      ChainRunsOn(states, events, fate, i + 1);
    }
  }

  class Host {
    var head: Commit
    var pins: Option<Pins>
    var journal: Option<Journal>
    var tags: Tags
    var images: Images
    var volumes: Volumes
    const fate: Fate
    var clock: nat                  // how many events there were
    ghost var proc: Proc
    ghost var settled: Version
    ghost var trace: seq<Event>     // everything that happened so far
    ghost var states: seq<State>    // and the states it went through

    constructor (s: State, fate: Fate)
      requires Initial(s)
      ensures Valid() && Now() == s && trace == [] && this.fate == fate
    {
      this.fate, clock := fate, 0;
      head, pins, journal, tags := s.world.head, s.world.pins, s.world.journal, s.world.tags;
      images, volumes := s.world.images, s.world.volumes;
      proc, settled, trace, states := s.proc, s.settled, [], [s];
    }

    function Persistent(): World
      reads this
    {
      World(head, pins, journal, tags, images, volumes)
    }

    ghost function Now(): State
      reads this
    {
      State(Persistent(), proc, settled)
    }

    // The host is where the recorded events lead.
    ghost predicate Valid()
      reads this
    {
      Chain(states, trace, fate) && states[|trace|] == Now() && clock == |trace|
    }

    ghost predicate At(p: Proc)
      reads this
    {
      Valid() && proc == p
    }

    // Events were only added since the call began.
    twostate predicate Continues()
      reads this
    {
      Valid() && old(trace) <= trace && old(states) <= states
    }

    // The containers run what images.json pins.
    predicate RunsPins()
      reads this
    {
      CanComposeUp(Persistent()) && images == Resolve(pins.value, tags)
    }

    // Since the call began, only statements ran.
    twostate predicate Proceeds()
      reads this
    {
      Continues() && forall k :: |old(trace)| <= k < |trace| ==> trace[k].Do?
    }

    // The last event was a statement of `last` that ended with `o`.
    ghost predicate EndedAt(last: Proc, o: Outcome)
      reads this
    {
      && trace != [] && trace[|trace| - 1].Do? && trace[|trace| - 1].outcome == o
      && |states| == |trace| + 1 && states[|trace| - 1].proc == last
    }

    ghost predicate EndedBy(o: Outcome)
      reads this
    {
      trace != [] && |states| == |trace| + 1 && EndedAt(states[|trace| - 1].proc, o)
    }

    ghost predicate RestoreEndedBy(o: Outcome)
      reads this
    {
      EndedBy(o) && states[|trace| - 1].proc.Restoring?
    }

    // The process is gone, and this is what it reports.
    ghost predicate Reported(report: Report, recover: bool)
      reads this
    {
      && proc == Idle && trace != [] && trace[|trace| - 1].Do? && |states| == |trace| + 1
      && report == ReportOf(Ending(Now(), states[|trace| - 1].proc, trace[|trace| - 1].outcome), recover)
    }

    // One statement ran as fate has it and ended with `o`.
    twostate predicate Stepped(o: Outcome)
      reads this
      requires old(proc) != Idle
    {
      var f := fate(old(clock));
      && Proceeds() && clock == old(clock) + 1 && EndedAt(old(proc), o)
      && o == Ends(MayReturn(old(Persistent()), StatementOf(old(proc)), f.choice), f)
      && Persistent() == Perform(old(Persistent()), StatementOf(old(proc)), Applied(f, o), f.choice)
      && proc == Following(old(Persistent()), old(proc), o, f.choice)
    }

    ghost method Record(before: State, e: Event)
      requires Chain(states, trace, fate) && states[|trace|] == before && Fated(before, e, fate(|trace|))
      requires Next(before, e).world == Persistent() && clock == |trace| + 1
      modifies this`proc, this`settled, this`trace, this`states
      ensures Valid() && trace == old(trace) + [e] && old(states) <= states && Now() == Next(before, e)
    {
      ExtendChain(states, trace, fate, e);
      var after := Next(before, e);
      proc, settled, trace, states := after.proc, after.settled, trace + [e], states + [after];
    }

    // A statement that changes nothing: health checks, `git status`, reading the installation.
    method Check() returns (o: Outcome)
      requires Valid() && proc != Idle && StatementOf(proc) == Reads
      modifies this
      ensures Stepped(o) && settled == old(settled)
    {
      ghost var before := Now();
      var f := fate(clock);
      clock := clock + 1;
      o := f.outcome;
      Record(before, EventOf(before, f));
    }

    method CheckMountedVolumes(expected: Volumes) returns (o: Outcome)
      requires Valid() && proc != Idle && StatementOf(proc) == ReadsVolumes(expected)
      modifies this
      ensures Stepped(o)
    {
      ghost var before := Now();
      var f := fate(clock);
      clock := clock + 1;
      o := Ends(volumes == expected, f);
      Record(before, EventOf(before, f));
    }

    method GitCheckout(commit: Commit) returns (o: Outcome)
      requires Valid() && proc != Idle && StatementOf(proc) == ChecksOut(commit)
      modifies this
      ensures Stepped(o)
    {
      ghost var before := Now();
      var f := fate(clock);
      clock := clock + 1;
      o := f.outcome;
      if Applied(f, o) { head := commit; }
      Record(before, EventOf(before, f));
    }

    method WriteImagesFile(p: Pins) returns (o: Outcome)
      requires Valid() && proc != Idle && StatementOf(proc) == WritesPins(p)
      modifies this
      ensures Stepped(o)
    {
      ghost var before := Now();
      var f := fate(clock);
      clock := clock + 1;
      o := f.outcome;
      if Applied(f, o) { pins := Some(p); }
      Record(before, EventOf(before, f));
    }

    method WriteTransactionFile(j: Journal) returns (o: Outcome)
      requires Valid() && proc != Idle && StatementOf(proc) == WritesJournal(j)
      modifies this
      ensures Stepped(o)
    {
      ghost var before := Now();
      var f := fate(clock);
      clock := clock + 1;
      o := f.outcome;
      if Applied(f, o) { journal := Some(j); }
      Record(before, EventOf(before, f));
    }

    method StopContainers() returns (o: Outcome)
      requires Valid() && proc != Idle && StatementOf(proc) == Stops
      modifies this
      ensures Stepped(o)
    {
      ghost var before := Now();
      var f := fate(clock);
      clock := clock + 1;
      images, volumes, o := f.choice.images, f.choice.volumes, f.outcome;
      Record(before, EventOf(before, f));
    }

    // `compose up`, or systemd starting the unit, which runs it.
    method RunComposeUp() returns (o: Outcome)
      requires Valid() && proc != Idle && StatementOf(proc) == ComposesUp
      modifies this
      ensures Stepped(o)
    {
      ghost var before := Now();
      var f := fate(clock);
      clock := clock + 1;
      var able := CanComposeUp(Persistent());
      o := Ends(able, f);
      images := if able && Applied(f, o) then Resolve(pins.value, tags) else f.choice.images;
      volumes := f.choice.volumes;
      Record(before, EventOf(before, f));
    }

    // `tgctl.py up`, as the unit runs it at boot: `compose up` from images.json if it is
    // there, otherwise from the build tags.
    method Up(applied: bool, c: Choice) returns (ok: bool)
      requires Valid() && proc == Idle
      modifies this
      ensures Continues() && proc == Idle && settled == old(settled)
      ensures Persistent().(images := old(images), volumes := old(volumes)) == old(Persistent())
      ensures ok == (applied && (pins.Some? ==> CanComposeUp(Persistent())))
      ensures ok && pins.Some? ==> RunsPins()
      ensures Now() == Next(old(Now()), Boot(applied, c))
    {
      ghost var before := Now();
      clock := clock + 1;
      var able := CanComposeUp(Persistent());
      ok := applied && (pins.Some? ==> able);
      images := if able && applied then Resolve(pins.value, tags) else c.images;
      volumes := c.volumes;
      Record(before, Boot(applied, c));
    }

    // Anyone may rebuild a release tag between two command lines.
    method Rebuild(reference: string, image: ImageId)
      requires Valid() && proc == Idle
      modifies this
      ensures Continues() && proc == Idle
      ensures Persistent() == old(Persistent()).(tags := old(tags)[Named(reference) := image])
    {
      ghost var before := Now();
      clock := clock + 1;
      tags := tags[Named(reference) := image];
      Record(before, Retag(reference, image));
    }

    // The loop of `pin_images`: one `docker tag` per service, possibly cut short.
    method TagEach(toPin: Images, some: set<Service>)
      modifies this`tags
      ensures tags == old(tags) + RetainedTags(toPin, some)
    {
      var todo := toPin.Keys;
      while todo != {}
        invariant todo <= toPin.Keys
        invariant tags == old(tags) + RetainedTags(toPin, some - todo)
      {
        var service :| service in todo;
        if service in some {
          var tag := Retained(service, toPin[service].digest);
          assert TagsOf(toPin, some - (todo - {service})) == TagsOf(toPin, some - todo) + {tag};
          tags := tags[tag := toPin[service]];
        } else {
          assert some - (todo - {service}) == some - todo;
        }
        todo := todo - {service};
      }
      assert some - {} == some;
    }

    method PinImages(toPin: Images) returns (o: Outcome)
      requires Valid() && proc != Idle && StatementOf(proc) == TagsImages(toPin)
      modifies this
      ensures Stepped(o)
    {
      ghost var before := Now();
      var f := fate(clock);
      clock := clock + 1;
      o := f.outcome;
      TagEach(toPin, if Applied(f, o) then toPin.Keys else f.choice.tagged);
      Record(before, EventOf(before, f));
    }

    method BuildCandidate(services: set<Service>) returns (o: Outcome)
      requires Valid() && proc != Idle && StatementOf(proc) == Builds(services)
      modifies this
      ensures Stepped(o)
    {
      ghost var before := Now();
      var f := fate(clock);
      clock := clock + 1;
      tags := tags + NamedTags(f.choice.built);
      o := Ends(f.choice.images.Keys == services, f);
      Record(before, EventOf(before, f));
    }

    // Lines 182-183 of `restore`.
    method StopAll(j: Journal) returns (o: Outcome)
      requires At(Restoring(ComposeStop, j))
      modifies this
      ensures o != Returns ==> RestoreEndedBy(o)
      ensures Proceeds() && journal == old(journal)
      ensures proc == if o == Returns then Restoring(CheckoutPrevious, j) else Idle
    {
      o := StopContainers();
      if o != Returns { return; }
      o := StopContainers();
    }

    // Lines 184-185 of `restore`.
    method PutBackFiles(j: Journal) returns (o: Outcome)
      requires At(Restoring(CheckoutPrevious, j))
      modifies this
      ensures o != Returns ==> RestoreEndedBy(o)
      ensures Proceeds() && journal == old(journal)
      ensures if o == Returns then
          proc == Restoring(ComposeUpPrevious, j) && head == j.previousCommit && pins == Some(j.previousImages)
        else proc == Idle
    {
      o := GitCheckout(j.previousCommit);
      if o != Returns { return; }
      o := WriteImagesFile(j.previousImages);
    }

    // Lines 187-189 of `restore`.
    method StartPrevious(j: Journal) returns (o: Outcome)
      requires At(Restoring(ComposeUpPrevious, j))
      modifies this
      ensures o != Returns ==> RestoreEndedBy(o)
      ensures Proceeds() && head == old(head) && pins == old(pins) && journal == old(journal)
      ensures proc == if o == Returns then Restoring(HealthPrevious, j) else Idle
      ensures o == Returns ==> RunsPins()
    {
      o := RunComposeUp();
      if o != Returns { return; }
      o := RunComposeUp();
    }

    // Lines 190-195 of `restore`.
    method ConfirmPrevious(j: Journal) returns (o: Outcome)
      requires At(Restoring(HealthPrevious, j))
      modifies this
      ensures RestoreEndedBy(o)
      ensures Proceeds() && proc == Idle && head == old(head) && pins == old(pins)
      ensures images == old(images) && tags == old(tags)
      ensures o == Returns ==> journal == Some(j.(phase := RolledBack)) && volumes == j.volumes
      ensures journal == old(journal) || journal == Some(j.(phase := RolledBack))
    {
      o := Check();
      if o != Returns { return; }
      o := CheckMountedVolumes(j.volumes);
      if o != Returns { return; }
      o := WriteTransactionFile(j.(phase := RolledBack));
    }

    /** `restore`: it reports success exactly when everything saved is back. */
    method Restore(j: Journal) returns (o: Outcome)
      requires At(Restoring(ComposeStop, j))
      modifies this
      ensures RestoreEndedBy(o)
      ensures Proceeds() && proc == Idle
      ensures o == Returns ==>
        (journal == Some(j.(phase := RolledBack)) && volumes == j.volumes
         && head == j.previousCommit && pins == Some(j.previousImages) && RunsPins())
      ensures journal == old(journal) || journal == Some(j.(phase := RolledBack))
    {
      o := StopAll(j);
      if o != Returns { return; }
      o := PutBackFiles(j);
      if o != Returns { return; }
      o := StartPrevious(j);
      if o != Returns { return; }
      o := ConfirmPrevious(j);
    }

    // Lines 319-321 of `update`, after `switched = True`.
    method StopCurrent(plan: Plan, recover: bool) returns (o: Outcome)
      requires At(Updating(PrepareService, recover, plan))
      modifies this
      ensures Proceeds()
      ensures match o
        case Returns => proc == Updating(Checkout, recover, plan)
        case Raises => proc == Restoring(ComposeStop, JournalOf(plan))
        case Dies => proc == Idle && EndedBy(Dies)
    {
      o := Check();
      if o != Returns { return; }
      o := StopContainers();
    }

    // Lines 322-323 of `update`.
    method InstallFiles(plan: Plan, recover: bool) returns (o: Outcome)
      requires At(Updating(Checkout, recover, plan))
      modifies this
      ensures Proceeds()
      ensures match o
        case Returns => proc == Updating(ComposeUp, recover, plan) && head == plan.target
                        && pins == Some(PinsFor(plan.project, plan.newImages))
        case Raises => proc == Restoring(ComposeStop, JournalOf(plan))
        case Dies => proc == Idle && EndedBy(Dies)
    {
      o := GitCheckout(plan.target);
      if o != Returns { return; }
      o := WriteImagesFile(PinsFor(plan.project, plan.newImages));
    }

    // Lines 325-327 of `update`.
    method StartTarget(plan: Plan, recover: bool) returns (o: Outcome)
      requires At(Updating(ComposeUp, recover, plan))
      modifies this
      ensures Proceeds() && head == old(head) && pins == old(pins)
      ensures match o
        case Returns => proc == Updating(Health, recover, plan) && RunsPins()
        case Raises => proc == Restoring(ComposeStop, JournalOf(plan))
        case Dies => proc == Idle && EndedBy(Dies)
    {
      o := RunComposeUp();
      if o != Returns { return; }
      o := RunComposeUp();
    }

    // Lines 329-332 of `update`.
    method ConfirmTarget(plan: Plan, recover: bool) returns (o: Outcome)
      requires At(Updating(Health, recover, plan))
      modifies this
      ensures Proceeds() && head == old(head) && pins == old(pins) && images == old(images) && tags == old(tags)
      ensures match o
        case Returns => proc == Updating(WriteComplete, recover, plan) && volumes == plan.volumes
        case Raises => proc == Restoring(ComposeStop, JournalOf(plan))
        case Dies => proc == Idle && EndedBy(Dies)
    {
      o := Check();
      if o != Returns { return; }
      o := CheckMountedVolumes(plan.volumes);
    }

    // Lines 333-334 of `update`.
    method CommitTarget(plan: Plan, recover: bool) returns (o: Outcome)
      requires At(Updating(WriteComplete, recover, plan))
      modifies this
      ensures Proceeds() && Persistent().(journal := old(journal)) == old(Persistent())
      ensures match o
        case Returns => proc == Idle && EndedAt(Updating(WriteComplete, recover, plan), Returns)
                        && journal == Some(JournalOf(plan).(phase := Complete))
        case Raises => proc == Restoring(ComposeStop, JournalOf(plan))
        case Dies => proc == Idle && EndedBy(Dies)
    {
      o := WriteTransactionFile(JournalOf(plan).(phase := Complete));
    }

    // Lines 319-334 of `update`: everything after `switched = True`.
    method Switch(plan: Plan, recover: bool) returns (o: Outcome)
      requires At(Updating(PrepareService, recover, plan))
      modifies this
      ensures Proceeds()
      ensures match o
        case Returns => proc == Idle && EndedAt(Updating(WriteComplete, recover, plan), Returns)
                        && journal == Some(JournalOf(plan).(phase := Complete)) && head == plan.target
                        && pins == Some(PinsFor(plan.project, plan.newImages)) && volumes == plan.volumes && RunsPins()
        case Raises => proc == Restoring(ComposeStop, JournalOf(plan))
        case Dies => proc == Idle && EndedBy(Dies)
    {
      o := StopCurrent(plan, recover);
      if o != Returns { return; }
      o := InstallFiles(plan, recover);
      if o != Returns { return; }
      o := StartTarget(plan, recover);
      if o != Returns { return; }
      o := ConfirmTarget(plan, recover);
      if o != Returns { return; }
      o := CommitTarget(plan, recover);
    }

    // Nothing to update to.
    ghost predicate UnchangedEnd()
      reads this
    {
      EndedBy(Returns) && states[|trace| - 1].proc.Updating? && states[|trace| - 1].proc.line == Fetch
    }

    // Lines 279-295: look at the running installation, fetch the target, retain the old images.
    method InspectAndRetain(recover: bool, plan0: Plan) returns (o: Outcome, same: bool, plan: Plan)
      requires At(Updating(Inspect, recover, plan0))
      modifies this
      ensures Proceeds() && Persistent().(tags := old(tags)) == old(Persistent())
      ensures o == Returns && !same ==>
        (proc == Updating(Build, recover, plan) && plan.previous == head && plan.images == images
         && plan.volumes == volumes && plan.target != head && HasTags(images, tags))
      ensures same ==> o == Returns && Persistent() == old(Persistent())
      ensures o != Returns || same ==> proc == Idle
      ensures o != Returns ==> EndedBy(o)
      ensures same ==> UnchangedEnd()
    {
      same, plan := false, plan0;
      var f := fate(clock);
      o := Check();
      if o != Returns { return; }
      plan := plan.(project := f.choice.project, previous := head, images := images, volumes := volumes);
      f := fate(clock);
      o := Check();
      if o != Returns { return; }
      if f.choice.commit == plan.previous { same := true; return; }
      plan := plan.(target := f.choice.commit);
      o := PinImages(plan.images);
    }

    // Line 300: build the candidate and retain its images.
    method BuildAndRetain(recover: bool, plan0: Plan) returns (o: Outcome, plan: Plan)
      requires At(Updating(Build, recover, plan0))
      modifies this
      ensures Proceeds() && Persistent().(tags := old(tags)) == old(Persistent())
      ensures plan.(newImages := plan0.newImages) == plan0
      ensures proc == if o == Returns then Updating(Recheck, recover, plan) else Idle
      ensures o != Returns ==> EndedBy(o)
      ensures o == Returns ==> plan.newImages.Keys == plan.images.Keys
    {
      plan := plan0;
      var f := fate(clock);
      o := BuildCandidate(plan.images.Keys);
      if o != Returns { return; }
      plan := plan.(newImages := f.choice.images);
      o := PinImages(plan.newImages);
    }

    // Lines 301-316: re-check, then write the switching journal.
    method BeginSwitch(recover: bool, plan: Plan) returns (o: Outcome)
      requires At(Updating(Recheck, recover, plan))
      modifies this
      ensures o != Returns ==> EndedBy(o)
      ensures Proceeds() && Persistent().(journal := old(journal)) == old(Persistent())
      ensures if o == Returns then proc == Updating(PrepareService, recover, plan) && journal == Some(JournalOf(plan))
              else proc == Idle && (journal == old(journal) || journal == Some(JournalOf(plan)))
    {
      o := Check();
      if o != Returns { return; }
      o := WriteTransactionFile(JournalOf(plan));
    }

    // Lines 279-317: everything before the first container stops.
    method Prepare(recover: bool, plan0: Plan) returns (o: Outcome, same: bool, plan: Plan)
      requires At(Updating(Inspect, recover, plan0))
      modifies this
      ensures Proceeds()
      ensures o == Returns && !same ==>
        (proc == Updating(PrepareService, recover, plan) && journal == Some(JournalOf(plan)) && Saved(plan))
      ensures same ==> o == Returns && Persistent() == old(Persistent())
      ensures o != Returns || same ==> proc == Idle
      ensures o != Returns ==> EndedBy(o)
      ensures same ==> UnchangedEnd()
    {
      o, same, plan := InspectAndRetain(recover, plan0);
      if o != Returns || same { return; }
      ghost var retained := |trace|;
      o, plan := BuildAndRetain(recover, plan);
      if o != Returns { return; }
      o := BeginSwitch(recover, plan);
      if TagsImmutable(old(tags)) {
        ChainKeepsTags(states, trace, fate, |old(trace)|, retained);
        ChainKeepsTags(states, trace, fate, retained, |trace|);
      }
    }

    // The plan saves the version found, and its images are retained.
    twostate predicate Saved(plan: Plan)
      reads this
    {
      && plan.previous == old(head) != plan.target && plan.images == old(images) && plan.volumes == old(volumes)
      && (TagsImmutable(old(tags)) ==> TagsImmutable(tags) && HasTags(old(images), tags))
    }

    // A restore from a plan's journal brings the images it found back.
    method RestorePlan(plan: Plan) returns (o: Outcome)
      requires At(Restoring(ComposeStop, JournalOf(plan)))
      modifies this
      ensures RestoreEndedBy(o)
      ensures Proceeds() && proc == Idle
      ensures o == Returns ==>
        (journal == Some(JournalOf(plan).(phase := RolledBack)) && volumes == plan.volumes
         && head == plan.previous && pins == Some(PinsFor(plan.project, plan.images))
         && (TagsImmutable(old(tags)) && HasTags(plan.images, old(tags)) ==> images == plan.images))
    {
      o := Restore(JournalOf(plan));
      if TagsImmutable(old(tags)) && HasTags(plan.images, old(tags)) {
        ChainKeepsTags(states, trace, fate, |old(trace)|, |trace|);
        PinnedResolves(PinsFor(plan.project, plan.images), plan.images, tags);
      }
    }

    // The body of the `try` for a real update, with its `except` clause.
    method Attempt(recover: bool, plan0: Plan) returns (report: Report)
      requires At(Updating(Inspect, recover, plan0)) && !recover
      modifies this
      ensures Proceeds() && Reported(report, recover) && report != Recovered
      ensures report == Unchanged ==> Persistent() == old(Persistent())
      ensures report == Updated ==> MovedOn()
      ensures report == Failed(true) ==> PutBack()
    {
      var o, same, plan := Prepare(recover, plan0);
      if o != Returns { return if o == Dies then Killed else Failed(false); }
      if same { return Unchanged; }
      ghost var began := |trace|;
      o := Switch(plan, recover);
      if o == Returns { return Updated; }
      if o == Dies { return Killed; }
      if TagsImmutable(old(tags)) { ChainKeepsTags(states, trace, fate, began, |trace|); }
      o := RestorePlan(plan);
      return if o == Returns then Failed(true) else if o == Dies then Killed else Failed(false);
    }

    // An update went through: another commit, its pinned images, the same volumes.
    twostate predicate MovedOn()
      reads this
    {
      && journal.Some? && journal.value.phase == Complete && journal.value.previousCommit == old(head)
      && head == journal.value.targetCommit != old(head) && volumes == old(volumes) && RunsPins()
    }

    // An update failed and left what it found, with images.json pinning it.
    twostate predicate PutBack()
      reads this
    {
      && journal.Some? && journal.value.phase == RolledBack && journal.value.previousCommit == old(head)
      && head == old(head) && volumes == old(volumes)
      && pins == Some(journal.value.previousImages) && pins == Some(PinsFor(pins.value.project, old(images)))
      && (TagsImmutable(old(tags)) ==> images == old(images))
    }

    // The journal holds the settled images, as it does in every good interrupted state.
    ghost predicate SavesSettled()
      reads this
      requires journal.Some?
    {
      TagsImmutable(tags) && Pinned(journal.value.previousImages, settled.images, tags)
    }

    // Lines 269-278: a switching journal is restored on request.
    method Recover() returns (report: Report)
      requires Valid() && journal.Some? && At(Restoring(ComposeStop, journal.value))
      modifies this
      ensures Proceeds() && Reported(report, true)
      ensures report == Recovered || report == Failed(false) || report == Killed
      ensures report == Recovered ==> BackTo(old(journal).value)
      ensures report == Recovered && old(SavesSettled()) ==> images == old(settled).images
    {
      var o := Restore(journal.value);
      if old(SavesSettled()) {
        ChainKeepsTags(states, trace, fate, |old(trace)|, |trace|);
        PinnedResolves(old(journal).value.previousImages, old(settled).images, tags);
      }
      return if o == Returns then Recovered else if o == Dies then Killed else Failed(false);
    }

    // The installation a journal saved.
    predicate BackTo(j: Journal)
      reads this
    {
      && journal == Some(j.(phase := RolledBack)) && head == j.previousCommit && volumes == j.volumes
      && pins == Some(j.previousImages) && RunsPins()
    }

    // Lines 249-268: take the lock, check the installation, read the journal.
    method Begins(recover: bool) returns (o: Outcome)
      requires Valid() && proc == Idle
      modifies this
      ensures BeganWith(recover) && Persistent() == old(Persistent()) && settled == old(settled)
      ensures proc == if o != Returns || recover == Quiet(Persistent()) then Idle
                      else if recover then Restoring(ComposeStop, journal.value)
                      else Updating(Inspect, recover, Plan("", "", map[], map[], "", map[]))
      ensures proc == Idle ==> Reported(if o == Dies then Killed else Failed(false), recover)
    {
      TakeLock(recover);
      o := Check();
      if o != Returns { return; }
      o := Check();
    }

    method TakeLock(recover: bool)
      requires Valid() && proc == Idle
      modifies this
      ensures BeganWith(recover) && |trace| == |old(trace)| + 1
      ensures Persistent() == old(Persistent()) && settled == old(settled)
      ensures proc == Updating(Preflight, recover, Plan("", "", map[], map[], "", map[]))
    {
      clock := clock + 1;
      Record(Now(), Begin(recover));
    }

    // One command line began, and since then only statements ran.
    twostate predicate BeganWith(recover: bool)
      reads this
    {
      && Continues() && |old(trace)| < |trace| && trace[|old(trace)|] == Begin(recover)
      && forall k :: |old(trace)| < k < |trace| ==> trace[k].Do?
    }

    // `update`, from taking the lock to releasing it.
    method Execute(recover: bool) returns (report: Report)
      requires Valid() && proc == Idle
      modifies this
      ensures BeganWith(recover) && Reported(report, recover)
      ensures report == Unchanged ==> Persistent() == old(Persistent())
      ensures report == Updated ==> Quiet(old(Persistent())) && MovedOn()
      ensures report == Failed(true) ==> Quiet(old(Persistent())) && PutBack()
      ensures report == Recovered ==> recover && !Quiet(old(Persistent())) && BackTo(old(journal).value)
      ensures report == Recovered && Inv(old(Now())) ==> images == old(settled).images
      ensures !Quiet(old(Persistent())) && !recover ==> Persistent() == old(Persistent())
    {
      var o := Begins(recover);
      if o != Returns { return if o == Dies then Killed else Failed(false); }
      if Quiet(Persistent()) == recover { return Failed(false); }
      if recover {
        report := Recover();
      } else {
        report := Attempt(recover, Plan("", "", map[], map[], "", map[]));
      }
    }

    /** One `tgctl.py update` command line.  It leaves exactly the state that running its
        statements as fate has it leads to, and reports what that means; in particular it
        restores whenever a statement after the switching write raises. */
    method Update(recover: bool) returns (report: Report)
      requires Valid() && proc == Idle
      modifies this
      ensures Continues() && proc == Idle
      ensures Now() == CommandLine(old(Now()), fate, old(clock), recover).state
      ensures report == ReportOf(CommandLine(old(Now()), fate, old(clock), recover), recover)
      ensures (old(SwitchIsRetained()) ==> report == Expected(old(Persistent()), fate, old(clock), recover))
      ensures report == Unchanged ==> Persistent() == old(Persistent())
      ensures report == Updated ==> Quiet(old(Persistent())) && MovedOn()
      ensures report == Failed(true) ==> Quiet(old(Persistent())) && PutBack()
      ensures report == Recovered ==> recover && !Quiet(old(Persistent())) && BackTo(old(journal).value)
      ensures report == Recovered && Inv(old(Now())) ==> images == old(settled).images
      ensures !Quiet(old(Persistent())) && !recover ==> Persistent() == old(Persistent())
    {
      report := Execute(recover);
      assert Link(states, trace, fate, old(clock));
      ChainRunsOn(states, trace, fate, old(clock) + 1);
      if old(SwitchIsRetained()) { EveryCommandEndsAsExpected(old(Now()), fate, old(clock), recover); }
    }

    // The images of a pending switch are retained, as they are in every good state.
    ghost predicate SwitchIsRetained()
      reads this
    {
      !Quiet(Persistent()) ==> Resolvable(journal.value.previousImages, tags)
    }
  }
}
