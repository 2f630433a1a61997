/** Exactly which events take the updater out of its promise: a raise after the
    `complete` rename, which every installation can run into, and for the
    containers a boot that does not start the settled version. */
module UpdateExactness {
  import opened Prelude
  import opened UpdateProtocol

  ghost predicate ContainersSettled(s: State) {
    Quiet(s.world) ==> s.world.images == s.settled.images && s.world.volumes == s.settled.volumes
  }

  // Outside a switch, the unit's `compose up` mounts the same volumes, and either starts
  // the pins or leaves the images as they are.
  ghost predicate BootsSettled(s: State, e: Event) {
    e.Boot? && Quiet(s.world) ==>
      && e.bootChoice.volumes == s.world.volumes
      && ((e.applied && s.world.pins.Some?) || e.bootChoice.images == s.world.images)
  }

  ghost predicate AllBootsSettled(s: State, es: seq<Event>)
    requires Legal(s, es)
    decreases es
  {
    es != [] ==> BootsSettled(s, es[0]) && AllBootsSettled(Next(s, es[0]), es[1..])
  }

  // ---------- What is on disk ----------

  ghost predicate AlwaysSafe(s: State) {
    forall es :: Legal(s, es) && NoLateRaise(s, es) ==> Safe(After(s, es))
  }

  /** From a good state, the state after an event can only ever lead to safe
      states exactly when the event is not a late raise.  After a late raise the
      disk says `complete` while `restore` runs: once the previous commit is
      checked out, a crash leaves that journal, and `--recover` refuses it. */
  lemma SafeExactlyWithoutLateRaise(s: State, e: Event)
    requires Inv(s) && Enabled(s, e)
    ensures AlwaysSafe(Next(s, e)) <==> !LateRaise(s, e)
  {
    var t := Next(s, e);
    if LateRaise(s, e) {
      LateRaiseBreaks(s, e);
    } else {
      NextKeepsInv(s, e);
      forall es | Legal(t, es) && NoLateRaise(t, es) ensures Safe(After(t, es)) {
        RunKeepsInv(t, es);
      }
    }
  }

  // `restore` from its first line to the checkout.
  function ToTheCheckout(): seq<Event> { [Ran(map[]), Ran(map[]), Ran(map[])] }

  lemma RestoreChecksOut(s: State)
    requires s.proc.Restoring? && s.proc.at == ComposeStop
    ensures var es := ToTheCheckout();
      && Legal(s, es) && NoLateRaise(s, es) && AllBootsSettled(s, es)
      && After(s, es).world.head == s.proc.journal.previousCommit
      && After(s, es).world.journal == s.world.journal
  {
    var run := Ran(map[]);
    var es := [run, run, run];
    assert es[1..] == [run, run] && es[1..][1..] == [run] && es[1..][1..][1..] == [];
    var s1 := Next(s, run);
    var s2 := Next(s1, run);
    var s3 := Next(s2, run);
    assert Legal(s3, []) && NoLateRaise(s3, []) && AllBootsSettled(s3, []);
    assert Legal(s2, [run]) && NoLateRaise(s2, [run]) && AllBootsSettled(s2, [run]) && After(s2, [run]) == s3;
    assert Legal(s1, [run, run]) && NoLateRaise(s1, [run, run]) && AllBootsSettled(s1, [run, run]);
    assert After(s1, [run, run]) == s3;
  }

  lemma LateRaiseBreaks(s: State, e: Event)
    requires Inv(s) && Enabled(s, e) && LateRaise(s, e)
    ensures var t, es := Next(s, e), ToTheCheckout();
      && Legal(t, es) && NoLateRaise(t, es) && AllBootsSettled(t, es)
      && After(t, es).world.journal == Some(JournalOf(s.proc.plan).(phase := Complete))
      && After(t, es).world.head == s.proc.plan.previous != s.proc.plan.target
      && !Safe(After(t, es))
  {
    RestoreChecksOut(Next(s, e));
    assert s.proc.plan.previous != s.proc.plan.target;
  }

  // ---------- Every installation can be updated, and can raise late ----------

  // What an update that installs `images` at `target` needs on its way.
  ghost predicate OnTheWay(s: State, target: Commit, images: Images, volumes: Volumes) {
    && s.proc.Updating? && !s.proc.recover
    && var n, p := LineNumber(s.proc.line), s.proc.plan;
      && (n <= 2 ==> Quiet(s.world) && s.world.head != target && s.world.images.Keys == images.Keys
                     && s.world.volumes == volumes)
      && (n >= 3 ==> p.previous != target && p.images.Keys == images.Keys && p.volumes == volumes)
      && (n >= 4 ==> p.target == target)
      && (n >= 6 ==> p.newImages == images)
      && (n >= 14 ==> s.world.volumes == p.volumes)
  }

  // The statement at the current line, taking effect.
  function UpdateStep(s: State, target: Commit, images: Images): Event
    requires s.proc.Updating?
  {
    Do(true, Returns, Choice(s.proc.plan.project, target, images, s.proc.plan.volumes, {}, map[]))
  }

  ghost predicate Advances(s: State, target: Commit, images: Images, volumes: Volumes)
    requires s.proc.Updating?
  {
    var e := UpdateStep(s, target, images);
    && Enabled(s, e) && !LateRaise(s, e) && OnTheWay(Next(s, e), target, images, volumes)
    && LineNumber(Next(s, e).proc.line) == LineNumber(s.proc.line) + 1
  }

  lemma InspectionAdvances(s: State, target: Commit, images: Images, volumes: Volumes)
    requires OnTheWay(s, target, images, volumes) && LineNumber(s.proc.line) <= 3
    ensures Advances(s, target, images, volumes)
  {
  }

  lemma PreparationAdvances(s: State, target: Commit, images: Images, volumes: Volumes)
    requires OnTheWay(s, target, images, volumes) && 4 <= LineNumber(s.proc.line) <= 8
    ensures Advances(s, target, images, volumes)
  {
  }

  lemma SwitchAdvances(s: State, target: Commit, images: Images, volumes: Volumes)
    requires OnTheWay(s, target, images, volumes) && 9 <= LineNumber(s.proc.line) <= 12
    ensures Advances(s, target, images, volumes)
  {
  }

  lemma StartAdvances(s: State, target: Commit, images: Images, volumes: Volumes)
    requires OnTheWay(s, target, images, volumes) && 13 <= LineNumber(s.proc.line) <= 16 && CanComposeUp(s.world)
    ensures Advances(s, target, images, volumes)
  {
  }

  lemma {:induction false} UpdateCanReachComplete(s: State, target: Commit, images: Images, volumes: Volumes)
    returns (es: seq<Event>)
    requires Inv(s) && OnTheWay(s, target, images, volumes)
    ensures Legal(s, es) && NoLateRaise(s, es)
    ensures var t := After(s, es);
      Inv(t) && OnTheWay(t, target, images, volumes) && t.proc.line == WriteComplete
    decreases 17 - LineNumber(s.proc.line)
  {
    es := [];
    if s.proc.line != WriteComplete {
      var e := UpdateStep(s, target, images);
      var n := LineNumber(s.proc.line);
      if n <= 3 { InspectionAdvances(s, target, images, volumes); }
      else if n <= 8 { PreparationAdvances(s, target, images, volumes); }
      else if n <= 12 { SwitchAdvances(s, target, images, volumes); }
      else { TargetResolves(s); StartAdvances(s, target, images, volumes); }
      NextKeepsInv(s, e);
      var rest := UpdateCanReachComplete(Next(s, e), target, images, volumes);
      es := [e] + rest;
      assert es[1..] == rest;
    }
  }

  lemma UpdateReachesComplete(s: State, target: Commit, images: Images) returns (es: seq<Event>)
    requires Inv(s) && s.proc == Idle && Quiet(s.world)
    requires target != s.world.head && images.Keys == s.world.images.Keys
    ensures Legal(s, es) && NoLateRaise(s, es)
    ensures var t := After(s, es);
      Inv(t) && OnTheWay(t, target, images, s.world.volumes) && t.proc.line == WriteComplete
  {
    NextKeepsInv(s, Begin(false));
    var rest := UpdateCanReachComplete(Next(s, Begin(false)), target, images, s.world.volumes);
    es := [Begin(false)] + rest;
    assert es[1..] == rest;
  }

  lemma {:induction false} OneEventMore(s: State, es: seq<Event>, e: Event)
    requires Legal(s, es) && NoLateRaise(s, es) && Enabled(After(s, es), e) && !LateRaise(After(s, es), e)
    ensures Legal(s, es + [e]) && NoLateRaise(s, es + [e]) && After(s, es + [e]) == Next(After(s, es), e)
    decreases es
  {
    if es == [] {
      assert (es + [e])[1..] == [];
    } else {
      assert (es + [e])[1..] == es[1..] + [e];
      OneEventMore(Next(s, es[0]), es[1..], e);
    }
  }

  /** From every good state with the lock free and no switch pending, an update to any other
      commit, with any images for the same services, can go through. */
  lemma UpdateCanFinish(s: State, target: Commit, images: Images) returns (es: seq<Event>)
    requires Inv(s) && s.proc == Idle && Quiet(s.world)
    requires target != s.world.head && images.Keys == s.world.images.Keys
    ensures Legal(s, es) && NoLateRaise(s, es)
    ensures var t := After(s, es);
      && t.proc == Idle && Safe(t) && t.world.journal.Some? && t.world.journal.value.phase == Complete
      && t.settled.commit == target && t.settled.images == images && t.settled.volumes == s.world.volumes
      && Installed(t.world, t.settled)
  {
    es := UpdateReachesComplete(s, target, images);
    var t := After(s, es);
    var last := UpdateStep(t, target, images);
    NextKeepsInv(t, last);
    OneEventMore(s, es, last);
    es := es + [last];
  }

  /** The late raise is a run of the system: every installation has one, to every target. */
  lemma LateRaiseHappens(s: State, target: Commit) returns (es: seq<Event>, e: Event)
    requires Initial(s) && target != s.world.head
    ensures Legal(s, es) && NoLateRaise(s, es)
    ensures Enabled(After(s, es), e) && LateRaise(After(s, es), e)
    ensures var t := Next(After(s, es), e);
      Legal(t, ToTheCheckout()) && NoLateRaise(t, ToTheCheckout()) && !Safe(After(t, ToTheCheckout()))
  {
    InitialInv(s);
    es := UpdateReachesComplete(s, target, s.world.images);
    e := Do(true, Raises, Choice("", "", map[], map[], {}, map[]));
    LateRaiseBreaks(After(s, es), e);
  }

  // ---------- What the containers run ----------

  lemma BootContainers(s: State, e: Event)
    requires Inv(s) && ContainersSettled(s) && Enabled(s, e) && e.Boot?
    ensures ContainersSettled(Next(s, e)) <==> BootsSettled(s, e)
  {
    if Quiet(s.world) && s.world.pins.Some? {
      PinnedResolves(s.world.pins.value, s.settled.images, s.world.tags);
    }
  }

  // Before the switch begins no statement touches containers; beginning it takes them over.
  lemma PreparationContainers(s: State, e: Event)
    requires Inv(s) && ContainersSettled(s) && Enabled(s, e) && e.Do?
    requires s.proc.Updating? && LineNumber(s.proc.line) <= 8
    ensures ContainersSettled(Next(s, e))
  {
  }

  lemma SwitchContainers(s: State, e: Event)
    requires Inv(s) && Enabled(s, e) && e.Do? && !LateRaise(s, e)
    requires s.proc.Updating? && LineNumber(s.proc.line) >= 9
    ensures ContainersSettled(Next(s, e))
  {
  }

  lemma RestoreContainers(s: State, e: Event)
    requires Inv(s) && Enabled(s, e) && e.Do? && s.proc.Restoring?
    ensures ContainersSettled(Next(s, e))
  {
  }

  lemma DoContainers(s: State, e: Event)
    requires Inv(s) && ContainersSettled(s) && Enabled(s, e) && e.Do? && !LateRaise(s, e)
    ensures ContainersSettled(Next(s, e))
  {
    if s.proc.Restoring? { RestoreContainers(s, e); }
    else if LineNumber(s.proc.line) <= 8 { PreparationContainers(s, e); }
    else { SwitchContainers(s, e); }
  }

  lemma StepContainers(s: State, e: Event)
    requires Inv(s) && ContainersSettled(s) && Enabled(s, e) && !LateRaise(s, e)
    ensures ContainersSettled(Next(s, e)) <==> BootsSettled(s, e)
  {
    if e.Boot? { BootContainers(s, e); }
    if e.Do? { DoContainers(s, e); }
  }

  lemma {:induction false} RunKeepsContainers(s: State, es: seq<Event>)
    requires Inv(s) && ContainersSettled(s) && Legal(s, es) && NoLateRaise(s, es) && AllBootsSettled(s, es)
    ensures Inv(After(s, es)) && ContainersSettled(After(s, es))
    decreases es
  {
    if es != [] {
      NextKeepsInv(s, es[0]);
      StepContainers(s, es[0]);
      RunKeepsContainers(Next(s, es[0]), es[1..]);
    }
  }

  /** Whatever updates, failures, crashes, recoveries and tag rebuilds happen: as long as
      boots settle and nothing raises late, outside a switch the containers are those of
      the settled version, too. */
  lemma EveryRunKeepsContainers(s: State, es: seq<Event>)
    requires Initial(s) && Legal(s, es) && NoLateRaise(s, es) && AllBootsSettled(s, es)
    ensures Safe(After(s, es))
    ensures Quiet(After(s, es).world) ==> Installed(After(s, es).world, After(s, es).settled)
  {
    InitialInv(s);
    RunKeepsContainers(s, es);
  }

  ghost predicate AlwaysInstalled(s: State) {
    forall es :: Legal(s, es) && NoLateRaise(s, es) && AllBootsSettled(s, es) ==>
      Safe(After(s, es)) && ContainersSettled(After(s, es))
  }

  /** The exact condition for the containers: from a good, settled state, the state after an
      event can only lead to safe and settled ones exactly when the event is neither a late
      raise nor a boot that changes volumes or, failing or without pins, images. */
  lemma InstalledExactly(s: State, e: Event)
    requires Inv(s) && ContainersSettled(s) && Enabled(s, e)
    ensures AlwaysInstalled(Next(s, e)) <==> !LateRaise(s, e) && BootsSettled(s, e)
  {
    var t := Next(s, e);
    if LateRaise(s, e) {
      LateRaiseBreaks(s, e);
    } else {
      NextKeepsInv(s, e);
      StepContainers(s, e);
      if BootsSettled(s, e) {
        forall es | Legal(t, es) && NoLateRaise(t, es) && AllBootsSettled(t, es)
          ensures Safe(After(t, es)) && ContainersSettled(After(t, es))
        {
          RunKeepsContainers(t, es);
        }
      } else {
        assert Legal(t, []) && NoLateRaise(t, []) && AllBootsSettled(t, []);
      }
    }
  }

  /** A successful start from images.json brings the settled images back, whatever failed
      or unpinned boots came before. */
  lemma PinnedStartRestores(s: State, es: seq<Event>, c: Choice)
    requires Inv(s) && Legal(s, es) && NoLateRaise(s, es)
    requires var t := After(s, es); t.proc == Idle && Quiet(t.world) && t.world.pins.Some?
    ensures Next(After(s, es), Boot(true, c)).world.images == After(s, es).settled.images
  {
    RunKeepsInv(s, es);
    var t := After(s, es);
    PinnedResolves(t.world.pins.value, t.settled.images, t.world.tags);
  }

  /** The journal of a switch saves what the containers really ran and mounted when it
      began, which is the settled version when the boots before it settled. */
  lemma SwitchSavesWhatRan(s: State, e: Event)
    requires Inv(s) && Enabled(s, e) && Quiet(s.world) && !Quiet(Next(s, e).world)
    ensures var j, w := Next(s, e).world.journal.value, s.world;
      && j.previousCommit == w.head && j.volumes == w.volumes
      && Resolvable(j.previousImages, w.tags) && Resolve(j.previousImages, w.tags) == w.images
    ensures ContainersSettled(s) ==> Next(s, e).settled == s.settled
  {
  }
}
