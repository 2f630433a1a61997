/** Recovery of an interrupted update: the journal is frozen while it says
    `switching`, every completed restore ends in the same version, and a restore
    can always be started and completed. */
module UpdateRecovery {
  import opened Prelude
  import opened UpdateProtocol

  ghost predicate StaysSwitching(s: State, es: seq<Event>)
    requires Legal(s, es)
    decreases es
  {
    !Quiet(s.world) && (es != [] ==> StaysSwitching(Next(s, es[0]), es[1..]))
  }

  // The version a journal promises to go back to.
  function PreviousVersion(j: Journal, tags: Tags): Version
    requires Resolvable(j.previousImages, tags)
  {
    Version(j.previousCommit, Some(j.previousImages), Resolve(j.previousImages, tags), j.volumes)
  }

  ghost predicate Freezes(s: State, e: Event)
    requires Enabled(s, e)
  {
    Next(s, e).world.journal == s.world.journal && Next(s, e).settled == s.settled && !LateRaise(s, e)
  }

  lemma UpdateFreezesJournal(s: State, e: Event)
    requires Inv(s) && Enabled(s, e) && !Quiet(s.world) && !Quiet(Next(s, e).world) && e.Do? && s.proc.Updating?
    ensures Freezes(s, e)
  {
  }

  lemma RestoreFreezesJournal(s: State, e: Event)
    requires Inv(s) && Enabled(s, e) && !Quiet(s.world) && !Quiet(Next(s, e).world) && e.Do? && s.proc.Restoring?
    ensures Freezes(s, e)
  {
  }

  lemma StepFreezesJournal(s: State, e: Event)
    requires Inv(s) && Enabled(s, e) && !Quiet(s.world) && !Quiet(Next(s, e).world)
    ensures Freezes(s, e)
  {
    if e.Do? && s.proc.Updating? { UpdateFreezesJournal(s, e); }
    if e.Do? && s.proc.Restoring? { RestoreFreezesJournal(s, e); }
  }

  /** However many restores fail or die, the saved values stay on disk. */
  lemma {:induction false} SwitchingFreezesJournal(s: State, es: seq<Event>)
    requires Inv(s) && Legal(s, es) && StaysSwitching(s, es)
    ensures var t := After(s, es);
      Inv(t) && !Quiet(t.world) && t.world.journal == s.world.journal && t.settled == s.settled
    decreases es
  {
    if es != [] {
      StepFreezesJournal(s, es[0]);
      NextKeepsInv(s, es[0]);
      SwitchingFreezesJournal(Next(s, es[0]), es[1..]);
    }
  }

  // The two journals that can replace a switching one, and what they then describe.
  ghost predicate Settled(j: Journal, w: World) {
    && Resolvable(j.previousImages, w.tags)
    && (|| (w.journal == Some(j.(phase := RolledBack)) && Installed(w, PreviousVersion(j, w.tags)))
        || (w.journal == Some(j.(phase := Complete)) && w.head == j.targetCommit && w.volumes == j.volumes
            && CanComposeUp(w) && w.images == Resolve(w.pins.value, w.tags)))
  }

  lemma UpdateLeavesSwitching(s: State, e: Event)
    requires Inv(s) && Enabled(s, e) && !Quiet(s.world) && Quiet(Next(s, e).world) && s.proc.Updating?
    ensures Settled(s.world.journal.value, Next(s, e).world)
  {
  }

  lemma RestoreLeavesSwitching(s: State, e: Event)
    requires Inv(s) && Enabled(s, e) && !Quiet(s.world) && Quiet(Next(s, e).world) && !s.proc.Updating?
    ensures Settled(s.world.journal.value, Next(s, e).world)
  {
  }

  /** Convergence: from any good interrupted state, through any number of failed
      or killed attempts, whatever event first ends the switch either completes
      the update or puts back exactly the version the journal saved. */
  lemma RestoreConverges(s: State, es: seq<Event>, e: Event)
    requires Inv(s) && Legal(s, es) && StaysSwitching(s, es)
    requires Enabled(After(s, es), e) && Quiet(Next(After(s, es), e).world)
    ensures var j, w := s.world.journal.value, Next(After(s, es), e).world;
      && Resolvable(j.previousImages, s.world.tags) && Resolvable(j.previousImages, w.tags)
      && PreviousVersion(j, w.tags) == PreviousVersion(j, s.world.tags)
      && (w.journal == Some(j.(phase := RolledBack)) || w.journal == Some(j.(phase := Complete)))
      && (w.journal == Some(j.(phase := RolledBack)) ==> Installed(w, PreviousVersion(j, s.world.tags)))
      && (w.journal == Some(j.(phase := Complete)) ==>
            w.head == j.targetCommit && w.volumes == j.volumes
            && CanComposeUp(w) && w.images == Resolve(w.pins.value, w.tags))
  {
    var j, t := s.world.journal.value, After(s, es);
    SwitchingFreezesJournal(s, es);
    if t.proc.Updating? { UpdateLeavesSwitching(t, e); } else { RestoreLeavesSwitching(t, e); }
    PinnedResolves(j.previousImages, s.settled.images, s.world.tags);
    PinnedResolves(j.previousImages, t.settled.images, t.world.tags);
    NextKeepsTags(t, e);
    PinnedResolves(j.previousImages, t.settled.images, Next(t, e).world.tags);
  }

  // Nobody is past reading the journal, and nobody asked to recover.
  ghost predicate OnlyRefusals(s: State) {
    s.proc == Idle || (s.proc.Updating? && !s.proc.recover && LineNumber(s.proc.line) <= LineNumber(ReadJournal))
  }

  lemma RefusalStep(s: State, e: Event)
    requires Inv(s) && !Quiet(s.world) && OnlyRefusals(s) && Enabled(s, e) && e != Begin(true)
    ensures var t := Next(s, e);
      && OnlyRefusals(t) && !LateRaise(s, e)
      && t.world.head == s.world.head && t.world.pins == s.world.pins && t.world.journal == s.world.journal
  {
  }

  /** An interrupted switch is frozen until someone runs `--recover`: whatever
      plain updates are started, killed or raise, HEAD, the pins and the journal
      stay as they are and no update gets past reading the journal. */
  lemma {:induction false} OnlyRecoverEndsSwitching(s: State, es: seq<Event>)
    requires Inv(s) && !Quiet(s.world) && OnlyRefusals(s) && Legal(s, es) && Begin(true) !in es
    ensures var t := After(s, es);
      && OnlyRefusals(t)
      && t.world.head == s.world.head && t.world.pins == s.world.pins && t.world.journal == s.world.journal
    decreases es
  {
    if es != [] {
      assert es[0] in es;
      RefusalStep(s, es[0]);
      NextKeepsInv(s, es[0]);
      OnlyRecoverEndsSwitching(Next(s, es[0]), es[1..]);
    }
  }

  // The statement at the current line of a restore, taking effect.
  function RestoreStep(s: State): Event
    requires s.proc.Restoring?
  {
    Ran(s.proc.journal.volumes)
  }

  ghost predicate Advances(s: State)
    requires s.proc.Restoring? && s.proc.at != WriteRolledBack
  {
    var e := RestoreStep(s);
    && Enabled(s, e) && !LateRaise(s, e)
    && Next(s, e).proc == Restoring(Next(s, e).proc.at, s.proc.journal)
    && RestoreNumber(Next(s, e).proc.at) == RestoreNumber(s.proc.at) + 1
    && Next(s, e).settled == s.settled
    && (RestoreNumber(s.proc.at) >= 4 ==> Next(s, e).world.volumes == s.proc.journal.volumes)
  }

  lemma PutBackAdvances(s: State)
    requires Inv(s) && s.proc.Restoring? && RestoreNumber(s.proc.at) <= 3
    ensures Advances(s)
  {
  }

  lemma StartAdvances(s: State)
    requires Inv(s) && s.proc.Restoring? && 4 <= RestoreNumber(s.proc.at) <= 5
    ensures Advances(s)
  {
    PinnedResolves(s.proc.journal.previousImages, s.settled.images, s.world.tags);
  }

  lemma ConfirmAdvances(s: State)
    requires s.proc.Restoring? && 6 <= RestoreNumber(s.proc.at) <= 7
    requires s.world.volumes == s.proc.journal.volumes
    ensures Advances(s)
  {
  }

  // The version a restore puts back.
  function Target(s: State): Version
    requires s.proc.Restoring?
  {
    var j := s.proc.journal;
    Version(j.previousCommit, Some(j.previousImages), s.settled.images, j.volumes)
  }

  lemma {:induction false} RestoreCanFinish(s: State) returns (es: seq<Event>)
    requires Inv(s) && s.proc.Restoring?
    requires RestoreNumber(s.proc.at) >= 5 ==> s.world.volumes == s.proc.journal.volumes
    ensures Legal(s, es) && NoLateRaise(s, es)
    ensures After(s, es).proc == Idle && Installed(After(s, es).world, Target(s))
    ensures After(s, es).world.journal == Some(s.proc.journal.(phase := RolledBack))
    decreases 8 - RestoreNumber(s.proc.at)
  {
    var e := RestoreStep(s);
    var n := RestoreNumber(s.proc.at);
    if n <= 3 { PutBackAdvances(s); } else if n <= 5 { StartAdvances(s); } else if n <= 7 { ConfirmAdvances(s); }
    var rest := [];
    if n < 8 {
      NextKeepsInv(s, e);
      rest := RestoreCanFinish(Next(s, e));
    }
    es := [e] + rest;
    assert es[1..] == rest;
  }

  // Taking the lock and reading the journal.
  lemma RecoveryStarts(s: State)
    requires Inv(s) && !Quiet(s.world) && s.proc == Idle
    ensures var es := [Begin(true), Ran(map[]), Ran(map[])];
      && Legal(s, es) && NoLateRaise(s, es)
      && After(s, es) == s.(proc := Restoring(ComposeStop, s.world.journal.value)) && Inv(After(s, es))
  {
    var read := Ran(map[]);
    var s1 := Next(s, Begin(true));
    var s2 := Next(s1, read);
    var s3 := Next(s2, read);
    OneStepFirst(s2, read, []);
    OneStepFirst(s1, read, [read]);
    OneStepFirst(s, Begin(true), [read, read]);
    assert [read] + [] == [read] && [read] + [read] == [read, read];
    assert [Begin(true)] + [read, read] == [Begin(true), read, read];
    RunKeepsInv(s, [Begin(true), read, read]);
  }

  lemma OneStepFirst(s: State, e: Event, es: seq<Event>)
    requires Enabled(s, e) && !LateRaise(s, e) && Legal(Next(s, e), es) && NoLateRaise(Next(s, e), es)
    ensures Legal(s, [e] + es) && NoLateRaise(s, [e] + es) && After(s, [e] + es) == After(Next(s, e), es)
  {
    assert ([e] + es)[1..] == es;
  }

  lemma {:induction false} RunsConcatenate(s: State, a: seq<Event>, b: seq<Event>)
    requires Legal(s, a) && NoLateRaise(s, a) && Legal(After(s, a), b) && NoLateRaise(After(s, a), b)
    ensures Legal(s, a + b) && NoLateRaise(s, a + b) && After(s, a + b) == After(After(s, a), b)
    decreases a
  {
    if a == [] {
      assert a + b == b;
    } else {
      assert (a + b)[1..] == a[1..] + b;
      RunsConcatenate(Next(s, a[0]), a[1..], b);
    }
  }

  /** Retry stays enabled: from every good interrupted state with the lock free,
      some run of `update --recover` ends with the journal rolled back and the version
      it saved installed. */
  lemma RecoveryIsAlwaysPossible(s: State) returns (es: seq<Event>)
    requires Inv(s) && !Quiet(s.world) && s.proc == Idle
    ensures Legal(s, es) && NoLateRaise(s, es) && es != [] && es[0] == Begin(true)
    ensures var t := After(s, es);
      && Safe(t) && t.proc == Idle && t.world.journal == Some(s.world.journal.value.(phase := RolledBack))
      && Resolvable(s.world.journal.value.previousImages, s.world.tags)
      && Installed(t.world, PreviousVersion(s.world.journal.value, s.world.tags))
  {
    var j := s.world.journal.value;
    var begin := [Begin(true), Ran(map[]), Ran(map[])];
    RecoveryStarts(s);
    var rest := RestoreCanFinish(After(s, begin));
    es := begin + rest;
    RunsConcatenate(s, begin, rest);
    RunKeepsInv(s, es);
    PinnedResolves(j.previousImages, s.settled.images, s.world.tags);
  }
}
