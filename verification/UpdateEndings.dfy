/** How one command line of the updater ends, in terms of what happens to each of
    its statements and nothing else. */
module UpdateEndings {
  import opened Prelude
  import opened UpdateProtocol

  // What happens to one statement.
  datatype Fault = Fault(applied: bool, outcome: Outcome, choice: Choice)

  // What the outside world does to the event at each position of a host's history.
  type Fate = nat -> Fault

  // A statement whose own check fails raises instead of returning.
  function Ends(okay: bool, f: Fault): Outcome { if f.outcome == Returns && !okay then Raises else f.outcome }

  predicate Applied(f: Fault, o: Outcome) { f.applied || o == Returns }

  // The event that `f` makes of the statement the lock holder is at.
  function EventOf(s: State, f: Fault): (e: Event)
    requires s.proc != Idle
    ensures Enabled(s, e)
  {
    var o := Ends(MayReturn(s.world, StatementOf(s.proc), f.choice), f);
    Do(Applied(f, o), o, f.choice)
  }

  // How many statements are left at most.
  function Left(p: Proc): nat {
    match p
    case Idle => 0
    case Updating(line, _, _) => 27 - LineNumber(line)
    case Restoring(at, _) => 9 - RestoreNumber(at)
  }

  lemma FewerLeft(s: State, f: Fault)
    requires s.proc != Idle
    ensures Left(Next(s, EventOf(s, f)).proc) < Left(s.proc)
  {
    var o := EventOf(s, f).outcome;
    assert Next(s, EventOf(s, f)).proc == Following(s.world, s.proc, o, f.choice);
    FollowingIsLess(s.world, s.proc, o, f.choice);
  }

  lemma FollowingIsLess(w: World, p: Proc, o: Outcome, c: Choice)
    requires p != Idle
    ensures Left(Following(w, p, o, c)) < Left(p)
  {
  }

  // The state the process leaves behind, its last statement and how that one ended.
  datatype Ending = Ending(state: State, last: Proc, outcome: Outcome)

  // Statement after statement from position `t` on, until the process is gone.
  function RunOn(s: State, fate: Fate, t: nat): Ending
    requires s.proc != Idle
    decreases Left(s.proc)
  {
    FewerLeft(s, fate(t));
    var e := EventOf(s, fate(t));
    var next := Next(s, e);
    if next.proc == Idle then Ending(next, s.proc, e.outcome) else RunOn(next, fate, t + 1)
  }

  // How one command line ends.
  datatype Report = Unchanged | Updated | Recovered | Failed(restored: bool) | Killed

  // What the user is told.
  function ReportOf(end: Ending, recover: bool): Report {
    match end.outcome
    case Dies => Killed
    case Raises => Failed(false)
    case Returns =>
      match end.last
      case Updating(line, _, _) =>
        if line == WriteComplete then Updated else if line == Fetch then Unchanged else Failed(false)
      case _ => if recover then Recovered else Failed(true)
  }

  // `tgctl.py update [--recover]` from the state `s` on.
  function CommandLine(s: State, fate: Fate, t: nat, recover: bool): Ending
    requires s.proc == Idle
  {
    RunOn(Next(s, Begin(recover)), fate, t + 1)
  }

  // ---------- What the user can expect ----------

  // Statement `n` of the update that finds `w`, with its first statement at `t`, returns and
  // there is more to do.
  predicate GoesOn(w: World, fate: Fate, t: nat, n: nat) {
    && fate(t + n).outcome == Returns
    && (n == 3 ==> fate(t + 3).choice.commit != w.head)               // there is something to update to
    && (n == 5 ==> fate(t + 5).choice.images.Keys == w.images.Keys)   // with the same services
    && (n == 16 ==> fate(t + 14).choice.volumes == w.volumes)         // that mounts the same volumes
  }

  // The first statement, from `n` on, that does not; 18 if there is none.
  function FirstStop(w: World, fate: Fate, t: nat, n: nat): (m: nat)
    requires n <= 18
    ensures n <= m <= 18
    decreases 18 - n
  {
    if n == 18 || !GoesOn(w, fate, t, n) then n else FirstStop(w, fate, t, n + 1)
  }

  lemma {:induction false} FirstStopIsFirst(w: World, fate: Fate, t: nat, n: nat)
    requires n <= 18
    ensures var m := FirstStop(w, fate, t, n);
      && (m < 18 ==> !GoesOn(w, fate, t, m)) && forall k :: n <= k < m ==> GoesOn(w, fate, t, k)
    decreases 18 - n
  {
    if n < 18 && GoesOn(w, fate, t, n) { FirstStopIsFirst(w, fate, t, n + 1); }
  }

  // Statement `n` of a restore with its first statement at `t` returns.
  predicate RestoreGoesOn(volumes: Volumes, fate: Fate, t: nat, n: nat) {
    fate(t + n).outcome == Returns && (n == 7 ==> fate(t + 5).choice.volumes == volumes)
  }

  function FirstRestoreStop(volumes: Volumes, fate: Fate, t: nat, n: nat): (m: nat)
    requires n <= 9
    ensures n <= m <= 9
    decreases 9 - n
  {
    if n == 9 || !RestoreGoesOn(volumes, fate, t, n) then n else FirstRestoreStop(volumes, fate, t, n + 1)
  }

  lemma {:induction false} FirstRestoreStopIsFirst(volumes: Volumes, fate: Fate, t: nat, n: nat)
    requires n <= 9
    ensures var m := FirstRestoreStop(volumes, fate, t, n);
      && (m < 9 ==> !RestoreGoesOn(volumes, fate, t, m))
      && forall k :: n <= k < m ==> RestoreGoesOn(volumes, fate, t, k)
    decreases 9 - n
  {
    if n < 9 && RestoreGoesOn(volumes, fate, t, n) { FirstRestoreStopIsFirst(volumes, fate, t, n + 1); }
  }

  function RestoreOutcome(volumes: Volumes, fate: Fate, t: nat, n: nat): Outcome
    requires n <= 9
  {
    var k := FirstRestoreStop(volumes, fate, t, n);
    if k == 9 then Returns else if fate(t + k).outcome == Dies then Dies else Raises
  }

  function RestoreReport(volumes: Volumes, fate: Fate, t: nat, success: Report): Report {
    match RestoreOutcome(volumes, fate, t, 0)
    case Returns => success
    case Raises => Failed(false)
    case Dies => Killed
  }

  // An update that finds no switch pending: its fate is that of the first statement that does
  // not go on.  From statement 9 on, the switching journal is on disk, and raising restores.
  function UpdateReport(w: World, fate: Fate, t: nat): Report { StoppedReport(w, fate, t, FirstStop(w, fate, t, 0)) }

  function StoppedReport(w: World, fate: Fate, t: nat, m: nat): Report {
    if m == 18 then Updated
    else if fate(t + m).outcome == Dies then Killed
    else if m == 3 && fate(t + m).outcome == Returns then Unchanged
    else if m < 9 then Failed(false)
    else RestoreReport(w.volumes, fate, t + m + 1, Failed(true))
  }

  // What `tgctl.py update [--recover]` reports when it finds `w` and its lock is taken at `t`.
  function Expected(w: World, fate: Fate, t: nat, recover: bool): Report {
    if Quiet(w) && !recover then UpdateReport(w, fate, t + 1)
    else if fate(t + 1).outcome != Returns then (if fate(t + 1).outcome == Dies then Killed else Failed(false))
    else if fate(t + 2).outcome != Returns then (if fate(t + 2).outcome == Dies then Killed else Failed(false))
    else if Quiet(w) || !recover then Failed(false)  // nothing to recover, or not asked to
    else RestoreReport(w.journal.value.volumes, fate, t + 3, Recovered)
  }

  // ---------- The statements of an update ----------

  // What the update that found `w` at position `t` has made of it at its `n`-th statement.
  ghost predicate UnderWay(s: State, w: World, fate: Fate, t: nat) {
    && s.proc.Updating? && !s.proc.recover
    && var n, p := LineNumber(s.proc.line), s.proc.plan;
      && (n <= 2 ==> s.world == w && Quiet(w))
      && (n >= 3 ==> p.previous == w.head && p.images == w.images && p.volumes == w.volumes)
      && (n >= 5 ==> HasTags(p.images, s.world.tags))
      && (n >= 7 ==> HasTags(p.newImages, s.world.tags))
      && (n >= 13 ==> s.world.pins == Some(PinsFor(p.project, p.newImages)))
      && (n == 15 || n == 16 ==> s.world.volumes == fate(t + 14).choice.volumes)
  }

  // `run` does what `RunOn` does; proofs below unroll it one statement at a time.
  type Run = (State, nat) -> Ending

  ghost predicate Unrolls(run: Run, s: State, fate: Fate, t: nat)
    requires s.proc != Idle
  {
    var e := EventOf(s, fate(t));
    var next := Next(s, e);
    run(s, t) == if next.proc == Idle then Ending(next, s.proc, e.outcome) else run(next, t + 1)
  }

  ghost predicate RunsOn(run: Run, fate: Fate) {
    forall s: State, t: nat {:trigger Unrolls(run, s, fate, t)} :: s.proc != Idle ==> Unrolls(run, s, fate, t)
  }

  // One lemma per stretch of lines: the statement returns and the next one is reached.
  lemma Inspects(run: Run, s: State, w: World, fate: Fate, t: nat, n: nat) returns (r: State)
    requires RunsOn(run, fate) && UnderWay(s, w, fate, t) && n == LineNumber(s.proc.line) && GoesOn(w, fate, t, n)
    requires n <= 3
    ensures UnderWay(r, w, fate, t) && LineNumber(r.proc.line) == n + 1 && run(s, t + n) == run(r, t + (n + 1))
  {
    assert Unrolls(run, s, fate, t + n);
    r := Next(s, EventOf(s, fate(t + n)));
  }

  lemma Prepares(run: Run, s: State, w: World, fate: Fate, t: nat, n: nat) returns (r: State)
    requires RunsOn(run, fate) && UnderWay(s, w, fate, t) && n == LineNumber(s.proc.line) && GoesOn(w, fate, t, n)
    requires 4 <= n <= 6
    ensures UnderWay(r, w, fate, t) && LineNumber(r.proc.line) == n + 1 && run(s, t + n) == run(r, t + (n + 1))
  {
    assert Unrolls(run, s, fate, t + n);
    r := Next(s, EventOf(s, fate(t + n)));
  }

  lemma BeginsSwitch(run: Run, s: State, w: World, fate: Fate, t: nat, n: nat) returns (r: State)
    requires RunsOn(run, fate) && UnderWay(s, w, fate, t) && n == LineNumber(s.proc.line) && GoesOn(w, fate, t, n)
    requires 7 <= n <= 8
    ensures UnderWay(r, w, fate, t) && LineNumber(r.proc.line) == n + 1 && run(s, t + n) == run(r, t + (n + 1))
  {
    assert Unrolls(run, s, fate, t + n);
    r := Next(s, EventOf(s, fate(t + n)));
  }

  lemma SwitchesFiles(run: Run, s: State, w: World, fate: Fate, t: nat, n: nat) returns (r: State)
    requires RunsOn(run, fate) && UnderWay(s, w, fate, t) && n == LineNumber(s.proc.line) && GoesOn(w, fate, t, n)
    requires 9 <= n <= 12
    ensures UnderWay(r, w, fate, t) && LineNumber(r.proc.line) == n + 1 && run(s, t + n) == run(r, t + (n + 1))
  {
    assert Unrolls(run, s, fate, t + n);
    r := Next(s, EventOf(s, fate(t + n)));
  }

  lemma StartsTarget(run: Run, s: State, w: World, fate: Fate, t: nat, n: nat) returns (r: State)
    requires RunsOn(run, fate) && UnderWay(s, w, fate, t) && n == LineNumber(s.proc.line) && GoesOn(w, fate, t, n)
    requires 13 <= n <= 14
    ensures UnderWay(r, w, fate, t) && LineNumber(r.proc.line) == n + 1 && run(s, t + n) == run(r, t + (n + 1))
  {
    assert Unrolls(run, s, fate, t + n);
    r := Next(s, EventOf(s, fate(t + n)));
  }

  lemma ChecksTarget(run: Run, s: State, w: World, fate: Fate, t: nat, n: nat) returns (r: State)
    requires RunsOn(run, fate) && UnderWay(s, w, fate, t) && n == LineNumber(s.proc.line) && GoesOn(w, fate, t, n)
    requires 15 <= n <= 16
    ensures UnderWay(r, w, fate, t) && LineNumber(r.proc.line) == n + 1 && run(s, t + n) == run(r, t + (n + 1))
  {
    assert Unrolls(run, s, fate, t + n);
    r := Next(s, EventOf(s, fate(t + n)));
  }

  lemma OneLine(run: Run, s: State, w: World, fate: Fate, t: nat, n: nat) returns (r: State)
    requires RunsOn(run, fate) && UnderWay(s, w, fate, t) && n == LineNumber(s.proc.line) && GoesOn(w, fate, t, n)
    requires n <= 16
    ensures UnderWay(r, w, fate, t) && LineNumber(r.proc.line) == n + 1 && run(s, t + n) == run(r, t + (n + 1))
  {
    if n <= 3 { r := Inspects(run, s, w, fate, t, n); }
    else if n <= 6 { r := Prepares(run, s, w, fate, t, n); }
    else if n <= 8 { r := BeginsSwitch(run, s, w, fate, t, n); }
    else if n <= 12 { r := SwitchesFiles(run, s, w, fate, t, n); }
    else if n <= 14 { r := StartsTarget(run, s, w, fate, t, n); }
    else { r := ChecksTarget(run, s, w, fate, t, n); }
  }

  // The update gets to the first statement that does not go on.
  lemma {:induction false} ReachesStop(run: Run, s: State, w: World, fate: Fate, t: nat, n: nat)
    returns (r: State, m: nat)
    requires RunsOn(run, fate) && UnderWay(s, w, fate, t) && n == LineNumber(s.proc.line)
    ensures UnderWay(r, w, fate, t) && m == LineNumber(r.proc.line) && (m == 17 || !GoesOn(w, fate, t, m))
    ensures n <= m && forall k :: n <= k < m ==> GoesOn(w, fate, t, k)
    ensures run(s, t + n) == run(r, t + m)
    decreases 17 - n
  {
    r, m := s, n;
    if n < 17 && GoesOn(w, fate, t, n) {
      var next := OneLine(run, s, w, fate, t, n);
      r, m := ReachesStop(run, next, w, fate, t, n + 1);
    }
  }

  lemma {:induction false} StopsLater(w: World, fate: Fate, t: nat, n: nat, m: nat)
    requires n <= m <= 18 && forall k :: n <= k < m ==> GoesOn(w, fate, t, k)
    ensures FirstStop(w, fate, t, n) == FirstStop(w, fate, t, m)
    decreases m - n
  {
    if n < m { StopsLater(w, fate, t, n + 1, m); }
  }

  // What a restore that began at `t` knows.
  ghost predicate Restores(s: State, j: Journal, fate: Fate, t: nat) {
    && s.proc.Restoring? && s.proc.journal == j && Resolvable(j.previousImages, s.world.tags)
    && var n := RestoreNumber(s.proc.at);
      && (n >= 4 ==> s.world.pins == Some(j.previousImages))
      && (n == 6 || n == 7 ==> s.world.volumes == fate(t + 5).choice.volumes)
  }

  lemma RestoreStatement(s: State, j: Journal, fate: Fate, t: nat)
    requires Restores(s, j, fate, t)
    ensures var n := RestoreNumber(s.proc.at);
      var e := EventOf(s, fate(t + n));
      if RestoreGoesOn(j.volumes, fate, t, n) then
        && e.outcome == Returns
        && (if n == 8 then Next(s, e).proc == Idle
            else Restores(Next(s, e), j, fate, t) && RestoreNumber(Next(s, e).proc.at) == n + 1)
      else
        e.outcome == (if fate(t + n).outcome == Dies then Dies else Raises) && Next(s, e).proc == Idle
  {
  }

  lemma {:induction false} RestoreEnds(run: Run, s: State, j: Journal, fate: Fate, t: nat)
    requires RunsOn(run, fate) && Restores(s, j, fate, t)
    ensures var n := RestoreNumber(s.proc.at);
      run(s, t + n).last.Restoring? && run(s, t + n).outcome == RestoreOutcome(j.volumes, fate, t, n)
    decreases 9 - RestoreNumber(s.proc.at)
  {
    var n := RestoreNumber(s.proc.at);
    RestoreStatement(s, j, fate, t);
    assert Unrolls(run, s, fate, t + n);
    var next := Next(s, EventOf(s, fate(t + n)));
    if next.proc != Idle { RestoreEnds(run, next, j, fate, t); }
  }

  // What the first statement that does not go on leads to.
  lemma StopBeforeSwitch(s: State, w: World, fate: Fate, t: nat)
    requires UnderWay(s, w, fate, t) && LineNumber(s.proc.line) <= 8
    requires !GoesOn(w, fate, t, LineNumber(s.proc.line))
    ensures var m := LineNumber(s.proc.line);
      var e, f := EventOf(s, fate(t + m)), fate(t + m);
      && Next(s, e).proc == Idle
      && e.outcome == if f.outcome == Dies then Dies else if m == 3 && f.outcome == Returns then Returns else Raises
  {
  }

  lemma StopAfterSwitch(s: State, w: World, fate: Fate, t: nat)
    requires UnderWay(s, w, fate, t) && LineNumber(s.proc.line) >= 9
    requires !GoesOn(w, fate, t, LineNumber(s.proc.line))
    ensures var m := LineNumber(s.proc.line);
      var e, j := EventOf(s, fate(t + m)), JournalOf(s.proc.plan);
      && j.volumes == w.volumes
      && (fate(t + m).outcome == Dies ==> e.outcome == Dies && Next(s, e).proc == Idle)
      && (fate(t + m).outcome != Dies ==>
            Next(s, e).proc == Restoring(ComposeStop, j) && Restores(Next(s, e), j, fate, t + m + 1))
  {
  }

  // How the update ends that gets to `p` and no further.
  ghost predicate StopDecides(end: Ending, p: Proc, w: World, fate: Fate, t: nat)
    requires p.Updating?
  {
    var m := LineNumber(p.line);
    if GoesOn(w, fate, t, m) then end.outcome == Returns && end.last == p
    else if fate(t + m).outcome == Dies then end.outcome == Dies
    else if m == 3 && fate(t + m).outcome == Returns then end.outcome == Returns && end.last == p
    else if m < 9 then end.outcome == Raises
    else end.last.Restoring? && end.outcome == RestoreOutcome(w.volumes, fate, t + m + 1, 0)
  }

  // The statement it stops at decides how the update ends.
  lemma StopEnds(run: Run, s: State, w: World, fate: Fate, t: nat)
    requires RunsOn(run, fate) && UnderWay(s, w, fate, t) && !GoesOn(w, fate, t, LineNumber(s.proc.line))
    ensures StopDecides(run(s, t + LineNumber(s.proc.line)), s.proc, w, fate, t)
  {
    if LineNumber(s.proc.line) <= 8 { EarlyStopEnds(run, s, w, fate, t); } else { LateStopEnds(run, s, w, fate, t); }
  }

  lemma EarlyStopEnds(run: Run, s: State, w: World, fate: Fate, t: nat)
    requires RunsOn(run, fate) && UnderWay(s, w, fate, t) && !GoesOn(w, fate, t, LineNumber(s.proc.line))
    requires LineNumber(s.proc.line) <= 8
    ensures StopDecides(run(s, t + LineNumber(s.proc.line)), s.proc, w, fate, t)
  {
    StopBeforeSwitch(s, w, fate, t);
    assert Unrolls(run, s, fate, t + LineNumber(s.proc.line));
  }

  lemma LateStopEnds(run: Run, s: State, w: World, fate: Fate, t: nat)
    requires RunsOn(run, fate) && UnderWay(s, w, fate, t) && !GoesOn(w, fate, t, LineNumber(s.proc.line))
    requires LineNumber(s.proc.line) >= 9
    ensures StopDecides(run(s, t + LineNumber(s.proc.line)), s.proc, w, fate, t)
  {
    var m := LineNumber(s.proc.line);
    if fate(t + m).outcome == Dies {
      StopAfterSwitch(s, w, fate, t);
      assert Unrolls(run, s, fate, t + m);
    } else {
      var next := RestoreBegins(run, s, w, fate, t, m);
      RestoreEnds(run, next, JournalOf(s.proc.plan), fate, t + m + 1);
    }
  }

  lemma RestoreBegins(run: Run, s: State, w: World, fate: Fate, t: nat, m: nat) returns (r: State)
    requires RunsOn(run, fate) && UnderWay(s, w, fate, t) && !GoesOn(w, fate, t, m)
    requires m == LineNumber(s.proc.line) >= 9 && fate(t + m).outcome != Dies
    ensures r.proc == Restoring(ComposeStop, JournalOf(s.proc.plan)) && JournalOf(s.proc.plan).volumes == w.volumes
    ensures Restores(r, JournalOf(s.proc.plan), fate, t + m + 1) && run(s, t + m) == run(r, t + m + 1)
  {
    StopAfterSwitch(s, w, fate, t);
    assert Unrolls(run, s, fate, t + m);
    r := Next(s, EventOf(s, fate(t + m)));
  }

  lemma UpdateEnds(run: Run, s: State, w: World, fate: Fate, t: nat)
    requires RunsOn(run, fate) && UnderWay(s, w, fate, t) && s.proc.line == Preflight
    ensures ReportOf(run(s, t), false) == UpdateReport(w, fate, t)
  {
    var r, m := ReachesStop(run, s, w, fate, t, 0);
    if GoesOn(w, fate, t, m) { LastLine(run, r, w, fate, t); } else { StopEnds(run, r, w, fate, t); }
    ReportOfStop(run(r, t + m), r.proc, w, fate, t);
    StopsLater(w, fate, t, 0, m);
    assert FirstStop(w, fate, t, m) == if GoesOn(w, fate, t, m) then 18 else m;
  }

  lemma ReportOfStop(end: Ending, p: Proc, w: World, fate: Fate, t: nat)
    requires p.Updating? && StopDecides(end, p, w, fate, t)
    requires GoesOn(w, fate, t, LineNumber(p.line)) ==> p.line == WriteComplete
    ensures var m := LineNumber(p.line);
      ReportOf(end, false) == StoppedReport(w, fate, t, if GoesOn(w, fate, t, m) then 18 else m)
  {
    if LineNumber(p.line) == 3 { assert p.line == Fetch; }
  }

  lemma LastLine(run: Run, s: State, w: World, fate: Fate, t: nat)
    requires RunsOn(run, fate) && UnderWay(s, w, fate, t) && s.proc.line == WriteComplete
    requires GoesOn(w, fate, t, 17)
    ensures StopDecides(run(s, t + 17), s.proc, w, fate, t)
  {
    assert Unrolls(run, s, fate, t + 17);
  }

  lemma RecoverEnds(run: Run, s: State, fate: Fate, t: nat)
    requires RunsOn(run, fate) && s.proc == Idle && !Quiet(s.world)
    requires Resolvable(s.world.journal.value.previousImages, s.world.tags)
    requires fate(t + 1).outcome == Returns && fate(t + 2).outcome == Returns
    ensures var end := run(Next(s, Begin(true)), t + 1);
      end.last.Restoring? && end.outcome == RestoreOutcome(s.world.journal.value.volumes, fate, t + 3, 0)
  {
    var j := s.world.journal.value;
    var s1 := Next(s, Begin(true));
    var s2 := Next(s1, EventOf(s1, fate(t + 1)));
    var s3 := Next(s2, EventOf(s2, fate(t + 2)));
    assert Unrolls(run, s1, fate, t + 1);
    assert Unrolls(run, s2, fate, t + 2);
    RestoreEnds(run, s3, j, fate, t + 3);
  }

  // Neither an update nor a recovery: it ends at one of the first two statements.
  lemma RefusalEnds(run: Run, s: State, fate: Fate, t: nat, recover: bool)
    requires RunsOn(run, fate) && s.proc == Idle
    requires fate(t + 1).outcome != Returns || fate(t + 2).outcome != Returns || Quiet(s.world) == recover
    requires Quiet(s.world) ==> recover
    ensures ReportOf(run(Next(s, Begin(recover)), t + 1), recover) == Expected(s.world, fate, t, recover)
  {
    var s1 := Next(s, Begin(recover));
    assert Unrolls(run, s1, fate, t + 1);
    if fate(t + 1).outcome == Returns {
      assert Unrolls(run, Next(s1, EventOf(s1, fate(t + 1))), fate, t + 2);
    }
  }

  /** How every command line ends: running statement after statement reports exactly what can
      be expected of the world found and of what happens to each statement.  A pending switch
      needs its saved images still retained, as they are in every good state. */
  lemma EveryCommandEndsAsExpected(s: State, fate: Fate, t: nat, recover: bool)
    requires s.proc == Idle
    requires !Quiet(s.world) ==> Resolvable(s.world.journal.value.previousImages, s.world.tags)
    ensures ReportOf(CommandLine(s, fate, t, recover), recover) == Expected(s.world, fate, t, recover)
  {
    var run: Run := (s: State, t: nat) => if s.proc == Idle then Ending(s, Idle, Dies) else RunOn(s, fate, t);
    forall s: State, t: nat | s.proc != Idle ensures Unrolls(run, s, fate, t) {
    }
    if Quiet(s.world) && !recover {
      UpdateEnds(run, Next(s, Begin(false)), s.world, fate, t + 1);
    } else if fate(t + 1).outcome != Returns || fate(t + 2).outcome != Returns || Quiet(s.world) == recover {
      RefusalEnds(run, s, fate, t, recover);
    } else {
      RecoverEnds(run, s, fate, t);
    }
  }

  // Something raised by itself, or found other services or volumes than it needs.
  ghost predicate SomethingRaised(w: World, volumes: Volumes, fate: Fate, t: nat) {
    || (exists k :: k > t && fate(k).outcome == Raises)
    || fate(t + 6).choice.images.Keys != w.images.Keys
    || (exists k :: k > t && fate(k).choice.volumes != volumes)
  }

  lemma StopHasCause(volumes: Volumes, w: World, fate: Fate, t: nat, t0: nat)
    requires t > t0
    ensures RestoreOutcome(volumes, fate, t, 0) == Dies ==> exists k :: k > t0 && fate(k).outcome == Dies
    ensures RestoreOutcome(volumes, fate, t, 0) == Raises ==> SomethingRaised(w, volumes, fate, t0)
  {
    FirstRestoreStopIsFirst(volumes, fate, t, 0);
    var k := FirstRestoreStop(volumes, fate, t, 0);
    assert k < 9 && fate(t + k).outcome == Returns ==> fate(t + 5).choice.volumes != volumes;
  }

  lemma UpdateStopHasCause(w: World, fate: Fate, t: nat, m: nat)
    requires m < 18 && !GoesOn(w, fate, t + 1, m)
    ensures StoppedReport(w, fate, t + 1, m) == Killed ==> exists k :: k > t && fate(k).outcome == Dies
    ensures StoppedReport(w, fate, t + 1, m) == Failed(false) ==> SomethingRaised(w, w.volumes, fate, t)
  {
    var k := t + 1 + m;
    if fate(k).outcome != Dies && m >= 9 { StopHasCause(w.volumes, w, fate, k + 1, t); }
  }

  /** Nothing fails by itself: a command line is reported killed only when a statement died, and
      failed without the previous version back only when its flag does not fit the journal or
      some statement, of the update and then of the restore, raised. */
  lemma FailuresHaveCauses(w: World, fate: Fate, t: nat, recover: bool)
    ensures Expected(w, fate, t, recover) == Killed ==> exists k :: k > t && fate(k).outcome == Dies
    ensures Expected(w, fate, t, recover) == Failed(false) ==>
      || Quiet(w) == recover
      || SomethingRaised(w, if Quiet(w) then w.volumes else w.journal.value.volumes, fate, t)
  {
    if Quiet(w) && !recover {
      var m := FirstStop(w, fate, t + 1, 0);
      if m < 18 {
        FirstStopIsFirst(w, fate, t + 1, 0);
        UpdateStopHasCause(w, fate, t, m);
      }
    } else if !Quiet(w) {
      StopHasCause(w.journal.value.volumes, w, fate, t + 3, t);
    }
  }
}
