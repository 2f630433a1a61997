/** The transactional updater (scripts/tg_update.py) as a state machine.

    One event is one statement of `update` or `restore`.  A statement may take
    effect and return, take effect and raise, raise without effect, or be the
    last thing its process does.  Several processes contend for the lock; the
    holder is `proc`, every other attempt to begin is refused. */
module UpdateProtocol {
  import opened Prelude

  type Service = string
  type Commit = string
  type Volumes = map<string, string>
  datatype ImageId = Sha256(digest: string)
  type Images = map<Service, ImageId>

  // `tg-retained-<root>-<service>:<digest>`, or any other reference.
  datatype Tag = Retained(service: Service, digest: string) | Named(reference: string)
  type Tags = map<Tag, ImageId>

  // The content of runtime/update/images.json.
  datatype Pins = Pins(project: string, services: map<Service, Tag>)

  datatype Phase = Switching | Complete | RolledBack

  // The content of runtime/update/transaction.json.
  datatype Journal = Journal(
    phase: Phase, previousCommit: Commit, targetCommit: Commit, previousImages: Pins, volumes: Volumes)

  // Everything that survives a process.
  datatype World = World(
    head: Commit, pins: Option<Pins>, journal: Option<Journal>, tags: Tags,
    images: Images, volumes: Volumes)  // the last two: what the containers run and mount

  // The local variables of one `update` call.
  datatype Plan = Plan(
    project: string, previous: Commit, images: Images, volumes: Volumes, target: Commit, newImages: Images)

  datatype UpdateLine =
    | Preflight | ReadJournal | Inspect | Fetch | RetainOld | Build | RetainNew | Recheck | WriteSwitching
    | PrepareService | StopService | Checkout | WritePins | ComposeUp | StartService | Health
    | CheckInstalled | WriteComplete

  datatype RestoreLine =
    | ComposeStop | StopUnit | CheckoutPrevious | WritePreviousPins | ComposeUpPrevious | StartUnit
    | HealthPrevious | CheckVolumes | WriteRolledBack

  // What a line does to the world.
  datatype Statement =
    | Reads                              // fails or not, changes nothing
    | ReadsVolumes(expected: Volumes)    // fails unless the containers mount exactly these
    | TagsImages(toPin: Images)
    | Builds(services: set<Service>)     // fails if the target has other services
    | WritesJournal(j: Journal)
    | WritesPins(p: Pins)
    | ChecksOut(commit: Commit)
    | Stops
    | ComposesUp

  datatype Proc =
    | Idle
    | Updating(line: UpdateLine, recover: bool, plan: Plan)
    | Restoring(at: RestoreLine, journal: Journal)

  // A version of the installation.  `settled` is the last one an update or a rollback put
  // in place, with the containers that the next update found running when it began to switch.
  datatype Version = Version(commit: Commit, pins: Option<Pins>, images: Images, volumes: Volumes)

  datatype State = State(world: World, proc: Proc, settled: Version)

  datatype Outcome = Returns | Raises | Dies

  // What the outside world contributes to one statement.
  datatype Choice = Choice(
    project: string, commit: Commit, images: Images, volumes: Volumes,
    tagged: set<Service>, built: map<string, ImageId>)

  datatype Event =
    | Begin(recover: bool)
    | Do(applied: bool, outcome: Outcome, choice: Choice)
    | Retag(reference: string, image: ImageId)     // anyone may rebuild a release tag
    | Boot(applied: bool, bootChoice: Choice)      // systemd starts the unit, with or without success

  // ---------- Statements ----------

  function PinsFor(project: string, images: Images): Pins {
    Pins(project, map s | s in images :: Retained(s, images[s].digest))
  }

  predicate Resolvable(p: Pins, tags: Tags) { forall s | s in p.services :: p.services[s] in tags }

  function Resolve(p: Pins, tags: Tags): Images
    requires Resolvable(p, tags)
  {
    map s | s in p.services :: tags[p.services[s]]
  }

  function RetainedTags(images: Images, some: set<Service>): Tags {
    map t: Tag | t in TagsOf(images, some) :: Sha256(t.digest)
  }

  function TagsOf(images: Images, some: set<Service>): (r: set<Tag>)
    ensures forall t :: t in r ==> t.Retained?
  {
    set s | s in images && s in some :: Retained(s, images[s].digest)
  }

  function NamedTags(built: map<string, ImageId>): Tags {
    map t: Tag | t in (set r | r in built :: Named(r)) :: built[t.reference]
  }

  function JournalOf(p: Plan): Journal {
    Journal(Switching, p.previous, p.target, PinsFor(p.project, p.images), p.volumes)
  }

  predicate Quiet(w: World) { w.journal.Some? ==> w.journal.value.phase != Switching }

  predicate CanComposeUp(w: World) { w.pins.Some? && Resolvable(w.pins.value, w.tags) }

  // Containers after `compose up`: as pinned when it succeeds.  When it fails, any mix; without
  // images.json, whatever the build tags name by then.
  function ComposedUp(w: World, applied: bool, c: Choice): World {
    w.(images := if applied && CanComposeUp(w) then Resolve(w.pins.value, w.tags) else c.images, volumes := c.volumes)
  }

  function StatementOf(p: Proc): Statement
    requires p != Idle
  {
    match p
    case Updating(line, _, plan) =>
      (match line
       case RetainOld => TagsImages(plan.images)
       case Build => Builds(plan.images.Keys)
       case RetainNew => TagsImages(plan.newImages)
       case WriteSwitching => WritesJournal(JournalOf(plan))
       case StopService => Stops
       case Checkout => ChecksOut(plan.target)
       case WritePins => WritesPins(PinsFor(plan.project, plan.newImages))
       case ComposeUp => ComposesUp
       case StartService => ComposesUp
       case CheckInstalled => ReadsVolumes(plan.volumes)
       case WriteComplete => WritesJournal(JournalOf(plan).(phase := Complete))
       case _ => Reads)
    case Restoring(at, j) =>
      (match at
       case ComposeStop => Stops
       case StopUnit => Stops
       case CheckoutPrevious => ChecksOut(j.previousCommit)
       case WritePreviousPins => WritesPins(j.previousImages)
       case ComposeUpPrevious => ComposesUp
       case StartUnit => ComposesUp
       case HealthPrevious => Reads
       case CheckVolumes => ReadsVolumes(j.volumes)
       case WriteRolledBack => WritesJournal(j.(phase := RolledBack)))
  }

  function Perform(w: World, statement: Statement, applied: bool, c: Choice): World {
    match statement
    case Reads => w
    case ReadsVolumes(_) => w
    case TagsImages(toPin) => w.(tags := w.tags + RetainedTags(toPin, if applied then toPin.Keys else c.tagged))
    case Builds(_) => w.(tags := w.tags + NamedTags(c.built))
    case WritesJournal(j) => if applied then w.(journal := Some(j)) else w
    case WritesPins(p) => if applied then w.(pins := Some(p)) else w
    case ChecksOut(commit) => if applied then w.(head := commit) else w
    case Stops => w.(images := c.images, volumes := c.volumes)
    case ComposesUp => ComposedUp(w, applied, c)
  }

  // When a statement can return normally.
  predicate MayReturn(w: World, statement: Statement, c: Choice) {
    match statement
    case ReadsVolumes(expected) => w.volumes == expected
    case Builds(services) => c.images.Keys == services
    case ComposesUp => CanComposeUp(w)
    case _ => true
  }

  function AfterReturn(w: World, p: Proc, c: Choice): Proc
    requires p != Idle
  {
    match p
    case Updating(line, recover, plan) =>
      (match line
       case Preflight => p.(line := ReadJournal)
       case ReadJournal =>
         if !Quiet(w) then (if recover then Restoring(ComposeStop, w.journal.value) else Idle)
         else if recover then Idle
         else p.(line := Inspect)
       case Inspect =>
         var found := plan.(project := c.project, previous := w.head, images := w.images, volumes := w.volumes);
         Updating(Fetch, recover, found)
       case Fetch => if c.commit == plan.previous then Idle else Updating(RetainOld, recover, plan.(target := c.commit))
       case RetainOld => p.(line := Build)
       case Build => Updating(RetainNew, recover, plan.(newImages := c.images))
       case RetainNew => p.(line := Recheck)
       case Recheck => p.(line := WriteSwitching)
       case WriteSwitching => p.(line := PrepareService)
       case PrepareService => p.(line := StopService)
       case StopService => p.(line := Checkout)
       case Checkout => p.(line := WritePins)
       case WritePins => p.(line := ComposeUp)
       case ComposeUp => p.(line := StartService)
       case StartService => p.(line := Health)
       case Health => p.(line := CheckInstalled)
       case CheckInstalled => p.(line := WriteComplete)
       case WriteComplete => Idle)
    case Restoring(at, j) =>
      (match at
       case ComposeStop => p.(at := StopUnit)
       case StopUnit => p.(at := CheckoutPrevious)
       case CheckoutPrevious => p.(at := WritePreviousPins)
       case WritePreviousPins => p.(at := ComposeUpPrevious)
       case ComposeUpPrevious => p.(at := StartUnit)
       case StartUnit => p.(at := HealthPrevious)
       case HealthPrevious => p.(at := CheckVolumes)
       case CheckVolumes => p.(at := WriteRolledBack)
       case WriteRolledBack => Idle)
  }

  function LineNumber(line: UpdateLine): nat {
    match line
    case Preflight => 0 case ReadJournal => 1 case Inspect => 2 case Fetch => 3 case RetainOld => 4 case Build => 5
    case RetainNew => 6 case Recheck => 7 case WriteSwitching => 8 case PrepareService => 9 case StopService => 10
    case Checkout => 11 case WritePins => 12 case ComposeUp => 13 case StartService => 14 case Health => 15
    case CheckInstalled => 16 case WriteComplete => 17
  }

  function RestoreNumber(at: RestoreLine): nat {
    match at
    case ComposeStop => 0 case StopUnit => 1 case CheckoutPrevious => 2 case WritePreviousPins => 3
    case ComposeUpPrevious => 4 case StartUnit => 5 case HealthPrevious => 6 case CheckVolumes => 7
    case WriteRolledBack => 8
  }

  // `switched` is set right after the switching journal is on disk.
  predicate Switched(p: Proc) { p.Updating? && LineNumber(p.line) > LineNumber(WriteSwitching) }

  // The `except` clause: restore when switched, otherwise report and leave.
  function AfterRaise(p: Proc): Proc {
    if Switched(p) then Restoring(ComposeStop, JournalOf(p.plan)) else Idle
  }

  // Where the process goes when the current statement ends with `outcome`.
  function Following(w: World, p: Proc, outcome: Outcome, c: Choice): Proc
    requires p != Idle
  {
    match outcome
    case Returns => AfterReturn(w, p, c)
    case Raises => AfterRaise(p)
    case Dies => Idle
  }

  // ---------- Events ----------

  // Ghost bookkeeping: writing `complete` or `rolled_back` settles a version; writing
  // `switching` takes over the images and volumes found running.
  function Settle(was: Version, w: World, p: Proc, applied: bool): Version {
    if p.Updating? && p.line == WriteSwitching && applied then
      was.(images := p.plan.images, volumes := p.plan.volumes)
    else if p.Updating? && p.line == WriteComplete && applied then
      Version(p.plan.target, Some(PinsFor(p.plan.project, p.plan.newImages)), p.plan.newImages, p.plan.volumes)
    else if p.Restoring? && p.at == WriteRolledBack && applied then
      Version(p.journal.previousCommit, Some(p.journal.previousImages), was.images, p.journal.volumes)
    else was
  }

  predicate Enabled(s: State, e: Event) {
    match e
    case Begin(_) => true
    case Do(applied, outcome, c) =>
      s.proc != Idle && (outcome == Returns ==> applied && MayReturn(s.world, StatementOf(s.proc), c))
    case Retag(_, _) => true
    case Boot(_, _) => s.proc == Idle
  }

  function Next(s: State, e: Event): State
    requires Enabled(s, e)
  {
    match e
    case Begin(recover) =>
      if s.proc != Idle then s  // another update is already running
      else s.(proc := Updating(Preflight, recover, Plan("", "", map[], map[], "", map[])))
    case Do(applied, outcome, c) =>
      State(Perform(s.world, StatementOf(s.proc), applied, c),
            Following(s.world, s.proc, outcome, c),
            Settle(s.settled, s.world, s.proc, applied))
    case Retag(reference, image) => s.(world := s.world.(tags := s.world.tags[Named(reference) := image]))
    case Boot(applied, c) => s.(world := ComposedUp(s.world, applied, c))
  }

  // The window: the `complete` rename took effect, and then something raised.
  predicate LateRaise(s: State, e: Event) {
    s.proc.Updating? && s.proc.line == WriteComplete && e.Do? && e.applied && e.outcome == Raises
  }

  ghost predicate Legal(s: State, es: seq<Event>)
    decreases es
  {
    es != [] ==> Enabled(s, es[0]) && Legal(Next(s, es[0]), es[1..])
  }

  ghost function After(s: State, es: seq<Event>): State
    requires Legal(s, es)
    decreases es
  {
    if es == [] then s else After(Next(s, es[0]), es[1..])
  }

  ghost predicate NoLateRaise(s: State, es: seq<Event>)
    requires Legal(s, es)
    decreases es
  {
    es != [] ==> !LateRaise(s, es[0]) && NoLateRaise(Next(s, es[0]), es[1..])
  }

  // ---------- The invariant ----------

  ghost predicate Initial(s: State) {
    && s.proc == Idle && s.world.journal == None && s.world.pins == None
    && (forall t :: t in s.world.tags ==> t.Named?)
    && s.settled == Version(s.world.head, None, s.world.images, s.world.volumes)
  }

  // A retained tag names the image it points to.
  ghost predicate TagsImmutable(tags: Tags) {
    forall s, d :: Retained(s, d) in tags ==> tags[Retained(s, d)] == Sha256(d)
  }

  ghost predicate HasTags(images: Images, tags: Tags) {
    forall s :: s in images ==> Retained(s, images[s].digest) in tags
  }

  // `p` pins exactly `images`, and they are retained.
  ghost predicate Pinned(p: Pins, images: Images, tags: Tags) {
    p == PinsFor(p.project, images) && HasTags(images, tags)
  }

  lemma PinnedResolves(p: Pins, images: Images, tags: Tags)
    requires TagsImmutable(tags) && Pinned(p, images, tags)
    ensures Resolvable(p, tags) && Resolve(p, tags) == images
  {
  }

  ghost predicate Installed(w: World, v: Version) {
    w.head == v.commit && w.pins == v.pins && w.images == v.images && w.volumes == v.volumes
  }

  ghost predicate JournalHolds(j: Journal, v: Version, tags: Tags) {
    && j.previousCommit == v.commit && j.volumes == v.volumes && j.targetCommit != j.previousCommit
    && Pinned(j.previousImages, v.images, tags)
  }

  /** What the updater promises in every state about what is on disk, and about what the
      unit starts from it. */
  ghost predicate Safe(s: State) {
    var w := s.world;
    && (Quiet(w) ==> w.head == s.settled.commit && w.pins == s.settled.pins)
    && (Quiet(w) && w.pins.Some? ==> Pinned(w.pins.value, s.settled.images, w.tags))
    && (!Quiet(w) ==> JournalHolds(w.journal.value, s.settled, w.tags))
    && (w.journal.Some? && w.journal.value.phase == Complete ==> w.head == w.journal.value.targetCommit)
    && (w.journal.Some? && w.journal.value.phase == RolledBack ==>
          w.head == w.journal.value.previousCommit && w.pins == Some(w.journal.value.previousImages))
  }

  // What the lock holder knows at each line of `update`.
  ghost predicate UpdateKnows(s: State, n: nat, p: Plan) {
    var w, v := s.world, s.settled;
    && (2 <= n <= 8 ==> Quiet(w))
    && (n >= 3 ==> p.previous == v.commit)
    && (3 <= n <= 8 ==> p.images == w.images && p.volumes == w.volumes)
    && (n >= 9 ==> p.images == v.images && p.volumes == v.volumes)
    && (n >= 4 ==> p.target != p.previous)
    && (n >= 5 ==> HasTags(p.images, w.tags))
    && (n >= 7 ==> HasTags(p.newImages, w.tags))
    && (n >= 9 ==> w.journal == Some(JournalOf(p)))
    && (n >= 12 ==> w.head == p.target)
    && (n >= 13 ==> w.pins == Some(PinsFor(p.project, p.newImages)))
    && (n >= 14 ==> w.images == p.newImages)
    && (n >= 17 ==> w.volumes == p.volumes)
  }

  // What it knows at each line of `restore`.
  ghost predicate RestoreKnows(s: State, n: nat, j: Journal) {
    var w := s.world;
    && w.journal == Some(j) && j.phase == Switching
    && (n >= 3 ==> w.head == j.previousCommit)
    && (n >= 4 ==> w.pins == Some(j.previousImages))
    && (n >= 5 ==> w.images == s.settled.images)
    && (n >= 8 ==> w.volumes == j.volumes)
  }

  ghost predicate Inv(s: State) {
    && Safe(s) && TagsImmutable(s.world.tags)
    && (s.proc.Updating? ==> UpdateKnows(s, LineNumber(s.proc.line), s.proc.plan))
    && (s.proc.Restoring? ==> RestoreKnows(s, RestoreNumber(s.proc.at), s.proc.journal))
  }

  lemma InitialInv(s: State)
    requires Initial(s)
    ensures Inv(s)
  {
  }

  // Tags only grow, and retained ones never move.
  ghost predicate TagsKept(a: Tags, b: Tags) {
    forall s, d :: Retained(s, d) in a ==> Retained(s, d) in b && b[Retained(s, d)] == a[Retained(s, d)]
  }

  /** Retained tags are content-addressed: no event removes or moves one. */
  lemma NextKeepsTags(s: State, e: Event)
    requires TagsImmutable(s.world.tags) && Enabled(s, e)
    ensures TagsImmutable(Next(s, e).world.tags) && TagsKept(s.world.tags, Next(s, e).world.tags)
  {
    if e.Do? { StatementKeepsTags(s.world, StatementOf(s.proc), e.applied, e.choice); }
  }

  lemma StatementKeepsTags(w: World, statement: Statement, applied: bool, c: Choice)
    requires TagsImmutable(w.tags)
    ensures var tags := Perform(w, statement, applied, c).tags; TagsImmutable(tags) && TagsKept(w.tags, tags)
  {
  }

  // What is on disk stays good whatever the containers do.
  lemma ContainersAreNotOnDisk(s: State, t: State)
    requires Safe(s) && TagsImmutable(s.world.tags) && t.settled == s.settled
    requires t.world == s.world.(images := t.world.images, volumes := t.world.volumes)
    ensures Safe(t) && TagsImmutable(t.world.tags)
  {
  }

  lemma MoreTagsDoNoHarm(s: State, t: State)
    requires Safe(s) && TagsKept(s.world.tags, t.world.tags) && t.settled == s.settled
    requires t.world == s.world.(tags := t.world.tags)
    ensures Safe(t)
  {
  }

  // One lemma per stretch of lines.  Before the switching journal only tags are touched.
  lemma ReadJournalKeepsInv(s: State, e: Event)
    requires Inv(s) && e.Do? && Enabled(s, e) && s.proc.Updating? && LineNumber(s.proc.line) <= 1
    ensures Inv(Next(s, e))
  {
    ContainersAreNotOnDisk(s, Next(s, e));
    match e.outcome { case Returns => case Raises => case Dies => }
  }

  lemma InspectKeepsInv(s: State, e: Event)
    requires Inv(s) && e.Do? && Enabled(s, e) && s.proc.Updating? && 2 <= LineNumber(s.proc.line) <= 3
    ensures Inv(Next(s, e))
  {
    ContainersAreNotOnDisk(s, Next(s, e));
    match e.outcome { case Returns => case Raises => case Dies => }
  }

  lemma RetainOldKeepsInv(s: State, e: Event)
    requires Inv(s) && e.Do? && Enabled(s, e) && s.proc.Updating? && s.proc.line == RetainOld
    ensures Inv(Next(s, e))
  {
    NextKeepsTags(s, e);
    MoreTagsDoNoHarm(s, Next(s, e));
  }

  lemma BuildKeepsInv(s: State, e: Event)
    requires Inv(s) && e.Do? && Enabled(s, e) && s.proc.Updating? && s.proc.line == Build
    ensures Inv(Next(s, e))
  {
    NextKeepsTags(s, e);
    MoreTagsDoNoHarm(s, Next(s, e));
  }

  lemma RecheckKeepsInv(s: State, e: Event)
    requires Inv(s) && e.Do? && Enabled(s, e) && s.proc.Updating? && s.proc.line == Recheck
    ensures Inv(Next(s, e))
  {
  }

  lemma RetainNewKeepsInv(s: State, e: Event)
    requires Inv(s) && e.Do? && Enabled(s, e) && s.proc.Updating? && s.proc.line == RetainNew
    ensures Inv(Next(s, e))
  {
    NextKeepsTags(s, e);
    MoreTagsDoNoHarm(s, Next(s, e));
  }

  lemma WriteSwitchingKeepsInv(s: State, e: Event)
    requires Inv(s) && e.Do? && Enabled(s, e) && s.proc.Updating? && s.proc.line == WriteSwitching
    ensures Inv(Next(s, e))
  {
  }

  lemma PrepareServiceKeepsInv(s: State, e: Event)
    requires Inv(s) && e.Do? && Enabled(s, e) && s.proc.Updating? && s.proc.line == PrepareService
    ensures Inv(Next(s, e))
  {
  }

  lemma StopServiceKeepsInv(s: State, e: Event)
    requires Inv(s) && e.Do? && Enabled(s, e) && s.proc.Updating? && s.proc.line == StopService
    ensures Inv(Next(s, e))
  {
  }

  lemma CheckoutKeepsInv(s: State, e: Event)
    requires Inv(s) && e.Do? && Enabled(s, e) && s.proc.Updating? && s.proc.line == Checkout
    ensures Inv(Next(s, e))
  {
  }

  lemma WritePinsKeepsInv(s: State, e: Event)
    requires Inv(s) && e.Do? && Enabled(s, e) && s.proc.Updating? && s.proc.line == WritePins
    ensures Inv(Next(s, e))
  {
  }

  // Once images.json names the new images, `compose up` can only start these.
  lemma TargetResolves(s: State)
    requires Inv(s) && s.proc.Updating? && LineNumber(s.proc.line) >= 13
    ensures CanComposeUp(s.world) && Resolve(s.world.pins.value, s.world.tags) == s.proc.plan.newImages
  {
    var p := s.proc.plan;
    assert Pinned(PinsFor(p.project, p.newImages), p.newImages, s.world.tags);
    PinnedResolves(PinsFor(p.project, p.newImages), p.newImages, s.world.tags);
  }

  lemma ComposeUpKeepsInv(s: State, e: Event)
    requires Inv(s) && e.Do? && Enabled(s, e) && s.proc.Updating? && s.proc.line == ComposeUp
    ensures Inv(Next(s, e))
  {
    TargetResolves(s);
    ContainersAreNotOnDisk(s, Next(s, e));
  }

  lemma StartServiceKeepsInv(s: State, e: Event)
    requires Inv(s) && e.Do? && Enabled(s, e) && s.proc.Updating? && s.proc.line == StartService
    ensures Inv(Next(s, e))
  {
    TargetResolves(s);
    ContainersAreNotOnDisk(s, Next(s, e));
  }

  lemma HealthKeepsInv(s: State, e: Event)
    requires Inv(s) && e.Do? && Enabled(s, e) && s.proc.Updating? && s.proc.line == Health
    ensures Inv(Next(s, e))
  {
  }

  lemma CheckInstalledKeepsInv(s: State, e: Event)
    requires Inv(s) && e.Do? && Enabled(s, e) && s.proc.Updating? && s.proc.line == CheckInstalled
    ensures Inv(Next(s, e))
  {
  }

  lemma CompleteKeepsInv(s: State, e: Event)
    requires Inv(s) && e.Do? && Enabled(s, e) && s.proc.Updating? && s.proc.line == WriteComplete && !LateRaise(s, e)
    ensures Inv(Next(s, e))
  {
  }

  lemma RestoreKeepsInv(s: State, e: Event)
    requires Inv(s) && e.Do? && Enabled(s, e) && s.proc.Restoring? && RestoreNumber(s.proc.at) <= 3
    ensures Inv(Next(s, e))
  {
  }

  lemma PreviousResolves(s: State)
    requires Inv(s) && s.proc.Restoring? && RestoreNumber(s.proc.at) >= 4
    ensures CanComposeUp(s.world) && Resolve(s.world.pins.value, s.world.tags) == s.settled.images
  {
    PinnedResolves(s.proc.journal.previousImages, s.settled.images, s.world.tags);
  }

  lemma ComposeUpPreviousKeepsInv(s: State, e: Event)
    requires Inv(s) && e.Do? && Enabled(s, e) && s.proc.Restoring? && s.proc.at == ComposeUpPrevious
    ensures Inv(Next(s, e))
  {
    PreviousResolves(s);
    ContainersAreNotOnDisk(s, Next(s, e));
    match e.outcome { case Returns => case Raises => case Dies => }
  }

  lemma StartUnitKeepsInv(s: State, e: Event)
    requires Inv(s) && e.Do? && Enabled(s, e) && s.proc.Restoring? && s.proc.at == StartUnit
    ensures Inv(Next(s, e))
  {
    PreviousResolves(s);
    ContainersAreNotOnDisk(s, Next(s, e));
    match e.outcome { case Returns => case Raises => case Dies => }
  }

  lemma FinishRestoreKeepsInv(s: State, e: Event)
    requires Inv(s) && e.Do? && Enabled(s, e) && s.proc.Restoring? && RestoreNumber(s.proc.at) >= 6
    ensures Inv(Next(s, e))
  {
  }

  lemma DoKeepsInv(s: State, e: Event)
    requires Inv(s) && e.Do? && Enabled(s, e) && !LateRaise(s, e)
    ensures Inv(Next(s, e))
  {
    if s.proc.Restoring? {
      var n := RestoreNumber(s.proc.at);
      if n <= 3 { RestoreKeepsInv(s, e); }
      else if n == 4 { ComposeUpPreviousKeepsInv(s, e); }
      else if n == 5 { StartUnitKeepsInv(s, e); }
      else { FinishRestoreKeepsInv(s, e); }
    } else {
      var n := LineNumber(s.proc.line);
      if n <= 1 { ReadJournalKeepsInv(s, e); }
      else if n <= 3 { InspectKeepsInv(s, e); }
      else if n == 4 { RetainOldKeepsInv(s, e); }
      else if n == 5 { BuildKeepsInv(s, e); }
      else if n == 6 { RetainNewKeepsInv(s, e); }
      else if n == 7 { RecheckKeepsInv(s, e); }
      else if n == 8 { WriteSwitchingKeepsInv(s, e); }
      else if n == 9 { PrepareServiceKeepsInv(s, e); }
      else if n == 10 { StopServiceKeepsInv(s, e); }
      else if n == 11 { CheckoutKeepsInv(s, e); }
      else if n == 12 { WritePinsKeepsInv(s, e); }
      else if n == 13 { ComposeUpKeepsInv(s, e); }
      else if n == 14 { StartServiceKeepsInv(s, e); }
      else if n == 15 { HealthKeepsInv(s, e); }
      else if n == 16 { CheckInstalledKeepsInv(s, e); }
      else { CompleteKeepsInv(s, e); }
    }
  }

  lemma NextKeepsInv(s: State, e: Event)
    requires Inv(s) && Enabled(s, e) && !LateRaise(s, e)
    ensures Inv(Next(s, e))
  {
    match e {
      case Begin(_) =>
      case Do(_, _, _) => DoKeepsInv(s, e);
      case Retag(_, _) =>
      case Boot(_, _) =>
    }
  }

  // ---------- Over whole runs ----------

  lemma {:induction false} RunKeepsInv(s: State, es: seq<Event>)
    requires Inv(s) && Legal(s, es) && NoLateRaise(s, es)
    ensures Inv(After(s, es))
    decreases es
  {
    if es != [] {
      NextKeepsInv(s, es[0]);
      RunKeepsInv(Next(s, es[0]), es[1..]);
    }
  }

  /** Safety: in every state of every run of updates, failures, crashes, recoveries,
      failing boots and tag rebuilds, without a late raise. */
  lemma EveryRunIsSafe(s: State, es: seq<Event>)
    requires Initial(s) && Legal(s, es) && NoLateRaise(s, es)
    ensures Safe(After(s, es))
  {
    InitialInv(s);
    RunKeepsInv(s, es);
  }

  /** Over any run, late raises included, a retained tag keeps its image, so pins
      resolve to what they resolved to when they were written. */
  lemma {:induction false} PinsNeverMove(s: State, es: seq<Event>, p: Pins, images: Images)
    requires TagsImmutable(s.world.tags) && Legal(s, es) && Pinned(p, images, s.world.tags)
    ensures var tags := After(s, es).world.tags; Resolvable(p, tags) && Resolve(p, tags) == images
    decreases es
  {
    PinnedResolves(p, images, s.world.tags);
    if es != [] {
      NextKeepsTags(s, es[0]);
      PinsNeverMove(Next(s, es[0]), es[1..], p, images);
    }
  }

  // A statement that takes effect and returns.
  function Ran(volumes: Volumes): Event { Do(true, Returns, Choice("", "", map[], volumes, {}, map[])) }
}
