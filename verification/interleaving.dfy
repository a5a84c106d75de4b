/** Several requests at once: the mutex of internal/service/chain.go, and runs cut into
    the single disk and network operations between which other requests may move. */
module Interleaving {
  import opened Text
  import opened Naming
  import opened Ordering
  import opened Files
  import opened Chain
  import Caddy

  /** Where a request stands. Its local variables travel in the phase. */
  datatype Phase =
    | Waiting
    | ToRead
    | ToCopy(previous: Option<Bytes>)
    | ToPrune(previous: Option<Bytes>, own: set<string>, deleted: nat, toDelete: nat)
    | ToProduce(previous: Option<Bytes>)
    | ToCreate(previous: Option<Bytes>, bytes: Bytes)
    | ToFill(previous: Option<Bytes>, bytes: Bytes)
    | ToRename(previous: Option<Bytes>, bytes: Bytes)
    | ToLoad(previous: Option<Bytes>)
    | ToRestore(previous: Option<Bytes>)
    | ToRefill(bytes: Bytes)
    | ToRerename(bytes: Bytes)
    | Finished(result: Result)

  // ---------------------------------------------------------- one operation at a time

  /** Rename the temporary file over the target, or give it up. */
  function Renamed(managed: Dir, name: string, w: WriteScript): Dir {
    var tmp := TempName(name, w.nonce);
    if WriteBreaks(w) || tmp !in managed then (if w.cleanupFails then managed else managed - {tmp})
    else (managed - {tmp})[name := managed[tmp]]
  }

  /** The next operation of the request that holds the lock. */
  ghost function Step(w: World, job: Job, phase: Phase, keep: nat): (World, Phase)
    requires job.script.Valid()
  {
    var req, s, name := job.req, job.script, job.req.Target();
    match phase
    case Waiting => (w, phase)
    case Finished(_) => (w, phase)
    case ToRead =>
      (w, if s.readFails then Finished(Failed(Reading)) else ToCopy(Get(w.managed, name)))
    case ToCopy(previous) => Copy(w, req, s.backup, previous, keep)
    case ToPrune(previous, own, i, n) => Prune(w, req, s.backup, previous, own, i, n)
    case ToProduce(previous) =>
      (match ContentOf(w.backups, req, s)
       case Unavailable(stage) => (w, Finished(Failed(stage)))
       case Ready(bytes) => (w, ToCreate(previous, bytes)))
    case ToCreate(previous, bytes) =>
      var tmp := TempName(name, s.write.nonce);
      if s.write.createFails || tmp in w.managed then (w, Finished(Failed(Writing)))
      else (w.(managed := w.managed[tmp := ""]), ToFill(previous, bytes))
    case ToFill(previous, bytes) =>
      (w.(managed := w.managed[TempName(name, s.write.nonce) := Filled(bytes, s.write)]), ToRename(previous, bytes))
    case ToRename(previous, bytes) =>
      (w.(managed := Renamed(w.managed, name, s.write)),
       if WriteBreaks(s.write) then Finished(Failed(Writing)) else ToLoad(previous))
    case ToLoad(previous) =>
      var loaded := w.(live := if Caddy.Adopts(s.admin) then Overlays(w.managed) else w.live,
                       readback := Caddy.ReadbackOf(s.admin));
      (loaded, if loaded.readback.ok then Finished(Done) else ToRestore(previous))
    case ToRestore(previous) => Restore(w, name, s, previous)
    case ToRefill(bytes) =>
      (w.(managed := w.managed[TempName(name, s.rewrite.nonce) := Filled(bytes, s.rewrite)]), ToRerename(bytes))
    case ToRerename(bytes) =>
      (w.(managed := Renamed(w.managed, name, s.rewrite)),
       Finished(Failed(if WriteBreaks(s.rewrite) then Restoring else Reloading)))
  }

  ghost function Copy(w: World, req: Request, b: BackupScript, previous: Option<Bytes>, keep: nat): (World, Phase)
    requires b.now.InRange()
  {
    var source, snapshot, dir := req.Target(), SnapshotName(StampText(b.now), req.fileType), DirOf(w.backups, req.slug);
    if b.statFails then (w, Finished(Failed(BackingUp)))
    else if source !in w.managed then (w, ToProduce(previous))
    else if b.mkdirFails then (w, Finished(Failed(BackingUp)))
    else
      var copied := match b.copy
        case OpenFails => dir
        case CreateFails => dir
        case CutShort(n) => dir[snapshot := Truncated(w.managed[source], n)]
        case Copied => dir[snapshot := w.managed[source]];
      (w.(backups := w.backups[req.slug := copied]),
       if !b.copy.Copied? || b.readDirFails then Finished(Failed(BackingUp))
       else ToPrune(previous, Names(copied, req.fileType), 0, Excess(copied, req.fileType, keep)))
  }

  function Prune(w: World, req: Request, b: BackupScript, previous: Option<Bytes>, own: set<string>, i: nat, n: nat)
    : (World, Phase)
  {
    if i >= n then (w, ToProduce(previous))
    else if b.removeFailsAt == Some(i) then (w, Finished(Failed(BackingUp)))
    else (OneLess(w, req.slug, own, i), ToPrune(previous, own, i + 1, n))
  }

  /** One snapshot less: the one with `i` older ones. */
  function OneLess(w: World, slug: string, own: set<string>, i: nat): World {
    w.(backups := w.backups[slug := DirOf(w.backups, slug) - (Newest(own, i) - Newest(own, i + 1))])
  }

  function Restore(w: World, name: string, s: Script, previous: Option<Bytes>): (World, Phase) {
    match previous
    case None =>
      if name in w.managed && s.removeFails then (w, Finished(Failed(Restoring)))
      else (w.(managed := w.managed - {name}), Finished(Failed(Reloading)))
    case Some(bytes) =>
      var tmp := TempName(name, s.rewrite.nonce);
      if s.rewrite.createFails || tmp in w.managed then (w, Finished(Failed(Restoring)))
      else (w.(managed := w.managed[tmp := ""]), ToRefill(bytes))
  }

  // ------------------------------------------------- where a run stands, from its start

  /** The snapshot directory just after the copy. */
  function CopiedDir(base: World, req: Request, b: BackupScript): Dir
    requires b.now.InRange() && req.Target() in base.managed
  {
    DirOf(base.backups, req.slug)[SnapshotName(StampText(b.now), req.fileType) := base.managed[req.Target()]]
  }

  ghost predicate Started(base: World, job: Job, previous: Option<Bytes>) {
    !job.script.readFails && previous == Get(base.managed, job.req.Target())
  }

  ghost function BackupsAfter(base: World, job: Job, keep: nat): (map<string, Dir>, bool)
    requires job.script.Valid()
  {
    BackedUp(base.managed, base.backups, job.req.fileType, job.req.slug, keep, job.script.backup)
  }

  ghost predicate BackedUpFrom(base: World, job: Job, previous: Option<Bytes>, keep: nat)
    requires job.script.Valid()
  {
    Started(base, job, previous) && BackupsAfter(base, job, keep).1
  }

  ghost predicate Producing(base: World, job: Job, previous: Option<Bytes>, bytes: Bytes, keep: nat)
    requires job.script.Valid()
  {
    && BackedUpFrom(base, job, previous, keep)
    && ContentOf(BackupsAfter(base, job, keep).0, job.req, job.script) == Ready(bytes)
  }

  ghost predicate CopyWorks(base: World, job: Job) {
    var b := job.script.backup;
    job.req.Target() in base.managed && !b.statFails && !b.mkdirFails && b.copy.Copied? && !b.readDirFails
  }

  /** The copy is made and `i` of the `n` snapshots too many are gone. */
  ghost predicate Pruning(base: World, w: World, job: Job, previous: Option<Bytes>, own: set<string>, i: nat, n: nat,
                          keep: nat)
    requires job.script.Valid()
  {
    && Started(base, job, previous) && CopyWorks(base, job)
    && var dir, at := CopiedDir(base, job.req, job.script.backup), job.script.backup.removeFailsAt;
       && own == Names(dir, job.req.fileType) && n == Excess(dir, job.req.fileType, keep)
       && i <= n && (at.Some? ==> i <= at.value)
       && w == base.(backups := base.backups[job.req.slug := Pruned(dir, own, i)])
  }

  ghost predicate CanCreate(managed: Dir, name: string, w: WriteScript) {
    !w.createFails && TempName(name, w.nonce) !in managed
  }

  ghost function Loaded(base: World, job: Job, bytes: Bytes, keep: nat): World
    requires job.script.Valid()
  {
    var managed := base.managed[job.req.Target() := bytes];
    World(managed, BackupsAfter(base, job, keep).0,
          if Caddy.Adopts(job.script.admin) then Overlays(managed) else base.live,
          Caddy.ReadbackOf(job.script.admin))
  }

  ghost predicate Unverified(base: World, job: Job, previous: Option<Bytes>, bytes: Bytes, keep: nat)
    requires job.script.Valid()
  {
    && Producing(base, job, previous, bytes, keep)
    && CanCreate(base.managed, job.req.Target(), job.script.write) && !WriteBreaks(job.script.write)
    && !Caddy.ReadbackOf(job.script.admin).ok
  }

  /** The world in the middle of a run, told from the world `base` in which it began. */
  ghost predicate StandsAt(base: World, w: World, job: Job, phase: Phase, keep: nat)
    requires job.script.Valid()
  {
    var req, s, name := job.req, job.script, job.req.Target();
    match phase
    case Waiting => false
    case ToRead => w == base
    case ToCopy(previous) => w == base && Started(base, job, previous)
    case ToPrune(previous, own, i, n) =>
      Pruning(base, w, job, previous, own, i, n, keep)
    case ToProduce(previous) =>
      BackedUpFrom(base, job, previous, keep) && w == base.(backups := BackupsAfter(base, job, keep).0)
    case ToCreate(previous, bytes) =>
      Producing(base, job, previous, bytes, keep) && w == base.(backups := BackupsAfter(base, job, keep).0)
    case ToFill(previous, bytes) =>
      && Producing(base, job, previous, bytes, keep) && CanCreate(base.managed, name, s.write)
      && w == base.(backups := BackupsAfter(base, job, keep).0,
                    managed := base.managed[TempName(name, s.write.nonce) := ""])
    case ToRename(previous, bytes) =>
      && Producing(base, job, previous, bytes, keep) && CanCreate(base.managed, name, s.write)
      && w == base.(backups := BackupsAfter(base, job, keep).0,
                    managed := base.managed[TempName(name, s.write.nonce) := Filled(bytes, s.write)])
    case ToLoad(previous) =>
      exists bytes ::
        && Producing(base, job, previous, bytes, keep) && CanCreate(base.managed, name, s.write)
        && !WriteBreaks(s.write)
        && w == base.(backups := BackupsAfter(base, job, keep).0, managed := base.managed[name := bytes])
    case ToRestore(previous) =>
      exists bytes :: Unverified(base, job, previous, bytes, keep) && w == Loaded(base, job, bytes, keep)
    case ToRefill(old') =>
      exists bytes ::
        var loaded := Loaded(base, job, bytes, keep);
        && Unverified(base, job, Some(old'), bytes, keep) && CanCreate(loaded.managed, name, s.rewrite)
        && w == loaded.(managed := loaded.managed[TempName(name, s.rewrite.nonce) := ""])
    case ToRerename(old') =>
      exists bytes ::
        var loaded := Loaded(base, job, bytes, keep);
        && Unverified(base, job, Some(old'), bytes, keep) && CanCreate(loaded.managed, name, s.rewrite)
        && w == loaded.(managed := loaded.managed[TempName(name, s.rewrite.nonce) := Filled(old', s.rewrite)])
    case Finished(result) => (w, result) == Ran(base, req, s, keep)
  }

  // ------------------------------------------------------------- every step keeps it

  lemma RenameIsWritten(managed: Dir, name: string, bytes: Bytes, w: WriteScript)
    requires CanCreate(managed, name, w)
    ensures (Renamed(managed[TempName(name, w.nonce) := Filled(bytes, w)], name, w), !WriteBreaks(w)) ==
            Written(managed, name, bytes, w)
  {
    var tmp := TempName(name, w.nonce);
    assert managed[tmp := Filled(bytes, w)] - {tmp} == managed;
  }

  lemma CopyKeepsStanding(base: World, job: Job, previous: Option<Bytes>, keep: nat)
    requires job.script.Valid()
    requires Started(base, job, previous)
    ensures
      var (w', phase') := Copy(base, job.req, job.script.backup, previous, keep);
      StandsAt(base, w', job, phase', keep)
  {
    if job.req.Target() in base.managed {
      PruneNothing(CopiedDir(base, job.req, job.script.backup),
                   Names(CopiedDir(base, job.req, job.script.backup), job.req.fileType));
    }
  }

  lemma PruneStep(dir: Dir, own: set<string>, i: nat)
    ensures Pruned(dir, own, i) - (Newest(own, i) - Newest(own, i + 1)) == Pruned(dir, own, i + 1)
  {
  }

  /** Where deleting stops: after the last one too many, or at the one that fails. */
  lemma PruneEnds(base: World, job: Job, keep: nat)
    requires job.script.Valid() && CopyWorks(base, job)
    ensures
      var dir := CopiedDir(base, job.req, job.script.backup);
      var own, n := Names(dir, job.req.fileType), Excess(dir, job.req.fileType, keep);
      var at := job.script.backup.removeFailsAt;
      BackupsAfter(base, job, keep) ==
      if at.Some? && at.value < n then (base.backups[job.req.slug := Pruned(dir, own, at.value)], false)
      else (base.backups[job.req.slug := Pruned(dir, own, n)], true)
  {
  }

  lemma PruneGoesOn(base: World, w: World, job: Job, previous: Option<Bytes>, own: set<string>, i: nat, n: nat,
                    keep: nat)
    requires job.script.Valid() && Pruning(base, w, job, previous, own, i, n, keep)
    requires i < n && job.script.backup.removeFailsAt != Some(i)
    ensures Pruning(base, OneLess(w, job.req.slug, own, i), job, previous, own, i + 1, n, keep)
  {
    var slug, dir := job.req.slug, CopiedDir(base, job.req, job.script.backup);
    PruneStep(dir, own, i);
    UpdateAgain(base.backups, slug, Pruned(dir, own, i), Pruned(dir, own, i + 1));
  }

  lemma PruneFails(base: World, w: World, job: Job, previous: Option<Bytes>, own: set<string>, i: nat, n: nat,
                   keep: nat)
    requires job.script.Valid() && Pruning(base, w, job, previous, own, i, n, keep)
    requires i < n && job.script.backup.removeFailsAt == Some(i)
    ensures (w, Failed(BackingUp)) == Ran(base, job.req, job.script, keep)
  {
    PruneEnds(base, job, keep);
    assert BackupsAfter(base, job, keep) == (w.backups, false);
  }

  lemma PruneFinishes(base: World, w: World, job: Job, previous: Option<Bytes>, own: set<string>, i: nat, n: nat,
                      keep: nat)
    requires job.script.Valid() && Pruning(base, w, job, previous, own, i, n, keep)
    requires i >= n
    ensures BackedUpFrom(base, job, previous, keep) && w == base.(backups := BackupsAfter(base, job, keep).0)
  {
    PruneEnds(base, job, keep);
  }

  lemma PruneKeepsStanding(base: World, w: World, job: Job, previous: Option<Bytes>, own: set<string>, i: nat, n: nat,
                           keep: nat)
    requires job.script.Valid() && Pruning(base, w, job, previous, own, i, n, keep)
    ensures
      var (w', phase') := Prune(w, job.req, job.script.backup, previous, own, i, n);
      StandsAt(base, w', job, phase', keep)
  {
    if i >= n {
      PruneFinishes(base, w, job, previous, own, i, n, keep);
      assert StandsAt(base, w, job, ToProduce(previous), keep);
    } else if job.script.backup.removeFailsAt == Some(i) {
      PruneFails(base, w, job, previous, own, i, n, keep);
      assert StandsAt(base, w, job, Finished(Failed(BackingUp)), keep);
    } else {
      PruneGoesOn(base, w, job, previous, own, i, n, keep);
      assert StandsAt(base, OneLess(w, job.req.slug, own, i), job, ToPrune(previous, own, i + 1, n), keep);
    }
  }

  lemma WriteKeepsStanding(base: World, w: World, job: Job, phase: Phase, keep: nat)
    requires job.script.Valid() && (phase.ToCreate? || phase.ToFill? || phase.ToRename?)
    requires StandsAt(base, w, job, phase, keep)
    ensures StandsAt(base, Step(w, job, phase, keep).0, job, Step(w, job, phase, keep).1, keep)
  {
    var name, s := job.req.Target(), job.script;
    var tmp := TempName(name, s.write.nonce);
    match phase {
      case ToCreate(_, _) =>
      case ToFill(_, bytes) =>
        UpdateAgain(base.managed, tmp, "", Filled(bytes, s.write));
      case ToRename(previous, bytes) =>
        RenameIsWritten(base.managed, name, bytes, s.write);
    }
  }

  lemma LoadKeepsStanding(base: World, w: World, job: Job, phase: Phase, keep: nat)
    requires job.script.Valid() && phase.ToLoad?
    requires StandsAt(base, w, job, phase, keep)
    ensures StandsAt(base, Step(w, job, phase, keep).0, job, Step(w, job, phase, keep).1, keep)
  {
    var s, name, previous := job.script, job.req.Target(), phase.previous;
    var bytes :|
      && Producing(base, job, previous, bytes, keep) && CanCreate(base.managed, name, s.write) && !WriteBreaks(s.write)
      && w == base.(backups := BackupsAfter(base, job, keep).0, managed := base.managed[name := bytes]);
    assert Step(w, job, phase, keep).0 == Loaded(base, job, bytes, keep);
    assert !Caddy.ReadbackOf(s.admin).ok ==> Unverified(base, job, previous, bytes, keep);
  }

  lemma RestoreKeepsStanding(base: World, w: World, job: Job, phase: Phase, keep: nat)
    requires job.script.Valid() && phase.ToRestore?
    requires StandsAt(base, w, job, phase, keep)
    ensures StandsAt(base, Step(w, job, phase, keep).0, job, Step(w, job, phase, keep).1, keep)
  {
    var bytes :| Unverified(base, job, phase.previous, bytes, keep) && w == Loaded(base, job, bytes, keep);
    var (w', phase') := Step(w, job, phase, keep);
    if phase'.ToRefill? {
      assert CanCreate(Loaded(base, job, bytes, keep).managed, job.req.Target(), job.script.rewrite);
    }
  }

  lemma RefillKeepsStanding(base: World, w: World, job: Job, phase: Phase, keep: nat)
    requires job.script.Valid() && phase.ToRefill?
    requires StandsAt(base, w, job, phase, keep)
    ensures StandsAt(base, Step(w, job, phase, keep).0, job, Step(w, job, phase, keep).1, keep)
  {
    var name, rewrite := job.req.Target(), job.script.rewrite;
    var tmp := TempName(name, rewrite.nonce);
    var bytes :|
      var loaded := Loaded(base, job, bytes, keep);
      && Unverified(base, job, Some(phase.bytes), bytes, keep) && CanCreate(loaded.managed, name, rewrite)
      && w == loaded.(managed := loaded.managed[tmp := ""]);
    UpdateAgain(Loaded(base, job, bytes, keep).managed, tmp, "", Filled(phase.bytes, rewrite));
  }

  lemma RerenameKeepsStanding(base: World, w: World, job: Job, phase: Phase, keep: nat)
    requires job.script.Valid() && phase.ToRerename?
    requires StandsAt(base, w, job, phase, keep)
    ensures StandsAt(base, Step(w, job, phase, keep).0, job, Step(w, job, phase, keep).1, keep)
  {
    var name, rewrite := job.req.Target(), job.script.rewrite;
    var tmp := TempName(name, rewrite.nonce);
    var bytes :|
      var loaded := Loaded(base, job, bytes, keep);
      && Unverified(base, job, Some(phase.bytes), bytes, keep) && CanCreate(loaded.managed, name, rewrite)
      && w == loaded.(managed := loaded.managed[tmp := Filled(phase.bytes, rewrite)]);
    RenameIsWritten(Loaded(base, job, bytes, keep).managed, name, phase.bytes, rewrite);
  }

  /** Single operations put together are the whole transaction: each keeps the run where
      `StandsAt` says, and a finished run has done exactly what `Ran` says. */
  lemma StepKeepsStanding(base: World, w: World, job: Job, phase: Phase, keep: nat)
    requires job.script.Valid()
    requires StandsAt(base, w, job, phase, keep)
    ensures StandsAt(base, Step(w, job, phase, keep).0, job, Step(w, job, phase, keep).1, keep)
  {
    match phase {
      case ToRead =>
      case ToCopy(previous) => CopyKeepsStanding(base, job, previous, keep);
      case ToPrune(previous, own, i, n) => PruneKeepsStanding(base, w, job, previous, own, i, n, keep);
      case ToProduce(_) =>
      case ToCreate(_, _) => WriteKeepsStanding(base, w, job, phase, keep);
      case ToFill(_, _) => WriteKeepsStanding(base, w, job, phase, keep);
      case ToRename(_, _) => WriteKeepsStanding(base, w, job, phase, keep);
      case ToLoad(_) => LoadKeepsStanding(base, w, job, phase, keep);
      case ToRestore(_) => RestoreKeepsStanding(base, w, job, phase, keep);
      case ToRefill(_) => RefillKeepsStanding(base, w, job, phase, keep);
      case ToRerename(_) => RerenameKeepsStanding(base, w, job, phase, keep);
      case Finished(_) =>
    }
  }

  // ------------------------------------------------------------------- all the requests

  /** The requests, who holds the mutex, and the order in which it was taken. */
  datatype System = System(world: World, phases: seq<Phase>, holder: Option<nat>, order: seq<nat>)

  function Initial(w: World, n: nat): System {
    System(w, seq(n, _ => Waiting), None, [])
  }

  /** Request `t` gets the processor: it takes the free mutex, or does its next operation
      under it, or is stuck. */
  ghost function Turn(sys: System, jobs: seq<Job>, keep: nat, t: nat): System
    requires ValidJobs(jobs)
  {
    if t >= |sys.phases| || t >= |jobs| then sys
    else if sys.phases[t].Waiting? then
      (if sys.holder.Some? then sys
       else Taken(sys, t))
    else if sys.phases[t].Finished? then sys
    else
      var (w, phase) := Step(sys.world, jobs[t], sys.phases[t], keep);
      Moved(sys, t, w, phase)
  }

  function Taken(sys: System, t: nat): System
    requires t < |sys.phases|
  {
    sys.(phases := sys.phases[t := ToRead], holder := Some(t), order := sys.order + [t])
  }

  /** A finished request gives the mutex back. */
  function Moved(sys: System, t: nat, w: World, phase: Phase): System
    requires t < |sys.phases|
  {
    System(w, sys.phases[t := phase], if phase.Finished? then None else sys.holder, sys.order)
  }

  ghost function AfterTurns(w: World, jobs: seq<Job>, keep: nat, schedule: seq<nat>): System
    requires ValidJobs(jobs)
  {
    if schedule == [] then Initial(w, |jobs|)
    else Turn(AfterTurns(w, jobs, keep, schedule[..|schedule| - 1]), jobs, keep, schedule[|schedule| - 1])
  }

  /** The jobs in the order the mutex was taken. */
  function InOrder(jobs: seq<Job>, order: seq<nat>): (picked: seq<Job>)
    requires forall i :: 0 <= i < |order| ==> order[i] < |jobs|
    ensures |picked| == |order|
    ensures forall i :: 0 <= i < |order| ==> picked[i] == jobs[order[i]]
  {
    if order == [] then [] else InOrder(jobs, order[..|order| - 1]) + [jobs[order[|order| - 1]]]
  }

  ghost predicate InRange(order: seq<nat>, n: nat) {
    && (forall i :: 0 <= i < |order| ==> order[i] < n)
    && (forall i, j :: 0 <= i < j < |order| ==> order[i] != order[j])
  }

  /** One after another, without any interleaving. */
  ghost function Serial(w: World, jobs: seq<Job>, keep: nat, order: seq<nat>): World
    requires ValidJobs(jobs) && InRange(order, |jobs|)
  {
    AfterJobs(w, InOrder(jobs, order), keep)
  }

  lemma SerialSnoc(w: World, jobs: seq<Job>, keep: nat, order: seq<nat>)
    requires ValidJobs(jobs) && InRange(order, |jobs|) && order != []
    ensures
      var job := jobs[order[|order| - 1]];
      Serial(w, jobs, keep, order) == Ran(Serial(w, jobs, keep, order[..|order| - 1]), job.req, job.script, keep).0
  {
    var all, front := InOrder(jobs, order), InOrder(jobs, order[..|order| - 1]);
    assert all[..|all| - 1] == front;
  }

  /** Requests that have given the mutex back. */
  function Completed(sys: System): seq<nat> {
    if sys.holder.Some? && sys.order != [] then sys.order[..|sys.order| - 1] else sys.order
  }

  ghost predicate ResultsAreSerial(w: World, jobs: seq<Job>, keep: nat, phases: seq<Phase>, done: seq<nat>)
    requires ValidJobs(jobs) && InRange(done, |jobs|) && |phases| == |jobs|
  {
    forall i :: 0 <= i < |done| ==>
                  phases[done[i]] == Finished(Ran(Serial(w, jobs, keep, done[..i]), jobs[done[i]].req,
                                                  jobs[done[i]].script, keep).1)
  }

  /** Who waits, who holds the mutex, who has finished. */
  ghost predicate Bookkept(sys: System, n: nat) {
    && |sys.phases| == n
    && InRange(sys.order, n)
    && (forall t :: 0 <= t < n ==> (sys.phases[t].Waiting? <==> t !in sys.order))
    && (sys.holder.Some? ==>
          && sys.order != [] && sys.order[|sys.order| - 1] == sys.holder.value
          && !sys.phases[sys.holder.value].Finished?)
    && InRange(Completed(sys), n)
    && (forall i :: 0 <= i < |Completed(sys)| ==> sys.phases[Completed(sys)[i]].Finished?)
  }

  lemma TakingIsBookkept(sys: System, n: nat, t: nat)
    requires Bookkept(sys, n) && t < n && sys.phases[t].Waiting? && sys.holder.None?
    ensures Bookkept(Taken(sys, t), n)
    ensures Completed(Taken(sys, t)) == sys.order
    ensures forall i :: 0 <= i < |sys.order| ==> Taken(sys, t).phases[sys.order[i]] == sys.phases[sys.order[i]]
  {
    var sys' := Taken(sys, t);
    assert Completed(sys') == sys.order;
    forall i | 0 <= i < |sys.order|
      ensures sys.order[i] != t
    {
      assert sys.order[i] in sys.order;
    }
  }

  lemma MovingIsBookkept(sys: System, n: nat, t: nat, w: World, phase: Phase)
    requires Bookkept(sys, n) && sys.holder == Some(t) && !phase.Waiting?
    ensures Bookkept(Moved(sys, t, w, phase), n)
    ensures sys.order == Completed(sys) + [t]
    ensures Completed(Moved(sys, t, w, phase)) == if phase.Finished? then sys.order else Completed(sys)
    ensures forall i :: 0 <= i < |Completed(sys)| ==>
                          Moved(sys, t, w, phase).phases[Completed(sys)[i]] == sys.phases[Completed(sys)[i]]
  {
    var sys', done := Moved(sys, t, w, phase), Completed(sys);
    assert sys.order == done + [t];
    assert t in sys.order;
    forall i | 0 <= i < |done|
      ensures done[i] != t
    {
      assert sys.order[i] == done[i];
    }
    assert Completed(sys') == if phase.Finished? then sys.order else done;
  }

  /** Without the mutex a request has not begun, or is done. */
  lemma IdleWithoutMutex(sys: System, n: nat, t: nat)
    requires Bookkept(sys, n) && t < n && sys.holder != Some(t)
    ensures sys.phases[t].Waiting? || sys.phases[t].Finished?
  {
    if t in sys.order {
      var i :| 0 <= i < |sys.order| && sys.order[i] == t;
      assert i < |Completed(sys)| && Completed(sys)[i] == t;
    }
  }

  /** The invariant of every interleaving. */
  ghost predicate Consistent(w: World, jobs: seq<Job>, keep: nat, sys: System)
    requires ValidJobs(jobs)
  {
    && Bookkept(sys, |jobs|)
    && ResultsAreSerial(w, jobs, keep, sys.phases, Completed(sys))
    && var base := Serial(w, jobs, keep, Completed(sys));
       match sys.holder
       case None => sys.world == base
       case Some(h) => StandsAt(base, sys.world, jobs[h], sys.phases[h], keep)
  }

  lemma MovingStands(w: World, jobs: seq<Job>, keep: nat, sys: System, t: nat, base: World, w': World, phase: Phase)
    requires ValidJobs(jobs) && Bookkept(sys, |jobs|) && sys.holder == Some(t)
    requires base == Serial(w, jobs, keep, Completed(sys))
    requires StandsAt(base, w', jobs[t], phase, keep)
    ensures phase.Finished? ==> InRange(sys.order, |jobs|) && w' == Serial(w, jobs, keep, sys.order)
    ensures !phase.Finished? ==>
              Moved(sys, t, w', phase).phases[t] == phase && Moved(sys, t, w', phase).holder == Some(t)
  {
    if phase.Finished? {
      SerialSnoc(w, jobs, keep, sys.order);
      assert sys.order[..|sys.order| - 1] == Completed(sys);
    }
  }

  lemma TakingKeepsConsistent(w: World, jobs: seq<Job>, keep: nat, sys: System, t: nat)
    requires ValidJobs(jobs) && Consistent(w, jobs, keep, sys)
    requires t < |jobs| && sys.phases[t].Waiting? && sys.holder.None?
    ensures Consistent(w, jobs, keep, Taken(sys, t))
  {
    TakingIsBookkept(sys, |jobs|, t);
    ResultsStay(w, jobs, keep, sys.phases, Taken(sys, t).phases, sys.order);
  }

  lemma ResultsStay(w: World, jobs: seq<Job>, keep: nat, phases: seq<Phase>, phases': seq<Phase>, done: seq<nat>)
    requires ValidJobs(jobs) && InRange(done, |jobs|) && |phases| == |phases'| == |jobs|
    requires ResultsAreSerial(w, jobs, keep, phases, done)
    requires forall i :: 0 <= i < |done| ==> phases'[done[i]] == phases[done[i]]
    ensures ResultsAreSerial(w, jobs, keep, phases', done)
  {
  }

  lemma OneMoreResult(w: World, jobs: seq<Job>, keep: nat, phases: seq<Phase>, done: seq<nat>, t: nat)
    requires ValidJobs(jobs) && t < |jobs| && InRange(done + [t], |jobs|) && InRange(done, |jobs|) && |phases| == |jobs|
    requires ResultsAreSerial(w, jobs, keep, phases, done)
    requires phases[t] == Finished(Ran(Serial(w, jobs, keep, done), jobs[t].req, jobs[t].script, keep).1)
    ensures ResultsAreSerial(w, jobs, keep, phases, done + [t])
  {
    forall i | 0 <= i < |done + [t]|
      ensures (done + [t])[..i] == if i < |done| then done[..i] else done
    {
    }
  }

  lemma StepNeverWaits(w: World, job: Job, phase: Phase, keep: nat)
    requires job.script.Valid() && !phase.Waiting? && !phase.Finished?
    ensures Step(w, job, phase, keep).1 != phase && !Step(w, job, phase, keep).1.Waiting?
  {
  }

  lemma MovingKeepsResults(w: World, jobs: seq<Job>, keep: nat, sys: System, t: nat, w': World, phase: Phase)
    requires ValidJobs(jobs) && Bookkept(sys, |jobs|) && ResultsAreSerial(w, jobs, keep, sys.phases, Completed(sys))
    requires sys.holder == Some(t) && !phase.Waiting?
    requires phase.Finished? ==>
               phase == Finished(Ran(Serial(w, jobs, keep, Completed(sys)), jobs[t].req, jobs[t].script, keep).1)
    ensures
      var sys' := Moved(sys, t, w', phase);
      && |sys'.phases| == |jobs| && InRange(Completed(sys'), |jobs|)
      && ResultsAreSerial(w, jobs, keep, sys'.phases, Completed(sys'))
  {
    var done, sys' := Completed(sys), Moved(sys, t, w', phase);
    MovingIsBookkept(sys, |jobs|, t, w', phase);
    ResultsStay(w, jobs, keep, sys.phases, sys'.phases, done);
    if phase.Finished? {
      OneMoreResult(w, jobs, keep, sys'.phases, done, t);
    }
  }

  lemma MovingKeepsConsistent(w: World, jobs: seq<Job>, keep: nat, sys: System, t: nat, base: World, w': World,
                              phase: Phase)
    requires ValidJobs(jobs) && Consistent(w, jobs, keep, sys)
    requires sys.holder == Some(t) && !phase.Waiting?
    requires base == Serial(w, jobs, keep, Completed(sys))
    requires StandsAt(base, w', jobs[t], phase, keep)
    ensures Consistent(w, jobs, keep, Moved(sys, t, w', phase))
  {
    MovingKeepsResults(w, jobs, keep, sys, t, w', phase);
    MovingIsBookkept(sys, |jobs|, t, w', phase);
    MovingStands(w, jobs, keep, sys, t, base, w', phase);
  }

  lemma TurnKeepsConsistent(w: World, jobs: seq<Job>, keep: nat, sys: System, t: nat)
    requires ValidJobs(jobs) && Consistent(w, jobs, keep, sys)
    ensures Consistent(w, jobs, keep, Turn(sys, jobs, keep, t))
  {
    if t < |jobs| {
      if sys.phases[t].Waiting? {
        if sys.holder.None? {
          TakingKeepsConsistent(w, jobs, keep, sys, t);
        }
      } else if sys.holder == Some(t) {
        var base := Serial(w, jobs, keep, Completed(sys));
        var (w', phase') := Step(sys.world, jobs[t], sys.phases[t], keep);
        StepNeverWaits(sys.world, jobs[t], sys.phases[t], keep);
        StepKeepsStanding(base, sys.world, jobs[t], sys.phases[t], keep);
        MovingKeepsConsistent(w, jobs, keep, sys, t, base, w', phase');
      } else {
        IdleWithoutMutex(sys, |jobs|, t);
      }
    }
  }

  lemma {:induction false} EveryScheduleIsConsistent(w: World, jobs: seq<Job>, keep: nat, schedule: seq<nat>)
    requires ValidJobs(jobs)
    ensures Consistent(w, jobs, keep, AfterTurns(w, jobs, keep, schedule))
  {
    if schedule != [] {
      var before, t := schedule[..|schedule| - 1], schedule[|schedule| - 1];
      EveryScheduleIsConsistent(w, jobs, keep, before);
      TurnKeepsConsistent(w, jobs, keep, AfterTurns(w, jobs, keep, before), t);
    }
  }

  // ----------------------------------------------------------------------- main results

  /** Serialisability: whatever the schedule, once nobody holds the mutex the world and
      every result are those of running the requests one after another in lock order. */
  lemma InterleavingsAreSerial(w: World, jobs: seq<Job>, keep: nat, schedule: seq<nat>)
    requires ValidJobs(jobs)
    requires AfterTurns(w, jobs, keep, schedule).holder.None?
    ensures
      var sys := AfterTurns(w, jobs, keep, schedule);
      && |sys.phases| == |jobs| && InRange(sys.order, |jobs|)
      && sys.world == Serial(w, jobs, keep, sys.order)
      && ResultsAreSerial(w, jobs, keep, sys.phases, sys.order)
      && (forall t :: 0 <= t < |jobs| ==> (t in sys.order <==> sys.phases[t].Finished?))
  {
    EveryScheduleIsConsistent(w, jobs, keep, schedule);
    var sys := AfterTurns(w, jobs, keep, schedule);
    forall t | 0 <= t < |jobs|
      ensures t in sys.order <==> sys.phases[t].Finished?
    {
      if t in sys.order {
        var i :| 0 <= i < |sys.order| && sys.order[i] == t;
      }
    }
  }

  /** What an unlocked reader may find under an overlay name, mid-run. */
  ghost predicate WholeOverlay(base: World, w: World, job: Job, keep: nat, n: string)
    requires job.script.Valid()
  {
    || Get(w.managed, n) == Get(base.managed, n)
    || (n == job.req.Target() && Intended(base, job.req, job.script, keep).Ready? &&
        Get(w.managed, n) == Some(Intended(base, job.req, job.script, keep).bytes))
  }

  /** The overlay has been written, and may still be put back. */
  predicate Exposed(phase: Phase) {
    phase.ToLoad? || phase.ToRestore? || phase.ToRefill? || phase.ToRerename?
  }

  lemma StandingShows(base: World, w: World, job: Job, phase: Phase, keep: nat, n: string)
    requires job.script.Valid() && IsConf(n) && !phase.Finished?
    requires StandsAt(base, w, job, phase, keep)
    ensures
      if Exposed(phase) && n == job.req.Target() then
        var intended := Intended(base, job.req, job.script, keep);
        intended.Ready? && Get(w.managed, n) == Some(intended.bytes)
      else Get(w.managed, n) == Get(base.managed, n)
  {
    TempIsNotConf(job.req.Target(), job.script.write.nonce);
    TempIsNotConf(job.req.Target(), job.script.rewrite.nonce);
  }

  /** A reader without the lock sees, at every step of every schedule, each overlay either
      as the completed requests left it or with the whole new bytes of the running one. */
  lemma ReadersSeeWholeOverlays(w: World, jobs: seq<Job>, keep: nat, schedule: seq<nat>, n: string)
    requires ValidJobs(jobs) && IsConf(n)
    ensures
      var sys := AfterTurns(w, jobs, keep, schedule);
      && InRange(Completed(sys), |jobs|)
      && var base := Serial(w, jobs, keep, Completed(sys));
         match sys.holder
         case None => Get(sys.world.managed, n) == Get(base.managed, n)
         case Some(h) => h < |jobs| && WholeOverlay(base, sys.world, jobs[h], keep, n)
  {
    EveryScheduleIsConsistent(w, jobs, keep, schedule);
    var sys := AfterTurns(w, jobs, keep, schedule);
    if sys.holder.Some? {
      var h := sys.holder.value;
      StandingShows(Serial(w, jobs, keep, Completed(sys)), sys.world, jobs[h], sys.phases[h], keep, n);
    }
  }

  /** No lock gets stuck: while a request is unfinished, some request can move. */
  lemma NoDeadlock(w: World, jobs: seq<Job>, keep: nat, schedule: seq<nat>, t: nat)
    requires ValidJobs(jobs) && t < |jobs|
    requires |AfterTurns(w, jobs, keep, schedule).phases| == |jobs|
    requires !AfterTurns(w, jobs, keep, schedule).phases[t].Finished?
    ensures
      var sys := AfterTurns(w, jobs, keep, schedule);
      exists u :: 0 <= u < |jobs| && Turn(sys, jobs, keep, u) != sys
  {
    EveryScheduleIsConsistent(w, jobs, keep, schedule);
    SomeoneCanMove(AfterTurns(w, jobs, keep, schedule), jobs, keep, t);
  }

  lemma SomeoneCanMove(sys: System, jobs: seq<Job>, keep: nat, t: nat)
    requires ValidJobs(jobs) && Bookkept(sys, |jobs|)
    requires t < |jobs| && !sys.phases[t].Finished?
    ensures exists u :: 0 <= u < |jobs| && Turn(sys, jobs, keep, u) != sys
  {
    match sys.holder {
      case Some(h) =>
        assert h in sys.order;
        StepNeverWaits(sys.world, jobs[h], sys.phases[h], keep);
        assert Turn(sys, jobs, keep, h).phases[h] != sys.phases[h];
      case None =>
        IdleWithoutMutex(sys, |jobs|, t);
        assert Turn(sys, jobs, keep, t).phases[t] == ToRead;
    }
  }
}
