/** Changes at once: every schedule of unlocked reads and locked runs on one overlay is one of
    the histories of `AddHistories`, whatever kind of list the overlay holds. */
module ConcurrentAdds {
  import opened Text
  import opened Naming
  import opened Files
  import opened Chain
  import opened Interleaving
  import opened AddHistories
  import opened UnlockedReads

  /** A list kept in an overlay: how it is parsed, what adding an entry makes of it, which
      entry stands for putting a whole new list, if one does, and which lists can be added to. */
  datatype Form<!L, !X> =
    Form(file: string, parse: Option<Bytes> -> L, add: (L, X) -> L, put: L -> Option<X>, ready: L -> bool)

  /** A request that adds an entry to the list it reads; one that replaces the list, by another
      or by that of a snapshot; or one with another overlay. */
  datatype Task<X> = Add(client: Client, x: X) | Replace(client: Client) | Elsewhere(client: Client)

  /** The request rewrites the overlay, with what parses to one entry more. */
  ghost predicate AddsEntry<L(!new), X>(form: Form<L, X>, x: X, content: Option<Bytes>, req: Request) {
    && req.Change? && req.Target() == form.file && form.ready(form.parse(content))
    && (req.generated.Some? ==> form.parse(req.generated) == form.add(form.parse(content), x))
  }

  /** An entry that, added to any list, makes it `list`. */
  ghost predicate Puts<L(!new), X>(form: Form<L, X>, list: L) {
    form.put(list).Some? && forall before :: form.add(before, form.put(list).value) == list
  }

  ghost predicate Fits<L(!new), X>(form: Form<L, X>, task: Task<X>) {
    var c := task.client;
    && c.script.Valid() && IsConf(c.file)
    && match task
       case Add(_, x) =>
         c.file == form.file &&
         forall content :: c.prepare(content).Some? ==> AddsEntry(form, x, content, c.prepare(content).value)
       case Replace(_) =>
         && (forall list :: Puts(form, list))
         && (forall content :: c.prepare(content).Some? ==> c.prepare(content).value.Target() == form.file)
       case Elsewhere(_) =>
         forall content :: c.prepare(content).Some? ==> c.prepare(content).value.Target() != form.file
  }

  ghost predicate AllFit<L(!new), X>(form: Form<L, X>, tasks: seq<Task<X>>) {
    IsConf(form.file) && forall t :: 0 <= t < |tasks| ==> Fits(form, tasks[t])
  }

  function ClientsOf<X>(tasks: seq<Task<X>>): (clients: seq<Client>)
    ensures |clients| == |tasks|
    ensures forall t :: 0 <= t < |tasks| ==> clients[t] == tasks[t].client
  {
    seq(|tasks|, t requires 0 <= t < |tasks| => tasks[t].client)
  }

  lemma ClientsAreValid<L(!new), X>(form: Form<L, X>, tasks: seq<Task<X>>)
    requires AllFit(form, tasks)
    ensures ValidClients(ClientsOf(tasks))
  {
  }

  // -------------------------------------------------------------- what has happened

  /** The requests, the world in which they began, what each has read and where it stands,
      and which are done, in lock order. */
  datatype Trace<X> = Trace(tasks: seq<Task<X>>, start: World, keep: nat, jobs: seq<Job>, looks: seq<Look>,
                            phases: seq<Phase>, done: seq<nat>)
  {
    ghost predicate Valid() {
      |looks| == |phases| == |tasks| == |jobs| && ValidJobs(jobs) && InRange(done, |tasks|)
    }

    /** The world after the first `n` runs. */
    ghost function WorldAfter(n: nat): World
      requires Valid() && n <= |done|
    {
      Serial(start, jobs, keep, done[..n])
    }

    ghost function BytesOf(j: nat): Content
      requires Valid() && j < |done|
    {
      Intended(WorldAfter(j), jobs[done[j]].req, jobs[done[j]].script, keep)
    }
  }

  /** The facts about the `j`-th run done: its request read and prepared, and ran in its turn. */
  ghost predicate Followed<X>(tr: Trace<X>, j: nat)
    requires tr.Valid() && j < |tr.done|
  {
    var t := tr.done[j];
    var job := tr.jobs[t];
    && job == JobOf(tr.tasks[t].client, tr.looks[t])
    && TrueLook(tr.start, tr.jobs, tr.keep, tr.done, tr.tasks[t].client, t, tr.looks[t])
    && tr.phases[t] == Finished(Ran(tr.WorldAfter(j), job.req, job.script, tr.keep).1)
  }

  ghost predicate AllFollowed<X>(tr: Trace<X>) {
    tr.Valid() && forall j :: 0 <= j < |tr.done| ==> Followed(tr, j)
  }

  /** The new list stays: the run succeeded, or its restore failed. */
  predicate Stays(phase: Phase) {
    phase == Finished(Done) || phase == Finished(Failed(Restoring))
  }

  /** The `j`-th run as a line of the log. A replacement goes by the list that it puts, and by
      no list read. */
  ghost function EntryOf<L(!new), X>(form: Form<L, X>, tr: Trace<X>, j: nat): Run<X>
    requires tr.Valid() && j < |tr.done|
  {
    var task, look, stays := tr.tasks[tr.done[j]], tr.looks[tr.done[j]], Stays(tr.phases[tr.done[j]]);
    if task.Add? && look.Looked? then Run(task.x, look.at, stays)
    else if task.Replace? && tr.BytesOf(j).Ready? then
      match form.put(form.parse(Some(tr.BytesOf(j).bytes)))
      case Some(x) => Run(x, Stored(j), stays)
      case None => Other
    else Other
  }

  ghost function LogOf<L(!new), X>(form: Form<L, X>, tr: Trace<X>): (log: seq<Run<X>>)
    requires tr.Valid()
    ensures |log| == |tr.done|
    ensures forall j :: 0 <= j < |log| ==> log[j] == EntryOf(form, tr, j)
  {
    seq(|tr.done|, j requires 0 <= j < |tr.done| => EntryOf(form, tr, j))
  }

  /** The list stored after the first `n` runs. */
  ghost function ListAfter<L(!new), X>(form: Form<L, X>, tr: Trace<X>, n: nat): L
    requires tr.Valid() && n <= |tr.done|
  {
    form.parse(Get(tr.WorldAfter(n).managed, form.file))
  }

  /** The list that the `j`-th run builds on. */
  ghost function ListSeenBy<L(!new), X>(form: Form<L, X>, tr: Trace<X>, j: nat): L
    requires tr.Valid() && j < |tr.done|
  {
    var look := tr.looks[tr.done[j]];
    if tr.tasks[tr.done[j]].Add? && look.Looked? then form.parse(look.content) else ListAfter(form, tr, j)
  }

  // ------------------------------------------------------------- one run, one list

  /** What one run makes of the overlay. */
  lemma RunOnList<L(!new), X>(form: Form<L, X>, task: Task<X>, base: World, keep: nat, look: Look)
    requires Fits(form, task) && IsConf(form.file) && Prepared(task.client, look)
    ensures
      var job := JobOf(task.client, look);
      var (w', result) := Ran(base, job.req, job.script, keep);
      var intended := Intended(base, job.req, job.script, keep);
      && (job.req.Target() == form.file <==> !task.Elsewhere?)
      && (task.Add? && intended.Ready? ==>
            form.parse(Some(intended.bytes)) == form.add(form.parse(look.content), task.x))
      && (Stays(Finished(result)) ==> intended.Ready?)
      && form.parse(Get(w'.managed, form.file)) ==
         if !task.Elsewhere? && Stays(Finished(result)) then form.parse(Some(BytesIn(intended)))
         else form.parse(Get(base.managed, form.file))
  {
    var job := JobOf(task.client, look);
    OverlayAfterRun(base, job, keep, form.file);
    if task.Add? {
      assert AddsEntry(form, task.x, look.content, job.req);
    }
  }

  function BytesIn(c: Content): Bytes {
    match c case Ready(bytes) => bytes case Unavailable(_) => ""
  }

  lemma OverlayAfterRun(base: World, job: Job, keep: nat, file: string)
    requires job.script.Valid() && IsConf(file)
    ensures
      var (w', result) := Ran(base, job.req, job.script, keep);
      var intended := Intended(base, job.req, job.script, keep);
      && (Stays(Finished(result)) ==> intended.Ready?)
      && Get(w'.managed, file) ==
         if job.req.Target() == file && Stays(Finished(result)) then Some(BytesIn(intended))
             else Get(base.managed, file)
  {
    var w' := Ran(base, job.req, job.script, keep).0;
    RunIsAllOrNothing(base, job.req, job.script, keep);
    assert Get(Overlays(w'.managed), file) == Get(w'.managed, file);
    assert Get(Overlays(base.managed), file) == Get(base.managed, file);
  }

  /** What a run writes is what it builds on with its own entry. */
  lemma WrittenIsAdded<L(!new), X>(form: Form<L, X>, tr: Trace<X>, j: nat)
    requires AllFit(form, tr.tasks) && tr.Valid() && j < |tr.done| && Followed(tr, j)
    requires !tr.tasks[tr.done[j]].Elsewhere? && tr.BytesOf(j).Ready?
    ensures EntryOf(form, tr, j).Run?
    ensures form.parse(Some(tr.BytesOf(j).bytes)) == form.add(ListSeenBy(form, tr, j), EntryOf(form, tr, j).x)
  {
    var t := tr.done[j];
    assert Fits(form, tr.tasks[t]);
    RunOnList(form, tr.tasks[t], tr.WorldAfter(j), tr.keep, tr.looks[t]);
    if tr.tasks[t].Replace? {
      assert Puts(form, form.parse(Some(tr.BytesOf(j).bytes)));
    }
  }

  lemma ListStep<L(!new), X>(form: Form<L, X>, tr: Trace<X>, j: nat)
    requires AllFit(form, tr.tasks) && tr.Valid() && j < |tr.done| && Followed(tr, j)
    ensures
      var run := EntryOf(form, tr, j);
      ListAfter(form, tr, j + 1) ==
      if run.Lands() then form.add(ListSeenBy(form, tr, j), run.x) else ListAfter(form, tr, j)
  {
    var t := tr.done[j];
    SerialSnoc(tr.start, tr.jobs, tr.keep, tr.done[..j + 1]);
    assert tr.done[..j + 1][..j] == tr.done[..j];
    assert Fits(form, tr.tasks[t]);
    RunOnList(form, tr.tasks[t], tr.WorldAfter(j), tr.keep, tr.looks[t]);
    if !tr.tasks[t].Elsewhere? && tr.BytesOf(j).Ready? {
      WrittenIsAdded(form, tr, j);
    }
  }

  /** What a run builds on is a list stored earlier in lock order, or one written and not yet judged. */
  lemma ReadStep<L(!new), X>(form: Form<L, X>, tr: Trace<X>, j: nat)
    requires AllFit(form, tr.tasks) && AllFollowed(tr) && j < |tr.done|
    requires EntryOf(form, tr, j).Run?
    ensures
      match EntryOf(form, tr, j).read
      case Stored(n) => n <= j && ListSeenBy(form, tr, j) == ListAfter(form, tr, n)
      case Unjudged(n) =>
        && n < j && EntryOf(form, tr, n).Run?
        && ListSeenBy(form, tr, j) == form.add(ListSeenBy(form, tr, n), EntryOf(form, tr, n).x)
  {
    var look := tr.looks[tr.done[j]];
    assert Followed(tr, j) && Fits(form, tr.tasks[tr.done[j]]);
    if tr.tasks[tr.done[j]].Add? && look.at.Unjudged? {
      var n := look.at.n;
      assert Followed(tr, n) && Fits(form, tr.tasks[tr.done[n]]);
      RunOnList(form, tr.tasks[tr.done[n]], tr.WorldAfter(n), tr.keep, tr.looks[tr.done[n]]);
      WrittenIsAdded(form, tr, n);
    }
  }

  // ------------------------------------------------------------- all runs, all lists

  /** All the lists stored, from the first one on. */
  ghost function ListsOf<L(!new), X>(form: Form<L, X>, tr: Trace<X>): (lists: seq<L>)
    requires tr.Valid()
    ensures |lists| == |tr.done| + 1
    ensures forall n :: 0 <= n <= |tr.done| ==> lists[n] == ListAfter(form, tr, n)
  {
    seq(|tr.done| + 1, n requires 0 <= n <= |tr.done| => ListAfter(form, tr, n))
  }

  ghost function SeenOf<L(!new), X>(form: Form<L, X>, tr: Trace<X>): (seen: seq<L>)
    requires tr.Valid()
    ensures |seen| == |tr.done|
    ensures forall j :: 0 <= j < |tr.done| ==> seen[j] == ListSeenBy(form, tr, j)
  {
    seq(|tr.done|, j requires 0 <= j < |tr.done| => ListSeenBy(form, tr, j))
  }

  lemma LogIsCausal<L(!new), X>(form: Form<L, X>, tr: Trace<X>)
    requires AllFit(form, tr.tasks) && AllFollowed(tr)
    ensures Causal(LogOf(form, tr))
  {
    var log := LogOf(form, tr);
    forall j | 0 <= j < |log| && log[j].Run?
      ensures match log[j].read case Stored(n) => n <= j case Unjudged(n) => n < j && log[n].Run?
    {
      ReadStep(form, tr, j);
    }
  }

  lemma SeenFollowsLog<L(!new), X>(form: Form<L, X>, tr: Trace<X>)
    requires AllFit(form, tr.tasks) && AllFollowed(tr) && Causal(LogOf(form, tr))
    ensures
      var log, lists, seen := LogOf(form, tr), ListsOf(form, tr), SeenOf(form, tr);
      forall j :: 0 <= j < |log| && log[j].Run? ==> seen[j] == ListRead(form.add, log, lists, seen, j)
  {
    var log, lists, seen := LogOf(form, tr), ListsOf(form, tr), SeenOf(form, tr);
    forall j | 0 <= j < |log| && log[j].Run?
      ensures seen[j] == ListRead(form.add, log, lists, seen, j)
    {
      ReadStep(form, tr, j);
    }
  }

  lemma ListsFollowRuns<L(!new), X>(form: Form<L, X>, tr: Trace<X>)
    requires AllFit(form, tr.tasks) && AllFollowed(tr)
    ensures
      var log, lists, seen := LogOf(form, tr), ListsOf(form, tr), SeenOf(form, tr);
      forall j :: 0 <= j < |log| ==> lists[j + 1] == if log[j].Lands() then form.add(seen[j], log[j].x) else lists[j]
  {
    var log, lists, seen := LogOf(form, tr), ListsOf(form, tr), SeenOf(form, tr);
    forall j | 0 <= j < |log|
      ensures lists[j + 1] == if log[j].Lands() then form.add(seen[j], log[j].x) else lists[j]
    {
      ListStep(form, tr, j);
    }
  }

  lemma ListsFollowLog<L(!new), X>(form: Form<L, X>, tr: Trace<X>)
    requires AllFit(form, tr.tasks) && AllFollowed(tr)
    ensures Matches(form.add, LogOf(form, tr), ListsOf(form, tr), SeenOf(form, tr))
  {
    LogIsCausal(form, tr);
    SeenFollowsLog(form, tr);
    ListsFollowRuns(form, tr);
  }

  // ----------------------------------------------------------------- every schedule

  lemma ShorterTrueLook(w: World, jobs: seq<Job>, keep: nat, order: seq<nat>, k: nat, c: Client, t: nat, look: Look)
    requires ValidJobs(jobs) && InRange(order, |jobs|) && k <= |order| && InRange(order[..k], |jobs|)
    requires t in order[..k]
    requires TrueLook(w, jobs, keep, order, c, t, look)
    ensures TrueLook(w, jobs, keep, order[..k], c, t, look)
  {
    var i :| 0 <= i < k && order[i] == t;
    assert order[..k][..look.at.n] == order[..look.at.n];
  }

  /** What a schedule has come to. */
  ghost function TraceOf<X>(tasks: seq<Task<X>>, w: World, keep: nat, schedule: seq<nat>): Trace<X>
    requires ValidClients(ClientsOf(tasks))
  {
    var desk := AfterDeskTurns(w, ClientsOf(tasks), keep, schedule);
    Trace(tasks, w, keep, JobsOf(ClientsOf(tasks), desk.looks), desk.looks, desk.system.phases, Completed(desk.system))
  }

  lemma ScheduleIsFollowed<X>(tasks: seq<Task<X>>, w: World, keep: nat, schedule: seq<nat>)
    requires ValidClients(ClientsOf(tasks))
    ensures AllFollowed(TraceOf(tasks, w, keep, schedule))
  {
    var clients, tr := ClientsOf(tasks), TraceOf(tasks, w, keep, schedule);
    EveryDeskIsKept(w, clients, keep, schedule);
    var sys := AfterDeskTurns(w, clients, keep, schedule).system;
    CompletedIsPrefix(sys, |clients|);
    forall j | 0 <= j < |tr.done|
      ensures Followed(tr, j)
    {
      var t := tr.done[j];
      assert sys.phases[t].Finished? && clients[t] == tasks[t].client;
      ShorterTrueLook(w, tr.jobs, keep, sys.order, |tr.done|, clients[t], t, tr.looks[t]);
    }
  }

  /** The lists that a schedule stores, run by run, and the log of the runs. */
  ghost function Outcome<L(!new), X>(form: Form<L, X>, tasks: seq<Task<X>>, w: World, keep: nat, schedule: seq<nat>)
    : (outcome: (seq<L>, seq<Run<X>>))
    requires AllFit(form, tasks)
    ensures Causal(outcome.1) && |outcome.0| == |outcome.1| + 1
    ensures outcome.0[0] == form.parse(Get(w.managed, form.file))
  {
    ClientsAreValid(form, tasks);
    ScheduleIsFollowed(tasks, w, keep, schedule);
    var tr := TraceOf(tasks, w, keep, schedule);
    LogIsCausal(form, tr);
    assert tr.done[..0] == [];
    (ListsOf(form, tr), LogOf(form, tr))
  }

  /** Run `j` is the request's: an add of its entry to a list that could be added to, or a replacement. */
  ghost predicate LoggedAs<L, X>(form: Form<L, X>, task: Task<X>, start: L, log: seq<Run<X>>, j: nat)
    requires Causal(log) && j < |log| && log[j].Run?
  {
    match task
    case Add(_, x) => x == log[j].x && form.ready(ReadBy(form.add, start, log, j))
    case Replace(_) => true
    case Elsewhere(_) => false
  }

  /** The outcome follows its log, and every add had read a list that could be added to. */
  lemma OutcomeFollowsLog<L(!new), X>(form: Form<L, X>, tasks: seq<Task<X>>, w: World, keep: nat, schedule: seq<nat>)
    requires AllFit(form, tasks)
    ensures
      var (lists, log) := Outcome(form, tasks, w, keep, schedule);
      && (forall n :: 0 <= n < |lists| ==> lists[n] == StoredAfter(form.add, lists[0], log, n))
      && (forall j :: 0 <= j < |log| && log[j].Run? ==>
                        exists task :: task in tasks && LoggedAs(form, task, lists[0], log, j))
  {
    ClientsAreValid(form, tasks);
    ScheduleIsFollowed(tasks, w, keep, schedule);
    var tr := TraceOf(tasks, w, keep, schedule);
    ListsFollowLog(form, tr);
    var log, lists, seen := LogOf(form, tr), ListsOf(form, tr), SeenOf(form, tr);
    AllListsAreStored(form.add, log, lists, seen);
    forall j | 0 <= j < |log| && log[j].Run?
      ensures tasks[tr.done[j]] in tasks && LoggedAs(form, tasks[tr.done[j]], lists[0], log, j)
    {
      assert Followed(tr, j) && Fits(form, tasks[tr.done[j]]);
    }
  }

  /** The last list is the one on disk once nobody holds the mutex. */
  lemma OutcomeIsOnDisk<L(!new), X>(form: Form<L, X>, tasks: seq<Task<X>>, w: World, keep: nat, schedule: seq<nat>)
    requires AllFit(form, tasks) && ValidClients(ClientsOf(tasks))
    requires AfterDeskTurns(w, ClientsOf(tasks), keep, schedule).system.holder.None?
    ensures
      var (lists, log) := Outcome(form, tasks, w, keep, schedule);
      lists[|log|] == form.parse(Get(AfterDeskTurns(w, ClientsOf(tasks), keep, schedule).system.world.managed,
                                     form.file))
  {
    EveryDeskIsKept(w, ClientsOf(tasks), keep, schedule);
    var done := Completed(AfterDeskTurns(w, ClientsOf(tasks), keep, schedule).system);
    assert done[..|done|] == done;
  }

  /** For every schedule of adds and replacements: the list stored after each run is what the
      landed ones, one after another, make of the first list, if and only if every landed one
      was up to date. */
  lemma AddsAreSequentialIff<L(!new), X>(form: Form<L, X>, tasks: seq<Task<X>>, w: World, keep: nat, schedule: seq<nat>)
    requires AllFit(form, tasks)
    ensures
      var (lists, log) := Outcome(form, tasks, w, keep, schedule);
      (forall n :: 0 <= n < |lists| ==> lists[n] == Accumulated(form.add, lists[0], log, n)) <==>
      (forall j :: 0 <= j < |log| && log[j].Lands() ==> UpToDate(form.add, lists[0], log, j))
  {
    var (lists, log) := Outcome(form, tasks, w, keep, schedule);
    OutcomeFollowsLog(form, tasks, w, keep, schedule);
    ListsAreAccumulatedIff(form.add, log, lists);
  }

  // ------------------------------------------------------- adds and replacements together

  /** One entry more, or a whole new list. */
  datatype Edit<L, E> = Plus(entry: E) | Put(list: L)

  function Edited<L, E>(add: (L, E) -> L): (L, Edit<L, E>) -> L {
    (list: L, edit: Edit<L, E>) => match edit case Plus(e) => add(list, e) case Put(whole) => whole
  }

  function EditsOf<L, E>(form: Form<L, E>): Form<L, Edit<L, E>> {
    Form(form.file, form.parse, Edited(form.add), list => Some(Put(list)), form.ready)
  }

  /** The same request among edits. */
  function EditTask<L, E>(task: Task<E>): Task<Edit<L, E>> {
    match task
    case Add(c, e) => Add(c, Plus(e))
    case Replace(c) => Replace(c)
    case Elsewhere(c) => Elsewhere(c)
  }

  lemma EditFits<L(!new), E>(form: Form<L, E>, task: Task<E>)
    requires Fits(form, task)
    ensures Fits(EditsOf(form), EditTask(task))
  {
    var edits := EditsOf(form);
    if task.Add? {
      forall content | task.client.prepare(content).Some?
        ensures AddsEntry(edits, Plus(task.x), content, task.client.prepare(content).value)
      {
        assert AddsEntry(form, task.x, content, task.client.prepare(content).value);
      }
    }
    forall list
      ensures Puts(edits, list)
    {
    }
  }

  function Replacement<L, E>(form: Form<L, E>, c: Client): Task<Edit<L, E>> {
    Replace(c)
  }

  /** Any request that ends in a run on the overlay, a rollback too, replaces its list. */
  lemma ReplacementFits<L(!new), E>(form: Form<L, E>, c: Client)
    requires c.script.Valid() && IsConf(c.file)
    requires forall content :: c.prepare(content).Some? ==> c.prepare(content).value.Target() == form.file
    ensures Fits(EditsOf(form), Replacement(form, c))
  {
    forall list
      ensures Puts(EditsOf(form), list)
    {
    }
  }

  /** A replacement needs no list that it has read. An add is up to date if what the landed
      edits have made of the list that it goes back to, and what it had read, take its entry
      to the same list. */
  ghost predicate EditUpToDate<L(!new), E>(form: Form<L, E>, lists: seq<L>, log: seq<Run<Edit<L, E>>>, j: nat)
    requires Causal(log) && |lists| == |log| + 1 && j < |log| && log[j].Run?
  {
    var list, edit := lists[Basis(log, j)], Edited(form.add);
    match log[j].x
    case Put(_) => true
    case Plus(e) =>
      form.add(Fold(edit, list, Landed(log, Basis(log, j), j)), e) == form.add(Fold(edit, list, Ghosts(log, j)), e)
  }

  lemma EditUpToDateIff<L(!new), E>(form: Form<L, E>, lists: seq<L>, log: seq<Run<Edit<L, E>>>, j: nat)
    requires Causal(log) && |lists| == |log| + 1 && j < |log| && log[j].Run?
    requires lists[Basis(log, j)] == StoredAfter(Edited(form.add), lists[0], log, Basis(log, j))
    ensures UpToDate(Edited(form.add), lists[0], log, j) <==> EditUpToDate(form, lists, log, j)
  {
    var list, edit := lists[Basis(log, j)], Edited(form.add);
    FoldSnoc(edit, list, Landed(log, Basis(log, j), j), log[j].x);
    FoldSnoc(edit, list, Ghosts(log, j), log[j].x);
  }

  /** For every schedule of adds to a list, of requests that replace it or roll it back, and of
      requests on other overlays: after every run the list is what the landed edits, one after
      another in lock order, make of the first, if and only if every landed add was up to date. */
  lemma EditsAreSequentialIff<L(!new), E>(form: Form<L, E>, tasks: seq<Task<Edit<L, E>>>, w: World, keep: nat,
                                          schedule: seq<nat>)
    requires AllFit(EditsOf(form), tasks)
    ensures
      var (lists, log) := Outcome(EditsOf(form), tasks, w, keep, schedule);
      (forall n :: 0 <= n < |lists| ==> lists[n] == Accumulated(Edited(form.add), lists[0], log, n)) <==>
      (forall j :: 0 <= j < |log| && log[j].Lands() ==> EditUpToDate(form, lists, log, j))
  {
    var (lists, log) := Outcome(EditsOf(form), tasks, w, keep, schedule);
    AddsAreSequentialIff(EditsOf(form), tasks, w, keep, schedule);
    OutcomeFollowsLog(EditsOf(form), tasks, w, keep, schedule);
    forall j | 0 <= j < |log| && log[j].Lands()
      ensures UpToDate(Edited(form.add), lists[0], log, j) <==> EditUpToDate(form, lists, log, j)
    {
      EditUpToDateIff(form, lists, log, j);
    }
  }
}
