/** Requests that first read an overlay without the mutex and then ask for a run that
    depends on what they read (internal/ui/forms.go, internal/ui/overlay.go), any number of
    them at once, their reads falling anywhere between the operations of the runs. */
module UnlockedReads {
  import opened Text
  import opened Naming
  import opened Files
  import opened Chain
  import opened Interleaving
  import opened AddHistories

  /** `prepare` makes the run's request from the content read, or refuses. */
  datatype Client = Client(file: string, readFails: bool, prepare: Option<Bytes> -> Option<Request>, script: Script)

  /** What a client has read, and which of the lists stored so far that was. */
  datatype Look = Pending | Refused | Looked(content: Option<Bytes>, at: Read)

  /** The runs, and beside them the reads. */
  datatype Desk = Desk(system: System, looks: seq<Look>)

  ghost predicate ValidClients(clients: seq<Client>) {
    forall t :: 0 <= t < |clients| ==> clients[t].script.Valid() && IsConf(clients[t].file)
  }

  predicate Prepared(c: Client, look: Look) {
    look.Looked? && c.prepare(look.content).Some?
  }

  /** The run of a client; before the client has read, and takes the mutex, any will do. */
  function JobOf(c: Client, look: Look): Job {
    if Prepared(c, look) then Job(c.prepare(look.content).value, c.script) else Job(Change(WAF, "", None), c.script)
  }

  function JobsOf(clients: seq<Client>, looks: seq<Look>): (jobs: seq<Job>)
    requires |looks| == |clients|
    ensures |jobs| == |clients|
    ensures forall t :: 0 <= t < |clients| ==> jobs[t] == JobOf(clients[t], looks[t])
  {
    seq(|clients|, t requires 0 <= t < |clients| == |looks| => JobOf(clients[t], looks[t]))
  }

  lemma JobsAreValid(clients: seq<Client>, looks: seq<Look>)
    requires ValidClients(clients) && |looks| == |clients|
    ensures ValidJobs(JobsOf(clients, looks))
  {
  }

  /** Which list a read of `file` finds: the one that the completed runs left, or the one
      that the running request has written. */
  function PlaceOf(sys: System, jobs: seq<Job>, file: string): Read {
    if sys.holder.Some? && sys.holder.value < |jobs| && sys.holder.value < |sys.phases| &&
       Exposed(sys.phases[sys.holder.value]) && jobs[sys.holder.value].req.Target() == file
    then Unjudged(|Completed(sys)|)
    else Stored(|Completed(sys)|)
  }

  function LookNow(sys: System, jobs: seq<Job>, c: Client): Look {
    var content := Get(sys.world.managed, c.file);
    if c.readFails || c.prepare(content).None? then Refused else Looked(content, PlaceOf(sys, jobs, c.file))
  }

  /** Client `t` gets the processor: it reads, or goes on with its run. */
  ghost function DeskTurn(desk: Desk, clients: seq<Client>, keep: nat, t: nat): (after: Desk)
    requires ValidClients(clients) && |desk.looks| == |clients|
    ensures |after.looks| == |clients|
  {
    JobsAreValid(clients, desk.looks);
    var jobs := JobsOf(clients, desk.looks);
    if t >= |clients| then desk
    else
      match desk.looks[t]
      case Pending => desk.(looks := desk.looks[t := LookNow(desk.system, jobs, clients[t])])
      case Refused => desk
      case Looked(_, _) => desk.(system := Turn(desk.system, jobs, keep, t))
  }

  ghost function AfterDeskTurns(w: World, clients: seq<Client>, keep: nat, schedule: seq<nat>): (desk: Desk)
    requires ValidClients(clients)
    ensures |desk.looks| == |clients|
  {
    if schedule == [] then Desk(Initial(w, |clients|), seq(|clients|, _ => Pending))
    else DeskTurn(AfterDeskTurns(w, clients, keep, schedule[..|schedule| - 1]), clients, keep, schedule[|schedule| - 1])
  }

  // ------------------------------------------------------------------- the invariant

  /** `content` is what was stored in `file` at that place of the lock order. */
  ghost predicate TrueRead(w: World, jobs: seq<Job>, keep: nat, order: seq<nat>, file: string, content: Option<Bytes>,
                           at: Read)
    requires ValidJobs(jobs) && InRange(order, |jobs|)
  {
    match at
    case Stored(n) => n <= |order| && content == Get(Serial(w, jobs, keep, order[..n]).managed, file)
    case Unjudged(n) =>
      && n < |order|
      && var base, job := Serial(w, jobs, keep, order[..n]), jobs[order[n]];
         && job.req.Target() == file
         && Intended(base, job.req, job.script, keep).Ready?
         && content == Some(Intended(base, job.req, job.script, keep).bytes)
  }

  /** The read came before the reader took the mutex. */
  ghost predicate ReadFirst(order: seq<nat>, t: nat, at: Read) {
    forall i :: 0 <= i < |order| && order[i] == t ==> match at case Stored(n) => n <= i case Unjudged(n) => n < i
  }

  ghost predicate TrueLook(w: World, jobs: seq<Job>, keep: nat, order: seq<nat>, c: Client, t: nat, look: Look)
    requires ValidJobs(jobs) && InRange(order, |jobs|)
  {
    Prepared(c, look) && TrueRead(w, jobs, keep, order, c.file, look.content, look.at) && ReadFirst(order, t, look.at)
  }

  ghost predicate Kept(w: World, clients: seq<Client>, keep: nat, sys: System, looks: seq<Look>, jobs: seq<Job>)
    requires ValidJobs(jobs)
  {
    && |looks| == |clients| && jobs == JobsOf(clients, looks)
    && Consistent(w, jobs, keep, sys)
    && (forall t :: 0 <= t < |clients| && !looks[t].Looked? ==> sys.phases[t].Waiting?)
    && (forall t :: 0 <= t < |clients| && looks[t].Looked? ==>
                      TrueLook(w, jobs, keep, sys.order, clients[t], t, looks[t]))
  }

  // ------------------------------------------- a read changes no run that has begun

  ghost predicate AgreeOn(jobs: seq<Job>, jobs': seq<Job>, order: seq<nat>) {
    |jobs'| == |jobs| && forall i :: 0 <= i < |order| ==> order[i] < |jobs| && jobs'[order[i]] == jobs[order[i]]
  }

  lemma SameSerial(w: World, jobs: seq<Job>, jobs': seq<Job>, keep: nat, order: seq<nat>)
    requires ValidJobs(jobs) && ValidJobs(jobs') && InRange(order, |jobs|) && AgreeOn(jobs, jobs', order)
    ensures Serial(w, jobs', keep, order) == Serial(w, jobs, keep, order)
  {
    assert InOrder(jobs', order) == InOrder(jobs, order);
  }

  lemma SameTrueRead(w: World, jobs: seq<Job>, jobs': seq<Job>, keep: nat, order: seq<nat>, file: string,
                     content: Option<Bytes>, at: Read)
    requires ValidJobs(jobs) && ValidJobs(jobs') && InRange(order, |jobs|) && AgreeOn(jobs, jobs', order)
    requires TrueRead(w, jobs, keep, order, file, content, at)
    ensures TrueRead(w, jobs', keep, order, file, content, at)
  {
    SameSerial(w, jobs, jobs', keep, order[..at.n]);
  }

  lemma CompletedIsPrefix(sys: System, n: nat)
    requires Bookkept(sys, n)
    ensures |Completed(sys)| <= |sys.order| && sys.order[..|Completed(sys)|] == Completed(sys)
    ensures sys.holder.Some? ==> |Completed(sys)| < |sys.order| && sys.order[|Completed(sys)|] == sys.holder.value < n
  {
  }

  lemma SameResults(w: World, jobs: seq<Job>, jobs': seq<Job>, keep: nat, phases: seq<Phase>, done: seq<nat>)
    requires ValidJobs(jobs) && ValidJobs(jobs') && InRange(done, |jobs|) && |phases| == |jobs| &&
             AgreeOn(jobs, jobs', done)
    requires ResultsAreSerial(w, jobs, keep, phases, done)
    ensures ResultsAreSerial(w, jobs', keep, phases, done)
  {
    forall i | 0 <= i < |done|
      ensures phases[done[i]] ==
              Finished(Ran(Serial(w, jobs', keep, done[..i]), jobs'[done[i]].req, jobs'[done[i]].script, keep).1)
    {
      SameSerial(w, jobs, jobs', keep, done[..i]);
      assert jobs'[done[i]] == jobs[done[i]];
    }
  }

  lemma SameConsistent(w: World, jobs: seq<Job>, jobs': seq<Job>, keep: nat, sys: System)
    requires ValidJobs(jobs) && ValidJobs(jobs') && Consistent(w, jobs, keep, sys) && AgreeOn(jobs, jobs', sys.order)
    ensures Consistent(w, jobs', keep, sys)
  {
    var done := Completed(sys);
    CompletedIsPrefix(sys, |jobs|);
    assert AgreeOn(jobs, jobs', done);
    SameSerial(w, jobs, jobs', keep, done);
    SameResults(w, jobs, jobs', keep, sys.phases, done);
    if sys.holder.Some? {
      assert jobs'[sys.holder.value] == jobs[sys.holder.value];
    }
  }

  /** What a read finds is true of the lock order. */
  lemma ReadIsTrue(w: World, jobs: seq<Job>, keep: nat, sys: System, file: string)
    requires ValidJobs(jobs) && Consistent(w, jobs, keep, sys) && IsConf(file)
    ensures TrueRead(w, jobs, keep, sys.order, file, Get(sys.world.managed, file), PlaceOf(sys, jobs, file))
  {
    CompletedIsPrefix(sys, |jobs|);
    if sys.holder.Some? {
      var h := sys.holder.value;
      StandingShows(Serial(w, jobs, keep, Completed(sys)), sys.world, jobs[h], sys.phases[h], keep, file);
    }
  }

  lemma WaitingIsUnordered(sys: System, n: nat, t: nat)
    requires Bookkept(sys, n) && t < n && sys.phases[t].Waiting?
    ensures forall i :: 0 <= i < |sys.order| ==> sys.order[i] != t
  {
    forall i | 0 <= i < |sys.order|
      ensures sys.order[i] != t
    {
      assert sys.order[i] in sys.order;
    }
  }

  lemma ReadKeepsAgreement(clients: seq<Client>, looks: seq<Look>, t: nat, look: Look, order: seq<nat>)
    requires |looks| == |clients| && t < |clients|
    requires forall i :: 0 <= i < |order| ==> order[i] < |clients| && order[i] != t
    ensures AgreeOn(JobsOf(clients, looks), JobsOf(clients, looks[t := look]), order)
  {
  }

  lemma ReadKeeps(w: World, clients: seq<Client>, keep: nat, sys: System, looks: seq<Look>, t: nat)
    requires ValidClients(clients) && t < |clients| && |looks| == |clients| && ValidJobs(JobsOf(clients, looks))
    requires Kept(w, clients, keep, sys, looks, JobsOf(clients, looks)) && looks[t].Pending?
    ensures
      var looks' := looks[t := LookNow(sys, JobsOf(clients, looks), clients[t])];
      ValidJobs(JobsOf(clients, looks')) && Kept(w, clients, keep, sys, looks', JobsOf(clients, looks'))
  {
    var jobs, c := JobsOf(clients, looks), clients[t];
    var look := LookNow(sys, jobs, c);
    var looks' := looks[t := look];
    var jobs' := JobsOf(clients, looks');
    JobsAreValid(clients, looks');
    WaitingIsUnordered(sys, |jobs|, t);
    ReadKeepsAgreement(clients, looks, t, look, sys.order);
    SameConsistent(w, jobs, jobs', keep, sys);
    forall u | 0 <= u < |clients| && looks'[u].Looked?
      ensures TrueLook(w, jobs', keep, sys.order, clients[u], u, looks'[u])
    {
      if u == t {
        ReadIsTrue(w, jobs, keep, sys, c.file);
      }
      SameTrueRead(w, jobs, jobs', keep, sys.order, clients[u].file, looks'[u].content, looks'[u].at);
    }
  }

  // ----------------------------------------------------------- a run changes no read

  lemma TurnShape(sys: System, jobs: seq<Job>, keep: nat, t: nat)
    requires ValidJobs(jobs) && Bookkept(sys, |jobs|) && t < |jobs|
    ensures
      var sys' := Turn(sys, jobs, keep, t);
      && (sys'.order == sys.order || sys'.order == sys.order + [t])
      && |sys'.phases| == |sys.phases|
      && forall u :: 0 <= u < |jobs| && u != t ==> sys'.phases[u] == sys.phases[u]
  {
  }

  lemma LongerTrueRead(w: World, jobs: seq<Job>, keep: nat, order: seq<nat>, t: nat, file: string,
                       content: Option<Bytes>, at: Read)
    requires ValidJobs(jobs) && InRange(order, |jobs|) && InRange(order + [t], |jobs|)
    requires TrueRead(w, jobs, keep, order, file, content, at)
    ensures TrueRead(w, jobs, keep, order + [t], file, content, at)
  {
    assert (order + [t])[..at.n] == order[..at.n];
  }

  lemma LongerTrueLook(w: World, jobs: seq<Job>, keep: nat, order: seq<nat>, t: nat, c: Client, u: nat, look: Look)
    requires ValidJobs(jobs) && InRange(order, |jobs|) && InRange(order + [t], |jobs|)
    requires TrueLook(w, jobs, keep, order, c, u, look)
    ensures TrueLook(w, jobs, keep, order + [t], c, u, look)
  {
    LongerTrueRead(w, jobs, keep, order, t, c.file, look.content, look.at);
  }

  lemma RunKeeps(w: World, clients: seq<Client>, keep: nat, sys: System, looks: seq<Look>, t: nat)
    requires ValidClients(clients) && t < |clients| && |looks| == |clients| && ValidJobs(JobsOf(clients, looks))
    requires Kept(w, clients, keep, sys, looks, JobsOf(clients, looks)) && looks[t].Looked?
    ensures Kept(w, clients, keep, Turn(sys, JobsOf(clients, looks), keep, t), looks, JobsOf(clients, looks))
  {
    var jobs := JobsOf(clients, looks);
    var sys' := Turn(sys, jobs, keep, t);
    TurnKeepsConsistent(w, jobs, keep, sys, t);
    TurnShape(sys, jobs, keep, t);
    forall u | 0 <= u < |clients| && looks[u].Looked?
      ensures TrueLook(w, jobs, keep, sys'.order, clients[u], u, looks[u])
    {
      if sys'.order != sys.order {
        LongerTrueLook(w, jobs, keep, sys.order, t, clients[u], u, looks[u]);
      }
    }
  }

  /** After every schedule the runs are serial in lock order, and every client has read what
      was stored at one place of that order, before its own. */
  lemma {:induction false} EveryDeskIsKept(w: World, clients: seq<Client>, keep: nat, schedule: seq<nat>)
    requires ValidClients(clients)
    ensures
      var desk := AfterDeskTurns(w, clients, keep, schedule);
      var jobs := JobsOf(clients, desk.looks);
      ValidJobs(jobs) && Kept(w, clients, keep, desk.system, desk.looks, jobs)
  {
    if schedule == [] {
      JobsAreValid(clients, AfterDeskTurns(w, clients, keep, schedule).looks);
    } else {
      var before, t := schedule[..|schedule| - 1], schedule[|schedule| - 1];
      EveryDeskIsKept(w, clients, keep, before);
      var desk := AfterDeskTurns(w, clients, keep, before);
      if t < |clients| {
        match desk.looks[t] {
          case Pending => ReadKeeps(w, clients, keep, desk.system, desk.looks, t);
          case Refused =>
          case Looked(_, _) => RunKeeps(w, clients, keep, desk.system, desk.looks, t);
        }
      }
    }
  }
}
