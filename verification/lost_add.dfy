/** A schedule that loses an exclusion: two clients read, then run one after the other. */
module LostAdd {
  import opened Text
  import opened Naming
  import opened Files
  import opened Chain
  import opened Headers
  import opened ExclusionRules
  import opened Forms
  import opened Interleaving
  import opened Fairness
  import opened AddHistories
  import opened UnlockedReads
  import opened ConcurrentAdds
  import opened ConcurrentForms

  // ------------------------------------------------------------ one client to the end

  lemma NextDesk(w: World, clients: seq<Client>, keep: nat, schedule: seq<nat>, t: nat)
    requires ValidClients(clients)
    ensures AfterDeskTurns(w, clients, keep, schedule + [t]) ==
            DeskTurn(AfterDeskTurns(w, clients, keep, schedule), clients, keep, t)
  {
    assert (schedule + [t])[..|schedule|] == schedule;
  }

  /** From `desk` to `after` client `t` alone has gone on, to its end. */
  ghost predicate WentOn(desk: Desk, after: Desk, t: nat) {
    && after.looks == desk.looks && |after.system.phases| == |desk.system.phases| && t < |desk.system.phases|
    && after.system.phases[t].Finished? && after.system.holder.None?
    && forall u :: 0 <= u < |desk.system.phases| && u != t ==> after.system.phases[u] == desk.system.phases[u]
  }

  /** With `more` turns after `schedule` client `t` is done, the lock order being as it was. */
  ghost predicate Finishes(w: World, clients: seq<Client>, keep: nat, schedule: seq<nat>, more: seq<nat>, t: nat)
    requires ValidClients(clients)
  {
    var desk, after := AfterDeskTurns(w, clients, keep, schedule), AfterDeskTurns(w, clients, keep, schedule + more);
    WentOn(desk, after, t) && after.system.order == desk.system.order
  }

  lemma OneTurnMore(w: World, clients: seq<Client>, keep: nat, schedule: seq<nat>, rest: seq<nat>, t: nat)
    requires ValidClients(clients)
    requires
      var desk, next := AfterDeskTurns(w, clients, keep, schedule), AfterDeskTurns(w, clients, keep, schedule + [t]);
      Moves(desk, next, t) && next.system.order == desk.system.order
    requires Finishes(w, clients, keep, schedule + [t], rest, t)
    ensures Finishes(w, clients, keep, schedule, [t] + rest, t)
  {
    assert schedule + ([t] + rest) == schedule + [t] + rest;
    WentOnAfter(AfterDeskTurns(w, clients, keep, schedule), AfterDeskTurns(w, clients, keep, schedule + [t]),
                AfterDeskTurns(w, clients, keep, schedule + [t] + rest), t);
  }

  /** Whoever holds the mutex, given enough turns, finishes. */
  lemma {:induction false} SoloFinishes(w: World, clients: seq<Client>, keep: nat, schedule: seq<nat>, t: nat)
    returns (more: seq<nat>)
    requires ValidClients(clients) && t < |clients|
    requires
      var desk := AfterDeskTurns(w, clients, keep, schedule);
      desk.looks[t].Looked? && desk.system.holder == Some(t) && t < |desk.system.phases|
    ensures Finishes(w, clients, keep, schedule, more, t)
    decreases Rank(AfterDeskTurns(w, clients, keep, schedule).system.phases[t]),
              Left(AfterDeskTurns(w, clients, keep, schedule).system.phases[t])
  {
    NextDesk(w, clients, keep, schedule, t);
    HolderMoves(w, clients, keep, schedule, t);
    if AfterDeskTurns(w, clients, keep, schedule + [t]).system.phases[t].Finished? {
      more := [t];
    } else {
      var rest := SoloFinishes(w, clients, keep, schedule + [t], t);
      OneTurnMore(w, clients, keep, schedule, rest, t);
      more := [t] + rest;
    }
  }

  /** Client `t` alone has done something. */
  ghost predicate Moves(desk: Desk, next: Desk, t: nat) {
    && next.looks == desk.looks && |next.system.phases| == |desk.system.phases| && t < |desk.system.phases|
    && next.system.holder == (if next.system.phases[t].Finished? then None else Some(t))
    && forall u :: 0 <= u < |desk.system.phases| && u != t ==> next.system.phases[u] == desk.system.phases[u]
  }

  lemma WentOnAfter(desk: Desk, next: Desk, after: Desk, t: nat)
    requires Moves(desk, next, t) && WentOn(next, after, t)
    ensures WentOn(desk, after, t)
  {
  }

  ghost predicate Further(now: Phase, before: Phase) {
    Rank(now) < Rank(before) || (Rank(now) == Rank(before) && Left(now) < Left(before))
  }

  lemma HolderMoves(w: World, clients: seq<Client>, keep: nat, schedule: seq<nat>, t: nat)
    requires ValidClients(clients) && t < |clients|
    requires
      var desk := AfterDeskTurns(w, clients, keep, schedule);
      desk.looks[t].Looked? && desk.system.holder == Some(t) && t < |desk.system.phases|
    ensures
      var desk := AfterDeskTurns(w, clients, keep, schedule);
      var next := DeskTurn(desk, clients, keep, t);
      && Moves(desk, next, t) && next.system.order == desk.system.order
      && Further(next.system.phases[t], desk.system.phases[t])
  {
    EveryDeskIsKept(w, clients, keep, schedule);
    var desk := AfterDeskTurns(w, clients, keep, schedule);
    TurnOfDesk(desk, clients, keep, t);
    HolderTurns(desk.system, JobsOf(clients, desk.looks), keep, t);
  }

  lemma TurnOfDesk(desk: Desk, clients: seq<Client>, keep: nat, t: nat)
    requires ValidClients(clients) && |desk.looks| == |clients| && t < |clients| && desk.looks[t].Looked?
    ensures ValidJobs(JobsOf(clients, desk.looks))
    ensures DeskTurn(desk, clients, keep, t) == Desk(Turn(desk.system, JobsOf(clients, desk.looks), keep, t),
                                                     desk.looks)
  {
    JobsAreValid(clients, desk.looks);
  }

  lemma HolderTurns(sys: System, jobs: seq<Job>, keep: nat, t: nat)
    requires ValidJobs(jobs) && Bookkept(sys, |jobs|) && sys.holder == Some(t) && t < |jobs|
    ensures
      var after := Turn(sys, jobs, keep, t);
      && Moves(Desk(sys, []), Desk(after, []), t) && after.order == sys.order
      && Further(after.phases[t], sys.phases[t])
  {
    assert t in sys.order;
    StepLowers(sys.world, jobs[t], sys.phases[t], keep);
  }

  /** A client that has read and finds the mutex free, given enough turns, finishes. */
  lemma SoloRuns(w: World, clients: seq<Client>, keep: nat, schedule: seq<nat>, t: nat) returns (more: seq<nat>)
    requires ValidClients(clients) && t < |clients|
    requires
      var desk := AfterDeskTurns(w, clients, keep, schedule);
      && desk.looks[t].Looked? && desk.system.holder.None?
      && t < |desk.system.phases| && desk.system.phases[t].Waiting?
    ensures
      var desk, after := AfterDeskTurns(w, clients, keep, schedule), AfterDeskTurns(w, clients, keep, schedule + more);
      WentOn(desk, after, t) && after.system.order == desk.system.order + [t]
  {
    NextDesk(w, clients, keep, schedule, t);
    var rest := SoloFinishes(w, clients, keep, schedule + [t], t);
    more := [t] + rest;
    assert schedule + more == schedule + [t] + rest;
  }

  // ---------------------------------------------------------------------- two clients

  function TwoAdds(domain: string, x: Exclusion, y: Exclusion): seq<Task<Exclusion>> {
    [ExclusionTask(domain, x, SmoothOutside(VERIFIED)), ExclusionTask(domain, y, SmoothOutside(VERIFIED))]
  }

  lemma TwoAddsFit(domain: string, x: Exclusion, y: Exclusion)
    ensures AllFit(ExclusionsForm(domain), TwoAdds(domain, x, y)) && ValidClients(ClientsOf(TwoAdds(domain, x, y)))
  {
    OverlayIsConf(Exclusions, DomainSlug(domain));
    ExclusionTaskFits(domain, x, SmoothOutside(VERIFIED));
    ExclusionTaskFits(domain, y, SmoothOutside(VERIFIED));
    ClientsAreValid(ExclusionsForm(domain), TwoAdds(domain, x, y));
  }

  const FIRST_LOOK := Looked(None, Stored(0))

  lemma OneRead(domain: string, x: Exclusion, y: Exclusion, keep: nat)
    requires ValidDomain(domain) && ValidExclusion(x) && ValidExclusion(y)
    requires ValidClients(ClientsOf(TwoAdds(domain, x, y)))
    ensures AfterDeskTurns(BLANK, ClientsOf(TwoAdds(domain, x, y)), keep, [0]) ==
            Desk(Initial(BLANK, 2), [FIRST_LOOK, Pending])
  {
    var clients := ClientsOf(TwoAdds(domain, x, y));
    var desk := AfterDeskTurns(BLANK, clients, keep, []);
    assert desk == Desk(Initial(BLANK, 2), [Pending, Pending]);
    FirstRead(domain, x, desk.system, JobsOf(clients, [Pending, Pending]));
    NextDesk(BLANK, clients, keep, [], 0);
    assert [] + [0] == [0];
    assert [Pending, Pending][0 := FIRST_LOOK] == [FIRST_LOOK, Pending];
  }

  /** Both have read, and found no overlay. */
  lemma BothRead(domain: string, x: Exclusion, y: Exclusion, keep: nat)
    requires ValidDomain(domain) && ValidExclusion(x) && ValidExclusion(y)
    requires ValidClients(ClientsOf(TwoAdds(domain, x, y)))
    ensures AfterDeskTurns(BLANK, ClientsOf(TwoAdds(domain, x, y)), keep, [0, 1]) ==
            Desk(Initial(BLANK, 2), [FIRST_LOOK, FIRST_LOOK])
  {
    var clients := ClientsOf(TwoAdds(domain, x, y));
    OneRead(domain, x, y, keep);
    FirstRead(domain, y, Initial(BLANK, 2), JobsOf(clients, [FIRST_LOOK, Pending]));
    NextDesk(BLANK, clients, keep, [0], 1);
    assert [0] + [1] == [0, 1];
    assert [FIRST_LOOK, Pending][1 := FIRST_LOOK] == [FIRST_LOOK, FIRST_LOOK];
  }

  lemma FirstRead(domain: string, x: Exclusion, sys: System, jobs: seq<Job>)
    requires ValidDomain(domain) && ValidExclusion(x) && sys == Initial(BLANK, 2)
    ensures LookNow(sys, jobs, ExclusionTask(domain, x, SmoothOutside(VERIFIED)).client) == FIRST_LOOK
  {
    assert [] + [x] == [x];
  }

  /** One after the other: a schedule after which both runs are done, in this order. */
  lemma BothDone(domain: string, x: Exclusion, y: Exclusion, keep: nat) returns (schedule: seq<nat>)
    requires ValidDomain(domain) && ValidExclusion(x) && ValidExclusion(y)
    requires ValidClients(ClientsOf(TwoAdds(domain, x, y)))
    ensures
      var desk := AfterDeskTurns(BLANK, ClientsOf(TwoAdds(domain, x, y)), keep, schedule);
      desk.looks == [FIRST_LOOK, FIRST_LOOK] && desk.system.holder.None? && desk.system.order == [0, 1]
  {
    var clients := ClientsOf(TwoAdds(domain, x, y));
    BothRead(domain, x, y, keep);
    var first := SoloRuns(BLANK, clients, keep, [0, 1], 0);
    var second := SoloRuns(BLANK, clients, keep, [0, 1] + first, 1);
    schedule := [0, 1] + first + second;
    assert [] + [0] + [1] == [0, 1];
  }

  lemma BothLand(domain: string, x: Exclusion, y: Exclusion, keep: nat, schedule: seq<nat>)
    requires ValidDomain(domain) && ValidExclusion(x) && ValidExclusion(y)
    requires ValidClients(ClientsOf(TwoAdds(domain, x, y)))
    requires
      var desk := AfterDeskTurns(BLANK, ClientsOf(TwoAdds(domain, x, y)), keep, schedule);
      desk.looks == [FIRST_LOOK, FIRST_LOOK] && desk.system.holder.None? && desk.system.order == [0, 1]
    ensures
      var tr := TraceOf(TwoAdds(domain, x, y), BLANK, keep, schedule);
      && tr.Valid() && tr.done == [0, 1] && tr.looks == [FIRST_LOOK, FIRST_LOOK]
      && tr.phases == [Finished(Done), Finished(Done)]
  {
    var tr := TraceOf(TwoAdds(domain, x, y), BLANK, keep, schedule);
    ScheduleIsFollowed(TwoAdds(domain, x, y), BLANK, keep, schedule);
    TraceLands(domain, x, y, tr);
  }

  lemma TraceLands(domain: string, x: Exclusion, y: Exclusion, tr: Trace<Exclusion>)
    requires ValidDomain(domain) && ValidExclusion(x) && ValidExclusion(y)
    requires AllFollowed(tr) && tr.start == BLANK && tr.tasks == TwoAdds(domain, x, y)
    requires tr.done == [0, 1] && tr.looks == [FIRST_LOOK, FIRST_LOOK]
    ensures tr.phases == [Finished(Done), Finished(Done)]
  {
    FirstSucceeds(domain, x, tr);
    SecondSucceeds(domain, y, tr);
  }

  lemma JobOfTrace(domain: string, x: Exclusion, tr: Trace<Exclusion>, j: nat)
    requires ValidDomain(domain) && ValidExclusion(x) && AllFollowed(tr) && j < |tr.done|
    requires tr.tasks[tr.done[j]] == ExclusionTask(domain, x, SmoothOutside(VERIFIED))
    requires tr.looks[tr.done[j]] == FIRST_LOOK
    ensures Followed(tr, j)
    ensures tr.jobs[tr.done[j]] ==
            Job(ExclusionsRequest(domain, [x], SmoothOutside(VERIFIED)), SmoothOutside(VERIFIED).script)
  {
    OneJob(domain, x);
  }

  lemma OneJob(domain: string, x: Exclusion)
    requires ValidDomain(domain) && ValidExclusion(x)
    ensures
      var o := SmoothOutside(VERIFIED);
      JobOf(ExclusionTask(domain, x, o).client, FIRST_LOOK) == Job(ExclusionsRequest(domain, [x], o), o.script)
  {
    assert [] + [x] == [x];
    assert AllValid([x]);
  }

  lemma FirstSucceeds(domain: string, x: Exclusion, tr: Trace<Exclusion>)
    requires ValidDomain(domain) && ValidExclusion(x) && AllFollowed(tr) && tr.done == [0, 1] && tr.start == BLANK
    requires |tr.tasks| == 2 && tr.tasks[0] == ExclusionTask(domain, x, SmoothOutside(VERIFIED)) &&
             tr.looks[0] == FIRST_LOOK
    ensures tr.phases[0] == Finished(Done)
    ensures TempName(ExclusionsFile(domain), SMOOTH_WRITE.nonce) !in tr.WorldAfter(1).managed
  {
    JobOfTrace(domain, x, tr, 0);
    NothingExpected();
    WorldOfTwo(tr);
    SmoothChange(BLANK, tr.jobs[0].req, NOON, VERIFIED, tr.keep);
  }

  lemma SecondSucceeds(domain: string, y: Exclusion, tr: Trace<Exclusion>)
    requires ValidDomain(domain) && ValidExclusion(y) && AllFollowed(tr) && tr.done == [0, 1]
    requires |tr.tasks| == 2 && tr.tasks[1] == ExclusionTask(domain, y, SmoothOutside(VERIFIED)) &&
             tr.looks[1] == FIRST_LOOK
    requires TempName(ExclusionsFile(domain), SMOOTH_WRITE.nonce) !in tr.WorldAfter(1).managed
    ensures tr.phases[1] == Finished(Done)
  {
    JobOfTrace(domain, y, tr, 1);
    NothingExpected();
    SmoothChange(tr.WorldAfter(1), tr.jobs[1].req, NOON, VERIFIED, tr.keep);
  }

  lemma WorldOfTwo(tr: Trace<Exclusion>)
    requires tr.Valid() && tr.done == [0, 1]
    ensures tr.WorldAfter(0) == tr.start
    ensures tr.WorldAfter(1) == Ran(tr.start, tr.jobs[0].req, tr.jobs[0].script, tr.keep).0
  {
    assert tr.done[..0] == [] && tr.done[..1] == [0] && [0][..0] == [];
    SerialSnoc(tr.start, tr.jobs, tr.keep, [0]);
  }

  lemma LandedOfTwo(log: seq<Run<Exclusion>>, x: Exclusion, y: Exclusion)
    requires log == [Run(x, Stored(0), true), Run(y, Stored(0), true)]
    ensures Landed(log, 0, 2) == [x, y]
  {
    assert Landed(log, 0, 0) == [];
    assert Landed(log, 0, 1) == [x];
  }

  lemma StoredOfTwo(log: seq<Run<Exclusion>>, x: Exclusion, y: Exclusion)
    requires log == [Run(x, Stored(0), true), Run(y, Stored(0), true)] && Causal(log)
    ensures StoredAfter(WithExclusion, [], log, 2) == WithExclusion([], y)
  {
    assert StoredAfter(WithExclusion, [], log, 0) == [];
    assert ReadBy(WithExclusion, [], log, 1) == [];
    assert Wrote(WithExclusion, [], log, 1) == WithExclusion([], y);
  }

  lemma ListsOfTwo(x: Exclusion, y: Exclusion)
    requires x != y
    ensures WithExclusion([], y) == [y] && ExclusionsOfAll([], [x, y]) == [x, y]
  {
    DedupeOfDistinct([y]);
    DedupeOfDistinct([x, y]);
  }

  lemma DedupeOfDistinct(xs: seq<Exclusion>)
    requires Distinct(xs)
    ensures Dedupe([] + xs) == xs
  {
    assert [] + xs == xs;
    DedupeKeepsDistinct(xs);
  }

  lemma LogOfTwo(log: seq<Run<Exclusion>>, lists: seq<seq<Exclusion>>, x: Exclusion, y: Exclusion)
    requires x != y && log == [Run(x, Stored(0), true), Run(y, Stored(0), true)] && Causal(log)
    requires |lists| == 3 && lists[0] == []
    requires forall n :: 0 <= n < |lists| ==> lists[n] == StoredAfter(WithExclusion, lists[0], log, n)
    ensures lists[2] == [y] && !NothingLost(lists, log)
  {
    LandedOfTwo(log, x, y);
    StoredOfTwo(log, x, y);
    ListsOfTwo(x, y);
    assert lists[2] != ExclusionsOfAll(lists[0], Landed(log, 0, 2));
  }

  /** For every domain and every two exclusions there is a schedule in which both adds succeed
      and the first exclusion is lost. */
  lemma SomeScheduleLosesAnAdd(domain: string, x: Exclusion, y: Exclusion, keep: nat) returns (schedule: seq<nat>)
    requires ValidDomain(domain) && ValidExclusion(x) && ValidExclusion(y) && x != y
    ensures AllFit(ExclusionsForm(domain), TwoAdds(domain, x, y))
    ensures
      var (lists, log) := Outcome(ExclusionsForm(domain), TwoAdds(domain, x, y), BLANK, keep, schedule);
      && log == [Run(x, Stored(0), true), Run(y, Stored(0), true)]
      && lists[0] == [] && lists[2] == [y] && !NothingLost(lists, log)
  {
    var tasks := TwoAdds(domain, x, y);
    TwoAddsFit(domain, x, y);
    schedule := BothDone(domain, x, y, keep);
    BothLand(domain, x, y, keep, schedule);
    var (lists, log) := Outcome(ExclusionsForm(domain), tasks, BLANK, keep, schedule);
    OutcomeFollowsLog(ExclusionsForm(domain), tasks, BLANK, keep, schedule);
    assert log == [Run(x, Stored(0), true), Run(y, Stored(0), true)];
    LogOfTwo(log, lists, x, y);
  }
}
