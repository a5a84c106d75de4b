/** Requests at once get done: under every schedule that keeps giving each request a turn,
    all of them finish (internal/service/chain.go). */
module Fairness {
  import opened Text
  import opened Files
  import opened Chain
  import opened Interleaving

  ghost function StateAt(w: World, jobs: seq<Job>, keep: nat, schedule: nat -> nat, k: nat): System
    requires ValidJobs(jobs)
  {
    if k == 0 then Initial(w, |jobs|) else Turn(StateAt(w, jobs, keep, schedule, k - 1), jobs, keep, schedule(k - 1))
  }

  /** Every request gets a turn again and again; most may find the mutex taken. */
  ghost predicate Fair(schedule: nat -> nat, n: nat) {
    forall t: nat, k: nat :: t < n ==> GetsTurn(schedule, t, k)
  }

  ghost predicate GetsTurn(schedule: nat -> nat, t: nat, k: nat) {
    exists m: nat :: m >= k && schedule(m) == t
  }

  ghost predicate AllFinished(sys: System) {
    forall t :: 0 <= t < |sys.phases| ==> sys.phases[t].Finished?
  }

  lemma {:induction false} StatesAreConsistent(w: World, jobs: seq<Job>, keep: nat, schedule: nat -> nat, k: nat)
    requires ValidJobs(jobs)
    ensures Consistent(w, jobs, keep, StateAt(w, jobs, keep, schedule, k))
  {
    if k == 0 {
      EveryScheduleIsConsistent(w, jobs, keep, []);
    } else {
      StatesAreConsistent(w, jobs, keep, schedule, k - 1);
      TurnKeepsConsistent(w, jobs, keep, StateAt(w, jobs, keep, schedule, k - 1), schedule(k - 1));
    }
  }

  // --------------------------------------------------------------------- the measure

  function Unfinished(phases: seq<Phase>): set<int> {
    set t | 0 <= t < |phases| && !phases[t].Finished?
  }

  function Untaken(phases: seq<Phase>): set<int> {
    set t | 0 <= t < |phases| && phases[t].Waiting?
  }

  function Rank(phase: Phase): nat {
    match phase
    case Waiting => 12
    case ToRead => 11
    case ToCopy(_) => 10
    case ToPrune(_, _, _, _) => 9
    case ToProduce(_) => 8
    case ToCreate(_, _) => 7
    case ToFill(_, _) => 6
    case ToRename(_, _) => 5
    case ToLoad(_) => 4
    case ToRestore(_) => 3
    case ToRefill(_) => 2
    case ToRerename(_) => 1
    case Finished(_) => 0
  }

  /** Deletions left. */
  function Left(phase: Phase): nat {
    if phase.ToPrune? && phase.deleted < phase.toDelete then phase.toDelete - phase.deleted else 0
  }

  function Running(sys: System): Phase {
    if sys.holder.Some? && sys.holder.value < |sys.phases| then sys.phases[sys.holder.value] else Finished(Done)
  }

  /** Fewer unfinished requests; or as many, and fewer that wait; or as many of both, and a
      running one that is further on. */
  ghost predicate Lower(now: System, before: System) {
    || |Unfinished(now.phases)| < |Unfinished(before.phases)|
    || (|Unfinished(now.phases)| == |Unfinished(before.phases)| &&
        (|| |Untaken(now.phases)| < |Untaken(before.phases)|
         || (|Untaken(now.phases)| == |Untaken(before.phases)| &&
             (|| Rank(Running(now)) < Rank(Running(before))
              || (Rank(Running(now)) == Rank(Running(before)) && Left(Running(now)) < Left(Running(before)))))))
  }

  lemma StepLowers(w: World, job: Job, phase: Phase, keep: nat)
    requires job.script.Valid() && !phase.Waiting? && !phase.Finished?
    ensures
      var phase' := Step(w, job, phase, keep).1;
      Rank(phase') < Rank(phase) || (Rank(phase') == Rank(phase) && Left(phase') < Left(phase))
  {
  }

  lemma UnfinishedAfter(phases: seq<Phase>, t: nat, phase: Phase)
    requires t < |phases| && !phases[t].Finished?
    ensures Unfinished(phases[t := phase]) == if phase.Finished? then Unfinished(phases) - {t} else Unfinished(phases)
    ensures t in Unfinished(phases)
  {
  }

  lemma UntakenAfter(phases: seq<Phase>, t: nat, phase: Phase)
    requires t < |phases| && !phase.Waiting?
    ensures Untaken(phases[t := phase]) == Untaken(phases) - {t}
    ensures t in Untaken(phases) <==> phases[t].Waiting?
  {
  }

  lemma TakingLowers(sys: System, t: nat)
    requires t < |sys.phases| && sys.phases[t].Waiting?
    ensures Lower(Taken(sys, t), sys)
  {
    UnfinishedAfter(sys.phases, t, ToRead);
    UntakenAfter(sys.phases, t, ToRead);
  }

  lemma MovingLowers(sys: System, t: nat, w: World, phase: Phase)
    requires sys.holder == Some(t) && t < |sys.phases| && !sys.phases[t].Finished? && !sys.phases[t].Waiting?
    requires !phase.Waiting?
    requires Rank(phase) < Rank(sys.phases[t]) || (Rank(phase) == Rank(sys.phases[t]) &&
                                                   Left(phase) < Left(sys.phases[t]))
    ensures Lower(Moved(sys, t, w, phase), sys)
  {
    UnfinishedAfter(sys.phases, t, phase);
    UntakenAfter(sys.phases, t, phase);
  }

  /** Every turn that does anything at all lowers the measure. */
  lemma TurnLowers(sys: System, jobs: seq<Job>, keep: nat, t: nat)
    requires ValidJobs(jobs) && Bookkept(sys, |jobs|)
    requires Turn(sys, jobs, keep, t) != sys
    ensures Lower(Turn(sys, jobs, keep, t), sys)
  {
    if sys.phases[t].Waiting? {
      TakingLowers(sys, t);
    } else {
      if sys.holder != Some(t) {
        IdleWithoutMutex(sys, |jobs|, t);
      }
      var (w, phase) := Step(sys.world, jobs[t], sys.phases[t], keep);
      StepLowers(sys.world, jobs[t], sys.phases[t], keep);
      StepNeverWaits(sys.world, jobs[t], sys.phases[t], keep);
      MovingLowers(sys, t, w, phase);
    }
  }

  // -------------------------------------------------------------------------- fairness

  /** If giving `u` the turn would change the state at `k`, the state changes by the time `u` gets it. */
  lemma {:induction false} SomethingChanges(w: World, jobs: seq<Job>, keep: nat, schedule: nat -> nat, k: nat, m: nat)
    returns (c: nat)
    requires ValidJobs(jobs) && k <= m
    requires Turn(StateAt(w, jobs, keep, schedule, k), jobs, keep, schedule(m)) != StateAt(w, jobs, keep, schedule, k)
    ensures k <= c && StateAt(w, jobs, keep, schedule, c) == StateAt(w, jobs, keep, schedule, k)
    ensures StateAt(w, jobs, keep, schedule, c + 1) != StateAt(w, jobs, keep, schedule, c)
    decreases m - k
  {
    if StateAt(w, jobs, keep, schedule, k + 1) != StateAt(w, jobs, keep, schedule, k) {
      c := k;
    } else {
      c := SomethingChanges(w, jobs, keep, schedule, k + 1, m);
    }
  }

  lemma NextDrop(w: World, jobs: seq<Job>, keep: nat, schedule: nat -> nat, k: nat) returns (c: nat)
    requires ValidJobs(jobs) && Fair(schedule, |jobs|)
    requires !AllFinished(StateAt(w, jobs, keep, schedule, k))
    ensures c > k && Lower(StateAt(w, jobs, keep, schedule, c), StateAt(w, jobs, keep, schedule, k))
  {
    StatesAreConsistent(w, jobs, keep, schedule, k);
    var u := SomeoneMoves(StateAt(w, jobs, keep, schedule, k), jobs, keep);
    var next := NextTurn(schedule, |jobs|, u, k);
    c := SomethingChanges(w, jobs, keep, schedule, k, next);
    ChangeLowers(w, jobs, keep, schedule, c);
    c := c + 1;
  }

  lemma NextTurn(schedule: nat -> nat, n: nat, u: nat, k: nat) returns (m: nat)
    requires Fair(schedule, n) && u < n
    ensures m >= k && schedule(m) == u
  {
    assert GetsTurn(schedule, u, k);
    m :| m >= k && schedule(m) == u;
  }

  lemma ChangeLowers(w: World, jobs: seq<Job>, keep: nat, schedule: nat -> nat, c: nat)
    requires ValidJobs(jobs)
    requires StateAt(w, jobs, keep, schedule, c + 1) != StateAt(w, jobs, keep, schedule, c)
    ensures Lower(StateAt(w, jobs, keep, schedule, c + 1), StateAt(w, jobs, keep, schedule, c))
  {
    StatesAreConsistent(w, jobs, keep, schedule, c);
    TurnLowers(StateAt(w, jobs, keep, schedule, c), jobs, keep, schedule(c));
  }

  lemma SomeoneMoves(sys: System, jobs: seq<Job>, keep: nat) returns (u: nat)
    requires ValidJobs(jobs) && Bookkept(sys, |jobs|) && !AllFinished(sys)
    ensures u < |jobs| && Turn(sys, jobs, keep, u) != sys
  {
    var t :| 0 <= t < |sys.phases| && !sys.phases[t].Finished?;
    SomeoneCanMove(sys, jobs, keep, t);
    u :| 0 <= u < |jobs| && Turn(sys, jobs, keep, u) != sys;
  }

  lemma {:induction false} FinishesFrom(w: World, jobs: seq<Job>, keep: nat, schedule: nat -> nat,
                                        k: nat) returns (m: nat)
    requires ValidJobs(jobs) && Fair(schedule, |jobs|)
    ensures AllFinished(StateAt(w, jobs, keep, schedule, m))
    decreases |Unfinished(StateAt(w, jobs, keep, schedule, k).phases)|,
              |Untaken(StateAt(w, jobs, keep, schedule, k).phases)|,
              Rank(Running(StateAt(w, jobs, keep, schedule, k))),
              Left(Running(StateAt(w, jobs, keep, schedule, k)))
  {
    if AllFinished(StateAt(w, jobs, keep, schedule, k)) {
      m := k;
    } else {
      var c := NextDrop(w, jobs, keep, schedule, k);
      m := FinishesFrom(w, jobs, keep, schedule, c);
    }
  }

  /** Nobody waits for ever: under every fair schedule there comes a time when every request
      has finished, the mutex is free, and the world is that of one run after another. */
  lemma EveryFairScheduleFinishes(w: World, jobs: seq<Job>, keep: nat, schedule: nat -> nat)
    requires ValidJobs(jobs) && Fair(schedule, |jobs|)
    ensures exists m: nat ::
              var sys := StateAt(w, jobs, keep, schedule, m);
              && |sys.phases| == |jobs| && AllFinished(sys) && sys.holder.None?
              && InRange(sys.order, |jobs|) && |sys.order| == |jobs| && sys.world == Serial(w, jobs, keep, sys.order)
  {
    var m := FinishesFrom(w, jobs, keep, schedule, 0);
    StatesAreConsistent(w, jobs, keep, schedule, m);
    var sys := StateAt(w, jobs, keep, schedule, m);
    EveryoneIsOrdered(sys, |jobs|);
  }

  lemma EveryoneIsOrdered(sys: System, n: nat)
    requires Bookkept(sys, n) && AllFinished(sys)
    ensures sys.holder.None? && Completed(sys) == sys.order && |sys.order| == n
  {
    OnceEach(sys.order, n);
  }

  /** A list of each number below `n`, once, has `n` of them. */
  lemma {:induction false} OnceEach(order: seq<nat>, n: nat)
    requires InRange(order, n) && forall t :: 0 <= t < n ==> t in order
    ensures |order| == n
  {
    var listed := set i | 0 <= i < |order| :: order[i];
    forall t
      ensures t in listed <==> t in Numbers(n)
    {
      assert t in order <==> t in listed;
    }
    assert listed == Numbers(n);
    ListedOnce(order, n);
  }

  function Numbers(n: nat): (numbers: set<nat>)
    ensures |numbers| == n && forall t :: t in numbers <==> 0 <= t < n
  {
    if n == 0 then {} else Numbers(n - 1) + {n - 1}
  }

  lemma {:induction false} ListedOnce(order: seq<nat>, n: nat)
    requires InRange(order, n)
    ensures |set i | 0 <= i < |order| :: order[i]| == |order|
  {
    if order != [] {
      var front, last := order[..|order| - 1], order[|order| - 1];
      ListedOnce(front, n);
      var listed := set i | 0 <= i < |front| :: front[i];
      assert (set i | 0 <= i < |order| :: order[i]) == listed + {last};
      assert last !in listed;
    }
  }
}
