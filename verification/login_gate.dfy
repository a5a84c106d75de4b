/** The login limit of internal/ratelimit/ratelimit.go: a POST must pass the bucket
    of its client and then the ceiling shared by all clients.

    The results here hold for whole histories of requests and for the limiter as
    coded, pruning included. */
module LoginGate {
  import opened Text
  import opened TokenBucket
  import opened ClientLimits

  const LOGIN_PER_CLIENT_PER_MINUTE := 5.0
  const LOGIN_PER_CLIENT_BURST := 5
  const LOGIN_GLOBAL_PER_MINUTE := 60.0
  const LOGIN_GLOBAL_BURST := 60
  const API_PER_MINUTE := 120.0
  const API_BURST := 30

  /** One request; the clock does not move while it is decided. */
  datatype Attempt = Attempt(isPost: bool, key: string, at: int)

  datatype Gate = Gate(clients: Limiter, ceiling: State)

  datatype Verdict = Passed | Rejected(retrySeconds: int)

  function NewGate(start: int): Gate {
    Gate(NewLimiter(LOGIN_PER_CLIENT_PER_MINUTE, LOGIN_PER_CLIENT_BURST),
         Fresh(LOGIN_GLOBAL_PER_MINUTE, LOGIN_GLOBAL_BURST, start))
  }

  function CallOf(a: Attempt): Call {
    Call(a.key, a.at, a.at, a.at)
  }

  function Decide(g: Gate, a: Attempt): (Gate, Verdict) {
    if !a.isPost then (g, Passed)
    else
      var (clients, answer) := AllowCall(g.clients, CallOf(a));
      match answer
      case Denied(r) => (g.(clients := clients), Rejected(r))
      case Granted =>
        var (ceiling, second) := AllowAt(g.ceiling, a.at);
        (Gate(clients, ceiling), match second case Granted => Passed case Denied(r) => Rejected(r))
  }

  class LoginHandler {
    const clients: ClientLimiter
    const ceiling: Bucket

    ghost predicate Valid()
      reads this, clients
    {
      clients.Valid() && ceiling !in clients.Repr
    }

    ghost function View(): Gate
      requires Valid()
      reads this, clients, clients.Repr, ceiling
    {
      Gate(clients.View(), ceiling.View())
    }

    constructor (clients: ClientLimiter, ceiling: Bucket)
      requires clients.Valid() && ceiling !in clients.Repr
      ensures Valid() && this.clients == clients && this.ceiling == ceiling
    {
      this.clients, this.ceiling := clients, ceiling;
    }

    method Handle(isPost: bool, key: string, now: int) returns (passed: bool, retrySeconds: int)
      requires Valid()
      modifies clients, clients.Repr, ceiling
      ensures Valid()
      ensures (View(), if passed then Passed else Rejected(retrySeconds)) ==
              Decide(old(View()), Attempt(isPost, key, now))
      ensures !isPost ==> passed && View() == old(View())
    {
      if !isPost {
        return true, 0;
      }
      passed, retrySeconds := clients.Allow(key, now, now, now);
      if passed {
        passed, retrySeconds := ceiling.Allow(now);
      }
    }
  }

  // -------------------------------------------------------------------- histories

  function AfterAttempts(g: Gate, attempts: seq<Attempt>): Gate {
    if attempts == [] then g
    else Decide(AfterAttempts(g, attempts[..|attempts| - 1]), attempts[|attempts| - 1]).0
  }

  /** The instants of the POSTs that got through; `key` narrows them to one client. */
  function PassTimes(g: Gate, attempts: seq<Attempt>, key: Option<string>): seq<int> {
    if attempts == [] then []
    else
      var before, a := attempts[..|attempts| - 1], attempts[|attempts| - 1];
      if a.isPost && (key.Some? ==> key.value == a.key) && Decide(AfterAttempts(g, before), a).1.Passed?
      then PassTimes(g, before, key) + [a.at]
      else PassTimes(g, before, key)
  }

  /** The calls that the POSTs make on the per-client limiter. */
  function ClientCalls(attempts: seq<Attempt>): seq<Call> {
    if attempts == [] then []
    else
      var before, a := attempts[..|attempts| - 1], attempts[|attempts| - 1];
      if a.isPost then ClientCalls(before) + [CallOf(a)] else ClientCalls(before)
  }

  /** The instants at which the ceiling is asked. */
  function CeilingTimes(g: Gate, attempts: seq<Attempt>): seq<int> {
    if attempts == [] then []
    else
      var before, a := attempts[..|attempts| - 1], attempts[|attempts| - 1];
      if a.isPost && AllowCall(AfterAttempts(g, before).clients, CallOf(a)).1.Granted?
      then CeilingTimes(g, before) + [a.at]
      else CeilingTimes(g, before)
  }

  ghost predicate Ordered(start: int, attempts: seq<Attempt>) {
    && (forall i :: 0 <= i < |attempts| ==> start <= attempts[i].at)
    && (forall i, j :: 0 <= i <= j < |attempts| ==> attempts[i].at <= attempts[j].at)
  }

  lemma OrderedPrefix(start: int, before: seq<Attempt>, a: Attempt)
    requires Ordered(start, before + [a])
    ensures Ordered(start, before) && start <= a.at
    ensures forall i :: 0 <= i < |before| ==> before[i].at <= a.at
  {
    var all := before + [a];
    assert all[|before|] == a;
    assert forall i :: 0 <= i < |before| ==> all[i] == before[i];
  }

  lemma MonotoneSnoc(start: int, times: seq<int>, now: int)
    requires Monotone(start, times) && start <= now
    requires forall i :: 0 <= i < |times| ==> times[i] <= now
    ensures Monotone(start, times + [now])
  {
  }

  /** The ceiling is an ordinary bucket that sees only the POSTs its client bucket let through. */
  lemma {:induction false} CeilingHistory(start: int, attempts: seq<Attempt>)
    requires Ordered(start, attempts)
    ensures
      var g, asked := NewGate(start), CeilingTimes(NewGate(start), attempts);
      && AfterAttempts(g, attempts).ceiling == After(g.ceiling, asked)
      && PassTimes(g, attempts, None) == GrantTimes(g.ceiling, asked)
      && Monotone(start, asked)
      && forall i :: 0 <= i < |asked| ==> attempts != [] && asked[i] <= attempts[|attempts| - 1].at
  {
    if attempts != [] {
      var before, a := attempts[..|attempts| - 1], attempts[|attempts| - 1];
      assert before + [a] == attempts;
      OrderedPrefix(start, before, a);
      CeilingHistory(start, before);
      var g := NewGate(start);
      var asked := CeilingTimes(g, before);
      if a.isPost && AllowCall(AfterAttempts(g, before).clients, CallOf(a)).1.Granted? {
        MonotoneSnoc(start, asked, a.at);
        assert (asked + [a.at])[..|asked|] == asked;
      }
    }
  }

  /** All clients together: at most 60 POSTs, plus one a second, in any window. */
  lemma PassesStayUnderCeiling(start: int, attempts: seq<Attempt>, s: int, e: int)
    requires Ordered(start, attempts)
    ensures WithinBound(LOGIN_GLOBAL_PER_MINUTE, LOGIN_GLOBAL_BURST, PassTimes(NewGate(start), attempts, None), s, e)
  {
    CeilingHistory(start, attempts);
    NoWindowExceedsItsBound(LOGIN_GLOBAL_PER_MINUTE, LOGIN_GLOBAL_BURST, start, CeilingTimes(NewGate(start), attempts),
                            s, e);
  }

  // ------------------------------------------------------------- one client's bound

  /** The key's first call, when its ideal bucket is born, and its calls from then on. */
  function BirthOf(key: string, calls: seq<Call>): int {
    if calls == [] then 0
    else
      var before, c := calls[..|calls| - 1], calls[|calls| - 1];
      if KeyTimes(key, before) == [] && c.key == key then c.bornAt else BirthOf(key, before)
  }

  function KeyTimes(key: string, calls: seq<Call>): seq<int> {
    if calls == [] then []
    else
      var before, c := calls[..|calls| - 1], calls[|calls| - 1];
      if c.key == key then KeyTimes(key, before) + [c.askedAt] else KeyTimes(key, before)
  }

  lemma {:induction false} KeyTimesMonotone(key: string, calls: seq<Call>, gap: int)
    requires Timeline(calls, gap)
    ensures Monotone(BirthOf(key, calls), KeyTimes(key, calls)) || KeyTimes(key, calls) == []
    ensures forall i :: 0 <= i < |KeyTimes(key, calls)| ==>
            calls != [] && KeyTimes(key, calls)[i] <= calls[|calls| - 1].askedAt
    ensures KeyTimes(key, calls) != [] ==> BirthOf(key, calls) <= KeyTimes(key, calls)[0]
  {
    if calls != [] {
      var before, c := calls[..|calls| - 1], calls[|calls| - 1];
      assert before + [c] == calls;
      TimelinePrefix(before, c, gap);
      KeyTimesMonotone(key, before, gap);
      var earlier := KeyTimes(key, before);
      if c.key == key {
        MonotoneSnoc(BirthOf(key, calls), earlier, c.askedAt);
      }
    }
  }

  /** The ideal bucket of a key is exactly a bucket run on that key's own calls. */
  lemma {:induction false} IdealIsOwnHistory(perMinute: real, burst: int, key: string, calls: seq<Call>)
    ensures Ideal(perMinute, burst, key, calls) ==
            if KeyTimes(key, calls) == [] then None
            else Some(After(Fresh(perMinute, burst, BirthOf(key, calls)), KeyTimes(key, calls)))
  {
    if calls != [] {
      var before, c := calls[..|calls| - 1], calls[|calls| - 1];
      IdealIsOwnHistory(perMinute, burst, key, before);
      assert before + [c] == calls;
      IdealSnoc(perMinute, burst, before, c, key);
      var earlier := KeyTimes(key, before);
      if c.key == key {
        assert (earlier + [c.askedAt])[..|earlier|] == earlier;
      }
    }
  }

  lemma {:induction false} ClientCallsTimeline(start: int, attempts: seq<Attempt>)
    requires Ordered(start, attempts)
    ensures Timeline(ClientCalls(attempts), 0)
    ensures forall i :: 0 <= i < |ClientCalls(attempts)| ==>
            attempts != [] && ClientCalls(attempts)[i].askedAt <= attempts[|attempts| - 1].at
  {
    if attempts != [] {
      var before, a := attempts[..|attempts| - 1], attempts[|attempts| - 1];
      assert before + [a] == attempts;
      OrderedPrefix(start, before, a);
      ClientCallsTimeline(start, before);
      if a.isPost {
        TimelineSnoc(ClientCalls(before), CallOf(a));
      }
    }
  }

  lemma TimelineSnoc(calls: seq<Call>, c: Call)
    requires Timeline(calls, 0)
    requires c.at == c.bornAt == c.askedAt
    requires forall i :: 0 <= i < |calls| ==> calls[i].askedAt <= c.at
    ensures Timeline(calls + [c], 0)
  {
  }

  lemma {:induction false} ClientsSeeTheirCalls(g: Gate, attempts: seq<Attempt>)
    ensures AfterAttempts(g, attempts).clients == AfterCalls(g.clients, ClientCalls(attempts))
  {
    if attempts != [] {
      var before, a := attempts[..|attempts| - 1], attempts[|attempts| - 1];
      ClientsSeeTheirCalls(g, before);
      var calls := ClientCalls(before);
      assert (calls + [CallOf(a)])[..|calls|] == calls;
    }
  }

  lemma BothLimitersHideTheirPruning()
    ensures PruningInvisible(LOGIN_PER_CLIENT_PER_MINUTE, LOGIN_PER_CLIENT_BURST, 0)
    ensures PruningInvisible(API_PER_MINUTE, API_BURST, 0)
    ensures PruningInvisible(LOGIN_PER_CLIENT_PER_MINUTE, LOGIN_PER_CLIENT_BURST, IDLE_NS - 60 * SECOND_NS)
    ensures PruningInvisible(API_PER_MINUTE, API_BURST, IDLE_NS - 15 * SECOND_NS)
  {
    PruningInvisibleIff(LOGIN_PER_CLIENT_PER_MINUTE, LOGIN_PER_CLIENT_BURST);
    PruningInvisibleIff(API_PER_MINUTE, API_BURST);
    PruningIsInvisible(LOGIN_PER_CLIENT_PER_MINUTE, LOGIN_PER_CLIENT_BURST, IDLE_NS - 60 * SECOND_NS);
    PruningIsInvisible(API_PER_MINUTE, API_BURST, IDLE_NS - 15 * SECOND_NS);
  }

  /** Fewer instants, fewer in any window. */
  ghost predicate NoMoreThan(few: seq<int>, many: seq<int>) {
    forall s, e :: CountBetween(few, s, e) <= CountBetween(many, s, e)
  }

  lemma NoMoreThanSnoc(few: seq<int>, many: seq<int>, t: int)
    requires NoMoreThan(few, many)
    ensures NoMoreThan(few + [t], many + [t])
    ensures NoMoreThan(few, many + [t])
  {
    forall s, e
      ensures CountBetween(few + [t], s, e) <= CountBetween(many + [t], s, e)
      ensures CountBetween(few, s, e) <= CountBetween(many + [t], s, e)
    {
      CountAppend(few, t, s, e);
      CountAppend(many, t, s, e);
    }
  }

  function OwnGrants(key: string, calls: seq<Call>): seq<int> {
    GrantTimes(Fresh(LOGIN_PER_CLIENT_PER_MINUTE, LOGIN_PER_CLIENT_BURST, BirthOf(key, calls)), KeyTimes(key, calls))
  }

  /** A client's passes are among the grants of its own ideal bucket. */
  lemma {:induction false} PassesAreOwnGrants(start: int, attempts: seq<Attempt>, key: string)
    requires Ordered(start, attempts)
    ensures NoMoreThan(PassTimes(NewGate(start), attempts, Some(key)), OwnGrants(key, ClientCalls(attempts)))
  {
    if attempts != [] {
      var before, a := attempts[..|attempts| - 1], attempts[|attempts| - 1];
      assert before + [a] == attempts;
      OrderedPrefix(start, before, a);
      PassesAreOwnGrants(start, before, key);
      ClientCallsTimeline(start, before);
      ClientCallsTimeline(start, attempts);
      if a.isPost {
        assert ClientCalls(attempts) == ClientCalls(before) + [CallOf(a)];
        OneMorePost(start, before, a, key);
      }
    }
  }

  lemma GrantsSnoc(b: State, own: seq<int>, now: int)
    ensures GrantTimes(b, own + [now]) ==
            if AllowAt(After(b, own), now).1.Granted? then GrantTimes(b, own) + [now] else GrantTimes(b, own)
  {
    assert (own + [now])[..|own|] == own;
  }

  /** One more call of the key: its own history grows, seen from the same new bucket. */
  lemma OwnHistorySnoc(perMinute: real, burst: int, key: string, calls: seq<Call>, c: Call)
    requires c.key == key
    ensures KeyTimes(key, calls + [c]) == KeyTimes(key, calls) + [c.askedAt]
    ensures
      var b := Fresh(perMinute, burst, BirthOf(key, calls + [c]));
      && IdealOr(perMinute, burst, calls, c) == After(b, KeyTimes(key, calls))
      && GrantTimes(b, KeyTimes(key, calls)) ==
         GrantTimes(Fresh(perMinute, burst, BirthOf(key, calls)), KeyTimes(key, calls))
  {
    assert (calls + [c])[..|calls|] == calls;
    IdealIsOwnHistory(perMinute, burst, key, calls);
  }

  lemma OwnGrantsSnoc(key: string, gap: int, calls: seq<Call>, c: Call)
    requires PruningInvisible(LOGIN_PER_CLIENT_PER_MINUTE, LOGIN_PER_CLIENT_BURST, gap)
    requires Timeline(calls + [c], gap)
    ensures
      var l := AfterCalls(NewLimiter(LOGIN_PER_CLIENT_PER_MINUTE, LOGIN_PER_CLIENT_BURST), calls);
      OwnGrants(key, calls + [c]) ==
      if c.key == key && AllowCall(l, c).1.Granted? then OwnGrants(key, calls) + [c.askedAt] else OwnGrants(key, calls)
  {
    var rate, burst := LOGIN_PER_CLIENT_PER_MINUTE, LOGIN_PER_CLIENT_BURST;
    if c.key == key {
      AnswersAgreeAtTheEnd(rate, burst, gap, calls, c);
      OwnHistorySnoc(rate, burst, key, calls, c);
      GrantsSnoc(Fresh(rate, burst, BirthOf(key, calls + [c])), KeyTimes(key, calls), c.askedAt);
    } else {
      assert (calls + [c])[..|calls|] == calls;
    }
  }

  lemma OneMorePost(start: int, before: seq<Attempt>, a: Attempt, key: string)
    requires a.isPost
    requires Timeline(ClientCalls(before) + [CallOf(a)], 0)
    requires NoMoreThan(PassTimes(NewGate(start), before, Some(key)), OwnGrants(key, ClientCalls(before)))
    ensures NoMoreThan(PassTimes(NewGate(start), before + [a], Some(key)), OwnGrants(key, ClientCalls(before + [a])))
  {
    var calls, c := ClientCalls(before), CallOf(a);
    assert (before + [a])[..|before|] == before;
    ClientsSeeTheirCalls(NewGate(start), before);
    BothLimitersHideTheirPruning();
    OwnGrantsSnoc(key, 0, calls, c);
    NoMoreThanSnoc(PassTimes(NewGate(start), before, Some(key)), OwnGrants(key, calls), a.at);
  }

  /** One client: at most 5 POSTs, plus one every 12 seconds, in any window, although
      its bucket is deleted whenever it stays idle. */
  lemma ClientPassesStayBounded(start: int, attempts: seq<Attempt>, key: string, s: int, e: int)
    requires Ordered(start, attempts)
    ensures WithinBound(LOGIN_PER_CLIENT_PER_MINUTE, LOGIN_PER_CLIENT_BURST,
                        PassTimes(NewGate(start), attempts, Some(key)), s, e)
  {
    var calls := ClientCalls(attempts);
    PassesAreOwnGrants(start, attempts, key);
    ClientCallsTimeline(start, attempts);
    KeyTimesMonotone(key, calls, 0);
    var passes, grants := PassTimes(NewGate(start), attempts, Some(key)), OwnGrants(key, calls);
    assert CountBetween(passes, s, e) <= CountBetween(grants, s, e);
    if KeyTimes(key, calls) != [] {
      NoWindowExceedsItsBound(LOGIN_PER_CLIENT_PER_MINUTE, LOGIN_PER_CLIENT_BURST, BirthOf(key, calls),
                              KeyTimes(key, calls), s, e);
    }
  }

  // ------------------------------------------------------------------- the verdicts

  function Verdicts(g: Gate, attempts: seq<Attempt>): (verdicts: seq<Verdict>)
    ensures |verdicts| == |attempts|
  {
    if attempts == [] then []
    else
      var before := attempts[..|attempts| - 1];
      Verdicts(g, before) + [Decide(AfterAttempts(g, before), attempts[|attempts| - 1]).1]
  }

  lemma {:induction false} VerdictsConcat(g: Gate, xs: seq<Attempt>, ys: seq<Attempt>)
    ensures AfterAttempts(g, xs + ys) == AfterAttempts(AfterAttempts(g, xs), ys)
    ensures Verdicts(g, xs + ys) == Verdicts(g, xs) + Verdicts(AfterAttempts(g, xs), ys)
  {
    if ys == [] {
      assert xs + ys == xs;
    } else {
      var front := ys[..|ys| - 1];
      assert (xs + ys)[..|xs + ys| - 1] == xs + front;
      VerdictsConcat(g, xs, front);
    }
  }

  lemma OneVerdict(g: Gate, a: Attempt)
    ensures AfterAttempts(g, [a]) == Decide(g, a).0 && Verdicts(g, [a]) == [Decide(g, a).1]
  {
    assert [a][..0] == [];
    assert AfterAttempts(g, []) == g && Verdicts(g, []) == [];
  }

  /** A request that is no POST passes, wherever it comes in a history, and without it every
      other verdict is the same. */
  lemma OthersPassUnseen(g: Gate, pre: seq<Attempt>, a: Attempt, post: seq<Attempt>)
    requires !a.isPost
    ensures AfterAttempts(g, pre + [a]) == AfterAttempts(g, pre)
    ensures Verdicts(g, pre + [a] + post) ==
            Verdicts(g, pre + post)[..|pre|] + [Passed] + Verdicts(g, pre + post)[|pre|..]
    ensures AfterAttempts(g, pre + [a] + post) == AfterAttempts(g, pre + post)
  {
    VerdictsConcat(g, pre, [a]);
    VerdictsConcat(g, pre + [a], post);
    VerdictsConcat(g, pre, post);
    OneVerdict(AfterAttempts(g, pre), a);
  }

  /** What each POST is told, in numbers: the answer of its client's own bucket of 5, refilled
      at 5 a minute and never deleted, if that denies, and otherwise the answer of the bucket
      of 60, refilled at 60 a minute, that those of all clients have reached. */
  lemma PostIsToldBy(start: int, before: seq<Attempt>, a: Attempt)
    requires Ordered(start, before + [a]) && a.isPost
    ensures
      var own := AllowAt(IdealOr(5.0, 5, ClientCalls(before), CallOf(a)), a.at).1;
      var shared := AllowAt(After(Fresh(60.0, 60, start), CeilingTimes(NewGate(start), before)), a.at).1;
      Verdicts(NewGate(start), before + [a])[|before|] ==
      if own.Denied? then Rejected(own.retrySeconds)
      else if shared.Denied? then Rejected(shared.retrySeconds)
      else Passed
  {
    var g := AfterAttempts(NewGate(start), before);
    assert (before + [a])[..|before|] == before;
    ClientCallsTimeline(start, before + [a]);
    assert ClientCalls(before + [a]) == ClientCalls(before) + [CallOf(a)];
    ClientsSeeTheirCalls(NewGate(start), before);
    BothLimitersHideTheirPruning();
    AnswersAgreeAtTheEnd(5.0, 5, 0, ClientCalls(before), CallOf(a));
    OrderedPrefix(start, before, a);
    CeilingHistory(start, before);
  }

  /** In numbers: in a window of `e - s` nanoseconds all clients pass at most 60 POSTs and one
      for every second, and one client at most 5 and one for every twelve. */
  lemma PassesInNumbers(start: int, attempts: seq<Attempt>, key: string, s: int, e: int)
    requires Ordered(start, attempts) && s <= e
    ensures CountBetween(PassTimes(NewGate(start), attempts, None), s, e) as real <=
            60.0 + (e - s) as real / 1_000_000_000.0
    ensures CountBetween(PassTimes(NewGate(start), attempts, Some(key)), s, e) as real <=
            5.0 + (e - s) as real / 12_000_000_000.0
  {
    PassesStayUnderCeiling(start, attempts, s, e);
    ClientPassesStayBounded(start, attempts, key, s, e);
    assert Gain(60.0, e - s) == (e - s) as real / 1_000_000_000.0;
    assert Gain(5.0, e - s) == (e - s) as real / 12_000_000_000.0;
  }
}
