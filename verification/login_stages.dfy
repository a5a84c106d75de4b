/** Logins at once. The client limiter and the ceiling of internal/ratelimit/ratelimit.go have
    a mutex each, so two requests may be decided in one order by the first and in the other
    by the second, with every clock reading taken on its own. */
module LoginStages {
  import opened Text
  import opened TokenBucket
  import opened ClientLimits
  import opened LoginGate

  /** A request at the ceiling: its instant there, and which call of the client limiter it made before. */
  datatype Ask = Ask(call: nat, now: int)

  /** Each limiter's calls in the order of its own mutex. */
  datatype History = History(calls: seq<Call>, asks: seq<Ask>)

  /** How far apart the readings of one call may be. */
  const GAP := IDLE_NS - 60 * SECOND_NS

  function Instants(asks: seq<Ask>): (times: seq<int>)
    ensures |times| == |asks|
    ensures forall j :: 0 <= j < |asks| ==> times[j] == asks[j].now
  {
    if asks == [] then [] else Instants(asks[..|asks| - 1]) + [asks[|asks| - 1].now]
  }

  predicate GrantedByClient(calls: seq<Call>, i: nat)
    requires i < |calls|
  {
    var l := AfterCalls(NewLimiter(LOGIN_PER_CLIENT_PER_MINUTE, LOGIN_PER_CLIENT_BURST), calls[..i]);
    AllowCall(l, calls[i]).1.Granted?
  }

  /** The ceiling, made at `start`, lets the `j`-th ask pass. */
  predicate Passes(start: int, asks: seq<Ask>, j: nat)
    requires j < |asks|
  {
    var b := After(Fresh(LOGIN_GLOBAL_PER_MINUTE, LOGIN_GLOBAL_BURST, start), Instants(asks[..j]));
    AllowAt(b, asks[j].now).1.Granted?
  }

  /** Clocks that never go back at either limiter; only a request that the client limiter
      granted asks the ceiling, once, and afterwards. */
  ghost predicate Happens(start: int, h: History) {
    && Timeline(h.calls, GAP) && Monotone(start, Instants(h.asks))
    && (forall j :: 0 <= j < |h.asks| ==>
                      && h.asks[j].call < |h.calls| && GrantedByClient(h.calls, h.asks[j].call)
                      && h.calls[h.asks[j].call].askedAt <= h.asks[j].now)
    && (forall j, k :: 0 <= j < k < |h.asks| ==> h.asks[j].call != h.asks[k].call)
  }

  // --------------------------------------------------------------------- all clients

  /** The requests that pass with their instant at the ceiling in the window. */
  function PassedBetween(start: int, asks: seq<Ask>, s: int, e: int): set<nat> {
    set j: nat | j < |asks| && Passes(start, asks, j) && s <= asks[j].now <= e
  }

  lemma SamePass(start: int, asks: seq<Ask>, last: Ask, j: nat)
    requires j < |asks|
    ensures Passes(start, asks + [last], j) == Passes(start, asks, j) && (asks + [last])[j] == asks[j]
  {
    assert (asks + [last])[..j] == asks[..j];
  }

  lemma OneMore(before: set<nat>, after: set<nat>, n: nat, more: bool)
    requires forall j :: j in after <==> j in before || (more && j == n)
    requires n !in before
    ensures |after| == |before| + if more then 1 else 0
  {
    assert after == before + if more then {n} else {};
  }

  lemma OneMoreAsk(start: int, asks: seq<Ask>, last: Ask, s: int, e: int)
    ensures |PassedBetween(start, asks + [last], s, e)| ==
            |PassedBetween(start, asks, s, e)| +
            if Passes(start, asks + [last], |asks|) && s <= last.now <= e then 1 else 0
  {
    var all := asks + [last];
    var more := Passes(start, all, |asks|) && s <= last.now <= e;
    forall j: nat
      ensures j in PassedBetween(start, all, s, e) <==> j in PassedBetween(start, asks, s, e) || (more && j == |asks|)
    {
      if j < |asks| {
        SamePass(start, asks, last, j);
      }
    }
    OneMore(PassedBetween(start, asks, s, e), PassedBetween(start, all, s, e), |asks|, more);
  }

  lemma PassedIsGranted(start: int, asks: seq<Ask>, last: Ask)
    ensures
      var b := Fresh(LOGIN_GLOBAL_PER_MINUTE, LOGIN_GLOBAL_BURST, start);
      GrantTimes(b, Instants(asks + [last])) ==
      if Passes(start, asks + [last], |asks|) then GrantTimes(b, Instants(asks)) + [last.now]
      else GrantTimes(b, Instants(asks))
  {
    assert (asks + [last])[..|asks|] == asks;
    GrantsSnoc(Fresh(LOGIN_GLOBAL_PER_MINUTE, LOGIN_GLOBAL_BURST, start), Instants(asks), last.now);
  }

  lemma {:induction false} PassesAreGrants(start: int, asks: seq<Ask>, s: int, e: int)
    ensures |PassedBetween(start, asks, s, e)| ==
            CountBetween(GrantTimes(Fresh(LOGIN_GLOBAL_PER_MINUTE, LOGIN_GLOBAL_BURST, start), Instants(asks)), s, e)
  {
    if asks == [] {
      assert PassedBetween(start, asks, s, e) == {};
    } else {
      var front, last := asks[..|asks| - 1], asks[|asks| - 1];
      assert asks == front + [last];
      PassesAreGrants(start, front, s, e);
      OneMoreAsk(start, front, last, s, e);
      PassedIsGranted(start, front, last);
      CountAppend(GrantTimes(Fresh(LOGIN_GLOBAL_PER_MINUTE, LOGIN_GLOBAL_BURST, start), Instants(front)), last.now, s,
                  e);
    }
  }

  /** In any interleaving at most 60 requests, and one a second, pass in any window. */
  lemma CeilingBoundsEveryHistory(start: int, h: History, s: int, e: int)
    requires Happens(start, h) && s <= e
    ensures |PassedBetween(start, h.asks, s, e)| as real <=
            LOGIN_GLOBAL_BURST as real + Gain(LOGIN_GLOBAL_PER_MINUTE, e - s)
  {
    PassesAreGrants(start, h.asks, s, e);
    NoWindowExceedsItsBound(LOGIN_GLOBAL_PER_MINUTE, LOGIN_GLOBAL_BURST, start, Instants(h.asks), s, e);
  }

  // ---------------------------------------------------------------------- one client

  /** The client's calls that were granted with their instant in the window. */
  function GrantedBetween(calls: seq<Call>, key: string, s: int, e: int): set<nat> {
    set i: nat | i < |calls| && calls[i].key == key && GrantedByClient(calls, i) && s <= calls[i].askedAt <= e
  }

  lemma SameGrant(calls: seq<Call>, c: Call, i: nat)
    requires i < |calls|
    ensures GrantedByClient(calls + [c], i) == GrantedByClient(calls, i) && (calls + [c])[i] == calls[i]
  {
    assert (calls + [c])[..i] == calls[..i];
  }

  lemma OneMoreCall(calls: seq<Call>, c: Call, key: string, s: int, e: int)
    ensures |GrantedBetween(calls + [c], key, s, e)| ==
            |GrantedBetween(calls, key, s, e)| +
            if c.key == key && GrantedByClient(calls + [c], |calls|) && s <= c.askedAt <= e then 1 else 0
  {
    var all := calls + [c];
    var more := c.key == key && GrantedByClient(all, |calls|) && s <= c.askedAt <= e;
    forall i: nat
      ensures i in GrantedBetween(all, key, s, e) <==> i in GrantedBetween(calls, key, s, e) || (more && i == |calls|)
    {
      if i < |calls| {
        SameGrant(calls, c, i);
      }
    }
    OneMore(GrantedBetween(calls, key, s, e), GrantedBetween(all, key, s, e), |calls|, more);
  }

  lemma GrantedIsOwn(calls: seq<Call>, c: Call, key: string)
    requires Timeline(calls + [c], GAP)
    ensures OwnGrants(key, calls + [c]) ==
            if c.key == key && GrantedByClient(calls + [c], |calls|) then OwnGrants(key, calls) + [c.askedAt]
            else OwnGrants(key, calls)
  {
    assert (calls + [c])[..|calls|] == calls;
    BothLimitersHideTheirPruning();
    OwnGrantsSnoc(key, GAP, calls, c);
  }

  lemma {:induction false} GrantedAreOwnGrants(calls: seq<Call>, key: string, s: int, e: int)
    requires Timeline(calls, GAP)
    ensures |GrantedBetween(calls, key, s, e)| == CountBetween(OwnGrants(key, calls), s, e)
  {
    if calls == [] {
      assert GrantedBetween(calls, key, s, e) == {};
    } else {
      var front, c := calls[..|calls| - 1], calls[|calls| - 1];
      assert front + [c] == calls;
      TimelinePrefix(front, c, GAP);
      GrantedAreOwnGrants(front, key, s, e);
      OneMoreCall(front, c, key, s, e);
      GrantedIsOwn(front, c, key);
      CountAppend(OwnGrants(key, front), c.askedAt, s, e);
    }
  }

  /** The client's requests that pass, by their instant at the client limiter. */
  function PassedByClient(start: int, h: History, key: string, s: int, e: int): set<nat> {
    set j: nat | j < |h.asks| && Passes(start, h.asks, j) && h.asks[j].call in GrantedBetween(h.calls, key, s, e)
  }

  lemma {:induction false} DistinctAsks(asks: seq<Ask>, js: set<nat>, calls: set<nat>)
    requires forall j :: j in js ==> j < |asks| && asks[j].call in calls
    requires forall j, k :: 0 <= j < k < |asks| ==> asks[j].call != asks[k].call
    ensures |js| <= |calls|
    decreases js
  {
    if js != {} {
      var j :| j in js;
      DistinctAsks(asks, js - {j}, calls - {asks[j].call});
    }
  }

  /** In any interleaving at most 5 requests of one client, and one every 12 seconds, pass in
      any window, counted when the client limiter granted them, although the client's bucket
      is deleted whenever it stays idle. */
  lemma ClientBoundsEveryHistory(start: int, h: History, key: string, s: int, e: int)
    requires Happens(start, h) && s <= e
    ensures |PassedByClient(start, h, key, s, e)| as real <=
            LOGIN_PER_CLIENT_BURST as real + Gain(LOGIN_PER_CLIENT_PER_MINUTE, e - s)
  {
    DistinctAsks(h.asks, PassedByClient(start, h, key, s, e), GrantedBetween(h.calls, key, s, e));
    GrantedAreOwnGrants(h.calls, key, s, e);
    KeyTimesMonotone(key, h.calls, GAP);
    if KeyTimes(key, h.calls) != [] {
      NoWindowExceedsItsBound(LOGIN_PER_CLIENT_PER_MINUTE, LOGIN_PER_CLIENT_BURST, BirthOf(key, h.calls),
                              KeyTimes(key, h.calls), s, e);
    }
  }
}
