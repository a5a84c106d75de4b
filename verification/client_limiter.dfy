/** The per-client limiter of internal/ratelimit/ratelimit.go: one bucket per key,
    with idle entries deleted lazily inside `Allow`.

    The program reads the clock up to three times in one call: to prune and stamp the
    entry, when a new bucket is built, and when the bucket decides. A `Call` carries
    the three readings. */
module ClientLimits {
  import opened Text
  import opened TokenBucket

  const IDLE_NS := 1_800_000_000_000
  /** The zero value of the time type: 1 January of year 1, in Unix nanoseconds. */
  const ZERO_TIME_NS := -62_135_596_800_000_000_000

  datatype Entry = Entry(bucket: State, lastSeen: int)

  datatype Limiter = Limiter(perMinute: real, burst: int, clients: map<string, Entry>, lastPrune: int)

  datatype Call = Call(key: string, at: int, bornAt: int, askedAt: int)

  function NewLimiter(perMinute: real, burst: int): Limiter {
    Limiter(perMinute, burst, map[], ZERO_TIME_NS)
  }

  function Pruned(l: Limiter, now: int): Limiter {
    if now - l.lastPrune > IDLE_NS then
      l.(clients := map k | k in l.clients && !(now - l.clients[k].lastSeen > IDLE_NS) :: l.clients[k],
      lastPrune := now)
    else l
  }

  function BucketOf(l: Limiter, c: Call): State {
    if c.key in l.clients then l.clients[c.key].bucket else Fresh(l.perMinute, l.burst, c.bornAt)
  }

  function AllowCall(l: Limiter, c: Call): (Limiter, Answer) {
    var p := Pruned(l, c.at);
    var (b, answer) := AllowAt(BucketOf(p, c), c.askedAt);
    (p.(clients := p.clients[c.key := Entry(b, c.at)]), answer)
  }

  /** The limiter once the key of `c` has an entry. */
  function WithEntry(l: Limiter, c: Call): Limiter {
    if c.key in l.clients then l
    else l.(clients := l.clients[c.key := Entry(Fresh(l.perMinute, l.burst, c.bornAt), c.at)])
  }

  /** Pruning, finding the entry and asking its bucket are one call. */
  lemma CallInSteps(l: Limiter, c: Call)
    ensures
      var found := WithEntry(Pruned(l, c.at), c);
      var decided := AllowAt(found.clients[c.key].bucket, c.askedAt);
      AllowCall(l, c) == (found.(clients := found.clients[c.key := Entry(decided.0, c.at)]), decided.1)
  {
    var p := Pruned(l, c.at);
    var found := WithEntry(p, c);
    assert found.clients[c.key].bucket == BucketOf(p, c);
    var e := Entry(AllowAt(BucketOf(p, c), c.askedAt).0, c.at);
    assert found.clients[c.key := e] == p.clients[c.key := e];
  }

  // -------------------------------------------------------------- the classes

  class ClientEntry {
    const bucket: Bucket
    var lastSeen: int

    constructor (bucket: Bucket, lastSeen: int)
      ensures this.bucket == bucket && this.lastSeen == lastSeen
    {
      this.bucket, this.lastSeen := bucket, lastSeen;
    }
  }

  class ClientLimiter {
    const perMinute: real
    const burst: int
    var clients: map<string, ClientEntry>
    var lastPrune: int

    /** The entries and buckets ever created. */
    ghost var Repr: set<object>

    ghost predicate Valid()
      reads this
    {
      && this !in Repr
      && (forall k :: k in clients ==> clients[k] in Repr && clients[k].bucket in Repr)
      && (forall j, k :: j in clients && k in clients && j != k ==>
                           clients[j] != clients[k] && clients[j].bucket != clients[k].bucket)
    }

    ghost function View(): Limiter
      requires Valid()
      reads this, Repr
    {
      Limiter(perMinute, burst, map k | k in clients :: Entry(clients[k].bucket.View(), clients[k].lastSeen), lastPrune)
    }

    constructor (perMinute: real, burst: int)
      ensures Valid() && Repr == {}
      ensures View() == NewLimiter(perMinute, burst)
    {
      this.perMinute, this.burst, clients, lastPrune := perMinute, burst, map[], ZERO_TIME_NS;
      Repr := {};
    }

    predicate Idle(entry: ClientEntry, now: int)
      reads entry
    {
      now - entry.lastSeen > IDLE_NS
    }

    /** The sweep over the map, in whatever order its keys come. */
    method Sweep(now: int)
      modifies this`clients
      ensures forall k :: k in clients <==> k in old(clients) && !Idle(old(clients)[k], now)
      ensures forall k :: k in clients ==> clients[k] == old(clients)[k]
    {
      var todo := clients.Keys;
      while todo != {}
        invariant todo <= old(clients.Keys)
        invariant forall k :: k in clients <==> k in old(clients) && (k in todo || !Idle(old(clients)[k], now))
        invariant forall k :: k in clients ==> clients[k] == old(clients)[k]
      {
        var k :| k in todo;
        if Idle(clients[k], now) {
          clients := clients - {k};
        }
        todo := todo - {k};
      }
    }

    method Prune(now: int)
      requires Valid()
      modifies this
      ensures Valid() && Repr == old(Repr)
      ensures View() == Pruned(old(View()), now)
    {
      if now - lastPrune > IDLE_NS {
        Sweep(now);
        lastPrune := now;
        assert View().clients == Pruned(old(View()), now).clients;
      }
    }

    /** The entry of the key, created on first use. */
    method Find(key: string, at: int, bornAt: int) returns (entry: ClientEntry)
      requires Valid()
      modifies this
      ensures Valid() && fresh(Repr - old(Repr)) && old(Repr) <= Repr
      ensures key in clients && clients[key] == entry
      ensures View() == WithEntry(old(View()), Call(key, at, bornAt, bornAt))
    {
      if key !in clients {
        var bucket := new Bucket(perMinute, burst, bornAt);
        var created := new ClientEntry(bucket, at);
        clients := clients[key := created];
        Repr := Repr + {bucket, created};
        assert View().clients == old(View()).clients[key := Entry(Fresh(perMinute, burst, bornAt), at)];
      }
      entry := clients[key];
    }

    /** Stamps the entry and lets its bucket decide. */
    method Ask(key: string, at: int, askedAt: int) returns (ok: bool, retrySeconds: int)
      requires Valid() && key in clients
      modifies clients[key], clients[key].bucket
      ensures Valid()
      ensures
        var decided := AllowAt(old(View()).clients[key].bucket, askedAt);
        && View() == old(View()).(clients := old(View()).clients[key := Entry(decided.0, at)])
        && (if ok then Granted else Denied(retrySeconds)) == decided.1
    {
      var entry := clients[key];
      entry.lastSeen := at;
      ok, retrySeconds := entry.bucket.Allow(askedAt);
    }

    method Allow(key: string, at: int, bornAt: int, askedAt: int) returns (ok: bool, retrySeconds: int)
      requires Valid()
      modifies this, Repr
      ensures Valid() && fresh(Repr - old(Repr))
      ensures (View(), if ok then Granted else Denied(retrySeconds)) ==
              AllowCall(old(View()), Call(key, at, bornAt, askedAt))
    {
      ghost var c := Call(key, at, bornAt, askedAt);
      Prune(at);
      var entry := Find(key, at, bornAt);
      ok, retrySeconds := Ask(key, at, askedAt);
      CallInSteps(old(View()), c);
    }
  }

  // ------------------------------------------------------------ call histories

  function AfterCalls(l: Limiter, calls: seq<Call>): Limiter {
    if calls == [] then l
    else AllowCall(AfterCalls(l, calls[..|calls| - 1]), calls[|calls| - 1]).0
  }

  function CallAnswers(l: Limiter, calls: seq<Call>): seq<Answer> {
    if calls == [] then []
    else
      var before := calls[..|calls| - 1];
      CallAnswers(l, before) + [AllowCall(AfterCalls(l, before), calls[|calls| - 1]).1]
  }

  /** One bucket for one key, fed only that key's calls and never deleted. */
  function Ideal(perMinute: real, burst: int, key: string, calls: seq<Call>): Option<State>
    decreases |calls|, 0
  {
    if calls == [] then None
    else
      var before, c := calls[..|calls| - 1], calls[|calls| - 1];
      if c.key == key then Some(AllowAt(IdealOr(perMinute, burst, before, c), c.askedAt).0)
      else Ideal(perMinute, burst, key, before)
  }

  /** The ideal bucket that decides call `c`: the key's own, or a new one at its first call. */
  function IdealOr(perMinute: real, burst: int, before: seq<Call>, c: Call): State
    decreases |before|, 1
  {
    match Ideal(perMinute, burst, c.key, before)
    case Some(b) => b
    case None => Fresh(perMinute, burst, c.bornAt)
  }

  function IdealAnswers(perMinute: real, burst: int, calls: seq<Call>): seq<Answer> {
    if calls == [] then []
    else
      var before, c := calls[..|calls| - 1], calls[|calls| - 1];
      IdealAnswers(perMinute, burst, before) + [AllowAt(IdealOr(perMinute, burst, before, c), c.askedAt).1]
  }

  /** Calls under one mutex and a clock that never goes back; the three readings of
      one call lie within `gap` nanoseconds. */
  ghost predicate Timeline(calls: seq<Call>, gap: int) {
    && (forall i :: 0 <= i < |calls| ==> calls[i].at <= calls[i].bornAt <= calls[i].askedAt <= calls[i].at + gap)
    && (forall i :: 0 < i < |calls| ==> calls[i - 1].askedAt <= calls[i].at)
  }

  /** The pruned limiter answers like one never-pruned bucket per key. */
  ghost predicate PruningInvisible(perMinute: real, burst: int, gap: int) {
    forall calls :: Timeline(calls, gap) ==>
                      CallAnswers(NewLimiter(perMinute, burst), calls) == IdealAnswers(perMinute, burst, calls)
  }

  // --------------------------------------------------------- what the limiter remembers

  /** The readings that stamp the entries never go back, and none is from before the year 1. */
  ghost predicate Stamped(calls: seq<Call>) {
    && (calls != [] ==> ZERO_TIME_NS <= calls[0].at)
    && forall i :: 0 < i < |calls| ==> calls[i - 1].at <= calls[i].at
  }

  lemma StampedPrefix(calls: seq<Call>)
    requires calls != [] && Stamped(calls)
    ensures Stamped(calls[..|calls| - 1])
    ensures |calls| > 1 ==> calls[|calls| - 2].at <= calls[|calls| - 1].at
  {
  }

  /** The limiter forgets: after any history no entry was last used more than an hour before the
      last call, and the sweeps are never more than half an hour apart while calls come in. */
  lemma {:induction false} EntriesAreRecent(perMinute: real, burst: int, calls: seq<Call>)
    requires calls != [] && Stamped(calls)
    ensures
      var l, now := AfterCalls(NewLimiter(perMinute, burst), calls), calls[|calls| - 1].at;
      && 0 <= now - l.lastPrune <= 1_800_000_000_000
      && (forall k :: k in l.clients ==> l.lastPrune - l.clients[k].lastSeen <= 1_800_000_000_000)
      && (forall k :: k in l.clients ==> 0 <= now - l.clients[k].lastSeen <= 3_600_000_000_000)
  {
    StampedPrefix(calls);
    var before := calls[..|calls| - 1];
    if before == [] {
      assert AfterCalls(NewLimiter(perMinute, burst), before) == NewLimiter(perMinute, burst);
    } else {
      EntriesAreRecent(perMinute, burst, before);
    }
  }

  // --------------------------------------------- sufficiency: an idle entry is full

  ghost predicate Sound(b: State, perMinute: real, burst: int) {
    b.perMinute == perMinute && b.capacity == burst as real && 0.0 <= b.tokens <= b.capacity
  }

  /** What ties the limiter to the ideal buckets after a history whose last call began at `now`. */
  ghost predicate Simulates(l: Limiter, perMinute: real, burst: int, calls: seq<Call>, gap: int, now: int) {
    && l.perMinute == perMinute && l.burst == burst
    && (forall k :: k in l.clients ==>
                      && Ideal(perMinute, burst, k, calls) == Some(l.clients[k].bucket)
                      && l.clients[k].lastSeen <= l.clients[k].bucket.last <= l.clients[k].lastSeen + gap)
    && (forall k :: Ideal(perMinute, burst, k, calls).Some? ==>
                      && Sound(Ideal(perMinute, burst, k, calls).value, perMinute, burst)
                      && (k !in l.clients ==> now - Ideal(perMinute, burst, k, calls).value.last > IDLE_NS - gap))
  }

  lemma PruneSimulates(l: Limiter, perMinute: real, burst: int, calls: seq<Call>, gap: int, before: int, now: int)
    requires Simulates(l, perMinute, burst, calls, gap, before)
    requires before <= now
    ensures Simulates(Pruned(l, now), perMinute, burst, calls, gap, now)
  {
  }

  lemma AskingKeepsSound(b: State, perMinute: real, burst: int, now: int)
    requires Sound(b, perMinute, burst)
    requires perMinute >= 0.0
    ensures Sound(AllowAt(b, now).0, perMinute, burst)
    ensures AllowAt(b, now).0.last == if now <= b.last then b.last else now
  {
    if b.last < now {
      GainSign(perMinute, now - b.last);
    }
  }

  /** Long enough idle, a bucket is as full as a new one. */
  lemma IdleBucketIsFull(b: State, perMinute: real, burst: int, idle: int, bornAt: int, now: int)
    requires Sound(b, perMinute, burst)
    requires perMinute >= 0.0
    requires burst as real <= Gain(perMinute, idle)
    requires 0 < idle <= now - b.last
    requires bornAt <= now
    ensures Refilled(b, now) == Refilled(Fresh(perMinute, burst, bornAt), now)
  {
    GainAdds(perMinute, idle, now - b.last - idle);
    GainSign(perMinute, now - b.last - idle);
    if bornAt < now {
      GainSign(perMinute, now - bornAt);
    }
  }

  lemma RateIsPositive(perMinute: real, burst: int, ns: int)
    requires burst >= 1 && ns >= 0
    requires burst as real <= Gain(perMinute, ns)
    ensures perMinute > 0.0
  {
    if perMinute <= 0.0 {
      GainSign(perMinute, ns);
    }
  }

  lemma CallSimulates(l: Limiter, perMinute: real, burst: int, calls: seq<Call>, gap: int, c: Call)
    requires burst >= 1 && 0 <= gap <= IDLE_NS
    requires burst as real <= Gain(perMinute, IDLE_NS - gap + 1)
    requires Simulates(l, perMinute, burst, calls, gap, c.at)
    requires l == Pruned(l, c.at)
    requires c.at <= c.bornAt <= c.askedAt <= c.at + gap
    requires forall k :: k in l.clients ==> l.clients[k].bucket.last <= c.askedAt
    ensures AllowAt(BucketOf(l, c), c.askedAt) == AllowAt(IdealOr(perMinute, burst, calls, c), c.askedAt)
    ensures Sound(AllowAt(BucketOf(l, c), c.askedAt).0, perMinute, burst)
    ensures AllowAt(BucketOf(l, c), c.askedAt).0.last == c.askedAt
  {
    RateIsPositive(perMinute, burst, IDLE_NS - gap + 1);
    var ideal := IdealOr(perMinute, burst, calls, c);
    AskingKeepsSound(BucketOf(l, c), perMinute, burst, c.askedAt);
    if c.key !in l.clients && Ideal(perMinute, burst, c.key, calls).Some? {
      IdleBucketIsFull(ideal, perMinute, burst, IDLE_NS - gap + 1, c.bornAt, c.askedAt);
    }
  }

  lemma TimelinePrefix(calls: seq<Call>, c: Call, gap: int)
    requires Timeline(calls + [c], gap)
    ensures Timeline(calls, gap)
    ensures c.at <= c.bornAt <= c.askedAt <= c.at + gap
    ensures calls != [] ==> calls[|calls| - 1].askedAt <= c.at
  {
    var all := calls + [c];
    assert all[|calls|] == c;
    assert forall i :: 0 <= i < |calls| ==> all[i] == calls[i];
  }

  lemma IdealSnoc(perMinute: real, burst: int, calls: seq<Call>, c: Call, k: string)
    ensures Ideal(perMinute, burst, k, calls + [c]) ==
            if c.key == k then Some(AllowAt(IdealOr(perMinute, burst, calls, c), c.askedAt).0)
            else Ideal(perMinute, burst, k, calls)
  {
    assert (calls + [c])[..|calls|] == calls;
  }

  ghost predicate LastsBefore(l: Limiter, now: int) {
    forall k :: k in l.clients ==> l.clients[k].bucket.last <= now
  }

  lemma {:induction false} HistorySimulates(perMinute: real, burst: int, calls: seq<Call>, gap: int, now: int)
    requires burst >= 1 && 0 <= gap <= IDLE_NS
    requires burst as real <= Gain(perMinute, IDLE_NS - gap + 1)
    requires Timeline(calls, gap)
    requires calls != [] ==> calls[|calls| - 1].askedAt <= now
    ensures Simulates(AfterCalls(NewLimiter(perMinute, burst), calls), perMinute, burst, calls, gap, now)
    ensures LastsBefore(AfterCalls(NewLimiter(perMinute, burst), calls), now)
    ensures CallAnswers(NewLimiter(perMinute, burst), calls) == IdealAnswers(perMinute, burst, calls)
  {
    if calls != [] {
      var l0 := NewLimiter(perMinute, burst);
      var before, c := calls[..|calls| - 1], calls[|calls| - 1];
      assert before + [c] == calls;
      TimelinePrefix(before, c, gap);
      HistorySimulates(perMinute, burst, before, gap, c.at);
      var l := AfterCalls(l0, before);
      PruneSimulates(l, perMinute, burst, before, gap, c.at, c.at);
      var p := Pruned(l, c.at);
      CallSimulates(p, perMinute, burst, before, gap, c);
      CallExtends(l, p, perMinute, burst, before, gap, c, now);
    }
  }

  lemma CallExtends(l: Limiter, p: Limiter, perMinute: real, burst: int, calls: seq<Call>, gap: int, c: Call, now: int)
    requires p == Pruned(l, c.at)
    requires Simulates(p, perMinute, burst, calls, gap, c.at)
    requires LastsBefore(p, c.at)
    requires c.at <= c.askedAt <= c.at + gap && c.askedAt <= now
    requires AllowAt(BucketOf(p, c), c.askedAt) == AllowAt(IdealOr(perMinute, burst, calls, c), c.askedAt)
    requires Sound(AllowAt(BucketOf(p, c), c.askedAt).0, perMinute, burst)
    requires AllowAt(BucketOf(p, c), c.askedAt).0.last == c.askedAt
    ensures Simulates(AllowCall(l, c).0, perMinute, burst, calls + [c], gap, now)
    ensures LastsBefore(AllowCall(l, c).0, now)
  {
    var l' := AllowCall(l, c).0;
    forall k
      ensures Ideal(perMinute, burst, k, calls + [c]) ==
              if c.key == k then Some(AllowAt(BucketOf(p, c), c.askedAt).0) else Ideal(perMinute, burst, k, calls)
      ensures k != c.key ==> (k in l'.clients <==> k in p.clients) && (k in p.clients ==> l'.clients[k] == p.clients[k])
    {
      IdealSnoc(perMinute, burst, calls, c, k);
    }
  }

  // ------------------------------------------------- a bucket below one token starves

  function StarvedAnswer(perMinute: real, burst: int): Answer {
    if perMinute <= 0.0 then Denied(3600) else Denied(RetrySeconds(Fresh(perMinute, burst, 0)))
  }

  ghost predicate Starved(b: State, perMinute: real, burst: int) {
    && b.perMinute == perMinute && b.capacity == burst as real && b.tokens <= b.capacity
    && (perMinute > 0.0 ==> b.tokens == b.capacity)
  }

  lemma StarvedStays(b: State, perMinute: real, burst: int, now: int)
    requires burst < 1
    requires Starved(b, perMinute, burst)
    ensures Starved(AllowAt(b, now).0, perMinute, burst)
    ensures AllowAt(b, now).1 == StarvedAnswer(perMinute, burst)
  {
    if b.last < now {
      GainSign(perMinute, now - b.last);
    }
    assert Starved(Refilled(b, now), perMinute, burst);
  }

  ghost predicate AllStarved(l: Limiter, perMinute: real, burst: int, calls: seq<Call>) {
    && l.perMinute == perMinute && l.burst == burst
    && (forall k :: k in l.clients ==> Starved(l.clients[k].bucket, perMinute, burst))
    && (forall k :: Ideal(perMinute, burst, k, calls).Some? ==>
        Starved(Ideal(perMinute, burst, k, calls).value, perMinute, burst))
  }

  lemma {:induction false} StarvedHistory(perMinute: real, burst: int, calls: seq<Call>)
    requires burst < 1
    ensures AllStarved(AfterCalls(NewLimiter(perMinute, burst), calls), perMinute, burst, calls)
    ensures CallAnswers(NewLimiter(perMinute, burst), calls) == IdealAnswers(perMinute, burst, calls)
  {
    if calls != [] {
      var before, c := calls[..|calls| - 1], calls[|calls| - 1];
      StarvedHistory(perMinute, burst, before);
      var l := AfterCalls(NewLimiter(perMinute, burst), before);
      StarvedStays(BucketOf(Pruned(l, c.at), c), perMinute, burst, c.askedAt);
      assert Ideal(perMinute, burst, c.key, before).Some? ==>
          Starved(Ideal(perMinute, burst, c.key, before).value, perMinute, burst);
      StarvedStays(IdealOr(perMinute, burst, before, c), perMinute, burst, c.askedAt);
      assert before + [c] == calls;
      forall k
        ensures Ideal(perMinute, burst, k, calls).Some? ==>
                Starved(Ideal(perMinute, burst, k, calls).value, perMinute, burst)
      {
        IdealSnoc(perMinute, burst, before, c, k);
      }
    }
  }

  // ------------------------------------- necessity: a slow bucket betrays the pruning

  function Single(t: int): Call {
    Call("client", t, t, t)
  }

  /** `drained` calls at 0 and `more` calls one nanosecond past the idle timeout. */
  function Probe(drained: nat, more: nat): seq<Call> {
    if more > 0 then Probe(drained, more - 1) + [Single(IDLE_NS + 1)]
    else if drained > 0 then Probe(drained - 1, 0) + [Single(0)]
    else []
  }

  lemma {:induction false} ProbeShape(drained: nat, more: nat)
    ensures |Probe(drained, more)| == drained + more
    ensures forall i :: 0 <= i < drained + more ==>
                          Probe(drained, more)[i] == Single(if i < drained then 0 else IDLE_NS + 1)
    ensures Timeline(Probe(drained, more), 0)
  {
    if more > 0 {
      ProbeShape(drained, more - 1);
    } else if drained > 0 {
      ProbeShape(drained - 1, 0);
    }
  }

  /** The limiter and the ideal bucket after `n` calls at 0. */
  ghost predicate Drained(l: Limiter, ideal: Option<State>, perMinute: real, burst: int, n: int) {
    var b := State(perMinute, burst as real, (burst - n) as real, 0);
    && l.perMinute == perMinute && l.burst == burst && l.lastPrune <= 0
    && l.clients == (if n == 0 then map[] else map["client" := Entry(b, 0)])
    && ideal == (if n == 0 then None else Some(b))
  }

  lemma DrainOnce(l: Limiter, ideal: Option<State>, perMinute: real, burst: int, n: nat)
    requires Drained(l, ideal, perMinute, burst, n) && n < burst
    ensures
      var b := if ideal.Some? then ideal.value else Fresh(perMinute, burst, 0);
      Drained(AllowCall(l, Single(0)).0, Some(AllowAt(b, 0).0), perMinute, burst, n + 1)
  {
    var p := Pruned(l, 0);
    assert p.clients == l.clients;
    var b := BucketOf(p, Single(0));
    assert b == State(perMinute, burst as real, (burst - n) as real, 0);
    assert AllowAt(b, 0) == (b.(tokens := (burst - n - 1) as real), Granted);
  }

  lemma OneMoreAtZero(before: seq<Call>, perMinute: real, burst: int, n: nat)
    requires Drained(AfterCalls(NewLimiter(perMinute, burst), before), Ideal(perMinute, burst, "client", before),
                     perMinute, burst, n)
    requires n < burst
    ensures
      var calls := before + [Single(0)];
      Drained(AfterCalls(NewLimiter(perMinute, burst), calls), Ideal(perMinute, burst, "client", calls), perMinute,
              burst, n + 1)
  {
    assert (before + [Single(0)])[..|before|] == before;
    IdealSnoc(perMinute, burst, before, Single(0), "client");
    DrainOnce(AfterCalls(NewLimiter(perMinute, burst), before), Ideal(perMinute, burst, "client", before), perMinute,
              burst, n);
  }

  lemma {:induction false} DrainAtZero(perMinute: real, burst: int, n: nat)
    requires n <= burst
    ensures Drained(AfterCalls(NewLimiter(perMinute, burst), Probe(n, 0)),
                    Ideal(perMinute, burst, "client", Probe(n, 0)), perMinute, burst, n)
  {
    if n > 0 {
      DrainAtZero(perMinute, burst, n - 1);
      OneMoreAtZero(Probe(n - 1, 0), perMinute, burst, n - 1);
    }
  }

  /** The limiter after `burst` calls at 0, and `n` calls past the pause. */
  ghost predicate Probed(l: Limiter, perMinute: real, burst: int, n: int) {
    && l.perMinute == perMinute && l.burst == burst
    && (if n == 0 then
          l.lastPrune <= 0 && l.clients == map["client" := Entry(State(perMinute, burst as real, 0.0, 0), 0)]
        else
          l.lastPrune == IDLE_NS + 1 &&
          l.clients == map["client" := Entry(State(perMinute, burst as real, (burst - n) as real, IDLE_NS + 1),
                                             IDLE_NS + 1)])
  }

  lemma ProbeOnce(l: Limiter, perMinute: real, burst: int, n: nat)
    requires Probed(l, perMinute, burst, n) && n < burst
    ensures AllowCall(l, Single(IDLE_NS + 1)).1 == Granted
    ensures Probed(AllowCall(l, Single(IDLE_NS + 1)).0, perMinute, burst, n + 1)
  {
    var c := Single(IDLE_NS + 1);
    var p := Pruned(l, c.at);
    assert p.clients == if n == 0 then map[] else l.clients;
    var b := BucketOf(p, c);
    assert b == State(perMinute, burst as real, (burst - n) as real, IDLE_NS + 1);
    assert AllowAt(b, IDLE_NS + 1) == (b.(tokens := (burst - n - 1) as real), Granted);
  }

  /** After the pause the limiter starts from a full bucket and grants `burst` more calls. */
  lemma {:induction false} ProbeDrivesLimiter(perMinute: real, burst: int, n: nat)
    requires 1 <= burst && n <= burst
    ensures Probed(AfterCalls(NewLimiter(perMinute, burst), Probe(burst, n)), perMinute, burst, n)
  {
    if n == 0 {
      DrainAtZero(perMinute, burst, burst);
    } else {
      ProbeDrivesLimiter(perMinute, burst, n - 1);
      var all, before := Probe(burst, n), Probe(burst, n - 1);
      assert all[..|all| - 1] == before;
      ProbeOnce(AfterCalls(NewLimiter(perMinute, burst), before), perMinute, burst, n - 1);
    }
  }

  /** A grant of the limiter is, the two answering alike, one the ideal bucket pays for. */
  lemma IdealPaysOnce(before: seq<Call>, perMinute: real, burst: int, n: nat)
    requires Gain(perMinute, IDLE_NS + 1) < burst as real
    requires PruningInvisible(perMinute, burst, 0)
    requires Timeline(before + [Single(IDLE_NS + 1)], 0)
    requires Ideal(perMinute, burst, "client", before) == Some(PaidDown(perMinute, burst, n))
    requires AllowCall(AfterCalls(NewLimiter(perMinute, burst), before), Single(IDLE_NS + 1)).1 == Granted
    ensures Ideal(perMinute, burst, "client", before + [Single(IDLE_NS + 1)]) == Some(PaidDown(perMinute, burst, n + 1))
    ensures Gain(perMinute, IDLE_NS + 1) >= (n + 1) as real
  {
    var c := Single(IDLE_NS + 1);
    AnswersAgreeAtTheEnd(perMinute, burst, 0, before, c);
    IdealSnoc(perMinute, burst, before, c, "client");
    OneMoreGrant(perMinute, burst, n);
  }

  lemma IdealAfterDraining(perMinute: real, burst: int)
    requires 1 <= burst
    ensures Ideal(perMinute, burst, "client", Probe(burst, 0)) == Some(PaidDown(perMinute, burst, 0))
  {
    DrainAtZero(perMinute, burst, burst);
  }

  lemma ProbeIsGranted(perMinute: real, burst: int, n: nat)
    requires n < burst
    ensures Probe(burst, n + 1) == Probe(burst, n) + [Single(IDLE_NS + 1)] && Timeline(Probe(burst, n + 1), 0)
    ensures AllowCall(AfterCalls(NewLimiter(perMinute, burst), Probe(burst, n)), Single(IDLE_NS + 1)).1 == Granted
  {
    ProbeDrivesLimiter(perMinute, burst, n);
    ProbeShape(burst, n + 1);
    ProbeOnce(AfterCalls(NewLimiter(perMinute, burst), Probe(burst, n)), perMinute, burst, n);
  }

  /** As long as the two answer alike after the pause, the ideal bucket pays for every grant. */
  lemma {:induction false} IdealPaysForGrants(perMinute: real, burst: int, n: nat)
    requires 1 <= burst && n <= burst
    requires Gain(perMinute, IDLE_NS + 1) < burst as real
    requires PruningInvisible(perMinute, burst, 0)
    ensures Ideal(perMinute, burst, "client", Probe(burst, n)) == Some(PaidDown(perMinute, burst, n))
    ensures n > 0 ==> Gain(perMinute, IDLE_NS + 1) >= n as real
  {
    if n == 0 {
      IdealAfterDraining(perMinute, burst);
    } else {
      IdealPaysForGrants(perMinute, burst, n - 1);
      ProbeIsGranted(perMinute, burst, n - 1);
      IdealPaysOnce(Probe(burst, n - 1), perMinute, burst, n - 1);
    }
  }

  function PaidDown(perMinute: real, burst: int, n: nat): State {
    if n == 0 then State(perMinute, burst as real, 0.0, 0)
    else State(perMinute, burst as real, Gain(perMinute, IDLE_NS + 1) - n as real, IDLE_NS + 1)
  }

  lemma OneMoreGrant(perMinute: real, burst: int, n: nat)
    requires Gain(perMinute, IDLE_NS + 1) < burst as real
    requires AllowAt(PaidDown(perMinute, burst, n), IDLE_NS + 1).1.Granted?
    ensures AllowAt(PaidDown(perMinute, burst, n), IDLE_NS + 1).0 == PaidDown(perMinute, burst, n + 1)
    ensures Gain(perMinute, IDLE_NS + 1) >= (n + 1) as real
  {
    var b := Refilled(PaidDown(perMinute, burst, n), IDLE_NS + 1);
    assert b.tokens == Gain(perMinute, IDLE_NS + 1) - n as real;
  }

  lemma AnswersAgreeAtTheEnd(perMinute: real, burst: int, gap: int, before: seq<Call>, c: Call)
    requires PruningInvisible(perMinute, burst, gap)
    requires Timeline(before + [c], gap)
    ensures AllowCall(AfterCalls(NewLimiter(perMinute, burst), before), c).1 ==
            AllowAt(IdealOr(perMinute, burst, before, c), c.askedAt).1
  {
    var all := before + [c];
    assert all[..|before|] == before;
    var actual, ideal := CallAnswers(NewLimiter(perMinute, burst), all), IdealAnswers(perMinute, burst, all);
    assert actual == ideal;
    assert actual[|actual| - 1] == ideal[|ideal| - 1];
  }

  // ------------------------------------------------------------------ main results

  /** With the three readings of a call within `gap` of each other, pruning cannot be
      told from never pruning as soon as an idle period of `IDLE_NS - gap` refills the burst. */
  lemma PruningIsInvisible(perMinute: real, burst: int, gap: int)
    requires 0 <= gap <= IDLE_NS
    requires burst as real <= Gain(perMinute, IDLE_NS - gap + 1)
    ensures PruningInvisible(perMinute, burst, gap)
  {
    forall calls: seq<Call> | Timeline(calls, gap)
      ensures CallAnswers(NewLimiter(perMinute, burst), calls) == IdealAnswers(perMinute, burst, calls)
    {
      if burst < 1 {
        StarvedHistory(perMinute, burst, calls);
      } else {
        HistorySimulates(perMinute, burst, calls, gap, if calls == [] then 0 else calls[|calls| - 1].askedAt);
      }
    }
  }

  /** With one reading a call the condition is exact: for every rate and burst, pruning
      is invisible if and only if nothing can ever be granted or the shortest idle
      period that gets an entry deleted refills the whole burst. */
  lemma PruningInvisibleIff(perMinute: real, burst: int)
    ensures PruningInvisible(perMinute, burst, 0) <==> burst < 1 || burst as real <= Gain(perMinute, IDLE_NS + 1)
  {
    if burst < 1 {
      forall calls: seq<Call> | Timeline(calls, 0)
        ensures CallAnswers(NewLimiter(perMinute, burst), calls) == IdealAnswers(perMinute, burst, calls)
      {
        StarvedHistory(perMinute, burst, calls);
      }
    } else if burst as real <= Gain(perMinute, IDLE_NS + 1) {
      PruningIsInvisible(perMinute, burst, 0);
    } else if PruningInvisible(perMinute, burst, 0) {
      IdealPaysForGrants(perMinute, burst, burst);
      assert false;
    }
  }

  /** Readings may always lie closer together, so with any `gap` the condition for one
      reading is necessary: what the sufficient one asks for on top is `gap` of refill. */
  lemma PruningInvisibleOnlyIf(perMinute: real, burst: int, gap: int)
    requires gap >= 0 && PruningInvisible(perMinute, burst, gap)
    ensures burst < 1 || burst as real <= Gain(perMinute, IDLE_NS + 1)
  {
    forall calls: seq<Call> | Timeline(calls, 0)
      ensures CallAnswers(NewLimiter(perMinute, burst), calls) == IdealAnswers(perMinute, burst, calls)
    {
      assert Timeline(calls, gap);
    }
    PruningInvisibleIff(perMinute, burst);
  }

  /** With a burst of one the condition is exact for every `gap`. */
  lemma PruningInvisibleIffForOne(perMinute: real, gap: int)
    requires 0 <= gap <= IDLE_NS
    ensures PruningInvisible(perMinute, 1, gap) <==> 1.0 <= Gain(perMinute, IDLE_NS - gap + 1)
  {
    if 1.0 <= Gain(perMinute, IDLE_NS - gap + 1) {
      PruningIsInvisible(perMinute, 1, gap);
    } else {
      LateGrantTells(perMinute, gap);
    }
  }

  /** A first call granted as late as may be, and one as soon as its entry is deleted. */
  lemma LateGrantTells(perMinute: real, gap: int)
    requires 0 <= gap <= IDLE_NS && Gain(perMinute, IDLE_NS - gap + 1) < 1.0
    ensures !PruningInvisible(perMinute, 1, gap)
  {
    var asked := if perMinute >= 0.0 then gap else 0;
    var late, soon := Call("client", 0, 0, asked), Single(IDLE_NS + 1);
    GainSign(perMinute, IDLE_NS + 1);
    FirstCall(perMinute, asked);
    SecondCallDiffers(perMinute, asked);
    if PruningInvisible(perMinute, 1, gap) {
      assert Timeline([late] + [soon], gap);
      AnswersAgreeAtTheEnd(perMinute, 1, gap, [late], soon);
      assert false;
    }
  }

  function SpentOne(perMinute: real, asked: int): State {
    State(perMinute, 1.0, 0.0, asked)
  }

  lemma FirstCall(perMinute: real, asked: int)
    requires asked == 0 || (perMinute >= 0.0 && asked > 0)
    ensures
      var late, b := Call("client", 0, 0, asked), SpentOne(perMinute, asked);
      && AfterCalls(NewLimiter(perMinute, 1), [late]) == Limiter(perMinute, 1, map["client" := Entry(b, 0)], 0)
      && Ideal(perMinute, 1, "client", [late]) == Some(b)
  {
    var late := Call("client", 0, 0, asked);
    assert [late][..0] == [];
    if asked > 0 {
      GainSign(perMinute, asked);
    }
    assert AllowAt(Fresh(perMinute, 1, 0), asked) == (SpentOne(perMinute, asked), Granted);
    var l0 := NewLimiter(perMinute, 1);
    assert Pruned(l0, 0).clients == map[];
    assert AfterCalls(l0, []) == l0;
    assert BucketOf(Pruned(l0, 0), late) == Fresh(perMinute, 1, 0);
    assert Ideal(perMinute, 1, "client", []) == None;
  }

  lemma SecondCallDiffers(perMinute: real, asked: int)
    requires 0 <= asked <= IDLE_NS && Gain(perMinute, IDLE_NS - asked + 1) < 1.0
    ensures
      var l := Limiter(perMinute, 1, map["client" := Entry(SpentOne(perMinute, asked), 0)], 0);
      var soon := Single(IDLE_NS + 1);
      AllowCall(l, soon).1.Granted? && AllowAt(SpentOne(perMinute, asked), soon.askedAt).1.Denied?
  {
    var l := Limiter(perMinute, 1, map["client" := Entry(SpentOne(perMinute, asked), 0)], 0);
    assert Pruned(l, IDLE_NS + 1).clients == map[];
  }
}
