/** The continuous-refill token bucket of internal/ratelimit/ratelimit.go.

    Time is whole nanoseconds, as in Go; tokens and rates are exact reals where
    the program uses float64. `AllowAt` is the functional specification of the
    class `Bucket`; the theorems relate it to a policy stated only on grant times. */
module TokenBucket {

  const SECOND_NS := 1_000_000_000

  /** Tokens that `ns` nanoseconds are worth at `perMinute` tokens a minute. */
  function Gain(perMinute: real, ns: int): real {
    ns as real * perMinute / 60_000_000_000.0
  }

  datatype State = State(perMinute: real, capacity: real, tokens: real, last: int)

  datatype Answer = Granted | Denied(retrySeconds: int)

  function Fresh(perMinute: real, burst: int, now: int): State {
    State(perMinute, burst as real, burst as real, now)
  }

  function Refilled(b: State, now: int): State {
    if now <= b.last then b
    else
      var t := b.tokens + Gain(b.perMinute, now - b.last);
      b.(tokens := if t > b.capacity then b.capacity else t, last := now)
  }

  function Ceil(x: real): int {
    -(-x).Floor
  }

  /** Seconds until the bucket holds a whole token. */
  function Wait(b: State): real
    requires b.perMinute > 0.0
  {
    (1.0 - b.tokens) / (b.perMinute / 60.0)
  }

  const TOLERANCE := 0.000000001

  /** Whole seconds for a wait, less the tolerance, and at least one. */
  function Rounded(wait: real): int {
    var retry := Ceil(wait - TOLERANCE);
    if retry < 1 then 1 else retry
  }

  function RetrySeconds(b: State): int
    requires b.perMinute > 0.0
  {
    Rounded(Wait(b))
  }

  function Spent(b: State): (State, Answer) {
    if b.tokens >= 1.0 then (b.(tokens := b.tokens - 1.0), Granted)
    else if b.perMinute <= 0.0 then (b, Denied(3600))
    else (b, Denied(RetrySeconds(b)))
  }

  function AllowAt(b: State, now: int): (State, Answer) {
    Spent(Refilled(b, now))
  }

  // ---------------------------------------------------------------- the class

  class Bucket {
    const perMinute: real
    const capacity: real
    var tokens: real
    var last: int

    ghost function View(): State
      reads this
    {
      State(perMinute, capacity, tokens, last)
    }

    constructor (perMinute: real, burst: int, now: int)
      ensures View() == Fresh(perMinute, burst, now)
    {
      this.perMinute, capacity, tokens, last := perMinute, burst as real, burst as real, now;
    }

    method Allow(now: int) returns (ok: bool, retrySeconds: int)
      modifies this
      ensures (View(), if ok then Granted else Denied(retrySeconds)) == AllowAt(old(View()), now)
      ensures ok ==> retrySeconds == 0
    {
      var elapsed := now - last;
      if elapsed > 0 {
        tokens := tokens + Gain(perMinute, elapsed);
        last := now;
        if tokens > capacity {
          tokens := capacity;
        }
      }
      if tokens >= 1.0 {
        tokens := tokens - 1.0;
        return true, 0;
      }
      if perMinute <= 0.0 {
        return false, 3600;
      }
      var need := 1.0 - tokens;
      var seconds := need / (perMinute / 60.0);
      var retry := Ceil(seconds - 0.000000001);
      if retry < 1 {
        retry := 1;
      }
      return false, retry;
    }
  }

  // ------------------------------------------------------------ call histories

  /** Non-decreasing instants, none before `start`. */
  ghost predicate Monotone(start: int, times: seq<int>) {
    && (forall i :: 0 <= i < |times| ==> start <= times[i])
    && (forall i, j :: 0 <= i <= j < |times| ==> times[i] <= times[j])
  }

  function After(b: State, times: seq<int>): State {
    if times == [] then b
    else AllowAt(After(b, times[..|times| - 1]), times[|times| - 1]).0
  }

  function Answers(b: State, times: seq<int>): (answers: seq<Answer>)
    ensures |answers| == |times|
  {
    if times == [] then []
    else
      var before := times[..|times| - 1];
      Answers(b, before) + [AllowAt(After(b, before), times[|times| - 1]).1]
  }

  /** The instants of the granted calls, in order. */
  function GrantTimes(b: State, times: seq<int>): seq<int> {
    if times == [] then []
    else
      var before, now := times[..|times| - 1], times[|times| - 1];
      if AllowAt(After(b, before), now).1.Granted? then GrantTimes(b, before) + [now] else GrantTimes(b, before)
  }

  /** How many of the instants fall at or after `s`. */
  function CountSince(grants: seq<int>, s: int): nat {
    if grants == [] then 0
    else CountSince(grants[..|grants| - 1], s) + if grants[|grants| - 1] >= s then 1 else 0
  }

  /** How many of the instants fall in the closed window from `s` to `e`. */
  function CountBetween(grants: seq<int>, s: int, e: int): nat {
    if grants == [] then 0
    else CountBetween(grants[..|grants| - 1], s, e) + if s <= grants[|grants| - 1] <= e then 1 else 0
  }

  // ------------------------------------------------------- the declarative policy

  /** What the window that starts at `s` still allows at `now`. */
  function Budget(perMinute: real, burst: int, grants: seq<int>, s: int, now: int): real {
    burst as real + Gain(perMinute, now - s) - CountSince(grants, s) as real
  }

  /** The token count is the least budget over all windows open since creation. */
  ghost predicate LeastBudget(b: State, burst: int, start: int, grants: seq<int>) {
    && b.capacity == burst as real
    && start <= b.last
    && (forall i :: 0 <= i < |grants| ==> start <= grants[i] <= b.last)
    && (forall s :: start <= s <= b.last ==> b.tokens <= Budget(b.perMinute, burst, grants, s, b.last))
    && (exists s :: start <= s <= b.last && b.tokens == Budget(b.perMinute, burst, grants, s, b.last))
  }

  lemma {:induction false} NoneSince(grants: seq<int>, s: int)
    requires forall i :: 0 <= i < |grants| ==> grants[i] < s
    ensures CountSince(grants, s) == 0
  {
    if grants != [] {
      NoneSince(grants[..|grants| - 1], s);
    }
  }

  lemma GainAdds(perMinute: real, a: int, b: int)
    ensures Gain(perMinute, a + b) == Gain(perMinute, a) + Gain(perMinute, b)
  {
    assert (a + b) as real * perMinute == a as real * perMinute + b as real * perMinute;
  }

  lemma GainSign(perMinute: real, ns: int)
    requires ns >= 0
    ensures perMinute >= 0.0 ==> Gain(perMinute, ns) >= 0.0
    ensures perMinute <= 0.0 ==> Gain(perMinute, ns) <= 0.0
  {
    if perMinute >= 0.0 {
      assert ns as real * perMinute >= 0.0;
    }
    if perMinute <= 0.0 {
      assert ns as real * perMinute <= 0.0;
    }
  }

  lemma RefillKeepsLeastBudget(b: State, burst: int, start: int, grants: seq<int>, now: int)
    requires LeastBudget(b, burst, start, grants)
    requires b.last <= now
    ensures LeastBudget(Refilled(b, now), burst, start, grants)
    ensures Refilled(b, now).last == now
  {
    if b.last < now {
      var r := Refilled(b, now);
      var rate := b.perMinute;
      GainSign(rate, now - b.last);
      forall s | start <= s <= now
        ensures r.tokens <= Budget(rate, burst, grants, s, now)
      {
        if s <= b.last {
          GainAdds(rate, b.last - s, now - b.last);
          assert b.tokens <= Budget(rate, burst, grants, s, b.last);
        } else {
          NoneSince(grants, s);
          GainSign(rate, now - s);
          GainSign(rate, s - b.last);
          GainAdds(rate, now - s, s - b.last);
          assert b.tokens <= burst as real by {
            assert b.tokens <= Budget(rate, burst, grants, b.last, b.last);
          }
        }
      }
      if r.tokens == b.tokens + Gain(rate, now - b.last) {
        var s :| start <= s <= b.last && b.tokens == Budget(rate, burst, grants, s, b.last);
        GainAdds(rate, b.last - s, now - b.last);
        assert r.tokens == Budget(rate, burst, grants, s, now);
      } else {
        NoneSince(grants, now);
        assert r.tokens == Budget(rate, burst, grants, now, now);
      }
    }
  }

  lemma SpendKeepsLeastBudget(b: State, burst: int, start: int, grants: seq<int>)
    requires LeastBudget(b, burst, start, grants)
    requires b.tokens >= 1.0
    ensures LeastBudget(Spent(b).0, burst, start, grants + [b.last])
  {
    var spent, now := Spent(b).0, b.last;
    var grants' := grants + [now];
    assert grants'[..|grants|] == grants;
    forall s | start <= s <= now
      ensures Budget(b.perMinute, burst, grants', s, now) == Budget(b.perMinute, burst, grants, s, now) - 1.0
      ensures spent.tokens <= Budget(b.perMinute, burst, grants', s, now)
    {
      assert b.tokens <= Budget(b.perMinute, burst, grants, s, now);
    }
    var s :| start <= s <= now && b.tokens == Budget(b.perMinute, burst, grants, s, now);
    assert spent.tokens == Budget(b.perMinute, burst, grants', s, now);
  }

  lemma CallKeepsLeastBudget(b: State, burst: int, start: int, grants: seq<int>, now: int)
    requires LeastBudget(b, burst, start, grants)
    requires b.last <= now
    ensures
      var (b', answer) := AllowAt(b, now);
      LeastBudget(b', burst, start, if answer.Granted? then grants + [now] else grants) && b'.last == now
  {
    RefillKeepsLeastBudget(b, burst, start, grants, now);
    if Refilled(b, now).tokens >= 1.0 {
      SpendKeepsLeastBudget(Refilled(b, now), burst, start, grants);
    }
  }

  lemma {:induction false} HistoryKeepsLeastBudget(perMinute: real, burst: int, start: int, times: seq<int>)
    requires Monotone(start, times)
    ensures LeastBudget(After(Fresh(perMinute, burst, start), times), burst, start,
                        GrantTimes(Fresh(perMinute, burst, start), times))
    ensures After(Fresh(perMinute, burst, start), times).perMinute == perMinute
    ensures After(Fresh(perMinute, burst, start), times).last == if times == [] then start else times[|times| - 1]
  {
    var b0 := Fresh(perMinute, burst, start);
    if times == [] {
      assert b0.tokens == Budget(perMinute, burst, [], start, start);
    } else {
      var before, now := times[..|times| - 1], times[|times| - 1];
      HistoryKeepsLeastBudget(perMinute, burst, start, before);
      CallKeepsLeastBudget(After(b0, before), burst, start, GrantTimes(b0, before), now);
    }
  }

  /** Every window that ends now, whatever its start since creation, can take one more grant. */
  ghost predicate EveryWindowFits(perMinute: real, burst: int, grants: seq<int>, start: int, now: int) {
    forall s :: start <= s <= now ==> CountSince(grants, s) as real + 1.0 <= burst as real + Gain(perMinute, now - s)
  }

  lemma TokenIffEveryWindowFits(b: State, burst: int, start: int, grants: seq<int>)
    requires LeastBudget(b, burst, start, grants)
    ensures b.tokens >= 1.0 <==> EveryWindowFits(b.perMinute, burst, grants, start, b.last)
  {
    if b.tokens >= 1.0 {
      forall s | start <= s <= b.last
        ensures CountSince(grants, s) as real + 1.0 <= burst as real + Gain(b.perMinute, b.last - s)
      {
        assert b.tokens <= Budget(b.perMinute, burst, grants, s, b.last);
      }
    } else {
      var s :| start <= s <= b.last && b.tokens == Budget(b.perMinute, burst, grants, s, b.last);
      assert CountSince(grants, s) as real + 1.0 > burst as real + Gain(b.perMinute, b.last - s);
    }
  }

  lemma MonotonePrefix(start: int, times: seq<int>, now: int)
    requires Monotone(start, times + [now])
    ensures Monotone(start, times)
    ensures start <= now && (times != [] ==> times[|times| - 1] <= now)
  {
    var all := times + [now];
    assert forall i :: 0 <= i < |times| ==> times[i] == all[i];
    assert all[|times|] == now;
  }

  /** A call is granted exactly when granting keeps every window ending now within
      its bound. Holds for every rate, burst and history. */
  lemma GrantIffEveryWindowFits(perMinute: real, burst: int, start: int, times: seq<int>, now: int)
    requires Monotone(start, times + [now])
    ensures
      var b0 := Fresh(perMinute, burst, start);
      AllowAt(After(b0, times), now).1.Granted? <==>
      EveryWindowFits(perMinute, burst, GrantTimes(b0, times), start, now)
  {
    var b0 := Fresh(perMinute, burst, start);
    MonotonePrefix(start, times, now);
    HistoryKeepsLeastBudget(perMinute, burst, start, times);
    var b, grants := After(b0, times), GrantTimes(b0, times);
    RefillKeepsLeastBudget(b, burst, start, grants, now);
    TokenIffEveryWindowFits(Refilled(b, now), burst, start, grants);
  }

  lemma {:induction false} CountBetweenSince(grants: seq<int>, s: int, e: int)
    requires forall i :: 0 <= i < |grants| ==> grants[i] <= e
    ensures CountBetween(grants, s, e) == CountSince(grants, s)
  {
    if grants != [] {
      CountBetweenSince(grants[..|grants| - 1], s, e);
    }
  }

  lemma {:induction false} CountSinceClips(grants: seq<int>, s: int, start: int)
    requires s <= start
    requires forall i :: 0 <= i < |grants| ==> start <= grants[i]
    ensures CountSince(grants, s) == CountSince(grants, start)
  {
    if grants != [] {
      CountSinceClips(grants[..|grants| - 1], s, start);
    }
  }

  lemma CountAppend(grants: seq<int>, g: int, s: int, e: int)
    ensures CountBetween(grants + [g], s, e) == CountBetween(grants, s, e) + if s <= g <= e then 1 else 0
    ensures CountSince(grants + [g], s) == CountSince(grants, s) + if g >= s then 1 else 0
  {
    assert (grants + [g])[..|grants|] == grants;
  }

  ghost predicate WithinBound(perMinute: real, burst: int, grants: seq<int>, s: int, e: int) {
    var n := CountBetween(grants, s, e);
    n == 0 || n as real <= burst as real + Gain(perMinute, e - s)
  }

  lemma GrantKeepsWindowBound(perMinute: real, burst: int, grants: seq<int>, start: int, now: int, s: int, e: int)
    requires perMinute >= 0.0
    requires forall i :: 0 <= i < |grants| ==> start <= grants[i] <= now
    requires start <= now
    requires EveryWindowFits(perMinute, burst, grants, start, now)
    requires WithinBound(perMinute, burst, grants, s, e)
    ensures WithinBound(perMinute, burst, grants + [now], s, e)
  {
    CountAppend(grants, now, s, e);
    if s <= now <= e {
      CountBetweenSince(grants, s, e);
      var from := if s < start then start else s;
      if s < start {
        CountSinceClips(grants, s, start);
      }
      assert CountSince(grants, from) as real + 1.0 <= burst as real + Gain(perMinute, now - from);
      GainAdds(perMinute, now - from, e - s - (now - from));
      GainSign(perMinute, e - s - (now - from));
    }
  }

  /** No window of any length, wherever it lies, holds more than
      `burst + rate * length` grants. */
  lemma {:induction false} NoWindowExceedsItsBound(perMinute: real, burst: int, start: int, times: seq<int>, s: int,
                                                   e: int)
    requires perMinute >= 0.0
    requires Monotone(start, times)
    ensures WithinBound(perMinute, burst, GrantTimes(Fresh(perMinute, burst, start), times), s, e)
  {
    if times != [] {
      var b0 := Fresh(perMinute, burst, start);
      var before, now := times[..|times| - 1], times[|times| - 1];
      assert before + [now] == times;
      MonotonePrefix(start, before, now);
      NoWindowExceedsItsBound(perMinute, burst, start, before, s, e);
      HistoryKeepsLeastBudget(perMinute, burst, start, before);
      if AllowAt(After(b0, before), now).1.Granted? {
        GrantIffEveryWindowFits(perMinute, burst, start, before, now);
        GrantKeepsWindowBound(perMinute, burst, GrantTimes(b0, before), start, now, s, e);
      }
    }
  }

  // ------------------------------------------------- denied calls leave no trace

  lemma RefillComposes(b: State, t: int, u: int)
    requires t <= u
    requires b.tokens <= b.capacity
    ensures Refilled(Refilled(b, t), u) == Refilled(b, u)
  {
    if b.last < t < u {
      GainAdds(b.perMinute, t - b.last, u - t);
      GainSign(b.perMinute, t - b.last);
      GainSign(b.perMinute, u - t);
    }
  }

  lemma {:induction false} TokensStayCapped(b: State, times: seq<int>)
    requires b.tokens <= b.capacity
    ensures After(b, times).tokens <= After(b, times).capacity
  {
    if times != [] {
      TokensStayCapped(b, times[..|times| - 1]);
    }
  }

  lemma {:induction false} AfterConcat(b: State, xs: seq<int>, ys: seq<int>)
    ensures After(b, xs + ys) == After(After(b, xs), ys)
    ensures Answers(b, xs + ys) == Answers(b, xs) + Answers(After(b, xs), ys)
  {
    if ys == [] {
      assert xs + ys == xs;
    } else {
      var front := ys[..|ys| - 1];
      assert (xs + ys)[..|xs + ys| - 1] == xs + front;
      AfterConcat(b, xs, front);
    }
  }

  lemma HeadCall(b: State, post: seq<int>)
    requires post != []
    ensures After(b, [post[0]]) == AllowAt(b, post[0]).0
    ensures Answers(b, [post[0]]) == [AllowAt(b, post[0]).1]
    ensures [post[0]] + post[1..] == post
  {
    assert [post[0]][..0] == [];
    assert After(b, []) == b;
    assert Answers(b, []) == [];
  }

  /** Deleting a denied call changes no other answer, retry times included. */
  lemma DeniedCallIsInvisible(b: State, pre: seq<int>, t: int, post: seq<int>)
    requires b.tokens <= b.capacity
    requires Monotone(b.last, pre + [t] + post)
    requires AllowAt(After(b, pre), t).1.Denied?
    ensures Answers(b, pre + [t] + post) == Answers(b, pre) + [AllowAt(After(b, pre), t).1] +
            Answers(b, pre + post)[|pre|..]
    ensures Answers(b, pre + post)[..|pre|] == Answers(b, pre)
  {
    var s := After(b, pre);
    TokensStayCapped(b, pre);
    var s' := AllowAt(s, t).0;
    assert s' == Refilled(s, t);
    HeadCall(s, [t]);
    AfterConcat(b, pre, [t]);
    AfterConcat(b, pre + [t], post);
    AfterConcat(b, pre, post);
    assert Answers(s', post) == Answers(s, post) by {
      if post != [] {
        var u := post[0];
        var all := pre + [t] + post;
        assert all[|pre|] == t && all[|pre| + 1] == u;
        RefillComposes(s, t, u);
        HeadCall(s, post);
        HeadCall(s', post);
        AfterConcat(s, [u], post[1..]);
        AfterConcat(s', [u], post[1..]);
      }
    }
  }

  // ------------------------------------------------------------- Retry-After

  lemma CeilBounds(x: real)
    ensures x <= Ceil(x) as real < x + 1.0
  {
  }

  /** `need / (rate/60)` seconds is when the missing part has been refilled. */
  lemma SecondsToRefill(perMinute: real, need: real, ns: int)
    requires perMinute > 0.0
    ensures need <= Gain(perMinute, ns) <==> need / (perMinute / 60.0) <= ns as real / 1_000_000_000.0
  {
    var seconds := need / (perMinute / 60.0);
    assert seconds * (perMinute / 60.0) == need;
    var t := ns as real / 1_000_000_000.0;
    assert Gain(perMinute, ns) == t * (perMinute / 60.0) by {
      assert ns as real * perMinute / 60_000_000_000.0 == (ns as real / 1_000_000_000.0) * (perMinute / 60.0);
    }
    if seconds <= t {
      assert (t - seconds) * (perMinute / 60.0) >= 0.0;
    } else {
      assert (seconds - t) * (perMinute / 60.0) > 0.0;
    }
  }

  /** After a denial with `r` seconds: with nothing in between, a call one
      nanosecond past `r` seconds is granted (for a bucket that can ever hold a
      token), and one second earlier it is still too soon. */
  lemma RetryAfterSoundAndTight(b: State, t: int)
    requires b.perMinute > 0.0
    requires b.tokens <= b.capacity
    requires AllowAt(b, t).1.Denied?
    ensures
      var denied := AllowAt(b, t);
      var r := denied.1.retrySeconds;
      && r >= 1
      && (AllowAt(denied.0, denied.0.last + r * SECOND_NS + 1).1.Granted? <==> b.capacity >= 1.0)
      && (r >= 2 ==> AllowAt(denied.0, denied.0.last + (r - 1) * SECOND_NS).1.Denied?)
  {
    var d := AllowAt(b, t).0;
    var r := AllowAt(b, t).1.retrySeconds;
    var need := 1.0 - d.tokens;
    var seconds := need / (b.perMinute / 60.0);
    CeilBounds(seconds - TOLERANCE);
    SecondsToRefill(b.perMinute, need, r * SECOND_NS + 1);
    assert (r * SECOND_NS + 1) as real / 1_000_000_000.0 == r as real + 0.000000001;
    if r >= 2 {
      SecondsToRefill(b.perMinute, need, (r - 1) * SECOND_NS);
      assert ((r - 1) * SECOND_NS) as real / 1_000_000_000.0 == r as real - 1.0;
    }
  }

  /** What the wait exceeds its whole seconds by. */
  function Fraction(x: real): real {
    x - x.Floor as real
  }

  lemma CeilIs(x: real, n: int)
    requires (n - 1) as real < x <= n as real
    ensures Ceil(x) == n
  {
  }

  lemma WholeWait(w: real, n: int)
    requires w == n as real
    ensures w <= Rounded(w) as real
  {
    CeilIs(w - TOLERANCE, n);
  }

  lemma WaitWithinTolerance(w: real, n: int)
    requires n as real < w <= n as real + TOLERANCE
    ensures w <= Rounded(w) as real <==> w <= 1.0
  {
    CeilIs(w - TOLERANCE, n);
  }

  lemma WaitBeyondTolerance(w: real, n: int)
    requires n as real + TOLERANCE < w < (n + 1) as real
    ensures w <= Rounded(w) as real
  {
    CeilIs(w - TOLERANCE, n + 1);
  }

  lemma RoundedCovers(w: real)
    ensures w <= Rounded(w) as real <==> w <= 1.0 || Fraction(w) == 0.0 || Fraction(w) > TOLERANCE
  {
    var n := w.Floor;
    if w == n as real {
      WholeWait(w, n);
    } else if w <= n as real + TOLERANCE {
      WaitWithinTolerance(w, n);
    } else {
      WaitBeyondTolerance(w, n);
    }
  }

  /** Exactly when waiting the advertised whole seconds is enough: unless the wait exceeds
      one second and some whole number of seconds by no more than the tolerance of 1 ns. */
  lemma RetryAfterExactIff(b: State, t: int)
    requires b.perMinute > 0.0
    requires b.tokens <= b.capacity && b.capacity >= 1.0
    requires AllowAt(b, t).1.Denied?
    ensures
      var denied := AllowAt(b, t);
      var wait := Wait(Refilled(b, t));
      AllowAt(denied.0, denied.0.last + denied.1.retrySeconds * SECOND_NS).1.Granted? <==>
      wait <= 1.0 || Fraction(wait) == 0.0 || Fraction(wait) > TOLERANCE
  {
    var d := AllowAt(b, t).0;
    var r := AllowAt(b, t).1.retrySeconds;
    RoundedCovers(Wait(d));
    SecondsToRefill(b.perMinute, 1.0 - d.tokens, r * SECOND_NS);
    assert (r * SECOND_NS) as real / 1_000_000_000.0 == r as real;
  }

  /** The tolerance can make Retry-After one nanosecond too short: a login bucket
      drained at 0 and asked at 0.999999999 s answers 11 s, yet 11 s later the
      token is still missing. */
  lemma RetryAfterCanBeOneNanosecondShort()
    ensures
      var drained := State(5.0, 5.0, 0.0, 0);
      var denied := AllowAt(drained, 999_999_999);
      && denied.1 == Denied(11)
      && AllowAt(denied.0, denied.0.last + 11 * SECOND_NS).1.Denied?
  {
    var drained := State(5.0, 5.0, 0.0, 0);
    var d := Refilled(drained, 999_999_999);
    assert d.tokens == 999_999_999.0 * 5.0 / 60_000_000_000.0;
    var seconds := (1.0 - d.tokens) / (5.0 / 60.0);
    assert seconds - 0.000000001 == 11.0;
    CeilBounds(11.0);
  }
}
