/** Adds to one list that is read without a lock and written back under one: what is stored
    after any history, and exactly when nothing is lost and nothing comes back. */
module AddHistories {

  /** What an add read: the list stored after the first `n` runs, or the list that run `n`
      had written when it could still fail. */
  datatype Read = Stored(n: nat) | Unjudged(n: nat)

  /** A locked run, in lock order: what it adds, what it had read, and whether its list
      stays; or a run that has nothing to do with the list. */
  datatype Run<X> = Run(x: X, read: Read, landed: bool) | Other
  {
    predicate Lands() {
      Run? && landed
    }
  }

  /** A run has read before it took the lock. */
  ghost predicate Causal<X>(log: seq<Run<X>>) {
    forall j :: 0 <= j < |log| && log[j].Run? ==>
                  match log[j].read case Stored(n) => n <= j case Unjudged(n) => n < j && log[n].Run?
  }

  function Fold<L, X>(add: (L, X) -> L, list: L, xs: seq<X>): L {
    if xs == [] then list else add(Fold(add, list, xs[..|xs| - 1]), xs[|xs| - 1])
  }

  lemma {:induction false} FoldConcat<L, X>(add: (L, X) -> L, list: L, xs: seq<X>, ys: seq<X>)
    ensures Fold(add, list, xs + ys) == Fold(add, Fold(add, list, xs), ys)
  {
    if ys == [] {
      assert xs + ys == xs;
    } else {
      var front := ys[..|ys| - 1];
      assert (xs + ys)[..|xs + ys| - 1] == xs + front;
      FoldConcat(add, list, xs, front);
    }
  }

  lemma FoldSnoc<L, X>(add: (L, X) -> L, list: L, xs: seq<X>, x: X)
    ensures Fold(add, list, xs + [x]) == add(Fold(add, list, xs), x)
  {
    assert (xs + [x])[..|xs|] == xs;
  }

  // --------------------------------------------------------------- what is stored

  /** The list after the first `n` runs. */
  function StoredAfter<L, X>(add: (L, X) -> L, start: L, log: seq<Run<X>>, n: nat): L
    requires Causal(log) && n <= |log|
    decreases n, 0
  {
    if n == 0 then start
    else if log[n - 1].Lands() then Wrote(add, start, log, n - 1)
    else StoredAfter(add, start, log, n - 1)
  }

  function ReadBy<L, X>(add: (L, X) -> L, start: L, log: seq<Run<X>>, j: nat): L
    requires Causal(log) && j < |log| && log[j].Run?
    decreases j, 1
  {
    match log[j].read
    case Stored(n) => StoredAfter(add, start, log, n)
    case Unjudged(n) => Wrote(add, start, log, n)
  }

  function Wrote<L, X>(add: (L, X) -> L, start: L, log: seq<Run<X>>, j: nat): L
    requires Causal(log) && j < |log| && log[j].Run?
    decreases j, 2
  {
    add(ReadBy(add, start, log, j), log[j].x)
  }

  /** Lists stored one after another, and lists read, that follow the log. */
  ghost predicate Matches<L, X>(add: (L, X) -> L, log: seq<Run<X>>, lists: seq<L>, seen: seq<L>) {
    && Causal(log) && |lists| == |log| + 1 && |seen| == |log|
    && (forall j :: 0 <= j < |log| ==> lists[j + 1] == if log[j].Lands() then add(seen[j], log[j].x) else lists[j])
    && (forall j :: 0 <= j < |log| && log[j].Run? ==> seen[j] == ListRead(add, log, lists, seen, j))
  }

  function ListRead<L, X>(add: (L, X) -> L, log: seq<Run<X>>, lists: seq<L>, seen: seq<L>, j: nat): L
    requires Causal(log) && |lists| == |log| + 1 && |seen| == |log| && j < |log| && log[j].Run?
  {
    match log[j].read
    case Stored(n) => lists[n]
    case Unjudged(n) => add(seen[n], log[n].x)
  }

  lemma {:induction false} ListIsStored<L, X>(add: (L, X) -> L, log: seq<Run<X>>, lists: seq<L>, seen: seq<L>, n: nat)
    requires Matches(add, log, lists, seen) && n <= |log|
    ensures lists[n] == StoredAfter(add, lists[0], log, n)
    decreases n, 0
  {
    if n > 0 {
      assert lists[n - 1 + 1] == if log[n - 1].Lands() then add(seen[n - 1], log[n - 1].x) else lists[n - 1];
      if log[n - 1].Lands() {
        ReadIsStored(add, log, lists, seen, n - 1);
      } else {
        ListIsStored(add, log, lists, seen, n - 1);
      }
    }
  }

  lemma AllListsAreStored<L, X>(add: (L, X) -> L, log: seq<Run<X>>, lists: seq<L>, seen: seq<L>)
    requires Matches(add, log, lists, seen)
    ensures forall n :: 0 <= n < |lists| ==> lists[n] == StoredAfter(add, lists[0], log, n)
    ensures forall j :: 0 <= j < |log| && log[j].Run? ==> seen[j] == ReadBy(add, lists[0], log, j)
  {
    forall n | 0 <= n < |lists|
      ensures lists[n] == StoredAfter(add, lists[0], log, n)
    {
      ListIsStored(add, log, lists, seen, n);
    }
    forall j | 0 <= j < |log| && log[j].Run?
      ensures seen[j] == ReadBy(add, lists[0], log, j)
    {
      ReadIsStored(add, log, lists, seen, j);
    }
  }

  lemma {:induction false} ReadIsStored<L, X>(add: (L, X) -> L, log: seq<Run<X>>, lists: seq<L>, seen: seq<L>, j: nat)
    requires Matches(add, log, lists, seen) && j < |log| && log[j].Run?
    ensures seen[j] == ReadBy(add, lists[0], log, j)
    decreases j, 1
  {
    match log[j].read {
      case Stored(n) => ListIsStored(add, log, lists, seen, n);
      case Unjudged(n) => ReadIsStored(add, log, lists, seen, n);
    }
  }

  // --------------------------------------------------------- what should be stored

  /** The entries that landed from run `n` up to run `j`. */
  function Landed<X>(log: seq<Run<X>>, n: nat, j: nat): seq<X>
    requires n <= j <= |log|
  {
    if j == n then []
    else Landed(log, n, j - 1) + if log[j - 1].Lands() then [log[j - 1].x] else []
  }

  lemma {:induction false} LandedSplits<X>(log: seq<Run<X>>, m: nat, n: nat, j: nat)
    requires m <= n <= j <= |log|
    ensures Landed(log, m, j) == Landed(log, m, n) + Landed(log, n, j)
  {
    if n < j {
      LandedSplits(log, m, n, j - 1);
    }
  }

  /** One add after another. */
  function Accumulated<L, X>(add: (L, X) -> L, start: L, log: seq<Run<X>>, n: nat): L
    requires n <= |log|
  {
    Fold(add, start, Landed(log, 0, n))
  }

  // ----------------------------------------------------------------- exactly when

  /** How far back the list goes that run `j` had read: the number of runs before it. */
  function Basis<X>(log: seq<Run<X>>, j: nat): (n: nat)
    requires Causal(log) && j < |log| && log[j].Run?
    ensures n <= j
  {
    match log[j].read
    case Stored(n) => n
    case Unjudged(p) => if log[p].Lands() then p + 1 else Basis(log, p)
  }

  /** The entries of failed adds that run `j` had read on top of that. */
  function Ghosts<X>(log: seq<Run<X>>, j: nat): seq<X>
    requires Causal(log) && j < |log| && log[j].Run?
    decreases j
  {
    match log[j].read
    case Stored(_) => []
    case Unjudged(p) => if log[p].Lands() then [] else Ghosts(log, p) + [log[p].x]
  }

  lemma {:induction false} ReadIsBasisAndGhosts<L, X>(add: (L, X) -> L, start: L, log: seq<Run<X>>, j: nat)
    requires Causal(log) && j < |log| && log[j].Run?
    ensures ReadBy(add, start, log, j) == Fold(add, StoredAfter(add, start, log, Basis(log, j)), Ghosts(log, j))
    decreases j
  {
    match log[j].read {
      case Stored(_) =>
      case Unjudged(p) =>
        if !log[p].Lands() {
          ReadIsBasisAndGhosts(add, start, log, p);
          FoldSnoc(add, StoredAfter(add, start, log, Basis(log, p)), Ghosts(log, p), log[p].x);
        }
    }
  }

  /** What landed since run `j`'s list was stored, and then its own entry, make the same of
      that list as what it had read of failed adds, and then its own entry. */
  ghost predicate UpToDate<L, X>(add: (L, X) -> L, start: L, log: seq<Run<X>>, j: nat)
    requires Causal(log) && j < |log| && log[j].Run?
  {
    var list, x := StoredAfter(add, start, log, Basis(log, j)), log[j].x;
    Fold(add, list, Landed(log, Basis(log, j), j) + [x]) == Fold(add, list, Ghosts(log, j) + [x])
  }

  lemma OneMoreRun<L, X>(add: (L, X) -> L, start: L, log: seq<Run<X>>, j: nat)
    requires Causal(log) && j < |log| && log[j].Lands()
    requires StoredAfter(add, start, log, Basis(log, j)) == Accumulated(add, start, log, Basis(log, j))
    ensures StoredAfter(add, start, log, j + 1) == Accumulated(add, start, log, j + 1) <==> UpToDate(add, start, log, j)
  {
    var n, x := Basis(log, j), log[j].x;
    var list := StoredAfter(add, start, log, n);
    ReadIsBasisAndGhosts(add, start, log, j);
    FoldSnoc(add, list, Ghosts(log, j), x);
    LandedSplits(log, 0, n, j);
    FoldConcat(add, start, Landed(log, 0, n), Landed(log, n, j));
    FoldSnoc(add, start, Landed(log, 0, j), x);
    FoldSnoc(add, list, Landed(log, n, j), x);
  }

  /** For every history: at every moment the stored list is what the landed adds, one after
      another, make of the first list, if and only if every landed add was up to date. */
  lemma StoredIsAccumulatedIff<L, X>(add: (L, X) -> L, start: L, log: seq<Run<X>>)
    requires Causal(log)
    ensures (forall n :: 0 <= n <= |log| ==> StoredAfter(add, start, log, n) == Accumulated(add, start, log, n)) <==>
            (forall j :: 0 <= j < |log| && log[j].Lands() ==> UpToDate(add, start, log, j))
  {
    if forall j :: 0 <= j < |log| && log[j].Lands() ==> UpToDate(add, start, log, j) {
      forall n | 0 <= n <= |log|
        ensures StoredAfter(add, start, log, n) == Accumulated(add, start, log, n)
      {
        UpToDateAccumulates(add, start, log, n);
      }
    }
    if forall n :: 0 <= n <= |log| ==> StoredAfter(add, start, log, n) == Accumulated(add, start, log, n) {
      forall j | 0 <= j < |log| && log[j].Lands()
        ensures UpToDate(add, start, log, j)
      {
        OneMoreRun(add, start, log, j);
        assert StoredAfter(add, start, log, j + 1) == Accumulated(add, start, log, j + 1);
      }
    }
  }

  lemma {:induction false} UpToDateAccumulates<L, X>(add: (L, X) -> L, start: L, log: seq<Run<X>>, n: nat)
    requires Causal(log) && n <= |log|
    requires forall j :: 0 <= j < |log| && log[j].Lands() ==> UpToDate(add, start, log, j)
    ensures StoredAfter(add, start, log, n) == Accumulated(add, start, log, n)
  {
    if n > 0 {
      if log[n - 1].Lands() {
        UpToDateAccumulates(add, start, log, Basis(log, n - 1));
        OneMoreRun(add, start, log, n - 1);
      } else {
        UpToDateAccumulates(add, start, log, n - 1);
        assert Landed(log, 0, n) == Landed(log, 0, n - 1);
      }
    }
  }

  /** The same, for the lists themselves. */
  lemma ListsAreAccumulatedIff<L, X>(add: (L, X) -> L, log: seq<Run<X>>, lists: seq<L>)
    requires Causal(log) && |lists| == |log| + 1
    requires forall n :: 0 <= n < |lists| ==> lists[n] == StoredAfter(add, lists[0], log, n)
    ensures (forall n :: 0 <= n < |lists| ==> lists[n] == Accumulated(add, lists[0], log, n)) <==>
            (forall j :: 0 <= j < |log| && log[j].Lands() ==> UpToDate(add, lists[0], log, j))
  {
    StoredIsAccumulatedIff(add, lists[0], log);
  }
}
