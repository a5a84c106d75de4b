/** Sorted lists of names: what `sort.Slice` leaves behind, and the rank of a name in a set. */
module Ordering {
  import opened Text

  ghost predicate Ascending(names: seq<string>) {
    forall i, j :: 0 <= i < j < |names| ==> Less(names[i], names[j])
  }

  function Elements(names: seq<string>): set<string> {
    set n | n in names
  }

  function Insert(names: seq<string>, n: string): seq<string> {
    if names == [] || Less(n, names[0]) then [n] + names else [names[0]] + Insert(names[1..], n)
  }

  lemma {:induction false} InsertKeepsAscending(names: seq<string>, n: string)
    requires Ascending(names) && n !in names
    ensures Ascending(Insert(names, n))
    ensures Elements(Insert(names, n)) == Elements(names) + {n}
  {
    if names != [] && !Less(n, names[0]) {
      var rest := names[1..];
      InsertKeepsAscending(rest, n);
      LessTotal(n, names[0]);
      var inserted := Insert(rest, n);
      forall j | 0 <= j < |inserted|
        ensures Less(names[0], inserted[j])
      {
        assert inserted[j] in Elements(inserted);
        if inserted[j] != n {
          assert inserted[j] in rest;
        }
      }
      assert names == [names[0]] + rest;
    } else if names != [] {
      forall j | 0 <= j < |names|
        ensures Less(n, names[j])
      {
        if j > 0 {
          LessTransitive(n, names[0], names[j]);
        }
      }
    }
  }

  /** Insertion sort, standing for the library's sort. */
  method Sort(names: seq<string>) returns (sorted: seq<string>)
    requires forall i, j :: 0 <= i < j < |names| ==> names[i] != names[j]
    ensures Ascending(sorted) && Elements(sorted) == Elements(names)
  {
    sorted := [];
    for i := 0 to |names|
      invariant Ascending(sorted) && Elements(sorted) == Elements(names[..i])
    {
      assert names[..i + 1] == names[..i] + [names[i]];
      assert names[i] !in Elements(names[..i]);
      InsertKeepsAscending(sorted, names[i]);
      sorted := Insert(sorted, names[i]);
    }
    assert names[..|names|] == names;
  }

  lemma {:induction false} AscendingListOf(s: set<string>) returns (names: seq<string>)
    ensures Ascending(names) && Elements(names) == s
  {
    if s == {} {
      names := [];
    } else {
      var n :| n in s;
      var rest := AscendingListOf(s - {n});
      assert n in rest ==> n in Elements(rest);
      InsertKeepsAscending(rest, n);
      names := Insert(rest, n);
    }
  }

  lemma {:induction false} AscendingSize(names: seq<string>)
    requires Ascending(names)
    ensures |Elements(names)| == |names|
  {
    if names != [] {
      var last, front := names[|names| - 1], names[..|names| - 1];
      AscendingSize(front);
      forall n | n in front
        ensures n != last
      {
        LessTotal(last, last);
      }
      assert names == front + [last];
      assert Elements(names) == Elements(front) + {last};
    }
  }

  function Below(s: set<string>, n: string): set<string> {
    set m | m in s && Less(m, n)
  }

  function Above(s: set<string>, n: string): set<string> {
    set m | m in s && Less(n, m)
  }

  /** In an ascending list the index is the number of smaller names. */
  lemma IndexIsRank(names: seq<string>, i: nat)
    requires Ascending(names) && i < |names|
    ensures |Below(Elements(names), names[i])| == i
    ensures |Above(Elements(names), names[i])| == |names| - 1 - i
  {
    var s := Elements(names);
    forall j | 0 <= j < |names|
      ensures Less(names[j], names[i]) <==> j < i
      ensures Less(names[i], names[j]) <==> i < j
    {
      LessTotal(names[i], names[j]);
    }
    assert Below(s, names[i]) == Elements(names[..i]);
    assert Above(s, names[i]) == Elements(names[i + 1..]);
    AscendingSize(names[..i]);
    AscendingSize(names[i + 1..]);
  }

  lemma RankSplits(s: set<string>, n: string)
    requires n in s
    ensures |Below(s, n)| + 1 + |Above(s, n)| == |s|
  {
    var names := AscendingListOf(s);
    AscendingSize(names);
    assert n in names;
    var i :| 0 <= i < |names| && names[i] == n;
    IndexIsRank(names, i);
  }

  /** Two ascending lists of the same names are the same list. */
  lemma AscendingUnique(a: seq<string>, b: seq<string>)
    requires Ascending(a) && Ascending(b) && Elements(a) == Elements(b)
    ensures a == b
  {
    AscendingSize(a);
    AscendingSize(b);
    forall i | 0 <= i < |a|
      ensures a[i] == b[i]
    {
      assert a[i] in Elements(b);
      var j :| 0 <= j < |b| && b[j] == a[i];
      IndexIsRank(a, i);
      IndexIsRank(b, j);
    }
  }

  /** The names with at least `k` smaller ones. */
  function Newest(s: set<string>, k: int): set<string> {
    set n | n in s && |Below(s, n)| >= k
  }

  lemma NewestIsTail(names: seq<string>, k: nat)
    requires Ascending(names) && k <= |names|
    ensures Newest(Elements(names), k) == Elements(names[k..])
    ensures Ascending(names[k..])
  {
    var s := Elements(names);
    forall i | 0 <= i < |names|
      ensures |Below(s, names[i])| == i
    {
      IndexIsRank(names, i);
    }
    forall n | n in Newest(s, k)
      ensures n in names[k..]
    {
      var i :| 0 <= i < |names| && names[i] == n;
      assert names[k..][i - k] == n;
    }
    forall n | n in names[k..]
      ensures n in Newest(s, k)
    {
      var j :| 0 <= j < |names[k..]| && names[k..][j] == n;
      assert names[k + j] == n;
    }
  }

  /** Leaving out all but `limit` of the smallest keeps those with fewer than `limit` above them. */
  lemma NewestByLimit(s: set<string>, limit: nat)
    ensures
      var k := if |s| <= limit then 0 else |s| - limit;
      && |Newest(s, k)| == (if |s| < limit then |s| else limit)
      && forall n :: n in Newest(s, k) <==> n in s && |Above(s, n)| < limit
  {
    var k := if |s| <= limit then 0 else |s| - limit;
    var names := AscendingListOf(s);
    AscendingSize(names);
    NewestIsTail(names, k);
    AscendingSize(names[k..]);
    forall n | n in s
      ensures |Below(s, n)| >= k <==> |Above(s, n)| < limit
    {
      RankSplits(s, n);
    }
  }

  /** Taking the next name in order off the tail. */
  lemma NextNewest(names: seq<string>, i: nat)
    requires Ascending(names) && i < |names|
    ensures Newest(Elements(names), i) == Newest(Elements(names), i + 1) + {names[i]}
    ensures names[i] !in Newest(Elements(names), i + 1)
  {
    NewestIsTail(names, i);
    NewestIsTail(names, i + 1);
    assert names[i..] == [names[i]] + names[i + 1..];
    IndexIsRank(names, i);
  }
}
