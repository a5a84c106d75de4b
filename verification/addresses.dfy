/** IP addresses and CIDR blocks as the Go library reads and prints them, which is what
    internal/iprules/rules.go relies on: four decimal octets, or eight hexadecimal groups
    with at most one "::" and possibly a dotted ending. */
module Addresses {
  import opened Text

  // ----------------------------------------------------------------------- octets

  predicate IsOctetText(s: string) {
    1 <= |s| <= 3 && (forall i :: 0 <= i < |s| ==> IsDigit(s[i])) && (|s| > 1 ==> s[0] != '0') && DecimalValue(s) < 256
  }

  predicate IsOctets(octets: seq<nat>) {
    |octets| == 4 && forall i :: 0 <= i < 4 ==> octets[i] < 256
  }

  function ParseV4(s: string): (octets: Option<seq<nat>>)
    ensures octets.Some? ==> IsOctets(octets.value)
  {
    var parts := Split(s, '.');
    if |parts| == 4 && IsOctetText(parts[0]) && IsOctetText(parts[1]) && IsOctetText(parts[2]) &&
        IsOctetText(parts[3]) then
      Some([DecimalValue(parts[0]), DecimalValue(parts[1]), DecimalValue(parts[2]), DecimalValue(parts[3])])
    else None
  }

  function FormatV4(octets: seq<nat>): string
    requires IsOctets(octets)
  {
    Decimal(octets[0]) + "." + (Decimal(octets[1]) + "." + (Decimal(octets[2]) + "." + Decimal(octets[3])))
  }

  lemma OctetRoundTrip(n: nat)
    requires n < 256
    ensures IsOctetText(Decimal(n)) && DecimalValue(Decimal(n)) == n
  {
    DecimalRoundTrip(n);
    if n >= 10 {
      assert Decimal(n) == Decimal(n / 10) + [Digit(n % 10)];
      if n >= 100 {
        assert Decimal(n / 10) == Decimal(n / 100) + [Digit(n / 10 % 10)];
      }
    }
  }

  lemma TwoFields(c: string, d: string)
    requires Without(c, '.') && Without(d, '.')
    ensures Split(c + "." + d, '.') == [c, d]
  {
    SplitFirst(c, '.', d);
    SplitOnly(d, '.');
  }

  lemma OneMoreField(a: string, rest: string, fields: seq<string>)
    requires Without(a, '.') && Split(rest, '.') == fields
    ensures Split(a + "." + rest, '.') == [a] + fields
  {
    SplitFirst(a, '.', rest);
  }

  lemma FourFields(a: string, b: string, c: string, d: string)
    requires Without(a, '.') && Without(b, '.') && Without(c, '.') && Without(d, '.')
    ensures Split(a + "." + (b + "." + (c + "." + d)), '.') == [a] + ([b] + [c, d])
  {
    TwoFields(c, d);
    OneMoreField(b, c + "." + d, [c, d]);
    OneMoreField(a, b + "." + (c + "." + d), [b] + [c, d]);
  }

  lemma V4RoundTrip(octets: seq<nat>)
    requires IsOctets(octets)
    ensures ParseV4(FormatV4(octets)) == Some(octets)
  {
    forall i | 0 <= i < 4
      ensures IsOctetText(Decimal(octets[i])) && DecimalValue(Decimal(octets[i])) == octets[i] &&
              Without(Decimal(octets[i]), '.')
    {
      OctetRoundTrip(octets[i]);
    }
    FourFields(Decimal(octets[0]), Decimal(octets[1]), Decimal(octets[2]), Decimal(octets[3]));
    assert octets == [octets[0], octets[1], octets[2], octets[3]];
  }

  // ----------------------------------------------------------------- hexadecimal groups

  predicate IsHexDigit(c: char) { IsDigit(c) || 'a' <= c <= 'f' || 'A' <= c <= 'F' }

  function HexDigit(n: nat): char
    requires n < 16
  {
    if n < 10 then '0' + n as char else 'a' + (n - 10) as char
  }

  function HexValue(c: char): (n: nat)
    requires IsHexDigit(c)
    ensures n < 16
  {
    if IsDigit(c) then c as nat - '0' as nat
    else if c >= 'a' then c as nat - 'a' as nat + 10
    else c as nat - 'A' as nat + 10
  }

  function Hex(n: nat): (s: string)
    ensures s != "" && All(IsHexDigit, s)
  {
    if n < 16 then [HexDigit(n)] else Hex(n / 16) + [HexDigit(n % 16)]
  }

  function HexNumber(s: string): nat
    requires All(IsHexDigit, s)
  {
    if s == [] then 0 else 16 * HexNumber(s[..|s| - 1]) + HexValue(s[|s| - 1])
  }

  predicate IsGroupText(s: string) {
    1 <= |s| <= 4 && forall i :: 0 <= i < |s| ==> IsHexDigit(s[i])
  }

  lemma {:induction false} HexNumberBound(s: string)
    requires IsGroupText(s)
    ensures HexNumber(s) < 65536
  {
    if |s| > 1 {
      assert HexNumber(s[..|s| - 1]) < 4096 by {
        HexNumberStep(s[..|s| - 1]);
      }
    } else {
      assert s[..0] == [];
    }
  }

  lemma HexNumberStep(s: string)
    requires IsGroupText(s) && |s| <= 3
    ensures HexNumber(s) < 4096
  {
    var t := s[..|s| - 1];
    assert t[..|t|] == t;
    if |t| > 0 {
      var u := t[..|t| - 1];
      if |u| > 0 {
        assert u[..0] == [];
        assert HexNumber(u) < 16;
      }
      assert HexNumber(t) < 256;
    }
  }

  lemma {:induction false} HexRoundTrip(n: nat)
    ensures HexNumber(Hex(n)) == n
  {
    if n >= 16 {
      HexRoundTrip(n / 16);
      var s := Hex(n);
      assert s[..|s| - 1] == Hex(n / 16);
    } else {
      assert Hex(n)[..0] == [];
    }
  }

  lemma HexIsShort(n: nat)
    requires n < 65536
    ensures IsGroupText(Hex(n))
  {
    if n >= 16 {
      assert |Hex(n)| == |Hex(n / 16)| + 1;
      if n / 16 >= 16 {
        assert |Hex(n / 16)| == |Hex(n / 256)| + 1;
        assert n / 16 / 16 == n / 256;
        if n / 256 >= 16 {
          assert |Hex(n / 256)| == |Hex(n / 4096)| + 1;
          assert n / 256 / 16 == n / 4096;
        }
      }
    }
  }

  predicate AreGroups(groups: seq<nat>) {
    forall i :: 0 <= i < |groups| ==> groups[i] < 65536
  }

  /** Colon-separated groups; the last field may be dotted where `dotted` allows it. */
  function ParseFields(fields: seq<string>, dotted: bool): (groups: Option<seq<nat>>)
    ensures groups.Some? ==> AreGroups(groups.value)
  {
    if fields == [] then Some([])
    else if IsGroupText(fields[0]) then
      HexNumberBound(fields[0]);
      match ParseFields(fields[1..], dotted)
      case None => None
      case Some(rest) => Some([HexNumber(fields[0])] + rest)
    else if dotted && |fields| == 1 && ParseV4(fields[0]).Some? then
      var o := ParseV4(fields[0]).value;
      Some([256 * o[0] + o[1], 256 * o[2] + o[3]])
    else None
  }

  function ParseGroups(s: string, dotted: bool): (groups: Option<seq<nat>>)
    ensures groups.Some? ==> AreGroups(groups.value)
  {
    if s == "" then Some([]) else ParseFields(Split(s, ':'), dotted)
  }

  /** Where the first "::" begins, or the length. */
  function FindEllipsis(s: string): (n: nat)
    ensures n <= |s|
    ensures n < |s| ==> n + 1 < |s| && s[n] == ':' && s[n + 1] == ':'
  {
    if |s| < 2 then |s|
    else if s[0] == ':' && s[1] == ':' then 0
    else 1 + FindEllipsis(s[1..])
  }

  function Zeros(n: nat): (z: seq<nat>)
    ensures |z| == n && forall i :: 0 <= i < n ==> z[i] == 0
  {
    if n == 0 then [] else [0] + Zeros(n - 1)
  }

  predicate IsV6(groups: seq<nat>) {
    |groups| == 8 && AreGroups(groups)
  }

  /** The groups on both sides of "::", which stands for at least one zero group. */
  function ParseAround(left: string, right: string): (groups: Option<seq<nat>>)
    ensures groups.Some? ==> IsV6(groups.value)
  {
    match ParseGroups(left, false)
    case None => None
    case Some(l) =>
      match ParseGroups(right, true)
      case None => None
      case Some(r) => if |l| + |r| <= 7 then Some(l + Zeros(8 - |l| - |r|) + r) else None
  }

  function ParseV6(s: string): (groups: Option<seq<nat>>)
    ensures groups.Some? ==> IsV6(groups.value)
  {
    var n := FindEllipsis(s);
    if n < |s| then ParseAround(s[..n], s[n + 2..])
    else
      match ParseGroups(s, true)
      case None => None
      case Some(groups) => if |groups| == 8 then Some(groups) else None
  }

  // ------------------------------------------------------------------- printing IPv6

  function HexJoin(groups: seq<nat>): string {
    if groups == [] then ""
    else if |groups| == 1 then Hex(groups[0])
    else Hex(groups[0]) + ":" + HexJoin(groups[1..])
  }

  function ZeroRun(groups: seq<nat>, i: nat): (j: nat)
    requires i <= |groups|
    ensures i <= j <= |groups| && forall k :: i <= k < j ==> groups[k] == 0
    decreases |groups| - i
  {
    if i < |groups| && groups[i] == 0 then ZeroRun(groups, i + 1) else i
  }

  /** The leftmost longest run of at least two zero groups among those starting at or after `i`. */
  function LongestRun(groups: seq<nat>, i: nat, best: (nat, nat)): (run: (nat, nat))
    requires i <= |groups|
    requires best.0 <= best.1 <= |groups| && forall k :: best.0 <= k < best.1 ==> groups[k] == 0
    requires best.0 == best.1 || best.1 - best.0 >= 2
    ensures run.0 <= run.1 <= |groups| && forall k :: run.0 <= k < run.1 ==> groups[k] == 0
    ensures run.0 == run.1 || run.1 - run.0 >= 2
    decreases |groups| - i
  {
    if i == |groups| then best
    else
      var j := ZeroRun(groups, i);
      LongestRun(groups, if j > i then j else i + 1, if j - i >= 2 && j - i > best.1 - best.0 then (i, j) else best)
  }

  function FormatV6(groups: seq<nat>): string
    requires IsV6(groups)
  {
    var (start, end) := LongestRun(groups, 0, (0, 0));
    if start == end then HexJoin(groups) else HexJoin(groups[..start]) + ("::" + HexJoin(groups[end..]))
  }

  ghost predicate ZerosAt(groups: seq<nat>, i: nat, j: nat) {
    i + 2 <= j <= |groups| && forall k :: i <= k < j ==> groups[k] == 0
  }

  /** No run that starts before `limit` is longer than the given one, or as long and further left. */
  ghost predicate LongestBefore(groups: seq<nat>, limit: nat, run: (nat, nat)) {
    forall i: nat, j: nat :: i < limit && ZerosAt(groups, i, j) ==>
                              j - i < run.1 - run.0 || (j - i == run.1 - run.0 && run.0 <= i)
  }

  lemma {:induction false} ZeroRunEnds(groups: seq<nat>, i: nat)
    requires i <= |groups|
    ensures var j := ZeroRun(groups, i); j == |groups| || groups[j] != 0
    decreases |groups| - i
  {
    if i < |groups| && groups[i] == 0 {
      ZeroRunEnds(groups, i + 1);
    }
  }

  lemma {:induction false} LongestRunIs(groups: seq<nat>, i: nat, best: (nat, nat))
    requires i <= |groups| && LongestBefore(groups, i, best)
    requires best.0 <= best.1 <= |groups| && forall k :: best.0 <= k < best.1 ==> groups[k] == 0
    requires best.0 == best.1 || best.1 - best.0 >= 2
    requires best.0 <= i
    ensures LongestBefore(groups, |groups|, LongestRun(groups, i, best))
    decreases |groups| - i
  {
    if i < |groups| {
      var j := ZeroRun(groups, i);
      ZeroRunEnds(groups, i);
      var next := if j - i >= 2 && j - i > best.1 - best.0 then (i, j) else best;
      var i' := if j > i then j else i + 1;
      forall a: nat, b: nat | a < i' && ZerosAt(groups, a, b)
        ensures b - a < next.1 - next.0 || (b - a == next.1 - next.0 && next.0 <= a)
      {
        assert j < |groups| ==> groups[j] != 0;
      }
      LongestRunIs(groups, i', next);
    }
  }

  /** What "::" stands for: the longest run of two zero groups or more, and of runs as long the
      leftmost. */
  ghost predicate IsEllipsis(groups: seq<nat>, i: nat, j: nat) {
    ZerosAt(groups, i, j) && LongestBefore(groups, |groups|, (i, j))
  }

  /** The printed form is the shortest one. */
  lemma PrintedV6(groups: seq<nat>)
    requires IsV6(groups)
    ensures (forall i: nat, j: nat :: !ZerosAt(groups, i, j)) ==> FormatV6(groups) == HexJoin(groups)
    ensures forall i: nat, j: nat :: IsEllipsis(groups, i, j) ==>
                                      FormatV6(groups) == HexJoin(groups[..i]) + ("::" + HexJoin(groups[j..]))
    ensures (forall i: nat, j: nat :: !ZerosAt(groups, i, j)) || exists i: nat, j: nat :: IsEllipsis(groups, i, j)
  {
    LongestRunIs(groups, 0, (0, 0));
    var run := LongestRun(groups, 0, (0, 0));
    if run.0 != run.1 {
      assert IsEllipsis(groups, run.0, run.1);
    }
    forall i: nat, j: nat | IsEllipsis(groups, i, j)
      ensures (i, j) == run
    {
      assert run.0 != run.1;
      assert ZerosAt(groups, run.0, run.1);
    }
  }

  lemma LowerHexDigit(n: nat)
    requires n < 16
    ensures HexDigit(n) == "0123456789abcdef"[n]
    ensures n > 0 ==> HexDigit(n) != '0'
  {
  }

  /** Groups are printed in lower case and without leading zeros. */
  lemma {:induction false} PrintedGroup(n: nat)
    ensures forall i :: 0 <= i < |Hex(n)| ==> Hex(n)[i] in "0123456789abcdef"
    ensures n > 0 ==> Hex(n)[0] != '0'
    ensures n == 0 ==> Hex(n) == "0"
  {
    LowerHexDigit(n % 16);
    if n >= 16 {
      PrintedGroup(n / 16);
    }
  }

  lemma HexHasNo(s: string, c: char)
    requires All(IsHexDigit, s) && !IsHexDigit(c)
    ensures Without(s, c)
  {
  }

  lemma {:induction false} FieldsOfHexJoin(groups: seq<nat>)
    requires groups != [] && AreGroups(groups)
    ensures |Split(HexJoin(groups), ':')| == |groups|
    ensures forall i :: 0 <= i < |groups| ==> Split(HexJoin(groups), ':')[i] == Hex(groups[i])
  {
    HexHasNo(Hex(groups[0]), ':');
    if |groups| == 1 {
      SplitOnly(Hex(groups[0]), ':');
    } else {
      FieldsOfHexJoin(groups[1..]);
      SplitFirst(Hex(groups[0]), ':', HexJoin(groups[1..]));
    }
  }

  lemma {:induction false} ParseHexFields(fields: seq<string>, groups: seq<nat>, dotted: bool)
    requires |fields| == |groups| && AreGroups(groups)
    requires forall i :: 0 <= i < |groups| ==> fields[i] == Hex(groups[i])
    ensures ParseFields(fields, dotted) == Some(groups)
  {
    if fields != [] {
      HexIsShort(groups[0]);
      HexRoundTrip(groups[0]);
      ParseHexFields(fields[1..], groups[1..], dotted);
      assert groups == [groups[0]] + groups[1..];
    }
  }

  lemma GroupsRoundTrip(groups: seq<nat>, dotted: bool)
    requires AreGroups(groups)
    ensures ParseGroups(HexJoin(groups), dotted) == Some(groups)
    ensures HexJoin(groups) == "" <==> groups == []
  {
    if groups != [] {
      FieldsOfHexJoin(groups);
      ParseHexFields(Split(HexJoin(groups), ':'), groups, dotted);
    }
  }

  lemma {:induction false} HexJoinHasNoEllipsis(groups: seq<nat>)
    ensures NoEmptyPiece(HexJoin(groups), ':')
  {
    if groups != [] {
      HexHasNo(Hex(groups[0]), ':');
      if |groups| > 1 {
        HexJoinHasNoEllipsis(groups[1..]);
        var a, b := Hex(groups[0]), HexJoin(groups[1..]);
        assert b != "" by {
          assert Hex(groups[1]) != "";
        }
        var s := a + ":" + b;
        forall i | 0 < i < |s|
          ensures !(s[i - 1] == ':' && s[i] == ':')
        {
          if i > |a| + 1 {
            assert s[i] == b[i - |a| - 1] && s[i - 1] == b[i - |a| - 2];
          } else if i == |a| + 1 {
            assert s[i] == b[0];
          }
        }
      }
    }
  }

  lemma {:induction false} EllipsisAt(left: string, rest: string)
    requires NoEmptyPiece(left, ':')
    ensures FindEllipsis(left + ("::" + rest)) == |left|
  {
    var s := left + ("::" + rest);
    if left != "" {
      assert s[1..] == left[1..] + ("::" + rest);
      if left[1..] == "" {
        assert s[0] != ':';
        assert s[1..] == "::" + rest;
        assert FindEllipsis("::" + rest) == 0;
      } else {
        EllipsisInTail(left, rest);
      }
    }
  }

  /** As `EllipsisAt`, for a text whose head may be a colon but not two. */
  lemma {:induction false} EllipsisInTail(left: string, rest: string)
    requires left != "" && left[|left| - 1] != ':'
    requires forall i :: 0 < i < |left| ==> !(left[i - 1] == ':' && left[i] == ':')
    ensures FindEllipsis(left + ("::" + rest)) == |left|
  {
    var s := left + ("::" + rest);
    assert s[1..] == left[1..] + ("::" + rest);
    if |left| == 1 {
      assert s[0] == left[0];
      assert FindEllipsis(s[1..]) == 0;
    } else {
      assert s[0] == left[0] && s[1] == left[1];
      EllipsisInTail(left[1..], rest);
    }
  }

  lemma {:induction false} EllipsisNowhere(s: string)
    requires forall i :: 0 < i < |s| ==> !(s[i - 1] == ':' && s[i] == ':')
    ensures FindEllipsis(s) == |s|
  {
    if |s| >= 2 {
      EllipsisNowhere(s[1..]);
    }
  }

  lemma EllipsisSplits(l: string, r: string)
    requires NoEmptyPiece(l, ':')
    ensures
      var s := l + ("::" + r);
      FindEllipsis(s) == |l| < |s| && s[..|l|] == l && s[|l| + 2..] == r
  {
    EllipsisAt(l, r);
  }

  lemma AroundParses(left: seq<nat>, right: seq<nat>)
    requires AreGroups(left) && AreGroups(right) && |left| + |right| <= 7
    ensures ParseAround(HexJoin(left), HexJoin(right)) == Some(left + Zeros(8 - |left| - |right|) + right)
  {
    GroupsRoundTrip(left, false);
    GroupsRoundTrip(right, true);
  }

  lemma CompressedParses(left: seq<nat>, right: seq<nat>)
    requires AreGroups(left) && AreGroups(right) && |left| + |right| <= 7
    ensures ParseV6(HexJoin(left) + ("::" + HexJoin(right))) == Some(left + Zeros(8 - |left| - |right|) + right)
  {
    HexJoinHasNoEllipsis(left);
    EllipsisSplits(HexJoin(left), HexJoin(right));
    AroundParses(left, right);
  }

  lemma PlainParses(groups: seq<nat>)
    requires IsV6(groups)
    ensures ParseV6(HexJoin(groups)) == Some(groups)
  {
    HexJoinHasNoEllipsis(groups);
    EllipsisNowhere(HexJoin(groups));
    GroupsRoundTrip(groups, true);
  }

  lemma ZerosBetween(groups: seq<nat>, start: nat, end: nat)
    requires start <= end <= |groups|
    requires forall k :: start <= k < end ==> groups[k] == 0
    ensures groups[..start] + Zeros(end - start) + groups[end..] == groups
  {
  }

  lemma V6RoundTrip(groups: seq<nat>)
    requires IsV6(groups)
    ensures ParseV6(FormatV6(groups)) == Some(groups)
  {
    var (start, end) := LongestRun(groups, 0, (0, 0));
    if start == end {
      PlainParses(groups);
    } else {
      CompressedParses(groups[..start], groups[end..]);
      ZerosBetween(groups, start, end);
    }
  }

  // ------------------------------------------------------------------ addresses, blocks

  datatype Addr = V4(octets: seq<nat>) | V6(groups: seq<nat>)
  {
    predicate Valid() {
      match this case V4(o) => IsOctets(o) case V6(g) => IsV6(g)
    }

    function Bits(): nat {
      if V4? then 32 else 128
    }
  }

  predicate IsMark(c: char) { c == '.' || c == ':' || c == '%' }

  /** The first dot or colon decides the family; zones are refused. */
  function ParseAddr(s: string): (a: Option<Addr>)
    ensures a.Some? ==> a.value.Valid()
  {
    var n := Span(c => !IsMark(c), s);
    if n < |s| && s[n] == '.' then
      match ParseV4(s) case None => None case Some(octets) => Some(V4(octets))
    else if n < |s| && s[n] == ':' then
      match ParseV6(s) case None => None case Some(groups) => Some(V6(groups))
    else None
  }

  /** An IPv4 address written in IPv6 is taken for the IPv4 address. */
  function Unmapped(a: Addr): (b: Addr)
    requires a.Valid()
    ensures b.Valid()
  {
    match a
    case V4(_) => a
    case V6(g) =>
      if g[0] == g[1] == g[2] == g[3] == g[4] == 0 && g[5] == 65535 then
        V4([g[6] / 256, g[6] % 256, g[7] / 256, g[7] % 256])
      else a
  }

  function Format(a: Addr): string
    requires a.Valid()
  {
    match a case V4(o) => FormatV4(o) case V6(g) => FormatV6(g)
  }

  lemma {:induction false} HexJoinChars(groups: seq<nat>)
    ensures forall i :: 0 <= i < |HexJoin(groups)| ==> IsHexDigit(HexJoin(groups)[i]) || HexJoin(groups)[i] == ':'
  {
    if |groups| > 1 {
      HexJoinChars(groups[1..]);
    }
  }

  predicate IsAddrChar(c: char) { IsHexDigit(c) || c == ':' || c == '.' }

  lemma FormatChars(a: Addr)
    requires a.Valid()
    ensures Format(a) != "" && All(IsAddrChar, Format(a))
    ensures a.V6? ==> Without(Format(a), '.') && exists i :: 0 <= i < |Format(a)| && Format(a)[i] == ':'
  {
    match a {
      case V4(o) =>
      case V6(g) =>
        var (start, end) := LongestRun(g, 0, (0, 0));
        var s := FormatV6(g);
        HexJoinChars(g);
        HexJoinChars(g[..start]);
        HexJoinChars(g[end..]);
        if start == end {
          assert s[|Hex(g[0])|] == ':';
        } else {
          assert s[|HexJoin(g[..start])|] == ':';
        }
    }
  }

  lemma MarkOf(s: string, i: nat, c: char)
    requires i < |s| && s[i] == c && IsMark(c)
    requires forall j :: 0 <= j < |s| && IsMark(s[j]) ==> s[j] == c
    ensures var n := Span(x => !IsMark(x), s); n < |s| && s[n] == c
  {
    assert s[..|s|] == s;
  }

  lemma V4MarkIsDot(o: seq<nat>)
    requires IsOctets(o)
    ensures var s := FormatV4(o); var n := Span(c => !IsMark(c), s); n < |s| && s[n] == '.'
  {
    var d, rest := Decimal(o[0]), "." + (Decimal(o[1]) + "." + (Decimal(o[2]) + "." + Decimal(o[3])));
    SpanOf(c => !IsMark(c), d, rest);
    assert FormatV4(o) == d + rest;
  }

  lemma V6MarkIsColon(g: seq<nat>)
    requires IsV6(g)
    ensures var s := FormatV6(g); var n := Span(c => !IsMark(c), s); n < |s| && s[n] == ':'
  {
    var s := FormatV6(g);
    FormatChars(V6(g));
    var i :| 0 <= i < |s| && s[i] == ':';
    MarkOf(s, i, ':');
  }

  /** Printing an address and reading it back. */
  lemma AddrRoundTrip(a: Addr)
    requires a.Valid()
    ensures ParseAddr(Format(a)) == Some(a)
  {
    match a {
      case V4(o) =>
        V4MarkIsDot(o);
        V4RoundTrip(o);
      case V6(g) =>
        V6MarkIsColon(g);
        V6RoundTrip(g);
    }
  }

  // ------------------------------------------------------------ which texts spell what

  ghost predicate SpellsV4(s: string, o: seq<nat>) {
    && IsOctets(o)
    && s == Decimal(o[0]) + "." + Decimal(o[1]) + "." + Decimal(o[2]) + "." + Decimal(o[3])
  }

  /** The number that digits in a base stand for, the first digit weighing most. */
  function Number(digits: seq<nat>, base: nat): nat {
    if digits == [] then 0 else Number(digits[..|digits| - 1], base) * base + digits[|digits| - 1]
  }

  ghost predicate SpellsDigits(s: string, digits: seq<nat>) {
    && |s| == |digits|
    && forall i :: 0 <= i < |s| ==> IsHexDigitOf(s[i], digits[i])
  }

  ghost predicate IsHexDigitOf(c: char, d: nat) {
    d < 16 && (c == "0123456789abcdef"[d] || c == "0123456789ABCDEF"[d])
  }

  /** One to four hexadecimal digits, in either case. */
  ghost predicate SpellsGroup(s: string, group: nat) {
    1 <= |s| <= 4 && exists digits :: SpellsDigits(s, digits) && group == Number(digits, 16)
  }

  ghost predicate SpellFields(fields: seq<string>, groups: seq<nat>) {
    |fields| == |groups| && forall i :: 0 <= i < |fields| ==> SpellsGroup(fields[i], groups[i])
  }

  /** Groups with colons between them. */
  ghost predicate SpellsGroups(s: string, groups: seq<nat>) {
    exists fields :: SpellFields(fields, groups) && s == Joined(fields, ':')
  }

  /** The last two groups, written as an IPv4 address. */
  ghost predicate EndsDotted(s: string, groups: seq<nat>) {
    exists o :: SpellsV4(s, o) && groups == [256 * o[0] + o[1], 256 * o[2] + o[3]]
  }

  ghost predicate SpellDotted(fields: seq<string>, groups: seq<nat>) {
    var k := |fields| - 1;
    k >= 0 && |groups| == k + 2 && SpellFields(fields[..k], groups[..k]) && EndsDotted(fields[k], groups[k..])
  }

  /** Groups with colons between them, where an IPv4 address may stand for the last two. */
  ghost predicate SpellsTail(s: string, groups: seq<nat>) {
    exists fields :: (SpellFields(fields, groups) || SpellDotted(fields, groups)) && s == Joined(fields, ':')
  }

  /** Zero groups stand between the two parts. */
  ghost predicate Around(groups: seq<nat>, left: seq<nat>, right: seq<nat>) {
    && |groups| == 8 && |left| + |right| <= 7
    && groups[..|left|] == left && groups[8 - |right|..] == right
    && forall k :: |left| <= k < 8 - |right| ==> groups[k] == 0
  }

  ghost predicate SpellsAround(s: string, groups: seq<nat>, l: string, left: seq<nat>, r: string, right: seq<nat>) {
    s == l + ("::" + r) && SpellsGroups(l, left) && SpellsTail(r, right) && Around(groups, left, right)
  }

  /** Eight groups, or fewer with "::" for the zero groups left out. */
  ghost predicate SpellsV6(s: string, groups: seq<nat>) {
    || (|groups| == 8 && SpellsTail(s, groups))
    || exists l, left, r, right :: SpellsAround(s, groups, l, left, r, right)
  }

  ghost predicate Spells(s: string, a: Addr) {
    match a case V4(o) => SpellsV4(s, o) case V6(g) => SpellsV6(s, g)
  }

  lemma {:induction false} LeadingDigit(s: string)
    requires All(IsDigit, s) && |s| > 1 && s[0] != '0'
    ensures DecimalValue(s) >= 10
  {
    var t := s[..|s| - 1];
    if |t| == 1 {
      assert t[..0] == "";
      assert DecimalValue(t) == DigitValue(t[0]);
    } else {
      LeadingDigit(t);
    }
  }

  lemma {:induction false} DecimalOfValue(s: string)
    requires All(IsDigit, s) && s != "" && (|s| > 1 ==> s[0] != '0')
    ensures Decimal(DecimalValue(s)) == s
  {
    var k := |s| - 1;
    if k == 0 {
      assert s[..0] == "";
    } else {
      LeadingDigit(s);
      DecimalOfValue(s[..k]);
      assert s == s[..k] + [s[k]];
    }
  }

  lemma FourJoined(a: string, b: string, c: string, d: string)
    ensures Joined([a, b, c, d], '.') == a + "." + b + "." + c + "." + d == a + "." + (b + "." + (c + "." + d))
  {
    assert [a, b, c, d][1..] == [b, c, d] && [b, c, d][1..] == [c, d] && [c, d][1..] == [d];
    assert Joined([c, d], '.') == c + ("." + d);
    assert Joined([b, c, d], '.') == b + ("." + (c + ("." + d)));
    assert Joined([a, b, c, d], '.') == a + ("." + (b + ("." + (c + ("." + d)))));
  }

  /** Exactly the four numbers in plain decimal, without leading zeros. */
  lemma ParseV4Iff(s: string, o: seq<nat>)
    ensures ParseV4(s) == Some(o) <==> SpellsV4(s, o)
  {
    if SpellsV4(s, o) {
      FourJoined(Decimal(o[0]), Decimal(o[1]), Decimal(o[2]), Decimal(o[3]));
      V4RoundTrip(o);
    }
    if ParseV4(s) == Some(o) {
      var parts := Split(s, '.');
      SplitIs(s, '.');
      assert parts == [parts[0], parts[1], parts[2], parts[3]];
      FourJoined(parts[0], parts[1], parts[2], parts[3]);
      DecimalOfValue(parts[0]);
      DecimalOfValue(parts[1]);
      DecimalOfValue(parts[2]);
      DecimalOfValue(parts[3]);
    }
  }

  lemma HexDigitIff(c: char, d: nat)
    ensures IsHexDigitOf(c, d) <==> IsHexDigit(c) && HexValue(c) == d
  {
  }

  lemma {:induction false} HexNumberIs(s: string, digits: seq<nat>)
    requires SpellsDigits(s, digits)
    ensures All(IsHexDigit, s) && HexNumber(s) == Number(digits, 16)
  {
    forall i | 0 <= i < |s|
      ensures IsHexDigit(s[i]) && HexValue(s[i]) == digits[i]
    {
      HexDigitIff(s[i], digits[i]);
    }
    if s != "" {
      HexNumberIs(s[..|s| - 1], digits[..|s| - 1]);
    }
  }

  lemma GroupIff(s: string, group: nat)
    ensures SpellsGroup(s, group) <==> IsGroupText(s) && HexNumber(s) == group
  {
    if SpellsGroup(s, group) {
      var digits :| SpellsDigits(s, digits) && group == Number(digits, 16);
      HexNumberIs(s, digits);
    }
    if IsGroupText(s) && HexNumber(s) == group {
      var digits := seq(|s|, i requires 0 <= i < |s| => HexValue(s[i]));
      forall i | 0 <= i < |s|
        ensures IsHexDigitOf(s[i], digits[i])
      {
        HexDigitIff(s[i], digits[i]);
      }
      HexNumberIs(s, digits);
    }
  }

  lemma FieldsCons(fields: seq<string>, groups: seq<nat>)
    requires fields != [] && groups != []
    ensures SpellFields(fields, groups) <==> SpellsGroup(fields[0], groups[0]) && SpellFields(fields[1..], groups[1..])
  {
    if SpellsGroup(fields[0], groups[0]) && SpellFields(fields[1..], groups[1..]) {
      forall i | 0 <= i < |fields|
        ensures SpellsGroup(fields[i], groups[i])
      {
        assert i > 0 ==> fields[i] == fields[1..][i - 1] && groups[i] == groups[1..][i - 1];
      }
    }
  }

  lemma DottedCons(fields: seq<string>, groups: seq<nat>)
    requires |fields| > 1 && groups != []
    ensures SpellDotted(fields, groups) <==> SpellsGroup(fields[0], groups[0]) && SpellDotted(fields[1..], groups[1..])
  {
    var k := |fields| - 1;
    if |groups| == k + 2 {
      FieldsCons(fields[..k], groups[..k]);
      assert fields[..k][1..] == fields[1..][..k - 1] && groups[..k][1..] == groups[1..][..k - 1];
      assert groups[k..] == groups[1..][k - 1..];
    }
  }

  lemma DottedChars(s: string, o: seq<nat>)
    requires SpellsV4(s, o)
    ensures s != "" && Without(s, ':') && Without(s, '/') && !IsGroupText(s)
  {
    var d := Decimal(o[0]);
    FourJoined(d, Decimal(o[1]), Decimal(o[2]), Decimal(o[3]));
    FormatChars(V4(o));
    assert s[|d|] == '.';
    assert Without(s, ':') by {
      forall i | 0 <= i < |s|
        ensures s[i] != ':'
      {
      }
    }
  }

  predicate DottedEnd(s: string, groups: seq<nat>) {
    match ParseV4(s)
    case None => false
    case Some(o) => !IsGroupText(s) && groups == [256 * o[0] + o[1], 256 * o[2] + o[3]]
  }

  lemma SpelledEnd(s: string, o: seq<nat>)
    requires SpellsV4(s, o)
    ensures DottedEnd(s, [256 * o[0] + o[1], 256 * o[2] + o[3]]) && s != "" && Without(s, ':') && Without(s, '/')
  {
    ParseV4Iff(s, o);
    DottedChars(s, o);
  }

  lemma EndIsParsed(s: string, groups: seq<nat>)
    requires EndsDotted(s, groups)
    ensures DottedEnd(s, groups)
    ensures s != "" && Without(s, ':') && Without(s, '/')
  {
    var o :| SpellsV4(s, o) && groups == [256 * o[0] + o[1], 256 * o[2] + o[3]];
    SpelledEnd(s, o);
  }

  lemma ParsedIsEnd(s: string, groups: seq<nat>)
    requires DottedEnd(s, groups)
    ensures EndsDotted(s, groups)
  {
    ParseV4Iff(s, ParseV4(s).value);
  }

  lemma LastFieldIff(fields: seq<string>, groups: seq<nat>)
    requires |fields| == 1
    ensures SpellDotted(fields, groups) <==> |groups| == 2 && EndsDotted(fields[0], groups)
  {
    if |groups| == 2 {
      assert groups[0..] == groups;
      assert SpellFields(fields[..0], groups[..0]);
    }
  }

  lemma OneField(fields: seq<string>, dotted: bool)
    requires |fields| == 1
    ensures
      var f := fields[0];
      ParseFields(fields, dotted) ==
      if IsGroupText(f) then HexNumberBound(f); Some([HexNumber(f)])
      else if dotted && ParseV4(f).Some? then
        var o := ParseV4(f).value; Some([256 * o[0] + o[1], 256 * o[2] + o[3]])
      else None
  {
    var f, none := fields[0], fields[1..];
    assert none == [] && ParseFields(none, dotted) == Some([]);
    if IsGroupText(f) {
      HexNumberBound(f);
      assert [HexNumber(f)] + [] == [HexNumber(f)];
    }
  }

  lemma OneSpelled(fields: seq<string>, groups: seq<nat>)
    requires |fields| == 1
    ensures SpellFields(fields, groups) <==>
            IsGroupText(fields[0]) && |groups| == 1 && groups[0] == HexNumber(fields[0])
  {
    if |groups| == 1 {
      GroupIff(fields[0], groups[0]);
    }
  }

  lemma OneDotted(fields: seq<string>, groups: seq<nat>)
    requires |fields| == 1
    ensures SpellDotted(fields, groups) <==> DottedEnd(fields[0], groups)
  {
    LastFieldIff(fields, groups);
    if SpellDotted(fields, groups) {
      EndIsParsed(fields[0], groups);
    }
    if DottedEnd(fields[0], groups) {
      ParsedIsEnd(fields[0], groups);
    }
  }

  lemma LastParsedIff(fields: seq<string>, groups: seq<nat>, dotted: bool)
    requires |fields| == 1
    ensures ParseFields(fields, dotted) == Some(groups) <==>
            SpellFields(fields, groups) || (dotted && SpellDotted(fields, groups))
  {
    OneField(fields, dotted);
    OneSpelled(fields, groups);
    OneDotted(fields, groups);
    assert |groups| == 1 ==> groups == [groups[0]];
  }

  lemma {:induction false} FieldsIff(fields: seq<string>, groups: seq<nat>, dotted: bool)
    ensures ParseFields(fields, dotted) == Some(groups) <==>
            SpellFields(fields, groups) || (dotted && SpellDotted(fields, groups))
  {
    if |fields| == 1 {
      LastParsedIff(fields, groups, dotted);
    } else if fields != [] && groups != [] {
      GroupIff(fields[0], groups[0]);
      FieldsCons(fields, groups);
      DottedCons(fields, groups);
      FieldsIff(fields[1..], groups[1..], dotted);
      assert groups == [groups[0]] + groups[1..];
    }
  }

  /** Each field is there, and ends where the next colon is; none holds a slash. */
  ghost predicate AreFields(fields: seq<string>) {
    forall i :: 0 <= i < |fields| ==> fields[i] != "" && Without(fields[i], ':') && Without(fields[i], '/')
  }

  lemma SpelledAreFields(fields: seq<string>, groups: seq<nat>)
    requires SpellFields(fields, groups) || SpellDotted(fields, groups)
    ensures AreFields(fields)
  {
    var k := |fields| - 1;
    forall i | 0 <= i < |fields|
      ensures fields[i] != "" && Without(fields[i], ':') && Without(fields[i], '/')
    {
      if SpellFields(fields, groups) {
        GroupIff(fields[i], groups[i]);
      } else if i < k {
        assert SpellsGroup(fields[..k][i], groups[..k][i]);
        GroupIff(fields[i], groups[i]);
      } else {
        EndIsParsed(fields[k], groups[k..]);
      }
    }
  }

  lemma FieldsOf(s: string, fields: seq<string>)
    requires AreFields(fields) && s == Joined(fields, ':')
    ensures s == "" <==> fields == []
    ensures s != "" ==> Split(s, ':') == fields
  {
    if fields != [] {
      SplitJoined(fields, ':');
    }
  }

  lemma GroupsIff(s: string, groups: seq<nat>)
    ensures ParseGroups(s, false) == Some(groups) <==> SpellsGroups(s, groups)
  {
    if SpellsGroups(s, groups) {
      var fields :| SpellFields(fields, groups) && s == Joined(fields, ':');
      SpelledAreFields(fields, groups);
      FieldsOf(s, fields);
      FieldsIff(fields, groups, false);
    }
    if ParseGroups(s, false) == Some(groups) {
      var fields := if s == "" then [] else Split(s, ':');
      FieldsIff(fields, groups, false);
      SplitIs(s, ':');
    }
  }

  lemma TailIff(s: string, groups: seq<nat>)
    ensures ParseGroups(s, true) == Some(groups) <==> SpellsTail(s, groups)
  {
    if SpellsTail(s, groups) {
      var fields :| (SpellFields(fields, groups) || SpellDotted(fields, groups)) && s == Joined(fields, ':');
      SpelledAreFields(fields, groups);
      FieldsOf(s, fields);
      FieldsIff(fields, groups, true);
    }
    if ParseGroups(s, true) == Some(groups) {
      var fields := if s == "" then [] else Split(s, ':');
      FieldsIff(fields, groups, true);
      SplitIs(s, ':');
      assert s == Joined(fields, ':');
    }
  }

  lemma SpelledHasNoEllipsis(s: string, groups: seq<nat>)
    requires SpellsTail(s, groups)
    ensures NoEmptyPiece(s, ':')
  {
    var fields :| (SpellFields(fields, groups) || SpellDotted(fields, groups)) && s == Joined(fields, ':');
    SpelledAreFields(fields, groups);
    JoinedHasNoEmptyPiece(fields, ':');
  }

  lemma GroupsAreTail(s: string, groups: seq<nat>)
    requires SpellsGroups(s, groups)
    ensures SpellsTail(s, groups)
  {
  }

  lemma AroundIs(groups: seq<nat>, left: seq<nat>, right: seq<nat>)
    requires |left| + |right| <= 7
    ensures Around(groups, left, right) <==> groups == left + Zeros(8 - |left| - |right|) + right
  {
    if Around(groups, left, right) {
      ZerosBetween(groups, |left|, 8 - |right|);
    }
  }

  lemma AroundOf(l: string, left: seq<nat>, r: string, right: seq<nat>, groups: seq<nat>)
    requires SpellsGroups(l, left) && SpellsTail(r, right) && Around(groups, left, right)
    ensures ParseAround(l, r) == Some(groups)
  {
    GroupsIff(l, left);
    TailIff(r, right);
    JoinedAround(l, left, r, right, groups);
  }

  lemma JoinedAround(l: string, left: seq<nat>, r: string, right: seq<nat>, groups: seq<nat>)
    requires ParseGroups(l, false) == Some(left) && ParseGroups(r, true) == Some(right)
    requires Around(groups, left, right)
    ensures ParseAround(l, r) == Some(groups)
  {
    AroundIs(groups, left, right);
  }

  lemma ParsedAround(l: string, r: string, groups: seq<nat>)
    requires ParseAround(l, r) == Some(groups)
    ensures exists left, right :: SpellsGroups(l, left) && SpellsTail(r, right) && Around(groups, left, right)
  {
    var left, right := ParseGroups(l, false).value, ParseGroups(r, true).value;
    GroupsIff(l, left);
    TailIff(r, right);
    AroundIs(groups, left, right);
  }

  lemma EllipsisCut(s: string, n: nat)
    requires n + 1 < |s| && s[n] == s[n + 1] == ':'
    ensures s == s[..n] + ("::" + s[n + 2..])
  {
  }

  lemma ParsedAroundIsSpelled(s: string, groups: seq<nat>, l: string, r: string)
    requires s == l + ("::" + r) && ParseAround(l, r) == Some(groups)
    ensures SpellsV6(s, groups)
  {
    ParsedAround(l, r, groups);
    var left, right :| SpellsGroups(l, left) && SpellsTail(r, right) && Around(groups, left, right);
    assert SpellsAround(s, groups, l, left, r, right);
  }

  lemma ParsedV6IsSpelled(s: string, groups: seq<nat>)
    requires ParseV6(s) == Some(groups)
    ensures SpellsV6(s, groups)
  {
    var n := FindEllipsis(s);
    if n < |s| {
      EllipsisCut(s, n);
      ParsedAroundIsSpelled(s, groups, s[..n], s[n + 2..]);
    } else {
      TailIff(s, groups);
    }
  }

  lemma FullParses(s: string, groups: seq<nat>)
    requires |groups| == 8 && SpellsTail(s, groups)
    ensures ParseV6(s) == Some(groups)
  {
    SpelledHasNoEllipsis(s, groups);
    EllipsisNowhere(s);
    TailIff(s, groups);
  }

  lemma EllipsisParses(l: string, r: string)
    requires NoEmptyPiece(l, ':')
    ensures ParseV6(l + ("::" + r)) == ParseAround(l, r)
  {
    EllipsisSplits(l, r);
  }

  lemma AroundIsParsed(s: string, groups: seq<nat>, l: string, left: seq<nat>, r: string, right: seq<nat>)
    requires SpellsAround(s, groups, l, left, r, right)
    ensures ParseV6(s) == Some(groups)
  {
    GroupsAreTail(l, left);
    SpelledHasNoEllipsis(l, left);
    EllipsisParses(l, r);
    AroundOf(l, left, r, right, groups);
  }

  /** Exactly the texts of the grammar, with exactly the groups they spell. */
  lemma ParseV6Iff(s: string, groups: seq<nat>)
    ensures ParseV6(s) == Some(groups) <==> SpellsV6(s, groups)
  {
    if ParseV6(s) == Some(groups) {
      ParsedV6IsSpelled(s, groups);
    } else if |groups| == 8 && SpellsTail(s, groups) {
      FullParses(s, groups);
    } else if SpellsV6(s, groups) {
      var l, left, r, right :| SpellsAround(s, groups, l, left, r, right);
      AroundIsParsed(s, groups, l, left, r, right);
    }
  }

  lemma ColonFirst(s: string, i: nat)
    requires i < |s| && s[i] == ':' && All(IsHexDigit, s[..i])
    ensures var n := Span(c => !IsMark(c), s); n < |s| && s[n] == ':'
  {
    assert s == s[..i] + s[i..];
    SpanOf(c => !IsMark(c), s[..i], s[i..]);
  }

  /** A text that begins with a group has it up to its first colon. */
  lemma FirstField(fields: seq<string>, groups: seq<nat>, rest: string)
    requires |fields| > 1 && (SpellFields(fields, groups) || SpellDotted(fields, groups))
    ensures
      var s, n := Joined(fields, ':') + rest, |fields[0]|;
      n < |s| && s[n] == ':' && s[..n] == fields[0]
    ensures All(IsHexDigit, fields[0])
  {
    assert SpellsGroup(fields[0], groups[0]) by {
      if SpellDotted(fields, groups) {
        assert SpellsGroup(fields[..|fields| - 1][0], groups[..|fields| - 1][0]);
      }
    }
    GroupIff(fields[0], groups[0]);
  }

  lemma FullMark(s: string, g: seq<nat>)
    requires |g| == 8 && SpellsTail(s, g)
    ensures var n := Span(c => !IsMark(c), s); n < |s| && s[n] == ':'
  {
    var fields :| (SpellFields(fields, g) || SpellDotted(fields, g)) && s == Joined(fields, ':');
    FirstField(fields, g, "");
    assert s + "" == s;
    ColonFirst(s, |fields[0]|);
  }

  lemma ColonAfter(l: string, r: string)
    ensures var s := l + ("::" + r); |l| < |s| && s[..|l|] == l && s[|l|] == ':'
  {
  }

  lemma AroundMark(s: string, l: string, left: seq<nat>, r: string)
    requires SpellsGroups(l, left) && s == l + ("::" + r)
    ensures var n := Span(c => !IsMark(c), s); n < |s| && s[n] == ':'
  {
    var fields :| SpellFields(fields, left) && l == Joined(fields, ':');
    if |fields| > 1 {
      FirstField(fields, left, "::" + r);
      ColonFirst(s, |fields[0]|);
    } else {
      if |fields| == 1 {
        GroupIff(fields[0], left[0]);
      }
      ColonAfter(l, r);
      ColonFirst(s, |l|);
    }
  }

  lemma SpelledV6Mark(s: string, g: seq<nat>)
    requires SpellsV6(s, g)
    ensures var n := Span(c => !IsMark(c), s); n < |s| && s[n] == ':'
  {
    if |g| == 8 && SpellsTail(s, g) {
      FullMark(s, g);
    } else {
      var l, left, r, right :| SpellsAround(s, g, l, left, r, right);
      AroundMark(s, l, left, r);
    }
  }

  /** What is read as an address, and as which: the grammar and nothing else. */
  lemma ParseAddrIff(s: string, a: Addr)
    ensures ParseAddr(s) == Some(a) <==> Spells(s, a)
  {
    match a {
      case V4(o) =>
        ParseV4Iff(s, o);
        if SpellsV4(s, o) {
          FourJoined(Decimal(o[0]), Decimal(o[1]), Decimal(o[2]), Decimal(o[3]));
          V4MarkIsDot(o);
        }
      case V6(g) =>
        ParseV6Iff(s, g);
        if SpellsV6(s, g) {
          SpelledV6Mark(s, g);
        }
    }
  }

  lemma {:induction false} JoinedHasNoSlash(fields: seq<string>)
    requires AreFields(fields)
    ensures Without(Joined(fields, ':'), '/')
  {
    if |fields| > 1 {
      JoinedHasNoSlash(fields[1..]);
    }
  }

  lemma TailHasNoSlash(s: string, groups: seq<nat>)
    requires SpellsTail(s, groups)
    ensures Without(s, '/')
  {
    var fields :| (SpellFields(fields, groups) || SpellDotted(fields, groups)) && s == Joined(fields, ':');
    SpelledAreFields(fields, groups);
    JoinedHasNoSlash(fields);
  }

  lemma SpelledHasNoSlash(s: string, a: Addr)
    requires Spells(s, a)
    ensures Without(s, '/')
  {
    match a {
      case V4(o) => DottedChars(s, o);
      case V6(g) =>
        if |g| == 8 && SpellsTail(s, g) {
          TailHasNoSlash(s, g);
        } else {
          var l, left, r, right :| SpellsAround(s, g, l, left, r, right);
          GroupsAreTail(l, left);
          TailHasNoSlash(l, left);
          TailHasNoSlash(r, right);
        }
    }
  }
}
