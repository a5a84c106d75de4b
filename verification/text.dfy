/** Strings as the program uses them: byte order, decimal digits, splitting and trimming. */
module Text {

  datatype Option<+T> = None | Some(value: T)

  predicate IsDigit(c: char) { '0' <= c <= '9' }

  predicate IsLower(c: char) { 'a' <= c <= 'z' }

  predicate IsUpper(c: char) { 'A' <= c <= 'Z' }

  predicate IsAlnum(c: char) { IsDigit(c) || IsLower(c) || IsUpper(c) }

  /** White space, as far as ASCII goes. */
  predicate IsSpace(c: char) { c == ' ' || '\t' <= c <= '\r' }

  predicate All(p: char -> bool, s: string) {
    forall i :: 0 <= i < |s| ==> p(s[i])
  }

  // ------------------------------------------------------------------ byte order

  predicate Less(a: string, b: string) {
    b != [] && (a == [] || a[0] < b[0] || (a[0] == b[0] && Less(a[1..], b[1..])))
  }

  lemma {:induction false} LessTotal(a: string, b: string)
    ensures a == b || Less(a, b) || Less(b, a)
    ensures !(Less(a, b) && Less(b, a))
    ensures !Less(a, a)
  {
    if a != [] {
      LessTotal(a[1..], a[1..]);
      if b != [] {
        LessTotal(a[1..], b[1..]);
        assert a == [a[0]] + a[1..] && b == [b[0]] + b[1..];
      }
    }
  }

  lemma {:induction false} LessTransitive(a: string, b: string, c: string)
    requires Less(a, b) && Less(b, c)
    ensures Less(a, c)
  {
    if a != [] && a[0] == b[0] == c[0] {
      LessTransitive(a[1..], b[1..], c[1..]);
    }
  }

  /** Fields of equal width compare from the left. */
  lemma {:induction false} LessByFields(a: string, a': string, b: string, b': string)
    requires |a| == |b|
    ensures Less(a + a', b + b') <==> Less(a, b) || (a == b && Less(a', b'))
  {
    if a == [] {
      assert a + a' == a' && b + b' == b';
    } else {
      LessByFields(a[1..], a', b[1..], b');
      assert (a + a')[1..] == a[1..] + a' && (b + b')[1..] == b[1..] + b';
      assert a == [a[0]] + a[1..] && b == [b[0]] + b[1..];
    }
  }

  // -------------------------------------------------------------------- decimals

  function Digit(n: nat): char
    requires n < 10
  {
    '0' + n as char
  }

  function DigitValue(c: char): (n: nat)
    requires IsDigit(c)
    ensures n < 10
  {
    c as nat - '0' as nat
  }

  function TwoDigits(n: nat): (s: string)
    requires n < 100
    ensures |s| == 2 && IsDigit(s[0]) && IsDigit(s[1])
  {
    [Digit(n / 10), Digit(n % 10)]
  }

  function FourDigits(n: nat): (s: string)
    requires n < 10000
    ensures |s| == 4
  {
    TwoDigits(n / 100) + TwoDigits(n % 100)
  }

  function Decimal(n: nat): (s: string)
    ensures |s| > 0 && All(IsDigit, s)
  {
    if n < 10 then [Digit(n)] else Decimal(n / 10) + [Digit(n % 10)]
  }

  function DecimalValue(s: string): nat
    requires All(IsDigit, s)
  {
    if s == [] then 0 else 10 * DecimalValue(s[..|s| - 1]) + DigitValue(s[|s| - 1])
  }

  lemma {:induction false} DecimalRoundTrip(n: nat)
    ensures DecimalValue(Decimal(n)) == n
  {
    if n >= 10 {
      DecimalRoundTrip(n / 10);
      var s := Decimal(n);
      assert s[..|s| - 1] == Decimal(n / 10);
    }
  }

  lemma TwoDigitsOrder(a: nat, b: nat)
    requires a < 100 && b < 100
    ensures Less(TwoDigits(a), TwoDigits(b)) <==> a < b
    ensures TwoDigits(a) == TwoDigits(b) <==> a == b
  {
    var s, t := TwoDigits(a), TwoDigits(b);
    assert s == [s[0]] + [s[1]] && t == [t[0]] + [t[1]];
    LessByFields([s[0]], [s[1]], [t[0]], [t[1]]);
    assert Less([s[0]], [t[0]]) <==> s[0] < t[0];
    assert Less([s[1]], [t[1]]) <==> s[1] < t[1];
  }

  lemma FourDigitsOrder(a: nat, b: nat)
    requires a < 10000 && b < 10000
    ensures Less(FourDigits(a), FourDigits(b)) <==> a < b
    ensures FourDigits(a) == FourDigits(b) <==> a == b
  {
    LessByFields(TwoDigits(a / 100), TwoDigits(a % 100), TwoDigits(b / 100), TwoDigits(b % 100));
    TwoDigitsOrder(a / 100, b / 100);
    TwoDigitsOrder(a % 100, b % 100);
    var s, t := FourDigits(a), FourDigits(b);
    assert s[..2] == TwoDigits(a / 100) && s[2..] == TwoDigits(a % 100);
    assert t[..2] == TwoDigits(b / 100) && t[2..] == TwoDigits(b % 100);
  }

  // ---------------------------------------------------------- scanning and splitting

  /** Length of the longest prefix whose characters all satisfy `p`. */
  function Span(p: char -> bool, s: string): (n: nat)
    ensures n <= |s| && All(p, s[..n]) && (n < |s| ==> !p(s[n]))
  {
    if s == [] || !p(s[0]) then 0
    else
      var n := 1 + Span(p, s[1..]);
      assert forall i :: 0 < i < n ==> s[i] == s[1..][i - 1];
      n
  }

  lemma {:induction false} SpanOf(p: char -> bool, run: string, rest: string)
    requires All(p, run)
    requires rest != [] ==> !p(rest[0])
    ensures Span(p, run + rest) == |run|
    ensures (run + rest)[..|run|] == run && (run + rest)[|run|..] == rest
  {
    if run == [] {
      assert run + rest == rest;
    } else {
      SpanOf(p, run[1..], rest);
      assert (run + rest)[1..] == run[1..] + rest;
    }
  }

  /** The pieces of `s` between occurrences of `sep`; never empty. */
  function Split(s: string, sep: char): (parts: seq<string>)
    ensures |parts| > 0
    decreases |s|
  {
    var n := Span(c => c != sep, s);
    if n == |s| then [s] else [s[..n]] + Split(s[n + 1..], sep)
  }

  ghost predicate Without(s: string, c: char) {
    forall i :: 0 <= i < |s| ==> s[i] != c
  }

  lemma SplitFirst(line: string, sep: char, rest: string)
    requires Without(line, sep)
    ensures Split(line + [sep] + rest, sep) == [line] + Split(rest, sep)
  {
    var s := line + [sep] + rest;
    assert s == line + ([sep] + rest);
    SpanOf(c => c != sep, line, [sep] + rest);
    assert s[|line| + 1..] == rest;
  }

  lemma SplitOnly(line: string, sep: char)
    requires Without(line, sep)
    ensures Split(line, sep) == [line]
  {
    assert line + [] == line;
    SpanOf(c => c != sep, line, []);
  }

  function TrimLeft(s: string): string {
    s[Span(IsSpace, s)..]
  }

  function TrimRight(s: string): string {
    if s != [] && IsSpace(s[|s| - 1]) then TrimRight(s[..|s| - 1]) else s
  }

  function TrimSpace(s: string): string {
    TrimRight(TrimLeft(s))
  }

  ghost predicate Trimmed(s: string) {
    s != [] ==> !IsSpace(s[0]) && !IsSpace(s[|s| - 1])
  }

  lemma TrimIsIdentity(s: string)
    requires Trimmed(s)
    ensures TrimSpace(s) == s
  {
  }

  lemma TrimLeftIs(s: string)
    ensures s == s[..|s| - |TrimLeft(s)|] + TrimLeft(s) && All(IsSpace, s[..|s| - |TrimLeft(s)|])
    ensures TrimLeft(s) != "" ==> !IsSpace(TrimLeft(s)[0])
  {
  }

  lemma {:induction false} TrimRightIs(s: string)
    ensures TrimRight(s) <= s && All(IsSpace, s[|TrimRight(s)|..])
    ensures TrimRight(s) != "" ==> !IsSpace(TrimRight(s)[|TrimRight(s)| - 1])
  {
    if s != [] && IsSpace(s[|s| - 1]) {
      TrimRightIs(s[..|s| - 1]);
      assert s[|TrimRight(s)|..] == s[..|s| - 1][|TrimRight(s)|..] + [s[|s| - 1]];
    }
  }

  /** `t` is `s` without the white space around it. */
  ghost predicate Trims(s: string, t: string) {
    Trimmed(t) && exists i: nat :: TrimsAt(s, t, i)
  }

  lemma TrimSpaceTrims(s: string)
    ensures Trims(s, TrimSpace(s))
  {
    var l, t := TrimLeft(s), TrimSpace(s);
    TrimLeftIs(s);
    TrimRightIs(l);
    var i := |s| - |l|;
    assert t == l[..|t|];
    assert s[i..i + |t|] == l[..|t|];
    assert s[i + |t|..] == l[|t|..];
    assert t != "" ==> t[0] == l[0];
    assert TrimsAt(s, t, i);
  }

  /** White space around, and nothing else of it, is what is trimmed. */
  lemma TrimsIff(s: string, t: string)
    ensures Trims(s, t) <==> TrimSpace(s) == t
  {
    TrimSpaceTrims(s);
    if Trims(s, t) {
      TrimsOnce(s, t, TrimSpace(s));
    }
  }

  ghost predicate TrimsAt(s: string, t: string, i: nat) {
    i + |t| <= |s| && s[i..i + |t|] == t && All(IsSpace, s[..i]) && All(IsSpace, s[i + |t|..])
  }

  lemma TrimsOnce(s: string, t: string, t': string)
    requires Trims(s, t) && Trims(s, t')
    ensures t == t'
  {
    var i: nat :| TrimsAt(s, t, i);
    var i': nat :| TrimsAt(s, t', i');
    IsSpaceAt(s, t, i);
    IsSpaceAt(s, t', i');
    if t != "" {
      NotSpace(s, t, i);
    }
    if t' != "" {
      NotSpace(s, t', i');
    }
  }

  lemma NotSpace(s: string, t: string, i: nat)
    requires Trimmed(t) && TrimsAt(s, t, i) && t != ""
    ensures !IsSpace(s[i]) && !IsSpace(s[i + |t| - 1])
  {
  }

  lemma IsSpaceAt(s: string, t: string, i: nat)
    requires TrimsAt(s, t, i)
    ensures forall k :: 0 <= k < |s| && (k < i || k >= i + |t|) ==> IsSpace(s[k])
  {
  }

  /** Nothing is left exactly of what is all white space. */
  lemma BlankIff(s: string)
    ensures TrimSpace(s) == "" <==> All(IsSpace, s)
  {
    TrimSpaceTrims(s);
    var t := TrimSpace(s);
    var i: nat :| TrimsAt(s, t, i);
    if t == "" {
      assert forall k :: 0 <= k < |s| ==> s[k] == if k < i then s[..i][k] else s[i + |t|..][k - i];
    } else {
      assert t[0] == s[i];
    }
  }

  /** The pieces with `sep` between them. */
  function Joined(parts: seq<string>, sep: char): string {
    if parts == [] then "" else if |parts| == 1 then parts[0] else parts[0] + ([sep] + Joined(parts[1..], sep))
  }

  /** Splitting cuts at every `sep`, and loses nothing else. */
  lemma {:induction false} SplitIs(s: string, sep: char)
    ensures Joined(Split(s, sep), sep) == s
    ensures forall i :: 0 <= i < |Split(s, sep)| ==> Without(Split(s, sep)[i], sep)
    decreases |s|
  {
    var n := Span(c => c != sep, s);
    assert Without(s[..n], sep);
    if n < |s| {
      var rest := Split(s[n + 1..], sep);
      SplitIs(s[n + 1..], sep);
      var parts := Split(s, sep);
      assert parts == [s[..n]] + rest && parts[1..] == rest;
      assert s == s[..n] + ([sep] + s[n + 1..]);
    }
  }

  lemma JoinedCons(parts: seq<string>, sep: char)
    requires |parts| > 1
    ensures Joined(parts, sep) == parts[0] + [sep] + Joined(parts[1..], sep)
  {
    var a, b := parts[0], Joined(parts[1..], sep);
    assert a + [sep] + b == a + ([sep] + b);
  }

  lemma {:induction false} SplitJoined(parts: seq<string>, sep: char)
    requires parts != [] && forall i :: 0 <= i < |parts| ==> Without(parts[i], sep)
    ensures Split(Joined(parts, sep), sep) == parts
  {
    if |parts| == 1 {
      SplitOnly(parts[0], sep);
    } else {
      var rest := Joined(parts[1..], sep);
      SplitJoined(parts[1..], sep);
      SplitFirst(parts[0], sep, rest);
      JoinedCons(parts, sep);
      assert parts == [parts[0]] + parts[1..];
    }
  }

  /** No piece is empty: `sep` neither begins nor ends the text, nor follows itself. */
  ghost predicate NoEmptyPiece(s: string, sep: char) {
    && (forall i :: 0 < i < |s| ==> !(s[i - 1] == sep && s[i] == sep))
    && (s != "" ==> s[0] != sep && s[|s| - 1] != sep)
  }

  lemma {:induction false} JoinedHasNoEmptyPiece(parts: seq<string>, sep: char)
    requires forall i :: 0 <= i < |parts| ==> parts[i] != "" && Without(parts[i], sep)
    ensures NoEmptyPiece(Joined(parts, sep), sep)
    ensures Joined(parts, sep) == "" <==> parts == []
  {
    if |parts| > 1 {
      JoinedHasNoEmptyPiece(parts[1..], sep);
      var a, b := parts[0], Joined(parts[1..], sep);
      var s := a + ([sep] + b);
      forall i | 0 < i < |s|
        ensures !(s[i - 1] == sep && s[i] == sep)
      {
        if i > |a| + 1 {
          assert s[i] == b[i - |a| - 1] && s[i - 1] == b[i - |a| - 2];
        } else if i == |a| + 1 {
          assert s[i] == b[0];
        }
      }
    }
  }

  lemma TrimOneSpace(s: string)
    requires Trimmed(s)
    ensures TrimSpace(" " + s) == s
    ensures TrimSpace(s + " ") == s
    ensures TrimSpace(" " + s + " ") == s
  {
    assert (" " + s)[1..] == s;
    assert (s + " ")[..|s|] == s;
    assert " " + s + " " == " " + (s + " ");
    assert (" " + (s + " "))[1..] == s + " ";
    if s == [] {
      assert " " + s == " " && s + " " == " " && " "[1..] == "" && "  "[1..] == " ";
      assert Span(IsSpace, " ") == 1;
      assert Span(IsSpace, "  ") == 2;
    } else {
      SpanOf(IsSpace, " ", s);
      SpanOf(IsSpace, " ", s + " ");
      assert Span(IsSpace, s + " ") == 0;
      assert TrimRight(s + " ") == TrimRight(s);
    }
  }

  predicate HasPrefix(s: string, prefix: string) {
    prefix <= s
  }

  predicate HasSuffix(s: string, suffix: string) {
    |suffix| <= |s| && s[|s| - |suffix|..] == suffix
  }

  // ------------------------------------------------------------------- first places

  /** The first place of `x`. */
  function FirstAt<T(==)>(list: seq<T>, x: T): (i: nat)
    requires x in list
    ensures i < |list| && list[i] == x && x !in list[..i]
  {
    if list[0] == x then 0 else
      assert list == [list[0]] + list[1..];
      1 + FirstAt(list[1..], x)
  }

  lemma FirstAtIs<T>(list: seq<T>, x: T, i: nat)
    requires i < |list| && list[i] == x && x !in list[..i]
    ensures FirstAt(list, x) == i
  {
    assert forall j :: 0 <= j < i ==> list[..i][j] == list[j];
    assert forall j :: 0 <= j < FirstAt(list, x) ==> list[..FirstAt(list, x)][j] == list[j];
  }

  /** The elements of `part` come in the order of their first places in `list`. */
  ghost predicate InOrderOf<T>(part: seq<T>, list: seq<T>) {
    && (forall x :: x in part ==> x in list)
    && (forall i, j :: 0 <= i < j < |part| ==> FirstAt(list, part[i]) < FirstAt(list, part[j]))
  }

  lemma FirstAtSnoc<T>(list: seq<T>, y: T, x: T)
    requires x in list
    ensures FirstAt(list + [y], x) == FirstAt(list, x)
  {
    var i := FirstAt(list, x);
    assert (list + [y])[..i] == list[..i];
    FirstAtIs(list + [y], x, i);
  }

  lemma InOrderSnoc<T>(part: seq<T>, list: seq<T>, y: T)
    requires InOrderOf(part, list)
    ensures InOrderOf(part, list + [y])
    ensures y !in list ==> InOrderOf(part + [y], list + [y])
  {
    forall x | x in part
      ensures FirstAt(list + [y], x) == FirstAt(list, x)
    {
      FirstAtSnoc(list, y, x);
    }
    if y !in list {
      assert (list + [y])[..|list|] == list;
      FirstAtIs(list + [y], y, |list|);
    }
  }
}
