/** The audit log explorer of internal/logs/reader.go: the tail window, the entries of its
    lines, newest first, filtered and cut into pages. Decoding one record, and decoding a
    stream without newlines, are left to the JSON library and come in as functions. */
module LogReader {
  import opened Text
  import opened Naming

  datatype AuditEntry = AuditEntry(timestamp: string, ruleId: string, client: string, uri: string, action: string,
                                   message: string)

  datatype Options = Options(search: string, action: string, page: int, pageSize: int)

  datatype Page = Page(entries: seq<AuditEntry>, page: int, pageSize: int, total: int, pages: int)

  /** The library: one line to an entry, and a newline-less stream to its entries. */
  datatype Decoder = Decoder(line: string -> Option<AuditEntry>, stream: string -> seq<AuditEntry>)

  const DEFAULT_PAGE_SIZE := 50

  // -------------------------------------------------------------------- the tail window

  function FirstNewline(s: string): (n: nat)
    ensures n <= |s| && Without(s[..n], '\n') && (n < |s| ==> s[n] == '\n')
  {
    Span(c => c != '\n', s)
  }

  /** The last `max` bytes, from after their first newline if the file is longer. */
  function TailWindow(file: string, max: nat): string {
    if |file| <= max then file
    else
      var window := file[|file| - max..];
      var n := FirstNewline(window);
      if n < |window| then window[n + 1..] else window
  }

  lemma {:induction false} SplitConcat(a: string, b: string, sep: char)
    ensures Split(a + b, sep) == Glued(Split(a, sep), Split(b, sep))
    decreases |a|
  {
    var n := Span(c => c != sep, a);
    if n == |a| {
      SplitHead(a, b, sep);
    } else {
      var rest := a[n + 1..];
      assert a == a[..n] + [sep] + rest;
      assert a + b == a[..n] + [sep] + (rest + b);
      SplitFirst(a[..n], sep, rest);
      SplitFirst(a[..n], sep, rest + b);
      SplitConcat(rest, b, sep);
      GlueFirst(a[..n], Split(rest, sep), Split(b, sep));
    }
  }

  /** Gluing two lists of pieces at the seam, with one more piece in front. */
  function Glued(x: seq<string>, y: seq<string>): seq<string>
    requires x != [] && y != []
  {
    x[..|x| - 1] + [x[|x| - 1] + y[0]] + y[1..]
  }

  lemma GlueFirst(piece: string, x: seq<string>, y: seq<string>)
    requires x != [] && y != []
    ensures Glued([piece] + x, y) == [piece] + Glued(x, y)
  {
    assert ([piece] + x)[..|x|] == [piece] + x[..|x| - 1];
  }

  lemma HeadThenSeparator(a: string, line: string, rest: string, sep: char)
    requires Without(a, sep) && Without(line, sep)
    ensures
      var b := line + [sep] + rest;
      Split(a + b, sep) == [a + Split(b, sep)[0]] + Split(b, sep)[1..]
  {
    SplitFirst(line, sep, rest);
    assert a + (line + [sep] + rest) == (a + line) + [sep] + rest;
    SplitFirst(a + line, sep, rest);
  }

  lemma SplitHead(a: string, b: string, sep: char)
    requires Without(a, sep)
    ensures Split(a, sep) == [a]
    ensures Split(a + b, sep) == [a + Split(b, sep)[0]] + Split(b, sep)[1..]
  {
    SplitOnly(a, sep);
    var m := Span(c => c != sep, b);
    if m == |b| {
      SplitOnly(b, sep);
      SplitOnly(a + b, sep);
    } else {
      HeadThenSeparator(a, b[..m], b[m + 1..], sep);
      assert b == b[..m] + [sep] + b[m + 1..];
    }
  }

  lemma SplitInside(before: string, head: string, rest: string)
    requires Without(head, '\n')
    ensures
      var earlier := Split(before, '\n');
      Split(before + (head + ['\n'] + rest), '\n') ==
      earlier[..|earlier| - 1] + [earlier[|earlier| - 1] + head] + Split(rest, '\n')
  {
    SplitFirst(head, '\n', rest);
    SplitConcat(before, head + ['\n'] + rest, '\n');
    var tail := Split(rest, '\n');
    assert ([head] + tail)[1..] == tail;
  }

  lemma WindowText(window: string)
    requires '\n' in window
    ensures
      var n := FirstNewline(window);
      n < |window| && window == window[..n] + ['\n'] + window[n + 1..]
  {
  }

  lemma TailOfWindow(file: string, max: nat)
    requires |file| > max
    requires '\n' in file[|file| - max..]
    ensures
      var window := file[|file| - max..];
      FirstNewline(window) < |window| && TailWindow(file, max) == window[FirstNewline(window) + 1..]
  {
    WindowText(file[|file| - max..]);
  }

  /** The lines of a file cut into `before` and a window of which `tail` is left: `tail` has the
      last of them, whole; the one before those is dropped. It began in `before`, unless the
      window begins at a line, and ends at the window's first newline. */
  ghost predicate LastLinesLeft(file: string, before: string, window: string, tail: string)
    requires before != ""
  {
    var earlier := Split(before, '\n');
    var cut := earlier[|earlier| - 1];
    && Split(file, '\n') ==
       earlier[..|earlier| - 1] + [cut + window[..FirstNewline(window)]] + Split(tail, '\n')
    && (cut == "" <==> before[|before| - 1] == '\n')
  }

  lemma LinesAcross(before: string, window: string)
    requires '\n' in window && before != ""
    ensures FirstNewline(window) < |window|
    ensures LastLinesLeft(before + window, before, window, window[FirstNewline(window) + 1..])
  {
    WindowText(window);
    SplitInside(before, window[..FirstNewline(window)], window[FirstNewline(window) + 1..]);
    LastPiece(before, '\n');
  }

  /** When the file exceeds the window and the window holds a newline, the lines left are
      the file's last lines, none of them cut. Exactly one line that reaches into the
      window is dropped; it lay wholly inside exactly when a newline precedes the window. */
  lemma TailIsWholeLines(file: string, max: nat)
    requires |file| > max
    requires '\n' in file[|file| - max..]
    ensures LastLinesLeft(file, file[..|file| - max], file[|file| - max..], TailWindow(file, max))
  {
    var before, window := file[..|file| - max], file[|file| - max..];
    assert file == before + window;
    TailOfWindow(file, max);
    LinesAcross(before, window);
  }

  /** A window that begins exactly at a line: the line is whole, and dropped all the same. */
  lemma WholeLineIsDropped(before: string, line: string, rest: string)
    requires Without(line, '\n')
    ensures TailWindow(before + ['\n'] + (line + ['\n'] + rest), |line| + 1 + |rest|) == rest
  {
    var window := line + ['\n'] + rest;
    var file := before + ['\n'] + window;
    assert file[|file| - |window|..] == window;
    assert window == line + (['\n'] + rest);
    SpanOf(c => c != '\n', line, ['\n'] + rest);
    assert window[|line| + 1..] == rest;
  }

  lemma {:induction false} LastPiece(s: string, sep: char)
    requires s != ""
    ensures var parts := Split(s, sep); parts[|parts| - 1] == "" <==> s[|s| - 1] == sep
    decreases |s|
  {
    var n := Span(c => c != sep, s);
    if n < |s| - 1 {
      LastPiece(s[n + 1..], sep);
      var rest := Split(s[n + 1..], sep);
      assert ([s[..n]] + rest)[|rest|] == rest[|rest| - 1];
    } else if n == |s| - 1 {
      assert s[n + 1..] == "";
      assert Split("", sep) == [""];
    } else {
      assert s[..n] == s;
    }
  }

  // ------------------------------------------------------------------ filter and entries

  predicate Contains(hay: string, needle: string) {
    HasPrefix(hay, needle) || (hay != [] && Contains(hay[1..], needle))
  }

  /** The action compares without case; the search is a substring of some field. */
  predicate Matches(e: AuditEntry, search: string, action: string) {
    && (action == "" || Lower(e.action) == Lower(action))
    && var needle := Lower(TrimSpace(search));
       needle == "" || Contains(Lower(e.client), needle) || Contains(Lower(e.uri), needle)
       || Contains(Lower(e.ruleId), needle) || Contains(Lower(e.message), needle)
  }

  /** `needle` stands at some index of `hay`, whatever the case. */
  ghost predicate Occurs(needle: string, hay: string) {
    exists i :: OccursAt(needle, hay, i)
  }

  ghost predicate OccursAt(needle: string, hay: string, i: nat) {
    i + |needle| <= |hay| && SameLetters(hay[i..i + |needle|], needle)
  }

  /** What the filters ask for: the action, if one is given, and the trimmed search, if it is
      not empty, in one of four fields; both whatever the case. */
  ghost predicate Wanted(e: AuditEntry, search: string, action: string) {
    && (action == "" || SameLetters(e.action, action))
    && var needle := TrimSpace(search);
       || needle == ""
       || Occurs(needle, e.client) || Occurs(needle, e.uri) || Occurs(needle, e.ruleId) || Occurs(needle, e.message)
  }

  ghost predicate FoundAt(needle: string, hay: string, i: nat) {
    i + |needle| <= |hay| && hay[i..i + |needle|] == needle
  }

  lemma {:induction false} ContainsIff(hay: string, needle: string)
    ensures Contains(hay, needle) <==> exists i :: FoundAt(needle, hay, i)
  {
    if HasPrefix(hay, needle) {
      assert FoundAt(needle, hay, 0);
    } else {
      assert !FoundAt(needle, hay, 0);
      if hay != [] {
        ContainsIff(hay[1..], needle);
        if Contains(hay[1..], needle) {
          var i :| FoundAt(needle, hay[1..], i);
          FoundLater(needle, hay, i);
        }
        if i: nat :| FoundAt(needle, hay, i) {
          FoundLater(needle, hay, i);
          assert FoundAt(needle, hay[1..], i - 1);
        }
      }
    }
  }

  lemma FoundLater(needle: string, hay: string, i: nat)
    requires hay != []
    ensures FoundAt(needle, hay[1..], i) ==> FoundAt(needle, hay, i + 1)
    ensures i > 0 && FoundAt(needle, hay, i) ==> FoundAt(needle, hay[1..], i - 1)
  {
    if i + |needle| < |hay| {
      assert hay[1..][i..i + |needle|] == hay[i + 1..i + 1 + |needle|];
    }
    if i > 0 && i + |needle| <= |hay| {
      assert hay[1..][i - 1..i - 1 + |needle|] == hay[i..i + |needle|];
    }
  }

  lemma LowerSlice(s: string, i: nat, j: nat)
    requires i <= j <= |s|
    ensures Lower(s)[i..j] == Lower(s[i..j])
  {
    LowerAt(s);
    LowerAt(s[i..j]);
  }

  lemma OccursIff(needle: string, hay: string)
    ensures Contains(Lower(hay), Lower(needle)) <==> Occurs(needle, hay)
  {
    ContainsIff(Lower(hay), Lower(needle));
    forall i: nat
      ensures FoundAt(Lower(needle), Lower(hay), i) <==> OccursAt(needle, hay, i)
    {
      LowerFoundIff(needle, hay, i);
    }
  }

  lemma LowerFoundIff(needle: string, hay: string, i: nat)
    ensures FoundAt(Lower(needle), Lower(hay), i) <==> OccursAt(needle, hay, i)
  {
    if i + |needle| <= |hay| {
      LowerSlice(hay, i, i + |needle|);
      LowerSameIff(hay[i..i + |needle|], needle);
    }
  }

  /** Exactly which entries the filters keep. */
  lemma MatchesIff(e: AuditEntry, search: string, action: string)
    ensures Matches(e, search, action) <==> Wanted(e, search, action)
  {
    var needle := TrimSpace(search);
    LowerSameIff(e.action, action);
    OccursIff(needle, e.client);
    OccursIff(needle, e.uri);
    OccursIff(needle, e.ruleId);
    OccursIff(needle, e.message);
  }

  /** The entries of the lines that hold one, in file order. */
  function EntriesOf(lines: seq<string>, decode: string -> Option<AuditEntry>): seq<AuditEntry> {
    if lines == [] then []
    else
      var front, line := EntriesOf(lines[..|lines| - 1], decode), lines[|lines| - 1];
      if TrimSpace(line) != "" && decode(line).Some? then front + [decode(line).value] else front
  }

  function Kept(entries: seq<AuditEntry>, keep: AuditEntry -> bool): seq<AuditEntry> {
    if entries == [] then []
    else
      var front, e := Kept(entries[..|entries| - 1], keep), entries[|entries| - 1];
      if keep(e) then front + [e] else front
  }

  predicate HasLines(data: string) {
    '\n' in data || TrimSpace(data) == ""
  }

  /** The matching entries of a window, oldest first. */
  function Matching(data: string, o: Options, d: Decoder): seq<AuditEntry> {
    var all := if HasLines(data) then EntriesOf(Split(data, '\n'), d.line) else d.stream(data);
    Kept(all, e => Matches(e, o.search, o.action))
  }

  function Reversed(s: seq<AuditEntry>): (r: seq<AuditEntry>)
    ensures |r| == |s|
  {
    if s == [] then [] else [s[|s| - 1]] + Reversed(s[..|s| - 1])
  }

  lemma {:induction false} ReversedAt(s: seq<AuditEntry>, i: nat)
    requires i < |s|
    ensures Reversed(s)[i] == s[|s| - 1 - i]
  {
    if i > 0 {
      ReversedAt(s[..|s| - 1], i - 1);
    }
  }

  // ---------------------------------------------------------------------------- pages

  function EffectiveSize(pageSize: int): (size: int)
    ensures size >= 1
  {
    if pageSize < 1 then DEFAULT_PAGE_SIZE else pageSize
  }

  function PageCount(total: nat, size: int): (pages: nat)
    requires size >= 1
    ensures (pages - 1) * size < total || pages == 0
    ensures total <= pages * size
  {
    (total + size - 1) / size
  }

  function Clamp(page: int, pages: nat): (clamped: int)
    ensures clamped >= 1
  {
    var p := if page < 1 then 1 else page;
    var q := if p > pages then pages as int else p;
    if q < 1 then 1 else q
  }

  function Slice(entries: seq<AuditEntry>, from: int, to: int): seq<AuditEntry>
    requires 0 <= from
  {
    var start := if from > |entries| then |entries| else from;
    var end := if to > |entries| then |entries| else to;
    if start <= end then entries[start..end] else []
  }

  function Paginated(entries: seq<AuditEntry>, page: int, pageSize: int): Page {
    var size := EffectiveSize(pageSize);
    var pages := if |entries| > 0 then PageCount(|entries|, size) else 0;
    var p := Clamp(page, pages);
    Page(Slice(entries, (p - 1) * size, (p - 1) * size + size), p, size, |entries|, pages)
  }

  lemma ProductSigns(n: int, size: int)
    requires n >= 0 && size >= 0
    ensures n * size >= 0
  {
  }

  method Paginate(entries: seq<AuditEntry>, page: int, pageSize: int) returns (result: Page)
    ensures result == Paginated(entries, page, pageSize)
  {
    var p, size := page, pageSize;
    if p < 1 {
      p := 1;
    }
    if size < 1 {
      size := DEFAULT_PAGE_SIZE;
    }
    var total := |entries|;
    var pages := 0;
    if total > 0 {
      pages := (total + size - 1) / size;
      assert pages == PageCount(total, size);
    }
    if p > pages {
      p := pages;
    }
    if p < 1 {
      p := 1;
    }
    assert p == Clamp(page, pages) && size == EffectiveSize(pageSize);
    ProductSigns(p - 1, size);
    var start := (p - 1) * size;
    var end := start + size;
    ghost var from, to := start, end;
    if start > total {
      start := total;
    }
    if end > total {
      end := total;
    }
    assert entries[start..end] == Slice(entries, from, to);
    return Page(entries[start..end], p, size, total, pages);
  }

  /** The first `n` pages, one after another. */
  function FirstPages(entries: seq<AuditEntry>, n: nat, pageSize: int): seq<AuditEntry> {
    if n == 0 then [] else FirstPages(entries, n - 1, pageSize) + Paginated(entries, n, pageSize).entries
  }

  lemma ProductGrows(m: int, n: int, size: int)
    requires 0 <= m <= n && size >= 1
    ensures 0 <= m * size <= n * size
  {
    ProductSigns(m, size);
    ProductSigns(n - m, size);
    assert n * size == m * size + (n - m) * size;
  }

  lemma PageIsSlice(entries: seq<AuditEntry>, n: nat, pageSize: int)
    requires 1 <= n <= Paginated(entries, n, pageSize).pages
    ensures
      var size := EffectiveSize(pageSize);
      var from := (n - 1) * size;
      && 0 <= from < |entries|
      && Paginated(entries, n, pageSize).entries ==
         entries[from..if from + size > |entries| then |entries| else from + size]
  {
    var size := EffectiveSize(pageSize);
    var pages := PageCount(|entries|, size);
    ProductGrows(n - 1, pages - 1, size);
    assert (pages - 1) * size < |entries|;
    var from := (n - 1) * size;
    assert Clamp(n, pages) == n;
    assert Paginated(entries, n, pageSize).entries == Slice(entries, from, from + size);
  }

  function Take(entries: seq<AuditEntry>, k: int): seq<AuditEntry>
    requires k >= 0
  {
    if k > |entries| then entries else entries[..k]
  }

  lemma TakePage(entries: seq<AuditEntry>, from: nat, size: nat)
    requires from < |entries|
    ensures Take(entries, from) + entries[from..if from + size > |entries| then |entries| else from + size] ==
            Take(entries, from + size)
  {
  }

  lemma ProductStep(n: int, size: int)
    ensures n * size == (n - 1) * size + size
  {
  }

  lemma {:induction false} FirstPagesArePrefix(entries: seq<AuditEntry>, n: nat, pageSize: int, k: nat)
    requires n <= Paginated(entries, 1, pageSize).pages
    requires k == n * EffectiveSize(pageSize)
    ensures FirstPages(entries, n, pageSize) == Take(entries, k)
  {
    if n > 0 {
      var size := EffectiveSize(pageSize);
      PageIsSlice(entries, n, pageSize);
      ProductStep(n, size);
      FirstPagesArePrefix(entries, n - 1, pageSize, k - size);
      TakePage(entries, k - size, size);
    }
  }

  /** All pages together are the list: every entry on one page, once, in order. */
  lemma PagesPartition(entries: seq<AuditEntry>, pageSize: int)
    ensures FirstPages(entries, Paginated(entries, 1, pageSize).pages, pageSize) == entries
  {
    var pages := Paginated(entries, 1, pageSize).pages;
    ProductSigns(pages, EffectiveSize(pageSize));
    FirstPagesArePrefix(entries, pages, pageSize, pages * EffectiveSize(pageSize));
  }

  /** Any page number shows a real page: non-empty when there are entries, and within range. */
  lemma PageIsClamped(entries: seq<AuditEntry>, page: int, pageSize: int)
    ensures
      var shown := Paginated(entries, page, pageSize);
      && (entries != [] ==> 1 <= shown.page <= shown.pages && shown.entries != [])
      && (entries == [] ==> shown.page == 1 && shown.pages == 0 && shown.entries == [])
      && (1 <= page <= shown.pages ==> shown.page == page)
      && (entries != [] && page < 1 ==> shown.page == 1)
      && (entries != [] && page > shown.pages ==> shown.page == shown.pages)
      && |shown.entries| <= EffectiveSize(pageSize)
  {
    if entries != [] {
      var shown := Paginated(entries, page, pageSize);
      assert shown.pages >= 1;
      PageIsSlice(entries, shown.page, pageSize);
      assert Paginated(entries, shown.page, pageSize) == shown;
    }
  }

  // ------------------------------------------------------------------------- reading

  function ReadPage(file: string, max: nat, o: Options, d: Decoder): Page {
    Paginated(Reversed(Matching(TailWindow(file, max), o, d)), o.page, o.pageSize)
  }

  /** Two indices from the ends, swapping. */
  method Reverse(a: array<AuditEntry>)
    modifies a
    ensures a[..] == Reversed(old(a[..]))
  {
    var i, j := 0, a.Length - 1;
    while i < j
      invariant 0 <= i && i + j == a.Length - 1 && i <= j + 1
      invariant forall k :: 0 <= k < i ==> a[k] == old(a[a.Length - 1 - k]) && a[a.Length - 1 - k] == old(a[k])
      invariant forall k :: i <= k <= j ==> a[k] == old(a[k])
    {
      a[i], a[j] := a[j], a[i];
      i, j := i + 1, j - 1;
    }
    ghost var was := old(a[..]);
    forall k | 0 <= k < a.Length
      ensures a[k] == Reversed(was)[k]
    {
      ReversedAt(was, k);
      if k < i {
        assert a[k] == old(a[a.Length - 1 - k]);
      } else if k > j {
        assert a[a.Length - 1 - (a.Length - 1 - k)] == old(a[a.Length - 1 - k]);
      }
    }
  }

  /** The loop over the lines of the window. */
  method Collect(lines: seq<string>, o: Options, d: Decoder) returns (entries: seq<AuditEntry>)
    ensures entries == Kept(EntriesOf(lines, d.line), e => Matches(e, o.search, o.action))
  {
    entries := [];
    ghost var keep := (e: AuditEntry) => Matches(e, o.search, o.action);
    for i := 0 to |lines|
      invariant entries == Kept(EntriesOf(lines[..i], d.line), keep)
    {
      assert lines[..i + 1][..i] == lines[..i];
      ghost var before := EntriesOf(lines[..i], d.line);
      if TrimSpace(lines[i]) != "" {
        var entry := d.line(lines[i]);
        if entry.Some? {
          assert (before + [entry.value])[..|before|] == before;
          if Matches(entry.value, o.search, o.action) {
            entries := entries + [entry.value];
          }
        }
      }
    }
    assert lines[..|lines|] == lines;
  }

  method CollectStream(decoded: seq<AuditEntry>, o: Options) returns (entries: seq<AuditEntry>)
    ensures entries == Kept(decoded, e => Matches(e, o.search, o.action))
  {
    entries := [];
    ghost var keep := (e: AuditEntry) => Matches(e, o.search, o.action);
    for i := 0 to |decoded|
      invariant entries == Kept(decoded[..i], keep)
    {
      assert decoded[..i + 1][..i] == decoded[..i];
      if Matches(decoded[i], o.search, o.action) {
        entries := entries + [decoded[i]];
      }
    }
    assert decoded[..|decoded|] == decoded;
  }

  method Read(file: string, max: nat, o: Options, d: Decoder) returns (page: Page)
    ensures page == ReadPage(file, max, o, d)
  {
    var data := TailWindow(file, max);
    var entries;
    if '\n' !in data && TrimSpace(data) != "" {
      entries := CollectStream(d.stream(data), o);
    } else {
      entries := Collect(Split(data, '\n'), o, d);
    }
    var a := new AuditEntry[|entries|](i requires 0 <= i < |entries| => entries[i]);
    assert a[..] == entries;
    Reverse(a);
    page := Paginate(a[..], o.page, o.pageSize);
  }

  function PagesRead(file: string, max: nat, o: Options, d: Decoder, n: nat): seq<AuditEntry> {
    if n == 0 then [] else PagesRead(file, max, o, d, n - 1) + ReadPage(file, max, o.(page := n), d).entries
  }

  lemma PageDoesNotFilter(data: string, o: Options, d: Decoder, n: nat)
    ensures Matching(data, o.(page := n), d) == Matching(data, o, d)
  {
  }

  lemma PageOfAll(file: string, max: nat, o: Options, d: Decoder, n: nat)
    ensures ReadPage(file, max, o.(page := n), d) ==
            Paginated(Reversed(Matching(TailWindow(file, max), o, d)), n, o.pageSize)
  {
    PageDoesNotFilter(TailWindow(file, max), o, d, n);
  }

  lemma MorePages(all: seq<AuditEntry>, n: nat, pageSize: int, page: Page)
    requires n > 0 && page == Paginated(all, n, pageSize)
    ensures FirstPages(all, n, pageSize) == FirstPages(all, n - 1, pageSize) + page.entries
  {
  }

  lemma {:induction false} PagesReadAreFirstPages(file: string, max: nat, o: Options, d: Decoder, n: nat)
    ensures PagesRead(file, max, o, d, n) == FirstPages(Reversed(Matching(TailWindow(file, max), o, d)), n, o.pageSize)
  {
    if n > 0 {
      PagesReadAreFirstPages(file, max, o, d, n - 1);
      var page := ReadPage(file, max, o.(page := n), d);
      PageOfAll(file, max, o, d, n);
      assert PagesRead(file, max, o, d, n) == PagesRead(file, max, o, d, n - 1) + page.entries;
      MorePages(Reversed(Matching(TailWindow(file, max), o, d)), n, o.pageSize, page);
    }
  }

  /** Paging through the explorer shows every matching entry of the window once, newest first. */
  lemma ExplorerShowsEveryMatch(file: string, max: nat, o: Options, d: Decoder)
    ensures PagesRead(file, max, o, d, ReadPage(file, max, o, d).pages) ==
            Reversed(Matching(TailWindow(file, max), o, d))
  {
    var all := Reversed(Matching(TailWindow(file, max), o, d));
    PagesReadAreFirstPages(file, max, o, d, ReadPage(file, max, o, d).pages);
    PagesPartition(all, o.pageSize);
  }

  // ----------------------------------------------------------- what is shown, line by line

  /** What each line of the window holds, or each object where there are no lines. */
  function ItemsOf(data: string, d: Decoder): seq<Option<AuditEntry>> {
    if HasLines(data) then
      var lines := Split(data, '\n');
      seq(|lines|, i requires 0 <= i < |lines| => if All(IsSpace, lines[i]) then None else d.line(lines[i]))
    else
      var decoded := d.stream(data);
      seq(|decoded|, i requires 0 <= i < |decoded| => Some(decoded[i]))
  }

  /** `shown` are the wanted entries, from the last item to the first, each item once. */
  ghost predicate ShowsFromEnd(shown: seq<AuditEntry>, items: seq<Option<AuditEntry>>, search: string, action: string) {
    exists at: seq<nat> :: IsSelection(at, shown, items, search, action)
  }

  ghost predicate IsSelection(at: seq<nat>, shown: seq<AuditEntry>, items: seq<Option<AuditEntry>>, search: string,
                              action: string) {
    && |at| == |shown|
    && (forall k :: 0 <= k < |at| ==> at[k] < |items| && items[at[k]] == Some(shown[k]))
    && SelectsWanted(at, items, search, action)
  }

  /** The wanted items, last first. */
  ghost function Selection(items: seq<Option<AuditEntry>>, search: string, action: string): seq<nat> {
    if items == [] then []
    else
      var front, last := Selection(items[..|items| - 1], search, action), items[|items| - 1];
      if last.Some? && Wanted(last.value, search, action) then [|items| - 1] + front else front
  }

  ghost predicate IsWanted(items: seq<Option<AuditEntry>>, n: nat, search: string, action: string) {
    n < |items| && items[n].Some? && Wanted(items[n].value, search, action)
  }

  ghost predicate SelectsWanted(at: seq<nat>, items: seq<Option<AuditEntry>>, search: string, action: string) {
    && (forall k, l :: 0 <= k < l < |at| ==> at[k] > at[l])
    && forall n: nat :: n in at <==> IsWanted(items, n, search, action)
  }

  lemma SelectsOneMore(at: seq<nat>, items: seq<Option<AuditEntry>>, item: Option<AuditEntry>, search: string,
                       action: string)
    requires SelectsWanted(at, items, search, action)
    ensures
      var more := if item.Some? && Wanted(item.value, search, action) then [|items|] + at else at;
      SelectsWanted(more, items + [item], search, action)
  {
    var all := items + [item];
    forall n: nat
      ensures IsWanted(all, n, search, action) <==>
              IsWanted(items, n, search, action) || (n == |items| && IsWanted(all, |items|, search, action))
    {
      assert n < |items| ==> all[n] == items[n];
    }
    assert all[|items|] == item;
    assert forall k :: 0 <= k < |at| ==> at[k] in at;
    assert forall n: nat :: n in [|items|] + at <==> n == |items| || n in at;
  }

  lemma {:induction false} SelectionIs(items: seq<Option<AuditEntry>>, search: string, action: string)
    ensures SelectsWanted(Selection(items, search, action), items, search, action)
  {
    if items != [] {
      var k := |items| - 1;
      SelectionIs(items[..k], search, action);
      SelectsOneMore(Selection(items[..k], search, action), items[..k], items[k], search, action);
      assert items == items[..k] + [items[k]];
    }
  }

  /** The entries of items, oldest first. */
  function Held(items: seq<Option<AuditEntry>>): seq<AuditEntry> {
    if items == [] then []
    else
      var front, last := Held(items[..|items| - 1]), items[|items| - 1];
      if last.Some? then front + [last.value] else front
  }

  lemma KeptSnoc(entries: seq<AuditEntry>, e: AuditEntry, keep: AuditEntry -> bool)
    ensures Kept(entries + [e], keep) == if keep(e) then Kept(entries, keep) + [e] else Kept(entries, keep)
  {
    assert (entries + [e])[..|entries|] == entries;
  }

  lemma ReversedSnoc(entries: seq<AuditEntry>, e: AuditEntry)
    ensures Reversed(entries + [e]) == [e] + Reversed(entries)
  {
    assert (entries + [e])[..|entries|] == entries;
  }

  ghost predicate Selects(at: seq<nat>, shown: seq<AuditEntry>, items: seq<Option<AuditEntry>>) {
    |at| == |shown| && forall k :: 0 <= k < |at| ==> at[k] < |items| && items[at[k]] == Some(shown[k])
  }

  lemma OneMoreItem(at: seq<nat>, shown: seq<AuditEntry>, items: seq<Option<AuditEntry>>, item: Option<AuditEntry>)
    requires Selects(at, shown, items)
    ensures Selects(at, shown, items + [item])
    ensures item.Some? ==> Selects([|items|] + at, [item.value] + shown, items + [item])
  {
  }

  lemma {:induction false} KeptAreSelected(items: seq<Option<AuditEntry>>, search: string, action: string)
    ensures Selects(Selection(items, search, action), Reversed(Kept(Held(items), e => Matches(e, search, action))),
                    items)
  {
    if items != [] {
      var front, last := items[..|items| - 1], items[|items| - 1];
      var keep := (e: AuditEntry) => Matches(e, search, action);
      KeptAreSelected(front, search, action);
      assert items == front + [last];
      OneMoreItem(Selection(front, search, action), Reversed(Kept(Held(front), keep)), front, last);
      if last.Some? {
        MatchesIff(last.value, search, action);
        KeptSnoc(Held(front), last.value, keep);
        ReversedSnoc(Kept(Held(front), keep), last.value);
      }
    }
  }

  lemma {:induction false} LinesAreItems(lines: seq<string>, d: Decoder, items: seq<Option<AuditEntry>>)
    requires |items| == |lines|
    requires forall i :: 0 <= i < |lines| ==> items[i] == if All(IsSpace, lines[i]) then None else d.line(lines[i])
    ensures EntriesOf(lines, d.line) == Held(items)
  {
    if lines != [] {
      LinesAreItems(lines[..|lines| - 1], d, items[..|lines| - 1]);
      BlankIff(lines[|lines| - 1]);
    }
  }

  lemma {:induction false} AllAreHeld(entries: seq<AuditEntry>, items: seq<Option<AuditEntry>>)
    requires |items| == |entries| && forall i :: 0 <= i < |entries| ==> items[i] == Some(entries[i])
    ensures Held(items) == entries
  {
    if entries != [] {
      var front := entries[..|entries| - 1];
      AllAreHeld(front, items[..|entries| - 1]);
      assert entries == front + [entries[|entries| - 1]];
    }
  }

  lemma MatchingIsKept(data: string, o: Options, d: Decoder)
    ensures Matching(data, o, d) == Kept(Held(ItemsOf(data, d)), e => Matches(e, o.search, o.action))
  {
    if HasLines(data) {
      LinesAreItems(Split(data, '\n'), d, ItemsOf(data, d));
    } else {
      AllAreHeld(d.stream(data), ItemsOf(data, d));
    }
  }

  /** All pages together show, from the last line of the window to the first, each line's entry
      that the filters ask for, once, and nothing else. */
  lemma ExplorerShowsExactly(file: string, max: nat, o: Options, d: Decoder)
    ensures ShowsFromEnd(PagesRead(file, max, o, d, ReadPage(file, max, o, d).pages), ItemsOf(TailWindow(file, max), d),
                         o.search, o.action)
  {
    var data := TailWindow(file, max);
    var items := ItemsOf(data, d);
    ExplorerShowsEveryMatch(file, max, o, d);
    MatchingIsKept(data, o, d);
    SelectionIs(items, o.search, o.action);
    KeptAreSelected(items, o.search, o.action);
    assert IsSelection(Selection(items, o.search, o.action), Reversed(Matching(data, o, d)), items, o.search, o.action);
  }

  /** Exactly what one page holds: 50 entries where no size is asked for. */
  lemma PageHolds(entries: seq<AuditEntry>, page: int, pageSize: int)
    requires entries != []
    ensures
      var shown, size := Paginated(entries, page, pageSize), if pageSize < 1 then 50 else pageSize;
      var from, to := (shown.page - 1) * size, (shown.page - 1) * size + size;
      && shown.total == |entries| && shown.pageSize == size
      && (shown.pages - 1) * size < |entries| <= shown.pages * size
      && 0 <= from < |entries| && shown.entries == entries[from..if to > |entries| then |entries| else to]
  {
    var shown := Paginated(entries, page, pageSize);
    PageIsClamped(entries, page, pageSize);
    PageIsSlice(entries, shown.page, pageSize);
    assert Paginated(entries, shown.page, pageSize) == shown;
  }

  /** The window itself: a small file whole, and a window without a newline whole. */
  lemma WindowIs(file: string, max: nat)
    ensures |file| <= max ==> TailWindow(file, max) == file
    ensures |file| > max && Without(file[|file| - max..], '\n') ==> TailWindow(file, max) == file[|file| - max..]
  {
  }
}
