/** The overlay header and its reader: strict domain validation, the "# domain:" line,
    and the scanner that finds it again (internal/service/validate.go,
    internal/domain/overlay.go, internal/domain/scanner.go, internal/waf/mode.go). */
module Headers {
  import opened Text
  import opened Naming
  import opened Files

  // --------------------------------------------------------------- domain validation

  const MAX_DOMAIN_LENGTH := 253
  const MAX_LABEL_LENGTH := 63

  predicate IsLabelChar(c: char) { IsAlnum(c) || c == '-' }

  predicate ValidLabel(part: string) {
    && 0 < |part| <= MAX_LABEL_LENGTH
    && part[0] != '-' && part[|part| - 1] != '-'
    && All(IsLabelChar, part)
  }

  predicate ContainsDoubleDot(s: string) {
    exists i :: 0 < i < |s| && s[i - 1] == '.' && s[i] == '.'
  }

  predicate ValidDomain(domain: string) {
    && domain != ""
    && |domain| <= MAX_DOMAIN_LENGTH
    && !HasPrefix(domain, ".") && !HasSuffix(domain, ".")
    && !ContainsDoubleDot(domain)
    && var labels := Split(domain, '.');
       forall i :: 0 <= i < |labels| ==> (i == 0 && labels[i] == "*" && |labels| >= 3) || ValidLabel(labels[i])
  }

  predicate IsDomainChar(c: char) { IsLabelChar(c) || c == '.' || c == '*' }

  lemma {:induction false} PartsCoverString(s: string, sep: char, p: char -> bool)
    requires p(sep)
    requires forall i :: 0 <= i < |Split(s, sep)| ==> All(p, Split(s, sep)[i])
    ensures All(p, s)
    decreases |s|
  {
    var n := Span(c => c != sep, s);
    var parts := Split(s, sep);
    if n < |s| {
      var rest := Split(s[n + 1..], sep);
      assert parts == [s[..n]] + rest;
      forall i | 0 <= i < |rest|
        ensures All(p, rest[i])
      {
        assert rest[i] == parts[i + 1];
      }
      PartsCoverString(s[n + 1..], sep, p);
      assert All(p, parts[0]);
      forall i | 0 <= i < |s|
        ensures p(s[i])
      {
        if i < n {
          assert s[i] == parts[0][i];
        } else if i > n {
          assert s[i] == s[n + 1..][i - n - 1];
        }
      }
    } else {
      assert parts[0] == s;
    }
  }

  /** An accepted domain has nothing that could end a header field or a line. */
  lemma ValidDomainIsPlain(domain: string)
    requires ValidDomain(domain)
    ensures domain != "" && All(IsDomainChar, domain)
    ensures Trimmed(domain) && Without(domain, '|') && Without(domain, '\n')
  {
    var labels := Split(domain, '.');
    forall i | 0 <= i < |labels|
      ensures All(IsDomainChar, labels[i])
    {
    }
    PartsCoverString(domain, '.', IsDomainChar);
  }

  /** A label: letters, digits and hyphens, with a letter or a digit at both ends. */
  ghost predicate IsHostLabel(s: string) {
    && 1 <= |s| <= 63
    && (forall i :: 0 <= i < |s| ==> s[i] == '-' || IsLetterOrDigit(s[i]))
    && IsLetterOrDigit(s[0]) && IsLetterOrDigit(s[|s| - 1])
  }

  ghost predicate IsLetterOrDigit(c: char) {
    '0' <= c <= '9' || 'a' <= c <= 'z' || 'A' <= c <= 'Z'
  }

  /** Labels, of which a first one may be a star where at least two follow. */
  ghost predicate AreHostLabels(labels: seq<string>) {
    && labels != []
    && (IsHostLabel(labels[0]) || (labels[0] == "*" && |labels| >= 3))
    && forall i :: 0 < i < |labels| ==> IsHostLabel(labels[i])
  }

  lemma LabelIff(s: string)
    ensures ValidLabel(s) <==> IsHostLabel(s)
    ensures ValidLabel(s) ==> Without(s, '.')
  {
  }

  lemma LabelsIff(labels: seq<string>)
    requires labels != []
    ensures AreHostLabels(labels) <==>
            forall i :: 0 <= i < |labels| ==> (i == 0 && labels[i] == "*" && |labels| >= 3) || ValidLabel(labels[i])
    ensures AreHostLabels(labels) ==> forall i :: 0 <= i < |labels| ==> labels[i] != "" && Without(labels[i], '.')
  {
    forall i | 0 <= i < |labels|
      ensures ValidLabel(labels[i]) <==> IsHostLabel(labels[i])
      ensures ValidLabel(labels[i]) ==> Without(labels[i], '.')
    {
      LabelIff(labels[i]);
    }
  }

  /** Exactly the domains that are accepted. */
  lemma ValidDomainIff(domain: string)
    ensures ValidDomain(domain) <==>
            1 <= |domain| <= 253 && exists labels :: AreHostLabels(labels) && domain == Joined(labels, '.')
  {
    if ValidDomain(domain) {
      SplitIs(domain, '.');
      LabelsIff(Split(domain, '.'));
    }
    if labels :| 1 <= |domain| <= 253 && AreHostLabels(labels) && domain == Joined(labels, '.') {
      LabelsIff(labels);
      SplitJoined(labels, '.');
      JoinedHasNoEmptyPiece(labels, '.');
    }
  }

  // --------------------------------------------------------------------- timestamps

  function DaysIn(year: nat, month: nat): nat {
    if month == 2 then (if year % 4 == 0 && (year % 100 != 0 || year % 400 == 0) then 29 else 28)
    else if month == 4 || month == 6 || month == 9 || month == 11 then 30
    else 31
  }

  predicate Civil(t: Stamp) {
    && t.year < 10000 && 1 <= t.month <= 12 && 1 <= t.day <= DaysIn(t.year, t.month)
    && t.hour < 24 && t.minute < 60 && t.second < 60
  }

  /** RFC 3339 in UTC: 2006-01-02T15:04:05Z. */
  function Rfc3339(t: Stamp): (s: string)
    requires t.InRange()
    ensures |s| == 20
  {
    DateText(t) + ("T" + (ClockText(t, ":") + "Z"))
  }

  lemma DayText()
    ensures DateText(Stamp(2026, 8, 7, 15, 52, 13)) == "2026-08-07"
  {
    assert FourDigits(2026) == "2026" && TwoDigits(8) == "08" && TwoDigits(7) == "07";
  }

  lemma ClockTexts()
    ensures ClockText(Stamp(2026, 8, 7, 15, 52, 13), ":") == "15:52:13"
    ensures ClockText(Stamp(2026, 8, 7, 15, 52, 13), "-") == "15-52-13"
  {
    assert TwoDigits(15) == "15" && TwoDigits(52) == "52" && TwoDigits(13) == "13";
  }

  /** A second as headers and as snapshot names have it. */
  lemma TimeTexts()
    ensures Rfc3339(Stamp(2026, 8, 7, 15, 52, 13)) == "2026-08-07T15:52:13Z"
    ensures StampText(Stamp(2026, 8, 7, 15, 52, 13)) == "2026-08-07T15-52-13Z"
  {
    DayText();
    ClockTexts();
  }

  predicate IsDate(d: string) {
    && |d| == 10 && d[4] == '-' && d[7] == '-'
    && IsDigit(d[0]) && IsDigit(d[1]) && IsDigit(d[2]) && IsDigit(d[3])
    && IsDigit(d[5]) && IsDigit(d[6]) && IsDigit(d[8]) && IsDigit(d[9])
  }

  predicate IsClock(c: string) {
    && |c| == 8 && c[2] == ':' && c[5] == ':'
    && IsDigit(c[0]) && IsDigit(c[1]) && IsDigit(c[3]) && IsDigit(c[4]) && IsDigit(c[6]) && IsDigit(c[7])
  }

  predicate IsRfc3339(s: string) {
    |s| == 20 && IsDate(s[..10]) && s[10] == 'T' && IsClock(s[11..19]) && s[19] == 'Z'
  }

  function Two(a: char, b: char): nat
    requires IsDigit(a) && IsDigit(b)
  {
    10 * DigitValue(a) + DigitValue(b)
  }

  function ReadStamp(d: string, c: string): Stamp
    requires IsDate(d) && IsClock(c)
  {
    Stamp(100 * Two(d[0], d[1]) + Two(d[2], d[3]), Two(d[5], d[6]), Two(d[8], d[9]),
          Two(c[0], c[1]), Two(c[3], c[4]), Two(c[6], c[7]))
  }

  function ParseTime(s: string): Option<Stamp> {
    if !IsRfc3339(s) then None
    else
      var t := ReadStamp(s[..10], s[11..19]);
      if Civil(t) then Some(t) else None
  }

  lemma TwoRoundTrip(n: nat)
    requires n < 100
    ensures Two(TwoDigits(n)[0], TwoDigits(n)[1]) == n
  {
  }

  lemma DateDigits(t: Stamp)
    requires Civil(t)
    ensures
      var d := DateText(t);
      && IsDate(d)
      && 100 * Two(d[0], d[1]) + Two(d[2], d[3]) == t.year && Two(d[5], d[6]) == t.month && Two(d[8], d[9]) == t.day
  {
    var d, y := DateText(t), FourDigits(t.year);
    assert d[..4] == y && y[..2] == TwoDigits(t.year / 100) && y[2..] == TwoDigits(t.year % 100);
    assert d[5..7] == TwoDigits(t.month) && d[8..10] == TwoDigits(t.day);
    TwoRoundTrip(t.year / 100);
    TwoRoundTrip(t.year % 100);
    TwoRoundTrip(t.month);
    TwoRoundTrip(t.day);
  }

  lemma ClockDigits(t: Stamp)
    requires Civil(t)
    ensures
      var c := ClockText(t, ":");
      && IsClock(c)
      && Two(c[0], c[1]) == t.hour && Two(c[3], c[4]) == t.minute && Two(c[6], c[7]) == t.second
  {
    var c := ClockText(t, ":");
    assert c[..2] == TwoDigits(t.hour) && c[3..5] == TwoDigits(t.minute) && c[6..8] == TwoDigits(t.second);
    TwoRoundTrip(t.hour);
    TwoRoundTrip(t.minute);
    TwoRoundTrip(t.second);
  }

  lemma TimeParts(d: string, c: string)
    requires |d| == 10 && |c| == 8
    ensures
      var s := d + ("T" + (c + "Z"));
      |s| == 20 && s[..10] == d && s[10] == 'T' && s[11..19] == c && s[19] == 'Z'
  {
  }

  predicate IsTimeChar(c: char) {
    IsDigit(c) || c in {'-', ':', 'T', 'Z'}
  }

  lemma TimeChars(d: string, c: string)
    requires IsDate(d) && IsClock(c)
    ensures All(IsTimeChar, d + ("T" + (c + "Z")))
  {
    assert All(IsTimeChar, d);
    assert All(IsTimeChar, c);
  }

  lemma TimeCharsArePlain(s: string)
    requires All(IsTimeChar, s) && s != ""
    ensures Trimmed(s) && Without(s, '|') && Without(s, '\n')
  {
    assert IsTimeChar(s[0]) && IsTimeChar(s[|s| - 1]);
  }

  lemma TimeIsPlain(t: Stamp)
    requires Civil(t)
    ensures Trimmed(Rfc3339(t)) && Without(Rfc3339(t), '|') && Without(Rfc3339(t), '\n')
  {
    DateDigits(t);
    ClockDigits(t);
    TimeChars(DateText(t), ClockText(t, ":"));
    TimeCharsArePlain(Rfc3339(t));
  }

  lemma TimeRoundTrip(t: Stamp)
    requires Civil(t)
    ensures ParseTime(Rfc3339(t)) == Some(t)
    ensures Trimmed(Rfc3339(t)) && Without(Rfc3339(t), '|') && Without(Rfc3339(t), '\n')
  {
    DateDigits(t);
    ClockDigits(t);
    TimeParts(DateText(t), ClockText(t, ":"));
    TimeIsPlain(t);
  }

  lemma TwoIs(a: char, b: char)
    requires IsDigit(a) && IsDigit(b)
    ensures Two(a, b) < 100 && TwoDigits(Two(a, b)) == [a, b]
  {
  }

  lemma YearIs(year: nat, a: char, b: char, c: char, d: char)
    requires IsDigit(a) && IsDigit(b) && IsDigit(c) && IsDigit(d) && year == 100 * Two(a, b) + Two(c, d)
    ensures year < 10000 && FourDigits(year) == [a, b, c, d]
  {
    TwoIs(a, b);
    TwoIs(c, d);
    assert year / 100 == Two(a, b) && year % 100 == Two(c, d);
  }

  lemma DateIs(d: string, t: Stamp)
    requires IsDate(d) && t.InRange() && t.month == Two(d[5], d[6]) && t.day == Two(d[8], d[9])
    requires t.year == 100 * Two(d[0], d[1]) + Two(d[2], d[3])
    ensures DateText(t) == d
  {
    TwoIs(d[0], d[1]);
    TwoIs(d[2], d[3]);
    TwoIs(d[5], d[6]);
    TwoIs(d[8], d[9]);
    YearIs(t.year, d[0], d[1], d[2], d[3]);
    assert d == [d[0], d[1], d[2], d[3]] + ("-" + ([d[5], d[6]] + ("-" + [d[8], d[9]])));
  }

  lemma ClockIs(c: string, t: Stamp)
    requires IsClock(c) && t.InRange()
    requires t.hour == Two(c[0], c[1]) && t.minute == Two(c[3], c[4]) && t.second == Two(c[6], c[7])
    ensures ClockText(t, ":") == c
  {
    TwoIs(c[0], c[1]);
    TwoIs(c[3], c[4]);
    TwoIs(c[6], c[7]);
  }

  lemma PartsOfTime(s: string)
    requires |s| == 20 && s[10] == 'T' && s[19] == 'Z'
    ensures s == s[..10] + ("T" + (s[11..19] + "Z"))
  {
  }

  /** Exactly the texts of civil seconds are read, and as which. */
  lemma ParseTimeIff(s: string, t: Stamp)
    ensures ParseTime(s) == Some(t) <==> Civil(t) && s == Rfc3339(t)
  {
    if ParseTime(s) == Some(t) {
      DateIs(s[..10], t);
      ClockIs(s[11..19], t);
      PartsOfTime(s);
    }
    if Civil(t) {
      TimeRoundTrip(t);
    }
  }

  // ------------------------------------------------------------------- the header line

  const HEADER_PREFIX := "# domain:"

  function UpdatedSegment(ts: string): string {
    " " + ("updated:" + (" " + ts))
  }

  function ModeSegment(mode: string): string {
    " " + ("mode:" + (" " + mode)) + " "
  }

  /** Three segments with a mode, two without. */
  function Header(domain: string, mode: string, updated: Stamp): string
    requires updated.InRange()
  {
    HEADER_PREFIX + (" " + (domain + (" |" +
    if mode == "" then UpdatedSegment(Rfc3339(updated))
    else ModeSegment(mode) + "|" + UpdatedSegment(Rfc3339(updated)))))
  }

  datatype OverlayHeader = OverlayHeader(domain: string, mode: string, hasMode: bool, updated: Option<Stamp>,
                                         updatedRaw: string)

  /** Before and after the first `c`, and whether there is one. */
  function Cut(s: string, c: char): (string, string, bool) {
    var n := Span(x => x != c, s);
    if n < |s| then (s[..n], s[n + 1..], true) else (s, "", false)
  }

  function ReadPart(h: OverlayHeader, part: string): OverlayHeader {
    var (key, value, ok) := Cut(TrimSpace(part), ':');
    var name, raw := Lower(TrimSpace(key)), TrimSpace(value);
    if !ok then h
    else if name == "mode" then h.(mode := raw, hasMode := true)
    else if name == "updated" then
      h.(updatedRaw := raw, updated := if ParseTime(raw).Some? then ParseTime(raw) else h.updated)
    else h
  }

  function ReadParts(h: OverlayHeader, parts: seq<string>): OverlayHeader {
    if parts == [] then h else ReadPart(ReadParts(h, parts[..|parts| - 1]), parts[|parts| - 1])
  }

  function ParsedHeader(line: string): Option<OverlayHeader> {
    var trimmed := TrimSpace(line);
    if !HasPrefix(trimmed, HEADER_PREFIX) then None
    else
      var (first, remaining, _) := Cut(TrimSpace(trimmed[|HEADER_PREFIX|..]), '|');
      var domain := TrimSpace(first);
      if domain == "" then None
      else Some(ReadParts(OverlayHeader(domain, "", false, None, ""), Split(remaining, '|')))
  }

  /** The parser's loop over the segments. */
  method ReadSegments(start: OverlayHeader, parts: seq<string>) returns (header: OverlayHeader)
    ensures header == ReadParts(start, parts)
  {
    header := start;
    for i := 0 to |parts|
      invariant header == ReadParts(start, parts[..i])
    {
      assert parts[..i + 1][..i] == parts[..i];
      header := ReadPart(header, parts[i]);
    }
    assert parts[..|parts|] == parts;
  }

  method ParseHeader(line: string) returns (h: Option<OverlayHeader>)
    ensures h == ParsedHeader(line)
  {
    var trimmed := TrimSpace(line);
    if !HasPrefix(trimmed, HEADER_PREFIX) {
      return None;
    }
    var (first, remaining, _) := Cut(TrimSpace(trimmed[|HEADER_PREFIX|..]), '|');
    var domain := TrimSpace(first);
    if domain == "" {
      return None;
    }
    var header := ReadSegments(OverlayHeader(domain, "", false, None, ""), Split(remaining, '|'));
    return Some(header);
  }

  lemma CutAt(before: string, c: char, after: string)
    requires Without(before, c)
    ensures Cut(before + ([c] + after), c) == (before, after, true)
  {
    SpanOf(x => x != c, before, [c] + after);
    assert (before + ([c] + after))[|before| + 1..] == after;
  }

  lemma KeysAreLower()
    ensures Lower("mode") == "mode" && Lower("updated") == "updated"
  {
    LowerAt("mode");
    LowerAt("updated");
  }

  /** One "key: value" segment between its separators. */
  lemma ReadKeyValue(h: OverlayHeader, key: string, value: string, pad: string)
    requires key != "" && Trimmed(key) && Without(key, ':')
    requires value != "" && Trimmed(value)
    requires pad == "" || pad == " "
    requires Lower(key) == key
    ensures
      var part := " " + (key + ":" + (" " + value)) + pad;
      ReadPart(h, part) ==
      if key == "mode" then h.(mode := value, hasMode := true)
      else if key == "updated" then
        h.(updatedRaw := value, updated := if ParseTime(value).Some? then ParseTime(value) else h.updated)
      else h
  {
    var body := key + ":" + (" " + value);
    assert body == key + ([':'] + (" " + value));
    TrimOneSpace(body);
    assert " " + body + "" == " " + body;
    CutAt(key, ':', " " + value);
    TrimIsIdentity(key);
    TrimOneSpace(value);
  }

  ghost predicate PlainMode(mode: string) {
    mode != "" && Trimmed(mode) && Without(mode, '|') && Without(mode, '\n')
  }

  /** What the parser keeps of a line once its prefix is gone. */
  lemma BodyOfLine(prefix: string, body: string)
    requires prefix != "" && !IsSpace(prefix[0])
    requires body != "" && Trimmed(body)
    ensures
      var line := prefix + (" " + body);
      && Trimmed(line) && TrimSpace(line) == line && HasPrefix(line, prefix)
      && TrimSpace(line[|prefix|..]) == body
  {
    var line := prefix + (" " + body);
    assert line[|line| - 1] == body[|body| - 1];
    TrimIsIdentity(line);
    assert line[|prefix|..] == " " + body;
    TrimOneSpace(body);
  }

  lemma CutDomain(domain: string, rest: string)
    requires Without(domain, '|')
    ensures Cut(domain + (" |" + rest), '|') == (domain + " ", rest, true)
  {
    assert domain + (" |" + rest) == (domain + " ") + (['|'] + rest);
    CutAt(domain + " ", '|', rest);
  }

  /** The domain segment of a header line, whatever follows. */
  lemma DomainSegment(domain: string, rest: string)
    requires domain != "" && Trimmed(domain) && Without(domain, '|')
    requires rest != "" && !IsSpace(rest[|rest| - 1])
    ensures
      ParsedHeader(HEADER_PREFIX + (" " + (domain + (" |" + rest)))) ==
      Some(ReadParts(OverlayHeader(domain, "", false, None, ""), Split(rest, '|')))
  {
    var body := domain + (" |" + rest);
    assert body[|body| - 1] == rest[|rest| - 1];
    assert HEADER_PREFIX[0] == '#';
    BodyOfLine(HEADER_PREFIX, body);
    CutDomain(domain, rest);
    TrimOneSpace(domain);
  }

  lemma ReadUpdatedText(h: OverlayHeader, ts: string)
    requires ts != "" && Trimmed(ts) && ParseTime(ts).Some?
    ensures ReadPart(h, UpdatedSegment(ts)) == h.(updatedRaw := ts, updated := ParseTime(ts))
  {
    KeysAreLower();
    assert "updated" + ":" == "updated:";
    assert UpdatedSegment(ts) == " " + ("updated" + ":" + (" " + ts)) + "";
    ReadKeyValue(h, "updated", ts, "");
  }

  lemma UpdatedIsOneSegment(ts: string)
    requires Without(ts, '|')
    ensures Without(UpdatedSegment(ts), '|')
  {
  }

  lemma ReadUpdated(h: OverlayHeader, t: Stamp)
    requires Civil(t)
    ensures ReadPart(h, UpdatedSegment(Rfc3339(t))) == h.(updatedRaw := Rfc3339(t), updated := Some(t))
    ensures Without(UpdatedSegment(Rfc3339(t)), '|')
  {
    TimeRoundTrip(t);
    ReadUpdatedText(h, Rfc3339(t));
    UpdatedIsOneSegment(Rfc3339(t));
  }

  lemma ModeIsOneSegment(mode: string)
    requires Without(mode, '|')
    ensures Without(ModeSegment(mode), '|')
  {
  }

  lemma ReadMode(h: OverlayHeader, mode: string)
    requires PlainMode(mode)
    ensures ReadPart(h, ModeSegment(mode)) == h.(mode := mode, hasMode := true)
    ensures Without(ModeSegment(mode), '|')
  {
    KeysAreLower();
    assert "mode" + ":" == "mode:";
    assert ModeSegment(mode) == " " + ("mode" + ":" + (" " + mode)) + " ";
    ReadKeyValue(h, "mode", mode, " ");
    ModeIsOneSegment(mode);
  }

  lemma ReadOne(h: OverlayHeader, a: string)
    ensures ReadParts(h, [a]) == ReadPart(h, a)
  {
    assert [a][..0] == [];
  }

  lemma ReadTwo(h: OverlayHeader, a: string, b: string)
    ensures ReadParts(h, [a] + [b]) == ReadPart(ReadPart(h, a), b)
  {
    assert ([a] + [b])[..1] == [a];
    ReadOne(h, a);
  }

  lemma SegmentTexts(mode: string, ts: string)
    ensures " |" + UpdatedSegment(ts) == " | updated: " + ts
    ensures " |" + (ModeSegment(mode) + "|" + UpdatedSegment(ts)) == " | mode: " + mode + " | updated: " + ts
  {
    assert UpdatedSegment(ts) == " updated: " + ts;
    assert ModeSegment(mode) == " mode: " + mode + " ";
  }

  /** The header line, literally. */
  lemma HeaderText(domain: string, mode: string, t: Stamp)
    requires t.InRange()
    ensures Header(domain, mode, t) ==
            "# domain: " + domain + ((if mode == "" then "" else " | mode: " + mode) + " | updated: " + Rfc3339(t))
  {
    var ts := Rfc3339(t);
    var segments := if mode == "" then UpdatedSegment(ts) else ModeSegment(mode) + "|" + UpdatedSegment(ts);
    var text := (if mode == "" then "" else " | mode: " + mode) + " | updated: " + ts;
    SegmentTexts(mode, ts);
    assert " |" + segments == text;
    assert HEADER_PREFIX + " " == "# domain: ";
    assert HEADER_PREFIX + (" " + (domain + text)) == HEADER_PREFIX + " " + domain + text;
  }

  /** Reading back a header gives the domain, the mode and the second it was written. */
  lemma HeaderRoundTrip(domain: string, mode: string, t: Stamp)
    requires ValidDomain(domain) && Civil(t)
    requires mode == "" || PlainMode(mode)
    ensures ParsedHeader(Header(domain, mode, t)) == Some(OverlayHeader(domain, mode, mode != "", Some(t), Rfc3339(t)))
  {
    ValidDomainIsPlain(domain);
    var ts, h0 := Rfc3339(t), OverlayHeader(domain, "", false, None, "");
    var updated := UpdatedSegment(ts);
    assert updated[|updated| - 1] == ts[|ts| - 1] && !IsSpace(ts[|ts| - 1]) by {
      TimeRoundTrip(t);
    }
    if mode == "" {
      ReadUpdated(h0, t);
      DomainSegment(domain, updated);
      SplitOnly(updated, '|');
      ReadOne(h0, updated);
    } else {
      ReadMode(h0, mode);
      ReadUpdated(h0.(mode := mode, hasMode := true), t);
      var rest := ModeSegment(mode) + "|" + updated;
      assert rest[|rest| - 1] == updated[|updated| - 1];
      DomainSegment(domain, rest);
      SplitFirst(ModeSegment(mode), '|', updated);
      SplitOnly(updated, '|');
      ReadTwo(h0, ModeSegment(mode), updated);
    }
  }

  /** The shape of a header line, over its prefix, domain and the segments that follow. */
  lemma LineOfParts(prefix: string, domain: string, segments: string)
    requires prefix != "" && !IsSpace(prefix[0]) && Without(prefix, '\n') && Without(domain, '\n') &&
             Without(segments, '\n')
    requires segments != "" && !IsSpace(segments[|segments| - 1])
    ensures
      var line := prefix + (" " + (domain + (" |" + segments)));
      Without(line, '\n') && Trimmed(line) && HasPrefix(line, prefix)
  {
    var line := prefix + (" " + (domain + (" |" + segments)));
    assert line[0] == prefix[0] && line[|line| - 1] == segments[|segments| - 1];
  }

  lemma SegmentsAreOneLine(mode: string, ts: string)
    requires Without(mode, '\n') && Without(ts, '\n') && ts != "" && !IsSpace(ts[|ts| - 1])
    ensures
      var updated := UpdatedSegment(ts);
      var both := ModeSegment(mode) + "|" + updated;
      && Without(updated, '\n') && updated != "" && !IsSpace(updated[|updated| - 1])
      && Without(both, '\n') && both != "" && !IsSpace(both[|both| - 1])
  {
    var updated := UpdatedSegment(ts);
    assert updated[|updated| - 1] == ts[|ts| - 1];
  }

  lemma HeaderIsOneLine(domain: string, mode: string, t: Stamp)
    requires ValidDomain(domain) && Civil(t)
    requires mode == "" || PlainMode(mode)
    ensures Without(Header(domain, mode, t), '\n') && Trimmed(Header(domain, mode, t))
    ensures HasPrefix(Header(domain, mode, t), HEADER_PREFIX)
  {
    ValidDomainIsPlain(domain);
    TimeRoundTrip(t);
    var updated := UpdatedSegment(Rfc3339(t));
    SegmentsAreOneLine(mode, Rfc3339(t));
    assert HEADER_PREFIX[0] == '#' && Without(HEADER_PREFIX, '\n');
    LineOfParts(HEADER_PREFIX, domain, if mode == "" then updated else ModeSegment(mode) + "|" + updated);
  }

  // ------------------------------------------------------------- any header, whoever wrote it

  /** A segment "key: value", in any case and with any white space around either. */
  ghost predicate IsPair(part: string, key: string, value: string) {
    exists k, v :: IsPairOf(part, key, value, k, v)
  }

  ghost predicate IsPairOf(part: string, key: string, value: string, k: string, v: string) {
    TrimSpace(part) == k + ([':'] + v) && Without(k, ':') && SameLetters(TrimSpace(k), key) && TrimSpace(v) == value
  }

  predicate ReadsPair(part: string, key: string, value: string) {
    var (k, v, ok) := Cut(TrimSpace(part), ':');
    ok && Lower(TrimSpace(k)) == key && TrimSpace(v) == value
  }

  lemma CutIs(s: string, c: char)
    ensures var (k, v, ok) := Cut(s, c); Without(k, c) && if ok then s == k + ([c] + v) else k == s && v == ""
  {
  }

  lemma PairIff(part: string, key: string, value: string)
    requires Lower(key) == key
    ensures IsPair(part, key, value) <==> ReadsPair(part, key, value)
  {
    var (k, v, ok) := Cut(TrimSpace(part), ':');
    CutIs(TrimSpace(part), ':');
    LowerSameIff(TrimSpace(k), key);
    if ReadsPair(part, key, value) {
      assert IsPairOf(part, key, value, k, v);
    }
    if k', v' :| IsPairOf(part, key, value, k', v') {
      CutAt(k', ':', v');
    }
  }

  ghost predicate IsNoPair(part: string, key: string) {
    forall value :: !IsPair(part, key, value)
  }

  /** The last segment with this key, if there is one, has this value. */
  ghost predicate LastIs(parts: seq<string>, key: string, value: Option<string>) {
    match value
    case None => forall i :: 0 <= i < |parts| ==> IsNoPair(parts[i], key)
    case Some(v) => exists i :: LastAt(parts, key, v, i)
  }

  ghost predicate LastAt(parts: seq<string>, key: string, value: string, i: int) {
    0 <= i < |parts| && IsPair(parts[i], key, value) && forall j :: i < j < |parts| ==> IsNoPair(parts[j], key)
  }

  lemma NewLast(parts: seq<string>, part: string, key: string, value: string)
    requires IsPair(part, key, value)
    ensures LastIs(parts + [part], key, Some(value))
  {
    assert LastAt(parts + [part], key, value, |parts|);
  }

  lemma OldLastAt(parts: seq<string>, part: string, key: string, value: string, i: int)
    requires LastAt(parts, key, value, i) && IsNoPair(part, key)
    ensures LastAt(parts + [part], key, value, i)
  {
    var all := parts + [part];
    assert all[i] == parts[i];
    forall j | i < j < |all|
      ensures IsNoPair(all[j], key)
    {
      assert all[j] == if j < |parts| then parts[j] else part;
    }
  }

  lemma OldLast(parts: seq<string>, part: string, key: string, value: Option<string>)
    requires LastIs(parts, key, value) && IsNoPair(part, key)
    ensures LastIs(parts + [part], key, value)
  {
    if value.Some? {
      var i :| LastAt(parts, key, value.value, i);
      OldLastAt(parts, part, key, value.value, i);
    } else {
      var all := parts + [part];
      forall j | 0 <= j < |all|
        ensures IsNoPair(all[j], key)
      {
        assert all[j] == if j < |parts| then parts[j] else part;
      }
    }
  }

  /** What `ReadPart` makes of a segment, by the pair it is. */
  lemma PartIs(h: OverlayHeader, part: string)
    ensures
      var h' := ReadPart(h, part);
      && h'.domain == h.domain
      && (forall w :: IsPair(part, "mode", w) ==> h'.hasMode && h'.mode == w)
      && (IsNoPair(part, "mode") ==> h'.hasMode == h.hasMode && h'.mode == h.mode)
      && (forall w :: IsPair(part, "updated", w) ==>
                        h'.updatedRaw == w && h'.updated == if ParseTime(w).Some? then ParseTime(w) else h.updated)
      && (IsNoPair(part, "updated") ==> h'.updatedRaw == h.updatedRaw && h'.updated == h.updated)
  {
    KeysAreLower();
    forall w
      ensures IsPair(part, "mode", w) <==> ReadsPair(part, "mode", w)
      ensures IsPair(part, "updated", w) <==> ReadsPair(part, "updated", w)
    {
      PairIff(part, "mode", w);
      PairIff(part, "updated", w);
    }
    var value := TrimSpace(Cut(TrimSpace(part), ':').1);
    assert ReadsPair(part, "mode", value) || forall w :: !ReadsPair(part, "mode", w);
    assert ReadsPair(part, "updated", value) || forall w :: !ReadsPair(part, "updated", w);
  }

  ghost function ModeOf(h: OverlayHeader): Option<string> {
    if h.hasMode then Some(h.mode) else None
  }

  /** Of several segments with one key the last one counts. */
  lemma {:induction false} LastCounts(h0: OverlayHeader, parts: seq<string>)
    requires !h0.hasMode
    ensures
      var h := ReadParts(h0, parts);
      h.domain == h0.domain && LastIs(parts, "mode", ModeOf(h))
  {
    if parts != [] {
      var front, part := parts[..|parts| - 1], parts[|parts| - 1];
      var h := ReadParts(h0, front);
      LastCounts(h0, front);
      PartIs(h, part);
      assert parts == front + [part];
      if IsNoPair(part, "mode") {
        OldLast(front, part, "mode", ModeOf(h));
      } else {
        var value :| IsPair(part, "mode", value);
        NewLast(front, part, "mode", value);
      }
    }
  }

  ghost predicate HasTime(part: string, t: Stamp) {
    Civil(t) && IsPair(part, "updated", Rfc3339(t))
  }

  ghost predicate HasNoTime(part: string) {
    forall t :: !HasTime(part, t)
  }

  /** The time of the last segment that has a readable one, if there is one. */
  ghost predicate LastTimeIs(parts: seq<string>, updated: Option<Stamp>) {
    match updated
    case None => forall i :: 0 <= i < |parts| ==> HasNoTime(parts[i])
    case Some(t) => exists i :: LastTimeAt(parts, t, i)
  }

  ghost predicate LastTimeAt(parts: seq<string>, t: Stamp, i: int) {
    0 <= i < |parts| && HasTime(parts[i], t) && forall j :: i < j < |parts| ==> HasNoTime(parts[j])
  }

  lemma TimeIsRead(part: string, t: Stamp, h: OverlayHeader)
    requires HasTime(part, t)
    ensures ReadPart(h, part).updated == Some(t)
  {
    PartIs(h, part);
    ParseTimeIff(Rfc3339(t), t);
  }

  lemma NoTimeIsRead(part: string, h: OverlayHeader)
    requires HasNoTime(part)
    ensures ReadPart(h, part).updated == h.updated
  {
    PartIs(h, part);
    if w :| IsPair(part, "updated", w) {
      if ParseTime(w).Some? {
        ParseTimeIff(w, ParseTime(w).value);
        assert HasTime(part, ParseTime(w).value);
      }
    }
  }

  lemma NewTime(parts: seq<string>, part: string, t: Stamp)
    requires HasTime(part, t)
    ensures LastTimeIs(parts + [part], Some(t))
  {
    assert LastTimeAt(parts + [part], t, |parts|);
  }

  lemma OldTimeAt(parts: seq<string>, part: string, t: Stamp, i: int)
    requires LastTimeAt(parts, t, i) && HasNoTime(part)
    ensures LastTimeAt(parts + [part], t, i)
  {
    var all := parts + [part];
    assert all[i] == parts[i];
    forall j | i < j < |all|
      ensures HasNoTime(all[j])
    {
      assert all[j] == if j < |parts| then parts[j] else part;
    }
  }

  lemma OldTime(parts: seq<string>, part: string, updated: Option<Stamp>)
    requires LastTimeIs(parts, updated) && HasNoTime(part)
    ensures LastTimeIs(parts + [part], updated)
  {
    if updated.Some? {
      var i :| LastTimeAt(parts, updated.value, i);
      OldTimeAt(parts, part, updated.value, i);
    } else {
      var all := parts + [part];
      forall j | 0 <= j < |all|
        ensures HasNoTime(all[j])
      {
        assert all[j] == if j < |parts| then parts[j] else part;
      }
    }
  }

  lemma {:induction false} LastTimeCounts(h0: OverlayHeader, parts: seq<string>)
    requires h0.updated == None
    ensures LastTimeIs(parts, ReadParts(h0, parts).updated)
  {
    if parts != [] {
      var front, part := parts[..|parts| - 1], parts[|parts| - 1];
      var h := ReadParts(h0, front);
      LastTimeCounts(h0, front);
      assert parts == front + [part];
      if HasNoTime(part) {
        NoTimeIsRead(part, h);
        OldTime(front, part, h.updated);
      } else {
        var t :| HasTime(part, t);
        TimeIsRead(part, t, h);
        NewTime(front, part, t);
      }
    }
  }

  /** A header line: the prefix, a domain up to the first bar, and segments behind it. */
  ghost predicate IsHeaderLine(line: string, domain: string, segments: string) {
    exists first :: IsHeaderOf(line, first, domain, segments)
  }

  ghost predicate IsHeaderOf(line: string, first: string, domain: string, segments: string) {
    var t := TrimSpace(line);
    && HasPrefix(t, "# domain:") && Without(first, '|') && TrimSpace(first) == domain && domain != ""
    && (TrimSpace(t[9..]) == first + (['|'] + segments) || (TrimSpace(t[9..]) == first && segments == ""))
  }

  lemma CutAll(s: string, c: char)
    requires Without(s, c)
    ensures Cut(s, c) == (s, "", false)
  {
    SpanOf(x => x != c, s, "");
    assert s + "" == s;
  }

  lemma HeaderOfIs(line: string, first: string, domain: string, segments: string)
    requires IsHeaderOf(line, first, domain, segments)
    ensures
      var parts := Split(segments, '|');
      ParsedHeader(line) == Some(ReadParts(OverlayHeader(domain, "", false, None, ""), parts))
  {
    assert |HEADER_PREFIX| == 9;
    if TrimSpace(TrimSpace(line)[9..]) == first + (['|'] + segments) {
      CutAt(first, '|', segments);
    } else {
      CutAll(first, '|');
    }
  }

  lemma BodyIsHeader(line: string)
    requires HasPrefix(TrimSpace(line), "# domain:")
    ensures
      var (first, segments, _) := Cut(TrimSpace(TrimSpace(line)[9..]), '|');
      TrimSpace(first) != "" ==> IsHeaderLine(line, TrimSpace(first), segments)
  {
    var body := TrimSpace(TrimSpace(line)[9..]);
    var (first, segments, _) := Cut(body, '|');
    CutIs(body, '|');
    assert TrimSpace(first) != "" ==> IsHeaderOf(line, first, TrimSpace(first), segments);
  }

  lemma ParsedIsHeaderLine(line: string)
    requires ParsedHeader(line).Some?
    ensures exists domain, segments :: IsHeaderLine(line, domain, segments)
  {
    assert |HEADER_PREFIX| == 9;
    BodyIsHeader(line);
  }

  /** Which lines are headers at all, and what any of them says. */
  lemma AnyHeader(line: string)
    ensures ParsedHeader(line).Some? <==> exists domain, segments :: IsHeaderLine(line, domain, segments)
    ensures forall domain, segments :: IsHeaderLine(line, domain, segments) ==>
                                         var h, parts := ParsedHeader(line).value, Split(segments, '|');
                                         h.domain == domain && LastIs(parts, "mode", ModeOf(h)) &&
                                         LastTimeIs(parts, h.updated)
  {
    forall domain, segments | IsHeaderLine(line, domain, segments)
      ensures ParsedHeader(line).Some? && ParsedHeader(line).value.domain == domain
      ensures LastIs(Split(segments, '|'), "mode", ModeOf(ParsedHeader(line).value))
      ensures LastTimeIs(Split(segments, '|'), ParsedHeader(line).value.updated)
    {
      var first :| IsHeaderOf(line, first, domain, segments);
      HeaderOfIs(line, first, domain, segments);
      LastCounts(OverlayHeader(domain, "", false, None, ""), Split(segments, '|'));
      LastTimeCounts(OverlayHeader(domain, "", false, None, ""), Split(segments, '|'));
    }
    if ParsedHeader(line).Some? {
      ParsedIsHeaderLine(line);
    }
  }

  // ----------------------------------------------------------------------- the scanner

  datatype Site = Site(domain: string, mode: string, degraded: bool, updated: Option<Stamp>)

  const MODE_ON := "On"
  const MODE_OFF := "Off"
  const MODE_DETECTION_ONLY := "DetectionOnly"

  predicate KnownMode(mode: string) {
    mode == MODE_ON || mode == MODE_OFF || mode == MODE_DETECTION_ONLY
  }

  function FirstHeaderLine(lines: seq<string>): Option<string> {
    if lines == [] then None
    else if HasPrefix(TrimSpace(lines[0]), HEADER_PREFIX) then Some(TrimSpace(lines[0]))
    else FirstHeaderLine(lines[1..])
  }

  function SiteOf(h: OverlayHeader): Site {
    Site(h.domain, if h.hasMode && KnownMode(h.mode) then h.mode else MODE_DETECTION_ONLY,
         h.hasMode && !KnownMode(h.mode), h.updated)
  }

  function ParsedSite(content: string): Option<Site> {
    match FirstHeaderLine(Split(content, '\n'))
    case None => None
    case Some(line) => match ParsedHeader(line) case None => None case Some(h) => Some(SiteOf(h))
  }

  method ParseSiteHeader(content: string) returns (site: Option<Site>)
    ensures site == ParsedSite(content)
  {
    var lines := Split(content, '\n');
    var headerLine := None;
    var i := 0;
    while i < |lines| && headerLine.None?
      invariant i <= |lines|
      invariant FirstHeaderLine(lines) == if headerLine.Some? then headerLine else FirstHeaderLine(lines[i..])
    {
      assert lines[i..][1..] == lines[i + 1..];
      var trimmed := TrimSpace(lines[i]);
      if HasPrefix(trimmed, HEADER_PREFIX) {
        headerLine := Some(trimmed);
      }
      i := i + 1;
    }
    if headerLine.None? {
      return None;
    }
    var info := ParseHeader(headerLine.value);
    if info.None? {
      return None;
    }
    var h := info.value;
    var mode, degraded := MODE_DETECTION_ONLY, false;
    if h.hasMode {
      if KnownMode(h.mode) {
        mode := h.mode;
      } else {
        degraded := true;
      }
    }
    return Some(Site(h.domain, mode, degraded, h.updated));
  }

  /** The first line with the prefix of a header. */
  ghost predicate FirstHeader(lines: seq<string>, i: nat) {
    && i < |lines| && HasPrefix(TrimSpace(lines[i]), "# domain:")
    && forall j :: 0 <= j < i ==> !HasPrefix(TrimSpace(lines[j]), "# domain:")
  }

  lemma {:induction false} FirstHeaderIs(lines: seq<string>)
    ensures forall i: nat :: FirstHeader(lines, i) ==> FirstHeaderLine(lines) == Some(TrimSpace(lines[i]))
    ensures FirstHeaderLine(lines).Some? ==> exists i: nat :: FirstHeader(lines, i)
  {
    if lines != [] {
      var rest := lines[1..];
      FirstHeaderIs(rest);
      if HasPrefix(TrimSpace(lines[0]), HEADER_PREFIX) {
        assert FirstHeader(lines, 0);
      } else {
        forall i: nat | FirstHeader(lines, i)
          ensures i > 0 && FirstHeader(rest, i - 1)
        {
          assert i > 0;
          assert forall j :: 0 <= j < i - 1 ==> rest[j] == lines[j + 1];
        }
        if i: nat :| FirstHeader(rest, i) {
          assert forall j :: 0 < j <= i ==> lines[j] == rest[j - 1];
          assert FirstHeader(lines, i + 1);
        }
      }
    }
  }

  lemma LastIsOnce(parts: seq<string>, m: Option<string>, m': Option<string>)
    requires LastIs(parts, "mode", m) && LastIs(parts, "mode", m')
    ensures m == m'
  {
    KeysAreLower();
    forall part, w | IsPair(part, "mode", w)
      ensures ReadsPair(part, "mode", w)
    {
      PairIff(part, "mode", w);
    }
    if m.Some? && m'.Some? {
      var i :| LastAt(parts, "mode", m.value, i);
      var i' :| LastAt(parts, "mode", m'.value, i');
      assert i == i';
      assert ReadsPair(parts[i], "mode", m.value) && ReadsPair(parts[i], "mode", m'.value);
    }
  }

  lemma SiteShows(h: OverlayHeader)
    ensures
      var site, mode := SiteOf(h), ModeOf(h);
      var known := mode in {Some("On"), Some("Off"), Some("DetectionOnly")};
      && site.domain == h.domain && site.updated == h.updated
      && site.mode == (if known then mode.value else "DetectionOnly")
      && site.degraded == (mode.Some? && !known)
  {
  }

  lemma SiteOfFirst(content: string, i: nat)
    requires FirstHeader(Split(content, '\n'), i)
    ensures
      var line := TrimSpace(Split(content, '\n')[i]);
      ParsedSite(content) == match ParsedHeader(line) case None => None case Some(h) => Some(SiteOf(h))
  {
    FirstHeaderIs(Split(content, '\n'));
  }

  /** Any overlay is shown by its first header line, whoever wrote it: under that domain, in the mode
      its last mode segment names if that is one of the three, and else in the default mode, degraded
      if there is such a segment. */
  lemma AnySite(content: string, i: nat, domain: string, segments: string, mode: Option<string>)
    requires FirstHeader(Split(content, '\n'), i)
    requires IsHeaderLine(TrimSpace(Split(content, '\n')[i]), domain, segments)
    requires LastIs(Split(segments, '|'), "mode", mode)
    ensures ParsedSite(content).Some?
    ensures
      var site, known := ParsedSite(content).value, mode in {Some("On"), Some("Off"), Some("DetectionOnly")};
      && site.domain == domain
      && site.mode == (if known then mode.value else "DetectionOnly")
      && site.degraded == (mode.Some? && !known)
      && LastTimeIs(Split(segments, '|'), site.updated)
  {
    var line := TrimSpace(Split(content, '\n')[i]);
    SiteOfFirst(content, i);
    AnyHeader(line);
    LastIsOnce(Split(segments, '|'), mode, ModeOf(ParsedHeader(line).value));
    SiteShows(ParsedHeader(line).value);
  }

  /** No other overlay is shown. */
  lemma SiteNeedsHeader(content: string)
    requires ParsedSite(content).Some?
    ensures exists i: nat, domain, segments ::
              FirstHeader(Split(content, '\n'), i) &&
              IsHeaderLine(TrimSpace(Split(content, '\n')[i]), domain, segments)
  {
    var lines := Split(content, '\n');
    FirstHeaderIs(lines);
    var i: nat :| FirstHeader(lines, i);
    AnyHeader(TrimSpace(lines[i]));
  }

  const MANAGED_LINE := "# Caddy WAF UI managed - do not edit manually"

  /** The lines of the engine configuration that follows the header. */
  function WafLines(domain: string, mode: string, auditPath: string, includeDir: string): seq<string> {
    ["coraza_waf {",
     "    directives `",
     "        Include /etc/caddy/coraza.conf",
     "        Include /etc/caddy/owasp-crs/crs-setup.conf",
     "        Include /etc/caddy/owasp-crs/rules/*.conf",
     "        SecRuleEngine " + mode,
     "        Include " + includeDir + "/" + OverlayName(Exclusions, DomainSlug(domain)),
     "        SecAuditEngine RelevantOnly",
     "        SecAuditLog " + auditPath,
     "        SecAuditLogFormat JSON",
     "        SecAuditLogParts ABCDEFGHIJKZ",
     "    `",
     "}",
     ""]
  }

  function WafBody(domain: string, mode: string, auditPath: string, includeDir: string): string {
    Joined(WafLines(domain, mode, auditPath, includeDir), '\n')
  }

  function WafSnippet(domain: string, mode: string, auditPath: string, includeDir: string, now: Stamp): string
    requires now.InRange()
  {
    MANAGED_LINE + "\n" + (Header(domain, mode, now) + "\n" + WafBody(domain, mode, auditPath, includeDir))
  }

  /** What a long fixed line has from shorter pieces that can be looked into. */
  lemma LineOfPieces(line: string, a: string, b: string, c: string)
    requires line == a + b + c && |a| > 2 && c != ""
    requires Without(a, '\n') && Without(b, '\n') && Without(c, '\n')
    ensures Without(line, '\n') && line != "" && line[0] == a[0] && |line| > 2 && line[2] == a[2]
    ensures line[|line| - 1] == c[|c| - 1]
  {
  }

  lemma ManagedLinePieces()
    ensures MANAGED_LINE == "# Caddy WAF UI" + " managed - do" + " not edit manually"
  {
  }

  lemma ManagedLineIsPlain()
    ensures MANAGED_LINE != "" && MANAGED_LINE[0] == '#' && |MANAGED_LINE| > 2 && MANAGED_LINE[2] == 'C'
    ensures Without(MANAGED_LINE, '\n') && Trimmed(MANAGED_LINE)
  {
    ManagedLinePieces();
    LineOfPieces(MANAGED_LINE, "# Caddy WAF UI", " managed - do", " not edit manually");
  }

  lemma ManagedLineIsNoHeader()
    ensures MANAGED_LINE != "" && MANAGED_LINE[0] == '#'
    ensures Without(MANAGED_LINE, '\n') && Trimmed(MANAGED_LINE)
    ensures !HasPrefix(TrimSpace(MANAGED_LINE), HEADER_PREFIX)
  {
    ManagedLineIsPlain();
    TrimIsIdentity(MANAGED_LINE);
    assert HEADER_PREFIX[2] == 'd';
  }

  lemma SecondLine(first: string, header: string, rest: string)
    requires Without(first, '\n') && Without(header, '\n') && Trimmed(header)
    requires !HasPrefix(TrimSpace(first), HEADER_PREFIX) && HasPrefix(header, HEADER_PREFIX)
    ensures FirstHeaderLine(Split(first + "\n" + (header + "\n" + rest), '\n')) == Some(header)
  {
    SplitFirst(first, '\n', header + "\n" + rest);
    SplitFirst(header, '\n', rest);
    TrimIsIdentity(header);
    var lines := [first] + ([header] + Split(rest, '\n'));
    assert lines[1..] == [header] + Split(rest, '\n');
  }

  lemma AfterManagedLine(header: string, rest: string)
    requires Without(header, '\n') && Trimmed(header) && HasPrefix(header, HEADER_PREFIX)
    ensures FirstHeaderLine(Split(MANAGED_LINE + "\n" + (header + "\n" + rest), '\n')) == Some(header)
  {
    ManagedLineIsNoHeader();
    SecondLine(MANAGED_LINE, header, rest);
  }

  /** An overlay that starts with the fixed comment and a header line, whatever follows. */
  lemma HeaderIsFound(domain: string, mode: string, t: Stamp, rest: string)
    requires ValidDomain(domain) && Civil(t)
    requires mode == "" || PlainMode(mode)
    ensures FirstHeaderLine(Split(MANAGED_LINE + "\n" + (Header(domain, mode, t) + "\n" + rest), '\n')) ==
            Some(Header(domain, mode, t))
  {
    HeaderIsOneLine(domain, mode, t);
    AfterManagedLine(Header(domain, mode, t), rest);
  }

  lemma KnownModeIsPlain(mode: string)
    requires KnownMode(mode)
    ensures PlainMode(mode)
  {
  }

  lemma SiteOfText(domain: string, mode: string, t: Stamp, rest: string)
    requires ValidDomain(domain) && KnownMode(mode) && Civil(t)
    ensures ParsedSite(MANAGED_LINE + "\n" + (Header(domain, mode, t) + "\n" + rest)) ==
            Some(Site(domain, mode, false, Some(t)))
  {
    KnownModeIsPlain(mode);
    HeaderIsFound(domain, mode, t, rest);
    HeaderRoundTrip(domain, mode, t);
  }

  /** Scanning a generated WAF overlay returns the exact domain and mode, not degraded,
      and the second it was written. */
  lemma ScanFindsGeneratedSite(domain: string, mode: string, auditPath: string, includeDir: string, t: Stamp)
    requires ValidDomain(domain) && KnownMode(mode) && Civil(t)
    ensures ParsedSite(WafSnippet(domain, mode, auditPath, includeDir, t)) == Some(Site(domain, mode, false, Some(t)))
  {
    SiteOfText(domain, mode, t, WafBody(domain, mode, auditPath, includeDir));
  }

  lemma FoundSite(content: string, line: string, h: OverlayHeader)
    requires FirstHeaderLine(Split(content, '\n')) == Some(line) && ParsedHeader(line) == Some(h)
    ensures ParsedSite(content) == Some(SiteOf(h))
  {
  }

  lemma SiteOfModes(domain: string, mode: string, updated: Option<Stamp>, raw: string)
    ensures
      var known := mode == "On" || mode == "Off" || mode == "DetectionOnly";
      SiteOf(OverlayHeader(domain, mode, mode != "", updated, raw)) ==
      Site(domain, if known then mode else "DetectionOnly", mode != "" && !known, updated)
  {
  }

  /** The mode shown for a generated header: the mode itself if it is one of the three; without a
      mode, or with another one, the default that blocks nothing, and only the latter is degraded. */
  lemma ShownMode(domain: string, mode: string, t: Stamp, rest: string)
    requires ValidDomain(domain) && Civil(t) && (mode == "" || PlainMode(mode))
    ensures
      var known := mode == "On" || mode == "Off" || mode == "DetectionOnly";
      ParsedSite(MANAGED_LINE + "\n" + (Header(domain, mode, t) + "\n" + rest)) ==
      Some(Site(domain, if known then mode else "DetectionOnly", mode != "" && !known, Some(t)))
  {
    var h := OverlayHeader(domain, mode, mode != "", Some(t), Rfc3339(t));
    HeaderIsFound(domain, mode, t, rest);
    HeaderRoundTrip(domain, mode, t);
    FoundSite(MANAGED_LINE + "\n" + (Header(domain, mode, t) + "\n" + rest), Header(domain, mode, t), h);
    SiteOfModes(domain, mode, Some(t), Rfc3339(t));
  }

  ghost predicate AreLines(lines: seq<string>) {
    forall i :: 0 <= i < |lines| ==> Without(lines[i], '\n')
  }

  lemma TwoPieces(line: string, a: string, b: string)
    requires line == a + b && Without(a, '\n') && Without(b, '\n')
    ensures Without(line, '\n')
  {
  }

  lemma IncludeLine(path: string)
    requires Without(path, '\n')
    ensures Without("        Include /etc/caddy/" + path, '\n')
  {
    TwoPieces("        Include /etc/caddy/", "        Include", " /etc/caddy/");
  }

  lemma CorazaLine()
    ensures Without("        Include /etc/caddy/coraza.conf", '\n')
  {
    IncludeLine("coraza.conf");
    assert "        Include /etc/caddy/coraza.conf" == "        Include /etc/caddy/" + "coraza.conf";
  }

  lemma SetupLine()
    ensures Without("        Include /etc/caddy/owasp-crs/crs-setup.conf", '\n')
  {
    IncludeLine("owasp-crs/crs-setup.conf");
    assert "        Include /etc/caddy/owasp-crs/crs-setup.conf" ==
           "        Include /etc/caddy/" + "owasp-crs/crs-setup.conf";
  }

  lemma RulesLine()
    ensures Without("        Include /etc/caddy/owasp-crs/rules/*.conf", '\n')
  {
    IncludeLine("owasp-crs/rules/*.conf");
    assert "        Include /etc/caddy/owasp-crs/rules/*.conf" ==
           "        Include /etc/caddy/" + "owasp-crs/rules/*.conf";
  }

  lemma ParameterLines(mode: string, auditPath: string, includeDir: string, overlay: string)
    requires Without(mode, '\n') && Without(auditPath, '\n') && Without(includeDir, '\n') && Without(overlay, '\n')
    ensures AreLines(["        SecRuleEngine " + mode, "        Include " + includeDir + "/" + overlay,
                      "        SecAuditLog " + auditPath])
  {
    TwoPieces("        SecRuleEngine " + mode, "        SecRuleEngine ", mode);
    TwoPieces("        SecAuditLog " + auditPath, "        SecAuditLog ", auditPath);
    TwoPieces("        Include " + includeDir, "        Include ", includeDir);
    TwoPieces("        Include " + includeDir + "/", "        Include " + includeDir, "/");
    TwoPieces("        Include " + includeDir + "/" + overlay, "        Include " + includeDir + "/", overlay);
  }

  lemma AuditLines()
    ensures AreLines(["        SecAuditEngine RelevantOnly", "        SecAuditLogFormat JSON",
                      "        SecAuditLogParts ABCDEFGHIJKZ"])
  {
  }

  lemma FrameLines()
    ensures AreLines(["coraza_waf {", "    directives `", "    `", "}", ""])
  {
  }

  lemma FourteenLines(c0: string, c1: string, c2: string, d: seq<string>, e: seq<string>, f: seq<string>)
    requires |d| == 3 && |e| == 3 && |f| == 5
    requires Without(c0, '\n') && Without(c1, '\n') && Without(c2, '\n') && AreLines(d) && AreLines(e) && AreLines(f)
    ensures AreLines([f[0], f[1], c0, c1, c2, d[0], d[1], e[0], d[2], e[1], e[2], f[2], f[3], f[4]])
  {
  }

  lemma OverlayNameIsOneLine(ft: FileType, domain: string)
    ensures Without(OverlayName(ft, DomainSlug(domain)), '\n')
  {
    SlugIsSafe(domain);
  }

  lemma WafLinesAreLines(domain: string, mode: string, auditPath: string, includeDir: string)
    requires Without(mode, '\n') && Without(auditPath, '\n') && Without(includeDir, '\n')
    ensures AreLines(WafLines(domain, mode, auditPath, includeDir))
  {
    var overlay := OverlayName(Exclusions, DomainSlug(domain));
    OverlayNameIsOneLine(Exclusions, domain);
    CorazaLine();
    SetupLine();
    RulesLine();
    ParameterLines(mode, auditPath, includeDir, overlay);
    AuditLines();
    FrameLines();
    FourteenLines("        Include /etc/caddy/coraza.conf", "        Include /etc/caddy/owasp-crs/crs-setup.conf",
                  "        Include /etc/caddy/owasp-crs/rules/*.conf",
                  ["        SecRuleEngine " + mode, "        Include " + includeDir + "/" + overlay,
                   "        SecAuditLog " + auditPath],
                  ["        SecAuditEngine RelevantOnly", "        SecAuditLogFormat JSON",
                   "        SecAuditLogParts ABCDEFGHIJKZ"],
                  ["coraza_waf {", "    directives `", "    `", "}", ""]);
  }

  /** The generated text, line by line. */
  lemma WafTextLines(domain: string, mode: string, auditPath: string, includeDir: string, now: Stamp)
    requires ValidDomain(domain) && Civil(now) && PlainMode(mode)
    requires Without(auditPath, '\n') && Without(includeDir, '\n')
    ensures Split(WafSnippet(domain, mode, auditPath, includeDir, now), '\n') ==
            [MANAGED_LINE] + ([Header(domain, mode, now)] + WafLines(domain, mode, auditPath, includeDir))
  {
    var header, lines := Header(domain, mode, now), WafLines(domain, mode, auditPath, includeDir);
    HeaderIsOneLine(domain, mode, now);
    ManagedLineIsPlain();
    WafLinesAreLines(domain, mode, auditPath, includeDir);
    SplitJoined(lines, '\n');
    SplitFirst(header, '\n', Joined(lines, '\n'));
    SplitFirst(MANAGED_LINE, '\n', header + "\n" + Joined(lines, '\n'));
  }

  lemma NotPrefix(line: string, prefix: string, k: nat)
    requires k < |line| && k < |prefix| && line[k] != prefix[k]
    ensures !HasPrefix(line, prefix)
  {
  }

  lemma FixedLinesSetNoEngine()
    ensures !HasPrefix("coraza_waf {", "        SecRuleEngine ")
    ensures !HasPrefix("    directives `", "        SecRuleEngine ")
    ensures !HasPrefix("        SecAuditEngine RelevantOnly", "        SecRuleEngine ")
    ensures !HasPrefix("        SecAuditLogFormat JSON", "        SecRuleEngine ")
    ensures !HasPrefix("        SecAuditLogParts ABCDEFGHIJKZ", "        SecRuleEngine ")
    ensures !HasPrefix("    `", "        SecRuleEngine ") && !HasPrefix("}", "        SecRuleEngine ")
    ensures !HasPrefix("", "        SecRuleEngine ")
  {
    NotPrefix("coraza_waf {", "        SecRuleEngine ", 0);
    NotPrefix("    directives `", "        SecRuleEngine ", 4);
    NotPrefix("        SecAuditEngine RelevantOnly", "        SecRuleEngine ", 11);
    NotPrefix("        SecAuditLogFormat JSON", "        SecRuleEngine ", 11);
    NotPrefix("        SecAuditLogParts ABCDEFGHIJKZ", "        SecRuleEngine ", 11);
  }

  lemma IncludesSetNoEngine(includeDir: string, overlay: string, auditPath: string)
    ensures !HasPrefix("        Include /etc/caddy/coraza.conf", "        SecRuleEngine ")
    ensures !HasPrefix("        Include /etc/caddy/owasp-crs/crs-setup.conf", "        SecRuleEngine ")
    ensures !HasPrefix("        Include /etc/caddy/owasp-crs/rules/*.conf", "        SecRuleEngine ")
    ensures !HasPrefix("        Include " + includeDir + "/" + overlay, "        SecRuleEngine ")
    ensures !HasPrefix("        SecAuditLog " + auditPath, "        SecRuleEngine ")
  {
    NotPrefix("        Include /etc/caddy/coraza.conf", "        SecRuleEngine ", 8);
    NotPrefix("        Include /etc/caddy/owasp-crs/crs-setup.conf", "        SecRuleEngine ", 8);
    NotPrefix("        Include /etc/caddy/owasp-crs/rules/*.conf", "        SecRuleEngine ", 8);
    NotPrefix("        Include " + includeDir + "/" + overlay, "        SecRuleEngine ", 8);
    NotPrefix("        SecAuditLog " + auditPath, "        SecRuleEngine ", 11);
  }

  lemma OneEngineLine(lines: seq<string>, domain: string, mode: string, auditPath: string, includeDir: string)
    requires lines == WafLines(domain, mode, auditPath, includeDir)
    ensures |lines| == 14 && lines[5] == "        SecRuleEngine " + mode
    ensures lines[6] == "        Include " + includeDir + "/" + OverlayName(Exclusions, DomainSlug(domain))
    ensures lines[8] == "        SecAuditLog " + auditPath
    ensures forall i :: 0 <= i < 14 && HasPrefix(lines[i], "        SecRuleEngine ") ==> i == 5
  {
    FixedLinesSetNoEngine();
    IncludesSetNoEngine(includeDir, OverlayName(Exclusions, DomainSlug(domain)), auditPath);
  }

  /** The generated overlay sets the engine to the requested mode, in one line and in no other; it
      includes the exclusions overlay of the same domain, and logs where it was told to. */
  lemma EngineCarriesMode(domain: string, mode: string, auditPath: string, includeDir: string, now: Stamp)
    requires ValidDomain(domain) && Civil(now) && PlainMode(mode)
    requires Without(auditPath, '\n') && Without(includeDir, '\n')
    ensures
      var lines := Split(WafSnippet(domain, mode, auditPath, includeDir, now), '\n');
      && |lines| == 16 && lines[7] == "        SecRuleEngine " + mode
      && (forall i :: 0 <= i < |lines| && HasPrefix(lines[i], "        SecRuleEngine ") ==> i == 7)
      && lines[8] == "        Include " + includeDir + "/" + OverlayName(Exclusions, DomainSlug(domain))
      && lines[10] == "        SecAuditLog " + auditPath
  {
    var lines := WafLines(domain, mode, auditPath, includeDir);
    WafTextLines(domain, mode, auditPath, includeDir, now);
    OneEngineLine(lines, domain, mode, auditPath, includeDir);
    ManagedLineIsPlain();
    HeaderIsOneLine(domain, mode, now);
    NotPrefix(MANAGED_LINE, "        SecRuleEngine ", 0);
    assert HEADER_PREFIX[0] == '#';
    NotPrefix(Header(domain, mode, now), "        SecRuleEngine ", 0);
    TwoMore(MANAGED_LINE, Header(domain, mode, now), lines, "        SecRuleEngine ");
  }

  lemma TwoMore(first: string, second: string, rest: seq<string>, prefix: string)
    requires !HasPrefix(first, prefix) && !HasPrefix(second, prefix)
    requires |rest| == 14 && forall i :: 0 <= i < 14 && HasPrefix(rest[i], prefix) ==> i == 5
    ensures
      var lines := [first] + ([second] + rest);
      && |lines| == 16 && lines[2..] == rest && lines[7] == rest[5] && lines[8] == rest[6] && lines[10] == rest[8]
      && forall i :: 0 <= i < 16 && HasPrefix(lines[i], prefix) ==> i == 7
  {
  }

  predicate IsWafFile(name: string) {
    HasPrefix(name, "waf-") && HasSuffix(name, ".conf")
  }

  /** The scanner opens the WAF overlays and neither the other types nor temporary files. */
  lemma ScanOpensWafOverlaysOnly(ft: FileType, slug: string, nonce: nat)
    ensures IsWafFile(OverlayName(ft, slug)) <==> ft == WAF
    ensures !IsWafFile(TempName(OverlayName(ft, slug), nonce))
  {
    TempIsNotConf(OverlayName(ft, slug), nonce);
    OverlayIsConf(ft, slug);
    var name := OverlayName(ft, slug);
    assert name[0] == TypeName(ft)[0];
    if ft == WAF {
      assert name[..4] == "waf-";
    }
  }

  /** The readable sites of the WAF files of a directory, whatever the listing order. */
  method Scan(dir: Dir) returns (sites: seq<Site>)
    ensures forall site :: site in sites <==> exists n :: n in dir && IsWafFile(n) && ParsedSite(dir[n]) == Some(site)
  {
    sites := [];
    var todo := dir.Keys;
    while todo != {}
      invariant todo <= dir.Keys
      invariant forall site :: site in sites <==>
                                exists n :: n in dir && n !in todo && IsWafFile(n) && ParsedSite(dir[n]) == Some(site)
    {
      var n :| n in todo;
      ghost var before := sites;
      if IsWafFile(n) {
        var site := ParseSiteHeader(dir[n]);
        if site.Some? {
          sites := sites + [site.value];
        }
      }
      todo := todo - {n};
      forall site
        ensures site in sites <==>
                exists m :: m in dir && m !in todo && IsWafFile(m) && ParsedSite(dir[m]) == Some(site)
      {
        assert site in sites <==> site in before || (IsWafFile(n) && ParsedSite(dir[n]) == Some(site));
      }
    }
  }
}
