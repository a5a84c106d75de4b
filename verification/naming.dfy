/** Names on disk: the slug of a domain, the overlay and temporary file names, and the
    snapshot names `{timestamp}.{type}.conf` (internal/domain/slug.go,
    internal/files/naming.go, internal/files/backup.go). */
module Naming {
  import opened Text

  datatype FileType = WAF | Exclusions | IPRules

  function TypeName(ft: FileType): string {
    match ft
    case WAF => "waf"
    case Exclusions => "exclusions"
    case IPRules => "ip-rules"
  }

  // ------------------------------------------------------------------------- slugs

  function ToLower(c: char): char {
    if IsUpper(c) then c - 'A' + 'a' else c
  }

  function Lower(s: string): (l: string)
    ensures |l| == |s|
  {
    if s == [] then [] else [ToLower(s[0])] + Lower(s[1..])
  }

  lemma {:induction false} LowerAt(s: string)
    ensures forall i :: 0 <= i < |s| ==> Lower(s)[i] == ToLower(s[i])
  {
    if s != [] {
      LowerAt(s[1..]);
    }
  }

  /** The same letter, whatever its case, or the same character. */
  ghost predicate SameLetter(a: char, b: char) {
    || a == b
    || ('A' <= a <= 'Z' && b as int == a as int + 32)
    || ('A' <= b <= 'Z' && a as int == b as int + 32)
  }

  ghost predicate SameLetters(a: string, b: string) {
    |a| == |b| && forall i :: 0 <= i < |a| ==> SameLetter(a[i], b[i])
  }

  lemma LowerSameIff(a: string, b: string)
    ensures Lower(a) == Lower(b) <==> SameLetters(a, b)
  {
    LowerAt(a);
    LowerAt(b);
    assert forall x: char, y: char :: ToLower(x) == ToLower(y) <==> SameLetter(x, y);
    if |a| == |b| && SameLetters(a, b) {
      assert forall i :: 0 <= i < |a| ==> Lower(a)[i] == Lower(b)[i];
    }
    if Lower(a) == Lower(b) {
      forall i | 0 <= i < |a|
        ensures SameLetter(a[i], b[i])
      {
        assert Lower(a)[i] == Lower(b)[i];
      }
    }
  }

  function SlugPiece(c: char): string {
    var l := ToLower(c);
    if l == '*' then "wildcard"
    else if IsLower(l) || IsDigit(l) then [l]
    else "_"
  }

  function DomainSlug(domain: string): string {
    if domain == [] then []
    else DomainSlug(domain[..|domain| - 1]) + SlugPiece(domain[|domain| - 1])
  }

  /** The replacements on the lowered name, before the byte loop. */
  function Legacy(domain: string): string {
    if domain == [] then []
    else
      var l := ToLower(domain[|domain| - 1]);
      Legacy(domain[..|domain| - 1]) + if l == '*' then "wildcard" else if l == '.' || l == '-' then "_" else [l]
  }

  function Sanitized(c: char): char {
    if IsLower(c) || IsDigit(c) then c else '_'
  }

  lemma {:induction false} SlugIsSanitizedLegacy(domain: string)
    ensures |DomainSlug(domain)| == |Legacy(domain)|
    ensures forall i :: 0 <= i < |Legacy(domain)| ==> DomainSlug(domain)[i] == Sanitized(Legacy(domain)[i])
  {
    if domain != [] {
      SlugIsSanitizedLegacy(domain[..|domain| - 1]);
    }
  }

  /** The byte loop over the replaced name. */
  method MakeSlug(domain: string) returns (slug: string)
    ensures slug == DomainSlug(domain)
  {
    var legacy := Legacy(domain);
    slug := "";
    for i := 0 to |legacy|
      invariant |slug| == i
      invariant forall j :: 0 <= j < i ==> slug[j] == Sanitized(legacy[j])
    {
      var c := legacy[i];
      if !(IsLower(c) || IsDigit(c)) {
        c := '_';
      }
      slug := slug + [c];
    }
    SlugIsSanitizedLegacy(domain);
  }

  predicate IsSlugChar(c: char) { IsLower(c) || IsDigit(c) || c == '_' }

  /** No separator, dot, quote or newline of a domain survives into a path. */
  lemma {:induction false} SlugIsSafe(domain: string)
    ensures All(IsSlugChar, DomainSlug(domain))
    ensures DomainSlug(domain) == "" <==> domain == ""
  {
    if domain != [] {
      SlugIsSafe(domain[..|domain| - 1]);
      var front, piece := DomainSlug(domain[..|domain| - 1]), SlugPiece(domain[|domain| - 1]);
      assert All(IsSlugChar, piece);
    }
  }

  /** The domain with every star spelled out. */
  function Unstarred(domain: string): string {
    if domain == [] then []
    else
      var c := domain[|domain| - 1];
      Unstarred(domain[..|domain| - 1]) + if c == '*' then "wildcard" else [c]
  }

  /** The slug cannot tell the two characters apart. */
  predicate SlugAlike(x: char, y: char) {
    ToLower(x) == ToLower(y) || (!IsAlnum(x) && !IsAlnum(y))
  }

  lemma {:induction false} SlugAt(domain: string)
    ensures |DomainSlug(domain)| == |Unstarred(domain)|
    ensures forall i :: 0 <= i < |Unstarred(domain)| ==>
            DomainSlug(domain)[i] == Sanitized(ToLower(Unstarred(domain)[i]))
  {
    if domain != [] {
      SlugAt(domain[..|domain| - 1]);
    }
  }

  lemma SanitizedAlike(x: char, y: char)
    ensures Sanitized(ToLower(x)) == Sanitized(ToLower(y)) <==> SlugAlike(x, y)
  {
  }

  /** Exactly which domains own the same files: those that, stars spelled out, differ
      only in case and in which characters stand where neither has a letter or digit. */
  lemma SlugsCollideIff(a: string, b: string)
    ensures
      var x, y := Unstarred(a), Unstarred(b);
      DomainSlug(a) == DomainSlug(b) <==> |x| == |y| && forall i :: 0 <= i < |x| ==> SlugAlike(x[i], y[i])
  {
    SlugAt(a);
    SlugAt(b);
    var x, y := Unstarred(a), Unstarred(b);
    if |x| == |y| {
      forall i | 0 <= i < |x|
        ensures DomainSlug(a)[i] == DomainSlug(b)[i] <==> SlugAlike(x[i], y[i])
      {
        SanitizedAlike(x[i], y[i]);
      }
    }
  }

  lemma {:induction false} UnstarredConcat(a: string, b: string)
    ensures Unstarred(a + b) == Unstarred(a) + Unstarred(b)
  {
    if b == [] {
      assert a + b == a;
    } else {
      var front := b[..|b| - 1];
      assert (a + b)[..|a + b| - 1] == a + front;
      UnstarredConcat(a, front);
    }
  }

  lemma UnstarredAround(before: string, c: char, after: string)
    requires c != '*'
    ensures Unstarred(before + ([c] + after)) == Unstarred(before) + ([c] + Unstarred(after))
  {
    UnstarredConcat(before, [c] + after);
    UnstarredConcat([c], after);
    assert [c][..0] == [];
  }

  lemma AlikeAround(before: string, c: char, d: char, after: string)
    requires SlugAlike(c, d)
    ensures
      var x, y := before + ([c] + after), before + ([d] + after);
      |x| == |y| && forall i :: 0 <= i < |x| ==> SlugAlike(x[i], y[i])
  {
  }

  /** Different domains can own the same files: `a-b.com` and `a.b.com`, and every other
      pair that differs in a hyphen for a dot. */
  lemma SlugsCanCollide(before: string, after: string)
    ensures DomainSlug(before + (['-'] + after)) == DomainSlug(before + (['.'] + after))
  {
    UnstarredAround(before, '-', after);
    UnstarredAround(before, '.', after);
    AlikeAround(Unstarred(before), '-', '.', Unstarred(after));
    SlugsCollideIff(before + (['-'] + after), before + (['.'] + after));
  }

  // ----------------------------------------------------------------------- overlays

  /** The name that `Backup` composes from the type and the slug. */
  function OverlayName(ft: FileType, slug: string): string {
    TypeName(ft) + "-" + slug + ".conf"
  }

  /** The paths that the writers compose, one format string a type. */
  function OverlayPath(managedDir: string, ft: FileType, slug: string): string {
    match ft
    case WAF => managedDir + "/waf-" + slug + ".conf"
    case Exclusions => managedDir + "/exclusions-" + slug + ".conf"
    case IPRules => managedDir + "/ip-rules-" + slug + ".conf"
  }

  /** The chain writes the very file that `Backup` copies. */
  lemma WritersAndBackupAgree(managedDir: string, ft: FileType, slug: string)
    ensures OverlayPath(managedDir, ft, slug) == managedDir + "/" + OverlayName(ft, slug)
  {
    var t := TypeName(ft);
    RegroupPath(managedDir, t, slug);
    match ft {
      case WAF => assert "/" + "waf" + "-" == "/waf-";
      case Exclusions => assert "/" + "exclusions" + "-" == "/exclusions-";
      case IPRules => assert "/" + "ip-rules" + "-" == "/ip-rules-";
    }
  }

  lemma RegroupPath(dir: string, t: string, slug: string)
    ensures dir + "/" + (t + "-" + slug + ".conf") == dir + ("/" + t + "-") + slug + ".conf"
  {
  }

  predicate IsConf(name: string) {
    HasSuffix(name, ".conf")
  }

  lemma OverlayIsConf(ft: FileType, slug: string)
    ensures IsConf(OverlayName(ft, slug))
  {
  }

  /** Each overlay belongs to one type and one slug. */
  lemma OverlayNameInjective(a: FileType, s: string, b: FileType, t: string)
    requires OverlayName(a, s) == OverlayName(b, t)
    ensures a == b && s == t
  {
    var n, m := OverlayName(a, s), OverlayName(b, t);
    assert n[0] == TypeName(a)[0] && m[0] == TypeName(b)[0];
    var k := |TypeName(a)| + 1;
    assert n[k..|n| - 5] == s && m[k..|m| - 5] == t;
  }

  /** `CreateTemp` next to the target: the name, a marker and random digits. */
  function TempName(name: string, nonce: nat): string {
    name + ".tmp-" + Decimal(nonce)
  }

  lemma TempIsNotConf(name: string, nonce: nat)
    ensures !IsConf(TempName(name, nonce))
  {
    var t, d := TempName(name, nonce), Decimal(nonce);
    assert t[|t| - 1] == d[|d| - 1];
    if IsConf(t) {
      ConfEndsInF(t);
    }
  }

  lemma ConfEndsInF(name: string)
    requires IsConf(name)
    ensures name[|name| - 1] == 'f'
  {
    assert name[|name| - 5..][4] == ".conf"[4];
  }

  /** How many digits end a string. */
  function DigitTail(s: string): nat {
    if s != [] && IsDigit(s[|s| - 1]) then 1 + DigitTail(s[..|s| - 1]) else 0
  }

  lemma {:induction false} DigitTailOf(front: string, digits: string)
    requires All(IsDigit, digits)
    requires front != [] && !IsDigit(front[|front| - 1])
    ensures DigitTail(front + digits) == |digits|
  {
    var s := front + digits;
    if digits != [] {
      DigitTailOf(front, digits[..|digits| - 1]);
      assert s[..|s| - 1] == front + digits[..|digits| - 1];
    } else {
      assert s == front;
    }
  }

  lemma TempNameInjective(a: string, m: nat, b: string, n: nat)
    requires TempName(a, m) == TempName(b, n)
    ensures a == b
  {
    var s, t := TempName(a, m), TempName(b, n);
    DigitTailOf(a + ".tmp-", Decimal(m));
    DigitTailOf(b + ".tmp-", Decimal(n));
    assert |a| == |b|;
    assert s[..|a|] == a && t[..|b|] == b;
  }

  // ---------------------------------------------------------------------- snapshots

  /** A civil instant in UTC, to the second. */
  datatype Stamp = Stamp(year: nat, month: nat, day: nat, hour: nat, minute: nat, second: nat)
  {
    predicate InRange() {
      year < 10000 && month < 100 && day < 100 && hour < 100 && minute < 100 && second < 100
    }
  }

  predicate Earlier(a: Stamp, b: Stamp) {
    a.year < b.year || (a.year == b.year &&
    (a.month < b.month || (a.month == b.month &&
    (a.day < b.day || (a.day == b.day &&
    (a.hour < b.hour || (a.hour == b.hour &&
    (a.minute < b.minute || (a.minute == b.minute && a.second < b.second)))))))))
  }

  function DateText(t: Stamp): string
    requires t.InRange()
  {
    FourDigits(t.year) + ("-" + (TwoDigits(t.month) + ("-" + TwoDigits(t.day))))
  }

  function ClockText(t: Stamp, sep: string): string
    requires t.InRange()
  {
    TwoDigits(t.hour) + (sep + (TwoDigits(t.minute) + (sep + TwoDigits(t.second))))
  }

  /** ISO 8601 with hyphens for colons: 2006-01-02T15-04-05Z. */
  function StampText(t: Stamp): (s: string)
    requires t.InRange()
    ensures |s| == 20
  {
    DateText(t) + ("T" + (ClockText(t, "-") + "Z"))
  }

  lemma SameFieldThen(sep: string, a: string, b: string)
    ensures Less(sep + a, sep + b) <==> Less(a, b)
    ensures sep + a == sep + b <==> a == b
  {
    LessByFields(sep, a, sep, b);
    LessTotal(sep, sep);
    assert (sep + a)[|sep|..] == a && (sep + b)[|sep|..] == b;
  }

  /** Two-digit field first, then a separator, then the rest. */
  lemma FieldThen(x: nat, a: string, y: nat, b: string, sep: string)
    requires x < 100 && y < 100
    ensures Less(TwoDigits(x) + (sep + a), TwoDigits(y) + (sep + b)) <==> x < y || (x == y && Less(a, b))
    ensures TwoDigits(x) + (sep + a) == TwoDigits(y) + (sep + b) <==> x == y && a == b
  {
    LessByFields(TwoDigits(x), sep + a, TwoDigits(y), sep + b);
    TwoDigitsOrder(x, y);
    SameFieldThen(sep, a, b);
    var s, t := TwoDigits(x) + (sep + a), TwoDigits(y) + (sep + b);
    assert s[..2] == TwoDigits(x) && t[..2] == TwoDigits(y);
    assert s[2..] == sep + a && t[2..] == sep + b;
  }

  lemma DateOrder(a: Stamp, b: Stamp)
    requires a.InRange() && b.InRange()
    ensures Less(DateText(a), DateText(b)) <==>
            a.year < b.year || (a.year == b.year && (a.month < b.month || (a.month == b.month && a.day < b.day)))
    ensures DateText(a) == DateText(b) <==> a.year == b.year && a.month == b.month && a.day == b.day
  {
    var x := TwoDigits(a.month) + ("-" + TwoDigits(a.day));
    var y := TwoDigits(b.month) + ("-" + TwoDigits(b.day));
    FieldThen(a.month, TwoDigits(a.day), b.month, TwoDigits(b.day), "-");
    TwoDigitsOrder(a.day, b.day);
    SameFieldThen("-", x, y);
    LessByFields(FourDigits(a.year), "-" + x, FourDigits(b.year), "-" + y);
    FourDigitsOrder(a.year, b.year);
    assert DateText(a)[..4] == FourDigits(a.year) && DateText(b)[..4] == FourDigits(b.year);
    assert DateText(a)[4..] == "-" + x && DateText(b)[4..] == "-" + y;
  }

  lemma ClockOrder(a: Stamp, b: Stamp, sep: string)
    requires a.InRange() && b.InRange()
    ensures Less(ClockText(a, sep), ClockText(b, sep)) <==>
            || a.hour < b.hour
            || (a.hour == b.hour && (a.minute < b.minute || (a.minute == b.minute && a.second < b.second)))
    ensures ClockText(a, sep) == ClockText(b, sep) <==> a.hour == b.hour && a.minute == b.minute && a.second == b.second
  {
    var x := TwoDigits(a.minute) + (sep + TwoDigits(a.second));
    var y := TwoDigits(b.minute) + (sep + TwoDigits(b.second));
    FieldThen(a.minute, TwoDigits(a.second), b.minute, TwoDigits(b.second), sep);
    TwoDigitsOrder(a.second, b.second);
    FieldThen(a.hour, x, b.hour, y, sep);
  }

  /** The alphabetical order of timestamps is the chronological one. */
  lemma TextOrderIsTimeOrder(a: Stamp, b: Stamp)
    requires a.InRange() && b.InRange()
    ensures Less(StampText(a), StampText(b)) <==> Earlier(a, b)
    ensures StampText(a) == StampText(b) <==> a == b
  {
    var x, y := ClockText(a, "-") + "Z", ClockText(b, "-") + "Z";
    DateOrder(a, b);
    ClockOrder(a, b, "-");
    LessByFields(ClockText(a, "-"), "Z", ClockText(b, "-"), "Z");
    LessTotal("Z", "Z");
    SameFieldThen("T", x, y);
    LessByFields(DateText(a), "T" + x, DateText(b), "T" + y);
    assert StampText(a)[..10] == DateText(a) && StampText(b)[..10] == DateText(b);
    assert StampText(a)[10..] == "T" + x && StampText(b)[10..] == "T" + y;
    assert x[..8] == ClockText(a, "-") && y[..8] == ClockText(b, "-");
  }

  predicate IsStampText(s: string) {
    && |s| == 20
    && IsDigit(s[0]) && IsDigit(s[1]) && IsDigit(s[2]) && IsDigit(s[3]) && s[4] == '-'
    && IsDigit(s[5]) && IsDigit(s[6]) && s[7] == '-' && IsDigit(s[8]) && IsDigit(s[9]) && s[10] == 'T'
    && IsDigit(s[11]) && IsDigit(s[12]) && s[13] == '-' && IsDigit(s[14]) && IsDigit(s[15]) && s[16] == '-'
    && IsDigit(s[17]) && IsDigit(s[18]) && s[19] == 'Z'
  }

  function Ending(ft: FileType): string {
    "." + TypeName(ft) + ".conf"
  }

  function SnapshotName(stamp: string, ft: FileType): string {
    stamp + Ending(ft)
  }

  /** The type of a snapshot with a canonical name; everything else is refused. */
  function BackupType(name: string): Option<FileType> {
    if |name| < 20 || !IsStampText(name[..20]) then None
    else if name[20..] == Ending(WAF) then Some(WAF)
    else if name[20..] == Ending(Exclusions) then Some(Exclusions)
    else if name[20..] == Ending(IPRules) then Some(IPRules)
    else None
  }

  /** Exactly the names composed of a timestamp and a type are canonical. */
  lemma BackupTypeIff(name: string, ft: FileType)
    ensures BackupType(name) == Some(ft) <==> exists stamp :: IsStampText(stamp) && name == SnapshotName(stamp, ft)
  {
    assert |Ending(WAF)| == 9 && |Ending(Exclusions)| == 16 && |Ending(IPRules)| == 14;
    if BackupType(name) == Some(ft) {
      assert name == SnapshotName(name[..20], ft);
    }
    forall stamp | IsStampText(stamp) && name == SnapshotName(stamp, ft)
      ensures BackupType(name) == Some(ft)
    {
      assert name[..20] == stamp && name[20..] == Ending(ft);
    }
  }

  lemma StampTextIsCanonical(t: Stamp)
    requires t.InRange()
    ensures IsStampText(StampText(t))
  {
    var s, d, c := StampText(t), DateText(t), ClockText(t, "-");
    assert s[..10] == d && s[11..19] == c;
  }

  /** A snapshot named after a later second sorts after the earlier ones of its type. */
  lemma LaterSnapshotSortsLast(a: Stamp, b: Stamp, ft: FileType)
    requires a.InRange() && b.InRange()
    ensures Less(SnapshotName(StampText(a), ft), SnapshotName(StampText(b), ft)) <==> Earlier(a, b)
  {
    LessByFields(StampText(a), Ending(ft), StampText(b), Ending(ft));
    TextOrderIsTimeOrder(a, b);
    LessTotal(Ending(ft), Ending(ft));
  }
}
