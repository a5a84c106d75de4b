/** The IP rules overlay: normalised deny and allow lists, the printer
    (internal/iprules/rules.go) and the parser that must undo it (internal/ui/overlay.go). */
module IPRuleLists {
  import opened Text
  import opened Naming
  import opened Headers
  import opened Blocks
  import opened ExclusionRules

  datatype Rules = Rules(allow: seq<string>, deny: seq<string>)

  // ---------------------------------------------------------------- normalising a list

  /** Every entry through `norm`, or None if one is refused. */
  function Mapped(norm: string -> Option<string>, entries: seq<string>): (list: Option<seq<string>>)
    ensures list.Some? ==> |list.value| == |entries|
  {
    if entries == [] then Some([])
    else
      match (Mapped(norm, entries[..|entries| - 1]), norm(entries[|entries| - 1]))
      case (Some(front), Some(last)) => Some(front + [last])
      case _ => None
  }

  lemma {:induction false} MappedAt(norm: string -> Option<string>, entries: seq<string>)
    ensures Mapped(norm, entries).Some? <==> forall i :: 0 <= i < |entries| ==> norm(entries[i]).Some?
    ensures Mapped(norm, entries).Some? ==>
              forall i :: 0 <= i < |entries| ==> norm(entries[i]) == Some(Mapped(norm, entries).value[i])
  {
    if entries != [] {
      MappedAt(norm, entries[..|entries| - 1]);
    }
  }

  lemma {:induction false} MappedFixed(norm: string -> Option<string>, entries: seq<string>)
    requires forall i :: 0 <= i < |entries| ==> norm(entries[i]) == Some(entries[i])
    ensures Mapped(norm, entries) == Some(entries)
  {
    if entries != [] {
      var front := entries[..|entries| - 1];
      MappedFixed(norm, front);
      assert entries == front + [entries[|entries| - 1]];
    }
  }

  lemma MappedSnoc(norm: string -> Option<string>, entries: seq<string>, entry: string)
    ensures Mapped(norm, entries + [entry]) ==
            match (Mapped(norm, entries), norm(entry))
            case (Some(front), Some(last)) => Some(front + [last])
            case _ => None
  {
    assert (entries + [entry])[..|entries|] == entries;
  }

  function NormalizeAll(entries: seq<string>): Option<seq<string>> {
    Mapped(NormalizeEntry, entries)
  }

  /** The loop over a list, stopping at the first entry refused. */
  method MapEntries(norm: string -> Option<string>, entries: seq<string>) returns (normalized: Option<seq<string>>)
    ensures normalized == Mapped(norm, entries)
  {
    var list: seq<string> := [];
    for i := 0 to |entries|
      invariant Mapped(norm, entries[..i]) == Some(list)
    {
      assert entries[..i + 1][..i] == entries[..i];
      var entry := norm(entries[i]);
      if entry.None? {
        MappedAt(norm, entries);
        return None;
      }
      list := list + [entry.value];
    }
    assert entries[..|entries|] == entries;
    return Some(list);
  }

  /** A normalised list is its own normal form. */
  lemma NormalizedListIsFixed(entries: seq<string>)
    requires NormalizeAll(entries).Some?
    ensures NormalizeAll(NormalizeAll(entries).value) == NormalizeAll(entries)
  {
    var norm, list := NormalizeEntry, NormalizeAll(entries).value;
    MappedAt(norm, entries);
    forall i | 0 <= i < |list|
      ensures norm(list[i]) == Some(list[i])
    {
      NormalizedIsFixed(entries[i]);
    }
    MappedFixed(norm, list);
  }

  /** One entry more is normalised on its own, after the others. */
  lemma NormalizeSnoc(entries: seq<string>, entry: string)
    ensures NormalizeAll(entries + [entry]) ==
            match (NormalizeAll(entries), NormalizeEntry(entry))
            case (Some(front), Some(last)) => Some(front + [last])
            case _ => None
  {
    MappedSnoc(NormalizeEntry, entries, entry);
  }

  // ----------------------------------------------------------------------- the printer

  function Spaced(words: seq<string>): string {
    Joined(words, ' ')
  }

  function Matcher(action: string, slug: string): string {
    "@ip_" + action + slug
  }

  /** A matcher block, and what follows it. */
  function Block(title: string, action: string, slug: string, directive: string, words: seq<string>, rest: string)
    : string
  {
    title + "\n" +
    (Matcher(action, slug) + " {" + "\n" +
    (directive + Spaced(words) + "\n" +
    ("}" + "\n" +
    ("abort " + Matcher(action, slug) + "\n" + rest))))
  }

  const DENY_TITLE := "# Denylist"
  const ALLOW_TITLE := "# Allowlist (if set, all other IPs are denied)"
  const INDENT := "    "
  const DENY_KEYWORD := "remote_ip"
  const ALLOW_KEYWORD := "not remote_ip"

  function Directive(keyword: string): string {
    INDENT + (keyword + " ")
  }
  const NO_RULES := "# No IP rules configured for this domain."

  function DenyBlock(slug: string, deny: seq<string>, rest: string): string {
    if deny == [] then rest else Block(DENY_TITLE, "deny_", slug, Directive(DENY_KEYWORD), deny, rest)
  }

  function AllowBlock(slug: string, allow: seq<string>, rest: string): string {
    if allow == [] then rest else "" + "\n" + Block(ALLOW_TITLE, "allow_", slug, Directive(ALLOW_KEYWORD), allow, rest)
  }

  function Ending(rules: Rules): string {
    if rules.deny == [] && rules.allow == [] then NO_RULES + "\n" + "\n" else "\n"
  }

  function RulesBody(slug: string, rules: Rules): string {
    DenyBlock(slug, rules.deny, AllowBlock(slug, rules.allow, Ending(rules)))
  }

  /** The overlay for normalised lists. */
  function RulesText(domain: string, rules: Rules, now: Stamp): string
    requires now.InRange()
  {
    MANAGED_LINE + "\n" + (Header(domain, "", now) + "\n" + ("" + "\n" + RulesBody(DomainSlug(domain), rules)))
  }

  function NormalizeRules(rules: Rules): Option<Rules> {
    match (NormalizeAll(rules.deny), NormalizeAll(rules.allow))
    case (Some(deny), Some(allow)) => Some(Rules(allow, deny))
    case _ => None
  }

  method GenerateSnippet(domain: string, rules: Rules, now: Stamp) returns (text: Option<string>)
    requires now.InRange()
    ensures text ==
            match NormalizeRules(rules)
            case Some(normal) => Some(RulesText(domain, normal, now))
            case None => None
  {
    var deny := MapEntries(NormalizeEntry, rules.deny);
    if deny.None? {
      return None;
    }
    var allow := MapEntries(NormalizeEntry, rules.allow);
    if allow.None? {
      return None;
    }
    var slug := MakeSlug(domain);
    return Some(MANAGED_LINE + "\n" + (Header(domain, "", now) + "\n" +
                                       ("" + "\n" + RulesBody(slug, Rules(allow.value, deny.value)))));
  }

  // ------------------------------------------------------------------------ the parser

  /** The words between runs of white space. */
  function Fields(s: string): seq<string>
    decreases |s|
  {
    var t := TrimLeft(s);
    if t == "" then []
    else
      var n := Span(c => !IsSpace(c), t);
      if n == 0 then [] else [t[..n]] + Fields(t[n..])
  }

  /** What a gap and at least one more character capture: the gap is taken as long as it can be
      while something is left. */
  function AfterGap(s: string): Option<string> {
    var n := Span(IsGap, s);
    if n == 0 then None
    else if n < |s| then Some(s[n..])
    else if n >= 2 then Some(s[n - 1..])
    else None
  }

  function Capture(line: string, keyword: string): Option<string> {
    match Literal(line[Span(IsGap, line)..], keyword) case None => None case Some(rest) => AfterGap(rest)
  }

  function CapturedWords(line: string, keyword: string): seq<string> {
    match Capture(line, keyword) case Some(words) => Fields(words) case None => []
  }

  function ReadLine(rules: Rules, line: string): Rules {
    Rules(rules.allow + CapturedWords(line, ALLOW_KEYWORD), rules.deny + CapturedWords(line, DENY_KEYWORD))
  }

  function ReadLines(rules: Rules, lines: seq<string>): Rules
    decreases |lines|
  {
    if lines == [] then rules else ReadLines(ReadLine(rules, lines[0]), lines[1..])
  }

  function ParsedRules(content: string): Rules {
    ReadLines(Rules([], []), Split(content, '\n'))
  }

  method ParseIPRulesOverlay(content: string) returns (rules: Rules)
    ensures rules == ParsedRules(content)
  {
    var lines := Split(content, '\n');
    rules := Rules([], []);
    for i := 0 to |lines|
      invariant ReadLines(rules, lines[i..]) == ReadLines(Rules([], []), lines)
    {
      assert lines[i..][1..] == lines[i + 1..];
      var denied := Capture(lines[i], DENY_KEYWORD);
      ghost var before := rules;
      if denied.Some? {
        rules := rules.(deny := rules.deny + Fields(denied.value));
      }
      var allowed := Capture(lines[i], ALLOW_KEYWORD);
      if allowed.Some? {
        rules := rules.(allow := rules.allow + Fields(allowed.value));
      }
      assert before.allow + [] == before.allow && before.deny + [] == before.deny;
      assert rules == ReadLine(before, lines[i]);
    }
  }

  // ------------------------------------------------------------ words there and back

  ghost predicate IsWord(s: string) {
    s != "" && forall i :: 0 <= i < |s| ==> !IsSpace(s[i])
  }

  ghost predicate AreWords(words: seq<string>) {
    forall i :: 0 <= i < |words| ==> IsWord(words[i])
  }

  lemma SpacedIsPlain(words: seq<string>)
    requires AreWords(words) && words != []
    ensures Spaced(words) != "" && !IsSpace(Spaced(words)[0]) && Without(Spaced(words), '\n')
  {
    if |words| > 1 {
      SpacedIsPlain(words[1..]);
    }
  }

  lemma FirstField(word: string, rest: string)
    requires IsWord(word)
    requires rest == "" || IsSpace(rest[0])
    ensures Fields(word + rest) == [word] + Fields(rest)
  {
    var s := word + rest;
    assert s[0] == word[0];
    assert TrimLeft(s) == s;
    SpanOf(c => !IsSpace(c), word, rest);
  }

  lemma FieldsSkipSpace(s: string)
    ensures Fields(" " + s) == Fields(s)
  {
    assert (" " + s)[1..] == s;
    assert Span(IsSpace, " " + s) == 1 + Span(IsSpace, s);
    assert TrimLeft(" " + s) == TrimLeft(s);
  }

  lemma FieldsOfMore(word: string, rest: string)
    requires IsWord(word)
    ensures Fields(word + (" " + rest)) == [word] + Fields(rest)
  {
    FirstField(word, " " + rest);
    FieldsSkipSpace(rest);
  }

  lemma FieldsOfOne(word: string)
    requires IsWord(word)
    ensures Fields(word) == [word]
  {
    assert word + "" == word;
    assert Fields("") == [];
    FirstField(word, "");
  }

  /** Splitting what was joined with spaces gives the words back. */
  lemma {:induction false} FieldsOfSpaced(words: seq<string>)
    requires AreWords(words)
    ensures Fields(Spaced(words)) == words
  {
    if |words| == 1 {
      FieldsOfOne(words[0]);
      assert words == [words[0]];
    } else if |words| > 1 {
      FieldsOfSpaced(words[1..]);
      FieldsOfMore(words[0], Spaced(words[1..]));
      assert words == [words[0]] + words[1..];
    }
  }

  /** Words with white space around and between them. */
  ghost predicate IsWeave(s: string, gaps: seq<string>, words: seq<string>) {
    && |gaps| == |words| + 1 && AreWords(words)
    && (forall i :: 0 <= i < |gaps| ==> All(IsSpace, gaps[i]))
    && (forall i :: 0 < i < |words| ==> gaps[i] != "")
    && s == Woven(gaps, words)
  }

  ghost function Woven(gaps: seq<string>, words: seq<string>): string
    requires |gaps| == |words| + 1
  {
    if words == [] then gaps[0] else gaps[0] + (words[0] + Woven(gaps[1..], words[1..]))
  }

  lemma FieldsOfSpace(s: string)
    requires All(IsSpace, s)
    ensures Fields(s) == []
  {
    assert TrimLeft(s) == "";
  }

  lemma FieldsAfterSpace(gap: string, rest: string)
    requires All(IsSpace, gap)
    ensures Fields(gap + rest) == Fields(rest)
  {
    SpanSkips(gap, rest);
  }

  lemma {:induction false} SpanSkips(gap: string, rest: string)
    requires All(IsSpace, gap)
    ensures TrimLeft(gap + rest) == TrimLeft(rest)
  {
    if gap == "" {
      assert gap + rest == rest;
    } else {
      SpanSkips(gap[1..], rest);
      assert (gap + rest)[1..] == gap[1..] + rest;
      assert Span(IsSpace, gap + rest) == 1 + Span(IsSpace, gap[1..] + rest);
    }
  }

  lemma WeaveRest(s: string, gaps: seq<string>, words: seq<string>)
    requires IsWeave(s, gaps, words) && words != []
    ensures
      var rest := Woven(gaps[1..], words[1..]);
      && s == gaps[0] + (words[0] + rest) && IsWeave(rest, gaps[1..], words[1..])
      && (words[1..] != [] ==> gaps[1] != "") && (rest != "" ==> IsSpace(rest[0]))
  {
    var rest := Woven(gaps[1..], words[1..]);
    if |words| > 1 {
      var more := words[1] + Woven(gaps[1..][1..], words[1..][1..]);
      assert rest == gaps[1] + more;
      assert IsSpace(gaps[1][0]);
    } else {
      assert rest == gaps[1];
    }
  }

  /** Woven words are found ... */
  lemma {:induction false} WovenAreFields(s: string, gaps: seq<string>, words: seq<string>)
    requires IsWeave(s, gaps, words)
    ensures Fields(s) == words
    decreases |words|
  {
    if words == [] {
      FieldsOfSpace(s);
    } else {
      var rest := Woven(gaps[1..], words[1..]);
      WeaveRest(s, gaps, words);
      WovenAreFields(rest, gaps[1..], words[1..]);
      FieldsAfterSpace(gaps[0], words[0] + rest);
      FirstField(words[0], rest);
      assert words == [words[0]] + words[1..];
    }
  }

  lemma LeadingSpace(s: string) returns (gap: string)
    requires !All(IsSpace, s)
    ensures s == gap + TrimLeft(s) && All(IsSpace, gap) && TrimLeft(s) != "" && !IsSpace(TrimLeft(s)[0])
  {
    TrimLeftIs(s);
    gap := s[..|s| - |TrimLeft(s)|];
    assert s[..|s|] == s;
  }

  lemma LeadingWord(s: string) returns (word: string, rest: string)
    requires TrimLeft(s) != "" && !IsSpace(TrimLeft(s)[0])
    ensures TrimLeft(s) == word + rest && IsWord(word) && Fields(s) == [word] + Fields(rest)
    ensures rest != "" ==> IsSpace(rest[0])
  {
    var t := TrimLeft(s);
    var n := Span(c => !IsSpace(c), t);
    word, rest := t[..n], t[n..];
  }

  lemma FirstWord(s: string) returns (gap: string, word: string, rest: string)
    requires !All(IsSpace, s)
    ensures s == gap + (word + rest) && All(IsSpace, gap) && IsWord(word)
    ensures Fields(s) == [word] + Fields(rest) && |rest| < |s|
    ensures rest != "" ==> IsSpace(rest[0])
  {
    gap := LeadingSpace(s);
    word, rest := LeadingWord(s);
  }

  lemma WeaveOneMore(gap: string, word: string, rest: string, gaps: seq<string>, words: seq<string>)
    requires IsWeave(rest, gaps, words) && All(IsSpace, gap) && IsWord(word)
    requires words != [] ==> gaps[0] != ""
    ensures IsWeave(gap + (word + rest), [gap] + gaps, [word] + words)
  {
    var gaps', words' := [gap] + gaps, [word] + words;
    assert gaps'[1..] == gaps && words'[1..] == words;
  }

  lemma WovenFirst(s: string, gap: string, word: string, rest: string, more: seq<string>)
    requires s == gap + (word + rest) && All(IsSpace, gap) && IsWord(word)
    requires IsWeave(rest, more, Fields(rest)) && Fields(s) == [word] + Fields(rest)
    requires rest != "" ==> more[0] != ""
    ensures IsWeave(s, [gap] + more, Fields(s))
    ensures s != "" && IsSpace(s[0]) ==> gap != ""
  {
    assert rest == "" ==> Fields(rest) == [];
    WeaveOneMore(gap, word, rest, more, Fields(rest));
    assert gap == "" ==> s[0] == word[0];
  }

  /** ... and what is found is woven into the text. */
  lemma {:induction false} FieldsAreWoven(s: string) returns (gaps: seq<string>)
    ensures IsWeave(s, gaps, Fields(s))
    ensures s != "" && IsSpace(s[0]) ==> gaps[0] != ""
    decreases |s|
  {
    if All(IsSpace, s) {
      FieldsOfSpace(s);
      gaps := [s];
    } else {
      var gap, word, rest := FirstWord(s);
      var more := FieldsAreWoven(rest);
      WovenFirst(s, gap, word, rest, more);
      gaps := [gap] + more;
    }
  }

  /** The words of a text are exactly those that stand in it with white space around them. */
  lemma FieldsIff(s: string, words: seq<string>)
    ensures Fields(s) == words <==> exists gaps :: IsWeave(s, gaps, words)
  {
    if Fields(s) == words {
      var gaps := FieldsAreWoven(s);
    }
    if gaps :| IsWeave(s, gaps, words) {
      WovenAreFields(s, gaps, words);
    }
  }

  // ---------------------------------------------------------------- lines there and back

  lemma CaptureNone(line: string, keyword: string, i: nat)
    requires line != "" && !IsGap(line[0])
    requires i < |line| && i < |keyword| && line[i] != keyword[i]
    ensures CapturedWords(line, keyword) == []
  {
    LiteralDiffers(line, keyword, i);
    assert line[0..] == line;
  }

  lemma CaptureEmpty(keyword: string)
    requires keyword != ""
    ensures CapturedWords("", keyword) == []
  {
  }

  /** A line whose first character is neither white space, 'r' nor 'n' holds no rule. */
  lemma OtherLineReads(rules: Rules, line: string)
    requires line != "" ==> !IsSpace(line[0]) && line[0] != 'r' && line[0] != 'n'
    ensures ReadLine(rules, line) == rules
  {
    assert DENY_KEYWORD[0] == 'r' && ALLOW_KEYWORD[0] == 'n';
    if line == "" {
      CaptureEmpty(DENY_KEYWORD);
      CaptureEmpty(ALLOW_KEYWORD);
    } else {
      CaptureNone(line, DENY_KEYWORD, 0);
      CaptureNone(line, ALLOW_KEYWORD, 0);
    }
  }

  lemma KeywordCaptures(indent: string, keyword: string, words: seq<string>)
    requires forall i :: 0 <= i < |indent| ==> indent[i] == ' '
    requires keyword != "" && !IsGap(keyword[0])
    requires AreWords(words) && words != []
    ensures CapturedWords(indent + (keyword + (" " + Spaced(words))), keyword) == words
  {
    var text := Spaced(words);
    SpacedIsPlain(words);
    SpanOf(IsGap, indent, keyword + (" " + text));
    LiteralThen(keyword, " " + text);
    SpanOf(IsGap, " ", text);
    FieldsOfSpaced(words);
  }

  lemma KeywordMisses(indent: string, keyword: string, other: string, rest: string)
    requires forall i :: 0 <= i < |indent| ==> indent[i] == ' '
    requires keyword != "" && other != "" && !IsGap(keyword[0]) && keyword[0] != other[0]
    ensures CapturedWords(indent + (keyword + rest), other) == []
  {
    SpanOf(IsGap, indent, keyword + rest);
    LiteralDiffers(keyword + rest, other, 0);
  }

  /** The words of a directive line are captured by its own keyword only. */
  lemma DirectiveReads(keyword: string, other: string, words: seq<string>)
    requires keyword != "" && other != "" && !IsGap(keyword[0]) && keyword[0] != other[0]
    requires AreWords(words) && words != []
    ensures CapturedWords(Directive(keyword) + Spaced(words), keyword) == words
    ensures CapturedWords(Directive(keyword) + Spaced(words), other) == []
  {
    var text := Spaced(words);
    assert Directive(keyword) + text == INDENT + (keyword + (" " + text));
    KeywordCaptures(INDENT, keyword, words);
    KeywordMisses(INDENT, keyword, other, " " + text);
  }

  lemma Keywords()
    ensures DENY_KEYWORD != "" && DENY_KEYWORD[0] == 'r'
    ensures ALLOW_KEYWORD != "" && ALLOW_KEYWORD[0] == 'n'
  {
  }

  // -------------------------------------------------------------- which lines are read

  /** A line that gives `text` under a keyword, however it is indented and spaced. */
  ghost predicate GivesText(line: string, keyword: string, indent: string, gap: string, text: string) {
    && (indent == "" || IsGaps(indent)) && IsGaps(gap) && text != ""
    && line == indent + (keyword + (gap + text))
  }

  lemma KeywordFound(line: string, keyword: string, indent: string, gap: string, text: string)
    requires keyword != "" && !IsGap(keyword[0]) && GivesText(line, keyword, indent, gap, text)
    ensures Literal(line[Span(IsGap, line)..], keyword) == Some(gap + text)
  {
    ClassesAre(indent);
    SpanOf(IsGap, indent, keyword + (gap + text));
    LiteralThen(keyword, gap + text);
  }

  lemma {:induction false} GapsBefore(gap: string, text: string)
    requires All(IsGap, gap)
    ensures Span(IsGap, gap + text) >= |gap|
  {
    if gap != "" {
      GapsBefore(gap[1..], text);
      assert (gap + text)[1..] == gap[1..] + text;
    }
  }

  /** However much of the gap is captured, the words are those of the text. */
  lemma GapIsSkipped(gap: string, text: string, from: nat)
    requires |gap| <= from <= |gap + text| && All(IsSpace, (gap + text)[..from])
    ensures Fields((gap + text)[from..]) == Fields(text)
  {
    var k := from - |gap|;
    assert (gap + text)[from..] == text[k..];
    assert text == text[..k] + text[k..];
    assert forall i :: 0 <= i < k ==> text[i] == (gap + text)[..from][|gap| + i];
    FieldsAfterSpace(text[..k], text[k..]);
  }

  lemma AfterGapFrom(s: string, g: nat) returns (from: nat)
    requires 0 < g < |s| && Span(IsGap, s) >= g
    ensures g <= from < |s| && AfterGap(s) == Some(s[from..]) && All(IsGap, s[..from])
  {
    var n := Span(IsGap, s);
    from := if n < |s| then n else n - 1;
    assert forall i :: 0 <= i < from ==> s[..n][i] == s[i];
  }

  lemma TextAfterGap(gap: string, text: string)
    requires gap != "" && All(IsGap, gap) && text != ""
    ensures AfterGap(gap + text).Some? && Fields(AfterGap(gap + text).value) == Fields(text)
  {
    GapsBefore(gap, text);
    var from := AfterGapFrom(gap + text, |gap|);
    GapIsSkipped(gap, text, from);
  }

  lemma AfterGapIs(s: string) returns (m: nat)
    requires AfterGap(s).Some?
    ensures 0 < m < |s| && All(IsGap, s[..m])
  {
    m := AfterGapFrom(s, 1);
  }

  lemma GivenTextIsCaptured(line: string, keyword: string, indent: string, gap: string, text: string)
    requires keyword != "" && !IsGap(keyword[0]) && GivesText(line, keyword, indent, gap, text)
    ensures Capture(line, keyword).Some? && CapturedWords(line, keyword) == Fields(text)
  {
    KeywordFound(line, keyword, indent, gap, text);
    ClassesAre(gap);
    TextAfterGap(gap, text);
  }

  lemma CapturedIsGiven(line: string, keyword: string) returns (indent: string, gap: string, text: string)
    requires Capture(line, keyword).Some?
    ensures GivesText(line, keyword, indent, gap, text)
  {
    var k := Span(IsGap, line);
    LiteralIs(line[k..], keyword);
    var rest := Literal(line[k..], keyword).value;
    var m := AfterGapIs(rest);
    indent, gap, text := line[..k], rest[..m], rest[m..];
    ClassesAre(indent);
    ClassesAre(gap);
    FourParts(line, k, keyword, rest, m);
  }

  lemma FourParts(line: string, k: nat, keyword: string, rest: string, m: nat)
    requires k <= |line| && line[k..] == keyword + rest && m <= |rest|
    ensures line == line[..k] + (keyword + (rest[..m] + rest[m..]))
  {
    assert rest == rest[..m] + rest[m..];
    assert line == line[..k] + line[k..];
  }

  /** Which lines give words under a keyword, and which words. */
  lemma CapturedWordsIff(line: string, keyword: string)
    requires keyword != "" && !IsGap(keyword[0])
    ensures forall indent, gap, text :: GivesText(line, keyword, indent, gap, text) ==>
                                          CapturedWords(line, keyword) == Fields(text)
    ensures (forall indent, gap, text :: !GivesText(line, keyword, indent, gap, text)) ==>
              CapturedWords(line, keyword) == []
  {
    forall indent, gap, text | GivesText(line, keyword, indent, gap, text)
      ensures CapturedWords(line, keyword) == Fields(text)
    {
      GivenTextIsCaptured(line, keyword, indent, gap, text);
    }
    if Capture(line, keyword).Some? {
      var indent, gap, text := CapturedIsGiven(line, keyword);
    }
  }

  /** The words that a line gives under a keyword. */
  ghost predicate GivesWords(line: string, keyword: string, words: seq<string>) {
    if exists indent, gap, text :: GivesText(line, keyword, indent, gap, text) then
      exists indent, gap, text, gaps :: GivesText(line, keyword, indent, gap, text) && IsWeave(text, gaps, words)
    else words == []
  }

  lemma CapturedAreGiven(line: string, keyword: string)
    requires keyword != "" && !IsGap(keyword[0])
    ensures GivesWords(line, keyword, CapturedWords(line, keyword))
  {
    CapturedWordsIff(line, keyword);
    if indent, gap, text :| GivesText(line, keyword, indent, gap, text) {
      var gaps := FieldsAreWoven(text);
      assert GivesText(line, keyword, indent, gap, text) && IsWeave(text, gaps, CapturedWords(line, keyword));
    }
  }

  ghost function Flat(lists: seq<seq<string>>): seq<string> {
    if lists == [] then [] else lists[0] + Flat(lists[1..])
  }

  ghost function WordsOf(lines: seq<string>, keyword: string): (lists: seq<seq<string>>)
    ensures |lists| == |lines|
  {
    seq(|lines|, i requires 0 <= i < |lines| => CapturedWords(lines[i], keyword))
  }

  /** What the lines give under a keyword, line by line. */
  ghost predicate Give(lines: seq<string>, keyword: string, lists: seq<seq<string>>) {
    |lists| == |lines| && forall i :: 0 <= i < |lines| ==> GivesWords(lines[i], keyword, lists[i])
  }

  lemma WordsAreGiven(lines: seq<string>, keyword: string)
    requires keyword != "" && !IsGap(keyword[0])
    ensures Give(lines, keyword, WordsOf(lines, keyword))
  {
    forall i | 0 <= i < |lines|
      ensures GivesWords(lines[i], keyword, WordsOf(lines, keyword)[i])
    {
      CapturedAreGiven(lines[i], keyword);
    }
  }

  lemma FlatCons(lines: seq<string>, keyword: string)
    requires lines != []
    ensures Flat(WordsOf(lines, keyword)) == CapturedWords(lines[0], keyword) + Flat(WordsOf(lines[1..], keyword))
  {
    assert WordsOf(lines, keyword)[1..] == WordsOf(lines[1..], keyword);
  }

  lemma AddsUp(a: seq<string>, b: seq<string>, c: seq<string>)
    ensures (a + b) + c == a + (b + c)
  {
  }

  lemma {:induction false} ReadLinesIs(rules: Rules, lines: seq<string>)
    ensures ReadLines(rules, lines) ==
            Rules(rules.allow + Flat(WordsOf(lines, ALLOW_KEYWORD)), rules.deny + Flat(WordsOf(lines, DENY_KEYWORD)))
    decreases |lines|
  {
    if lines == [] {
      assert rules.allow + [] == rules.allow && rules.deny + [] == rules.deny;
    } else {
      ReadLinesIs(ReadLine(rules, lines[0]), lines[1..]);
      FlatCons(lines, ALLOW_KEYWORD);
      FlatCons(lines, DENY_KEYWORD);
      AddsUp(rules.allow, CapturedWords(lines[0], ALLOW_KEYWORD), Flat(WordsOf(lines[1..], ALLOW_KEYWORD)));
      AddsUp(rules.deny, CapturedWords(lines[0], DENY_KEYWORD), Flat(WordsOf(lines[1..], DENY_KEYWORD)));
    }
  }

  /** What any overlay is read as, whoever wrote it: the words of its lines, list by list, in order. */
  lemma RulesAreRead(content: string)
    ensures
      var lines := Split(content, '\n');
      exists allowed, denied ::
        && Give(lines, "not remote_ip", allowed) && Give(lines, "remote_ip", denied)
        && ParsedRules(content) == Rules(Flat(allowed), Flat(denied))
  {
    var lines := Split(content, '\n');
    var allowed, denied := WordsOf(lines, ALLOW_KEYWORD), WordsOf(lines, DENY_KEYWORD);
    Keywords();
    ReadLinesIs(Rules([], []), lines);
    assert [] + Flat(allowed) == Flat(allowed) && [] + Flat(denied) == Flat(denied);
    WordsAreGiven(lines, ALLOW_KEYWORD);
    WordsAreGiven(lines, DENY_KEYWORD);
  }

  // ----------------------------------------------------------------- the whole overlay

  function ReadText(rules: Rules, content: string): Rules {
    ReadLines(rules, Split(content, '\n'))
  }

  lemma ReadPrepend(rules: Rules, line: string, rest: string)
    requires Without(line, '\n')
    ensures ReadText(rules, line + "\n" + rest) == ReadText(ReadLine(rules, line), rest)
  {
    SplitFirst(line, '\n', rest);
    var lines := [line] + Split(rest, '\n');
    assert lines[1..] == Split(rest, '\n');
  }

  lemma ReadPlainLine(rules: Rules, line: string, rest: string)
    requires Without(line, '\n')
    requires line != "" ==> !IsSpace(line[0]) && line[0] != 'r' && line[0] != 'n'
    ensures ReadText(rules, line + "\n" + rest) == ReadText(rules, rest)
  {
    ReadPrepend(rules, line, rest);
    OtherLineReads(rules, line);
  }

  lemma ReadCommentLine(rules: Rules, line: string, first: char, rest: string)
    requires line != "" && line[0] == first && first in {'#', '@', '}', 'a'} && Without(line, '\n')
    ensures ReadText(rules, line + "\n" + rest) == ReadText(rules, rest)
  {
    ReadPlainLine(rules, line, rest);
  }

  lemma MatcherIsPlain(action: string, slug: string)
    requires Without(action, '\n') && Without(slug, '\n')
    ensures
      var matcher := Matcher(action, slug);
      && (matcher + " {")[0] == '@' && Without(matcher + " {", '\n')
      && ("abort " + matcher)[0] == 'a' && Without("abort " + matcher, '\n')
  {
    var matcher := Matcher(action, slug);
    assert matcher[0] == "@ip_"[0] && ("abort " + matcher)[0] == "abort "[0];
    Join2("@ip_", action);
    Join2("@ip_" + action, slug);
    Join2(matcher, " {");
    Join2("abort ", matcher);
  }

  /** A block adds exactly what its directive line adds. */
  lemma ReadBlock(rules: Rules, rules': Rules, title: string, action: string, slug: string, directive: string,
                  words: seq<string>, rest: string)
    requires title != "" && title[0] == '#' && Without(title, '\n')
    requires Without(action, '\n') && Without(slug, '\n') && Without(directive, '\n')
    requires Without(directive + Spaced(words), '\n')
    requires ReadLine(rules, directive + Spaced(words)) == rules'
    ensures ReadText(rules, Block(title, action, slug, directive, words, rest)) == ReadText(rules', rest)
  {
    var matcher, line := Matcher(action, slug), directive + Spaced(words);
    MatcherIsPlain(action, slug);
    var e := "abort " + matcher + "\n" + rest;
    var d := "}" + "\n" + e;
    var c := line + "\n" + d;
    var b := matcher + " {" + "\n" + c;
    ReadCommentLine(rules, title, '#', b);
    ReadCommentLine(rules, matcher + " {", '@', c);
    ReadPrepend(rules, line, d);
    ReadCommentLine(rules', "}", '}', e);
    ReadCommentLine(rules', "abort " + matcher, 'a', rest);
  }

  lemma AllowTitlePieces()
    ensures ALLOW_TITLE == "# Allowlist (if" + " set, all other" + " IPs are denied)"
  {
  }

  lemma AllowTitleIsPlain()
    ensures ALLOW_TITLE != "" && ALLOW_TITLE[0] == '#' && Without(ALLOW_TITLE, '\n')
  {
    AllowTitlePieces();
    LineOfPieces(ALLOW_TITLE, "# Allowlist (if", " set, all other", " IPs are denied)");
  }

  lemma FixedTexts()
    ensures DENY_TITLE != "" && DENY_TITLE[0] == '#' && Without(DENY_TITLE, '\n')
    ensures ALLOW_TITLE != "" && ALLOW_TITLE[0] == '#' && Without(ALLOW_TITLE, '\n')
    ensures Without("deny_", '\n') && Without("allow_", '\n')
    ensures Without(Directive(DENY_KEYWORD), '\n') && Without(Directive(ALLOW_KEYWORD), '\n')
  {
    AllowTitleIsPlain();
  }

  lemma DenyLineStarts(words: seq<string>)
    requires AreWords(words) && words != []
    ensures ReadLine(Rules([], []), Directive(DENY_KEYWORD) + Spaced(words)) == Rules([], words)
    ensures Without(Directive(DENY_KEYWORD) + Spaced(words), '\n')
  {
    FixedTexts();
    Keywords();
    DirectiveReads(DENY_KEYWORD, ALLOW_KEYWORD, words);
    SpacedIsPlain(words);
    Join2(Directive(DENY_KEYWORD), Spaced(words));
  }

  lemma AllowLineFollows(deny: seq<string>, words: seq<string>)
    requires AreWords(words) && words != []
    ensures ReadLine(Rules([], deny), Directive(ALLOW_KEYWORD) + Spaced(words)) == Rules(words, deny)
    ensures Without(Directive(ALLOW_KEYWORD) + Spaced(words), '\n')
  {
    FixedTexts();
    Keywords();
    DirectiveReads(ALLOW_KEYWORD, DENY_KEYWORD, words);
    SpacedIsPlain(words);
    Join2(Directive(ALLOW_KEYWORD), Spaced(words));
  }

  lemma ReadDenyBlock(slug: string, deny: seq<string>, rest: string)
    requires Without(slug, '\n') && AreWords(deny)
    ensures ReadText(Rules([], []), DenyBlock(slug, deny, rest)) == ReadText(Rules([], deny), rest)
  {
    if deny != [] {
      FixedTexts();
      DenyLineStarts(deny);
      ReadBlock(Rules([], []), Rules([], deny), DENY_TITLE, "deny_", slug, Directive(DENY_KEYWORD), deny, rest);
    }
  }

  lemma ReadAllowBlock(slug: string, deny: seq<string>, allow: seq<string>, rest: string)
    requires Without(slug, '\n') && AreWords(allow)
    ensures ReadText(Rules([], deny), AllowBlock(slug, allow, rest)) == ReadText(Rules(allow, deny), rest)
  {
    if allow != [] {
      FixedTexts();
      AllowLineFollows(deny, allow);
      ReadPlainLine(Rules([], deny), "", Block(ALLOW_TITLE, "allow_", slug, Directive(ALLOW_KEYWORD), allow, rest));
      ReadBlock(Rules([], deny), Rules(allow, deny), ALLOW_TITLE, "allow_", slug, Directive(ALLOW_KEYWORD), allow,
                rest);
    }
  }

  lemma ReadEnd(rules: Rules)
    ensures ReadText(rules, "\n") == rules
    ensures ReadText(rules, NO_RULES + "\n" + "\n") == rules
  {
    SplitOnly("", '\n');
    OtherLineReads(rules, "");
    assert [""][1..] == [];
    assert ReadText(rules, "") == rules;
    ReadPlainLine(rules, "", "");
    assert "" + "\n" + "" == "\n";
    assert |NO_RULES| > 0 && NO_RULES[0] == '#' && Without(NO_RULES, '\n');
    ReadCommentLine(rules, NO_RULES, '#', "\n");
  }

  lemma SlugIsOneLine(domain: string)
    ensures Without(DomainSlug(domain), '\n')
  {
    SlugIsSafe(domain);
  }

  /** The parser undoes the printer: normalised lists come back exactly, each in its own
      place and order. */
  lemma RulesRoundTrip(domain: string, rules: Rules, now: Stamp)
    requires ValidDomain(domain) && Civil(now)
    requires AreWords(rules.deny) && AreWords(rules.allow)
    ensures ParsedRules(RulesText(domain, rules, now)) == rules
  {
    var slug, header, start := DomainSlug(domain), Header(domain, "", now), Rules([], []);
    SlugIsOneLine(domain);
    HeaderIsOneLine(domain, "", now);
    ManagedLineIsNoHeader();
    assert header[0] == HEADER_PREFIX[0] == '#';
    ReadCommentLine(start, MANAGED_LINE, '#', header + "\n" + ("" + "\n" + RulesBody(slug, rules)));
    ReadCommentLine(start, header, '#', "" + "\n" + RulesBody(slug, rules));
    ReadPlainLine(start, "", RulesBody(slug, rules));
    ReadDenyBlock(slug, rules.deny, AllowBlock(slug, rules.allow, Ending(rules)));
    ReadAllowBlock(slug, rules.deny, rules.allow, Ending(rules));
    ReadEnd(rules);
  }

  lemma NormalizedIsWord(entry: string)
    requires NormalizeEntry(entry).Some?
    ensures IsWord(NormalizeEntry(entry).value)
  {
    NormalizedIsOneWord(entry);
    var word := NormalizeEntry(entry).value;
    assert forall i :: 0 <= i < |word| ==> IsBlockChar(word[i]);
  }

  lemma NormalizedAreWords(entries: seq<string>)
    requires NormalizeAll(entries).Some?
    ensures AreWords(NormalizeAll(entries).value)
  {
    var norm, list := NormalizeEntry, NormalizeAll(entries).value;
    MappedAt(norm, entries);
    forall i | 0 <= i < |list|
      ensures IsWord(list[i])
    {
      assert norm(entries[i]) == Some(list[i]);
      NormalizedIsWord(entries[i]);
    }
  }

  /** Whatever was asked for, what a generated overlay parses to is its normal form. */
  lemma GeneratedRulesParse(domain: string, rules: Rules, now: Stamp)
    requires ValidDomain(domain) && Civil(now)
    requires NormalizeRules(rules).Some?
    ensures ParsedRules(RulesText(domain, NormalizeRules(rules).value, now)) == NormalizeRules(rules).value
  {
    NormalizedAreWords(rules.deny);
    NormalizedAreWords(rules.allow);
    RulesRoundTrip(domain, NormalizeRules(rules).value, now);
  }

  // ------------------------------------------------------------------ the text, literally

  /** The lines that refuse the listed addresses ... */
  ghost function DenyLines(slug: string, deny: seq<string>): seq<string> {
    if deny == [] then [] else
      ["# Denylist", "@ip_deny_" + slug + " {", "    remote_ip " + Joined(deny, ' '), "}", "abort @ip_deny_" + slug]
  }

  /** ... and those that refuse all but the listed ones. */
  ghost function AllowLines(slug: string, allow: seq<string>): seq<string> {
    if allow == [] then [] else
      ["", "# Allowlist (if set, all other IPs are denied)", "@ip_allow_" + slug + " {",
       "    not remote_ip " + Joined(allow, ' '), "}", "abort @ip_allow_" + slug]
  }

  ghost function EndLines(rules: Rules): seq<string> {
    if rules == Rules([], []) then ["# No IP rules configured for this domain.", "", ""] else ["", ""]
  }

  lemma SplitBlock(title: string, action: string, slug: string, directive: string, words: seq<string>, rest: string)
    requires Without(title, '\n') && Without(action, '\n') && Without(slug, '\n')
    requires Without(directive + Spaced(words), '\n')
    ensures Split(Block(title, action, slug, directive, words, rest), '\n') ==
            [title, Matcher(action, slug) + " {", directive + Spaced(words), "}", "abort " + Matcher(action, slug)] +
            Split(rest, '\n')
  {
    var matcher, line := Matcher(action, slug), directive + Spaced(words);
    MatcherIsPlain(action, slug);
    var e := "abort " + matcher + "\n" + rest;
    var d := "}" + "\n" + e;
    var c := line + "\n" + d;
    SplitFirst("abort " + matcher, '\n', rest);
    SplitFirst("}", '\n', e);
    SplitFirst(line, '\n', d);
    SplitFirst(matcher + " {", '\n', c);
    SplitFirst(title, '\n', matcher + " {" + "\n" + c);
    FiveMore(title, matcher + " {", line, "}", "abort " + matcher, Split(rest, '\n'));
  }

  lemma FiveMore(a: string, b: string, c: string, d: string, e: string, rest: seq<string>)
    ensures [a] + ([b] + ([c] + ([d] + ([e] + rest)))) == [a, b, c, d, e] + rest
  {
  }

  lemma MatcherTexts(slug: string)
    ensures Matcher("deny_", slug) == "@ip_deny_" + slug && Matcher("allow_", slug) == "@ip_allow_" + slug
    ensures "abort " + Matcher("deny_", slug) == "abort @ip_deny_" + slug
    ensures "abort " + Matcher("allow_", slug) == "abort @ip_allow_" + slug
  {
    assert "@ip_" + "deny_" == "@ip_deny_" && "@ip_" + "allow_" == "@ip_allow_";
    assert "abort " + "@ip_deny_" == "abort @ip_deny_" && "abort " + "@ip_allow_" == "abort @ip_allow_";
    Regroup("abort ", "@ip_deny_", slug);
    Regroup("abort ", "@ip_allow_", slug);
  }

  lemma DirectiveTexts()
    ensures Directive(DENY_KEYWORD) == "    remote_ip " && Directive(ALLOW_KEYWORD) == "    not remote_ip "
  {
  }

  lemma SplitDeny(slug: string, deny: seq<string>, rest: string)
    requires Without(slug, '\n') && AreWords(deny)
    ensures Split(DenyBlock(slug, deny, rest), '\n') == DenyLines(slug, deny) + Split(rest, '\n')
  {
    if deny != [] {
      FixedTexts();
      DenyLineStarts(deny);
      MatcherTexts(slug);
      DirectiveTexts();
      SplitBlock(DENY_TITLE, "deny_", slug, Directive(DENY_KEYWORD), deny, rest);
    }
  }

  lemma AllowTitleText()
    ensures ALLOW_TITLE == "# Allowlist (if set, all other IPs are denied)"
  {
  }

  lemma AllowLinesAre(slug: string, allow: seq<string>)
    requires allow != []
    ensures
      var matcher := Matcher("allow_", slug);
      AllowLines(slug, allow) ==
      [""] + [ALLOW_TITLE, matcher + " {", Directive(ALLOW_KEYWORD) + Spaced(allow), "}", "abort " + matcher]
  {
    AllowTitleText();
    MatcherTexts(slug);
    DirectiveTexts();
  }

  lemma EmptyLineFirst(rest: string, lines: seq<string>, more: seq<string>)
    requires Split(rest, '\n') == lines + more
    ensures Split("" + "\n" + rest, '\n') == ([""] + lines) + more
  {
    SplitFirst("", '\n', rest);
  }

  lemma SplitAllow(slug: string, allow: seq<string>, rest: string)
    requires Without(slug, '\n') && AreWords(allow)
    ensures Split(AllowBlock(slug, allow, rest), '\n') == AllowLines(slug, allow) + Split(rest, '\n')
  {
    if allow != [] {
      var matcher, line := Matcher("allow_", slug), Directive(ALLOW_KEYWORD) + Spaced(allow);
      FixedTexts();
      AllowLineFollows([], allow);
      AllowLinesAre(slug, allow);
      SplitBlock(ALLOW_TITLE, "allow_", slug, Directive(ALLOW_KEYWORD), allow, rest);
      EmptyLineFirst(Block(ALLOW_TITLE, "allow_", slug, Directive(ALLOW_KEYWORD), allow, rest),
                     [ALLOW_TITLE, matcher + " {", line, "}", "abort " + matcher], Split(rest, '\n'));
    }
  }

  lemma NoRulesText()
    ensures NO_RULES == "# No IP rules configured for this domain." && Without(NO_RULES, '\n')
  {
  }

  lemma SplitNoRules()
    ensures Split(NO_RULES + "\n" + "\n", '\n') == [NO_RULES, "", ""]
  {
    NoRulesText();
    SplitEnd();
    SplitFirst(NO_RULES, '\n', "\n");
  }

  lemma SplitEnding(rules: Rules)
    ensures Split(Ending(rules), '\n') == EndLines(rules)
  {
    NoRulesText();
    SplitNoRules();
    SplitEnd();
  }

  /** The generated text, line by line: whoever is on the denylist is aborted, and so is whoever is
      not on an allowlist, where there is one. */
  lemma GeneratedRuleLines(domain: string, rules: Rules, now: Stamp)
    requires ValidDomain(domain) && Civil(now) && AreWords(rules.deny) && AreWords(rules.allow)
    ensures
      var slug := DomainSlug(domain);
      Split(RulesText(domain, rules, now), '\n') ==
      ["# Caddy WAF UI managed - do not edit manually", Header(domain, "", now), ""] +
      (DenyLines(slug, rules.deny) + (AllowLines(slug, rules.allow) + EndLines(rules)))
  {
    var slug, header := DomainSlug(domain), Header(domain, "", now);
    SlugIsOneLine(domain);
    HeaderIsOneLine(domain, "", now);
    ManagedLineText();
    SplitPreamble(header, RulesBody(slug, rules));
    SplitDeny(slug, rules.deny, AllowBlock(slug, rules.allow, Ending(rules)));
    SplitAllow(slug, rules.allow, Ending(rules));
    SplitEnding(rules);
    ThreeMore(MANAGED_LINE, header, "", Split(RulesBody(slug, rules), '\n'));
  }

  lemma ThreeMore(a: string, b: string, c: string, rest: seq<string>)
    ensures [a] + ([b] + ([c] + rest)) == [a, b, c] + rest
  {
  }
}
