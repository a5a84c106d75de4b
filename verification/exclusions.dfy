/** The CRS exclusions overlay: validation, deduplication and id allocation, the printer
    (internal/waf/exclusions.go) and the parser that must undo it (internal/ui/overlay.go). */
module ExclusionRules {
  import opened Text
  import opened Naming
  import opened Headers

  datatype Kind = ById | ByTag | Unknown(name: string)

  /** `param` is empty for an exclusion at URI level. */
  datatype Exclusion = Exclusion(kind: Kind, value: string, param: string)

  predicate IsTagChar(c: char) { IsAlnum(c) || c == '_' || c == '-' }

  predicate ValidExclusion(x: Exclusion) {
    && x.value != ""
    && (match x.kind case ById => All(IsDigit, x.value) case ByTag => All(IsTagChar, x.value) case Unknown(_) => false)
    && All(IsTagChar, x.param)
  }

  predicate AllValid(xs: seq<Exclusion>) {
    forall i :: 0 <= i < |xs| ==> ValidExclusion(xs[i])
  }

  // ------------------------------------------------------------------ deduplication

  function Dedupe(xs: seq<Exclusion>): seq<Exclusion> {
    if xs == [] then []
    else
      var front, x := Dedupe(xs[..|xs| - 1]), xs[|xs| - 1];
      if x in front then front else front + [x]
  }

  ghost predicate Distinct(xs: seq<Exclusion>) {
    forall i, j :: 0 <= i < j < |xs| ==> xs[i] != xs[j]
  }

  /** Every exclusion once, in the order of first occurrence. */
  lemma {:induction false} DedupeIsExact(xs: seq<Exclusion>)
    ensures Distinct(Dedupe(xs))
    ensures forall x :: x in Dedupe(xs) <==> x in xs
    ensures InOrderOf(Dedupe(xs), xs)
  {
    if xs != [] {
      var front, x := xs[..|xs| - 1], xs[|xs| - 1];
      DedupeIsExact(front);
      assert xs == front + [x];
      InOrderSnoc(Dedupe(front), front, x);
    }
  }

  lemma {:induction false} DedupeKeepsDistinct(xs: seq<Exclusion>)
    requires Distinct(xs)
    ensures Dedupe(xs) == xs
  {
    if xs != [] {
      var front := xs[..|xs| - 1];
      DedupeKeepsDistinct(front);
      assert xs == front + [xs[|xs| - 1]];
    }
  }

  lemma DedupeSnoc(xs: seq<Exclusion>, x: Exclusion)
    ensures Dedupe(xs + [x]) == if x in Dedupe(xs) then Dedupe(xs) else Dedupe(xs) + [x]
  {
    assert (xs + [x])[..|xs|] == xs;
  }

  lemma DedupeValid(xs: seq<Exclusion>)
    requires AllValid(xs)
    ensures AllValid(Dedupe(xs))
  {
    DedupeIsExact(xs);
    forall i | 0 <= i < |Dedupe(xs)|
      ensures ValidExclusion(Dedupe(xs)[i])
    {
      assert Dedupe(xs)[i] in xs;
    }
  }

  function KindName(k: Kind): string {
    match k case ById => "id" case ByTag => "tag" case Unknown(name) => name
  }

  /** The map key of the deduplication: the three fields with NULs between. */
  function SeenKey(x: Exclusion): string {
    KindName(x.kind) + ("\0" + (x.value + ("\0" + x.param)))
  }

  /** On validated exclusions equal keys mean equal exclusions. */
  lemma SeenKeyInjective(x: Exclusion, y: Exclusion)
    requires ValidExclusion(x) && ValidExclusion(y)
    requires SeenKey(x) == SeenKey(y)
    ensures x == y
  {
    assert SeenKey(x)[0] == KindName(x.kind)[0] && SeenKey(y)[0] == KindName(y.kind)[0];
    var n := |KindName(x.kind)| + 1;
    var a, b := x.value + ("\0" + x.param), y.value + ("\0" + y.param);
    assert SeenKey(x)[n..] == a && SeenKey(y)[n..] == b;
    CutAt(x.value, '\0', x.param);
    CutAt(y.value, '\0', y.param);
    assert a == x.value + (['\0'] + x.param) && b == y.value + (['\0'] + y.param);
  }

  method DedupeExclusions(xs: seq<Exclusion>) returns (unique: seq<Exclusion>)
    requires AllValid(xs)
    ensures unique == Dedupe(xs)
  {
    var seen: set<string> := {};
    unique := [];
    for i := 0 to |xs|
      invariant unique == Dedupe(xs[..i])
      invariant forall x :: x in unique ==> ValidExclusion(x)
      invariant seen == set x | x in unique :: SeenKey(x)
    {
      assert xs[..i + 1][..i] == xs[..i];
      var key := SeenKey(xs[i]);
      if key in seen {
        var x :| x in unique && SeenKey(x) == key;
        SeenKeyInjective(x, xs[i]);
      } else {
        seen := seen + {key};
        unique := unique + [xs[i]];
      }
    }
    assert xs[..|xs|] == xs;
  }

  // --------------------------------------------------------------------- id allocation

  const ID_BASE := 9000001

  /** An exclusion ready to print; the id is 0 at URI level. */
  datatype Row = Row(exclusion: Exclusion, id: nat)

  function Params(xs: seq<Exclusion>): nat {
    if xs == [] then 0 else Params(xs[..|xs| - 1]) + if xs[|xs| - 1].param != "" then 1 else 0
  }

  function Rows(xs: seq<Exclusion>): (rows: seq<Row>)
    ensures |rows| == |xs|
  {
    if xs == [] then []
    else
      var front, x := xs[..|xs| - 1], xs[|xs| - 1];
      Rows(front) + [Row(x, if x.param != "" then ID_BASE + Params(front) else 0)]
  }

  lemma {:induction false} RowsAt(xs: seq<Exclusion>, i: nat)
    requires i < |xs|
    ensures Rows(xs)[i] == Row(xs[i], if xs[i].param != "" then ID_BASE + Params(xs[..i]) else 0)
  {
    var front := xs[..|xs| - 1];
    if i < |front| {
      RowsAt(front, i);
      assert front[..i] == xs[..i];
    }
  }

  lemma {:induction false} ParamsGrow(xs: seq<Exclusion>, i: nat, j: nat)
    requires i < j <= |xs|
    ensures Params(xs[..j]) >= Params(xs[..i]) + if xs[i].param != "" then 1 else 0
  {
    assert xs[..j][..j - 1] == xs[..j - 1];
    if i < j - 1 {
      ParamsGrow(xs, i, j - 1);
    }
  }

  /** Every row keeps its exclusion; a parameter row's id counts the parameter rows before
      it from 9000001, so the first has 9000001 itself, and a URI-level row has none. */
  lemma IdsCountFromBase(xs: seq<Exclusion>, i: nat)
    requires i < |xs|
    ensures Rows(xs)[i].exclusion == xs[i]
    ensures xs[i].param == "" ==> Rows(xs)[i].id == 0
    ensures xs[i].param != "" ==> Rows(xs)[i].id == ID_BASE + |set k | 0 <= k < i && xs[k].param != ""|
    ensures xs[i].param != "" && (forall k :: 0 <= k < i ==> xs[k].param == "") ==> Rows(xs)[i].id == ID_BASE
  {
    RowsAt(xs, i);
    ParamsCount(xs, i);
    if forall k :: 0 <= k < i ==> xs[k].param == "" {
      assert (set k | 0 <= k < i && xs[k].param != "") == {};
    }
  }

  lemma {:induction false} ParamsCount(xs: seq<Exclusion>, i: nat)
    requires i <= |xs|
    ensures Params(xs[..i]) == |set k | 0 <= k < i && xs[k].param != ""|
  {
    if i > 0 {
      ParamsCount(xs, i - 1);
      assert xs[..i][..i - 1] == xs[..i - 1];
      var before := set k | 0 <= k < i - 1 && xs[k].param != "";
      assert (set k | 0 <= k < i && xs[k].param != "") == before + if xs[i - 1].param != "" then {i - 1} else {};
    }
  }

  /** Parameter rows carry consecutive ids in order, so no two share one. */
  lemma {:induction false} IdsAreConsecutive(xs: seq<Exclusion>, i: nat, j: nat)
    requires i < j < |xs| && xs[i].param != "" && xs[j].param != ""
    ensures Rows(xs)[i].id == ID_BASE + Params(xs[..i]) < Rows(xs)[j].id
    ensures (forall k :: i < k < j ==> xs[k].param == "") ==> Rows(xs)[j].id == Rows(xs)[i].id + 1
  {
    RowsAt(xs, i);
    RowsAt(xs, j);
    ParamsGrow(xs, i, j);
    if forall k :: i < k < j ==> xs[k].param == "" {
      ParamsAcross(xs, i, j);
    }
  }

  lemma {:induction false} ParamsAcross(xs: seq<Exclusion>, i: nat, j: nat)
    requires i < j <= |xs| && xs[i].param != ""
    requires forall k :: i < k < j ==> xs[k].param == ""
    ensures Params(xs[..j]) == Params(xs[..i]) + 1
  {
    assert xs[..j][..j - 1] == xs[..j - 1];
    if i < j - 1 {
      ParamsAcross(xs, i, j - 1);
    }
  }

  lemma {:induction false} RowsAppend(xs: seq<Exclusion>, ys: seq<Exclusion>)
    ensures Rows(xs) <= Rows(xs + ys)
  {
    if ys == [] {
      assert xs + ys == xs;
    } else {
      var front := ys[..|ys| - 1];
      RowsAppend(xs, front);
      assert (xs + ys)[..|xs + ys| - 1] == xs + front;
    }
  }

  /** Adding exclusions at the end renumbers and reorders no existing rule. */
  lemma {:induction false} AddingKeepsRows(xs: seq<Exclusion>, added: seq<Exclusion>)
    ensures Rows(Dedupe(xs)) <= Rows(Dedupe(xs + added))
  {
    if added == [] {
      assert xs + added == xs;
    } else {
      var front, x := added[..|added| - 1], added[|added| - 1];
      AddingKeepsRows(xs, front);
      assert xs + added == (xs + front) + [x];
      DedupeSnoc(xs + front, x);
      RowsAppend(Dedupe(xs + front), [x]);
    }
  }

  lemma {:induction false} RowsKeepExclusions(xs: seq<Exclusion>, ys: seq<Exclusion>)
    requires Rows(xs) <= Rows(ys)
    ensures xs <= ys
  {
    forall i | 0 <= i < |xs|
      ensures xs[i] == ys[i]
    {
      RowsAt(xs, i);
      RowsAt(ys, i);
      assert Rows(xs)[i] == Rows(ys)[i];
    }
  }

  /** Exactly when deduplicating a longer list renumbers and reorders no existing rule. */
  lemma RowsStayIff(xs: seq<Exclusion>, added: seq<Exclusion>)
    ensures Rows(xs) <= Rows(Dedupe(xs + added)) <==> Distinct(xs)
  {
    if Distinct(xs) {
      DedupeKeepsDistinct(xs);
      AddingKeepsRows(xs, added);
    }
    if Rows(xs) <= Rows(Dedupe(xs + added)) {
      RowsKeepExclusions(xs, Dedupe(xs + added));
      DedupeIsExact(xs + added);
    }
  }

  // ----------------------------------------------------------------------- the printer

  const BY_ID_DIRECTIVE := "SecRuleRemoveById"
  const BY_TAG_DIRECTIVE := "SecRuleRemoveByTag"
  const TARGET_DIRECTIVE := "SecRule ARGS:"
  const MATCH_OPERATOR := "\"@unconditionalMatch\""
  const ACTIONS := ",phase:2,pass,nolog,ctl:"
  const BY_ID_ACTION := "ruleRemoveById="
  const BY_TAG_ACTION := "ruleRemoveByTag="

  function ActionOf(k: Kind): string {
    if k.ById? then BY_ID_ACTION else BY_TAG_ACTION
  }

  function ActionsText(id: nat, action: string, value: string): string {
    ActionsOf(Decimal(id), action, value)
  }

  function TargetLine(param: string, id: nat, action: string, value: string): string {
    TARGET_DIRECTIVE + (param + (" " + (MATCH_OPERATOR + (" " + ActionsText(id, action, value)))))
  }

  function Line(row: Row): string {
    var x := row.exclusion;
    if x.param != "" then TargetLine(x.param, row.id, ActionOf(x.kind), x.value)
    else if x.kind.ById? then BY_ID_DIRECTIVE + (" " + x.value)
    else BY_TAG_DIRECTIVE + (" " + ("\"" + (x.value + "\"")))
  }

  function Lines(rows: seq<Row>): string {
    if rows == [] then "" else Line(rows[0]) + "\n" + Lines(rows[1..])
  }

  const NO_EXCLUSIONS := "# No exclusions configured for this domain."

  function Body(rows: seq<Row>): string {
    if rows == [] then NO_EXCLUSIONS + "\n" + "\n" else Lines(rows) + "\n"
  }

  /** The overlay for a validated list. */
  function OverlayText(domain: string, xs: seq<Exclusion>, now: Stamp): string
    requires now.InRange()
  {
    MANAGED_LINE + "\n" + (Header(domain, "", now) + "\n" + ("" + "\n" + Body(Rows(Dedupe(xs)))))
  }

  method MakeRows(xs: seq<Exclusion>) returns (rows: seq<Row>)
    ensures rows == Rows(xs)
  {
    rows := [];
    var nextID := ID_BASE;
    for i := 0 to |xs|
      invariant rows == Rows(xs[..i])
      invariant nextID == ID_BASE + Params(xs[..i])
    {
      assert xs[..i + 1][..i] == xs[..i];
      var id := 0;
      if xs[i].param != "" {
        id := nextID;
        nextID := nextID + 1;
      }
      rows := rows + [Row(xs[i], id)];
    }
    assert xs[..|xs|] == xs;
  }

  /** An invalid list is refused whole; a valid one is printed. */
  method GenerateExclusions(domain: string, xs: seq<Exclusion>, now: Stamp) returns (text: Option<string>)
    requires now.InRange()
    ensures text == if AllValid(xs) then Some(OverlayText(domain, xs, now)) else None
  {
    for i := 0 to |xs|
      invariant forall j :: 0 <= j < i ==> ValidExclusion(xs[j])
    {
      if !ValidExclusion(xs[i]) {
        return None;
      }
    }
    var unique := DedupeExclusions(xs);
    var rows := MakeRows(unique);
    return Some(MANAGED_LINE + "\n" + (Header(domain, "", now) + "\n" + ("" + "\n" + Body(rows))));
  }

  // ------------------------------------------------------------------------ the parser

  /** The class \s of the regular expressions: no vertical tab. */
  predicate IsGap(c: char) { IsSpace(c) && c != '\U{0B}' }

  function Literal(s: string, text: string): Option<string> {
    if HasPrefix(s, text) then Some(s[|text|..]) else None
  }

  /** A non-empty run of a class, as long as possible. */
  function Run(s: string, p: char -> bool): Option<(string, string)> {
    var n := Span(p, s);
    if n == 0 then None else Some((s[..n], s[n..]))
  }

  function SkipGap(s: string): Option<string> {
    match Run(s, IsGap) case None => None case Some((_, rest)) => Some(rest)
  }

  /** A last run, then exactly `ending`. */
  function LastRun(s: string, p: char -> bool, ending: string): Option<string> {
    match Run(s, p) case None => None case Some((run, rest)) => if rest == ending then Some(run) else None
  }

  function ParseById(s: string): Option<string> {
    match Literal(s, BY_ID_DIRECTIVE)
    case None => None
    case Some(a) => match SkipGap(a) case None => None case Some(b) => LastRun(b, IsDigit, "")
  }

  function ParseByTag(s: string): Option<string> {
    match Literal(s, BY_TAG_DIRECTIVE)
    case None => None
    case Some(a) =>
      match SkipGap(a)
      case None => None
      case Some(b) => match Literal(b, "\"") case None => None case Some(c) => LastRun(c, IsTagChar, "\"")
  }

  /** From the opening of the actions to the closing quote. */
  function ParseActions(s: string, action: string, p: char -> bool): Option<string> {
    match Literal(s, "\"id:")
    case None => None
    case Some(a) =>
      match Run(a, IsDigit)
      case None => None
      case Some((_, b)) =>
        match Literal(b, ACTIONS)
        case None => None
        case Some(c) => match Literal(c, action) case None => None case Some(d) => LastRun(d, p, "\"")
  }

  function ParseTarget(s: string, action: string, p: char -> bool): Option<(string, string)> {
    match Literal(s, TARGET_DIRECTIVE)
    case None => None
    case Some(a) =>
      match Run(a, IsTagChar)
      case None => None
      case Some((param, b)) =>
        match SkipGap(b)
        case None => None
        case Some(c) =>
          match Literal(c, MATCH_OPERATOR)
          case None => None
          case Some(d) =>
            match SkipGap(d)
            case None => None
            case Some(e) => match ParseActions(e, action, p) case None => None case Some(value) => Some((param, value))
  }

  /** The four patterns in the order the parser tries them. */
  function ParseLine(s: string): Option<Exclusion> {
    match ParseById(s)
    case Some(v) => Some(Exclusion(ById, v, ""))
    case None =>
      match ParseByTag(s)
      case Some(v) => Some(Exclusion(ByTag, v, ""))
      case None =>
        match ParseTarget(s, BY_ID_ACTION, IsDigit)
        case Some((param, v)) => Some(Exclusion(ById, v, param))
        case None =>
          match ParseTarget(s, BY_TAG_ACTION, IsTagChar)
          case Some((param, v)) => Some(Exclusion(ByTag, v, param))
          case None => None
  }

  function ParseLines(lines: seq<string>): seq<Exclusion> {
    if lines == [] then []
    else
      match ParseLine(TrimSpace(lines[0]))
      case Some(x) => [x] + ParseLines(lines[1..])
      case None => ParseLines(lines[1..])
  }

  function ParsedOverlay(content: string): seq<Exclusion> {
    ParseLines(Split(content, '\n'))
  }

  method ParseExclusionsOverlay(content: string) returns (exclusions: seq<Exclusion>)
    ensures exclusions == ParsedOverlay(content)
  {
    var lines := Split(content, '\n');
    exclusions := [];
    for i := 0 to |lines|
      invariant exclusions + ParseLines(lines[i..]) == ParseLines(lines)
    {
      assert lines[i..][1..] == lines[i + 1..];
      var parsed := ParseLine(TrimSpace(lines[i]));
      if parsed.Some? {
        exclusions := exclusions + [parsed.value];
      }
    }
  }

  // ----------------------------------------------------------- one line there and back

  lemma LiteralThen(text: string, rest: string)
    ensures Literal(text + rest, text) == Some(rest)
  {
  }

  lemma LiteralDiffers(s: string, text: string, i: nat)
    requires i < |s| && i < |text| && s[i] != text[i]
    ensures Literal(s, text) == None
  {
  }

  lemma RunThen(run: string, p: char -> bool, rest: string)
    requires run != "" && All(p, run)
    requires rest != "" ==> !p(rest[0])
    ensures Run(run + rest, p) == Some((run, rest))
  {
    SpanOf(p, run, rest);
  }

  lemma TagIsNotId(rest: string)
    ensures ParseById(BY_TAG_DIRECTIVE + rest) == None
  {
    var s := BY_TAG_DIRECTIVE + rest;
    assert s[15] == BY_TAG_DIRECTIVE[15] == 'T' && BY_ID_DIRECTIVE[15] == 'I';
    LiteralDiffers(s, BY_ID_DIRECTIVE, 15);
  }

  lemma TargetIsNoPlainDirective(rest: string)
    ensures ParseById(TARGET_DIRECTIVE + rest) == None && ParseByTag(TARGET_DIRECTIVE + rest) == None
  {
    var s := TARGET_DIRECTIVE + rest;
    assert s[7] == TARGET_DIRECTIVE[7] == ' ' && BY_ID_DIRECTIVE[7] == 'R' && BY_TAG_DIRECTIVE[7] == 'R';
    LiteralDiffers(s, BY_ID_DIRECTIVE, 7);
    LiteralDiffers(s, BY_TAG_DIRECTIVE, 7);
  }

  // -------------------------------------------------------------- which lines are read

  ghost predicate IsNumber(s: string) {
    s != "" && forall i :: 0 <= i < |s| ==> '0' <= s[i] <= '9'
  }

  ghost predicate IsName(s: string) {
    && s != ""
    && forall i :: 0 <= i < |s| ==>
                     || '0' <= s[i] <= '9' || 'a' <= s[i] <= 'z' || 'A' <= s[i] <= 'Z'
                     || s[i] == '_' || s[i] == '-'
  }

  ghost predicate IsGaps(s: string) {
    && s != ""
    && forall i :: 0 <= i < |s| ==> s[i] == ' ' || s[i] == '\t' || s[i] == '\n' || s[i] == '\U{0C}' || s[i] == '\r'
  }

  /** A directive at URI level. */
  ghost predicate IsDirective(s: string, x: Exclusion, gap: string) {
    && x.param == "" && IsGaps(gap)
    && match x.kind
       case ById => IsNumber(x.value) && s == "SecRuleRemoveById" + (gap + x.value)
       case ByTag => IsName(x.value) && s == "SecRuleRemoveByTag" + (gap + ("\"" + (x.value + "\"")))
       case Unknown(_) => false
  }

  /** A rule for one parameter, with any number for an id. */
  ghost predicate IsTarget(s: string, x: Exclusion, gap: string, gap': string, id: string) {
    && IsName(x.param) && IsGaps(gap) && IsGaps(gap') && IsNumber(id)
    && match x.kind
       case ById =>
         && IsNumber(x.value)
         && s == TargetShape(x.param, gap, gap', id, ",phase:2,pass,nolog,ctl:ruleRemoveById=", x.value)
       case ByTag =>
         && IsName(x.value)
         && s == TargetShape(x.param, gap, gap', id, ",phase:2,pass,nolog,ctl:ruleRemoveByTag=", x.value)
       case Unknown(_) => false
  }

  ghost function TargetShape(param: string, gap: string, gap': string, id: string, actions: string, value: string)
    : string
  {
    "SecRule ARGS:" +
    (param + (gap + ("\"@unconditionalMatch\"" + (gap' + ("\"id:" + (id + (actions + (value + "\""))))))))
  }

  ghost predicate IsLineOf(s: string, x: Exclusion) {
    (exists gap :: IsDirective(s, x, gap)) || exists gap, gap', id :: IsTarget(s, x, gap, gap', id)
  }

  lemma ClassesAre(s: string)
    ensures IsNumber(s) <==> s != "" && All(IsDigit, s)
    ensures IsName(s) <==> s != "" && All(IsTagChar, s)
    ensures IsGaps(s) <==> s != "" && All(IsGap, s)
  {
  }

  lemma LiteralIs(s: string, text: string)
    requires Literal(s, text).Some?
    ensures s == text + Literal(s, text).value
  {
  }

  lemma RunIs(s: string, p: char -> bool)
    requires Run(s, p).Some?
    ensures var (run, rest) := Run(s, p).value; s == run + rest && run != "" && All(p, run)
  {
  }

  lemma SkipGapIs(s: string)
    requires SkipGap(s).Some?
    ensures exists gap :: IsGaps(gap) && s == gap + SkipGap(s).value
  {
    RunIs(s, IsGap);
    ClassesAre(Run(s, IsGap).value.0);
  }

  lemma LastRunThen(s: string, p: char -> bool, ending: string)
    requires LastRun(s, p, ending).Some?
    ensures s == LastRun(s, p, ending).value + ending
  {
    RunIs(s, p);
  }

  lemma GapsThen(gap: string, rest: string)
    requires IsGaps(gap) && rest != "" && !IsGap(rest[0])
    ensures SkipGap(gap + rest) == Some(rest)
  {
    ClassesAre(gap);
    RunThen(gap, IsGap, rest);
  }

  lemma ByIdIff(s: string, v: string)
    ensures ParseById(s) == Some(v) <==> exists gap :: IsDirective(s, Exclusion(ById, v, ""), gap)
  {
    if ParseById(s) == Some(v) {
      var a := Literal(s, BY_ID_DIRECTIVE).value;
      var b := SkipGap(a).value;
      LiteralIs(s, BY_ID_DIRECTIVE);
      SkipGapIs(a);
      LastRunIs(b, IsDigit, "");
      LastRunThen(b, IsDigit, "");
      ClassesAre(v);
      var gap :| IsGaps(gap) && a == gap + b;
      assert IsDirective(s, Exclusion(ById, v, ""), gap);
    }
    if gap :| IsDirective(s, Exclusion(ById, v, ""), gap) {
      ClassesAre(v);
      LiteralThen(BY_ID_DIRECTIVE, gap + v);
      GapsThen(gap, v);
      RunThen(v, IsDigit, "");
      assert v + "" == v;
    }
  }

  lemma ByTagIff(s: string, v: string)
    ensures ParseByTag(s) == Some(v) <==> exists gap :: IsDirective(s, Exclusion(ByTag, v, ""), gap)
  {
    if ParseByTag(s) == Some(v) {
      var a := Literal(s, BY_TAG_DIRECTIVE).value;
      var b := SkipGap(a).value;
      var c := Literal(b, "\"").value;
      LiteralIs(s, BY_TAG_DIRECTIVE);
      SkipGapIs(a);
      LiteralIs(b, "\"");
      LastRunIs(c, IsTagChar, "\"");
      LastRunThen(c, IsTagChar, "\"");
      ClassesAre(v);
      var gap :| IsGaps(gap) && a == gap + b;
      assert IsDirective(s, Exclusion(ByTag, v, ""), gap);
    }
    if gap :| IsDirective(s, Exclusion(ByTag, v, ""), gap) {
      ClassesAre(v);
      LiteralThen(BY_TAG_DIRECTIVE, gap + ("\"" + (v + "\"")));
      GapsThen(gap, "\"" + (v + "\""));
      LiteralThen("\"", v + "\"");
      RunThen(v, IsTagChar, "\"");
    }
  }

  function ActionsOf(id: string, action: string, v: string): string {
    "\"id:" + (id + (ACTIONS + (action + (v + "\""))))
  }

  /** The actions up to the closing quote. */
  ghost predicate AreActions(s: string, id: string, action: string, p: char -> bool, v: string) {
    IsNumber(id) && v != "" && All(p, v) && s == ActionsOf(id, action, v)
  }

  lemma ActionsIff(s: string, action: string, p: char -> bool, v: string)
    requires !p('"')
    ensures ParseActions(s, action, p) == Some(v) <==> exists id :: AreActions(s, id, action, p, v)
  {
    if ParseActions(s, action, p) == Some(v) {
      var a := Literal(s, "\"id:").value;
      var (id, b) := Run(a, IsDigit).value;
      var c := Literal(b, ACTIONS).value;
      var d := Literal(c, action).value;
      LiteralIs(s, "\"id:");
      RunIs(a, IsDigit);
      LiteralIs(b, ACTIONS);
      LiteralIs(c, action);
      LastRunIs(d, p, "\"");
      LastRunThen(d, p, "\"");
      ClassesAre(id);
      assert AreActions(s, id, action, p, v);
    }
    if id :| AreActions(s, id, action, p, v) {
      ClassesAre(id);
      var d := v + "\"";
      LiteralThen("\"id:", id + (ACTIONS + (action + d)));
      assert ACTIONS[0] == ',';
      RunThen(id, IsDigit, ACTIONS + (action + d));
      LiteralThen(ACTIONS, action + d);
      LiteralThen(action, d);
      RunThen(v, p, "\"");
    }
  }

  ghost predicate IsTargetOf(s: string, param: string, gap: string, gap': string, e: string) {
    && IsName(param) && IsGaps(gap) && IsGaps(gap')
    && s == TARGET_DIRECTIVE + (param + (gap + (MATCH_OPERATOR + (gap' + e))))
  }

  lemma TargetIsTargetOf(s: string, action: string, p: char -> bool, param: string, v: string)
    requires ParseTarget(s, action, p) == Some((param, v))
    ensures exists gap, gap', e :: IsTargetOf(s, param, gap, gap', e) && ParseActions(e, action, p) == Some(v)
  {
    var a := Literal(s, TARGET_DIRECTIVE).value;
    var b := Run(a, IsTagChar).value.1;
    var c := SkipGap(b).value;
    var d := Literal(c, MATCH_OPERATOR).value;
    var e := SkipGap(d).value;
    LiteralIs(s, TARGET_DIRECTIVE);
    RunIs(a, IsTagChar);
    SkipGapIs(b);
    LiteralIs(c, MATCH_OPERATOR);
    SkipGapIs(d);
    ClassesAre(param);
    var gap :| IsGaps(gap) && b == gap + c;
    var gap' :| IsGaps(gap') && d == gap' + e;
    assert IsTargetOf(s, param, gap, gap', e);
  }

  lemma TargetOfParses(s: string, action: string, p: char -> bool, param: string, gap: string, gap': string, e: string)
    requires IsTargetOf(s, param, gap, gap', e) && e != "" && e[0] == '"'
    ensures ParseTarget(s, action, p) ==
            match ParseActions(e, action, p) case None => None case Some(v) => Some((param, v))
  {
    var c := MATCH_OPERATOR + (gap' + e);
    assert c[0] == MATCH_OPERATOR[0] == '"';
    ClassesAre(param);
    ClassesAre(gap);
    LiteralThen(TARGET_DIRECTIVE, param + (gap + c));
    assert (gap + c)[0] == gap[0];
    RunThen(param, IsTagChar, gap + c);
    GapsThen(gap, c);
    LiteralThen(MATCH_OPERATOR, gap' + e);
    GapsThen(gap', e);
  }

  lemma LastRunIs(s: string, p: char -> bool, ending: string)
    requires LastRun(s, p, ending).Some?
    ensures LastRun(s, p, ending).value != "" && All(p, LastRun(s, p, ending).value)
  {
  }

  lemma ActionTexts()
    ensures ",phase:2,pass,nolog,ctl:ruleRemoveById=" == ACTIONS + BY_ID_ACTION
    ensures ",phase:2,pass,nolog,ctl:ruleRemoveByTag=" == ACTIONS + BY_TAG_ACTION
  {
  }

  lemma Regroup(a: string, b: string, c: string)
    ensures (a + b) + c == a + (b + c)
  {
  }

  lemma ShapeIs(param: string, gap: string, gap': string, id: string, k: Kind, v: string)
    ensures
      var actions := if k.ById? then ",phase:2,pass,nolog,ctl:ruleRemoveById="
                     else ",phase:2,pass,nolog,ctl:ruleRemoveByTag=";
      TargetShape(param, gap, gap', id, actions, v) ==
      TARGET_DIRECTIVE + (param + (gap + (MATCH_OPERATOR + (gap' + ActionsOf(id, ActionOf(k), v)))))
  {
    ActionTexts();
    Regroup(ACTIONS, ActionOf(k), v + "\"");
  }

  function ClassOf(k: Kind): char -> bool {
    if k.ById? then IsDigit else IsTagChar
  }

  lemma ParsedTargetIs(s: string, x: Exclusion)
    requires !x.kind.Unknown? && ParseTarget(s, ActionOf(x.kind), ClassOf(x.kind)) == Some((x.param, x.value))
    ensures exists gap, gap', id :: IsTarget(s, x, gap, gap', id)
  {
    var action, p := ActionOf(x.kind), ClassOf(x.kind);
    TargetIsTargetOf(s, action, p, x.param, x.value);
    var gap, gap', e :| IsTargetOf(s, x.param, gap, gap', e) && ParseActions(e, action, p) == Some(x.value);
    ActionsIff(e, action, p, x.value);
    var id :| AreActions(e, id, action, p, x.value);
    ShapeIs(x.param, gap, gap', id, x.kind, x.value);
    ClassesAre(x.value);
    assert IsTarget(s, x, gap, gap', id);
  }

  lemma TargetIsParsedTarget(s: string, x: Exclusion, gap: string, gap': string, id: string)
    requires IsTarget(s, x, gap, gap', id)
    ensures ParseTarget(s, ActionOf(x.kind), ClassOf(x.kind)) == Some((x.param, x.value))
  {
    var action, p := ActionOf(x.kind), ClassOf(x.kind);
    var e := ActionsOf(id, action, x.value);
    ShapeIs(x.param, gap, gap', id, x.kind, x.value);
    ClassesAre(x.value);
    assert AreActions(e, id, action, p, x.value);
    ActionsIff(e, action, p, x.value);
    TargetOfParses(s, action, p, x.param, gap, gap', e);
  }

  lemma OtherAction(id: string, v: string)
    requires IsNumber(id)
    ensures ParseActions(ActionsOf(id, BY_TAG_ACTION, v), BY_ID_ACTION, IsDigit) == None
  {
    var d := BY_TAG_ACTION + (v + "\"");
    ClassesAre(id);
    LiteralThen("\"id:", id + (ACTIONS + d));
    assert ACTIONS[0] == ',';
    RunThen(id, IsDigit, ACTIONS + d);
    LiteralThen(ACTIONS, d);
    assert BY_ID_ACTION[12] == 'I' && BY_TAG_ACTION[12] == 'T';
    LiteralDiffers(d, BY_ID_ACTION, 12);
  }

  /** No line is a rule of both kinds: their actions differ. */
  lemma OneAction(s: string, x: Exclusion, gap: string, gap': string, id: string)
    requires IsTarget(s, x, gap, gap', id) && x.kind.ByTag?
    ensures ParseTarget(s, BY_ID_ACTION, IsDigit) == None
  {
    var e := ActionsOf(id, BY_TAG_ACTION, x.value);
    ShapeIs(x.param, gap, gap', id, x.kind, x.value);
    OtherAction(id, x.value);
    TargetOfParses(s, BY_ID_ACTION, IsDigit, x.param, gap, gap', e);
  }

  lemma TargetLineIsNoDirective(s: string, x: Exclusion, gap: string, gap': string, id: string)
    requires IsTarget(s, x, gap, gap', id)
    ensures ParseById(s) == None && ParseByTag(s) == None
  {
    ShapeIs(x.param, gap, gap', id, x.kind, x.value);
    TargetIsNoPlainDirective(x.param + (gap + (MATCH_OPERATOR + (gap' + ActionsOf(id, ActionOf(x.kind), x.value)))));
  }

  lemma ParsedIsLineOf(s: string, x: Exclusion)
    requires ParseLine(s) == Some(x)
    ensures IsLineOf(s, x)
  {
    if ParseById(s).Some? {
      ByIdIff(s, x.value);
    } else if ParseByTag(s).Some? {
      ByTagIff(s, x.value);
    } else {
      ParsedTargetIs(s, x);
    }
  }

  lemma DirectiveIsParsed(s: string, x: Exclusion, gap: string)
    requires IsDirective(s, x, gap)
    ensures ParseLine(s) == Some(x)
  {
    if x.kind.ById? {
      ByIdIff(s, x.value);
    } else {
      ByTagIff(s, x.value);
      TagIsNotId(gap + ("\"" + (x.value + "\"")));
    }
  }

  lemma TargetIsParsed(s: string, x: Exclusion, gap: string, gap': string, id: string)
    requires IsTarget(s, x, gap, gap', id)
    ensures ParseLine(s) == Some(x)
  {
    TargetLineIsNoDirective(s, x, gap, gap', id);
    TargetIsParsedTarget(s, x, gap, gap', id);
    if x.kind.ByTag? {
      OneAction(s, x, gap, gap', id);
    }
  }

  /** Exactly the lines that are read, and as which exclusion: any gaps, any id. */
  lemma ParseLineIff(s: string, x: Exclusion)
    ensures ParseLine(s) == Some(x) <==> IsLineOf(s, x)
  {
    if ParseLine(s) == Some(x) {
      ParsedIsLineOf(s, x);
    } else if gap :| IsDirective(s, x, gap) {
      DirectiveIsParsed(s, x, gap);
    } else if gap, gap', id :| IsTarget(s, x, gap, gap', id) {
      TargetIsParsed(s, x, gap, gap', id);
    }
  }

  lemma Join2(a: string, b: string)
    requires Without(a, '\n') && Without(b, '\n')
    ensures Without(a + b, '\n')
  {
  }

  lemma TargetLineIsPlain(param: string, id: nat, action: string, v: string)
    requires Without(param, '\n') && Without(action, '\n') && Without(v, '\n')
    ensures
      var s := TargetLine(param, id, action, v);
      Without(s, '\n') && s != "" && s[0] == 'S' && s[|s| - 1] == '"'
  {
    var a := action + (v + "\"");
    var b := ACTIONS + a;
    var c := Decimal(id) + b;
    var d := "\"id:" + c;
    var e := MATCH_OPERATOR + (" " + d);
    var f := param + (" " + e);
    Join2(v, "\"");
    Join2(action, v + "\"");
    Join2(ACTIONS, a);
    Join2(Decimal(id), b);
    Join2("\"id:", c);
    Join2(" ", d);
    Join2(MATCH_OPERATOR, " " + d);
    Join2(" ", e);
    Join2(param, " " + e);
    Join2(TARGET_DIRECTIVE, f);
    assert a[|a| - 1] == '"' && b[|b| - 1] == '"' && c[|c| - 1] == '"' && d[|d| - 1] == '"' && e[|e| - 1] == '"' &&
           f[|f| - 1] == '"';
    assert TARGET_DIRECTIVE[0] == 'S';
  }

  lemma PlainLineIsPlain(directive: string, tail: string)
    requires directive != "" && directive[0] == 'S' && Without(directive, '\n')
    requires tail != "" && Without(tail, '\n') && !IsSpace(tail[|tail| - 1])
    ensures
      var s := directive + (" " + tail);
      Without(s, '\n') && Trimmed(s) && s != ""
  {
    var s := directive + (" " + tail);
    assert s[|s| - 1] == tail[|tail| - 1];
  }

  lemma LineIsTrimmed(row: Row)
    requires ValidExclusion(row.exclusion)
    ensures Trimmed(Line(row)) && Without(Line(row), '\n') && Line(row) != ""
  {
    var x := row.exclusion;
    if x.param != "" {
      assert Without(ActionOf(x.kind), '\n');
      TargetLineIsPlain(x.param, row.id, ActionOf(x.kind), x.value);
    } else if x.kind.ById? {
      assert BY_ID_DIRECTIVE[0] == 'S';
      PlainLineIsPlain(BY_ID_DIRECTIVE, x.value);
    } else {
      var quoted := "\"" + (x.value + "\"");
      assert quoted[|quoted| - 1] == '"' && BY_TAG_DIRECTIVE[0] == 'S';
      PlainLineIsPlain(BY_TAG_DIRECTIVE, quoted);
    }
  }

  /** The line that is printed for an exclusion; `id` matters with a parameter only. */
  ghost predicate Prints(line: string, x: Exclusion, id: nat) {
    if x.param == "" then IsDirective(line, x, " ") else IsTarget(line, x, " ", " ", Decimal(id))
  }

  lemma LinePrints(row: Row)
    requires ValidExclusion(row.exclusion)
    ensures Prints(Line(row), row.exclusion, row.id)
  {
    var x := row.exclusion;
    ClassesAre(x.value);
    ClassesAre(" ");
    if x.param != "" {
      ClassesAre(x.param);
      ClassesAre(Decimal(row.id));
      ShapeIs(x.param, " ", " ", Decimal(row.id), x.kind, x.value);
    }
  }

  /** Every printed line parses back to its exclusion, whatever its id. */
  lemma LineRoundTrip(row: Row)
    requires ValidExclusion(row.exclusion)
    ensures ParseLine(TrimSpace(Line(row))) == Some(row.exclusion)
  {
    LineIsTrimmed(row);
    TrimIsIdentity(Line(row));
    LinePrints(row);
    ParseLineIff(Line(row), row.exclusion);
  }

  lemma ParsedIsValid(s: string)
    requires ParseLine(s).Some?
    ensures ValidExclusion(ParseLine(s).value)
  {
    var x := ParseLine(s).value;
    ParseLineIff(s, x);
    ClassesAre(x.value);
    ClassesAre(x.param);
  }

  /** Exactly the exclusions that are accepted: those with a number for an id, or a name for a tag, and
      with no parameter or a name for one; and they are exactly those whose line is read back. */
  lemma ValidExclusionIff(x: Exclusion)
    ensures ValidExclusion(x) <==>
            && ((x.kind == ById && IsNumber(x.value)) || (x.kind == ByTag && IsName(x.value)))
            && (x.param == "" || IsName(x.param))
    ensures ValidExclusion(x) <==> exists id: nat :: ParseLine(TrimSpace(Line(Row(x, id)))) == Some(x)
  {
    ClassesAre(x.value);
    ClassesAre(x.param);
    if ValidExclusion(x) {
      LineRoundTrip(Row(x, 9000001));
      assert ParseLine(TrimSpace(Line(Row(x, 9000001)))) == Some(x);
    }
    if id: nat :| ParseLine(TrimSpace(Line(Row(x, id)))) == Some(x) {
      ParsedIsValid(TrimSpace(Line(Row(x, id))));
    }
  }

  /** The lines at `at` are read as `xs`, in order, and no other line is read as anything. */
  ghost predicate ReadsAt(lines: seq<string>, at: seq<nat>, xs: seq<Exclusion>) {
    && |at| == |xs|
    && (forall k :: 0 <= k < |at| ==> at[k] < |lines| && IsLineOf(TrimSpace(lines[at[k]]), xs[k]))
    && (forall j, k :: 0 <= j < k < |at| ==> at[j] < at[k])
    && forall i: nat :: i < |lines| && i !in at ==> IsNoLine(TrimSpace(lines[i]))
  }

  ghost predicate IsNoLine(s: string) {
    forall x :: !IsLineOf(s, x)
  }

  lemma ReadOrNot(s: string)
    ensures ParseLine(s) == None <==> IsNoLine(s)
  {
    if ParseLine(s).Some? {
      ParseLineIff(s, ParseLine(s).value);
    }
    if x :| IsLineOf(s, x) {
      ParseLineIff(s, x);
    }
  }

  function Listed(x: Option<Exclusion>): seq<Exclusion> {
    match x case Some(x) => [x] case None => []
  }

  /** What was found, place by place, without the places where nothing was. */
  function Found(results: seq<Option<Exclusion>>): seq<Exclusion> {
    if results == [] then [] else Listed(results[0]) + Found(results[1..])
  }

  lemma {:induction false} FoundSnoc(results: seq<Option<Exclusion>>, r: Option<Exclusion>)
    ensures Found(results + [r]) == Found(results) + Listed(r)
  {
    if results == [] {
      assert [r][1..] == [];
    } else {
      FoundSnoc(results[1..], r);
      assert (results + [r])[1..] == results[1..] + [r];
    }
  }

  ghost predicate AreFoundAt(results: seq<Option<Exclusion>>, at: seq<nat>, xs: seq<Exclusion>) {
    && |at| == |xs|
    && (forall k :: 0 <= k < |at| ==> at[k] < |results| && results[at[k]] == Some(xs[k]))
    && (forall j, k :: 0 <= j < k < |at| ==> at[j] < at[k])
    && forall i: nat :: i < |results| && i !in at ==> results[i] == None
  }

  lemma OneMorePlace(before: seq<nat>, n: nat)
    ensures forall i: nat :: i in before + [n] <==> i in before || i == n
  {
  }

  lemma FoundOneMore(results: seq<Option<Exclusion>>, before: seq<nat>, xs: seq<Exclusion>, x: Exclusion)
    requires AreFoundAt(results, before, xs)
    ensures AreFoundAt(results + [Some(x)], before + [|results|], xs + [x])
  {
    OneMorePlace(before, |results|);
  }

  lemma FoundNoMore(results: seq<Option<Exclusion>>, before: seq<nat>, xs: seq<Exclusion>)
    requires AreFoundAt(results, before, xs)
    ensures AreFoundAt(results + [None], before, xs)
  {
  }

  lemma {:induction false} FoundPlaces(results: seq<Option<Exclusion>>) returns (at: seq<nat>)
    ensures AreFoundAt(results, at, Found(results))
  {
    if results == [] {
      at := [];
    } else {
      var n := |results| - 1;
      var front := results[..n];
      at := FoundPlaces(front);
      assert results == front + [results[n]];
      FoundSnoc(front, results[n]);
      match results[n] {
        case Some(x) =>
          FoundOneMore(front, at, Found(front), x);
          at := at + [n];
        case None =>
          FoundNoMore(front, at, Found(front));
      }
    }
  }

  function Results(lines: seq<string>): (results: seq<Option<Exclusion>>)
    ensures |results| == |lines|
  {
    seq(|lines|, i requires 0 <= i < |lines| => ParseLine(TrimSpace(lines[i])))
  }

  lemma {:induction false} ParsedAreFound(lines: seq<string>)
    ensures ParseLines(lines) == Found(Results(lines))
  {
    if lines != [] {
      ParsedAreFound(lines[1..]);
      assert Results(lines)[1..] == Results(lines[1..]);
    }
  }

  /** Every line that is one of an exclusion, in order, and no other. */
  ghost predicate IsReadAs(lines: seq<string>, xs: seq<Exclusion>) {
    exists at :: ReadsAt(lines, at, xs)
  }

  lemma ParsedIsRead(lines: seq<string>, at: seq<nat>, xs: seq<Exclusion>)
    requires AreFoundAt(Results(lines), at, xs)
    ensures ReadsAt(lines, at, xs)
  {
    forall k | 0 <= k < |at|
      ensures IsLineOf(TrimSpace(lines[at[k]]), xs[k])
    {
      ParseLineIff(TrimSpace(lines[at[k]]), xs[k]);
    }
    forall i: nat | i < |lines| && i !in at
      ensures IsNoLine(TrimSpace(lines[i]))
    {
      ReadOrNot(TrimSpace(lines[i]));
    }
  }

  /** What any overlay is read as, whoever wrote it. */
  lemma OverlayIsReadAs(content: string)
    ensures IsReadAs(Split(content, '\n'), ParsedOverlay(content))
    ensures AllValid(ParsedOverlay(content))
  {
    var lines := Split(content, '\n');
    ParsedAreFound(lines);
    var at := FoundPlaces(Results(lines));
    ParsedIsRead(lines, at, ParseLines(lines));
    ParsedAreValid(lines);
  }

  lemma {:induction false} ParsedAreValid(lines: seq<string>)
    ensures AllValid(ParseLines(lines))
  {
    if lines != [] {
      ParsedAreValid(lines[1..]);
      if ParseLine(TrimSpace(lines[0])).Some? {
        ParsedIsValid(TrimSpace(lines[0]));
      }
    }
  }

  // -------------------------------------------------------------- the whole overlay

  lemma CommentIsIgnored(line: string)
    requires line != "" && line[0] == '#'
    ensures ParseLine(TrimSpace(line)) == None
  {
    var t := TrimLeft(line);
    assert t == line;
    TrimRightKeepsHead(line);
    var s := TrimSpace(line);
    assert s[0] == '#' && BY_ID_DIRECTIVE[0] == 'S' && BY_TAG_DIRECTIVE[0] == 'S' && TARGET_DIRECTIVE[0] == 'S';
    LiteralDiffers(s, BY_ID_DIRECTIVE, 0);
    LiteralDiffers(s, BY_TAG_DIRECTIVE, 0);
    LiteralDiffers(s, TARGET_DIRECTIVE, 0);
  }

  lemma {:induction false} TrimRightKeepsHead(s: string)
    requires s != "" && !IsSpace(s[0])
    ensures TrimRight(s) != "" && TrimRight(s)[0] == s[0]
  {
    if IsSpace(s[|s| - 1]) {
      TrimRightKeepsHead(s[..|s| - 1]);
    }
  }

  lemma EmptyIsIgnored()
    ensures ParseLine(TrimSpace("")) == None
  {
    assert TrimSpace("") == "";
    assert |BY_ID_DIRECTIVE| > 0 && |BY_TAG_DIRECTIVE| > 0 && |TARGET_DIRECTIVE| > 0;
  }

  lemma ParsePrepend(line: string, rest: string)
    requires Without(line, '\n')
    ensures ParsedOverlay(line + "\n" + rest) ==
            match ParseLine(TrimSpace(line)) case Some(x) => [x] + ParsedOverlay(rest) case None => ParsedOverlay(rest)
  {
    SplitFirst(line, '\n', rest);
    var lines := [line] + Split(rest, '\n');
    assert lines[1..] == Split(rest, '\n');
  }

  function ExclusionsOf(rows: seq<Row>): seq<Exclusion> {
    if rows == [] then [] else [rows[0].exclusion] + ExclusionsOf(rows[1..])
  }

  lemma {:induction false} ExclusionsOfRows(xs: seq<Exclusion>)
    ensures ExclusionsOf(Rows(xs)) == xs
  {
    ExclusionsOfAt(Rows(xs));
    forall i | 0 <= i < |xs|
      ensures ExclusionsOf(Rows(xs))[i] == xs[i]
    {
      RowsAt(xs, i);
    }
  }

  lemma {:induction false} ExclusionsOfAt(rows: seq<Row>)
    ensures |ExclusionsOf(rows)| == |rows|
    ensures forall i :: 0 <= i < |rows| ==> ExclusionsOf(rows)[i] == rows[i].exclusion
  {
    if rows != [] {
      ExclusionsOfAt(rows[1..]);
    }
  }

  lemma LineThenRest(row: Row, rest: string)
    requires ValidExclusion(row.exclusion)
    ensures ParsedOverlay(Line(row) + "\n" + rest) == [row.exclusion] + ParsedOverlay(rest)
  {
    LineRoundTrip(row);
    LineIsTrimmed(row);
    ParsePrepend(Line(row), rest);
  }

  lemma {:induction false} LinesRoundTrip(rows: seq<Row>, rest: string)
    requires forall i :: 0 <= i < |rows| ==> ValidExclusion(rows[i].exclusion)
    ensures ParsedOverlay(Lines(rows) + rest) == ExclusionsOf(rows) + ParsedOverlay(rest)
  {
    if rows == [] {
      assert Lines(rows) + rest == rest;
    } else {
      LinesRoundTrip(rows[1..], rest);
      LineThenRest(rows[0], Lines(rows[1..]) + rest);
      Regroup(Line(rows[0]) + "\n", Lines(rows[1..]), rest);
    }
  }

  lemma EndOfOverlay()
    ensures ParsedOverlay("\n") == []
  {
    EmptyIsIgnored();
    assert "\n" == "" + "\n" + "";
    ParsePrepend("", "");
    SplitOnly("", '\n');
  }

  lemma EmptyBodyParses()
    ensures ParsedOverlay(NO_EXCLUSIONS + "\n" + "\n") == []
  {
    EndOfOverlay();
    assert NO_EXCLUSIONS[0] == '#' && Without(NO_EXCLUSIONS, '\n');
    CommentIsIgnored(NO_EXCLUSIONS);
    ParsePrepend(NO_EXCLUSIONS, "\n");
  }

  lemma RowsAreValid(xs: seq<Exclusion>)
    requires AllValid(xs)
    ensures forall i :: 0 <= i < |Rows(xs)| ==> ValidExclusion(Rows(xs)[i].exclusion)
  {
    forall i | 0 <= i < |xs|
      ensures ValidExclusion(Rows(xs)[i].exclusion)
    {
      RowsAt(xs, i);
    }
  }

  lemma BodyRoundTrip(xs: seq<Exclusion>)
    requires AllValid(xs)
    ensures ParsedOverlay(Body(Rows(xs))) == xs
  {
    if xs == [] {
      EmptyBodyParses();
    } else {
      EndOfOverlay();
      RowsAreValid(xs);
      LinesRoundTrip(Rows(xs), "\n");
      ExclusionsOfRows(xs);
    }
  }

  lemma PreambleIsIgnored(domain: string, now: Stamp, body: string)
    requires ValidDomain(domain) && Civil(now)
    ensures ParsedOverlay(MANAGED_LINE + "\n" + (Header(domain, "", now) + "\n" + ("" + "\n" + body))) ==
            ParsedOverlay(body)
  {
    var header := Header(domain, "", now);
    HeaderIsOneLine(domain, "", now);
    ManagedLineIsNoHeader();
    assert header[0] == HEADER_PREFIX[0] == '#';
    CommentIsIgnored(MANAGED_LINE);
    CommentIsIgnored(header);
    EmptyIsIgnored();
    ParsePrepend("", body);
    ParsePrepend(header, "" + "\n" + body);
    ParsePrepend(MANAGED_LINE, header + "\n" + ("" + "\n" + body));
  }

  /** The parser undoes the printer: a generated overlay parses to exactly the
      deduplicated list, in order. */
  lemma OverlayRoundTrip(domain: string, xs: seq<Exclusion>, now: Stamp)
    requires ValidDomain(domain) && AllValid(xs) && Civil(now)
    ensures ParsedOverlay(OverlayText(domain, xs, now)) == Dedupe(xs)
  {
    DedupeValid(xs);
    BodyRoundTrip(Dedupe(xs));
    PreambleIsIgnored(domain, now, Body(Rows(Dedupe(xs))));
  }

  /** Printing what was parsed gives the same text. */
  lemma RegeneratingIsStable(domain: string, xs: seq<Exclusion>, now: Stamp)
    requires ValidDomain(domain) && AllValid(xs) && Civil(now)
    ensures OverlayText(domain, ParsedOverlay(OverlayText(domain, xs, now)), now) == OverlayText(domain, xs, now)
  {
    OverlayRoundTrip(domain, xs, now);
    DedupeIsExact(xs);
    DedupeKeepsDistinct(Dedupe(xs));
  }

  // ------------------------------------------------------------------ the text, literally

  /** The lines of rows, and what follows them. */
  lemma {:induction false} SplitLines(rows: seq<Row>, rest: string)
    requires forall i :: 0 <= i < |rows| ==> ValidExclusion(rows[i].exclusion)
    ensures
      var lines, more := Split(Lines(rows) + rest, '\n'), Split(rest, '\n');
      && |lines| == |rows| + |more| && lines[|rows|..] == more
      && forall i :: 0 <= i < |rows| ==> lines[i] == Line(rows[i])
  {
    if rows == [] {
      assert Lines(rows) + rest == rest;
    } else {
      SplitLines(rows[1..], rest);
      LineIsTrimmed(rows[0]);
      Regroup(Line(rows[0]) + "\n", Lines(rows[1..]), rest);
      SplitFirst(Line(rows[0]), '\n', Lines(rows[1..]) + rest);
    }
  }

  lemma SplitPreamble(header: string, body: string)
    requires Without(header, '\n')
    ensures Split(MANAGED_LINE + "\n" + (header + "\n" + ("" + "\n" + body)), '\n') ==
            [MANAGED_LINE] + ([header] + ([""] + Split(body, '\n')))
  {
    ManagedLineIsNoHeader();
    SplitFirst("", '\n', body);
    SplitFirst(header, '\n', "" + "\n" + body);
    SplitFirst(MANAGED_LINE, '\n', header + "\n" + ("" + "\n" + body));
  }

  lemma SplitEnd()
    ensures Split("\n", '\n') == ["", ""]
  {
    SplitFirst("", '\n', "");
    SplitOnly("", '\n');
    assert "" + ['\n'] + "" == "\n";
  }

  /** The lines under the preamble: one a row, or the remark that there are none. */
  lemma SplitBody(rows: seq<Row>)
    requires forall i :: 0 <= i < |rows| ==> ValidExclusion(rows[i].exclusion)
    ensures
      var lines := Split(Body(rows), '\n');
      if rows == [] then lines == ["# No exclusions configured for this domain.", "", ""]
      else
        && |lines| == |rows| + 2 && lines[|rows|..] == ["", ""]
        && forall i :: 0 <= i < |rows| ==> lines[i] == Line(rows[i])
  {
    SplitEnd();
    if rows == [] {
      assert Without(NO_EXCLUSIONS, '\n');
      SplitFirst(NO_EXCLUSIONS, '\n', "\n");
    } else {
      SplitLines(rows, "\n");
    }
  }

  /** How ids are written. */
  lemma FirstIdText()
    ensures Decimal(9000001) == "9000001"
  {
    assert Decimal(90) == "90" && Decimal(900) == "900" && Decimal(9000) == "9000";
    assert Decimal(90000) == Decimal(9000) + "0" == "90000";
    assert Decimal(900000) == Decimal(90000) + "0" == "900000";
    assert Decimal(9000001) == Decimal(900000) + "1";
  }

  /** The id of a parameter row: the number of parameter rows before it, from 9000001. */
  ghost function IdAt(xs: seq<Exclusion>, i: nat): nat
    requires i < |xs|
  {
    9000001 + |set k | 0 <= k < i && xs[k].param != ""|
  }

  lemma RowPrints(xs: seq<Exclusion>, i: nat)
    requires AllValid(xs) && i < |xs|
    ensures Prints(Line(Rows(xs)[i]), xs[i], IdAt(xs, i))
  {
    IdsCountFromBase(xs, i);
    LinePrints(Rows(xs)[i]);
  }

  ghost predicate PrintsAll(lines: seq<string>, xs: seq<Exclusion>) {
    |lines| >= |xs| && forall i :: 0 <= i < |xs| ==> Prints(lines[i], xs[i], IdAt(xs, i))
  }

  /** What stands under the preamble. */
  ghost predicate ListsAll(lines: seq<string>, xs: seq<Exclusion>) {
    if xs == [] then lines == ["# No exclusions configured for this domain.", "", ""]
    else |lines| == |xs| + 2 && lines[|xs|..] == ["", ""] && PrintsAll(lines, xs)
  }

  lemma BodyPrints(xs: seq<Exclusion>)
    requires AllValid(xs)
    ensures ListsAll(Split(Body(Rows(xs)), '\n'), xs)
  {
    RowsAreValid(xs);
    SplitBody(Rows(xs));
    forall i | 0 <= i < |xs|
      ensures Prints(Split(Body(Rows(xs)), '\n')[i], xs[i], IdAt(xs, i))
    {
      RowPrints(xs, i);
    }
  }

  lemma ManagedLineText()
    ensures MANAGED_LINE == "# Caddy WAF UI managed - do not edit manually"
  {
  }

  /** The generated text, line by line: the remark that the program manages it, the header, an
      empty line, and then a line for each exclusion of the deduplicated list, in order, those
      with a parameter numbered from 9000001. */
  lemma GeneratedLines(domain: string, xs: seq<Exclusion>, now: Stamp)
    requires ValidDomain(domain) && AllValid(xs) && Civil(now)
    ensures
      var lines := Split(OverlayText(domain, xs, now), '\n');
      && |lines| >= 3 && lines == ["# Caddy WAF UI managed - do not edit manually", Header(domain, "", now), ""] +
         lines[3..]
      && ListsAll(lines[3..], Dedupe(xs))
  {
    var header, rows := Header(domain, "", now), Rows(Dedupe(xs));
    DedupeValid(xs);
    HeaderIsOneLine(domain, "", now);
    SplitPreamble(header, Body(rows));
    BodyPrints(Dedupe(xs));
    ManagedLineText();
    Preamble(Split(OverlayText(domain, xs, now), '\n'), MANAGED_LINE, header, Split(Body(rows), '\n'));
  }

  lemma Preamble(lines: seq<string>, managed: string, header: string, rest: seq<string>)
    requires lines == [managed] + ([header] + ([""] + rest))
    ensures lines == [managed, header, ""] + lines[3..] && lines[3..] == rest
  {
  }
}
