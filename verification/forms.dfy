/** Adding one rule from a form: read the overlay back, append, and send the whole list
    through the chain (internal/ui/forms.go, internal/service/chain.go). The handlers read
    outside the lock: here one add follows another, in `ConcurrentForms` they overlap. */
module Forms {
  import opened Text
  import opened Naming
  import opened Files
  import opened Headers
  import opened ExclusionRules
  import opened IPRuleLists
  import Blocks
  import Chain

  /** Refused before the chain starts, or ended with the chain's result. */
  datatype Reply = Refused | Ended(result: Chain.Result)
  {
    /** The new overlay is on disk: the run succeeded, or its restore failed. */
    predicate Landed() {
      this == Ended(Chain.Done) || this == Ended(Chain.Failed(Chain.Restoring))
    }
  }

  /** Everything outside the program that one add depends on. */
  datatype Outside = Outside(readFails: bool, templateFails: bool, now: Stamp, script: Chain.Script)
  {
    predicate Valid() {
      Civil(now) && script.Valid()
    }
  }

  // -------------------------------------------------------------------- exclusions

  function ExclusionsFile(domain: string): string {
    OverlayName(Exclusions, DomainSlug(domain))
  }

  /** The exclusions an overlay holds; none without an overlay. */
  function ExclusionsIn(content: Option<Bytes>): seq<Exclusion> {
    match content
    case None => []
    case Some(text) => ParsedOverlay(text)
  }

  function StoredExclusions(w: Chain.World, domain: string): seq<Exclusion> {
    ExclusionsIn(Get(w.managed, ExclusionsFile(domain)))
  }

  function ExclusionsRequest(domain: string, xs: seq<Exclusion>, o: Outside): Chain.Request
    requires o.Valid()
  {
    Chain.Change(Exclusions, DomainSlug(domain), if o.templateFails then None else Some(OverlayText(domain, xs, o.now)))
  }

  ghost function UpdateExclusions(w: Chain.World, domain: string, xs: seq<Exclusion>, o: Outside, keep: nat)
    : (Chain.World, Reply)
    requires o.Valid()
  {
    if !ValidDomain(domain) || !AllValid(xs) then (w, Refused)
    else
      var (w', result) := Chain.Ran(w, ExclusionsRequest(domain, xs, o), o.script, keep);
      (w', Ended(result))
  }

  ghost function AddExclusion(w: Chain.World, domain: string, x: Exclusion, o: Outside, keep: nat): (Chain.World, Reply)
    requires o.Valid()
  {
    if o.readFails then (w, Refused)
    else UpdateExclusions(w, domain, StoredExclusions(w, domain) + [x], o, keep)
  }

  // ----------------------------------------------------------------------- IP rules

  datatype Action = Deny | Allow | Other

  function RulesFile(domain: string): string {
    OverlayName(IPRules, DomainSlug(domain))
  }

  function RulesIn(content: Option<Bytes>): Rules {
    match content
    case None => Rules([], [])
    case Some(text) => ParsedRules(text)
  }

  function StoredRules(w: Chain.World, domain: string): Rules {
    RulesIn(Get(w.managed, RulesFile(domain)))
  }

  function Appended(rules: Rules, action: Action, entry: string): Rules {
    match action
    case Deny => rules.(deny := rules.deny + [entry])
    case Allow => rules.(allow := rules.allow + [entry])
    case Other => rules
  }

  function RulesRequest(domain: string, normal: Rules, o: Outside): Chain.Request
    requires o.Valid()
  {
    Chain.Change(IPRules, DomainSlug(domain), if o.templateFails then None else Some(RulesText(domain, normal, o.now)))
  }

  ghost function UpdateRules(w: Chain.World, domain: string, rules: Rules, o: Outside, keep: nat): (Chain.World, Reply)
    requires o.Valid()
  {
    if !ValidDomain(domain) || NormalizeRules(rules).None? then (w, Refused)
    else
      var (w', result) := Chain.Ran(w, RulesRequest(domain, NormalizeRules(rules).value, o), o.script, keep);
      (w', Ended(result))
  }

  ghost function AddRule(w: Chain.World, domain: string, action: Action, entry: string, o: Outside, keep: nat)
    : (Chain.World, Reply)
    requires o.Valid()
  {
    if o.readFails || action.Other? then (w, Refused)
    else UpdateRules(w, domain, Appended(StoredRules(w, domain), action, entry), o, keep)
  }

  // --------------------------------------------------------------------- the handlers

  class Handlers {
    const service: Chain.Service

    constructor (service: Chain.Service)
      ensures this.service == service
    {
      this.service := service;
    }

    method CurrentExclusions(domain: string) returns (xs: seq<Exclusion>)
      ensures xs == StoredExclusions(service.View(), domain)
    {
      if ExclusionsFile(domain) !in service.fs.managed {
        return [];
      }
      xs := ParseExclusionsOverlay(service.fs.managed[ExclusionsFile(domain)]);
    }

    method CurrentRules(domain: string) returns (rules: Rules)
      ensures rules == StoredRules(service.View(), domain)
    {
      if RulesFile(domain) !in service.fs.managed {
        return Rules([], []);
      }
      rules := ParseIPRulesOverlay(service.fs.managed[RulesFile(domain)]);
    }

    method ChangeExclusions(domain: string, xs: seq<Exclusion>, o: Outside, keep: nat) returns (reply: Reply)
      requires o.Valid()
      modifies service`live, service.fs, service.admin
      ensures (service.View(), reply) == UpdateExclusions(old(service.View()), domain, xs, o, keep)
    {
      if !ValidDomain(domain) {
        return Refused;
      }
      var text := GenerateExclusions(domain, xs, o.now);
      if text.None? {
        return Refused;
      }
      var req := Chain.Change(Exclusions, DomainSlug(domain), if o.templateFails then None else text);
      var result := service.RunChain(req, o.script, keep);
      return Ended(result);
    }

    method HandleAddExclusion(domain: string, x: Exclusion, o: Outside, keep: nat) returns (reply: Reply)
      requires o.Valid()
      modifies service`live, service.fs, service.admin
      ensures (service.View(), reply) == AddExclusion(old(service.View()), domain, x, o, keep)
    {
      if o.readFails {
        return Refused;
      }
      var current := CurrentExclusions(domain);
      reply := ChangeExclusions(domain, current + [x], o, keep);
    }

    method ChangeRules(domain: string, rules: Rules, o: Outside, keep: nat) returns (reply: Reply)
      requires o.Valid()
      modifies service`live, service.fs, service.admin
      ensures (service.View(), reply) == UpdateRules(old(service.View()), domain, rules, o, keep)
    {
      if !ValidDomain(domain) {
        return Refused;
      }
      var text := GenerateSnippet(domain, rules, o.now);
      if text.None? {
        return Refused;
      }
      var req := Chain.Change(IPRules, DomainSlug(domain), if o.templateFails then None else text);
      var result := service.RunChain(req, o.script, keep);
      return Ended(result);
    }

    method HandleAddRule(domain: string, action: Action, entry: string, o: Outside, keep: nat) returns (reply: Reply)
      requires o.Valid()
      modifies service`live, service.fs, service.admin
      ensures (service.View(), reply) == AddRule(old(service.View()), domain, action, entry, o, keep)
    {
      if o.readFails || action.Other? {
        return Refused;
      }
      var current := CurrentRules(domain);
      reply := ChangeRules(domain, Appended(current, action, entry), o, keep);
    }
  }

  // ------------------------------------------------------------------- one add's effect

  /** After a change that landed the overlay holds its text; otherwise it is as before. */
  lemma ChangeLandsOrNot(w: Chain.World, req: Chain.Request, s: Chain.Script, keep: nat)
    requires req.Change? && s.Valid()
    ensures
      var (w', result) := Chain.Ran(w, req, s, keep);
      if Ended(result).Landed() then req.generated.Some? && Get(w'.managed, req.Target()) == req.generated
      else Get(w'.managed, req.Target()) == Get(w.managed, req.Target())
  {
    Chain.RunIsAllOrNothing(w, req, s, keep);
    OverlayIsConf(req.fileType, req.slug);
    var w' := Chain.Ran(w, req, s, keep).0;
    OverlaysGet(w'.managed, req.Target());
    OverlaysGet(w.managed, req.Target());
  }

  lemma OverlaysGet(dir: Dir, name: string)
    requires IsConf(name)
    ensures Get(Overlays(dir), name) == Get(dir, name)
  {
  }

  /** What a run that was started stores: the request's list, deduplicated, or nothing new. */
  lemma ExclusionsAfterRun(w: Chain.World, domain: string, xs: seq<Exclusion>, o: Outside, keep: nat)
    requires o.Valid() && ValidDomain(domain) && AllValid(xs)
    ensures
      var (w', result) := Chain.Ran(w, ExclusionsRequest(domain, xs, o), o.script, keep);
      StoredExclusions(w', domain) == if Ended(result).Landed() then Dedupe(xs) else StoredExclusions(w, domain)
  {
    ChangeLandsOrNot(w, ExclusionsRequest(domain, xs, o), o.script, keep);
    OverlayRoundTrip(domain, xs, o.now);
  }

  /** A whole list sent through the chain. */
  lemma UpdateExclusionsEffect(w: Chain.World, domain: string, xs: seq<Exclusion>, o: Outside, keep: nat)
    requires o.Valid()
    ensures
      var (w', reply) := UpdateExclusions(w, domain, xs, o, keep);
      StoredExclusions(w', domain) == if reply.Landed() then Dedupe(xs) else StoredExclusions(w, domain)
  {
    if ValidDomain(domain) && AllValid(xs) {
      ExclusionsAfterRun(w, domain, xs, o, keep);
    }
  }

  /** One add, whatever happens: the list gains the exclusion (unless it was there) when
      the overlay landed, and is untouched otherwise. */
  lemma AddExclusionEffect(w: Chain.World, domain: string, x: Exclusion, o: Outside, keep: nat)
    requires o.Valid()
    ensures
      var (w', reply) := AddExclusion(w, domain, x, o, keep);
      StoredExclusions(w', domain) ==
      if reply.Landed() then Dedupe(StoredExclusions(w, domain) + [x]) else StoredExclusions(w, domain)
    ensures AddExclusion(w, domain, x, o, keep).1.Landed() ==> AllValid(StoredExclusions(w, domain) + [x])
  {
    UpdateExclusionsEffect(w, domain, StoredExclusions(w, domain) + [x], o, keep);
  }

  /** What is stored can always be stored again: an add is refused, and changes nothing, exactly when
      the overlay cannot be read or the domain or the exclusion itself is not accepted. */
  lemma AddIsRefusedIff(w: Chain.World, domain: string, x: Exclusion, o: Outside, keep: nat)
    requires o.Valid()
    ensures AddExclusion(w, domain, x, o, keep).1 == Refused ==> AddExclusion(w, domain, x, o, keep).0 == w
    ensures AddExclusion(w, domain, x, o, keep).1 == Refused <==>
            o.readFails || !ValidDomain(domain) || !ValidExclusion(x)
  {
    var stored := StoredExclusions(w, domain);
    if ExclusionsFile(domain) in w.managed {
      OverlayIsReadAs(w.managed[ExclusionsFile(domain)]);
    }
    assert AllValid(stored);
    assert (stored + [x])[|stored|] == x;
  }

  ghost predicate IsNormal(rules: Rules) {
    NormalizeRules(rules) == Some(rules)
  }

  lemma AppendedNormalizes(rules: Rules, action: Action, entry: string)
    requires !action.Other?
    ensures NormalizeRules(Appended(rules, action, entry)) ==
            match (NormalizeRules(rules), Blocks.NormalizeEntry(entry))
            case (Some(normal), Some(norm)) => Some(Appended(normal, action, norm))
            case _ => None
  {
    NormalizeSnoc(rules.deny, entry);
    NormalizeSnoc(rules.allow, entry);
  }

  lemma NormalizedRulesAreNormal(rules: Rules)
    requires NormalizeRules(rules).Some?
    ensures IsNormal(NormalizeRules(rules).value)
  {
    NormalizedListIsFixed(rules.deny);
    NormalizedListIsFixed(rules.allow);
  }

  lemma RulesAfterRun(w: Chain.World, domain: string, rules: Rules, o: Outside, keep: nat)
    requires o.Valid() && ValidDomain(domain) && NormalizeRules(rules).Some?
    ensures
      var (w', result) := Chain.Ran(w, RulesRequest(domain, NormalizeRules(rules).value, o), o.script, keep);
      StoredRules(w', domain) == if Ended(result).Landed() then NormalizeRules(rules).value else StoredRules(w, domain)
  {
    ChangeLandsOrNot(w, RulesRequest(domain, NormalizeRules(rules).value, o), o.script, keep);
    GeneratedRulesParse(domain, rules, o.now);
  }

  /** Whole lists sent through the chain. */
  lemma UpdateRulesEffect(w: Chain.World, domain: string, rules: Rules, o: Outside, keep: nat)
    requires o.Valid()
    ensures
      var (w', reply) := UpdateRules(w, domain, rules, o, keep);
      && (reply.Landed() ==> NormalizeRules(rules).Some?)
      && StoredRules(w', domain) == if reply.Landed() then NormalizeRules(rules).value else StoredRules(w, domain)
  {
    if ValidDomain(domain) && NormalizeRules(rules).Some? {
      RulesAfterRun(w, domain, rules, o, keep);
    }
  }

  /** What one add makes of the stored rules: once landed both lists are normal, the chosen
      one with the normalised entry at its end; otherwise they are as they were. */
  ghost predicate RuleAdded(before: Rules, after: Rules, action: Action, entry: string, landed: bool) {
    if landed then
      && NormalizeRules(before).Some? && Blocks.NormalizeEntry(entry).Some?
      && after == Appended(NormalizeRules(before).value, action, Blocks.NormalizeEntry(entry).value)
      && IsNormal(after)
    else after == before
  }

  lemma RuleOutcome(before: Rules, after: Rules, action: Action, entry: string, landed: bool)
    requires !action.Other? && NormalizeRules(Appended(before, action, entry)).Some?
    requires after == if landed then NormalizeRules(Appended(before, action, entry)).value else before
    ensures RuleAdded(before, after, action, entry, landed)
  {
    AppendedNormalizes(before, action, entry);
    NormalizedRulesAreNormal(Appended(before, action, entry));
  }

  ghost predicate AllNormalize(entries: seq<string>) {
    forall i :: 0 <= i < |entries| ==> Blocks.NormalizeEntry(entries[i]).Some?
  }

  lemma NormalizesIff(rules: Rules)
    ensures NormalizeRules(rules).Some? <==> AllNormalize(rules.deny) && AllNormalize(rules.allow)
  {
    MappedAt(Blocks.NormalizeEntry, rules.deny);
    MappedAt(Blocks.NormalizeEntry, rules.allow);
  }

  /** An IP add is refused, and changes nothing, exactly when the overlay cannot be read, the action is
      neither of the two, the domain or the entry is not accepted, or the overlay holds a word that is
      none: that one refuses every later add. */
  lemma AddRuleIsRefusedIff(w: Chain.World, domain: string, action: Action, entry: string, o: Outside, keep: nat)
    requires o.Valid()
    ensures
      var stored := StoredRules(w, domain);
      AddRule(w, domain, action, entry, o, keep).1 == Refused <==>
      || o.readFails || action.Other? || !ValidDomain(domain) || Blocks.NormalizeEntry(entry).None?
      || !AllNormalize(stored.deny) || !AllNormalize(stored.allow)
    ensures AddRule(w, domain, action, entry, o, keep).1 == Refused ==>
              AddRule(w, domain, action, entry, o, keep).0 == w
  {
    NormalizesIff(StoredRules(w, domain));
    if !action.Other? {
      AppendedNormalizes(StoredRules(w, domain), action, entry);
    }
  }

  ghost predicate RuleAccepted(w: Chain.World, domain: string, action: Action, entry: string, o: Outside) {
    && !o.readFails && !action.Other? && ValidDomain(domain)
    && NormalizeRules(Appended(StoredRules(w, domain), action, entry)).Some?
  }

  /** An add is refused, or a run with the normalised rules. */
  lemma AddRuleRunsIff(w: Chain.World, domain: string, action: Action, entry: string, o: Outside, keep: nat)
    requires o.Valid()
    ensures
      var normal := NormalizeRules(Appended(StoredRules(w, domain), action, entry));
      AddRule(w, domain, action, entry, o, keep) ==
      if RuleAccepted(w, domain, action, entry, o) then
        var (w', result) := Chain.Ran(w, RulesRequest(domain, normal.value, o), o.script, keep);
        (w', Ended(result))
      else (w, Refused)
  {
  }

  /** One add, whatever happens, does that to the stored rules. */
  lemma AddRuleEffect(w: Chain.World, domain: string, action: Action, entry: string, o: Outside, keep: nat)
    requires o.Valid()
    ensures
      var (w', reply) := AddRule(w, domain, action, entry, o, keep);
      RuleAdded(StoredRules(w, domain), StoredRules(w', domain), action, entry, reply.Landed())
  {
    var (w', reply) := AddRule(w, domain, action, entry, o, keep);
    AddRuleRunsIff(w, domain, action, entry, o, keep);
    if RuleAccepted(w, domain, action, entry, o) {
      RulesAfterRun(w, domain, Appended(StoredRules(w, domain), action, entry), o, keep);
      RuleOutcome(StoredRules(w, domain), StoredRules(w', domain), action, entry, reply.Landed());
    } else {
      assert !reply.Landed();
    }
  }

  // ------------------------------------------------------------------- sequences of adds

  datatype ExclusionAdd = ExclusionAdd(x: Exclusion, outside: Outside)

  ghost predicate ValidAdds(adds: seq<ExclusionAdd>) {
    forall i :: 0 <= i < |adds| ==> adds[i].outside.Valid()
  }

  ghost function AfterAdds(w: Chain.World, domain: string, adds: seq<ExclusionAdd>, keep: nat): Chain.World
    requires ValidAdds(adds)
  {
    if adds == [] then w
    else
      var before, a := AfterAdds(w, domain, adds[..|adds| - 1], keep), adds[|adds| - 1];
      AddExclusion(before, domain, a.x, a.outside, keep).0
  }

  /** The exclusions whose overlays landed, in order. */
  ghost function LandedAdds(w: Chain.World, domain: string, adds: seq<ExclusionAdd>, keep: nat): seq<Exclusion>
    requires ValidAdds(adds)
  {
    if adds == [] then []
    else
      var front, a := adds[..|adds| - 1], adds[|adds| - 1];
      if AddExclusion(AfterAdds(w, domain, front, keep), domain, a.x, a.outside, keep).1.Landed()
      then LandedAdds(w, domain, front, keep) + [a.x]
      else LandedAdds(w, domain, front, keep)
  }

  /** Any sequence of adds with any outcomes ends with the earlier exclusions and the ones
      that landed, deduplicated, in order: none lost, none reordered. */
  lemma {:induction false} AddsAccumulate(w: Chain.World, domain: string, adds: seq<ExclusionAdd>, keep: nat)
    requires ValidAdds(adds)
    ensures
      var start, landed := StoredExclusions(w, domain), LandedAdds(w, domain, adds, keep);
      StoredExclusions(AfterAdds(w, domain, adds, keep), domain) ==
      if landed == [] then start else Dedupe(start + landed)
  {
    if adds != [] {
      var front, a := adds[..|adds| - 1], adds[|adds| - 1];
      AddsAccumulate(w, domain, front, keep);
      AddExclusionEffect(AfterAdds(w, domain, front, keep), domain, a.x, a.outside, keep);
      DedupeOneMore(StoredExclusions(w, domain), LandedAdds(w, domain, front, keep), a.x);
    }
  }

  /** Deduplicating after every add is deduplicating once. */
  lemma DedupeOneMore(start: seq<Exclusion>, landed: seq<Exclusion>, x: Exclusion)
    ensures Dedupe((if landed == [] then start else Dedupe(start + landed)) + [x]) == Dedupe(start + (landed + [x]))
  {
    assert start + (landed + [x]) == (start + landed) + [x];
    if landed == [] {
      assert start + landed == start;
    } else {
      DedupeSnoc(start + landed, x);
      DedupeIsExact(start + landed);
      DedupeKeepsDistinct(Dedupe(start + landed));
      DedupeSnoc(Dedupe(start + landed), x);
    }
  }

  /** ... and no existing rule changes place or id, if and only if no add landed or the list
      had no duplicates to begin with. */
  lemma AddsNeverRenumber(w: Chain.World, domain: string, adds: seq<ExclusionAdd>, keep: nat)
    requires ValidAdds(adds)
    ensures Rows(StoredExclusions(w, domain)) <= Rows(StoredExclusions(AfterAdds(w, domain, adds, keep), domain)) <==>
            LandedAdds(w, domain, adds, keep) == [] || Distinct(StoredExclusions(w, domain))
  {
    AddsAccumulate(w, domain, adds, keep);
    RowsStayIff(StoredExclusions(w, domain), LandedAdds(w, domain, adds, keep));
  }

  datatype RuleAdd = RuleAdd(action: Action, entry: string, outside: Outside)

  ghost predicate ValidRuleAdds(adds: seq<RuleAdd>) {
    forall i :: 0 <= i < |adds| ==> adds[i].outside.Valid()
  }

  ghost function AfterRuleAdds(w: Chain.World, domain: string, adds: seq<RuleAdd>, keep: nat): Chain.World
    requires ValidRuleAdds(adds)
  {
    if adds == [] then w
    else
      var before, a := AfterRuleAdds(w, domain, adds[..|adds| - 1], keep), adds[|adds| - 1];
      AddRule(before, domain, a.action, a.entry, a.outside, keep).0
  }

  /** The normalised entry, if this add landed. */
  ghost function LandedEntry(before: Chain.World, domain: string, a: RuleAdd, keep: nat): Option<string>
    requires a.outside.Valid()
  {
    if AddRule(before, domain, a.action, a.entry, a.outside, keep).1.Landed() then Blocks.NormalizeEntry(a.entry)
    else None
  }

  /** The normalised entries of one action that landed, in order. */
  ghost function LandedEntries(w: Chain.World, domain: string, adds: seq<RuleAdd>, action: Action, keep: nat)
    : seq<string>
    requires ValidRuleAdds(adds)
  {
    if adds == [] then []
    else
      var front, a := adds[..|adds| - 1], adds[|adds| - 1];
      match LandedEntry(AfterRuleAdds(w, domain, front, keep), domain, a, keep)
      case Some(entry) =>
        if a.action == action then LandedEntries(w, domain, front, action, keep) + [entry]
        else LandedEntries(w, domain, front, action, keep)
      case None => LandedEntries(w, domain, front, action, keep)
  }

  lemma RuleAddStep(before: Chain.World, domain: string, a: RuleAdd, keep: nat)
    requires a.outside.Valid()
    ensures
      var after := AddRule(before, domain, a.action, a.entry, a.outside, keep).0;
      match LandedEntry(before, domain, a, keep)
      case Some(entry) =>
        && !a.action.Other? && NormalizeRules(StoredRules(before, domain)).Some?
        && StoredRules(after, domain) == Appended(NormalizeRules(StoredRules(before, domain)).value, a.action, entry)
        && IsNormal(StoredRules(after, domain))
      case None => StoredRules(after, domain) == StoredRules(before, domain)
  {
    AddRuleEffect(before, domain, a.action, a.entry, a.outside, keep);
  }

  /** The rules `start` after the landed entries `deny` and `allow`: unchanged without any,
      and otherwise normalised, each list with more entries at its end. */
  ghost predicate Gained(start: Rules, now: Rules, deny: seq<string>, allow: seq<string>) {
    if deny == [] && allow == [] then now == start
    else
      && NormalizeRules(start).Some? && IsNormal(now)
      && now.deny == NormalizeRules(start).value.deny + deny
      && now.allow == NormalizeRules(start).value.allow + allow
  }

  lemma ListsGain(normal: Rules, now: Rules, deny: seq<string>, allow: seq<string>, action: Action, entry: string)
    requires !action.Other? && now == Rules(normal.allow + allow, normal.deny + deny)
    ensures Appended(now, action, entry).deny == normal.deny + if action.Deny? then deny + [entry] else deny
    ensures Appended(now, action, entry).allow == normal.allow + if action.Allow? then allow + [entry] else allow
  {
  }

  lemma AppendedGains(start: Rules, now: Rules, deny: seq<string>, allow: seq<string>, action: Action, entry: string)
    requires Gained(start, now, deny, allow) && !action.Other?
    requires NormalizeRules(now).Some? && IsNormal(Appended(NormalizeRules(now).value, action, entry))
    ensures Gained(start, Appended(NormalizeRules(now).value, action, entry),
                   if action.Deny? then deny + [entry] else deny, if action.Allow? then allow + [entry] else allow)
  {
    var normal := NormalizeRules(start).value;
    if deny == [] && allow == [] {
      ListsGain(normal, normal, [], [], action, entry);
    } else {
      assert NormalizeRules(now).value == now;
      ListsGain(normal, now, deny, allow, action, entry);
    }
  }

  lemma LandedSnoc(w: Chain.World, domain: string, adds: seq<RuleAdd>, action: Action, keep: nat)
    requires ValidRuleAdds(adds) && adds != []
    ensures
      var front, a := adds[..|adds| - 1], adds[|adds| - 1];
      var landed := LandedEntry(AfterRuleAdds(w, domain, front, keep), domain, a, keep);
      LandedEntries(w, domain, adds, action, keep) ==
      if landed.Some? && a.action == action then LandedEntries(w, domain, front, action, keep) + [landed.value]
      else LandedEntries(w, domain, front, action, keep)
  {
  }

  /** Any sequence of IP adds with any outcomes leaves each list with its earlier entries
      and then its landed ones, normalised: none lost, merged, or moved to the other list. */
  lemma {:induction false} RuleAddsAccumulate(w: Chain.World, domain: string, adds: seq<RuleAdd>, keep: nat)
    requires ValidRuleAdds(adds)
    ensures Gained(StoredRules(w, domain), StoredRules(AfterRuleAdds(w, domain, adds, keep), domain),
                   LandedEntries(w, domain, adds, Deny, keep), LandedEntries(w, domain, adds, Allow, keep))
  {
    if adds != [] {
      var front, a := adds[..|adds| - 1], adds[|adds| - 1];
      RuleAddsAccumulate(w, domain, front, keep);
      var before := AfterRuleAdds(w, domain, front, keep);
      LandedSnoc(w, domain, adds, Deny, keep);
      LandedSnoc(w, domain, adds, Allow, keep);
      RuleAddStep(before, domain, a, keep);
      var landed := LandedEntry(before, domain, a, keep);
      if landed.Some? {
        AppendedGains(StoredRules(w, domain), StoredRules(before, domain), LandedEntries(w, domain, front, Deny, keep),
                      LandedEntries(w, domain, front, Allow, keep), a.action, landed.value);
      }
    }
  }
}
