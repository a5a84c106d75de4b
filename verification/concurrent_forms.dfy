/** The add forms used at once: exactly when no exclusion and no IP entry is lost, and what
    can be lost or come back otherwise. */
module ConcurrentForms {
  import opened Text
  import opened Naming
  import opened Files
  import opened Chain
  import opened Headers
  import opened ExclusionRules
  import opened IPRuleLists
  import opened Forms
  import opened AddHistories
  import opened UnlockedReads
  import opened ConcurrentAdds
  import Blocks
  import Caddy
  import Rollbacks

  // -------------------------------------------------------------------- exclusions

  function WithExclusion(xs: seq<Exclusion>, x: Exclusion): seq<Exclusion> {
    Dedupe(xs + [x])
  }

  function ExclusionsForm(domain: string): Form<seq<Exclusion>, Exclusion> {
    Form(ExclusionsFile(domain), ExclusionsIn, WithExclusion, _ => None, AllValid)
  }

  /** The request that the handler sends through the chain, given what it read. */
  function ExclusionRun(domain: string, x: Exclusion, o: Outside, content: Option<Bytes>): Option<Request>
    requires o.Valid()
  {
    var merged := ExclusionsIn(content) + [x];
    if ValidDomain(domain) && AllValid(merged) then Some(ExclusionsRequest(domain, merged, o)) else None
  }

  function ExclusionTask(domain: string, x: Exclusion, o: Outside): Task<Exclusion>
    requires o.Valid()
  {
    Add(Client(ExclusionsFile(domain), o.readFails, content => ExclusionRun(domain, x, o, content), o.script), x)
  }

  /** Alone, the client does what the handler does. */
  lemma ExclusionTaskIsHandler(w: World, domain: string, x: Exclusion, o: Outside, keep: nat)
    requires o.Valid()
    ensures
      var c := ExclusionTask(domain, x, o).client;
      var prepared := c.prepare(Get(w.managed, c.file));
      AddExclusion(w, domain, x, o, keep) ==
      if c.readFails || prepared.None? then (w, Reply.Refused)
      else (Ran(w, prepared.value, c.script, keep).0, Ended(Ran(w, prepared.value, c.script, keep).1))
  {
  }

  lemma GeneratedExclusions(domain: string, xs: seq<Exclusion>, o: Outside)
    requires o.Valid() && ValidDomain(domain) && AllValid(xs)
    ensures
      var req := ExclusionsRequest(domain, xs, o);
      && req.Change? && req.Target() == ExclusionsFile(domain)
      && (req.generated.Some? ==> ExclusionsIn(req.generated) == Dedupe(xs))
  {
    OverlayRoundTrip(domain, xs, o.now);
  }

  lemma ValidPrefix(xs: seq<Exclusion>, x: Exclusion)
    requires AllValid(xs + [x])
    ensures AllValid(xs)
  {
    assert forall i :: 0 <= i < |xs| ==> (xs + [x])[i] == xs[i];
  }

  lemma ExclusionRunAdds(domain: string, x: Exclusion, o: Outside, content: Option<Bytes>)
    requires o.Valid() && ExclusionRun(domain, x, o, content).Some?
    ensures AddsEntry(ExclusionsForm(domain), x, content, ExclusionRun(domain, x, o, content).value)
  {
    GeneratedExclusions(domain, ExclusionsIn(content) + [x], o);
    ValidPrefix(ExclusionsIn(content), x);
  }

  lemma ExclusionTaskFits(domain: string, x: Exclusion, o: Outside)
    requires o.Valid()
    ensures Fits(ExclusionsForm(domain), ExclusionTask(domain, x, o))
  {
    OverlayIsConf(Exclusions, DomainSlug(domain));
    forall content | ExclusionRun(domain, x, o, content).Some?
      ensures AddsEntry(ExclusionsForm(domain), x, content, ExclusionRun(domain, x, o, content).value)
    {
      ExclusionRunAdds(domain, x, o, content);
    }
  }

  /** The entries of `ys` that are not in `xs`, once each. */
  function News(xs: seq<Exclusion>, ys: seq<Exclusion>): seq<Exclusion> {
    if ys == [] then []
    else
      var front, y := News(xs, ys[..|ys| - 1]), ys[|ys| - 1];
      if y in xs || y in front then front else front + [y]
  }

  lemma {:induction false} DedupeIsOldAndNews(xs: seq<Exclusion>, ys: seq<Exclusion>)
    ensures Dedupe(xs + ys) == Dedupe(xs) + News(xs, ys)
  {
    if ys == [] {
      assert xs + ys == xs;
    } else {
      var front, y := ys[..|ys| - 1], ys[|ys| - 1];
      assert xs + ys == (xs + front) + [y];
      DedupeIsOldAndNews(xs, front);
      DedupeSnoc(xs + front, y);
      DedupeIsExact(xs);
      assert y in Dedupe(xs + front) <==> y in xs || y in News(xs, front);
    }
  }

  lemma {:induction false} FoldIsDedupe(start: seq<Exclusion>, xs: seq<Exclusion>)
    ensures Fold(WithExclusion, start, xs) == if xs == [] then start else Dedupe(start + xs)
  {
    if xs != [] {
      var front, x := xs[..|xs| - 1], xs[|xs| - 1];
      FoldIsDedupe(start, front);
      DedupeOneMore(start, front, x);
      assert xs == front + [x];
    }
  }

  /** The list that landed adds should make: deduplicated, in order, nothing lost, nothing else. */
  function ExclusionsOfAll(start: seq<Exclusion>, landed: seq<Exclusion>): seq<Exclusion> {
    if landed == [] then start else Dedupe(start + landed)
  }

  /** The `j`-th run's add: of what landed after the list that it had read was stored, and of
      what it had read of failed adds, the entries new to that list are, with its own, the same. */
  ghost predicate ExclusionUpToDate(lists: seq<seq<Exclusion>>, log: seq<Run<Exclusion>>, j: nat)
    requires Causal(log) && |lists| == |log| + 1 && j < |log| && log[j].Run?
  {
    var list, x := lists[Basis(log, j)], log[j].x;
    News(list, Landed(log, Basis(log, j), j) + [x]) == News(list, Ghosts(log, j) + [x])
  }

  lemma ExclusionUpToDateIff(list: seq<Exclusion>, missed: seq<Exclusion>, ghosts: seq<Exclusion>, x: Exclusion)
    ensures Fold(WithExclusion, list, missed + [x]) == Fold(WithExclusion, list, ghosts + [x]) <==>
            News(list, missed + [x]) == News(list, ghosts + [x])
  {
    FoldIsDedupe(list, missed + [x]);
    FoldIsDedupe(list, ghosts + [x]);
    DedupeIsOldAndNews(list, missed + [x]);
    DedupeIsOldAndNews(list, ghosts + [x]);
    var kept := Dedupe(list);
    var m, g := News(list, missed + [x]), News(list, ghosts + [x]);
    assert (kept + m)[|kept|..] == m && (kept + g)[|kept|..] == g;
  }

  lemma StoredExclusionsUpToDateIff(lists: seq<seq<Exclusion>>, log: seq<Run<Exclusion>>, j: nat)
    requires Causal(log) && |lists| == |log| + 1 && j < |log| && log[j].Run?
    requires lists[Basis(log, j)] == StoredAfter(WithExclusion, lists[0], log, Basis(log, j))
    ensures UpToDate(WithExclusion, lists[0], log, j) <==> ExclusionUpToDate(lists, log, j)
  {
    ExclusionUpToDateIff(lists[Basis(log, j)], Landed(log, Basis(log, j), j), Ghosts(log, j), log[j].x);
  }

  lemma AccumulatedExclusions(start: seq<Exclusion>, log: seq<Run<Exclusion>>, n: nat)
    requires n <= |log|
    ensures Accumulated(WithExclusion, start, log, n) == ExclusionsOfAll(start, Landed(log, 0, n))
  {
    FoldIsDedupe(start, Landed(log, 0, n));
  }

  lemma AllExclusionsUpToDateIff(lists: seq<seq<Exclusion>>, log: seq<Run<Exclusion>>)
    requires Causal(log) && |lists| == |log| + 1
    requires forall n :: 0 <= n < |lists| ==> lists[n] == StoredAfter(WithExclusion, lists[0], log, n)
    ensures forall j :: 0 <= j < |log| && log[j].Lands() ==>
                          (UpToDate(WithExclusion, lists[0], log, j) <==> ExclusionUpToDate(lists, log, j))
  {
    forall j | 0 <= j < |log| && log[j].Lands()
      ensures UpToDate(WithExclusion, lists[0], log, j) <==> ExclusionUpToDate(lists, log, j)
    {
      StoredExclusionsUpToDateIff(lists, log, j);
    }
  }

  /** After every run the list is what the landed adds should make. */
  ghost predicate NothingLost(lists: seq<seq<Exclusion>>, log: seq<Run<Exclusion>>)
    requires |lists| == |log| + 1
  {
    forall n :: 0 <= n < |lists| ==> lists[n] == ExclusionsOfAll(lists[0], Landed(log, 0, n))
  }

  lemma NothingLostIff(lists: seq<seq<Exclusion>>, log: seq<Run<Exclusion>>)
    requires |lists| == |log| + 1
    ensures NothingLost(lists, log) <==>
            forall n :: 0 <= n < |lists| ==> lists[n] == Accumulated(WithExclusion, lists[0], log, n)
  {
    forall n | 0 <= n < |lists|
      ensures Accumulated(WithExclusion, lists[0], log, n) == ExclusionsOfAll(lists[0], Landed(log, 0, n))
    {
      AccumulatedExclusions(lists[0], log, n);
    }
  }

  lemma ExclusionHistoryIff(lists: seq<seq<Exclusion>>, log: seq<Run<Exclusion>>)
    requires Causal(log) && |lists| == |log| + 1
    requires forall n :: 0 <= n < |lists| ==> lists[n] == StoredAfter(WithExclusion, lists[0], log, n)
    ensures NothingLost(lists, log) <==>
            forall j :: 0 <= j < |log| && log[j].Lands() ==> ExclusionUpToDate(lists, log, j)
  {
    ListsAreAccumulatedIff(WithExclusion, log, lists);
    NothingLostIff(lists, log);
    AllExclusionsUpToDateIff(lists, log);
  }

  /** For every schedule of exclusion adds to one overlay, with requests on other overlays
      among them: after every run the list is what the landed adds should make, if and only
      if every landed add was up to date. */
  lemma ExclusionAddsAreSequentialIff(domain: string, tasks: seq<Task<Exclusion>>, w: World, keep: nat,
                                      schedule: seq<nat>)
    requires AllFit(ExclusionsForm(domain), tasks)
    ensures
      var (lists, log) := Outcome(ExclusionsForm(domain), tasks, w, keep, schedule);
      NothingLost(lists, log) <==> forall j :: 0 <= j < |log| && log[j].Lands() ==> ExclusionUpToDate(lists, log, j)
  {
    var (lists, log) := Outcome(ExclusionsForm(domain), tasks, w, keep, schedule);
    OutcomeFollowsLog(ExclusionsForm(domain), tasks, w, keep, schedule);
    ExclusionHistoryIff(lists, log);
  }

  lemma {:induction false} NewsIsExact(xs: seq<Exclusion>, ys: seq<Exclusion>)
    ensures forall y :: y in News(xs, ys) <==> y in ys && y !in xs
  {
    if ys != [] {
      var front, y := ys[..|ys| - 1], ys[|ys| - 1];
      NewsIsExact(xs, front);
      assert ys == front + [y];
    }
  }

  lemma {:induction false} NewsOfOne(xs: seq<Exclusion>, ys: seq<Exclusion>, x: Exclusion)
    requires forall y :: y in ys ==> y in xs || y == x
    ensures News(xs, ys) == if x in ys && x !in xs then [x] else []
  {
    if ys != [] {
      var front, y := ys[..|ys| - 1], ys[|ys| - 1];
      assert ys == front + [y];
      NewsOfOne(xs, front, x);
    }
  }

  lemma OwnNewsOnly(xs: seq<Exclusion>, ys: seq<Exclusion>, x: Exclusion)
    ensures News(xs, ys + [x]) == News(xs, [x]) <==> forall y :: y in ys ==> y in xs || y == x
  {
    NewsOfOne(xs, [x], x);
    if forall y :: y in ys ==> y in xs || y == x {
      NewsOfOne(xs, ys + [x], x);
    } else {
      var y :| y in ys && y !in xs && y != x;
      NewsIsExact(xs, ys + [x]);
      assert y in News(xs, ys + [x]);
    }
  }

  /** Whoever has the list and adds `x` has missed nothing. */
  ghost predicate NothingMissed(list: seq<Exclusion>, missed: seq<Exclusion>, x: Exclusion) {
    forall y :: y in missed ==> y in list || y == x
  }

  lemma CleanNews(list: seq<Exclusion>, missed: seq<Exclusion>, ghosts: seq<Exclusion>, x: Exclusion)
    requires ghosts == []
    ensures News(list, missed + [x]) == News(list, ghosts + [x]) <==> NothingMissed(list, missed, x)
  {
    assert ghosts + [x] == [x];
    OwnNewsOnly(list, missed, x);
  }

  /** When an add reads a judged list, the condition is that nothing landed in between but
      what it had read, or adds itself. */
  lemma CleanReadIsUpToDateIff(lists: seq<seq<Exclusion>>, log: seq<Run<Exclusion>>, j: nat)
    requires Causal(log) && |lists| == |log| + 1 && j < |log| && log[j].Run? && Ghosts(log, j) == []
    ensures ExclusionUpToDate(lists, log, j) <==>
            NothingMissed(lists[Basis(log, j)], Landed(log, Basis(log, j), j), log[j].x)
  {
    CleanNews(lists[Basis(log, j)], Landed(log, Basis(log, j), j), Ghosts(log, j), log[j].x);
  }

  /** Two adds that both read before either took the mutex, both landed: the second list has
      its own entry only, and the first entry survives if and only if it was there before, or
      is the same one. */
  lemma SecondAddOverwritesFirst(w: World, domain: string, x: Exclusion, y: Exclusion, ox: Outside, oy: Outside,
                                 keep: nat)
    requires ox.Valid() && oy.Valid()
    ensures
      var r := StoredExclusions(w, domain);
      var (w1, first) := UpdateExclusions(w, domain, r + [x], ox, keep);
      var (w2, second) := UpdateExclusions(w1, domain, r + [y], oy, keep);
      first.Landed() && second.Landed() ==>
        && StoredExclusions(w1, domain) == Dedupe(r + [x]) && StoredExclusions(w2, domain) == Dedupe(r + [y])
        && (x in StoredExclusions(w2, domain) <==> x in r || x == y)
  {
    var r := StoredExclusions(w, domain);
    UpdateExclusionsEffect(w, domain, r + [x], ox, keep);
    var w1 := UpdateExclusions(w, domain, r + [x], ox, keep).0;
    UpdateExclusionsEffect(w1, domain, r + [y], oy, keep);
    DedupeIsExact(r + [y]);
  }

  /** An add that reads what another has written and not yet been judged on: the other fails
      and is put back, and its entry is stored all the same. */
  lemma FailedAddComesBack(w: World, domain: string, x: Exclusion, y: Exclusion, ox: Outside, oy: Outside, keep: nat)
    requires ox.Valid() && oy.Valid() && ValidDomain(domain) && AllValid(StoredExclusions(w, domain) + [x])
    ensures
      var r := StoredExclusions(w, domain);
      var (w1, first) := UpdateExclusions(w, domain, r + [x], ox, keep);
      var read := ExclusionsIn(Some(OverlayText(domain, r + [x], ox.now)));
      var (w2, second) := UpdateExclusions(w1, domain, read + [y], oy, keep);
      first == Ended(Failed(Reloading)) && second.Landed() ==>
        && StoredExclusions(w1, domain) == r
        && StoredExclusions(w2, domain) == Dedupe(r + [x, y]) && x in StoredExclusions(w2, domain)
  {
    var r := StoredExclusions(w, domain);
    OverlayRoundTrip(domain, r + [x], ox.now);
    UpdateExclusionsEffect(w, domain, r + [x], ox, keep);
    var w1 := UpdateExclusions(w, domain, r + [x], ox, keep).0;
    UpdateExclusionsEffect(w1, domain, Dedupe(r + [x]) + [y], oy, keep);
    DedupeTwice(r, x, y);
  }

  function SmoothOutside(admin: Caddy.AdminScript): (o: Outside)
    ensures o.Valid()
  {
    Outside(false, false, NOON, Smooth(NOON, admin))
  }

  lemma SmoothUpdate(w: World, domain: string, xs: seq<Exclusion>, admin: Caddy.AdminScript, keep: nat)
    requires ValidDomain(domain) && AllValid(xs)
    requires TempName(ExclusionsFile(domain), SMOOTH_WRITE.nonce) !in w.managed
    ensures
      var (w', reply) := UpdateExclusions(w, domain, xs, SmoothOutside(admin), keep);
      && reply == Ended(if Caddy.ReadbackOf(admin).ok then Done else Failed(Reloading))
      && TempName(ExclusionsFile(domain), SMOOTH_WRITE.nonce) !in w'.managed
  {
    SmoothChange(w, ExclusionsRequest(domain, xs, SmoothOutside(admin)), NOON, admin, keep);
  }

  /** Starting without any overlay: two adds succeed, and the first exclusion is gone. */
  lemma AddCanBeLost(domain: string, x: Exclusion, y: Exclusion, keep: nat)
    requires ValidDomain(domain) && ValidExclusion(x) && ValidExclusion(y) && x != y
    ensures
      var o := SmoothOutside(VERIFIED);
      var (w1, first) := UpdateExclusions(BLANK, domain, [x], o, keep);
      var (w2, second) := UpdateExclusions(w1, domain, [y], o, keep);
      && StoredExclusions(BLANK, domain) == [] && first == second == Ended(Done)
      && StoredExclusions(w2, domain) == [y]
  {
    NothingExpected();
    SmoothUpdate(BLANK, domain, [x], VERIFIED, keep);
    WorkingUpdate(UpdateExclusions(BLANK, domain, [x], SmoothOutside(VERIFIED), keep).0, domain, [y], keep);
  }

  lemma FailedUpdate(w: World, domain: string, xs: seq<Exclusion>, admin: Caddy.AdminScript, keep: nat)
    requires ValidDomain(domain) && AllValid(xs) && !Caddy.ReadbackOf(admin).ok
    requires TempName(ExclusionsFile(domain), SMOOTH_WRITE.nonce) !in w.managed
    ensures
      var (w1, first) := UpdateExclusions(w, domain, xs, SmoothOutside(admin), keep);
      && first == Ended(Failed(Reloading)) && StoredExclusions(w1, domain) == StoredExclusions(w, domain)
      && TempName(ExclusionsFile(domain), SMOOTH_WRITE.nonce) !in w1.managed
  {
    SmoothUpdate(w, domain, xs, admin, keep);
    UpdateExclusionsEffect(w, domain, xs, SmoothOutside(admin), keep);
  }

  lemma FailedOnBlank(domain: string, x: Exclusion, keep: nat)
    requires ValidDomain(domain) && ValidExclusion(x)
    ensures
      var (w1, first) := UpdateExclusions(BLANK, domain, [x], SmoothOutside(UNVERIFIED), keep);
      && first == Ended(Failed(Reloading)) && StoredExclusions(w1, domain) == []
      && TempName(ExclusionsFile(domain), SMOOTH_WRITE.nonce) !in w1.managed
  {
    HostIsMissing();
    FailedUpdate(BLANK, domain, [x], UNVERIFIED, keep);
  }

  lemma WorkingUpdate(w1: World, domain: string, xs: seq<Exclusion>, keep: nat)
    requires ValidDomain(domain) && AllValid(xs) && Distinct(xs)
    requires TempName(ExclusionsFile(domain), SMOOTH_WRITE.nonce) !in w1.managed
    ensures
      var (w2, second) := UpdateExclusions(w1, domain, xs, SmoothOutside(VERIFIED), keep);
      second == Ended(Done) && StoredExclusions(w2, domain) == xs
  {
    NothingExpected();
    SmoothUpdate(w1, domain, xs, VERIFIED, keep);
    UpdateExclusionsEffect(w1, domain, xs, SmoothOutside(VERIFIED), keep);
    DedupeKeepsDistinct(xs);
  }

  /** What is read while the first overlay waits for Caddy. */
  lemma UnjudgedListParses(domain: string, x: Exclusion)
    requires ValidDomain(domain) && ValidExclusion(x)
    ensures ExclusionsIn(ExclusionsRequest(domain, [x], SmoothOutside(UNVERIFIED)).generated) == [x]
  {
    GeneratedExclusions(domain, [x], SmoothOutside(UNVERIFIED));
    DedupeKeepsDistinct([x]);
  }

  lemma PairIsFine(x: Exclusion, y: Exclusion)
    requires ValidExclusion(x) && ValidExclusion(y) && x != y
    ensures AllValid([x, y]) && Distinct([x, y])
  {
  }

  /** Starting without any overlay: an add fails, and its exclusion is stored by the next one,
      which had read [x] before the failed overlay was taken back. */
  lemma FailedAddCanBeStored(domain: string, x: Exclusion, y: Exclusion, keep: nat)
    requires ValidDomain(domain) && ValidExclusion(x) && ValidExclusion(y) && x != y
    ensures ExclusionsIn(ExclusionsRequest(domain, [x], SmoothOutside(UNVERIFIED)).generated) == [x]
    ensures
      var (w1, first) := UpdateExclusions(BLANK, domain, [x], SmoothOutside(UNVERIFIED), keep);
      var (w2, second) := UpdateExclusions(w1, domain, [x, y], SmoothOutside(VERIFIED), keep);
      && first == Ended(Failed(Reloading)) && second == Ended(Done)
      && StoredExclusions(w1, domain) == [] && StoredExclusions(w2, domain) == [x, y]
  {
    UnjudgedListParses(domain, x);
    FailedOnBlank(domain, x, keep);
    PairIsFine(x, y);
    WorkingUpdate(UpdateExclusions(BLANK, domain, [x], SmoothOutside(UNVERIFIED), keep).0, domain, [x, y], keep);
  }

  lemma DedupeTwice(r: seq<Exclusion>, x: Exclusion, y: Exclusion)
    ensures Dedupe(Dedupe(r + [x]) + [y]) == Dedupe(r + [x, y])
    ensures x in Dedupe(r + [x, y])
  {
    DedupeOneMore(r, [x], y);
    assert [x] + [y] == [x, y];
    DedupeIsExact(r + [x, y]);
    assert (r + [x, y])[|r|] == x;
  }

  // ---------------------------------------------------------------------- IP rules

  /** A normalised entry, and the list it belongs to. */
  datatype Entry = Entry(action: Action, text: string)

  function WithRule(rules: Rules, e: Entry): Rules {
    match NormalizeRules(rules)
    case Some(normal) => Appended(normal, e.action, e.text)
    case None => rules
  }

  predicate CanNormalize(rules: Rules) {
    NormalizeRules(rules).Some?
  }

  function RulesForm(domain: string): Form<Rules, Entry> {
    Form(RulesFile(domain), RulesIn, WithRule, _ => None, CanNormalize)
  }

  function RuleRun(domain: string, action: Action, entry: string, o: Outside, content: Option<Bytes>): Option<Request>
    requires o.Valid()
  {
    if action.Other? || !ValidDomain(domain) then None
    else
      match NormalizeRules(Appended(RulesIn(content), action, entry))
      case None => None
      case Some(normal) => Some(RulesRequest(domain, normal, o))
  }

  /** An entry that is no address is refused before any run. */
  function RuleTask(domain: string, action: Action, entry: string, o: Outside): Task<Entry>
    requires o.Valid()
  {
    var c := Client(RulesFile(domain), o.readFails, content => RuleRun(domain, action, entry, o, content), o.script);
    match Blocks.NormalizeEntry(entry)
    case Some(text) => Add(c, Entry(action, text))
    case None => Elsewhere(c)
  }

  /** Alone, the client does what the handler does. */
  lemma RuleTaskIsHandler(w: World, domain: string, action: Action, entry: string, o: Outside, keep: nat)
    requires o.Valid()
    ensures
      var c := RuleTask(domain, action, entry, o).client;
      var prepared := c.prepare(Get(w.managed, c.file));
      AddRule(w, domain, action, entry, o, keep) ==
      if c.readFails || prepared.None? then (w, Reply.Refused)
      else (Ran(w, prepared.value, c.script, keep).0, Ended(Ran(w, prepared.value, c.script, keep).1))
  {
    AddRuleRunsIff(w, domain, action, entry, o, keep);
  }

  lemma GeneratedRules(domain: string, rules: Rules, o: Outside)
    requires o.Valid() && ValidDomain(domain) && NormalizeRules(rules).Some?
    ensures
      var req := RulesRequest(domain, NormalizeRules(rules).value, o);
      && req.Change? && req.Target() == RulesFile(domain)
      && (req.generated.Some? ==> RulesIn(req.generated) == NormalizeRules(rules).value)
  {
    GeneratedRulesParse(domain, rules, o.now);
  }

  lemma RuleRunAdds(domain: string, action: Action, entry: string, o: Outside, content: Option<Bytes>)
    requires o.Valid() && RuleRun(domain, action, entry, o, content).Some?
    ensures Blocks.NormalizeEntry(entry).Some?
    ensures AddsEntry(RulesForm(domain), Entry(action, Blocks.NormalizeEntry(entry).value), content,
                      RuleRun(domain, action, entry, o, content).value)
  {
    AppendedNormalizes(RulesIn(content), action, entry);
    GeneratedRules(domain, Appended(RulesIn(content), action, entry), o);
  }

  lemma RuleTaskFits(domain: string, action: Action, entry: string, o: Outside)
    requires o.Valid()
    ensures Fits(RulesForm(domain), RuleTask(domain, action, entry, o))
  {
    OverlayIsConf(IPRules, DomainSlug(domain));
    forall content | RuleRun(domain, action, entry, o, content).Some?
      ensures Blocks.NormalizeEntry(entry).Some?
      ensures AddsEntry(RulesForm(domain), Entry(action, Blocks.NormalizeEntry(entry).value), content,
                        RuleRun(domain, action, entry, o, content).value)
    {
      RuleRunAdds(domain, action, entry, o, content);
    }
  }

  predicate IsProper(e: Entry) {
    !e.action.Other? && Blocks.NormalizeEntry(e.text) == Some(e.text)
  }

  ghost predicate AreProper(es: seq<Entry>) {
    forall i :: 0 <= i < |es| ==> IsProper(es[i])
  }

  /** The entries of one list, in order. */
  function Texts(es: seq<Entry>, action: Action): seq<string> {
    if es == [] then []
    else
      var front, e := Texts(es[..|es| - 1], action), es[|es| - 1];
      if e.action == action then front + [e.text] else front
  }

  lemma TextsSnoc(es: seq<Entry>, e: Entry, action: Action)
    ensures Texts(es + [e], action) == if e.action == action then Texts(es, action) + [e.text] else Texts(es, action)
  {
    assert (es + [e])[..|es|] == es;
  }

  /** What entries make of rules: normalised, each list with its entries at its end. */
  lemma {:induction false} FoldIsGained(start: Rules, es: seq<Entry>)
    requires NormalizeRules(start).Some? && AreProper(es)
    ensures Gained(start, Fold(WithRule, start, es), Texts(es, Deny), Texts(es, Allow))
    ensures es == [] <==> Texts(es, Deny) == [] && Texts(es, Allow) == []
    ensures NormalizeRules(Fold(WithRule, start, es)).Some?
  {
    if es != [] {
      var front, e := es[..|es| - 1], es[|es| - 1];
      FoldIsGained(start, front);
      assert IsProper(e);
      var now := Fold(WithRule, start, front);
      NormalizedRulesAreNormal(now);
      AppendedNormalizes(NormalizeRules(now).value, e.action, e.text);
      AppendedGains(start, now, Texts(front, Deny), Texts(front, Allow), e.action, e.text);
    }
  }

  /** The `j`-th run's add: what landed after the lists that it had read were stored is, list
      by list, what it had read of failed adds. Nothing is deduplicated here. */
  ghost predicate RuleUpToDate(log: seq<Run<Entry>>, j: nat)
    requires Causal(log) && j < |log| && log[j].Run?
  {
    var missed, ghosts := Landed(log, Basis(log, j), j), Ghosts(log, j);
    Texts(missed, Deny) == Texts(ghosts, Deny) && Texts(missed, Allow) == Texts(ghosts, Allow)
  }

  lemma {:induction false} FoldOfUnready(rules: Rules, es: seq<Entry>)
    requires NormalizeRules(rules).None?
    ensures Fold(WithRule, rules, es) == rules
  {
    if es != [] {
      FoldOfUnready(rules, es[..|es| - 1]);
    }
  }

  lemma SameRulesIff(start: Rules, ms: seq<Entry>, gs: seq<Entry>, e: Entry)
    requires NormalizeRules(start).Some? && AreProper(ms + [e]) && AreProper(gs + [e])
    ensures Fold(WithRule, start, ms + [e]) == Fold(WithRule, start, gs + [e]) <==>
            Texts(ms, Deny) == Texts(gs, Deny) && Texts(ms, Allow) == Texts(gs, Allow)
  {
    FoldIsGained(start, ms + [e]);
    FoldIsGained(start, gs + [e]);
    forall action
      ensures Texts(ms + [e], action) == if e.action == action then Texts(ms, action) + [e.text] else Texts(ms, action)
      ensures Texts(gs + [e], action) == if e.action == action then Texts(gs, action) + [e.text] else Texts(gs, action)
    {
      TextsSnoc(ms, e, action);
      TextsSnoc(gs, e, action);
    }
    var normal := NormalizeRules(start).value;
    SameTails(normal.deny, Texts(ms + [e], Deny), Texts(gs + [e], Deny));
    SameTails(normal.allow, Texts(ms + [e], Allow), Texts(gs + [e], Allow));
    SameFronts(Texts(ms, e.action), Texts(gs, e.action), e.text);
  }

  lemma SameTails(front: seq<string>, a: seq<string>, b: seq<string>)
    ensures front + a == front + b <==> a == b
  {
    assert (front + a)[|front|..] == a && (front + b)[|front|..] == b;
  }

  lemma SameFronts(a: seq<string>, b: seq<string>, last: string)
    ensures a + [last] == b + [last] <==> a == b
  {
    assert (a + [last])[..|a|] == a && (b + [last])[..|b|] == b;
  }

  lemma StoredRulesUpToDateIff(lists: seq<Rules>, log: seq<Run<Entry>>, j: nat)
    requires Causal(log) && |lists| == |log| + 1 && j < |log| && log[j].Run?
    requires lists[Basis(log, j)] == StoredAfter(WithRule, lists[0], log, Basis(log, j))
    requires CanNormalize(ReadBy(WithRule, lists[0], log, j))
    requires AllRunsProper(log)
    ensures UpToDate(WithRule, lists[0], log, j) <==> RuleUpToDate(log, j)
  {
    var list := lists[Basis(log, j)];
    ReadIsBasisAndGhosts(WithRule, lists[0], log, j);
    if NormalizeRules(list).None? {
      FoldOfUnready(list, Ghosts(log, j));
    }
    LandedAreProper(log, Basis(log, j), j);
    GhostsAreProper(log, j);
    SameRulesIff(list, Landed(log, Basis(log, j), j), Ghosts(log, j), log[j].x);
  }

  ghost predicate AllRunsProper(log: seq<Run<Entry>>) {
    forall j :: 0 <= j < |log| && log[j].Run? ==> IsProper(log[j].x)
  }

  lemma {:induction false} LandedAreProper(log: seq<Run<Entry>>, n: nat, j: nat)
    requires AllRunsProper(log) && n <= j <= |log|
    ensures AreProper(Landed(log, n, j))
  {
    if n < j {
      LandedAreProper(log, n, j - 1);
    }
  }

  lemma {:induction false} GhostsAreProper(log: seq<Run<Entry>>, j: nat)
    requires Causal(log) && AllRunsProper(log) && j < |log| && log[j].Run?
    ensures AreProper(Ghosts(log, j))
  {
    if log[j].read.Unjudged? && !log[log[j].read.n].landed {
      GhostsAreProper(log, log[j].read.n);
    }
  }

  lemma AllRulesUpToDateIff(lists: seq<Rules>, log: seq<Run<Entry>>)
    requires Causal(log) && |lists| == |log| + 1 && AllRunsProper(log)
    requires forall n :: 0 <= n < |lists| ==> lists[n] == StoredAfter(WithRule, lists[0], log, n)
    requires forall j :: 0 <= j < |log| && log[j].Run? ==> CanNormalize(ReadBy(WithRule, lists[0], log, j))
    ensures forall j :: 0 <= j < |log| && log[j].Lands() ==>
                          (UpToDate(WithRule, lists[0], log, j) <==> RuleUpToDate(log, j))
  {
    forall j | 0 <= j < |log| && log[j].Lands()
      ensures UpToDate(WithRule, lists[0], log, j) <==> RuleUpToDate(log, j)
    {
      StoredRulesUpToDateIff(lists, log, j);
    }
  }

  lemma RuleHistoryIff(lists: seq<Rules>, log: seq<Run<Entry>>)
    requires Causal(log) && |lists| == |log| + 1 && AllRunsProper(log)
    requires forall n :: 0 <= n < |lists| ==> lists[n] == StoredAfter(WithRule, lists[0], log, n)
    requires forall j :: 0 <= j < |log| && log[j].Run? ==> CanNormalize(ReadBy(WithRule, lists[0], log, j))
    ensures (forall n :: 0 <= n < |lists| ==> lists[n] == Accumulated(WithRule, lists[0], log, n)) <==>
            (forall j :: 0 <= j < |log| && log[j].Lands() ==> RuleUpToDate(log, j))
  {
    ListsAreAccumulatedIff(WithRule, log, lists);
    AllRulesUpToDateIff(lists, log);
  }

  /** No entry stands for whole lists, so every run of this form is an add. */
  lemma OnlyRuleAdds(domain: string, task: Task<Entry>)
    requires Fits(RulesForm(domain), task)
    ensures !task.Replace?
  {
    assert !Puts(RulesForm(domain), Rules([], []));
  }

  lemma RuleLogIsProper(domain: string, tasks: seq<Task<Entry>>, w: World, keep: nat, schedule: seq<nat>)
    requires AllFit(RulesForm(domain), tasks)
    requires forall t :: 0 <= t < |tasks| && tasks[t].Add? ==> IsProper(tasks[t].x)
    ensures
      var (lists, log) := Outcome(RulesForm(domain), tasks, w, keep, schedule);
      && AllRunsProper(log)
      && forall j :: 0 <= j < |log| && log[j].Run? ==> CanNormalize(ReadBy(WithRule, lists[0], log, j))
  {
    var (lists, log) := Outcome(RulesForm(domain), tasks, w, keep, schedule);
    OutcomeFollowsLog(RulesForm(domain), tasks, w, keep, schedule);
    forall j | 0 <= j < |log| && log[j].Run?
      ensures IsProper(log[j].x) && CanNormalize(ReadBy(WithRule, lists[0], log, j))
    {
      var task :| task in tasks && LoggedAs(RulesForm(domain), task, lists[0], log, j);
      OnlyRuleAdds(domain, task);
    }
  }

  /** For every schedule of IP adds to one overlay, with requests on other overlays among
      them: after every run the lists are what the landed adds, one after another, make of
      the first ones (see `FoldIsGained`), if and only if every landed add was up to date. */
  lemma RuleAddsAreSequentialIff(domain: string, tasks: seq<Task<Entry>>, w: World, keep: nat, schedule: seq<nat>)
    requires AllFit(RulesForm(domain), tasks)
    requires forall t :: 0 <= t < |tasks| && tasks[t].Add? ==> IsProper(tasks[t].x)
    ensures
      var (lists, log) := Outcome(RulesForm(domain), tasks, w, keep, schedule);
      (forall n :: 0 <= n < |lists| ==> lists[n] == Accumulated(WithRule, lists[0], log, n)) <==>
      (forall j :: 0 <= j < |log| && log[j].Lands() ==> RuleUpToDate(log, j))
  {
    var (lists, log) := Outcome(RulesForm(domain), tasks, w, keep, schedule);
    OutcomeFollowsLog(RulesForm(domain), tasks, w, keep, schedule);
    RuleLogIsProper(domain, tasks, w, keep, schedule);
    RuleHistoryIff(lists, log);
  }

  /** When an add reads judged lists, the condition is that nothing landed in between. */
  lemma CleanRuleReadIsUpToDateIff(log: seq<Run<Entry>>, j: nat)
    requires Causal(log) && AllRunsProper(log) && j < |log| && log[j].Run? && Ghosts(log, j) == []
    ensures RuleUpToDate(log, j) <==> Landed(log, Basis(log, j), j) == []
  {
    LandedAreProper(log, Basis(log, j), j);
    NoTextsNoEntries(Landed(log, Basis(log, j), j));
  }

  lemma {:induction false} NoTextsNoEntries(es: seq<Entry>)
    requires AreProper(es)
    ensures Texts(es, Deny) == [] && Texts(es, Allow) == [] <==> es == []
  {
    if es != [] {
      assert IsProper(es[|es| - 1]);
    }
  }

  /** Every add task that the handler's request makes is proper. */
  lemma RuleTaskIsProper(domain: string, action: Action, entry: string, o: Outside)
    requires o.Valid() && !action.Other?
    ensures RuleTask(domain, action, entry, o).Add? ==> IsProper(RuleTask(domain, action, entry, o).x)
  {
    if Blocks.NormalizeEntry(entry).Some? {
      Blocks.NormalizedIsFixed(entry);
    }
  }

  /** Two IP adds that both read before either took the mutex, both landed: the second keeps
      its own entry only. */
  lemma SecondRuleOverwritesFirst(w: World, domain: string, a: Action, e: string, b: Action, f: string,
                                  oe: Outside, of: Outside, keep: nat)
    requires oe.Valid() && of.Valid() && !a.Other? && !b.Other?
    ensures
      var r := StoredRules(w, domain);
      var (w1, first) := UpdateRules(w, domain, Appended(r, a, e), oe, keep);
      var (w2, second) := UpdateRules(w1, domain, Appended(r, b, f), of, keep);
      first.Landed() && second.Landed() ==>
        && NormalizeRules(r).Some? && Blocks.NormalizeEntry(f).Some?
        && StoredRules(w2, domain) == Appended(NormalizeRules(r).value, b, Blocks.NormalizeEntry(f).value)
  {
    var r := StoredRules(w, domain);
    var w1 := UpdateRules(w, domain, Appended(r, a, e), oe, keep).0;
    UpdateRulesEffect(w1, domain, Appended(r, b, f), of, keep);
    AppendedNormalizes(r, b, f);
  }

  // -------------------------------------------------------------- rollbacks among the adds

  /** A rollback of the overlay, and a whole list sent through the chain. */
  function RollbackClient(domain: string, ft: FileType, snapshot: string, s: Script): Client {
    Client(OverlayName(ft, DomainSlug(domain)), false,
           _ => if ValidDomain(domain) then Some(Rollback(ft, DomainSlug(domain), snapshot)) else None, s)
  }

  function WholeListClient(domain: string, xs: seq<Exclusion>, o: Outside): Client
    requires o.Valid()
  {
    Client(ExclusionsFile(domain), false,
           _ => if ValidDomain(domain) && AllValid(xs) then Some(ExclusionsRequest(domain, xs, o)) else None, o.script)
  }

  /** Both are among the requests that `EditsAreSequentialIff` schedules. */
  lemma RollbacksAndWholeListsFit(domain: string, snapshot: string, s: Script, xs: seq<Exclusion>, o: Outside)
    requires s.Valid() && o.Valid()
    ensures Fits(EditsOf(ExclusionsForm(domain)),
                 Replacement(ExclusionsForm(domain), RollbackClient(domain, Exclusions, snapshot, s)))
    ensures Fits(EditsOf(RulesForm(domain)), Replacement(RulesForm(domain),
                                                         RollbackClient(domain, IPRules, snapshot, s)))
    ensures Fits(EditsOf(ExclusionsForm(domain)), Replacement(ExclusionsForm(domain), WholeListClient(domain, xs, o)))
  {
    OverlayIsConf(Exclusions, DomainSlug(domain));
    OverlayIsConf(IPRules, DomainSlug(domain));
    ReplacementFits(ExclusionsForm(domain), RollbackClient(domain, Exclusions, snapshot, s));
    ReplacementFits(RulesForm(domain), RollbackClient(domain, IPRules, snapshot, s));
    ReplacementFits(ExclusionsForm(domain), WholeListClient(domain, xs, o));
  }

  /** An add that read before a rollback and lands after it: the rollback had restored its
      snapshot, and nothing of that is left. */
  lemma AddUndoesRollback(w: World, domain: string, snapshot: string, s: Script, x: Exclusion, o: Outside, keep: nat)
    requires s.Valid() && o.Valid()
    requires snapshot in Names(DirOf(w.backups, DomainSlug(domain)), Exclusions)
    requires !Rollbacks.Overwrites(w, Rollback(Exclusions, DomainSlug(domain), snapshot), s)
    ensures
      var r, req := StoredExclusions(w, domain), Rollback(Exclusions, DomainSlug(domain), snapshot);
      var (w1, result) := Ran(w, req, s, keep);
      var (w2, reply) := UpdateExclusions(w1, domain, r + [x], o, keep);
      result == Done && reply.Landed() ==>
        && StoredExclusions(w1, domain) == ExclusionsIn(Some(DirOf(w.backups, DomainSlug(domain))[snapshot]))
        && StoredExclusions(w2, domain) == Dedupe(r + [x])
  {
    var req := Rollback(Exclusions, DomainSlug(domain), snapshot);
    var (w1, result) := Ran(w, req, s, keep);
    UpdateExclusionsEffect(w1, domain, StoredExclusions(w, domain) + [x], o, keep);
    if result == Done {
      Rollbacks.RollbackRestoresIff(w, req, s, keep);
    }
  }
}
