# Verification of caddy-waf-ui

A Dafny model of the part of caddy-waf-ui that changes live configuration, limits logins and
reads generated text back. The main results are about all inputs, all runs or all schedules;
where one needs a hypothesis, such as a clock ahead of every snapshot, it says so, and where
a claim fails there is an input at which it does. `dafny verify dfyconfig.toml` checks it.

Three components are modelled.

* **The configuration change.** A request takes the global mutex, reads the overlay, snapshots
  and prunes, writes atomically, makes Caddy load, reads the live hosts back, and restores on
  failure. The disk is a map from names to bytes, the backup root a map from slugs to
  directories, and Caddy's loaded overlays a field of their own. Each system or network call
  reads its outcome from a script, so a statement about all scripts is one about all failures.
  `Chain.Ran` specifies the method `Chain.Service.RunChain`; `Interleaving` cuts the same run
  into single disk and network operations and lets other requests in between, and
  `UnlockedReads` lets requests read an overlay, without the mutex, anywhere among them.
* **The limiter.** A token bucket over nanoseconds and exact reals, a map of buckets that is
  pruned lazily, and the two-stage login decision. They are compared with policies stated on
  the instants of the grants alone, and with one bucket per key that is never pruned.
* **Printers, parsers and the log pager.** The exclusions, ip-rules and WAF overlays are
  generated as text and parsed back; the form handlers append to what they parsed. The audit
  log explorer cuts a tail window, filters, reverses and paginates. What is printed is stated
  line by line, and what is read, and as what, as a grammar over literal strings, for texts the
  program did not write as well.

Where the program changes state the model is a class whose methods are proved against a
function on values (`AtomicWrite` against `Written`, `Backup` against `BackedUp`, `RunChain`
against `Ran`, `Allow` against `AllowAt` and `AllowCall`), and the lemmas are about that
function.

## Files

| file | contents |
|---|---|
| `text.dfy`, `ordering.dfy` | splitting, trimming, decimal text, first places; sorted lists and ranks in sets of names |
| `naming.dfy`, `files.dfy` | slugs, overlay and snapshot names; atomic writes, retention, backup, listing |
| `caddy.dfy`, `chain.dfy`, `rollback.dfy` | the reload verdict, the transaction, rollbacks |
| `independence.dfy`, `interleaving.dfy`, `fairness.dfy` | what a run touches and reads; several requests at once, and that all finish |
| `add_histories.dfy`, `unlocked_reads.dfy`, `concurrent_adds.dfy`, `concurrent_forms.dfy`, `lost_add.dfy` | changes of a list at once: histories of lists read without the mutex, the schedules that make them, the two forms, and a schedule that loses an add |
| `headers.dfy`, `exclusions.dfy`, `addresses.dfy`, `blocks.dfy`, `ip_rules.dfy`, `forms.dfy` | overlay headers and the scanner, exclusions, the texts of IP addresses, addresses as numbers and their networks, IP rules, the add handlers |
| `token_bucket.dfy`, `client_limiter.dfy`, `login_gate.dfy`, `login_stages.dfy` | bucket, per-client limiter, login, logins at once |
| `log_reader.dfy` | the audit log explorer |

## Obvious claims that are false, and when they hold

* Adding a rule does not always keep the earlier ones (internal/ui/overlay.go:18-21), because the
  form reads the list before it takes the mutex. An add that lands between another's read and its
  run is overwritten (`LostAdd.SomeScheduleLosesAnAdd`), and an add that failed is stored after all
  when another read its overlay before it was taken back (`ConcurrentForms.FailedAddCanBeStored`).
  `ConcurrentForms.ExclusionAddsAreSequentialIff` and `ConcurrentForms.RuleAddsAreSequentialIff`
  say, for every schedule, exactly when the lists are what one add after another makes, and
  `ConcurrentAdds.EditsAreSequentialIff` says so with rollbacks and whole new lists among them.
* A backup does not always keep the bytes it copies, nor a rollback its snapshot: snapshot names
  have whole seconds, nothing spaces two runs a second apart, and creating a snapshot truncates an
  existing one (internal/files/backup.go:162-182) before a rollback reads it
  (internal/service/chain.go:106-113). `Rollbacks.RollbackCanDestroyItsSnapshot` succeeds, restores
  nothing and overwrites its snapshot; `Rollbacks.BackupCanLeaveNoSnapshot` is a backup by a clock
  that is behind. Exact, whatever the clock: `Files.BackupKeepsIff`, `Rollbacks.ChosenBytesIff`,
  `Rollbacks.RollbackRestoresIff`, `Rollbacks.RollbackIsReversibleIff`.
* A rollback backs up and prunes before it reads its snapshot, so its own backup can delete the
  snapshot chosen: `Rollbacks.RollbackCanDeleteItsSnapshot`, exact in `Rollbacks.ChosenBytesIff`.
* Disk and Caddy do not always agree after a failed change: a load that Caddy adopted but that
  could not be verified is put back on the disk only (`Chain.DiskAndCaddyCanSeparate`).
  `Chain.SeparatedOnlyIf` gives the exact condition on the world before and the outcomes.
* Slugs are not injective: `Naming.SlugsCanCollide`, with the exact condition in
  `Naming.SlugsCollideIff`.
* Waiting `Retry-After` whole seconds is not always enough, because of the tolerance of 1e-9 s:
  `TokenBucket.RetryAfterCanBeOneNanosecondShort`, exact in `TokenBucket.RetryAfterExactIff`.
* A valid IP entry is not always accepted: a word in the stored overlay that is no address, such as
  a hand edit leaves, makes every later add of the domain fail (`Forms.AddRuleIsRefusedIff`). No
  stored exclusion does that (`Forms.AddIsRefusedIff`).
* Pruning a limiter is not invisible for every rate and burst: `ClientLimits.PruningInvisibleIff`.
  The configured limiters meet the condition.
* The comment on `AtomicWrite` (internal/files/writer.go:8-11) says that no stale temporary file
  ever remains. Removing it is itself a call that may fail unnoticed (line 22):
  `Files.TempFileCanStay`, exact for one write in `Files.TempFileStaysIff` and for a whole run in
  `Chain.RunLeavesTempIff`.
* `tailWindow` (internal/logs/reader.go:140-143) speaks of a line cut in half. It drops the first
  line of a larger file's window even when the cut falls on a line boundary
  (`LogReader.WholeLineIsDropped`); `LogReader.TailIsWholeLines` says which line goes and when it
  was whole.

## Model

| member | source | states |
|---|---|---|
| Files.WriteIsAllOrNothing | internal/files/writer.go:8-44 | whatever step fails, an atomic write either replaces the target with the whole new bytes or changes no overlay, leaving at most its own temporary file |
| Files.TempFileStaysIff | internal/files/writer.go:19-24 | a file that is no overlay is there after a write if and only if it was before, or it is the write's own and creation worked, a later step failed and the removal failed; its bytes do not change |
| Files.TempFileCanStay | internal/files/writer.go:20-24 | a write whose renaming and removal both fail leaves its temporary file |
| Files.FileSystem.AtomicWrite | internal/files/writer.go:12-44 | create, chmod, write, close, rename and the deferred removal amount to `Written` |
| Files.WriteSucceedsIff | internal/files/writer.go:12-44 | a write succeeds if and only if every call up to the renaming does and the temporary name is free |
| Files.RetentionKeepsNewest | internal/files/backup.go:193-235 | successful retention keeps exactly the names with fewer than `limit` newer ones of their type, min(limit, count) of them, and touches no other file |
| Files.FileSystem.EnforceRetention | internal/files/backup.go:193-235 | filter, sort and the deletion loop amount to `Retained`, also when a deletion fails midway |
| Files.BackupKeepsIff | internal/files/backup.go:130-172 | whatever the clock, after a successful backup of an existing overlay exactly those of the type's snapshots and the new one remain that have fewer than `keep` newer ones; the new one, if it stays, holds the overlay's bytes, the others are unchanged, and other types and slugs are untouched |
| Files.BackupKeepsNewest | internal/files/backup.go:160-171 | in particular, with the clock ahead, a successful backup's snapshot holds the overlay's bytes and is the newest; older ones stay, unchanged, exactly when fewer than keep-1 were newer; other types and slugs are untouched |
| Files.FileSystem.Backup | internal/files/backup.go:130-172 | the stages and early returns amount to `BackedUp` |
| Files.BackupSucceedsIff | internal/files/backup.go:130-171 | a backup succeeds if and only if the overlay's state can be read and there is none, or every call works: as many deletions as there are more snapshots than are kept |
| Files.FileSystem.ListBackups | internal/files/backup.go:45-79 | the listing holds every canonical snapshot once with its size, newest key first, and nothing else |
| Files.ListedByTime | internal/files/backup.go:70-76 | a listing runs back in time, and within one second WAF comes before IP rules and those before exclusions |
| Files.ListingAfterRetention | internal/files/backup.go:41-79 | what is listed of a type after pruning is the first `limit` rows of what was listed before |
| Naming.TextOrderIsTimeOrder | internal/files/backup.go:160-162 | timestamps sort as text exactly in the order of time |
| Naming.LaterSnapshotSortsLast | internal/files/backup.go:219-223 | of two snapshots of a type the later one has the greater name |
| Naming.BackupTypeIff | internal/files/backup.go:21-39 | a name is accepted with a type if and only if it is a canonical timestamp followed by that type's ending |
| Naming.MakeSlug | internal/domain/slug.go:18-33 | the replacements and the byte loop compute the slug character by character |
| Naming.SlugIsSafe | internal/domain/slug.go:7-14 | a slug has only lower-case letters, digits and underscores, and is empty only for the empty domain |
| Naming.SlugsCanCollide | internal/domain/slug.go:19-20 | any two domains that differ in a hyphen for a dot, such as `a-b.com` and `a.b.com`, share their files |
| Naming.SlugsCollideIff | internal/domain/slug.go:18-33 | for any two domains the slugs are equal if and only if, stars spelled out, they differ only in case and in characters that are neither letters nor digits |
| Naming.WritersAndBackupAgree | internal/files/naming.go:22-58 | the path that the chain writes is the managed directory plus the very name that `Backup` copies, for all three types |
| Naming.OverlayNameInjective | internal/files/naming.go:22-34 | different (type, slug) pairs have different overlay names |
| Caddy.CollectHosts | internal/caddy/admin.go:157-177 | the walk adds exactly the strings that occur in some "host" array at any depth |
| Caddy.ExpectedHosts | internal/caddy/admin.go:69-83 | the nested loops compute the distinct candidate addresses of the site lines: exactly those listed there that are neither empty nor a port alone and hold a dot or a colon or are `localhost` |
| Caddy.DistinctIsExact | internal/caddy/admin.go:66-83 | deduplication keeps every address once, in order of first occurrence, and nothing else |
| Caddy.ExpectedIff | internal/caddy/admin.go:56-83 | what is looked for, letter by letter: an address between the commas of a site line, not empty, not beginning with a colon, with a dot or a colon in it or equal to `localhost` |
| Caddy.ReloadSucceedsIff | internal/caddy/admin.go:200-261 | the reload succeeds if and only if the request went out, the load answered 200, the live configuration was read and every address that is to be looked for occurs in it; then Caddy has adopted the load |
| Caddy.MismatchIsExact | internal/caddy/admin.go:246-257 | the mismatch reports exactly the addresses that are to be looked for and occur nowhere, once each, in the Caddyfile's order |
| Caddy.LocalhostIsExpected | internal/caddy/admin.go:62-64 | a site `localhost` that Caddy does not serve makes the reload fail and is reported |
| Caddy.DirectiveIsNotExpected | internal/caddy/admin.go:58-61 | a directive word such as `log` that the pattern captures is not looked for |
| Caddy.Admin.Reload | internal/caddy/admin.go:200-261 | on every path the recorded state is the verdict, and it is OK exactly when the reload succeeds |
| Chain.Service.RestoreState | internal/service/chain.go:44-52 | restoring removes the overlay or writes the old bytes back, as `RestoredTo` |
| Chain.Service.RunChain | internal/service/chain.go:96-130 | the run with all its early returns and the restore is `Ran` on disk, snapshots, live overlays and verdict |
| Chain.ResultIff | internal/service/chain.go:96-130 | which outcomes of the steps, told from the world before the run, make it succeed, fail with the old overlay restored, or fail with the restore |
| Chain.EarlyResultIff | internal/service/chain.go:96-130 | and so is each early result: reading, backing up, generating, finding and reading the snapshot, writing |
| Chain.RunLeavesTempIff | internal/files/writer.go:11-24 | exactly which temporary files a whole run leaves, from its write and from its restore |
| Chain.RunIsAllOrNothing | internal/service/chain.go:90-130 | unless it succeeds or its restore fails, a run leaves every overlay as it was, whichever stage failed; in those two cases exactly the target has the new bytes |
| Chain.AgreementAfterRun | internal/service/chain.go:96-130 | for every world before a run and every outcome of its steps, an if-and-only-if for disk and Caddy agreeing after it; after a success they always do |
| Chain.SeparatedOnlyIf | internal/caddy/admin.go:194-199 | from agreement, a run separates disk and Caddy if and only if it gets to load other bytes than the overlay held, unverified, and either Caddy adopts them and putting back works, or neither |
| Chain.DiskAndCaddyCanSeparate | internal/caddy/admin.go:198-199 | a first overlay that Caddy adopts and the read-back misses: removed from the disk, still live |
| Chain.AgreementOverRuns | internal/service/chain.go:96-130 | over any sequence of runs disk and Caddy agree unless some run since the last success separated them |
| Chain.AgreementOverRunsIff | internal/service/chain.go:96-130 | from any world and over any sequence of runs, exactly when disk and Caddy agree: as the last run decides that loaded and was not rejected and put back |
| Rollbacks.ChosenBytesIff | internal/service/chain.go:106-113 | whatever the clock, an existing snapshot is found if and only if there is no overlay or fewer than `keep` candidates, the new snapshot among them, are newer; its bytes are what the rollback writes if and only if, besides, its backup does not write other bytes over it |
| Rollbacks.ChosenSnapshotIsFoundIff | internal/service/chain.go:106-113 | in particular, with the clock ahead, it is found if and only if there is no overlay or fewer than keep-1 snapshots of the type are newer, and the bytes written are its own |
| Rollbacks.RollbackCanDeleteItsSnapshot | internal/service/chain.go:106-113 | with one snapshot to keep, rolling back to the only one deletes it and fails |
| Rollbacks.RollbackRestoresIff | internal/service/chain.go:248-292 | whatever the clock, a successful rollback restores the chosen snapshot's bytes if and only if its own backup did not overwrite them; otherwise no overlay changes |
| Rollbacks.ReplacedIsKeptIff | internal/files/backup.go:160-171 | the bytes that it replaced are kept if and only if its snapshot is among the `keep` newest |
| Rollbacks.RollbackSwapsOverlay | internal/service/chain.go:248-292 | in particular, with the clock ahead, a successful rollback puts the snapshot's bytes in the overlay and the replaced bytes in the newest snapshot |
| Rollbacks.RollbackIsReversibleIff | internal/files/backup.go:81-104 | whatever the clock, two successful rollbacks, the second to the snapshot that the first made and kept, restore every overlay if and only if their snapshots have different names, or the first restored nothing new |
| Rollbacks.RollbackCanDestroyItsSnapshot | internal/files/backup.go:160-182 | in the second of its snapshot a rollback succeeds, changes no overlay, and leaves the overlay's bytes as the only snapshot |
| Rollbacks.BackupCanLeaveNoSnapshot | internal/files/backup.go:219-232 | by a clock that is behind, a backup succeeds and prunes the snapshot it made |
| Rollbacks.RollbackIsReversible | internal/files/backup.go:81-104 | in particular, with the clock ahead, keep at least 2 and a later second, rolling back to the snapshot just made never misses it, and success restores every overlay |
| Rollbacks.BothRollbacksCanSucceed | internal/service/chain.go:248-292 | a world in which the hypotheses hold and both rollbacks succeed |
| Independence.RunOnlyTouchesItsOwn | internal/service/chain.go:96-130 | a run changes only its overlay, temporary files beside it and its type's snapshots under its slug |
| Independence.RunLooksAlike | internal/service/chain.go:96-130 | a run's result and footprint depend on nothing outside that footprint |
| Independence.RunsCommute | internal/service/chain.go:18-20 | runs on different (type, slug) pairs give the same results and the same disk in either order |
| Independence.LiveCommutesIff | internal/caddy/admin.go:194-199 | what Caddy serves after two runs on different overlays is the same in both orders if and only if neither run separates disk and Caddy while the other's load is adopted |
| Independence.VerdictCommutesIff | internal/caddy/admin.go:47-51 | the recorded verdict is the same in both orders if and only if at most one of the two loads, or both verdicts are equal |
| Interleaving.StepKeepsStanding | internal/service/chain.go:96-130 | the single operations of a run, put together, do exactly what `Ran` says, from every intermediate state |
| Interleaving.InterleavingsAreSerial | internal/service/chain.go:18-20 | for every schedule, once the mutex is free the world and every result are those of running the requests one by one in lock order |
| Interleaving.ReadersSeeWholeOverlays | internal/files/writer.go:8-12 | at every step of every schedule a reader without the lock finds each overlay as the completed requests left it or with the running one's whole new bytes |
| Interleaving.NoDeadlock | internal/service/chain.go:97-98 | while a request is unfinished, some request can move |
| Fairness.TurnLowers | internal/service/chain.go:96-130 | every turn that changes anything lowers a measure: requests unfinished, requests waiting, operations and deletions left of the running one |
| Fairness.EveryFairScheduleFinishes | internal/service/chain.go:97-98 | under every schedule that keeps giving each request a turn, all requests finish, and the world is that of one run after another |
| Headers.ValidDomainIsPlain | internal/service/validate.go:35-78 | an accepted domain is made of letters, digits, hyphens, dots and stars: no bar, newline or surrounding space |
| Headers.ValidDomainIff | internal/service/validate.go:35-78 | a domain is accepted if and only if it is 1 to 253 long and labels with dots between them: 1 to 63 ASCII letters, digits and hyphens, no hyphen at either end, or a star in front of at least two others |
| Headers.TimeRoundTrip | internal/domain/overlay.go:42 | every civil second formats to a text that parses back to it |
| Headers.ParseTimeIff | internal/domain/overlay.go:80-84 | of the timestamps the model recognises, exactly the texts of civil seconds are read, each as its second |
| Headers.TimeTexts | internal/files/backup.go:161-162 | a second as a header and as a snapshot name writes it |
| Headers.HeaderText | internal/domain/overlay.go:41-50 | the header line, literally, with a mode and without |
| Headers.ParseHeader | internal/domain/overlay.go:54-89 | the loop over the segments computes `ParsedHeader`, absent headers and empty domains included |
| Headers.AnyHeader | internal/domain/overlay.go:54-89 | whoever wrote it: a line is a header if and only if it has the prefix and a domain before the first bar; of several mode segments, in any case and spacing, the last counts, and of the readable times the last |
| Text.TrimsIff | internal/domain/overlay.go:55-60 | trimming takes away the white space at both ends, all of it, and nothing else |
| Headers.HeaderRoundTrip | internal/domain/overlay.go:37-89 | a header built for an accepted domain, with any plain mode or none, reads back as that domain, that mode and that second |
| Headers.ParseSiteHeader | internal/domain/scanner.go:68-119 | the line search and the mode switch compute `ParsedSite` |
| Headers.AnySite | internal/domain/scanner.go:76-118 | whoever wrote it, an overlay is shown by its first header line, in the mode its last mode segment names if that is one of the three, and else in the default that blocks nothing, degraded if there is such a segment |
| Headers.SiteNeedsHeader | internal/domain/scanner.go:84-91 | an overlay that is shown has a header line with a domain |
| Headers.ShownMode | internal/domain/scanner.go:93-109 | for a generated header, with a known mode, an unknown one or none: which mode is shown, and that only an unknown one is degraded |
| Headers.ScanFindsGeneratedSite | internal/domain/scanner.go:64-119 | scanning a generated WAF overlay, for each known mode, gives the exact domain and mode, not degraded, and its second |
| Headers.EngineCarriesMode | internal/waf/mode.go:18-32 | the generated overlay sets the engine to the requested mode, in one line and no other, includes the exclusions overlay of the same domain, and logs to the configured path |
| Headers.ScanOpensWafOverlaysOnly | internal/domain/scanner.go:46-50 | the file filter opens every WAF overlay and no other overlay and no temporary file |
| Headers.Scan | internal/domain/scanner.go:30-62 | the scan returns the sites of exactly the matching files whose header parses |
| ExclusionRules.DedupeExclusions | internal/waf/exclusions.go:117-129 | the loop over NUL-separated keys computes `Dedupe` of the whole exclusions |
| ExclusionRules.DedupeIsExact | internal/waf/exclusions.go:114-129 | deduplication keeps each exclusion once, in order of first occurrence, and nothing else |
| ExclusionRules.IdsCountFromBase | internal/waf/exclusions.go:138-149 | every parameter row's id is 9000001 plus the number of parameter rows before it, so 9000001 for the first; a URI-level row has none |
| ExclusionRules.IdsAreConsecutive | internal/waf/exclusions.go:138-149 | ids of parameter rows strictly increase, and by one from each to the next |
| ExclusionRules.GenerateExclusions | internal/waf/exclusions.go:133-163 | a list with an invalid exclusion is refused whole; otherwise the text of the deduplicated list is made, whose lines are in `GeneratedLines` |
| ExclusionRules.ValidExclusionIff | internal/waf/exclusions.go:75-107 | accepted are exactly numbers for an id and names for a tag, with a name for a parameter or none; and they are exactly those whose printed line is read back |
| ExclusionRules.LinePrints | internal/waf/exclusions.go:38-49 | the printed line of each of the four kinds of row, literally, for every parameter, id and value |
| ExclusionRules.GeneratedLines | internal/waf/exclusions.go:34-54 | the generated text, line by line: the fixed remark, the header, an empty line, then one line for each exclusion of the deduplicated list, in order, with ids from 9000001, or the remark that there is none |
| ExclusionRules.FirstIdText | internal/waf/exclusions.go:30-32 | how the first id is written |
| ExclusionRules.ParseExclusionsOverlay | internal/ui/overlay.go:31-54 | the loop over the lines computes `ParsedOverlay`, which `OverlayIsReadAs` characterises |
| ExclusionRules.ParseLineIff | internal/ui/overlay.go:22-26 | a line is read, and as this exclusion, if and only if it is one of the four literal shapes of it, with any white space in its gaps and any number for an id |
| ExclusionRules.OverlayIsReadAs | internal/ui/overlay.go:31-54 | whoever wrote it, an overlay is read as the lines of it that are such lines, in order, and as nothing else; what is read is always accepted again |
| ExclusionRules.LineRoundTrip | internal/ui/overlay.go:22-26 | each printed directive parses to exactly its exclusion, by its own pattern and no earlier one |
| ExclusionRules.OverlayRoundTrip | internal/ui/overlay.go:34-54 | for every accepted domain and valid list, parsing the generated overlay gives the deduplicated list in order |
| ExclusionRules.RegeneratingIsStable | internal/waf/exclusions.go:131-163 | regenerating from the parsed list with the same header gives the same text |
| ExclusionRules.AddingKeepsRows | internal/waf/exclusions.go:138-149 | adding exclusions at the end renumbers and reorders no earlier row |
| ExclusionRules.RowsStayIff | internal/waf/exclusions.go:138-149 | deduplicating a list with more at its end keeps all its rows and ids if and only if it had no duplicates |
| Addresses.V4RoundTrip | internal/iprules/rules.go:58-71 | every IPv4 address is read back from its text |
| Addresses.V6RoundTrip | internal/iprules/rules.go:58-71 | every IPv6 address is read back from its text, compressed or not |
| Addresses.ParseAddrIff | internal/iprules/rules.go:64-68 | a text is read, and as this address, if and only if it is four plain decimal numbers below 256, or groups of one to four hexadecimal digits in either case: eight, or fewer with one "::" for the zero groups left out, an IPv4 address for the last two allowed |
| Addresses.PrintedV6 | internal/iprules/rules.go:59-68 | the printed form leaves out the longest run of two or more zero groups, of equally long ones the leftmost |
| Addresses.PrintedGroup | internal/iprules/rules.go:59-68 | groups are printed in lower case without leading zeros |
| Blocks.MaskedValue | internal/iprules/rules.go:59-60 | an address taken as one number v of 32 or 128 bits: its network with an n-bit prefix is v - v % 2^(bits - n) |
| Blocks.NormalizedIsNetwork | internal/iprules/rules.go:54-71 | an entry is accepted if and only if it spells an address or an address and a prefix length, and becomes the text of its network by number and length; an IPv4 network written in IPv6 becomes the IPv4 one, 96 bits shorter |
| Blocks.HostBitsAreCleared | internal/iprules/rules.go:59-60 | 10.1.2.3/8 becomes 10.0.0.0/8 |
| Blocks.NormalizedIsCanonical | internal/iprules/rules.go:54-71 | a normalised entry is the text of an address and a prefix length where the number has no host bit and is no IPv4 address in IPv6 |
| Blocks.NormalizedIsFixed | internal/iprules/rules.go:54-71 | normalising twice is normalising once |
| Blocks.NormalizedIsOneWord | internal/iprules/rules.go:54-57 | a normalised entry is one non-empty word of hexadecimal digits, dots, colons and a slash |
| IPRuleLists.MapEntries | internal/iprules/rules.go:74-84 | the loop normalises every entry in order, or refuses the list if one is refused |
| IPRuleLists.GenerateSnippet | internal/iprules/rules.go:99-124 | a refused entry in either list is an error; otherwise the text of the normalised lists is made |
| IPRuleLists.GeneratedRuleLines | internal/iprules/rules.go:19-44 | the generated text, line by line: a matcher for the denied addresses and one for all but the allowed ones, each of them aborted, under the domain's slug |
| IPRuleLists.ParseIPRulesOverlay | internal/ui/overlay.go:56-71 | the loop over the lines computes `ParsedRules` |
| IPRuleLists.RulesAreRead | internal/ui/overlay.go:56-71 | whoever wrote it, each list of an overlay is the words behind its own keyword, line by line in order, however a line is indented and spaced |
| IPRuleLists.RulesRoundTrip | internal/ui/overlay.go:56-71 | parsing a generated overlay gives back both lists, each in its own place and order |
| IPRuleLists.GeneratedRulesParse | internal/iprules/rules.go:97-124 | for any accepted lists, what the generated overlay parses to is their normal form |
| Forms.Handlers.HandleAddExclusion | internal/ui/forms.go:69-89 | read, append and update is `AddExclusion`, refusals included |
| Forms.Handlers.HandleAddRule | internal/ui/forms.go:94-119 | read, append by action and update is `AddRule`, refusals included |
| Forms.AddExclusionEffect | internal/ui/forms.go:65-89 | one add stores the old list plus the exclusion, deduplicated, exactly when its overlay landed, and otherwise changes nothing |
| Forms.AddIsRefusedIff | internal/ui/forms.go:69-89 | an add is refused, and changes nothing, if and only if the overlay cannot be read or the domain or the exclusion is not accepted: what is stored never stands in the way |
| Forms.AddRuleEffect | internal/ui/forms.go:91-119 | one add whose overlay landed normalises both lists and puts the normalised entry at the end of the chosen one; any other changes nothing |
| Forms.AddRuleIsRefusedIff | internal/ui/forms.go:94-119 | an IP add is refused, and changes nothing, if and only if the overlay cannot be read, action, domain or entry is not accepted, or the overlay holds a word that is no address |
| Forms.AddsAccumulate | internal/ui/overlay.go:13-21 | after any adds with any outcomes the stored list is the earlier one and the landed adds, deduplicated, in order; without a landed add it is untouched |
| Forms.AddsNeverRenumber | internal/waf/exclusions.go:138-149 | a sequence of adds moves and renumbers no existing rule if and only if none landed or the stored list had no duplicates |
| Forms.RuleAddsAccumulate | internal/ui/overlay.go:13-21 | after any adds with any outcomes each IP list is its earlier entries and then its landed ones, normalised: none lost, merged or moved |
| UnlockedReads.EveryDeskIsKept | internal/ui/forms.go:77-84 | for every schedule of unlocked reads and single operations of runs, the runs are serial in lock order, and each request has read what was stored at one place of that order before its own, or what the run at that place had written and could still take back |
| AddHistories.StoredIsAccumulatedIff | internal/ui/overlay.go:18-21 | for every history of reads and landed or failed runs, the stored list is always the landed adds' accumulation if and only if each landed add was up to date: what landed since the list it built on, and what it had read of failed adds, make the same of that list |
| ConcurrentAdds.AddsAreSequentialIff | internal/ui/forms.go:69-89 | the same for every schedule of requests that add to or replace the list of one overlay, whatever kind of list, among requests on others |
| ConcurrentAdds.EditsAreSequentialIff | internal/service/chain.go:90-130 | with rollbacks and whole new lists among the adds: the list is always what the landed changes make, one after another in lock order, if and only if for every landed add what those since the list it goes back to have made of that, and what it had read, take its entry to the same list; replacements are always up to date |
| ConcurrentAdds.EditFits | internal/ui/forms.go:77-84 | every add is one of those changes |
| ConcurrentForms.RollbacksAndWholeListsFit | internal/service/chain.go:172-292 | so are a rollback of the overlay and a whole list sent through the chain |
| ConcurrentForms.AddUndoesRollback | internal/service/chain.go:283-291 | an add that read before a rollback and lands after it leaves nothing of the restored list |
| ConcurrentAdds.OutcomeIsOnDisk | internal/service/chain.go:97-98 | once nobody holds the mutex the last list of the history is the one on disk |
| ConcurrentForms.ExclusionTaskIsHandler | internal/ui/forms.go:69-89 | an exclusion request on its own does what the handler does |
| ConcurrentForms.ExclusionTaskFits | internal/ui/forms.go:77-84 | every exclusion request rewrites the overlay with what parses to the list it had read and its entry, deduplicated |
| ConcurrentForms.ExclusionAddsAreSequentialIff | internal/ui/overlay.go:18-21 | for every schedule, the exclusions are after each run the first list and the landed adds, deduplicated, in order, if and only if for every landed add the new entries among what landed since its list was stored and those among what it had read of failed adds are, with its own, the same |
| ConcurrentForms.CleanReadIsUpToDateIff | internal/ui/forms.go:77-84 | an add that read no failed add's overlay is up to date if and only if every entry that landed between its read and its run had been read by it, or is its own |
| ConcurrentForms.SecondAddOverwritesFirst | internal/ui/forms.go:77-84 | of two adds that read the same list and both land, the first one's entry survives if and only if it was in that list or is the second one's |
| LostAdd.SomeScheduleLosesAnAdd | internal/ui/forms.go:77-84 | for every domain and two exclusions a schedule of two adds that both succeed, after which the first is lost: `ConcurrentForms.NothingLost` fails |
| ConcurrentForms.AddCanBeLost | internal/ui/forms.go:77-84 | two adds that succeed, after which the first exclusion is gone |
| ConcurrentForms.FailedAddComesBack | internal/service/chain.go:115-126 | an add that read an overlay before it was taken back stores the failed exclusion with its own |
| ConcurrentForms.FailedAddCanBeStored | internal/service/chain.go:115-126 | an add that fails, whose overlay parses to its exclusion before it is taken back, and whose exclusion the next one stores |
| ConcurrentForms.RuleTaskIsHandler | internal/ui/forms.go:94-119 | an IP request on its own does what the handler does |
| ConcurrentForms.RuleTaskFits | internal/ui/forms.go:94-119 | every IP request rewrites the overlay with what parses to the normalised lists it had read and its entry |
| ConcurrentForms.RuleTaskIsProper | internal/iprules/rules.go:54-71 | the entry of an IP request that gets as far as the mutex is in normal form |
| ConcurrentForms.FoldIsGained | internal/ui/forms.go:94-119 | one entry after another leaves each list normalised, with its entries at its end |
| ConcurrentForms.RuleAddsAreSequentialIff | internal/ui/overlay.go:18-21 | for every schedule, the IP lists are after each run what the landed adds make one after another, if and only if for every landed add what landed since its lists were stored is, list by list, what it had read of failed adds |
| ConcurrentForms.CleanRuleReadIsUpToDateIff | internal/ui/forms.go:94-119 | an IP add that read no failed add's overlay is up to date if and only if nothing landed between its read and its run |
| ConcurrentForms.SecondRuleOverwritesFirst | internal/ui/forms.go:94-119 | of two IP adds that read the same lists and both land, only the second one's entry is added |
| TokenBucket.Bucket.Allow | internal/ratelimit/ratelimit.go:83-121 | one call updates tokens and instant and answers as `AllowAt` |
| TokenBucket.GrantIffEveryWindowFits | internal/ratelimit/ratelimit.go:94-105 | a call is granted if and only if one more grant fits every window that ends now: grants since s plus one at most burst + rate (now - s) |
| TokenBucket.NoWindowExceedsItsBound | internal/ratelimit/ratelimit.go:49-53 | no window of any history holds more grants than burst plus rate times its length |
| TokenBucket.DeniedCallIsInvisible | internal/ratelimit/ratelimit.go:94-101 | deleting a denied call from a history changes no other answer, retry times included |
| TokenBucket.RetryAfterSoundAndTight | internal/ratelimit/ratelimit.go:102-120 | retry r is at least 1; a call r s + 1 ns later is granted, for any bucket that can hold a token; one at r - 1 s is still denied |
| TokenBucket.RetryAfterExactIff | internal/ratelimit/ratelimit.go:111-120 | a call exactly r s later is granted if and only if the wait is at most 1 s, whole, or more than the tolerance past a whole second |
| TokenBucket.RetryAfterCanBeOneNanosecondShort | internal/ratelimit/ratelimit.go:114-116 | a login bucket where the advertised wait is too short |
| ClientLimits.ClientLimiter.Allow | internal/ratelimit/ratelimit.go:163-184 | prune, find or create, stamp and ask is `AllowCall` on the map of buckets |
| ClientLimits.EntriesAreRecent | internal/ratelimit/ratelimit.go:160-184 | after any history no remembered client was last seen more than an hour before the last call, and the last sweep is at most half an hour old |
| ClientLimits.PruningIsInvisible | internal/ratelimit/ratelimit.go:163-184 | with the clock readings of a call at most `gap` apart, every history is answered as by one never-pruned bucket per key if a pause of the timeout less `gap` refills the burst |
| ClientLimits.PruningInvisibleIff | internal/ratelimit/ratelimit.go:159-184 | for every rate and burst, pruning is invisible if and only if nothing is ever granted or the shortest idle period that deletes an entry refills the burst |
| ClientLimits.PruningInvisibleOnlyIf | internal/ratelimit/ratelimit.go:163-184 | with readings any distance apart the condition for one reading stays necessary |
| ClientLimits.PruningInvisibleIffForOne | internal/ratelimit/ratelimit.go:163-184 | with a burst of one and readings up to `gap` apart, invisible if and only if the idle timeout less `gap` refills it |
| LoginGate.BothLimitersHideTheirPruning | internal/ratelimit/ratelimit.go:186-192 | the configured login and API limiters meet the condition, with readings up to 29 minutes apart |
| LoginGate.LoginHandler.Handle | internal/ratelimit/ratelimit.go:216-232 | the two-stage decision is `Decide`; a request that is no POST passes and changes nothing |
| LoginGate.OthersPassUnseen | internal/ratelimit/ratelimit.go:218-221 | anywhere in a history a request that is no POST passes, and without it every other verdict is the same |
| LoginGate.PostIsToldBy | internal/ratelimit/ratelimit.go:222-231 | a POST is told the denial and retry time of its client's own never-deleted bucket of 5 a minute if that denies, else those of the bucket of 60 a minute that the others have reached, else it passes |
| LoginGate.PassesInNumbers | internal/ratelimit/ratelimit.go:24-36 | both bounds on the passes of any window, in numbers |
| LoginGate.PassesStayUnderCeiling | internal/ratelimit/ratelimit.go:31-36 | all clients together pass at most 60 POSTs plus one a second in any window |
| LoginGate.ClientPassesStayBounded | internal/ratelimit/ratelimit.go:25-29 | one client passes at most 5 POSTs plus one every 12 seconds in any window, although its bucket may be deleted and made anew |
| LoginStages.CeilingBoundsEveryHistory | internal/ratelimit/ratelimit.go:216-232 | with the two stages of any number of requests interleaved, at most 60 requests plus one a second pass in any window |
| LoginStages.ClientBoundsEveryHistory | internal/ratelimit/ratelimit.go:216-232 | with the two stages interleaved and readings up to 29 minutes apart, at most 5 requests of one client plus one every 12 seconds pass in any window |
| LogReader.TailIsWholeLines | internal/logs/reader.go:140-161 | for a file larger than the window, with a newline in it, the lines left are exactly the last lines of the file, none cut; one line before them is dropped |
| LogReader.WholeLineIsDropped | internal/logs/reader.go:157-159 | a whole line at the very start of the window is dropped |
| LogReader.Reverse | internal/logs/reader.go:133-136 | the in-place swap loop reverses the array |
| LogReader.Paginate | internal/logs/reader.go:309-339 | the clamping of page, start and end computes `Paginated` |
| LogReader.PagesPartition | internal/logs/reader.go:306-339 | for every page size the pages 1..Pages concatenate to the list |
| LogReader.PageIsClamped | internal/logs/reader.go:306-330 | an out-of-range page is the nearest existing one, the first or the last, and not empty when entries exist |
| LogReader.Read | internal/logs/reader.go:69-138 | window, decoding, filtering, reversing and paging is `ReadPage`, whose pages `ExplorerShowsExactly` characterises |
| LogReader.MatchesIff | internal/logs/reader.go:286-304 | an entry passes if and only if the action filter is empty or has its action's letters in any case, and the trimmed search is empty or occurs at some index of client, URI, rule id or message in any case |
| LogReader.ExplorerShowsExactly | internal/logs/reader.go:62-138 | all pages together show, from the last line of the window to the first, the entry of each non-blank line that holds one and passes, once, and nothing else |
| LogReader.PageHolds | internal/logs/reader.go:306-339 | which entries one page holds, with 50 where no size is asked for |
| LogReader.WindowIs | internal/logs/reader.go:144-161 | a small file is taken whole, and a window without a newline too |
| LogReader.ExplorerShowsEveryMatch | internal/logs/reader.go:62-138 | the pages are those of the entries that `Matches` keeps, none left out or shown twice, newest first |

## Left out

- Floating point: tokens and rates are exact reals; rounding of float64 and overflow of the retry duration are not modelled.
- Clocks: readings are parameters. Differences saturate in Go after 292 years; not modelled, except that a limiter that never pruned has its last pruning at the zero time.
- ClientLimits.PruningIsInvisible: sufficient only, for a burst above one and readings apart. The exact bound lies between it and `PruningInvisibleOnlyIf`, which differ by `gap` of refill, and depends on which fractions of a token the rate yields in whole nanoseconds.
- LoginGate.LoginHandler.Handle: one clock reading, one request at a time; `LoginStages` takes the two stages apart.
- LoginStages.ClientBoundsEveryHistory: a pass counts at the instant at which the client limiter granted it, not at its later instant at the ceiling.
- Forms.AddsAccumulate: one add after another; `ConcurrentForms` has adds at once.
- Forms.RuleAddsAccumulate: one add after another, for the same reason.
- Forms.AddsNeverRenumber: one add after another.
- ConcurrentForms.ExclusionAddsAreSequentialIff: adds only, for the sharper condition; `ConcurrentAdds.EditsAreSequentialIff` has replacements and rollbacks among them.
- ConcurrentForms.RuleAddsAreSequentialIff: adds only, for the same reason.
- Files.BackupKeepsNewest: with a clock ahead of every snapshot of the type; `Files.BackupKeepsIff` is for any clock.
- Rollbacks.ChosenSnapshotIsFoundIff: with a clock ahead; `Rollbacks.ChosenBytesIff` is for any clock.
- Rollbacks.RollbackSwapsOverlay: with a clock ahead; `Rollbacks.RollbackRestoresIff` is for any clock.
- Rollbacks.RollbackIsReversible: with a clock ahead; `Rollbacks.RollbackIsReversibleIff` is for any clock.
- Chain.AgreementOverRuns: one way, with the simpler condition; `Chain.AgreementOverRunsIff` is exact.
- Interleaving.NoDeadlock: that someone can move; `Fairness.EveryFairScheduleFinishes` that all finish.
- Files.FileSystem.ListBackups: sub-directories and entries whose size cannot be read are not modelled.
- Independence.RunsCommute: an empty backup directory counts as a missing one.
- Interleaving: creating the backup directory and copying the snapshot is one step, so readers of half-copied snapshots are not covered.
- Naming.MakeSlug: lower-cases ASCII only, and a character is a byte.
- Naming.SlugsCollideIff: for ASCII domains, for the same reason.
- Caddy.ExpectedHosts: the captures of the site-line pattern are an input, instead of the Caddyfile.
- Caddy.Admin.Reload: the check of the admin URL is a flag, the decoded live configuration an input; the recorded error text and time are left out. A load without a reply may or may not have been adopted; both are allowed.
- Headers.ParseHeader: recognises the UTC timestamps that the program writes; other RFC 3339 forms (offsets, fractions) count as unparseable.
- Headers.Scan: sub-directories and files that cannot be read are not modelled.
- White space and letter case are ASCII everywhere; the Unicode cases of the string library are not modelled.
- The Include path of the WAF overlay is joined without path cleaning; the failure of a text template is a flag.
- LogReader.Read: decoding a record, and a stream without newlines, are functions given as inputs; classification of actions and normalisation of timestamps are left out with them.
- Audit log records, HTTP, cookies, templates of the user interface and configuration from the environment.
