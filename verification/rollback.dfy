/** Rolling back: which snapshots can still be restored, and undoing a rollback. */
module Rollbacks {
  import opened Text
  import opened Naming
  import opened Ordering
  import opened Files
  import opened Chain
  import Caddy

  function SnapshotOf(s: Script, ft: FileType): string
    requires s.Valid()
  {
    SnapshotName(StampText(s.backup.now), ft)
  }

  ghost predicate BackupWorks(w: World, req: Request, s: Script, keep: nat)
    requires s.Valid()
  {
    !s.readFails && BackedUp(w.managed, w.backups, req.fileType, req.slug, keep, s.backup).1
  }

  /** The snapshots of the type, and the one that the rollback's own backup makes. */
  function Candidates(w: World, req: Request, s: Script): set<string>
    requires s.Valid()
  {
    Names(DirOf(w.backups, req.slug), req.fileType) + {SnapshotOf(s, req.fileType)}
  }

  /** The rollback's own backup does not delete the chosen snapshot. */
  predicate Spares(w: World, req: Request, s: Script, keep: nat)
    requires req.Rollback? && s.Valid()
  {
    req.Target() !in w.managed || |Above(Candidates(w, req, s), req.snapshot)| < keep
  }

  /** The rollback's own backup writes other bytes over the chosen snapshot, in the second
      in which that was made. */
  predicate Overwrites(w: World, req: Request, s: Script)
    requires req.Rollback? && s.Valid()
  {
    && req.Target() in w.managed && req.snapshot == SnapshotOf(s, req.fileType)
    && Get(DirOf(w.backups, req.slug), req.snapshot) != Some(w.managed[req.Target()])
  }

  /** What the backup stage leaves of the chosen snapshot, whatever the clock. */
  lemma SnapshotAfterBackup(w: World, req: Request, s: Script, keep: nat)
    requires req.Rollback? && s.Valid()
    requires req.snapshot in Names(DirOf(w.backups, req.slug), req.fileType)
    requires BackupWorks(w, req, s, keep)
    ensures
      var before := DirOf(w.backups, req.slug);
      var after := DirOf(BackedUp(w.managed, w.backups, req.fileType, req.slug, keep, s.backup).0, req.slug);
      Get(after, req.snapshot) ==
      if !Spares(w, req, s, keep) then None
      else if req.Target() in w.managed && req.snapshot == SnapshotOf(s, req.fileType) then
          Some(w.managed[req.Target()])
      else Get(before, req.snapshot)
  {
    if req.Target() in w.managed {
      BackupKeepsIff(w.managed, w.backups, req.fileType, req.slug, keep, s.backup);
    }
  }

  lemma ContentFound(backups: map<string, Dir>, req: Request, s: Script)
    requires req.Rollback?
    ensures ContentOf(backups, req, s) == Unavailable(SnapshotMissing) <==>
            Get(DirOf(backups, req.slug), req.snapshot) == None
    ensures ContentOf(backups, req, s).Ready? ==>
              Get(DirOf(backups, req.slug), req.snapshot) == Some(ContentOf(backups, req, s).bytes)
  {
  }

  lemma MissingMeansUnavailable(w: World, req: Request, s: Script, keep: nat)
    requires s.Valid() && BackupWorks(w, req, s, keep)
    ensures Ran(w, req, s, keep).1 == Failed(SnapshotMissing) <==>
            Intended(w, req, s, keep) == Unavailable(SnapshotMissing)
  {
  }

  /** A rollback backs up and prunes before it reads its snapshot. Whatever the clock, an
      existing snapshot is found if and only if that backup spares it, and its bytes are
      restored if and only if it does not overwrite it either. */
  lemma ChosenBytesIff(w: World, req: Request, s: Script, keep: nat)
    requires req.Rollback? && s.Valid()
    requires req.snapshot in Names(DirOf(w.backups, req.slug), req.fileType)
    requires BackupWorks(w, req, s, keep)
    ensures Ran(w, req, s, keep).1 != Failed(SnapshotMissing) <==> Spares(w, req, s, keep)
    ensures !s.snapshotReadFails ==>
              (Intended(w, req, s, keep) == Ready(DirOf(w.backups, req.slug)[req.snapshot]) <==>
               Spares(w, req, s, keep) && !Overwrites(w, req, s))
    ensures Intended(w, req, s, keep).Ready? ==>
              Intended(w, req, s, keep).bytes ==
              if Overwrites(w, req, s) then w.managed[req.Target()] else DirOf(w.backups, req.slug)[req.snapshot]
  {
    var backups := BackedUp(w.managed, w.backups, req.fileType, req.slug, keep, s.backup).0;
    SnapshotAfterBackup(w, req, s, keep);
    ContentFound(backups, req, s);
    ContentIsReady(backups, req, s);
    MissingMeansUnavailable(w, req, s, keep);
  }

  lemma ContentIsReady(backups: map<string, Dir>, req: Request, s: Script)
    requires req.Rollback?
    ensures !s.snapshotReadFails ==>
              forall bytes :: ContentOf(backups, req, s) == Ready(bytes) <==>
                                Get(DirOf(backups, req.slug), req.snapshot) == Some(bytes)
  {
  }

  /** A clock ahead of every snapshot overwrites none, and has one more newer than each. */
  lemma AheadSparesIff(w: World, req: Request, s: Script, keep: nat)
    requires req.Rollback? && s.Valid()
    requires ClockAhead(DirOf(w.backups, req.slug), req.fileType, s.backup.now)
    requires req.snapshot in Names(DirOf(w.backups, req.slug), req.fileType)
    ensures !Overwrites(w, req, s)
    ensures Spares(w, req, s, keep) <==>
            req.Target() !in w.managed ||
            |Above(Names(DirOf(w.backups, req.slug), req.fileType), req.snapshot)| + 1 < keep
  {
    NewestAboveOthers(Names(DirOf(w.backups, req.slug), req.fileType), SnapshotOf(s, req.fileType));
  }

  /** With a clock ahead of every snapshot, an existing snapshot is found if and only if
      there is no overlay to back up or fewer than keep-1 snapshots of the type are newer. */
  lemma ChosenSnapshotIsFoundIff(w: World, req: Request, s: Script, keep: nat)
    requires req.Rollback? && s.Valid() && keep > 0
    requires ClockAhead(DirOf(w.backups, req.slug), req.fileType, s.backup.now)
    requires req.snapshot in Names(DirOf(w.backups, req.slug), req.fileType)
    requires BackupWorks(w, req, s, keep)
    ensures
      var own := Names(DirOf(w.backups, req.slug), req.fileType);
      Ran(w, req, s, keep).1 != Failed(SnapshotMissing) <==>
      req.Target() !in w.managed || |Above(own, req.snapshot)| + 1 < keep
    ensures Intended(w, req, s, keep).Ready? ==>
              Intended(w, req, s, keep).bytes == DirOf(w.backups, req.slug)[req.snapshot]
  {
    ChosenBytesIff(w, req, s, keep);
    AheadSparesIff(w, req, s, keep);
  }

  lemma SuccessKeepsBackups(w: World, req: Request, s: Script, keep: nat)
    requires s.Valid() && Ran(w, req, s, keep).1 == Done
    ensures BackupWorks(w, req, s, keep)
    ensures Ran(w, req, s, keep).0.backups == BackedUp(w.managed, w.backups, req.fileType, req.slug, keep, s.backup).0
  {
  }

  /** Whatever the clock, a successful rollback restores the chosen snapshot if and only if
      its own backup did not overwrite that; if it did, no overlay changes. */
  lemma RollbackRestoresIff(w: World, req: Request, s: Script, keep: nat)
    requires req.Rollback? && s.Valid()
    requires req.snapshot in Names(DirOf(w.backups, req.slug), req.fileType)
    requires Ran(w, req, s, keep).1 == Done
    ensures
      var w' := Ran(w, req, s, keep).0;
      var chosen := DirOf(w.backups, req.slug)[req.snapshot];
      && (Get(w'.managed, req.Target()) == Some(chosen) <==> !Overwrites(w, req, s))
      && Overlays(w'.managed) ==
         if Overwrites(w, req, s) then Overlays(w.managed) else Overlays(w.managed)[req.Target() := chosen]
  {
    var w' := Ran(w, req, s, keep).0;
    SuccessKeepsBackups(w, req, s, keep);
    RunIsAllOrNothing(w, req, s, keep);
    ChosenBytesIff(w, req, s, keep);
    OverlayIsConf(req.fileType, req.slug);
    assert Get(w'.managed, req.Target()) == Get(Overlays(w'.managed), req.Target());
    if Overwrites(w, req, s) {
      UnchangedOverlays(w, req, w.managed[req.Target()]);
    }
  }

  /** ... and the bytes that it replaced are in the snapshot that it made if and only if that
      is one of the `keep` newest. */
  lemma ReplacedIsKeptIff(w: World, req: Request, s: Script, keep: nat)
    requires req.Rollback? && s.Valid() && req.Target() in w.managed
    requires Ran(w, req, s, keep).1 == Done
    ensures
      var after := DirOf(Ran(w, req, s, keep).0.backups, req.slug);
      Get(after, SnapshotOf(s, req.fileType)) ==
      if |Above(Candidates(w, req, s), SnapshotOf(s, req.fileType))| < keep then Some(w.managed[req.Target()]) else None
  {
    SuccessKeepsBackups(w, req, s, keep);
    BackupKeepsIff(w.managed, w.backups, req.fileType, req.slug, keep, s.backup);
  }

  /** With a clock ahead of every snapshot, a successful rollback writes the chosen snapshot's
      bytes and keeps the bytes it replaced in the newest snapshot. */
  lemma RollbackSwapsOverlay(w: World, req: Request, s: Script, keep: nat)
    requires req.Rollback? && s.Valid() && keep > 0
    requires ClockAhead(DirOf(w.backups, req.slug), req.fileType, s.backup.now)
    requires req.snapshot in Names(DirOf(w.backups, req.slug), req.fileType)
    requires req.Target() in w.managed
    requires Ran(w, req, s, keep).1 == Done
    ensures
      var w' := Ran(w, req, s, keep).0;
      var before, after := DirOf(w.backups, req.slug), DirOf(w'.backups, req.slug);
      && Get(w'.managed, req.Target()) == Some(before[req.snapshot])
      && Overlays(w'.managed) == Overlays(w.managed)[req.Target() := before[req.snapshot]]
      && Rotated(before, Names(before, req.fileType), after, Names(after, req.fileType), keep,
                 SnapshotOf(s, req.fileType), w.managed[req.Target()])
  {
    SuccessKeepsBackups(w, req, s, keep);
    AheadSparesIff(w, req, s, keep);
    RollbackRestoresIff(w, req, s, keep);
    BackupKeepsNewest(w.managed, w.backups, req.fileType, req.slug, keep, s.backup);
  }

  /** A later clock is ahead of snapshots of which the newest is `now`'s, and none is newer than that. */
  lemma NewestIsAhead(own: set<string>, now: Stamp, later: Stamp, ft: FileType)
    requires now.InRange() && later.InRange() && Earlier(now, later)
    requires forall n :: n in own ==> n == SnapshotName(StampText(now), ft) || Less(n, SnapshotName(StampText(now), ft))
    ensures forall n :: n in own ==> Less(n, SnapshotName(StampText(later), ft))
    ensures Above(own, SnapshotName(StampText(now), ft)) == {}
  {
    var made := SnapshotName(StampText(now), ft);
    LaterSnapshotSortsLast(now, later, ft);
    forall n | n in own
      ensures Less(n, SnapshotName(StampText(later), ft)) && !Less(made, n)
    {
      if n != made {
        LessTransitive(n, made, SnapshotName(StampText(later), ft));
      }
      LessTotal(n, made);
    }
  }

  /** Rolling back and then rolling back to the snapshot this made restores every overlay,
      for any retention of at least two and a clock that moves on a second. */
  lemma RollbackIsReversible(w: World, req: Request, s1: Script, s2: Script, keep: nat)
    requires req.Rollback? && s1.Valid() && s2.Valid() && keep >= 2
    requires ClockAhead(DirOf(w.backups, req.slug), req.fileType, s1.backup.now)
    requires Earlier(s1.backup.now, s2.backup.now)
    requires req.snapshot in Names(DirOf(w.backups, req.slug), req.fileType)
    requires req.Target() in w.managed
    requires Ran(w, req, s1, keep).1 == Done
    ensures
      var w1 := Ran(w, req, s1, keep).0;
      var back := req.(snapshot := SnapshotOf(s1, req.fileType));
      && back.Valid()
      && (BackupWorks(w1, back, s2, keep) ==> Ran(w1, back, s2, keep).1 != Failed(SnapshotMissing))
      && (Ran(w1, back, s2, keep).1 == Done ==>
            Overlays(Ran(w1, back, s2, keep).0.managed) == Overlays(w.managed))
  {
    var ft, w1 := req.fileType, Ran(w, req, s1, keep).0;
    var made := SnapshotOf(s1, ft);
    var back := req.(snapshot := made);
    NewSnapshotIsOfType(s1.backup.now, ft);
    RollbackSwapsOverlay(w, req, s1, keep);
    NewestIsAhead(Names(DirOf(w1.backups, req.slug), ft), s1.backup.now, s2.backup.now, ft);
    if BackupWorks(w1, back, s2, keep) {
      ChosenSnapshotIsFoundIff(w1, back, s2, keep);
    }
    if Ran(w1, back, s2, keep).1 == Done {
      RollbackSwapsOverlay(w1, back, s2, keep);
      RestoringTwice(w, req, DirOf(w.backups, req.slug)[req.snapshot]);
    }
  }

  /** Whatever the clock: rolling back to the snapshot that a first rollback made, and kept,
      restores every overlay if and only if the two did not make their snapshots under one
      name, or the first had nothing to restore. */
  lemma RollbackIsReversibleIff(w: World, req: Request, s1: Script, s2: Script, keep: nat)
    requires req.Rollback? && s1.Valid() && s2.Valid()
    requires req.snapshot in Names(DirOf(w.backups, req.slug), req.fileType) && req.Target() in w.managed
    requires |Above(Candidates(w, req, s1), SnapshotOf(s1, req.fileType))| < keep
    requires Ran(w, req, s1, keep).1 == Done
    requires Ran(Ran(w, req, s1, keep).0, req.(snapshot := SnapshotOf(s1, req.fileType)), s2, keep).1 == Done
    ensures
      var made := SnapshotOf(s1, req.fileType);
      var w2 := Ran(Ran(w, req, s1, keep).0, req.(snapshot := made), s2, keep).0;
      Overlays(w2.managed) == Overlays(w.managed) <==>
      || SnapshotOf(s2, req.fileType) != made
      || Overwrites(w, req, s1)
      || DirOf(w.backups, req.slug)[req.snapshot] == w.managed[req.Target()]
  {
    var ft, w1, made := req.fileType, Ran(w, req, s1, keep).0, SnapshotOf(s1, req.fileType);
    var back := req.(snapshot := made);
    NewSnapshotIsOfType(s1.backup.now, ft);
    RollbackRestoresIff(w, req, s1, keep);
    ReplacedIsKeptIff(w, req, s1, keep);
    RollbackRestoresIff(w1, back, s2, keep);
    OverlayIsConf(ft, req.slug);
    OverlaysHold(w, req.Target());
    OverlaysHold(w1, req.Target());
    ReversedIff(Overlays(w.managed), Overlays(w1.managed), Overlays(Ran(w1, back, s2, keep).0.managed), req.Target(),
                w.managed[req.Target()], DirOf(w.backups, req.slug)[req.snapshot], Overwrites(w, req, s1),
                SnapshotOf(s2, ft) == made);
  }

  lemma OverlaysHold(w: World, name: string)
    requires IsConf(name)
    ensures Get(Overlays(w.managed), name) == Get(w.managed, name)
  {
  }

  /** Two restorations of one overlay, of which the first may have had its source overwritten,
      and the second has, if both made their snapshots under one name. */
  lemma ReversedIff(start: Dir, once: Dir, twice: Dir, name: string, old': Bytes, chosen: Bytes, overwritten: bool,
                    same: bool)
    requires Get(start, name) == Some(old')
    requires once == if overwritten then start else start[name := chosen]
    requires twice == if same && Get(once, name) != Some(old') then once else once[name := old']
    ensures twice == start <==> !same || overwritten || chosen == old'
  {
    assert start[name := chosen][name := old'] == start;
    assert Get(start[name := chosen], name) == Some(chosen);
  }

  lemma RestoringTwice(w: World, req: Request, bytes: Bytes)
    requires req.Target() in w.managed
    ensures Overlays(w.managed)[req.Target() := bytes][req.Target() := w.managed[req.Target()]] == Overlays(w.managed)
  {
    OverlayIsConf(req.fileType, req.slug);
  }

  // ------------------------------------------------------- the hypotheses, and a loss

  /** A rollback whose steps all work succeeds, if its backup spares its snapshot. */
  lemma SparedRollbackSucceeds(w: World, req: Request, now: Stamp, admin: Caddy.AdminScript, keep: nat)
    requires req.Rollback? && now.InRange() && Spares(w, req, Smooth(now, admin), keep)
    requires req.snapshot in Names(DirOf(w.backups, req.slug), req.fileType)
    requires TempName(req.Target(), SMOOTH_WRITE.nonce) !in w.managed
    requires Caddy.ReadbackOf(admin).ok
    ensures Ran(w, req, Smooth(now, admin), keep).1 == Done
  {
    var s := Smooth(now, admin);
    SmoothBackupWorks(w, req, now, admin, keep);
    SnapshotAfterBackup(w, req, s, keep);
    ContentIsReady(BackedUp(w.managed, w.backups, req.fileType, req.slug, keep, s.backup).0, req, s);
    assert Intended(w, req, s, keep).Ready?;
    ResultIff(w, req, s, keep);
  }

  lemma RollbackSucceeds(w: World, req: Request, now: Stamp, admin: Caddy.AdminScript, keep: nat)
    requires req.Rollback? && now.InRange() && keep > 0
    requires ClockAhead(DirOf(w.backups, req.slug), req.fileType, now)
    requires req.snapshot in Names(DirOf(w.backups, req.slug), req.fileType)
    requires req.Target() in w.managed && TempName(req.Target(), SMOOTH_WRITE.nonce) !in w.managed
    requires |Above(Names(DirOf(w.backups, req.slug), req.fileType), req.snapshot)| + 1 < keep
    requires Caddy.ReadbackOf(admin).ok
    ensures Ran(w, req, Smooth(now, admin), keep).1 == Done
  {
    AheadSparesIff(w, req, Smooth(now, admin), keep);
    SparedRollbackSucceeds(w, req, now, admin, keep);
  }

  lemma SmoothBackupWorks(w: World, req: Request, now: Stamp, admin: Caddy.AdminScript, keep: nat)
    requires now.InRange()
    ensures BackupWorks(w, req, Smooth(now, admin), keep)
  {
  }

  const SOON := Stamp(2026, 8, 7, 12, 0, 1)

  const LATER := Stamp(2026, 8, 7, 12, 0, 2)

  const CHOSEN := SnapshotName(StampText(NOON), WAF)

  /** One overlay, with one snapshot. */
  function SmallWorld(): World {
    World(map[OverlayName(WAF, "a_com") := "new"], map["a_com" := map[CHOSEN := "old"]], map[],
          Caddy.ReadbackState(true, 0, []))
  }

  const BACK := Rollback(WAF, "a_com", CHOSEN)

  lemma SmallWorldFacts()
    ensures Names(SmallWorld().backups["a_com"], WAF) == {CHOSEN}
    ensures ClockAhead(SmallWorld().backups["a_com"], WAF, SOON)
    ensures Above({CHOSEN}, CHOSEN) == {}
  {
    NewSnapshotIsOfType(NOON, WAF);
    LaterSnapshotSortsLast(NOON, SOON, WAF);
    LessTotal(CHOSEN, CHOSEN);
  }

  /** A rollback that deletes the very snapshot it was asked for. */
  lemma RollbackCanDeleteItsSnapshot()
    ensures Ran(SmallWorld(), BACK, Smooth(SOON, VERIFIED), 1).1 == Failed(SnapshotMissing)
  {
    SmallWorldFacts();
    SmoothBackupWorks(SmallWorld(), BACK, SOON, VERIFIED, 1);
    ChosenSnapshotIsFoundIff(SmallWorld(), BACK, Smooth(SOON, VERIFIED), 1);
  }

  /** In the second in which the snapshot was made a rollback to it succeeds, restores nothing,
      and has written the current overlay over it: its bytes are nowhere. */
  lemma RollbackCanDestroyItsSnapshot()
    ensures
      var (w', result) := Ran(SmallWorld(), BACK, Smooth(NOON, VERIFIED), 10);
      && result == Done && Overlays(w'.managed) == Overlays(SmallWorld().managed)
      && forall n :: Get(DirOf(w'.backups, "a_com"), n) == if n == CHOSEN then Some("new") else None
  {
    var w, s := SmallWorld(), Smooth(NOON, VERIFIED);
    SmallWorldFacts();
    NothingExpected();
    OverlayIsConf(WAF, "a_com");
    TempIsNotConf(BACK.Target(), SMOOTH_WRITE.nonce);
    NoonIsSpared();
    SparedRollbackSucceeds(w, BACK, NOON, VERIFIED, 10);
    RollbackRestoresIff(w, BACK, s, 10);
    SuccessKeepsBackups(w, BACK, s, 10);
    OverwrittenInPlace();
  }

  lemma NoonIsSpared()
    ensures Candidates(SmallWorld(), BACK, Smooth(NOON, VERIFIED)) == {CHOSEN}
    ensures Spares(SmallWorld(), BACK, Smooth(NOON, VERIFIED), 10)
    ensures Overwrites(SmallWorld(), BACK, Smooth(NOON, VERIFIED))
  {
    SmallWorldFacts();
    assert Candidates(SmallWorld(), BACK, Smooth(NOON, VERIFIED)) == {CHOSEN};
  }

  lemma OverwrittenInPlace()
    ensures
      var w := SmallWorld();
      var after := DirOf(BackedUp(w.managed, w.backups, WAF, "a_com", 10, Smooth(NOON, VERIFIED).backup).0, "a_com");
      forall n :: Get(after, n) == if n == CHOSEN then Some("new") else None
  {
    var w, s := SmallWorld(), Smooth(NOON, VERIFIED);
    NoonIsSpared();
    SmoothBackupWorks(w, BACK, NOON, VERIFIED, 10);
    BackupKeepsIff(w.managed, w.backups, WAF, "a_com", 10, s.backup);
    var after := DirOf(BackedUp(w.managed, w.backups, WAF, "a_com", 10, s.backup).0, "a_com");
    OnlyTheNewOne(map[CHOSEN := "old"], after, Names(after, WAF), 10, CHOSEN, "new");
  }

  lemma OnlyTheNewOne(before: Dir, after: Dir, own': set<string>, keep: nat, made: string, content: Bytes)
    requires before.Keys == {made} && keep > 0
    requires KeepsNewest(before[made := content], {made}, after, own', keep)
    ensures forall n :: Get(after, n) == if n == made then Some(content) else None
  {
    LessTotal(made, made);
    assert Above({made}, made) == {};
  }

  const BEFORE_NOON := Stamp(2026, 8, 7, 11, 59, 59)

  /** By a clock that is behind, a backup can succeed and leave no snapshot of the overlay. */
  lemma BackupCanLeaveNoSnapshot()
    ensures
      var w, made := SmallWorld(), SnapshotName(StampText(BEFORE_NOON), WAF);
      var (backups, ok) := BackedUp(w.managed, w.backups, WAF, "a_com", 1, Smooth(BEFORE_NOON, VERIFIED).backup);
      ok && Get(DirOf(backups, "a_com"), made) == None && Get(DirOf(backups, "a_com"), CHOSEN) == Some("old")
  {
    var w, s := SmallWorld(), Smooth(BEFORE_NOON, VERIFIED);
    SmallWorldFacts();
    SmoothBackupWorks(w, BACK, BEFORE_NOON, VERIFIED, 1);
    BackupKeepsIff(w.managed, w.backups, WAF, "a_com", 1, s.backup);
    LaterSnapshotSortsLast(BEFORE_NOON, NOON, WAF);
    OlderOfTwo(SnapshotName(StampText(BEFORE_NOON), WAF), CHOSEN);
  }

  lemma OlderOfTwo(older: string, newer: string)
    requires Less(older, newer)
    ensures older != newer && |Above({newer} + {older}, older)| == 1 && |Above({newer} + {older}, newer)| == 0
  {
    LessTotal(older, newer);
    LessTotal(older, older);
    LessTotal(newer, newer);
    assert Above({newer} + {older}, older) == {newer};
    assert Above({newer} + {older}, newer) == {};
  }

  /** With one snapshot more to keep, both rollbacks of `RollbackIsReversible` succeed. */
  lemma BothRollbacksCanSucceed()
    ensures
      var w1 := Ran(SmallWorld(), BACK, Smooth(SOON, VERIFIED), 2).0;
      && ClockAhead(SmallWorld().backups["a_com"], WAF, SOON) && Earlier(SOON, LATER)
      && BACK.Target() in SmallWorld().managed && CHOSEN in Names(SmallWorld().backups["a_com"], WAF)
      && Ran(SmallWorld(), BACK, Smooth(SOON, VERIFIED), 2).1 == Done
      && Ran(w1, BACK.(snapshot := SnapshotName(StampText(SOON), WAF)), Smooth(LATER, VERIFIED), 2).1 == Done
  {
    var w, s := SmallWorld(), Smooth(SOON, VERIFIED);
    SmallWorldFacts();
    NothingExpected();
    OverlayIsConf(WAF, "a_com");
    TempIsNotConf(BACK.Target(), SMOOTH_WRITE.nonce);
    RollbackSucceeds(w, BACK, SOON, VERIFIED, 2);
    RollbackSwapsOverlay(w, BACK, s, 2);
    RunLeavesTempIff(w, BACK, s, 2, TempName(BACK.Target(), SMOOTH_WRITE.nonce));
    SecondRollbackSucceeds(w, BACK, SOON, LATER, VERIFIED, 2);
  }

  lemma SecondRollbackSucceeds(w: World, req: Request, now: Stamp, later: Stamp, admin: Caddy.AdminScript, keep: nat)
    requires req.Rollback? && now.InRange() && later.InRange() && keep >= 2 && Earlier(now, later)
    requires ClockAhead(DirOf(w.backups, req.slug), req.fileType, now)
    requires req.snapshot in Names(DirOf(w.backups, req.slug), req.fileType)
    requires req.Target() in w.managed
    requires Ran(w, req, Smooth(now, admin), keep).1 == Done
    requires TempName(req.Target(), SMOOTH_WRITE.nonce) !in Ran(w, req, Smooth(now, admin), keep).0.managed
    ensures
      var w1 := Ran(w, req, Smooth(now, admin), keep).0;
      var made := SnapshotName(StampText(now), req.fileType);
      Ran(w1, req.(snapshot := made), Smooth(later, admin), keep).1 == Done
  {
    var ft, s := req.fileType, Smooth(now, admin);
    var w1, made := Ran(w, req, s, keep).0, SnapshotName(StampText(now), ft);
    NewSnapshotIsOfType(now, ft);
    RollbackSwapsOverlay(w, req, s, keep);
    NewestIsAhead(Names(DirOf(w1.backups, req.slug), ft), now, later, ft);
    ResultIff(w, req, s, keep);
    RollbackSucceeds(w1, req.(snapshot := made), later, admin, keep);
  }
}
