/** What one run can read and change, and runs on different overlays in either order. */
module Independence {
  import opened Text
  import opened Naming
  import opened Files
  import opened Chain
  import Caddy

  /** The target and the temporary files made next to it. */
  ghost predicate Owns(target: string, n: string) {
    n == target || exists k: nat :: n == TempName(target, k)
  }

  ghost predicate SameFiles(a: Dir, b: Dir, target: string) {
    forall n :: Owns(target, n) ==> Get(a, n) == Get(b, n)
  }

  ghost predicate SameSnapshots(a: Dir, b: Dir, ft: FileType) {
    Names(a, ft) == Names(b, ft) && forall n :: n in Names(a, ft) ==> Get(a, n) == Get(b, n)
  }

  /** Two worlds that a run cannot tell apart. */
  ghost predicate LookAlike(v: World, w: World, req: Request) {
    && SameFiles(v.managed, w.managed, req.Target())
    && SameSnapshots(DirOf(v.backups, req.slug), DirOf(w.backups, req.slug), req.fileType)
  }

  /** Everything outside the overlay and the snapshots of its type is as it was. */
  ghost predicate OnlyTouches(w: World, w': World, req: Request) {
    && (forall n :: !Owns(req.Target(), n) ==> Get(w'.managed, n) == Get(w.managed, n))
    && (forall slug :: slug != req.slug ==> DirOf(w'.backups, slug) == DirOf(w.backups, slug))
    && OtherTypesKept(DirOf(w.backups, req.slug), DirOf(w'.backups, req.slug), req.fileType)
  }

  ghost predicate OtherTypesKept(d: Dir, d': Dir, ft: FileType) {
    forall n :: BackupType(n) != Some(ft) ==> Get(d', n) == Get(d, n)
  }

  // ------------------------------------------------------------------- what is changed

  lemma WriteTouchesOwned(dir: Dir, target: string, content: Bytes, w: WriteScript)
    ensures forall n :: !Owns(target, n) ==> Get(Written(dir, target, content, w).0, n) == Get(dir, n)
  {
    assert Owns(target, TempName(target, w.nonce));
  }

  lemma PruneKeepsOtherTypes(dir: Dir, ft: FileType, k: int)
    ensures OtherTypesKept(dir, WithoutOldest(dir, ft, k), ft)
  {
    forall n | BackupType(n) != Some(ft)
      ensures n !in Names(dir, ft)
    {
    }
  }

  lemma SnapshotKeepsOtherTypes(dir: Dir, ft: FileType, snapshot: string, content: Bytes, copy: CopyOutcome)
    requires BackupType(snapshot) == Some(ft)
    ensures OtherTypesKept(dir, Snapshotted(dir, snapshot, content, copy).0, ft)
  {
  }

  lemma KeptTwice(a: Dir, b: Dir, c: Dir, ft: FileType)
    requires OtherTypesKept(a, b, ft) && OtherTypesKept(b, c, ft)
    ensures OtherTypesKept(a, c, ft)
  {
  }

  lemma RetainKeepsOtherTypes(dir: Dir, ft: FileType, keep: nat, removeFailsAt: Option<nat>)
    ensures OtherTypesKept(dir, Retained(dir, ft, keep, removeFailsAt).0, ft)
  {
    PruneKeepsOtherTypes(dir, ft, Excess(dir, ft, keep));
    if removeFailsAt.Some? {
      PruneKeepsOtherTypes(dir, ft, removeFailsAt.value);
    }
  }

  lemma CopyThenRetainKeeps(before: Dir, ft: FileType, content: Bytes, keep: nat, s: BackupScript)
    requires s.now.InRange()
    ensures
      var dir := Snapshotted(before, SnapshotName(StampText(s.now), ft), content, s.copy).0;
      OtherTypesKept(before, dir, ft) && OtherTypesKept(before, Retained(dir, ft, keep, s.removeFailsAt).0, ft)
  {
    var snapshot := SnapshotName(StampText(s.now), ft);
    NewSnapshotIsOfType(s.now, ft);
    var dir := Snapshotted(before, snapshot, content, s.copy).0;
    SnapshotKeepsOtherTypes(before, ft, snapshot, content, s.copy);
    RetainKeepsOtherTypes(dir, ft, keep, s.removeFailsAt);
    KeptTwice(before, dir, Retained(dir, ft, keep, s.removeFailsAt).0, ft);
  }

  lemma BackupKeepsOtherTypes(managed: Dir, backups: map<string, Dir>, ft: FileType, slug: string, keep: nat,
                              s: BackupScript)
    requires s.now.InRange()
    ensures
      var (after, _) := BackedUp(managed, backups, ft, slug, keep, s);
      && (forall other :: other != slug ==> DirOf(after, other) == DirOf(backups, other))
      && OtherTypesKept(DirOf(backups, slug), DirOf(after, slug), ft)
  {
    if OverlayName(ft, slug) in managed {
      CopyThenRetainKeeps(DirOf(backups, slug), ft, managed[OverlayName(ft, slug)], keep, s);
    }
  }

  lemma AppliedTouchesOwned(w: World, target: string, bytes: Bytes, previous: Option<Bytes>, s: Script)
    ensures
      var w' := Applied(w, target, bytes, previous, s).0;
      && w'.backups == w.backups
      && (forall n :: !Owns(target, n) ==> Get(w'.managed, n) == Get(w.managed, n))
  {
    WriteTouchesOwned(w.managed, target, bytes, s.write);
    RestoreTouchesOwned(Written(w.managed, target, bytes, s.write).0, target, previous, s);
  }

  /** The overlays are touched by the last part of a run only, the backups by its backup stage only. */
  lemma RunTouchesOwned(w: World, req: Request, s: Script, keep: nat)
    requires s.Valid()
    ensures
      var w' := Ran(w, req, s, keep).0;
      && w'.backups == (if s.readFails then w.backups
                        else BackedUp(w.managed, w.backups, req.fileType, req.slug, keep, s.backup).0)
      && (forall n :: !Owns(req.Target(), n) ==> Get(w'.managed, n) == Get(w.managed, n))
  {
    var backups := BackedUp(w.managed, w.backups, req.fileType, req.slug, keep, s.backup).0;
    match ContentOf(backups, req, s) {
      case Unavailable(_) =>
      case Ready(bytes) =>
        AppliedTouchesOwned(w.(backups := backups), req.Target(), bytes, Get(w.managed, req.Target()), s);
    }
  }

  /** A run changes nothing but its overlay, temporary files next to it, and the snapshots
      of its type under its slug. */
  lemma RunOnlyTouchesItsOwn(w: World, req: Request, s: Script, keep: nat)
    requires s.Valid()
    ensures OnlyTouches(w, Ran(w, req, s, keep).0, req)
  {
    RunTouchesOwned(w, req, s, keep);
    BackupKeepsOtherTypes(w.managed, w.backups, req.fileType, req.slug, keep, s.backup);
  }

  lemma RestoreTouchesOwned(managed: Dir, target: string, previous: Option<Bytes>, s: Script)
    ensures forall n :: !Owns(target, n) ==> Get(RestoredTo(managed, target, previous, s).0, n) == Get(managed, n)
  {
    if previous.Some? {
      WriteTouchesOwned(managed, target, previous.value, s.rewrite);
    }
  }

  // ---------------------------------------------------------------------- what is read

  lemma WriteLooksAlike(a: Dir, b: Dir, target: string, content: Bytes, w: WriteScript)
    requires SameFiles(a, b, target)
    ensures Written(a, target, content, w).1 == Written(b, target, content, w).1
    ensures SameFiles(Written(a, target, content, w).0, Written(b, target, content, w).0, target)
  {
    var tmp := TempName(target, w.nonce);
    assert Owns(target, tmp);
    assert Get(a, tmp) == Get(b, tmp);
  }

  lemma PruneLooksAlike(a: Dir, b: Dir, ft: FileType, k: int)
    requires SameSnapshots(a, b, ft)
    ensures SameSnapshots(WithoutOldest(a, ft, k), WithoutOldest(b, ft, k), ft)
  {
    NamesLeft(a, ft, k);
    NamesLeft(b, ft, k);
  }

  lemma CopyLooksAlike(a: Dir, b: Dir, ft: FileType, snapshot: string, content: Bytes)
    requires SameSnapshots(a, b, ft) && BackupType(snapshot) == Some(ft)
    ensures SameSnapshots(a[snapshot := content], b[snapshot := content], ft)
  {
    NamesAfterCopy(a, ft, snapshot, content);
    NamesAfterCopy(b, ft, snapshot, content);
  }

  lemma SnapshotLooksAlike(a: Dir, b: Dir, ft: FileType, snapshot: string, content: Bytes, copy: CopyOutcome)
    requires SameSnapshots(a, b, ft) && BackupType(snapshot) == Some(ft)
    ensures Snapshotted(a, snapshot, content, copy).1 == Snapshotted(b, snapshot, content, copy).1
    ensures SameSnapshots(Snapshotted(a, snapshot, content, copy).0, Snapshotted(b, snapshot, content, copy).0, ft)
  {
    match copy {
      case CutShort(n) => CopyLooksAlike(a, b, ft, snapshot, Truncated(content, n));
      case Copied => CopyLooksAlike(a, b, ft, snapshot, content);
      case _ =>
    }
  }

  lemma RetainLooksAlike(a: Dir, b: Dir, ft: FileType, keep: nat, removeFailsAt: Option<nat>)
    requires SameSnapshots(a, b, ft)
    ensures Retained(a, ft, keep, removeFailsAt).1 == Retained(b, ft, keep, removeFailsAt).1
    ensures SameSnapshots(Retained(a, ft, keep, removeFailsAt).0, Retained(b, ft, keep, removeFailsAt).0, ft)
  {
    PruneLooksAlike(a, b, ft, Excess(a, ft, keep));
    if removeFailsAt.Some? {
      PruneLooksAlike(a, b, ft, removeFailsAt.value);
    }
  }

  lemma BackupLooksAlike(v: World, w: World, req: Request, keep: nat, s: BackupScript)
    requires s.now.InRange() && LookAlike(v, w, req)
    ensures
      var (bv, okv) := BackedUp(v.managed, v.backups, req.fileType, req.slug, keep, s);
      var (bw, okw) := BackedUp(w.managed, w.backups, req.fileType, req.slug, keep, s);
      okv == okw && SameSnapshots(DirOf(bv, req.slug), DirOf(bw, req.slug), req.fileType)
  {
    var ft, target, snapshot := req.fileType, req.Target(), SnapshotName(StampText(s.now), req.fileType);
    NewSnapshotIsOfType(s.now, ft);
    assert Get(v.managed, target) == Get(w.managed, target) by {
      assert Owns(target, target);
    }
    if target in v.managed {
      var content := v.managed[target];
      SnapshotLooksAlike(DirOf(v.backups, req.slug), DirOf(w.backups, req.slug), ft, snapshot, content, s.copy);
      RetainLooksAlike(Snapshotted(DirOf(v.backups, req.slug), snapshot, content, s.copy).0,
                       Snapshotted(DirOf(w.backups, req.slug), snapshot, content, s.copy).0, ft, keep, s.removeFailsAt);
    }
  }

  lemma ContentLooksAlike(a: map<string, Dir>, b: map<string, Dir>, req: Request, s: Script)
    requires req.Valid()
    requires SameSnapshots(DirOf(a, req.slug), DirOf(b, req.slug), req.fileType)
    ensures ContentOf(a, req, s) == ContentOf(b, req, s)
  {
    if req.Rollback? {
      var x, y, n := DirOf(a, req.slug), DirOf(b, req.slug), req.snapshot;
      assert n in Names(x, req.fileType) <==> n in x;
      assert n in Names(y, req.fileType) <==> n in y;
      if n in x {
        assert Get(x, n) == Get(y, n);
      }
    }
  }

  lemma RestoreLooksAlike(a: Dir, b: Dir, target: string, previous: Option<Bytes>, s: Script)
    requires SameFiles(a, b, target)
    ensures RestoredTo(a, target, previous, s).1 == RestoredTo(b, target, previous, s).1
    ensures SameFiles(RestoredTo(a, target, previous, s).0, RestoredTo(b, target, previous, s).0, target)
  {
    assert Owns(target, target);
    assert Get(a, target) == Get(b, target);
    match previous {
      case None =>
        forall n | Owns(target, n)
          ensures Get(a - {target}, n) == Get(b - {target}, n)
        {
          assert Get(a, n) == Get(b, n);
        }
      case Some(bytes) => WriteLooksAlike(a, b, target, bytes, s.rewrite);
    }
  }

  lemma AppliedLooksAlike(v: World, w: World, target: string, bytes: Bytes, previous: Option<Bytes>, s: Script)
    requires SameFiles(v.managed, w.managed, target)
    ensures
      var (v', rv) := Applied(v, target, bytes, previous, s);
      var (w', rw) := Applied(w, target, bytes, previous, s);
      rv == rw && SameFiles(v'.managed, w'.managed, target) && v'.backups == v.backups && w'.backups == w.backups
  {
    WriteLooksAlike(v.managed, w.managed, target, bytes, s.write);
    RestoreLooksAlike(Written(v.managed, target, bytes, s.write).0, Written(w.managed, target, bytes, s.write).0,
                      target, previous, s);
  }

  /** A run depends on nothing else: worlds alike in its overlay and snapshots yield the
      same result and stay alike. */
  lemma RunLooksAlike(v: World, w: World, req: Request, s: Script, keep: nat)
    requires s.Valid() && req.Valid() && LookAlike(v, w, req)
    ensures Ran(v, req, s, keep).1 == Ran(w, req, s, keep).1
    ensures LookAlike(Ran(v, req, s, keep).0, Ran(w, req, s, keep).0, req)
  {
    if s.readFails {
      return;
    }
    var target := req.Target();
    var previous := Get(v.managed, target);
    assert previous == Get(w.managed, target) by {
      assert Owns(target, target);
    }
    BackupLooksAlike(v, w, req, keep, s.backup);
    var bv := BackedUp(v.managed, v.backups, req.fileType, req.slug, keep, s.backup).0;
    var bw := BackedUp(w.managed, w.backups, req.fileType, req.slug, keep, s.backup).0;
    ContentLooksAlike(bv, bw, req, s);
    match ContentOf(bv, req, s) {
      case Unavailable(_) =>
      case Ready(bytes) =>
        AppliedLooksAlike(v.(backups := bv), w.(backups := bw), target, bytes, previous, s);
    }
  }

  // ------------------------------------------------------------------------- commuting

  lemma FootprintsAreDisjoint(a: Request, b: Request, n: string)
    requires a.fileType != b.fileType || a.slug != b.slug
    requires Owns(a.Target(), n)
    ensures !Owns(b.Target(), n)
  {
    OverlayIsConf(a.fileType, a.slug);
    OverlayIsConf(b.fileType, b.slug);
    if Owns(b.Target(), n) {
      if a.Target() == b.Target() {
        OverlayNameInjective(a.fileType, a.slug, b.fileType, b.slug);
      }
      if n != a.Target() {
        var j: nat :| n == TempName(a.Target(), j);
        TempIsNotConf(a.Target(), j);
        var k: nat :| n == TempName(b.Target(), k);
        TempNameInjective(a.Target(), j, b.Target(), k);
      } else {
        var k: nat :| n == TempName(b.Target(), k);
        TempIsNotConf(b.Target(), k);
      }
    }
  }

  lemma UntouchedLooksAlike(w: World, w': World, a: Request, b: Request)
    requires a.fileType != b.fileType || a.slug != b.slug
    requires OnlyTouches(w, w', b)
    ensures LookAlike(w', w, a)
  {
    forall n | Owns(a.Target(), n)
      ensures Get(w'.managed, n) == Get(w.managed, n)
    {
      FootprintsAreDisjoint(a, b, n);
    }
    if a.slug == b.slug {
      var d, d' := DirOf(w.backups, a.slug), DirOf(w'.backups, a.slug);
      forall n
        ensures BackupType(n) == Some(a.fileType) ==> Get(d', n) == Get(d, n)
      {
      }
      assert Names(d, a.fileType) == Names(d', a.fileType) by {
        forall n | BackupType(n) == Some(a.fileType)
          ensures n in d <==> n in d'
        {
          assert Get(d', n) == Get(d, n);
        }
      }
    }
  }

  /** Same files and snapshots; an empty backup directory counts as a missing one. */
  ghost predicate SameDisk(v: World, w: World) {
    v.managed == w.managed && forall slug :: DirOf(v.backups, slug) == DirOf(w.backups, slug)
  }

  lemma SameByGet(a: Dir, b: Dir)
    requires forall n :: Get(a, n) == Get(b, n)
    ensures a == b
  {
    forall n
      ensures n in a <==> n in b
      ensures n in a ==> a[n] == b[n]
    {
      assert Get(a, n) == Get(b, n);
    }
  }

  lemma AlikeByType(a: Dir, b: Dir, ft: FileType, n: string)
    requires SameSnapshots(a, b, ft) && BackupType(n) == Some(ft)
    ensures Get(a, n) == Get(b, n)
  {
    assert n in a <==> n in Names(a, ft);
    assert n in b <==> n in Names(b, ft);
    if n in a {
      assert n in Names(a, ft);
    }
  }

  /** From the two order-independent halves to equal disks. */
  lemma HalvesMakeDisk(w: World, wa: World, wb: World, wab: World, wba: World, a: Request, b: Request)
    requires a.fileType != b.fileType || a.slug != b.slug
    requires OnlyTouches(w, wa, a) && OnlyTouches(wb, wba, a) && OnlyTouches(w, wb, b) && OnlyTouches(wa, wab, b)
    requires LookAlike(wba, wa, a) && LookAlike(wab, wb, b)
    ensures SameDisk(wab, wba)
  {
    forall n
      ensures Get(wab.managed, n) == Get(wba.managed, n)
    {
      if Owns(a.Target(), n) {
        FootprintsAreDisjoint(a, b, n);
      }
    }
    SameByGet(wab.managed, wba.managed);
    forall slug
      ensures DirOf(wab.backups, slug) == DirOf(wba.backups, slug)
    {
      var dw, da, db, dab, dba := DirOf(w.backups, slug), DirOf(wa.backups, slug), DirOf(wb.backups, slug),
                                  DirOf(wab.backups, slug), DirOf(wba.backups, slug);
      forall n
        ensures Get(dab, n) == Get(dba, n)
      {
        SnapshotInEitherOrder(dw, da, db, dab, dba, a, b, slug, n);
      }
      SameByGet(dab, dba);
    }
  }

  lemma SnapshotInEitherOrder(dw: Dir, da: Dir, db: Dir, dab: Dir, dba: Dir, a: Request, b: Request, slug: string,
                              n: string)
    requires a.fileType != b.fileType || a.slug != b.slug
    requires if slug == a.slug then OtherTypesKept(dw, da, a.fileType) && OtherTypesKept(db, dba, a.fileType) &&
             SameSnapshots(dba, da, a.fileType)
             else da == dw && dba == db
    requires if slug == b.slug then OtherTypesKept(dw, db, b.fileType) && OtherTypesKept(da, dab, b.fileType) &&
             SameSnapshots(dab, db, b.fileType)
             else db == dw && dab == da
    ensures Get(dab, n) == Get(dba, n)
  {
    if slug == a.slug && BackupType(n) == Some(a.fileType) {
      AlikeByType(dba, da, a.fileType, n);
    } else if slug == b.slug && BackupType(n) == Some(b.fileType) {
      AlikeByType(dab, db, b.fileType, n);
    }
  }

  /** Runs on different overlays, each with its own outcomes, give the same results and
      leave the same disk in either order. */
  lemma RunsCommute(w: World, a: Request, sa: Script, b: Request, sb: Script, keep: nat)
    requires sa.Valid() && sb.Valid() && a.Valid() && b.Valid()
    requires a.fileType != b.fileType || a.slug != b.slug
    ensures
      var (wa, ra) := Ran(w, a, sa, keep);
      var (wb, rb) := Ran(w, b, sb, keep);
      var (wab, rb') := Ran(wa, b, sb, keep);
      var (wba, ra') := Ran(wb, a, sa, keep);
      ra == ra' && rb == rb' && SameDisk(wab, wba)
  {
    var wa, wb := Ran(w, a, sa, keep).0, Ran(w, b, sb, keep).0;
    var wab, wba := Ran(wa, b, sb, keep).0, Ran(wb, a, sa, keep).0;
    RunOnlyTouchesItsOwn(w, a, sa, keep);
    RunOnlyTouchesItsOwn(w, b, sb, keep);
    RunOnlyTouchesItsOwn(wa, b, sb, keep);
    RunOnlyTouchesItsOwn(wb, a, sa, keep);
    UntouchedLooksAlike(w, wb, a, b);
    UntouchedLooksAlike(w, wa, b, a);
    RunLooksAlike(wb, w, a, sa, keep);
    RunLooksAlike(wa, w, b, sb, keep);
    HalvesMakeDisk(w, wa, wb, wab, wba, a, b);
  }

  /** The stages of a run turn out alike, too. */
  lemma StagesLookAlike(v: World, w: World, req: Request, s: Script, keep: nat)
    requires s.Valid() && req.Valid() && LookAlike(v, w, req)
    ensures Loads(v, req, s, keep) == Loads(w, req, s, keep) && EndsNew(v, req, s, keep) == EndsNew(w, req, s, keep)
    ensures Intended(v, req, s, keep) == Intended(w, req, s, keep)
  {
    RunLooksAlike(v, w, req, s, keep);
    ResultIff(v, req, s, keep);
    ResultIff(w, req, s, keep);
    BackupLooksAlike(v, w, req, keep, s.backup);
    ContentLooksAlike(BackedUp(v.managed, v.backups, req.fileType, req.slug, keep, s.backup).0,
                      BackedUp(w.managed, w.backups, req.fileType, req.slug, keep, s.backup).0, req, s);
  }

  /** Two puts into the overlays and two loads of them, in both orders. */
  lemma LiveInEitherOrder(overlays: Dir, live: Dir, a: string, x: Bytes, aLoads: bool, aEndsNew: bool,
                          b: string, y: Bytes, bLoads: bool, bEndsNew: bool)
    requires a != b
    ensures
      var afterA := if aEndsNew then overlays[a := x] else overlays;
      var afterB := if bEndsNew then overlays[b := y] else overlays;
      var liveA := if aLoads then overlays[a := x] else live;
      var liveB := if bLoads then overlays[b := y] else live;
      (if bLoads then afterA[b := y] else liveA) == (if aLoads then afterB[a := x] else liveB) <==>
      && (bLoads && Get(overlays, a) != Some(x) ==> aLoads == aEndsNew)
      && (aLoads && Get(overlays, b) != Some(y) ==> bLoads == bEndsNew)
  {
    var afterA := if aEndsNew then overlays[a := x] else overlays;
    var afterB := if bEndsNew then overlays[b := y] else overlays;
    var liveA := if aLoads then overlays[a := x] else live;
    var liveB := if bLoads then overlays[b := y] else live;
    var ab, ba := if bLoads then afterA[b := y] else liveA, if aLoads then afterB[a := x] else liveB;
    assert ab == ba ==> Get(ab, a) == Get(ba, a) && Get(ab, b) == Get(ba, b);
    assert forall n :: n != a && n != b ==> Get(ab, n) == Get(ba, n);
    if Get(ab, a) == Get(ba, a) && Get(ab, b) == Get(ba, b) {
      SameByGet(ab, ba);
    }
  }

  function BytesOf(c: Content): Bytes {
    match c case Ready(bytes) => bytes case Unavailable(_) => ""
  }

  /** A second run on another overlay, told from the world before the first. */
  lemma SecondRunLeaves(w: World, a: Request, sa: Script, b: Request, sb: Script, keep: nat)
    requires sa.Valid() && sb.Valid() && a.Valid() && b.Valid()
    requires a.fileType != b.fileType || a.slug != b.slug
    ensures
      var wa := Ran(w, a, sa, keep).0;
      var wab := Ran(wa, b, sb, keep).0;
      var x, y := BytesOf(Intended(w, a, sa, keep)), BytesOf(Intended(w, b, sb, keep));
      var afterA := if EndsNew(w, a, sa, keep) then Overlays(w.managed)[a.Target() := x] else Overlays(w.managed);
      var liveA := if Adopted(w, a, sa, keep) then Overlays(w.managed)[a.Target() := x] else w.live;
      && wab.live == (if Adopted(w, b, sb, keep) then afterA[b.Target() := y] else liveA)
      && wab.readback == (if Loads(w, b, sb, keep) then Caddy.ReadbackOf(sb.admin)
                          else if Loads(w, a, sa, keep) then Caddy.ReadbackOf(sa.admin) else w.readback)
  {
    var wa := Ran(w, a, sa, keep).0;
    RunOnlyTouchesItsOwn(w, a, sa, keep);
    UntouchedLooksAlike(w, wa, b, a);
    StagesLookAlike(wa, w, b, sb, keep);
    RunLeaves(w, a, sa, keep);
    RunLeaves(wa, b, sb, keep);
  }

  /** What Caddy serves after two runs on different overlays does not depend on their order
      if and only if neither separates disk and Caddy while the other's load is adopted. */
  lemma LiveCommutesIff(w: World, a: Request, sa: Script, b: Request, sb: Script, keep: nat)
    requires sa.Valid() && sb.Valid() && a.Valid() && b.Valid()
    requires a.fileType != b.fileType || a.slug != b.slug
    ensures
      Ran(Ran(w, a, sa, keep).0, b, sb, keep).0.live == Ran(Ran(w, b, sb, keep).0, a, sa, keep).0.live <==>
      && (Adopted(w, b, sb, keep) ==> !Separates(w, a, sa, keep))
      && (Adopted(w, a, sa, keep) ==> !Separates(w, b, sb, keep))
  {
    SecondRunLeaves(w, a, sa, b, sb, keep);
    SecondRunLeaves(w, b, sb, a, sa, keep);
    var x, y := BytesOf(Intended(w, a, sa, keep)), BytesOf(Intended(w, b, sb, keep));
    TargetsDiffer(a, b);
    LiveInEitherOrder(Overlays(w.managed), w.live, a.Target(), x, Adopted(w, a, sa, keep), EndsNew(w, a, sa, keep),
                      b.Target(), y, Adopted(w, b, sb, keep), EndsNew(w, b, sb, keep));
    SeparatesUnlessSame(w, a, sa, keep);
    SeparatesUnlessSame(w, b, sb, keep);
  }

  lemma SeparatesUnlessSame(w: World, req: Request, s: Script, keep: nat)
    requires s.Valid()
    ensures Separates(w, req, s, keep) <==>
            && Get(Overlays(w.managed), req.Target()) != Some(BytesOf(Intended(w, req, s, keep)))
            && Adopted(w, req, s, keep) != EndsNew(w, req, s, keep)
  {
    SeparatesIsOneSided(w, req, s, keep);
    OverlayIsConf(req.fileType, req.slug);
    assert Get(Overlays(w.managed), req.Target()) == Get(w.managed, req.Target());
  }

  /** The recorded verdict is the last one's: it does not depend on the order if and only if
      at most one of the two loads, or both verdicts are the same. */
  lemma VerdictCommutesIff(w: World, a: Request, sa: Script, b: Request, sb: Script, keep: nat)
    requires sa.Valid() && sb.Valid() && a.Valid() && b.Valid()
    requires a.fileType != b.fileType || a.slug != b.slug
    ensures
      Ran(Ran(w, a, sa, keep).0, b, sb, keep).0.readback == Ran(Ran(w, b, sb, keep).0, a, sa, keep).0.readback <==>
      (Loads(w, a, sa, keep) && Loads(w, b, sb, keep) ==> Caddy.ReadbackOf(sa.admin) == Caddy.ReadbackOf(sb.admin))
  {
    SecondRunLeaves(w, a, sa, b, sb, keep);
    SecondRunLeaves(w, b, sb, a, sa, keep);
  }

  lemma TargetsDiffer(a: Request, b: Request)
    requires a.fileType != b.fileType || a.slug != b.slug
    ensures a.Target() != b.Target()
  {
    if a.Target() == b.Target() {
      OverlayNameInjective(a.fileType, a.slug, b.fileType, b.slug);
    }
  }
}
