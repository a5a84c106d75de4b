/** The configuration-change transaction of internal/service/chain.go: read the previous
    overlay, snapshot it, write the new one, make Caddy load it, and put the old one back
    if that fails. `Ran` specifies the method `RunChain`; a script says how every
    external step turns out. */
module Chain {
  import opened Text
  import opened Naming
  import opened Files
  import Caddy

  /** A change carries the bytes its generator yields, or None where that fails; a
      rollback names a snapshot, whose type was read off its name beforehand. */
  datatype Request =
    | Change(fileType: FileType, slug: string, generated: Option<Bytes>)
    | Rollback(fileType: FileType, slug: string, snapshot: string)
  {
    predicate Valid() {
      Rollback? ==> BackupType(snapshot) == Some(fileType)
    }

    function Target(): string {
      OverlayName(fileType, slug)
    }
  }

  datatype Script = Script(readFails: bool, backup: BackupScript, snapshotReadFails: bool, write: WriteScript,
                           admin: Caddy.AdminScript, removeFails: bool, rewrite: WriteScript)
  {
    predicate Valid() {
      backup.now.InRange()
    }
  }

  datatype Stage =
    Reading | BackingUp | Generating | SnapshotMissing | SnapshotUnreadable | Writing | Reloading | Restoring

  datatype Result = Done | Failed(stage: Stage)

  /** Disk, backups, the overlays Caddy has loaded, and the recorded verdict. */
  datatype World = World(managed: Dir, backups: map<string, Dir>, live: Dir, readback: Caddy.ReadbackState)

  datatype Content = Ready(bytes: Bytes) | Unavailable(stage: Stage)

  /** The bytes to write; a rollback reads its snapshot after the backup has pruned. */
  function ContentOf(backups: map<string, Dir>, req: Request, s: Script): Content {
    match req
    case Change(_, _, generated) =>
      (match generated case Some(bytes) => Ready(bytes) case None => Unavailable(Generating))
    case Rollback(_, slug, snapshot) =>
      if snapshot !in DirOf(backups, slug) then Unavailable(SnapshotMissing)
      else if s.snapshotReadFails then Unavailable(SnapshotUnreadable)
      else Ready(DirOf(backups, slug)[snapshot])
  }

  /** Put the previous overlay back, or take the new one away. */
  function RestoredTo(managed: Dir, name: string, previous: Option<Bytes>, s: Script): (Dir, bool) {
    match previous
    case None => if name in managed && s.removeFails then (managed, false) else (managed - {name}, true)
    case Some(bytes) => Written(managed, name, bytes, s.rewrite)
  }

  /** From the written overlay to the verdict. */
  ghost function Reloaded(w: World, name: string, previous: Option<Bytes>, s: Script): (World, Result) {
    var loaded := w.(live := if Caddy.Adopts(s.admin) then Overlays(w.managed) else w.live,
                     readback := Caddy.ReadbackOf(s.admin));
    if loaded.readback.ok then (loaded, Done)
    else
      var (restored, ok) := RestoredTo(w.managed, name, previous, s);
      (loaded.(managed := restored), Failed(if ok then Reloading else Restoring))
  }

  /** From the bytes to the verdict: write, load, and put back what was there if need be. */
  ghost function Applied(w: World, name: string, bytes: Bytes, previous: Option<Bytes>, s: Script): (World, Result) {
    var (managed, written) := Written(w.managed, name, bytes, s.write);
    var w' := w.(managed := managed);
    if !written then (w', Failed(Writing)) else Reloaded(w', name, previous, s)
  }

  ghost function Ran(w: World, req: Request, s: Script, keep: nat): (World, Result)
    requires s.Valid()
  {
    if s.readFails then (w, Failed(Reading))
    else
      var previous := Get(w.managed, req.Target());
      var (backups, backedUp) := BackedUp(w.managed, w.backups, req.fileType, req.slug, keep, s.backup);
      var w1 := w.(backups := backups);
      if !backedUp then (w1, Failed(BackingUp))
      else
        match ContentOf(backups, req, s)
        case Unavailable(stage) => (w1, Failed(stage))
        case Ready(bytes) => Applied(w1, req.Target(), bytes, previous, s)
  }

  class Service {
    const fs: FileSystem
    const admin: Caddy.Admin
    /** What the Caddy process serves. */
    var live: Dir

    ghost function View(): World
      reads this, fs, admin
    {
      World(fs.managed, fs.backups, live, admin.lastReadback)
    }

    constructor (fs: FileSystem, admin: Caddy.Admin, live: Dir)
      ensures this.fs == fs && this.admin == admin && this.live == live
    {
      this.fs, this.admin, this.live := fs, admin, live;
    }

    method RestoreState(name: string, previous: Option<Bytes>, s: Script) returns (ok: bool)
      modifies fs`managed
      ensures (fs.managed, ok) == RestoredTo(old(fs.managed), name, previous, s)
    {
      match previous {
        case None =>
          if name in fs.managed && s.removeFails {
            return false;
          }
          fs.managed := fs.managed - {name};
          return true;
        case Some(bytes) =>
          ok := fs.AtomicWrite(name, bytes, s.rewrite);
      }
    }

    /** Load the Caddyfile into Caddy and check what it serves. */
    method Reload(s: Script) returns (ok: bool)
      modifies this`live, admin
      ensures live == if Caddy.Adopts(s.admin) then Overlays(fs.managed) else old(live)
      ensures admin.lastReadback == Caddy.ReadbackOf(s.admin) && ok == admin.lastReadback.ok
    {
      if Caddy.Adopts(s.admin) {
        live := Overlays(fs.managed);
      }
      ok := admin.Reload(s.admin);
    }

    method RunChain(req: Request, s: Script, keep: nat) returns (result: Result)
      requires s.Valid()
      modifies this`live, fs, admin
      ensures (View(), result) == Ran(old(View()), req, s, keep)
    {
      var name := req.Target();
      if s.readFails {
        return Failed(Reading);
      }
      var previous := Get(fs.managed, name);
      var backedUp := fs.Backup(req.fileType, req.slug, keep, s.backup);
      if !backedUp {
        return Failed(BackingUp);
      }
      var content := ContentOf(fs.backups, req, s);
      if content.Unavailable? {
        return Failed(content.stage);
      }
      var written := fs.AtomicWrite(name, content.bytes, s.write);
      if !written {
        return Failed(Writing);
      }
      var reloaded := Reload(s);
      if !reloaded {
        var restored := RestoreState(name, previous, s);
        return Failed(if restored then Reloading else Restoring);
      }
      return Done;
    }
  }

  // ---------------------------------------------------------------- all or nothing

  /** The bytes the run puts in the overlay, if it gets as far as writing. */
  ghost function Intended(w: World, req: Request, s: Script, keep: nat): Content
    requires s.Valid()
  {
    ContentOf(BackedUp(w.managed, w.backups, req.fileType, req.slug, keep, s.backup).0, req, s)
  }

  /** The run gets as far as writing. */
  ghost predicate Writes(w: World, req: Request, s: Script, keep: nat)
    requires s.Valid()
  {
    && !s.readFails && BackedUp(w.managed, w.backups, req.fileType, req.slug, keep, s.backup).1
    && Intended(w, req, s, keep).Ready?
  }

  /** The run gets as far as loading. */
  ghost predicate Loads(w: World, req: Request, s: Script, keep: nat)
    requires s.Valid()
  {
    Writes(w, req, s, keep) && Written(w.managed, req.Target(), Intended(w, req, s, keep).bytes, s.write).1
  }

  /** Putting back what the written overlay held before would work. */
  ghost predicate RestoreWorks(w: World, req: Request, s: Script, keep: nat)
    requires s.Valid() && Intended(w, req, s, keep).Ready?
  {
    var name := req.Target();
    RestoredTo(w.managed[name := Intended(w, req, s, keep).bytes], name, Get(w.managed, name), s).1
  }

  lemma PutBack(managed: Dir, name: string, bytes: Bytes)
    ensures Put(managed[name := bytes], name, Get(managed, name)) == managed
  {
  }

  lemma RestoreUndoesWrite(managed: Dir, ft: FileType, slug: string, bytes: Bytes, s: Script)
    ensures
      var name := OverlayName(ft, slug);
      var (restored, ok) := RestoredTo(managed[name := bytes], name, Get(managed, name), s);
      Overlays(restored) == if ok then Overlays(managed) else Overlays(managed)[name := bytes]
  {
    var name := OverlayName(ft, slug);
    OverlayIsConf(ft, slug);
    OverlaysUpdate(managed, name, bytes);
    PutBack(managed, name, bytes);
    if name in managed {
      var previous := managed[name];
      WriteIsAllOrNothing(managed[name := bytes], ft, slug, previous, s.rewrite);
      OverlaysUpdate(managed[name := bytes], name, previous);
    }
  }

  /** The last part of a run: the overlay stays new or is put back, and Caddy switches or not. */
  lemma ReloadedEffect(w: World, ft: FileType, slug: string, before: Dir, bytes: Bytes, s: Script)
    requires w.managed == before[OverlayName(ft, slug) := bytes]
    ensures
      var name := OverlayName(ft, slug);
      var written := Overlays(before)[name := bytes];
      var (w', result) := Reloaded(w, name, Get(before, name), s);
      && result in {Done, Failed(Reloading), Failed(Restoring)}
      && Overlays(w'.managed) == (if result == Failed(Reloading) then Overlays(before) else written)
      && w'.live == (if Caddy.Adopts(s.admin) then written else w.live)
  {
    OverlayIsConf(ft, slug);
    OverlaysUpdate(before, OverlayName(ft, slug), bytes);
    RestoreUndoesWrite(before, ft, slug, bytes, s);
  }

  /** What a result means for the overlays and for Caddy, `written` being the new overlays. */
  ghost predicate Effect(w: World, w': World, result: Result, written: Dir, s: Script) {
    if result in {Done, Failed(Reloading), Failed(Restoring)} then
      && Overlays(w'.managed) == (if result == Failed(Reloading) then Overlays(w.managed) else written)
      && w'.live == (if Caddy.Adopts(s.admin) then written else w.live)
    else
      Overlays(w'.managed) == Overlays(w.managed) && w'.live == w.live
  }

  lemma AppliedEffect(w: World, ft: FileType, slug: string, bytes: Bytes, s: Script)
    ensures
      var name := OverlayName(ft, slug);
      var (w', result) := Applied(w, name, bytes, Get(w.managed, name), s);
      Effect(w, w', result, Overlays(w.managed)[name := bytes], s)
  {
    var name := OverlayName(ft, slug);
    WriteIsAllOrNothing(w.managed, ft, slug, bytes, s.write);
    var (managed, written) := Written(w.managed, name, bytes, s.write);
    if written {
      ReloadedEffect(w.(managed := managed), ft, slug, w.managed, bytes, s);
    }
  }

  lemma RunStopsEarly(w: World, req: Request, s: Script, keep: nat)
    requires s.Valid()
    requires Intended(w, req, s, keep).Unavailable? || Ran(w, req, s, keep).1 in {Failed(Reading), Failed(BackingUp)}
    ensures
      var (w', result) := Ran(w, req, s, keep);
      result !in {Done, Failed(Reloading), Failed(Restoring)} && w'.managed == w.managed && w'.live == w.live
  {
  }

  lemma RunApplies(w: World, req: Request, s: Script, keep: nat)
    requires s.Valid() && Intended(w, req, s, keep).Ready?
    requires Ran(w, req, s, keep).1 !in {Failed(Reading), Failed(BackingUp)}
    ensures Ran(w, req, s, keep) ==
            Applied(w.(backups := BackedUp(w.managed, w.backups, req.fileType, req.slug, keep, s.backup).0),
                    req.Target(),
                    Intended(w, req, s, keep).bytes, Get(w.managed, req.Target()), s)
  {
  }

  lemma RunEffect(w: World, req: Request, s: Script, keep: nat)
    requires s.Valid()
    ensures
      var (w', result) := Ran(w, req, s, keep);
      match Intended(w, req, s, keep)
      case Unavailable(_) =>
        result !in {Done, Failed(Reloading), Failed(Restoring)} && w'.managed == w.managed && w'.live == w.live
      case Ready(bytes) => Effect(w, w', result, Overlays(w.managed)[req.Target() := bytes], s)
  {
    if Intended(w, req, s, keep).Unavailable? || Ran(w, req, s, keep).1 in {Failed(Reading), Failed(BackingUp)} {
      RunStopsEarly(w, req, s, keep);
    } else {
      RunApplies(w, req, s, keep);
      AppliedEffect(w.(backups := BackedUp(w.managed, w.backups, req.fileType, req.slug, keep, s.backup).0),
                    req.fileType, req.slug,
                    Intended(w, req, s, keep).bytes, s);
    }
  }

  lemma AppliedResult(w: World, name: string, bytes: Bytes, previous: Option<Bytes>, s: Script)
    ensures
      var (managed, written) := Written(w.managed, name, bytes, s.write);
      var result := Applied(w, name, bytes, previous, s).1;
      && (written ==> managed == w.managed[name := bytes])
      && result == if !written then Failed(Writing)
                   else if Caddy.ReadbackOf(s.admin).ok then Done
                   else if RestoredTo(w.managed[name := bytes], name, previous, s).1 then Failed(Reloading)
                   else Failed(Restoring)
  {
  }

  /** Which outcomes of the steps make which result, from the load on. */
  lemma ResultIff(w: World, req: Request, s: Script, keep: nat)
    requires s.Valid()
    ensures
      var result, ok := Ran(w, req, s, keep).1, Caddy.ReadbackOf(s.admin).ok;
      && (result == Done <==> Loads(w, req, s, keep) && ok)
      && (result == Failed(Reloading) <==> Loads(w, req, s, keep) && !ok && RestoreWorks(w, req, s, keep))
      && (result == Failed(Restoring) <==> Loads(w, req, s, keep) && !ok && !RestoreWorks(w, req, s, keep))
  {
    if Writes(w, req, s, keep) {
      RunApplies(w, req, s, keep);
      var backups := BackedUp(w.managed, w.backups, req.fileType, req.slug, keep, s.backup).0;
      AppliedResult(w.(backups := backups), req.Target(), Intended(w, req, s, keep).bytes,
                    Get(w.managed, req.Target()), s);
    } else {
      RunStopsEarly(w, req, s, keep);
    }
  }

  /** Which outcomes of the steps make which result, up to the write. */
  lemma EarlyResultIff(w: World, req: Request, s: Script, keep: nat)
    requires s.Valid()
    ensures
      var result := Ran(w, req, s, keep).1;
      var (backups, backedUp) := BackedUp(w.managed, w.backups, req.fileType, req.slug, keep, s.backup);
      && (result == Failed(Reading) <==> s.readFails)
      && (result == Failed(BackingUp) <==> !s.readFails && !backedUp)
      && (result == Failed(Generating) <==> !s.readFails && backedUp && req.Change? && req.generated == None)
      && (result == Failed(SnapshotMissing) <==>
          !s.readFails && backedUp && req.Rollback? && req.snapshot !in DirOf(backups, req.slug))
      && (result == Failed(SnapshotUnreadable) <==>
          !s.readFails && backedUp && req.Rollback? && req.snapshot in DirOf(backups, req.slug) && s.snapshotReadFails)
      && (result == Failed(Writing) <==> Writes(w, req, s, keep) && !Loads(w, req, s, keep))
  {
    if Writes(w, req, s, keep) {
      RunApplies(w, req, s, keep);
      var backups := BackedUp(w.managed, w.backups, req.fileType, req.slug, keep, s.backup).0;
      AppliedResult(w.(backups := backups), req.Target(), Intended(w, req, s, keep).bytes,
                    Get(w.managed, req.Target()), s);
    }
  }

  /** Exactly which files that are no overlays a run leaves behind: those that were there,
      and the temporary files that its write and its restore could not remove. */
  lemma RunLeavesTempIff(w: World, req: Request, s: Script, keep: nat, t: string)
    requires s.Valid() && !IsConf(t)
    ensures
      var managed, name := Ran(w, req, s, keep).0.managed, req.Target();
      && (t in managed <==>
          || t in w.managed
          || (t == TempName(name, s.write.nonce) && Writes(w, req, s, keep) && LeavesTemp(s.write))
          || (t == TempName(name, s.rewrite.nonce) && Loads(w, req, s, keep) && !Caddy.ReadbackOf(s.admin).ok &&
              name in w.managed && LeavesTemp(s.rewrite)))
      && (t in w.managed ==> managed[t] == w.managed[t])
  {
    if Writes(w, req, s, keep) {
      RunApplies(w, req, s, keep);
      var backups := BackedUp(w.managed, w.backups, req.fileType, req.slug, keep, s.backup).0;
      AppliedLeavesTempIff(w.(backups := backups), req.fileType, req.slug, Intended(w, req, s, keep).bytes, s, t);
    } else {
      RunStopsEarly(w, req, s, keep);
    }
  }

  lemma AppliedLeavesTempIff(w: World, ft: FileType, slug: string, bytes: Bytes, s: Script, t: string)
    requires !IsConf(t)
    ensures
      var name := OverlayName(ft, slug);
      var managed := Applied(w, name, bytes, Get(w.managed, name), s).0.managed;
      && (t in managed <==>
          || t in w.managed
          || (t == TempName(name, s.write.nonce) && LeavesTemp(s.write))
          || (t == TempName(name, s.rewrite.nonce) && Written(w.managed, name, bytes, s.write).1 &&
              !Caddy.ReadbackOf(s.admin).ok && name in w.managed && LeavesTemp(s.rewrite)))
      && (t in w.managed ==> managed[t] == w.managed[t])
  {
    var name := OverlayName(ft, slug);
    OverlayIsConf(ft, slug);
    TempFileStaysIff(w.managed, ft, slug, bytes, s.write, t);
    AppliedResult(w, name, bytes, Get(w.managed, name), s);
    if name in w.managed {
      TempFileStaysIff(w.managed[name := bytes], ft, slug, w.managed[name], s.rewrite, t);
    }
  }

  /** All or nothing: a run that fails leaves every overlay as it was, whichever stage
      failed, unless the restore itself failed; then, as after a success, the target
      holds the new bytes and every other overlay is as it was. */
  lemma RunIsAllOrNothing(w: World, req: Request, s: Script, keep: nat)
    requires s.Valid()
    ensures
      var (w', result) := Ran(w, req, s, keep);
      if result == Done || result == Failed(Restoring) then
        Intended(w, req, s, keep).Ready? &&
        Overlays(w'.managed) == Overlays(w.managed)[req.Target() := Intended(w, req, s, keep).bytes]
      else
        Overlays(w'.managed) == Overlays(w.managed)
  {
    RunEffect(w, req, s, keep);
  }

  // ----------------------------------------------------------- disk and live overlays

  ghost predicate Agrees(w: World) {
    w.live == Overlays(w.managed)
  }

  /** The new bytes differ from what the overlay holds. */
  ghost predicate ChangesOverlay(w: World, req: Request, s: Script, keep: nat)
    requires s.Valid()
  {
    var intended := Intended(w, req, s, keep);
    intended.Ready? && Get(w.managed, req.Target()) != Some(intended.bytes)
  }

  lemma UnchangedOverlays(w: World, req: Request, bytes: Bytes)
    ensures Overlays(w.managed)[req.Target() := bytes] == Overlays(w.managed) <==>
            Get(w.managed, req.Target()) == Some(bytes)
  {
    OverlayIsConf(req.fileType, req.slug);
    var overlays, name := Overlays(w.managed), req.Target();
    if overlays[name := bytes] == overlays {
      assert name in overlays && overlays[name] == bytes;
    }
  }

  lemma SuccessIsAdopted(w: World, req: Request, s: Script, keep: nat)
    requires s.Valid()
    requires Ran(w, req, s, keep).1 == Done
    ensures Caddy.Adopts(s.admin)
  {
    Caddy.ReloadSucceedsIff(s.admin);
  }

  /** When disk and Caddy agree after a run, told from the world before it and the outcomes
      of its steps. An adopted load makes them agree unless it stays unverified and other
      bytes are put back; a rejected one keeps them as they were, unless putting back fails. */
  lemma AgreementAfterRun(w: World, req: Request, s: Script, keep: nat)
    requires s.Valid()
    ensures
      Agrees(Ran(w, req, s, keep).0) <==>
      if !Loads(w, req, s, keep) then Agrees(w)
      else if Caddy.Adopts(s.admin) then
        Caddy.ReadbackOf(s.admin).ok || !RestoreWorks(w, req, s, keep) || !ChangesOverlay(w, req, s, keep)
      else if RestoreWorks(w, req, s, keep) then Agrees(w)
      else w.live == Overlays(w.managed)[req.Target() := Intended(w, req, s, keep).bytes]
  {
    RunEffect(w, req, s, keep);
    ResultIff(w, req, s, keep);
    Caddy.ReloadSucceedsIff(s.admin);
    if Loads(w, req, s, keep) {
      UnchangedOverlays(w, req, Intended(w, req, s, keep).bytes);
    }
  }

  /** The only two ways a run drives disk and Caddy apart, both after writing other bytes
      than the overlay held: an adopted load that could not be verified and was put back,
      and a rejected load that could not be put back. */
  ghost predicate Separates(w: World, req: Request, s: Script, keep: nat)
    requires s.Valid()
  {
    && ChangesOverlay(w, req, s, keep) && Loads(w, req, s, keep)
    && !Caddy.ReadbackOf(s.admin).ok
    && (Caddy.Adopts(s.admin) <==> RestoreWorks(w, req, s, keep))
  }

  lemma SeparatedOnlyIf(w: World, req: Request, s: Script, keep: nat)
    requires s.Valid() && Agrees(w)
    ensures Agrees(Ran(w, req, s, keep).0) <==> !Separates(w, req, s, keep)
  {
    AgreementAfterRun(w, req, s, keep);
    Caddy.ReloadSucceedsIff(s.admin);
    if Loads(w, req, s, keep) {
      UnchangedOverlays(w, req, Intended(w, req, s, keep).bytes);
    }
  }

  /** The reply is 200, but the host of the Caddyfile is not in the live configuration. */
  const UNVERIFIED := Caddy.AdminScript(true, Some(["a.com"]), false, Caddy.Status(200), Some(Caddy.Null))

  /** No hosts to look for. */
  const VERIFIED := Caddy.AdminScript(true, Some([]), false, Caddy.Status(200), Some(Caddy.Null))

  lemma NothingExpected()
    ensures Caddy.ReadbackOf(VERIFIED).ok
  {
    Caddy.ReloadSucceedsIff(VERIFIED);
  }

  const SMOOTH_WRITE := WriteScript(7, false, false, None, false, false, false)

  /** Every step works, until Caddy answers. */
  function Smooth(now: Stamp, admin: Caddy.AdminScript): Script {
    var backup := BackupScript(false, false, now, Copied, false, None);
    Script(false, backup, false, SMOOTH_WRITE, admin, false, SMOOTH_WRITE)
  }

  const NOON := Stamp(2026, 8, 7, 12, 0, 0)

  /** A change whose steps all work ends with the verdict alone, and leaves no temporary file. */
  lemma SmoothChange(w: World, req: Request, now: Stamp, admin: Caddy.AdminScript, keep: nat)
    requires req.Change? && req.generated.Some? && now.InRange()
    requires TempName(req.Target(), SMOOTH_WRITE.nonce) !in w.managed
    ensures
      var (w', result) := Ran(w, req, Smooth(now, admin), keep);
      && result == (if Caddy.ReadbackOf(admin).ok then Done else Failed(Reloading))
      && TempName(req.Target(), SMOOTH_WRITE.nonce) !in w'.managed
  {
    var s, tmp := Smooth(now, admin), TempName(req.Target(), SMOOTH_WRITE.nonce);
    TempIsNotConf(req.Target(), SMOOTH_WRITE.nonce);
    OverlayIsConf(req.fileType, req.slug);
    assert BackedUp(w.managed, w.backups, req.fileType, req.slug, keep, s.backup).1;
    assert Loads(w, req, s, keep) && RestoreWorks(w, req, s, keep);
    ResultIff(w, req, s, keep);
    RunLeavesTempIff(w, req, s, keep, tmp);
  }

  const BLANK := World(map[], map[], map[], Caddy.ReadbackState(true, 0, []))

  /** Disk and Caddy drift apart: a first overlay is written and adopted, the read-back
      misses a host, and the overlay is removed again from the disk only. */
  lemma DiskAndCaddyCanSeparate()
    ensures
      var (w', result) := Ran(BLANK, Change(WAF, "a_com", Some("new")), Smooth(NOON, UNVERIFIED), 10);
      && Agrees(BLANK) && result == Failed(Reloading)
      && Overlays(w'.managed) == map[] && w'.live == map[OverlayName(WAF, "a_com") := "new"]
  {
    HostIsMissing();
    FirstOverlaySeparates(BLANK, WAF, "a_com", "new", Smooth(NOON, UNVERIFIED), 10);
  }

  lemma FirstOverlaySeparates(w: World, ft: FileType, slug: string, bytes: Bytes, s: Script, keep: nat)
    requires s.Valid() && w.managed == map[]
    requires !s.readFails && !s.backup.statFails && !s.removeFails
    requires !s.write.createFails && !WriteBreaks(s.write)
    requires !Caddy.ReadbackOf(s.admin).ok && Caddy.Adopts(s.admin)
    ensures
      var (w', result) := Ran(w, Change(ft, slug, Some(bytes)), s, keep);
      && result == Failed(Reloading)
      && Overlays(w'.managed) == map[] && w'.live == map[OverlayName(ft, slug) := bytes]
  {
    var req := Change(ft, slug, Some(bytes));
    assert Writes(w, req, s, keep);
    assert RestoreWorks(w, req, s, keep);
    ResultIff(w, req, s, keep);
    RunEffect(w, req, s, keep);
    assert Overlays(w.managed) == map[];
  }

  lemma HostIsMissing()
    ensures !Caddy.ReadbackOf(UNVERIFIED).ok
  {
    Caddy.OneAddress("a.com");
    assert "a.com"[1] == '.';
    assert Caddy.Expected(UNVERIFIED.captures.value, "a.com");
    Caddy.MissingOne(UNVERIFIED, "a.com");
  }

  /** The new bytes are on disk when the run ends. */
  ghost predicate EndsNew(w: World, req: Request, s: Script, keep: nat)
    requires s.Valid()
  {
    Loads(w, req, s, keep) && (Caddy.ReadbackOf(s.admin).ok || !RestoreWorks(w, req, s, keep))
  }

  /** Caddy switches to the new bytes. */
  ghost predicate Adopted(w: World, req: Request, s: Script, keep: nat)
    requires s.Valid()
  {
    Loads(w, req, s, keep) && Caddy.Adopts(s.admin)
  }

  /** To separate is to change the overlay on one of the two sides only. */
  lemma SeparatesIsOneSided(w: World, req: Request, s: Script, keep: nat)
    requires s.Valid()
    ensures Separates(w, req, s, keep) <==>
            ChangesOverlay(w, req, s, keep) && Adopted(w, req, s, keep) != EndsNew(w, req, s, keep)
  {
    Caddy.ReloadSucceedsIff(s.admin);
  }

  /** What a run leaves: the overlays on disk, those that Caddy serves, and the verdict. */
  lemma RunLeaves(w: World, req: Request, s: Script, keep: nat)
    requires s.Valid()
    ensures
      var w' := Ran(w, req, s, keep).0;
      if Loads(w, req, s, keep) then
        var written := Overlays(w.managed)[req.Target() := Intended(w, req, s, keep).bytes];
        && Overlays(w'.managed) == (if EndsNew(w, req, s, keep) then written else Overlays(w.managed))
        && w'.live == (if Caddy.Adopts(s.admin) then written else w.live)
        && w'.readback == Caddy.ReadbackOf(s.admin)
      else
        Overlays(w'.managed) == Overlays(w.managed) && w'.live == w.live && w'.readback == w.readback
  {
    RunEffect(w, req, s, keep);
    ResultIff(w, req, s, keep);
    VerdictOfRun(w, req, s, keep);
  }

  lemma VerdictOfRun(w: World, req: Request, s: Script, keep: nat)
    requires s.Valid()
    ensures Ran(w, req, s, keep).0.readback == if Loads(w, req, s, keep) then Caddy.ReadbackOf(s.admin) else w.readback
  {
    if Writes(w, req, s, keep) {
      RunApplies(w, req, s, keep);
    }
  }

  // -------------------------------------------------------------------- whole runs

  datatype Job = Job(req: Request, script: Script)

  ghost predicate ValidJobs(jobs: seq<Job>) {
    forall i :: 0 <= i < |jobs| ==> jobs[i].script.Valid()
  }

  ghost function AfterJobs(w: World, jobs: seq<Job>, keep: nat): World
    requires ValidJobs(jobs)
  {
    if jobs == [] then w
    else
      var job := jobs[|jobs| - 1];
      Ran(AfterJobs(w, jobs[..|jobs| - 1], keep), job.req, job.script, keep).0
  }

  /** No run since the last success, or since the agreeing start, separated the two. */
  ghost predicate NotSeparatedSince(w: World, jobs: seq<Job>, keep: nat)
    requires ValidJobs(jobs)
  {
    if jobs == [] then Agrees(w)
    else
      var before, job := jobs[..|jobs| - 1], jobs[|jobs| - 1];
      var w1 := AfterJobs(w, before, keep);
      || Ran(w1, job.req, job.script, keep).1 == Done
      || (NotSeparatedSince(w, before, keep) && !Separates(w1, job.req, job.script, keep))
  }

  /** Over any number of requests with any outcomes, disk and Caddy agree unless some
      run since the last success separated them. */
  lemma {:induction false} AgreementOverRuns(w: World, jobs: seq<Job>, keep: nat)
    requires ValidJobs(jobs)
    requires NotSeparatedSince(w, jobs, keep)
    ensures Agrees(AfterJobs(w, jobs, keep))
  {
    if jobs != [] {
      var before, job := jobs[..|jobs| - 1], jobs[|jobs| - 1];
      var w1 := AfterJobs(w, before, keep);
      if Ran(w1, job.req, job.script, keep).1 == Done {
        SuccessIsAdopted(w1, job.req, job.script, keep);
        AgreementAfterRun(w1, job.req, job.script, keep);
      } else {
        AgreementOverRuns(w, before, keep);
        SeparatedOnlyIf(w1, job.req, job.script, keep);
      }
    }
  }

  /** Whether disk and Caddy agree, told run by run: the last run decides, unless it did not
      load, or its load was rejected and put back. */
  ghost predicate Together(w: World, jobs: seq<Job>, keep: nat)
    requires ValidJobs(jobs)
  {
    if jobs == [] then Agrees(w)
    else
      var before, req, s := jobs[..|jobs| - 1], jobs[|jobs| - 1].req, jobs[|jobs| - 1].script;
      var w1 := AfterJobs(w, before, keep);
      if !Loads(w1, req, s, keep) then Together(w, before, keep)
      else if Caddy.Adopts(s.admin) then !Separates(w1, req, s, keep)
      else if RestoreWorks(w1, req, s, keep) then Together(w, before, keep)
      else w1.live == Overlays(w1.managed)[req.Target() := Intended(w1, req, s, keep).bytes]
  }

  /** Over any number of requests, from any world and with any outcomes, exactly when disk
      and Caddy agree. */
  lemma {:induction false} AgreementOverRunsIff(w: World, jobs: seq<Job>, keep: nat)
    requires ValidJobs(jobs)
    ensures Agrees(AfterJobs(w, jobs, keep)) <==> Together(w, jobs, keep)
  {
    if jobs != [] {
      var before, job := jobs[..|jobs| - 1], jobs[|jobs| - 1];
      AgreementOverRunsIff(w, before, keep);
      AgreementAfterRun(AfterJobs(w, before, keep), job.req, job.script, keep);
    }
  }
}
