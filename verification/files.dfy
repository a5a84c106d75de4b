/** The disk side of a configuration change: atomic writes, snapshots and their
    retention, listing and restoring (internal/files/writer.go, internal/files/backup.go).

    The managed directory maps file names to contents; the backup root maps a slug to
    its directory. Whether each system call works is read from a script, so that a
    statement about all scripts is a statement about all failures. */
module Files {
  import opened Text
  import opened Naming
  import opened Ordering

  type Bytes = string
  type Dir = map<string, Bytes>

  function Get(dir: Dir, name: string): Option<Bytes> {
    if name in dir then Some(dir[name]) else None
  }

  function Put(dir: Dir, name: string, content: Option<Bytes>): Dir {
    match content
    case Some(bytes) => dir[name := bytes]
    case None => dir - {name}
  }

  // ------------------------------------------------------------------ atomic write

  datatype WriteScript = WriteScript(nonce: nat, createFails: bool, chmodFails: bool, cutShortAt: Option<nat>,
                                     closeFails: bool, renameFails: bool, cleanupFails: bool)

  function Truncated(content: Bytes, n: nat): Bytes {
    if n < |content| then content[..n] else content
  }

  /** What the temporary file holds once it is written, or when writing stopped. */
  function Filled(content: Bytes, w: WriteScript): Bytes {
    if w.chmodFails then "" else if w.cutShortAt.Some? then Truncated(content, w.cutShortAt.value) else content
  }

  /** Some step between the creation of the temporary file and its renaming fails. */
  predicate WriteBreaks(w: WriteScript) {
    w.chmodFails || w.cutShortAt.Some? || w.closeFails || w.renameFails
  }

  /** What a write leaves in the directory, and whether it reports success. */
  function Written(dir: Dir, name: string, content: Bytes, w: WriteScript): (Dir, bool) {
    var tmp := TempName(name, w.nonce);
    if w.createFails || tmp in dir then (dir, false)
    else if !WriteBreaks(w) then (dir[name := content], true)
    else if !w.cleanupFails then (dir, false)
    else (dir[tmp := Filled(content, w)], false)
  }

  /** The overlays, as opposed to temporary files. */
  function Overlays(dir: Dir): Dir {
    map n | n in dir && IsConf(n) :: dir[n]
  }

  lemma OverlaysUpdate(dir: Dir, name: string, content: Bytes)
    requires IsConf(name)
    ensures Overlays(dir[name := content]) == Overlays(dir)[name := content]
  {
  }

  lemma OverlaysIgnore(dir: Dir, tmp: string, content: Bytes)
    requires !IsConf(tmp)
    ensures Overlays(dir[tmp := content]) == Overlays(dir)
    ensures dir[tmp := content] - {tmp} == dir - {tmp}
  {
  }

  /** The target changes only on success, and then to the whole new content; on an
      error no overlay changes, and at most one new temporary file stays behind. */
  lemma WriteIsAllOrNothing(dir: Dir, ft: FileType, slug: string, content: Bytes, w: WriteScript)
    ensures
      var name := OverlayName(ft, slug);
      var (dir', ok) := Written(dir, name, content, w);
      && (ok ==> dir' == dir[name := content] && Overlays(dir') == Overlays(dir)[name := content])
      && (!ok ==>
            Overlays(dir') == Overlays(dir) && dir' - {TempName(name, w.nonce)} == dir - {TempName(name, w.nonce)})
      && (!ok && !w.cleanupFails ==> dir' == dir)
  {
    var name := OverlayName(ft, slug);
    OverlayIsConf(ft, slug);
    TempIsNotConf(name, w.nonce);
    OverlaysUpdate(dir, name, content);
    OverlaysIgnore(dir, TempName(name, w.nonce), Filled(content, w));
  }

  /** The write gave up after creating its file, and could not remove it. */
  predicate LeavesTemp(w: WriteScript) {
    !w.createFails && WriteBreaks(w) && w.cleanupFails
  }

  /** Exactly which files that are no overlays a write leaves behind. */
  lemma TempFileStaysIff(dir: Dir, ft: FileType, slug: string, content: Bytes, w: WriteScript, t: string)
    requires !IsConf(t)
    ensures
      var name := OverlayName(ft, slug);
      var dir' := Written(dir, name, content, w).0;
      && (t in dir' <==> t in dir || (t == TempName(name, w.nonce) && LeavesTemp(w)))
      && (t in dir ==> dir'[t] == dir[t])
  {
    OverlayIsConf(ft, slug);
  }

  /** A write succeeds exactly when each of its system calls does and its temporary name is free. */
  lemma WriteSucceedsIff(dir: Dir, name: string, content: Bytes, w: WriteScript)
    ensures Written(dir, name, content, w).1 <==>
            && TempName(name, w.nonce) !in dir
            && w == WriteScript(w.nonce, false, false, None, false, false, w.cleanupFails)
  {
  }

  /** A stale temporary file: the renaming fails, and so does the removal. */
  lemma TempFileCanStay()
    ensures
      var w := WriteScript(7, false, false, None, false, true, true);
      var name := OverlayName(WAF, "a_com");
      Written(map[], name, "new", w) == (map[TempName(name, 7) := "new"], false)
  {
  }

  // --------------------------------------------------------------------- snapshots

  function Names(dir: Dir, ft: FileType): set<string> {
    set n | n in dir && BackupType(n) == Some(ft)
  }

  /** The directory without the `k` smallest of the names in `own`. */
  function Pruned(dir: Dir, own: set<string>, k: int): Dir {
    dir - (own - Newest(own, k))
  }

  /** The directory without its `k` oldest snapshots of the type. */
  function WithoutOldest(dir: Dir, ft: FileType, k: int): Dir {
    Pruned(dir, Names(dir, ft), k)
  }

  function Excess(dir: Dir, ft: FileType, limit: nat): nat {
    if |Names(dir, ft)| <= limit then 0 else |Names(dir, ft)| - limit
  }

  /** Deleting the `n` oldest of `own` one by one; `removeFailsAt` is the deletion that fails, if one does. */
  function Deleted(dir: Dir, own: set<string>, n: nat, removeFailsAt: Option<nat>): (Dir, bool) {
    if removeFailsAt.Some? && removeFailsAt.value < n then (Pruned(dir, own, removeFailsAt.value), false)
    else (Pruned(dir, own, n), true)
  }

  function Retained(dir: Dir, ft: FileType, limit: nat, removeFailsAt: Option<nat>): (Dir, bool) {
    Deleted(dir, Names(dir, ft), Excess(dir, ft, limit), removeFailsAt)
  }

  lemma NamesLeft(dir: Dir, ft: FileType, k: int)
    ensures Names(WithoutOldest(dir, ft, k), ft) == Newest(Names(dir, ft), k)
  {
  }

  /** What pruning the names `own` to `limit` leaves: those with fewer than `limit` newer
      ones, min(limit, count) of them; nothing else is touched. */
  ghost predicate KeepsNewest(dir: Dir, own: set<string>, kept: Dir, own': set<string>, limit: nat) {
    && (forall n :: n in own' <==> n in own && |Above(own, n)| < limit)
    && |own'| == (if |own| < limit then |own| else limit)
    && (forall n :: n !in own || n in own' ==> Get(kept, n) == Get(dir, n))
    && (forall n :: n in own && n !in own' ==> n !in kept)
  }

  lemma PruningKeepsNewest(dir: Dir, own: set<string>, limit: nat)
    ensures
      var k := if |own| <= limit then 0 else |own| - limit;
      KeepsNewest(dir, own, Pruned(dir, own, k), Newest(own, k), limit)
  {
    NewestByLimit(own, limit);
  }

  /** Retention, once it succeeds, keeps the newest `limit` snapshots of its type. */
  lemma RetentionKeepsNewest(dir: Dir, ft: FileType, limit: nat, removeFailsAt: Option<nat>)
    requires Retained(dir, ft, limit, removeFailsAt).1
    ensures
      var kept := Retained(dir, ft, limit, removeFailsAt).0;
      KeepsNewest(dir, Names(dir, ft), kept, Names(kept, ft), limit)
  {
    var own := Names(dir, ft);
    var k := if |own| <= limit then 0 else |own| - limit;
    var kept := Pruned(dir, own, k);
    assert Retained(dir, ft, limit, removeFailsAt).0 == kept;
    assert Names(kept, ft) == Newest(own, k) by {
      NamesLeft(dir, ft, k);
    }
    PruningKeepsNewest(dir, own, limit);
    assert KeepsNewest(dir, own, kept, Names(kept, ft), limit);
  }

  datatype CopyOutcome = Copied | OpenFails | CreateFails | CutShort(written: nat)

  datatype BackupScript = BackupScript(statFails: bool, mkdirFails: bool, now: Stamp, copy: CopyOutcome,
                                       readDirFails: bool, removeFailsAt: Option<nat>)

  function DirOf(backups: map<string, Dir>, slug: string): Dir {
    if slug in backups then backups[slug] else map[]
  }

  /** The snapshot written, in part or not at all. */
  function Snapshotted(dir: Dir, snapshot: string, content: Bytes, copy: CopyOutcome): (Dir, bool) {
    match copy
    case OpenFails => (dir, false)
    case CreateFails => (dir, false)
    case CutShort(n) => (dir[snapshot := Truncated(content, n)], false)
    case Copied => (dir[snapshot := content], true)
  }

  /** Snapshot the overlay, if there is one, then apply retention. */
  function BackedUp(managed: Dir, backups: map<string, Dir>, ft: FileType, slug: string, keep: nat, s: BackupScript)
    : (map<string, Dir>, bool)
    requires s.now.InRange()
  {
    var source := OverlayName(ft, slug);
    if s.statFails then (backups, false)
    else if source !in managed then (backups, true)
    else if s.mkdirFails then (backups, false)
    else
      var (dir, copied) := Snapshotted(DirOf(backups, slug), SnapshotName(StampText(s.now), ft), managed[source],
                                       s.copy);
      if !copied || s.readDirFails then (backups[slug := dir], false)
      else
        var (kept, ok) := Retained(dir, ft, keep, s.removeFailsAt);
        (backups[slug := kept], ok)
  }

  /** A backup succeeds exactly when there is nothing to back up, or each of its system calls does:
      as many deletions as there are more snapshots than `keep`, the new one counted. */
  lemma BackupSucceedsIff(managed: Dir, backups: map<string, Dir>, ft: FileType, slug: string, keep: nat,
                          s: BackupScript)
    requires s.now.InRange()
    ensures
      var made := SnapshotName(StampText(s.now), ft);
      var all := Names(DirOf(backups, slug), ft) + {made};
      BackedUp(managed, backups, ft, slug, keep, s).1 <==>
      && !s.statFails
      && (OverlayName(ft, slug) in managed ==>
            && !s.mkdirFails && s.copy == Copied && !s.readDirFails
            && (s.removeFailsAt.Some? ==> s.removeFailsAt.value >= |all| - keep))
    ensures OverlayName(ft, slug) !in managed ==> BackedUp(managed, backups, ft, slug, keep, s).0 == backups
  {
    if OverlayName(ft, slug) in managed {
      NewSnapshotIsOfType(s.now, ft);
      NamesAfterCopy(DirOf(backups, slug), ft, SnapshotName(StampText(s.now), ft), managed[OverlayName(ft, slug)]);
    }
  }

  /** The clock has passed every snapshot of the type. */
  ghost predicate ClockAhead(dir: Dir, ft: FileType, now: Stamp)
    requires now.InRange()
  {
    forall n :: n in Names(dir, ft) ==> Less(n, SnapshotName(StampText(now), ft))
  }

  lemma NewSnapshotIsOfType(now: Stamp, ft: FileType)
    requires now.InRange()
    ensures BackupType(SnapshotName(StampText(now), ft)) == Some(ft)
  {
    StampTextIsCanonical(now);
    BackupTypeIff(SnapshotName(StampText(now), ft), ft);
  }

  /** What copying to the new name `snapshot` and pruning to `keep` leaves; `own` and
      `own'` are the snapshots of the type before and after. */
  ghost predicate Rotated(before: Dir, own: set<string>, after: Dir, own': set<string>, keep: nat, snapshot: string,
                          content: Bytes) {
    && Get(after, snapshot) == Some(content)
    && snapshot in own' && (forall n :: n in own' ==> n == snapshot || Less(n, snapshot))
    && (forall n :: n in own ==> (n in own' <==> |Above(own, n)| + 1 < keep))
    && |own'| == (if |own| + 1 < keep then |own| + 1 else keep)
    && (forall n :: n in own' && n != snapshot ==> Get(after, n) == Get(before, n))
    && (forall n :: n !in own && n != snapshot ==> Get(after, n) == Get(before, n))
  }

  lemma NewestAboveOthers(names: set<string>, snapshot: string)
    requires forall n :: n in names ==> Less(n, snapshot)
    ensures snapshot !in names
    ensures Above(names + {snapshot}, snapshot) == {}
    ensures forall n :: n in names ==> |Above(names + {snapshot}, n)| == |Above(names, n)| + 1
  {
    LessTotal(snapshot, snapshot);
    forall n | n in names
      ensures !Less(snapshot, n)
      ensures |Above(names + {snapshot}, n)| == |Above(names, n)| + 1
    {
      LessTotal(n, snapshot);
      assert Above(names + {snapshot}, n) == Above(names, n) + {snapshot};
    }
  }

  lemma NewestAfterCopy(own: set<string>, own': set<string>, keep: nat, snapshot: string)
    requires keep > 0
    requires forall n :: n in own ==> Less(n, snapshot)
    requires |own'| == (if |own + {snapshot}| < keep then |own + {snapshot}| else keep)
    requires forall n :: n in own' <==> n in own + {snapshot} && |Above(own + {snapshot}, n)| < keep
    ensures snapshot !in own && snapshot in own' && own' <= own + {snapshot}
    ensures forall n :: n in own ==> (n in own' <==> |Above(own, n)| + 1 < keep)
    ensures |own'| == (if |own| + 1 < keep then |own| + 1 else keep)
  {
    NewestAboveOthers(own, snapshot);
    forall n | n in own
      ensures n in own' <==> |Above(own, n)| + 1 < keep
    {
      assert |Above(own + {snapshot}, n)| == |Above(own, n)| + 1;
    }
  }

  lemma NamesAfterCopy(before: Dir, ft: FileType, snapshot: string, content: Bytes)
    requires BackupType(snapshot) == Some(ft)
    ensures Names(before[snapshot := content], ft) == Names(before, ft) + {snapshot}
  {
  }

  /** Exactly what a successful backup of an existing overlay leaves, whatever the clock: of
      the snapshots of the type and the new one, those with fewer than `keep` newer ones. The
      new one, if it stays, holds the overlay's bytes, even where it overwrote another. */
  lemma BackupKeepsIff(managed: Dir, backups: map<string, Dir>, ft: FileType, slug: string, keep: nat, s: BackupScript)
    requires s.now.InRange() && OverlayName(ft, slug) in managed
    requires BackedUp(managed, backups, ft, slug, keep, s).1
    ensures
      var before, after := DirOf(backups, slug), DirOf(BackedUp(managed, backups, ft, slug, keep, s).0, slug);
      var made := SnapshotName(StampText(s.now), ft);
      var all, content := Names(before, ft) + {made}, managed[OverlayName(ft, slug)];
      && KeepsNewest(before[made := content], all, after, Names(after, ft), keep)
      && Get(after, made) == (if |Above(all, made)| < keep then Some(content) else None)
      && forall n :: n in all && n != made ==>
                       Get(after, n) == if |Above(all, n)| < keep then Get(before, n) else None
    ensures BackedUp(managed, backups, ft, slug, keep, s).0 - {slug} == backups - {slug}
  {
    var before, made, content := DirOf(backups, slug), SnapshotName(StampText(s.now), ft),
        managed[OverlayName(ft, slug)];
    var copied := before[made := content];
    SuccessfulBackup(managed, backups, ft, slug, keep, s);
    NewSnapshotIsOfType(s.now, ft);
    NamesAfterCopy(before, ft, made, content);
    RetentionKeepsNewest(copied, ft, keep, None);
    SurvivorsOf(before, ft, keep, made, content, WithoutOldest(copied, ft, Excess(copied, ft, keep)));
  }

  lemma SurvivorsOf(before: Dir, ft: FileType, keep: nat, made: string, content: Bytes, after: Dir)
    requires KeepsNewest(before[made := content], Names(before, ft) + {made}, after, Names(after, ft), keep)
    ensures
      var all := Names(before, ft) + {made};
      && Get(after, made) == (if |Above(all, made)| < keep then Some(content) else None)
      && forall n :: n in all && n != made ==>
                       Get(after, n) == if |Above(all, n)| < keep then Get(before, n) else None
  {
  }

  /** After a successful backup of an existing overlay by a clock ahead of every snapshot:
      the new snapshot holds the overlay's bytes and is the newest; an older one is still
      there, unchanged, exactly when fewer than keep-1 others were newer than it. */
  lemma BackupKeepsNewest(managed: Dir, backups: map<string, Dir>, ft: FileType, slug: string, keep: nat,
                          s: BackupScript)
    requires s.now.InRange() && keep > 0
    requires ClockAhead(DirOf(backups, slug), ft, s.now)
    requires OverlayName(ft, slug) in managed
    requires BackedUp(managed, backups, ft, slug, keep, s).1
    ensures
      var before, after := DirOf(backups, slug), DirOf(BackedUp(managed, backups, ft, slug, keep, s).0, slug);
      Rotated(before, Names(before, ft), after, Names(after, ft), keep,
              SnapshotName(StampText(s.now), ft), managed[OverlayName(ft, slug)])
    ensures BackedUp(managed, backups, ft, slug, keep, s).0 - {slug} == backups - {slug}
  {
    var before, after := DirOf(backups, slug), DirOf(BackedUp(managed, backups, ft, slug, keep, s).0, slug);
    BackupKeepsIff(managed, backups, ft, slug, keep, s);
    AheadRotates(before, Names(before, ft), after, Names(after, ft), keep, SnapshotName(StampText(s.now), ft),
                 managed[OverlayName(ft, slug)]);
  }

  lemma AheadRotates(before: Dir, own: set<string>, after: Dir, own': set<string>, keep: nat, snapshot: string,
                     content: Bytes)
    requires keep > 0 && forall n :: n in own ==> Less(n, snapshot)
    requires KeepsNewest(before[snapshot := content], own + {snapshot}, after, own', keep)
    ensures Rotated(before, own, after, own', keep, snapshot, content)
  {
    NewestAfterCopy(own, own', keep, snapshot);
  }

  lemma SuccessfulBackup(managed: Dir, backups: map<string, Dir>, ft: FileType, slug: string, keep: nat,
                         s: BackupScript)
    requires s.now.InRange() && OverlayName(ft, slug) in managed
    requires BackedUp(managed, backups, ft, slug, keep, s).1
    ensures
      var copied := DirOf(backups, slug)[SnapshotName(StampText(s.now), ft) := managed[OverlayName(ft, slug)]];
      BackedUp(managed, backups, ft, slug, keep, s).0 ==
      backups[slug := WithoutOldest(copied, ft, Excess(copied, ft, keep))]
  {
  }

  // ----------------------------------------------------------------------- listing

  datatype Row = Row(timestamp: string, fileType: FileType, size: nat)

  function Key(r: Row): string {
    r.timestamp + TypeName(r.fileType)
  }

  function RowName(r: Row): string {
    SnapshotName(r.timestamp, r.fileType)
  }

  ghost predicate NewestFirst(rows: seq<Row>) {
    forall i, j :: 0 <= i < j < |rows| ==> Less(Key(rows[j]), Key(rows[i]))
  }

  ghost predicate Describes(r: Row, dir: Dir) {
    |r.timestamp| == 20 && RowName(r) in Names(dir, r.fileType) && r.size == |dir[RowName(r)]|
  }

  /** All canonical snapshots and nothing else, newest first. */
  ghost predicate IsListing(rows: seq<Row>, dir: Dir) {
    && NewestFirst(rows)
    && (forall r :: r in rows ==> Describes(r, dir))
    && (forall ft, n :: n in Names(dir, ft) ==> exists r :: r in rows && r.fileType == ft && RowName(r) == n)
  }

  /** The order of the types within one second: WAF, then IP rules, then exclusions. */
  function PlaceInSecond(ft: FileType): nat {
    match ft case WAF => 0 case IPRules => 1 case Exclusions => 2
  }

  /** A listing runs back in time, and within a second by type. */
  lemma ListedByTime(rows: seq<Row>, dir: Dir, i: nat, j: nat)
    requires IsListing(rows, dir) && i < j < |rows|
    ensures Less(rows[j].timestamp, rows[i].timestamp) ||
            (rows[j].timestamp == rows[i].timestamp &&
             PlaceInSecond(rows[i].fileType) < PlaceInSecond(rows[j].fileType))
  {
    var a, b := rows[j], rows[i];
    assert a in rows && b in rows;
    assert Less(Key(a), Key(b));
    LessByFields(a.timestamp, TypeName(a.fileType), b.timestamp, TypeName(b.fileType));
    LessTotal(TypeName(a.fileType), TypeName(b.fileType));
    TypeNamesOrder(a.fileType, b.fileType);
  }

  lemma TypeNamesOrder(a: FileType, b: FileType)
    ensures Less(TypeName(a), TypeName(b)) <==> PlaceInSecond(b) < PlaceInSecond(a)
  {
    assert TypeName(WAF)[0] == 'w' && TypeName(IPRules)[0] == 'i' && TypeName(Exclusions)[0] == 'e';
    LessTotal(TypeName(a), TypeName(a));
  }

  function OfType(rows: seq<Row>, ft: FileType): seq<Row> {
    if rows == [] then []
    else if rows[0].fileType == ft then [rows[0]] + OfType(rows[1..], ft)
    else OfType(rows[1..], ft)
  }

  lemma {:induction false} OfTypeKeepsOrder(rows: seq<Row>, ft: FileType)
    requires NewestFirst(rows)
    ensures NewestFirst(OfType(rows, ft))
    ensures forall r :: r in OfType(rows, ft) <==> r in rows && r.fileType == ft
  {
    if rows != [] {
      assert NewestFirst(rows[1..]);
      OfTypeKeepsOrder(rows[1..], ft);
      var rest := OfType(rows[1..], ft);
      forall j | 0 <= j < |rest|
        ensures Less(Key(rest[j]), Key(rows[0]))
      {
        assert rest[j] in rows[1..];
      }
      assert rows == [rows[0]] + rows[1..];
    }
  }

  lemma SameTypeOrder(a: Row, b: Row)
    requires a.fileType == b.fileType && |a.timestamp| == |b.timestamp|
    ensures Less(Key(a), Key(b)) <==> Less(RowName(a), RowName(b))
  {
    LessByFields(a.timestamp, TypeName(a.fileType), b.timestamp, TypeName(b.fileType));
    LessByFields(a.timestamp, Ending(a.fileType), b.timestamp, Ending(b.fileType));
    LessTotal(TypeName(a.fileType), TypeName(a.fileType));
    LessTotal(Ending(a.fileType), Ending(a.fileType));
  }

  /** The names of one type in a listing, turned round, are that type's names in order. */
  function NamesBackwards(rows: seq<Row>): (names: seq<string>)
    ensures |names| == |rows|
  {
    if rows == [] then [] else NamesBackwards(rows[1..]) + [RowName(rows[0])]
  }

  lemma {:induction false} NamesBackwardsAt(rows: seq<Row>)
    ensures forall i :: 0 <= i < |rows| ==> NamesBackwards(rows)[|rows| - 1 - i] == RowName(rows[i])
  {
    if rows != [] {
      NamesBackwardsAt(rows[1..]);
      assert forall i :: 0 < i < |rows| ==> rows[i] == rows[1..][i - 1];
    }
  }

  /** The rows of one type, each describing the name at its place from the end. */
  ghost predicate RowsOf(own: seq<Row>, dir: Dir, ft: FileType, names: seq<string>) {
    && |own| == |names|
    && forall i :: 0 <= i < |own| ==>
                     && own[i].fileType == ft && Describes(own[i], dir)
                     && RowName(own[i]) == names[|own| - 1 - i]
  }

  lemma RowsOfListing(rows: seq<Row>, dir: Dir, ft: FileType)
    requires NewestFirst(rows)
    requires forall r :: r in rows ==> Describes(r, dir)
    ensures RowsOf(OfType(rows, ft), dir, ft, NamesBackwards(OfType(rows, ft)))
  {
    var own := OfType(rows, ft);
    OfTypeKeepsOrder(rows, ft);
    NamesBackwardsAt(own);
    forall i | 0 <= i < |own|
      ensures own[i].fileType == ft && own[i] in rows
    {
      assert own[i] in own;
    }
  }

  lemma RowsAscend(rows: seq<Row>, dir: Dir, ft: FileType, names: seq<string>)
    requires NewestFirst(rows) && RowsOf(rows, dir, ft, names)
    ensures Ascending(names)
  {
    forall i, j | 0 <= i < j < |names|
      ensures Less(names[i], names[j])
    {
      SameTypeOrder(rows[|rows| - 1 - i], rows[|rows| - 1 - j]);
    }
  }

  lemma RowsCover(rows: seq<Row>, dir: Dir, ft: FileType, names: seq<string>, all: set<string>)
    requires RowsOf(rows, dir, ft, names) && all == Names(dir, ft)
    requires forall n :: n in all ==> exists r :: r in rows && RowName(r) == n
    ensures Elements(names) == all
  {
    forall n | n in all
      ensures n in names
    {
      var r :| r in rows && RowName(r) == n;
      var i :| 0 <= i < |rows| && rows[i] == r;
      assert names[|rows| - 1 - i] == n;
    }
    forall n | n in names
      ensures n in all
    {
      var k :| 0 <= k < |names| && names[k] == n;
      assert n == RowName(rows[|rows| - 1 - k]);
    }
  }

  lemma NamesOfListing(rows: seq<Row>, dir: Dir, ft: FileType)
    requires IsListing(rows, dir)
    ensures Ascending(NamesBackwards(OfType(rows, ft)))
    ensures Elements(NamesBackwards(OfType(rows, ft))) == Names(dir, ft)
  {
    var own := OfType(rows, ft);
    OfTypeKeepsOrder(rows, ft);
    RowsOfListing(rows, dir, ft);
    RowsAscend(own, dir, ft, NamesBackwards(own));
    forall n | n in Names(dir, ft)
      ensures exists r :: r in own && RowName(r) == n
    {
      var r :| r in rows && r.fileType == ft && RowName(r) == n;
      assert r in own;
    }
    RowsCover(own, dir, ft, NamesBackwards(own), Names(dir, ft));
  }

  lemma RowIsItsName(a: Row, b: Row, dir: Dir, kept: Dir)
    requires Describes(a, dir) && Describes(b, kept)
    requires a.fileType == b.fileType && RowName(a) == RowName(b)
    requires Get(dir, RowName(a)) == Get(kept, RowName(a))
    ensures a == b
  {
    assert RowName(a)[..20] == a.timestamp && RowName(b)[..20] == b.timestamp;
  }

  /** Listing and retention agree: what `ListBackups` shows of the type after pruning is
      the first `limit` rows of what it would have shown before. */
  lemma ListingAfterRetention(before: seq<Row>, after: seq<Row>, dir: Dir, ft: FileType, limit: nat)
    requires IsListing(before, dir)
    requires IsListing(after, WithoutOldest(dir, ft, Excess(dir, ft, limit)))
    ensures
      var shown := OfType(before, ft);
      OfType(after, ft) == if |shown| <= limit then shown else shown[..limit]
  {
    var k := Excess(dir, ft, limit);
    var kept := WithoutOldest(dir, ft, k);
    var shown, left := OfType(before, ft), OfType(after, ft);
    NamesOfListing(before, dir, ft);
    NamesOfListing(after, kept, ft);
    AscendingSize(NamesBackwards(shown));
    NamesLeft(dir, ft, k);
    NewestIsTail(NamesBackwards(shown), k);
    AscendingUnique(NamesBackwards(left), NamesBackwards(shown)[k..]);
    RowsOfListing(before, dir, ft);
    RowsOfListing(after, kept, ft);
    SameRows(shown, left, dir, kept, ft, NamesBackwards(shown), k);
  }

  lemma SameRows(shown: seq<Row>, left: seq<Row>, dir: Dir, kept: Dir, ft: FileType, names: seq<string>, k: nat)
    requires k <= |names|
    requires RowsOf(shown, dir, ft, names) && RowsOf(left, kept, ft, names[k..])
    requires forall n :: n in kept ==> Get(dir, n) == Get(kept, n)
    ensures left == shown[..|shown| - k]
  {
    forall i | 0 <= i < |left|
      ensures left[i] == shown[i]
    {
      assert names[k..][|left| - 1 - i] == names[|shown| - 1 - i];
      RowIsItsName(shown[i], left[i], dir, kept);
    }
  }

  function InsertRow(rows: seq<Row>, r: Row): seq<Row> {
    if rows == [] || Less(Key(rows[0]), Key(r)) then [r] + rows else [rows[0]] + InsertRow(rows[1..], r)
  }

  lemma FirstStaysNewest(first: Row, rest: seq<Row>)
    requires NewestFirst(rest)
    requires forall j :: 0 <= j < |rest| ==> Less(Key(rest[j]), Key(first))
    ensures NewestFirst([first] + rest)
  {
  }

  lemma {:induction false} InsertRowKeepsOrder(rows: seq<Row>, r: Row)
    requires NewestFirst(rows)
    requires forall i :: 0 <= i < |rows| ==> Key(rows[i]) != Key(r)
    ensures NewestFirst(InsertRow(rows, r))
    ensures forall x :: x in InsertRow(rows, r) <==> x == r || x in rows
  {
    if rows != [] && !Less(Key(rows[0]), Key(r)) {
      var first, rest := rows[0], rows[1..];
      assert rows == [first] + rest;
      assert forall i :: 0 <= i < |rest| ==> rest[i] == rows[i + 1];
      InsertRowKeepsOrder(rest, r);
      LessTotal(Key(first), Key(r));
      var inserted := InsertRow(rest, r);
      forall j | 0 <= j < |inserted|
        ensures Less(Key(inserted[j]), Key(first))
      {
        assert inserted[j] in inserted;
      }
      FirstStaysNewest(first, inserted);
    } else {
      if rows != [] {
        forall j | 0 < j < |rows|
          ensures Less(Key(rows[j]), Key(r))
        {
          LessTransitive(Key(rows[j]), Key(rows[0]), Key(r));
        }
      }
      FirstStaysNewest(r, rows);
    }
  }

  lemma RowOfName(dir: Dir, n: string, ft: FileType)
    requires n in Names(dir, ft)
    ensures |n| >= 20
    ensures Describes(Row(n[..20], ft, |dir[n]|), dir) && RowName(Row(n[..20], ft, |dir[n]|)) == n
  {
    assert n == n[..20] + n[20..];
  }

  lemma KeyIsInjective(a: Row, b: Row)
    requires |a.timestamp| == |b.timestamp| == 20 && Key(a) == Key(b)
    ensures a.timestamp == b.timestamp && a.fileType == b.fileType
  {
    var s := Key(a);
    assert a.timestamp == s[..20] == b.timestamp;
    assert TypeName(a.fileType) == s[20..] == TypeName(b.fileType);
    assert TypeName(a.fileType)[0] == TypeName(b.fileType)[0];
  }

  lemma KeysDiffer(a: Row, b: Row)
    requires |a.timestamp| == |b.timestamp| == 20 && RowName(a) != RowName(b)
    ensures Key(a) != Key(b)
  {
    if Key(a) == Key(b) {
      KeyIsInjective(a, b);
    }
  }

  /** The rows of the canonical names outside `todo`, newest first. */
  ghost predicate ListsAllBut(rows: seq<Row>, dir: Dir, todo: set<string>) {
    && NewestFirst(rows)
    && (forall r :: r in rows ==> Describes(r, dir) && RowName(r) !in todo)
    && (forall ft, n :: n in Names(dir, ft) && n !in todo ==>
        exists r :: r in rows && r.fileType == ft && RowName(r) == n)
  }

  lemma ListedAll(rows: seq<Row>, dir: Dir, todo: set<string>)
    requires ListsAllBut(rows, dir, todo) && todo == {}
    ensures IsListing(rows, dir)
  {
    forall ft, n | n in Names(dir, ft)
      ensures exists r :: r in rows && r.fileType == ft && RowName(r) == n
    {
      assert n !in todo;
    }
  }

  lemma ListOneMore(rows: seq<Row>, dir: Dir, todo: set<string>, n: string)
    requires ListsAllBut(rows, dir, todo) && n in todo && n in dir
    ensures
      match BackupType(n)
      case None => ListsAllBut(rows, dir, todo - {n})
      case Some(ft) => |n| >= 20 && ListsAllBut(InsertRow(rows, Row(n[..20], ft, |dir[n]|)), dir, todo - {n})
  {
    if BackupType(n).Some? {
      var ft := BackupType(n).value;
      RowOfName(dir, n, ft);
      var row := Row(n[..20], ft, |dir[n]|);
      forall i | 0 <= i < |rows|
        ensures Key(rows[i]) != Key(row)
      {
        assert rows[i] in rows;
        KeysDiffer(rows[i], row);
      }
      InsertRowKeepsOrder(rows, row);
      var rows' := InsertRow(rows, row);
      forall ft', m | m in Names(dir, ft') && m !in todo - {n}
        ensures exists r :: r in rows' && r.fileType == ft' && RowName(r) == m
      {
        if m == n {
          assert row in rows' && row.fileType == ft' && RowName(row) == m;
        } else {
          var r :| r in rows && r.fileType == ft' && RowName(r) == m;
          assert r in rows';
        }
      }
    } else {
      forall ft | n in Names(dir, ft)
        ensures false
      {
      }
    }
  }

  // ------------------------------------------------------------------ the directory

  class FileSystem {
    var managed: Dir
    var backups: map<string, Dir>

    /** Temp file, mode, content, close, rename; the temp file goes if anything failed. */
    method AtomicWrite(name: string, content: Bytes, w: WriteScript) returns (ok: bool)
      modifies this`managed
      ensures (managed, ok) == Written(old(managed), name, content, w)
    {
      var tmp := TempName(name, w.nonce);
      if w.createFails || tmp in managed {
        return false;
      }
      managed := managed[tmp := ""];
      ok := !w.chmodFails;
      if ok {
        managed := managed[tmp := if w.cutShortAt.Some? then Truncated(content, w.cutShortAt.value) else content];
        ok := w.cutShortAt.None?;
      }
      if ok {
        ok := !w.closeFails;
      }
      if ok && !w.renameFails {
        assert managed[tmp] == content && managed - {tmp} == old(managed);
        managed := (managed - {tmp})[name := managed[tmp]];
        return true;
      }
      assert managed == old(managed)[tmp := managed[tmp]];
      if !w.cleanupFails {
        managed := managed - {tmp};
        assert managed == old(managed);
      }
      return false;
    }

    /** The canonical snapshots of one type. */
    method Filter(dir: Dir, ft: FileType) returns (entries: seq<string>)
      ensures forall i, j :: 0 <= i < j < |entries| ==> entries[i] != entries[j]
      ensures Elements(entries) == Names(dir, ft)
    {
      entries := [];
      var todo := dir.Keys;
      while todo != {}
        invariant todo <= dir.Keys
        invariant forall i, j :: 0 <= i < j < |entries| ==> entries[i] != entries[j]
        invariant forall n :: n in entries <==> n in dir && n !in todo && BackupType(n) == Some(ft)
      {
        var n :| n in todo;
        if BackupType(n) == Some(ft) {
          entries := entries + [n];
        }
        todo := todo - {n};
      }
    }

    method SortedSnapshots(dir: Dir, ft: FileType) returns (entries: seq<string>)
      ensures Ascending(entries) && Elements(entries) == Names(dir, ft) && |entries| == |Names(dir, ft)|
    {
      entries := Filter(dir, ft);
      entries := Sort(entries);
      AscendingSize(entries);
    }

    /** Deletes the first `toDelete` entries, or up to the one that cannot be deleted. */
    method DeleteOldest(slug: string, entries: seq<string>, toDelete: nat, removeFailsAt: Option<nat>,
                        ghost own: set<string>)
      returns (ok: bool)
      requires slug in backups
      requires Ascending(entries) && Elements(entries) == own && toDelete <= |entries|
      modifies this`backups
      ensures
        var (dir, done) := Deleted(old(backups)[slug], own, toDelete, removeFailsAt);
        ok == done && backups == old(backups)[slug := dir]
    {
      ghost var dir := backups[slug];
      PruneNothing(dir, own);
      for i := 0 to toDelete
        invariant removeFailsAt.Some? ==> i <= removeFailsAt.value
        invariant backups == old(backups)[slug := Pruned(dir, own, i)]
      {
        if removeFailsAt == Some(i) {
          return false;
        }
        backups := backups[slug := backups[slug] - {entries[i]}];
        DeleteNextOldest(dir, own, entries, i);
      }
      return true;
    }

    method EnforceRetention(slug: string, ft: FileType, limit: nat, removeFailsAt: Option<nat>) returns (ok: bool)
      requires slug in backups
      modifies this`backups
      ensures
        var (kept, done) := Retained(old(backups)[slug], ft, limit, removeFailsAt);
        ok == done && backups == old(backups)[slug := kept]
    {
      ghost var dir := backups[slug];
      var entries := SortedSnapshots(backups[slug], ft);
      if |entries| <= limit {
        WithinLimit(backups, slug, ft, limit, removeFailsAt);
        return true;
      }
      var toDelete := |entries| - limit;
      assert toDelete == Excess(dir, ft, limit);
      ok := DeleteOldest(slug, entries, toDelete, removeFailsAt, Names(dir, ft));
    }

    /** Copies the overlay into the (existing) backup directory, wholly or in part. */
    method CopyFile(source: string, slug: string, snapshot: string, copy: CopyOutcome) returns (ok: bool)
      requires source in managed && slug in backups
      modifies this`backups
      ensures
        var (dir, copied) := Snapshotted(old(backups)[slug], snapshot, managed[source], copy);
        ok == copied && backups == old(backups)[slug := dir]
    {
      assert backups == backups[slug := backups[slug]];
      match copy {
        case OpenFails => return false;
        case CreateFails => return false;
        case CutShort(n) =>
          backups := backups[slug := backups[slug][snapshot := Truncated(managed[source], n)]];
          return false;
        case Copied =>
          backups := backups[slug := backups[slug][snapshot := managed[source]]];
          return true;
      }
    }

    method Backup(ft: FileType, slug: string, keep: nat, s: BackupScript) returns (ok: bool)
      requires s.now.InRange()
      modifies this`backups
      ensures (backups, ok) == BackedUp(managed, old(backups), ft, slug, keep, s)
    {
      var source := OverlayName(ft, slug);
      if s.statFails {
        return false;
      }
      if source !in managed {
        return true;
      }
      if s.mkdirFails {
        return false;
      }
      ghost var before := backups;
      MakeDir(slug);
      var copied := CopyFile(source, slug, SnapshotName(StampText(s.now), ft), s.copy);
      ghost var dir := backups[slug];
      UpdateAgain(before, slug, DirOf(before, slug), dir);
      if !copied || s.readDirFails {
        return false;
      }
      ok := EnforceRetention(slug, ft, keep, s.removeFailsAt);
      UpdateAgain(before, slug, dir, backups[slug]);
    }

    method MakeDir(slug: string)
      modifies this`backups
      ensures backups == old(backups)[slug := DirOf(old(backups), slug)]
    {
      if slug !in backups {
        backups := backups[slug := map[]];
      } else {
        UpdateSame(backups, slug);
      }
    }

    /** A missing directory lists as empty; names outside the convention are skipped. */
    method ListBackups(slug: string) returns (rows: seq<Row>)
      ensures IsListing(rows, DirOf(backups, slug))
    {
      rows := [];
      if slug !in backups {
        assert forall ft, n :: n !in Names(map[], ft);
        return;
      }
      var dir := backups[slug];
      var todo := dir.Keys;
      assert forall ft, n :: n in Names(dir, ft) ==> n in todo;
      while todo != {}
        invariant todo <= dir.Keys
        invariant ListsAllBut(rows, dir, todo)
      {
        var n :| n in todo;
        ListOneMore(rows, dir, todo, n);
        var fileType := BackupType(n);
        if fileType.Some? {
          rows := InsertRow(rows, Row(n[..20], fileType.value, |dir[n]|));
        }
        todo := todo - {n};
      }
      ListedAll(rows, dir, todo);
    }
  }

  /** Deleting the next name in order is having deleted one more of the oldest. */
  lemma DeleteNextOldest(dir: Dir, own: set<string>, entries: seq<string>, i: nat)
    requires Ascending(entries) && Elements(entries) == own && i < |entries|
    ensures Pruned(dir, own, i) - {entries[i]} == Pruned(dir, own, i + 1)
  {
    NextNewest(entries, i);
  }

  lemma UpdateSame(backups: map<string, Dir>, slug: string)
    requires slug in backups
    ensures backups[slug := backups[slug]] == backups
  {
  }

  lemma WithinLimit(backups: map<string, Dir>, slug: string, ft: FileType, limit: nat, removeFailsAt: Option<nat>)
    requires slug in backups && |Names(backups[slug], ft)| <= limit
    ensures Retained(backups[slug], ft, limit, removeFailsAt) == (backups[slug], true)
    ensures backups[slug := backups[slug]] == backups
  {
    PruneNothing(backups[slug], Names(backups[slug], ft));
    UpdateSame(backups, slug);
  }

  lemma UpdateAgain<T>(m: map<string, T>, key: string, a: T, b: T)
    ensures m[key := a][key := b] == m[key := b]
  {
  }

  lemma PruneNothing(dir: Dir, own: set<string>)
    ensures Pruned(dir, own, 0) == dir
  {
    assert Newest(own, 0) == own;
  }
}
