/** The handlers of demo/advanced_firmware_update.c, changing the table of slots and the files in place. */
module FirmwareUpdate {
  import opened ErrorCodes
  import opened Options
  import opened Bytes
  import opened Stdio
  import opened FileCrc
  import opened FirmwareFormat
  import opened FirmwareReader
  import opened FirmwareSlots
  import opened Conflicts
  import opened FirmwareProtocol
  import opened BundleDelivery

  /** unpacked_imgs_info_t: an image unpacked to a temporary file. */
  datatype Staged = Staged(path: Path, meta: Meta)

  type Files = map<Path, seq<byte>>

  // ---------------------------------------------------------------- staging

  /** The files of before plus one temporary file for each package so far; each slot's latest is on record. */
  ghost predicate StagedOk(before: Files, n0: nat, files: Files, n: nat,
                           ps: seq<Package>, staged: seq<Option<Staged>>) {
    && MoreFiles(before, n0, files, n, |ps|) && |staged| == IMAGE_SLOTS && PathsApart(staged)
    && (forall i :: 0 <= i < IMAGE_SLOTS ==> StagedAt(before, files, ps, staged, i))
  }

  ghost predicate StagedAt(before: Files, files: Files, ps: seq<Package>,
                           staged: seq<Option<Staged>>, i: nat)
    requires |staged| == IMAGE_SLOTS && i < IMAGE_SLOTS
  {
    match PackageFor(ps, i)
    case None => staged[i].None?
    case Some(p) =>
      && staged[i].Some? && staged[i].value.path in files && staged[i].value.path !in before
      && files[staged[i].value.path] == p.payload && staged[i].value.meta == p.meta
  }

  lemma StagedNone(before: Files, n0: nat)
    ensures StagedOk(before, n0, before, n0, [], [None, None, None, None])
  {
    assert before.Keys - before.Keys == {};
  }

  lemma StagedSnoc(before: Files, n0: nat, files: Files, n: nat,
                   ps: seq<Package>, staged: seq<Option<Staged>>, p: Package, k: nat)
    requires StagedOk(before, n0, files, n, ps, staged) && k < IMAGE_SLOTS && p.meta.magic == MAGICS[k]
    requires Temp(n) !in files
    ensures StagedOk(before, n0, files[Temp(n) := p.payload], n + 1, ps + [p], staged[k := Some(Staged(Temp(n), p.meta))])
  {
    OneMoreFile(before, n0, files, n, |ps|, p.payload);
    var files', qs, staged' := files[Temp(n) := p.payload], ps + [p], staged[k := Some(Staged(Temp(n), p.meta))];
    forall i | 0 <= i < IMAGE_SLOTS ensures StagedAt(before, files', qs, staged', i) {
      assert StagedAt(before, files, ps, staged, i);
      StagedSnocAt(before, files, n, ps, staged, p, k, i);
    }
    StagedSnocApart(before, files, n, ps, staged, p.meta, k);
  }

  lemma OneMoreFile(before: Files, n0: nat, files: Files, n: nat, count: nat, content: seq<byte>)
    requires MoreFiles(before, n0, files, n, count) && Temp(n) !in files
    ensures MoreFiles(before, n0, files[Temp(n) := content], n + 1, count + 1) == true
  {
    FileAdded(before, n0, files, n, content);
    OneMore(files.Keys, before.Keys, Temp(n), files[Temp(n) := content].Keys);
  }

  lemma FileAdded(before: Files, n0: nat, files: Files, n: nat, content: seq<byte>)
    requires NewFiles(before, n0, files, n) && Temp(n) !in files
    ensures var now := files[Temp(n) := content];
            NewFiles(before, n0, now, n + 1) == true && now.Keys == files.Keys + {Temp(n)}
  {
    var now := files[Temp(n) := content];
    forall p | p in now && p !in before ensures p.Temp? && n0 <= p.n < n + 1 {
      if p != Temp(n) { assert p in files; }
    }
  }

  lemma OneMore(a: set<Path>, b: set<Path>, p: Path, c: set<Path>)
    requires p !in a && p !in b && c == a + {p}
    ensures |c - b| == |a - b| + 1
  {
    assert c - b == (a - b) + {p};
  }

  lemma FewerFiles(before: Files, n0: nat, files: Files, n: nat, count: nat, gone: set<Path>)
    requires MoreFiles(before, n0, files, n, count) && gone <= files.Keys - before.Keys
    ensures MoreFiles(before, n0, files - gone, n, count - |gone|)
  {
    assert (files - gone).Keys - before.Keys == (files.Keys - before.Keys) - gone;
    CardinalityOfRest(files.Keys - before.Keys, gone);
  }

  ghost predicate PathsApart(staged: seq<Option<Staged>>)
    requires |staged| == IMAGE_SLOTS
  {
    forall i, j :: 0 <= i < j < IMAGE_SLOTS && staged[i].Some? && staged[j].Some? ==> staged[i].value.path != staged[j].value.path
  }

  lemma StagedSnocApart(before: Files, files: Files, n: nat,
                        ps: seq<Package>, staged: seq<Option<Staged>>, m: Meta, k: nat)
    requires |staged| == IMAGE_SLOTS && PathsApart(staged) && k < IMAGE_SLOTS && Temp(n) !in files
    requires forall i :: 0 <= i < IMAGE_SLOTS ==> StagedAt(before, files, ps, staged, i)
    ensures PathsApart(staged[k := Some(Staged(Temp(n), m))])
  {
    var now := staged[k := Some(Staged(Temp(n), m))];
    forall i, j | 0 <= i < j < IMAGE_SLOTS && now[i].Some? && now[j].Some? ensures now[i].value.path != now[j].value.path {
      StagedPathOld(before, files, ps, staged, i);
      StagedPathOld(before, files, ps, staged, j);
    }
  }

  lemma StagedPathOld(before: Files, files: Files, ps: seq<Package>,
                      staged: seq<Option<Staged>>, i: nat)
    requires |staged| == IMAGE_SLOTS && i < IMAGE_SLOTS && StagedAt(before, files, ps, staged, i)
    ensures staged[i].Some? ==> staged[i].value.path in files
  {}

  lemma StagedSnocAt(before: Files, files: Files, n: nat,
                     ps: seq<Package>, staged: seq<Option<Staged>>, p: Package, k: nat, i: nat)
    requires |staged| == IMAGE_SLOTS && i < IMAGE_SLOTS && StagedAt(before, files, ps, staged, i)
    requires k < IMAGE_SLOTS && p.meta.magic == MAGICS[k] && Temp(n) !in files && Temp(n) !in before
    ensures StagedAt(before, files[Temp(n) := p.payload], ps + [p], staged[k := Some(Staged(Temp(n), p.meta))], i)
  {
    assert (ps + [p])[..|ps|] == ps;
    if p.meta.magic == MAGICS[i] { MagicsDiffer(i, k); }
  }

  // ---------------------------------------------------------------- clearing the stage

  ghost function StagedPaths(staged: seq<Option<Staged>>, k: nat): set<Path>
    requires |staged| == IMAGE_SLOTS && k <= IMAGE_SLOTS
  {
    set i | 0 <= i < k && staged[i].Some? :: staged[i].value.path
  }

  function StagedCount(staged: seq<Option<Staged>>, k: nat): nat
    requires |staged| == IMAGE_SLOTS && k <= IMAGE_SLOTS
  {
    if k == 0 then 0 else StagedCount(staged, k - 1) + (if staged[k - 1].Some? then 1 else 0)
  }

  lemma {:induction false} StagedPathsCount(staged: seq<Option<Staged>>, k: nat)
    requires |staged| == IMAGE_SLOTS && k <= IMAGE_SLOTS && PathsApart(staged)
    ensures |StagedPaths(staged, k)| == StagedCount(staged, k)
  {
    if k > 0 {
      StagedPathsCount(staged, k - 1);
      StagedPathsNext(staged, k - 1);
    }
  }

  lemma StagedPathsNext(staged: seq<Option<Staged>>, k: nat)
    requires |staged| == IMAGE_SLOTS && k < IMAGE_SLOTS
    ensures StagedPaths(staged, k + 1) == StagedPaths(staged, k) + (if staged[k].Some? then {staged[k].value.path} else {})
    ensures PathsApart(staged) && staged[k].Some? ==> staged[k].value.path !in StagedPaths(staged, k)
  {
    var now, next := StagedPaths(staged, k), StagedPaths(staged, k + 1);
    forall p | p in next ensures p in now || (staged[k].Some? && staged[k].value.path == p) {
      var i :| 0 <= i < k + 1 && staged[i].Some? && staged[i].value.path == p;
    }
  }

  lemma StagedMatchesAddressed(before: Files, files: Files, ps: seq<Package>, staged: seq<Option<Staged>>)
    requires |staged| == IMAGE_SLOTS && forall i :: 0 <= i < IMAGE_SLOTS ==> StagedAt(before, files, ps, staged, i)
    ensures StagedCount(staged, IMAGE_SLOTS) == |Addressed(ps)|
  {
    AddressedCount(ps);
    assert StagedAt(before, files, ps, staged, 0) && StagedAt(before, files, ps, staged, 1);
    assert StagedAt(before, files, ps, staged, 2) && StagedAt(before, files, ps, staged, 3);
    assert StagedCount(staged, 0) == 0;
    assert StagedCount(staged, 1) == Present(ps, 0);
    assert StagedCount(staged, 2) == StagedCount(staged, 1) + Present(ps, 1);
    assert StagedCount(staged, 3) == StagedCount(staged, 2) + Present(ps, 2);
  }

  /** Without the staged files, only those of superseded packages are left. */
  lemma ClearedStage(t: Table, files: Files, n: nat, ps: seq<Package>, staged: seq<Option<Staged>>)
    requires StagedOk(t.files, t.nextTemp, files, n, ps, staged)
    ensures Littered(t, t.(files := files - StagedPaths(staged, IMAGE_SLOTS), nextTemp := n), ps)
  {
    var gone := StagedPaths(staged, IMAGE_SLOTS);
    forall p | p in gone ensures p in files && p !in t.files {
      var i :| 0 <= i < IMAGE_SLOTS && staged[i].Some? && staged[i].value.path == p;
      assert StagedAt(t.files, files, ps, staged, i);
    }
    StagedPathsCount(staged, IMAGE_SLOTS);
    StagedMatchesAddressed(t.files, files, ps, staged);
    FewerFiles(t.files, t.nextTemp, files, n, |ps|, gone);
  }

  lemma CardinalityOfRest(a: set<Path>, b: set<Path>)
    requires b <= a
    ensures |a - b| == |a| - |b|
  {
    assert a == (a - b) + b;
  }

  // ---------------------------------------------------------------- committing

  ghost function PathsFrom(staged: seq<Option<Staged>>, k: nat): set<Path>
    requires |staged| == IMAGE_SLOTS && k <= IMAGE_SLOTS
  {
    set i | k <= i < IMAGE_SLOTS && staged[i].Some? :: staged[i].value.path
  }

  /** The paths are no files of the table, no slot uses them, and they will not be drawn again. */
  ghost predicate OffStage(a: Table, paths: set<Path>)
    requires Shaped(a)
  {
    && paths !! a.files.Keys && AllKnown(a.nextTemp, paths)
    && (forall j :: 0 <= j < IMAGE_SLOTS ==> Names(a.slots[j]) !! paths)
  }

  /** From slot k on, the stage holds exactly the packages meant for these slots, under names no slot uses. */
  ghost predicate OnStage(a: Table, rest: Files, ps: seq<Package>, staged: seq<Option<Staged>>, k: nat)
    requires |staged| == IMAGE_SLOTS && k <= IMAGE_SLOTS
  {
    && Tidy(a) && PathsApart(staged) && OffStage(a, StagedPaths(staged, IMAGE_SLOTS))
    && (forall i :: k <= i < IMAGE_SLOTS ==> OnStageAt(rest, ps, staged, i))
    && rest.Keys == PathsFrom(staged, k) <= StagedPaths(staged, IMAGE_SLOTS)
  }

  ghost predicate OnStageAt(rest: Files, ps: seq<Package>, staged: seq<Option<Staged>>, i: nat)
    requires |staged| == IMAGE_SLOTS && i < IMAGE_SLOTS
  {
    match PackageFor(ps, i)
    case None => staged[i].None?
    case Some(p) =>
      && staged[i].Some? && staged[i].value.meta == p.meta
      && staged[i].value.path in rest && rest[staged[i].value.path] == p.payload
  }

  /** A rename from the stage to a path: the staged name goes, the path holds its contents. */
  lemma Renamed(files: Files, rest: Files, from: Path, to: Path)
    requires files.Keys !! rest.Keys && from in rest && to !in rest
    ensures ((files + rest) - {from})[to := rest[from]] == files[to := rest[from]] + (rest - {from})
  {}

  lemma EnsureBesideStage(a: Table, rest: Files, i: nat)
    requires Shaped(a) && i < IMAGE_SLOTS && AllKnown(a.nextTemp, rest.Keys)
    ensures var u, v := EnsurePath(a.(files := a.files + rest), i), EnsurePath(a, i);
            u == v.(files := v.files + rest)
  {
    assert !Known(a.nextTemp, Temp(a.nextTemp));
    assert (a.files + rest)[Temp(a.nextTemp) := []] == a.files[Temp(a.nextTemp) := []] + rest;
  }

  lemma NothingToPlace(a: Table, rest: Files, ps: seq<Package>, staged: seq<Option<Staged>>, k: nat)
    requires |staged| == IMAGE_SLOTS && k < IMAGE_SLOTS && OnStage(a, rest, ps, staged, k) && staged[k].None?
    ensures PackageFor(ps, k).None? && OnStage(a, rest, ps, staged, k + 1)
  {
    assert OnStageAt(rest, ps, staged, k);
    StageTail(staged, k);
  }

  lemma StageTail(staged: seq<Option<Staged>>, k: nat)
    requires |staged| == IMAGE_SLOTS && k < IMAGE_SLOTS && PathsApart(staged)
    ensures PathsFrom(staged, k + 1) == PathsFrom(staged, k) - (if staged[k].Some? then {staged[k].value.path} else {})
  {
    var now, next := PathsFrom(staged, k), PathsFrom(staged, k + 1);
    forall p | p in now && !(staged[k].Some? && staged[k].value.path == p) ensures p in next {
      var i :| k <= i < IMAGE_SLOTS && staged[i].Some? && staged[i].value.path == p;
      assert i != k;
    }
  }

  /** The path a staged image is renamed to is not on the stage. */
  lemma TargetOffStage(a: Table, paths: set<Path>, k: nat)
    requires Tidy(a) && k < IMAGE_SLOTS && OffStage(a, paths)
    ensures OffStage(EnsurePath(a, k), paths) && EnsurePath(a, k).slots[k].path.value !in paths
  {
    var b := EnsurePath(a, k);
    assert !Known(a.nextTemp, Temp(a.nextTemp));
    assert Names(a.slots[k]) !! paths;
    forall j | 0 <= j < IMAGE_SLOTS ensures Names(b.slots[j]) !! paths {
      assert Names(a.slots[j]) !! paths;
    }
    assert b.slots[k].path.value in Names(b.slots[k]);
    KnownGrows(a.nextTemp, b.nextTemp, paths);
  }

  lemma CommitOffStage(a: Table, paths: set<Path>, k: nat, p: Package)
    requires Tidy(a) && k < IMAGE_SLOTS && OffStage(a, paths)
    ensures OffStage(CommitOne(a, k, p), paths)
  {
    TargetOffStage(a, paths, k);
    var b, u := EnsurePath(a, k), CommitOne(a, k, p);
    forall j | 0 <= j < IMAGE_SLOTS ensures Names(u.slots[j]) !! paths {
      assert Names(b.slots[j]) !! paths;
    }
  }

  lemma StageStep(a: Table, rest: Files, ps: seq<Package>, staged: seq<Option<Staged>>, k: nat, p: Package)
    requires |staged| == IMAGE_SLOTS && k < IMAGE_SLOTS && OnStage(a, rest, ps, staged, k) && PackageFor(ps, k) == Some(p)
    ensures staged[k].Some? && OnStage(CommitOne(a, k, p), rest - {staged[k].value.path}, ps, staged, k + 1)
  {
    assert OnStageAt(rest, ps, staged, k);
    var from := staged[k].value.path;
    CommitOneKeeps(a, k, p);
    CommitOffStage(a, StagedPaths(staged, IMAGE_SLOTS), k, p);
    StageTail(staged, k);
    forall i | k + 1 <= i < IMAGE_SLOTS ensures OnStageAt(rest - {from}, ps, staged, i) {
      assert OnStageAt(rest, ps, staged, i);
    }
  }

  /** The rename in place: what the files are once slot k has its image. */
  lemma StageRename(a: Table, rest: Files, ps: seq<Package>, staged: seq<Option<Staged>>, k: nat, p: Package)
    requires |staged| == IMAGE_SLOTS && k < IMAGE_SLOTS && OnStage(a, rest, ps, staged, k) && PackageFor(ps, k) == Some(p)
    ensures staged[k].Some? && staged[k].value.meta == p.meta && staged[k].value.path in rest
    ensures var b, from := EnsurePath(a, k), staged[k].value.path;
            var to := b.slots[k].path.value;
            && from !in b.files && to != from && rest[from] == p.payload
            && ((b.files + rest) - {from})[to := rest[from]] == CommitOne(a, k, p).files + (rest - {from})
  {
    assert OnStageAt(rest, ps, staged, k);
    TargetOffStage(a, StagedPaths(staged, IMAGE_SLOTS), k);
    var b, from := EnsurePath(a, k), staged[k].value.path;
    assert from in StagedPaths(staged, IMAGE_SLOTS);
    Renamed(b.files, rest, from, b.slots[k].path.value);
  }

  /** Where the commit stands before slot k: v is the table, a the part of it that counts, rest the stage. */
  ghost predicate Committing(v: Table, ps: seq<Package>, staged: seq<Option<Staged>>, k: nat,
                             a: Table, rest: Files, target: Table, ids: seq<nat>, downloaded: seq<nat>)
    requires |staged| == IMAGE_SLOTS && k <= IMAGE_SLOTS
  {
    && OnStage(a, rest, ps, staged, k) && v == a.(files := a.files + rest)
    && CommitFrom(a, ps, k) == target && downloaded + AddressedFrom(ps, k) == ids
  }

  function Appended(ids: seq<nat>, k: nat): seq<nat> { ids + [k] }

  lemma CommitNext(a: Table, ps: seq<Package>, k: nat, p: Package, downloaded: seq<nat>)
    requires Shaped(a) && k < IMAGE_SLOTS && PackageFor(ps, k) == Some(p)
    ensures CommitFrom(CommitOne(a, k, p), ps, k + 1) == CommitFrom(a, ps, k)
    ensures downloaded + [k] + AddressedFrom(ps, k + 1) == downloaded + AddressedFrom(ps, k)
  {}

  lemma CommitSkip(a: Table, ps: seq<Package>, k: nat)
    requires Shaped(a) && k < IMAGE_SLOTS && PackageFor(ps, k).None?
    ensures CommitFrom(a, ps, k + 1) == CommitFrom(a, ps, k) && AddressedFrom(ps, k + 1) == AddressedFrom(ps, k)
  {}

  /** A staged image is ready to be renamed. */
  ghost predicate Placeable(v: Table, a: Table, rest: Files, image: Staged, k: nat, p: Package)
    requires Shaped(a) && k < IMAGE_SLOTS
  {
    var b := EnsurePath(a, k);
    && v == a.(files := a.files + rest) && AllKnown(a.nextTemp, rest.Keys)
    && image.path in rest && rest[image.path] == p.payload && image.meta == p.meta
    && image.path !in b.files && b.slots[k].path.value != image.path
    && ((b.files + rest) - {image.path})[b.slots[k].path.value := rest[image.path]]
       == CommitOne(a, k, p).files + (rest - {image.path})
  }

  /** The table once the image is in place. */
  ghost function Placed(a: Table, rest: Files, image: Staged, k: nat, p: Package): Table
    requires Shaped(a) && k < IMAGE_SLOTS
  {
    var u := CommitOne(a, k, p);
    u.(files := u.files + (rest - {image.path}))
  }

  lemma ReadyToPlace(a: Table, rest: Files, ps: seq<Package>, staged: seq<Option<Staged>>, k: nat) returns (p: Package)
    requires |staged| == IMAGE_SLOTS && k < IMAGE_SLOTS && OnStage(a, rest, ps, staged, k) && staged[k].Some?
    ensures PackageFor(ps, k) == Some(p) && Placeable(a.(files := a.files + rest), a, rest, staged[k].value, k, p)
    ensures OnStage(CommitOne(a, k, p), rest - {staged[k].value.path}, ps, staged, k + 1)
  {
    assert OnStageAt(rest, ps, staged, k);
    p := PackageFor(ps, k).value;
    StageRename(a, rest, ps, staged, k, p);
    StageStep(a, rest, ps, staged, k, p);
  }

  lemma CommitStep(v: Table, ps: seq<Package>, staged: seq<Option<Staged>>, k: nat,
                   a: Table, rest: Files, target: Table, ids: seq<nat>, downloaded: seq<nat>) returns (p: Package)
    requires |staged| == IMAGE_SLOTS && k < IMAGE_SLOTS
    requires Committing(v, ps, staged, k, a, rest, target, ids, downloaded) && staged[k].Some?
    ensures Shaped(a) && Placeable(v, a, rest, staged[k].value, k, p)
    ensures Committing(Placed(a, rest, staged[k].value, k, p), ps, staged, k + 1,
                       CommitOne(a, k, p), rest - {staged[k].value.path}, target, ids, Appended(downloaded, k)) == true
  {
    p := ReadyToPlace(a, rest, ps, staged, k);
    CommitNext(a, ps, k, p, downloaded);
  }

  lemma CommitPass(v: Table, ps: seq<Package>, staged: seq<Option<Staged>>, k: nat,
                   a: Table, rest: Files, target: Table, ids: seq<nat>, downloaded: seq<nat>)
    requires |staged| == IMAGE_SLOTS && k < IMAGE_SLOTS
    requires Committing(v, ps, staged, k, a, rest, target, ids, downloaded) && staged[k].None?
    ensures Committing(v, ps, staged, k + 1, a, rest, target, ids, downloaded) == true
  {
    NothingToPlace(a, rest, ps, staged, k);
    CommitSkip(a, ps, k);
  }

  lemma CommitComplete(v: Table, ps: seq<Package>, staged: seq<Option<Staged>>,
                       a: Table, rest: Files, target: Table, ids: seq<nat>, downloaded: seq<nat>)
    requires |staged| == IMAGE_SLOTS && Committing(v, ps, staged, IMAGE_SLOTS, a, rest, target, ids, downloaded)
    ensures v == target && v.files.Keys !! StagedPaths(staged, IMAGE_SLOTS) && downloaded == ids
  {
    assert a.files + rest == a.files;
  }

  ghost function Restricted(files: Files, ps: set<Path>): Files
    requires ps <= files.Keys
  {
    files - (files.Keys - ps)
  }

  lemma SplitFiles(files: Files, gone: set<Path>)
    requires gone <= files.Keys
    ensures files == (files - gone) + Restricted(files, gone) && Restricted(files, gone).Keys == gone
  {}

  lemma StagedPathFresh(before: Files, n0: nat, files: Files, n: nat, ps: seq<Package>, staged: seq<Option<Staged>>, p: Path)
    requires StagedOk(before, n0, files, n, ps, staged) && p in StagedPaths(staged, IMAGE_SLOTS)
    ensures p in files && p.Temp? && n0 <= p.n < n
  {
    var i :| 0 <= i < IMAGE_SLOTS && staged[i].Some? && staged[i].value.path == p;
    assert StagedAt(before, files, ps, staged, i);
  }

  lemma FreshOffNames(n0: nat, names: set<Path>, later: set<Path>)
    requires AllKnown(n0, names) && forall p :: p in later ==> p.Temp? && n0 <= p.n
    ensures names !! later
  {
    forall p | p in names ensures p !in later {
      assert Known(n0, p);
    }
  }

  lemma RestOnStage(before: Files, files: Files, ps: seq<Package>, staged: seq<Option<Staged>>, i: nat)
    requires |staged| == IMAGE_SLOTS && i < IMAGE_SLOTS && StagedAt(before, files, ps, staged, i)
    requires StagedPaths(staged, IMAGE_SLOTS) <= files.Keys
    ensures OnStageAt(Restricted(files, StagedPaths(staged, IMAGE_SLOTS)), ps, staged, i)
  {}

  /** After staging, the stage is set for the commit. */
  lemma StageSet(t: Table, files: Files, n: nat, ps: seq<Package>, staged: seq<Option<Staged>>) returns (l: Table, rest: Files)
    requires Tidy(t) && StagedOk(t.files, t.nextTemp, files, n, ps, staged)
    ensures l == t.(files := files - StagedPaths(staged, IMAGE_SLOTS), nextTemp := n)
    ensures Littered(t, l, ps) && files == l.files + rest && OnStage(l, rest, ps, staged, 0)
  {
    var gone := StagedPaths(staged, IMAGE_SLOTS);
    l := t.(files := files - gone, nextTemp := n);
    ClearedStage(t, files, n, ps, staged);
    LitterKeeps(t, l, ps);
    forall p | p in gone ensures p in files && p.Temp? && t.nextTemp <= p.n < n {
      StagedPathFresh(t.files, t.nextTemp, files, n, ps, staged, p);
    }
    SplitFiles(files, gone);
    rest := Restricted(files, gone);
    forall i | 0 <= i < IMAGE_SLOTS ensures OnStageAt(rest, ps, staged, i) {
      RestOnStage(t.files, files, ps, staged, i);
    }
    forall j | 0 <= j < IMAGE_SLOTS ensures Names(l.slots[j]) !! gone {
      FreshOffNames(t.nextTemp, Names(t.slots[j]), gone);
    }
    assert gone == PathsFrom(staged, 0);
  }

  /** What one attempt to unpack a package does to the files and to the record of staged images. */
  ghost predicate OneStaged(files: Files, n: nat, staged: seq<Option<Staged>>, r: Result<Package>, slot: nat,
                            files': Files, n': nat, staged': seq<Option<Staged>>)
    requires |staged| == IMAGE_SLOTS
  {
    && n' == n + 1
    && (r.Bad? ==> files' == files && staged' == staged)
    && (r.Good? ==> files' == files[Temp(n) := r.value.payload] && slot < IMAGE_SLOTS && r.value.meta.magic == MAGICS[slot])
    && (r.Good? ==> staged' == staged[slot := Some(Staged(Temp(n), r.value.meta))])
  }

  /** The stage after one more attempt. */
  ghost predicate StagedAfter(before: Files, n0: nat, files: Files, n: nat, done: seq<Package>, next: seq<Package>,
                              staged: seq<Option<Staged>>, result: int) {
    if result != 0 then StagedOk(before, n0, files, n, done, staged)
    else StageGrown(before, n0, files, n, next, staged) && Addressed(next) != []
  }

  lemma StageRound(before: Files, n0: nat, files: Files, n: nat, done: seq<Package>, staged: seq<Option<Staged>>,
                   r: Result<Package>, slot: nat, files': Files, n': nat, next: seq<Package>, staged': seq<Option<Staged>>, result: int)
    requires StageGrown(before, n0, files, n, done, staged) && OneStaged(files, n, staged, r, slot, files', n', staged')
    requires r.Bad? <==> result != 0
    requires r.Good? ==> next == done + [r.value]
    ensures StagedAfter(before, n0, files', n', done, next, staged', result) == true
  {
    if r.Bad? {
      StagedLater(before, n0, files, n, n', done, staged);
    } else {
      StageGrows(before, n0, files, n, done, staged, r.value, slot);
      LastAddressed(done, r.value, slot);
    }
  }

  lemma NextTempFree(n: nat, files: Files)
    requires AllKnown(n, files.Keys)
    ensures Temp(n) !in files
  {
    assert !Known(n, Temp(n));
  }

  /** What a bundle comes to once some packages are done and the rest is still to be taken. */
  ghost function Remaining(s: seq<byte>, lengths: seq<nat>, done: seq<Package>): Unpacked {
    var u := TakeAll(s, lengths);
    Unpacked(done + u.packages, u.error)
  }

  lemma RemainingAll(s: seq<byte>, lengths: seq<nat>)
    ensures Remaining(s, lengths[0..], []) == TakeAll(s, lengths)
  {
    assert lengths[0..] == lengths && [] + TakeAll(s, lengths).packages == TakeAll(s, lengths).packages;
  }

  lemma RemainingNone(s: seq<byte>, lengths: seq<nat>, done: seq<Package>)
    ensures Remaining(s, lengths[|lengths|..], done) == Unpacked(done, 0)
  {
    assert done + [] == done;
  }

  lemma RemainingFails(contents: seq<byte>, pos: nat, lengths: seq<nat>, i: nat, done: seq<Package>)
    requires pos <= |contents| && i < |lengths| && TakePackage(contents[pos..], lengths[i]).Bad?
    ensures Remaining(contents[pos..], lengths[i..], done) == Unpacked(done, TakePackage(contents[pos..], lengths[i]).error)
  {
    assert done + [] == done;
  }

  lemma RemainingNext(contents: seq<byte>, pos: nat, lengths: seq<nat>, i: nat, done: seq<Package>, p: Package)
    requires pos <= |contents| && i < |lengths| && TakePackage(contents[pos..], lengths[i]) == Good(p)
    ensures pos + PackageLen(p) <= |contents|
    ensures Remaining(contents[pos + PackageLen(p)..], lengths[i + 1..], done + [p]) == Remaining(contents[pos..], lengths[i..], done)
  {
    DropTwice(contents, pos, PackageLen(p));
    assert lengths[i..][1..] == lengths[i + 1..];
    var r := TakeAll(contents[pos + PackageLen(p)..], lengths[i + 1..]);
    assert done + ([p] + r.packages) == done + [p] + r.packages;
  }

  /** One round over: what the bundle comes to has either been decided or is still the same. */
  ghost predicate RoundOver(contents: seq<byte>, pos: nat, pos': nat, lengths: seq<nat>, i: nat,
                            done: seq<Package>, next: seq<Package>, result: int) {
    && pos <= |contents| && pos' <= |contents| && i < |lengths|
    && Remaining(contents[pos..], lengths[i..], done)
       == if result != 0 then Unpacked(done, result) else Remaining(contents[pos'..], lengths[i + 1..], next)
  }

  lemma RoundEnds(contents: seq<byte>, pos: nat, pos': nat, lengths: seq<nat>, i: nat,
                  done: seq<Package>, next: seq<Package>, result: int, r: Result<Package>)
    requires pos <= |contents| && pos' <= |contents| && i < |lengths| && r == TakePackage(contents[pos..], lengths[i])
    requires if r.Bad? then result == r.error && result != 0
             else result == 0 && pos' == pos + PackageLen(r.value) && next == done + [r.value]
    ensures RoundOver(contents, pos, pos', lengths, i, done, next, result) == true
  {
    if r.Bad? { RemainingFails(contents, pos, lengths, i, done); } else { RemainingNext(contents, pos, lengths, i, done, r.value); }
  }

  class FirmwareTable {
    var files: Files
    var nextTemp: nat
    var slots: seq<Slot>
    var insts: seq<Instance>
    const crc: CrcTable

    ghost function View(): Table
      reads this
    {
      Table(files, nextTemp, slots, insts)
    }

    ghost predicate Valid()
      reads this, crc, crc.entries
    {
      Tidy(View()) && LinksOk(View()) && crc.Valid()
    }

    /** All slots empty; only the application slot may have a chosen path. */
    constructor (files: Files, appPath: Option<Path>)
      requires (forall p :: p in files ==> p.Named?) && (appPath.Some? ==> appPath.value.Named?)
      ensures Valid() && Inv(View()) && (forall j :: 0 <= j < IMAGE_SLOTS ==> View().insts[j].state.Idle?)
      ensures this.files == files && fresh(crc) && fresh(crc.entries)
    {
      var version := [0x31, 0x2E, 0x30];
      var slot, inst := Slot(None, None, NO_META, Closed, version), Instance(Idle, 0, [], []);
      this.files, nextTemp := files, 0;
      slots := [slot.(admin := appPath), slot, slot, slot];
      insts := [inst, inst, inst, inst];
      crc := new CrcTable();
      new;
      assert forall i :: 0 <= i < IMAGE_SLOTS ==> insts[i] == inst;
      assert forall i :: 1 <= i < IMAGE_SLOTS ==> slots[i] == slot;
    }

    /** generate_random_target_filepath: a new, empty file. */
    method GenerateTemp() returns (p: Path)
      modifies this`files, this`nextTemp
      ensures p == Temp(old(nextTemp)) && nextTemp == old(nextTemp) + 1 && files == old(files)[p := []]
    {
      p := Temp(nextTemp);
      files, nextTemp := files[p := []], nextTemp + 1;
    }

    /** find_instance_magic_based. */
    method FindSlot(m: Meta) returns (found: bool, k: nat)
      ensures found <==> m.magic in MAGICS
      ensures found ==> k < IMAGE_SLOTS && MAGICS[k] == m.magic
    {
      k := 0;
      while k < IMAGE_SLOTS
        invariant k <= IMAGE_SLOTS && forall i :: 0 <= i < k ==> MAGICS[i] != m.magic
      {
        if m.magic == MAGICS[k] {
          return true, k;
        }
        k := k + 1;
      }
      found := false;
    }

    /** unpack_firmware: one package into a temporary file of its own, recorded for its slot. */
    method UnpackFirmware(f: InputStream, declared: nat, staged: seq<Option<Staged>>)
      returns (result: int, now: seq<Option<Staged>>, ghost slot: nat)
      requires |staged| == IMAGE_SLOTS && f.Valid() && !f.broken && !f.eof && !f.error && Temp(nextTemp) !in files
      modifies this`files, this`nextTemp, f
      ensures f.Valid()
      ensures var r := TakePackage(f.contents[old(f.pos)..], declared);
              && OneStaged(old(files), old(nextTemp), staged, r, slot, files, nextTemp, now)
              && (if r.Bad? then result == r.error && result != 0
                  else result == 0 && f.pos == old(f.pos) + PackageLen(r.value) && !f.error && (declared != 0 ==> !f.eof))
    {
      now, slot := staged, 0;
      TakeErrorsNonzero(f.contents[f.pos..], declared);
      var tmp := GenerateTemp();
      var r := UnpackToFile(f, declared);
      if r.Bad? {
        files := files - {tmp};
        return r.error, now, slot;
      }
      files := files[tmp := r.value.payload];
      var found, k := FindSlot(r.value.meta);
      if !found {
        files := files - {tmp};
        return ERR_GENERIC, now, slot;
      }
      slot := k;
      now := staged[k := Some(Staged(tmp, r.value.meta))];
      result := 0;
    }

    /** One round of the unpacking loop: either it ends there, or one more package is staged. */
    method UnpackRound(f: InputStream, lengths: seq<nat>, i: nat, staged: seq<Option<Staged>>,
                       ghost before: Files, ghost n0: nat, ghost done: seq<Package>)
      returns (result: int, now: seq<Option<Staged>>, ghost next: seq<Package>)
      requires f.Valid() && !f.broken && !f.eof && !f.error && i < |lengths|
      requires StageGrown(before, n0, files, nextTemp, done, staged)
      modifies this`files, this`nextTemp, f
      ensures f.Valid() && (result == 0 ==> !f.error && (lengths[i] != 0 ==> !f.eof))
      ensures RoundOver(f.contents, old(f.pos), f.pos, lengths, i, done, next, result) == true
      ensures StagedAfter(before, n0, files, nextTemp, done, next, now, result) == true
    {
      ghost var pos, m, n, slot, r := f.pos, files, nextTemp, 0, TakePackage(f.contents[f.pos..], lengths[i]);
      next := if r.Good? then done + [r.value] else done;
      NextTempFree(n, files);
      result, now, slot := UnpackFirmware(f, lengths[i], staged);
      RoundEnds(f.contents, pos, f.pos, lengths, i, done, next, result, r);
      StageRound(before, n0, m, n, done, staged, r, slot, files, nextTemp, next, now, result);
    }

    /** The unpacking loop of unpack_firmware_in_place. */
    method UnpackAll(f: InputStream, declared: seq<nat>) returns (result: int, staged: seq<Option<Staged>>, ghost done: seq<Package>)
      requires Valid() && f.Valid() && !f.broken && !f.eof && !f.error && OnlyLastOpenEnded(declared)
      modifies this`files, this`nextTemp, f
      ensures TakeAll(f.contents[old(f.pos)..], declared) == Unpacked(done, result)
      ensures StagedOk(old(files), old(nextTemp), files, nextTemp, done, staged)
      ensures result == 0 && declared != [] ==> Addressed(done) != []
    {
      ghost var all := TakeAll(f.contents[f.pos..], declared);
      result, staged, done := 0, [None, None, None, None], [];
      StagedNone(files, nextTemp);
      RemainingAll(f.contents[f.pos..], declared);
      for i := 0 to |declared|
        invariant f.Valid() && !f.error && (i < |declared| ==> !f.eof)
        invariant StageGrown(old(files), old(nextTemp), files, nextTemp, done, staged) == true && (i > 0 ==> Addressed(done) != [])
        invariant all == Remaining(f.contents[f.pos..], declared[i..], done)
      {
        ghost var pos, next := f.pos, done;
        result, staged, next := UnpackRound(f, declared, i, staged, old(files), old(nextTemp), done);
        assert RoundOver(f.contents, pos, f.pos, declared, i, done, next, result);
        if result != 0 {
          return;
        }
        done := next;
      }
      RemainingNone(f.contents[f.pos..], declared, done);
    }

    /** handle_multipackage, then the unpacking loop. */
    method Stage(iid: nat) returns (result: int, staged: seq<Option<Staged>>, ghost u: Unpacked)
      requires Valid() && iid < IMAGE_SLOTS && HasFile(View(), iid)
      modifies this`files, this`nextTemp
      ensures u == ReadBundle(old(File(View(), iid))) && result == u.error
      ensures StagedOk(old(files), old(nextTemp), files, nextTemp, u.packages, staged)
      ensures result == 0 ==> Addressed(u.packages) != []
    {
      var f := new InputStream(files[slots[iid].path.value], false);
      var declared;
      result, declared := HandleMultipackage(f);
      if result != 0 {
        u, staged := Unpacked([], result), [None, None, None, None];
        StagedNone(files, nextTemp);
        return;
      }
      ghost var done;
      result, staged, done := UnpackAll(f, declared);
      u := Unpacked(done, result);
    }

    /** fw_update_common_maybe_create_firmware_file. */
    method EnsureFile(k: nat)
      requires |slots| == IMAGE_SLOTS && k < IMAGE_SLOTS
      modifies this`files, this`nextTemp, this`slots
      ensures View() == EnsurePath(old(View()), k)
    {
      if slots[k].path.None? {
        if slots[k].admin.Some? {
          slots := slots[k := slots[k].(path := slots[k].admin)];
        } else {
          var p := GenerateTemp();
          slots := slots[k := slots[k].(path := Some(p))];
        }
      }
    }

    /** A staged image takes its place: the slot gets a path, the file is renamed to it, the metadata is stored. */
    method Place(k: nat, image: Staged, ghost a: Table, ghost rest: Files, ghost p: Package)
      requires Shaped(a) && k < IMAGE_SLOTS && Placeable(View(), a, rest, image, k, p)
      modifies this`files, this`nextTemp, this`slots
      ensures View() == Placed(a, rest, image, k, p)
    {
      EnsureBesideStage(a, rest, k);
      EnsureFile(k);
      var from, to := image.path, slots[k].path.value;
      files := (files - {from})[to := files[from]];
      slots := slots[k := slots[k].(meta := image.meta,
                                    stream := if slots[k].stream.Attached? then Orphaned else slots[k].stream)];
    }

    /** One round of the committing loop: a staged image takes its place, and its slot is noted. */
    method CommitSlot(k: nat, staged: seq<Option<Staged>>, before: seq<nat>,
                      ghost ps: seq<Package>, ghost a: Table, ghost rest: Files, ghost target: Table, ghost ids: seq<nat>)
      returns (downloaded: seq<nat>, ghost a': Table, ghost rest': Files)
      requires |staged| == IMAGE_SLOTS && k < IMAGE_SLOTS && Committing(View(), ps, staged, k, a, rest, target, ids, before) == true
      modifies this`files, this`nextTemp, this`slots
      ensures Committing(View(), ps, staged, k + 1, a', rest', target, ids, downloaded) == true
    {
      downloaded, a', rest' := before, a, rest;
      if staged[k].Some? {
        ghost var p := CommitStep(View(), ps, staged, k, a, rest, target, ids, before);
        Place(k, staged[k].value, a, rest, p);
        a', rest' := CommitOne(a, k, p), rest - {staged[k].value.path};
        downloaded := Appended(before, k);
      } else {
        CommitPass(View(), ps, staged, k, a, rest, target, ids, before);
      }
    }

    /** The committing loop of unpack_firmware_in_place. */
    method Commit(staged: seq<Option<Staged>>, ghost ps: seq<Package>, ghost l: Table, ghost all: Files) returns (downloaded: seq<nat>)
      requires |staged| == IMAGE_SLOTS && OnStage(l, all, ps, staged, 0) && View() == l.(files := l.files + all)
      modifies this`files, this`nextTemp, this`slots
      ensures View() == CommitFrom(l, ps, 0) && files.Keys !! StagedPaths(staged, IMAGE_SLOTS)
      ensures downloaded == Addressed(ps)
    {
      ghost var a, rest, target, ids := l, all, CommitFrom(l, ps, 0), Addressed(ps);
      downloaded := [];
      for k := 0 to IMAGE_SLOTS
        invariant Committing(View(), ps, staged, k, a, rest, target, ids, downloaded) == true
      {
        downloaded, a, rest := CommitSlot(k, staged, downloaded, ps, a, rest, target, ids);
      }
      CommitComplete(View(), ps, staged, a, rest, target, ids, downloaded);
    }

    /** Unlinks what is still staged. */
    method Cleanup(staged: seq<Option<Staged>>)
      requires |staged| == IMAGE_SLOTS
      modifies this`files
      ensures files == old(files) - StagedPaths(staged, IMAGE_SLOTS)
    {
      assert files == files - {};
      for i := 0 to IMAGE_SLOTS
        invariant files == old(files) - StagedPaths(staged, i)
      {
        StagedPathsNext(staged, i);
        if staged[i].Some? {
          files := files - {staged[i].value.path};
        }
      }
    }

    /** The first addressed slot that is already downloaded. */
    method FindClash(staged: seq<Option<Staged>>, ghost ps: seq<Package>) returns (clash: Option<nat>)
      requires |insts| == IMAGE_SLOTS && |staged| == IMAGE_SLOTS
      requires forall i :: 0 <= i < IMAGE_SLOTS ==> (staged[i].Some? <==> PackageFor(ps, i).Some?)
      ensures clash == ClashFrom(View(), ps, 0)
    {
      for i := 0 to IMAGE_SLOTS
        invariant ClashFrom(View(), ps, 0) == ClashFrom(View(), ps, i)
      {
        if staged[i].Some? && insts[i].state.Downloaded? {
          return Some(i);
        }
      }
      clash := None;
    }

    /** maybe_delete_firmware_file. */
    method DeleteFirmware(iid: nat)
      requires |slots| == IMAGE_SLOTS && iid < IMAGE_SLOTS
      modifies this`files, this`slots
      ensures View() == DeleteFile(old(View()), iid)
    {
      if slots[iid].path.Some? {
        files := files - {slots[iid].path.value};
        slots := slots[iid := slots[iid].(path := None)];
      }
    }

    method StoreConflicting(iid: nat, targets: seq<nat>)
      requires |insts| == IMAGE_SLOTS && iid < IMAGE_SLOTS
      modifies this`insts
      ensures View() == SetConflicting(old(View()), iid, targets).0
    {
      if ValidTargets(iid, targets) {
        insts := insts[iid := insts[iid].(conflicting := targets)];
      }
    }

    /** What unpack_firmware_in_place does once everything is staged: clash, commit, cleanup. */
    method Settle(iid: nat, staging: int, staged: seq<Option<Staged>>, ghost ps: seq<Package>, ghost l: Table, ghost rest: Files)
      returns (result: int, downloaded: seq<nat>)
      requires |staged| == IMAGE_SLOTS && iid < IMAGE_SLOTS && OnStage(l, rest, ps, staged, 0)
      requires View() == l.(files := l.files + rest) && files - StagedPaths(staged, IMAGE_SLOTS) == l.files
      modifies this`files, this`nextTemp, this`slots, this`insts
      ensures var clash := ClashFrom(l, ps, 0);
              (View(), result) == if staging != 0 then (DeleteFile(l, iid), staging)
                else if clash.Some? then (DeleteFile(SetConflicting(l, iid, [clash.value]).0, iid), ERR_CONFLICTING_STATE)
                else (CommitFrom(l, ps, 0), 0)
      ensures result == 0 ==> downloaded == Addressed(ps)
    {
      result, downloaded := staging, [];
      if result == 0 {
        StagedWhereAddressed(rest, ps, staged);
        ClashIgnoresFiles(l, View(), ps, 0);
        var clash := FindClash(staged, ps);
        if clash.Some? {
          StoreConflicting(iid, [clash.value]);
          result := ERR_CONFLICTING_STATE;
        } else {
          downloaded := Commit(staged, ps, l, rest);
          NothingStaged(files, StagedPaths(staged, IMAGE_SLOTS));
        }
      }
      Cleanup(staged);
      if result != 0 {
        DeleteFirmware(iid);
      }
    }

    /** unpack_firmware_in_place. */
    method UnpackInPlace(iid: nat) returns (result: int, downloaded: seq<nat>)
      requires Valid() && iid < IMAGE_SLOTS
      modifies this`files, this`nextTemp, this`slots, this`insts
      ensures UnpackStep(old(View()), iid, View(), result)
      ensures result == 0 ==> downloaded == Addressed(Bundle(old(View()), iid).packages) && downloaded != []
    {
      ghost var t := View();
      if slots[iid].path.None? || slots[iid].path.value !in files {
        return ERR_GENERIC, [];
      }
      var staging, staged;
      ghost var u;
      staging, staged, u := Stage(iid);
      ghost var l, rest := StageSet(t, files, nextTemp, u.packages, staged);
      result, downloaded := Settle(iid, staging, staged, u.packages, l, rest);
      ClashIgnoresFiles(t, l, u.packages, 0);
      assert Outcome(t, iid, u, l, View(), result);
    }

    /** validate_firmware. */
    method ValidateFirmware(iid: nat) returns (result: int)
      requires Valid() && iid < IMAGE_SLOTS
      modifies crc.entries
      ensures crc.Valid() && result == Validate(View(), iid)
    {
      var meta := slots[iid].meta;
      if meta.magic != MAGICS[iid] || meta.headerVer != HEADER_VER_SINGLE {
        return ERR_UNSUPPORTED_PACKAGE_TYPE;
      }
      var f := null;
      if slots[iid].path.Some? && slots[iid].path.value in files {
        f := new InputStream(files[slots[iid].path.value], false);
      }
      var ok, actual := crc.CalcFile(f);
      if !ok || meta.crc != actual {
        return ERR_INTEGRITY_FAILURE;
      }
      result := if meta.forceError == FORCE_ERROR_OUT_OF_MEMORY then ERR_OUT_OF_MEMORY else 0;
    }

    /** The ids a header links to. */
    method ListLinked(linked: seq<byte>) returns (ids: seq<nat>)
      ensures ids == LinkedIds(linked)
    {
      ids := [];
      for i := 0 to |linked|
        invariant ids + LinkedIds(linked[i..]) == LinkedIds(linked)
      {
        assert linked[i..][1..] == linked[i + 1..];
        if Value(linked[i]) < 8 {
          ids := ids + [Value(linked[i])];
        }
      }
      assert LinkedIds(linked[|linked|..]) == [];
    }

    /** process_linked. */
    method ProcessLinked(iid: nat) returns (result: int)
      requires Shaped(View()) && iid < IMAGE_SLOTS
      modifies this`insts
      ensures (View(), result) == SetLinked(old(View()), iid, LinkedIds(slots[iid].meta.linked))
    {
      var ids := ListLinked(slots[iid].meta.linked);
      if !ValidTargets(iid, ids) {
        return ERR_GENERIC;
      }
      insts := insts[iid := insts[iid].(linked := ids)];
      result := 0;
    }

    method StoreDownloaded(iid: nat) returns (result: int)
      requires |insts| == IMAGE_SLOTS && iid < IMAGE_SLOTS
      modifies this`insts
      ensures (View(), result) == MarkDownloaded(old(View()), iid)
    {
      if !insts[iid].state.Idle? && !insts[iid].state.Downloading? {
        return ERR_GENERIC;
      }
      insts := insts[iid := insts[iid].(state := Downloaded, result := 0)];
      result := 0;
    }

    method ProcessOne(iid: nat) returns (result: int)
      requires Valid() && iid < IMAGE_SLOTS
      modifies this`insts, crc.entries
      ensures Valid() && (View(), result) == Process(old(View()), iid)
    {
      ghost var t := View();
      ProcessTidy(t, iid);
      result := ValidateFirmware(iid);
      if result == 0 {
        result := ProcessLinked(iid);
        if result == 0 {
          result := StoreDownloaded(iid);
        }
      }
    }

    /** The loop of preprocess_firmware; it fails if there is nothing to process. */
    method ProcessEach(ids: seq<nat>) returns (result: int)
      requires Valid() && forall k :: 0 <= k < |ids| ==> ids[k] < IMAGE_SLOTS
      modifies this`insts, crc.entries
      ensures Valid() && (ids != [] ==> (View(), result) == ProcessAll(old(View()), ids))
      ensures ids == [] ==> result == ERR_GENERIC
    {
      ghost var all := ProcessAll(View(), ids);
      result := ERR_GENERIC;
      for i := 0 to |ids|
        invariant Valid() && result == if i > 0 then 0 else ERR_GENERIC
        invariant all == ProcessAll(View(), ids[i..])
      {
        assert ids[i..][1..] == ids[i + 1..];
        result := ProcessOne(ids[i]);
        if result != 0 {
          return;
        }
      }
    }

    /** preprocess_firmware: ghost results are the table after unpacking and what unpacking returned. */
    method Preprocess(iid: nat) returns (result: int, ghost m: Table, ghost r: int)
      requires Valid() && iid < IMAGE_SLOTS && slots[iid].stream.Closed?
      modifies this`files, this`nextTemp, this`slots, this`insts, crc.entries
      ensures UnpackStep(old(View()), iid, m, r) && Valid() && Shaped(m) && !slots[iid].stream.Attached?
      ensures (View(), result) == if r != 0 then (m, r) else ProcessAll(m, Addressed(old(Bundle(View(), iid)).packages))
    {
      ghost var t := View();
      var downloaded;
      result, downloaded := UnpackInPlace(iid);
      m, r := View(), result;
      UnpackTidy(t, iid, m, r);
      if result == 0 {
        result := ProcessEach(downloaded);
      }
    }

    /** The conflict lists of all downloaded slots, as at the end of finish and reset. */
    method RecomputeConflicts(resetting: Option<nat>)
      requires Shaped(View()) && LinksOk(View())
      modifies this`insts
      ensures View() == Recomputed(old(View()), resetting)
    {
      ghost var t := View();
      ghost var u := Recomputed(t, resetting);
      for i := 0 to IMAGE_SLOTS
        invariant |insts| == IMAGE_SLOTS
        invariant forall j :: 0 <= j < IMAGE_SLOTS ==> insts[j] == if j < i then u.insts[j] else t.insts[j]
      {
        if insts[i].state.Downloaded? {
          SameConflicts(t, View(), i, resetting);
          ConflictListSpec(View(), i, resetting);
          var conflicting := BuildConflicts(Table(files, nextTemp, slots, insts), i, resetting);
          StoreConflicting(i, conflicting);
        }
      }
    }

    /** fw_update_common_finish. */
    method Finish(iid: nat) returns (result: int)
      requires Valid() && iid < IMAGE_SLOTS
      modifies this`files, this`nextTemp, this`slots, this`insts, crc.entries
      ensures Valid() && FinishStep(old(View()), iid, View(), result)
    {
      ghost var t := View();
      if slots[iid].stream.Closed? {
        return ERR_GENERIC;
      }
      slots := slots[iid := slots[iid].(stream := Closed)];
      ghost var c := View();
      CloseTidy(t, iid);
      ghost var m, r;
      result, m, r := Preprocess(iid);
      ghost var p := View();
      if result != 0 {
        DeleteFirmware(iid);
        DeleteTidy(p, iid);
      } else {
        RecomputeConflicts(None);
        RecomputedKeeps(p, None);
        TidyIgnoresRecords(p, View());
      }
      assert AfterUnpack(m, iid, Bundle(c, iid).packages, r, View(), result);
    }

    /** fw_update_common_reset. */
    method Reset(iid: nat)
      requires Valid() && iid < IMAGE_SLOTS
      modifies this`files, this`slots, this`insts
      ensures Valid() && View() == ResetStep(old(View()), iid)
    {
      ghost var t := View();
      CloseTidy(t, iid);
      slots := slots[iid := slots[iid].(stream := Closed)];
      DeleteTidy(View(), iid);
      DeleteFirmware(iid);
      ghost var d := View();
      ClearLinks(iid);
      ghost var e := View();
      TidyIgnoresRecords(d, e);
      Unlinked(d, e, iid);
      RecomputeConflicts(Some(iid));
      RecomputedKeeps(e, Some(iid));
      TidyIgnoresRecords(e, View());
    }

    /** Empty conflicting and linked lists, which the library always accepts. */
    method ClearLinks(iid: nat)
      requires |insts| == IMAGE_SLOTS && iid < IMAGE_SLOTS
      modifies this`insts
      ensures insts == old(insts)[iid := old(insts)[iid].(linked := [], conflicting := [])]
    {
      StoreConflicting(iid, []);
      insts := insts[iid := insts[iid].(linked := [])];
    }

    /** fw_update_common_open: the file is created and truncated. */
    method Open(iid: nat)
      requires Valid() && iid < IMAGE_SLOTS && slots[iid].stream.Closed?
      modifies this`files, this`nextTemp, this`slots
      ensures Valid() && View() == OpenStep(old(View()), iid)
      ensures slots[iid].stream.Attached? && HasFile(View(), iid) && File(View(), iid) == []
    {
      ghost var t := View();
      EnsureFile(iid);
      ghost var e := View();
      files := files[slots[iid].path.value := []];
      slots := slots[iid := slots[iid].(stream := Attached)];
      EnsurePathKeeps(t, iid);
      StoreKeeps(e, View(), iid);
      LinksSame(t, View());
    }

    /** fw_update_common_write. */
    method Write(iid: nat, data: seq<byte>) returns (result: int)
      requires Valid() && iid < IMAGE_SLOTS
      modifies this`files
      ensures Valid() && View() == WriteStep(old(View()), iid, data)
      ensures slots[iid].stream.Attached? ==> File(View(), iid) == old(File(View(), iid)) + data
      ensures !slots[iid].stream.Attached? ==> files == old(files)
      ensures result == if slots[iid].stream.Closed? then ERR_GENERIC else 0
    {
      if slots[iid].stream.Closed? {
        return ERR_GENERIC;
      }
      ghost var t := View();
      if slots[iid].stream.Attached? {
        assert HasFile(t, iid);
        files := files[slots[iid].path.value := files[slots[iid].path.value] + data];
        StoreKeeps(t, View(), iid);
        LinksSame(t, View());
      }
      result := 0;
    }
  }

  // ---------------------------------------------------------------- what the handlers need to know

  lemma NothingStaged(files: Files, paths: set<Path>)
    ensures files.Keys !! paths ==> files - paths == files
  {}

  lemma StagedWhereAddressed(rest: Files, ps: seq<Package>, staged: seq<Option<Staged>>)
    requires |staged| == IMAGE_SLOTS && forall i :: 0 <= i < IMAGE_SLOTS ==> OnStageAt(rest, ps, staged, i)
    ensures forall i :: 0 <= i < IMAGE_SLOTS ==> (staged[i].Some? <==> PackageFor(ps, i).Some?)
  {
    forall i | 0 <= i < IMAGE_SLOTS ensures staged[i].Some? <==> PackageFor(ps, i).Some? {
      assert OnStageAt(rest, ps, staged, i);
    }
  }

  lemma {:induction false} ClashIgnoresFiles(t: Table, u: Table, ps: seq<Package>, i: nat)
    requires Shaped(t) && u.insts == t.insts && i <= IMAGE_SLOTS
    ensures ClashFrom(u, ps, i) == ClashFrom(t, ps, i)
    decreases IMAGE_SLOTS - i
  {
    if i < IMAGE_SLOTS { ClashIgnoresFiles(t, u, ps, i + 1); }
  }

  lemma LinksSame(t: Table, u: Table)
    requires Shaped(t) && LinksOk(t) && u.insts == t.insts && Shaped(u)
    ensures LinksOk(u)
  {
    forall j | 0 <= j < IMAGE_SLOTS ensures ValidTargets(j, u.insts[j].linked) {
      assert ValidTargets(j, t.insts[j].linked);
    }
  }

  lemma Unlinked(t: Table, u: Table, i: nat)
    requires Shaped(t) && LinksOk(t) && i < IMAGE_SLOTS && Shaped(u) && u.insts[i].linked == []
    requires forall j :: 0 <= j < IMAGE_SLOTS && j != i ==> u.insts[j] == t.insts[j]
    ensures LinksOk(u)
  {
    forall j | 0 <= j < IMAGE_SLOTS ensures ValidTargets(j, u.insts[j].linked) {
      assert ValidTargets(j, t.insts[j].linked);
    }
  }

  lemma CloseTidy(t: Table, i: nat)
    requires Tidy(t) && LinksOk(t) && i < IMAGE_SLOTS
    ensures Tidy(CloseStream(t, i)) && LinksOk(CloseStream(t, i))
  {
    var c := CloseStream(t, i);
    NamesStayApart(t, c, i);
    forall j | 0 <= j < IMAGE_SLOTS && c.slots[j].stream.Attached? ensures HasFile(c, j) {
      assert HasFile(t, j);
    }
    LinksSame(t, c);
  }

  lemma DeleteTidy(t: Table, i: nat)
    requires Tidy(t) && LinksOk(t) && i < IMAGE_SLOTS && !t.slots[i].stream.Attached?
    ensures Tidy(DeleteFile(t, i)) && LinksOk(DeleteFile(t, i))
  {
    DeleteFileKeeps(t, i);
    LinksSame(t, DeleteFile(t, i));
  }

  lemma ProcessTidy(t: Table, i: nat)
    requires Tidy(t) && LinksOk(t) && i < IMAGE_SLOTS
    ensures Tidy(Process(t, i).0) && LinksOk(Process(t, i).0)
  {
    ProcessTouchesOne(t, i);
    var u := Process(t, i).0;
    TidyIgnoresRecords(t, u);
    forall j | 0 <= j < IMAGE_SLOTS ensures ValidTargets(j, u.insts[j].linked) {
      assert ValidTargets(j, t.insts[j].linked);
    }
  }

  lemma OutcomeTidy(c: Table, i: nat, u: Unpacked, l: Table, m: Table)
    requires Tidy(c) && LinksOk(c) && i < IMAGE_SLOTS && c.slots[i].stream.Closed? && Outcome(c, i, u, l, m, 0)
    ensures Tidy(m) && LinksOk(m) && !m.slots[i].stream.Attached?
  {
    LitterKeeps(c, l, u.packages);
    CommitDelivers(l, u.packages, 0);
    LinksSame(c, m);
    if PackageFor(u.packages, i).None? {
      assert SameSlot(c, l, i) && SameSlot(l, m, i);
    } else {
      assert Delivered(m, i, PackageFor(u.packages, i).value);
    }
  }

  lemma UnpackTidy(c: Table, i: nat, m: Table, r: int)
    requires Tidy(c) && LinksOk(c) && i < IMAGE_SLOTS && c.slots[i].stream.Closed? && UnpackStep(c, i, m, r)
    ensures Tidy(m) && LinksOk(m) && !m.slots[i].stream.Attached?
  {
    if r != 0 {
      UnpackFailureIsolated(c, i, m, r);
    } else {
      assert HasFile(c, i);
      var u := Bundle(c, i);
      var l: Table :| Outcome(c, i, u, l, m, 0);
      OutcomeTidy(c, i, u, l, m);
    }
  }

  lemma {:induction false} SameAbsent(t: Table, u: Table, linked: seq<nat>, resetting: Option<nat>)
    requires Shaped(t) && Shaped(u) && forall k :: 0 <= k < |linked| ==> linked[k] < IMAGE_SLOTS
    requires forall j :: 0 <= j < IMAGE_SLOTS ==> u.insts[j].state == t.insts[j].state
    ensures AbsentLinks(u, linked, resetting) == AbsentLinks(t, linked, resetting)
  {
    if linked != [] { SameAbsent(t, u, linked[..|linked| - 1], resetting); }
  }

  /** Conflict lists depend on states, links and versions only, so storing one does not change the next. */
  lemma SameConflicts(t: Table, u: Table, i: nat, resetting: Option<nat>)
    requires Shaped(t) && Shaped(u) && i < IMAGE_SLOTS && u.slots == t.slots && ValidTargets(i, t.insts[i].linked)
    requires forall j :: 0 <= j < IMAGE_SLOTS ==> u.insts[j].state == t.insts[j].state && u.insts[j].linked == t.insts[j].linked
    ensures ConflictList(u, i, resetting) == ConflictList(t, i, resetting)
  {
    SameAbsent(t, u, t.insts[i].linked, resetting);
  }

  lemma LastAddressed(ps: seq<Package>, p: Package, k: nat)
    requires k < IMAGE_SLOTS && p.meta.magic == MAGICS[k]
    ensures Addressed(ps + [p]) != []
  {
    AddressedIn(ps + [p], 0, k);
  }

  /** The stage after some packages; its next temporary name is free. */
  ghost predicate StageGrown(before: Files, n0: nat, files: Files, n: nat, ps: seq<Package>, staged: seq<Option<Staged>>) {
    StagedOk(before, n0, files, n, ps, staged) && AllKnown(n, files.Keys)
  }

  lemma StageGrows(before: Files, n0: nat, files: Files, n: nat, ps: seq<Package>, staged: seq<Option<Staged>>, p: Package, k: nat)
    requires StageGrown(before, n0, files, n, ps, staged) && k < IMAGE_SLOTS && p.meta.magic == MAGICS[k]
    ensures StageGrown(before, n0, files[Temp(n) := p.payload], n + 1, ps + [p], staged[k := Some(Staged(Temp(n), p.meta))]) == true
  {
    assert !Known(n, Temp(n));
    StagedSnoc(before, n0, files, n, ps, staged, p, k);
    KnownAfter(n, files, p.payload);
  }

  lemma StagedLater(before: Files, n0: nat, files: Files, n: nat, n': nat,
                    ps: seq<Package>, staged: seq<Option<Staged>>)
    requires StagedOk(before, n0, files, n, ps, staged) && n <= n'
    ensures StagedOk(before, n0, files, n', ps, staged) == true
  {}

  lemma KnownAfter(n: nat, files: Files, content: seq<byte>)
    requires AllKnown(n, files.Keys)
    ensures AllKnown(n + 1, files[Temp(n) := content].Keys)
  {
    var now := files[Temp(n) := content];
    forall p | p in now ensures Known(n + 1, p) {
      if p != Temp(n) { assert Known(n, p); }
    }
  }
}
