/** What a bundle delivers, in whatever order its packages come, and what a bad one leaves behind. */
module BundleDelivery {
  import opened Options
  import opened Bytes
  import opened Words
  import opened Crc32
  import opened FirmwareFormat
  import opened FirmwareSlots
  import opened FirmwareProtocol

  lemma MagicsDiffer(i: nat, j: nat)
    requires i < IMAGE_SLOTS && j < IMAGE_SLOTS && MAGICS[i] == MAGICS[j]
    ensures i == j
  {
    assert MAGICS[0][5] == 0x41 && MAGICS[1][5] == 0x54 && MAGICS[2][5] == 0x4F && MAGICS[3][5] == 0x4F;
    assert MAGICS[0][4] == 0x5F && MAGICS[1][4] == 0x5F && MAGICS[2][4] == 0x42 && MAGICS[3][4] == 0x4D;
  }

  lemma SlotOfMagic(magic: seq<byte>) returns (i: nat)
    requires magic in MAGICS
    ensures i < IMAGE_SLOTS && MAGICS[i] == magic
  {
    i :| 0 <= i < |MAGICS| && MAGICS[i] == magic;
  }

  ghost predicate OnePerSlot(ps: seq<Package>) {
    forall a, b :: 0 <= a < b < |ps| ==> ps[a].meta.magic != ps[b].meta.magic
  }

  /** A slot gets a package from the bundle that carries its magic. */
  lemma {:induction false} PackageForIn(ps: seq<Package>, i: nat)
    requires i < IMAGE_SLOTS
    ensures PackageFor(ps, i).Some? ==> PackageFor(ps, i).value in ps && PackageFor(ps, i).value.meta.magic == MAGICS[i]
    ensures PackageFor(ps, i).None? ==> forall p :: p in ps ==> p.meta.magic != MAGICS[i]
  {
    if ps != [] {
      var n := |ps| - 1;
      PackageForIn(ps[..n], i);
      assert ps == ps[..n] + [ps[n]];
    }
  }

  /** Of several packages for a slot the last one counts. */
  lemma {:induction false} LastPackageWins(ps: seq<Package>, i: nat, k: nat)
    requires i < IMAGE_SLOTS && k < |ps| && ps[k].meta.magic == MAGICS[i] && forall n :: k < n < |ps| ==> ps[n].meta.magic != MAGICS[i]
    ensures PackageFor(ps, i) == Some(ps[k])
    decreases |ps|
  {
    if k < |ps| - 1 { LastPackageWins(ps[..|ps| - 1], i, k); }
  }

  /** With at most one package per slot, that package is the only candidate. */
  lemma PackageForOnly(ps: seq<Package>, i: nat, p: Package)
    requires i < IMAGE_SLOTS && OnePerSlot(ps) && p in ps && p.meta.magic == MAGICS[i]
    ensures PackageFor(ps, i) == Some(p)
  {
    PackageForIn(ps, i);
    var q := PackageFor(ps, i).value;
    var a :| 0 <= a < |ps| && ps[a] == p;
    var b :| 0 <= b < |ps| && ps[b] == q;
    if a < b { assert ps[a].meta.magic != ps[b].meta.magic; }
    if b < a { assert ps[b].meta.magic != ps[a].meta.magic; }
  }

  /** The order of the packages does not matter. */
  lemma OrderIrrelevant(ps: seq<Package>, qs: seq<Package>, i: nat)
    requires i < IMAGE_SLOTS && OnePerSlot(ps) && OnePerSlot(qs) && multiset(ps) == multiset(qs)
    ensures PackageFor(ps, i) == PackageFor(qs, i)
  {
    PackageForIn(ps, i);
    PackageForIn(qs, i);
    if PackageFor(ps, i).Some? {
      InBoth(ps, qs, PackageFor(ps, i).value);
      PackageForOnly(qs, i, PackageFor(ps, i).value);
    }
    if PackageFor(qs, i).Some? {
      InBoth(qs, ps, PackageFor(qs, i).value);
      PackageForOnly(ps, i, PackageFor(qs, i).value);
    }
  }

  lemma InBoth(ps: seq<Package>, qs: seq<Package>, p: Package)
    requires multiset(ps) == multiset(qs) && p in ps
    ensures p in qs
  {
    assert p in multiset(ps);
  }

  lemma {:induction false} CommitOrderIrrelevant(t: Table, ps: seq<Package>, qs: seq<Package>, k: nat)
    requires Shaped(t) && k <= IMAGE_SLOTS && OnePerSlot(ps) && OnePerSlot(qs) && multiset(ps) == multiset(qs)
    ensures CommitFrom(t, ps, k) == CommitFrom(t, qs, k)
    decreases IMAGE_SLOTS - k
  {
    if k < IMAGE_SLOTS {
      OrderIrrelevant(ps, qs, k);
      match PackageFor(ps, k)
      case None => CommitOrderIrrelevant(t, ps, qs, k + 1);
      case Some(p) => CommitOrderIrrelevant(CommitOne(t, k, p), ps, qs, k + 1);
    }
  }

  /**
   * One to four legal packages for different slots, none of them downloaded yet, in bundle format:
   * each slot ends up with exactly its payload and metadata, and every other slot is untouched.
   */
  lemma BundleDelivered(c: Table, i: nat, ps: seq<Package>, trailing: seq<byte>, m: Table, r: int)
    requires Inv(c) && i < IMAGE_SLOTS && c.slots[i].stream.Closed? && HasFile(c, i)
    requires 1 <= |ps| <= IMAGE_SLOTS && LegalAll(ps) && OnePerSlot(ps) && File(c, i) == EncodeBundle(ps) + trailing
    requires forall j :: 0 <= j < IMAGE_SLOTS && PackageFor(ps, j).Some? ==> !IsDownloaded(c, j)
    requires UnpackStep(c, i, m, r)
    ensures r == 0 && Shaped(m)
    ensures forall k, j :: 0 <= k < |ps| && 0 <= j < IMAGE_SLOTS && ps[k].meta.magic == MAGICS[j] ==> Delivered(m, j, ps[k])
    ensures forall j :: 0 <= j < IMAGE_SLOTS && PackageFor(ps, j).None? ==> SameSlot(c, m, j)
  {
    BundleRoundTrip(ps, trailing);
    DeliveredAsRead(c, i, ps, m, r);
  }

  /** The same for a lone package that has come without a bundle around it. */
  lemma SingleDelivered(c: Table, i: nat, p: Package, j: nat, m: Table, r: int)
    requires Inv(c) && i < IMAGE_SLOTS && c.slots[i].stream.Closed? && HasFile(c, i)
    requires LonePackage(p) && j < IMAGE_SLOTS && p.meta.magic == MAGICS[j] && File(c, i) == EncodePackage(p)
    requires !IsDownloaded(c, j) && UnpackStep(c, i, m, r)
    ensures r == 0 && Shaped(m) && Delivered(m, j, p)
    ensures forall k :: 0 <= k < IMAGE_SLOTS && k != j ==> SameSlot(c, m, k)
  {
    SingleRoundTrip(p);
    forall k | 0 <= k < IMAGE_SLOTS && PackageFor([p], k).Some? ensures k == j {
      PackageForIn([p], k);
      MagicsDiffer(k, j);
    }
    DeliveredAsRead(c, i, [p], m, r);
    assert [p][0] == p;
    forall k | 0 <= k < IMAGE_SLOTS && k != j ensures SameSlot(c, m, k) {
      assert PackageFor([p], k).None?;
    }
  }

  lemma DeliveredAsRead(c: Table, i: nat, ps: seq<Package>, m: Table, r: int)
    requires Inv(c) && i < IMAGE_SLOTS && c.slots[i].stream.Closed? && HasFile(c, i)
    requires OnePerSlot(ps) && ReadBundle(File(c, i)) == Unpacked(ps, 0)
    requires forall j :: 0 <= j < IMAGE_SLOTS && PackageFor(ps, j).Some? ==> !IsDownloaded(c, j)
    requires UnpackStep(c, i, m, r)
    ensures r == 0 && Shaped(m)
    ensures forall k, j :: 0 <= k < |ps| && 0 <= j < IMAGE_SLOTS && ps[k].meta.magic == MAGICS[j] ==> Delivered(m, j, ps[k])
    ensures forall j :: 0 <= j < IMAGE_SLOTS && PackageFor(ps, j).None? ==> SameSlot(c, m, j)
  {
    var l: Table :| Outcome(c, i, Unpacked(ps, 0), l, m, r);
    OutcomeDelivers(c, i, Unpacked(ps, 0), l, m, r);
  }

  lemma OutcomeDelivers(c: Table, i: nat, u: Unpacked, l: Table, m: Table, r: int)
    requires Inv(c) && i < IMAGE_SLOTS && Outcome(c, i, u, l, m, r) && u.error == 0 && OnePerSlot(u.packages)
    requires forall j :: 0 <= j < IMAGE_SLOTS && PackageFor(u.packages, j).Some? ==> !IsDownloaded(c, j)
    ensures r == 0 && Shaped(m)
    ensures forall k, j :: 0 <= k < |u.packages| && 0 <= j < IMAGE_SLOTS && u.packages[k].meta.magic == MAGICS[j] ==>
              Delivered(m, j, u.packages[k])
    ensures forall j :: 0 <= j < IMAGE_SLOTS && PackageFor(u.packages, j).None? ==> SameSlot(c, m, j)
  {
    var ps := u.packages;
    NoClashAtAll(c, ps, 0);
    OutcomeSuccess(c, i, u, l, m);
    forall k, j | 0 <= k < |ps| && 0 <= j < IMAGE_SLOTS && ps[k].meta.magic == MAGICS[j] ensures Delivered(m, j, ps[k]) {
      PackageForOnly(ps, j, ps[k]);
      assert Delivered(m, j, PackageFor(ps, j).value);
    }
  }

  lemma {:induction false} NoClashAtAll(t: Table, ps: seq<Package>, k: nat)
    requires Shaped(t) && k <= IMAGE_SLOTS
    requires forall j :: 0 <= j < IMAGE_SLOTS && PackageFor(ps, j).Some? ==> !IsDownloaded(t, j)
    ensures ClashFrom(t, ps, k).None?
    decreases IMAGE_SLOTS - k
  {
    if k < IMAGE_SLOTS { NoClashAtAll(t, ps, k + 1); }
  }

  // ---------------------------------------------------------------- what is left behind

  function Present(ps: seq<Package>, i: nat): nat
    requires i < IMAGE_SLOTS
  {
    if PackageFor(ps, i).Some? then 1 else 0
  }

  lemma AddressedCount(ps: seq<Package>)
    ensures |Addressed(ps)| == Present(ps, 0) + Present(ps, 1) + Present(ps, 2) + Present(ps, 3)
  {
    assert |AddressedFrom(ps, 4)| == 0;
    assert |AddressedFrom(ps, 3)| == Present(ps, 3) + |AddressedFrom(ps, 4)|;
    assert |AddressedFrom(ps, 2)| == Present(ps, 2) + |AddressedFrom(ps, 3)|;
    assert |AddressedFrom(ps, 1)| == Present(ps, 1) + |AddressedFrom(ps, 2)|;
    assert |AddressedFrom(ps, 0)| == Present(ps, 0) + |AddressedFrom(ps, 1)|;
  }

  lemma PresentSnoc(ps: seq<Package>, i: nat, j: nat)
    requires ps != [] && i < IMAGE_SLOTS && j < IMAGE_SLOTS && ps[|ps| - 1].meta.magic == MAGICS[j]
    ensures Present(ps, i) == if i == j then 1 else Present(ps[..|ps| - 1], i)
  {
    if ps[|ps| - 1].meta.magic == MAGICS[i] { MagicsDiffer(i, j); }
  }

  ghost predicate KnownMagics(ps: seq<Package>) { forall k :: 0 <= k < |ps| ==> ps[k].meta.magic in MAGICS }

  /** No package is superseded if and only if no slot is named twice. */
  lemma {:induction false} SupersededNone(ps: seq<Package>)
    requires KnownMagics(ps)
    ensures Superseded(ps) >= 0
    ensures Superseded(ps) == 0 <==> OnePerSlot(ps)
  {
    AddressedCount(ps);
    if ps != [] {
      var n := |ps| - 1;
      var front := ps[..n];
      SupersededNone(front);
      AddressedCount(front);
      var j := SlotOfMagic(ps[n].meta.magic);
      PresentSnoc(ps, 0, j);
      PresentSnoc(ps, 1, j);
      PresentSnoc(ps, 2, j);
      PresentSnoc(ps, 3, j);
      assert Superseded(ps) == Superseded(front) + Present(front, j);
      PackageForIn(front, j);
      OnePerSlotSnoc(ps);
    }
  }

  lemma OnePerSlotSnoc(ps: seq<Package>)
    requires ps != []
    ensures var n := |ps| - 1;
            OnePerSlot(ps) <==> OnePerSlot(ps[..n]) && forall p :: p in ps[..n] ==> p.meta.magic != ps[n].meta.magic
  {
    var n := |ps| - 1;
    if OnePerSlot(ps) {
      forall p | p in ps[..n] ensures p.meta.magic != ps[n].meta.magic {
        var a :| 0 <= a < n && ps[a] == p;
      }
    }
    if OnePerSlot(ps[..n]) && (forall p :: p in ps[..n] ==> p.meta.magic != ps[n].meta.magic) {
      forall a, b | 0 <= a < b < |ps| ensures ps[a].meta.magic != ps[b].meta.magic {
        if b == n { assert ps[a] in ps[..n]; } else { assert ps[..n][a].meta.magic != ps[..n][b].meta.magic; }
      }
    }
  }

  lemma {:induction false} TakenMagics(s: seq<byte>, declared: seq<nat>)
    ensures KnownMagics(TakeAll(s, declared).packages)
    decreases |declared|
  {
    if declared != [] && TakePackage(s, declared[0]).Good? {
      TakenMagics(s[PackageLen(TakePackage(s, declared[0]).value)..], declared[1..]);
    }
  }

  lemma ReadMagics(s: seq<byte>)
    ensures KnownMagics(ReadBundle(s).packages)
  {
    TakenMagics(s, [0]);
    if |s| >= 12 {
      var rest, count := s[12..], FromBe16(s[10..12]);
      TakenMagics(rest, [0]);
      if ParseLengths(rest, count).Good? { TakenMagics(rest[4 * count..], ParseLengths(rest, count).value); }
    }
  }

  ghost function SlotPaths(t: Table): set<Path>
    requires Shaped(t)
  {
    set j | 0 <= j < IMAGE_SLOTS && t.slots[j].path.Some? :: t.slots[j].path.value
  }

  /** Files that have come since table c and that no slot refers to. */
  ghost function Orphans(c: Table, t: Table): set<Path>
    requires Shaped(t)
  {
    t.files.Keys - c.files.Keys - SlotPaths(t)
  }

  /** These paths are no slot's business and will not be drawn again. */
  ghost predicate Loose(t: Table, paths: set<Path>)
    requires Shaped(t)
  {
    AllKnown(t.nextTemp, paths) && forall j :: 0 <= j < IMAGE_SLOTS ==> Names(t.slots[j]) !! paths
  }

  lemma PathsLoose(t: Table, paths: set<Path>)
    requires Shaped(t) && Loose(t, paths)
    ensures SlotPaths(t) !! paths
  {
    forall p | p in SlotPaths(t) ensures p !in paths {
      var j :| 0 <= j < IMAGE_SLOTS && t.slots[j].path.Some? && t.slots[j].path.value == p;
      assert p in Names(t.slots[j]);
    }
  }

  /** Giving a slot a path: the path and perhaps a file under it are new, the loose paths stay loose. */
  lemma EnsureLoose(t: Table, i: nat, paths: set<Path>)
    requires Shaped(t) && i < IMAGE_SLOTS && Loose(t, paths)
    ensures var v := EnsurePath(t, i);
            && Loose(v, paths) && v.slots[i].path.value !in paths
            && SlotPaths(v) == SlotPaths(t) + {v.slots[i].path.value}
            && v.files.Keys + {v.slots[i].path.value} == t.files.Keys + {v.slots[i].path.value}
  {
    var v := EnsurePath(t, i);
    var p := v.slots[i].path.value;
    assert !Known(t.nextTemp, Temp(t.nextTemp));
    KnownGrows(t.nextTemp, v.nextTemp, paths);
    assert Names(t.slots[i]) !! paths && p in Names(v.slots[i]);
    forall j | 0 <= j < IMAGE_SLOTS ensures Names(v.slots[j]) !! paths {
      assert Names(t.slots[j]) !! paths;
    }
    PathAdded(t, v, i);
  }

  lemma PathAdded(t: Table, v: Table, i: nat)
    requires Shaped(t) && Shaped(v) && i < IMAGE_SLOTS && v.slots[i].path.Some?
    requires t.slots[i].path.Some? ==> v.slots[i].path == t.slots[i].path
    requires forall j :: 0 <= j < IMAGE_SLOTS && j != i ==> v.slots[j].path == t.slots[j].path
    ensures SlotPaths(v) == SlotPaths(t) + {v.slots[i].path.value}
  {
    var now, was := SlotPaths(v), SlotPaths(t);
    forall q | q in now ensures q in was || q == v.slots[i].path.value {
      var j :| 0 <= j < IMAGE_SLOTS && v.slots[j].path.Some? && v.slots[j].path.value == q;
      if j != i { assert t.slots[j].path.value == q; }
    }
    forall q | q in was ensures q in now {
      var j :| 0 <= j < IMAGE_SLOTS && t.slots[j].path.Some? && t.slots[j].path.value == q;
      assert v.slots[j].path.value == q;
    }
  }

  lemma CommitOneLoose(t: Table, i: nat, p: Package, paths: set<Path>)
    requires Shaped(t) && i < IMAGE_SLOTS && Loose(t, paths)
    ensures var u := CommitOne(t, i, p);
            && Loose(u, paths) && exists q :: q !in paths && SlotPaths(u) == SlotPaths(t) + {q} && u.files.Keys == t.files.Keys + {q}
  {
    var v, u := EnsurePath(t, i), CommitOne(t, i, p);
    EnsureLoose(t, i, paths);
    PathAdded(v, u, i);
    forall j | 0 <= j < IMAGE_SLOTS ensures Names(u.slots[j]) !! paths {
      assert Names(v.slots[j]) !! paths;
    }
    var q := v.slots[i].path.value;
    assert u.files.Keys == v.files.Keys + {q};
  }

  /** Committing makes and takes away no orphans. */
  lemma {:induction false} CommitOrphans(c: Table, t: Table, ps: seq<Package>, k: nat, paths: set<Path>)
    requires Shaped(t) && k <= IMAGE_SLOTS && Loose(t, paths) && Orphans(c, t) == paths
    ensures Orphans(c, CommitFrom(t, ps, k)) == paths
    decreases IMAGE_SLOTS - k
  {
    if k < IMAGE_SLOTS {
      match PackageFor(ps, k)
      case None => CommitOrphans(c, t, ps, k + 1, paths);
      case Some(p) =>
        var u := CommitOne(t, k, p);
        CommitOneLoose(t, k, p, paths);
        var q :| q !in paths && SlotPaths(u) == SlotPaths(t) + {q} && u.files.Keys == t.files.Keys + {q};
        assert Orphans(c, u) == Orphans(c, t) - {q};
        CommitOrphans(c, u, ps, k + 1, paths);
    }
  }

  lemma LitterLoose(c: Table, l: Table, ps: seq<Package>)
    requires Tidy(c) && Littered(c, l, ps)
    ensures Shaped(l) && Loose(l, l.files.Keys - c.files.Keys) && Orphans(c, l) == l.files.Keys - c.files.Keys
    ensures |Orphans(c, l)| == Superseded(ps)
  {
    var paths := l.files.Keys - c.files.Keys;
    forall j | 0 <= j < IMAGE_SLOTS ensures Names(l.slots[j]) !! paths {
      assert AllKnown(c.nextTemp, Names(c.slots[j]));
      forall p | p in Names(l.slots[j]) ensures p !in paths { assert Known(c.nextTemp, p); }
    }
    PathsLoose(l, paths);
  }

  /** Deleting a slot's file, path and all, makes no orphan. */
  lemma DeleteOrphans(c: Table, t: Table, i: nat, paths: set<Path>)
    requires Shaped(t) && i < IMAGE_SLOTS && Loose(t, paths) && Orphans(c, t) == paths
    requires forall j :: 0 <= j < IMAGE_SLOTS && j != i ==> Names(t.slots[i]) !! Names(t.slots[j])
    ensures Orphans(c, DeleteFile(t, i)) == paths
  {
    var u := DeleteFile(t, i);
    if t.slots[i].path.Some? {
      var q := t.slots[i].path.value;
      assert q in Names(t.slots[i]);
      PathsLoose(t, paths);
      PathDropped(t, u, i);
    }
  }

  lemma PathDropped(t: Table, u: Table, i: nat)
    requires Shaped(t) && Shaped(u) && i < IMAGE_SLOTS && t.slots[i].path.Some? && u.slots[i].path.None?
    requires forall j :: 0 <= j < IMAGE_SLOTS && j != i ==> u.slots[j] == t.slots[j] && Names(t.slots[i]) !! Names(t.slots[j])
    ensures SlotPaths(u) == SlotPaths(t) - {t.slots[i].path.value}
  {
    var q, now, was := t.slots[i].path.value, SlotPaths(u), SlotPaths(t);
    assert q in Names(t.slots[i]);
    forall p | p in now ensures p in was && p != q {
      var j :| 0 <= j < IMAGE_SLOTS && u.slots[j].path.Some? && u.slots[j].path.value == p;
      assert p in Names(t.slots[j]);
    }
    forall p | p in was && p != q ensures p in now {
      var j :| 0 <= j < IMAGE_SLOTS && t.slots[j].path.Some? && t.slots[j].path.value == p;
      assert u.slots[j].path.value == p;
    }
  }

  lemma OrphansIgnoreRecords(c: Table, t: Table, u: Table)
    requires Shaped(t) && Shaped(u) && u.files == t.files && u.slots == t.slots
    ensures Orphans(c, u) == Orphans(c, t)
  {}

  lemma FailedFiles(c: Table, i: nat, u: Unpacked, l: Table, m: Table, r: int)
    requires Shaped(c) && i < IMAGE_SLOTS && Outcome(c, i, u, l, m, r) && r != 0
    ensures Shaped(m) && m.files == DeleteFile(l, i).files && m.slots == DeleteFile(l, i).slots
  {}

  lemma NamesApart(c: Table, l: Table, i: nat)
    requires Tidy(c) && i < IMAGE_SLOTS && l.slots == c.slots
    ensures forall j :: 0 <= j < IMAGE_SLOTS && j != i ==> Names(l.slots[i]) !! Names(l.slots[j])
  {}

  lemma OutcomeOrphans(c: Table, i: nat, u: Unpacked, l: Table, m: Table, r: int)
    requires Tidy(c) && i < IMAGE_SLOTS && Outcome(c, i, u, l, m, r)
    ensures Shaped(m) && |Orphans(c, m)| == Superseded(u.packages)
  {
    LitterLoose(c, l, u.packages);
    var paths := Orphans(c, l);
    if r == 0 {
      CommitOrphans(c, l, u.packages, 0, paths);
    } else {
      FailedFiles(c, i, u, l, m, r);
      NamesApart(c, l, i);
      DeleteOrphans(c, l, i, paths);
      OrphansIgnoreRecords(c, DeleteFile(l, i), m);
    }
  }

  /**
   * Whether unpacking succeeds or fails, the files it leaves that no slot refers to are as many as packages
   * were superseded: none if and only if the bundle names no slot twice.
   */
  lemma NothingLeftBehind(c: Table, i: nat, m: Table, r: int)
    requires Tidy(c) && i < IMAGE_SLOTS && UnpackStep(c, i, m, r)
    ensures Shaped(m) && |Orphans(c, m)| == Superseded(Bundle(c, i).packages)
    ensures Orphans(c, m) == {} <==> OnePerSlot(Bundle(c, i).packages)
  {
    var u := Bundle(c, i);
    if HasFile(c, i) {
      var l: Table :| Outcome(c, i, u, l, m, r);
      OutcomeOrphans(c, i, u, l, m, r);
      ReadMagics(File(c, i));
    } else {
      AddressedCount([]);
    }
    SupersededNone(u.packages);
  }

  /** A bundle that names no slot twice, if it fails, costs the receiver its file and leaves all other files as they are. */
  lemma FailureLeavesNothing(c: Table, i: nat, m: Table, r: int)
    requires Tidy(c) && LinksOk(c) && i < IMAGE_SLOTS && c.slots[i].stream.Closed? && HasFile(c, i)
    requires UnpackStep(c, i, m, r) && r != 0 && OnePerSlot(Bundle(c, i).packages)
    ensures m.files.Keys == c.files.Keys - {c.slots[i].path.value}
  {
    UnpackFailureIsolated(c, i, m, r);
    ReadMagics(File(c, i));
    SupersededNone(Bundle(c, i).packages);
    assert m.files.Keys - c.files.Keys == {};
  }

  // ---------------------------------------------------------------- a bundle that leaves its receiver out

  const QUIET: Instance := Instance(Idle, 0, [], [])
  const UNUSED: Slot := Slot(None, None, NO_META, Closed, [0x31])
  const TEE_IMAGE: Package :=
    Package(Meta(MAGICS[TEE], HEADER_VER_SINGLE, 0, 0, [0xFF, 0xFF, 0xFF, 0xFF, 0xFF, 0xFF, 0xFF, 0xFF], [0x31]), [])

  /** An empty TEE image, correct in every respect, has been downloaded through the application slot. */
  ghost const MISDIRECTED: Table :=
    Table(map[Temp(0) := EncodePackage(TEE_IMAGE)], 1,
          [Slot(Some(Temp(0)), None, NO_META, Attached, [0x31]), UNUSED, UNUSED, UNUSED], [QUIET, QUIET, QUIET, QUIET])

  lemma EmptyCrc()
    ensures Crc([]) == 0
  {
    assert Crc([]) == Xor(ONES, ONES);
    XorSelf(ONES);
  }

  lemma MisdirectedInOrder()
    ensures Inv(MISDIRECTED) && HasFile(MISDIRECTED, APP) && !Vouches(MISDIRECTED, APP)
  {
    var t := MISDIRECTED;
    assert MAGICS[0][0] == 0x41;
    assert forall i :: 1 <= i < IMAGE_SLOTS ==> t.slots[i] == UNUSED;
    assert forall i :: 0 <= i < IMAGE_SLOTS ==> t.insts[i] == QUIET;
  }

  /** A lone package for the TEE addresses the TEE slot and no other. */
  lemma TeeOnly(p: Package)
    requires p.meta.magic == MAGICS[TEE]
    ensures PackageFor([p], 0).None? && PackageFor([p], 1) == Some(p) && PackageFor([p], 2).None? && PackageFor([p], 3).None?
    ensures Addressed([p]) == [1] && Superseded([p]) == 0
  {
    PackageForIn([p], 0);
    PackageForIn([p], 2);
    PackageForIn([p], 3);
    assert [p][0] == p;
    if PackageFor([p], 0).Some? { MagicsDiffer(0, 1); }
    if PackageFor([p], 2).Some? { MagicsDiffer(2, 1); }
    if PackageFor([p], 3).Some? { MagicsDiffer(3, 1); }
    assert AddressedFrom([p], 4) == [];
    assert AddressedFrom([p], 3) == [];
    assert AddressedFrom([p], 2) == [];
    assert AddressedFrom([p], 1) == [1];
  }

  lemma NoLinks(linked: seq<byte>)
    requires forall k :: 0 <= k < |linked| ==> linked[k] == 0xFF
    ensures LinkedIds(linked) == []
  {
    if linked != [] {
      assert Value(linked[0]) == 255;
      NoLinks(linked[1..]);
    }
  }

  lemma TeeValid(m: Table)
    requires Shaped(m) && Delivered(m, TEE, TEE_IMAGE)
    ensures Validate(m, TEE) == 0 && LinkedIds(m.slots[TEE].meta.linked) == []
  {
    EmptyCrc();
    NoLinks(TEE_IMAGE.meta.linked);
  }

  lemma ProcessOnly(m: Table, j: nat)
    requires Shaped(m) && j < IMAGE_SLOTS
    ensures ProcessAll(m, [j]).1 == Process(m, j).1
  {
    var (v, e) := Process(m, j);
    assert [j][1..] == [] && ProcessAll(v, []) == (v, 0);
  }

  /** Its processing succeeds: the TEE slot is validated and marked. */
  lemma TeeProcessed(m: Table)
    requires Shaped(m) && Delivered(m, TEE, TEE_IMAGE) && m.insts[TEE] == QUIET
    ensures ProcessAll(m, [TEE]).1 == 0
  {
    TeeValid(m);
    ProcessOnly(m, TEE);
  }

  /** A readable bundle that names no slot twice, with nothing downloaded yet, can be unpacked. */
  lemma CanUnpack(c: Table, i: nat, ps: seq<Package>) returns (m: Table)
    requires Inv(c) && i < IMAGE_SLOTS && HasFile(c, i) && ReadBundle(File(c, i)) == Unpacked(ps, 0) && Superseded(ps) == 0
    requires forall j :: 0 <= j < IMAGE_SLOTS ==> !IsDownloaded(c, j)
    ensures UnpackStep(c, i, m, 0) && Inv(m) && m.insts == c.insts && AllDelivered(m, ps)
  {
    var l := c.(nextTemp := c.nextTemp + |ps|);
    assert Littered(c, l, ps) by { assert l.files.Keys - c.files.Keys == {}; }
    NoClashAtAll(c, ps, 0);
    m := CommitFrom(l, ps, 0);
    assert Outcome(c, i, Unpacked(ps, 0), l, m, 0);
    OutcomeSuccess(c, i, Unpacked(ps, 0), l, m);
  }

  lemma FinishOf(t: Table, i: nat, m: Table, ps: seq<Package>) returns (u: Table)
    requires Inv(t) && i < IMAGE_SLOTS && !t.slots[i].stream.Closed? && Inv(m)
    requires UnpackStep(CloseStream(t, i), i, m, 0) && ps == Bundle(CloseStream(t, i), i).packages
    requires AllDelivered(m, ps)
    requires ProcessAll(m, Addressed(ps)).1 == 0
    ensures FinishStep(t, i, u, 0)
  {
    AddressedClosed(m, ps);
    ProcessAllKeeps(m, Addressed(ps));
    u := Recomputed(ProcessAll(m, Addressed(ps)).0, None);
    assert AfterUnpack(m, i, ps, 0, u, 0);
  }

  lemma MisdirectedClosed()
    ensures var c := CloseStream(MISDIRECTED, APP);
            && Inv(c) && HasFile(c, APP) && File(c, APP) == EncodePackage(TEE_IMAGE)
            && (forall j :: 0 <= j < IMAGE_SLOTS ==> c.insts[j] == QUIET)
  {
    MisdirectedInOrder();
    CloseKeeps(MISDIRECTED, APP);
  }

  /**
   * The finish succeeds, the library marks the application slot as downloaded, and its metadata
   * does not vouch for its file: the condition in SuccessfulFinishInOrder is needed.
   */
  lemma ReceiverLeftOut() returns (u: Table)
    ensures Inv(MISDIRECTED) && FinishStep(MISDIRECTED, APP, u, 0)
    ensures Shaped(u) && !Inv(LibraryMark(u, APP, 0))
  {
    var t, c, ps := MISDIRECTED, CloseStream(MISDIRECTED, APP), [TEE_IMAGE];
    MisdirectedInOrder();
    MisdirectedClosed();
    TeeOnly(TEE_IMAGE);
    SingleRoundTrip(TEE_IMAGE);
    assert Bundle(c, APP) == Unpacked(ps, 0);
    var m := CanUnpack(c, APP, ps);
    assert Delivered(m, TEE, PackageFor(ps, TEE).value);
    TeeProcessed(m);
    u := FinishOf(t, APP, m, ps);
    SuccessfulFinishInOrder(t, APP, u);
  }

  // ---------------------------------------------------------------- a bundle that names a slot twice

  /** The same image twice in one bundle. */
  const TEE_TWICE: seq<Package> := [TEE_IMAGE, TEE_IMAGE]

  ghost const DOUBLED: Table :=
    Table(map[Temp(0) := EncodeBundle(TEE_TWICE)], 1,
          [Slot(Some(Temp(0)), None, NO_META, Closed, [0x31]), UNUSED, UNUSED, UNUSED], [QUIET, QUIET, QUIET, QUIET])

  lemma TwiceAddressed()
    ensures LegalAll(TEE_TWICE) && Addressed(TEE_TWICE) == [1] && Superseded(TEE_TWICE) == 1
  {
    TeeOnly(TEE_IMAGE);
    forall k | 0 <= k < IMAGE_SLOTS && k != 1 ensures PackageFor(TEE_TWICE, k).None? {
      PackageForIn(TEE_TWICE, k);
      if PackageFor(TEE_TWICE, k).Some? { MagicsDiffer(k, 1); }
    }
    assert TEE_TWICE[|TEE_TWICE| - 1] == TEE_IMAGE;
    assert AddressedFrom(TEE_TWICE, 4) == [];
    assert AddressedFrom(TEE_TWICE, 3) == [];
    assert AddressedFrom(TEE_TWICE, 2) == [];
    assert AddressedFrom(TEE_TWICE, 1) == [1];
  }

  lemma DoubledTidy()
    ensures Tidy(DOUBLED) && HasFile(DOUBLED, APP) && File(DOUBLED, APP) == EncodeBundle(TEE_TWICE)
    ensures forall j :: 0 <= j < IMAGE_SLOTS ==> DOUBLED.insts[j] == QUIET
  {
    assert forall i :: 1 <= i < IMAGE_SLOTS ==> DOUBLED.slots[i] == UNUSED;
    assert forall i :: 0 <= i < IMAGE_SLOTS ==> DOUBLED.insts[i] == QUIET;
  }

  /** It unpacks without an error, and one file stays behind that no slot refers to. */
  lemma SlotNamedTwice() returns (m: Table)
    ensures Tidy(DOUBLED) && UnpackStep(DOUBLED, APP, m, 0)
    ensures Shaped(m) && |Orphans(DOUBLED, m)| == 1
  {
    TwiceAddressed();
    DoubledTidy();
    var c, ps := DOUBLED, TEE_TWICE;
    BundleRoundTrip(ps, []);
    assert EncodeBundle(ps) + [] == EncodeBundle(ps);
    assert Bundle(c, APP) == Unpacked(ps, 0);
    var l := c.(files := c.files[Temp(1) := []], nextTemp := 3);
    assert l.files.Keys - c.files.Keys == {Temp(1)};
    NoClashAtAll(c, ps, 0);
    m := CommitFrom(l, ps, 0);
    assert Outcome(c, APP, Unpacked(ps, 0), l, m, 0);
    NothingLeftBehind(c, APP, m, 0);
  }
}
