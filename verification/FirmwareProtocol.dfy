/**
 * What the handlers of demo/advanced_firmware_update.c do to the table of slots, step by step,
 * and what holds in every run.
 */
module FirmwareProtocol {
  import opened ErrorCodes
  import opened Options
  import opened Bytes
  import opened Crc32
  import opened FirmwareFormat
  import opened FirmwareSlots
  import opened Conflicts

  // ---------------------------------------------------------------- the steps

  ghost predicate LinksOk(t: Table)
    requires Shaped(t)
  {
    forall i :: 0 <= i < IMAGE_SLOTS ==> ValidTargets(i, t.insts[i].linked)
  }

  /** The conflict lists of all downloaded slots, computed afresh. */
  ghost function Recomputed(t: Table, resetting: Option<nat>): Table
    requires Shaped(t) && LinksOk(t)
  {
    t.(insts := seq(IMAGE_SLOTS, i requires 0 <= i < IMAGE_SLOTS =>
         if IsDownloaded(t, i) then t.insts[i].(conflicting := ConflictList(t, i, resetting)) else t.insts[i]))
  }

  function OpenStep(t: Table, i: nat): Table
    requires |t.slots| == IMAGE_SLOTS && i < IMAGE_SLOTS
  {
    var u := EnsurePath(t, i);
    u.(files := u.files[u.slots[i].path.value := []], slots := u.slots[i := u.slots[i].(stream := Attached)])
  }

  function WriteStep(t: Table, i: nat, data: seq<byte>): Table
    requires |t.slots| == IMAGE_SLOTS && i < IMAGE_SLOTS
  {
    var s := t.slots[i];
    if s.stream.Attached? && s.path.Some? && s.path.value in t.files
    then t.(files := t.files[s.path.value := t.files[s.path.value] + data]) else t
  }

  /** What finish does after unpacking: m is the table then, r the result, ps the packages. */
  ghost predicate AfterUnpack(m: Table, i: nat, ps: seq<Package>, r: int, t': Table, result: int)
    requires Shaped(m) && i < IMAGE_SLOTS
  {
    if r != 0 then t' == DeleteFile(m, i) && result == r
    else
      var (p, e) := ProcessAll(m, Addressed(ps));
      if e != 0 then t' == DeleteFile(p, i) && result == e
      else LinksOk(p) && t' == Recomputed(p, None) && result == 0
  }

  /** fw_update_common_finish, without what the library does afterwards. */
  ghost predicate FinishStep(t: Table, i: nat, t': Table, result: int)
    requires Shaped(t) && i < IMAGE_SLOTS
  {
    if t.slots[i].stream.Closed? then t' == t && result == ERR_GENERIC
    else
      var c := CloseStream(t, i);
      exists m: Table, r: int :: UnpackStep(c, i, m, r) && Shaped(m) && AfterUnpack(m, i, Bundle(c, i).packages, r, t', result)
  }

  /** What the receiving slot has been sent. */
  ghost function Bundle(t: Table, i: nat): Unpacked
    requires Shaped(t) && i < IMAGE_SLOTS
  {
    if HasFile(t, i) then ReadBundle(File(t, i)) else Unpacked([], ERR_GENERIC)
  }

  /** fw_update_common_reset, without what the library does afterwards. */
  ghost function ResetStep(t: Table, i: nat): Table
    requires Shaped(t) && LinksOk(t) && i < IMAGE_SLOTS
  {
    var u := DeleteFile(CloseStream(t, i), i);
    Recomputed(u.(insts := u.insts[i := u.insts[i].(linked := [], conflicting := [])]), Some(i))
  }

  // ---------------------------------------------------------------- the invariant

  /** Every downloaded slot but these holds the very file its metadata vouches for; none of them can be written to. */
  ghost predicate SoundBut(t: Table, x: set<nat>)
    requires Shaped(t)
  {
    forall i :: 0 <= i < IMAGE_SLOTS && IsDownloaded(t, i) ==> SoundAt(t, i, x)
  }

  ghost predicate SoundAt(t: Table, i: nat, x: set<nat>)
    requires Shaped(t) && i < IMAGE_SLOTS
  {
    !t.slots[i].stream.Attached? && (i in x || Vouches(t, i))
  }

  ghost predicate InOrderBut(t: Table, x: set<nat>) { Tidy(t) && LinksOk(t) && SoundBut(t, x) }

  ghost predicate Inv(t: Table) { InOrderBut(t, {}) }

  /** Nothing that matters to slot j differs between two tables. */
  ghost predicate SameSlot(t: Table, u: Table, j: nat)
    requires Shaped(t) && Shaped(u) && j < IMAGE_SLOTS
  {
    u.slots[j] == t.slots[j] && (HasFile(u, j) <==> HasFile(t, j)) && (HasFile(t, j) ==> File(u, j) == File(t, j))
  }

  lemma SameSlotVouches(t: Table, u: Table, j: nat)
    requires Shaped(t) && Shaped(u) && j < IMAGE_SLOTS && SameSlot(t, u, j)
    ensures Vouches(u, j) <==> Vouches(t, j)
  {}

  lemma KnownGrows(n: nat, m: nat, ps: set<Path>)
    requires AllKnown(n, ps) && n <= m
    ensures AllKnown(m, ps)
  {}

  lemma LitterKeeps(t: Table, u: Table, ps: seq<Package>)
    requires Tidy(t) && Littered(t, u, ps)
    ensures Tidy(u) && forall j :: 0 <= j < IMAGE_SLOTS ==> SameSlot(t, u, j)
  {
    forall p | p in u.files ensures Known(u.nextTemp, p) {
      if p in t.files { assert Known(t.nextTemp, p); }
    }
    forall i | 0 <= i < IMAGE_SLOTS ensures AllKnown(u.nextTemp, Names(u.slots[i])) {
      KnownGrows(t.nextTemp, u.nextTemp, Names(t.slots[i]));
    }
    forall i | 0 <= i < IMAGE_SLOTS && u.slots[i].stream.Attached? ensures HasFile(u, i) {
      assert HasFile(t, i);
    }
  }

  /** Replacing one slot keeps the names apart if its names are its old ones or brand new. */
  lemma NamesStayApart(t: Table, u: Table, i: nat)
    requires Tidy(t) && Shaped(u) && i < IMAGE_SLOTS && t.nextTemp <= u.nextTemp
    requires forall j :: 0 <= j < IMAGE_SLOTS && j != i ==> u.slots[j] == t.slots[j]
    requires forall p :: p in Names(u.slots[i]) ==> p in Names(t.slots[i]) || (p.Temp? && t.nextTemp <= p.n < u.nextTemp)
    ensures forall j :: 0 <= j < IMAGE_SLOTS ==> AllKnown(u.nextTemp, Names(u.slots[j]))
    ensures forall j, k :: 0 <= j < IMAGE_SLOTS && 0 <= k < IMAGE_SLOTS && j != k ==> Names(u.slots[j]) !! Names(u.slots[k])
  {
    forall j | 0 <= j < IMAGE_SLOTS ensures AllKnown(u.nextTemp, Names(u.slots[j])) {
      KnownGrows(t.nextTemp, u.nextTemp, Names(t.slots[j]));
    }
    forall j | 0 <= j < IMAGE_SLOTS && j != i ensures Names(u.slots[i]) !! Names(u.slots[j]) {
      assert AllKnown(t.nextTemp, Names(t.slots[j])) && Names(t.slots[i]) !! Names(t.slots[j]);
    }
    forall j, k | 0 <= j < IMAGE_SLOTS && 0 <= k < IMAGE_SLOTS && j != k ensures Names(u.slots[j]) !! Names(u.slots[k]) {
      if j != i && k != i { assert Names(t.slots[j]) !! Names(t.slots[k]); }
    }
  }

  /** A file of another slot is none of this slot's. */
  lemma OtherFile(t: Table, i: nat, j: nat)
    requires Tidy(t) && i < IMAGE_SLOTS && j < IMAGE_SLOTS && i != j && t.slots[i].path.Some? && t.slots[j].path.Some?
    ensures t.slots[i].path.value != t.slots[j].path.value
  {
    assert Names(t.slots[i]) !! Names(t.slots[j]);
    assert t.slots[i].path.value in Names(t.slots[i]) && t.slots[j].path.value in Names(t.slots[j]);
  }

  lemma EnsurePathKeeps(t: Table, i: nat)
    requires Tidy(t) && i < IMAGE_SLOTS
    ensures var u := EnsurePath(t, i);
            && Tidy(u) && u.slots[i].stream == t.slots[i].stream
            && (forall j :: 0 <= j < IMAGE_SLOTS && j != i ==> SameSlot(t, u, j))
  {
    var u := EnsurePath(t, i);
    NamesStayApart(t, u, i);
    forall p | p in u.files ensures Known(u.nextTemp, p) {
      if p in t.files { assert Known(t.nextTemp, p); }
    }
    forall j | 0 <= j < IMAGE_SLOTS && j != i ensures SameSlot(t, u, j) {
      if HasFile(t, j) { assert Known(t.nextTemp, t.slots[j].path.value); }
    }
    forall j | 0 <= j < IMAGE_SLOTS && u.slots[j].stream.Attached? ensures HasFile(u, j) {
      assert HasFile(t, j);
      if j != i { assert SameSlot(t, u, j); }
    }
  }

  /** Giving the file at a slot's own path new contents concerns no other slot. */
  lemma StoreKeeps(t: Table, u: Table, i: nat)
    requires Tidy(t) && i < IMAGE_SLOTS && t.slots[i].path.Some? && Shaped(u) && u.nextTemp == t.nextTemp
    requires u.files.Keys == t.files.Keys + {t.slots[i].path.value}
    requires forall p :: p in t.files && p != t.slots[i].path.value ==> u.files[p] == t.files[p]
    requires forall j :: 0 <= j < IMAGE_SLOTS && j != i ==> u.slots[j] == t.slots[j]
    requires u.slots[i].path == t.slots[i].path && u.slots[i].admin == t.slots[i].admin
    ensures Tidy(u) && HasFile(u, i) && (forall j :: 0 <= j < IMAGE_SLOTS && j != i ==> SameSlot(t, u, j))
  {
    NamesStayApart(t, u, i);
    forall p | p in u.files ensures Known(u.nextTemp, p) {
      if p !in t.files {
        assert p in Names(t.slots[i]) && AllKnown(t.nextTemp, Names(t.slots[i]));
      } else {
        assert Known(t.nextTemp, p);
      }
    }
    forall j | 0 <= j < IMAGE_SLOTS && j != i ensures SameSlot(t, u, j) {
      if HasFile(t, j) { OtherFile(t, i, j); }
    }
    forall j | 0 <= j < IMAGE_SLOTS && u.slots[j].stream.Attached? ensures HasFile(u, j) {
      if j != i { assert HasFile(t, j) && SameSlot(t, u, j); }
    }
  }

  lemma CommitOneKeeps(t: Table, i: nat, p: Package)
    requires Tidy(t) && i < IMAGE_SLOTS
    ensures var u := CommitOne(t, i, p);
            && Tidy(u) && HasFile(u, i) && File(u, i) == p.payload && u.slots[i].meta == p.meta && !u.slots[i].stream.Attached?
            && (forall j :: 0 <= j < IMAGE_SLOTS && j != i ==> SameSlot(t, u, j))
  {
    EnsurePathKeeps(t, i);
    StoreKeeps(EnsurePath(t, i), CommitOne(t, i, p), i);
  }

  lemma DeleteFileKeeps(t: Table, i: nat)
    requires Tidy(t) && i < IMAGE_SLOTS && !t.slots[i].stream.Attached?
    ensures var u := DeleteFile(t, i);
            Tidy(u) && u.slots[i].path.None? && (forall j :: 0 <= j < IMAGE_SLOTS && j != i ==> SameSlot(t, u, j))
  {
    var u := DeleteFile(t, i);
    NamesStayApart(t, u, i);
    forall j | 0 <= j < IMAGE_SLOTS && j != i ensures SameSlot(t, u, j) {
      if HasFile(t, j) && t.slots[i].path.Some? { OtherFile(t, i, j); }
    }
    forall j | 0 <= j < IMAGE_SLOTS && u.slots[j].stream.Attached? ensures HasFile(u, j) {
      assert HasFile(t, j);
      if j != i { assert SameSlot(t, u, j); }
    }
  }

  // ---------------------------------------------------------------- committing a bundle

  /** Slot j holds the package meant for it. */
  ghost predicate Delivered(u: Table, j: nat, p: Package)
    requires Shaped(u) && j < IMAGE_SLOTS
  {
    HasFile(u, j) && File(u, j) == p.payload && u.slots[j].meta == p.meta && !u.slots[j].stream.Attached?
  }

  /** Every addressed slot gets exactly its package; every other slot keeps what it has. */
  lemma {:induction false} CommitDelivers(t: Table, ps: seq<Package>, k: nat)
    requires Tidy(t) && k <= IMAGE_SLOTS
    ensures Tidy(CommitFrom(t, ps, k))
    ensures forall j :: 0 <= j < IMAGE_SLOTS && (j < k || PackageFor(ps, j).None?) ==> SameSlot(t, CommitFrom(t, ps, k), j)
    ensures forall j :: k <= j < IMAGE_SLOTS && PackageFor(ps, j).Some? ==> Delivered(CommitFrom(t, ps, k), j, PackageFor(ps, j).value)
    decreases IMAGE_SLOTS - k
  {
    if k < IMAGE_SLOTS {
      match PackageFor(ps, k)
      case None =>
        CommitDelivers(t, ps, k + 1);
      case Some(p) =>
        var v, u := CommitOne(t, k, p), CommitFrom(t, ps, k);
        CommitOneKeeps(t, k, p);
        CommitDelivers(v, ps, k + 1);
        assert SameSlot(v, u, k);
        forall j | 0 <= j < IMAGE_SLOTS && (j < k || PackageFor(ps, j).None?) ensures SameSlot(t, u, j) {
          assert SameSlot(t, v, j) && SameSlot(v, u, j);
        }
    }
  }

  lemma InEither(a: seq<nat>, b: seq<nat>, j: nat)
    ensures j in a + b <==> j in a || j in b
  {}

  function Here(ps: seq<Package>, k: nat): seq<nat>
    requires k < IMAGE_SLOTS
  {
    if PackageFor(ps, k).Some? then [k] else []
  }

  lemma HereIn(ps: seq<Package>, k: nat, j: nat)
    requires k < IMAGE_SLOTS && j < IMAGE_SLOTS
    ensures j in Here(ps, k) <==> j == k && PackageFor(ps, j).Some?
  {}

  lemma AddressedSplit(ps: seq<Package>, k: nat)
    requires k < IMAGE_SLOTS
    ensures AddressedFrom(ps, k) == Here(ps, k) + AddressedFrom(ps, k + 1)
  {}

  lemma {:induction false} AddressedIn(ps: seq<Package>, k: nat, j: nat)
    requires k <= IMAGE_SLOTS && j < IMAGE_SLOTS
    ensures j in AddressedFrom(ps, k) <==> k <= j && PackageFor(ps, j).Some?
    decreases IMAGE_SLOTS - k
  {
    if k < IMAGE_SLOTS {
      AddressedIn(ps, k + 1, j);
      AddressedSplit(ps, k);
      HereIn(ps, k, j);
      InEither(Here(ps, k), AddressedFrom(ps, k + 1), j);
    }
  }

  lemma {:induction false} NoClash(t: Table, ps: seq<Package>, k: nat, j: nat)
    requires Shaped(t) && k <= j < IMAGE_SLOTS && ClashFrom(t, ps, k).None? && PackageFor(ps, j).Some?
    ensures !IsDownloaded(t, j)
    decreases IMAGE_SLOTS - k
  {
    if k < j { NoClash(t, ps, k + 1, j); }
  }

  // ---------------------------------------------------------------- validating and marking

  lemma ProcessTouchesOne(t: Table, i: nat)
    requires Shaped(t) && i < IMAGE_SLOTS && ValidTargets(i, t.insts[i].linked)
    ensures var (u, e) := Process(t, i);
            && u.slots == t.slots && u.files == t.files && u.nextTemp == t.nextTemp && |u.insts| == IMAGE_SLOTS
            && (forall j :: 0 <= j < IMAGE_SLOTS && j != i ==> u.insts[j] == t.insts[j])
            && ValidTargets(i, u.insts[i].linked) && (e == 0 ==> u.insts[i].state.Downloaded?)
            && (u.insts[i].state == t.insts[i].state || (u.insts[i].state.Downloaded? && Validate(t, i) == 0))
  {}

  lemma ProcessKeeps(t: Table, i: nat, x: set<nat> := {})
    requires InOrderBut(t, x) && i < IMAGE_SLOTS && !t.slots[i].stream.Attached?
    ensures var (u, e) := Process(t, i);
            && InOrderBut(u, x) && u.slots == t.slots && u.files == t.files
            && (e == 0 ==> IsDownloaded(u, i))
            && (forall j :: 0 <= j < IMAGE_SLOTS && IsDownloaded(t, j) ==> IsDownloaded(u, j))
            && (forall j :: 0 <= j < IMAGE_SLOTS && j != i ==> u.insts[j] == t.insts[j])
  {
    ProcessTouchesOne(t, i);
    var (u, e) := Process(t, i);
    forall j | 0 <= j < IMAGE_SLOTS ensures ValidTargets(j, u.insts[j].linked) {
      if j != i { assert ValidTargets(j, t.insts[j].linked); }
    }
    forall j | 0 <= j < IMAGE_SLOTS && IsDownloaded(u, j) ensures SoundAt(u, j, x) {
      if j != i { assert SoundAt(t, j, x); } else if IsDownloaded(t, i) { assert SoundAt(t, i, x); }
    }
  }

  /** What processing a list of slots keeps and achieves. */
  ghost predicate Processed(t: Table, ids: seq<nat>, u: Table, e: int, x: set<nat>) {
    && InOrderBut(t, x) && InOrderBut(u, x) && u.slots == t.slots && u.files == t.files
    && (e == 0 ==> forall k :: 0 <= k < |ids| ==> ids[k] < IMAGE_SLOTS && IsDownloaded(u, ids[k]))
    && (forall j :: 0 <= j < IMAGE_SLOTS && IsDownloaded(t, j) ==> IsDownloaded(u, j))
    && (forall j :: 0 <= j < IMAGE_SLOTS && j !in ids ==> u.insts[j] == t.insts[j])
  }

  lemma ProcessedCons(t: Table, i: nat, u: Table, ids: seq<nat>, v: Table, f: int, x: set<nat>)
    requires i < IMAGE_SLOTS && Processed(t, [i], u, 0, x) && Processed(u, ids, v, f, x)
    ensures Processed(t, [i] + ids, v, f, x) == true
  {
    var all := [i] + ids;
    forall k | 0 <= k < |all| && f == 0 ensures all[k] < IMAGE_SLOTS && IsDownloaded(v, all[k]) {
      if k == 0 { assert IsDownloaded(u, [i][0]); } else { assert all[k] == ids[k - 1]; }
    }
    forall j | 0 <= j < IMAGE_SLOTS && j !in all ensures v.insts[j] == t.insts[j] {
      assert j !in [i] && j !in ids;
    }
  }

  lemma ProcessedOne(t: Table, i: nat, x: set<nat> := {})
    requires InOrderBut(t, x) && i < IMAGE_SLOTS && !t.slots[i].stream.Attached?
    ensures var (u, e) := Process(t, i); Processed(t, [i], u, e, x) == true && u.slots == t.slots
  {
    ProcessKeeps(t, i, x);
  }

  lemma ProcessedStops(t: Table, i: nat, u: Table, ids: seq<nat>, e: int, x: set<nat>)
    requires i < IMAGE_SLOTS && Processed(t, [i], u, e, x) && e != 0
    ensures Processed(t, [i] + ids, u, e, x) == true
  {
    forall j | 0 <= j < IMAGE_SLOTS && j !in [i] + ids ensures u.insts[j] == t.insts[j] {
      assert j !in [i];
    }
  }

  lemma {:induction false} ProcessAllKeeps(t: Table, ids: seq<nat>, x: set<nat> := {})
    requires InOrderBut(t, x) && forall k :: 0 <= k < |ids| ==> ids[k] < IMAGE_SLOTS && !t.slots[ids[k]].stream.Attached?
    ensures var (u, e) := ProcessAll(t, ids); Processed(t, ids, u, e, x) == true
    decreases |ids|
  {
    if ids != [] {
      ProcessedOne(t, ids[0], x);
      var (u, e) := Process(t, ids[0]);
      assert ids == [ids[0]] + ids[1..];
      if e == 0 {
        ProcessAllKeeps(u, ids[1..], x);
        var (v, f) := ProcessAll(u, ids[1..]);
        ProcessedCons(t, ids[0], u, ids[1..], v, f, x);
      } else {
        ProcessedStops(t, ids[0], u, ids[1..], e, x);
      }
    }
  }

  // ---------------------------------------------------------------- one whole finish

  lemma OrderTransfers(t: Table, u: Table, touched: set<nat>, x: set<nat>)
    requires InOrderBut(t, x) && Tidy(u) && LinksOk(u)
    requires forall j :: 0 <= j < IMAGE_SLOTS ==> u.insts[j].state == t.insts[j].state
    requires forall j :: 0 <= j < IMAGE_SLOTS && j !in touched ==> SameSlot(t, u, j)
    requires forall j :: 0 <= j < IMAGE_SLOTS && j in touched && IsDownloaded(t, j) ==> j in x && !u.slots[j].stream.Attached?
    ensures InOrderBut(u, x)
  {
    forall j | 0 <= j < IMAGE_SLOTS && IsDownloaded(u, j) ensures SoundAt(u, j, x) {
      assert IsDownloaded(t, j) && SoundAt(t, j, x);
      if j !in touched { SameSlotVouches(t, u, j); }
    }
  }

  lemma OrderWeakens(t: Table, x: set<nat>, y: set<nat>)
    requires InOrderBut(t, x) && x <= y
    ensures InOrderBut(t, y)
  {
    forall j | 0 <= j < IMAGE_SLOTS && IsDownloaded(t, j) ensures SoundAt(t, j, y) {
      assert SoundAt(t, j, x);
    }
  }

  lemma CloseKeeps(t: Table, i: nat, x: set<nat> := {})
    requires InOrderBut(t, x) && i < IMAGE_SLOTS
    ensures var c := CloseStream(t, i);
            && InOrderBut(c, x) && (Vouches(c, i) <==> Vouches(t, i))
            && (forall j :: 0 <= j < IMAGE_SLOTS && j != i ==> SameSlot(t, c, j))
  {
    var c := CloseStream(t, i);
    NamesStayApart(t, c, i);
    forall j | 0 <= j < IMAGE_SLOTS && c.slots[j].stream.Attached? ensures HasFile(c, j) {
      assert HasFile(t, j);
    }
    forall j | 0 <= j < IMAGE_SLOTS ensures ValidTargets(j, c.insts[j].linked) {
      assert ValidTargets(j, t.insts[j].linked);
    }
    forall j | 0 <= j < IMAGE_SLOTS && IsDownloaded(c, j) ensures SoundAt(c, j, x) {
      assert SoundAt(t, j, x);
    }
  }

  lemma OutcomeFailure(c: Table, i: nat, u: Unpacked, l: Table, m: Table, r: int)
    requires Tidy(c) && LinksOk(c) && i < IMAGE_SLOTS && c.slots[i].stream.Closed? && HasFile(c, i)
    requires Outcome(c, i, u, l, m, r) && r != 0
    ensures Tidy(m) && LinksOk(m) && m.slots[i].stream.Closed? && m.slots[i].path.None?
    ensures forall j :: 0 <= j < IMAGE_SLOTS ==> m.insts[j].state == c.insts[j].state && (j != i ==> SameSlot(c, m, j))
    ensures m.files == l.files - {c.slots[i].path.value}
  {
    LitterKeeps(c, l, u.packages);
    DeleteFileKeeps(l, i);
    var d := DeleteFile(l, i);
    TidyIgnoresRecords(d, m);
    forall j | 0 <= j < IMAGE_SLOTS && j != i ensures SameSlot(c, m, j) {
      assert SameSlot(c, l, j) && SameSlot(l, d, j);
    }
    forall j | 0 <= j < IMAGE_SLOTS ensures ValidTargets(j, m.insts[j].linked) {
      assert ValidTargets(j, c.insts[j].linked);
    }
  }

  lemma LeftBehind(c: Table, l: Table, m: Table, ps: seq<Package>, p: Path)
    requires Littered(c, l, ps) && p in c.files && m.files == l.files - {p}
    ensures m.files.Keys * c.files.Keys == c.files.Keys - {p}
    ensures |m.files.Keys - c.files.Keys| == Superseded(ps)
  {
    assert m.files.Keys - c.files.Keys == l.files.Keys - c.files.Keys;
  }

  /** A failed unpacking: only the receiving slot loses its file; the others keep path, contents and metadata. */
  lemma UnpackFailureIsolated(c: Table, i: nat, m: Table, r: int)
    requires Tidy(c) && LinksOk(c) && i < IMAGE_SLOTS && c.slots[i].stream.Closed? && UnpackStep(c, i, m, r) && r != 0
    ensures Tidy(m) && LinksOk(m) && m.slots[i].stream.Closed?
    ensures forall j :: 0 <= j < IMAGE_SLOTS ==> m.insts[j].state == c.insts[j].state && (j != i ==> SameSlot(c, m, j))
    ensures HasFile(c, i) ==> m.slots[i].path.None? && m.files.Keys * c.files.Keys == c.files.Keys - {c.slots[i].path.value}
    ensures HasFile(c, i) ==> |m.files.Keys - c.files.Keys| == Superseded(Bundle(c, i).packages)
  {
    if HasFile(c, i) {
      var u := Bundle(c, i);
      var l: Table :| Outcome(c, i, u, l, m, r);
      OutcomeFailure(c, i, u, l, m, r);
      LeftBehind(c, l, m, u.packages, c.slots[i].path.value);
    }
  }

  lemma TidyIgnoresRecords(t: Table, u: Table)
    requires Tidy(t) && u.slots == t.slots && u.files == t.files && u.nextTemp == t.nextTemp && |u.insts| == IMAGE_SLOTS
    ensures Tidy(u)
  {
    forall j | 0 <= j < IMAGE_SLOTS && u.slots[j].stream.Attached? ensures HasFile(u, j) {
      assert HasFile(t, j);
    }
  }

  lemma OutcomeSuccess(c: Table, i: nat, u: Unpacked, l: Table, m: Table, x: set<nat> := {})
    requires InOrderBut(c, x) && i < IMAGE_SLOTS && Outcome(c, i, u, l, m, 0)
    ensures InOrderBut(m, x) && m.insts == c.insts && u.error == 0
    ensures forall j :: 0 <= j < IMAGE_SLOTS && PackageFor(u.packages, j).None? ==> SameSlot(c, m, j)
    ensures AllDelivered(m, u.packages)
  {
    LitterKeeps(c, l, u.packages);
    CommitDelivers(l, u.packages, 0);
    var touched := set j | 0 <= j < IMAGE_SLOTS && PackageFor(u.packages, j).Some?;
    forall j | 0 <= j < IMAGE_SLOTS && j !in touched ensures SameSlot(c, m, j) {
      assert SameSlot(c, l, j) && SameSlot(l, m, j);
    }
    forall j | 0 <= j < IMAGE_SLOTS && j in touched ensures !IsDownloaded(c, j) {
      NoClash(c, u.packages, 0, j);
    }
    forall j | 0 <= j < IMAGE_SLOTS ensures ValidTargets(j, m.insts[j].linked) {
      assert ValidTargets(j, c.insts[j].linked);
    }
    OrderTransfers(c, m, touched, x);
  }

  /** A successful unpacking delivers every package and leaves all other slots alone. */
  lemma UnpackSuccess(c: Table, i: nat, m: Table, x: set<nat> := {})
    requires InOrderBut(c, x) && i < IMAGE_SLOTS && UnpackStep(c, i, m, 0)
    ensures InOrderBut(m, x) && m.insts == c.insts && Bundle(c, i).error == 0
    ensures forall j :: 0 <= j < IMAGE_SLOTS && PackageFor(Bundle(c, i).packages, j).None? ==> SameSlot(c, m, j)
    ensures AllDelivered(m, Bundle(c, i).packages)
  {
    assert HasFile(c, i);
    var u := Bundle(c, i);
    var l: Table :| Outcome(c, i, u, l, m, 0);
    OutcomeSuccess(c, i, u, l, m, x);
  }

  lemma RecomputedKeeps(t: Table, resetting: Option<nat>)
    requires Shaped(t) && LinksOk(t)
    ensures var u := Recomputed(t, resetting);
            && u.slots == t.slots && u.files == t.files && u.nextTemp == t.nextTemp && Shaped(u) && LinksOk(u)
            && (forall j :: 0 <= j < IMAGE_SLOTS ==>
                  && u.insts[j].state == t.insts[j].state && u.insts[j].result == t.insts[j].result && u.insts[j].linked == t.insts[j].linked)
  {
    var u := Recomputed(t, resetting);
    forall j | 0 <= j < IMAGE_SLOTS ensures ValidTargets(j, u.insts[j].linked) {
      assert ValidTargets(j, t.insts[j].linked);
    }
  }

  lemma OrderRecomputed(t: Table, resetting: Option<nat>, except: set<nat>)
    requires InOrderBut(t, except)
    ensures InOrderBut(Recomputed(t, resetting), except)
  {
    RecomputedKeeps(t, resetting);
    var u := Recomputed(t, resetting);
    TidyIgnoresRecords(t, u);
    OrderTransfers(t, u, {}, except);
  }

  /** The slots of a bundle are processed from a table in which each of them has just been delivered. */
  lemma AddressedClosed(m: Table, ps: seq<Package>)
    requires Shaped(m)
    requires AllDelivered(m, ps)
    ensures forall k :: 0 <= k < |Addressed(ps)| ==> Addressed(ps)[k] < IMAGE_SLOTS && !m.slots[Addressed(ps)[k]].stream.Attached?
  {
    forall k | 0 <= k < |Addressed(ps)| ensures Addressed(ps)[k] < IMAGE_SLOTS && !m.slots[Addressed(ps)[k]].stream.Attached? {
      var j := Addressed(ps)[k];
      AddressedIn(ps, 0, j);
      assert Delivered(m, j, PackageFor(ps, j).value);
    }
  }

  /** Deleting the receiving slot's file leaves everything in order but that slot. */
  lemma ResetFileKeeps(t: Table, i: nat, x: set<nat> := {})
    requires InOrderBut(t, x + {i}) && i < IMAGE_SLOTS && !t.slots[i].stream.Attached?
    ensures InOrderBut(DeleteFile(t, i), x + {i})
  {
    DeleteFileKeeps(t, i);
    var u := DeleteFile(t, i);
    forall j | 0 <= j < IMAGE_SLOTS ensures ValidTargets(j, u.insts[j].linked) {
      assert ValidTargets(j, t.insts[j].linked);
    }
    OrderTransfers(t, u, {i}, x + {i});
  }

  lemma AfterUnpackFailed(m: Table, i: nat, ps: seq<Package>, r: int, t': Table, result: int, x: set<nat> := {})
    requires InOrderBut(m, if r == 0 then x else x + {i}) && i < IMAGE_SLOTS && !m.slots[i].stream.Attached?
    requires r == 0 ==> AllDelivered(m, ps)
    requires AfterUnpack(m, i, ps, r, t', result) && result != 0
    ensures InOrderBut(t', x + {i})
  {
    if r != 0 {
      ResetFileKeeps(m, i, x);
    } else {
      AddressedClosed(m, ps);
      ProcessAllKeeps(m, Addressed(ps), x);
      var p := ProcessAll(m, Addressed(ps)).0;
      OrderWeakens(p, x, x + {i});
      ResetFileKeeps(p, i, x);
    }
  }

  /** Every slot a bundle addresses holds its package. */
  ghost predicate AllDelivered(m: Table, ps: seq<Package>)
    requires Shaped(m)
  {
    forall j :: 0 <= j < IMAGE_SLOTS && PackageFor(ps, j).Some? ==> Delivered(m, j, PackageFor(ps, j).value)
  }

  lemma UnpackFailedOrder(c: Table, i: nat, m: Table, r: int, x: set<nat>)
    requires InOrderBut(c, x) && i < IMAGE_SLOTS && c.slots[i].stream.Closed? && UnpackStep(c, i, m, r) && r != 0
    ensures InOrderBut(m, x + {i}) && !m.slots[i].stream.Attached?
  {
    UnpackFailureIsolated(c, i, m, r);
    OnlyOneTouched(c, i, m, x);
  }

  lemma OnlyOneTouched(c: Table, i: nat, m: Table, x: set<nat>)
    requires InOrderBut(c, x) && i < IMAGE_SLOTS && Tidy(m) && LinksOk(m) && !m.slots[i].stream.Attached?
    requires forall j :: 0 <= j < IMAGE_SLOTS ==> m.insts[j].state == c.insts[j].state && (j != i ==> SameSlot(c, m, j))
    ensures InOrderBut(m, x + {i})
  {
    OrderWeakens(c, x, x + {i});
    OrderTransfers(c, m, {i}, x + {i});
  }

  lemma ReceiverClosed(c: Table, i: nat, m: Table, ps: seq<Package>)
    requires Shaped(c) && Shaped(m) && i < IMAGE_SLOTS && c.slots[i].stream.Closed? && AllDelivered(m, ps)
    requires PackageFor(ps, i).None? ==> SameSlot(c, m, i)
    ensures !m.slots[i].stream.Attached?
  {
    if PackageFor(ps, i).Some? { assert Delivered(m, i, PackageFor(ps, i).value); }
  }

  lemma UnpackAnyway(c: Table, i: nat, m: Table, r: int, x: set<nat> := {})
    requires InOrderBut(c, x) && i < IMAGE_SLOTS && c.slots[i].stream.Closed? && UnpackStep(c, i, m, r)
    ensures InOrderBut(m, if r == 0 then x else x + {i}) && !m.slots[i].stream.Attached?
    ensures r == 0 ==> AllDelivered(m, Bundle(c, i).packages)
  {
    if r == 0 {
      UnpackSuccess(c, i, m, x);
      ReceiverClosed(c, i, m, Bundle(c, i).packages);
    } else {
      UnpackFailedOrder(c, i, m, r, x);
    }
  }

  /** A failed finish: every downloaded slot but the receiving one is still vouched for. */
  lemma FinishFailureSound(t: Table, i: nat, t': Table, result: int, x: set<nat> := {})
    requires InOrderBut(t, x) && i < IMAGE_SLOTS && FinishStep(t, i, t', result) && result != 0
    ensures InOrderBut(t', x + {i})
  {
    if t.slots[i].stream.Closed? {
      OrderWeakens(t, x, x + {i});
    } else {
      CloseKeeps(t, i, x);
      var c := CloseStream(t, i);
      var ps := Bundle(c, i).packages;
      var m: Table, r: int :| UnpackStep(c, i, m, r) && Shaped(m) && AfterUnpack(m, i, ps, r, t', result);
      UnpackAnyway(c, i, m, r, x);
      AfterUnpackFailed(m, i, ps, r, t', result, x);
    }
  }

  lemma AfterUnpackDone(m: Table, i: nat, ps: seq<Package>, t': Table, x: set<nat> := {})
    requires InOrderBut(m, x) && i < IMAGE_SLOTS
    requires AllDelivered(m, ps)
    requires AfterUnpack(m, i, ps, 0, t', 0)
    ensures InOrderBut(t', x) && t'.slots == m.slots && t'.files == m.files
    ensures forall j :: 0 <= j < IMAGE_SLOTS && PackageFor(ps, j).Some? ==> IsDownloaded(t', j)
    ensures var p := ProcessAll(m, Addressed(ps)).0; Shaped(p) && LinksOk(p) && t' == Recomputed(p, None)
  {
    AddressedClosed(m, ps);
    ProcessAllKeeps(m, Addressed(ps), x);
    var p := ProcessAll(m, Addressed(ps)).0;
    OrderRecomputed(p, None, x);
    RecomputedKeeps(p, None);
    forall j | 0 <= j < IMAGE_SLOTS && PackageFor(ps, j).Some? ensures IsDownloaded(t', j) {
      AddressedIn(ps, 0, j);
      var k :| 0 <= k < |Addressed(ps)| && Addressed(ps)[k] == j;
      assert IsDownloaded(p, Addressed(ps)[k]);
    }
  }

  /** The slots a bundle addresses are downloaded and hold their packages; all others are as in table c. */
  ghost predicate Distributed(c: Table, t': Table, ps: seq<Package>)
    requires Shaped(c) && Shaped(t')
  {
    forall j :: 0 <= j < IMAGE_SLOTS ==>
      if PackageFor(ps, j).Some? then IsDownloaded(t', j) && Delivered(t', j, PackageFor(ps, j).value) else SameSlot(c, t', j)
  }

  lemma DistributedAfter(c: Table, i: nat, ps: seq<Package>, m: Table, t': Table, x: set<nat> := {})
    requires Shaped(c) && InOrderBut(m, x) && i < IMAGE_SLOTS && AfterUnpack(m, i, ps, 0, t', 0)
    requires forall j :: 0 <= j < IMAGE_SLOTS && PackageFor(ps, j).None? ==> SameSlot(c, m, j)
    requires AllDelivered(m, ps)
    ensures InOrderBut(t', x) && Distributed(c, t', ps)
  {
    AfterUnpackDone(m, i, ps, t', x);
    forall j | 0 <= j < IMAGE_SLOTS && PackageFor(ps, j).None? ensures SameSlot(c, t', j) {
      assert SameSlot(c, m, j);
    }
    forall j | 0 <= j < IMAGE_SLOTS && PackageFor(ps, j).Some? ensures Delivered(t', j, PackageFor(ps, j).value) {
      assert Delivered(m, j, PackageFor(ps, j).value);
    }
  }

  /** A successful finish: every downloaded slot is vouched for, and the bundle has been distributed. */
  lemma FinishSuccessSound(t: Table, i: nat, t': Table, x: set<nat> := {})
    requires InOrderBut(t, x) && i < IMAGE_SLOTS && FinishStep(t, i, t', 0)
    ensures !t.slots[i].stream.Closed? && InOrderBut(t', x)
    ensures Distributed(CloseStream(t, i), t', Bundle(CloseStream(t, i), i).packages)
  {
    CloseKeeps(t, i, x);
    var c := CloseStream(t, i);
    var ps := Bundle(c, i).packages;
    var m: Table, r: int :| UnpackStep(c, i, m, r) && Shaped(m) && AfterUnpack(m, i, ps, r, t', 0);
    UnpackSuccess(c, i, m, x);
    DistributedAfter(c, i, ps, m, t', x);
  }

  // ---------------------------------------------------------------- with the library around it

  /** After a finish the library marks the receiving instance itself, whatever the bundle held. */
  function LibraryMark(t: Table, i: nat, result: int): Table
    requires |t.insts| == IMAGE_SLOTS && i < IMAGE_SLOTS
  {
    WithState(t, i, if result == 0 then Downloaded else Idle)
  }

  /** The bundle in a slot's file holds a package for that very slot. */
  ghost predicate AddressesReceiver(t: Table, i: nat)
    requires Shaped(t) && i < IMAGE_SLOTS
  {
    PackageFor(Bundle(t, i).packages, i).Some?
  }

  lemma MarkIdle(t: Table, i: nat, x: set<nat> := {})
    requires InOrderBut(t, x + {i}) && i < IMAGE_SLOTS
    ensures InOrderBut(WithState(t, i, Idle), x - {i})
  {
    var u := WithState(t, i, Idle);
    TidyIgnoresRecords(t, u);
    forall j | 0 <= j < IMAGE_SLOTS ensures ValidTargets(j, u.insts[j].linked) {
      assert ValidTargets(j, t.insts[j].linked);
    }
    forall j | 0 <= j < IMAGE_SLOTS && IsDownloaded(u, j) ensures SoundAt(u, j, x - {i}) {
      assert SoundAt(t, j, x + {i});
    }
  }

  lemma MarkDownloadedSound(t: Table, i: nat, x: set<nat> := {})
    requires InOrderBut(t, x) && i < IMAGE_SLOTS && !t.slots[i].stream.Attached?
    ensures InOrderBut(WithState(t, i, Downloaded), x + {i})
    ensures Vouches(WithState(t, i, Downloaded), i) <==> Vouches(t, i)
  {
    var u := WithState(t, i, Downloaded);
    TidyIgnoresRecords(t, u);
    forall j | 0 <= j < IMAGE_SLOTS ensures ValidTargets(j, u.insts[j].linked) {
      assert ValidTargets(j, t.insts[j].linked);
    }
    forall j | 0 <= j < IMAGE_SLOTS && IsDownloaded(u, j) ensures SoundAt(u, j, x + {i}) {
      if j != i { assert SoundAt(t, j, x); }
    }
  }

  /** A slot that is vouched for needs no exception. */
  lemma NoException(t: Table, i: nat, x: set<nat>)
    requires InOrderBut(t, x) && i < IMAGE_SLOTS && Vouches(t, i)
    ensures InOrderBut(t, x - {i})
  {
    forall j | 0 <= j < IMAGE_SLOTS && IsDownloaded(t, j) ensures SoundAt(t, j, x - {i}) {
      assert SoundAt(t, j, x);
    }
  }

  /** After a failed finish everything is in order, because the library puts the receiving slot back to Idle. */
  lemma FailedFinishInOrder(t: Table, i: nat, t': Table, result: int, x: set<nat> := {})
    requires InOrderBut(t, x) && i < IMAGE_SLOTS && FinishStep(t, i, t', result) && result != 0
    ensures Shaped(t') && InOrderBut(LibraryMark(t', i, result), x - {i})
  {
    FinishFailureSound(t, i, t', result, x);
    MarkIdle(t', i, x);
  }

  /** After a successful finish the receiving slot is vouched for if and only if this could be told beforehand. */
  lemma ReceiverMarked(t: Table, i: nat, t': Table, x: set<nat>)
    requires InOrderBut(t, x) && i < IMAGE_SLOTS && FinishStep(t, i, t', 0)
    ensures Shaped(t') && InOrderBut(LibraryMark(t', i, 0), x + {i})
    ensures Vouches(LibraryMark(t', i, 0), i) <==> AddressesReceiver(CloseStream(t, i), i) || Vouches(t, i)
  {
    FinishSuccessSound(t, i, t', x);
    CloseKeeps(t, i, x);
    var c := CloseStream(t, i);
    var ps := Bundle(c, i).packages;
    ReceiverAfter(c, t', ps, i);
    MarkDownloadedSound(t', i, x);
    if PackageFor(ps, i).Some? {
      AddressedNotDownloaded(t, i, t', i);
      NotDownloadedNoException(t, i, x);
      FinishSuccessSound(t, i, t', x - {i});
      assert IsDownloaded(t', i) && SoundAt(t', i, x - {i});
    }
  }

  lemma NotDownloadedNoException(t: Table, i: nat, x: set<nat>)
    requires InOrderBut(t, x) && i < IMAGE_SLOTS && !IsDownloaded(t, i)
    ensures InOrderBut(t, x - {i})
  {
    forall j | 0 <= j < IMAGE_SLOTS && IsDownloaded(t, j) ensures SoundAt(t, j, x - {i}) {
      assert SoundAt(t, j, x);
    }
  }

  /** A bundle that is accepted names only slots that were not downloaded. */
  lemma AddressedNotDownloaded(t: Table, i: nat, t': Table, j: nat)
    requires Shaped(t) && i < IMAGE_SLOTS && j < IMAGE_SLOTS && FinishStep(t, i, t', 0)
    requires PackageFor(Bundle(CloseStream(t, i), i).packages, j).Some?
    ensures !IsDownloaded(t, j)
  {
    var c := CloseStream(t, i);
    var u := Bundle(c, i);
    var m: Table, r: int :| UnpackStep(c, i, m, r) && Shaped(m) && AfterUnpack(m, i, u.packages, r, t', 0);
    if HasFile(c, i) {
      var l: Table :| Outcome(c, i, u, l, m, r);
      NoClash(c, u.packages, 0, j);
    }
  }

  /**
   * After a successful finish every downloaded slot is vouched for if and only if the bundle held a
   * package for the slot that received it, or that slot's old metadata happens to vouch for the
   * bundle file itself.
   */
  lemma SuccessfulFinishInOrder(t: Table, i: nat, t': Table)
    requires Inv(t) && i < IMAGE_SLOTS && FinishStep(t, i, t', 0)
    ensures Shaped(t') && (Inv(LibraryMark(t', i, 0)) <==> AddressesReceiver(CloseStream(t, i), i) || Vouches(t, i))
  {
    ReceiverMarked(t, i, t', {});
    var u := LibraryMark(t', i, 0);
    if Vouches(u, i) {
      NoException(u, i, {i});
      assert {i} - {i} == {};
    } else {
      assert IsDownloaded(u, i) && !SoundAt(u, i, {});
    }
  }

  lemma ReceiverAfter(c: Table, t': Table, ps: seq<Package>, i: nat)
    requires Shaped(c) && Shaped(t') && Distributed(c, t', ps) && i < IMAGE_SLOTS && c.slots[i].stream.Closed?
    ensures !t'.slots[i].stream.Attached?
    ensures PackageFor(ps, i).None? ==> (Vouches(t', i) <==> Vouches(c, i))
  {
    if PackageFor(ps, i).Some? {
      assert Delivered(t', i, PackageFor(ps, i).value);
    } else {
      assert SameSlot(c, t', i);
      SameSlotVouches(c, t', i);
    }
  }

  // ---------------------------------------------------------------- resetting

  /** The table a reset recomputes from: stream closed, file gone, links and conflicts cleared. */
  ghost function Cleared(t: Table, i: nat): (u: Table)
    requires Shaped(t) && i < IMAGE_SLOTS
    ensures Shaped(u)
  {
    var u := DeleteFile(CloseStream(t, i), i);
    u.(insts := u.insts[i := u.insts[i].(linked := [], conflicting := [])])
  }

  lemma ClearedKeeps(t: Table, i: nat, x: set<nat> := {})
    requires InOrderBut(t, x) && i < IMAGE_SLOTS
    ensures InOrderBut(Cleared(t, i), x + {i})
    ensures forall j :: 0 <= j < IMAGE_SLOTS ==> Cleared(t, i).insts[j].state == t.insts[j].state
  {
    CloseKeeps(t, i, x);
    var c := CloseStream(t, i);
    OrderWeakens(c, x, x + {i});
    ResetFileKeeps(c, i, x);
    var d, u := DeleteFile(c, i), Cleared(t, i);
    TidyIgnoresRecords(d, u);
    forall j | 0 <= j < IMAGE_SLOTS ensures ValidTargets(j, u.insts[j].linked) {
      assert ValidTargets(j, d.insts[j].linked);
    }
    OrderTransfers(d, u, {}, x + {i});
  }

  /** After a reset everything is in order. */
  lemma ResetInOrder(t: Table, i: nat, x: set<nat> := {})
    requires InOrderBut(t, x) && i < IMAGE_SLOTS
    ensures InOrderBut(WithState(ResetStep(t, i), i, Idle), x - {i})
  {
    ClearedKeeps(t, i, x);
    OrderRecomputed(Cleared(t, i), Some(i), x + {i});
    MarkIdle(ResetStep(t, i), i, x);
  }

  // ---------------------------------------------------------------- conflict sets

  /** Every downloaded slot's conflict list is, as a set, exactly what it still waits for. */
  ghost predicate Exact(t: Table) {
    && Shaped(t) && LinksOk(t)
    && forall i :: 0 <= i < IMAGE_SLOTS && IsDownloaded(t, i) ==> ExactAt(t, i)
  }

  ghost predicate ExactAt(t: Table, i: nat)
    requires Shaped(t) && LinksOk(t) && i < IMAGE_SLOTS
  {
    Ascending(t.insts[i].conflicting) && (set x | x in t.insts[i].conflicting) == Missing(t, i, None)
  }

  /** What a slot waits for depends on versions, links and states only. */
  lemma MissingDepends(t: Table, u: Table, i: nat, r: Option<nat>, s: Option<nat>)
    requires Shaped(t) && Shaped(u) && i < IMAGE_SLOTS && ValidTargets(i, t.insts[i].linked)
    requires u.insts[i].linked == t.insts[i].linked && (TeeTooOld(u) <==> TeeTooOld(t))
    requires forall j :: 0 <= j < IMAGE_SLOTS ==> (Absent(u, j, s) <==> Absent(t, j, r))
    ensures Missing(u, i, s) == Missing(t, i, r)
  {}

  lemma RecomputedExact(t: Table)
    requires Shaped(t) && LinksOk(t)
    ensures Exact(Recomputed(t, None))
  {
    RecomputedKeeps(t, None);
    var u := Recomputed(t, None);
    forall i | 0 <= i < IMAGE_SLOTS && IsDownloaded(u, i) ensures ExactAt(u, i) {
      assert ValidTargets(i, t.insts[i].linked);
      ConflictListSpec(t, i, None);
      MissingDepends(t, u, i, None, None);
    }
  }

  /** After every successful finish the conflict sets are exact. */
  lemma FinishExact(t: Table, i: nat, t': Table, x: set<nat> := {})
    requires InOrderBut(t, x) && i < IMAGE_SLOTS && FinishStep(t, i, t', 0)
    ensures Exact(t')
  {
    CloseKeeps(t, i, x);
    var c := CloseStream(t, i);
    var ps := Bundle(c, i).packages;
    var m: Table, r: int :| UnpackStep(c, i, m, r) && Shaped(m) && AfterUnpack(m, i, ps, r, t', 0);
    UnpackSuccess(c, i, m, x);
    AfterUnpackDone(m, i, ps, t', x);
    RecomputedExact(ProcessAll(m, Addressed(ps)).0);
  }

  /** After every reset, once the library has put the slot back to Idle, the conflict sets are exact. */
  lemma ResetExact(t: Table, i: nat, x: set<nat> := {})
    requires InOrderBut(t, x) && i < IMAGE_SLOTS
    ensures Shaped(ResetStep(t, i)) && Exact(WithState(ResetStep(t, i), i, Idle))
  {
    ClearedKeeps(t, i, x);
    var c := Cleared(t, i);
    RecomputedKeeps(c, Some(i));
    var d := ResetStep(t, i);
    var u := WithState(d, i, Idle);
    forall j | 0 <= j < IMAGE_SLOTS ensures ValidTargets(j, u.insts[j].linked) {
      assert ValidTargets(j, c.insts[j].linked);
    }
    forall j | 0 <= j < IMAGE_SLOTS && IsDownloaded(u, j) ensures ExactAt(u, j) {
      assert ValidTargets(j, c.insts[j].linked);
      ConflictListSpec(c, j, Some(i));
      MissingDepends(c, u, j, Some(i), None);
    }
  }

  /**
   * A reset takes the slot's file, path and links away and closes its stream, and leaves everything else as it is but for
   * the conflict lists of slots that are downloaded.
   */
  lemma ResetLeaves(t: Table, i: nat, j: nat)
    requires Shaped(t) && LinksOk(t) && i < IMAGE_SLOTS && j < IMAGE_SLOTS
    ensures var u := ResetStep(t, i);
            && Shaped(u) && u.nextTemp == t.nextTemp
            && u.files == (if t.slots[i].path.Some? then t.files - {t.slots[i].path.value} else t.files)
            && u.slots[j] == (if j == i then t.slots[i].(path := None, stream := Closed) else t.slots[j])
            && u.insts[j].state == t.insts[j].state && u.insts[j].result == t.insts[j].result
            && u.insts[j].linked == (if j == i then [] else t.insts[j].linked)
            && (!IsDownloaded(t, j) ==> u.insts[j].conflicting == if j == i then [] else t.insts[j].conflicting)
  {
    var c := Cleared(t, i);
    forall k | 0 <= k < IMAGE_SLOTS ensures ValidTargets(k, c.insts[k].linked) { assert ValidTargets(k, t.insts[k].linked); }
    RecomputedKeeps(c, Some(i));
  }

  /** Damage confined to four consecutive bytes of a stored image never passes validation. */
  lemma DamageRejected(t: Table, i: nat, damaged: seq<byte>, at: nat)
    requires Shaped(t) && i < IMAGE_SLOTS && HasFile(t, i) && Validate(t, i) == 0
    requires |damaged| == |File(t, i)| && damaged != File(t, i)
    requires forall k :: 0 <= k < |damaged| && !(at <= k < at + 4) ==> damaged[k] == File(t, i)[k]
    ensures Validate(t.(files := t.files[t.slots[i].path.value := damaged]), i) == ERR_INTEGRITY_FAILURE
  {
    WindowDetected(damaged, File(t, i), at);
  }
}
