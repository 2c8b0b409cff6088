/**
 * What a finish does to the records of all slots, told from the table and the bundle before it, and when the
 * conflict lists stay exact although the finish fails or the library marks its receiver.
 */
module FinishEffects {
  import opened ErrorCodes
  import opened Options
  import opened Bytes
  import opened Crc32
  import opened FirmwareFormat
  import opened FirmwareSlots
  import opened Conflicts
  import opened FirmwareProtocol
  import opened BundleDelivery

  // ---------------------------------------------------------------- which slots are marked

  /** A package the slot will take: its checksum holds, no error is forced, its links are legal, the state allows it. */
  predicate Accepts(t: Table, j: nat, p: Package)
    requires |t.insts| == IMAGE_SLOTS && j < IMAGE_SLOTS
  {
    Acceptable(j, p) && MayBecomeDownloaded(t.insts[j].state)
  }

  /** The same apart from the state of the slot: such a package is validated and its links are stored. */
  predicate Acceptable(j: nat, p: Package) {
    && p.meta.headerVer == HEADER_VER_SINGLE && p.meta.crc == Crc(p.payload) && p.meta.forceError != FORCE_ERROR_OUT_OF_MEMORY
    && ValidTargets(j, LinkedIds(p.meta.linked))
  }

  /** The slots marked from slot k on: processing stops at the first package that is not taken. */
  function MarkedFrom(t: Table, ps: seq<Package>, k: nat): set<nat>
    requires |t.insts| == IMAGE_SLOTS && k <= IMAGE_SLOTS
    decreases IMAGE_SLOTS - k
  {
    if k == IMAGE_SLOTS then {}
    else match PackageFor(ps, k)
      case None => MarkedFrom(t, ps, k + 1)
      case Some(p) => if Accepts(t, k, p) then {k} + MarkedFrom(t, ps, k + 1) else {}
  }

  /** The slots whose links are stored: those marked, and the one that is refused only for its state. */
  function RelinkedFrom(t: Table, ps: seq<Package>, k: nat): set<nat>
    requires |t.insts| == IMAGE_SLOTS && k <= IMAGE_SLOTS
    decreases IMAGE_SLOTS - k
  {
    if k == IMAGE_SLOTS then {}
    else match PackageFor(ps, k)
      case None => RelinkedFrom(t, ps, k + 1)
      case Some(p) => if Accepts(t, k, p) then {k} + RelinkedFrom(t, ps, k + 1) else if Acceptable(k, p) then {k} else {}
  }

  lemma {:induction false} RelinkedAddressed(t: Table, ps: seq<Package>, k: nat, j: nat)
    requires |t.insts| == IMAGE_SLOTS && k <= IMAGE_SLOTS && j in RelinkedFrom(t, ps, k)
    ensures k <= j < IMAGE_SLOTS && PackageFor(ps, j).Some?
    decreases IMAGE_SLOTS - k
  {
    match PackageFor(ps, k)
    case None => RelinkedAddressed(t, ps, k + 1, j);
    case Some(p) => if j != k { RelinkedAddressed(t, ps, k + 1, j); }
  }

  lemma {:induction false} MarkedRelinked(t: Table, ps: seq<Package>, k: nat)
    requires |t.insts| == IMAGE_SLOTS && k <= IMAGE_SLOTS
    ensures MarkedFrom(t, ps, k) <= RelinkedFrom(t, ps, k)
    decreases IMAGE_SLOTS - k
  {
    if k < IMAGE_SLOTS { MarkedRelinked(t, ps, k + 1); }
  }

  lemma {:induction false} MarkedAddressed(t: Table, ps: seq<Package>, k: nat, j: nat)
    requires |t.insts| == IMAGE_SLOTS && k <= IMAGE_SLOTS && j in MarkedFrom(t, ps, k)
    ensures k <= j < IMAGE_SLOTS && PackageFor(ps, j).Some? && Accepts(t, j, PackageFor(ps, j).value)
    decreases IMAGE_SLOTS - k
  {
    match PackageFor(ps, k)
    case None => MarkedAddressed(t, ps, k + 1, j);
    case Some(p) => if j != k { MarkedAddressed(t, ps, k + 1, j); }
  }

  lemma {:induction false} MarkedDepends(t: Table, u: Table, ps: seq<Package>, k: nat)
    requires Shaped(t) && Shaped(u) && k <= IMAGE_SLOTS
    requires forall j :: k <= j < IMAGE_SLOTS ==> u.insts[j].state == t.insts[j].state
    ensures MarkedFrom(u, ps, k) == MarkedFrom(t, ps, k) && RelinkedFrom(u, ps, k) == RelinkedFrom(t, ps, k)
    decreases IMAGE_SLOTS - k
  {
    if k < IMAGE_SLOTS { MarkedDepends(t, u, ps, k + 1); }
  }

  /** One slot is processed: taken and marked, or left in its state. */
  lemma ProcessOne(m: Table, j: nat, p: Package)
    requires Shaped(m) && j < IMAGE_SLOTS && Delivered(m, j, p) && p.meta.magic == MAGICS[j]
    ensures var (u, e) := Process(m, j);
            && (e == 0 <==> Accepts(m, j, p)) && |u.insts| == IMAGE_SLOTS && u.slots == m.slots && u.files == m.files
            && (forall n :: 0 <= n < IMAGE_SLOTS && n != j ==> u.insts[n] == m.insts[n])
            && u.insts[j].conflicting == m.insts[j].conflicting
            && u.insts[j].linked == (if Acceptable(j, p) then LinkedIds(p.meta.linked) else m.insts[j].linked)
            && (if e == 0 then u.insts[j].state.Downloaded? && u.insts[j].result == 0
                else u.insts[j].state == m.insts[j].state && u.insts[j].result == m.insts[j].result)
  {}

  /** The records after processing, slot by slot. */
  ghost predicate Marks(m: Table, u: Table, ps: seq<Package>, marked: set<nat>, relinked: set<nat>)
    requires Shaped(m)
  {
    && |u.insts| == IMAGE_SLOTS && u.slots == m.slots && u.files == m.files
    && (forall j :: 0 <= j < IMAGE_SLOTS ==> MarksAt(m, u, ps, marked, relinked, j))
  }

  ghost predicate MarksAt(m: Table, u: Table, ps: seq<Package>, marked: set<nat>, relinked: set<nat>, j: nat)
    requires Shaped(m) && |u.insts| == IMAGE_SLOTS && j < IMAGE_SLOTS
  {
    && u.insts[j].conflicting == m.insts[j].conflicting
    && (if j in marked then u.insts[j].state.Downloaded? && u.insts[j].result == 0
        else u.insts[j].state == m.insts[j].state && u.insts[j].result == m.insts[j].result)
    && (if j in relinked then PackageFor(ps, j).Some? && u.insts[j].linked == LinkedIds(PackageFor(ps, j).value.meta.linked)
        else u.insts[j].linked == m.insts[j].linked)
  }

  /** Slot k has been processed and taken. */
  ghost predicate TakenAt(m: Table, v: Table, ps: seq<Package>, k: nat)
    requires Shaped(m) && k < IMAGE_SLOTS
  {
    && Shaped(v) && v.slots == m.slots && v.files == m.files && AllDelivered(v, ps)
    && PackageFor(ps, k).Some? && Accepts(m, k, PackageFor(ps, k).value)
    && (forall n :: 0 <= n < IMAGE_SLOTS && n != k ==> v.insts[n] == m.insts[n])
    && v.insts[k].conflicting == m.insts[k].conflicting && v.insts[k].state.Downloaded? && v.insts[k].result == 0
    && v.insts[k].linked == LinkedIds(PackageFor(ps, k).value.meta.linked)
  }

  /** Processing slot by slot, from slot k on. */
  function ProcessFrom(m: Table, ps: seq<Package>, k: nat): (r: (Table, int))
    requires Shaped(m) && k <= IMAGE_SLOTS
    ensures Shaped(r.0)
    decreases IMAGE_SLOTS - k
  {
    if k == IMAGE_SLOTS then (m, 0)
    else if PackageFor(ps, k).None? then ProcessFrom(m, ps, k + 1)
    else
      var (v, e) := Process(m, k);
      if e != 0 then (v, e) else ProcessFrom(v, ps, k + 1)
  }

  lemma {:induction false} ProcessInOrder(m: Table, ps: seq<Package>, k: nat)
    requires Shaped(m) && k <= IMAGE_SLOTS
    ensures ProcessAll(m, AddressedFrom(ps, k)) == ProcessFrom(m, ps, k)
    decreases IMAGE_SLOTS - k
  {
    if k < IMAGE_SLOTS {
      AddressedSplit(ps, k);
      if PackageFor(ps, k).None? {
        ProcessInOrder(m, ps, k + 1);
        assert [] + AddressedFrom(ps, k + 1) == AddressedFrom(ps, k + 1);
      } else {
        ProcessFirst(m, k, AddressedFrom(ps, k + 1));
        var (v, e) := Process(m, k);
        if e == 0 { ProcessInOrder(v, ps, k + 1); }
      }
    }
  }

  lemma ProcessHead(m: Table, ps: seq<Package>, k: nat) returns (v: Table, e: int)
    requires Shaped(m) && k < IMAGE_SLOTS && AllDelivered(m, ps) && PackageFor(ps, k).Some?
    ensures e == 0 ==> TakenAt(m, v, ps, k) == true
    ensures e != 0 ==> Marks(m, v, ps, MarkedFrom(m, ps, k), RelinkedFrom(m, ps, k)) == true
    ensures Shaped(v) && ProcessFrom(m, ps, k) == if e != 0 then (v, e) else ProcessFrom(v, ps, k + 1)
  {
    var p := PackageFor(ps, k).value;
    PackageForIn(ps, k);
    assert Delivered(m, k, p);
    ProcessOne(m, k, p);
    v, e := Process(m, k).0, Process(m, k).1;
    DeliveredStill(m, v, ps);
    if e != 0 { MarksNone(m, v, ps, k, RelinkedFrom(m, ps, k)); }
  }

  lemma {:induction false} ProcessMarks(m: Table, ps: seq<Package>, k: nat)
    requires Shaped(m) && k <= IMAGE_SLOTS && AllDelivered(m, ps)
    ensures Marks(m, ProcessFrom(m, ps, k).0, ps, MarkedFrom(m, ps, k), RelinkedFrom(m, ps, k)) == true
    decreases IMAGE_SLOTS - k
  {
    if k == IMAGE_SLOTS {
      MarksNothing(m, ps);
    } else if PackageFor(ps, k).None? {
      ProcessMarks(m, ps, k + 1);
    } else {
      var v, e := ProcessHead(m, ps, k);
      if e == 0 {
        ProcessMarks(v, ps, k + 1);
        MarksThen(m, v, ProcessFrom(v, ps, k + 1).0, ps, k);
      }
    }
  }

  lemma BundleMarks(m: Table, ps: seq<Package>)
    requires Shaped(m) && AllDelivered(m, ps)
    ensures Marks(m, ProcessAll(m, Addressed(ps)).0, ps, MarkedFrom(m, ps, 0), RelinkedFrom(m, ps, 0)) == true
  {
    ProcessMarks(m, ps, 0);
    ProcessInOrder(m, ps, 0);
  }

  lemma MarksNothing(m: Table, ps: seq<Package>)
    requires Shaped(m)
    ensures Marks(m, m, ps, {}, {}) == true
  {
    forall j | 0 <= j < IMAGE_SLOTS ensures MarksAt(m, m, ps, {}, {}, j) {}
  }

  lemma ProcessFirst(m: Table, k: nat, later: seq<nat>)
    requires Shaped(m) && k < IMAGE_SLOTS && forall n :: 0 <= n < |later| ==> later[n] < IMAGE_SLOTS
    ensures var (v, e) := Process(m, k);
            ProcessAll(m, [k] + later) == if e != 0 then (v, e) else ProcessAll(v, later)
  {
    var ids := [k] + later;
    assert ids[0] == k && ids[1..] == later;
  }

  lemma DeliveredStill(m: Table, v: Table, ps: seq<Package>)
    requires Shaped(m) && Shaped(v) && AllDelivered(m, ps) && v.slots == m.slots && v.files == m.files
    ensures AllDelivered(v, ps)
  {
    forall j | 0 <= j < IMAGE_SLOTS && PackageFor(ps, j).Some? ensures Delivered(v, j, PackageFor(ps, j).value) {
      assert Delivered(m, j, PackageFor(ps, j).value);
    }
  }

  lemma MarksNone(m: Table, v: Table, ps: seq<Package>, k: nat, relinked: set<nat>)
    requires Shaped(m) && k < IMAGE_SLOTS && PackageFor(ps, k).Some? && |v.insts| == IMAGE_SLOTS && relinked <= {k}
    requires v.slots == m.slots && v.files == m.files
    requires forall n :: 0 <= n < IMAGE_SLOTS && n != k ==> v.insts[n] == m.insts[n]
    requires v.insts[k].conflicting == m.insts[k].conflicting && v.insts[k].state == m.insts[k].state && v.insts[k].result == m.insts[k].result
    requires v.insts[k].linked == if k in relinked then LinkedIds(PackageFor(ps, k).value.meta.linked) else m.insts[k].linked
    ensures Marks(m, v, ps, {}, relinked) == true
  {
    forall j | 0 <= j < IMAGE_SLOTS ensures MarksAt(m, v, ps, {}, relinked, j) {}
  }

  lemma MarksThen(m: Table, v: Table, u: Table, ps: seq<Package>, k: nat)
    requires Shaped(m) && k < IMAGE_SLOTS && TakenAt(m, v, ps, k)
    requires Marks(v, u, ps, MarkedFrom(v, ps, k + 1), RelinkedFrom(v, ps, k + 1))
    ensures Marks(m, u, ps, MarkedFrom(m, ps, k), RelinkedFrom(m, ps, k)) == true
  {
    MarkedDepends(m, v, ps, k + 1);
    var marked, relinked := MarkedFrom(m, ps, k + 1), RelinkedFrom(m, ps, k + 1);
    if k in marked { MarkedAddressed(m, ps, k + 1, k); }
    if k in relinked { RelinkedAddressed(m, ps, k + 1, k); }
    forall j | 0 <= j < IMAGE_SLOTS ensures MarksAt(m, u, ps, {k} + marked, {k} + relinked, j) {
      assert MarksAt(v, u, ps, marked, relinked, j);
    }
  }

  // ---------------------------------------------------------------- a whole finish, told from the table before it

  /** No slot is exempt from anything but being vouched for. */
  const EVERYONE: set<nat> := {0, 1, 2, 3}

  /** The bundle in slot i is readable and names no downloaded slot, so its packages will be put in place. */
  ghost predicate Unpacks(c: Table, i: nat)
    requires Shaped(c) && i < IMAGE_SLOTS
  {
    HasFile(c, i) && Bundle(c, i).error == 0 && ClashFrom(c, Bundle(c, i).packages, 0).None?
  }

  lemma OutcomeDecided(c: Table, i: nat, u: Unpacked, l: Table, m: Table, r: int)
    requires Shaped(c) && i < IMAGE_SLOTS && Outcome(c, i, u, l, m, r)
    ensures r == 0 <==> u.error == 0 && ClashFrom(c, u.packages, 0).None?
    ensures Shaped(m) && forall j :: 0 <= j < IMAGE_SLOTS ==>
              && m.insts[j].state == c.insts[j].state && m.insts[j].result == c.insts[j].result && m.insts[j].linked == c.insts[j].linked
              && (j != i ==> m.insts[j].conflicting == c.insts[j].conflicting)
  {}

  lemma UnpackDecided(c: Table, i: nat, m: Table, r: int)
    requires Shaped(c) && i < IMAGE_SLOTS && UnpackStep(c, i, m, r)
    ensures r == 0 <==> Unpacks(c, i)
    ensures Shaped(m) && forall j :: 0 <= j < IMAGE_SLOTS ==>
              && m.insts[j].state == c.insts[j].state && m.insts[j].result == c.insts[j].result && m.insts[j].linked == c.insts[j].linked
              && (j != i ==> m.insts[j].conflicting == c.insts[j].conflicting)
  {
    if HasFile(c, i) {
      var u := Bundle(c, i);
      var l: Table :| Outcome(c, i, u, l, m, r);
      OutcomeDecided(c, i, u, l, m, r);
    }
  }

  /** What a failed finish makes of slot j; ps are the packages put in place, none if the bundle could not be unpacked. */
  ghost predicate FailedAt(c: Table, i: nat, ps: seq<Package>, u: Table, j: nat)
    requires Shaped(c) && Shaped(u) && i < IMAGE_SLOTS && j < IMAGE_SLOTS
  {
    && (if j in MarkedFrom(c, ps, 0) then u.insts[j].state.Downloaded? && u.insts[j].result == 0
        else u.insts[j].state == c.insts[j].state && u.insts[j].result == c.insts[j].result)
    && (if j in RelinkedFrom(c, ps, 0) then
          PackageFor(ps, j).Some? && u.insts[j].linked == LinkedIds(PackageFor(ps, j).value.meta.linked)
        else u.insts[j].linked == c.insts[j].linked)
    && (j != i ==> u.insts[j].conflicting == c.insts[j].conflicting)
    && (j != i ==> match PackageFor(ps, j) case Some(p) => Delivered(u, j, p) case None => SameSlot(c, u, j))
  }

  /** The packages that finishing slot i will put in place: none without a download or if the bundle cannot be unpacked. */
  ghost function PutInPlace(t: Table, i: nat): seq<Package>
    requires Shaped(t) && i < IMAGE_SLOTS
  {
    var c := CloseStream(t, i);
    if !t.slots[i].stream.Closed? && Unpacks(c, i) then Bundle(c, i).packages else []
  }

  lemma FailedProcessing(c: Table, i: nat, ps: seq<Package>, m: Table, u: Table, r: int, j: nat)
    requires Shaped(c) && i < IMAGE_SLOTS && j < IMAGE_SLOTS && c.slots[i].stream.Closed? && InOrderBut(m, EVERYONE)
    requires m.insts == c.insts && AllDelivered(m, ps) && AfterUnpack(m, i, ps, 0, u, r) && r != 0
    requires forall n :: 0 <= n < IMAGE_SLOTS && PackageFor(ps, n).None? ==> SameSlot(c, m, n)
    ensures Shaped(u) && FailedAt(c, i, ps, u, j) == true
  {
    var p := ProcessAll(m, Addressed(ps)).0;
    BundleMarks(m, ps);
    MarkedDepends(c, m, ps, 0);
    ReceiverClosed(c, i, m, ps);
    FailedDelivery(c, i, ps, m, p, j);
  }

  lemma FailedDelivery(c: Table, i: nat, ps: seq<Package>, m: Table, p: Table, j: nat)
    requires Shaped(c) && i < IMAGE_SLOTS && j < IMAGE_SLOTS && Tidy(m) && !m.slots[i].stream.Attached?
    requires m.insts == c.insts && AllDelivered(m, ps) && p.nextTemp == m.nextTemp && Marks(m, p, ps, MarkedFrom(c, ps, 0), RelinkedFrom(c, ps, 0))
    requires PackageFor(ps, j).None? ==> SameSlot(c, m, j)
    ensures Shaped(p) && FailedAt(c, i, ps, DeleteFile(p, i), j) == true
  {
    TidyIgnoresRecords(m, p);
    DeleteFileKeeps(p, i);
    assert MarksAt(m, p, ps, MarkedFrom(c, ps, 0), RelinkedFrom(c, ps, 0), j);
    if j != i {
      assert SameSlot(p, DeleteFile(p, i), j);
      if PackageFor(ps, j).Some? { assert Delivered(m, j, PackageFor(ps, j).value); }
    }
  }

  /** Nothing has been put in place. */
  lemma FailedUnpacking(c: Table, i: nat, m: Table, u: Table, j: nat)
    requires Shaped(c) && Tidy(m) && i < IMAGE_SLOTS && j < IMAGE_SLOTS && m.slots[i].stream.Closed? && u == DeleteFile(m, i)
    requires m.insts[j].state == c.insts[j].state && m.insts[j].result == c.insts[j].result && m.insts[j].linked == c.insts[j].linked
    requires j != i ==> m.insts[j].conflicting == c.insts[j].conflicting && SameSlot(c, m, j)
    ensures FailedAt(c, i, [], u, j) == true
  {
    DeleteFileKeeps(m, i);
    NothingMarked(c, 0);
    if j != i { assert SameSlot(m, u, j); }
  }

  lemma {:induction false} NothingMarked(t: Table, k: nat)
    requires |t.insts| == IMAGE_SLOTS && k <= IMAGE_SLOTS
    ensures MarkedFrom(t, [], k) == {} && RelinkedFrom(t, [], k) == {}
    decreases IMAGE_SLOTS - k
  {
    if k < IMAGE_SLOTS { NothingMarked(t, k + 1); }
  }

  lemma FailedBefore(t: Table, i: nat, ps: seq<Package>, u: Table, j: nat)
    requires Shaped(t) && Shaped(u) && i < IMAGE_SLOTS && j < IMAGE_SLOTS && FailedAt(CloseStream(t, i), i, ps, u, j)
    ensures FailedAt(t, i, ps, u, j) == true
  {
    MarkedDepends(t, CloseStream(t, i), ps, 0);
  }

  /** A failed finish, told from the table before it. */
  lemma FailedFinish(t: Table, i: nat, u: Table, r: int, j: nat)
    requires InOrderBut(t, EVERYONE) && i < IMAGE_SLOTS && j < IMAGE_SLOTS && FinishStep(t, i, u, r) && r != 0
    ensures Shaped(u) && FailedAt(t, i, PutInPlace(t, i), u, j) == true
  {
    if t.slots[i].stream.Closed? {
      NothingMarked(t, 0);
    } else {
      CloseKeeps(t, i, EVERYONE);
      var c := CloseStream(t, i);
      var ps := Bundle(c, i).packages;
      var m: Table, e: int :| UnpackStep(c, i, m, e) && Shaped(m) && AfterUnpack(m, i, ps, e, u, r);
      UnpackDecided(c, i, m, e);
      if e == 0 {
        UnpackSuccess(c, i, m, EVERYONE);
        FailedProcessing(c, i, ps, m, u, r, j);
      } else {
        UnpackFailureIsolated(c, i, m, e);
        FailedUnpacking(c, i, m, u, j);
      }
      FailedBefore(t, i, PutInPlace(t, i), u, j);
    }
  }

  /** What a successful finish makes of slot j, before the library marks the receiver. */
  ghost predicate SucceededAt(t: Table, i: nat, ps: seq<Package>, u: Table, j: nat)
    requires Shaped(t) && Shaped(u) && i < IMAGE_SLOTS && j < IMAGE_SLOTS
  {
    match PackageFor(ps, j)
    case Some(p) =>
      && Accepts(t, j, p) && (t.insts[j].state.Idle? || t.insts[j].state.Downloading?)
      && IsDownloaded(u, j) && u.insts[j].result == 0 && u.insts[j].linked == LinkedIds(p.meta.linked) && Delivered(u, j, p)
    case None =>
      && u.insts[j].state == t.insts[j].state && u.insts[j].result == t.insts[j].result && u.insts[j].linked == t.insts[j].linked
      && (!IsDownloaded(t, j) ==> u.insts[j].conflicting == t.insts[j].conflicting)
      && SameSlot(CloseStream(t, i), u, j)
  }

  /** The same, told from the table with the stream closed. */
  ghost predicate ProcessedAt(c: Table, ps: seq<Package>, u: Table, j: nat)
    requires Shaped(c) && Shaped(u) && j < IMAGE_SLOTS
  {
    match PackageFor(ps, j)
    case Some(p) =>
      && Accepts(c, j, p) && IsDownloaded(u, j) && u.insts[j].result == 0
      && u.insts[j].linked == LinkedIds(p.meta.linked) && Delivered(u, j, p)
    case None =>
      && u.insts[j].state == c.insts[j].state && u.insts[j].result == c.insts[j].result && u.insts[j].linked == c.insts[j].linked
      && (!IsDownloaded(c, j) ==> u.insts[j].conflicting == c.insts[j].conflicting) && SameSlot(c, u, j)
  }

  lemma ProcessedSucceeded(t: Table, i: nat, ps: seq<Package>, u: Table, j: nat)
    requires Shaped(t) && Shaped(u) && i < IMAGE_SLOTS && j < IMAGE_SLOTS && ProcessedAt(CloseStream(t, i), ps, u, j)
    ensures SucceededAt(t, i, ps, u, j) == true
  {}

  lemma SuccessfulProcessing(c: Table, i: nat, ps: seq<Package>, m: Table, u: Table, j: nat)
    requires Shaped(c) && i < IMAGE_SLOTS && j < IMAGE_SLOTS && InOrderBut(m, EVERYONE)
    requires m.insts == c.insts && AllDelivered(m, ps) && AfterUnpack(m, i, ps, 0, u, 0)
    requires PackageFor(ps, j).None? ==> SameSlot(c, m, j)
    requires PackageFor(ps, j).Some? ==> !IsDownloaded(c, j)
    ensures Shaped(u)
    ensures ProcessedAt(c, ps, u, j) == true
  {
    AfterUnpackDone(m, i, ps, u, EVERYONE);
    var p := ProcessAll(m, Addressed(ps)).0;
    BundleMarks(m, ps);
    RecomputedKeeps(p, None);
    assert MarksAt(m, p, ps, MarkedFrom(m, ps, 0), RelinkedFrom(m, ps, 0), j);
    MarkedRelinked(m, ps, 0);
    if PackageFor(ps, j).Some? {
      assert Delivered(m, j, PackageFor(ps, j).value);
      assert j in MarkedFrom(m, ps, 0);
      MarkedAddressed(m, ps, 0, j);
    }
  }

  /** A successful finish, told from the table before it. */
  lemma SuccessfulFinish(t: Table, i: nat, u: Table, j: nat)
    requires InOrderBut(t, EVERYONE) && i < IMAGE_SLOTS && j < IMAGE_SLOTS && FinishStep(t, i, u, 0)
    ensures Shaped(u) && SucceededAt(t, i, PutInPlace(t, i), u, j) == true
    ensures PutInPlace(t, i) == Bundle(CloseStream(t, i), i).packages
  {
    CloseKeeps(t, i, EVERYONE);
    var c := CloseStream(t, i);
    var ps := Bundle(c, i).packages;
    var m: Table, e: int :| UnpackStep(c, i, m, e) && Shaped(m) && AfterUnpack(m, i, ps, e, u, 0);
    UnpackDecided(c, i, m, e);
    UnpackSuccess(c, i, m, EVERYONE);
    if PackageFor(ps, j).Some? { NoClash(c, ps, 0, j); }
    SuccessfulProcessing(c, i, ps, m, u, j);
    ProcessedSucceeded(t, i, ps, u, j);
  }

  // ---------------------------------------------------------------- whether a finish succeeds

  /** Every package from slot k on will be taken. */
  ghost predicate AllTaken(t: Table, ps: seq<Package>, k: nat)
    requires |t.insts| == IMAGE_SLOTS && k <= IMAGE_SLOTS
  {
    forall j :: k <= j < IMAGE_SLOTS && PackageFor(ps, j).Some? ==> Accepts(t, j, PackageFor(ps, j).value)
  }

  lemma {:induction false} ProcessDecided(m: Table, ps: seq<Package>, k: nat)
    requires Shaped(m) && k <= IMAGE_SLOTS && AllDelivered(m, ps)
    ensures ProcessFrom(m, ps, k).1 == 0 <==> AllTaken(m, ps, k)
    decreases IMAGE_SLOTS - k
  {
    if k < IMAGE_SLOTS {
      if PackageFor(ps, k).None? {
        ProcessDecided(m, ps, k + 1);
      } else {
        var p := PackageFor(ps, k).value;
        PackageForIn(ps, k);
        assert Delivered(m, k, p);
        ProcessOne(m, k, p);
        var v := Process(m, k).0;
        DeliveredStill(m, v, ps);
        ProcessDecided(v, ps, k + 1);
        assert AllTaken(v, ps, k + 1) <==> AllTaken(m, ps, k + 1);
      }
    }
  }

  /** Told beforehand: the bundle can be unpacked and every package in it will be taken. */
  ghost predicate Succeeds(t: Table, i: nat)
    requires Shaped(t) && i < IMAGE_SLOTS
  {
    !t.slots[i].stream.Closed? && Unpacks(CloseStream(t, i), i) && AllTaken(t, PutInPlace(t, i), 0)
  }

  lemma ProcessingDecided(c: Table, i: nat, ps: seq<Package>, m: Table, u: Table, r: int)
    requires Shaped(c) && Shaped(m) && i < IMAGE_SLOTS && m.insts == c.insts && AllDelivered(m, ps) && AfterUnpack(m, i, ps, 0, u, r)
    ensures r == 0 <==> AllTaken(c, ps, 0)
  {
    ProcessInOrder(m, ps, 0);
    ProcessDecided(m, ps, 0);
    assert AllTaken(m, ps, 0) <==> AllTaken(c, ps, 0);
  }

  /** A finish succeeds if and only if this could be told beforehand. */
  lemma FinishDecided(t: Table, i: nat, u: Table, r: int)
    requires InOrderBut(t, EVERYONE) && i < IMAGE_SLOTS && FinishStep(t, i, u, r)
    ensures r == 0 <==> Succeeds(t, i)
  {
    if !t.slots[i].stream.Closed? {
      CloseKeeps(t, i, EVERYONE);
      var c := CloseStream(t, i);
      var ps := Bundle(c, i).packages;
      var m: Table, e: int :| UnpackStep(c, i, m, e) && Shaped(m) && AfterUnpack(m, i, ps, e, u, r);
      UnpackDecided(c, i, m, e);
      if e == 0 {
        UnpackSuccess(c, i, m, EVERYONE);
        ProcessingDecided(c, i, ps, m, u, r);
        assert AllTaken(c, ps, 0) <==> AllTaken(t, ps, 0);
      }
    }
  }

  // ---------------------------------------------------------------- which code a finish returns

  /** Why a package is not taken: its type, its checksum, a forced error, or its links or the state of its slot. */
  function Refusal(t: Table, j: nat, p: Package): int
    requires |t.insts| == IMAGE_SLOTS && j < IMAGE_SLOTS
  {
    if p.meta.headerVer != HEADER_VER_SINGLE then ERR_UNSUPPORTED_PACKAGE_TYPE
    else if p.meta.crc != Crc(p.payload) then ERR_INTEGRITY_FAILURE
    else if p.meta.forceError == FORCE_ERROR_OUT_OF_MEMORY then ERR_OUT_OF_MEMORY
    else if Accepts(t, j, p) then 0 else ERR_GENERIC
  }

  /** The reason for the first package from slot k on that is not taken. */
  function FirstRefusal(t: Table, ps: seq<Package>, k: nat): int
    requires |t.insts| == IMAGE_SLOTS && k <= IMAGE_SLOTS
    decreases IMAGE_SLOTS - k
  {
    if k == IMAGE_SLOTS then 0
    else if PackageFor(ps, k).Some? && Refusal(t, k, PackageFor(ps, k).value) != 0 then Refusal(t, k, PackageFor(ps, k).value)
    else FirstRefusal(t, ps, k + 1)
  }

  /** What a finish of slot i will return. */
  ghost function FinishCode(t: Table, i: nat): int
    requires Shaped(t) && i < IMAGE_SLOTS
  {
    var c := CloseStream(t, i);
    if t.slots[i].stream.Closed? || !HasFile(c, i) then ERR_GENERIC
    else if Bundle(c, i).error != 0 then Bundle(c, i).error
    else if ClashFrom(c, Bundle(c, i).packages, 0).Some? then ERR_CONFLICTING_STATE
    else FirstRefusal(t, Bundle(c, i).packages, 0)
  }

  lemma RefusalIs(m: Table, j: nat, p: Package)
    requires Shaped(m) && j < IMAGE_SLOTS && Delivered(m, j, p) && p.meta.magic == MAGICS[j]
    ensures Process(m, j).1 == Refusal(m, j, p)
  {}

  lemma {:induction false} RefusalDepends(t: Table, u: Table, ps: seq<Package>, k: nat)
    requires Shaped(t) && Shaped(u) && k <= IMAGE_SLOTS && forall j :: k <= j < IMAGE_SLOTS ==> u.insts[j].state == t.insts[j].state
    ensures FirstRefusal(u, ps, k) == FirstRefusal(t, ps, k)
    decreases IMAGE_SLOTS - k
  {
    if k < IMAGE_SLOTS { RefusalDepends(t, u, ps, k + 1); }
  }

  lemma {:induction false} ProcessCode(m: Table, ps: seq<Package>, k: nat)
    requires Shaped(m) && k <= IMAGE_SLOTS && AllDelivered(m, ps)
    ensures ProcessFrom(m, ps, k).1 == FirstRefusal(m, ps, k)
    decreases IMAGE_SLOTS - k
  {
    if k < IMAGE_SLOTS {
      if PackageFor(ps, k).None? {
        ProcessCode(m, ps, k + 1);
      } else {
        var p := PackageFor(ps, k).value;
        PackageForIn(ps, k);
        assert Delivered(m, k, p);
        RefusalIs(m, k, p);
        ProcessOne(m, k, p);
        var v := Process(m, k).0;
        DeliveredStill(m, v, ps);
        ProcessCode(v, ps, k + 1);
        RefusalDepends(m, v, ps, k + 1);
      }
    }
  }

  lemma OutcomeCode(c: Table, i: nat, u: Unpacked, l: Table, m: Table, r: int)
    requires Shaped(c) && i < IMAGE_SLOTS && Outcome(c, i, u, l, m, r)
    ensures r == if u.error != 0 then u.error else if ClashFrom(c, u.packages, 0).Some? then ERR_CONFLICTING_STATE else 0
    ensures Shaped(m) && m.insts[i].conflicting ==
              match ClashFrom(c, u.packages, 0)
              case Some(x) => if u.error == 0 && x != i then [x] else c.insts[i].conflicting
              case None => c.insts[i].conflicting
  {
    ClashAbove(c, u.packages, 0);
    if u.error == 0 && ClashFrom(c, u.packages, 0).Some? { OneTarget(i, ClashFrom(c, u.packages, 0).value); }
  }

  lemma OneTarget(i: nat, x: nat)
    requires x < IMAGE_SLOTS
    ensures ValidTargets(i, [x]) <==> x != i
  {
    assert [x][0] == x;
  }

  lemma ProcessingCode(c: Table, i: nat, ps: seq<Package>, m: Table, u: Table, r: int)
    requires Shaped(c) && Shaped(m) && i < IMAGE_SLOTS && m.insts == c.insts && AllDelivered(m, ps) && AfterUnpack(m, i, ps, 0, u, r)
    ensures r == FirstRefusal(c, ps, 0)
    ensures r != 0 ==> Shaped(u) && u.insts[i].conflicting == c.insts[i].conflicting
  {
    ProcessInOrder(m, ps, 0);
    ProcessCode(m, ps, 0);
    RefusalDepends(c, m, ps, 0);
    BundleMarks(m, ps);
    assert MarksAt(m, ProcessAll(m, Addressed(ps)).0, ps, MarkedFrom(m, ps, 0), RelinkedFrom(m, ps, 0), i);
  }

  /** The receiver's conflict list after a failed finish: the slot that was in the way, if that is why it failed. */
  ghost function ListAfterFailure(t: Table, i: nat): seq<nat>
    requires Shaped(t) && i < IMAGE_SLOTS
  {
    var c := CloseStream(t, i);
    var x := ClashFrom(c, Bundle(c, i).packages, 0);
    if !t.slots[i].stream.Closed? && HasFile(c, i) && Bundle(c, i).error == 0 && x.Some? && x.value != i then [x.value]
    else t.insts[i].conflicting
  }

  lemma UnpackCode(c: Table, i: nat, m: Table, e: int)
    requires Shaped(c) && i < IMAGE_SLOTS && UnpackStep(c, i, m, e)
    ensures var b := Bundle(c, i);
            e == if !HasFile(c, i) then ERR_GENERIC
                 else if b.error != 0 then b.error else if ClashFrom(c, b.packages, 0).Some? then ERR_CONFLICTING_STATE else 0
    ensures Shaped(m) && m.insts[i].conflicting ==
              match ClashFrom(c, Bundle(c, i).packages, 0)
              case Some(x) => if HasFile(c, i) && Bundle(c, i).error == 0 && x != i then [x] else c.insts[i].conflicting
              case None => c.insts[i].conflicting
  {
    if HasFile(c, i) {
      var b := Bundle(c, i);
      var l: Table :| Outcome(c, i, b, l, m, e);
      OutcomeCode(c, i, b, l, m, e);
    }
  }

  /** Which code a finish returns can be told beforehand, and so can the receiver's conflict list if it fails. */
  lemma FinishCodeForetold(t: Table, i: nat, u: Table, r: int)
    requires InOrderBut(t, EVERYONE) && i < IMAGE_SLOTS && FinishStep(t, i, u, r)
    ensures r == FinishCode(t, i)
    ensures r != 0 ==> Shaped(u) && u.insts[i].conflicting == ListAfterFailure(t, i)
  {
    if !t.slots[i].stream.Closed? {
      CloseKeeps(t, i, EVERYONE);
      var c := CloseStream(t, i);
      var ps := Bundle(c, i).packages;
      var m: Table, e: int :| UnpackStep(c, i, m, e) && Shaped(m) && AfterUnpack(m, i, ps, e, u, r);
      UnpackCode(c, i, m, e);
      RefusalDepends(t, c, ps, 0);
      if e == 0 {
        UnpackSuccess(c, i, m, EVERYONE);
        ProcessingCode(c, i, ps, m, u, r);
      }
    }
  }

  // ---------------------------------------------------------------- when conflict lists stay exact

  /** Whether a slot's list is exact, element by element. */
  lemma ExactElements(t: Table, j: nat)
    requires Shaped(t) && LinksOk(t) && j < IMAGE_SLOTS
    ensures ExactAt(t, j) <==> Ascending(t.insts[j].conflicting) && forall x :: x in t.insts[j].conflicting <==> Awaits(t, j, x)
  {
    assert ValidTargets(j, t.insts[j].linked);
    var missing, list := Missing(t, j, None), t.insts[j].conflicting;
    forall x ensures x in missing <==> Awaits(t, j, x) {}
    if ExactAt(t, j) {
      forall x ensures x in list <==> Awaits(t, j, x) { assert x in list <==> x in (set y | y in list); }
    }
  }

  ghost predicate Awaits(t: Table, j: nat, x: nat)
    requires Shaped(t) && j < IMAGE_SLOTS
  {
    (x in t.insts[j].linked && x < IMAGE_SLOTS && !IsDownloaded(t, x)) || (j == APP && x == TEE && TeeTooOld(t))
  }

  /** A list that was exact, for links that have not changed, is exact still if and only if no linked slot came or went. */
  lemma StillExact(t: Table, v: Table, j: nat)
    requires Exact(t) && Shaped(v) && LinksOk(v) && j < IMAGE_SLOTS && IsDownloaded(t, j)
    requires v.insts[j].linked == t.insts[j].linked && v.insts[j].conflicting == t.insts[j].conflicting
    requires j == APP ==> (TeeTooOld(v) <==> TeeTooOld(t))
    ensures ExactAt(v, j) <==> forall x :: x in t.insts[j].linked && x < IMAGE_SLOTS && (IsDownloaded(v, x) <==> !IsDownloaded(t, x)) ==>
                                 j == APP && x == TEE && TeeTooOld(t)
  {
    ExactElements(t, j);
    ExactElements(v, j);
    if ExactAt(v, j) {
      forall x | x in t.insts[j].linked && x < IMAGE_SLOTS && (IsDownloaded(v, x) <==> !IsDownloaded(t, x))
        ensures j == APP && x == TEE && TeeTooOld(t)
      {
        assert Awaits(v, j, x) <==> Awaits(t, j, x);
      }
    } else {
      var x :| Awaits(v, j, x) <==> !Awaits(t, j, x);
    }
  }

  lemma {:induction false} CommitVersions(t: Table, ps: seq<Package>, k: nat, j: nat)
    requires |t.slots| == IMAGE_SLOTS && k <= IMAGE_SLOTS && j < IMAGE_SLOTS
    ensures CommitFrom(t, ps, k).slots[j].currentVer == t.slots[j].currentVer
    decreases IMAGE_SLOTS - k
  {
    if k < IMAGE_SLOTS {
      match PackageFor(ps, k)
      case None => CommitVersions(t, ps, k + 1, j);
      case Some(p) => CommitVersions(CommitOne(t, k, p), ps, k + 1, j);
    }
  }

  lemma OutcomeVersions(c: Table, i: nat, u: Unpacked, l: Table, m: Table, r: int, j: nat)
    requires Shaped(c) && i < IMAGE_SLOTS && j < IMAGE_SLOTS && Outcome(c, i, u, l, m, r)
    ensures |m.slots| == IMAGE_SLOTS && m.slots[j].currentVer == c.slots[j].currentVer
  {
    if r == 0 { CommitVersions(l, u.packages, 0, j); }
  }

  lemma ProcessingVersions(m: Table, i: nat, ps: seq<Package>, e: int, u: Table, r: int, j: nat)
    requires Shaped(m) && i < IMAGE_SLOTS && j < IMAGE_SLOTS && AfterUnpack(m, i, ps, e, u, r)
    ensures |u.slots| == IMAGE_SLOTS && u.slots[j].currentVer == m.slots[j].currentVer
  {}

  lemma UnpackVersions(c: Table, i: nat, m: Table, e: int, j: nat)
    requires Shaped(c) && i < IMAGE_SLOTS && j < IMAGE_SLOTS && UnpackStep(c, i, m, e)
    ensures |m.slots| == IMAGE_SLOTS && m.slots[j].currentVer == c.slots[j].currentVer
  {
    if HasFile(c, i) {
      var b := Bundle(c, i);
      var l: Table :| Outcome(c, i, b, l, m, e);
      OutcomeVersions(c, i, b, l, m, e, j);
    }
  }

  /** A finish does not change what runs now. */
  lemma VersionsKept(t: Table, i: nat, u: Table, r: int, j: nat)
    requires Shaped(t) && i < IMAGE_SLOTS && j < IMAGE_SLOTS && FinishStep(t, i, u, r)
    ensures |u.slots| == IMAGE_SLOTS && u.slots[j].currentVer == t.slots[j].currentVer
  {
    if !t.slots[i].stream.Closed? {
      var c := CloseStream(t, i);
      var ps := Bundle(c, i).packages;
      var m: Table, e: int :| UnpackStep(c, i, m, e) && Shaped(m) && AfterUnpack(m, i, ps, e, u, r);
      UnpackVersions(c, i, m, e, j);
      ProcessingVersions(m, i, ps, e, u, r, j);
    }
  }

  /** With these slots downloaded, the list names what image j with this header waits for. */
  ghost predicate ListFits(list: seq<nat>, j: nat, linked: seq<nat>, downloaded: set<nat>, tooOld: bool) {
    && Ascending(list)
    && (forall x :: x in list <==> (x in linked && x !in downloaded) || (j == APP && x == TEE && tooOld))
  }

  /** No slot that image j is linked to comes or goes, unless it is awaited for its version anyway. */
  ghost predicate Undisturbed(t: Table, j: nat, downloaded: set<nat>)
    requires Shaped(t) && j < IMAGE_SLOTS
  {
    forall x :: x in t.insts[j].linked && x < IMAGE_SLOTS && (x in downloaded <==> !IsDownloaded(t, x)) ==>
      j == APP && x == TEE && TeeTooOld(t)
  }

  ghost predicate AreDownloaded(v: Table, downloaded: set<nat>)
    requires Shaped(v)
  {
    forall x :: 0 <= x < IMAGE_SLOTS ==> (IsDownloaded(v, x) <==> x in downloaded)
  }

  lemma NewListExact(v: Table, j: nat, downloaded: set<nat>)
    requires Shaped(v) && LinksOk(v) && j < IMAGE_SLOTS && AreDownloaded(v, downloaded)
    ensures ExactAt(v, j) <==> ListFits(v.insts[j].conflicting, j, v.insts[j].linked, downloaded, TeeTooOld(v))
  {
    ExactElements(v, j);
    assert ValidTargets(j, v.insts[j].linked);
    forall x | x in v.insts[j].linked ensures x < IMAGE_SLOTS {
      var k :| 0 <= k < |v.insts[j].linked| && v.insts[j].linked[k] == x;
    }
    forall x ensures Awaits(v, j, x) <==> (x in v.insts[j].linked && x !in downloaded) || (j == APP && x == TEE && TeeTooOld(v)) {}
  }

  lemma OldListExact(t: Table, v: Table, j: nat, downloaded: set<nat>)
    requires Exact(t) && Shaped(v) && LinksOk(v) && j < IMAGE_SLOTS && IsDownloaded(t, j) && AreDownloaded(v, downloaded)
    requires v.insts[j].linked == t.insts[j].linked && v.insts[j].conflicting == t.insts[j].conflicting
    requires j == APP ==> (TeeTooOld(v) <==> TeeTooOld(t))
    ensures ExactAt(v, j) <==> Undisturbed(t, j, downloaded)
  {
    StillExact(t, v, j);
  }

  /** The slots that will be downloaded once a finish of slot i has failed and the library has put that slot back. */
  ghost function KeptAfterFailure(t: Table, i: nat): set<nat>
    requires Shaped(t) && i < IMAGE_SLOTS
  {
    set j | 0 <= j < IMAGE_SLOTS && j != i && (IsDownloaded(t, j) || j in MarkedFrom(t, PutInPlace(t, i), 0))
  }

  /** A newly marked slot's old list fits its new image; any other slot is undisturbed. */
  ghost predicate ExactAfterFailure(t: Table, ps: seq<Package>, kept: set<nat>, j: nat)
    requires Shaped(t) && j < IMAGE_SLOTS
  {
    if j in MarkedFrom(t, ps, 0) && PackageFor(ps, j).Some? then
      var m := PackageFor(ps, j).value.meta;
      ListFits(t.insts[j].conflicting, j, LinkedIds(m.linked), kept, FirstChar(m.pkgVer) > FirstChar(t.slots[TEE].currentVer))
    else Undisturbed(t, j, kept)
  }

  lemma FailedMarked(t: Table, i: nat, ps: seq<Package>, u: Table, j: nat)
    requires Shaped(t) && Shaped(u) && i < IMAGE_SLOTS && j < IMAGE_SLOTS && FailedAt(t, i, ps, u, j)
    ensures var v := WithState(u, i, Idle);
            && Shaped(v) && (j != i ==> FailedAt(t, i, ps, v, j) == true)
            && (IsDownloaded(v, j) <==> j != i && (IsDownloaded(t, j) || j in MarkedFrom(t, ps, 0)))
  {}

  /** The table after a failed finish and the library's mark, as far as slot j's list depends on it. */
  lemma FailedState(t: Table, i: nat, u: Table, r: int, j: nat)
    requires InOrderBut(t, EVERYONE) && i < IMAGE_SLOTS && FinishStep(t, i, u, r) && r != 0 && j < IMAGE_SLOTS && Shaped(u)
    ensures var v := LibraryMark(u, i, r);
            && Shaped(v) && (IsDownloaded(v, j) <==> j in KeptAfterFailure(t, i))
            && v.slots[TEE].currentVer == t.slots[TEE].currentVer && (j != i ==> FailedAt(t, i, PutInPlace(t, i), v, j) == true)
  {
    FailedFinish(t, i, u, r, j);
    FailedMarked(t, i, PutInPlace(t, i), u, j);
    VersionsKept(t, i, u, r, TEE);
  }

  /** Nothing is put in place where an image is downloaded already. */
  lemma PlacedElsewhere(t: Table, i: nat, j: nat)
    requires Shaped(t) && i < IMAGE_SLOTS && j < IMAGE_SLOTS && IsDownloaded(t, j)
    ensures PackageFor(PutInPlace(t, i), j).None?
  {
    var c, ps := CloseStream(t, i), PutInPlace(t, i);
    if PackageFor(ps, j).Some? {
      NoClash(c, ps, 0, j);
      assert false;
    }
  }

  lemma FailedExactAt(t: Table, i: nat, ps: seq<Package>, v: Table, kept: set<nat>, j: nat)
    requires Exact(t) && i < IMAGE_SLOTS && Shaped(v) && LinksOk(v) && AreDownloaded(v, kept)
    requires j < IMAGE_SLOTS && j != i && IsDownloaded(v, j) && FailedAt(t, i, ps, v, j)
    requires v.slots[TEE].currentVer == t.slots[TEE].currentVer && (IsDownloaded(t, j) ==> PackageFor(ps, j).None?)
    ensures ExactAt(v, j) <==> ExactAfterFailure(t, ps, kept, j)
  {
    MarkedRelinked(t, ps, 0);
    if j in MarkedFrom(t, ps, 0) { NewListExact(v, j, kept); } else { NotMarked(t, i, ps, v, j); OldListExact(t, v, j, kept); }
  }

  /** A downloaded slot that was not marked was downloaded before, so nothing has been put in place there. */
  lemma NotMarked(t: Table, i: nat, ps: seq<Package>, v: Table, j: nat)
    requires Shaped(t) && Shaped(v) && i < IMAGE_SLOTS && j < IMAGE_SLOTS && j != i && IsDownloaded(v, j)
    requires FailedAt(t, i, ps, v, j) && j !in MarkedFrom(t, ps, 0) && (IsDownloaded(t, j) ==> PackageFor(ps, j).None?)
    ensures IsDownloaded(t, j) && SameSlot(t, v, j) && v.insts[j].linked == t.insts[j].linked
  {}

  /**
   * A failed finish, once the library has put the receiver back to Idle, keeps the conflict lists exact if and only if
   * the old lists of the slots it has marked fit their new images and no slot comes or goes that a downloaded image is linked to.
   */
  lemma FailedFinishExact(t: Table, i: nat, u: Table, r: int)
    requires InOrderBut(t, EVERYONE) && Exact(t) && i < IMAGE_SLOTS && FinishStep(t, i, u, r) && r != 0
    ensures Shaped(u)
    ensures Exact(LibraryMark(u, i, r)) <==>
              forall j :: j in KeptAfterFailure(t, i) ==> ExactAfterFailure(t, PutInPlace(t, i), KeptAfterFailure(t, i), j)
  {
    FinishFailureSound(t, i, u, r, EVERYONE);
    MarkIdle(u, i, EVERYONE);
    var v, ps, kept := LibraryMark(u, i, r), PutInPlace(t, i), KeptAfterFailure(t, i);
    assert AreDownloaded(v, kept) by {
      forall j | 0 <= j < IMAGE_SLOTS ensures IsDownloaded(v, j) <==> j in kept { FailedState(t, i, u, r, j); }
    }
    forall j | j in kept ensures ExactAt(v, j) <==> ExactAfterFailure(t, ps, kept, j) {
      FailedState(t, i, u, r, j);
      if IsDownloaded(t, j) { PlacedElsewhere(t, i, j); }
      FailedExactAt(t, i, ps, v, kept, j);
    }
  }

  // ---------------------------------------------------------------- a successful finish, with the library's mark

  function LinksWith(t: Table, ps: seq<Package>, j: nat): seq<nat>
    requires |t.insts| == IMAGE_SLOTS && j < IMAGE_SLOTS
  {
    match PackageFor(ps, j) case Some(p) => LinkedIds(p.meta.linked) case None => t.insts[j].linked
  }

  /** The version rule once these packages are in place. */
  predicate TooOldWith(t: Table, ps: seq<Package>)
    requires |t.slots| == IMAGE_SLOTS
  {
    var m := match PackageFor(ps, APP) case Some(p) => p.meta case None => t.slots[APP].meta;
    FirstChar(m.pkgVer) > FirstChar(t.slots[TEE].currentVer)
  }

  ghost function DownloadedWith(t: Table, i: nat, ps: seq<Package>): set<nat>
    requires |t.insts| == IMAGE_SLOTS && i < IMAGE_SLOTS
  {
    set j | 0 <= j < IMAGE_SLOTS && (j == i || IsDownloaded(t, j) || PackageFor(ps, j).Some?)
  }

  /** Marking a receiver that has got no package disturbs nobody's list, and its own old list fits. */
  ghost predicate MarkHarmless(t: Table, i: nat, ps: seq<Package>)
    requires Shaped(t) && i < IMAGE_SLOTS
  {
    && ListFits(t.insts[i].conflicting, i, t.insts[i].linked, DownloadedWith(t, i, ps), TooOldWith(t, ps))
    && (forall j :: j in DownloadedWith(t, i, ps) && i in LinksWith(t, ps, j) ==> j == APP && i == TEE && TooOldWith(t, ps))
  }

  /** The table after a successful finish, as far as lists depend on it. */
  ghost predicate SuccessState(t: Table, i: nat, ps: seq<Package>, u: Table)
    requires Shaped(t) && i < IMAGE_SLOTS
  {
    && Shaped(u) && u.slots[TEE].currentVer == t.slots[TEE].currentVer
    && (forall j :: 0 <= j < IMAGE_SLOTS ==> SucceededAt(t, i, ps, u, j))
  }

  lemma SuccessfulState(t: Table, i: nat, u: Table)
    requires InOrderBut(t, EVERYONE) && i < IMAGE_SLOTS && FinishStep(t, i, u, 0)
    ensures SuccessState(t, i, PutInPlace(t, i), u) == true && PutInPlace(t, i) == Bundle(CloseStream(t, i), i).packages
  {
    forall j | 0 <= j < IMAGE_SLOTS ensures Shaped(u) && SucceededAt(t, i, PutInPlace(t, i), u, j) { SuccessfulFinish(t, i, u, j); }
    SuccessfulFinish(t, i, u, i);
    VersionsKept(t, i, u, 0, TEE);
  }

  lemma SuccessVersion(t: Table, i: nat, ps: seq<Package>, u: Table)
    requires Shaped(t) && i < IMAGE_SLOTS && SuccessState(t, i, ps, u)
    ensures TeeTooOld(u) <==> TooOldWith(t, ps)
  {
    assert SucceededAt(t, i, ps, u, APP);
  }

  lemma SuccessLinks(t: Table, i: nat, ps: seq<Package>, u: Table, j: nat)
    requires Shaped(t) && i < IMAGE_SLOTS && SuccessState(t, i, ps, u) && j < IMAGE_SLOTS
    ensures u.insts[j].linked == LinksWith(t, ps, j)
    ensures IsDownloaded(u, j) <==> IsDownloaded(t, j) || PackageFor(ps, j).Some?
  {
    assert SucceededAt(t, i, ps, u, j);
  }

  lemma MarkedReceiver(t: Table, i: nat, ps: seq<Package>, u: Table, v: Table)
    requires Shaped(t) && i < IMAGE_SLOTS && SuccessState(t, i, ps, u) && Exact(u) && v == WithState(u, i, Downloaded)
    requires !IsDownloaded(t, i) && PackageFor(ps, i).None?
    ensures Exact(v) <==> MarkHarmless(t, i, ps)
  {
    var downloaded := DownloadedWith(t, i, ps);
    SuccessVersion(t, i, ps, u);
    assert SucceededAt(t, i, ps, u, i);
    forall j | 0 <= j < IMAGE_SLOTS ensures ValidTargets(j, v.insts[j].linked) { assert ValidTargets(j, u.insts[j].linked); }
    forall j | 0 <= j < IMAGE_SLOTS ensures IsDownloaded(v, j) <==> j in downloaded { SuccessLinks(t, i, ps, u, j); }
    assert AreDownloaded(v, downloaded);
    NewListExact(v, i, downloaded);
    forall j | j in downloaded && j != i
      ensures ExactAt(v, j) <==> (i in LinksWith(t, ps, j) ==> j == APP && i == TEE && TooOldWith(t, ps))
    {
      SuccessLinks(t, i, ps, u, j);
      StillExact(u, v, j);
    }
    MarkedSelf(t, i, ps, u);
  }

  /** An image is not linked to itself. */
  lemma MarkedSelf(t: Table, i: nat, ps: seq<Package>, u: Table)
    requires Shaped(t) && i < IMAGE_SLOTS && SuccessState(t, i, ps, u) && LinksOk(u)
    ensures i !in LinksWith(t, ps, i)
  {
    SuccessLinks(t, i, ps, u, i);
    assert ValidTargets(i, u.insts[i].linked);
  }

  /**
   * After a successful finish and the library's mark the conflict lists are exact if and only if the bundle held a
   * package for its receiver, or the receiver was downloaded anyway, or marking it is harmless.
   */
  lemma FinishEventExact(t: Table, i: nat, u: Table)
    requires InOrderBut(t, EVERYONE) && i < IMAGE_SLOTS && FinishStep(t, i, u, 0)
    ensures Shaped(u)
    ensures Exact(LibraryMark(u, i, 0)) <==>
              AddressesReceiver(CloseStream(t, i), i) || IsDownloaded(t, i) || MarkHarmless(t, i, PutInPlace(t, i))
  {
    FinishExact(t, i, u, EVERYONE);
    var ps := PutInPlace(t, i);
    SuccessfulState(t, i, u);
    assert SucceededAt(t, i, ps, u, i);
    if IsDownloaded(u, i) { MarkAgain(u, i); } else { MarkedReceiver(t, i, ps, u, LibraryMark(u, i, 0)); }
  }

  lemma MarkAgain(u: Table, i: nat)
    requires Shaped(u) && i < IMAGE_SLOTS && IsDownloaded(u, i)
    ensures LibraryMark(u, i, 0) == u
  {
    assert u.insts[i := u.insts[i].(state := Downloaded)] == u.insts;
  }

  // ---------------------------------------------------------------- a finish that fails half-way

  const BOOT: nat := 2
  const MODEM: nat := 3

  /** A correct TEE image linked to the modem image, and a boot loader image with a wrong checksum. */
  const GOOD_TEE: Package :=
    Package(Meta(MAGICS[TEE], HEADER_VER_SINGLE, 0, 0, [0x03, 0xFF, 0xFF, 0xFF, 0xFF, 0xFF, 0xFF, 0xFF], [0x31]), [])
  const BAD_BOOT: Package :=
    Package(Meta(MAGICS[BOOT], HEADER_VER_SINGLE, 0, 1, [0xFF, 0xFF, 0xFF, 0xFF, 0xFF, 0xFF, 0xFF, 0xFF], [0x31]), [])
  const HALF_GOOD: seq<Package> := [GOOD_TEE, BAD_BOOT]

  /** The two have been downloaded in one bundle through the boot loader slot. */
  ghost const HALF_WAY: Table :=
    Table(map[Temp(0) := EncodeBundle(HALF_GOOD)], 1,
          [UNUSED, UNUSED, Slot(Some(Temp(0)), None, NO_META, Attached, [0x31]), UNUSED], [QUIET, QUIET, QUIET, QUIET])

  lemma HalfGoodAddressed()
    ensures LegalAll(HALF_GOOD) && Addressed(HALF_GOOD) == [TEE, BOOT] && Superseded(HALF_GOOD) == 0
    ensures PackageFor(HALF_GOOD, APP).None? && PackageFor(HALF_GOOD, MODEM).None?
    ensures PackageFor(HALF_GOOD, TEE) == Some(GOOD_TEE) && PackageFor(HALF_GOOD, BOOT) == Some(BAD_BOOT)
  {
    var ps := HALF_GOOD;
    assert OnePerSlot(ps) by { if MAGICS[TEE] == MAGICS[BOOT] { MagicsDiffer(TEE, BOOT); } }
    assert ps[0] == GOOD_TEE && ps[1] == BAD_BOOT;
    PackageForOnly(ps, TEE, GOOD_TEE);
    PackageForOnly(ps, BOOT, BAD_BOOT);
    forall j | j == APP || j == MODEM ensures PackageFor(ps, j).None? {
      PackageForIn(ps, j);
      if PackageFor(ps, j).Some? { if PackageFor(ps, j).value == GOOD_TEE { MagicsDiffer(j, TEE); } else { MagicsDiffer(j, BOOT); } }
    }
    assert AddressedFrom(ps, 4) == [];
    assert AddressedFrom(ps, 3) == [];
    assert AddressedFrom(ps, 2) == [BOOT];
    assert AddressedFrom(ps, 1) == [TEE, BOOT];
  }

  lemma ModemLinked()
    ensures LinkedIds(GOOD_TEE.meta.linked) == [MODEM]
  {
    var linked := GOOD_TEE.meta.linked;
    assert Value(linked[0]) == 3;
    NoLinks(linked[1..]);
    assert [3] + LinkedIds(linked[1..]) == [MODEM];
  }

  ghost predicate HalfWay(t: Table) {
    && Inv(t) && Exact(t) && t.slots[BOOT].stream.Attached? && HasFile(CloseStream(t, BOOT), BOOT)
    && Bundle(CloseStream(t, BOOT), BOOT) == Unpacked(HALF_GOOD, 0) && AllQuiet(t)
  }

  ghost predicate AllQuiet(t: Table)
    requires |t.insts| == IMAGE_SLOTS
  {
    forall j :: 0 <= j < IMAGE_SLOTS ==> t.insts[j] == QUIET
  }

  lemma HalfWayInOrder()
    ensures Inv(HALF_WAY) && Exact(HALF_WAY) && AllQuiet(HALF_WAY)
  {
    var t := HALF_WAY;
    assert forall i :: 0 <= i < IMAGE_SLOTS && i != BOOT ==> t.slots[i] == UNUSED;
    assert forall i :: 0 <= i < IMAGE_SLOTS ==> t.insts[i] == QUIET;
  }

  lemma HalfWayHolds()
    ensures HalfWay(HALF_WAY) == true
  {
    HalfWayInOrder();
    HalfGoodAddressed();
    BundleRoundTrip(HALF_GOOD, []);
    assert EncodeBundle(HALF_GOOD) + [] == EncodeBundle(HALF_GOOD);
  }

  /** The TEE image is taken, the boot loader image is not. */
  lemma HalfMarked(t: Table)
    requires Shaped(t) && AllQuiet(t)
    ensures MarkedFrom(t, HALF_GOOD, 0) == {TEE} && TEE in RelinkedFrom(t, HALF_GOOD, 0)
  {
    HalfGoodAddressed();
    ModemLinked();
    EmptyCrc();
    assert Accepts(t, TEE, GOOD_TEE) && !Accepts(t, BOOT, BAD_BOOT);
    assert MarkedFrom(t, HALF_GOOD, 2) == {};
    assert MarkedFrom(t, HALF_GOOD, 1) == {TEE} + MarkedFrom(t, HALF_GOOD, 2);
    assert MarkedFrom(t, HALF_GOOD, 0) == MarkedFrom(t, HALF_GOOD, 1);
    MarkedRelinked(t, HALF_GOOD, 0);
  }

  lemma BootRefused(m: Table)
    requires Shaped(m) && AllDelivered(m, HALF_GOOD)
    ensures Process(m, BOOT).1 != 0
  {
    HalfGoodAddressed();
    EmptyCrc();
    assert Delivered(m, BOOT, PackageFor(HALF_GOOD, BOOT).value);
    ProcessOne(m, BOOT, BAD_BOOT);
  }

  lemma HalfProcessed(m: Table)
    requires Shaped(m) && AllDelivered(m, HALF_GOOD)
    ensures ProcessAll(m, [TEE, BOOT]).1 != 0
  {
    var v := Process(m, TEE).0;
    assert Shaped(v) && v.slots == m.slots && v.files == m.files;
    DeliveredStill(m, v, HALF_GOOD);
    BootRefused(v);
    ProcessFirst(m, TEE, [BOOT]);
    assert [TEE] + [BOOT] == [TEE, BOOT] && [BOOT] + [] == [BOOT];
    ProcessFirst(v, BOOT, []);
  }

  /** A bundle has been unpacked, and one of its slots is not taken: the finish fails. */
  lemma FailsLate(t: Table, i: nat, ps: seq<Package>, m: Table) returns (u: Table, r: int)
    requires Shaped(t) && i < IMAGE_SLOTS && !t.slots[i].stream.Closed? && UnpackStep(CloseStream(t, i), i, m, 0)
    requires Shaped(m) && ps == Bundle(CloseStream(t, i), i).packages && ProcessAll(m, Addressed(ps)).1 != 0
    ensures FinishStep(t, i, u, r) && r != 0 && Shaped(u)
  {
    var (p, e) := ProcessAll(m, Addressed(ps));
    u, r := DeleteFile(p, i), e;
    assert AfterUnpack(m, i, ps, 0, u, r);
  }

  lemma HalfFails(t: Table) returns (u: Table, r: int)
    requires HalfWay(t)
    ensures FinishStep(t, BOOT, u, r) && r != 0
  {
    CloseKeeps(t, BOOT);
    HalfGoodAddressed();
    var m := CanUnpack(CloseStream(t, BOOT), BOOT, HALF_GOOD);
    HalfProcessed(m);
    u, r := FailsLate(t, BOOT, HALF_GOOD, m);
  }

  lemma HalfInPlace(t: Table)
    requires HalfWay(t)
    ensures PutInPlace(t, BOOT) == HALF_GOOD
  {
    NoClashAtAll(CloseStream(t, BOOT), HALF_GOOD, 0);
  }

  lemma HalfRecords(t: Table, v: Table)
    requires Shaped(t) && AllQuiet(t) && Shaped(v)
    requires FailedAt(t, BOOT, HALF_GOOD, v, TEE) && FailedAt(t, BOOT, HALF_GOOD, v, MODEM)
    ensures IsDownloaded(v, TEE) && v.insts[TEE].linked == [MODEM] && v.insts[TEE].conflicting == [] && v.insts[MODEM].state.Idle?
  {
    HalfMarked(t);
    HalfGoodAddressed();
    ModemLinked();
  }

  lemma HalfState(t: Table, u: Table, r: int)
    requires HalfWay(t) && FinishStep(t, BOOT, u, r) && r != 0 && Shaped(u)
    ensures var v := LibraryMark(u, BOOT, r);
            && IsDownloaded(v, TEE) && v.insts[TEE].linked == [MODEM] && v.insts[TEE].conflicting == []
            && v.insts[MODEM].state.Idle?
  {
    OrderWeakens(t, {}, EVERYONE);
    HalfInPlace(t);
    FailedState(t, BOOT, u, r, TEE);
    FailedState(t, BOOT, u, r, MODEM);
    HalfRecords(t, LibraryMark(u, BOOT, r));
  }

  /** An image linked to one that is not downloaded, with an empty list: the lists are not exact. */
  lemma Unlisted(v: Table, j: nat, x: nat)
    requires Shaped(v) && j < IMAGE_SLOTS && x < IMAGE_SLOTS && IsDownloaded(v, j) && !IsDownloaded(v, x)
    requires x in v.insts[j].linked && v.insts[j].conflicting == []
    ensures !Exact(v)
  {
    if Exact(v) {
      ExactElements(v, j);
      assert Awaits(v, j, x);
    }
  }

  /**
   * The finish fails, yet the TEE slot stays downloaded, linked to a modem image that is not there, and its conflict
   * list is empty: the condition in FailedFinishExact is needed.
   */
  lemma FinishFailsHalfWay() returns (u: Table, r: int)
    ensures Inv(HALF_WAY) && Exact(HALF_WAY) && FinishStep(HALF_WAY, BOOT, u, r) && r != 0 && Shaped(u)
    ensures var v := LibraryMark(u, BOOT, r);
            && IsDownloaded(v, TEE) && v.insts[TEE].linked == [MODEM] && v.insts[TEE].conflicting == []
            && v.insts[MODEM].state.Idle? && !Exact(v)
  {
    HalfWayHolds();
    u, r := HalfFrom(HALF_WAY);
  }

  lemma HalfFrom(t: Table) returns (u: Table, r: int)
    requires HalfWay(t)
    ensures FinishStep(t, BOOT, u, r) && r != 0 && Shaped(u)
    ensures var v := LibraryMark(u, BOOT, r);
            && IsDownloaded(v, TEE) && v.insts[TEE].linked == [MODEM] && v.insts[TEE].conflicting == []
            && v.insts[MODEM].state.Idle? && !Exact(v)
  {
    u, r := HalfFails(t);
    OrderWeakens(t, {}, EVERYONE);
    FailedFinish(t, BOOT, u, r, TEE);
    HalfState(t, u, r);
    assert MODEM in [MODEM];
    Unlisted(LibraryMark(u, BOOT, r), TEE, MODEM);
  }
}
