/**
 * Whole runs: the handlers of demo/advanced_firmware_update.c as the library calls them, with the states the library
 * sets in between, for all bundles, upgrades included.
 */
module FirmwareRuns {
  import opened Options
  import opened Bytes
  import opened Crc32
  import opened FirmwareFormat
  import opened FirmwareSlots
  import opened Conflicts
  import opened FirmwareProtocol
  import opened BundleDelivery
  import opened FinishEffects
  import opened FirmwareUpgrade

  // ---------------------------------------------------------------- what may happen

  datatype Event =
    | OpenSlot(i: nat)                       // a download starts
    | WriteSlot(i: nat, data: seq<byte>)
    | FinishSlot(i: nat)                     // the handler, then the library's mark
    | ResetSlot(i: nat)                      // the handler, then Idle
    | DropSlot(i: nat)                       // the handler alone, when a download ends in a slot that is not DOWNLOADING any more
    | InstallSlot(i: nat)                    // an additional image has been installed: its version is current now
    | MoveSlot(i: nat, s: State)             // the library starts or gives up a download
    | ExecuteSlot(i: nat)                    // an upgrade of the slot is asked for, or it is taken along by another
    | RevertSlot(i: nat)                     // a check or an upgrade has failed
    | ResultSlot(i: nat, result: nat)        // a result is recorded

  /** The library takes the slot to hold an image. */
  predicate Holds(t: Table, j: nat)
    requires |t.insts| == IMAGE_SLOTS && j < IMAGE_SLOTS
  {
    t.insts[j].state.Downloaded? || t.insts[j].state.Updating?
  }

  ghost predicate FinishEvent(t: Table, i: nat, u: Table, r: int, t': Table)
    requires Shaped(t) && i < IMAGE_SLOTS
  {
    FinishStep(t, i, u, r) && Shaped(u) && t' == LibraryMark(u, i, r)
  }

  ghost predicate Step(t: Table, e: Event, t': Table) {
    Shaped(t) && LinksOk(t) && e.i < IMAGE_SLOTS &&
    match e
    case OpenSlot(i) => t.slots[i].stream.Closed? && !Holds(t, i) && t' == OpenStep(t, i)
    case WriteSlot(i, data) => t' == WriteStep(t, i, data)
    case FinishSlot(i) => exists u: Table, r: int :: FinishEvent(t, i, u, r, t')
    case ResetSlot(i) => Shaped(ResetStep(t, i)) && t' == WithState(ResetStep(t, i), i, Idle)
    case DropSlot(i) => t' == ResetStep(t, i)
    case InstallSlot(i) =>
      i != APP &&
      if t.insts[i].state.Updating? then
        var u := ResetStep(Installed(t, i), i); Shaped(u) && t' == WithState(u, i, Idle)
      else t' == Installed(t, i)
    case MoveSlot(i, s) => (s.Idle? || s.Downloading?) && t' == WithState(t, i, s)
    case ExecuteSlot(i) => IsDownloaded(t, i) && t' == WithState(t, i, Updating)
    case RevertSlot(i) => t.insts[i].state.Updating? && t' == WithState(t, i, Downloaded)
    case ResultSlot(i, result) => t' == WithResult(t, i, result)
  }

  /** What holds in every state: the table is tidy, links are legal, and no slot that holds an image can be written to. */
  ghost predicate Sealed(t: Table) {
    Tidy(t) && LinksOk(t) && forall j :: 0 <= j < IMAGE_SLOTS && Holds(t, j) ==> Shut(t, j)
  }

  ghost predicate Shut(t: Table, j: nat)
    requires Shaped(t) && j < IMAGE_SLOTS
  {
    !t.slots[j].stream.Attached?
  }

  lemma SealedOrder(t: Table)
    requires Sealed(t)
    ensures InOrderBut(t, EVERYONE)
  {
    forall j | 0 <= j < IMAGE_SLOTS && IsDownloaded(t, j) ensures SoundAt(t, j, EVERYONE) {
      assert Shut(t, j);
    }
  }

  // ---------------------------------------------------------------- the steps one by one

  /** Records apart, the tables agree; slots hold no new images. */
  lemma RecordsSealed(t: Table, u: Table)
    requires Sealed(t) && Shaped(u) && LinksOk(u) && u.slots == t.slots && u.files == t.files && u.nextTemp == t.nextTemp
    requires forall j :: 0 <= j < IMAGE_SLOTS && Holds(u, j) ==> Holds(t, j)
    ensures Sealed(u) && forall j :: 0 <= j < IMAGE_SLOTS ==> SameSlot(t, u, j)
  {
    TidyIgnoresRecords(t, u);
    forall j | 0 <= j < IMAGE_SLOTS && Holds(u, j) ensures Shut(u, j) { assert Shut(t, j); }
  }

  lemma SlotSealed(t: Table, u: Table, i: nat)
    requires Sealed(t) && Tidy(u) && LinksOk(u) && i < IMAGE_SLOTS
    requires forall j :: 0 <= j < IMAGE_SLOTS && Holds(u, j) ==> (j == i && Shut(u, i)) || Holds(t, j)
    requires forall j :: 0 <= j < IMAGE_SLOTS && j != i ==> SameSlot(t, u, j)
    requires Holds(u, i) ==> Shut(u, i)
    ensures Sealed(u)
  {
    forall j | 0 <= j < IMAGE_SLOTS && Holds(u, j) ensures Shut(u, j) {
      if j != i { assert Shut(t, j) && SameSlot(t, u, j); }
    }
  }

  lemma OpenSealed(t: Table, i: nat)
    requires Sealed(t) && i < IMAGE_SLOTS && !Holds(t, i)
    ensures var u := OpenStep(t, i); Sealed(u) && u.insts == t.insts && forall j :: 0 <= j < IMAGE_SLOTS && j != i ==> SameSlot(t, u, j)
  {
    EnsurePathKeeps(t, i);
    var v, u := EnsurePath(t, i), OpenStep(t, i);
    StoreKeeps(v, u, i);
    SameLinks(t, u);
    forall j | 0 <= j < IMAGE_SLOTS && j != i ensures SameSlot(t, u, j) {
      assert SameSlot(t, v, j) && SameSlot(v, u, j);
    }
    SlotSealed(t, u, i);
  }

  lemma WriteSealed(t: Table, i: nat, data: seq<byte>)
    requires Sealed(t) && i < IMAGE_SLOTS
    ensures var u := WriteStep(t, i, data);
            Sealed(u) && u.insts == t.insts && forall j :: 0 <= j < IMAGE_SLOTS && (j != i || Holds(t, i)) ==> SameSlot(t, u, j)
  {
    var u := WriteStep(t, i, data);
    if Holds(t, i) {
      assert Shut(t, i);
    } else if u != t {
      StoreKeeps(t, u, i);
      SameLinks(t, u);
      SlotSealed(t, u, i);
    }
  }

  lemma ClearedOthers(t: Table, i: nat)
    requires Sealed(t) && i < IMAGE_SLOTS
    ensures var u := Cleared(t, i);
            && Tidy(u) && LinksOk(u) && !u.slots[i].stream.Attached? && u.slots[i].path.None?
            && (forall j :: 0 <= j < IMAGE_SLOTS && j != i ==> SameSlot(t, u, j) && u.insts[j] == t.insts[j])
            && u.insts[i] == t.insts[i].(linked := [], conflicting := [])
  {
    SealedOrder(t);
    ClearedKeeps(t, i, EVERYONE);
    CloseKeeps(t, i, EVERYONE);
    var c := CloseStream(t, i);
    DeleteFileKeeps(c, i);
    forall j | 0 <= j < IMAGE_SLOTS && j != i ensures SameSlot(t, Cleared(t, i), j) {
      assert SameSlot(t, c, j) && SameSlot(c, DeleteFile(c, i), j);
    }
  }

  /** The reset handler: the slot loses its file and its links; states and other slots stay. */
  lemma ResetSealed(t: Table, i: nat)
    requires Sealed(t) && i < IMAGE_SLOTS
    ensures var u := ResetStep(t, i);
            && Sealed(u) && u.slots[i].path.None? && u.insts[i].linked == []
            && (forall j :: 0 <= j < IMAGE_SLOTS ==> u.insts[j].state == t.insts[j].state)
            && (forall j :: 0 <= j < IMAGE_SLOTS && j != i ==> SameSlot(t, u, j) && u.insts[j].linked == t.insts[j].linked)
  {
    ClearedOthers(t, i);
    var c, u := Cleared(t, i), ResetStep(t, i);
    RecomputedKeeps(c, Some(i));
    TidyIgnoresRecords(c, u);
    forall j | 0 <= j < IMAGE_SLOTS && j != i ensures SameSlot(t, u, j) { assert SameSlot(t, c, j); }
    SlotSealed(t, u, i);
  }

  lemma InstalledSealed(t: Table, i: nat)
    requires Sealed(t) && i < IMAGE_SLOTS
    ensures var u := Installed(t, i);
            && Sealed(u) && u.insts == t.insts && (forall j :: 0 <= j < IMAGE_SLOTS ==> (Vouches(u, j) <==> Vouches(t, j)))
            && (forall j :: 0 <= j < IMAGE_SLOTS && j != i ==> SameSlot(t, u, j))
  {
    var u := Installed(t, i);
    NamesStayApart(t, u, i);
    forall j | 0 <= j < IMAGE_SLOTS && u.slots[j].stream.Attached? ensures HasFile(u, j) { assert HasFile(t, j); }
    SameLinks(t, u);
    if Holds(t, i) { assert Shut(t, i); }
    SlotSealed(t, u, i);
  }

  lemma StateSealed(t: Table, i: nat, s: State)
    requires Sealed(t) && i < IMAGE_SLOTS && (s.Downloaded? || s.Updating? ==> Holds(t, i))
    ensures Sealed(WithState(t, i, s)) && forall j :: 0 <= j < IMAGE_SLOTS ==> SameSlot(t, WithState(t, i, s), j)
  {
    SameLinks(t, WithState(t, i, s));
    RecordsSealed(t, WithState(t, i, s));
  }

  lemma ResultSealed(t: Table, i: nat, result: nat)
    requires Sealed(t) && i < IMAGE_SLOTS
    ensures Sealed(WithResult(t, i, result)) && forall j :: 0 <= j < IMAGE_SLOTS ==> SameSlot(t, WithResult(t, i, result), j)
  {
    SameLinks(t, WithResult(t, i, result));
    RecordsSealed(t, WithResult(t, i, result));
  }

  // ---------------------------------------------------------------- which images are vouched for, in every run

  /** The package's own header vouches for its payload. */
  ghost predicate Genuine(p: Package) { p.meta.headerVer == HEADER_VER_SINGLE && p.meta.crc == Crc(p.payload) }

  lemma DeliveredVouches(u: Table, j: nat, p: Package)
    requires Shaped(u) && j < IMAGE_SLOTS && Delivered(u, j, p) && p.meta.magic == MAGICS[j]
    ensures Vouches(u, j) <==> Genuine(p)
  {}

  /** What a finish that puts these packages in place makes of slot j, told from the table before it. */
  ghost predicate FateAt(t: Table, i: nat, ps: seq<Package>, t': Table, j: nat)
    requires Shaped(t) && Shaped(t') && i < IMAGE_SLOTS && j < IMAGE_SLOTS
  {
    Holds(t', j) ==>
      && Shut(t', j) && (Holds(t, j) || j == i || PackageFor(ps, j).Some?)
      && (Vouches(t', j) <==> match PackageFor(ps, j) case Some(p) => Genuine(p) case None => Vouches(t, j))
  }

  ghost predicate FinishedAt(t: Table, i: nat, t': Table, j: nat)
    requires Shaped(t) && Shaped(t') && i < IMAGE_SLOTS && j < IMAGE_SLOTS
  {
    FateAt(t, i, PutInPlace(t, i), t', j)
  }

  lemma FailedFate(t: Table, i: nat, u: Table, r: int, j: nat)
    requires Sealed(t) && i < IMAGE_SLOTS && j < IMAGE_SLOTS && FinishStep(t, i, u, r) && r != 0 && Shaped(u)
    ensures FinishedAt(t, i, LibraryMark(u, i, r), j) == true
  {
    SealedOrder(t);
    FailedFinish(t, i, u, r, j);
    FailedFateOf(t, i, PutInPlace(t, i), u, r, j);
  }

  lemma FailedFateOf(t: Table, i: nat, ps: seq<Package>, u: Table, r: int, j: nat)
    requires Sealed(t) && i < IMAGE_SLOTS && j < IMAGE_SLOTS && Shaped(u) && FailedAt(t, i, ps, u, j) && r != 0
    ensures FateAt(t, i, ps, LibraryMark(u, i, r), j) == true
  {
    var v := LibraryMark(u, i, r);
    if j != i {
      assert SameSlot(u, v, j);
      match PackageFor(ps, j)
      case Some(p) =>
        PackageForIn(ps, j);
        DeliveredVouches(v, j, p);
      case None =>
        SameSlotVouches(t, v, j);
        if Holds(t, j) { assert Shut(t, j); }
    }
  }

  lemma SuccessfulFate(t: Table, i: nat, u: Table, j: nat)
    requires Sealed(t) && i < IMAGE_SLOTS && j < IMAGE_SLOTS && FinishStep(t, i, u, 0) && Shaped(u)
    ensures FinishedAt(t, i, LibraryMark(u, i, 0), j) == true
  {
    SealedOrder(t);
    SuccessfulFinish(t, i, u, j);
    SuccessfulFateOf(t, i, PutInPlace(t, i), u, j);
  }

  lemma SuccessfulFateOf(t: Table, i: nat, ps: seq<Package>, u: Table, j: nat)
    requires Sealed(t) && i < IMAGE_SLOTS && j < IMAGE_SLOTS && Shaped(u) && SucceededAt(t, i, ps, u, j)
    ensures FateAt(t, i, ps, LibraryMark(u, i, 0), j) == true
  {
    var v, c := LibraryMark(u, i, 0), CloseStream(t, i);
    assert SameSlot(u, v, j);
    match PackageFor(ps, j)
    case Some(p) =>
      PackageForIn(ps, j);
      DeliveredVouches(v, j, p);
    case None =>
      SameSlotVouches(c, v, j);
      assert Vouches(c, j) <==> Vouches(t, j);
      if Holds(t, j) { assert Shut(t, j); }
  }

  lemma FinishFate(t: Table, i: nat, t': Table)
    requires Sealed(t) && Step(t, FinishSlot(i), t')
    ensures Sealed(t') && forall j :: 0 <= j < IMAGE_SLOTS ==> FinishedAt(t, i, t', j)
  {
    SealedOrder(t);
    var u: Table, r: int :| FinishEvent(t, i, u, r, t');
    forall j | 0 <= j < IMAGE_SLOTS ensures FinishedAt(t, i, t', j) {
      if r == 0 { SuccessfulFate(t, i, u, j); } else { FailedFate(t, i, u, r, j); }
    }
    FinishOrder(t, i, u, r, t');
    forall j | 0 <= j < IMAGE_SLOTS && Holds(t', j) ensures Shut(t', j) { assert FinishedAt(t, i, t', j); }
  }

  lemma FinishOrder(t: Table, i: nat, u: Table, r: int, t': Table)
    requires InOrderBut(t, EVERYONE) && i < IMAGE_SLOTS && FinishEvent(t, i, u, r, t')
    ensures Tidy(t') && LinksOk(t')
  {
    if r == 0 { ReceiverMarked(t, i, u, EVERYONE); } else { FailedFinishInOrder(t, i, u, r, EVERYONE); }
  }

  /** A slot that holds an image held it before, and it is vouched for as before. */
  ghost predicate Unmoved(t: Table, t': Table, j: nat)
    requires Shaped(t) && Shaped(t') && j < IMAGE_SLOTS
  {
    Holds(t, j) && (Vouches(t', j) <==> Vouches(t, j))
  }

  ghost predicate Keeps(t: Table, t': Table)
    requires Shaped(t)
  {
    Sealed(t') && forall j :: 0 <= j < IMAGE_SLOTS && Holds(t', j) ==> Unmoved(t, t', j)
  }

  lemma OpenFate(t: Table, i: nat)
    requires Sealed(t) && i < IMAGE_SLOTS && !Holds(t, i)
    ensures Keeps(t, OpenStep(t, i)) == true
  {
    OpenSealed(t, i);
    forall j | 0 <= j < IMAGE_SLOTS && Holds(OpenStep(t, i), j) ensures Unmoved(t, OpenStep(t, i), j) {
      SameSlotVouches(t, OpenStep(t, i), j);
    }
  }

  lemma WriteFate(t: Table, i: nat, data: seq<byte>)
    requires Sealed(t) && i < IMAGE_SLOTS
    ensures Keeps(t, WriteStep(t, i, data)) == true
  {
    WriteSealed(t, i, data);
    forall j | 0 <= j < IMAGE_SLOTS && Holds(WriteStep(t, i, data), j) ensures Unmoved(t, WriteStep(t, i, data), j) {
      SameSlotVouches(t, WriteStep(t, i, data), j);
    }
  }

  lemma ResetFate(t: Table, i: nat)
    requires Sealed(t) && i < IMAGE_SLOTS
    ensures Sealed(ResetStep(t, i)) && Keeps(t, WithState(ResetStep(t, i), i, Idle)) == true
  {
    ResetSealed(t, i);
    var u := ResetStep(t, i);
    StateSealed(u, i, Idle);
    forall j | 0 <= j < IMAGE_SLOTS && Holds(WithState(u, i, Idle), j) ensures Unmoved(t, WithState(u, i, Idle), j) {
      SameSlotVouches(t, u, j);
      SameSlotVouches(u, WithState(u, i, Idle), j);
    }
  }

  lemma InstallFate(t: Table, i: nat, t': Table)
    requires Sealed(t) && Step(t, InstallSlot(i), t')
    ensures Keeps(t, t') == true
  {
    InstalledSealed(t, i);
    if t.insts[i].state.Updating? {
      ResetFate(Installed(t, i), i);
      KeepsTrans(t, Installed(t, i), t');
    }
  }

  lemma KeepsTrans(t: Table, u: Table, v: Table)
    requires Shaped(t) && Keeps(t, u) && Keeps(u, v)
    ensures Keeps(t, v) == true
  {
    forall j | 0 <= j < IMAGE_SLOTS && Holds(v, j) ensures Unmoved(t, v, j) {
      assert Unmoved(u, v, j) && Unmoved(t, u, j);
    }
  }

  lemma StateFate(t: Table, i: nat, s: State)
    requires Sealed(t) && i < IMAGE_SLOTS && (s.Downloaded? || s.Updating? ==> Holds(t, i))
    ensures Keeps(t, WithState(t, i, s)) == true
  {
    StateSealed(t, i, s);
    forall j | 0 <= j < IMAGE_SLOTS && Holds(WithState(t, i, s), j) ensures Unmoved(t, WithState(t, i, s), j) {
      SameSlotVouches(t, WithState(t, i, s), j);
    }
  }

  lemma ResultFate(t: Table, i: nat, result: nat)
    requires Sealed(t) && i < IMAGE_SLOTS
    ensures Keeps(t, WithResult(t, i, result)) == true
  {
    ResultSealed(t, i, result);
    forall j | 0 <= j < IMAGE_SLOTS && Holds(WithResult(t, i, result), j) ensures Unmoved(t, WithResult(t, i, result), j) {
      SameSlotVouches(t, WithResult(t, i, result), j);
    }
  }

  /** All steps but a finish and a drop keep every image, and whether it is vouched for. */
  lemma OtherFate(t: Table, e: Event, t': Table)
    requires Sealed(t) && Step(t, e, t') && !e.FinishSlot? && !e.DropSlot?
    ensures Keeps(t, t') == true
  {
    match e
    case OpenSlot(i) => OpenFate(t, i);
    case WriteSlot(i, data) => WriteFate(t, i, data);
    case ResetSlot(i) => ResetFate(t, i);
    case InstallSlot(i) => InstallFate(t, i, t');
    case MoveSlot(i, s) => StateFate(t, i, s);
    case ExecuteSlot(i) => StateFate(t, i, Updating);
    case ResultSlot(i, result) => ResultFate(t, i, result);
    case RevertSlot(i) => StateFate(t, i, Downloaded);
  }

  /** The slot that is dropped keeps its state without a file. */
  lemma DropFate(t: Table, i: nat)
    requires Sealed(t) && i < IMAGE_SLOTS
    ensures var u := ResetStep(t, i);
            && Sealed(u) && (forall j :: 0 <= j < IMAGE_SLOTS ==> (Holds(u, j) <==> Holds(t, j)))
            && (forall j :: 0 <= j < IMAGE_SLOTS ==> (Vouches(u, j) <==> j != i && Vouches(t, j)))
  {
    ResetSealed(t, i);
    var u := ResetStep(t, i);
    forall j | 0 <= j < IMAGE_SLOTS ensures Vouches(u, j) <==> j != i && Vouches(t, j) {
      if j != i { SameSlotVouches(t, u, j); }
    }
  }

  /** With this step, slot j comes to hold an image that its metadata does not vouch for. */
  ghost predicate LostBy(t: Table, e: Event, j: nat)
    requires Shaped(t) && e.i < IMAGE_SLOTS && j < IMAGE_SLOTS
  {
    match e
    case FinishSlot(i) =>
      (match PackageFor(PutInPlace(t, i), j)
       case Some(p) => !Genuine(p)
       case None => j == i && !Holds(t, i) && !Vouches(t, i))
    case DropSlot(i) => j == i
    case _ => false
  }

  /** With this step, slot j gets an image that is vouched for. */
  ghost predicate RenewedBy(t: Table, e: Event, j: nat)
    requires Shaped(t) && e.i < IMAGE_SLOTS && j < IMAGE_SLOTS
  {
    e.FinishSlot? && match PackageFor(PutInPlace(t, e.i), j) case Some(p) => Genuine(p) case None => false
  }

  ghost function NextLeftOut(x: set<nat>, t: Table, e: Event, t': Table): set<nat>
    requires Shaped(t) && Shaped(t') && e.i < IMAGE_SLOTS
  {
    set j | 0 <= j < IMAGE_SLOTS && Holds(t', j) && (LostBy(t, e, j) || (j in x && !RenewedBy(t, e, j)))
  }

  /** The slots of x, and no others, hold an image that their metadata does not vouch for. */
  ghost predicate Tracks(t: Table, x: set<nat>) {
    Sealed(t) && x <= EVERYONE && forall j :: 0 <= j < IMAGE_SLOTS ==> TracksAt(t, x, j)
  }

  ghost predicate TracksAt(t: Table, x: set<nat>, j: nat)
    requires Shaped(t) && j < IMAGE_SLOTS
  {
    j in x <==> Holds(t, j) && !Vouches(t, j)
  }

  lemma FinishTracked(t: Table, i: nat, t': Table, x: set<nat>)
    requires Tracks(t, x) && i < IMAGE_SLOTS && Sealed(t') && forall j :: 0 <= j < IMAGE_SLOTS ==> FinishedAt(t, i, t', j)
    ensures Tracks(t', NextLeftOut(x, t, FinishSlot(i), t')) == true
  {
    forall j | 0 <= j < IMAGE_SLOTS ensures TracksAt(t', NextLeftOut(x, t, FinishSlot(i), t'), j) {
      assert TracksAt(t, x, j) && FinishedAt(t, i, t', j);
    }
  }

  lemma DropTracked(t: Table, i: nat, x: set<nat>)
    requires Tracks(t, x) && i < IMAGE_SLOTS
    ensures Shaped(ResetStep(t, i)) && Tracks(ResetStep(t, i), NextLeftOut(x, t, DropSlot(i), ResetStep(t, i))) == true
  {
    DropFate(t, i);
    forall j | 0 <= j < IMAGE_SLOTS ensures TracksAt(ResetStep(t, i), NextLeftOut(x, t, DropSlot(i), ResetStep(t, i)), j) {
      assert TracksAt(t, x, j);
    }
  }

  lemma OtherTracked(t: Table, e: Event, t': Table, x: set<nat>)
    requires Tracks(t, x) && e.i < IMAGE_SLOTS && !e.FinishSlot? && !e.DropSlot? && Keeps(t, t')
    ensures Tracks(t', NextLeftOut(x, t, e, t')) == true
  {
    forall j | 0 <= j < IMAGE_SLOTS ensures TracksAt(t', NextLeftOut(x, t, e, t'), j) {
      assert TracksAt(t, x, j);
      if Holds(t', j) { assert Unmoved(t, t', j); }
    }
  }

  lemma StepTracked(t: Table, e: Event, t': Table, x: set<nat>)
    requires Tracks(t, x) && Step(t, e, t')
    ensures Shaped(t') && Tracks(t', NextLeftOut(x, t, e, t')) == true
  {
    if e.FinishSlot? {
      FinishFate(t, e.i, t');
      FinishTracked(t, e.i, t', x);
    } else if e.DropSlot? {
      DropTracked(t, e.i, x);
    } else {
      OtherFate(t, e, t');
      OtherTracked(t, e, t', x);
    }
  }

  ghost predicate StepAt(ts: seq<Table>, es: seq<Event>, k: nat)
    requires |ts| == |es| + 1 && k < |es|
  {
    Step(ts[k], es[k], ts[k + 1])
  }

  ghost predicate Run(ts: seq<Table>, es: seq<Event>) {
    |ts| == |es| + 1 && forall k :: 0 <= k < |es| ==> StepAt(ts, es, k)
  }

  /** The slots left out after k steps, told from the steps alone. */
  ghost function LeftOut(ts: seq<Table>, es: seq<Event>, x: set<nat>, k: nat): set<nat>
    requires Run(ts, es) && k <= |es|
  {
    if k == 0 then x
    else if Shaped(ts[k - 1]) && Shaped(ts[k]) && es[k - 1].i < IMAGE_SLOTS
    then NextLeftOut(LeftOut(ts, es, x, k - 1), ts[k - 1], es[k - 1], ts[k]) else {}
  }

  /**
   * In every run, whatever bundles arrive, in every state: a slot that holds an image is vouched for if and only if it
   * has not been left out. Left out is the receiver of an accepted bundle that held no package for it, a slot whose
   * image was replaced by a bad one during its upgrade, and a slot that was dropped.
   */
  lemma {:induction false} RunTracked(ts: seq<Table>, es: seq<Event>, x: set<nat>, k: nat)
    requires Run(ts, es) && Tracks(ts[0], x) && k <= |es|
    ensures Tracks(ts[k], LeftOut(ts, es, x, k)) == true
  {
    if k > 0 {
      RunTracked(ts, es, x, k - 1);
      assert StepAt(ts, es, k - 1);
      StepTracked(ts[k - 1], es[k - 1], ts[k], LeftOut(ts, es, x, k - 1));
    }
  }

  /** Told beforehand: with nothing left out so far, this step leaves no slot out. */
  ghost predicate Regular(t: Table, e: Event)
    requires Shaped(t) && e.i < IMAGE_SLOTS
  {
    match e
    case FinishSlot(i) =>
      && (forall j :: 0 <= j < IMAGE_SLOTS && j != i && t.insts[j].state.Updating? ==> ReplacedWell(t, i, j))
      && (Succeeds(t, i) ==> Holds(t, i) || Vouches(t, i) || PackageFor(PutInPlace(t, i), i).Some?)
    case DropSlot(i) => !Holds(t, i)
    case _ => true
  }

  /** If a package is put in place in slot j, it is genuine. */
  ghost predicate ReplacedWell(t: Table, i: nat, j: nat)
    requires Shaped(t) && i < IMAGE_SLOTS && j < IMAGE_SLOTS
  {
    match PackageFor(PutInPlace(t, i), j) case Some(p) => Genuine(p) case None => true
  }

  /** Which slots hold an image after a finish, told beforehand. */
  ghost predicate HeldAfterFinish(t: Table, i: nat, t': Table, j: nat)
    requires Shaped(t) && Shaped(t') && i < IMAGE_SLOTS && j < IMAGE_SLOTS
  {
    Holds(t', j) <==>
      if Succeeds(t, i) then Holds(t, j) || j == i || PackageFor(PutInPlace(t, i), j).Some?
      else j != i && (Holds(t, j) || j in MarkedFrom(t, PutInPlace(t, i), 0))
  }

  lemma FinishHolds(t: Table, i: nat, t': Table, j: nat)
    requires Sealed(t) && Step(t, FinishSlot(i), t') && Shaped(t') && j < IMAGE_SLOTS
    ensures HeldAfterFinish(t, i, t', j) == true
  {
    SealedOrder(t);
    var u: Table, r: int :| FinishEvent(t, i, u, r, t');
    FinishDecided(t, i, u, r);
    if r == 0 {
      SuccessfulFinish(t, i, u, j);
      SuccessHolds(t, i, PutInPlace(t, i), u, j);
    } else {
      FailedFinish(t, i, u, r, j);
      FailureHolds(t, i, PutInPlace(t, i), u, r, j);
    }
  }

  lemma SuccessHolds(t: Table, i: nat, ps: seq<Package>, u: Table, j: nat)
    requires Shaped(t) && Shaped(u) && i < IMAGE_SLOTS && j < IMAGE_SLOTS && SucceededAt(t, i, ps, u, j)
    ensures Holds(LibraryMark(u, i, 0), j) <==> Holds(t, j) || j == i || PackageFor(ps, j).Some?
  {}

  lemma FailureHolds(t: Table, i: nat, ps: seq<Package>, u: Table, r: int, j: nat)
    requires Shaped(t) && Shaped(u) && i < IMAGE_SLOTS && j < IMAGE_SLOTS && FailedAt(t, i, ps, u, j) && r != 0
    ensures Holds(LibraryMark(u, i, r), j) <==> j != i && (Holds(t, j) || j in MarkedFrom(t, ps, 0))
  {}

  lemma TakenGenuine(t: Table, i: nat, j: nat)
    requires Shaped(t) && i < IMAGE_SLOTS && j < IMAGE_SLOTS && PackageFor(PutInPlace(t, i), j).Some?
    requires Succeeds(t, i) || j in MarkedFrom(t, PutInPlace(t, i), 0)
    ensures Genuine(PackageFor(PutInPlace(t, i), j).value)
  {
    var ps := PutInPlace(t, i);
    if j in MarkedFrom(t, ps, 0) { MarkedAddressed(t, ps, 0, j); }
  }

  /** Slot j is left out by a finish, told beforehand. */
  lemma FinishLoses(t: Table, i: nat, t': Table, j: nat)
    requires Shaped(t) && Shaped(t') && i < IMAGE_SLOTS && j < IMAGE_SLOTS && HeldAfterFinish(t, i, t', j)
    ensures Holds(t', j) && LostBy(t, FinishSlot(i), j) <==>
              || (j != i && t.insts[j].state.Updating? && !ReplacedWell(t, i, j))
              || (j == i && Succeeds(t, i) && !Holds(t, i) && !Vouches(t, i) && PackageFor(PutInPlace(t, i), i).None?)
  {
    if PackageFor(PutInPlace(t, i), j).Some? {
      if IsDownloaded(t, j) { PlacedElsewhere(t, i, j); }
      if Succeeds(t, i) || j in MarkedFrom(t, PutInPlace(t, i), 0) { TakenGenuine(t, i, j); }
    }
  }

  lemma FinishRegular(t: Table, i: nat, t': Table)
    requires Shaped(t) && Shaped(t') && i < IMAGE_SLOTS && forall j :: 0 <= j < IMAGE_SLOTS ==> HeldAfterFinish(t, i, t', j)
    ensures NextLeftOut({}, t, FinishSlot(i), t') == {} <==> Regular(t, FinishSlot(i))
  {
    var lost := NextLeftOut({}, t, FinishSlot(i), t');
    forall j | 0 <= j < IMAGE_SLOTS
      ensures j in lost <==>
        || (j != i && t.insts[j].state.Updating? && !ReplacedWell(t, i, j))
        || (j == i && Succeeds(t, i) && !Holds(t, i) && !Vouches(t, i) && PackageFor(PutInPlace(t, i), i).None?)
    {
      assert HeldAfterFinish(t, i, t', j);
      FinishLoses(t, i, t', j);
    }
    if !Regular(t, FinishSlot(i)) && !(Succeeds(t, i) && !Holds(t, i) && !Vouches(t, i) && PackageFor(PutInPlace(t, i), i).None?) {
      var j :| 0 <= j < IMAGE_SLOTS && j != i && t.insts[j].state.Updating? && !ReplacedWell(t, i, j);
      assert j in lost;
    }
  }

  /** A step leaves no slot out if and only if it is regular. */
  lemma StepRegular(t: Table, e: Event, t': Table)
    requires Tracks(t, {}) && Step(t, e, t') && Shaped(t')
    ensures Tracks(t', {}) <==> Regular(t, e)
  {
    StepTracked(t, e, t', {});
    var lost := NextLeftOut({}, t, e, t');
    if e.FinishSlot? {
      forall j | 0 <= j < IMAGE_SLOTS ensures HeldAfterFinish(t, e.i, t', j) { FinishHolds(t, e.i, t', j); }
      FinishRegular(t, e.i, t');
    } else if e.DropSlot? {
      DropFate(t, e.i);
      assert e.i in lost <==> Holds(t, e.i);
    }
    TrackedOnce(t', lost);
  }

  lemma TrackedOnce(t: Table, x: set<nat>)
    requires Tracks(t, x)
    ensures Tracks(t, {}) <==> x == {}
  {
    if Tracks(t, {}) {
      forall j | 0 <= j < IMAGE_SLOTS ensures j !in x { assert TracksAt(t, x, j) && TracksAt(t, {}, j); }
    }
  }

  ghost predicate RegularAt(ts: seq<Table>, es: seq<Event>, k: nat)
    requires |ts| == |es| + 1 && k < |es|
  {
    Shaped(ts[k]) && es[k].i < IMAGE_SLOTS && Regular(ts[k], es[k])
  }

  ghost predicate InOrderAt(ts: seq<Table>, k: nat)
    requires k < |ts|
  {
    Tracks(ts[k], {})
  }

  /**
   * In a run that starts with every image vouched for, every image is vouched for in every state if and only if all
   * steps are regular; each downloaded slot then holds the very file its metadata vouches for.
   */
  lemma {:induction false} RunInOrder(ts: seq<Table>, es: seq<Event>, k: nat)
    requires Run(ts, es) && Tracks(ts[0], {}) && k <= |es|
    ensures (forall n :: 0 <= n <= k ==> InOrderAt(ts, n)) <==> (forall n :: 0 <= n < k ==> RegularAt(ts, es, n))
    ensures (forall n :: 0 <= n < k ==> RegularAt(ts, es, n)) ==> Inv(ts[k])
  {
    if k == 0 {
      assert InOrderAt(ts, 0);
    } else {
      RunInOrder(ts, es, k - 1);
      assert StepAt(ts, es, k - 1);
      if InOrderAt(ts, k - 1) {
        StepTracked(ts[k - 1], es[k - 1], ts[k], {});
        StepRegular(ts[k - 1], es[k - 1], ts[k]);
        assert InOrderAt(ts, k) <==> RegularAt(ts, es, k - 1);
      }
    }
    if InOrderAt(ts, k) { TrackedInOrder(ts[k]); }
  }

  lemma TrackedInOrder(t: Table)
    requires Tracks(t, {})
    ensures Inv(t)
  {
    forall j | 0 <= j < IMAGE_SLOTS && IsDownloaded(t, j) ensures SoundAt(t, j, {}) {
      assert TracksAt(t, {}, j) && Shut(t, j);
    }
  }

  // ---------------------------------------------------------------- conflict lists, in every run

  /** Every downloaded slot's list is what it waits for, if the slot `absent` counts as absent; that slot itself is exempt. */
  ghost predicate ExactBut(t: Table, absent: Option<nat>) {
    && Shaped(t) && LinksOk(t)
    && forall j :: 0 <= j < IMAGE_SLOTS && IsDownloaded(t, j) && absent != Some(j) ==> ListedAt(t, j, absent)
  }

  ghost predicate ListedAt(t: Table, j: nat, absent: Option<nat>)
    requires Shaped(t) && LinksOk(t) && j < IMAGE_SLOTS
  {
    && Ascending(t.insts[j].conflicting) && ValidTargets(j, t.insts[j].linked)
    && (set x | x in t.insts[j].conflicting) == Missing(t, j, absent)
  }

  lemma ExactListed(t: Table)
    requires Exact(t)
    ensures ExactBut(t, None)
  {
    forall j | 0 <= j < IMAGE_SLOTS && IsDownloaded(t, j) ensures ListedAt(t, j, None) {
      assert ExactAt(t, j) && ValidTargets(j, t.insts[j].linked);
    }
  }

  /** The slot a step has left without an image of its own although its state says DOWNLOADED. */
  ghost function AbsentAfter(t: Table, e: Event): Option<nat>
    requires Shaped(t) && e.i < IMAGE_SLOTS
  {
    if e.DropSlot? || (e.FinishSlot? && PackageFor(PutInPlace(t, e.i), e.i).None? && !IsDownloaded(t, e.i)) then Some(e.i) else None
  }

  /** The steps that recompute the conflict lists. */
  ghost predicate Recomputes(t: Table, e: Event, t': Table)
    requires Shaped(t) && Shaped(t') && e.i < IMAGE_SLOTS
  {
    match e
    case FinishSlot(i) => IsDownloaded(t', i)
    case ResetSlot(i) => true
    case DropSlot(i) => true
    case InstallSlot(i) => t.insts[i].state.Updating?
    case _ => false
  }

  lemma DropListed(t: Table, i: nat)
    requires Sealed(t) && i < IMAGE_SLOTS
    ensures ExactBut(ResetStep(t, i), Some(i))
  {
    ClearedOthers(t, i);
    var c, u := Cleared(t, i), ResetStep(t, i);
    RecomputedKeeps(c, Some(i));
    forall j | 0 <= j < IMAGE_SLOTS && IsDownloaded(u, j) && j != i ensures ListedAt(u, j, Some(i)) {
      assert ValidTargets(j, c.insts[j].linked);
      ConflictListSpec(c, j, Some(i));
      MissingDepends(c, u, j, Some(i), Some(i));
    }
  }

  lemma MarkListed(u: Table, i: nat)
    requires Exact(u) && i < IMAGE_SLOTS && !IsDownloaded(u, i)
    ensures ExactBut(WithState(u, i, Downloaded), Some(i))
  {
    var v := WithState(u, i, Downloaded);
    SameLinks(u, v);
    forall j | 0 <= j < IMAGE_SLOTS && IsDownloaded(v, j) && j != i ensures ListedAt(v, j, Some(i)) {
      assert ExactAt(u, j) && ValidTargets(j, u.insts[j].linked);
      MissingDepends(u, v, j, None, Some(i));
    }
  }

  lemma SuccessListed(t: Table, i: nat, u: Table)
    requires Sealed(t) && i < IMAGE_SLOTS && FinishStep(t, i, u, 0) && Shaped(u)
    ensures ExactBut(LibraryMark(u, i, 0), AbsentAfter(t, FinishSlot(i)))
  {
    SealedOrder(t);
    FinishExact(t, i, u, EVERYONE);
    SuccessfulFinish(t, i, u, i);
    ReceiverListed(t, i, PutInPlace(t, i), u);
  }

  lemma FinishListed(t: Table, i: nat, t': Table)
    requires Sealed(t) && Step(t, FinishSlot(i), t') && Shaped(t') && IsDownloaded(t', i)
    ensures ExactBut(t', AbsentAfter(t, FinishSlot(i)))
  {
    var u: Table, r: int :| FinishEvent(t, i, u, r, t');
    SuccessListed(t, i, u);
  }

  lemma ReceiverListed(t: Table, i: nat, ps: seq<Package>, u: Table)
    requires Shaped(t) && i < IMAGE_SLOTS && Exact(u) && SucceededAt(t, i, ps, u, i)
    ensures ExactBut(LibraryMark(u, i, 0), if PackageFor(ps, i).None? && !IsDownloaded(t, i) then Some(i) else None)
  {
    if IsDownloaded(u, i) {
      MarkAgain(u, i);
      ExactListed(u);
    } else {
      MarkListed(u, i);
    }
  }

  /**
   * In every run, whatever bundles arrive, after every step that recomputes conflict lists: the list of every downloaded
   * slot is, as a set, exactly what it waits for, where a receiver that has just been left out counts as absent.
   */
  lemma RunExact(ts: seq<Table>, es: seq<Event>, x: set<nat>, k: nat)
    requires Run(ts, es) && Tracks(ts[0], x) && k < |es|
    requires Shaped(ts[k]) && Shaped(ts[k + 1]) && es[k].i < IMAGE_SLOTS && Recomputes(ts[k], es[k], ts[k + 1])
    ensures ExactBut(ts[k + 1], AbsentAfter(ts[k], es[k]))
  {
    RunTracked(ts, es, x, k);
    assert StepAt(ts, es, k);
    StepListed(ts[k], es[k], ts[k + 1]);
  }

  lemma StepListed(t: Table, e: Event, t': Table)
    requires Sealed(t) && Step(t, e, t') && Shaped(t') && Recomputes(t, e, t')
    ensures ExactBut(t', AbsentAfter(t, e))
  {
    SealedOrder(t);
    match e
    case FinishSlot(i) => FinishListed(t, i, t');
    case ResetSlot(i) =>
      ResetExact(t, i, EVERYONE);
      ExactListed(t');
    case DropSlot(i) => DropListed(t, i);
    case InstallSlot(i) =>
      InstalledSealed(t, i);
      SealedOrder(Installed(t, i));
      ResetExact(Installed(t, i), i, EVERYONE);
      ExactListed(t');
  }

  // ---------------------------------------------------------------- the handlers on their own

  /** A finish without the library's mark after success: the handler has marked what it delivered. */
  ghost predicate DriverFinish(t: Table, i: nat, u: Table, r: int, t': Table)
    requires Shaped(t) && i < IMAGE_SLOTS
  {
    FinishStep(t, i, u, r) && Shaped(u) && t' == (if r == 0 then u else LibraryMark(u, i, r))
  }

  /** The same steps without that mark, and without the library declaring a slot downloaded in other ways. */
  ghost predicate DriverStep(t: Table, e: Event, t': Table) {
    if e.FinishSlot? then
      Shaped(t) && LinksOk(t) && e.i < IMAGE_SLOTS && exists u: Table, r: int :: DriverFinish(t, e.i, u, r, t')
    else Step(t, e, t') && !e.DropSlot? && !e.RevertSlot?
  }

  lemma DriverFinishInOrder(t: Table, i: nat, u: Table, r: int, t': Table)
    requires Sealed(t) && Inv(t) && i < IMAGE_SLOTS && DriverFinish(t, i, u, r, t')
    ensures Sealed(t') && Inv(t')
  {
    assert FinishEvent(t, i, u, r, LibraryMark(u, i, r));
    FinishFate(t, i, LibraryMark(u, i, r));
    if r == 0 {
      FinishSuccessSound(t, i, u);
      UnmarkedSealed(u, i);
    } else {
      FailedFinishInOrder(t, i, u, r);
    }
  }

  lemma UnmarkedSealed(u: Table, i: nat)
    requires Tidy(u) && LinksOk(u) && i < IMAGE_SLOTS && Sealed(LibraryMark(u, i, 0))
    ensures Sealed(u)
  {
    forall j | 0 <= j < IMAGE_SLOTS && Holds(u, j) ensures Shut(u, j) { assert Shut(LibraryMark(u, i, 0), j); }
  }

  lemma KeepsInOrder(t: Table, t': Table)
    requires Inv(t) && Keeps(t, t') && forall j :: 0 <= j < IMAGE_SLOTS && IsDownloaded(t', j) ==> IsDownloaded(t, j)
    ensures Inv(t')
  {
    forall j | 0 <= j < IMAGE_SLOTS && IsDownloaded(t', j) ensures SoundAt(t', j, {}) {
      assert SoundAt(t, j, {}) && Shut(t', j) && Unmoved(t, t', j);
    }
  }

  lemma NoneDeclared(t: Table, e: Event, t': Table)
    requires Sealed(t) && Step(t, e, t') && !e.FinishSlot? && !e.RevertSlot? && Shaped(t')
    ensures forall j :: 0 <= j < IMAGE_SLOTS && IsDownloaded(t', j) ==> IsDownloaded(t, j)
  {
    match e
    case ResetSlot(i) => ResetSealed(t, i);
    case DropSlot(i) => ResetSealed(t, i);
    case InstallSlot(i) =>
      InstalledSealed(t, i);
      ResetSealed(Installed(t, i), i);
    case _ =>
  }

  lemma DriverStepInOrder(t: Table, e: Event, t': Table)
    requires Sealed(t) && Inv(t) && DriverStep(t, e, t')
    ensures Sealed(t') && Inv(t')
  {
    if e.FinishSlot? {
      var u: Table, r: int :| DriverFinish(t, e.i, u, r, t');
      DriverFinishInOrder(t, e.i, u, r, t');
    } else {
      OtherFate(t, e, t');
      NoneDeclared(t, e, t');
      KeepsInOrder(t, t');
    }
  }

  ghost predicate DriverRun(ts: seq<Table>, es: seq<Event>) {
    |ts| == |es| + 1 && forall k :: 0 <= k < |es| ==> DriverStepAt(ts, es, k)
  }

  ghost predicate DriverStepAt(ts: seq<Table>, es: seq<Event>, k: nat)
    requires |ts| == |es| + 1 && k < |es|
  {
    DriverStep(ts[k], es[k], ts[k + 1])
  }

  /** In every run of the handlers, whatever bundles arrive, each downloaded slot holds the file its metadata vouches for. */
  lemma {:induction false} DriverRunInOrder(ts: seq<Table>, es: seq<Event>, k: nat)
    requires DriverRun(ts, es) && Sealed(ts[0]) && Inv(ts[0]) && k <= |es|
    ensures Sealed(ts[k]) && Inv(ts[k])
  {
    if k > 0 {
      DriverRunInOrder(ts, es, k - 1);
      assert DriverStepAt(ts, es, k - 1);
      DriverStepInOrder(ts[k - 1], es[k - 1], ts[k]);
    }
  }

  /** In every such run the conflict sets are exact after every successful finish and after every reset. */
  lemma DriverRunExact(ts: seq<Table>, es: seq<Event>, k: nat)
    requires DriverRun(ts, es) && Sealed(ts[0]) && Inv(ts[0]) && k < |es|
    requires es[k].ResetSlot? || (es[k].FinishSlot? && Shaped(ts[k]) && es[k].i < IMAGE_SLOTS && FinishStep(ts[k], es[k].i, ts[k + 1], 0))
    ensures Exact(ts[k + 1])
  {
    DriverRunInOrder(ts, es, k);
    assert DriverStepAt(ts, es, k);
    if es[k].ResetSlot? { ResetExact(ts[k], es[k].i); } else { FinishExact(ts[k], es[k].i, ts[k + 1]); }
  }

  // ---------------------------------------------------------------- an image replaced during its upgrade

  const BAD_TEE: Package := TEE_IMAGE.(meta := TEE_IMAGE.meta.(crc := 1))
  const BAD_ALONE: seq<Package> := [BAD_TEE]

  /** The TEE is being upgraded when a TEE image with a wrong checksum has come through the application slot. */
  ghost const UPDATING_TEE: Table :=
    Table(map[Temp(0) := EncodePackage(BAD_TEE), Temp(1) := []], 2,
          [Slot(Some(Temp(0)), None, NO_META, Attached, [0x31]), Slot(Some(Temp(1)), None, TEE_IMAGE.meta, Closed, [0x31]), UNUSED, UNUSED],
          [QUIET, QUIET.(state := Updating), QUIET, QUIET])

  ghost predicate UpdatingTee(t: Table) {
    && Tracks(t, {}) && Inv(t) && t.slots[APP].stream.Attached? && HasFile(CloseStream(t, APP), APP)
    && Bundle(CloseStream(t, APP), APP) == Unpacked(BAD_ALONE, 0)
    && t.insts[TEE].state.Updating? && forall j :: 0 <= j < IMAGE_SLOTS ==> !IsDownloaded(t, j)
  }

  lemma UpdatingTidy()
    ensures Tidy(UPDATING_TEE) && LinksOk(UPDATING_TEE) && Vouches(UPDATING_TEE, TEE)
    ensures forall j :: 0 <= j < IMAGE_SLOTS ==> !IsDownloaded(UPDATING_TEE, j) && (Holds(UPDATING_TEE, j) ==> j == TEE)
  {
    EmptyCrc();
    assert forall i :: 2 <= i < IMAGE_SLOTS ==> UPDATING_TEE.slots[i] == UNUSED && UPDATING_TEE.insts[i] == QUIET;
  }

  lemma UpdatingHolds()
    ensures UpdatingTee(UPDATING_TEE) == true
  {
    UpdatingTidy();
    SingleRoundTrip(BAD_TEE);
    var t := UPDATING_TEE;
    forall j | 0 <= j < IMAGE_SLOTS && Holds(t, j) ensures Shut(t, j) { assert j == TEE; }
    forall j | 0 <= j < IMAGE_SLOTS ensures TracksAt(t, {}, j) { if Holds(t, j) { assert j == TEE; } }
  }

  lemma BadTeeRefused(m: Table)
    requires Shaped(m) && AllDelivered(m, BAD_ALONE)
    ensures ProcessAll(m, Addressed(BAD_ALONE)).1 != 0
  {
    TeeOnly(BAD_TEE);
    EmptyCrc();
    assert Delivered(m, TEE, PackageFor(BAD_ALONE, TEE).value);
    ProcessOne(m, TEE, BAD_TEE);
    assert [TEE] + [] == [TEE];
    ProcessFirst(m, TEE, []);
  }

  lemma ReplacedFails(t: Table) returns (u: Table, r: int)
    requires UpdatingTee(t)
    ensures FinishStep(t, APP, u, r) && r != 0 && Shaped(u)
  {
    CloseKeeps(t, APP);
    TeeOnly(BAD_TEE);
    var c := CloseStream(t, APP);
    forall j | 0 <= j < IMAGE_SLOTS ensures !IsDownloaded(c, j) { assert !IsDownloaded(t, j); }
    var m := CanUnpack(c, APP, BAD_ALONE);
    BadTeeRefused(m);
    u, r := FailsLate(t, APP, BAD_ALONE, m);
  }

  lemma ReplacedInPlace(t: Table)
    requires UpdatingTee(t)
    ensures PutInPlace(t, APP) == BAD_ALONE && LostBy(t, FinishSlot(APP), TEE)
  {
    NoClashAtAll(CloseStream(t, APP), BAD_ALONE, 0);
    TeeOnly(BAD_TEE);
    EmptyCrc();
  }

  lemma BadTeeUnmarked(t: Table)
    requires Shaped(t)
    ensures TEE !in MarkedFrom(t, BAD_ALONE, 0) && !Accepts(t, TEE, BAD_TEE) && PackageFor(BAD_ALONE, TEE) == Some(BAD_TEE)
  {
    TeeOnly(BAD_TEE);
    EmptyCrc();
    assert MarkedFrom(t, BAD_ALONE, 1) == {};
    assert MarkedFrom(t, BAD_ALONE, 0) == MarkedFrom(t, BAD_ALONE, 1);
  }

  lemma ReplacedLost(t: Table, u: Table, r: int)
    requires UpdatingTee(t) && FinishStep(t, APP, u, r) && r != 0 && Shaped(u)
    ensures LibraryMark(u, APP, r).insts[TEE].state.Updating? && !Vouches(LibraryMark(u, APP, r), TEE)
  {
    SealedOrder(t);
    ReplacedInPlace(t);
    BadTeeUnmarked(t);
    EmptyCrc();
    FailedFinish(t, APP, u, r, TEE);
    FailedFate(t, APP, u, r, TEE);
  }

  lemma FinishIsStep(t: Table, i: nat, u: Table, r: int)
    requires Shaped(t) && LinksOk(t) && i < IMAGE_SLOTS && FinishStep(t, i, u, r) && Shaped(u)
    ensures Step(t, FinishSlot(i), LibraryMark(u, i, r))
  {
    assert FinishEvent(t, i, u, r, LibraryMark(u, i, r));
  }

  /** The finish fails, the upgrade fails later, and the TEE slot is downloaded with a file that its metadata does not vouch for. */
  lemma ReplacedWhileUpdating() returns (ts: seq<Table>, es: seq<Event>)
    ensures Run(ts, es) && es == [FinishSlot(APP), RevertSlot(TEE)] && Tracks(ts[0], {})
    ensures Shaped(ts[2]) && IsDownloaded(ts[2], TEE) && !Vouches(ts[2], TEE)
  {
    UpdatingHolds();
    ts, es := ReplacedRun(UPDATING_TEE);
  }

  lemma ReplacedRun(t: Table) returns (ts: seq<Table>, es: seq<Event>)
    requires UpdatingTee(t)
    ensures Run(ts, es) && es == [FinishSlot(APP), RevertSlot(TEE)] && ts[0] == t
    ensures Shaped(ts[2]) && IsDownloaded(ts[2], TEE) && !Vouches(ts[2], TEE)
  {
    var u, r := ReplacedFails(t);
    var v := LibraryMark(u, APP, r);
    ReplacedLost(t, u, r);
    FinishIsStep(t, APP, u, r);
    FailedFinishInOrder(t, APP, u, r);
    ts, es := RevertAfter(t, v, APP, TEE);
  }

  lemma RevertAfter(t: Table, v: Table, i: nat, j: nat) returns (ts: seq<Table>, es: seq<Event>)
    requires Step(t, FinishSlot(i), v) && Shaped(v) && LinksOk(v) && j < IMAGE_SLOTS && v.insts[j].state.Updating? && !Vouches(v, j)
    ensures Run(ts, es) && es == [FinishSlot(i), RevertSlot(j)] && ts[0] == t
    ensures Shaped(ts[2]) && IsDownloaded(ts[2], j) && !Vouches(ts[2], j)
  {
    var w := WithState(v, j, Downloaded);
    SameSlotVouches(v, w, j);
    ts, es := [t, v, w], [FinishSlot(i), RevertSlot(j)];
    forall k | 0 <= k < |es| ensures StepAt(ts, es, k) { assert k == 0 || k == 1; }
  }
}
