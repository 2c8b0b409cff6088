/**
 * A whole download: the slot is opened, its package is written in pieces as they arrive, and the handler finishes or
 * resets the slot.
 */
module FirmwareDownload {
  import opened Options
  import opened Bytes
  import opened Sequences
  import opened FirmwareFormat
  import opened FirmwareSlots
  import opened FirmwareProtocol
  import opened BundleDelivery
  import opened FinishEffects

  // ---------------------------------------------------------------- what the writes leave in the file

  /** These pieces have been written, in this order. */
  function WrittenAll(t: Table, i: nat, pieces: seq<seq<byte>>): (u: Table)
    requires |t.slots| == IMAGE_SLOTS && i < IMAGE_SLOTS
    ensures u.slots == t.slots && u.insts == t.insts && u.nextTemp == t.nextTemp
  {
    if pieces == [] then t else WriteStep(WrittenAll(t, i, pieces[..|pieces| - 1]), i, pieces[|pieces| - 1])
  }

  /** The pieces stand one after the other behind what was in the file, and nothing else is different. */
  lemma {:induction false} WritesAppend(t: Table, i: nat, pieces: seq<seq<byte>>)
    requires Shaped(t) && i < IMAGE_SLOTS && t.slots[i].stream.Attached? && HasFile(t, i)
    ensures WrittenAll(t, i, pieces) == t.(files := t.files[t.slots[i].path.value := File(t, i) + Joined(pieces)])
  {
    if pieces == [] {
      assert File(t, i) + [] == File(t, i);
      assert t.files == t.files[t.slots[i].path.value := File(t, i)];
    } else {
      var front, last := pieces[..|pieces| - 1], pieces[|pieces| - 1];
      WritesAppend(t, i, front);
      Regroup(File(t, i), Joined(front), last);
    }
  }

  /** Without a stream to the file nothing is written. */
  lemma {:induction false} WritesLost(t: Table, i: nat, pieces: seq<seq<byte>>)
    requires Shaped(t) && i < IMAGE_SLOTS && !t.slots[i].stream.Attached?
    ensures WrittenAll(t, i, pieces) == t
  {
    if pieces != [] { WritesLost(t, i, pieces[..|pieces| - 1]); }
  }

  /** The table once slot i has been opened and these pieces have arrived. */
  function Received(t: Table, i: nat, pieces: seq<seq<byte>>): (u: Table)
    requires |t.slots| == IMAGE_SLOTS && |t.insts| == IMAGE_SLOTS && i < IMAGE_SLOTS
    ensures |u.slots| == IMAGE_SLOTS && u.insts == t.insts
  {
    WrittenAll(OpenStep(t, i), i, pieces)
  }

  lemma OpenEmpties(t: Table, i: nat)
    requires Tidy(t) && i < IMAGE_SLOTS
    ensures var u := OpenStep(t, i);
            && Tidy(u) && HasFile(u, i) && File(u, i) == [] && u.insts == t.insts
            && u.slots[i] == t.slots[i].(path := u.slots[i].path, stream := Attached)
            && (forall j :: 0 <= j < IMAGE_SLOTS && j != i ==> SameSlot(t, u, j))
  {
    EnsurePathKeeps(t, i);
    var v, u := EnsurePath(t, i), OpenStep(t, i);
    StoreKeeps(v, u, i);
    forall j | 0 <= j < IMAGE_SLOTS && j != i ensures SameSlot(t, u, j) { assert SameSlot(t, v, j) && SameSlot(v, u, j); }
  }

  /**
   * Whatever was in the slot before, and however what arrives is cut, the file holds exactly the pieces one after the
   * other; the metadata, the records and the other slots are as before.
   */
  lemma DownloadStored(t: Table, i: nat, pieces: seq<seq<byte>>)
    requires Tidy(t) && i < IMAGE_SLOTS
    ensures var u := Received(t, i, pieces);
            && Tidy(u) && HasFile(u, i) && File(u, i) == Joined(pieces) && u.insts == t.insts
            && u.slots[i] == t.slots[i].(path := u.slots[i].path, stream := Attached)
            && (forall j :: 0 <= j < IMAGE_SLOTS && j != i ==> SameSlot(t, u, j))
  {
    OpenEmpties(t, i);
    var v, u := OpenStep(t, i), Received(t, i, pieces);
    WritesAppend(v, i, pieces);
    assert [] + Joined(pieces) == Joined(pieces);
    StoreKeeps(v, u, i);
    forall j | 0 <= j < IMAGE_SLOTS && j != i ensures SameSlot(t, u, j) { assert SameSlot(t, v, j) && SameSlot(v, u, j); }
  }

  /** How the contents are cut makes no difference. */
  lemma AnyCut(t: Table, i: nat, a: seq<seq<byte>>, b: seq<seq<byte>>)
    requires Tidy(t) && i < IMAGE_SLOTS && Joined(a) == Joined(b)
    ensures Received(t, i, a) == Received(t, i, b)
  {
    OpenEmpties(t, i);
    WritesAppend(OpenStep(t, i), i, a);
    WritesAppend(OpenStep(t, i), i, b);
  }

  // ---------------------------------------------------------------- what a finished download delivers

  lemma ReceivedInOrder(t: Table, i: nat, pieces: seq<seq<byte>>)
    requires InOrderBut(t, EVERYONE) && i < IMAGE_SLOTS && !IsDownloaded(t, i)
    ensures InOrderBut(Received(t, i, pieces), EVERYONE)
  {
    DownloadStored(t, i, pieces);
    var u := Received(t, i, pieces);
    forall j | 0 <= j < IMAGE_SLOTS ensures ValidTargets(j, u.insts[j].linked) { assert ValidTargets(j, t.insts[j].linked); }
    forall j | 0 <= j < IMAGE_SLOTS && IsDownloaded(u, j) ensures SoundAt(u, j, EVERYONE) {
      assert SoundAt(t, j, EVERYONE) && SameSlot(t, u, j);
    }
  }

  /** Every package of the bundle will be taken by the slot it is meant for. */
  ghost predicate Welcome(t: Table, ps: seq<Package>)
    requires |t.insts| == IMAGE_SLOTS
  {
    forall k, j :: 0 <= k < |ps| && 0 <= j < IMAGE_SLOTS && ps[k].meta.magic == MAGICS[j] ==> Accepts(t, j, ps[k])
  }

  lemma WelcomeTaken(t: Table, u: Table, ps: seq<Package>)
    requires Shaped(t) && u.insts == t.insts && OnePerSlot(ps)
    ensures Welcome(t, ps) <==> AllTaken(u, ps, 0)
  {
    forall k, j | 0 <= k < |ps| && 0 <= j < IMAGE_SLOTS && ps[k].meta.magic == MAGICS[j] ensures PackageFor(ps, j) == Some(ps[k]) {
      PackageForOnly(ps, j, ps[k]);
    }
    forall j | 0 <= j < IMAGE_SLOTS && PackageFor(ps, j).Some?
      ensures exists k :: 0 <= k < |ps| && ps[k] == PackageFor(ps, j).value && ps[k].meta.magic == MAGICS[j]
    {
      PackageForIn(ps, j);
    }
  }

  lemma {:induction false} TakenNoClash(t: Table, ps: seq<Package>, k: nat)
    requires Shaped(t) && k <= IMAGE_SLOTS && AllTaken(t, ps, k)
    ensures ClashFrom(t, ps, k).None?
    decreases IMAGE_SLOTS - k
  {
    if k < IMAGE_SLOTS { TakenNoClash(t, ps, k + 1); }
  }

  /** What the finish finds once the stream is closed. */
  lemma ReceivedBundle(t: Table, i: nat, pieces: seq<seq<byte>>, ps: seq<Package>)
    requires Tidy(t) && i < IMAGE_SLOTS && ReadBundle(Joined(pieces)) == Unpacked(ps, 0)
    ensures var u := Received(t, i, pieces);
            && Shaped(u) && !u.slots[i].stream.Closed? && HasFile(CloseStream(u, i), i)
            && Bundle(CloseStream(u, i), i) == Unpacked(ps, 0)
  {
    DownloadStored(t, i, pieces);
  }

  lemma ReceivedDecided(t: Table, i: nat, u: Table, ps: seq<Package>)
    requires Shaped(t) && Shaped(u) && i < IMAGE_SLOTS && u.insts == t.insts && OnePerSlot(ps) && !u.slots[i].stream.Closed?
    requires HasFile(CloseStream(u, i), i) && Bundle(CloseStream(u, i), i) == Unpacked(ps, 0)
    ensures Succeeds(u, i) <==> Welcome(t, ps)
  {
    WelcomeTaken(t, u, ps);
    if Welcome(t, ps) {
      TakenNoClash(u, ps, 0);
      ClashSame(u, i, ps, 0);
    }
  }

  lemma {:induction false} ClashSame(u: Table, i: nat, ps: seq<Package>, k: nat)
    requires Shaped(u) && i < IMAGE_SLOTS && k <= IMAGE_SLOTS
    ensures ClashFrom(CloseStream(u, i), ps, k) == ClashFrom(u, ps, k)
    decreases IMAGE_SLOTS - k
  {
    if k < IMAGE_SLOTS { ClashSame(u, i, ps, k + 1); }
  }

  /** What a successful finish leaves in slot j. */
  ghost predicate LeftAfter(t: Table, i: nat, ps: seq<Package>, t': Table, j: nat)
    requires Shaped(t) && Shaped(t') && i < IMAGE_SLOTS && j < IMAGE_SLOTS
  {
    && (forall k :: 0 <= k < |ps| && ps[k].meta.magic == MAGICS[j] ==>
          IsDownloaded(t', j) && t'.insts[j].result == 0 && Delivered(t', j, ps[k]) && t'.insts[j].linked == LinkedIds(ps[k].meta.linked))
    && ((forall k :: 0 <= k < |ps| ==> ps[k].meta.magic != MAGICS[j]) ==>
          t'.insts[j].state == t.insts[j].state && t'.insts[j].linked == t.insts[j].linked && (j != i ==> SameSlot(t, t', j)))
  }

  lemma LeftBySuccess(t: Table, i: nat, u: Table, ps: seq<Package>, t': Table, j: nat)
    requires Shaped(t) && Shaped(u) && Shaped(t') && i < IMAGE_SLOTS && j < IMAGE_SLOTS && OnePerSlot(ps)
    requires u.insts == t.insts && (j != i ==> SameSlot(t, CloseStream(u, i), j)) && SucceededAt(u, i, ps, t', j)
    ensures LeftAfter(t, i, ps, t', j)
  {
    PackageForIn(ps, j);
    forall k | 0 <= k < |ps| && ps[k].meta.magic == MAGICS[j] ensures PackageFor(ps, j) == Some(ps[k]) {
      PackageForOnly(ps, j, ps[k]);
    }
  }

  lemma ReceivedElsewhere(t: Table, i: nat, pieces: seq<seq<byte>>, j: nat)
    requires Tidy(t) && i < IMAGE_SLOTS && j < IMAGE_SLOTS
    ensures j != i ==> SameSlot(t, CloseStream(Received(t, i, pieces), i), j)
  {
    DownloadStored(t, i, pieces);
    if j != i { assert SameSlot(t, Received(t, i, pieces), j); }
  }

  /**
   * A download that stands for these packages, no two for one slot, cut in any way: the finish succeeds if and only if
   * every package is welcome in its slot; then every one of them has been delivered and marked, and nothing else changed.
   */
  lemma DownloadFinished(t: Table, i: nat, pieces: seq<seq<byte>>, ps: seq<Package>, t': Table, r: int)
    requires InOrderBut(t, EVERYONE) && i < IMAGE_SLOTS && !IsDownloaded(t, i)
    requires ReadBundle(Joined(pieces)) == Unpacked(ps, 0) && OnePerSlot(ps)
    requires FinishStep(Received(t, i, pieces), i, t', r)
    ensures r == 0 <==> Welcome(t, ps)
    ensures r == 0 ==> Shaped(t') && forall j :: 0 <= j < IMAGE_SLOTS ==> LeftAfter(t, i, ps, t', j)
  {
    var u := Received(t, i, pieces);
    ReceivedInOrder(t, i, pieces);
    ReceivedBundle(t, i, pieces, ps);
    ReceivedDecided(t, i, u, ps);
    FinishDecided(u, i, t', r);
    if r == 0 {
      forall j | 0 <= j < IMAGE_SLOTS ensures Shaped(t') && LeftAfter(t, i, ps, t', j) {
        SuccessfulFinish(u, i, t', j);
        ReceivedElsewhere(t, i, pieces, j);
        LeftBySuccess(t, i, u, ps, t', j);
      }
    }
  }

  /** One to four legal packages for different slots, sent as a bundle in any number of pieces. */
  lemma BundleDownloaded(t: Table, i: nat, pieces: seq<seq<byte>>, ps: seq<Package>, trailing: seq<byte>, t': Table, r: int)
    requires InOrderBut(t, EVERYONE) && i < IMAGE_SLOTS && !IsDownloaded(t, i)
    requires 1 <= |ps| <= IMAGE_SLOTS && LegalAll(ps) && OnePerSlot(ps) && Joined(pieces) == EncodeBundle(ps) + trailing
    requires FinishStep(Received(t, i, pieces), i, t', r)
    ensures r == 0 <==> Welcome(t, ps)
    ensures r == 0 ==> Shaped(t') && forall j :: 0 <= j < IMAGE_SLOTS ==> LeftAfter(t, i, ps, t', j)
  {
    BundleRoundTrip(ps, trailing);
    DownloadFinished(t, i, pieces, ps, t', r);
  }

  /** A lone package, sent without a bundle around it. */
  lemma PackageDownloaded(t: Table, i: nat, pieces: seq<seq<byte>>, p: Package, t': Table, r: int)
    requires InOrderBut(t, EVERYONE) && i < IMAGE_SLOTS && !IsDownloaded(t, i)
    requires LonePackage(p) && Joined(pieces) == EncodePackage(p)
    requires FinishStep(Received(t, i, pieces), i, t', r)
    ensures r == 0 <==> Welcome(t, [p])
    ensures r == 0 ==> Shaped(t') && forall j :: 0 <= j < IMAGE_SLOTS ==> LeftAfter(t, i, [p], t', j)
  {
    SingleRoundTrip(p);
    DownloadFinished(t, i, pieces, [p], t', r);
  }

  // ---------------------------------------------------------------- what a given-up download leaves

  /**
   * A reset after any number of pieces takes the file away again: the files are those of before without the slot's own,
   * the slot is empty, and everything else is as before but for the conflict lists of downloaded slots.
   */
  lemma DownloadGivenUp(t: Table, i: nat, pieces: seq<seq<byte>>)
    requires Tidy(t) && LinksOk(t) && i < IMAGE_SLOTS
    ensures var u := Received(t, i, pieces);
            && Shaped(u) && LinksOk(u) && u.slots[i].path.Some?
            && (t.slots[i].path.Some? || t.slots[i].admin.Some? ==> u.slots[i].path.value in Names(t.slots[i]))
            && ResetStep(u, i).files == t.files - {u.slots[i].path.value}
            && (t.slots[i].path.None? && t.slots[i].admin.None? ==> ResetStep(u, i).files == t.files)
  {
    DownloadStored(t, i, pieces);
    var v, u := OpenStep(t, i), Received(t, i, pieces);
    forall j | 0 <= j < IMAGE_SLOTS ensures ValidTargets(j, u.insts[j].linked) { assert ValidTargets(j, t.insts[j].linked); }
    OpenEmpties(t, i);
    WritesAppend(v, i, pieces);
    ResetLeaves(u, i, i);
    if t.slots[i].path.None? && t.slots[i].admin.None? {
      assert !Known(t.nextTemp, Temp(t.nextTemp));
      assert Temp(t.nextTemp) !in t.files.Keys;
    }
  }
}
