/**
 * What an upgrade can rely on in every reachable state: which images need something that no slot holds and that is not
 * on their conflict list, told step by step from the table before the step.
 */
module UpgradeSafety {
  import opened Options
  import opened FirmwareFormat
  import opened FirmwareSlots
  import opened Conflicts
  import opened FirmwareProtocol
  import opened BundleDelivery
  import opened FinishEffects
  import opened FirmwareUpgrade
  import opened FirmwareRuns

  // ---------------------------------------------------------------- covered images

  ghost function HeldSlots(t: Table): set<nat>
    requires |t.insts| == IMAGE_SLOTS
  {
    set j | 0 <= j < IMAGE_SLOTS && Holds(t, j)
  }

  /** Whatever image j needs, with these links and this version rule, is held or on this list. */
  ghost predicate CoveredWith(held: set<nat>, links: seq<nat>, list: seq<nat>, j: nat, tooOld: bool) {
    (forall x :: x in links ==> x in held || x in list) && (j == APP && tooOld ==> TEE in list)
  }

  ghost predicate Covered(t: Table, j: nat)
    requires Shaped(t) && j < IMAGE_SLOTS
  {
    CoveredWith(HeldSlots(t), t.insts[j].linked, t.insts[j].conflicting, j, TeeTooOld(t))
  }

  /** The slots of y, and no others, hold an image that is not covered. */
  ghost predicate ExactlyUncovered(t: Table, y: set<nat>) {
    Sealed(t) && y <= EVERYONE && forall j :: 0 <= j < IMAGE_SLOTS ==> UncoveredAt(t, y, j)
  }

  ghost predicate UncoveredAt(t: Table, y: set<nat>, j: nat)
    requires Shaped(t) && j < IMAGE_SLOTS
  {
    j in y <==> Holds(t, j) && !Covered(t, j)
  }

  // ---------------------------------------------------------------- the table after a step, told beforehand

  ghost function Placed(t: Table, i: nat): set<nat>
    requires Shaped(t) && i < IMAGE_SLOTS
  {
    set j | 0 <= j < IMAGE_SLOTS && PackageFor(PutInPlace(t, i), j).Some?
  }

  ghost function HeldAfter(t: Table, e: Event): set<nat>
    requires Shaped(t) && e.i < IMAGE_SLOTS
  {
    match e
    case FinishSlot(i) =>
      if Succeeds(t, i) then HeldSlots(t) + {i} + Placed(t, i) else (HeldSlots(t) + MarkedFrom(t, PutInPlace(t, i), 0)) - {i}
    case ResetSlot(i) => HeldSlots(t) - {i}
    case MoveSlot(i, s) => HeldSlots(t) - {i}
    case InstallSlot(i) => if t.insts[i].state.Updating? then HeldSlots(t) - {i} else HeldSlots(t)
    case _ => HeldSlots(t)
  }

  /** The step computes the list of image j anew. */
  ghost predicate Refreshed(t: Table, e: Event, j: nat)
    requires Shaped(t) && e.i < IMAGE_SLOTS && j < IMAGE_SLOTS
  {
    match e
    case FinishSlot(i) => Succeeds(t, i) && (IsDownloaded(t, j) || PackageFor(PutInPlace(t, i), j).Some?)
    case ResetSlot(i) => IsDownloaded(t, j)
    case DropSlot(i) => IsDownloaded(t, j)
    case InstallSlot(i) => t.insts[i].state.Updating? && IsDownloaded(t, j)
    case _ => false
  }

  ghost function LinksAfter(t: Table, e: Event, j: nat): seq<nat>
    requires Shaped(t) && e.i < IMAGE_SLOTS && j < IMAGE_SLOTS
  {
    match e
    case FinishSlot(i) => FailedLinks(t, PutInPlace(t, i), j)
    case DropSlot(i) => if j == i then [] else t.insts[j].linked
    case _ => t.insts[j].linked
  }

  /** A finish that fails has stored the links of the packages up to the one refused for its slot's state. */
  ghost function FailedLinks(t: Table, ps: seq<Package>, j: nat): seq<nat>
    requires Shaped(t) && j < IMAGE_SLOTS
  {
    if j in RelinkedFrom(t, ps, 0) && PackageFor(ps, j).Some? then LinkedIds(PackageFor(ps, j).value.meta.linked) else t.insts[j].linked
  }

  ghost function ListAfter(t: Table, e: Event, j: nat): seq<nat>
    requires Shaped(t) && j < IMAGE_SLOTS
  {
    if e == DropSlot(j) then [] else t.insts[j].conflicting
  }

  ghost predicate TooOldAfter(t: Table, e: Event)
    requires Shaped(t) && e.i < IMAGE_SLOTS
  {
    match e
    case FinishSlot(i) => TooOldWith(t, PutInPlace(t, i))
    case InstallSlot(i) => TeeTooOld(Installed(t, i))
    case _ => TeeTooOld(t)
  }

  /** As far as image j is concerned, the table after the step is as foretold. */
  ghost predicate Foretold(t: Table, e: Event, t': Table, j: nat)
    requires Shaped(t) && Shaped(t') && e.i < IMAGE_SLOTS && j < IMAGE_SLOTS
  {
    && (Holds(t', j) <==> j in HeldAfter(t, e))
    && (Holds(t', j) && Refreshed(t, e, j) ==> Covered(t', j))
    && (Holds(t', j) && !Refreshed(t, e, j) ==>
          && t'.insts[j].linked == LinksAfter(t, e, j) && t'.insts[j].conflicting == ListAfter(t, e, j)
          && (j == APP ==> (TeeTooOld(t') <==> TooOldAfter(t, e))))
  }

  // ---------------------------------------------------------------- one kind of step after the other

  lemma ListedCovered(t: Table, j: nat, absent: Option<nat>)
    requires ExactBut(t, absent) && j < IMAGE_SLOTS && IsDownloaded(t, j) && absent != Some(j)
    ensures Covered(t, j)
  {
    assert ListedAt(t, j, absent);
    var list, missing := t.insts[j].conflicting, Missing(t, j, absent);
    forall x | x in missing ensures x in list { assert x in (set z | z in list); }
    forall x | x in t.insts[j].linked ensures x in HeldSlots(t) || x in list {
      var k :| 0 <= k < |t.insts[j].linked| && t.insts[j].linked[k] == x;
      if !Holds(t, x) { assert Absent(t, x, absent) && x in missing; }
    }
  }

  /** A step that moves no image and keeps links, lists and versions. */
  lemma PlainForetold(t: Table, e: Event, t': Table, j: nat)
    requires Shaped(t) && Shaped(t') && e.i < IMAGE_SLOTS && j < IMAGE_SLOTS
    requires e.OpenSlot? || e.WriteSlot? || e.ExecuteSlot? || e.RevertSlot? || e.ResultSlot?
    requires Holds(t', j) <==> Holds(t, j)
    requires t'.insts[j].linked == t.insts[j].linked && t'.insts[j].conflicting == t.insts[j].conflicting
    requires TeeTooOld(t') <==> TeeTooOld(t)
    ensures Foretold(t, e, t', j) == true
  {}

  lemma MoveForetold(t: Table, i: nat, s: State, j: nat)
    requires Shaped(t) && i < IMAGE_SLOTS && j < IMAGE_SLOTS && (s.Idle? || s.Downloading?)
    ensures Foretold(t, MoveSlot(i, s), WithState(t, i, s), j) == true
  {}

  /** The reset handler: records of slots that are not downloaded are as before, but for the slot itself. */
  lemma ResetRecords(t: Table, i: nat, j: nat)
    requires Sealed(t) && i < IMAGE_SLOTS && j < IMAGE_SLOTS
    ensures var u := ResetStep(t, i);
            && Shaped(u) && u.insts[j].state == t.insts[j].state && (TeeTooOld(u) <==> TeeTooOld(t))
            && (j != i && !IsDownloaded(t, j) ==> u.insts[j] == t.insts[j])
            && (j == i ==> u.insts[j].linked == [] && (!IsDownloaded(t, j) ==> u.insts[j].conflicting == []))
  {
    ClearedOthers(t, i);
    var c := Cleared(t, i);
    RecomputedKeeps(c, Some(i));
    assert TeeTooOld(c) <==> TeeTooOld(t);
  }

  lemma ResetForetold(t: Table, i: nat, j: nat)
    requires Sealed(t) && i < IMAGE_SLOTS && j < IMAGE_SLOTS
    requires var u := WithState(ResetStep(t, i), i, Idle); Shaped(u) && (IsDownloaded(u, j) ==> Covered(u, j))
    ensures Foretold(t, ResetSlot(i), WithState(ResetStep(t, i), i, Idle), j) == true
  {
    ResetRecords(t, i, j);
  }

  lemma ResetCovers(t: Table, i: nat, j: nat)
    requires Sealed(t) && i < IMAGE_SLOTS && j < IMAGE_SLOTS
    ensures var u := WithState(ResetStep(t, i), i, Idle); Shaped(u) && (IsDownloaded(u, j) ==> Covered(u, j))
  {
    SealedOrder(t);
    ResetExact(t, i, EVERYONE);
    var u := WithState(ResetStep(t, i), i, Idle);
    ExactListed(u);
    if IsDownloaded(u, j) { ListedCovered(u, j, None); }
  }

  /** A dropped slot has no links; if it is the application, its list has been computed anew. */
  lemma DropSelf(t: Table, i: nat)
    requires Sealed(t) && i < IMAGE_SLOTS && IsDownloaded(t, i)
    ensures Shaped(ResetStep(t, i)) && Covered(ResetStep(t, i), i)
  {
    ClearedOthers(t, i);
    var c, u := Cleared(t, i), ResetStep(t, i);
    RecomputedKeeps(c, Some(i));
    if i == APP && TeeTooOld(u) {
      ConflictListSpec(c, i, Some(i));
      assert TEE in Missing(c, i, Some(i));
      assert TEE in (set x | x in u.insts[i].conflicting);
    }
  }

  lemma DropCovers(t: Table, i: nat, j: nat)
    requires Sealed(t) && i < IMAGE_SLOTS && j < IMAGE_SLOTS && IsDownloaded(t, j)
    ensures Shaped(ResetStep(t, i)) && Covered(ResetStep(t, i), j)
  {
    ResetRecords(t, i, j);
    if j == i {
      DropSelf(t, i);
    } else {
      DropListed(t, i);
      ListedCovered(ResetStep(t, i), j, Some(i));
    }
  }

  lemma DropForetold(t: Table, i: nat, j: nat)
    requires Sealed(t) && i < IMAGE_SLOTS && j < IMAGE_SLOTS
    ensures Shaped(ResetStep(t, i)) && Foretold(t, DropSlot(i), ResetStep(t, i), j) == true
  {
    ResetRecords(t, i, j);
    if IsDownloaded(t, j) { DropCovers(t, i, j); }
  }

  /** An image that is installed while it is being upgraded: its slot is reset with the new version in force. */
  lemma InstallForetold(t: Table, i: nat, j: nat)
    requires Sealed(t) && i < IMAGE_SLOTS && j < IMAGE_SLOTS && t.insts[i].state.Updating? && i != APP
    ensures var u := Installed(t, i);
            Sealed(u) && Foretold(t, InstallSlot(i), WithState(ResetStep(u, i), i, Idle), j) == true
  {
    InstalledSealed(t, i);
    ResetCovers(Installed(t, i), i, j);
    ResetRecords(Installed(t, i), i, j);
  }

  lemma VersionForetold(t: Table, i: nat, j: nat)
    requires Shaped(t) && i < IMAGE_SLOTS && j < IMAGE_SLOTS && !t.insts[i].state.Updating?
    ensures Foretold(t, InstallSlot(i), Installed(t, i), j) == true
  {}

  lemma SuccessForetold(t: Table, i: nat, ps: seq<Package>, u: Table, j: nat)
    requires Shaped(t) && i < IMAGE_SLOTS && j < IMAGE_SLOTS && SuccessState(t, i, ps, u)
    requires PackageFor(ps, j).None? && !IsDownloaded(t, j)
    ensures var v := LibraryMark(u, i, 0);
            && v.insts[j].linked == t.insts[j].linked && v.insts[j].conflicting == t.insts[j].conflicting
            && (TeeTooOld(v) <==> TooOldWith(t, ps))
  {
    assert SucceededAt(t, i, ps, u, j);
    SuccessVersion(t, i, ps, u);
  }

  lemma FailureForetold(t: Table, i: nat, ps: seq<Package>, v: Table, j: nat)
    requires Shaped(t) && Shaped(v) && i < IMAGE_SLOTS && j < IMAGE_SLOTS && j != i && FailedAt(t, i, ps, v, j)
    requires v.slots[TEE].currentVer == t.slots[TEE].currentVer
    ensures v.insts[j].linked == FailedLinks(t, ps, j) && v.insts[j].conflicting == t.insts[j].conflicting
    ensures j == APP ==> (TeeTooOld(v) <==> TooOldWith(t, ps))
  {}

  lemma SuccessDownloads(t: Table, i: nat, ps: seq<Package>, u: Table, j: nat)
    requires Shaped(t) && Shaped(u) && i < IMAGE_SLOTS && j < IMAGE_SLOTS && SucceededAt(t, i, ps, u, j)
    requires IsDownloaded(t, j) || PackageFor(ps, j).Some?
    ensures IsDownloaded(LibraryMark(u, i, 0), j)
  {}

  lemma NotAbsent(t: Table, i: nat, j: nat)
    requires Shaped(t) && i < IMAGE_SLOTS && j < IMAGE_SLOTS && (IsDownloaded(t, j) || PackageFor(PutInPlace(t, i), j).Some?)
    ensures AbsentAfter(t, FinishSlot(i)) != Some(j)
  {}

  lemma SuccessCovers(t: Table, i: nat, u: Table, j: nat)
    requires Sealed(t) && i < IMAGE_SLOTS && j < IMAGE_SLOTS && FinishStep(t, i, u, 0) && Shaped(u)
    requires IsDownloaded(t, j) || PackageFor(PutInPlace(t, i), j).Some?
    ensures Covered(LibraryMark(u, i, 0), j) == true
  {
    SealedOrder(t);
    SuccessListed(t, i, u);
    SuccessfulFinish(t, i, u, j);
    SuccessDownloads(t, i, PutInPlace(t, i), u, j);
    NotAbsent(t, i, j);
    ListedCovered(LibraryMark(u, i, 0), j, AbsentAfter(t, FinishSlot(i)));
  }

  /** What a finish leaves of image j, if its list is not computed anew. */
  ghost predicate LeftAs(t: Table, ps: seq<Package>, v: Table, j: nat)
    requires Shaped(t) && Shaped(v) && j < IMAGE_SLOTS
  {
    && v.insts[j].linked == FailedLinks(t, ps, j) && v.insts[j].conflicting == t.insts[j].conflicting
    && (j == APP ==> (TeeTooOld(v) <==> TooOldWith(t, ps)))
  }

  /** The table after a finish that puts these packages in place and succeeds or not, as far as image j is concerned. */
  ghost predicate AfterFinish(t: Table, i: nat, ps: seq<Package>, ok: bool, v: Table, j: nat)
    requires Shaped(t) && Shaped(v) && i < IMAGE_SLOTS && j < IMAGE_SLOTS
  {
    && (Holds(v, j) <==> if ok then Holds(t, j) || j == i || PackageFor(ps, j).Some?
                         else j != i && (Holds(t, j) || j in MarkedFrom(t, ps, 0)))
    && (Holds(v, j) ==>
          if ok && (IsDownloaded(t, j) || PackageFor(ps, j).Some?) then Covered(v, j) == true else LeftAs(t, ps, v, j) == true)
  }

  lemma AfterFinishForetold(t: Table, i: nat, v: Table, j: nat)
    requires Shaped(t) && Shaped(v) && i < IMAGE_SLOTS && j < IMAGE_SLOTS
    requires AfterFinish(t, i, PutInPlace(t, i), Succeeds(t, i), v, j)
    ensures Foretold(t, FinishSlot(i), v, j) == true
  {}

  lemma SuccessLeaves(t: Table, i: nat, u: Table, j: nat)
    requires Sealed(t) && i < IMAGE_SLOTS && j < IMAGE_SLOTS && FinishStep(t, i, u, 0) && Shaped(u)
    requires !IsDownloaded(t, j) && PackageFor(PutInPlace(t, i), j).None?
    ensures LeftAs(t, PutInPlace(t, i), LibraryMark(u, i, 0), j) == true
  {
    SealedOrder(t);
    SuccessfulState(t, i, u);
    SuccessForetold(t, i, PutInPlace(t, i), u, j);
  }

  lemma SuccessAfter(t: Table, i: nat, u: Table, j: nat)
    requires Sealed(t) && i < IMAGE_SLOTS && j < IMAGE_SLOTS && FinishStep(t, i, u, 0) && Shaped(u)
    ensures AfterFinish(t, i, PutInPlace(t, i), true, LibraryMark(u, i, 0), j) == true
  {
    SealedOrder(t);
    SuccessfulFinish(t, i, u, j);
    SuccessHolds(t, i, PutInPlace(t, i), u, j);
    if IsDownloaded(t, j) || PackageFor(PutInPlace(t, i), j).Some? { SuccessCovers(t, i, u, j); } else { SuccessLeaves(t, i, u, j); }
  }

  lemma FailureAfter(t: Table, i: nat, u: Table, r: int, j: nat)
    requires Sealed(t) && i < IMAGE_SLOTS && j < IMAGE_SLOTS && FinishStep(t, i, u, r) && r != 0 && Shaped(u)
    ensures AfterFinish(t, i, PutInPlace(t, i), false, LibraryMark(u, i, r), j) == true
  {
    SealedOrder(t);
    FailedFinish(t, i, u, r, j);
    FailureHolds(t, i, PutInPlace(t, i), u, r, j);
    if j != i {
      FailedState(t, i, u, r, j);
      FailureForetold(t, i, PutInPlace(t, i), LibraryMark(u, i, r), j);
    }
  }

  lemma FinishForetold(t: Table, i: nat, t': Table, j: nat)
    requires Sealed(t) && Step(t, FinishSlot(i), t') && Shaped(t') && j < IMAGE_SLOTS
    ensures Foretold(t, FinishSlot(i), t', j) == true
  {
    SealedOrder(t);
    var u: Table, r: int :| FinishEvent(t, i, u, r, t');
    FinishDecided(t, i, u, r);
    if r == 0 { SuccessAfter(t, i, u, j); } else { FailureAfter(t, i, u, r, j); }
    AfterFinishForetold(t, i, t', j);
  }

  lemma StepForetold(t: Table, e: Event, t': Table, j: nat)
    requires Sealed(t) && Step(t, e, t') && Shaped(t') && j < IMAGE_SLOTS
    ensures Foretold(t, e, t', j) == true
  {
    match e
    case FinishSlot(i) => FinishForetold(t, i, t', j);
    case ResetSlot(i) =>
      ResetCovers(t, i, j);
      ResetForetold(t, i, j);
    case DropSlot(i) => DropForetold(t, i, j);
    case InstallSlot(i) => if t.insts[i].state.Updating? { InstallForetold(t, i, j); } else { VersionForetold(t, i, j); }
    case MoveSlot(i, s) => MoveForetold(t, i, s, j);
    case _ => PlainForetold(t, e, t', j);
  }

  // ---------------------------------------------------------------- in every run

  /** The images that are not covered after a step, told from the table before it. */
  ghost function NextUncovered(t: Table, e: Event): set<nat>
    requires Shaped(t) && e.i < IMAGE_SLOTS
  {
    set j | 0 <= j < IMAGE_SLOTS && j in HeldAfter(t, e) && !Refreshed(t, e, j)
            && !CoveredWith(HeldAfter(t, e), LinksAfter(t, e, j), ListAfter(t, e, j), j, TooOldAfter(t, e))
  }

  lemma ForetoldHeld(t: Table, e: Event, t': Table)
    requires Shaped(t) && Shaped(t') && e.i < IMAGE_SLOTS && forall j :: 0 <= j < IMAGE_SLOTS ==> Foretold(t, e, t', j)
    ensures forall j :: 0 <= j < IMAGE_SLOTS ==> (j in HeldSlots(t') <==> j in HeldAfter(t, e))
  {
    forall j | 0 <= j < IMAGE_SLOTS ensures j in HeldSlots(t') <==> j in HeldAfter(t, e) { assert Foretold(t, e, t', j); }
  }

  lemma ForetoldCovered(t: Table, e: Event, t': Table, j: nat)
    requires Shaped(t) && Shaped(t') && LinksOk(t') && e.i < IMAGE_SLOTS && j < IMAGE_SLOTS && Foretold(t, e, t', j)
    requires forall k :: 0 <= k < IMAGE_SLOTS ==> (k in HeldSlots(t') <==> k in HeldAfter(t, e))
    ensures j in NextUncovered(t, e) <==> Holds(t', j) && !Covered(t', j)
  {
    assert ValidTargets(j, t'.insts[j].linked);
    forall x | x in t'.insts[j].linked ensures x < IMAGE_SLOTS {
      var k :| 0 <= k < |t'.insts[j].linked| && t'.insts[j].linked[k] == x;
    }
  }

  /** After any step the images that are not covered are exactly those foretold. */
  lemma StepCovered(t: Table, e: Event, t': Table)
    requires Sealed(t) && Step(t, e, t')
    ensures ExactlyUncovered(t', NextUncovered(t, e)) == true
  {
    StepSealed(t, e, t');
    forall j | 0 <= j < IMAGE_SLOTS ensures Foretold(t, e, t', j) { StepForetold(t, e, t', j); }
    ForetoldHeld(t, e, t');
    forall j | 0 <= j < IMAGE_SLOTS ensures UncoveredAt(t', NextUncovered(t, e), j) { ForetoldCovered(t, e, t', j); }
  }

  lemma StepSealed(t: Table, e: Event, t': Table)
    requires Sealed(t) && Step(t, e, t')
    ensures Sealed(t')
  {
    if e.FinishSlot? { FinishFate(t, e.i, t'); } else if e.DropSlot? { DropFate(t, e.i); } else { OtherFate(t, e, t'); }
  }

  /** The only ways in which an image that is covered comes to need something. */
  ghost predicate ExposedBy(t: Table, e: Event, j: nat)
    requires Shaped(t) && e.i < IMAGE_SLOTS && j < IMAGE_SLOTS
  {
    match e
    case FinishSlot(i) =>
      !Succeeds(t, i) && (PackageFor(PutInPlace(t, i), j).Some? || (Holds(t, i) && i in t.insts[j].linked))
    case ResetSlot(i) => t.insts[j].state.Updating? && Holds(t, i) && i in t.insts[j].linked
    case DropSlot(i) => j == i && i == APP && t.insts[APP].state.Updating?
    case InstallSlot(i) =>
      if t.insts[i].state.Updating? then t.insts[j].state.Updating? && (i in t.insts[j].linked || (i == TEE && j == APP))
      else i == TEE && j == APP
    case MoveSlot(i, s) => Holds(t, i) && i in t.insts[j].linked
    case _ => false
  }

  lemma NextExposed(t: Table, e: Event, j: nat)
    requires Shaped(t) && e.i < IMAGE_SLOTS && j < IMAGE_SLOTS && Holds(t, j) && Covered(t, j) && j in NextUncovered(t, e)
    ensures ExposedBy(t, e, j)
  {}

  /** A covered image that is not covered after a step has been exposed by it. */
  lemma OnlyExposed(t: Table, e: Event, t': Table, j: nat)
    requires Sealed(t) && Step(t, e, t') && j < IMAGE_SLOTS && Holds(t, j) && Covered(t, j)
    ensures Shaped(t') && (Holds(t', j) && !Covered(t', j) ==> ExposedBy(t, e, j))
  {
    StepCovered(t, e, t');
    assert UncoveredAt(t', NextUncovered(t, e), j);
    if j in NextUncovered(t, e) { NextExposed(t, e, j); }
  }

  /** The images not covered after k steps: y at the start, and then as foretold by each step. */
  ghost function Uncovered(ts: seq<Table>, es: seq<Event>, y: set<nat>, k: nat): set<nat>
    requires Run(ts, es) && k <= |es|
  {
    if k == 0 then y
    else if Shaped(ts[k - 1]) && es[k - 1].i < IMAGE_SLOTS then NextUncovered(ts[k - 1], es[k - 1]) else {}
  }

  lemma {:induction false} RunSealed(ts: seq<Table>, es: seq<Event>, k: nat)
    requires Run(ts, es) && Sealed(ts[0]) && k <= |es|
    ensures Sealed(ts[k])
  {
    if k > 0 {
      RunSealed(ts, es, k - 1);
      assert StepAt(ts, es, k - 1);
      StepSealed(ts[k - 1], es[k - 1], ts[k]);
    }
  }

  /**
   * In every run, whatever bundles arrive, in every state: an image needs something that no slot holds and that is not on
   * its conflict list if and only if the last step foretold it.
   */
  lemma RunCovered(ts: seq<Table>, es: seq<Event>, y: set<nat>, k: nat)
    requires Run(ts, es) && ExactlyUncovered(ts[0], y) && k <= |es|
    ensures ExactlyUncovered(ts[k], Uncovered(ts, es, y, k)) == true
  {
    if k > 0 {
      RunSealed(ts, es, k - 1);
      assert StepAt(ts, es, k - 1);
      StepCovered(ts[k - 1], es[k - 1], ts[k]);
    }
  }

  /** Where no slot holds an image, as after start-up, nothing is left out and everything is covered. */
  lemma EmptyStart(t: Table)
    requires Tidy(t) && LinksOk(t) && forall j :: 0 <= j < IMAGE_SLOTS ==> !Holds(t, j)
    ensures Tracks(t, {}) && ExactlyUncovered(t, {})
  {
    forall j | 0 <= j < IMAGE_SLOTS ensures TracksAt(t, {}, j) && UncoveredAt(t, {}, j) { assert !Holds(t, j); }
  }

  // ---------------------------------------------------------------- upgrades

  /** Every linked slot holds an image, and the TEE is recent enough. */
  ghost predicate Ready(t: Table, i: nat)
    requires Shaped(t) && i < IMAGE_SLOTS
  {
    (forall x :: x in t.insts[i].linked ==> x in HeldSlots(t)) && (i == APP ==> !TeeTooOld(t))
  }

  /**
   * In every state of every run, an upgrade without a list from the server that gets as far as a callback finds
   * everything it needs if and only if the upgraded image is covered, which the steps so far tell; and a linked slot that
   * holds an image is vouched for if and only if it has not been left out.
   */
  lemma UpgradeSafe(ts: seq<Table>, es: seq<Event>, x: set<nat>, y: set<nat>, k: nat,
                    i: nat, check: Callback, update: Callback, t': Table, trace: seq<Call>, r: int)
    requires Run(ts, es) && Tracks(ts[0], x) && ExactlyUncovered(ts[0], y) && k <= |es|
    requires Shaped(ts[k]) && LinksOk(ts[k]) && i < IMAGE_SLOTS && Holds(ts[k], i) && Real(ts[k].insts[i].linked)
    requires UpgradeStep(ts[k], i, None, check, update, t', trace, r) && trace != []
    ensures Ready(ts[k], i) <==> i !in Uncovered(ts, es, y, k)
    ensures forall l :: l in ts[k].insts[i].linked && l in HeldSlots(ts[k]) ==> (Vouches(ts[k], l) <==> l !in LeftOut(ts, es, x, k))
  {
    RunTracked(ts, es, x, k);
    RunCovered(ts, es, y, k);
    UpgradeNeeds(ts[k], i, LeftOut(ts, es, x, k), Uncovered(ts, es, y, k));
  }

  lemma UpgradeNeeds(t: Table, i: nat, x: set<nat>, y: set<nat>)
    requires Tracks(t, x) && ExactlyUncovered(t, y) && i < IMAGE_SLOTS && Holds(t, i) && t.insts[i].conflicting == []
    ensures Ready(t, i) <==> i !in y
    ensures forall l :: l in t.insts[i].linked && l in HeldSlots(t) ==> (Vouches(t, l) <==> l !in x)
  {
    assert UncoveredAt(t, y, i);
    forall l | l in t.insts[i].linked && l in HeldSlots(t) ensures Vouches(t, l) <==> l !in x { assert TracksAt(t, x, l); }
  }

  // ---------------------------------------------------------------- every upgrade is a run

  /** A run leads from one table to the other. */
  ghost predicate Reaches(t: Table, t': Table) {
    exists ts: seq<Table>, es: seq<Event> :: Leads(ts, es, t, t')
  }

  ghost predicate Leads(ts: seq<Table>, es: seq<Event>, t: Table, t': Table) {
    Run(ts, es) && ts[0] == t && ts[|es|] == t'
  }

  lemma ReachesSelf(t: Table)
    ensures Reaches(t, t)
  {
    assert Leads([t], [], t, t);
  }

  lemma ReachesStep(t: Table, u: Table, e: Event, v: Table)
    requires Reaches(t, u) && Step(u, e, v)
    ensures Reaches(t, v)
  {
    var ts: seq<Table>, es: seq<Event> :| Leads(ts, es, t, u);
    var ts', es' := ts + [v], es + [e];
    forall k | 0 <= k < |es'| ensures StepAt(ts', es', k) {
      if k < |es| { assert StepAt(ts, es, k); }
    }
    assert Leads(ts', es', t, v);
  }

  lemma MarkedReached(t: Table, u: Table, j: nat)
    requires Reaches(t, u) && Shaped(u) && LinksOk(u) && j < IMAGE_SLOTS
    ensures Reaches(t, u.(insts := Marked(u.insts, j)))
  {
    if IsDownloaded(u, j) {
      var v := WithState(u, j, Updating);
      SameLinks(u, v);
      ReachesStep(t, u, ExecuteSlot(j), v);
      ReachesStep(t, v, ResultSlot(j, 0), WithResult(v, j, 0));
      assert WithResult(v, j, 0).insts == Marked(u.insts, j);
    }
  }

  lemma RejectedReached(t: Table, u: Table, j: nat)
    requires Reaches(t, u) && Shaped(u) && LinksOk(u) && j < IMAGE_SLOTS
    ensures Reaches(t, u.(insts := Rejected(u.insts, j)))
  {
    if u.insts[j].state.Updating? {
      var v := WithState(u, j, Downloaded);
      SameLinks(u, v);
      ReachesStep(t, u, RevertSlot(j), v);
      ReachesStep(t, v, ResultSlot(j, RESULT_FAILED), WithResult(v, j, RESULT_FAILED));
      assert WithResult(v, j, RESULT_FAILED).insts == Rejected(u.insts, j);
    }
  }

  lemma {:induction false} ExaminedReached(t: Table, who: seq<nat>, check: Callback, k: nat)
    requires Shaped(t) && LinksOk(t) && Real(who) && k <= |who|
    ensures Reaches(t, t.(insts := Examined(t.insts, who, check, k)))
  {
    if k == 0 {
      ReachesSelf(t);
      assert t.(insts := t.insts) == t;
    } else {
      var j, u := who[k - 1], t.(insts := Examined(t.insts, who, check, k - 1));
      ExaminedReached(t, who, check, k - 1);
      ExaminedLinks(t.insts, who, check, k - 1);
      SameLinks(t, u);
      if k < |who| { MarkedReached(t, u, j); }
      var v := if k < |who| then u.(insts := Marked(u.insts, j)) else u;
      SameLinks(u, v);
      if !PassAt(who, check, k - 1) { RejectedReached(t, v, j); }
    }
  }

  lemma FinishedReached(t: Table, u: Table, j: nat, result: nat)
    requires Reaches(t, u) && Shaped(u) && LinksOk(u) && j < IMAGE_SLOTS
    ensures Reaches(t, Finished(u, j, result))
  {
    if u.insts[j].state.Updating? {
      ResetLinks(u, j);
      var v := WithState(ResetStep(u, j), j, Idle);
      ReachesStep(t, u, ResetSlot(j), v);
      ReachesStep(t, v, ResultSlot(j, result), WithResult(v, j, result));
    }
  }

  lemma InstalledReached(t: Table, u: Table, j: nat)
    requires Reaches(t, u) && Shaped(u) && LinksOk(u) && j < IMAGE_SLOTS && j != APP
    ensures LinksOk(Installed(u, j)) && Reaches(t, Finished(Installed(u, j), j, RESULT_SUCCESS))
  {
    var w := Installed(u, j);
    InstalledLinks(u, j);
    if u.insts[j].state.Updating? {
      ResetLinks(w, j);
      var v := WithState(ResetStep(w, j), j, Idle);
      ReachesStep(t, u, InstallSlot(j), v);
      ReachesStep(t, v, ResultSlot(j, RESULT_SUCCESS), WithResult(v, j, RESULT_SUCCESS));
    } else {
      ReachesStep(t, u, InstallSlot(j), w);
    }
  }

  lemma UpdatedOneReached(t: Table, u: Table, j: nat)
    requires Reaches(t, u) && Shaped(u) && LinksOk(u) && j < IMAGE_SLOTS
    ensures Reaches(t, UpdatedOne(u, j))
  {
    if j != APP {
      InstalledReached(t, u, j);
    } else {
      FinishedReached(t, u, APP, RESULT_SUCCESS);
      FinishedReached(t, u, APP, RESULT_FAILED);
    }
  }

  lemma {:induction false} UpdatedReached(t: Table, u: Table, ids: seq<nat>)
    requires Reaches(t, u) && Shaped(u) && LinksOk(u) && Real(ids)
    ensures Reaches(t, Updated(u, ids))
    decreases |ids|
  {
    if ids != [] {
      UpdatedReached(t, u, ids[..|ids| - 1]);
      UpdatedOneReached(t, Updated(u, ids[..|ids| - 1]), ids[|ids| - 1]);
    }
  }

  /** Whatever the callbacks return, an upgrade leads from the table before it to the table after it by steps of a run. */
  lemma UpgradeIsRun(t: Table, i: nat, requested: Option<seq<nat>>, check: Callback, update: Callback,
                     t': Table, trace: seq<Call>, r: int)
    requires Shaped(t) && LinksOk(t) && i < IMAGE_SLOTS && Real(Companions(t, i, requested))
    requires UpgradeStep(t, i, requested, check, update, t', trace, r)
    ensures Reaches(t, t')
  {
    if t.insts[i].conflicting != [] {
      ReachesSelf(t);
    } else {
      var who := Companions(t, i, requested) + [i];
      ExaminedReached(t, who, check, |who|);
      UpdatedReached(t, AfterChecks(t, who, check), Done(who, trace, r));
    }
  }

  // ---------------------------------------------------------------- an upgrade of an image that is not covered

  lemma AllAccepted(who: seq<nat>)
    requires who != []
    ensures AllPass(who, ACCEPTING) && Performed(who, ACCEPTING, ACCEPTING, Checks(who) + Updates(who), 0) == true
  {
    var trace := Checks(who) + Updates(who);
    assert who[..|who|] == who;
    assert Stopped(Checks(who), who, ACCEPTING, trace, 0);
    Carried(who, ACCEPTING, ACCEPTING, trace, 0);
  }

  /** An upgrade with an empty conflict list updates whatever state the linked slot is in. */
  lemma AcceptedUpgrade(w: Table, i: nat, j: nat) returns (z: Table)
    requires Shaped(w) && LinksOk(w) && i < IMAGE_SLOTS && j < IMAGE_SLOTS && w.insts[i].linked == [j] && w.insts[i].conflicting == []
    ensures Real([j]) && UpgradeStep(w, i, None, ACCEPTING, ACCEPTING, z, [Check(j), Check(i), Update(j), Update(i)], 0)
  {
    var who := [j] + [i];
    AllAccepted(who);
    var trace := [Check(j), Check(i), Update(j), Update(i)];
    assert Checks(who) + Updates(who) == trace;
    z := Updated(AfterChecks(w, who, ACCEPTING), Done(who, trace, 0));
  }

  lemma TwoSteps(t: Table, u: Table, v: Table, a: Event, b: Event)
    requires Step(t, a, u) && Step(u, b, v)
    ensures Run([t, u, v], [a, b])
  {
    var ts, es := [t, u, v], [a, b];
    forall k | 0 <= k < |es| ensures StepAt(ts, es, k) { assert k == 0 || k == 1; }
  }

  lemma HalfWayStart(t: Table)
    requires HalfWay(t)
    ensures Tracks(t, {}) && ExactlyUncovered(t, {})
  {
    forall j | 0 <= j < IMAGE_SLOTS ensures !Holds(t, j) { assert t.insts[j] == QUIET; }
    EmptyStart(t);
  }

  lemma HalfWaySteps(t: Table) returns (v: Table, w: Table, z: Table)
    requires HalfWay(t)
    ensures Step(t, FinishSlot(BOOT), v) && Step(v, ExecuteSlot(TEE), w)
    ensures Shaped(w) && LinksOk(w) && w.insts[TEE].linked == [MODEM] && w.insts[MODEM].state.Idle? && Real([MODEM])
    ensures UpgradeStep(w, TEE, None, ACCEPTING, ACCEPTING, z, [Check(MODEM), Check(TEE), Update(MODEM), Update(TEE)], 0)
  {
    var u, r := HalfFrom(t);
    v := LibraryMark(u, BOOT, r);
    FailedFinishInOrder(t, BOOT, u, r);
    FinishIsStep(t, BOOT, u, r);
    w, z := ExecuteThenUpgrade(v);
  }

  lemma ExecuteThenUpgrade(v: Table) returns (w: Table, z: Table)
    requires Shaped(v) && LinksOk(v) && IsDownloaded(v, TEE) && v.insts[TEE].linked == [MODEM] && v.insts[TEE].conflicting == []
    requires v.insts[MODEM].state.Idle?
    ensures Step(v, ExecuteSlot(TEE), w) && Shaped(w) && LinksOk(w)
    ensures w.insts[TEE].linked == [MODEM] && w.insts[MODEM].state.Idle? && Real([MODEM])
    ensures UpgradeStep(w, TEE, None, ACCEPTING, ACCEPTING, z, [Check(MODEM), Check(TEE), Update(MODEM), Update(TEE)], 0)
  {
    w := WithState(v, TEE, Updating);
    SameLinks(v, w);
    z := AcceptedUpgrade(w, TEE, MODEM);
  }

  /** After the finish that fails half-way, an upgrade updates the TEE although no modem image is there. */
  lemma UpgradeWithoutModem() returns (ts: seq<Table>, es: seq<Event>, z: Table)
    ensures Run(ts, es) && es == [FinishSlot(BOOT), ExecuteSlot(TEE)] && Tracks(ts[0], {}) && ExactlyUncovered(ts[0], {})
    ensures Shaped(ts[2]) && LinksOk(ts[2]) && ts[2].insts[TEE].linked == [MODEM] && ts[2].insts[MODEM].state.Idle? && Real([MODEM])
    ensures UpgradeStep(ts[2], TEE, None, ACCEPTING, ACCEPTING, z, [Check(MODEM), Check(TEE), Update(MODEM), Update(TEE)], 0)
  {
    HalfWayHolds();
    HalfWayStart(HALF_WAY);
    var v, w;
    v, w, z := HalfWaySteps(HALF_WAY);
    TwoSteps(HALF_WAY, v, w, FinishSlot(BOOT), ExecuteSlot(TEE));
    ts, es := [HALF_WAY, v, w], [FinishSlot(BOOT), ExecuteSlot(TEE)];
  }
}
