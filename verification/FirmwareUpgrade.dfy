/** fw_update_common_perform_upgrade: which callbacks run, in which order, when, and what becomes of the slots. */
module FirmwareUpgrade {
  import opened ErrorCodes
  import opened Options
  import opened Bytes
  import opened FirmwareFormat
  import opened FirmwareSlots
  import opened Conflicts
  import opened FirmwareProtocol
  import opened BundleDelivery
  import opened FirmwareUpdate

  /** The callbacks check_yourself and update_yourself of a slot. */
  datatype Call = Check(id: nat) | Update(id: nat)

  /** What a callback returns may depend on all calls made before it. */
  type Callback = (seq<Call>, nat) -> int

  // ---------------------------------------------------------------- what an upgrade does

  /** The slots an upgrade takes along: those the server asked for, or else the linked ones. */
  function Companions(t: Table, i: nat, requested: Option<seq<nat>>): seq<nat>
    requires |t.insts| == IMAGE_SLOTS && i < IMAGE_SLOTS
  {
    match requested case Some(ids) => ids case None => t.insts[i].linked
  }

  predicate Real(ids: seq<nat>) { forall k :: 0 <= k < |ids| ==> ids[k] < IMAGE_SLOTS }

  function Checks(who: seq<nat>): seq<Call> { seq(|who|, k requires 0 <= k < |who| => Check(who[k])) }

  function Updates(who: seq<nat>): seq<Call> { seq(|who|, k requires 0 <= k < |who| => Update(who[k])) }

  ghost predicate PassAt(who: seq<nat>, check: Callback, k: nat)
    requires k < |who|
  {
    check(Checks(who)[..k], who[k]) == 0
  }

  ghost predicate PassBelow(who: seq<nat>, check: Callback, n: nat)
    requires n <= |who|
  {
    forall k :: 0 <= k < n ==> PassAt(who, check, k)
  }

  /** Every check passes, each called after the ones before it. */
  ghost predicate AllPass(who: seq<nat>, check: Callback) { PassBelow(who, check, |who|) }

  /** All checks; then, only if all of them pass, updates up to the first that fails. */
  ghost predicate Performed(who: seq<nat>, check: Callback, update: Callback, trace: seq<Call>, result: int) {
    var n := |who|;
    && n <= |trace| <= 2 * n && trace[..n] == Checks(who) && trace[n..] == Updates(who[..|trace| - n])
    && (!AllPass(who, check) ==> |trace| == n && result == ERR_GENERIC)
    && (AllPass(who, check) ==>
          && |trace| > n && (|trace| < 2 * n ==> result != 0)
          && (forall k :: n <= k < |trace| ==> (if k < |trace| - 1 then 0 else result) == update(trace[..k], who[k - n])))
  }

  // ---------------------------------------------------------------- what it does to the slots

  const RESULT_SUCCESS: nat := 1
  const RESULT_FAILED: nat := 8

  const FORCE_SET_SUCCESS: nat := 5
  const FORCE_SET_FAILURE: nat := 6

  /** A companion moves from DOWNLOADED to UPDATING before its check. */
  function Marked(insts: seq<Instance>, j: nat): (r: seq<Instance>)
    requires |insts| == IMAGE_SLOTS && j < IMAGE_SLOTS
    ensures |r| == IMAGE_SLOTS
  {
    if insts[j].state.Downloaded? then insts[j := insts[j].(state := Updating, result := 0)] else insts
  }

  /** A check that fails puts its slot back to DOWNLOADED, which the library allows only from UPDATING. */
  function Rejected(insts: seq<Instance>, j: nat): (r: seq<Instance>)
    requires |insts| == IMAGE_SLOTS && j < IMAGE_SLOTS
    ensures |r| == IMAGE_SLOTS
  {
    if insts[j].state.Updating? then insts[j := insts[j].(state := Downloaded, result := RESULT_FAILED)] else insts
  }

  /** The first k slots have been checked; the last of all is the upgraded slot, which is not marked. */
  ghost function Examined(insts: seq<Instance>, who: seq<nat>, check: Callback, k: nat): (r: seq<Instance>)
    requires |insts| == IMAGE_SLOTS && Real(who) && k <= |who|
    ensures |r| == IMAGE_SLOTS
  {
    if k == 0 then insts
    else
      var before := Examined(insts, who, check, k - 1);
      var marked := if k < |who| then Marked(before, who[k - 1]) else before;
      if PassAt(who, check, k - 1) then marked else Rejected(marked, who[k - 1])
  }

  /** The new version is copied over the old one. */
  function Installed(t: Table, i: nat): (u: Table)
    requires |t.slots| == IMAGE_SLOTS && i < IMAGE_SLOTS
    ensures |u.slots| == IMAGE_SLOTS && u.insts == t.insts
  {
    var s := t.slots[i];
    var n := |s.meta.pkgVer|;
    t.(slots := t.slots[i := s.(currentVer := s.meta.pkgVer + if n <= |s.currentVer| then s.currentVer[n..] else [])])
  }

  function WithResult(t: Table, i: nat, result: nat): Table
    requires |t.insts| == IMAGE_SLOTS && i < IMAGE_SLOTS
  {
    t.(insts := t.insts[i := t.insts[i].(result := result)])
  }

  /** The slot is reset and goes back to IDLE with this result, which the library allows only from UPDATING. */
  ghost function Finished(t: Table, i: nat, result: nat): (u: Table)
    requires Shaped(t) && LinksOk(t) && i < IMAGE_SLOTS
    ensures Shaped(u) && LinksOk(u)
  {
    ResetLinks(t, i);
    if t.insts[i].state.Updating? then WithResult(WithState(ResetStep(t, i), i, Idle), i, result) else t
  }

  lemma ResetLinks(t: Table, i: nat)
    requires Shaped(t) && LinksOk(t) && i < IMAGE_SLOTS
    ensures Shaped(ResetStep(t, i)) && LinksOk(ResetStep(t, i))
    ensures LinksOk(WithState(ResetStep(t, i), i, Idle))
  {
    var u := Cleared(t, i);
    forall j | 0 <= j < IMAGE_SLOTS ensures ValidTargets(j, u.insts[j].linked) { assert ValidTargets(j, t.insts[j].linked); }
    RecomputedKeeps(u, Some(i));
    var r := ResetStep(t, i);
    forall j | 0 <= j < IMAGE_SLOTS ensures ValidTargets(j, WithState(r, i, Idle).insts[j].linked) {
      assert ValidTargets(j, r.insts[j].linked);
    }
  }

  lemma InstalledLinks(t: Table, i: nat)
    requires Shaped(t) && LinksOk(t) && i < IMAGE_SLOTS
    ensures LinksOk(Installed(t, i))
  {
    forall j | 0 <= j < IMAGE_SLOTS ensures ValidTargets(j, Installed(t, i).insts[j].linked) { assert ValidTargets(j, t.insts[j].linked); }
  }

  /**
   * What update_yourself does to its slot when it succeeds: an additional image is installed at once; the application
   * is installed by a restart, unless its image asks for the result to be set now.
   */
  ghost function UpdatedOne(t: Table, j: nat): (u: Table)
    requires Shaped(t) && LinksOk(t) && j < IMAGE_SLOTS
    ensures Shaped(u) && LinksOk(u)
  {
    InstalledLinks(t, j);
    if j != APP then Finished(Installed(t, j), j, RESULT_SUCCESS)
    else if t.slots[APP].meta.forceError == FORCE_SET_SUCCESS then Finished(t, APP, RESULT_SUCCESS)
    else if t.slots[APP].meta.forceError == FORCE_SET_FAILURE then Finished(t, APP, RESULT_FAILED)
    else t
  }

  /** These slots have been updated, in this order. */
  ghost function Updated(t: Table, ids: seq<nat>): (u: Table)
    requires Shaped(t) && LinksOk(t) && Real(ids)
    ensures Shaped(u) && LinksOk(u)
  {
    if ids == [] then t else UpdatedOne(Updated(t, ids[..|ids| - 1]), ids[|ids| - 1])
  }

  /** The slots whose update succeeded. */
  function Done(who: seq<nat>, trace: seq<Call>, result: int): (r: seq<nat>)
    ensures r <= who
  {
    var n := |trace| - |who| - if result != 0 then 1 else 0;
    if 0 <= n <= |who| then who[..n] else []
  }

  ghost function AfterChecks(t: Table, who: seq<nat>, check: Callback): (u: Table)
    requires Shaped(t) && LinksOk(t) && Real(who)
    ensures Shaped(u) && LinksOk(u)
  {
    ExaminedLinks(t.insts, who, check, |who|);
    var u := t.(insts := Examined(t.insts, who, check, |who|));
    SameLinks(t, u);
    u
  }

  lemma {:induction false} ExaminedLinks(insts: seq<Instance>, who: seq<nat>, check: Callback, k: nat)
    requires |insts| == IMAGE_SLOTS && Real(who) && k <= |who|
    ensures forall j :: 0 <= j < IMAGE_SLOTS ==>
              && Examined(insts, who, check, k)[j].linked == insts[j].linked
              && Examined(insts, who, check, k)[j].conflicting == insts[j].conflicting
  {
    if k > 0 { ExaminedLinks(insts, who, check, k - 1); }
  }

  lemma SameLinks(t: Table, u: Table)
    requires Shaped(t) && LinksOk(t) && Shaped(u) && forall j :: 0 <= j < IMAGE_SLOTS ==> u.insts[j].linked == t.insts[j].linked
    ensures LinksOk(u)
  {
    forall j | 0 <= j < IMAGE_SLOTS ensures ValidTargets(j, u.insts[j].linked) { assert ValidTargets(j, t.insts[j].linked); }
  }

  ghost predicate UpgradeStep(t: Table, i: nat, requested: Option<seq<nat>>, check: Callback, update: Callback,
                              t': Table, trace: seq<Call>, result: int)
    requires Shaped(t) && LinksOk(t) && i < IMAGE_SLOTS && Real(Companions(t, i, requested))
  {
    if t.insts[i].conflicting != [] then t' == t && trace == [] && result == ERR_DEPENDENCY_ERROR
    else
      var who := Companions(t, i, requested) + [i];
      && Performed(who, check, update, trace, result)
      && t' == Updated(AfterChecks(t, who, check), Done(who, trace, result))
  }

  // ---------------------------------------------------------------- the code

  lemma ChecksNext(who: seq<nat>, k: nat)
    requires k < |who|
    ensures Checks(who)[..k] + [Check(who[k])] == Checks(who)[..k + 1]
  {}

  /** One check_yourself: a failure puts the slot back to DOWNLOADED. */
  method CheckOne(fw: FirmwareTable, id: nat, check: Callback, trace: seq<Call>) returns (passed: bool)
    requires |fw.insts| == IMAGE_SLOTS && id < IMAGE_SLOTS
    modifies fw`insts
    ensures passed <==> check(trace, id) == 0
    ensures fw.insts == if passed then old(fw.insts) else Rejected(old(fw.insts), id)
  {
    passed := check(trace, id) == 0;
    if !passed && fw.insts[id].state.Updating? {
      fw.insts := fw.insts[id := fw.insts[id].(state := Downloaded, result := RESULT_FAILED)];
    }
  }

  /** Marks and checks the companions; the first loop. */
  method CheckCompanions(fw: FirmwareTable, ids: seq<nat>, ghost who: seq<nat>, check: Callback)
    returns (trace: seq<Call>, failed: bool)
    requires |fw.insts| == IMAGE_SLOTS && Real(who) && ids < who
    modifies fw`insts
    ensures fw.insts == Examined(old(fw.insts), who, check, |ids|) && trace == Checks(who)[..|ids|]
    ensures failed <==> !PassBelow(who, check, |ids|)
  {
    trace, failed := [], false;
    for k := 0 to |ids|
      invariant |fw.insts| == IMAGE_SLOTS && fw.insts == Examined(old(fw.insts), who, check, k) && trace == Checks(who)[..k]
      invariant failed <==> !PassBelow(who, check, k)
    {
      ChecksNext(who, k);
      PassNext(who, check, k);
      var id := ids[k];
      assert id == who[k];
      if fw.insts[id].state.Downloaded? {
        fw.insts := fw.insts[id := fw.insts[id].(state := Updating, result := 0)];
      }
      var passed := CheckOne(fw, id, check, trace);
      failed := failed || !passed;
      trace := trace + [Check(id)];
    }
  }

  lemma PassNext(who: seq<nat>, check: Callback, k: nat)
    requires k < |who|
    ensures PassBelow(who, check, k + 1) <==> PassBelow(who, check, k) && PassAt(who, check, k)
  {}

  /** All checks: the companions, then the slot itself. */
  method CheckAll(fw: FirmwareTable, ids: seq<nat>, iid: nat, check: Callback) returns (trace: seq<Call>, failed: bool)
    requires |fw.insts| == IMAGE_SLOTS && Real(ids) && iid < IMAGE_SLOTS
    modifies fw`insts
    ensures fw.insts == Examined(old(fw.insts), ids + [iid], check, |ids| + 1) && trace == Checks(ids + [iid])
    ensures failed <==> !AllPass(ids + [iid], check)
  {
    ghost var who := ids + [iid];
    trace, failed := CheckCompanions(fw, ids, who, check);
    ChecksNext(who, |ids|);
    PassNext(who, check, |ids|);
    var passed := CheckOne(fw, iid, check, trace);
    failed := failed || !passed;
    trace := trace + [Check(iid)];
    assert Checks(who)[..|who|] == Checks(who);
  }

  lemma UpdatesNext(checks: seq<Call>, who: seq<nat>, k: nat)
    requires k < |who|
    ensures checks + Updates(who[..k]) + [Update(who[k])] == checks + Updates(who[..k + 1])
    ensures (checks + Updates(who))[..|checks| + k] == checks + Updates(who[..k])
  {
    assert Updates(who[..k]) + [Update(who[k])] == Updates(who[..k + 1]);
  }

  lemma InstalledTidy(t: Table, i: nat)
    requires Tidy(t) && LinksOk(t) && i < IMAGE_SLOTS
    ensures Tidy(Installed(t, i)) && LinksOk(Installed(t, i))
  {
    var u := Installed(t, i);
    NamesStayApart(t, u, i);
    forall j | 0 <= j < IMAGE_SLOTS && u.slots[j].stream.Attached? ensures HasFile(u, j) { assert HasFile(t, j); }
    InstalledLinks(t, i);
  }

  /** anjay_advanced_fw_update_set_state_and_result with IDLE, which resets the slot first, if the change is allowed. */
  method SetIdle(fw: FirmwareTable, id: nat, result: nat)
    requires fw.Valid() && id < IMAGE_SLOTS
    modifies fw`files, fw`slots, fw`insts
    ensures fw.Valid() && fw.View() == Finished(old(fw.View()), id, result)
  {
    if fw.insts[id].state.Updating? {
      fw.Reset(id);
      ghost var t := fw.View();
      fw.insts := fw.insts[id := fw.insts[id].(state := Idle, result := result)];
      SameLinks(t, fw.View());
      TidyIgnoresRecords(t, fw.View());
    }
  }

  /** What a successful update_yourself does to its slot. */
  method FinishUpdate(fw: FirmwareTable, id: nat)
    requires fw.Valid() && id < IMAGE_SLOTS
    modifies fw`files, fw`slots, fw`insts
    ensures fw.Valid() && fw.View() == UpdatedOne(old(fw.View()), id)
  {
    var s := fw.slots[id];
    if id != APP {
      InstalledTidy(fw.View(), id);
      var n := |s.meta.pkgVer|;
      fw.slots := fw.slots[id := s.(currentVer := s.meta.pkgVer + if n <= |s.currentVer| then s.currentVer[n..] else [])];
      SetIdle(fw, id, RESULT_SUCCESS);
    } else if s.meta.forceError == FORCE_SET_SUCCESS {
      SetIdle(fw, id, RESULT_SUCCESS);
    } else if s.meta.forceError == FORCE_SET_FAILURE {
      SetIdle(fw, id, RESULT_FAILED);
    }
  }

  lemma UpdatedNext(t: Table, who: seq<nat>, k: nat)
    requires Shaped(t) && LinksOk(t) && Real(who) && k < |who|
    ensures Updated(t, who[..k + 1]) == UpdatedOne(Updated(t, who[..k]), who[k])
  {
    assert who[..k + 1][..k] == who[..k];
  }

  /** The first k updates have been called, and all of them succeeded. */
  ghost predicate GoingWell(checks: seq<Call>, who: seq<nat>, update: Callback, k: nat, trace: seq<Call>)
    requires k <= |who|
  {
    && trace == checks + Updates(who[..k])
    && forall j :: |checks| <= j < |trace| ==> update(trace[..j], who[j - |checks|]) == 0
  }

  /** Updates have been called up to the first failure. */
  ghost predicate Stopped(checks: seq<Call>, who: seq<nat>, update: Callback, trace: seq<Call>, result: int) {
    && |checks| < |trace| <= |checks| + |who| && trace == checks + Updates(who[..|trace| - |checks|])
    && (|trace| < |checks| + |who| ==> result != 0)
    && (forall k :: |checks| <= k < |trace| ==> (if k < |trace| - 1 then 0 else result) == update(trace[..k], who[k - |checks|]))
  }

  lemma GoingNext(checks: seq<Call>, who: seq<nat>, update: Callback, k: nat, trace: seq<Call>)
    requires k < |who| && GoingWell(checks, who, update, k, trace)
    ensures update(trace, who[k]) == 0 ==> GoingWell(checks, who, update, k + 1, trace + [Update(who[k])]) == true
    ensures update(trace, who[k]) != 0 || k + 1 == |who| ==>
              Stopped(checks, who, update, trace + [Update(who[k])], update(trace, who[k])) == true
    ensures |trace| == |checks| + k
  {
    UpdatesNext(checks, who, k);
    var after := trace + [Update(who[k])];
    assert forall j :: 0 <= j <= |trace| ==> after[..j] == trace[..j];
    assert trace[..|trace|] == trace;
  }

  lemma GoingStarts(checks: seq<Call>, who: seq<nat>, update: Callback)
    ensures GoingWell(checks, who, update, 0, checks) == true
  {
    assert Updates(who[..0]) == [];
  }

  /** Where the updates stand before the one at position k. */
  ghost predicate Underway(t: Table, v: Table, checks: seq<Call>, who: seq<nat>, update: Callback, k: nat, trace: seq<Call>)
    requires Shaped(t) && LinksOk(t) && Real(who) && k <= |who|
  {
    && v == Updated(t, who[..k]) && GoingWell(checks, who, update, k, trace) && |trace| == |checks| + k
    && (0 < k == |who| ==> Stopped(checks, who, update, trace, 0))
  }

  /** All updates have been called, or the last one called has failed. */
  ghost predicate Over(t: Table, v: Table, checks: seq<Call>, who: seq<nat>, update: Callback, trace: seq<Call>, result: int)
    requires Shaped(t) && LinksOk(t) && Real(who)
  {
    v == Updated(t, Done(who, trace, result)) && Stopped(checks, who, update, trace, result)
  }

  /** One update_yourself and what it does to its slot. */
  method UpdateNext(fw: FirmwareTable, id: nat, update: Callback, before: seq<Call>,
                    ghost t: Table, ghost checks: seq<Call>, ghost who: seq<nat>, ghost k: nat)
    returns (trace: seq<Call>, result: int)
    requires fw.Valid() && Shaped(t) && LinksOk(t) && Real(who) && k < |who| && id == who[k] && |checks| == |who|
    requires Underway(t, fw.View(), checks, who, update, k, before) == true
    modifies fw`files, fw`slots, fw`insts
    ensures fw.Valid()
    ensures result == 0 ==> Underway(t, fw.View(), checks, who, update, k + 1, trace) == true
    ensures result != 0 ==> Over(t, fw.View(), checks, who, update, trace, result) == true
  {
    GoingNext(checks, who, update, k, before);
    UpdatedNext(t, who, k);
    result := update(before, id);
    trace := before + [Update(id)];
    if result == 0 {
      FinishUpdate(fw, id);
    }
  }

  lemma AllOver(t: Table, v: Table, checks: seq<Call>, who: seq<nat>, update: Callback, trace: seq<Call>)
    requires Shaped(t) && LinksOk(t) && Real(who) && who != [] && |checks| == |who|
    requires Underway(t, v, checks, who, update, |who|, trace)
    ensures Over(t, v, checks, who, update, trace, 0) == true
  {}

  /** The updates, up to the first failure. */
  method RunUpdates(fw: FirmwareTable, who: seq<nat>, update: Callback, checks: seq<Call>) returns (trace: seq<Call>, result: int)
    requires fw.Valid() && who != [] && Real(who) && |checks| == |who|
    modifies fw`files, fw`slots, fw`insts
    ensures fw.Valid() && Over(old(fw.View()), fw.View(), checks, who, update, trace, result) == true
  {
    trace, result := checks, 0;
    GoingStarts(checks, who, update);
    ghost var t := fw.View();
    for k := 0 to |who|
      invariant fw.Valid() && result == 0 && Underway(t, fw.View(), checks, who, update, k, trace) == true
    {
      trace, result := UpdateNext(fw, who[k], update, trace, t, checks, who, k);
      if result != 0 {
        return;
      }
    }
    AllOver(t, fw.View(), checks, who, update, trace);
  }

  lemma Refused(who: seq<nat>, check: Callback, update: Callback)
    requires !AllPass(who, check)
    ensures Performed(who, check, update, Checks(who), ERR_GENERIC) == true
  {
    assert Updates(who[..0]) == [];
  }

  lemma Carried(who: seq<nat>, check: Callback, update: Callback, trace: seq<Call>, result: int)
    requires AllPass(who, check) && Stopped(Checks(who), who, update, trace, result)
    ensures Performed(who, check, update, trace, result) == true
  {}

  method PerformUpgrade(fw: FirmwareTable, iid: nat, requested: Option<seq<nat>>, check: Callback, update: Callback)
    returns (result: int, trace: seq<Call>)
    requires fw.Valid() && iid < IMAGE_SLOTS && Real(Companions(fw.View(), iid, requested))
    modifies fw`files, fw`slots, fw`insts
    ensures fw.Valid() && UpgradeStep(old(fw.View()), iid, requested, check, update, fw.View(), trace, result)
  {
    if fw.insts[iid].conflicting != [] {
      return ERR_DEPENDENCY_ERROR, [];
    }
    var ids := if requested.Some? then requested.value else fw.insts[iid].linked;
    var who := ids + [iid];
    ghost var t := fw.View();
    var failed;
    trace, failed := CheckAll(fw, ids, iid, check);
    assert fw.View() == AfterChecks(t, who, check);
    TidyIgnoresRecords(t, fw.View());
    if failed {
      Refused(who, check, update);
      return ERR_GENERIC, trace;
    }
    trace, result := RunUpdates(fw, who, update, trace);
    Carried(who, check, update, trace, result);
  }

  // ---------------------------------------------------------------- what follows

  /** In every upgrade, all checks precede all updates. */
  lemma ChecksFirst(who: seq<nat>, check: Callback, update: Callback, trace: seq<Call>, result: int)
    requires Performed(who, check, update, trace, result)
    ensures forall j, k :: 0 <= j < |trace| && 0 <= k < |trace| && trace[j].Check? && trace[k].Update? ==> j < k
  {
    forall j | 0 <= j < |trace| ensures trace[j].Check? <==> j < |who| {
      KindOfCall(who, check, update, trace, result, j);
    }
  }

  lemma KindOfCall(who: seq<nat>, check: Callback, update: Callback, trace: seq<Call>, result: int, j: nat)
    requires Performed(who, check, update, trace, result) && j < |trace|
    ensures trace[j].Check? <==> j < |who|
  {
    var n := |who|;
    if j < n { assert trace[j] == trace[..n][j]; } else { assert trace[j] == trace[n..][j - n]; }
  }

  /** An update runs if and only if every check passes, the slot's own included. */
  lemma UpdateNeedsAllChecks(who: seq<nat>, check: Callback, update: Callback, trace: seq<Call>, result: int)
    requires Performed(who, check, update, trace, result)
    ensures (exists k :: 0 <= k < |trace| && trace[k].Update?) <==> AllPass(who, check)
  {
    var n := |who|;
    if AllPass(who, check) {
      assert trace[n] == trace[n..][0];
    } else {
      assert trace == trace[..n];
    }
  }

  /** The upgrade succeeds if and only if everything was checked and updated without a failure. */
  lemma SuccessMeansAll(who: seq<nat>, check: Callback, update: Callback, trace: seq<Call>, result: int)
    requires who != [] && Performed(who, check, update, trace, result) && result == 0
    ensures AllPass(who, check) && trace == Checks(who) + Updates(who)
  {
    assert |trace| == 2 * |who| && who[..|who|] == who && trace == trace[..|who|] + trace[|who|..];
  }

  /**
   * An upgrade is refused if and only if conflicts are recorded, and then nothing happens. Otherwise the checks are those of
   * the slots the server asked for, or else of the linked ones, in their order, and last the slot's own.
   */
  lemma CalledInOrder(t: Table, i: nat, requested: Option<seq<nat>>, check: Callback, update: Callback,
                      t': Table, trace: seq<Call>, result: int)
    requires Shaped(t) && LinksOk(t) && i < IMAGE_SLOTS && Real(Companions(t, i, requested))
    requires UpgradeStep(t, i, requested, check, update, t', trace, result)
    ensures trace == [] <==> t.insts[i].conflicting != []
    ensures t.insts[i].conflicting != [] ==> t' == t && result == ERR_DEPENDENCY_ERROR
    ensures t.insts[i].conflicting == [] ==>
              var ids := if requested.Some? then requested.value else t.insts[i].linked;
              var n := |ids|;
              && |trace| > n && trace[n] == Check(i) && (forall k :: 0 <= k < n ==> trace[k] == Check(ids[k]))
              && (forall k :: n < k < |trace| ==> k <= 2 * n + 1 && trace[k] == Update(if k <= 2 * n then ids[k - n - 1] else i))
  {
    if t.insts[i].conflicting == [] {
      var ids := Companions(t, i, requested);
      TraceShape(ids + [i], check, update, trace, result);
    }
  }

  lemma TraceShape(who: seq<nat>, check: Callback, update: Callback, trace: seq<Call>, result: int)
    requires Performed(who, check, update, trace, result)
    ensures |who| <= |trace| <= 2 * |who| && forall k :: 0 <= k < |who| ==> trace[k] == Check(who[k])
    ensures forall k :: |who| <= k < |trace| ==> trace[k] == Update(who[k - |who|])
  {
    var n := |who|;
    forall k | 0 <= k < n ensures trace[k] == Check(who[k]) { assert trace[k] == trace[..n][k]; }
    forall k | n <= k < |trace| ensures trace[k] == Update(who[k - n]) { assert trace[k] == trace[n..][k - n]; }
  }

  /**
   * With exact conflict sets and no list from the server: an update is reached only if every linked
   * slot is DOWNLOADED, holding the file its metadata vouches for, and the TEE is recent enough.
   */
  lemma UpdateNeedsDownloads(t: Table, i: nat, check: Callback, update: Callback, t': Table, trace: seq<Call>, result: int)
    requires Inv(t) && i < IMAGE_SLOTS && ExactAt(t, i) && Real(t.insts[i].linked)
    requires UpgradeStep(t, i, None, check, update, t', trace, result) && trace != []
    ensures forall k :: 0 <= k < |t.insts[i].linked| ==> IsDownloaded(t, t.insts[i].linked[k]) && Vouches(t, t.insts[i].linked[k])
    ensures i == APP ==> !TeeTooOld(t)
  {
    var linked, missing := t.insts[i].linked, Missing(t, i, None);
    assert missing == {};
    forall k | 0 <= k < |linked| ensures IsDownloaded(t, linked[k]) && Vouches(t, linked[k]) {
      assert linked[k] !in missing;
      assert SoundAt(t, linked[k], {});
    }
    assert TEE !in missing;
  }

  // ---------------------------------------------------------------- when a check fails

  ghost predicate Distinct(ids: seq<nat>) { forall j, k :: 0 <= j < k < |ids| ==> ids[j] != ids[k] }

  /**
   * The record of a slot once it has been marked, if it is a companion, and checked: a companion whose check passes goes
   * from DOWNLOADED to UPDATING with no result yet; a slot that is UPDATING when its check fails, marked or not, goes
   * back to DOWNLOADED with a failure.
   */
  function Checked(r: Instance, companion: bool, passes: bool): Instance {
    if r.state.Downloaded? then
      if !companion then r
      else if passes then r.(state := Updating, result := 0) else r.(result := RESULT_FAILED)
    else if r.state.Updating? && !passes then r.(state := Downloaded, result := RESULT_FAILED)
    else r
  }

  lemma ExaminedOther(insts: seq<Instance>, who: seq<nat>, check: Callback, k: nat, j: nat)
    requires |insts| == IMAGE_SLOTS && Real(who) && 0 < k <= |who| && j < IMAGE_SLOTS && j != who[k - 1]
    ensures Examined(insts, who, check, k)[j] == Examined(insts, who, check, k - 1)[j]
  {}

  lemma {:induction false} ExaminedElsewhere(insts: seq<Instance>, who: seq<nat>, check: Callback, k: nat, j: nat)
    requires |insts| == IMAGE_SLOTS && Real(who) && k <= |who| && j < IMAGE_SLOTS && forall m :: 0 <= m < k ==> who[m] != j
    ensures Examined(insts, who, check, k)[j] == insts[j]
  {
    if k > 0 {
      ExaminedElsewhere(insts, who, check, k - 1, j);
      ExaminedOther(insts, who, check, k, j);
    }
  }

  lemma ExaminedNow(insts: seq<Instance>, who: seq<nat>, check: Callback, n: nat)
    requires |insts| == IMAGE_SLOTS && Real(who) && n < |who| && Examined(insts, who, check, n)[who[n]] == insts[who[n]]
    ensures Examined(insts, who, check, n + 1)[who[n]]
         == Checked(insts[who[n]], n < |who| - 1, PassAt(who, check, n))
  {}

  lemma {:induction false} ExaminedHere(insts: seq<Instance>, who: seq<nat>, check: Callback, k: nat, n: nat)
    requires |insts| == IMAGE_SLOTS && Real(who) && Distinct(who) && n < k <= |who|
    ensures Examined(insts, who, check, k)[who[n]]
         == Checked(insts[who[n]], n < |who| - 1, PassAt(who, check, n))
  {
    if n == k - 1 {
      ExaminedElsewhere(insts, who, check, n, who[n]);
      ExaminedNow(insts, who, check, n);
    } else {
      ExaminedHere(insts, who, check, k - 1, n);
      ExaminedOther(insts, who, check, k, who[n]);
    }
  }

  lemma WhoDistinct(i: nat, ids: seq<nat>)
    requires i < IMAGE_SLOTS && ValidTargets(i, ids)
    ensures Distinct(ids + [i]) && Real(ids + [i])
  {}

  /** What the checks leave behind, slot by slot. */
  lemma ChecksLeave(t: Table, i: nat, ids: seq<nat>, check: Callback, n: nat)
    requires Shaped(t) && LinksOk(t) && i < IMAGE_SLOTS && ValidTargets(i, ids) && n <= |ids|
    ensures var who := ids + [i];
            && Real(who)
            && AfterChecks(t, who, check).insts[who[n]] == Checked(t.insts[who[n]], n < |ids|, PassAt(who, check, n))
  {
    WhoDistinct(i, ids);
    ExaminedHere(t.insts, ids + [i], check, |ids| + 1, n);
  }

  lemma ChecksSpare(t: Table, i: nat, ids: seq<nat>, check: Callback, j: nat)
    requires Shaped(t) && LinksOk(t) && i < IMAGE_SLOTS && ValidTargets(i, ids) && j < IMAGE_SLOTS && j != i && j !in ids
    ensures Real(ids + [i]) && AfterChecks(t, ids + [i], check).insts[j] == t.insts[j]
  {
    var who := ids + [i];
    WhoDistinct(i, ids);
    forall m | 0 <= m < |who| ensures who[m] != j { if m < |ids| { assert who[m] in ids; } }
    ExaminedElsewhere(t.insts, who, check, |who|, j);
  }

  /**
   * A failed check runs no update and touches no file. Of the companions that were DOWNLOADED or UPDATING, those whose
   * own check passed are left in UPDATING and the others in DOWNLOADED. So the companions are as before if and only if
   * every one that was DOWNLOADED failed its own check and every one that was UPDATING passed it.
   */
  lemma FailedCheckLeavesUpdating(t: Table, i: nat, requested: Option<seq<nat>>, check: Callback, update: Callback,
                                  t': Table, trace: seq<Call>, result: int)
    requires Shaped(t) && LinksOk(t) && i < IMAGE_SLOTS && ValidTargets(i, Companions(t, i, requested))
    requires UpgradeStep(t, i, requested, check, update, t', trace, result) && t.insts[i].conflicting == []
    requires !AllPass(Companions(t, i, requested) + [i], check)
    ensures result == ERR_GENERIC && (forall c :: c in trace ==> c.Check?) && t' == t.(insts := t'.insts) && Shaped(t')
    ensures var ids := Companions(t, i, requested);
            forall n :: 0 <= n < |ids| ==> t'.insts[ids[n]] == Checked(t.insts[ids[n]], true, PassAt(ids + [i], check, n))
    ensures var ids := Companions(t, i, requested);
            && t'.insts[i] == Checked(t.insts[i], false, PassAt(ids + [i], check, |ids|))
            && (forall j :: 0 <= j < IMAGE_SLOTS && j != i && j !in ids ==> t'.insts[j] == t.insts[j])
    ensures var ids := Companions(t, i, requested);
            (forall n :: 0 <= n < |ids| ==> t'.insts[ids[n]].state == t.insts[ids[n]].state)
            <==> forall n :: 0 <= n < |ids| ==>
                   && (IsDownloaded(t, ids[n]) ==> !PassAt(ids + [i], check, n))
                   && (t.insts[ids[n]].state.Updating? ==> PassAt(ids + [i], check, n))
  {
    var ids := Companions(t, i, requested);
    FailedOnlyChecks(ids + [i], check, update, trace, result);
    assert t' == AfterChecks(t, ids + [i], check);
    ChecksLeaveAll(t, i, ids, check);
    CompanionsAsBefore(t, t', ids, ids + [i], check);
  }

  lemma FailedOnlyChecks(who: seq<nat>, check: Callback, update: Callback, trace: seq<Call>, result: int)
    requires Performed(who, check, update, trace, result) && !AllPass(who, check)
    ensures Done(who, trace, result) == [] && result == ERR_GENERIC && forall c :: c in trace ==> c.Check?
  {
    assert trace == trace[..|who|];
  }

  lemma ChecksLeaveAll(t: Table, i: nat, ids: seq<nat>, check: Callback)
    requires Shaped(t) && LinksOk(t) && i < IMAGE_SLOTS && ValidTargets(i, ids)
    ensures Real(ids + [i])
    ensures var v := AfterChecks(t, ids + [i], check);
            && v == t.(insts := v.insts)
            && (forall n :: 0 <= n < |ids| ==> v.insts[ids[n]] == Checked(t.insts[ids[n]], true, PassAt(ids + [i], check, n)))
            && v.insts[i] == Checked(t.insts[i], false, PassAt(ids + [i], check, |ids|))
            && (forall j :: 0 <= j < IMAGE_SLOTS && j != i && j !in ids ==> v.insts[j] == t.insts[j])
  {
    WhoDistinct(i, ids);
    var v := AfterChecks(t, ids + [i], check);
    forall n | 0 <= n < |ids| ensures v.insts[ids[n]] == Checked(t.insts[ids[n]], true, PassAt(ids + [i], check, n)) {
      ChecksLeave(t, i, ids, check, n);
      assert (ids + [i])[n] == ids[n];
    }
    ChecksLeave(t, i, ids, check, |ids|);
    forall j | 0 <= j < IMAGE_SLOTS && j != i && j !in ids ensures v.insts[j] == t.insts[j] { ChecksSpare(t, i, ids, check, j); }
  }

  lemma CompanionsAsBefore(t: Table, v: Table, ids: seq<nat>, who: seq<nat>, check: Callback)
    requires |t.insts| == IMAGE_SLOTS && |v.insts| == IMAGE_SLOTS && Real(ids) && |ids| <= |who|
    requires forall n :: 0 <= n < |ids| ==> v.insts[ids[n]] == Checked(t.insts[ids[n]], true, PassAt(who, check, n))
    ensures (forall n :: 0 <= n < |ids| ==> v.insts[ids[n]].state == t.insts[ids[n]].state)
            <==> forall n :: 0 <= n < |ids| ==>
                   && (IsDownloaded(t, ids[n]) ==> !PassAt(who, check, n))
                   && (t.insts[ids[n]].state.Updating? ==> PassAt(who, check, n))
  {
    forall n | 0 <= n < |ids|
      ensures v.insts[ids[n]].state == t.insts[ids[n]].state
         <==> (IsDownloaded(t, ids[n]) ==> !PassAt(who, check, n)) && (t.insts[ids[n]].state.Updating? ==> PassAt(who, check, n))
    {}
  }

  function EmptyImage(id: nat): Meta
    requires id < IMAGE_SLOTS
  {
    Meta(MAGICS[id], HEADER_VER_SINGLE, 0, 0, [0xFF, 0xFF, 0xFF, 0xFF, 0xFF, 0xFF, 0xFF, 0xFF], [0x31])
  }

  const FORCE_ERROR_FAILED_UPDATE: nat := 2

  /** The application, which asks for its check to fail, is being upgraded and is linked to a TEE image that is there. */
  const LINKED_PAIR: Table :=
    Table(map[Temp(0) := [], Temp(1) := []], 2,
          [Slot(Some(Temp(0)), None, EmptyImage(APP).(forceError := FORCE_ERROR_FAILED_UPDATE), Closed, [0x31]),
           Slot(Some(Temp(1)), None, EmptyImage(TEE), Closed, [0x31]), UNUSED, UNUSED],
          [Instance(Updating, 0, [TEE], []), Instance(Downloaded, 0, [], []), QUIET, QUIET])

  lemma LinkedTidy()
    ensures Tidy(LINKED_PAIR) && LinksOk(LINKED_PAIR)
  {
    assert forall i :: 2 <= i < IMAGE_SLOTS ==> LINKED_PAIR.slots[i] == UNUSED && LINKED_PAIR.insts[i] == QUIET;
  }

  lemma LinkedInOrder()
    ensures Inv(LINKED_PAIR)
  {
    LinkedTidy();
    EmptyCrc();
    var t := LINKED_PAIR;
    assert SoundAt(t, TEE, {});
    forall i | 0 <= i < IMAGE_SLOTS && IsDownloaded(t, i) ensures SoundAt(t, i, {}) {
      assert i == TEE;
    }
  }

  /** The application's check fails, all others pass; the results do not depend on earlier calls. */
  const APP_REFUSES: Callback := (calls, id) => if id == APP then -1 else 0
  const ACCEPTING: Callback := (calls, id) => 0

  lemma AppRefuses(w: Table)
    requires Shaped(w) && LinksOk(w) && w.insts[APP].linked == [TEE] && w.insts[APP].conflicting == []
    ensures Real([TEE]) && UpgradeStep(w, APP, None, APP_REFUSES, ACCEPTING, AfterChecks(w, [TEE, APP], APP_REFUSES), [Check(TEE), Check(APP)], ERR_GENERIC)
    ensures PassAt([TEE] + [APP], APP_REFUSES, 0) && !PassAt([TEE] + [APP], APP_REFUSES, 1)
  {
    var who := [TEE] + [APP];
    assert who == [TEE, APP];
    assert !PassAt(who, APP_REFUSES, 1);
    Refused(who, APP_REFUSES, ACCEPTING);
    assert Checks(who) == [Check(TEE), Check(APP)];
    assert Done(who, Checks(who), ERR_GENERIC) == [];
  }

  /** The application's check fails, no update runs, and the TEE, whose own check has passed, is left in UPDATING. */
  lemma CheckFailsAfterMarking() returns (t': Table)
    ensures Inv(LINKED_PAIR) && UpgradeStep(LINKED_PAIR, APP, None, APP_REFUSES, ACCEPTING, t', [Check(TEE), Check(APP)], ERR_GENERIC)
    ensures IsDownloaded(LINKED_PAIR, TEE) && Shaped(t') && t'.insts[TEE].state.Updating? && t'.insts[APP].state.Downloaded?
  {
    LinkedInOrder();
    AppRefuses(LINKED_PAIR);
    t' := AfterChecks(LINKED_PAIR, [TEE, APP], APP_REFUSES);
    assert [TEE] + [APP] == [TEE, APP];
    ChecksLeave(LINKED_PAIR, APP, [TEE], APP_REFUSES, 0);
    ChecksLeave(LINKED_PAIR, APP, [TEE], APP_REFUSES, 1);
  }

  // ---------------------------------------------------------------- when everything succeeds

  /** The new version p has been copied over the old one c: it stands in front, and what is left of the old one follows. */
  ghost predicate CopiedOver(p: seq<byte>, c: seq<byte>, now: seq<byte>) {
    && |p| <= |now| && now[..|p|] == p
    && (if |p| <= |c| then |now| == |c| && now[|p|..] == c[|p|..] else |now| == |p|)
  }

  /** The slot has been emptied: no path, no download, no links, IDLE with this result. */
  ghost predicate Emptied(t: Table, j: nat, result: nat)
    requires Shaped(t) && j < IMAGE_SLOTS
  {
    && t.slots[j].path.None? && t.slots[j].stream.Closed?
    && t.insts[j].state.Idle? && t.insts[j].result == result && t.insts[j].linked == []
  }

  /** The same slot, and the same record but for its conflicts. */
  ghost predicate SpareAt(t: Table, u: Table, k: nat)
    requires Shaped(t) && Shaped(u) && k < IMAGE_SLOTS
  {
    && u.slots[k] == t.slots[k] && u.insts[k].state == t.insts[k].state
    && u.insts[k].result == t.insts[k].result && u.insts[k].linked == t.insts[k].linked
  }

  lemma FinishedSpares(t: Table, j: nat, result: nat, k: nat)
    requires Shaped(t) && LinksOk(t) && j < IMAGE_SLOTS && k < IMAGE_SLOTS
    ensures var u := Finished(t, j, result);
            && (k != j ==> SpareAt(t, u, k)) && u.files.Keys <= t.files.Keys && u.slots[j].currentVer == t.slots[j].currentVer
            && (if t.insts[j].state.Updating? then
                  Emptied(u, j, result) && (t.slots[j].path.Some? ==> t.slots[j].path.value !in u.files)
                else u == t)
  {
    ResetLeaves(t, j, j);
    ResetLeaves(t, j, k);
  }

  lemma UpdatedOthers(t: Table, j: nat, k: nat)
    requires Shaped(t) && LinksOk(t) && j < IMAGE_SLOTS && k < IMAGE_SLOTS && k != j
    ensures SpareAt(t, UpdatedOne(t, j), k) && UpdatedOne(t, j).files.Keys <= t.files.Keys
  {
    if j != APP {
      InstalledLinks(t, j);
      FinishedSpares(Installed(t, j), j, RESULT_SUCCESS, k);
    } else {
      FinishedSpares(t, j, RESULT_SUCCESS, k);
      FinishedSpares(t, j, RESULT_FAILED, k);
    }
  }

  /** What a successful update_yourself makes of slot j, told from the table t before it. */
  ghost predicate UpdatedAt(t: Table, u: Table, j: nat)
    requires Shaped(t) && Shaped(u) && j < IMAGE_SLOTS
  {
    var error := t.slots[j].meta.forceError;
    && (if j == APP then u.slots[j].currentVer == t.slots[j].currentVer
        else CopiedOver(t.slots[j].meta.pkgVer, t.slots[j].currentVer, u.slots[j].currentVer))
    && (if t.insts[j].state.Updating? && (j != APP || error == FORCE_SET_SUCCESS || error == FORCE_SET_FAILURE) then
          && Emptied(u, j, if j == APP && error == FORCE_SET_FAILURE then RESULT_FAILED else RESULT_SUCCESS)
          && (t.slots[j].path.Some? ==> t.slots[j].path.value !in u.files)
        else
          && u.insts[j].state == t.insts[j].state && u.insts[j].result == t.insts[j].result
          && u.slots[j].path == t.slots[j].path && u.slots[j].meta == t.slots[j].meta)
  }

  lemma UpdatedSelf(t: Table, j: nat)
    requires Shaped(t) && LinksOk(t) && j < IMAGE_SLOTS
    ensures UpdatedAt(t, UpdatedOne(t, j), j)
  {
    if j != APP {
      InstalledLinks(t, j);
      FinishedSpares(Installed(t, j), j, RESULT_SUCCESS, j);
    } else {
      FinishedSpares(t, j, RESULT_SUCCESS, j);
      FinishedSpares(t, j, RESULT_FAILED, j);
    }
  }

  lemma {:induction false} UpdatedElsewhere(t: Table, ids: seq<nat>, j: nat)
    requires Shaped(t) && LinksOk(t) && Real(ids) && j < IMAGE_SLOTS && j !in ids
    ensures SpareAt(t, Updated(t, ids), j)
  {
    if ids != [] {
      var n := |ids| - 1;
      assert ids == ids[..n] + [ids[n]] && ids[n] in ids;
      UpdatedElsewhere(t, ids[..n], j);
      UpdatedOthers(Updated(t, ids[..n]), ids[n], j);
    }
  }

  lemma UpdatedLater(t: Table, u: Table, v: Table, j: nat)
    requires Shaped(t) && Shaped(u) && Shaped(v) && j < IMAGE_SLOTS
    requires UpdatedAt(t, u, j) && SpareAt(u, v, j) && v.files.Keys <= u.files.Keys
    ensures UpdatedAt(t, v, j)
  {}

  lemma UpdatedSince(t: Table, u: Table, v: Table, j: nat)
    requires Shaped(t) && Shaped(u) && Shaped(v) && j < IMAGE_SLOTS && SpareAt(t, u, j) && UpdatedAt(u, v, j)
    ensures UpdatedAt(t, v, j)
  {}

  lemma {:induction false} UpdatedHere(t: Table, ids: seq<nat>, k: nat)
    requires Shaped(t) && LinksOk(t) && Real(ids) && Distinct(ids) && k < |ids|
    ensures UpdatedAt(t, Updated(t, ids), ids[k])
  {
    var n := |ids| - 1;
    var u := Updated(t, ids[..n]);
    if k == n {
      forall m | 0 <= m < n ensures ids[..n][m] != ids[n] {}
      UpdatedElsewhere(t, ids[..n], ids[n]);
      UpdatedSelf(u, ids[n]);
      UpdatedSince(t, u, Updated(t, ids), ids[n]);
    } else {
      assert ids[k] != ids[n] && ids[..n][k] == ids[k];
      UpdatedHere(t, ids[..n], k);
      UpdatedOthers(u, ids[n], ids[k]);
      UpdatedLater(t, u, Updated(t, ids), ids[k]);
    }
  }

  /**
   * After a successful upgrade every additional image taken along, and the upgraded slot itself unless it is the
   * application, has its new version in front of the current one; those that held an image have been emptied.
   */
  lemma SuccessInstalls(t: Table, i: nat, requested: Option<seq<nat>>, check: Callback, update: Callback,
                        t': Table, trace: seq<Call>, k: nat)
    requires Shaped(t) && LinksOk(t) && i < IMAGE_SLOTS && ValidTargets(i, Companions(t, i, requested))
    requires UpgradeStep(t, i, requested, check, update, t', trace, 0) && k <= |Companions(t, i, requested)|
    requires (Companions(t, i, requested) + [i])[k] != APP
    ensures var j := (Companions(t, i, requested) + [i])[k];
            && Shaped(t') && CopiedOver(t.slots[j].meta.pkgVer, t.slots[j].currentVer, t'.slots[j].currentVer)
            && (t.insts[j].state.Updating? || (IsDownloaded(t, j) && j != i) ==>
                  Emptied(t', j, RESULT_SUCCESS) && (t.slots[j].path.Some? ==> t.slots[j].path.value !in t'.files))
  {
    SuccessUpdates(t, i, requested, check, update, t', trace, k);
  }

  /**
   * The application, if it takes part and holds an image, keeps its current version: it stays in UPDATING with its image
   * until the restart, unless that image asks for a result, which is then recorded with the slot emptied.
   */
  lemma SuccessKeepsApplication(t: Table, i: nat, requested: Option<seq<nat>>, check: Callback, update: Callback,
                                t': Table, trace: seq<Call>, k: nat)
    requires Shaped(t) && LinksOk(t) && i < IMAGE_SLOTS && ValidTargets(i, Companions(t, i, requested))
    requires UpgradeStep(t, i, requested, check, update, t', trace, 0) && k <= |Companions(t, i, requested)|
    requires (Companions(t, i, requested) + [i])[k] == APP
    requires t.insts[APP].state.Updating? || (IsDownloaded(t, APP) && APP != i)
    ensures var error := t.slots[APP].meta.forceError;
            && Shaped(t') && t'.slots[APP].currentVer == t.slots[APP].currentVer
            && (error == FORCE_SET_SUCCESS ==> Emptied(t', APP, RESULT_SUCCESS))
            && (error == FORCE_SET_FAILURE ==> Emptied(t', APP, RESULT_FAILED))
            && (error != FORCE_SET_SUCCESS && error != FORCE_SET_FAILURE ==>
                  t'.insts[APP].state.Updating? && t'.slots[APP].path == t.slots[APP].path && t'.slots[APP].meta == t.slots[APP].meta)
  {
    SuccessUpdates(t, i, requested, check, update, t', trace, k);
  }

  lemma SuccessUpdates(t: Table, i: nat, requested: Option<seq<nat>>, check: Callback, update: Callback,
                       t': Table, trace: seq<Call>, k: nat)
    requires Shaped(t) && LinksOk(t) && i < IMAGE_SLOTS && ValidTargets(i, Companions(t, i, requested))
    requires UpgradeStep(t, i, requested, check, update, t', trace, 0) && k <= |Companions(t, i, requested)|
    ensures var ids := Companions(t, i, requested);
            var j := (ids + [i])[k];
            && j < IMAGE_SLOTS && Real(ids + [i])
            && var c := AfterChecks(t, ids + [i], check);
               && c.slots == t.slots && UpdatedAt(c, t', j)
               && c.insts[j] == Checked(t.insts[j], k < |ids|, true)
  {
    var ids := Companions(t, i, requested);
    var who := ids + [i];
    SuccessIsUpdated(t, i, requested, check, update, t', trace);
    assert PassAt(who, check, k);
    UpdatedHere(AfterChecks(t, who, check), who, k);
    ChecksLeave(t, i, ids, check, k);
  }

  lemma SuccessIsUpdated(t: Table, i: nat, requested: Option<seq<nat>>, check: Callback, update: Callback,
                         t': Table, trace: seq<Call>)
    requires Shaped(t) && LinksOk(t) && i < IMAGE_SLOTS && ValidTargets(i, Companions(t, i, requested))
    requires UpgradeStep(t, i, requested, check, update, t', trace, 0)
    ensures var who := Companions(t, i, requested) + [i];
            Distinct(who) && Real(who) && AllPass(who, check) && t' == Updated(AfterChecks(t, who, check), who)
  {
    var who := Companions(t, i, requested) + [i];
    WhoDistinct(i, Companions(t, i, requested));
    SuccessMeansAll(who, check, update, trace, 0);
    assert |trace| == 2 * |who| && Done(who, trace, 0) == who[..|who|] == who;
  }

  /**
   * When an update fails, the slots before it in the order of the calls have been updated as in a successful upgrade;
   * it and the slots after it are as the checks left them.
   */
  lemma FailedUpdateLeaves(t: Table, i: nat, requested: Option<seq<nat>>, check: Callback, update: Callback,
                           t': Table, trace: seq<Call>, result: int, k: nat)
    requires Shaped(t) && LinksOk(t) && i < IMAGE_SLOTS && ValidTargets(i, Companions(t, i, requested))
    requires UpgradeStep(t, i, requested, check, update, t', trace, result) && t.insts[i].conflicting == [] && result != 0
    requires AllPass(Companions(t, i, requested) + [i], check) && k <= |Companions(t, i, requested)|
    ensures var ids := Companions(t, i, requested);
            var j, failed := (ids + [i])[k], |trace| - |ids| - 2;
            && 0 <= failed <= |ids| && trace[|trace| - 1] == Update((ids + [i])[failed]) && j < IMAGE_SLOTS && Real(ids + [i]) && Shaped(t')
            && var c := AfterChecks(t, ids + [i], check);
               && c.slots == t.slots && c.insts[j] == Checked(t.insts[j], k < |ids|, true)
               && (if k < failed then UpdatedAt(c, t', j) else SpareAt(c, t', j))
  {
    var ids := Companions(t, i, requested);
    var who := ids + [i];
    var failed := |trace| - |who| - 1;
    WhoDistinct(i, ids);
    var c := AfterChecks(t, who, check);
    assert trace[|trace| - 1] == trace[|who|..][failed];
    assert Done(who, trace, result) == who[..failed];
    assert PassAt(who, check, k);
    ChecksLeave(t, i, ids, check, k);
    PrefixUpdated(c, who, failed, k);
  }

  lemma PrefixUpdated(c: Table, who: seq<nat>, n: nat, k: nat)
    requires Shaped(c) && LinksOk(c) && Real(who) && Distinct(who) && n <= |who| && k < |who|
    ensures var u := Updated(c, who[..n]); if k < n then UpdatedAt(c, u, who[k]) else SpareAt(c, u, who[k])
  {
    if k < n {
      assert who[..n][k] == who[k];
      UpdatedHere(c, who[..n], k);
    } else {
      forall m | 0 <= m < n ensures who[..n][m] != who[k] { assert who[m] != who[k]; }
      UpdatedElsewhere(c, who[..n], who[k]);
    }
  }
}
