/** The APN connection profiles of demo/objects/apn_conn_profile.c. */
module ApnProfiles {
  import opened ErrorCodes
  import opened Options
  import opened AvsList
  import opened InstanceRegistry

  /** PAP, CHAP, PAP or CHAP, none. */
  const AUTH_TYPES: int := 4
  const NAME_SIZE: nat := 256

  datatype Profile = Profile(name: string, authType: int, enabled: bool, hasName: bool, hasAuthType: bool)

  /** A write as the handler sees it; a positive error for the name means that it was cut to fit the buffer. */
  datatype ApnWrite =
    | ProfileName(text: string, error: int)
    | EnableStatus(on: bool, error: int)
    | AuthenticationType(number: int, error: int)

  const BLANK: Profile := Profile("", 0, false, false, false)

  function Fitting(text: string): string { if |text| < NAME_SIZE then text else text[..NAME_SIZE - 1] }

  /** apncp_resource_write; a failed read of a boolean may or may not have stored something. */
  function Written(p: Profile, w: ApnWrite): (Profile, int) {
    match w
    case ProfileName(text, error) =>
      if error < 0 then (p, ERR_INTERNAL) else (p.(name := Fitting(text), hasName := true), 0)
    case EnableStatus(value, error) => (p.(enabled := value), error)
    case AuthenticationType(value, error) =>
      if error != 0 then (p, ERR_INTERNAL)
      else if value < 0 || value >= AUTH_TYPES then (p, ERR_BAD_REQUEST)
      else (p.(authType := value, hasAuthType := true), 0)
  }

  /** apncp_instance_reset: name and authentication type stay in memory but no longer count. */
  function Cleared(p: Profile): Profile { p.(hasAuthType := false, hasName := false, enabled := false) }

  predicate Complete(p: Profile) { p.hasName && p.hasAuthType }

  predicate InRange(p: Profile) { 0 <= p.authType < AUTH_TYPES && |p.name| < NAME_SIZE }

  /** A proper profile: a name that fits and an authentication type in range, both present. */
  predicate Proper(p: Profile) { Complete(p) && InRange(p) }

  const PROFILE_RULES: Rules<Profile, ApnWrite> :=
    Rules(BLANK, (p: Profile) => Cleared(p), (p: Profile, w: ApnWrite) => Written(p, w), (p: Profile) => Complete(p))

  lemma RangesKept()
    ensures Kept(PROFILE_RULES, InRange)
  {}

  /** A write is accepted if and only if its value could be read, a name perhaps cut short, and a type is one of the four. */
  lemma WriteDecided(p: Profile, w: ApnWrite)
    ensures var (q, r) := Written(p, w);
            match w
            case ProfileName(_, e) => (r == 0 <==> e >= 0) && (r != 0 ==> r == ERR_INTERNAL && q == p)
            case EnableStatus(_, e) => r == e
            case AuthenticationType(n, e) =>
              (r == 0 <==> e == 0 && 0 <= n <= 3) && (r != 0 ==> q == p && r == if e != 0 then ERR_INTERNAL else ERR_BAD_REQUEST)
  {}

  // ---------------------------------------------------------------- what is read back

  const NAME: Resource<Profile, ApnWrite, Option<string>> :=
    Resource((p: Profile) => if p.hasName then Some(p.name) else None,
             (w: ApnWrite) => match w case ProfileName(text, _) => Some(Some(if |text| <= 255 then text else text[..255])) case _ => None,
             None)
  const ENABLED: Resource<Profile, ApnWrite, bool> :=
    Resource((p: Profile) => p.enabled, (w: ApnWrite) => match w case EnableStatus(on, _) => Some(on) case _ => None, false)
  const AUTHENTICATION: Resource<Profile, ApnWrite, Option<int>> :=
    Resource((p: Profile) => if p.hasAuthType then Some(p.authType) else None,
             (w: ApnWrite) => match w case AuthenticationType(n, _) => Some(Some(n)) case _ => None, None)

  /** Every resource holds what was written to it last since the instance was created or reset. */
  ghost predicate RememberedAll(before: map<nat, Profile>, ops: seq<Op<ApnWrite>>, after: map<nat, Profile>) {
    && Remembered(NAME, before, ops, after) && Remembered(ENABLED, before, ops, after)
    && Remembered(AUTHENTICATION, before, ops, after)
    && (forall iid: nat :: iid in after <==> Exists(iid in before, ops, iid))
  }

  lemma WritesObeyed()
    ensures Obeys(PROFILE_RULES, NAME) && Obeys(PROFILE_RULES, ENABLED) && Obeys(PROFILE_RULES, AUTHENTICATION)
  {}

  lemma LatestWins(view: map<nat, Profile>, ops: seq<Op<ApnWrite>>)
    requires AppliedAll(PROFILE_RULES, view, ops).Some?
    ensures RememberedAll(view, ops, AppliedAll(PROFILE_RULES, view, ops).value)
  {
    WritesObeyed();
    AppliedRemembers(PROFILE_RULES, NAME, view, ops);
    AppliedRemembers(PROFILE_RULES, ENABLED, view, ops);
    AppliedRemembers(PROFILE_RULES, AUTHENTICATION, view, ops);
    forall iid: nat ensures iid in AppliedAll(PROFILE_RULES, view, ops).value <==> Exists(iid in view, ops, iid) {
      LatestExistence(PROFILE_RULES, view, ops, iid);
    }
  }

  lemma ProperEverywhere(view: map<nat, Profile>)
    ensures Each(view, Proper) <==> Each(view, InRange) && Each(view, PROFILE_RULES.complete)
  {
    forall id | id in view ensures Proper(view[id]) <==> InRange(view[id]) && PROFILE_RULES.complete(view[id]) {}
  }

  /**
   * Between transactions every profile has a name and an authentication type in range, and every resource holds the value
   * of the latest write to it in a transaction that succeeded.
   */
  method RunTransactions(profiles: Registry<Profile, ApnWrite>, transactions: seq<seq<Op<ApnWrite>>>) returns (results: seq<int>)
    requires profiles.Valid() && profiles.Idle() && profiles.rules == PROFILE_RULES && Each(profiles.live.view, Proper)
    modifies profiles, profiles.heap
    ensures profiles.Valid() && profiles.Idle() && Each(profiles.live.view, Proper)
    ensures |results| == |transactions| && profiles.live.view == Committed(PROFILE_RULES, old(profiles.live.view), transactions, results)
    ensures RememberedAll(old(profiles.live.view), Accepted(transactions, results), profiles.live.view)
  {
    ProperEverywhere(profiles.live.view);
    RangesKept();
    results := profiles.Run(transactions, InRange);
    LatestWins(old(profiles.live.view), Accepted(transactions, results));
    ProperEverywhere(profiles.live.view);
  }

  // ---------------------------------------------------------------- activated profiles

  /** A list of identifiers has nothing else to store. */
  datatype Unit = Unit

  ghost function Activated(view: map<nat, Profile>): set<nat> { set id | id in view && view[id].enabled }

  /** A list of these identifiers in cells of its own, memory being otherwise as before. */
  ghost predicate NewList(m: Memory<Unit>, n: Memory<Unit>, head: Ptr, out: seq<Ptr>, c: map<nat, Unit>) {
    Grown(m, n, [], out, Elements(out)) && Represents(n, head, out, c)
  }

  /** Adds an identifier at the end; if there is no memory for it, the whole list is given back. */
  method AppendId(ids: Heap<Unit>, head: Ptr, tail: Ptr, id: nat, ghost m: Memory<Unit>, ghost out: seq<Ptr>, ghost c: map<nat, Unit>)
    returns (start: Ptr, p: Ptr)
    requires ids.Valid() && NewList(m, ids.cells, head, out, c) && tail == Last(out) && forall x :: x in c ==> x < id
    modifies ids
    ensures ids.Valid() && (p == NULL ==> ids.cells == m && !ids.Plentiful())
    ensures p != NULL ==> NewList(m, ids.cells, start, out + [p], c[id := Unit]) == true
  {
    ghost var n := ids.cells;
    start, p := ids.Append(head, tail, id, Unit, out, c);
    if p == NULL {
      ids.Clear(start, out);
    } else {
      GrownAgain(m, n, ids.cells, out, p);
    }
  }

  lemma OneMoreSeen(cells: Memory<Profile>, path: seq<Ptr>, view: map<nat, Profile>, k: nat)
    requires (forall i :: 0 <= i < |path| ==> path[i] in cells) && Ascending(cells, path) && Holds(cells, path, view) && k < |path|
    ensures var cell, seen := cells[path[k]], Activated(Below(cells, path, view, k));
            && Activated(Below(cells, path, view, k + 1)) == (if cell.value.enabled then seen + {cell.id} else seen)
            && forall x :: x in seen ==> x < cell.id
  {
    BelowNext(cells, path, view, k);
  }

  lemma OneMoreListed(seen: set<nat>, c: map<nat, Unit>, id: nat)
    requires c.Keys == seen
    ensures c[id := Unit].Keys == seen + {id}
  {}

  lemma FirstAndLastSeen(cells: Memory<Profile>, path: seq<Ptr>, view: map<nat, Profile>)
    requires (forall i :: 0 <= i < |path| ==> path[i] in cells) && Ascending(cells, path) && Holds(cells, path, view)
    ensures Activated(Below(cells, path, view, 0)) == {} && Activated(Below(cells, path, view, |path|)) == Activated(view)
  {
    BelowNone(cells, path, view);
    assert Below(cells, path, view, |path|) == view;
  }

  lemma EmptyList(m: Memory<Unit>)
    ensures NewList(m, m, NULL, [], map[]) == true
  {}

  /** The profiles before position k have been looked at, and the activated ones are listed. */
  ghost predicate Collected(cells: Memory<Profile>, path: seq<Ptr>, view: map<nat, Profile>, k: nat, m: Memory<Unit>,
                            n: Memory<Unit>, head: Ptr, out: seq<Ptr>, c: map<nat, Unit>)
    requires forall i :: 0 <= i < |path| ==> path[i] in cells
  {
    k <= |path| && NewList(m, n, head, out, c) && c.Keys == Activated(Below(cells, path, view, k))
  }

  /** One round of the loop of apn_conn_profile_list_activated. */
  method CollectNext(cells: Memory<Profile>, it: Ptr, ids: Heap<Unit>, start: Ptr, tail: Ptr, ghost path: seq<Ptr>, ghost view: map<nat, Profile>,
                     ghost k: nat, ghost m: Memory<Unit>, ghost before: seq<Ptr>, ghost listed: map<nat, Unit>)
    returns (ok: bool, head: Ptr, last: Ptr, ghost out: seq<Ptr>, ghost c: map<nat, Unit>)
    requires (forall i :: 0 <= i < |path| ==> path[i] in cells) && Ascending(cells, path) && Holds(cells, path, view)
    requires ids.Valid() && k < |path| && it == path[k] && tail == Last(before)
    requires Collected(cells, path, view, k, m, ids.cells, start, before, listed) == true
    modifies ids
    ensures ids.Valid() && (!ok ==> ids.cells == m && !ids.Plentiful())
    ensures ok ==> Collected(cells, path, view, k + 1, m, ids.cells, head, out, c) == true && last == Last(out)
  {
    ok, head, last, out, c := true, start, tail, before, listed;
    OneMoreSeen(cells, path, view, k);
    if cells[it].value.enabled {
      OneMoreListed(Activated(Below(cells, path, view, k)), c, cells[it].id);
      var p;
      head, p := AppendId(ids, head, tail, cells[it].id, m, out, c);
      if p == NULL {
        return false, head, last, out, c;
      }
      out, last, c := out + [p], p, c[cells[it].id := Unit];
    }
  }

  /** The loop of apn_conn_profile_list_activated over a list of profiles. */
  method CollectActivated(cells: Memory<Profile>, first: Ptr, ids: Heap<Unit>, ghost path: seq<Ptr>, ghost view: map<nat, Profile>)
    returns (head: Ptr, ghost out: seq<Ptr>, ghost c: map<nat, Unit>)
    requires Represents(cells, first, path, view) && ids.Valid()
    modifies ids
    ensures ids.Valid() && NewList(old(ids.cells), ids.cells, head, out, c) == true
    ensures c.Keys == Activated(view) || (c == map[] && !ids.Plentiful())
  {
    head, out, c := NULL, [], map[];
    var it, tail := first, NULL;
    ghost var k := 0;
    ghost var m := ids.cells;
    FirstAndLastSeen(cells, path, view);
    EmptyList(m);
    while it != NULL
      invariant ids.Valid() && 0 <= k <= |path| && it == First(path[k..]) && tail == Last(out)
      invariant Collected(cells, path, view, k, m, ids.cells, head, out, c) == true
      decreases |path| - k
    {
      assert it == path[k];
      var ok;
      ok, head, tail, out, c := CollectNext(cells, it, ids, head, tail, path, view, k, m, out, c);
      if !ok {
        EmptyList(m);
        return NULL, [], map[];
      }
      it, k := cells[it].next, k + 1;
    }
  }

  /** apn_conn_profile_list_activated: a new list of all activated profiles, or an empty one when memory runs out. */
  method ListActivated(profiles: Registry<Profile, ApnWrite>, ids: Heap<Unit>)
    returns (head: Ptr, ghost out: seq<Ptr>, ghost c: map<nat, Unit>)
    requires profiles.Valid() && ids.Valid()
    modifies ids
    ensures ids.Valid() && NewList(old(ids.cells), ids.cells, head, out, c)
    ensures c.Keys == Activated(old(profiles.live.view)) || (c == map[] && !ids.Plentiful())
  {
    head, out, c := CollectActivated(profiles.heap.cells, profiles.instances, ids, profiles.live.path, profiles.live.view);
  }
}
