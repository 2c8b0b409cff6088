/** Activated Profile Names of demo/objects/cell_connectivity.c, a view of the APN profiles. */
module CellConnectivity {
  import opened ErrorCodes
  import opened AvsList
  import opened InstanceRegistry
  import opened ApnProfiles

  /** Reading resource instance riid: a link to the profile with that very identifier. */
  method ReadActivated(profiles: Registry?<Profile, ApnWrite>, ids: Heap<Unit>, riid: nat) returns (result: int, link: nat)
    requires ids.Valid() && (profiles != null ==> profiles.Valid())
    modifies ids
    ensures ids.Valid() && ids.cells == old(ids.cells)
    ensures profiles == null ==> result == ERR_INTERNAL
    ensures profiles != null && result == 0 ==> link == riid && riid in Activated(old(profiles.live.view))
    ensures profiles != null && result != 0 ==> result == ERR_NOT_FOUND
    ensures profiles != null && ids.Plentiful() ==> (result == 0 <==> riid in Activated(old(profiles.live.view)))
  {
    link := 0;
    if profiles == null {
      return ERR_INTERNAL, link;
    }
    ghost var m := ids.cells;
    var head;
    ghost var out, c;
    head, out, c := ListActivated(profiles, ids);
    GivenBack(m, ids.cells, head, out, c);
    var p := ids.FindSlowly(head, riid, out, c);
    result := ERR_NOT_FOUND;
    if p != NULL {
      result, link := 0, ids.cells[p].id;
    }
    ids.Clear(head, out);
  }

  /** Listing the resource instances. */
  method ListResourceInstances(profiles: Registry?<Profile, ApnWrite>, ids: Heap<Unit>) returns (result: int, emitted: seq<nat>)
    requires ids.Valid() && (profiles != null ==> profiles.Valid())
    modifies ids
    ensures ids.Valid() && ids.cells == old(ids.cells)
    ensures result == if profiles == null then ERR_INTERNAL else 0
    ensures forall i, j :: 0 <= i < j < |emitted| ==> emitted[i] < emitted[j]
    ensures profiles != null && emitted != [] ==> forall id :: id in emitted <==> id in Activated(old(profiles.live.view))
    ensures profiles != null && ids.Plentiful() ==> forall id :: id in emitted <==> id in Activated(old(profiles.live.view))
  {
    if profiles == null {
      return ERR_INTERNAL, [];
    }
    ghost var m := ids.cells;
    var head;
    ghost var out, c;
    head, out, c := ListActivated(profiles, ids);
    GivenBack(m, ids.cells, head, out, c);
    emitted := ids.Ids(head, out, c);
    assert emitted != [] ==> emitted[0] in c;
    ids.Clear(head, out);
    result := 0;
  }

  /** Freeing the list restores memory. */
  lemma GivenBack(m: Memory<Unit>, n: Memory<Unit>, head: Ptr, out: seq<Ptr>, c: map<nat, Unit>)
    requires NewList(m, n, head, out, c)
    ensures n - Elements(out) == m
  {}

  /**
   * Unless memory runs out, what is listed is strictly ascending and is exactly what can be read, and each
   * resource instance links to the enabled profile with the same identifier.
   */
  method ListedIsReadable(profiles: Registry<Profile, ApnWrite>, ids: Heap<Unit>, riid: nat) returns (listed: bool, readable: bool)
    requires ids.Valid() && profiles.Valid() && ids.Plentiful()
    modifies ids
    ensures ids.Valid() && ids.cells == old(ids.cells)
    ensures listed == readable == (riid in old(profiles.live.view) && old(profiles.live.view)[riid].enabled)
  {
    ghost var view := profiles.live.view;
    var ignored, emitted := ListResourceInstances(profiles, ids);
    var result, link := ReadActivated(profiles, ids, riid);
    listed, readable := riid in emitted, result == 0;
  }
}
