/**
 * The Binary App Data Container object (demo/objects/binary_app_data_container.c): a list of
 * instances, each with its own list of data entries, and a deep copy of both levels kept
 * while a transaction is open.
 */
module AppDataContainer {
  import opened ErrorCodes
  import opened Options
  import opened Bytes
  import opened AvsList

  type Blob = seq<byte>

  const MAX_BINARY_DATA_SIZE: nat := 1024
  const RID_DATA: nat := 0

  /** What anjay_get_bytes finds in a request: an error code, or a payload of any length. */
  datatype Input = Input(error: int, payload: Blob)

  // ---------------------------------------------------------------- one data list

  /** One list of a memory has changed its cells from a to b; new cells were free before, and nothing else changed. */
  ghost predicate Rewrote<T>(m: Memory<T>, n: Memory<T>, a: seq<Ptr>, b: seq<Ptr>) {
    && (forall p :: p in b ==> p in a || p !in m)
    && n.Keys == (m.Keys - Elements(a)) + Elements(b)
    && SameOutside(m, n, Elements(a) + Elements(b))
  }

  lemma RewroteAgain<T>(m: Memory<T>, n: Memory<T>, o: Memory<T>, a: seq<Ptr>, b: seq<Ptr>, c: seq<Ptr>)
    requires Rewrote(m, n, a, b) && Rewrote(n, o, b, c)
    ensures Rewrote(m, o, a, c)
  {}

  lemma GrownRewrote<T>(m: Memory<T>, n: Memory<T>, a: seq<Ptr>, b: seq<Ptr>, p: Ptr)
    requires Grown(m, n, a, b, {p}) && forall q :: q in a ==> q in m
    ensures Rewrote(m, n, a, b)
  {
    assert forall q :: q in b ==> q in Elements(b);
  }

  lemma ShrunkRewrote<T>(m: Memory<T>, n: Memory<T>, a: seq<Ptr>, b: seq<Ptr>)
    requires Shrunk(m, n, a, b) && forall q :: q in a ==> q in m
    ensures Rewrote(m, n, a, b)
  {
    assert forall q :: q in b ==> q in Elements(b);
  }

  lemma CloneRewrote<T>(m: Memory<T>, n: Memory<T>, copy: seq<Ptr>)
    requires Grown(m, n, [], copy, Elements(copy))
    ensures Rewrote(m, n, [], copy)
  {
    assert forall p :: p in copy ==> p in Elements(copy);
  }

  /** The operations on one data list. */
  datatype EntryOp =
    | WriteEntry(riid: nat, input: Input)
    | DropEntry(riid: nat)
    | Wipe

  /** What an operation makes of the entries; a failed write truncates an entry only if it was there before. */
  ghost function Applied(content: map<nat, Blob>, op: EntryOp, outOfMemory: bool): map<nat, Blob> {
    match op
    case WriteEntry(riid, input) =>
      if riid !in content && outOfMemory then content
      else if input.error == 0 && |input.payload| <= MAX_BINARY_DATA_SIZE then content[riid := input.payload]
      else if riid in content then content[riid := []]
      else content
    case DropEntry(riid) => content - {riid}
    case Wipe => map[]
  }

  /**
   * A write succeeds if and only if an entry is there or can be had, the payload can be read, and it fits; otherwise the
   * first of these that fails decides the code.
   */
  ghost function WriteResult(content: map<nat, Blob>, riid: nat, input: Input, outOfMemory: bool): (r: int)
    ensures r == 0 <==> (riid in content || !outOfMemory) && input.error == 0 && |input.payload| <= MAX_BINARY_DATA_SIZE
  {
    if riid !in content && outOfMemory then ERR_INTERNAL
    else if input.error != 0 then input.error
    else if |input.payload| <= MAX_BINARY_DATA_SIZE then 0
    else ERR_INTERNAL
  }

  ghost function OpResult(content: map<nat, Blob>, op: EntryOp, outOfMemory: bool): int {
    match op
    case WriteEntry(riid, input) => WriteResult(content, riid, input, outOfMemory)
    case DropEntry(riid) => if riid in content then 0 else ERR_NOT_FOUND
    case Wipe => 0
  }

  /** Finds or creates the entry a write goes to. */
  method ObtainEntry(datas: Heap<Blob>, head: Ptr, riid: nat, ghost path: seq<Ptr>, ghost c: map<nat, Blob>)
    returns (start: Ptr, it: Ptr, created: bool, ghost now: seq<Ptr>)
    requires datas.Valid() && Represents(datas.cells, head, path, c)
    modifies datas
    ensures datas.Valid() && Rewrote(old(datas.cells), datas.cells, path, now)
    ensures it == NULL <==> riid !in c && datas.fails(old(datas.calls))
    ensures it == NULL ==> Represents(datas.cells, start, now, c) && !created
    ensures it != NULL ==> created == (riid !in c) && it in now && it in datas.cells && datas.cells[it].id == riid
    ensures it != NULL ==> Represents(datas.cells, start, now, if created then c[riid := []] else c)
  {
    start, created, now := head, false, path;
    it := datas.Find(head, riid, path, c);
    if it == NULL {
      start, it, now := datas.Insert(head, riid, [], path, c);
      if it != NULL {
        GrownRewrote(old(datas.cells), datas.cells, path, now, it);
        assert it in Elements(now);
        created := true;
      }
    }
  }

  lemma StoredRewrote<T>(m: Memory<T>, n: Memory<T>, path: seq<Ptr>, p: Ptr)
    requires p in path && p in m && p in n && n == m[p := n[p]] && forall q :: q in path ==> q in m
    ensures Rewrote(m, n, path, path)
  {
    assert p in Elements(path);
  }

  /** Reads the input into the entry; on failure a created entry goes away and an older one becomes empty. */
  method FillEntry(datas: Heap<Blob>, head: Ptr, it: Ptr, created: bool, input: Input, ghost path: seq<Ptr>, ghost c: map<nat, Blob>)
    returns (start: Ptr, result: int, ghost now: seq<Ptr>)
    requires datas.Valid() && Represents(datas.cells, head, path, c) && it in path && it in datas.cells
    modifies datas
    ensures datas.Valid() && Rewrote(old(datas.cells), datas.cells, path, now)
    ensures result == if input.error != 0 then input.error else if |input.payload| <= MAX_BINARY_DATA_SIZE then 0 else ERR_INTERNAL
    ensures var riid := old(datas.cells)[it].id;
            Represents(datas.cells, start, now,
                       if result == 0 then c[riid := input.payload] else if created then c - {riid} else c[riid := []])
  {
    var riid := datas.cells[it].id;
    var finished := |input.payload| <= MAX_BINARY_DATA_SIZE;
    var data := if finished then input.payload else input.payload[..MAX_BINARY_DATA_SIZE];
    start, now := head, path;
    datas.SetValue(it, data, head, path, c);
    StoredRewrote(old(datas.cells), datas.cells, path, it);
    result := input.error;
    if result == 0 && !finished {
      result := ERR_INTERNAL;
    }
    if result != 0 {
      ghost var m, d := datas.cells, c[riid := data];
      assert d[riid := []] == c[riid := []] && d - {riid} == c - {riid};
      if created {
        var found;
        start, found, now := datas.Delete(head, riid, path, d);
        ShrunkRewrote(m, datas.cells, path, now);
      } else {
        datas.SetValue(it, [], head, path, d);
        StoredRewrote(m, datas.cells, path, it);
      }
      RewroteAgain(old(datas.cells), m, datas.cells, path, path, now);
    }
  }

  lemma FillOutcome(c: map<nat, Blob>, riid: nat, input: Input, d: map<nat, Blob>, result: int)
    requires d == if riid !in c then c[riid := []] else c
    requires result == if input.error != 0 then input.error else if |input.payload| <= MAX_BINARY_DATA_SIZE then 0 else ERR_INTERNAL
    ensures Applied(c, WriteEntry(riid, input), false)
      == if result == 0 then d[riid := input.payload] else if riid !in c then d - {riid} else d[riid := []]
    ensures riid in c ==> Applied(c, WriteEntry(riid, input), true) == Applied(c, WriteEntry(riid, input), false)
  {
    assert riid !in c ==> d[riid := input.payload] == c[riid := input.payload] && d - {riid} == c;
  }

  /** The RID_DATA branch of resource_write, on the data list of the instance. */
  method WriteData(datas: Heap<Blob>, head: Ptr, riid: nat, input: Input, ghost path: seq<Ptr>, ghost c: map<nat, Blob>)
    returns (start: Ptr, result: int, ghost now: seq<Ptr>)
    requires datas.Valid() && Represents(datas.cells, head, path, c)
    modifies datas
    ensures datas.Valid() && Rewrote(old(datas.cells), datas.cells, path, now)
    ensures Represents(datas.cells, start, now, Applied(c, WriteEntry(riid, input), datas.fails(old(datas.calls))))
    ensures result == OpResult(c, WriteEntry(riid, input), datas.fails(old(datas.calls)))
  {
    var it, created;
    start, it, created, now := ObtainEntry(datas, head, riid, path, c);
    if it == NULL {
      return start, ERR_INTERNAL, now;
    }
    ghost var d, m, mid := if created then c[riid := []] else c, datas.cells, now;
    start, result, now := FillEntry(datas, start, it, created, input, now, d);
    FillOutcome(c, riid, input, d, result);
    RewroteAgain(old(datas.cells), m, datas.cells, path, mid, now);
  }

  /** A write that cannot fail to be read stores its value or finds no room for a new entry. */
  lemma LocalOutcome(content: map<nat, Blob>, riid: nat, value: Blob, outOfMemory: bool)
    requires |value| <= MAX_BINARY_DATA_SIZE
    ensures var op := WriteEntry(riid, Input(0, value));
            && (OpResult(content, op, outOfMemory) == 0 <==> riid in content || !outOfMemory)
            && Applied(content, op, outOfMemory) == if riid in content || !outOfMemory then content[riid := value] else content
  {}

  /** The data list without one entry. */
  method DropData(datas: Heap<Blob>, head: Ptr, riid: nat, ghost path: seq<Ptr>, ghost c: map<nat, Blob>)
    returns (start: Ptr, result: int, ghost now: seq<Ptr>)
    requires datas.Valid() && Represents(datas.cells, head, path, c)
    modifies datas
    ensures datas.Valid() && Rewrote(old(datas.cells), datas.cells, path, now) == true
    ensures Represents(datas.cells, start, now, c - {riid}) == true && result == if riid in c then 0 else ERR_NOT_FOUND
  {
    var found;
    start, found, now := datas.Delete(head, riid, path, c);
    if found { ShrunkRewrote(old(datas.cells), datas.cells, path, now); } else { assert c - {riid} == c; }
    result := if found then 0 else ERR_NOT_FOUND;
  }

  method ApplyToData(datas: Heap<Blob>, head: Ptr, op: EntryOp, ghost path: seq<Ptr>, ghost c: map<nat, Blob>)
    returns (start: Ptr, result: int, ghost now: seq<Ptr>)
    requires datas.Valid() && Represents(datas.cells, head, path, c)
    modifies datas
    ensures datas.Valid() && Rewrote(old(datas.cells), datas.cells, path, now)
    ensures Represents(datas.cells, start, now, Applied(c, op, datas.fails(old(datas.calls))))
    ensures result == OpResult(c, op, datas.fails(old(datas.calls)))
  {
    match op
    case WriteEntry(riid, input) =>
      start, result, now := WriteData(datas, head, riid, input, path, c);
    case DropEntry(riid) =>
      start, result, now := DropData(datas, head, riid, path, c);
    case Wipe =>
      datas.Clear(head, path);
      start, result, now := NULL, 0, [];
  }

  // ---------------------------------------------------------------- both levels

  /** Instance identifier to Resource Instance identifier to bytes. */
  type Contents = map<nat, map<nat, Blob>>

  /** The contents with one entry set. */
  ghost function WithEntry(view: Contents, iid: nat, riid: nat, data: Blob): Contents
    requires iid in view
  {
    var entries: map<nat, Blob> := view[iid];
    view[iid := entries[riid := data]]
  }

  /** Where one two-level structure lies in memory, and what it holds. */
  datatype Side = Side(
    path: seq<Ptr>,                // the instance cells
    heads: map<nat, Ptr>,          // by instance identifier: head of its data list
    paths: map<nat, seq<Ptr>>,     // by instance identifier: the cells of its data list
    owner: map<Ptr, nat>,          // by data cell: the one instance it belongs to
    view: Contents)

  const NO_SIDE: Side := Side([], map[], map[], map[], map[])

  ghost predicate Owned(s: Side) {
    && (forall id, p :: id in s.paths && p in s.paths[id] ==> p in s.owner && s.owner[p] == id)
    && (forall p :: p in s.owner ==> s.owner[p] in s.paths && p in s.paths[s.owner[p]])
  }

  /** The data list of one instance is where the structure says, with the contents it says. */
  ghost predicate PartOk(dm: Memory<Blob>, s: Side, id: nat) {
    id in s.heads && id in s.paths && id in s.view && Represents(dm, s.heads[id], s.paths[id], s.view[id])
  }

  ghost predicate SideOk(im: Memory<Ptr>, dm: Memory<Blob>, head: Ptr, s: Side) {
    (&& Represents(im, head, s.path, s.heads)
     && s.heads.Keys == s.paths.Keys == s.view.Keys && Owned(s)
     && (forall id {:trigger PartOk(dm, s, id)} :: id in s.view ==> PartOk(dm, s, id))) == true
  }

  lemma PartUntouched(dm: Memory<Blob>, dm': Memory<Blob>, inside: set<Ptr>, s: Side, id: nat)
    requires PartOk(dm, s, id) && SameOutside(dm, dm', inside)
    requires forall p :: p in s.paths[id] ==> p !in inside
    ensures PartOk(dm', s, id)
  {
    Untouched(dm, dm', inside, s.heads[id], s.paths[id], s.view[id]);
  }

  lemma OtherPart(dm: Memory<Blob>, dm': Memory<Blob>, inside: set<Ptr>, s: Side, id: nat)
    requires PartOk(dm, s, id) && SameOutside(dm, dm', inside) && Owned(s)
    requires forall p :: p in s.owner && s.owner[p] == id ==> p !in inside
    ensures PartOk(dm', s, id)
  {
    forall p | p in s.paths[id] ensures p !in inside {
      assert s.owner[p] == id;
    }
    PartUntouched(dm, dm', inside, s, id);
  }

  lemma SideUntouched(im: Memory<Ptr>, im': Memory<Ptr>, dm: Memory<Blob>, dm': Memory<Blob>,
                      insideI: set<Ptr>, insideD: set<Ptr>, head: Ptr, s: Side)
    requires SideOk(im, dm, head, s) && SameOutside(im, im', insideI) && SameOutside(dm, dm', insideD)
    requires Elements(s.path) !! insideI && s.owner.Keys !! insideD
    ensures SideOk(im', dm', head, s)
  {
    assert forall i :: 0 <= i < |s.path| ==> s.path[i] in Elements(s.path);
    Untouched(im, im', insideI, head, s.path, s.heads);
    forall id | id in s.view ensures PartOk(dm', s, id) {
      assert PartOk(dm, s, id);
      PartUntouched(dm, dm', insideD, s, id);
    }
  }

  /** The structure after one data list has moved to other cells and contents. */
  ghost function Rewired(s: Side, id: nat, h: Ptr, path: seq<Ptr>, content: map<nat, Blob>): Side
    requires id in s.paths
  {
    Side(s.path, s.heads[id := h], s.paths[id := path],
         (s.owner - Elements(s.paths[id])) + OwnedBy(path, id),
         s.view[id := content])
  }

  lemma RewiredOwned(s: Side, id: nat, h: Ptr, path: seq<Ptr>, content: map<nat, Blob>)
    requires id in s.paths && Owned(s)
    requires forall p :: p in path ==> p in s.paths[id] || p !in s.owner
    ensures Owned(Rewired(s, id, h, path, content))
  {
    var r := Rewired(s, id, h, path, content);
    forall k, p | k in r.paths && p in r.paths[k] ensures p in r.owner && r.owner[p] == k {
      if k == id {
        assert p in Elements(path);
      } else {
        assert s.owner[p] == k;
        assert p !in Elements(s.paths[id]);
      }
    }
    forall p | p in r.owner ensures r.owner[p] in r.paths && p in r.paths[r.owner[p]] {}
  }

  lemma PartRewired(im: Memory<Ptr>, im': Memory<Ptr>, dm: Memory<Blob>, dm': Memory<Blob>,
                    head: Ptr, s: Side, id: nat, h: Ptr, path: seq<Ptr>, content: map<nat, Blob>)
    requires SideOk(im, dm, head, s) && id in s.view && Rewrote(dm, dm', s.paths[id], path)
    requires s.owner.Keys <= dm.Keys
    requires Represents(im', head, s.path, s.heads[id := h]) && Represents(dm', h, path, content)
    ensures SideOk(im', dm', head, Rewired(s, id, h, path, content))
  {
    RewiredOwned(s, id, h, path, content);
    var r, inside := Rewired(s, id, h, path, content), Elements(s.paths[id]) + Elements(path);
    forall k | k in r.view ensures PartOk(dm', r, k) {
      if k != id {
        assert PartOk(dm, s, k);
        OtherPart(dm, dm', inside, s, k);
        assert PartOk(dm', s, k);
      }
    }
  }

  /** The structure with one more instance. */
  ghost function Added(s: Side, path: seq<Ptr>, id: nat, h: Ptr, data: seq<Ptr>, content: map<nat, Blob>): Side {
    Side(path, s.heads[id := h], s.paths[id := data],
         s.owner + OwnedBy(data, id),
         s.view[id := content])
  }

  lemma AddedOwned(s: Side, path: seq<Ptr>, id: nat, h: Ptr, data: seq<Ptr>, content: map<nat, Blob>)
    requires Owned(s) && id !in s.paths && Elements(data) !! s.owner.Keys
    ensures Owned(Added(s, path, id, h, data, content))
  {
    var r := Added(s, path, id, h, data, content);
    forall k, p | k in r.paths && p in r.paths[k] ensures p in r.owner && r.owner[p] == k {
      if k == id {
        assert p in Elements(data);
      } else {
        assert s.owner[p] == k;
      }
    }
  }

  lemma PartAdded(im': Memory<Ptr>, dm: Memory<Blob>, dm': Memory<Blob>,
                  head': Ptr, s: Side, path: seq<Ptr>, id: nat, h: Ptr, data: seq<Ptr>, content: map<nat, Blob>)
    requires s.heads.Keys == s.paths.Keys == s.view.Keys && Owned(s) && id !in s.view
    requires forall k {:trigger PartOk(dm, s, k)} :: k in s.view ==> PartOk(dm, s, k)
    requires Represents(im', head', path, s.heads[id := h]) && Represents(dm', h, data, content)
    requires SameOutside(dm, dm', Elements(data)) && Elements(data) !! s.owner.Keys
    ensures SideOk(im', dm', head', Added(s, path, id, h, data, content))
  {
    AddedOwned(s, path, id, h, data, content);
    var r := Added(s, path, id, h, data, content);
    forall k | k in r.view ensures PartOk(dm', r, k) {
      if k != id {
        assert PartOk(dm, s, k);
        OtherPart(dm, dm', Elements(data), s, k);
        assert PartOk(dm', s, k);
      }
    }
  }

  /** The structure with one instance less. */
  ghost function Removed(s: Side, path: seq<Ptr>, id: nat): Side
    requires id in s.paths
  {
    Side(path, s.heads - {id}, s.paths - {id}, s.owner - Elements(s.paths[id]), s.view - {id})
  }

  lemma RemovedOwned(s: Side, path: seq<Ptr>, id: nat)
    requires Owned(s) && id in s.paths
    ensures Owned(Removed(s, path, id))
  {
    var r := Removed(s, path, id);
    forall k, p | k in r.paths && p in r.paths[k] ensures p in r.owner && r.owner[p] == k {
      assert s.owner[p] == k;
    }
  }

  lemma PartRemoved(im': Memory<Ptr>, dm: Memory<Blob>, dm': Memory<Blob>, head': Ptr, s: Side, path: seq<Ptr>, id: nat)
    requires s.heads.Keys == s.paths.Keys == s.view.Keys && Owned(s) && id in s.view
    requires forall k {:trigger PartOk(dm, s, k)} :: k in s.view ==> PartOk(dm, s, k)
    requires Represents(im', head', path, s.heads - {id}) && SameOutside(dm, dm', Elements(s.paths[id]))
    ensures SideOk(im', dm', head', Removed(s, path, id))
  {
    RemovedOwned(s, path, id);
    var r := Removed(s, path, id);
    forall k | k in r.view ensures PartOk(dm', r, k) {
      assert PartOk(dm, s, k);
      OtherPart(dm, dm', Elements(s.paths[id]), s, k);
      assert PartOk(dm', s, k);
    }
  }

  /** Live and saved structure share no cell, and every allocated cell belongs to one of them. */
  ghost predicate Accounts(instCells: set<Ptr>, dataCells: set<Ptr>, live: Side, backup: Side) {
    && Elements(live.path) !! Elements(backup.path) && live.owner.Keys !! backup.owner.Keys
    && instCells == Elements(live.path) + Elements(backup.path)
    && dataCells == live.owner.Keys + backup.owner.Keys
  }

  ghost predicate StateOk(im: Memory<Ptr>, dm: Memory<Blob>, instances: Ptr, saved: Ptr, live: Side, backup: Side) {
    SideOk(im, dm, instances, live) && SideOk(im, dm, saved, backup) && Accounts(im.Keys, dm.Keys, live, backup) == true
  }

  /** Changes that stay within the live structure's cells and newly allocated ones leave the saved structure alone. */
  lemma BackupKept(im: Memory<Ptr>, im': Memory<Ptr>, dm: Memory<Blob>, dm': Memory<Blob>, saved: Ptr, live: Side, backup: Side,
                   insideI: set<Ptr>, insideD: set<Ptr>)
    requires SideOk(im, dm, saved, backup) && Accounts(im.Keys, dm.Keys, live, backup)
    requires SameOutside(im, im', insideI) && SameOutside(dm, dm', insideD)
    requires insideI * im.Keys <= Elements(live.path) && insideD * dm.Keys <= live.owner.Keys
    ensures SideOk(im', dm', saved, backup)
  {
    assert Elements(backup.path) !! insideI;
    assert backup.owner.Keys !! insideD;
    SideUntouched(im, im', dm, dm', insideI, insideD, saved, backup);
  }

  /** An instance without data has been linked into the live list. */
  lemma CreateKeeps(im: Memory<Ptr>, im': Memory<Ptr>, dm: Memory<Blob>, instances: Ptr, saved: Ptr, live: Side, backup: Side,
                    start: Ptr, p: Ptr, path: seq<Ptr>, iid: nat)
    requires StateOk(im, dm, instances, saved, live, backup) && iid !in live.view
    requires Grown(im, im', live.path, path, {p}) && Represents(im', start, path, live.heads[iid := NULL])
    ensures StateOk(im', dm, start, saved, Added(live, path, iid, NULL, [], map[]), backup)
  {
    PartAdded(im', dm, dm, start, live, path, iid, NULL, [], map[]);
    BackupKept(im, im', dm, dm, saved, live, backup, Elements(path), {});
    CreateAccounts(im.Keys, im'.Keys, dm.Keys, live, backup, path, iid, p);
  }

  lemma CreateAccounts(ik: set<Ptr>, ik': set<Ptr>, dk: set<Ptr>, live: Side, backup: Side, path: seq<Ptr>, iid: nat, p: Ptr)
    requires Accounts(ik, dk, live, backup) && p !in ik && ik' == ik + {p} && Elements(path) == Elements(live.path) + {p}
    ensures Accounts(ik', dk, Added(live, path, iid, NULL, [], map[]), backup)
  {
    assert Added(live, path, iid, NULL, [], map[]).owner.Keys == live.owner.Keys;
  }

  lemma OwnCells(s: Side, id: nat)
    requires Owned(s) && id in s.paths
    ensures Elements(s.paths[id]) <= s.owner.Keys
  {}

  /** An instance has been taken out of the live list, together with its data. */
  lemma RemoveKeeps(im: Memory<Ptr>, im': Memory<Ptr>, dm: Memory<Blob>, instances: Ptr, saved: Ptr, live: Side, backup: Side,
                    start: Ptr, path: seq<Ptr>, iid: nat)
    requires StateOk(im, dm, instances, saved, live, backup) && iid in live.view
    requires Shrunk(im, im', live.path, path) && Represents(im', start, path, live.heads - {iid})
    ensures StateOk(im', dm - Elements(live.paths[iid]), start, saved, Removed(live, path, iid), backup)
  {
    var gone := Elements(live.paths[iid]);
    OwnCells(live, iid);
    PartRemoved(im', dm, dm - gone, start, live, path, iid);
    BackupKept(im, im', dm, dm - gone, saved, live, backup, Elements(live.path), gone);
    RemoveAccounts(im.Keys, im'.Keys, dm.Keys, live, backup, path, iid);
  }

  lemma RemoveAccounts(ik: set<Ptr>, ik': set<Ptr>, dk: set<Ptr>, live: Side, backup: Side, path: seq<Ptr>, iid: nat)
    requires Accounts(ik, dk, live, backup) && iid in live.paths && Elements(live.paths[iid]) <= live.owner.Keys
    requires Elements(path) <= Elements(live.path) && ik' == ik - (Elements(live.path) - Elements(path))
    ensures Accounts(ik', dk - Elements(live.paths[iid]), Removed(live, path, iid), backup)
  {
    assert Removed(live, path, iid).owner.Keys == live.owner.Keys - Elements(live.paths[iid]);
  }

  /** The data list of one live instance has been rewritten. */
  lemma ChangeKeeps(im: Memory<Ptr>, im': Memory<Ptr>, dm: Memory<Blob>, dm': Memory<Blob>, instances: Ptr, saved: Ptr,
                    live: Side, backup: Side, p: Ptr, iid: nat, h: Ptr, path: seq<Ptr>, content: map<nat, Blob>)
    requires StateOk(im, dm, instances, saved, live, backup) && iid in live.view
    requires p in live.path && p in im && im' == im[p := im[p].(value := h)]
    requires Represents(im', instances, live.path, live.heads[iid := h])
    requires Rewrote(dm, dm', live.paths[iid], path) && Represents(dm', h, path, content)
    ensures StateOk(im', dm', instances, saved, Rewired(live, iid, h, path, content), backup)
  {
    OwnCells(live, iid);
    PartRewired(im, im', dm, dm', instances, live, iid, h, path, content);
    ChangeBackup(im, im', dm, dm', saved, live, backup, p, iid, h, path);
    FreshOrOwn(dm.Keys, live.paths[iid], path);
    ChangeAccounts(im.Keys, dm.Keys, dm'.Keys, live, backup, iid, h, path, content);
  }

  lemma ChangeBackup(im: Memory<Ptr>, im': Memory<Ptr>, dm: Memory<Blob>, dm': Memory<Blob>, saved: Ptr,
                     live: Side, backup: Side, p: Ptr, iid: nat, h: Ptr, path: seq<Ptr>)
    requires SideOk(im, dm, saved, backup) && Accounts(im.Keys, dm.Keys, live, backup)
    requires iid in live.paths && Elements(live.paths[iid]) <= live.owner.Keys
    requires p in live.path && p in im && im' == im[p := im[p].(value := h)] && Rewrote(dm, dm', live.paths[iid], path)
    ensures SideOk(im', dm', saved, backup) == true
  {
    FreshOrOwn(dm.Keys, live.paths[iid], path);
    BackupKept(im, im', dm, dm', saved, live, backup, Elements(live.path), Elements(live.paths[iid]) + Elements(path));
  }

  lemma FreshOrOwn(keys: set<Ptr>, a: seq<Ptr>, b: seq<Ptr>)
    requires forall p :: p in b ==> p in a || p !in keys
    ensures Elements(b) * keys <= Elements(a)
  {}

  lemma ChangeAccounts(ik: set<Ptr>, dk: set<Ptr>, dk': set<Ptr>, live: Side, backup: Side,
                       iid: nat, h: Ptr, path: seq<Ptr>, content: map<nat, Blob>)
    requires Accounts(ik, dk, live, backup) && iid in live.paths && Elements(live.paths[iid]) <= live.owner.Keys
    requires dk' == (dk - Elements(live.paths[iid])) + Elements(path) && Elements(path) * dk <= Elements(live.paths[iid])
    ensures Accounts(ik, dk', Rewired(live, iid, h, path, content), backup)
  {
    assert Rewired(live, iid, h, path, content).owner.Keys == (live.owner.Keys - Elements(live.paths[iid])) + Elements(path);
  }

  // ---------------------------------------------------------------- releasing a structure

  /** The data cells of the instances in front of position k. */
  ghost function FreedBefore(im: Memory<Ptr>, s: Side, k: nat): set<Ptr>
    requires forall i :: 0 <= i < |s.path| ==> s.path[i] in im
  {
    set q | q in s.owner && (k < |s.path| ==> s.owner[q] < im[s.path[k]].id)
  }

  lemma FreedNone(im: Memory<Ptr>, dm: Memory<Blob>, head: Ptr, s: Side)
    requires SideOk(im, dm, head, s)
    ensures FreedBefore(im, s, 0) == {}
  {
    forall q | q in s.owner ensures q !in FreedBefore(im, s, 0) {
      assert Occurs(im, s.path, s.owner[q]);
    }
  }

  lemma FreedNext(im: Memory<Ptr>, dm: Memory<Blob>, head: Ptr, s: Side, k: nat)
    requires SideOk(im, dm, head, s) && k < |s.path|
    ensures im[s.path[k]].id in s.paths && im[s.path[k]].value == s.heads[im[s.path[k]].id]
    ensures FreedBefore(im, s, k + 1) == FreedBefore(im, s, k) + Elements(s.paths[im[s.path[k]].id])
  {
    var id := im[s.path[k]].id;
    assert id in s.heads;
    forall q | q in s.owner
      ensures q in FreedBefore(im, s, k + 1) <==> s.owner[q] < id || s.owner[q] == id
      ensures q in s.paths[id] <==> s.owner[q] == id
    {
      assert Occurs(im, s.path, s.owner[q]);
      var i :| 0 <= i < |s.path| && im[s.path[i]].id == s.owner[q];
    }
    OwnCells(s, id);
  }

  /** The data list of instance k is still whole when only those in front of it have been freed. */
  lemma StillThere(im: Memory<Ptr>, dm: Memory<Blob>, head: Ptr, s: Side, k: nat)
    requires SideOk(im, dm, head, s) && k < |s.path| && im[s.path[k]].id in s.paths
    ensures PartOk(dm - FreedBefore(im, s, k), s, im[s.path[k]].id)
  {
    var id := im[s.path[k]].id;
    assert PartOk(dm, s, id);
    OtherPart(dm, dm - FreedBefore(im, s, k), FreedBefore(im, s, k), s, id);
  }

  /** The memory with everything in front of position k of a structure freed. */
  ghost predicate ReleasedUpto(im: Memory<Ptr>, dm: Memory<Blob>, s: Side, k: nat, im': Memory<Ptr>, dm': Memory<Blob>)
    requires k <= |s.path| && forall i :: 0 <= i < |s.path| ==> s.path[i] in im
  {
    im' == im - Elements(s.path[..k]) && dm' == dm - FreedBefore(im, s, k)
  }

  method ReleaseOne(insts: Heap<Ptr>, datas: Heap<Blob>, p: Ptr, ghost im: Memory<Ptr>, ghost dm: Memory<Blob>,
                    ghost head: Ptr, ghost s: Side, ghost k: nat)
    returns (next: Ptr)
    requires insts.Valid() && datas.Valid() && SideOk(im, dm, head, s) && k < |s.path| && p == s.path[k]
    requires ReleasedUpto(im, dm, s, k, insts.cells, datas.cells)
    modifies insts, datas
    ensures insts.Valid() && datas.Valid() && next == First(s.path[k + 1..])
    ensures ReleasedUpto(im, dm, s, k + 1, insts.cells, datas.cells) == true
  {
    DistinctPath(im, s.path, k);
    FreedNext(im, dm, head, s, k);
    StillThere(im, dm, head, s, k);
    next := insts.cells[p].next;
    datas.Clear(insts.cells[p].value, s.paths[im[s.path[k]].id]);
    insts.Free(p);
    ReleasedNext(im, dm, s, k, insts.cells, datas.cells);
  }

  lemma ReleasedNext(im: Memory<Ptr>, dm: Memory<Blob>, s: Side, k: nat, im': Memory<Ptr>, dm': Memory<Blob>)
    requires k < |s.path| && (forall i :: 0 <= i < |s.path| ==> s.path[i] in im) && im[s.path[k]].id in s.paths
    requires FreedBefore(im, s, k + 1) == FreedBefore(im, s, k) + Elements(s.paths[im[s.path[k]].id])
    requires im' == im - Elements(s.path[..k]) - {s.path[k]}
    requires dm' == dm - FreedBefore(im, s, k) - Elements(s.paths[im[s.path[k]].id])
    ensures ReleasedUpto(im, dm, s, k + 1, im', dm') == true
  {
    assert s.path[..k + 1] == s.path[..k] + [s.path[k]];
  }

  /** AVS_LIST_CLEAR of the instances with a nested AVS_LIST_CLEAR of each data list: every cell is freed, once. */
  method ReleaseAll(insts: Heap<Ptr>, datas: Heap<Blob>, head: Ptr, ghost s: Side)
    requires insts.Valid() && datas.Valid() && SideOk(insts.cells, datas.cells, head, s)
    modifies insts, datas
    ensures insts.Valid() && datas.Valid()
    ensures insts.cells == old(insts.cells) - Elements(s.path) && datas.cells == old(datas.cells) - s.owner.Keys
  {
    ghost var im, dm, k := insts.cells, datas.cells, 0;
    var p := head;
    FreedNone(im, dm, head, s);
    while p != NULL
      invariant insts.Valid() && datas.Valid() && 0 <= k <= |s.path| && p == First(s.path[k..])
      invariant ReleasedUpto(im, dm, s, k, insts.cells, datas.cells)
      decreases |s.path| - k
    {
      p := ReleaseOne(insts, datas, p, im, dm, head, s, k);
      k := k + 1;
    }
    assert s.path[..k] == s.path;
    assert FreedBefore(im, s, k) == s.owner.Keys;
  }

  lemma NoSideOk(im: Memory<Ptr>, dm: Memory<Blob>)
    ensures SideOk(im, dm, NULL, NO_SIDE)
  {}

  lemma NothingThere(im: Memory<Ptr>, dm: Memory<Blob>, s: Side)
    requires SideOk(im, dm, NULL, s)
    ensures s.view == map[]
  {
    forall id ensures id !in s.view {
      assert !Occurs(im, s.path, id);
    }
  }

  lemma ReleaseAccounts(ik: set<Ptr>, dk: set<Ptr>, live: Side, backup: Side)
    requires Accounts(ik, dk, live, backup)
    ensures Accounts(ik - Elements(live.path), dk - live.owner.Keys, backup, NO_SIDE)
  {}

  /** One structure has been released; the other is all that remains. */
  lemma ReleaseKeeps(im: Memory<Ptr>, dm: Memory<Blob>, instances: Ptr, saved: Ptr, live: Side, backup: Side)
    requires StateOk(im, dm, instances, saved, live, backup)
    ensures StateOk(im - Elements(live.path), dm - live.owner.Keys, saved, NULL, backup, NO_SIDE)
  {
    var im', dm' := im - Elements(live.path), dm - live.owner.Keys;
    BackupKept(im, im', dm, dm', saved, live, backup, Elements(live.path), live.owner.Keys);
    NoSideOk(im', dm');
    ReleaseAccounts(im.Keys, dm.Keys, live, backup);
    assert im'.Keys == im.Keys - Elements(live.path) && dm'.Keys == dm.Keys - live.owner.Keys;
  }

  lemma Swapped(im: Memory<Ptr>, dm: Memory<Blob>, instances: Ptr, saved: Ptr, live: Side, backup: Side)
    requires StateOk(im, dm, instances, saved, live, backup)
    ensures StateOk(im, dm, saved, instances, backup, live)
  {}

  /** The cells of a list are the same in both memories. */
  ghost predicate SameCells<T>(m: Memory<T>, n: Memory<T>, path: seq<Ptr>) {
    forall i :: 0 <= i < |path| ==> path[i] in m && path[i] in n && n[path[i]] == m[path[i]]
  }

  lemma SameAsBefore(im: Memory<Ptr>, dm: Memory<Blob>, head: Ptr, s: Side)
    requires SideOk(im, dm, head, s)
    ensures SameCells(im, im, s.path)
  {}

  lemma SameCellsThrough<T>(m: Memory<T>, n: Memory<T>, o: Memory<T>, path: seq<Ptr>)
    requires SameCells(m, n, path) && SameCells(n, o, path)
    ensures SameCells(m, o, path)
  {}

  /** Changes within the cells of one structure do not reach the other one. */
  lemma LiveCellsKept(im: Memory<Ptr>, im': Memory<Ptr>, dk: set<Ptr>, live: Side, backup: Side, inside: set<Ptr>)
    requires Accounts(im.Keys, dk, live, backup) && SameOutside(im, im', inside)
    requires inside * im.Keys <= Elements(backup.path)
    ensures SameCells(im, im', live.path)
  {
    forall i | 0 <= i < |live.path| ensures live.path[i] in im && live.path[i] in im' && im'[live.path[i]] == im[live.path[i]] {
      assert live.path[i] in Elements(live.path);
    }
  }

  /** The same two steps on the saved side. */
  lemma SavedCreateKeeps(im: Memory<Ptr>, im': Memory<Ptr>, dm: Memory<Blob>, instances: Ptr, saved: Ptr, live: Side, backup: Side,
                         start: Ptr, p: Ptr, path: seq<Ptr>, iid: nat)
    requires StateOk(im, dm, instances, saved, live, backup) && iid !in backup.view
    requires Grown(im, im', backup.path, path, {p}) && Represents(im', start, path, backup.heads[iid := NULL])
    ensures StateOk(im', dm, instances, start, live, Added(backup, path, iid, NULL, [], map[]))
    ensures SameCells(im, im', live.path)
  {
    LiveCellsKept(im, im', dm.Keys, live, backup, Elements(path));
    Swapped(im, dm, instances, saved, live, backup);
    CreateKeeps(im, im', dm, saved, instances, backup, live, start, p, path, iid);
    Swapped(im', dm, start, instances, Added(backup, path, iid, NULL, [], map[]), live);
  }

  lemma SavedChangeKeeps(im: Memory<Ptr>, im': Memory<Ptr>, dm: Memory<Blob>, dm': Memory<Blob>, instances: Ptr, saved: Ptr,
                         live: Side, backup: Side, p: Ptr, iid: nat, h: Ptr, path: seq<Ptr>, content: map<nat, Blob>)
    requires StateOk(im, dm, instances, saved, live, backup) && iid in backup.view
    requires p in backup.path && p in im && im' == im[p := im[p].(value := h)]
    requires Represents(im', saved, backup.path, backup.heads[iid := h])
    requires Rewrote(dm, dm', backup.paths[iid], path) && Represents(dm', h, path, content)
    ensures StateOk(im', dm', instances, saved, live, Rewired(backup, iid, h, path, content))
    ensures SameCells(im, im', live.path)
  {
    LiveCellsKept(im, im', dm.Keys, live, backup, Elements(backup.path));
    Swapped(im, dm, instances, saved, live, backup);
    ChangeKeeps(im, im', dm, dm', saved, instances, backup, live, p, iid, h, path, content);
    Swapped(im', dm', saved, instances, Rewired(backup, iid, h, path, content), live);
  }

  /** An empty saved instance has got a copy of the live one's data list. */
  lemma SavedFillKeeps(im: Memory<Ptr>, im': Memory<Ptr>, dm: Memory<Blob>, dm': Memory<Blob>, instances: Ptr, saved: Ptr,
                       live: Side, backup: Side, p: Ptr, iid: nat, h: Ptr, copy: seq<Ptr>) returns (now: Side)
    requires StateOk(im, dm, instances, saved, live, backup) == true && iid in live.view
    requires iid in backup.view && iid in backup.paths && backup.paths[iid] == []
    requires p in backup.path && p in im && im' == im[p := im[p].(value := h)]
    requires Represents(im', saved, backup.path, backup.heads[iid := h]) == true
    requires Grown(dm, dm', [], copy, Elements(copy)) == true && Represents(dm', h, copy, live.view[iid]) == true
    ensures StateOk(im', dm', instances, saved, live, now) == true && SameCells(im, im', live.path) == true
    ensures now.path == backup.path && now.view == backup.view[iid := live.view[iid]]
  {
    CloneRewrote(dm, dm', copy);
    SavedChangeKeeps(im, im', dm, dm', instances, saved, live, backup, p, iid, h, copy, live.view[iid]);
    now := Rewired(backup, iid, h, copy, live.view[iid]);
  }

  lemma Overwritten(v: Contents, id: nat, a: map<nat, Blob>, b: map<nat, Blob>)
    ensures v[id := a][id := b] == v[id := b]
  {}

  /** The contents of the instances in front of position k. */
  ghost function ViewUpto(im: Memory<Ptr>, s: Side, k: nat): Contents
    requires forall i :: 0 <= i < |s.path| ==> s.path[i] in im
  {
    s.view - (set id | id in s.view && k < |s.path| && id >= im[s.path[k]].id)
  }

  lemma ViewUptoNone(im: Memory<Ptr>, dm: Memory<Blob>, head: Ptr, s: Side)
    requires SideOk(im, dm, head, s)
    ensures ViewUpto(im, s, 0) == map[]
  {
    forall id | id in s.view ensures id !in ViewUpto(im, s, 0) {
      assert Occurs(im, s.path, id);
    }
  }

  lemma ViewUptoNext(im: Memory<Ptr>, dm: Memory<Blob>, head: Ptr, s: Side, k: nat)
    requires SideOk(im, dm, head, s) && k < |s.path|
    ensures im[s.path[k]].id in s.view && im[s.path[k]].id in s.heads && im[s.path[k]].value == s.heads[im[s.path[k]].id]
    ensures forall x :: x in ViewUpto(im, s, k) ==> x < im[s.path[k]].id
    ensures ViewUpto(im, s, k + 1) == ViewUpto(im, s, k)[im[s.path[k]].id := s.view[im[s.path[k]].id]]
  {
    var n := im[s.path[k]].id;
    assert n in s.heads;
    forall id | id in s.view ensures id in ViewUpto(im, s, k + 1) <==> id < n || id == n {
      assert Occurs(im, s.path, id);
      var i :| 0 <= i < |s.path| && im[s.path[i]].id == id;
    }
  }

  /** The copy of the instances in front of position k is complete; the live ones are as at the start. */
  ghost predicate Copying(im: Memory<Ptr>, cells: Memory<Ptr>, live: Side, backup: Side, k: nat, it: Ptr, tail: Ptr) {
    && SameCells(im, cells, live.path) && k <= |live.path| && it == First(live.path[k..])
    && backup.view == ViewUpto(im, live, k) && tail == Last(backup.path)
  }

  lemma CopyStarts(im: Memory<Ptr>, dm: Memory<Blob>, head: Ptr, live: Side)
    requires SideOk(im, dm, head, live)
    ensures Copying(im, im, live, NO_SIDE, 0, head, NULL) == true
  {
    ViewUptoNone(im, dm, head, live);
  }

  /** What the next instance to copy is. */
  lemma CopyReady(im: Memory<Ptr>, dm: Memory<Blob>, head: Ptr, cells: Memory<Ptr>, live: Side, backup: Side, k: nat, it: Ptr, tail: Ptr)
    requires SideOk(im, dm, head, live) && Copying(im, cells, live, backup, k, it, tail) == true && it != NULL
    ensures k < |live.path| && it in cells && cells[it].id in live.view && cells[it].id in live.heads
    ensures cells[it].value == live.heads[cells[it].id] && tail == Last(backup.path)
    ensures forall x :: x in backup.view ==> x < cells[it].id
  {
    ViewUptoNext(im, dm, head, live, k);
  }

  lemma CopyNext(im: Memory<Ptr>, dm: Memory<Blob>, head: Ptr, cells: Memory<Ptr>, cells': Memory<Ptr>,
                 live: Side, backup: Side, backup': Side, k: nat, it: Ptr, tail: Ptr, p: Ptr)
    requires SideOk(im, dm, head, live) && Copying(im, cells, live, backup, k, it, tail) == true && it != NULL && it in cells
    requires SameCells(cells, cells', live.path) == true && cells[it].id in live.view && p == Last(backup'.path)
    requires backup'.view == backup.view[cells[it].id := live.view[cells[it].id]]
    ensures Copying(im, cells', live, backup', k + 1, cells[it].next, p) == true
  {
    ViewUptoNext(im, dm, head, live, k);
    SameCellsThrough(im, cells, cells', live.path);
  }

  lemma CopyEnds(im: Memory<Ptr>, dm: Memory<Blob>, head: Ptr, cells: Memory<Ptr>, live: Side, backup: Side, k: nat, tail: Ptr)
    requires SideOk(im, dm, head, live) && Copying(im, cells, live, backup, k, NULL, tail) == true
    ensures backup.view == live.view
  {
    assert k == |live.path|;
    assert ViewUpto(im, live, k) == live.view;
  }

  class Container {
    const insts: Heap<Ptr>
    const datas: Heap<Blob>
    var instances: Ptr
    var saved: Ptr
    ghost var live: Side
    ghost var backup: Side

    ghost predicate Valid()
      reads this, insts, datas
    {
      insts.Valid() && datas.Valid() && StateOk(insts.cells, datas.cells, instances, saved, live, backup) == true
    }

    constructor (instFails: nat -> bool, dataFails: nat -> bool)
      ensures Valid() && live == NO_SIDE && backup == NO_SIDE && fresh(insts) && fresh(datas)
    {
      insts := new Heap(instFails);
      datas := new Heap(dataFails);
      instances, saved, live, backup := NULL, NULL, NO_SIDE, NO_SIDE;
    }

    method CreateCells(iid: nat) returns (ok: bool, start: Ptr, ghost now: Side)
      requires Valid() && iid !in live.view
      modifies insts
      ensures insts.Valid() && ok == !insts.fails(old(insts.calls))
      ensures StateOk(insts.cells, datas.cells, start, saved, now, backup) == true
      ensures now.view == if ok then live.view[iid := map[]] else live.view
    {
      var p;
      ghost var path;
      start, p, path := insts.Insert(instances, iid, NULL, live.path, live.heads);
      ok, now := p != NULL, live;
      if ok {
        CreateKeeps(old(insts.cells), insts.cells, datas.cells, instances, saved, live, backup, start, p, path, iid);
        now := Added(live, path, iid, NULL, [], map[]);
      }
    }

    /** instance_create: the caller guarantees that the identifier is free. */
    method Create(iid: nat) returns (result: int)
      requires Valid() && iid !in live.view
      modifies this`instances, this`live, insts
      ensures Valid()
      ensures result == if insts.fails(old(insts.calls)) then ERR_INTERNAL else 0
      ensures live.view == if result == 0 then old(live.view)[iid := map[]] else old(live.view)
    {
      var ok, start;
      ghost var now;
      ok, start, now := CreateCells(iid);
      instances, live := start, now;
      result := if ok then 0 else ERR_INTERNAL;
    }

    /** find_instance: the instance's cell and, through it, its data list. */
    method Locate(iid: nat) returns (it: Ptr)
      requires Valid() && iid in live.view
      ensures it in live.path && it in insts.cells && insts.cells[it].id == iid
      ensures PartOk(datas.cells, live, iid) && insts.cells[it].value == live.heads[iid]
      ensures Represents(insts.cells, instances, live.path, live.heads)
    {
      assert PartOk(datas.cells, live, iid);
      it := insts.Find(instances, iid, live.path, live.heads);
    }

    method RemoveCells(iid: nat) returns (start: Ptr, found: bool, ghost now: Side)
      requires Valid() && iid in live.view
      modifies insts, datas
      ensures insts.Valid() && datas.Valid() && found
      ensures StateOk(insts.cells, datas.cells, start, saved, now, backup) == true && now.view == live.view - {iid}
    {
      var it := Locate(iid);
      datas.Clear(insts.cells[it].value, live.paths[iid]);
      ghost var path;
      start, found, path := insts.Delete(instances, iid, live.path, live.heads);
      RemoveKeeps(old(insts.cells), insts.cells, old(datas.cells), instances, saved, live, backup, start, path, iid);
      now := Removed(live, path, iid);
    }

    /** instance_remove: the caller guarantees that the instance exists. */
    method Remove(iid: nat) returns (result: int)
      requires Valid() && iid in live.view
      modifies this`instances, this`live, insts, datas
      ensures Valid()
      ensures live.view == old(live.view) - {iid} && result == 0
    {
      var start, found;
      ghost var now;
      start, found, now := RemoveCells(iid);
      instances, live := start, now;
      result := if found then 0 else ERR_NOT_FOUND;
    }

    method ChangeCells(iid: nat, op: EntryOp) returns (result: int, ghost now: Side)
      requires Valid() && iid in live.view
      modifies insts, datas
      ensures insts.Valid() && datas.Valid()
      ensures StateOk(insts.cells, datas.cells, instances, saved, now, backup) == true
      ensures now.view == live.view[iid := Applied(live.view[iid], op, datas.fails(old(datas.calls)))]
      ensures result == OpResult(live.view[iid], op, datas.fails(old(datas.calls)))
    {
      ghost var content, path := Applied(live.view[iid], op, datas.fails(datas.calls)), [];
      var it := Locate(iid);
      var h;
      h, result, path := ApplyToData(datas, insts.cells[it].value, op, live.paths[iid], live.view[iid]);
      insts.SetValue(it, h, instances, live.path, live.heads);
      ChangeKeeps(old(insts.cells), insts.cells, old(datas.cells), datas.cells, instances, saved, live, backup,
                  it, iid, h, path, content);
      now := Rewired(live, iid, h, path, content);
    }

    /** Any operation on the entries of one instance; all other instances keep theirs. */
    method Change(iid: nat, op: EntryOp) returns (result: int)
      requires Valid() && iid in live.view
      modifies this`live, insts, datas
      ensures Valid()
      ensures live.view == old(live.view)[iid := Applied(old(live.view)[iid], op, datas.fails(old(datas.calls)))]
      ensures result == OpResult(old(live.view)[iid], op, datas.fails(old(datas.calls)))
    {
      ghost var now;
      result, now := ChangeCells(iid, op);
      live := now;
    }

    /** resource_write. */
    method Write(iid: nat, rid: nat, riid: nat, input: Input) returns (result: int)
      requires Valid() && iid in live.view
      modifies this`live, insts, datas
      ensures Valid()
      ensures rid != RID_DATA ==> result == ERR_METHOD_NOT_ALLOWED && live.view == old(live.view)
      ensures rid == RID_DATA ==> result == WriteResult(old(live.view)[iid], riid, input, datas.fails(old(datas.calls)))
      ensures rid == RID_DATA && result == 0 ==> live.view == WithEntry(old(live.view), iid, riid, input.payload)
      ensures rid == RID_DATA && result != 0 && riid !in old(live.view)[iid] ==> live.view == old(live.view)
      ensures rid == RID_DATA && result != 0 && riid in old(live.view)[iid] ==> live.view == WithEntry(old(live.view), iid, riid, [])
    {
      if rid == RID_DATA {
        result := Change(iid, WriteEntry(riid, input));
      } else {
        result := ERR_METHOD_NOT_ALLOWED;
      }
    }

    /** resource_reset, and instance_reset with the only resource there is. */
    method Reset(iid: nat, rid: nat) returns (result: int)
      requires Valid() && iid in live.view
      modifies this`live, insts, datas
      ensures Valid() && result == if rid == RID_DATA then 0 else ERR_METHOD_NOT_ALLOWED
      ensures live.view == if rid == RID_DATA then old(live.view)[iid := map[]] else old(live.view)
    {
      if rid == RID_DATA {
        result := Change(iid, Wipe);
      } else {
        result := ERR_METHOD_NOT_ALLOWED;
      }
    }

    /** resource_instance_remove: the caller guarantees that the Resource Instance exists. */
    method RemoveEntry(iid: nat, rid: nat, riid: nat) returns (result: int)
      requires Valid() && iid in live.view && (rid == RID_DATA ==> riid in live.view[iid])
      modifies this`live, insts, datas
      ensures Valid() && result == if rid == RID_DATA then 0 else ERR_METHOD_NOT_ALLOWED
      ensures live.view == if rid == RID_DATA then old(live.view)[iid := old(live.view)[iid] - {riid}] else old(live.view)
    {
      if rid == RID_DATA {
        result := Change(iid, DropEntry(riid));
      } else {
        result := ERR_METHOD_NOT_ALLOWED;
      }
    }

    /** Whether an instance exists. */
    method Exists(iid: nat) returns (found: bool)
      requires Valid()
      ensures found <==> iid in live.view
    {
      var it := insts.Find(instances, iid, live.path, live.heads);
      found := it != NULL;
    }

    /** Stores a value that fits in an instance that exists. */
    method Put(iid: nat, riid: nat, value: Blob) returns (ok: bool)
      requires Valid() && iid in live.view && |value| <= MAX_BINARY_DATA_SIZE
      modifies this`live, insts, datas
      ensures Valid()
      ensures ok <==> riid in old(live.view)[iid] || !datas.fails(old(datas.calls))
      ensures live.view == if ok then WithEntry(old(live.view), iid, riid, value) else old(live.view)
    {
      LocalOutcome(live.view[iid], riid, value, datas.fails(datas.calls));
      var result := Change(iid, WriteEntry(riid, Input(0, value)));
      ok := result == 0;
    }

    /** binary_app_data_container_write, the demo's own way in. */
    method WriteLocally(iid: nat, riid: nat, value: Blob) returns (result: int)
      requires Valid()
      modifies this`live, insts, datas
      ensures Valid()
      ensures result == 0 ==> iid in old(live.view) && live.view == WithEntry(old(live.view), iid, riid, value)
      ensures result != 0 ==> result == -1 && live.view == old(live.view)
      ensures result == 0 <==> (&& |value| <= MAX_BINARY_DATA_SIZE && iid in old(live.view)
                                && (riid in old(live.view)[iid] || !datas.fails(old(datas.calls))))
    {
      if |value| > MAX_BINARY_DATA_SIZE {
        return -1;
      }
      var found := Exists(iid);
      if !found {
        return -1;
      }
      var ok := Put(iid, riid, value);
      result := if ok then 0 else -1;
    }

    /** resource_read. */
    method Read(iid: nat, rid: nat, riid: nat) returns (result: int, data: Blob)
      requires Valid() && iid in live.view
      ensures rid != RID_DATA ==> result == ERR_METHOD_NOT_ALLOWED
      ensures rid == RID_DATA ==> result == if riid in live.view[iid] then 0 else ERR_NOT_FOUND
      ensures result == 0 ==> riid in live.view[iid] && data == live.view[iid][riid]
    {
      if rid != RID_DATA {
        return ERR_METHOD_NOT_ALLOWED, [];
      }
      var it := Locate(iid);
      var p := datas.FindSlowly(insts.cells[it].value, riid, live.paths[iid], live.view[iid]);
      if p == NULL {
        return ERR_NOT_FOUND, [];
      }
      result, data := 0, datas.cells[p].value;
    }

    /** list_instances. */
    method ListInstances() returns (ids: seq<nat>)
      requires Valid()
      ensures forall i, j :: 0 <= i < j < |ids| ==> ids[i] < ids[j]
      ensures forall id :: id in ids <==> id in live.view
    {
      ids := insts.Ids(instances, live.path, live.heads);
    }

    /** list_resource_instances: in ascending order, exactly the identifiers whose read succeeds. */
    method ListEntries(iid: nat) returns (ids: seq<nat>)
      requires Valid() && iid in live.view
      ensures forall i, j :: 0 <= i < j < |ids| ==> ids[i] < ids[j]
      ensures forall id :: id in ids <==> id in live.view[iid]
    {
      var it := Locate(iid);
      ids := datas.Ids(insts.cells[it].value, live.paths[iid], live.view[iid]);
    }

    // -------------------------------------------------------------- transactions

    /** No transaction is open: nothing is saved. */
    ghost predicate Idle()
      reads this
    {
      backup == NO_SIDE
    }

    method AppendCells(iid: nat, tail: Ptr) returns (start: Ptr, p: Ptr, ghost now: Side)
      requires Valid() && tail == Last(backup.path) && forall x :: x in backup.view ==> x < iid
      modifies insts
      ensures insts.Valid() && StateOk(insts.cells, datas.cells, instances, start, live, now) == true
      ensures SameCells(old(insts.cells), insts.cells, live.path) == true
      ensures p == NULL ==> now == backup && !insts.Plentiful()
      ensures p != NULL ==> now.path == backup.path + [p] && now.view == backup.view[iid := map[]]
      ensures p != NULL ==> iid in now.paths && now.paths[iid] == [] && p in insts.cells && insts.cells[p].id == iid
    {
      assert backup.heads.Keys == backup.view.Keys;
      start, p := insts.Append(saved, tail, iid, NULL, backup.path, backup.heads);
      if p == NULL {
        SameAsBefore(insts.cells, datas.cells, instances, live);
        now := backup;
      } else {
        SavedCreateKeeps(old(insts.cells), insts.cells, datas.cells, instances, saved, live, backup, start, p, backup.path + [p], iid);
        now := Added(backup, backup.path + [p], iid, NULL, [], map[]);
      }
    }

    method AppendSaved(iid: nat, tail: Ptr) returns (p: Ptr)
      requires Valid() && tail == Last(backup.path) && forall x :: x in backup.view ==> x < iid
      modifies this`saved, this`backup, insts
      ensures Valid() && SameCells(old(insts.cells), insts.cells, live.path) == true
      ensures p == NULL ==> !insts.Plentiful()
      ensures p != NULL ==> backup.path == old(backup.path) + [p] && backup.view == old(backup.view)[iid := map[]]
      ensures p != NULL ==> iid in backup.paths && backup.paths[iid] == [] && p in insts.cells && insts.cells[p].id == iid
    {
      var start;
      ghost var now;
      start, p, now := AppendCells(iid, tail);
      saved, backup := start, now;
      assert StateOk(insts.cells, datas.cells, instances, saved, live, backup) == true;
    }

    method FillCells(iid: nat, p: Ptr, head: Ptr) returns (ok: bool, ghost now: Side)
      requires Valid() && iid in live.view && iid in live.heads && head == live.heads[iid]
      requires iid in backup.view && iid in backup.paths && backup.paths[iid] == []
      requires p in backup.path && p in insts.cells && insts.cells[p].id == iid
      modifies insts, datas
      ensures insts.Valid() && datas.Valid() && StateOk(insts.cells, datas.cells, instances, saved, live, now) == true
      ensures SameCells(old(insts.cells), insts.cells, live.path) == true
      ensures now.path == backup.path && (ok ==> now.view == backup.view[iid := live.view[iid]]) && (!ok ==> !datas.Plentiful())
    {
      assert PartOk(datas.cells, live, iid);
      var h;
      ghost var copy;
      ok, h, copy := datas.Clone(head, live.paths[iid], live.view[iid]);
      if ok {
        insts.SetValue(p, h, saved, backup.path, backup.heads);
        now := SavedFillKeeps(old(insts.cells), insts.cells, old(datas.cells), datas.cells, instances, saved, live, backup,
                              p, iid, h, copy);
      } else {
        SameAsBefore(insts.cells, datas.cells, instances, live);
        now := backup;
      }
    }

    /** Gives the instance just appended a copy of the live data list, in cells of its own. */
    method FillSaved(iid: nat, p: Ptr, head: Ptr) returns (ok: bool)
      requires Valid() && iid in live.view && iid in live.heads && head == live.heads[iid]
      requires iid in backup.view && iid in backup.paths && backup.paths[iid] == []
      requires p in backup.path && p in insts.cells && insts.cells[p].id == iid
      modifies this`backup, insts, datas
      ensures Valid() && SameCells(old(insts.cells), insts.cells, live.path) == true
      ensures backup.path == old(backup.path)
      ensures ok ==> backup.view == old(backup.view)[iid := live.view[iid]]
      ensures !ok ==> !datas.Plentiful()
    {
      ghost var now;
      ok, now := FillCells(iid, p, head);
      backup := now;
    }

    /** Appends a saved instance and fills it. */
    method AppendFilled(iid: nat, tail: Ptr, head: Ptr) returns (ok: bool, p: Ptr)
      requires Valid() && iid in live.view && iid in live.heads && head == live.heads[iid]
      requires tail == Last(backup.path) && forall x :: x in backup.view ==> x < iid
      modifies this`saved, this`backup, insts, datas
      ensures Valid() && SameCells(old(insts.cells), insts.cells, live.path) == true
      ensures ok ==> backup.view == old(backup.view)[iid := live.view[iid]] && p == Last(backup.path)
      ensures !ok ==> !insts.Plentiful() || !datas.Plentiful()
    {
      p := AppendSaved(iid, tail);
      if p == NULL {
        return false, NULL;
      }
      ghost var between, longer := insts.cells, backup.path;
      assert Last(longer) == p;
      Overwritten(old(backup.view), iid, map[], live.view[iid]);
      ok := FillSaved(iid, p, head);
      assert backup.path == longer;
      SameCellsThrough(old(insts.cells), between, insts.cells, live.path);
    }

    /** One round of the copying loop of transaction_begin, for the live instance at position k. */
    method CopyInstance(it: Ptr, tail: Ptr, ghost im: Memory<Ptr>, ghost dm: Memory<Blob>, ghost k: nat)
      returns (ok: bool, p: Ptr, next: Ptr)
      requires Valid() && SideOk(im, dm, instances, live) && it != NULL
      requires Copying(im, insts.cells, live, backup, k, it, tail) == true
      modifies this`saved, this`backup, insts, datas
      ensures Valid() && k < |live.path|
      ensures ok ==> Copying(im, insts.cells, live, backup, k + 1, next, p) == true
      ensures !ok ==> !insts.Plentiful() || !datas.Plentiful()
    {
      CopyReady(im, dm, instances, insts.cells, live, backup, k, it, tail);
      var iid, head := insts.cells[it].id, insts.cells[it].value;
      next := insts.cells[it].next;
      ghost var cells, part := insts.cells, backup;
      ok, p := AppendFilled(iid, tail, head);
      if ok {
        CopyNext(im, dm, instances, cells, insts.cells, live, part, backup, k, it, tail, p);
      }
    }

    /** The copying loop of transaction_begin. */
    method CopyAll() returns (ok: bool)
      requires Valid() && Idle()
      modifies this`saved, this`backup, insts, datas
      ensures Valid() && (ok ==> backup.view == live.view) && (!ok ==> !insts.Plentiful() || !datas.Plentiful())
    {
      ghost var k, im, dm := 0, insts.cells, datas.cells;
      var it, tail := instances, NULL;
      CopyStarts(im, dm, instances, live);
      ok := true;
      while ok && it != NULL
        invariant Valid() && 0 <= k <= |live.path|
        invariant ok ==> Copying(im, insts.cells, live, backup, k, it, tail) == true
        invariant !ok ==> !insts.Plentiful() || !datas.Plentiful()
        decreases |live.path| - k, ok
      {
        ok, tail, it := CopyInstance(it, tail, im, dm, k);
        k := k + 1;
      }
      if ok {
        CopyEnds(im, dm, instances, insts.cells, live, backup, k, tail);
      }
    }

    /** transaction_begin: a deep copy of all instances, or nothing at all. */
    method Begin() returns (result: int)
      requires Valid() && Idle()
      modifies this`saved, this`backup, insts, datas
      ensures Valid()
      ensures result == 0 ==> backup.view == live.view
      ensures result != 0 ==> result == ERR_INTERNAL && Idle() && (!insts.Plentiful() || !datas.Plentiful())
    {
      if instances == NULL {
        NothingThere(insts.cells, datas.cells, live);
        return 0;
      }
      var ok := CopyAll();
      if !ok {
        var _ := Commit();
        return ERR_INTERNAL;
      }
      result := 0;
    }

    /** transaction_rollback: the live cells are freed and the saved structure takes their place. */
    method Rollback() returns (result: int)
      requires Valid()
      modifies this, insts, datas
      ensures Valid() && Idle() && result == 0
      ensures live == old(backup)
    {
      ReleaseKeeps(insts.cells, datas.cells, instances, saved, live, backup);
      ReleaseAll(insts, datas, instances, live);
      instances, live := saved, backup;
      saved, backup := NULL, NO_SIDE;
      result := 0;
    }

    /** transaction_commit: the saved cells are freed. */
    method Commit() returns (result: int)
      requires Valid()
      modifies this`saved, this`backup, insts, datas
      ensures Valid() && Idle() && result == 0
    {
      Swapped(insts.cells, datas.cells, instances, saved, live, backup);
      ReleaseKeeps(insts.cells, datas.cells, saved, instances, backup, live);
      ReleaseAll(insts, datas, saved, backup);
      saved, backup := NULL, NO_SIDE;
      result := 0;
    }

    /** One operation of a transaction; those the framework would not issue are skipped. */
    method Apply(step: Step)
      requires Valid()
      modifies this`instances, this`live, insts, datas
      ensures Valid()
      ensures live.view == Stepped(old(live.view), step, insts.fails(old(insts.calls)), datas.fails(old(datas.calls)))
    {
      var it := insts.Find(instances, step.iid, live.path, live.heads);
      match step
      case Create(iid) => if it == NULL { var _ := Create(iid); }
      case Remove(iid) => if it != NULL { var _ := Remove(iid); } else { assert live.view == live.view - {iid}; }
      case Change(iid, op) => if it != NULL { var _ := Change(iid, op); }
    }

    /** Any number of operations, each of which may find memory for instances or entries short; the backup is out of their reach. */
    method RunSteps(steps: seq<Step>) returns (ghost shortages: seq<(bool, bool)>)
      requires Valid()
      modifies this`instances, this`live, insts, datas
      ensures Valid() && |shortages| == |steps|
      ensures live.view == SteppedAll(old(live.view), steps, shortages)
      ensures insts.Plentiful() && datas.Plentiful() ==> forall k :: 0 <= k < |steps| ==> shortages[k] == (false, false)
    {
      shortages := [];
      for i := 0 to |steps|
        invariant Valid() && |shortages| == i
        invariant live.view == SteppedAll(old(live.view), steps[..i], shortages)
        invariant insts.Plentiful() && datas.Plentiful() ==> forall k :: 0 <= k < i ==> shortages[k] == (false, false)
      {
        ghost var shortage := (insts.fails(insts.calls), datas.fails(datas.calls));
        SteppedNext(old(live.view), steps, shortages, shortage, i);
        Apply(steps[i]);
        shortages := shortages + [shortage];
      }
      assert steps[..|steps|] == steps;
    }

    /**
     * Whatever happens between a successful begin and a rollback, failed writes included, the
     * contents afterwards are those held at begin, in both levels; a begin that fails changes nothing.
     */
    method RunAndRollBack(steps: seq<Step>) returns (begun: int)
      requires Valid() && Idle()
      modifies this, insts, datas
      ensures Valid() && Idle()
      ensures live.view == old(live.view)
    {
      begun := Begin();
      if begun == 0 {
        ghost var _ := RunSteps(steps);
        var _ := Rollback();
      }
    }

    /** With a commit instead, everything that was done stays done, and what ran short of memory stays undone. */
    method RunAndCommit(steps: seq<Step>) returns (begun: int, ghost shortages: seq<(bool, bool)>)
      requires Valid() && Idle()
      modifies this, insts, datas
      ensures Valid() && Idle()
      ensures begun != 0 ==> live.view == old(live.view) && (!insts.Plentiful() || !datas.Plentiful())
      ensures begun == 0 ==> |shortages| == |steps| && live.view == SteppedAll(old(live.view), steps, shortages)
      ensures begun == 0 && insts.Plentiful() && datas.Plentiful() ==> forall k :: 0 <= k < |steps| ==> shortages[k] == (false, false)
    {
      begun := Begin();
      shortages := [];
      if begun == 0 {
        shortages := RunSteps(steps);
        var _ := Commit();
      }
    }
  }

  /** What a server may do to the instances during a transaction. */
  datatype Step = Create(iid: nat) | Remove(iid: nat) | Change(iid: nat, op: EntryOp)

  ghost function Stepped(view: Contents, step: Step, noInstance: bool, noEntry: bool): Contents {
    match step
    case Create(iid) => if iid in view || noInstance then view else view[iid := map[]]
    case Remove(iid) => view - {iid}
    case Change(iid, op) => if iid in view then view[iid := Applied(view[iid], op, noEntry)] else view
  }

  /** The operations one after the other, each with or without memory for an instance and for an entry. */
  ghost function SteppedAll(view: Contents, steps: seq<Step>, shortages: seq<(bool, bool)>): Contents
    requires |shortages| == |steps|
  {
    if steps == [] then view
    else
      var n := |steps| - 1;
      Stepped(SteppedAll(view, steps[..n], shortages[..n]), steps[n], shortages[n].0, shortages[n].1)
  }

  lemma SteppedNext(view: Contents, steps: seq<Step>, shortages: seq<(bool, bool)>, shortage: (bool, bool), i: nat)
    requires i < |steps| && |shortages| == i
    ensures SteppedAll(view, steps[..i + 1], shortages + [shortage])
         == Stepped(SteppedAll(view, steps[..i], shortages), steps[i], shortage.0, shortage.1)
  {
    assert steps[..i + 1][..i] == steps[..i] && (shortages + [shortage])[..i] == shortages;
  }

  // ---------------------------------------------------------------- what an entry holds in the end

  ghost function EntryOf(view: Contents, iid: nat, riid: nat): Option<Blob> {
    if iid in view && riid in view[iid] then Some(view[iid][riid]) else None
  }

  /** The step concerns this entry: it writes or drops it, or wipes or removes its instance. */
  predicate Touches(step: Step, iid: nat, riid: nat) {
    && step.iid == iid
    && match step
       case Create(_) => false
       case Remove(_) => true
       case Change(_, op) => op == Wipe || op == DropEntry(riid) || (op.WriteEntry? && op.riid == riid)
  }

  /**
   * What becomes of an entry when its instance is there: a readable payload that fits is stored, if the entry is there or
   * can be had; any other write empties the entry, if it is there; everything else takes it away.
   */
  ghost function EntryAfter(entry: Option<Blob>, step: Step, noEntry: bool): Option<Blob> {
    if step.Change? && step.op.WriteEntry? then
      if entry.None? && noEntry then None
      else if step.op.input.error == 0 && |step.op.input.payload| <= 1024 then Some(step.op.input.payload)
      else if entry.Some? then Some([]) else None
    else None
  }

  lemma StepTouches(view: Contents, step: Step, noInstance: bool, noEntry: bool, iid: nat, riid: nat)
    ensures var after := Stepped(view, step, noInstance, noEntry);
            EntryOf(after, iid, riid) == if !Touches(step, iid, riid) then EntryOf(view, iid, riid)
                                         else if iid !in view then None
                                         else EntryAfter(EntryOf(view, iid, riid), step, noEntry)
  {}

  lemma {:induction false} EntryUntouched(view: Contents, steps: seq<Step>, shortages: seq<(bool, bool)>, iid: nat, riid: nat)
    requires |shortages| == |steps| && forall j :: 0 <= j < |steps| ==> !Touches(steps[j], iid, riid)
    ensures EntryOf(SteppedAll(view, steps, shortages), iid, riid) == EntryOf(view, iid, riid)
  {
    if steps != [] {
      var n := |steps| - 1;
      EntryUntouched(view, steps[..n], shortages[..n], iid, riid);
      StepTouches(SteppedAll(view, steps[..n], shortages[..n]), steps[n], shortages[n].0, shortages[n].1, iid, riid);
    }
  }

  /** What an entry holds after any number of operations is decided by the last one that concerns it. */
  lemma {:induction false} LatestEntry(view: Contents, steps: seq<Step>, shortages: seq<(bool, bool)>, k: nat, iid: nat, riid: nat)
    requires |shortages| == |steps| && k < |steps| && Touches(steps[k], iid, riid)
    requires forall j :: k < j < |steps| ==> !Touches(steps[j], iid, riid)
    ensures var before := SteppedAll(view, steps[..k], shortages[..k]);
            EntryOf(SteppedAll(view, steps, shortages), iid, riid)
            == if iid !in before then None else EntryAfter(EntryOf(before, iid, riid), steps[k], shortages[k].1)
    decreases |steps|
  {
    var n := |steps| - 1;
    StepTouches(SteppedAll(view, steps[..n], shortages[..n]), steps[n], shortages[n].0, shortages[n].1, iid, riid);
    if k < n {
      LatestEntry(view, steps[..n], shortages[..n], k, iid, riid);
      assert steps[..n][..k] == steps[..k] && shortages[..n][..k] == shortages[..k];
    }
  }
}
