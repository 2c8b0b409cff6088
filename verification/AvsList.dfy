/**
 * Linked lists in explicitly modelled memory: AVS_LIST as the demo objects use it, with
 * elements kept ascending by an identifier. Elements are allocated and freed, so the proofs
 * also cover dangling pointers and leaks.
 */
module AvsList {

  type Ptr = nat
  const NULL: Ptr := 0

  datatype Cell<T> = Cell(id: nat, value: T, next: Ptr)
  type Memory<T> = map<Ptr, Cell<T>>

  ghost function First(path: seq<Ptr>): Ptr { if path == [] then NULL else path[0] }

  /** The cells at these addresses, in this order, form the list that starts at the head pointer. */
  ghost predicate IsList<T>(m: Memory<T>, head: Ptr, path: seq<Ptr>) {
    && head == First(path)
    && (forall i :: 0 <= i < |path| ==> path[i] in m && path[i] != NULL)
    && (forall i, j :: 0 <= i < |path| && j == i + 1 && j < |path| ==> m[path[i]].next == path[j])
    && (path != [] ==> m[path[|path| - 1]].next == NULL)
    && Ascending(m, path)
  }

  ghost predicate Ascending<T>(m: Memory<T>, path: seq<Ptr>)
    requires forall i :: 0 <= i < |path| ==> path[i] in m
  {
    forall i, j :: 0 <= i < j < |path| ==> m[path[i]].id < m[path[j]].id
  }

  ghost predicate Occurs<T>(m: Memory<T>, path: seq<Ptr>, id: nat)
    requires forall i :: 0 <= i < |path| ==> path[i] in m
  {
    exists i :: 0 <= i < |path| && m[path[i]].id == id
  }

  /** The list stands for this dictionary. */
  ghost predicate Holds<T>(m: Memory<T>, path: seq<Ptr>, c: map<nat, T>)
    requires forall i :: 0 <= i < |path| ==> path[i] in m
  {
    && (forall i :: 0 <= i < |path| ==> m[path[i]].id in c && c[m[path[i]].id] == m[path[i]].value)
    && (forall id {:trigger Occurs(m, path, id)} :: id in c ==> Occurs(m, path, id))
  }

  ghost predicate Represents<T>(m: Memory<T>, head: Ptr, path: seq<Ptr>, c: map<nat, T>) {
    IsList(m, head, path) && Holds(m, path, c)
  }

  /** Memory outside the given addresses is the same. */
  ghost predicate SameOutside<T>(m: Memory<T>, n: Memory<T>, inside: set<Ptr>) {
    forall p :: p !in inside ==> (p in m <==> p in n) && (p in m ==> m[p] == n[p])
  }

  lemma Untouched<T>(m: Memory<T>, n: Memory<T>, inside: set<Ptr>, head: Ptr, path: seq<Ptr>, c: map<nat, T>)
    requires Represents(m, head, path, c) && SameOutside(m, n, inside)
    requires forall i :: 0 <= i < |path| ==> path[i] !in inside
    ensures Represents(n, head, path, c)
  {
    forall id | id in c ensures Occurs(n, path, id) {
      assert Occurs(m, path, id);
    }
  }

  class Heap<T> {
    var cells: Memory<T>
    var brk: Ptr
    var calls: nat
    /** Which calls to the allocator fail. */
    const fails: nat -> bool

    ghost predicate Valid()
      reads this
    {
      brk > NULL && forall p :: p in cells ==> NULL < p < brk
    }

    /** No allocation ever fails. */
    ghost predicate Plentiful() { forall k :: !fails(k) }

    constructor (fails: nat -> bool)
      ensures Valid() && cells == map[]
    {
      cells, brk, calls, this.fails := map[], 1, 0, fails;
    }

    /** AVS_LIST_NEW_ELEMENT: an address never in use before, or Null. */
    method Alloc(id: nat, value: T, next: Ptr) returns (p: Ptr)
      requires Valid()
      modifies this
      ensures Valid() && calls == old(calls) + 1 && (p == NULL <==> fails(old(calls)))
      ensures p == NULL ==> cells == old(cells)
      ensures p != NULL ==> p !in old(cells) && cells == old(cells)[p := Cell(id, value, next)]
    {
      if fails(calls) {
        p := NULL;
      } else {
        p := brk;
        cells, brk := cells[p := Cell(id, value, next)], brk + 1;
      }
      calls := calls + 1;
    }

    method Free(p: Ptr)
      requires Valid() && p in cells
      modifies this
      ensures Valid() && cells == old(cells) - {p} && calls == old(calls)
    {
      cells := cells - {p};
    }

    /** Look-up that stops at the first larger identifier: it agrees with the dictionary. */
    method Find(head: Ptr, id: nat, ghost path: seq<Ptr>, ghost c: map<nat, T>) returns (p: Ptr)
      requires Represents(cells, head, path, c)
      ensures p != NULL <==> id in c
      ensures p != NULL ==> p in path && p in cells && cells[p].id == id && cells[p].value == c[id]
    {
      p := head;
      ghost var k := 0;
      while p != NULL
        invariant 0 <= k <= |path| && p == First(path[k..])
        invariant forall i :: 0 <= i < k ==> cells[path[i]].id < id
        decreases |path| - k
      {
        if cells[p].id == id {
          return;
        } else if cells[p].id > id {
          assert !Occurs(cells, path, id);
          return NULL;
        }
        p, k := cells[p].next, k + 1;
      }
      assert !Occurs(cells, path, id);
    }

    /** Look-up that always walks to the end of the list. */
    method FindSlowly(head: Ptr, id: nat, ghost path: seq<Ptr>, ghost c: map<nat, T>) returns (p: Ptr)
      requires Represents(cells, head, path, c)
      ensures p != NULL <==> id in c
      ensures p != NULL ==> p in path && p in cells && cells[p].id == id && cells[p].value == c[id]
    {
      p := head;
      ghost var k := 0;
      while p != NULL
        invariant 0 <= k <= |path| && p == First(path[k..])
        invariant forall i :: 0 <= i < k ==> cells[path[i]].id != id
        decreases |path| - k
      {
        if cells[p].id == id {
          return;
        }
        p, k := cells[p].next, k + 1;
      }
      assert !Occurs(cells, path, id);
    }

    /** The identifiers in list order: ascending, and exactly those present. */
    method Ids(head: Ptr, ghost path: seq<Ptr>, ghost c: map<nat, T>) returns (ids: seq<nat>)
      requires Represents(cells, head, path, c)
      ensures forall i, j :: 0 <= i < j < |ids| ==> ids[i] < ids[j]
      ensures forall id :: id in ids <==> id in c
    {
      ids := [];
      var p := head;
      while p != NULL
        invariant |ids| <= |path| && p == First(path[|ids|..])
        invariant forall i :: 0 <= i < |ids| ==> ids[i] == cells[path[i]].id
        decreases |path| - |ids|
      {
        ids, p := ids + [cells[p].id], cells[p].next;
      }
      forall id | id in c ensures id in ids {
        assert Occurs(cells, path, id);
        var i :| 0 <= i < |path| && cells[path[i]].id == id;
        assert ids[i] == id;
      }
    }

    /** The place where an identifier belongs: the last cell below it and the first one not below. */
    method Seek(head: Ptr, id: nat, ghost path: seq<Ptr>) returns (prev: Ptr, cur: Ptr, ghost k: nat)
      requires IsList(cells, head, path)
      ensures k <= |path| && cur == First(path[k..]) && prev == (if k > 0 then path[k - 1] else NULL)
      ensures forall i :: 0 <= i < k ==> cells[path[i]].id < id
      ensures forall i :: k <= i < |path| ==> id <= cells[path[i]].id
    {
      prev, cur, k := NULL, head, 0;
      while cur != NULL && cells[cur].id < id
        invariant k <= |path| && cur == First(path[k..]) && prev == (if k > 0 then path[k - 1] else NULL)
        invariant forall i :: 0 <= i < k ==> cells[path[i]].id < id
        decreases |path| - k
      {
        prev, cur, k := cur, cells[cur].next, k + 1;
      }
    }

    /** AVS_LIST_INSERT of a new element in front of the first larger one. */
    method Insert(head: Ptr, id: nat, value: T, ghost path: seq<Ptr>, ghost c: map<nat, T>)
      returns (start: Ptr, p: Ptr, ghost longer: seq<Ptr>)
      requires Valid() && Represents(cells, head, path, c) && id !in c
      modifies this
      ensures Valid() && calls == old(calls) + 1 && (p == NULL <==> fails(old(calls)))
      ensures p == NULL ==> cells == old(cells) && start == head && longer == path
      ensures p != NULL ==> Grown(old(cells), cells, path, longer, {p}) && p in cells && cells[p].id == id
      ensures p != NULL ==> Represents(cells, start, longer, c[id := value])
    {
      var prev, cur, k := Seek(head, id, path);
      NotPresent(cells, path, c, id);
      start, p := InsertAt(head, prev, cur, id, value, path, c, k);
      longer := if p == NULL then path else Spliced(path, k, p);
    }

    method InsertAt(head: Ptr, prev: Ptr, cur: Ptr, id: nat, value: T, ghost path: seq<Ptr>, ghost c: map<nat, T>, ghost k: nat)
      returns (start: Ptr, p: Ptr)
      requires Valid() && Represents(cells, head, path, c) && id !in c
      requires k <= |path| && cur == First(path[k..]) && prev == (if k > 0 then path[k - 1] else NULL)
      requires forall i :: 0 <= i < k ==> cells[path[i]].id < id
      requires forall i :: k <= i < |path| ==> id < cells[path[i]].id
      modifies this
      ensures Valid() && calls == old(calls) + 1 && (p == NULL <==> fails(old(calls)))
      ensures p == NULL ==> cells == old(cells) && start == head
      ensures p != NULL ==> Grown(old(cells), cells, path, Spliced(path, k, p), {p}) && p in cells && cells[p].id == id
      ensures p != NULL ==> Represents(cells, start, Spliced(path, k, p), c[id := value])
    {
      start := head;
      p := Alloc(id, value, cur);
      if p != NULL {
        if prev == NULL {
          start := p;
        } else {
          cells := cells[prev := cells[prev].(next := p)];
        }
        InsertGrows(old(cells), cells, path, k, p);
        InsertDone(old(cells), cells, head, path, c, k, p);
      }
    }

    /** AVS_LIST_DELETE of the element with the identifier, if there is one; its cell is freed. */
    method Delete(head: Ptr, id: nat, ghost path: seq<Ptr>, ghost c: map<nat, T>)
      returns (start: Ptr, found: bool, ghost shorter: seq<Ptr>)
      requires Valid() && Represents(cells, head, path, c)
      modifies this
      ensures Valid() && calls == old(calls) && found == (id in c)
      ensures !found ==> cells == old(cells) && start == head && shorter == path
      ensures found ==> Shrunk(old(cells), cells, path, shorter)
      ensures found ==> Represents(cells, start, shorter, c - {id})
    {
      var prev, cur, k := Seek(head, id, path);
      found := cur != NULL && cells[cur].id == id;
      if found {
        start := DeleteAt(head, prev, cur, path, c, k);
        shorter := Without(path, k);
      } else {
        assert !Occurs(cells, path, id);
        start, shorter := head, path;
      }
    }

    method DeleteAt(head: Ptr, prev: Ptr, cur: Ptr, ghost path: seq<Ptr>, ghost c: map<nat, T>, ghost k: nat)
      returns (start: Ptr)
      requires Valid() && Represents(cells, head, path, c)
      requires k < |path| && cur == path[k] && prev == (if k > 0 then path[k - 1] else NULL)
      modifies this
      ensures Valid() && calls == old(calls)
      ensures Shrunk(old(cells), cells, path, Without(path, k))
      ensures Represents(cells, start, Without(path, k), c - {old(cells)[cur].id})
    {
      start := head;
      if prev == NULL {
        start := cells[cur].next;
      } else {
        cells := cells[prev := cells[prev].(next := cells[cur].next)];
      }
      cells := cells - {cur};
      DeleteShrinks(old(cells), cells, head, path, k);
      DeleteDone(old(cells), cells, head, path, c, k);
    }

    /** AVS_LIST_CLEAR: every element is freed, and nothing else. */
    method Clear(head: Ptr, ghost path: seq<Ptr>)
      requires Valid() && IsList(cells, head, path)
      modifies this
      ensures Valid() && calls == old(calls) && cells == old(cells) - Elements(path)
    {
      var p := head;
      ghost var k := 0;
      while p != NULL
        invariant 0 <= k <= |path| && p == First(path[k..]) && Valid() && calls == old(calls)
        invariant cells == old(cells) - Elements(path[..k])
        decreases |path| - k
      {
        DistinctPath(old(cells), path, k);
        var next := cells[p].next;
        Free(p);
        assert path[..k + 1] == path[..k] + [p];
        p, k := next, k + 1;
      }
      assert path[..k] == path;
    }

    /** A new element behind the last one; its identifier must be the greatest. */
    method Append(head: Ptr, tail: Ptr, id: nat, value: T, ghost path: seq<Ptr>, ghost c: map<nat, T>)
      returns (start: Ptr, p: Ptr)
      requires Valid() && Represents(cells, head, path, c) && tail == Last(path) && forall x :: x in c ==> x < id
      modifies this
      ensures Valid() && calls == old(calls) + 1 && (p == NULL <==> fails(old(calls)))
      ensures p == NULL ==> cells == old(cells) && start == head
      ensures p != NULL ==> Grown(old(cells), cells, path, path + [p], {p}) && p in cells && cells[p].id == id
      ensures p != NULL ==> Represents(cells, start, path + [p], c[id := value])
    {
      assert First(path[|path|..]) == NULL;
      start, p := InsertAt(head, tail, NULL, id, value, path, c, |path|);
      assert Spliced(path, |path|, p) == path + [p];
    }

    /** One round of the cloning loop: the element at position k gets a copy at the end of the new list. */
    method CloneNext(it: Ptr, start: Ptr, tail: Ptr, ghost m: Memory<T>, ghost path: seq<Ptr>, ghost c: map<nat, T>,
                     ghost k: nat, ghost copy: seq<Ptr>)
      returns (p: Ptr, first: Ptr, next: Ptr)
      requires Valid() && IsList(m, First(path), path) && Holds(m, path, c) && it != NULL
      requires Cloning(m, cells, path, c, k, it, start, copy, tail) == true
      modifies this
      ensures Valid() && k < |path| && (p == NULL ==> cells == old(cells) && first == start && !Plentiful())
      ensures p != NULL ==> Cloning(m, cells, path, c, k + 1, next, first, copy + [p], p) == true
    {
      ghost var n := cells;
      BelowNext(m, path, c, k);
      CloneSource(m, cells, copy, path, k);
      next := cells[it].next;
      first, p := Append(start, tail, cells[it].id, cells[it].value, copy, Below(m, path, c, k));
      if p != NULL {
        GrownAgain(m, n, cells, copy, p);
      }
    }

    /** AVS_LIST_SIMPLE_CLONE: the same contents in cells of its own; if one cannot be had, all are given back. */
    method Clone(head: Ptr, ghost path: seq<Ptr>, ghost c: map<nat, T>) returns (ok: bool, start: Ptr, ghost copy: seq<Ptr>)
      requires Valid() && Represents(cells, head, path, c)
      modifies this
      ensures Valid()
      ensures !ok ==> cells == old(cells) && start == NULL && copy == [] && !Plentiful()
      ensures ok ==> Grown(old(cells), cells, [], copy, Elements(copy)) && Represents(cells, start, copy, c)
    {
      start, copy := NULL, [];
      var it, tail := head, NULL;
      ghost var k, m := 0, cells;
      CloneStarts(m, head, path, c);
      while it != NULL
        invariant Valid() && 0 <= k <= |path|
        invariant Cloning(m, cells, path, c, k, it, start, copy, tail) == true
        decreases |path| - k
      {
        var p, first, next := CloneNext(it, start, tail, m, path, c, k, copy);
        if p == NULL {
          CloneUndone(m, cells, copy);
          Clear(start, copy);
          return false, NULL, [];
        }
        start, copy, tail := first, copy + [p], p;
        it, k := next, k + 1;
      }
      CloneEnds(m, cells, path, c, k, start, copy, tail);
      ok := true;
    }

    /** Overwrites the value of one element. */
    method SetValue(p: Ptr, value: T, ghost head: Ptr, ghost path: seq<Ptr>, ghost c: map<nat, T>)
      requires Valid() && Represents(cells, head, path, c) && p in path
      modifies this
      ensures Valid() && calls == old(calls) && p in old(cells) && cells == old(cells)[p := old(cells)[p].(value := value)]
      ensures Represents(cells, head, path, c[old(cells)[p].id := value])
    {
      cells := cells[p := cells[p].(value := value)];
      StoreDone(old(cells), cells, head, path, c, p);
    }
  }

  lemma NotPresent<T>(m: Memory<T>, path: seq<Ptr>, c: map<nat, T>, id: nat)
    requires forall i :: 0 <= i < |path| ==> path[i] in m
    requires Holds(m, path, c) && id !in c
    ensures forall i :: 0 <= i < |path| ==> m[path[i]].id != id
  {}

  ghost function Elements(path: seq<Ptr>): set<Ptr> { set p | p in path }

  /** All these cells have the same owner. */
  ghost function OwnedBy(path: seq<Ptr>, id: nat): (r: map<Ptr, nat>)
    ensures r.Keys == Elements(path) && forall p :: p in path ==> r[p] == id
  {
    if path == [] then map[] else OwnedBy(path[..|path| - 1], id)[path[|path| - 1] := id]
  }

  /** A list has taken up newly allocated cells; all memory outside the list is the same. */
  ghost predicate Grown<T>(m: Memory<T>, n: Memory<T>, path: seq<Ptr>, longer: seq<Ptr>, new_: set<Ptr>) {
    && new_ !! m.Keys && n.Keys == m.Keys + new_
    && Elements(longer) == Elements(path) + new_
    && SameOutside(m, n, Elements(longer))
  }

  ghost function Last(path: seq<Ptr>): Ptr { if path == [] then NULL else path[|path| - 1] }

  /** The part of the dictionary that stands in front of position k. */
  ghost function Below<T>(m: Memory<T>, path: seq<Ptr>, c: map<nat, T>, k: nat): map<nat, T>
    requires forall i :: 0 <= i < |path| ==> path[i] in m
  {
    c - (set id | id in c && k < |path| && id >= m[path[k]].id)
  }

  lemma BelowNone<T>(m: Memory<T>, path: seq<Ptr>, c: map<nat, T>)
    requires forall i :: 0 <= i < |path| ==> path[i] in m
    requires Ascending(m, path) && Holds(m, path, c)
    ensures Below(m, path, c, 0) == map[]
  {
    forall id | id in c ensures id !in Below(m, path, c, 0) {
      assert Occurs(m, path, id);
    }
  }

  lemma BelowNext<T>(m: Memory<T>, path: seq<Ptr>, c: map<nat, T>, k: nat)
    requires forall i :: 0 <= i < |path| ==> path[i] in m
    requires Ascending(m, path) && Holds(m, path, c) && k < |path|
    ensures m[path[k]].id !in Below(m, path, c, k)
    ensures Below(m, path, c, k + 1) == Below(m, path, c, k)[m[path[k]].id := m[path[k]].value]
  {
    var n := m[path[k]].id;
    forall id | id in c ensures id in Below(m, path, c, k + 1) <==> id < n || id == n {
      assert Occurs(m, path, id);
      var i :| 0 <= i < |path| && m[path[i]].id == id;
    }
  }

  lemma GrownAgain<T>(m: Memory<T>, n: Memory<T>, o: Memory<T>, copy: seq<Ptr>, p: Ptr)
    requires Grown(m, n, [], copy, Elements(copy))
    requires Grown(n, o, copy, copy + [p], {p})
    ensures Grown(m, o, [], copy + [p], Elements(copy + [p]))
  {}

  /** How far a clone has come: the elements in front of position k have copies in cells of their own. */
  ghost predicate Cloning<T>(m: Memory<T>, n: Memory<T>, path: seq<Ptr>, c: map<nat, T>, k: nat,
                             it: Ptr, start: Ptr, copy: seq<Ptr>, tail: Ptr) {
    && k <= |path| && it == First(path[k..]) && (forall i :: 0 <= i < |path| ==> path[i] in m)
    && Grown(m, n, [], copy, Elements(copy)) && tail == Last(copy)
    && Represents(n, start, copy, Below(m, path, c, k))
  }

  lemma CloneStarts<T>(m: Memory<T>, head: Ptr, path: seq<Ptr>, c: map<nat, T>)
    requires Represents(m, head, path, c)
    ensures Cloning(m, m, path, c, 0, head, NULL, [], NULL) == true
  {
    BelowNone(m, path, c);
    assert path[0..] == path;
  }

  lemma CloneEnds<T>(m: Memory<T>, n: Memory<T>, path: seq<Ptr>, c: map<nat, T>, k: nat, start: Ptr, copy: seq<Ptr>, tail: Ptr)
    requires IsList(m, First(path), path) && Cloning(m, n, path, c, k, NULL, start, copy, tail) == true
    ensures Grown(m, n, [], copy, Elements(copy)) && Represents(n, start, copy, c)
  {
    assert k == |path|;
    assert Below(m, path, c, k) == c;
  }

  /** Giving back the copies restores the memory. */
  lemma CloneUndone<T>(m: Memory<T>, n: Memory<T>, copy: seq<Ptr>)
    requires Grown(m, n, [], copy, Elements(copy))
    ensures n - Elements(copy) == m
  {}

  lemma CloneSource<T>(m: Memory<T>, n: Memory<T>, copy: seq<Ptr>, path: seq<Ptr>, k: nat)
    requires Grown(m, n, [], copy, Elements(copy)) && k < |path|
    requires forall i :: 0 <= i < |path| ==> path[i] in m
    ensures path[k] in n && n[path[k]] == m[path[k]]
  {
    assert path[k] !in Elements(copy);
  }

  /** A list has given up cells, which are now free; all memory outside the list is the same. */
  ghost predicate Shrunk<T>(m: Memory<T>, n: Memory<T>, path: seq<Ptr>, shorter: seq<Ptr>) {
    && Elements(shorter) <= Elements(path)
    && n.Keys == m.Keys - (Elements(path) - Elements(shorter))
    && SameOutside(m, n, Elements(path))
  }

  lemma DistinctPath<T>(m: Memory<T>, path: seq<Ptr>, k: nat)
    requires forall i :: 0 <= i < |path| ==> path[i] in m
    requires Ascending(m, path) && k < |path|
    ensures path[k] !in path[..k] && path[k] !in path[k + 1..]
  {
    assert forall i :: 0 <= i < k ==> m[path[i]].id != m[path[k]].id;
    assert forall i :: k < i < |path| ==> m[path[i]].id != m[path[k]].id;
  }

  lemma StoreDone<T>(m: Memory<T>, n: Memory<T>, head: Ptr, path: seq<Ptr>, c: map<nat, T>, p: Ptr)
    requires Represents(m, head, path, c) && p in path && p in n && p in m
    requires n == m[p := m[p].(value := n[p].value)]
    ensures Represents(n, head, path, c[m[p].id := n[p].value])
  {
    var k :| 0 <= k < |path| && path[k] == p;
    var d := c[m[p].id := n[p].value];
    forall i | 0 <= i < |path| ensures n[path[i]].id in d && d[n[path[i]].id] == n[path[i]].value {
      if i != k { assert m[path[i]].id != m[path[k]].id; }
    }
    forall id | id in d ensures Occurs(n, path, id) {
      if id == m[p].id {
        assert n[path[k]].id == id;
      } else {
        assert Occurs(m, path, id);
        var i :| 0 <= i < |path| && m[path[i]].id == id;
        assert n[path[i]].id == id;
      }
    }
  }

  ghost function Without(path: seq<Ptr>, k: nat): seq<Ptr>
    requires k < |path|
  {
    path[..k] + path[k + 1..]
  }

  lemma WithoutAt(path: seq<Ptr>, k: nat, i: nat)
    requires k < |path| && i + 1 < |path|
    ensures Without(path, k)[i] == if i < k then path[i] else path[i + 1]
  {}

  lemma DeleteShrinks<T>(m: Memory<T>, n: Memory<T>, head: Ptr, path: seq<Ptr>, k: nat)
    requires IsList(m, head, path) && k < |path|
    requires n == (if k == 0 then m else m[path[k - 1] := m[path[k - 1]].(next := m[path[k]].next)]) - {path[k]}
    ensures Shrunk(m, n, path, Without(path, k))
  {
    DistinctPath(m, path, k);
    assert path == path[..k] + [path[k]] + path[k + 1..];
    assert Elements(path) - Elements(Without(path, k)) == {path[k]};
    assert k > 0 ==> path[k - 1] in path;
  }

  lemma DeleteDone<T>(m: Memory<T>, n: Memory<T>, head: Ptr, path: seq<Ptr>, c: map<nat, T>, k: nat)
    requires Represents(m, head, path, c) && k < |path|
    requires n == (if k == 0 then m else m[path[k - 1] := m[path[k - 1]].(next := m[path[k]].next)]) - {path[k]}
    ensures Represents(n, if k == 0 then m[path[k]].next else head, Without(path, k), c - {m[path[k]].id})
  {
    forall i | 0 <= i < |path| && i != k
      ensures path[i] in n
      ensures n[path[i]] == if i == k - 1 then m[path[i]].(next := m[path[k]].next) else m[path[i]]
    {
      assert m[path[i]].id != m[path[k]].id;
      if k > 0 && i != k - 1 { assert m[path[i]].id != m[path[k - 1]].id; }
    }
    DeletedList(m, n, head, path, k);
    DeletedHolds(m, n, path, c, k);
  }

  ghost predicate LinkedOut<T>(m: Memory<T>, n: Memory<T>, path: seq<Ptr>, k: nat) {
    && k < |path| && (forall i :: 0 <= i < |path| ==> path[i] in m)
    && (forall i :: 0 <= i < |path| && i != k ==> path[i] in n)
    && (forall i :: 0 <= i < |path| && i != k ==>
          n[path[i]] == if i == k - 1 then m[path[i]].(next := m[path[k]].next) else m[path[i]])
  }

  lemma DeletedList<T>(m: Memory<T>, n: Memory<T>, head: Ptr, path: seq<Ptr>, k: nat)
    requires IsList(m, head, path) && LinkedOut(m, n, path, k)
    ensures IsList(n, if k == 0 then m[path[k]].next else head, Without(path, k))
  {
    var s := Without(path, k);
    forall i | 0 <= i < |s| ensures s[i] in n && s[i] != NULL {
      WithoutAt(path, k, i);
    }
    forall i, j | 0 <= i < |s| && j == i + 1 && j < |s| ensures n[s[i]].next == s[j] {
      WithoutAt(path, k, i);
      WithoutAt(path, k, j);
    }
    if s != [] { WithoutAt(path, k, |s| - 1); }
    DeletedAscending(m, n, path, k);
  }

  lemma DeletedAscending<T>(m: Memory<T>, n: Memory<T>, path: seq<Ptr>, k: nat)
    requires LinkedOut(m, n, path, k) && Ascending(m, path)
    requires forall i :: 0 <= i < |Without(path, k)| ==> Without(path, k)[i] in n
    ensures Ascending(n, Without(path, k))
  {
    var s := Without(path, k);
    forall i, j | 0 <= i < j < |s| ensures n[s[i]].id < n[s[j]].id {
      WithoutAt(path, k, i);
      WithoutAt(path, k, j);
    }
  }

  lemma DeletedHolds<T>(m: Memory<T>, n: Memory<T>, path: seq<Ptr>, c: map<nat, T>, k: nat)
    requires LinkedOut(m, n, path, k) && Holds(m, path, c) && Ascending(m, path)
    requires forall i :: 0 <= i < |Without(path, k)| ==> Without(path, k)[i] in n
    ensures Holds(n, Without(path, k), c - {m[path[k]].id})
  {
    var s, d := Without(path, k), c - {m[path[k]].id};
    forall i | 0 <= i < |s| ensures n[s[i]].id in d && d[n[s[i]].id] == n[s[i]].value {
      WithoutAt(path, k, i);
    }
    forall id | id in d ensures Occurs(n, s, id) {
      assert Occurs(m, path, id);
      var i :| 0 <= i < |path| && m[path[i]].id == id;
      WithoutAt(path, k, if i < k then i else i - 1);
    }
  }

  /** Memory n is memory m with cell p linked in before position k of the list. */
  ghost predicate LinkedIn<T>(m: Memory<T>, n: Memory<T>, path: seq<Ptr>, k: nat, p: Ptr) {
    && k <= |path| && p !in m && p in n && p != NULL && n[p].next == First(path[k..])
    && (forall i :: 0 <= i < |path| ==> path[i] in m && path[i] in n)
    && (forall i :: 0 <= i < |path| ==> n[path[i]] == if i == k - 1 then m[path[i]].(next := p) else m[path[i]])
  }

  ghost function Spliced(path: seq<Ptr>, k: nat, p: Ptr): seq<Ptr>
    requires k <= |path|
  {
    path[..k] + [p] + path[k..]
  }

  lemma SplicedAt(path: seq<Ptr>, k: nat, p: Ptr, i: nat)
    requires k <= |path| && i <= |path|
    ensures Spliced(path, k, p)[i] == if i < k then path[i] else if i == k then p else path[i - 1]
  {}

  lemma SplicedElements(path: seq<Ptr>, k: nat, p: Ptr)
    requires k <= |path|
    ensures Elements(Spliced(path, k, p)) == Elements(path) + {p}
  {
    assert path == path[..k] + path[k..];
  }

  lemma InsertDone<T>(m: Memory<T>, n: Memory<T>, head: Ptr, path: seq<Ptr>, c: map<nat, T>, k: nat, p: Ptr)
    requires Represents(m, head, path, c) && k <= |path| && p !in m && p in n && p != NULL
    requires n[p].next == First(path[k..]) && n[p].id !in c
    requires n == if k == 0 then m[p := n[p]] else m[p := n[p]][path[k - 1] := m[path[k - 1]].(next := p)]
    requires forall i :: 0 <= i < k ==> m[path[i]].id < n[p].id
    requires forall i :: k <= i < |path| ==> n[p].id < m[path[i]].id
    ensures Represents(n, if k == 0 then p else head, Spliced(path, k, p), c[n[p].id := n[p].value])
  {
    forall i | 0 <= i < |path| ensures n[path[i]] == if i == k - 1 then m[path[i]].(next := p) else m[path[i]] {
      if k > 0 && i != k - 1 {
        assert m[path[i]].id != m[path[k - 1]].id;
      }
    }
    LinkedInList(m, n, head, path, k, p);
    LinkedInHolds(m, n, path, c, k, p);
  }

  lemma InsertGrows<T>(m: Memory<T>, n: Memory<T>, path: seq<Ptr>, k: nat, p: Ptr)
    requires k <= |path| && p !in m && p in n
    requires forall i :: 0 <= i < |path| ==> path[i] in m
    requires n == if k == 0 then m[p := n[p]] else m[p := n[p]][path[k - 1] := m[path[k - 1]].(next := p)]
    ensures Grown(m, n, path, Spliced(path, k, p), {p})
  {
    SplicedElements(path, k, p);
    assert k > 0 ==> path[k - 1] in path;
  }

  lemma LinkedInList<T>(m: Memory<T>, n: Memory<T>, head: Ptr, path: seq<Ptr>, k: nat, p: Ptr)
    requires IsList(m, head, path) && LinkedIn(m, n, path, k, p)
    requires forall i :: 0 <= i < k ==> m[path[i]].id < n[p].id
    requires forall i :: k <= i < |path| ==> n[p].id < m[path[i]].id
    ensures IsList(n, if k == 0 then p else head, Spliced(path, k, p))
  {
    var s := Spliced(path, k, p);
    forall i | 0 <= i < |s| ensures s[i] in n && s[i] != NULL {
      SplicedAt(path, k, p, i);
    }
    forall i, j | 0 <= i < |s| && j == i + 1 && j < |s| ensures n[s[i]].next == s[j] {
      SplicedAt(path, k, p, i);
      SplicedAt(path, k, p, j);
    }
    SplicedAt(path, k, p, |path|);
    LinkedInAscending(m, n, path, k, p);
  }

  lemma LinkedInAscending<T>(m: Memory<T>, n: Memory<T>, path: seq<Ptr>, k: nat, p: Ptr)
    requires LinkedIn(m, n, path, k, p) && Ascending(m, path)
    requires forall i :: 0 <= i < k ==> m[path[i]].id < n[p].id
    requires forall i :: k <= i < |path| ==> n[p].id < m[path[i]].id
    requires forall i :: 0 <= i < |Spliced(path, k, p)| ==> Spliced(path, k, p)[i] in n
    ensures Ascending(n, Spliced(path, k, p))
  {
    var s := Spliced(path, k, p);
    forall i, j | 0 <= i < j < |s| ensures n[s[i]].id < n[s[j]].id {
      SplicedAt(path, k, p, i);
      SplicedAt(path, k, p, j);
    }
  }

  lemma LinkedInHolds<T>(m: Memory<T>, n: Memory<T>, path: seq<Ptr>, c: map<nat, T>, k: nat, p: Ptr)
    requires LinkedIn(m, n, path, k, p) && Holds(m, path, c) && n[p].id !in c
    requires forall i :: 0 <= i < |Spliced(path, k, p)| ==> Spliced(path, k, p)[i] in n
    ensures Holds(n, Spliced(path, k, p), c[n[p].id := n[p].value])
  {
    var s, d := Spliced(path, k, p), c[n[p].id := n[p].value];
    forall i | 0 <= i < |s| ensures n[s[i]].id in d && d[n[s[i]].id] == n[s[i]].value {
      SplicedAt(path, k, p, i);
    }
    forall id | id in d ensures Occurs(n, s, id) {
      if id == n[p].id {
        SplicedAt(path, k, p, k);
      } else {
        assert Occurs(m, path, id);
        var i :| 0 <= i < |path| && m[path[i]].id == id;
        SplicedAt(path, k, p, if i < k then i else i + 1);
      }
    }
  }
}
