/**
 * Objects that keep their instances in one sorted list with a cloned backup during transactions:
 * what demo/objects/geopoints.c and demo/objects/apn_conn_profile.c have in common.
 */
module InstanceRegistry {
  import opened ErrorCodes
  import opened Options
  import opened AvsList

  // ---------------------------------------------------------------- what the operations mean

  /** What an object makes of its instances: a new one, a reset, a write (and its result), and the final validation. */
  datatype Rules<!T, !W> = Rules(blank: T, reset: T -> T, write: (T, W) -> (T, int), complete: T -> bool)

  /** What a server may do during a transaction. */
  datatype Op<W> = Create(iid: nat) | Remove(iid: nat) | Reset(iid: nat) | Write(iid: nat, w: W)

  /** One operation on the instances; a failed write may have changed its instance all the same. */
  function Applied<T, W>(rules: Rules<T, W>, view: map<nat, T>, op: Op<W>, fails: bool): (map<nat, T>, int) {
    if op.Create? then
      if op.iid in view then (view, ERR_BAD_REQUEST)
      else if fails then (view, ERR_INTERNAL)
      else (view[op.iid := rules.blank], 0)
    else if op.iid !in view then (view, ERR_NOT_FOUND)
    else
      match op
      case Remove(iid) => (view - {iid}, 0)
      case Reset(iid) => (view[iid := rules.reset(view[iid])], 0)
      case Write(iid, w) => var (t, r) := rules.write(view[iid], w); (view[iid := t], r)
  }

  /** All operations in order, if none of them fails. */
  function AppliedAll<T, W>(rules: Rules<T, W>, view: map<nat, T>, ops: seq<Op<W>>): Option<map<nat, T>>
    decreases |ops|
  {
    if ops == [] then Some(view)
    else
      var (v, r) := Applied(rules, view, ops[0], false);
      if r != 0 then None else AppliedAll(rules, v, ops[1..])
  }

  ghost predicate Each<T>(view: map<nat, T>, p: T -> bool) { forall id :: id in view ==> p(view[id]) }

  /** A property that new instances have and that resets and writes keep, failed writes included. */
  ghost predicate Kept<T(!new), W(!new)>(rules: Rules<T, W>, p: T -> bool) {
    && p(rules.blank) && (forall t :: p(t) ==> p(rules.reset(t)))
    && (forall t, w :: p(t) ==> p(rules.write(t, w).0))
  }

  lemma AppliedKeeps<T(!new), W(!new)>(rules: Rules<T, W>, view: map<nat, T>, op: Op<W>, fails: bool, p: T -> bool)
    requires Kept(rules, p) && Each(view, p)
    ensures Each(Applied(rules, view, op, fails).0, p)
  {}

  lemma {:induction false} AppliedAllKeeps<T(!new), W(!new)>(rules: Rules<T, W>, view: map<nat, T>, ops: seq<Op<W>>, p: T -> bool)
    requires Kept(rules, p) && Each(view, p) && AppliedAll(rules, view, ops).Some?
    ensures Each(AppliedAll(rules, view, ops).value, p)
    decreases |ops|
  {
    if ops != [] {
      AppliedKeeps(rules, view, ops[0], false, p);
      AppliedAllKeeps(rules, Applied(rules, view, ops[0], false).0, ops[1..], p);
    }
  }

  /** The successful transactions, one after the other, and nothing of the others. */
  ghost function Committed<T, W>(rules: Rules<T, W>, view: map<nat, T>, transactions: seq<seq<Op<W>>>, results: seq<int>): map<nat, T>
    requires |results| == |transactions|
  {
    if transactions == [] then view
    else
      var n := |transactions| - 1;
      var before := Committed(rules, view, transactions[..n], results[..n]);
      if results[n] != 0 then before
      else match AppliedAll(rules, before, transactions[n]) case Some(v) => v case None => before
  }

  lemma CommittedNext<T, W>(rules: Rules<T, W>, view: map<nat, T>, transactions: seq<seq<Op<W>>>, results: seq<int>, i: nat, r: int)
    requires i < |transactions| && |results| == i
    ensures var before := Committed(rules, view, transactions[..i], results);
            Committed(rules, view, transactions[..i + 1], results + [r])
            == if r != 0 then before
               else match AppliedAll(rules, before, transactions[i]) case Some(v) => v case None => before
  {
    assert transactions[..i + 1][..i] == transactions[..i] && (results + [r])[..i] == results;
  }

  /** The operations of the successful transactions, one after the other. */
  ghost function Accepted<W>(transactions: seq<seq<Op<W>>>, results: seq<int>): seq<Op<W>>
    requires |results| == |transactions|
  {
    if transactions == [] then []
    else
      var n := |transactions| - 1;
      Accepted(transactions[..n], results[..n]) + if results[n] == 0 then transactions[n] else []
  }

  lemma AcceptedNext<W>(transactions: seq<seq<Op<W>>>, results: seq<int>, i: nat, r: int)
    requires i < |transactions| && |results| == i
    ensures Accepted(transactions[..i + 1], results + [r])
         == Accepted(transactions[..i], results) + if r == 0 then transactions[i] else []
  {
    assert transactions[..i + 1][..i] == transactions[..i] && (results + [r])[..i] == results;
  }

  lemma {:induction false} AppliedThen<T, W>(rules: Rules<T, W>, view: map<nat, T>, a: seq<Op<W>>, b: seq<Op<W>>)
    requires AppliedAll(rules, view, a).Some?
    ensures AppliedAll(rules, view, a + b) == AppliedAll(rules, AppliedAll(rules, view, a).value, b)
    decreases |a|
  {
    if a == [] {
      assert a + b == b;
    } else {
      assert (a + b)[0] == a[0] && (a + b)[1..] == a[1..] + b;
      AppliedThen(rules, Applied(rules, view, a[0], false).0, a[1..], b);
    }
  }

  // ---------------------------------------------------------------- what the instances hold

  /** A resource: what is read from an instance, what a write puts there if it is a write to it, and what is there at first. */
  datatype Resource<!T, !W, !V> = Resource(read: T -> V, written: W -> Option<V>, initial: V)

  /** A successful write to the resource stores its value, a write to another one leaves it alone, a reset clears it. */
  ghost predicate Obeys<T(!new), W(!new), V(!new)>(rules: Rules<T, W>, f: Resource<T, W, V>) {
    && f.read(rules.blank) == f.initial && (forall t :: f.read(rules.reset(t)) == f.initial)
    && (forall t, w :: rules.write(t, w).1 == 0 ==>
          f.read(rules.write(t, w).0) == match f.written(w) case Some(v) => v case None => f.read(t))
  }

  /** What an operation puts into the resource of its instance, if anything. */
  function Puts<T(!new), W(!new), V(!new)>(f: Resource<T, W, V>, op: Op<W>): Option<V> {
    match op
    case Create(_) => Some(f.initial)
    case Remove(_) => None
    case Reset(_) => Some(f.initial)
    case Write(_, w) => f.written(w)
  }

  /** No operation from position k on puts anything into the resource of this instance or removes it. */
  ghost predicate LeftAlone<T(!new), W(!new), V(!new)>(f: Resource<T, W, V>, ops: seq<Op<W>>, iid: nat, k: nat) {
    forall j :: k <= j < |ops| && ops[j].iid == iid ==> !ops[j].Remove? && Puts(f, ops[j]).None?
  }

  /** The latest operation to put something there is the one at position k. */
  ghost predicate LatestAt<T(!new), W(!new), V(!new)>(f: Resource<T, W, V>, ops: seq<Op<W>>, iid: nat, k: nat) {
    k < |ops| && ops[k].iid == iid && Puts(f, ops[k]).Some? && LeftAlone(f, ops, iid, k + 1)
  }

  /** The instances hold what was put there last, or else what they held before. */
  ghost predicate Remembered<T(!new), W(!new), V(!new)>(f: Resource<T, W, V>, before: map<nat, T>, ops: seq<Op<W>>, after: map<nat, T>) {
    && (forall iid: nat, k: nat :: LatestAt(f, ops, iid, k) ==> iid in after && f.read(after[iid]) == Puts(f, ops[k]).value)
    && (forall iid: nat :: LeftAlone(f, ops, iid, 0) ==>
          && (iid in after <==> iid in before) && (iid in before ==> f.read(after[iid]) == f.read(before[iid])))
  }

  lemma LeftAloneTail<T(!new), W(!new), V(!new)>(f: Resource<T, W, V>, ops: seq<Op<W>>, iid: nat, k: nat)
    requires ops != [] && k > 0 && LeftAlone(f, ops, iid, k)
    ensures LeftAlone(f, ops[1..], iid, k - 1)
  {
    forall j | k - 1 <= j < |ops[1..]| && ops[1..][j].iid == iid ensures !ops[1..][j].Remove? && Puts(f, ops[1..][j]).None? {
      assert ops[1..][j] == ops[j + 1];
    }
  }

  lemma {:induction false} UntouchedHeld<T(!new), W(!new), V(!new)>(rules: Rules<T, W>, f: Resource<T, W, V>, view: map<nat, T>,
                                                                   ops: seq<Op<W>>, iid: nat)
    requires Obeys(rules, f) && AppliedAll(rules, view, ops).Some? && LeftAlone(f, ops, iid, 0)
    ensures var v := AppliedAll(rules, view, ops).value;
            (iid in v <==> iid in view) && (iid in view ==> f.read(v[iid]) == f.read(view[iid]))
    decreases |ops|
  {
    if ops != [] {
      assert LeftAlone(f, ops, iid, 1);
      LeftAloneTail(f, ops, iid, 1);
      UntouchedHeld(rules, f, Applied(rules, view, ops[0], false).0, ops[1..], iid);
    }
  }

  lemma {:induction false} LatestHeld<T(!new), W(!new), V(!new)>(rules: Rules<T, W>, f: Resource<T, W, V>, view: map<nat, T>,
                                                                ops: seq<Op<W>>, iid: nat, k: nat)
    requires Obeys(rules, f) && AppliedAll(rules, view, ops).Some? && LatestAt(f, ops, iid, k)
    ensures var v := AppliedAll(rules, view, ops).value; iid in v && f.read(v[iid]) == Puts(f, ops[k]).value
    decreases |ops|
  {
    var next := Applied(rules, view, ops[0], false).0;
    LeftAloneTail(f, ops, iid, k + 1);
    if k == 0 {
      UntouchedHeld(rules, f, next, ops[1..], iid);
    } else {
      assert ops[1..][k - 1] == ops[k];
      LatestHeld(rules, f, next, ops[1..], iid, k - 1);
    }
  }

  /** After any operations that all succeed every resource of every instance holds what was put there last. */
  lemma AppliedRemembers<T(!new), W(!new), V(!new)>(rules: Rules<T, W>, f: Resource<T, W, V>, view: map<nat, T>, ops: seq<Op<W>>)
    requires Obeys(rules, f) && AppliedAll(rules, view, ops).Some?
    ensures Remembered(f, view, ops, AppliedAll(rules, view, ops).value)
  {
    var v := AppliedAll(rules, view, ops).value;
    forall iid: nat, k: nat | LatestAt(f, ops, iid, k) ensures iid in v && f.read(v[iid]) == Puts(f, ops[k]).value {
      LatestHeld(rules, f, view, ops, iid, k);
    }
    forall iid: nat | LeftAlone(f, ops, iid, 0)
      ensures (iid in v <==> iid in view) && (iid in view ==> f.read(v[iid]) == f.read(view[iid]))
    {
      UntouchedHeld(rules, f, view, ops, iid);
    }
  }

  /** An instance is there afterwards if and only if it was created after it was last removed, or was there and never removed. */
  lemma {:induction false} LatestExistence<T, W>(rules: Rules<T, W>, view: map<nat, T>, ops: seq<Op<W>>, iid: nat)
    requires AppliedAll(rules, view, ops).Some?
    ensures iid in AppliedAll(rules, view, ops).value <==> Exists(iid in view, ops, iid)
    decreases |ops|
  {
    if ops != [] {
      var next := Applied(rules, view, ops[0], false).0;
      LatestExistence(rules, next, ops[1..], iid);
      ExistsTail(iid in view, ops, iid);
    }
  }

  ghost predicate Exists<W>(before: bool, ops: seq<Op<W>>, iid: nat) {
    if ops == [] then before
    else
      var last := ops[|ops| - 1];
      if last.iid == iid && (last.Create? || last.Remove?) then last.Create? else Exists(before, ops[..|ops| - 1], iid)
  }

  lemma {:induction false} ExistsTail<W>(before: bool, ops: seq<Op<W>>, iid: nat)
    requires ops != []
    ensures Exists(before, ops, iid) == Exists(Exists(before, ops[..1], iid), ops[1..], iid)
    decreases |ops|
  {
    var n := |ops| - 1;
    if n > 0 {
      ExistsTail(before, ops[..n], iid);
      assert ops[..n][..1] == ops[..1] && ops[..n][1..] == ops[1..][..n - 1] && ops[1..][n - 1] == ops[n];
    } else {
      assert ops[..1] == ops && ops[1..] == [];
    }
  }

  // ---------------------------------------------------------------- two lists in one memory

  /** Where a list lies and what it holds. */
  datatype Listing<T> = Listing(path: seq<Ptr>, view: map<nat, T>)

  ghost predicate At<T>(m: Memory<T>, head: Ptr, l: Listing<T>) { Represents(m, head, l.path, l.view) }

  /** Two lists without a cell in common, and no other cells. */
  ghost predicate TwoLists<T>(m: Memory<T>, a: Ptr, la: Listing<T>, b: Ptr, lb: Listing<T>) {
    && At(m, a, la) && At(m, b, lb)
    && Elements(la.path) !! Elements(lb.path) && m.Keys == Elements(la.path) + Elements(lb.path)
  }

  /** A change to the cells of one list, and to free cells, leaves the other list alone. */
  lemma OtherListKept<T>(m: Memory<T>, n: Memory<T>, b: Ptr, lb: Listing<T>, changed: set<Ptr>)
    requires At(m, b, lb) && SameOutside(m, n, changed) && changed !! Elements(lb.path)
    ensures At(n, b, lb)
  {
    forall i | 0 <= i < |lb.path| ensures lb.path[i] !in changed {
      assert lb.path[i] in Elements(lb.path);
    }
    Untouched(m, n, changed, b, lb.path, lb.view);
  }

  lemma ListGrown<T>(m: Memory<T>, n: Memory<T>, a: Ptr, la: Listing<T>, b: Ptr, lb: Listing<T>, a': Ptr, la': Listing<T>, p: Ptr)
    requires TwoLists(m, a, la, b, lb) && Grown(m, n, la.path, la'.path, {p}) && At(n, a', la')
    ensures TwoLists(n, a', la', b, lb)
  {
    OtherListKept(m, n, b, lb, Elements(la'.path));
  }

  lemma ListShrunk<T>(m: Memory<T>, n: Memory<T>, a: Ptr, la: Listing<T>, b: Ptr, lb: Listing<T>, a': Ptr, la': Listing<T>)
    requires TwoLists(m, a, la, b, lb) && Shrunk(m, n, la.path, la'.path) && At(n, a', la')
    ensures TwoLists(n, a', la', b, lb)
  {
    OtherListKept(m, n, b, lb, Elements(la.path));
  }

  lemma CellChanged<T>(m: Memory<T>, n: Memory<T>, a: Ptr, la: Listing<T>, b: Ptr, lb: Listing<T>, la': Listing<T>, p: Ptr)
    requires TwoLists(m, a, la, b, lb) && p in la.path && p in m && p in n && n == m[p := n[p]]
    requires At(n, a, la') && la'.path == la.path
    ensures TwoLists(n, a, la', b, lb)
  {
    assert p in Elements(la.path);
    OtherListKept(m, n, b, lb, {p});
  }

  lemma ListCloned<T>(m: Memory<T>, n: Memory<T>, a: Ptr, la: Listing<T>, b: Ptr, lb: Listing<T>)
    requires TwoLists(m, a, la, NULL, Listing([], map[])) && Grown(m, n, [], lb.path, Elements(lb.path)) && At(n, b, lb)
    ensures TwoLists(n, a, la, b, lb)
  {
    OtherListKept(m, n, a, la, Elements(lb.path));
  }

  lemma ListFreed<T>(m: Memory<T>, n: Memory<T>, a: Ptr, la: Listing<T>, b: Ptr, lb: Listing<T>)
    requires TwoLists(m, a, la, b, lb) && n == m - Elements(la.path)
    ensures TwoLists(n, b, lb, NULL, Listing([], map[]))
  {
    OtherListKept(m, n, b, lb, Elements(la.path));
  }

  lemma Exchanged<T>(m: Memory<T>, a: Ptr, la: Listing<T>, b: Ptr, lb: Listing<T>)
    requires TwoLists(m, a, la, b, lb)
    ensures TwoLists(m, b, lb, a, la)
  {}

  lemma EmptyHolds<T>(m: Memory<T>, l: Listing<T>)
    requires At(m, NULL, l)
    ensures l == Listing([], map[])
  {
    assert l.path == [];
    forall id ensures id !in l.view {
      assert id in l.view ==> Occurs(m, l.path, id);
    }
  }

  // ---------------------------------------------------------------- the handlers

  class Registry<T(!new), W(!new)> {
    const heap: Heap<T>
    const rules: Rules<T, W>
    var instances: Ptr
    var saved: Ptr
    ghost var live: Listing<T>
    ghost var backup: Listing<T>

    ghost predicate Valid()
      reads this, heap
    {
      heap.Valid() && TwoLists(heap.cells, instances, live, saved, backup)
    }

    /** No backup is kept outside transactions. */
    ghost predicate Idle()
      reads this
    {
      saved == NULL
    }

    constructor (rules: Rules<T, W>, fails: nat -> bool)
      ensures Valid() && Idle() && live.view == map[] && this.rules == rules && fresh(heap)
    {
      heap := new Heap(fails);
      this.rules := rules;
      instances, saved, live, backup := NULL, NULL, Listing([], map[]), Listing([], map[]);
    }

    /** instance_create, for an identifier not in use. */
    method Create(iid: nat) returns (result: int)
      requires Valid() && iid !in live.view
      modifies this`instances, this`live, heap
      ensures Valid() && (live.view, result) == Applied(rules, old(live.view), Op<W>.Create(iid), heap.fails(old(heap.calls)))
    {
      var p;
      ghost var longer;
      ghost var m := heap.cells;
      instances, p, longer := heap.Insert(instances, iid, rules.blank, live.path, live.view);
      if p == NULL {
        return ERR_INTERNAL;
      }
      ghost var now := Listing(longer, live.view[iid := rules.blank]);
      ListGrown(m, heap.cells, old(instances), live, saved, backup, instances, now, p);
      live := now;
      result := 0;
    }

    /** instance_remove. */
    method Remove(iid: nat) returns (result: int)
      requires Valid()
      modifies this`instances, this`live, heap
      ensures Valid() && live.view == old(live.view) - {iid} && result == if iid in old(live.view) then 0 else ERR_NOT_FOUND
    {
      var found;
      ghost var shorter;
      ghost var m := heap.cells;
      instances, found, shorter := heap.Delete(instances, iid, live.path, live.view);
      if !found {
        assert live.view == live.view - {iid};
        return ERR_NOT_FOUND;
      }
      ghost var now := Listing(shorter, live.view - {iid});
      ListShrunk(m, heap.cells, old(instances), live, saved, backup, instances, now);
      live := now;
      result := 0;
    }

    /** A change of one instance in place. */
    method Change(p: Ptr, value: T)
      requires Valid() && p in live.path && p in heap.cells
      modifies this`live, heap
      ensures Valid() && live.view == old(live.view)[old(heap.cells)[p].id := value]
    {
      ghost var m := heap.cells;
      heap.SetValue(p, value, instances, live.path, live.view);
      ghost var now := Listing(live.path, live.view[m[p].id := value]);
      CellChanged(m, heap.cells, instances, live, saved, backup, now, p);
      live := now;
    }

    /** The framework looks the instance up and calls the handler; it refuses what the handler does not expect. */
    method Apply(op: Op<W>) returns (result: int)
      requires Valid()
      modifies this`instances, this`live, heap
      ensures Valid() && (live.view, result) == Applied(rules, old(live.view), op, heap.fails(old(heap.calls)))
    {
      var p := heap.Find(instances, op.iid, live.path, live.view);
      match op
      case Create(iid) =>
        if p != NULL {
          return ERR_BAD_REQUEST;
        }
        result := Create(iid);
      case Remove(iid) => result := Remove(iid);
        if p == NULL { assert live.view == old(live.view); }
      case Reset(iid) =>
        if p == NULL {
          return ERR_NOT_FOUND;
        }
        Change(p, rules.reset(heap.cells[p].value));
        result := 0;
      case Write(iid, w) =>
        if p == NULL {
          return ERR_NOT_FOUND;
        }
        var (value, r) := rules.write(heap.cells[p].value, w);
        Change(p, value);
        result := r;
    }

    /** transaction_validate. */
    method Validate() returns (result: int)
      requires Valid()
      ensures result == if Each(live.view, rules.complete) then 0 else ERR_BAD_REQUEST
    {
      var p := instances;
      ghost var k := 0;
      while p != NULL
        invariant k <= |live.path| && p == First(live.path[k..])
        invariant forall i :: 0 <= i < k ==> rules.complete(heap.cells[live.path[i]].value)
        decreases |live.path| - k
      {
        assert p == live.path[k];
        if !rules.complete(heap.cells[p].value) {
          return ERR_BAD_REQUEST;
        }
        p, k := heap.cells[p].next, k + 1;
      }
      assert Each(live.view, rules.complete) by {
        forall id | id in live.view ensures rules.complete(live.view[id]) {
          assert Occurs(heap.cells, live.path, id);
        }
      }
      result := 0;
    }

    /** transaction_begin: a copy of all instances, or an error and no copy. */
    method Begin() returns (result: int)
      requires Valid() && Idle()
      modifies this`saved, this`backup, heap
      ensures Valid() && (result == 0 ==> backup.view == live.view)
      ensures result != 0 ==> result == ERR_INTERNAL && Idle() && !heap.Plentiful()
    {
      EmptyHolds(heap.cells, backup);
      if instances == NULL {
        EmptyHolds(heap.cells, live);
        return 0;
      }
      var ok;
      ghost var copy;
      ghost var m := heap.cells;
      ok, saved, copy := heap.Clone(instances, live.path, live.view);
      if !ok {
        return ERR_INTERNAL;
      }
      backup := Listing(copy, live.view);
      ListCloned(m, heap.cells, instances, live, saved, backup);
      result := 0;
    }

    /** transaction_commit: the copy is freed. */
    method Commit()
      requires Valid()
      modifies this`saved, this`backup, heap
      ensures Valid() && Idle()
    {
      ghost var m := heap.cells;
      heap.Clear(saved, backup.path);
      Exchanged(m, instances, live, saved, backup);
      ListFreed(m, heap.cells, saved, backup, instances, live);
      saved, backup := NULL, Listing([], map[]);
    }

    /** transaction_rollback: the instances are freed and the copy takes their place. */
    method Rollback()
      requires Valid()
      modifies this`instances, this`saved, this`live, this`backup, heap
      ensures Valid() && Idle() && live.view == old(backup.view)
    {
      ghost var m := heap.cells;
      heap.Clear(instances, live.path);
      ListFreed(m, heap.cells, instances, live, saved, backup);
      instances, live := saved, backup;
      saved, backup := NULL, Listing([], map[]);
    }

    /** A whole transaction: begin, operations until one fails, validation, then commit or rollback. */
    method Transact(ops: seq<Op<W>>) returns (result: int)
      requires Valid() && Idle()
      modifies this`instances, this`saved, this`live, this`backup, heap
      ensures Valid() && Idle()
      ensures result != 0 ==> live.view == old(live.view)
      ensures result == 0 ==> AppliedAll(rules, old(live.view), ops) == Some(live.view) && Each(live.view, rules.complete)
      ensures heap.Plentiful() ==>
                (result == 0 <==> var v := AppliedAll(rules, old(live.view), ops); v.Some? && Each(v.value, rules.complete))
    {
      result := Begin();
      if result != 0 {
        return;
      }
      ghost var kept := backup;
      for i := 0 to |ops|
        invariant Valid() && backup == kept && result == 0
        invariant AppliedAll(rules, old(live.view), ops) == AppliedAll(rules, live.view, ops[i..])
      {
        result := Apply(ops[i]);
        assert ops[i..][1..] == ops[i + 1..];
        if result != 0 {
          Rollback();
          return;
        }
      }
      result := Validate();
      if result == 0 {
        Commit();
      } else {
        Rollback();
      }
    }

    /**
     * Whatever transactions the server runs, however they end and wherever memory runs out: between them every
     * instance is complete and has every property that blank instances have and writes keep.
     */
    method Run(transactions: seq<seq<Op<W>>>, ghost kept: T -> bool) returns (results: seq<int>)
      requires Valid() && Idle() && Kept(rules, kept) && Each(live.view, kept) && Each(live.view, rules.complete)
      modifies this`instances, this`saved, this`live, this`backup, heap
      ensures Valid() && Idle() && Each(live.view, kept) && Each(live.view, rules.complete)
      ensures |results| == |transactions| && live.view == Committed(rules, old(live.view), transactions, results)
      ensures AppliedAll(rules, old(live.view), Accepted(transactions, results)) == Some(live.view)
    {
      results := [];
      for i := 0 to |transactions|
        invariant Valid() && Idle() && Each(live.view, kept) && Each(live.view, rules.complete) && |results| == i
        invariant live.view == Committed(rules, old(live.view), transactions[..i], results)
        invariant AppliedAll(rules, old(live.view), Accepted(transactions[..i], results)) == Some(live.view)
      {
        ghost var view := live.view;
        var r := Transact(transactions[i]);
        if r == 0 { AppliedAllKeeps(rules, view, transactions[i], kept); }
        CommittedNext(rules, old(live.view), transactions, results, i, r);
        AcceptedNext(transactions, results, i, r);
        AppliedThen(rules, old(live.view), Accepted(transactions[..i], results), if r == 0 then transactions[i] else []);
        results := results + [r];
      }
      assert transactions[..|transactions|] == transactions;
    }
  }
}
