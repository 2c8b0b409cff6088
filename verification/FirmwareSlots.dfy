/**
 * The four image slots of demo/advanced_firmware_update.c, the files they point to, and the
 * per-instance record the library keeps (src/modules/advanced_fw_update).
 */
module FirmwareSlots {
  import opened ErrorCodes
  import opened Options
  import opened Bytes
  import opened Crc32
  import opened FirmwareFormat

  const APP: nat := 0
  const TEE: nat := 1

  const FORCE_ERROR_OUT_OF_MEMORY: nat := 1

  /** Administratively chosen names, and names drawn by mkstemp, of which no two are ever the same. */
  datatype Path = Named(name: string) | Temp(n: nat)

  /** A download stream; one whose file has been replaced by a rename no longer reaches the path. */
  datatype Stream = Closed | Attached | Orphaned

  datatype Slot = Slot(path: Option<Path>, admin: Option<Path>, meta: Meta, stream: Stream, currentVer: seq<byte>)

  datatype State = Idle | Downloading | Downloaded | Updating

  /** The library's record of an instance; result 0 is INITIAL, 11 is DEFERRED. */
  datatype Instance = Instance(state: State, result: nat, linked: seq<nat>, conflicting: seq<nat>)

  datatype Table = Table(files: map<Path, seq<byte>>, nextTemp: nat, slots: seq<Slot>, insts: seq<Instance>)

  // ---------------------------------------------------------------- well-formedness

  ghost predicate Shaped(t: Table) { |t.slots| == IMAGE_SLOTS && |t.insts| == IMAGE_SLOTS }

  /** Names this slot uses or will use. */
  ghost function Names(s: Slot): set<Path> {
    (if s.path.Some? then {s.path.value} else {}) + (if s.admin.Some? then {s.admin.value} else {})
  }

  ghost predicate Known(n: nat, p: Path) { p.Temp? ==> p.n < n }

  ghost predicate AllKnown(n: nat, ps: set<Path>) { forall p :: p in ps ==> Known(n, p) }

  /** Temporary names in use lie below the counter; different slots never share a name; open streams have a file. */
  ghost predicate Tidy(t: Table) {
    && Shaped(t)
    && AllKnown(t.nextTemp, t.files.Keys)
    && (forall i :: 0 <= i < IMAGE_SLOTS ==> AllKnown(t.nextTemp, Names(t.slots[i])))
    && (forall i, j :: 0 <= i < IMAGE_SLOTS && 0 <= j < IMAGE_SLOTS && i != j ==> Names(t.slots[i]) !! Names(t.slots[j]))
    && (forall i :: 0 <= i < IMAGE_SLOTS && t.slots[i].stream.Attached? ==> HasFile(t, i))
  }

  ghost predicate HasFile(t: Table, i: nat)
    requires Shaped(t) && i < IMAGE_SLOTS
  {
    t.slots[i].path.Some? && t.slots[i].path.value in t.files
  }

  function File(t: Table, i: nat): seq<byte>
    requires |t.slots| == IMAGE_SLOTS && i < IMAGE_SLOTS && t.slots[i].path.Some? && t.slots[i].path.value in t.files
  {
    t.files[t.slots[i].path.value]
  }

  predicate IsDownloaded(t: Table, i: nat)
    requires |t.insts| == IMAGE_SLOTS && i < IMAGE_SLOTS
  {
    t.insts[i].state.Downloaded?
  }

  // ---------------------------------------------------------------- the library's record

  /** validate_target_iid_list: strictly ascending, existing, not the instance itself. */
  predicate ValidTargets(i: nat, targets: seq<nat>) {
    && (forall j, k :: 0 <= j < k < |targets| ==> targets[j] < targets[k])
    && (forall j :: 0 <= j < |targets| ==> targets[j] < IMAGE_SLOTS && targets[j] != i)
  }

  function SetLinked(t: Table, i: nat, targets: seq<nat>): (Table, int)
    requires |t.insts| == IMAGE_SLOTS && i < IMAGE_SLOTS
  {
    if ValidTargets(i, targets) then (t.(insts := t.insts[i := t.insts[i].(linked := targets)]), 0) else (t, ERR_GENERIC)
  }

  function SetConflicting(t: Table, i: nat, targets: seq<nat>): (Table, int)
    requires |t.insts| == IMAGE_SLOTS && i < IMAGE_SLOTS
  {
    if ValidTargets(i, targets) then (t.(insts := t.insts[i := t.insts[i].(conflicting := targets)]), 0) else (t, ERR_GENERIC)
  }

  /** is_state_change_allowed for the only target state the code asks for while it unpacks. */
  predicate MayBecomeDownloaded(s: State) { s.Idle? || s.Downloading? }

  function MarkDownloaded(t: Table, i: nat): (Table, int)
    requires |t.insts| == IMAGE_SLOTS && i < IMAGE_SLOTS
  {
    if MayBecomeDownloaded(t.insts[i].state)
    then (t.(insts := t.insts[i := t.insts[i].(state := Downloaded, result := 0)]), 0) else (t, ERR_GENERIC)
  }

  function WithState(t: Table, i: nat, s: State): Table
    requires |t.insts| == IMAGE_SLOTS && i < IMAGE_SLOTS
  {
    t.(insts := t.insts[i := t.insts[i].(state := s)])
  }

  // ---------------------------------------------------------------- validation of one slot

  /** The metadata vouches for the stored file. */
  ghost predicate Vouches(t: Table, i: nat)
    requires Shaped(t) && i < IMAGE_SLOTS
  {
    && HasFile(t, i) && t.slots[i].meta.magic == MAGICS[i] && t.slots[i].meta.headerVer == HEADER_VER_SINGLE
    && t.slots[i].meta.crc == Crc(File(t, i))
  }

  /** validate_firmware. */
  function Validate(t: Table, i: nat): int
    requires |t.slots| == IMAGE_SLOTS && i < IMAGE_SLOTS
  {
    var s := t.slots[i];
    if s.meta.magic != MAGICS[i] || s.meta.headerVer != HEADER_VER_SINGLE then ERR_UNSUPPORTED_PACKAGE_TYPE
    else if s.path.None? || s.path.value !in t.files then ERR_INTEGRITY_FAILURE
    else if s.meta.crc != Crc(t.files[s.path.value]) then ERR_INTEGRITY_FAILURE
    else if s.meta.forceError == FORCE_ERROR_OUT_OF_MEMORY then ERR_OUT_OF_MEMORY
    else 0
  }

  /** The linked ids of a header: bytes below eight, in order. */
  function LinkedIds(linked: seq<byte>): seq<nat> {
    if linked == [] then []
    else (if Value(linked[0]) < 8 then [Value(linked[0])] else []) + LinkedIds(linked[1..])
  }

  /** A slot passes exactly when its metadata vouches for its file and asks for no error; the code says what is wrong. */
  lemma ValidateSpec(t: Table, i: nat)
    requires Shaped(t) && i < IMAGE_SLOTS
    ensures var r, m := Validate(t, i), t.slots[i].meta;
            && (r == 0 <==> Vouches(t, i) && m.forceError != FORCE_ERROR_OUT_OF_MEMORY)
            && (r == ERR_OUT_OF_MEMORY <==> Vouches(t, i) && m.forceError == FORCE_ERROR_OUT_OF_MEMORY)
            && (r == ERR_UNSUPPORTED_PACKAGE_TYPE <==> m.magic != MAGICS[i] || m.headerVer != HEADER_VER_SINGLE)
            && (r == 0 || r == ERR_OUT_OF_MEMORY || r == ERR_UNSUPPORTED_PACKAGE_TYPE || r == ERR_INTEGRITY_FAILURE)
  {}

  lemma {:induction false} LinkedIdsJoin(a: seq<byte>, b: seq<byte>)
    ensures LinkedIds(a + b) == LinkedIds(a) + LinkedIds(b)
    decreases |a|
  {
    if a == [] {
      assert a + b == b;
    } else {
      assert (a + b)[0] == a[0] && (a + b)[1..] == a[1..] + b;
      LinkedIdsJoin(a[1..], b);
    }
  }

  /** A header lists its links in front; what is not below eight stands for no link, wherever it is. */
  lemma {:induction false} LinkedIdsRead(ids: seq<byte>, padding: seq<byte>)
    requires (forall k :: 0 <= k < |ids| ==> Value(ids[k]) < 8) && (forall k :: 0 <= k < |padding| ==> Value(padding[k]) >= 8)
    ensures |LinkedIds(ids + padding)| == |ids| && forall k :: 0 <= k < |ids| ==> LinkedIds(ids + padding)[k] == Value(ids[k])
    decreases |ids| + |padding|
  {
    if ids != [] {
      assert (ids + padding)[0] == ids[0] && (ids + padding)[1..] == ids[1..] + padding;
      LinkedIdsRead(ids[1..], padding);
    } else if padding != [] {
      assert ids + padding == padding && [] + padding[1..] == padding[1..];
      LinkedIdsRead([], padding[1..]);
    }
  }

  /** What the library demands of the linked ids, told from the bytes of the header. */
  ghost predicate LinksLegal(j: nat, linked: seq<byte>) {
    && (forall a :: 0 <= a < |linked| && Value(linked[a]) < 8 ==> Value(linked[a]) < IMAGE_SLOTS && Value(linked[a]) != j)
    && (forall a, b :: 0 <= a < b < |linked| && Value(linked[a]) < 8 && Value(linked[b]) < 8 ==> Value(linked[a]) < Value(linked[b]))
  }

  lemma {:induction false} LinkedIn(linked: seq<byte>, x: nat)
    ensures x in LinkedIds(linked) <==> x < 8 && exists a :: 0 <= a < |linked| && Value(linked[a]) == x
    decreases |linked|
  {
    if linked != [] {
      LinkedIn(linked[1..], x);
      assert forall a :: 0 < a < |linked| ==> linked[a] == linked[1..][a - 1];
    }
  }

  lemma ValidTargetsCons(j: nat, x: nat, rest: seq<nat>)
    ensures ValidTargets(j, [x] + rest) <==>
              x < IMAGE_SLOTS && x != j && ValidTargets(j, rest) && forall y :: y in rest ==> x < y
  {
    var all := [x] + rest;
    if ValidTargets(j, all) {
      forall y | y in rest ensures x < y { var k :| 0 <= k < |rest| && rest[k] == y; assert all[0] < all[k + 1]; }
      forall a, b | 0 <= a < b < |rest| ensures rest[a] < rest[b] { assert all[a + 1] < all[b + 1]; }
      forall a | 0 <= a < |rest| ensures rest[a] < IMAGE_SLOTS && rest[a] != j { assert all[a + 1] == rest[a]; }
    } else if x < IMAGE_SLOTS && x != j && ValidTargets(j, rest) && forall y :: y in rest ==> x < y {
      forall a, b | 0 <= a < b < |all| ensures all[a] < all[b] { assert all[b] == rest[b - 1] && all[b] in rest; }
      assert false;
    }
  }

  /** The links of the rest come after this one. */
  ghost predicate Precedes(x: nat, linked: seq<byte>) {
    forall a :: 0 <= a < |linked| && Value(linked[a]) < 8 ==> x < Value(linked[a])
  }

  lemma LinksLegalTail(j: nat, linked: seq<byte>)
    requires linked != [] && LinksLegal(j, linked)
    ensures LinksLegal(j, linked[1..])
    ensures Value(linked[0]) < 8 ==> Value(linked[0]) < IMAGE_SLOTS && Value(linked[0]) != j && Precedes(Value(linked[0]), linked[1..])
  {
    var tail := linked[1..];
    forall a, b | 0 <= a < b < |tail| && Value(tail[a]) < 8 && Value(tail[b]) < 8 ensures Value(tail[a]) < Value(tail[b]) {
      assert linked[a + 1] == tail[a] && linked[b + 1] == tail[b];
    }
  }

  lemma LinksLegalCons(j: nat, linked: seq<byte>)
    requires linked != [] && LinksLegal(j, linked[1..])
    requires Value(linked[0]) < 8 ==> Value(linked[0]) < IMAGE_SLOTS && Value(linked[0]) != j && Precedes(Value(linked[0]), linked[1..])
    ensures LinksLegal(j, linked)
  {
    var tail := linked[1..];
    forall a, b | 0 <= a < b < |linked| && Value(linked[a]) < 8 && Value(linked[b]) < 8 ensures Value(linked[a]) < Value(linked[b]) {
      assert linked[b] == tail[b - 1] && (a > 0 ==> linked[a] == tail[a - 1]);
    }
    forall a | 0 <= a < |linked| && Value(linked[a]) < 8 ensures Value(linked[a]) < IMAGE_SLOTS && Value(linked[a]) != j {
      assert a > 0 ==> linked[a] == tail[a - 1];
    }
  }

  /** The links of a header are accepted for slot j if and only if they ascend, exist and leave out the slot itself. */
  lemma {:induction false} LinksDecided(j: nat, linked: seq<byte>)
    ensures ValidTargets(j, LinkedIds(linked)) <==> LinksLegal(j, linked)
    decreases |linked|
  {
    if linked != [] {
      var x, tail := Value(linked[0]), linked[1..];
      LinksDecided(j, tail);
      if LinksLegal(j, linked) { LinksLegalTail(j, linked); }
      if LinksLegal(j, tail) && (x < 8 ==> x < IMAGE_SLOTS && x != j && Precedes(x, tail)) { LinksLegalCons(j, linked); }
      if x < 8 {
        ValidTargetsCons(j, x, LinkedIds(tail));
        Smaller(x, tail);
      } else {
        assert LinkedIds(linked) == LinkedIds(tail);
      }
    }
  }

  lemma Smaller(x: nat, linked: seq<byte>)
    ensures (forall y :: y in LinkedIds(linked) ==> x < y) <==> Precedes(x, linked)
  {
    var ids := LinkedIds(linked);
    if Precedes(x, linked) {
      forall k | 0 <= k < |ids| ensures x < ids[k] { LinkedIn(linked, ids[k]); }
    } else {
      var a :| 0 <= a < |linked| && Value(linked[a]) < 8 && x >= Value(linked[a]);
      LinkedIn(linked, Value(linked[a]));
    }
  }

  /** One round of the loop in preprocess_firmware: validate, set the links, mark. */
  function Process(t: Table, i: nat): (Table, int)
    requires |t.slots| == IMAGE_SLOTS && |t.insts| == IMAGE_SLOTS && i < IMAGE_SLOTS
  {
    if Validate(t, i) != 0 then (t, Validate(t, i))
    else
      var (u, e) := SetLinked(t, i, LinkedIds(t.slots[i].meta.linked));
      if e != 0 then (u, e) else MarkDownloaded(u, i)
  }

  function ProcessAll(t: Table, ids: seq<nat>): (r: (Table, int))
    requires |t.slots| == IMAGE_SLOTS && |t.insts| == IMAGE_SLOTS && forall k :: 0 <= k < |ids| ==> ids[k] < IMAGE_SLOTS
    ensures r.0.slots == t.slots && r.0.files == t.files && r.0.nextTemp == t.nextTemp && |r.0.insts| == IMAGE_SLOTS
    decreases |ids|
  {
    if ids == [] then (t, 0)
    else
      var (u, e) := Process(t, ids[0]);
      if e != 0 then (u, e) else ProcessAll(u, ids[1..])
  }

  // ---------------------------------------------------------------- unpacking

  /** The package a bundle holds for a slot: the last one with its magic. */
  function PackageFor(ps: seq<Package>, i: nat): Option<Package>
    requires i < IMAGE_SLOTS
  {
    if ps == [] then None
    else if ps[|ps| - 1].meta.magic == MAGICS[i] then Some(ps[|ps| - 1])
    else PackageFor(ps[..|ps| - 1], i)
  }

  /** Slots addressed by a bundle, from slot i on, in ascending order. */
  function AddressedFrom(ps: seq<Package>, i: nat): (r: seq<nat>)
    requires i <= IMAGE_SLOTS
    ensures forall k :: 0 <= k < |r| ==> i <= r[k] < IMAGE_SLOTS
    decreases IMAGE_SLOTS - i
  {
    if i == IMAGE_SLOTS then []
    else (if PackageFor(ps, i).Some? then [i] else []) + AddressedFrom(ps, i + 1)
  }

  function Addressed(ps: seq<Package>): seq<nat> { AddressedFrom(ps, 0) }

  /** fw_update_common_maybe_create_firmware_file. */
  function EnsurePath(t: Table, i: nat): (u: Table)
    requires |t.slots| == IMAGE_SLOTS && i < IMAGE_SLOTS
    ensures |u.slots| == IMAGE_SLOTS && u.slots[i].path.Some? && u.insts == t.insts
  {
    var s := t.slots[i];
    if s.path.Some? then t
    else if s.admin.Some? then t.(slots := t.slots[i := s.(path := s.admin)])
    else
      t.(files := t.files[Temp(t.nextTemp) := []], nextTemp := t.nextTemp + 1,
         slots := t.slots[i := s.(path := Some(Temp(t.nextTemp)))])
  }

  /** A staged image takes its place: its file is renamed to the slot's path and its metadata stored. */
  function CommitOne(t: Table, i: nat, p: Package): (u: Table)
    requires |t.slots| == IMAGE_SLOTS && i < IMAGE_SLOTS
    ensures |u.slots| == IMAGE_SLOTS && u.insts == t.insts
  {
    var v := EnsurePath(t, i);
    var s := v.slots[i];
    v.(files := v.files[s.path.value := p.payload],
       slots := v.slots[i := s.(meta := p.meta, stream := if s.stream.Attached? then Orphaned else s.stream)])
  }

  function CommitFrom(t: Table, ps: seq<Package>, i: nat): (u: Table)
    requires |t.slots| == IMAGE_SLOTS && i <= IMAGE_SLOTS
    ensures |u.slots| == IMAGE_SLOTS && u.insts == t.insts
    decreases IMAGE_SLOTS - i
  {
    if i == IMAGE_SLOTS then t
    else CommitFrom(match PackageFor(ps, i) case None => t case Some(p) => CommitOne(t, i, p), ps, i + 1)
  }

  /** maybe_delete_firmware_file. */
  function DeleteFile(t: Table, i: nat): (u: Table)
    requires |t.slots| == IMAGE_SLOTS && i < IMAGE_SLOTS
    ensures |u.slots| == IMAGE_SLOTS && u.insts == t.insts
  {
    var s := t.slots[i];
    if s.path.None? then t
    else t.(files := t.files - {s.path.value}, slots := t.slots[i := s.(path := None)])
  }

  function CloseStream(t: Table, i: nat): (u: Table)
    requires |t.slots| == IMAGE_SLOTS && i < IMAGE_SLOTS
    ensures |u.slots| == IMAGE_SLOTS && u.insts == t.insts
  {
    t.(slots := t.slots[i := t.slots[i].(stream := Closed)])
  }

  /** How many packages of a bundle are replaced by a later one for the same slot. */
  function Superseded(ps: seq<Package>): int { |ps| - |Addressed(ps)| }

  /** All files of before, unchanged, and temporary ones with names drawn since. */
  ghost predicate NewFiles(before: map<Path, seq<byte>>, n0: nat, files: map<Path, seq<byte>>, n: nat) {
    && n0 <= n && before.Keys <= files.Keys && (forall p :: p in before ==> files[p] == before[p])
    && (forall p :: p in files && p !in before ==> p.Temp? && n0 <= p.n < n)
  }

  /** The same, and that many new ones. */
  ghost predicate MoreFiles(before: map<Path, seq<byte>>, n0: nat, files: map<Path, seq<byte>>, n: nat, count: int) {
    NewFiles(before, n0, files, n) && |files.Keys - before.Keys| == count
  }

  /** Unpacking has used up temporary names and left behind the files of superseded packages, nothing else. */
  ghost predicate Littered(t: Table, u: Table, ps: seq<Package>) {
    u.slots == t.slots && u.insts == t.insts && MoreFiles(t.files, t.nextTemp, u.files, u.nextTemp, Superseded(ps))
  }

  /** A slot the bundle addresses although it is already downloaded: the first one counts. */
  function ClashFrom(t: Table, ps: seq<Package>, i: nat): Option<nat>
    requires |t.insts| == IMAGE_SLOTS && i <= IMAGE_SLOTS
    decreases IMAGE_SLOTS - i
  {
    if i == IMAGE_SLOTS then None
    else if PackageFor(ps, i).Some? && IsDownloaded(t, i) then Some(i)
    else ClashFrom(t, ps, i + 1)
  }

  /** The lowest slot that is addressed and downloaded. */
  lemma {:induction false} ClashIs(t: Table, ps: seq<Package>, k: nat, x: nat)
    requires |t.insts| == IMAGE_SLOTS && k <= x < IMAGE_SLOTS
    ensures ClashFrom(t, ps, k) == Some(x) <==>
              && PackageFor(ps, x).Some? && IsDownloaded(t, x)
              && forall j :: k <= j < x ==> PackageFor(ps, j).None? || !IsDownloaded(t, j)
    decreases IMAGE_SLOTS - k
  {
    if k < x { ClashIs(t, ps, k + 1, x); } else { ClashAbove(t, ps, k + 1); }
  }

  lemma {:induction false} ClashAbove(t: Table, ps: seq<Package>, k: nat)
    requires |t.insts| == IMAGE_SLOTS && k <= IMAGE_SLOTS
    ensures ClashFrom(t, ps, k).Some? ==> k <= ClashFrom(t, ps, k).value < IMAGE_SLOTS
    decreases IMAGE_SLOTS - k
  {
    if k < IMAGE_SLOTS { ClashAbove(t, ps, k + 1); }
  }

  /** What becomes of a bundle once its packages have been staged; l is the table with what staging left behind. */
  ghost predicate Outcome(t: Table, i: nat, u: Unpacked, l: Table, t': Table, result: int)
    requires Shaped(t) && i < IMAGE_SLOTS
  {
    && Littered(t, l, u.packages)
    && (if u.error != 0 then t' == DeleteFile(l, i) && result == u.error
        else if ClashFrom(t, u.packages, 0).Some? then
          t' == DeleteFile(SetConflicting(l, i, [ClashFrom(t, u.packages, 0).value]).0, i) && result == ERR_CONFLICTING_STATE
        else t' == CommitFrom(l, u.packages, 0) && result == 0)
  }

  /** unpack_firmware_in_place, after the download stream of the receiving slot has been closed. */
  ghost predicate UnpackStep(t: Table, i: nat, t': Table, result: int)
    requires Shaped(t) && i < IMAGE_SLOTS
  {
    if !HasFile(t, i) then t' == t && result == ERR_GENERIC
    else exists l: Table :: Outcome(t, i, ReadBundle(File(t, i)), l, t', result)
  }
}
