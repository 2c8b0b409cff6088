/** Which images an image still waits for: add_conflicting, check_version_logic and the loops around them. */
module Conflicts {
  import opened Options
  import opened Bytes
  import opened FirmwareFormat
  import opened FirmwareSlots

  // ---------------------------------------------------------------- what it should be

  /** The first byte of a version string as a C char; a missing string starts with the terminator. */
  function FirstChar(s: seq<byte>): int {
    if s == [] then 0 else if Value(s[0]) < 0x80 then Value(s[0]) else Value(s[0]) - 0x100
  }

  /** The application image on offer has a higher major version than the running TEE. */
  predicate TeeTooOld(t: Table)
    requires |t.slots| == IMAGE_SLOTS
  {
    FirstChar(t.slots[APP].meta.pkgVer) > FirstChar(t.slots[TEE].currentVer)
  }

  /** What an image waits for: linked images that are not downloaded (or are being reset), and a TEE that is too old. */
  ghost function Missing(t: Table, i: nat, resetting: Option<nat>): set<nat>
    requires Shaped(t) && i < IMAGE_SLOTS && ValidTargets(i, t.insts[i].linked)
  {
    (set k | 0 <= k < |t.insts[i].linked| && Absent(t, t.insts[i].linked[k], resetting) :: t.insts[i].linked[k])
    + (if i == APP && TeeTooOld(t) then {TEE} else {})
  }

  predicate Absent(t: Table, j: nat, resetting: Option<nat>)
    requires |t.insts| == IMAGE_SLOTS && j < IMAGE_SLOTS
  {
    !IsDownloaded(t, j) || resetting == Some(j)
  }

  ghost predicate Ascending(s: seq<nat>) { forall j, k :: 0 <= j < k < |s| ==> s[j] < s[k] }

  // ---------------------------------------------------------------- add_conflicting

  /** Index of the first element that is not below the id. */
  function Position(s: seq<nat>, id: nat): (k: nat)
    ensures k <= |s| && (forall j :: 0 <= j < k ==> s[j] < id) && (k < |s| ==> s[k] >= id)
  {
    if s == [] || s[0] >= id then 0 else 1 + Position(s[1..], id)
  }

  function Inserted(s: seq<nat>, id: nat): seq<nat> {
    var k := Position(s, id);
    if k < |s| && s[k] == id then s else s[..k] + [id] + s[k..]
  }

  /** In an ascending list without duplicates the id takes its place, and only the id is added. */
  lemma InsertedAscending(s: seq<nat>, id: nat)
    requires Ascending(s)
    ensures Ascending(Inserted(s, id))
    ensures (set x | x in Inserted(s, id)) == (set x | x in s) + {id}
  {
    var k, r := Position(s, id), Inserted(s, id);
    if r != s {
      forall i, j | 0 <= i < j < |r| ensures r[i] < r[j] {
        InsertedAt(s, k, id, i);
        InsertedAt(s, k, id, j);
      }
      InsertedElements(s, k, id);
    }
  }

  lemma InsertedAt(s: seq<nat>, k: nat, id: nat, i: nat)
    requires k <= |s| && i <= |s|
    ensures (s[..k] + [id] + s[k..])[i] == if i < k then s[i] else if i == k then id else s[i - 1]
  {}

  lemma InsertedElements(s: seq<nat>, k: nat, id: nat)
    requires k <= |s|
    ensures (set x | x in s[..k] + [id] + s[k..]) == (set x | x in s) + {id}
  {
    assert s == s[..k] + s[k..];
  }

  method FindPosition(a: array<nat>, len: nat, id: nat) returns (position: nat)
    requires len <= a.Length
    ensures position == Position(a[..len], id)
  {
    position := 0;
    while position < len && a[position] < id
      invariant 0 <= position <= len
      invariant forall j :: 0 <= j < position ==> a[j] < id
    {
      position := position + 1;
    }
    PositionIs(a[..len], id, position);
  }

  /** A copy with a gap at the position, filled with the id. */
  method WithGap(a: array<nat>, len: nat, position: nat, id: nat) returns (b: array<nat>)
    requires a.Length == IMAGE_SLOTS && position <= len < IMAGE_SLOTS
    ensures fresh(b) && b.Length == IMAGE_SLOTS
    ensures b[..len + 1] == a[..len][..position] + [id] + a[..len][position..]
  {
    ghost var s := a[..len];
    b := new nat[IMAGE_SLOTS](_ => 0);
    var i, j := 0, 0;
    while j < len
      invariant 0 <= j <= len && i == (if j <= position then j else j + 1)
      invariant forall m :: 0 <= m < i && m < position ==> b[m] == s[m]
      invariant forall m :: position < m < i ==> b[m] == s[m - 1]
    {
      if i == position {
        i := i + 1;
      }
      b[i] := a[j];
      i, j := i + 1, j + 1;
    }
    b[position] := id;
  }

  /** add_conflicting: fails only when the array is full, and then changes nothing. */
  method AddConflicting(a: array<nat>, len: nat, id: nat) returns (result: int, newLen: nat)
    requires a.Length == IMAGE_SLOTS && len <= IMAGE_SLOTS
    modifies a
    ensures newLen <= IMAGE_SLOTS
    ensures result == if len == IMAGE_SLOTS then -1 else 0
    ensures a[..newLen] == if len == IMAGE_SLOTS then old(a[..len]) else Inserted(old(a[..len]), id)
  {
    if len + 1 > IMAGE_SLOTS {
      return -1, len;
    }
    var position := FindPosition(a, len, id);
    if position < len && a[position] == id {
      return 0, len;
    }
    var b := WithGap(a, len, position, id);
    ghost var r := b[..len + 1];
    for k := 0 to len + 1
      invariant b[..len + 1] == r && forall m :: 0 <= m < k ==> a[m] == r[m]
    {
      a[k] := b[k];
    }
    assert a[..len + 1] == r;
    return 0, len + 1;
  }

  lemma {:induction false} PositionIs(s: seq<nat>, id: nat, k: nat)
    requires k <= |s| && (forall j :: 0 <= j < k ==> s[j] < id) && (k < |s| ==> s[k] >= id)
    ensures Position(s, id) == k
  {
    var p := Position(s, id);
  }

  // ---------------------------------------------------------------- the conflict list of one slot

  /** The linked ids that are absent, in order. */
  function AbsentLinks(t: Table, linked: seq<nat>, resetting: Option<nat>): seq<nat>
    requires |t.insts| == IMAGE_SLOTS && forall k :: 0 <= k < |linked| ==> linked[k] < IMAGE_SLOTS
  {
    if linked == [] then []
    else
      var n := |linked| - 1;
      AbsentLinks(t, linked[..n], resetting) + (if Absent(t, linked[n], resetting) then [linked[n]] else [])
  }

  /** The list the code builds for a slot. */
  function ConflictList(t: Table, i: nat, resetting: Option<nat>): seq<nat>
    requires |t.slots| == IMAGE_SLOTS && |t.insts| == IMAGE_SLOTS && i < IMAGE_SLOTS
    requires forall k :: 0 <= k < |t.insts[i].linked| ==> t.insts[i].linked[k] < IMAGE_SLOTS
  {
    var base := AbsentLinks(t, t.insts[i].linked, resetting);
    if i == APP && TeeTooOld(t) && |base| < IMAGE_SLOTS then Inserted(base, TEE) else base
  }

  lemma {:induction false} AbsentLinksSpec(t: Table, linked: seq<nat>, resetting: Option<nat>)
    requires |t.insts| == IMAGE_SLOTS && Ascending(linked) && forall k :: 0 <= k < |linked| ==> linked[k] < IMAGE_SLOTS
    ensures var r := AbsentLinks(t, linked, resetting);
            && Ascending(r) && |r| <= |linked|
            && (forall x :: x in r <==> x in linked && x < IMAGE_SLOTS && Absent(t, x, resetting))
    decreases |linked|
  {
    if linked != [] {
      var n := |linked| - 1;
      AbsentLinksSpec(t, linked[..n], resetting);
      assert linked == linked[..n] + [linked[n]];
      var front := AbsentLinks(t, linked[..n], resetting);
      assert forall k :: 0 <= k < |front| ==> front[k] in linked[..n];
    }
  }

  lemma {:induction false} AscendingBelow(s: seq<nat>, n: nat)
    requires Ascending(s) && forall k :: 0 <= k < |s| ==> s[k] < n
    ensures |s| <= n
    decreases n
  {
    if s != [] {
      AscendingBelow(s[..|s| - 1], s[|s| - 1]);
    }
  }

  lemma AbsentLinksMissing(t: Table, i: nat, resetting: Option<nat>)
    requires Shaped(t) && i < IMAGE_SLOTS && ValidTargets(i, t.insts[i].linked)
    ensures var r := AbsentLinks(t, t.insts[i].linked, resetting);
            && ValidTargets(i, r) && |r| < IMAGE_SLOTS
            && Missing(t, i, resetting) == (set x | x in r) + (if i == APP && TeeTooOld(t) then {TEE} else {})
  {
    var linked := t.insts[i].linked;
    AbsentLinksSpec(t, linked, resetting);
    NotAll(i, linked);
    var r := AbsentLinks(t, linked, resetting);
    assert forall k :: 0 <= k < |r| ==> r[k] in linked;
    AbsentSet(t, linked, resetting);
  }

  lemma AbsentSet(t: Table, linked: seq<nat>, resetting: Option<nat>)
    requires Shaped(t) && Ascending(linked) && forall k :: 0 <= k < |linked| ==> linked[k] < IMAGE_SLOTS
    ensures (set x | x in AbsentLinks(t, linked, resetting))
         == (set k | 0 <= k < |linked| && Absent(t, linked[k], resetting) :: linked[k])
  {
    AbsentLinksSpec(t, linked, resetting);
  }

  lemma InsertedValid(i: nat, s: seq<nat>, id: nat)
    requires ValidTargets(i, s) && id < IMAGE_SLOTS && id != i
    ensures ValidTargets(i, Inserted(s, id))
  {
    InsertedAscending(s, id);
    var r := Inserted(s, id);
    forall j | 0 <= j < |r| ensures r[j] < IMAGE_SLOTS && r[j] != i {
      InsertedFrom(s, id, r[j]);
    }
  }

  lemma InsertedFrom(s: seq<nat>, id: nat, x: nat)
    requires x in Inserted(s, id)
    ensures x == id || x in s
  {}

  /** The list is what the slot waits for, and the library accepts it. */
  lemma ConflictListSpec(t: Table, i: nat, resetting: Option<nat>)
    requires Shaped(t) && i < IMAGE_SLOTS && ValidTargets(i, t.insts[i].linked)
    ensures var r := ConflictList(t, i, resetting);
            ValidTargets(i, r) && (set x | x in r) == Missing(t, i, resetting)
  {
    AbsentLinksMissing(t, i, resetting);
    var base := AbsentLinks(t, t.insts[i].linked, resetting);
    if i == APP && TeeTooOld(t) {
      InsertedAscending(base, TEE);
      InsertedValid(i, base, TEE);
    }
  }

  /** The TEE is on the application's list because of a link or because of the versions. */
  lemma TeeListed(t: Table, resetting: Option<nat>)
    requires Shaped(t) && ValidTargets(APP, t.insts[APP].linked)
    ensures TEE in ConflictList(t, APP, resetting) <==> (TEE in t.insts[APP].linked && Absent(t, TEE, resetting)) || TeeTooOld(t)
  {
    var linked := t.insts[APP].linked;
    AbsentLinksMissing(t, APP, resetting);
    AbsentLinksSpec(t, linked, resetting);
    var base := AbsentLinks(t, linked, resetting);
    if TeeTooOld(t) {
      InsertedAscending(base, TEE);
      assert TEE in (set x | x in Inserted(base, TEE));
    }
  }

  lemma CharsCompared(a: byte, r: seq<byte>, b: byte, s: seq<byte>)
    ensures FirstChar([a] + r) > FirstChar([b] + s) <==>
              if Value(a) < 0x80 <==> Value(b) < 0x80 then Value(a) > Value(b) else Value(b) >= 0x80
  {
    assert ([a] + r)[0] == a && ([b] + s)[0] == b;
  }

  /**
   * Two version strings are compared by their first bytes, whatever follows, and as C chars: bytes below 0x80 by their
   * values, bytes from 0x80 on by their values too, and any of the latter lies below any of the former.
   */
  lemma FirstBytesCompared(t: Table, resetting: Option<nat>, a: byte, r: seq<byte>, b: byte, s: seq<byte>)
    requires Shaped(t) && ValidTargets(APP, t.insts[APP].linked)
    requires t.slots[APP].meta.pkgVer == [a] + r && t.slots[TEE].currentVer == [b] + s
    ensures TEE in ConflictList(t, APP, resetting) <==>
              || (TEE in t.insts[APP].linked && Absent(t, TEE, resetting))
              || (if Value(a) < 0x80 <==> Value(b) < 0x80 then Value(a) > Value(b) else Value(b) >= 0x80)
  {
    TeeListed(t, resetting);
    CharsCompared(a, r, b, s);
  }

  /** An empty version string counts like a zero byte: above the bytes from 0x80 on and below all others. */
  lemma EmptyVersionCompared(t: Table, resetting: Option<nat>)
    requires Shaped(t) && ValidTargets(APP, t.insts[APP].linked)
    requires t.slots[APP].meta.pkgVer == [] || t.slots[TEE].currentVer == []
    ensures var p, c := t.slots[APP].meta.pkgVer, t.slots[TEE].currentVer;
            TEE in ConflictList(t, APP, resetting) <==>
              || (TEE in t.insts[APP].linked && Absent(t, TEE, resetting))
              || (p != [] && 0 < Value(p[0]) < 0x80) || (c != [] && Value(c[0]) >= 0x80)
  {
    TeeListed(t, resetting);
  }

  /** A list that leaves out the slot itself is not full. */
  lemma NotAll(i: nat, s: seq<nat>)
    requires i < IMAGE_SLOTS && ValidTargets(i, s)
    ensures |s| < IMAGE_SLOTS
  {
    AscendingBelow(s, IMAGE_SLOTS);
    if |s| == IMAGE_SLOTS {
      FullHolds(s, i);
      assert false;
    }
  }

  lemma FullHolds(s: seq<nat>, i: nat)
    requires |s| == IMAGE_SLOTS && Ascending(s) && i < IMAGE_SLOTS && forall k :: 0 <= k < |s| ==> s[k] < IMAGE_SLOTS
    ensures s[i] == i
  {
    assert s[0] < s[1] && s[1] < s[2] && s[2] < s[3];
    assert i == 0 || i == 1 || i == 2 || i == 3;
  }

  /** The loop over the linked slots, which fills the array from the front. */
  method CollectAbsent(t: Table, i: nat, resetting: Option<nat>, a: array<nat>) returns (count: nat)
    requires Shaped(t) && i < IMAGE_SLOTS && ValidTargets(i, t.insts[i].linked) && a.Length == IMAGE_SLOTS
    modifies a
    ensures count <= IMAGE_SLOTS && a[..count] == AbsentLinks(t, t.insts[i].linked, resetting)
  {
    var linked := t.insts[i].linked;
    AscendingBelow(linked, IMAGE_SLOTS);
    count := 0;
    for j := 0 to |linked|
      invariant count <= j && a[..count] == AbsentLinks(t, linked[..j], resetting)
    {
      assert linked[..j + 1][..j] == linked[..j];
      if !IsDownloaded(t, linked[j]) || resetting == Some(linked[j]) {
        a[count] := linked[j];
        count := count + 1;
      }
    }
    assert linked[..|linked|] == linked;
  }

  /** What fw_update_common_finish and fw_update_common_reset do for one slot, array bounds included. */
  method BuildConflicts(t: Table, i: nat, resetting: Option<nat>) returns (conflicting: seq<nat>)
    requires Shaped(t) && i < IMAGE_SLOTS && ValidTargets(i, t.insts[i].linked)
    ensures conflicting == ConflictList(t, i, resetting)
  {
    var a := new nat[IMAGE_SLOTS](_ => 0);
    var count := CollectAbsent(t, i, resetting, a);
    if i == APP {
      var app, tee := FirstChar(t.slots[APP].meta.pkgVer), FirstChar(t.slots[TEE].currentVer);
      if app > tee {
        var ignored;
        ignored, count := AddConflicting(a, count, TEE);
      }
    }
    conflicting := a[..count];
  }
}
