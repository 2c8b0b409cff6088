/** The persistence file of demo/software_mgmt.c: one record per software instance, rewritten as a whole. */
module SoftwarePersistence {
  import opened Options
  import opened Bytes
  import opened Sequences

  const PACKAGES: nat := 3
  const IDLE: byte := 0
  const INSTALLING: byte := 3

  /** State, downloaded file, whether its name was chosen administratively, and whether the instance exists. */
  datatype Record = Record(state: byte, file: Option<string>, chosen: bool, exists_: bool)

  /** is_valid_result: the six states of the library's enumeration. */
  predicate ValidState(b: byte) { Value(b) < 6 }

  // ---------------------------------------------------------------- the format

  /** The library's encoding of strings (a null pointer included) and booleans; reading also says how much was used. */
  datatype Codec = Codec(
    putString: Option<string> -> seq<byte>,
    getString: seq<byte> -> Option<(Option<string>, nat)>,
    putBool: bool -> seq<byte>,
    getBool: seq<byte> -> Option<(bool, nat)>)

  /** What was put can be got back, whatever follows it, and nothing is read past the end. */
  ghost predicate Lawful(c: Codec) {
    && (forall s, rest :: StringBack(c, s, rest)) && (forall b, rest :: BoolBack(c, b, rest))
    && (forall bytes :: Bounded(c, bytes))
  }

  ghost predicate StringBack(c: Codec, s: Option<string>, rest: seq<byte>) {
    c.getString(c.putString(s) + rest) == Some((s, |c.putString(s)|))
  }

  ghost predicate BoolBack(c: Codec, b: bool, rest: seq<byte>) {
    c.getBool(c.putBool(b) + rest) == Some((b, |c.putBool(b)|))
  }

  ghost predicate Bounded(c: Codec, bytes: seq<byte>) {
    && (c.getString(bytes).Some? ==> c.getString(bytes).value.1 <= |bytes|)
    && (c.getBool(bytes).Some? ==> c.getBool(bytes).value.1 <= |bytes|)
  }

  function PutRecord(c: Codec, r: Record): seq<byte> {
    [r.state] + (c.putString(r.file) + (c.putBool(r.chosen) + c.putBool(r.exists_)))
  }

  function PutAll(c: Codec, data: seq<Record>): seq<byte> {
    if data == [] then [] else PutRecord(c, data[0]) + PutAll(c, data[1..])
  }

  /** A string or boolean and what comes after it. */
  ghost function TakeString(c: Codec, bytes: seq<byte>): Option<(Option<string>, seq<byte>)>
    requires Lawful(c)
  {
    assert Bounded(c, bytes);
    match c.getString(bytes) case None => None case Some((s, n)) => Some((s, bytes[n..]))
  }

  ghost function TakeBool(c: Codec, bytes: seq<byte>): Option<(bool, seq<byte>)>
    requires Lawful(c)
  {
    assert Bounded(c, bytes);
    match c.getBool(bytes) case None => None case Some((b, n)) => Some((b, bytes[n..]))
  }

  ghost function TakeRecord(c: Codec, bytes: seq<byte>): Option<(Record, seq<byte>)>
    requires Lawful(c)
  {
    if bytes == [] || !ValidState(bytes[0]) then None
    else match TakeString(c, bytes[1..])
      case None => None
      case Some((file, b1)) =>
        match TakeBool(c, b1)
        case None => None
        case Some((chosen, b2)) =>
          match TakeBool(c, b2)
          case None => None
          case Some((exists_, b3)) => Some((Record(bytes[0], file, chosen, exists_), b3))
  }

  ghost function TakeAll(c: Codec, bytes: seq<byte>, count: nat): (r: Option<seq<Record>>)
    requires Lawful(c)
    ensures r.Some? ==> |r.value| == count
    decreases count
  {
    if count == 0 then Some([])
    else match TakeRecord(c, bytes)
      case None => None
      case Some((r, rest)) => match TakeAll(c, rest, count - 1) case None => None case Some(rs) => Some([r] + rs)
  }

  const ZERO: Record := Record(IDLE, None, false, false)

  function Fallback(first: byte): seq<Record> { [ZERO.(state := first), ZERO, ZERO] }

  /** read_persistence_file: an unreadable but existing file still counts as a success of the first instance. */
  ghost function Loaded(c: Codec, file: Option<seq<byte>>): (r: (int, seq<Record>))
    requires Lawful(c)
    ensures |r.1| == PACKAGES
  {
    match file
    case None => (-1, Fallback(IDLE))
    case Some(bytes) => match TakeAll(c, bytes, PACKAGES) case None => (-1, Fallback(INSTALLING)) case Some(data) => (0, data)
  }

  // ---------------------------------------------------------------- reading inverts writing

  lemma StringTaken(c: Codec, s: Option<string>, rest: seq<byte>)
    requires Lawful(c)
    ensures TakeString(c, c.putString(s) + rest) == Some((s, rest))
  {
    assert StringBack(c, s, rest);
  }

  lemma BoolTaken(c: Codec, b: bool, rest: seq<byte>)
    requires Lawful(c)
    ensures TakeBool(c, c.putBool(b) + rest) == Some((b, rest))
  {
    assert BoolBack(c, b, rest);
  }

  lemma RecordTaken(c: Codec, r: Record, rest: seq<byte>)
    requires Lawful(c) && ValidState(r.state)
    ensures TakeRecord(c, PutRecord(c, r) + rest) == Some((r, rest))
  {
    var last := c.putBool(r.exists_) + rest;
    var b2 := c.putBool(r.chosen) + last;
    var b1 := c.putString(r.file) + b2;
    assert PutRecord(c, r) + rest == [r.state] + b1;
    assert ([r.state] + b1)[1..] == b1;
    StringTaken(c, r.file, b2);
    BoolTaken(c, r.chosen, last);
    BoolTaken(c, r.exists_, rest);
  }

  ghost predicate ValidStates(data: seq<Record>) { forall i :: 0 <= i < |data| ==> ValidState(data[i].state) }

  lemma {:induction false} AllTaken(c: Codec, data: seq<Record>, rest: seq<byte>)
    requires Lawful(c) && ValidStates(data)
    ensures TakeAll(c, PutAll(c, data) + rest, |data|) == Some(data)
    decreases |data|
  {
    if data != [] {
      assert PutAll(c, data) + rest == PutRecord(c, data[0]) + (PutAll(c, data[1..]) + rest);
      RecordTaken(c, data[0], PutAll(c, data[1..]) + rest);
      AllTaken(c, data[1..], rest);
      assert [data[0]] + data[1..] == data;
    }
  }

  /** For every record set with valid states, reading gives back what was written. */
  lemma ReadInvertsWrite(c: Codec, data: seq<Record>)
    requires Lawful(c) && |data| == PACKAGES && ValidStates(data)
    ensures Loaded(c, Some(PutAll(c, data))) == (0, data)
  {
    AllTaken(c, data, []);
    assert PutAll(c, data) + [] == PutAll(c, data);
  }

  lemma {:induction false} TakenValid(c: Codec, bytes: seq<byte>, count: nat)
    requires Lawful(c) && TakeAll(c, bytes, count).Some?
    ensures ValidStates(TakeAll(c, bytes, count).value)
    decreases count
  {
    if count > 0 { TakenValid(c, TakeRecord(c, bytes).value.1, count - 1); }
  }

  lemma LoadedValid(c: Codec, file: Option<seq<byte>>)
    requires Lawful(c)
    ensures ValidStates(Loaded(c, file).1)
  {
    if file.Some? && TakeAll(c, file.value, PACKAGES).Some? { TakenValid(c, file.value, PACKAGES); }
  }

  /**
   * Without a file everything is idle, unnamed and missing. A file that cannot be read to the end differs from that in one
   * point: the first instance is being installed. Reading succeeds if and only if there are three records to be read.
   */
  lemma LoadedOtherwise(c: Codec, file: Option<seq<byte>>)
    requires Lawful(c)
    ensures var (result, data) := Loaded(c, file);
            && (result == 0 <==> file.Some? && TakeAll(c, file.value, 3).Some?)
            && (result != 0 ==>
                  && result == -1 && data[0].state == (if file.Some? then INSTALLING else IDLE)
                  && (forall i :: 0 <= i < 3 ==> data[i].file.None? && !data[i].chosen && !data[i].exists_ && (i > 0 ==> data[i].state == IDLE)))
  {}

  // ---------------------------------------------------------------- updates

  datatype Update = Store(iid: nat, state: byte, file: Option<string>, chosen: bool) | Existence(iid: nat, exists_: bool)

  ghost predicate Legal(u: Update) { u.iid < PACKAGES && (u.Store? ==> ValidState(u.state)) }

  function Updated(r: Record, u: Update): Record {
    match u
    case Store(_, state, file, chosen) => Record(state, file, chosen, true)
    case Existence(_, e) => r.(exists_ := e)
  }

  function Apply(data: seq<Record>, u: Update): seq<Record>
    requires |data| == PACKAGES && u.iid < PACKAGES
  {
    data[u.iid := Updated(data[u.iid], u)]
  }

  function ApplyAll(data: seq<Record>, us: seq<Update>): (r: seq<Record>)
    requires |data| == PACKAGES && forall k :: 0 <= k < |us| ==> us[k].iid < PACKAGES
    ensures |r| == PACKAGES
    decreases |us|
  {
    if us == [] then data else Apply(ApplyAll(data, us[..|us| - 1]), us[|us| - 1])
  }

  /** What one instance's record becomes, looking at its own updates only. */
  function Latest(r: Record, us: seq<Update>, iid: nat): Record
    decreases |us|
  {
    if us == [] then r
    else
      var before := Latest(r, us[..|us| - 1], iid);
      if us[|us| - 1].iid == iid then Updated(before, us[|us| - 1]) else before
  }

  /** Updates of other instances leave a record untouched. */
  lemma {:induction false} OnlyOwnUpdates(data: seq<Record>, us: seq<Update>, iid: nat)
    requires |data| == PACKAGES && iid < PACKAGES && forall k :: 0 <= k < |us| ==> us[k].iid < PACKAGES
    ensures ApplyAll(data, us)[iid] == Latest(data[iid], us, iid)
    decreases |us|
  {
    if us != [] { OnlyOwnUpdates(data, us[..|us| - 1], iid); }
  }

  /** If the last full update of an instance is at position k, everything but its existence is from there. */
  lemma {:induction false} LatestWins(r: Record, us: seq<Update>, iid: nat, k: nat)
    requires k < |us| && us[k].Store? && us[k].iid == iid
    requires forall j :: k < j < |us| && us[j].iid == iid ==> us[j].Existence?
    ensures Latest(r, us, iid).(exists_ := true) == Record(us[k].state, us[k].file, us[k].chosen, true)
    decreases |us|
  {
    var n := |us| - 1;
    if k < n {
      assert us[..n][k] == us[k];
      LatestWins(r, us[..n], iid, k);
    }
  }

  /** Whether an instance exists is decided by its last update of either kind. */
  lemma {:induction false} LatestExistence(r: Record, us: seq<Update>, iid: nat, k: nat)
    requires k < |us| && us[k].iid == iid && forall j :: k < j < |us| ==> us[j].iid != iid
    ensures Latest(r, us, iid).exists_ == (us[k].Store? || us[k].exists_)
    decreases |us|
  {
    var n := |us| - 1;
    if k < n {
      assert us[..n][k] == us[k];
      LatestExistence(r, us[..n], iid, k);
    }
  }

  // ---------------------------------------------------------------- the code

  class PersistenceFile {
    const codec: Codec
    var file: Option<seq<byte>>

    constructor (codec: Codec, file: Option<seq<byte>>)
      ensures this.codec == codec && this.file == file
    {
      this.codec, this.file := codec, file;
    }

    /** write_persistence_file; failsAt is the first record that cannot be written, if any. */
    method Write(data: seq<Record>, failsAt: Option<nat>) returns (result: int)
      requires |data| == PACKAGES
      modifies this
      ensures failsAt.None? || failsAt.value >= PACKAGES ==> result == 0 && file == Some(PutAll(codec, data))
      ensures failsAt.Some? && failsAt.value < PACKAGES ==> result == -1 && file == None
    {
      var out := [];
      WrittenNone(codec, data);
      for iid := 0 to PACKAGES
        invariant failsAt.Some? ==> iid <= failsAt.value
        invariant WrittenUpto(codec, data, iid, out) == true
      {
        if failsAt == Some(iid) {
          file := None;
          return -1;
        }
        WrittenNext(codec, data, iid, out);
        out := out + PutRecord(codec, data[iid]);
      }
      WrittenAll(codec, data, out);
      file := Some(out);
      result := 0;
    }

    /** One record: byte, string, two booleans. */
    method ReadRecord(bytes: seq<byte>) returns (r: Option<(Record, seq<byte>)>)
      requires Lawful(codec)
      ensures r == TakeRecord(codec, bytes)
    {
      if bytes == [] || !ValidState(bytes[0]) {
        return None;
      }
      var rest := bytes[1..];
      assert Bounded(codec, rest);
      var s := codec.getString(rest);
      if s.None? {
        return None;
      }
      rest := rest[s.value.1..];
      assert Bounded(codec, rest);
      var chosen := codec.getBool(rest);
      if chosen.None? {
        return None;
      }
      rest := rest[chosen.value.1..];
      assert Bounded(codec, rest);
      var e := codec.getBool(rest);
      if e.None? {
        return None;
      }
      r := Some((Record(bytes[0], s.value.0, chosen.value.0, e.value.0), rest[e.value.1..]));
    }

    /** read_persistence_file. */
    method Read() returns (result: int, data: seq<Record>)
      requires Lawful(codec)
      ensures (result, data) == Loaded(codec, file)
    {
      data := [ZERO, ZERO, ZERO];
      if file.None? {
        return -1, Fallback(IDLE);
      }
      var rest := file.value;
      ghost var all := TakeAll(codec, rest, PACKAGES);
      PrefixedNone(all);
      assert data[..0] == [];
      for iid := 0 to PACKAGES
        invariant |data| == PACKAGES
        invariant all == Prefixed(data[..iid], TakeAll(codec, rest, PACKAGES - iid))
      {
        var r := ReadRecord(rest);
        if r.None? {
          return -1, Fallback(INSTALLING);
        }
        PrefixedNext(data[..iid], r.value.0, TakeAll(codec, r.value.1, PACKAGES - iid - 1));
        assert data[iid := r.value.0][..iid + 1] == data[..iid] + [r.value.0];
        data, rest := data[iid := r.value.0], r.value.1;
      }
      assert data[..PACKAGES] + [] == data;
      result := 0;
    }

    /** update_persistence_file and update_persisted_instance_existence: errors of the reading are ignored. */
    method Change(u: Update, failsAt: Option<nat>) returns (result: int)
      requires Lawful(codec) && Legal(u)
      modifies this
      ensures result == 0 ==> Loaded(codec, file) == (0, Apply(Loaded(codec, old(file)).1, u))
      ensures result != 0 ==> file == None
      ensures result == 0 <==> failsAt.None? || failsAt.value >= PACKAGES
    {
      var ignored, data := Read();
      LoadedValid(codec, file);
      data := data[u.iid := Updated(data[u.iid], u)];
      result := Write(data, failsAt);
      if result == 0 { ReadInvertsWrite(codec, data); }
    }

    /** After any sequence of updates that succeed, starting from any file at all, everything is there. */
    method ChangeAll(us: seq<Update>)
      requires Lawful(codec) && forall k :: 0 <= k < |us| ==> us[k].iid < PACKAGES && Legal(us[k])
      modifies this
      ensures Loaded(codec, file).1 == ApplyAll(Loaded(codec, old(file)).1, us)
      ensures us != [] ==> Loaded(codec, file).0 == 0
    {
      ghost var start := Loaded(codec, file).1;
      for i := 0 to |us|
        invariant Loaded(codec, file).1 == ApplyAll(start, us[..i]) && (i > 0 ==> Loaded(codec, file).0 == 0)
      {
        assert us[..i + 1][..i] == us[..i];
        var result := Change(us[i], None);
      }
      assert us[..|us|] == us;
    }
  }

  /** The records in front of position i are in the output. */
  ghost predicate WrittenUpto(c: Codec, data: seq<Record>, i: nat, out: seq<byte>)
    requires i <= |data|
  {
    out + PutAll(c, data[i..]) == PutAll(c, data)
  }

  lemma WrittenNone(c: Codec, data: seq<Record>)
    ensures WrittenUpto(c, data, 0, []) == true
  {
    assert data[0..] == data && [] + PutAll(c, data) == PutAll(c, data);
  }

  lemma WrittenNext(c: Codec, data: seq<Record>, i: nat, out: seq<byte>)
    requires i < |data| && WrittenUpto(c, data, i, out)
    ensures WrittenUpto(c, data, i + 1, out + PutRecord(c, data[i])) == true
  {
    assert data[i..][1..] == data[i + 1..];
    Regroup(out, PutRecord(c, data[i]), PutAll(c, data[i + 1..]));
  }

  lemma WrittenAll(c: Codec, data: seq<Record>, out: seq<byte>)
    requires WrittenUpto(c, data, |data|, out)
    ensures out == PutAll(c, data)
  {
    assert out + [] == out;
  }
}
