/**
 * The package formats of demo/advanced_firmware_update.c: one image behind a metadata
 * header, or a MULTIPKG bundle of up to four.
 */
module FirmwareFormat {
  import opened ErrorCodes
  import opened Bytes
  import opened Words
  import opened Options
  import opened Sequences

  const HEADER_VER_SINGLE: nat := 3
  const HEADER_VER_MULTI: nat := 4
  const IMAGE_SLOTS: nat := 4
  const MAX_VERSION_LEN: nat := 24
  const FIXED_HEADER_LEN: nat := 25

  const MULTI_MAGIC: seq<byte> := [0x4D, 0x55, 0x4C, 0x54, 0x49, 0x50, 0x4B, 0x47]   // MULTIPKG

  /** The magic of each image slot: AJAY_APP, AJAY_TEE, AJAYBOOT, AJAYMODE. */
  const MAGICS: seq<seq<byte>> := [
    [0x41, 0x4A, 0x41, 0x59, 0x5F, 0x41, 0x50, 0x50],
    [0x41, 0x4A, 0x41, 0x59, 0x5F, 0x54, 0x45, 0x45],
    [0x41, 0x4A, 0x41, 0x59, 0x42, 0x4F, 0x4F, 0x54],
    [0x41, 0x4A, 0x41, 0x59, 0x4D, 0x4F, 0x44, 0x45]]

  datatype Meta = Meta(magic: seq<byte>, headerVer: nat, forceError: nat, crc: word, linked: seq<byte>, pkgVer: seq<byte>)

  /** What the struct holds before any package has been read. */
  const NO_META: Meta := Meta([0, 0, 0, 0, 0, 0, 0, 0], 0, 0, 0, [0, 0, 0, 0, 0, 0, 0, 0], [])

  datatype Package = Package(meta: Meta, payload: seq<byte>)

  // ---------------------------------------------------------------- writing

  predicate LegalMeta(m: Meta) {
    && |m.magic| == 8 && m.headerVer < 0x1_0000 && m.forceError < 0x1_0000 && |m.linked| == 8
    && 1 <= |m.pkgVer| <= MAX_VERSION_LEN
  }

  function MetaLen(m: Meta): nat { FIXED_HEADER_LEN + |m.pkgVer| }

  function EncodeWord(w: word): (s: seq<byte>)
    ensures |s| == 4
  {
    [((w >> 24) & 0xFF) as bv8, ((w >> 16) & 0xFF) as bv8, ((w >> 8) & 0xFF) as bv8, (w & 0xFF) as bv8]
  }

  ghost function EncodeMeta(m: Meta): (s: seq<byte>)
    requires LegalMeta(m)
    ensures |s| == MetaLen(m)
  {
    m.magic + Be16(m.headerVer) + Be16(m.forceError) + EncodeWord(m.crc) + m.linked + [ToByte(|m.pkgVer|)] + m.pkgVer
  }

  /** A package for one of the slots, as it may come on its own. */
  predicate LonePackage(p: Package) { LegalMeta(p.meta) && p.meta.magic in MAGICS }

  /** A package that fits into a bundle, whose table holds 32-bit lengths. */
  predicate LegalPackage(p: Package) { LonePackage(p) && PackageLen(p) < 0x1_0000_0000 }

  function PackageLen(p: Package): nat { MetaLen(p.meta) + |p.payload| }

  ghost function EncodePackage(p: Package): (s: seq<byte>)
    requires LonePackage(p)
    ensures |s| == PackageLen(p)
  {
    EncodeMeta(p.meta) + p.payload
  }

  predicate LegalAll(ps: seq<Package>) { forall i :: 0 <= i < |ps| ==> LegalPackage(ps[i]) }

  ghost function EncodeLengths(ps: seq<Package>): (s: seq<byte>)
    requires LegalAll(ps)
    ensures |s| == 4 * |ps|
  {
    if ps == [] then [] else Be32(PackageLen(ps[0])) + EncodeLengths(ps[1..])
  }

  ghost function EncodeBodies(ps: seq<Package>): seq<byte>
    requires LegalAll(ps)
  {
    if ps == [] then [] else EncodePackage(ps[0]) + EncodeBodies(ps[1..])
  }

  ghost function MultiHeader(count: nat): (s: seq<byte>)
    requires count < 0x1_0000
    ensures |s| == 12
  {
    MULTI_MAGIC + Be16(HEADER_VER_MULTI) + Be16(count)
  }

  /** A bundle: header, table of lengths, then the packages. */
  ghost function EncodeBundle(ps: seq<Package>): seq<byte>
    requires |ps| < 0x1_0000 && LegalAll(ps)
  {
    MultiHeader(|ps|) + EncodeLengths(ps) + EncodeBodies(ps)
  }

  // ---------------------------------------------------------------- reading

  function DecodeWord(s: seq<byte>): word
    requires |s| == 4
  {
    (s[0] as bv32 << 24) | (s[1] as bv32 << 16) | (s[2] as bv32 << 8) | (s[3] as bv32)
  }

  /** read_fw_meta_from_file on the bytes ahead. */
  function ParseMeta(s: seq<byte>): (r: Result<Meta>)
    ensures r.Good? ==> LegalMeta(r.value) && MetaLen(r.value) <= |s|
  {
    if |s| < FIXED_HEADER_LEN then Bad(ERR_GENERIC)
    else
      var n := Value(s[24]);
      if n > MAX_VERSION_LEN || n == 0 then Bad(ERR_UNSUPPORTED_PACKAGE_TYPE)
      else if |s| < FIXED_HEADER_LEN + n then Bad(ERR_GENERIC)
      else Good(Meta(s[..8], FromBe16(s[8..10]), FromBe16(s[10..12]), DecodeWord(s[12..16]), s[16..24], s[25..25 + n]))
  }

  /** How many payload bytes a declared package length leaves, in 32-bit arithmetic. */
  function PayloadLen(declared: nat, metaLen: nat): nat {
    (declared - metaLen) % 0x1_0000_0000
  }

  /** unpack_fw_to_file and the search for a slot: the package at the front; a declared length of 0 means "the rest". */
  function TakePackage(s: seq<byte>, declared: nat): (r: Result<Package>)
    ensures r.Good? ==> PackageLen(r.value) <= |s| && LegalMeta(r.value.meta) && r.value.meta.magic in MAGICS
  {
    match ParseMeta(s)
    case Bad(e) => Bad(e)
    case Good(m) =>
      var body := s[MetaLen(m)..];
      if declared != 0 && |body| < PayloadLen(declared, MetaLen(m)) then Bad(ERR_GENERIC)
      else if m.magic !in MAGICS then Bad(ERR_GENERIC)
      else Good(Package(m, if declared == 0 then body else body[..PayloadLen(declared, MetaLen(m))]))
  }

  /** What unpacking gets through before it ends or fails. */
  datatype Unpacked = Unpacked(packages: seq<Package>, error: int)

  function TakeAll(s: seq<byte>, declared: seq<nat>): Unpacked {
    if declared == [] then Unpacked([], 0)
    else
      match TakePackage(s, declared[0])
      case Bad(e) => Unpacked([], e)
      case Good(p) =>
        var rest := TakeAll(s[PackageLen(p)..], declared[1..]);
        Unpacked([p] + rest.packages, rest.error)
  }

  /** The table of package lengths; a zero entry is an error. */
  function ParseLengths(s: seq<byte>, count: nat): (r: Result<seq<nat>>)
    ensures r.Good? ==> |r.value| == count && 4 * count <= |s|
    ensures r.Bad? ==> r.error == ERR_GENERIC
  {
    if count == 0 then Good([])
    else if |s| < 4 || FromBe32(s[..4]) == 0 then Bad(ERR_GENERIC)
    else
      match ParseLengths(s[4..], count - 1)
      case Bad(e) => Bad(e)
      case Good(rest) => Good([FromBe32(s[..4])] + rest)
  }

  /** The table of lengths and the packages behind it; a count of zero stands for one open-ended package. */
  function ReadTable(s: seq<byte>, count: nat): Unpacked {
    if count == 0 then TakeAll(s, [0])
    else
      match ParseLengths(s, count)
      case Bad(e) => Unpacked([], e)
      case Good(declared) => TakeAll(s[4 * count..], declared)
  }

  /** handle_multipackage and the unpacking loop of unpack_firmware_in_place. */
  function ReadBundle(s: seq<byte>): Unpacked {
    if |s| < 10 then Unpacked([], ERR_GENERIC)
    else if FromBe16(s[8..10]) == HEADER_VER_MULTI && s[..8] == MULTI_MAGIC then
      if |s| < 12 || FromBe16(s[10..12]) > IMAGE_SLOTS then Unpacked([], ERR_GENERIC)
      else ReadTable(s[12..], FromBe16(s[10..12]))
    else TakeAll(s, [0])
  }

  // ---------------------------------------------------------------- round trips

  lemma WordRoundTrip(w: word)
    ensures DecodeWord(EncodeWord(w)) == w
  {}

  lemma WordInverse(s: seq<byte>)
    requires |s| == 4
    ensures EncodeWord(DecodeWord(s)) == s
  {}

  lemma MetaRoundTrip(m: Meta, rest: seq<byte>)
    requires LegalMeta(m)
    ensures ParseMeta(EncodeMeta(m) + rest) == Good(m)
  {
    var s := EncodeMeta(m) + rest;
    assert s[..8] == m.magic;
    assert s[8..10] == Be16(m.headerVer);
    assert s[10..12] == Be16(m.forceError);
    assert s[12..16] == EncodeWord(m.crc);
    assert s[16..24] == m.linked;
    assert s[24] == ToByte(|m.pkgVer|);
    assert s[25..25 + |m.pkgVer|] == m.pkgVer;
    Be16RoundTrip(m.headerVer);
    Be16RoundTrip(m.forceError);
    WordRoundTrip(m.crc);
  }

  /** Parsing accepts nothing but encodings. */
  lemma MetaInverse(s: seq<byte>)
    requires ParseMeta(s).Good?
    ensures var m := ParseMeta(s).value; EncodeMeta(m) == s[..MetaLen(m)]
  {
    var m, n := ParseMeta(s).value, Value(s[24]);
    Be16Inverse(s[8..10]);
    Be16Inverse(s[10..12]);
    WordInverse(s[12..16]);
    ToByteInverse(s[24]);
    assert s[..8] + s[8..10] == s[..10];
    assert s[..10] + s[10..12] == s[..12];
    assert s[..12] + s[12..16] == s[..16];
    assert s[..16] + s[16..24] == s[..24];
    assert s[..24] + [s[24]] == s[..25];
    assert s[..25] + s[25..25 + n] == s[..25 + n];
  }

  /** What is no header: too few bytes, or a version string that is empty or too long, which has a code of its own. */
  lemma MetaRefused(s: seq<byte>)
    ensures ParseMeta(s).Bad? <==> |s| < 25 || Value(s[24]) == 0 || Value(s[24]) > 24 || |s| < 25 + Value(s[24])
    ensures ParseMeta(s).Bad? ==>
              ParseMeta(s).error == if |s| >= 25 && (Value(s[24]) == 0 || Value(s[24]) > 24) then ERR_UNSUPPORTED_PACKAGE_TYPE else ERR_GENERIC
  {}

  /** Where the fields of a header are; numbers have the most significant byte first. */
  lemma HeaderLayout(m: Meta)
    requires LegalMeta(m)
    ensures var s := EncodeMeta(m);
            && s[..8] == m.magic && Value(s[8]) * 0x100 + Value(s[9]) == m.headerVer && Value(s[10]) * 0x100 + Value(s[11]) == m.forceError
            && Widen(s[12]) == m.crc >> 24 && Widen(s[13]) == (m.crc >> 16) & 0xFF
            && Widen(s[14]) == (m.crc >> 8) & 0xFF && Widen(s[15]) == m.crc & 0xFF
            && s[16..24] == m.linked && Value(s[24]) == |m.pkgVer| && s[25..] == m.pkgVer
  {
    var s := EncodeMeta(m);
    Be16Bytes(m.headerVer);
    Be16Bytes(m.forceError);
    assert s[8..10] == Be16(m.headerVer) && s[10..12] == Be16(m.forceError) && s[12..16] == EncodeWord(m.crc);
    assert s[8] == s[8..10][0] && s[9] == s[8..10][1] && s[10] == s[10..12][0] && s[11] == s[10..12][1];
    assert s[12] == s[12..16][0] && s[13] == s[12..16][1] && s[14] == s[12..16][2] && s[15] == s[12..16][3];
    WordBytes(m.crc);
  }

  lemma WordBytes(w: word)
    ensures var s := EncodeWord(w);
            Widen(s[0]) == w >> 24 && Widen(s[1]) == (w >> 16) & 0xFF && Widen(s[2]) == (w >> 8) & 0xFF && Widen(s[3]) == w & 0xFF
  {}

  /** Magic, version 4 and the number of packages. */
  lemma MultiHeaderLayout(count: nat)
    requires count < 0x1_0000
    ensures var s := MultiHeader(count);
            s[..8] == MULTI_MAGIC && Value(s[8]) * 0x100 + Value(s[9]) == 4 && Value(s[10]) * 0x100 + Value(s[11]) == count
  {
    Be16Bytes(4);
    Be16Bytes(count);
  }

  /** Behind a legal header for one of the slots, the payload is whatever the declared length says. */
  lemma TakeBehindMeta(m: Meta, body: seq<byte>, declared: nat)
    requires LegalMeta(m) && m.magic in MAGICS
    ensures TakePackage(EncodeMeta(m) + body, declared)
         == if declared == 0 then Good(Package(m, body))
            else if |body| < PayloadLen(declared, MetaLen(m)) then Bad(ERR_GENERIC)
            else Good(Package(m, body[..PayloadLen(declared, MetaLen(m))]))
  {
    MetaRoundTrip(m, body);
    assert (EncodeMeta(m) + body)[MetaLen(m)..] == body;
  }

  /** A package at the front of any bytes is read back whole. */
  lemma TakeRoundTrip(p: Package, rest: seq<byte>)
    requires LegalPackage(p)
    ensures TakePackage(EncodePackage(p) + rest, PackageLen(p)) == Good(p)
  {
    var body := p.payload + rest;
    assert EncodePackage(p) + rest == EncodeMeta(p.meta) + body;
    assert PayloadLen(PackageLen(p), MetaLen(p.meta)) == |p.payload|;
    assert body[..|p.payload|] == p.payload;
    TakeBehindMeta(p.meta, body, PackageLen(p));
  }

  function Lengths(ps: seq<Package>): seq<nat> {
    seq(|ps|, i requires 0 <= i < |ps| => PackageLen(ps[i]))
  }

  lemma TakeAllCons(s: seq<byte>, all: seq<nat>, p: Package, tail: seq<byte>, declared: seq<nat>)
    requires LegalPackage(p) && s == EncodePackage(p) + tail && all == [PackageLen(p)] + declared
    ensures TakeAll(s, all) == Unpacked([p] + TakeAll(tail, declared).packages, TakeAll(tail, declared).error)
  {
    TakeRoundTrip(p, tail);
    assert s[PackageLen(p)..] == tail;
    assert all[1..] == declared;
  }

  lemma BodiesSplit(ps: seq<Package>, rest: seq<byte>)
    requires ps != [] && LegalAll(ps)
    ensures EncodeBodies(ps) + rest == EncodePackage(ps[0]) + (EncodeBodies(ps[1..]) + rest)
  {
    Regroup(EncodePackage(ps[0]), EncodeBodies(ps[1..]), rest);
  }

  lemma LengthsSplit(ps: seq<Package>)
    requires ps != []
    ensures Lengths(ps) == [PackageLen(ps[0])] + Lengths(ps[1..])
  {}

  lemma {:induction false} TakeAllRoundTrip(ps: seq<Package>, rest: seq<byte>)
    requires LegalAll(ps)
    ensures TakeAll(EncodeBodies(ps) + rest, Lengths(ps)) == Unpacked(ps, 0)
  {
    if ps != [] {
      BodiesSplit(ps, rest);
      LengthsSplit(ps);
      TakeAllCons(EncodeBodies(ps) + rest, Lengths(ps), ps[0], EncodeBodies(ps[1..]) + rest, Lengths(ps[1..]));
      TakeAllRoundTrip(ps[1..], rest);
      assert [ps[0]] + ps[1..] == ps;
    }
  }

  lemma ParseLength(n: nat, tail: seq<byte>, count: nat)
    requires 0 < n < 0x1_0000_0000 && ParseLengths(tail, count).Good?
    ensures ParseLengths(Be32(n) + tail, count + 1) == Good([n] + ParseLengths(tail, count).value)
  {
    var s := Be32(n) + tail;
    assert s[..4] == Be32(n) && s[4..] == tail;
    Be32RoundTrip(n);
  }

  lemma {:induction false} LengthsRoundTrip(ps: seq<Package>, rest: seq<byte>)
    requires LegalAll(ps)
    ensures ParseLengths(EncodeLengths(ps) + rest, |ps|) == Good(Lengths(ps))
  {
    if ps != [] {
      LengthsRoundTrip(ps[1..], rest);
      ParseLength(PackageLen(ps[0]), EncodeLengths(ps[1..]) + rest, |ps| - 1);
      Regroup(Be32(PackageLen(ps[0])), EncodeLengths(ps[1..]), rest);
      LengthsSplit(ps);
    } else {
      assert Lengths(ps) == [];
    }
  }

  lemma HeaderFields(count: nat, rest: seq<byte>)
    requires count < 0x1_0000
    ensures var s := MultiHeader(count) + rest;
            s[..8] == MULTI_MAGIC && FromBe16(s[8..10]) == HEADER_VER_MULTI && FromBe16(s[10..12]) == count && s[12..] == rest
  {
    var s := MultiHeader(count) + rest;
    assert s[8..10] == Be16(HEADER_VER_MULTI) && s[10..12] == Be16(count);
    Be16RoundTrip(HEADER_VER_MULTI);
    Be16RoundTrip(count);
  }

  lemma TableRoundTrip(ps: seq<Package>, trailing: seq<byte>)
    requires ps != [] && LegalAll(ps)
    ensures ReadTable(EncodeLengths(ps) + (EncodeBodies(ps) + trailing), |ps|) == Unpacked(ps, 0)
  {
    var bodies := EncodeBodies(ps) + trailing;
    LengthsRoundTrip(ps, bodies);
    assert (EncodeLengths(ps) + bodies)[4 * |ps|..] == bodies;
    TakeAllRoundTrip(ps, trailing);
  }

  /** Every bundle of one to four legal packages unpacks to exactly those packages, whatever follows it. */
  lemma BundleRoundTrip(ps: seq<Package>, trailing: seq<byte>)
    requires 1 <= |ps| <= IMAGE_SLOTS && LegalAll(ps)
    ensures ReadBundle(EncodeBundle(ps) + trailing) == Unpacked(ps, 0)
  {
    var rest := EncodeLengths(ps) + (EncodeBodies(ps) + trailing);
    assert EncodeBundle(ps) + trailing == MultiHeader(|ps|) + rest;
    HeaderFields(|ps|, rest);
    TableRoundTrip(ps, trailing);
  }

  lemma SlotMagicIsNotMulti(magic: seq<byte>)
    requires magic in MAGICS
    ensures |magic| == 8 && magic != MULTI_MAGIC
  {
    assert MULTI_MAGIC[0] == 0x4D;
    assert MAGICS[0][0] == 0x41 && MAGICS[1][0] == 0x41 && MAGICS[2][0] == 0x41 && MAGICS[3][0] == 0x41;
  }

  /** A lone package, after the ten-byte probe and the rewind, reads as from the start, however long it is. */
  lemma SingleRoundTrip(p: Package)
    requires LonePackage(p)
    ensures ReadBundle(EncodePackage(p)) == Unpacked([p], 0)
  {
    var s := EncodePackage(p);
    assert s[..8] == p.meta.magic;
    SlotMagicIsNotMulti(p.meta.magic);
    TakeBehindMeta(p.meta, p.payload, 0);
    TakeOne(s, p);
  }

  lemma TakeOne(s: seq<byte>, p: Package)
    requires TakePackage(s, 0) == Good(p)
    ensures TakeAll(s, [0]) == Unpacked([p], 0)
  {
    assert [0][1..] == [];
    assert TakeAll(s[PackageLen(p)..], []) == Unpacked([], 0);
    assert [p] + [] == [p];
  }

  // ---------------------------------------------------------------- nothing else is accepted

  lemma TakeInverse(s: seq<byte>, declared: nat)
    requires |s| < 0x1_0000_0000 && declared < 0x1_0000_0000 && TakePackage(s, declared).Good?
    ensures var p := TakePackage(s, declared).value;
            LegalPackage(p) && EncodePackage(p) == s[..PackageLen(p)] && PackageLen(p) == if declared == 0 then |s| else declared
  {
    var p := TakePackage(s, declared).value;
    var n := MetaLen(p.meta);
    MetaInverse(s);
    assert declared != 0 ==> PayloadLen(declared, n) == if declared < n then declared - n + 0x1_0000_0000 else declared - n;
    assert s[..PackageLen(p)] == s[..n] + s[n..PackageLen(p)];
  }

  ghost predicate StartsWith(s: seq<byte>, prefix: seq<byte>) { |prefix| <= |s| && s[..|prefix|] == prefix }

  lemma StartsWithBoth(s: seq<byte>, a: seq<byte>, b: seq<byte>)
    requires StartsWith(s, a) && StartsWith(s[|a|..], b)
    ensures StartsWith(s, a + b) && s[|a + b|..] == s[|a|..][|b|..]
  {
    assert s == s[..|a|] + s[|a|..];
  }

  lemma ConsPackages(p: Package, ps: seq<Package>)
    requires LegalPackage(p) && LegalAll(ps)
    ensures LegalAll([p] + ps) && Lengths([p] + ps) == [PackageLen(p)] + Lengths(ps)
    ensures EncodeBodies([p] + ps) == EncodePackage(p) + EncodeBodies(ps)
  {
    assert ([p] + ps)[1..] == ps;
  }

  lemma {:induction false} TakeAllInverse(s: seq<byte>, declared: seq<nat>)
    requires |s| < 0x1_0000_0000 && TakeAll(s, declared).error == 0
    requires forall i :: 0 <= i < |declared| ==> 0 < declared[i] < 0x1_0000_0000
    ensures var ps := TakeAll(s, declared).packages;
            LegalAll(ps) && Lengths(ps) == declared && StartsWith(s, EncodeBodies(ps))
    decreases |declared|
  {
    if declared != [] {
      TakeErrorsNonzero(s, declared[0]);
      var p := TakePackage(s, declared[0]).value;
      var tail := s[PackageLen(p)..];
      TakeInverse(s, declared[0]);
      TakeAllInverse(tail, declared[1..]);
      ConsPackages(p, TakeAll(tail, declared[1..]).packages);
      StartsWithBoth(s, EncodePackage(p), EncodeBodies(TakeAll(tail, declared[1..]).packages));
      assert declared == [declared[0]] + declared[1..];
    }
  }

  lemma TakeErrorsNonzero(s: seq<byte>, declared: nat)
    ensures TakePackage(s, declared).Bad? ==> TakePackage(s, declared).error != 0
  {}

  lemma {:induction false} LengthsInverse(s: seq<byte>, ps: seq<Package>)
    requires LegalAll(ps) && ParseLengths(s, |ps|) == Good(Lengths(ps))
    ensures EncodeLengths(ps) == s[..4 * |ps|]
  {
    if ps != [] {
      assert Lengths(ps)[0] == PackageLen(ps[0]);
      Be32Inverse(s[..4]);
      assert Lengths(ps)[1..] == Lengths(ps[1..]);
      LengthsInverse(s[4..], ps[1..]);
      PrefixSplit(s, 4, 4 * (|ps| - 1));
    }
  }

  lemma PrefixSplit(s: seq<byte>, a: nat, b: nat)
    requires a + b <= |s|
    ensures s[..a + b] == s[..a] + s[a..][..b]
  {}

  lemma {:induction false} LengthsPositive(s: seq<byte>, count: nat)
    requires ParseLengths(s, count).Good?
    ensures forall i :: 0 <= i < count ==> 0 < ParseLengths(s, count).value[i] < 0x1_0000_0000
  {
    if count > 0 { LengthsPositive(s[4..], count - 1); }
  }

  ghost predicate IsMulti(s: seq<byte>) {
    |s| >= 12 && s[..8] == MULTI_MAGIC && FromBe16(s[8..10]) == HEADER_VER_MULTI
  }

  lemma AcceptedTable(s: seq<byte>, count: nat)
    requires |s| < 0x1_0000_0000 && ReadTable(s, count).error == 0 && 0 < count
    ensures var ps := ReadTable(s, count).packages;
            LegalAll(ps) && |ps| == count && StartsWith(s, EncodeLengths(ps)) && StartsWith(s[4 * count..], EncodeBodies(ps))
  {
    var declared := ParseLengths(s, count).value;
    LengthsPositive(s, count);
    TakeAllInverse(s[4 * count..], declared);
    var ps := TakeAll(s[4 * count..], declared).packages;
    assert |ps| == |Lengths(ps)| == count;
    LengthsInverse(s, ps);
  }

  lemma AcceptedBundle(s: seq<byte>)
    requires |s| < 0x1_0000_0000 && ReadBundle(s).error == 0 && IsMulti(s) && FromBe16(s[10..12]) != 0
    ensures var ps := ReadBundle(s).packages;
            LegalAll(ps) && 1 <= |ps| <= IMAGE_SLOTS && StartsWith(s, EncodeBundle(ps))
  {
    var count := FromBe16(s[10..12]);
    AcceptedTable(s[12..], count);
    HeaderInverse(s);
    AssembleBundle(s, ReadBundle(s).packages);
  }

  lemma AssembleThree(s: seq<byte>, a: seq<byte>, b: seq<byte>, c: seq<byte>)
    requires StartsWith(s, a) && StartsWith(s[|a|..], b) && StartsWith(s[|a|..][|b|..], c)
    ensures StartsWith(s, a + b + c)
  {
    StartsWithBoth(s, a, b);
    StartsWithBoth(s, a + b, c);
  }

  lemma AssembleBundle(s: seq<byte>, ps: seq<Package>)
    requires LegalAll(ps) && |ps| < 0x1_0000 && 12 + 4 * |ps| <= |s|
    requires StartsWith(s, MultiHeader(|ps|)) && StartsWith(s[12..], EncodeLengths(ps))
    requires StartsWith(s[12..][4 * |ps|..], EncodeBodies(ps))
    ensures StartsWith(s, EncodeBundle(ps))
  {
    AssembleThree(s, MultiHeader(|ps|), EncodeLengths(ps), EncodeBodies(ps));
  }

  /**
   * Below 4 GiB, where no declared length can wrap around, a file is accepted only if it is one
   * package, a bundle (perhaps with something behind it), or a bundle header that announces no
   * package and is followed by one.
   */
  lemma AcceptedShapes(s: seq<byte>)
    requires |s| < 0x1_0000_0000 && ReadBundle(s).error == 0
    ensures var ps := ReadBundle(s).packages;
            && LegalAll(ps) && 1 <= |ps| <= IMAGE_SLOTS
            && (|| (|ps| == 1 && s == EncodePackage(ps[0]))
                || (|ps| == 1 && s == MultiHeader(0) + EncodePackage(ps[0]))
                || StartsWith(s, EncodeBundle(ps)))
  {
    if !IsMulti(s) {
      AcceptedRest(s);
    } else if FromBe16(s[10..12]) == 0 {
      HeaderInverse(s);
      AcceptedRest(s[12..]);
      assert s == s[..12] + s[12..];
    } else {
      AcceptedBundle(s);
    }
  }

  lemma AcceptedRest(s: seq<byte>)
    requires |s| < 0x1_0000_0000 && TakeAll(s, [0]).error == 0
    ensures var ps := TakeAll(s, [0]).packages;
            |ps| == 1 && LegalPackage(ps[0]) && s == EncodePackage(ps[0])
  {
    TakeErrorsNonzero(s, 0);
    TakeInverse(s, 0);
    var p := TakePackage(s, 0).value;
    TakeOne(s, p);
    assert s[..|s|] == s;
  }

  lemma HeaderInverse(s: seq<byte>)
    requires |s| >= 12 && s[..8] == MULTI_MAGIC && FromBe16(s[8..10]) == HEADER_VER_MULTI
    ensures MultiHeader(FromBe16(s[10..12])) == s[..12]
  {
    Be16Inverse(s[8..10]);
    Be16Inverse(s[10..12]);
    assert s[..12] == s[..8] + s[8..10] + s[10..12];
  }
}
