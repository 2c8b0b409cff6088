/** The reading loops of demo/advanced_firmware_update.c and the file copy of demo/demo_utils.c. */
module FirmwareReader {
  import opened ErrorCodes
  import opened Options
  import opened Bytes
  import opened Sequences
  import opened Stdio
  import opened FirmwareFormat

  const COPY_CHUNK: nat := 4096

  /** copy_file_contents_by_bytes: exactly that many bytes or an error. */
  method CopyByBytes(src: InputStream, len: nat) returns (ok: bool, dst: seq<byte>)
    requires src.Valid()
    modifies src
    ensures src.Valid() && (ok <==> old(src.pos) + len <= |src.contents|)
    ensures ok ==> src.pos == old(src.pos) + len && dst == src.contents[old(src.pos)..src.pos]
    ensures ok ==> src.eof == old(src.eof) && src.error == old(src.error)
  {
    dst := [];
    var left := len;
    while left > 0
      invariant src.Valid() && 0 <= left <= len && src.pos == old(src.pos) + (len - left)
      invariant dst == src.contents[old(src.pos)..src.pos] && src.eof == old(src.eof) && src.error == old(src.error)
    {
      var toRead := if left > COPY_CHUNK then COPY_CHUNK else left;
      var buf := src.Read(toRead);
      if |buf| != toRead {
        return false, dst;
      }
      dst, left := dst + buf, left - toRead;
    }
    ok := true;
  }

  /** copy_file_contents: everything up to the end of the file; fails exactly when a read fails. */
  method CopyContents(src: InputStream) returns (ok: bool, dst: seq<byte>)
    requires src.Valid() && !src.eof && !src.error
    modifies src
    ensures src.Valid() && (ok <==> !src.broken)
    ensures ok ==> src.pos == |src.contents| && dst == src.contents[old(src.pos)..]
  {
    dst := [];
    while !src.eof
      invariant src.Valid() && old(src.pos) <= src.pos && dst == src.contents[old(src.pos)..src.pos]
      decreases |src.contents| - src.pos, !src.eof, !src.error
    {
      var buf := src.Read(COPY_CHUNK);
      if |buf| == 0 && src.error {
        return false, dst;
      }
      dst := dst + buf;
    }
    ok := true;
  }

  /** The fixed part of a header as it is read. */
  datatype Fixed = Fixed(magic: seq<byte>, headerVer: seq<byte>, forceError: seq<byte>, crc: seq<byte>, linked: seq<byte>, len: seq<byte>)

  method ReadFixed(f: InputStream) returns (r: Result<Fixed>)
    requires f.Valid()
    modifies f
    ensures f.Valid() && (r.Good? <==> old(f.pos) + FIXED_HEADER_LEN <= |f.contents|)
    ensures r.Good? ==> f.pos == old(f.pos) + FIXED_HEADER_LEN && f.eof == old(f.eof) && f.error == old(f.error)
    ensures r.Good? ==> var c, p := f.contents, old(f.pos);
                        r.value == Fixed(c[p..p + 8], c[p + 8..p + 10], c[p + 10..p + 12],
                                         c[p + 12..p + 16], c[p + 16..p + 24], [c[p + 24]])
  {
    var ok, magic := f.ReadItem(8);
    if !ok { return Bad(ERR_GENERIC); }
    var headerVer, forceError, crc, linked, len;
    ok, headerVer := f.ReadItem(2);
    if !ok { return Bad(ERR_GENERIC); }
    ok, forceError := f.ReadItem(2);
    if !ok { return Bad(ERR_GENERIC); }
    ok, crc := f.ReadItem(4);
    if !ok { return Bad(ERR_GENERIC); }
    ok, linked := f.ReadItem(8);
    if !ok { return Bad(ERR_GENERIC); }
    ok, len := f.ReadItem(1);
    if !ok { return Bad(ERR_GENERIC); }
    r := Good(Fixed(magic, headerVer, forceError, crc, linked, len));
  }

  /** read_fw_meta_from_file. */
  method ReadMeta(f: InputStream) returns (r: Result<Meta>)
    requires f.Valid()
    modifies f
    ensures f.Valid() && r == ParseMeta(f.contents[old(f.pos)..])
    ensures r.Good? ==> f.pos == old(f.pos) + MetaLen(r.value) && f.eof == old(f.eof) && f.error == old(f.error)
  {
    ghost var p := f.pos;
    var fixed := ReadFixed(f);
    if fixed.Bad? {
      return Bad(ERR_GENERIC);
    }
    FixedFields(f.contents, p);
    var h := fixed.value;
    var n := Value(h.len[0]);
    if n > MAX_VERSION_LEN || n == 0 {
      return Bad(ERR_UNSUPPORTED_PACKAGE_TYPE);
    }
    var ok, version := f.ReadItem(n);
    if !ok {
      return Bad(ERR_GENERIC);
    }
    SubSlice(f.contents, p, 25, 25 + n);
    r := Good(Meta(h.magic, FromBe16(h.headerVer), FromBe16(h.forceError), DecodeWord(h.crc), h.linked, version));
  }

  /** The part of a package behind its header: as many bytes as declared, or all that is left, if its end can be reached. */
  function Payload(body: seq<byte>, declared: nat, metaLen: nat, broken: bool): Result<seq<byte>> {
    if declared == 0 then if broken then Bad(ERR_GENERIC) else Good(body)
    else if |body| < PayloadLen(declared, metaLen) then Bad(ERR_GENERIC)
    else Good(body[..PayloadLen(declared, metaLen)])
  }

  method ReadPayload(f: InputStream, declared: nat, metaLen: nat) returns (r: Result<seq<byte>>)
    requires f.Valid() && !f.eof && !f.error
    modifies f
    ensures f.Valid() && r == Payload(f.contents[old(f.pos)..], declared, metaLen, f.broken)
    ensures r.Good? ==> f.pos == old(f.pos) + |r.value| && !f.error && (declared != 0 ==> !f.eof)
  {
    var ok, payload;
    if declared != 0 {
      ok, payload := CopyByBytes(f, PayloadLen(declared, metaLen));
      if ok { DropThenTake(f.contents, old(f.pos), PayloadLen(declared, metaLen)); }
    } else {
      ok, payload := CopyContents(f);
    }
    r := if ok then Good(payload) else Bad(ERR_GENERIC);
  }

  /** A package from a file whose end may be unreadable: then a package without a declared length cannot be had. */
  function TakeFrom(s: seq<byte>, declared: nat, broken: bool): Result<Package> {
    if declared == 0 && broken && ParseMeta(s).Good? then Bad(ERR_GENERIC) else TakePackage(s, declared)
  }

  /** Header and payload make up the package. */
  lemma TakenTogether(s: seq<byte>, declared: nat, broken: bool)
    ensures TakeFrom(s, declared, broken)
         == match ParseMeta(s)
            case Bad(e) => Bad(e)
            case Good(m) =>
              match Payload(s[MetaLen(m)..], declared, MetaLen(m), broken)
              case Bad(e) => Bad(e)
              case Good(payload) => if m.magic !in MAGICS then Bad(ERR_GENERIC) else Good(Package(m, payload))
  {}

  /** unpack_fw_to_file: the metadata, and the payload as it ends up in the target file. */
  method UnpackToFile(f: InputStream, declared: nat) returns (r: Result<Package>)
    requires f.Valid() && !f.eof && !f.error
    modifies f
    ensures f.Valid()
    ensures var s := f.contents[old(f.pos)..];
            && (r.Good? ==> f.pos == old(f.pos) + PackageLen(r.value) && LegalMeta(r.value.meta) && !f.error)
            && (r.Good? ==> declared != 0 ==> !f.eof)
            && TakeFrom(s, declared, f.broken) == if r.Good? && r.value.meta.magic !in MAGICS then Bad(ERR_GENERIC) else r
  {
    ghost var start := f.pos;
    TakenTogether(f.contents[start..], declared, f.broken);
    var m := ReadMeta(f);
    if m.Bad? {
      return Bad(m.error);
    }
    DropTwice(f.contents, start, MetaLen(m.value));
    var payload := ReadPayload(f, declared, MetaLen(m.value));
    if payload.Bad? {
      return Bad(ERR_GENERIC);
    }
    r := Good(Package(m.value, payload.value));
  }

  lemma SubSlice(s: seq<byte>, p: nat, i: nat, j: nat)
    requires i <= j && p + j <= |s|
    ensures s[p..][i..j] == s[p + i..p + j]
  {}

  /** The fields of the fixed part of a header lie one behind the other. */
  lemma FixedFields(s: seq<byte>, p: nat)
    requires p + FIXED_HEADER_LEN <= |s|
    ensures var h := s[p..];
            && h[..8] == s[p..p + 8] && h[8..10] == s[p + 8..p + 10] && h[10..12] == s[p + 10..p + 12]
            && h[12..16] == s[p + 12..p + 16] && h[16..24] == s[p + 16..p + 24] && h[24] == s[p + 24]
  {
    SubSlice(s, p, 8, 10);
    SubSlice(s, p, 10, 12);
    SubSlice(s, p, 12, 16);
    SubSlice(s, p, 16, 24);
    DropThenTake(s, p, 8);
  }

  lemma DropTwice(s: seq<byte>, i: nat, n: nat)
    requires i + n <= |s|
    ensures s[i..][n..] == s[i + n..]
  {}

  lemma DropThenTake(s: seq<byte>, i: nat, n: nat)
    requires i + n <= |s|
    ensures s[i..][..n] == s[i..i + n]
  {}

  /** The loop over the table of package lengths. */
  method ReadLengths(f: InputStream, count: nat) returns (result: int, declared: seq<nat>)
    requires f.Valid() && !f.eof && !f.error
    modifies f
    ensures f.Valid() && (result == 0 ==> !f.eof && !f.error && f.pos == old(f.pos) + 4 * count)
    ensures ParseLengths(f.contents[old(f.pos)..], count) == if result != 0 then Bad(result) else Good(declared)
  {
    ghost var all := ParseLengths(f.contents[f.pos..], count);
    declared := [];
    PrefixedNone(all.ToOption());
    for i := 0 to count
      invariant f.Valid() && !f.eof && !f.error && f.pos == old(f.pos) + 4 * i
      invariant all.ToOption() == Prefixed(declared, ParseLengths(f.contents[f.pos..], count - i).ToOption())
    {
      ghost var s := f.contents[f.pos..];
      var ok, item := f.ReadItem(4);
      if !ok { return ERR_GENERIC, []; }
      assert item == s[..4] && f.contents[f.pos..] == s[4..];
      if FromBe32(item) == 0 { return ERR_GENERIC, []; }
      PrefixedNext(declared, FromBe32(item), ParseLengths(s[4..], count - i - 1).ToOption());
      declared := declared + [FromBe32(item)];
    }
    result := 0;
    assert declared + [] == declared;
  }

  /** Only a package at the end of the file may have no declared length. */
  ghost predicate OnlyLastOpenEnded(declared: seq<nat>) {
    forall k :: 0 <= k < |declared| - 1 ==> declared[k] != 0
  }

  /** The lengths to unpack by: a table of none stands for one open-ended package. */
  method ReadDeclared(f: InputStream, count: nat) returns (result: int, declared: seq<nat>)
    requires f.Valid() && !f.eof && !f.error && count <= IMAGE_SLOTS
    modifies f
    ensures f.Valid()
    ensures result == 0 ==> 1 <= |declared| <= IMAGE_SLOTS && !f.eof && !f.error && OnlyLastOpenEnded(declared)
    ensures ReadTable(f.contents[old(f.pos)..], count)
         == if result != 0 then Unpacked([], result) else TakeAll(f.contents[f.pos..], declared)
  {
    ghost var s := f.contents[f.pos..];
    result, declared := ReadLengths(f, count);
    if result == 0 && count == 0 {
      declared := [0];
    }
    if result == 0 {
      assert f.contents[f.pos..] == s[4 * count..];
      LengthsPositive(s, count);
    }
  }

  /** handle_multipackage: where the packages start and how long they are declared to be. */
  method HandleMultipackage(f: InputStream) returns (result: int, declared: seq<nat>)
    requires f.Valid() && f.pos == 0 && !f.eof && !f.error
    modifies f
    ensures f.Valid()
    ensures result == 0 ==> 1 <= |declared| <= IMAGE_SLOTS && !f.eof && !f.error && OnlyLastOpenEnded(declared)
    ensures ReadBundle(f.contents) == if result != 0 then Unpacked([], result) else TakeAll(f.contents[f.pos..], declared)
  {
    var ok, magic := f.ReadItem(8);
    if !ok { return ERR_GENERIC, []; }
    var headerVer, count;
    ok, headerVer := f.ReadItem(2);
    if !ok { return ERR_GENERIC, []; }
    if FromBe16(headerVer) == HEADER_VER_MULTI && magic == MULTI_MAGIC {
      ok, count := f.ReadItem(2);
      if !ok || FromBe16(count) > IMAGE_SLOTS { return ERR_GENERIC, []; }
      assert count == f.contents[10..12];
      result, declared := ReadDeclared(f, FromBe16(count));
    } else {
      f.Rewind();
      result, declared := 0, [0];
    }
  }
}
