/** The table-driven code of demo/demo_utils.c: crc32_for_byte, crc32 and calc_file_crc32. */
module FileCrc {
  import opened Bytes
  import opened Stdio
  import opened Words
  import opened Folds
  import opened ShiftRegisters
  import opened Crc32

  /** crc32_for_byte: despite the inverted test, the entry is the standard CRC of that one byte. */
  method CrcForByte(value: byte) returns (result: word)
    ensures result == Crc([value])
  {
    result := Widen(value);
    ghost var q := Xor(ONES, Widen(value));
    StartInverted(Widen(value));
    for i := 0 to 8
      invariant result == Xor(Xor(ONES, q), TOP_ONES[i])
      invariant Shifts(REGISTER_32, q, 8 - i) == FeedByte(ONES, value)
    {
      TopOnesStep(i);
      InvertedStep(result, q, TOP_ONES[i]);
      if Odd(result) {
        result := Half(result);
      } else {
        result := Xor(Half(result), 0xEDB8_8320);
      }
      q := ShiftBit(q);
    }
    XorTwice(Xor(ONES, q), 0xFF00_0000);
    result := Xor(result, 0xFF00_0000);
    OneByte(value);
  }

  lemma StartInverted(v: word)
    ensures v == Xor(Xor(ONES, Xor(ONES, v)), 0)
  {
    XorCommutes(ONES, v);
    XorCommutes(ONES, Xor(v, ONES));
    XorTwice(v, ONES);
    XorZero(v);
  }

  /** The lazily filled look-up table. */
  class CrcTable {
    const entries: array<word>

    ghost predicate Filled()
      reads this, entries
    {
      entries.Length == 256 && forall i :: 0 <= i < 256 ==> entries[i] == Crc([i as bv8])
    }

    /** Only two states are possible: untouched (first entry zero) and completely filled. */
    ghost predicate Valid()
      reads this, entries
    {
      entries.Length == 256 && (entries[0] == 0 || Filled())
    }

    constructor ()
      ensures Valid() && fresh(entries) && !Filled()
    {
      entries := new word[256](_ => 0);
      new;
      FirstEntry();
    }

    method EnsureFilled()
      requires Valid()
      modifies entries
      ensures Valid() && Filled()
    {
      if entries[0] == 0 {
        for i := 0 to 256
          invariant forall k :: 0 <= k < i ==> entries[k] == Crc([k as bv8])
        {
          entries[i] := CrcForByte(i as bv8);
        }
      }
    }

    /** crc32: continues a CRC over more data, from any value a previous call may have left. */
    method Update(crc: word, data: seq<byte>) returns (out: word)
      requires Valid()
      modifies entries
      ensures Valid() && Filled()
      ensures out == Xor(ONES, Fold(FeedByte, Xor(ONES, crc), data))
    {
      EnsureFilled();
      out := crc;
      DoubleInverted(crc);
      for i := 0 to |data|
        invariant Filled()
        invariant out == Xor(ONES, Fold(FeedByte, Xor(ONES, crc), data[..i]))
      {
        var index := XorByte(data[i], LowByte(out));
        assert (index as int) as bv8 == index;
        LookupStep(out, data[i]);
        DoubleInverted(Fold(FeedByte, Xor(ONES, crc), data[..i]));
        FoldSnoc(FeedByte, Xor(ONES, crc), data, i);
        out := TableStep(entries[index as int], out);
      }
      assert data[..|data|] == data;
    }

    /**
     * calc_file_crc32: 4096-byte chunks until end of file. Fails exactly when the file cannot
     * be opened or a read fails; otherwise the result is the standard CRC of the whole file.
     */
    method CalcFile(f: InputStream?) returns (ok: bool, crc: word)
      requires Valid()
      requires f != null ==> f.Valid() && f.pos == 0 && !f.eof && !f.error
      modifies entries, f
      ensures Valid()
      ensures ok <==> f != null && !f.broken
      ensures ok ==> crc == Crc(f.contents)
    {
      if f == null {
        return false, 0;
      }
      crc := 0;
      StartInverted(0);
      XorZero(ONES);
      while !f.eof
        invariant Valid() && f.Valid()
        invariant crc == Xor(ONES, Fold(FeedByte, ONES, f.contents[..f.pos]))
        invariant f.eof ==> f.pos == |f.contents|
        decreases |f.contents| - f.pos, !f.eof, !f.error
      {
        ghost var start := f.pos;
        var buf := f.Read(4096);
        if |buf| == 0 && f.error {
          return false, crc;
        }
        NextChunk(f.contents, start, f.pos);
        crc := Update(crc, buf);
      }
      assert f.contents[..f.pos] == f.contents;
      CrcByBytes(f.contents);
      ok := true;
    }
  }

  /** Continuing from the CRC of a prefix gives the CRC of the longer prefix, wherever the cut is. */
  lemma NextChunk(data: seq<byte>, i: nat, j: nat)
    requires i <= j <= |data|
    ensures Fold(FeedByte, Xor(ONES, Xor(ONES, Fold(FeedByte, ONES, data[..i]))), data[i..j])
         == Fold(FeedByte, ONES, data[..j])
  {
    DoubleInverted(Fold(FeedByte, ONES, data[..i]));
    assert data[..j] == data[..i] + data[i..j];
    FoldAppend(FeedByte, ONES, data[..i], data[i..j]);
  }

  lemma FirstEntry()
    ensures Crc([0 as bv8]) != 0
  {
    OneByte(0);
    KnownStep(ONES, 0, 0x2DFD_1072);
  }

  lemma DoubleInverted(v: word)
    ensures Xor(ONES, Xor(ONES, v)) == v
  {
    StartInverted(v);
    XorZero(Xor(ONES, Xor(ONES, v)));
  }
}
