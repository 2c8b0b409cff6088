/** Files opened for reading: what fread, feof, ferror and fseek(f, 0, SEEK_SET) promise. */
module Stdio {
  import opened Bytes

  function Min(a: nat, b: nat): nat { if a <= b then a else b }

  class InputStream {
    const contents: seq<byte>
    /** True when reading past the contents hits an I/O error instead of the end of the file. */
    const broken: bool
    var pos: nat
    var eof: bool
    var error: bool

    ghost predicate Valid()
      reads this
    {
      pos <= |contents| && (eof || error ==> pos == |contents|) && (eof ==> !broken) && (error ==> broken)
    }

    constructor (contents: seq<byte>, broken: bool)
      ensures Valid() && pos == 0 && !eof && !error
      ensures this.contents == contents && this.broken == broken
    {
      this.contents, this.broken, pos, eof, error := contents, broken, 0, false, false;
    }

    /** fread(buf, 1, count, f): end-of-file is seen only by a read that comes up short. */
    method Read(count: nat) returns (buf: seq<byte>)
      requires Valid()
      modifies this
      ensures Valid()
      ensures pos == Min(old(pos) + count, |contents|) && buf == contents[old(pos)..pos]
      ensures eof == (old(eof) || (|buf| < count && !broken))
      ensures error == (old(error) || (|buf| < count && broken))
    {
      var end := Min(pos + count, |contents|);
      buf := contents[pos..end];
      if |buf| < count {
        if broken { error := true; } else { eof := true; }
      }
      pos := end;
    }

    /** fread(buf, size, 1, f) == 1: a whole item or nothing. */
    method ReadItem(size: nat) returns (ok: bool, item: seq<byte>)
      requires Valid()
      modifies this
      ensures Valid()
      ensures ok <==> old(pos) + size <= |contents|
      ensures ok ==> pos == old(pos) + size && item == contents[old(pos)..pos] && eof == old(eof) && error == old(error)
      ensures !ok ==> error == (old(error) || broken)
    {
      item := Read(size);
      ok := |item| == size;
    }

    method Rewind()
      requires Valid()
      modifies this
      ensures Valid() && pos == 0 && !eof && error == old(error && |contents| == 0)
    {
      pos, eof, error := 0, false, error && |contents| == 0;
    }
  }
}
