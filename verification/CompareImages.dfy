/** Chunked comparison of an image with the original (demo/advanced_firmware_update_addimg.c). */
module CompareImages {
  import opened Bytes
  import opened Stdio

  const CHUNK_SIZE: nat := 1024

  lemma ChunkDecides(a: seq<byte>, b: seq<byte>, i: nat, j: nat, k: nat)
    requires i <= j <= |a| && i <= k <= |b| && a[..i] == b[..i]
    requires j == Min(i + CHUNK_SIZE, |a|) && k == Min(i + CHUNK_SIZE, |b|)
    ensures a == b ==> j == k && a[i..j] == b[i..k]
    ensures j == k && a[i..j] == b[i..k] ==> a[..j] == b[..k]
  {
    if j == k && a[i..j] == b[i..k] {
      assert a[..j] == a[..i] + a[i..j];
      assert b[..k] == b[..i] + b[i..k];
    }
  }

  /** A comparison ends with 0 or with -1, or goes on for ever. */
  datatype Verdict = Same | Different | Endless

  /** Reading the first file has failed and there is nothing left in the second. */
  predicate Stuck(s1: InputStream, s2: InputStream)
    reads s1, s2
  {
    s1.error && s1.pos == |s1.contents| && s2.pos == |s2.contents|
  }

  /** One round of the loop in compare_files. Once it is stuck, every round finds no difference and leaves it stuck. */
  method CompareChunks(s1: InputStream, s2: InputStream) returns (differ: bool)
    requires s1 != s2 && s1.Valid() && s2.Valid() && !s1.eof
    requires s1.pos == s2.pos && s1.contents[..s1.pos] == s2.contents[..s1.pos]
    modifies s1, s2
    ensures s1.Valid() && s2.Valid() && s1.pos >= old(s1.pos)
    ensures differ ==> s1.contents != s2.contents
    ensures !differ ==> s1.pos == s2.pos && s1.contents[..s1.pos] == s2.contents[..s1.pos]
    ensures !differ && (s1.eof || s1.error) ==> s1.contents == s2.contents
    ensures !differ && s1.error ==> Stuck(s1, s2) && !s1.eof
    ensures !differ && !s1.eof && !s1.error ==> s1.pos > old(s1.pos)
    ensures old(Stuck(s1, s2)) ==> !differ && Stuck(s1, s2) && !s1.eof
  {
    ghost var i := s1.pos;
    var buf1 := s1.Read(CHUNK_SIZE);
    var buf2 := s2.Read(CHUNK_SIZE);
    ChunkDecides(s1.contents, s2.contents, i, s1.pos, s2.pos);
    differ := |buf1| != |buf2| || buf1 != buf2;
    if !differ && (s1.eof || s1.error) {
      assert s1.contents[..s1.pos] == s1.contents && s2.contents[..s2.pos] == s2.contents;
    }
  }

  /** compare_files: decides whether the contents are equal, unless they are and the first file's end cannot be read. */
  method CompareFiles(s1: InputStream, s2: InputStream) returns (verdict: Verdict)
    requires s1 != s2 && s1.Valid() && s2.Valid()
    requires s1.pos == 0 && !s1.eof && !s1.error && s2.pos == 0 && !s2.eof && !s2.error
    modifies s1, s2
    ensures verdict == Same <==> s1.contents == s2.contents && !s1.broken
    ensures verdict == Different <==> s1.contents != s2.contents
    ensures verdict == Endless <==> s1.contents == s2.contents && s1.broken
    ensures verdict == Endless ==> Stuck(s1, s2) && !s1.eof
  {
    while !s1.eof
      invariant s1.Valid() && s2.Valid() && !s1.error
      invariant s1.pos == s2.pos && s1.contents[..s1.pos] == s2.contents[..s1.pos]
      invariant s1.eof ==> s1.contents == s2.contents
      decreases |s1.contents| - s1.pos, !s1.eof
    {
      var differ := CompareChunks(s1, s2);
      if differ {
        return Different;
      }
      if s1.error {
        return Endless;
      }
    }
    verdict := Same;
  }

  /** compare_images: a file that cannot be opened never matches. */
  method CompareImages(s1: InputStream?, s2: InputStream?) returns (verdict: Verdict)
    requires s1 != null ==> s1.Valid() && s1.pos == 0 && !s1.eof && !s1.error
    requires s2 != null ==> s2.Valid() && s2.pos == 0 && !s2.eof && !s2.error
    requires s1 != null ==> s1 != s2
    modifies s1, s2
    ensures verdict == Same <==> s1 != null && s2 != null && s1.contents == s2.contents && !s1.broken
    ensures verdict == Different <==> s1 == null || s2 == null || s1.contents != s2.contents
  {
    verdict := Different;
    if s1 != null && s2 != null {
      verdict := CompareFiles(s1, s2);
    }
  }

  /** Two files without contents, the first of which cannot be read: the comparison never ends. */
  method NeverEnds() returns (verdict: Verdict)
    ensures verdict == Endless
  {
    var unreadable := new InputStream([], true);
    var empty := new InputStream([], false);
    verdict := CompareFiles(unreadable, empty);
  }
}
