/**
 * What a shift register needs for burst-error detection, stated for any register type so
 * that the proofs never look at individual bits.
 */
module ShiftRegisters {
  import opened Folds

  datatype Register<!R(!new)> = Register(
    feed: (R, bool) -> R,      // XOR one message bit in at the low end, then shift
    shift: R -> R,
    xor: (R, R) -> R,
    join: (bool, R) -> R,      // a word one bit longer, the new bit lowest
    zero: R,
    fits: (R, nat) -> bool,    // the word has at most that many bits
    width: nat)

  // Each law is a predicate of its own, so that a proof names the instance it uses.

  ghost predicate JoinFits<R(!new)>(m: Register<R>, bit: bool, p: R, n: nat) {
    n < m.width && m.fits(p, n) ==> m.fits(m.join(bit, p), n + 1)
  }

  ghost predicate FeedIsShift<R(!new)>(m: Register<R>, c: R, bit: bool, p: R, n: nat) {
    n < m.width && m.fits(p, n) ==> m.xor(m.feed(c, bit), p) == m.shift(m.xor(c, m.join(bit, p)))
  }

  ghost predicate JoinInjective<R(!new)>(m: Register<R>, a: bool, b: bool, p: R, q: R, n: nat) {
    n < m.width && m.fits(p, n) && m.fits(q, n) && m.join(a, p) == m.join(b, q) ==> a == b && p == q
  }

  ghost predicate Laws<R(!new)>(m: Register<R>) {
    && m.fits(m.zero, 0)
    && (forall c :: m.xor(c, m.zero) == c)
    && (forall bit, p, n :: JoinFits(m, bit, p, n))
    && (forall c, bit, p, n :: FeedIsShift(m, c, bit, p, n))
    && (forall a, b, p, q, n :: JoinInjective(m, a, b, p, q, n))
    && (forall a, b :: m.shift(a) == m.shift(b) ==> a == b)
    && (forall x, a, b :: m.xor(x, a) == m.xor(x, b) ==> a == b)
    && InjectiveStep(m.feed)
  }

  function Pack<R(!new)>(m: Register<R>, bits: seq<bool>): R {
    if bits == [] then m.zero else m.join(bits[0], Pack(m, bits[1..]))
  }

  function Shifts<R(!new)>(m: Register<R>, c: R, n: nat): R
    decreases n
  {
    if n == 0 then c else Shifts(m, m.shift(c), n - 1)
  }

  lemma {:induction false} PackFits<R(!new)>(m: Register<R>, bits: seq<bool>)
    requires Laws(m) && |bits| <= m.width
    ensures m.fits(Pack(m, bits), |bits|)
  {
    if bits != [] {
      PackFits(m, bits[1..]);
      assert JoinFits(m, bits[0], Pack(m, bits[1..]), |bits| - 1);
    }
  }

  /** Feeding at most a register's width of bits is one XOR of the packed word and plain shifts. */
  lemma {:induction false} FeedPacked<R(!new)>(m: Register<R>, c: R, bits: seq<bool>)
    requires Laws(m) && |bits| <= m.width
    ensures Fold(m.feed, c, bits) == Shifts(m, m.xor(c, Pack(m, bits)), |bits|)
    decreases |bits|
  {
    if bits != [] {
      FoldFirst(m.feed, c, bits);
      FeedPacked(m, m.feed(c, bits[0]), bits[1..]);
      PackFits(m, bits[1..]);
      assert FeedIsShift(m, c, bits[0], Pack(m, bits[1..]), |bits| - 1);
    }
  }

  lemma {:induction false} ShiftsInjective<R(!new)>(m: Register<R>, a: R, b: R, n: nat)
    requires Laws(m) && Shifts(m, a, n) == Shifts(m, b, n)
    ensures a == b
    decreases n
  {
    if n > 0 { ShiftsInjective(m, m.shift(a), m.shift(b), n - 1); }
  }

  lemma {:induction false} PackInjective<R(!new)>(m: Register<R>, a: seq<bool>, b: seq<bool>)
    requires Laws(m) && |a| == |b| <= m.width && Pack(m, a) == Pack(m, b)
    ensures a == b
    decreases |a|
  {
    if a != [] {
      PackFits(m, a[1..]);
      PackFits(m, b[1..]);
      assert JoinInjective(m, a[0], b[0], Pack(m, a[1..]), Pack(m, b[1..]), |a| - 1);
      PackInjective(m, a[1..], b[1..]);
      assert a == [a[0]] + a[1..];
      assert b == [b[0]] + b[1..];
    }
  }

  /** Two bit streams of one length that agree outside `width` consecutive bits. */
  ghost predicate DifferInBurst(a: seq<bool>, b: seq<bool>, at: nat, width: nat) {
    |a| == |b| && forall k :: 0 <= k < |a| && !(at <= k < at + width) ==> a[k] == b[k]
  }

  lemma BurstBounds(a: seq<bool>, b: seq<bool>, at: nat, width: nat) returns (lo: nat, hi: nat)
    requires DifferInBurst(a, b, at, width) && a != b
    ensures lo <= hi <= |a| == |b| && hi - lo <= width
    ensures a[..lo] == b[..lo] && a[hi..] == b[hi..] && a[lo..hi] != b[lo..hi]
  {
    var k :| 0 <= k < |a| && a[k] != b[k];
    lo := at;
    hi := if at + width < |a| then at + width else |a|;
    assert a[lo..hi][k - lo] == a[k] && b[lo..hi][k - lo] == b[k];
  }

  /** No burst as short as the register goes unnoticed, in streams of any length. */
  lemma BurstSeparates<R(!new)>(m: Register<R>, c: R, a: seq<bool>, b: seq<bool>, at: nat)
    requires Laws(m) && DifferInBurst(a, b, at, m.width) && a != b
    ensures Fold(m.feed, c, a) != Fold(m.feed, c, b)
  {
    var lo, hi := BurstBounds(a, b, at, m.width);
    var s := Fold(m.feed, c, a[..lo]);
    Thirds(m, c, a, lo, hi);
    Thirds(m, c, b, lo, hi);
    if Fold(m.feed, c, a) == Fold(m.feed, c, b) {
      TailInjective(m, Fold(m.feed, s, a[lo..hi]), Fold(m.feed, s, b[lo..hi]), a[hi..]);
      WindowInjective(m, s, a[lo..hi], b[lo..hi]);
      assert false;
    }
  }

  lemma TailInjective<R(!new)>(m: Register<R>, a: R, b: R, tail: seq<bool>)
    requires Laws(m) && Fold(m.feed, a, tail) == Fold(m.feed, b, tail)
    ensures a == b
  {
    FoldInjective(m.feed, a, b, tail);
  }

  lemma Thirds<R(!new)>(m: Register<R>, c: R, a: seq<bool>, lo: nat, hi: nat)
    requires lo <= hi <= |a|
    ensures Fold(m.feed, c, a) == Fold(m.feed, Fold(m.feed, Fold(m.feed, c, a[..lo]), a[lo..hi]), a[hi..])
  {
    assert a == a[..hi] + a[hi..];
    assert a[..hi] == a[..lo] + a[lo..hi];
    FoldAppend(m.feed, c, a[..hi], a[hi..]);
    FoldAppend(m.feed, c, a[..lo], a[lo..hi]);
  }

  lemma WindowInjective<R(!new)>(m: Register<R>, s: R, a: seq<bool>, b: seq<bool>)
    requires Laws(m) && |a| == |b| <= m.width
    requires Fold(m.feed, s, a) == Fold(m.feed, s, b)
    ensures a == b
  {
    FeedPacked(m, s, a);
    FeedPacked(m, s, b);
    ShiftsInjective(m, m.xor(s, Pack(m, a)), m.xor(s, Pack(m, b)), |a|);
    PackInjective(m, a, b);
  }

  lemma PackOctet<R(!new)>(m: Register<R>, s: seq<bool>)
    requires |s| == 8
    ensures Pack(m, s) == m.join(s[0], m.join(s[1], m.join(s[2], m.join(s[3],
                            m.join(s[4], m.join(s[5], m.join(s[6], m.join(s[7], m.zero))))))))
  {
    PackFirst(m, s, 0);
    PackFirst(m, s, 1);
    PackFirst(m, s, 2);
    PackFirst(m, s, 3);
    PackFirst(m, s, 4);
    PackFirst(m, s, 5);
    PackFirst(m, s, 6);
    PackFirst(m, s, 7);
    assert s[0..] == s && s[8..] == [];
  }

  lemma PackFirst<R(!new)>(m: Register<R>, s: seq<bool>, i: nat)
    requires i < |s|
    ensures Pack(m, s[i..]) == m.join(s[i], Pack(m, s[i + 1..]))
  {
    assert s[i..][1..] == s[i + 1..];
  }

  lemma ShiftsOctet<R(!new)>(m: Register<R>, c: R)
    ensures Shifts(m, c, 8)
         == m.shift(m.shift(m.shift(m.shift(m.shift(m.shift(m.shift(m.shift(c))))))))
  {
    var c4 := m.shift(m.shift(m.shift(m.shift(c))));
    assert Shifts(m, c4, 4) == m.shift(m.shift(m.shift(m.shift(c4))));
    assert Shifts(m, c, 8) == Shifts(m, c4, 4);
  }

  ghost predicate Additive<R(!new)>(m: Register<R>) {
    forall a, b :: m.shift(m.xor(a, b)) == m.xor(m.shift(a), m.shift(b))
  }

  lemma {:induction false} ShiftsAdditive<R(!new)>(m: Register<R>, a: R, b: R, n: nat)
    requires Additive(m)
    ensures Shifts(m, m.xor(a, b), n) == m.xor(Shifts(m, a, n), Shifts(m, b, n))
    decreases n
  {
    if n > 0 { ShiftsAdditive(m, m.shift(a), m.shift(b), n - 1); }
  }
}
