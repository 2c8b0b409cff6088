/** The download-blocks command of demo/demo_cmds.c: a range list, a skip list and a streaming callback. */
module RangedDownload {
  import opened Options
  import opened Bytes
  import opened Sequences

  const LONG_MAX: int := 0x7FFF_FFFF_FFFF_FFFF
  const SIZE_MAX: int := 0xFFFF_FFFF_FFFF_FFFF

  /** The bytes from start up to, not including, end; without an end, up to the end of the resource. */
  datatype Range = Range(start: int, end: Option<int>)

  datatype Skip = Skip(at: nat, to: nat)

  // ---------------------------------------------------------------- what is asked for

  function Clip(n: int, len: nat): (k: nat)
    ensures k <= len
  {
    if n <= 0 then 0 else if n < len then n else len
  }

  /** The part of the resource between two offsets, either of which may lie beyond its end. */
  function Slice(r: seq<byte>, from: int, to: int): seq<byte> {
    var i, j := Clip(from, |r|), Clip(to, |r|);
    if i <= j then r[i..j] else []
  }

  function SliceOf(r: seq<byte>, range: Range): seq<byte> {
    Slice(r, range.start, match range.end case None => |r| case Some(e) => e)
  }

  /** The requested ranges, clipped to the resource, one after the other; no range at all means everything. */
  function Wanted(r: seq<byte>, ranges: seq<Range>): seq<byte> {
    if ranges == [] then r else WantedFrom(r, ranges, 0)
  }

  function WantedFrom(r: seq<byte>, ranges: seq<Range>, k: nat): seq<byte>
    requires k <= |ranges|
    decreases |ranges| - k
  {
    if k == |ranges| then [] else SliceOf(r, ranges[k]) + WantedFrom(r, ranges, k + 1)
  }

  /** Non-empty ranges with a gap between any two; only the last may be open. */
  ghost predicate Ordered(ranges: seq<Range>) {
    && (forall i :: 0 <= i < |ranges| ==> RangeOk(ranges[i]))
    && (forall i, j :: 0 <= i && j == i + 1 && j < |ranges| ==> Apart(ranges[i], ranges[j]))
  }

  ghost predicate RangeOk(x: Range) {
    0 <= x.start <= LONG_MAX && (x.end.Some? ==> x.start < x.end.value < LONG_MAX)
  }

  ghost predicate Apart(x: Range, y: Range) { x.end.Some? && x.end.value < y.start }

  // ---------------------------------------------------------------- the range parser

  /** What strtol makes of a string: the value, clamped to a long, and the number of characters used. */
  datatype Number = Number(value: int, used: nat)

  type Strtol = string -> Number

  ghost predicate Sane(strtol: Strtol) {
    forall s :: -LONG_MAX - 1 <= strtol(s).value <= LONG_MAX && strtol(s).used <= |s|
  }

  /** One token: a number, a number and a dash, or two ascending numbers with a dash between them. */
  ghost function ParseToken(strtol: Strtol, token: string): Option<Range>
    requires Sane(strtol)
  {
    var a := strtol(token);
    var rest := token[a.used..];
    if rest != [] && rest[0] != '-' then None
    else if |rest| < 2 then Some(Range(a.value, None))
    else
      var b := strtol(rest[1..]);
      if b.value <= a.value || b.used < |rest[1..]| then None
      else Some(Range(a.value, if b.value < LONG_MAX then Some(b.value) else None))
  }

  ghost predicate AllParse(strtol: Strtol, tokens: seq<string>)
    requires Sane(strtol)
  {
    forall i :: 0 <= i < |tokens| ==> ParseToken(strtol, tokens[i]).Some?
  }

  ghost function Ranges(strtol: Strtol, tokens: seq<string>): seq<Range>
    requires Sane(strtol) && AllParse(strtol, tokens)
  {
    seq(|tokens|, i requires 0 <= i < |tokens| => ParseToken(strtol, tokens[i]).value)
  }

  ghost predicate Legal(strtol: Strtol, tokens: seq<string>)
    requires Sane(strtol)
  {
    AllParse(strtol, tokens) && Ordered(Ranges(strtol, tokens))
  }

  /** Where to stop and where to go on: one skip per closed range. */
  ghost function SkipsOf(ranges: seq<Range>): seq<Skip>
    requires Ordered(ranges)
  {
    seq(ClosedCount(ranges), i requires 0 <= i < ClosedCount(ranges) => SkipAfter(ranges, i))
  }

  ghost function ClosedCount(ranges: seq<Range>): (n: nat)
    ensures n <= |ranges|
  {
    if ranges != [] && ranges[|ranges| - 1].end.None? then |ranges| - 1 else |ranges|
  }

  ghost function SkipAfter(ranges: seq<Range>, i: nat): Skip
    requires Ordered(ranges) && i < ClosedCount(ranges)
  {
    assert i + 1 < |ranges| ==> Apart(ranges[i], ranges[i + 1]);
    Skip(ranges[i].end.value, if i + 1 < |ranges| then ranges[i + 1].start else SIZE_MAX)
  }

  ghost function StartOf(ranges: seq<Range>): int { if ranges == [] then 0 else ranges[0].start }

  lemma OrderedSnoc(ranges: seq<Range>, x: Range)
    requires Ordered(ranges) && RangeOk(x) && (ranges != [] ==> Apart(ranges[|ranges| - 1], x))
    ensures Ordered(ranges + [x])
    ensures SkipsOf(ranges + [x]) == (if ranges == [] then []
                                      else SkipsOf(ranges)[|ranges| - 1 := Skip(ranges[|ranges| - 1].end.value, x.start)])
                                     + (if x.end.Some? then [Skip(x.end.value, SIZE_MAX)] else [])
  {
    var all := ranges + [x];
    forall i, j | 0 <= i && j == i + 1 && j < |all| ensures Apart(all[i], all[j]) {
      if j < |ranges| { assert Apart(ranges[i], ranges[j]); }
    }
  }

  ghost function LastEnd(ranges: seq<Range>): int {
    if ranges == [] then -1 else match ranges[|ranges| - 1].end case None => LONG_MAX case Some(e) => e
  }

  /** Looking at one token and the end of the range before it is enough to decide whether the list is still legal. */
  lemma LegalNext(strtol: Strtol, tokens: seq<string>, i: nat)
    requires Sane(strtol) && i < |tokens| && Legal(strtol, tokens[..i])
    ensures var x, ranges := ParseToken(strtol, tokens[i]), Ranges(strtol, tokens[..i]);
            && (Legal(strtol, tokens[..i + 1]) <==> x.Some? && x.value.start > LastEnd(ranges))
            && (Legal(strtol, tokens[..i + 1]) ==> Ranges(strtol, tokens[..i + 1]) == ranges + [x.value])
            && (x.Some? && x.value.start > LastEnd(ranges) ==>
                  RangeOk(x.value) && (ranges != [] ==> Apart(ranges[|ranges| - 1], x.value)))
  {
    var x, ranges, more := ParseToken(strtol, tokens[i]), Ranges(strtol, tokens[..i]), tokens[..i + 1];
    assert more == tokens[..i] + [tokens[i]];
    if x.Some? && x.value.start > LastEnd(ranges) {
      OrderedSnoc(ranges, x.value);
      assert Ranges(strtol, more) == ranges + [x.value];
    } else if AllParse(strtol, more) {
      var all := Ranges(strtol, more);
      assert all == ranges + [x.value];
      if i == 0 { assert !RangeOk(all[0]); } else { assert !Apart(all[i - 1], all[i]); }
    } else {
      assert AllParse(strtol, tokens[..i]);
    }
  }

  lemma LegalPrefix(strtol: Strtol, tokens: seq<string>, i: nat)
    requires Sane(strtol) && i <= |tokens| && Legal(strtol, tokens)
    ensures Legal(strtol, tokens[..i]) && Ranges(strtol, tokens[..i]) == Ranges(strtol, tokens)[..i]
  {
    var all, some := Ranges(strtol, tokens), Ranges(strtol, tokens[..i]);
    assert some == all[..i];
    forall j, k | 0 <= j && k == j + 1 && k < |some| ensures Apart(some[j], some[k]) {
      assert Apart(all[j], all[k]);
    }
  }

  // ---------------------------------------------------------------- what a token means

  /**
   * The token is x, a number, perhaps with a dash behind it, and asks for everything from there on; or it is x, a dash
   * and y, two numbers of which the second is higher, and asks for the bytes from the first up to the second.
   */
  ghost predicate Spelled(strtol: Strtol, token: string, x: string, y: string, range: Range) {
    && strtol(token) == Number(range.start, |x|)
    && (if y == [] then (token == x || token == x + "-") && range.end.None?
        else
          && token == x + "-" + y && strtol(y).used == |y| && range.start < strtol(y).value
          && range.end == if strtol(y).value == LONG_MAX then None else Some(strtol(y).value))
  }

  ghost predicate Means(strtol: Strtol, token: string, range: Range) {
    exists x: string, y: string :: Spelled(strtol, token, x, y, range)
  }

  /** A token spelled like this is read as this range. */
  lemma SpelledParses(strtol: Strtol, token: string, x: string, y: string, range: Range)
    requires Sane(strtol) && Spelled(strtol, token, x, y, range)
    ensures ParseToken(strtol, token) == Some(range)
  {
    var rest := token[|x|..];
    if y == [] {
      assert rest == [] || rest == "-";
    } else {
      assert rest == "-" + y && rest[1..] == y;
    }
  }

  /** The parser takes a token for a range if and only if the token is spelled like that; any other token is refused. */
  lemma TokenMeaning(strtol: Strtol, token: string, range: Range)
    requires Sane(strtol)
    ensures ParseToken(strtol, token) == Some(range) <==> Means(strtol, token, range)
  {
    if Means(strtol, token, range) {
      var x: string, y: string :| Spelled(strtol, token, x, y, range);
      SpelledParses(strtol, token, x, y, range);
    }
    if ParseToken(strtol, token) == Some(range) {
      var n := strtol(token).used;
      var x, rest := token[..n], token[n..];
      assert token == x + rest;
      if |rest| < 2 {
        assert Spelled(strtol, token, x, [], range);
      } else {
        assert rest == "-" + rest[1..];
        assert Spelled(strtol, token, x, rest[1..], range);
      }
    }
  }

  ghost predicate AllMean(strtol: Strtol, tokens: seq<string>, ranges: seq<Range>) {
    |ranges| == |tokens| && forall i :: 0 <= i < |tokens| ==> Means(strtol, tokens[i], ranges[i])
  }

  /** A list is legal if and only if its tokens mean ranges in the right order, and those are the ranges asked for. */
  lemma LegalMeaning(strtol: Strtol, tokens: seq<string>)
    requires Sane(strtol)
    ensures Legal(strtol, tokens) ==> AllMean(strtol, tokens, Ranges(strtol, tokens))
    ensures forall ranges | AllMean(strtol, tokens, ranges) && Ordered(ranges) ::
              Legal(strtol, tokens) && Ranges(strtol, tokens) == ranges
  {
    if Legal(strtol, tokens) {
      var ranges := Ranges(strtol, tokens);
      forall i | 0 <= i < |tokens| ensures Means(strtol, tokens[i], ranges[i]) { TokenMeaning(strtol, tokens[i], ranges[i]); }
    }
    forall ranges | AllMean(strtol, tokens, ranges) && Ordered(ranges)
      ensures Legal(strtol, tokens) && Ranges(strtol, tokens) == ranges
    {
      forall i | 0 <= i < |tokens| ensures ParseToken(strtol, tokens[i]) == Some(ranges[i]) { TokenMeaning(strtol, tokens[i], ranges[i]); }
      assert Ranges(strtol, tokens) == ranges;
    }
  }

  // ---------------------------------------------------------------- what the ranges ask for, byte by byte

  ghost predicate InRange(x: Range, n: nat) { x.start <= n && (x.end.Some? ==> n < x.end.value) }

  /** Some range holds this offset; without ranges everything is asked for. */
  ghost predicate Asked(ranges: seq<Range>, n: nat) {
    ranges == [] || exists k :: 0 <= k < |ranges| && InRange(ranges[k], n)
  }

  /** The bytes of the resource from one offset up to another that are asked for. */
  ghost function Chosen(r: seq<byte>, ranges: seq<Range>, from: nat, upto: nat): seq<byte>
    requires from <= upto <= |r|
    decreases upto
  {
    if from == upto then []
    else Chosen(r, ranges, from, upto - 1) + if Asked(ranges, upto - 1) then [r[upto - 1]] else []
  }

  lemma {:induction false} ChosenSplit(r: seq<byte>, ranges: seq<Range>, from: nat, mid: nat, upto: nat)
    requires from <= mid <= upto <= |r|
    ensures Chosen(r, ranges, from, upto) == Chosen(r, ranges, from, mid) + Chosen(r, ranges, mid, upto)
    decreases upto
  {
    if mid < upto {
      ChosenSplit(r, ranges, from, mid, upto - 1);
      Regroup(Chosen(r, ranges, from, mid), Chosen(r, ranges, mid, upto - 1), if Asked(ranges, upto - 1) then [r[upto - 1]] else []);
    }
  }

  lemma {:induction false} ChosenAll(r: seq<byte>, ranges: seq<Range>, from: nat, upto: nat)
    requires from <= upto <= |r| && forall n :: from <= n < upto ==> Asked(ranges, n)
    ensures Chosen(r, ranges, from, upto) == r[from..upto]
    decreases upto
  {
    if from < upto { ChosenAll(r, ranges, from, upto - 1); }
  }

  lemma {:induction false} ChosenNone(r: seq<byte>, ranges: seq<Range>, from: nat, upto: nat)
    requires from <= upto <= |r| && forall n :: from <= n < upto ==> !Asked(ranges, n)
    ensures Chosen(r, ranges, from, upto) == []
    decreases upto
  {
    if from < upto { ChosenNone(r, ranges, from, upto - 1); }
  }

  /** Ranges lie apart not only from their neighbours. */
  lemma {:induction false} AllApart(ranges: seq<Range>, i: nat, j: nat)
    requires Ordered(ranges) && i < j < |ranges|
    ensures Apart(ranges[i], ranges[j])
    decreases j
  {
    assert Apart(ranges[j - 1], ranges[j]);
    if i < j - 1 {
      AllApart(ranges, i, j - 1);
      assert RangeOk(ranges[j - 1]);
    }
  }

  /** Where the ranges before position k end. */
  ghost function EndBefore(ranges: seq<Range>, k: nat): int
    requires k <= |ranges|
  {
    if k == 0 then 0 else match ranges[k - 1].end case None => LONG_MAX case Some(e) => e
  }

  lemma AskedBetween(ranges: seq<Range>, k: nat, n: nat)
    requires Ordered(ranges) && k < |ranges| && EndBefore(ranges, k) <= n && (k > 0 ==> ranges[k - 1].end.Some?)
    requires ranges[k].end.Some? ==> n < ranges[k].end.value
    ensures Asked(ranges, n) <==> ranges[k].start <= n
  {
    if ranges[k].start <= n { assert InRange(ranges[k], n); }
    assert k > 0 ==> RangeOk(ranges[k - 1]);
    forall j | 0 <= j < |ranges| && j != k ensures !InRange(ranges[j], n) {
      if k < j { AllApart(ranges, k, j); } else if j < k - 1 { AllApart(ranges, j, k - 1); }
    }
  }

  lemma AskedBehind(ranges: seq<Range>, n: nat)
    requires Ordered(ranges) && ranges != [] && ranges[|ranges| - 1].end.Some? && ranges[|ranges| - 1].end.value <= n
    ensures !Asked(ranges, n)
  {
    var last := |ranges| - 1;
    forall j | 0 <= j < |ranges| ensures !InRange(ranges[j], n) {
      if j < last { AllApart(ranges, j, last); assert RangeOk(ranges[last]); }
    }
  }

  /** What is chosen between the ranges before k and the end of range k. */
  lemma ChosenOne(r: seq<byte>, ranges: seq<Range>, k: nat)
    requires Ordered(ranges) && k < |ranges| && (k > 0 ==> ranges[k - 1].end.Some?)
    ensures var to := match ranges[k].end case None => |r| case Some(e) => Clip(e, |r|);
            Clip(EndBefore(ranges, k), |r|) <= to && Chosen(r, ranges, Clip(EndBefore(ranges, k), |r|), to) == SliceOf(r, ranges[k])
  {
    assert RangeOk(ranges[k]) && (k > 0 ==> Apart(ranges[k - 1], ranges[k]) && RangeOk(ranges[k - 1]));
    var from, start := Clip(EndBefore(ranges, k), |r|), Clip(ranges[k].start, |r|);
    var to := match ranges[k].end case None => |r| case Some(e) => Clip(e, |r|);
    ChosenSplit(r, ranges, from, start, to);
    forall n | from <= n < start ensures !Asked(ranges, n) { AskedBetween(ranges, k, n); }
    ChosenNone(r, ranges, from, start);
    forall n | start <= n < to ensures Asked(ranges, n) { AskedBetween(ranges, k, n); }
    ChosenAll(r, ranges, start, to);
  }

  lemma {:induction false} ChosenFrom(r: seq<byte>, ranges: seq<Range>, k: nat)
    requires Ordered(ranges) && ranges != [] && k <= |ranges| && (k > 0 ==> ranges[k - 1].end.Some?)
    ensures Chosen(r, ranges, Clip(EndBefore(ranges, k), |r|), |r|) == WantedFrom(r, ranges, k)
    decreases |ranges| - k
  {
    var from := Clip(EndBefore(ranges, k), |r|);
    if k == |ranges| {
      forall n | from <= n < |r| ensures !Asked(ranges, n) { AskedBehind(ranges, n); }
      ChosenNone(r, ranges, from, |r|);
    } else {
      ChosenOne(r, ranges, k);
      assert k + 1 < |ranges| ==> Apart(ranges[k], ranges[k + 1]);
      if ranges[k].end.Some? {
        ChosenSplit(r, ranges, from, Clip(ranges[k].end.value, |r|), |r|);
        ChosenFrom(r, ranges, k + 1);
      } else {
        assert WantedFrom(r, ranges, k + 1) == [];
      }
    }
  }

  /** What is wanted are the bytes at the offsets some range holds, each of them once and in order. */
  lemma WantedIsChosen(r: seq<byte>, ranges: seq<Range>)
    requires Ordered(ranges)
    ensures Wanted(r, ranges) == Chosen(r, ranges, 0, |r|)
  {
    if ranges == [] {
      ChosenAll(r, ranges, 0, |r|);
      assert r[0..|r|] == r;
    } else {
      ChosenFrom(r, ranges, 0);
    }
  }

  // ---------------------------------------------------------------- what is still to come

  /** What is still to be written from an offset on, given the skips ahead. */
  ghost function Rest(r: seq<byte>, offset: nat, skips: seq<Skip>): seq<byte> { RestFrom(r, offset, skips, 0) }

  ghost function RestFrom(r: seq<byte>, offset: nat, skips: seq<Skip>, k: nat): seq<byte>
    requires k <= |skips|
    decreases |skips| - k
  {
    if k == |skips| then Slice(r, offset, |r|)
    else Slice(r, offset, skips[k].at) + RestFrom(r, skips[k].to, skips, k + 1)
  }

  /** Dropping the first skip is the same as starting behind it. */
  lemma {:induction false} RestTail(r: seq<byte>, offset: nat, skips: seq<Skip>, k: nat)
    requires 0 < k <= |skips|
    ensures RestFrom(r, offset, skips[1..], k - 1) == RestFrom(r, offset, skips, k)
    decreases |skips| - k
  {
    if k < |skips| {
      assert skips[1..][k - 1] == skips[k];
      RestTail(r, skips[k].to, skips, k + 1);
    }
  }

  /** Every skip lies ahead and leads further ahead. */
  ghost predicate SkipsOk(offset: nat, skips: seq<Skip>) {
    && (skips != [] ==> offset < skips[0].at)
    && (forall i :: 0 <= i < |skips| ==> skips[i].at < skips[i].to)
    && (forall i, j :: 0 <= i && j == i + 1 && j < |skips| ==> skips[i].to < skips[j].at)
  }

  lemma SkipsOfOk(ranges: seq<Range>)
    requires Ordered(ranges)
    ensures 0 <= StartOf(ranges) && SkipsOk(StartOf(ranges), SkipsOf(ranges))
  {
    var skips := SkipsOf(ranges);
    forall i | 0 <= i < |skips| ensures skips[i].at < skips[i].to {
      if i + 1 < |ranges| { assert Apart(ranges[i], ranges[i + 1]); }
    }
    forall i, j | 0 <= i && j == i + 1 && j < |skips| ensures skips[i].to < skips[j].at {
      assert Apart(ranges[i], ranges[j]);
    }
  }

  /** Following the skips yields exactly the ranges. */
  lemma {:induction false} RestIsWanted(r: seq<byte>, ranges: seq<Range>, k: nat)
    requires Ordered(ranges) && |r| <= SIZE_MAX && k < |ranges|
    ensures k <= |SkipsOf(ranges)| && RestFrom(r, ranges[k].start, SkipsOf(ranges), k) == WantedFrom(r, ranges, k)
    decreases |ranges| - k
  {
    var skips := SkipsOf(ranges);
    if k + 1 < |ranges| {
      assert Apart(ranges[k], ranges[k + 1]);
      RestIsWanted(r, ranges, k + 1);
    } else if k < |skips| {
      assert skips[k] == Skip(ranges[k].end.value, SIZE_MAX);
      assert RestFrom(r, SIZE_MAX, skips, k + 1) == [];
    }
  }

  lemma RestWanted(r: seq<byte>, ranges: seq<Range>)
    requires Ordered(ranges) && |r| <= SIZE_MAX
    ensures 0 <= StartOf(ranges) && Rest(r, StartOf(ranges), SkipsOf(ranges)) == Wanted(r, ranges)
  {
    if ranges != [] { RestIsWanted(r, ranges, 0); }
  }

  /** What is in the file and what is still to come are together the same as before. */
  ghost predicate Accounted(r: seq<byte>, file: seq<byte>, offset: nat, skips: seq<Skip>,
                            file': seq<byte>, offset': nat, skips': seq<Skip>) {
    file' + Rest(r, offset', skips') == file + Rest(r, offset, skips)
  }

  /**
   * One block has been handled: nothing is lost or repeated, something is written unless the block is empty,
   * and a request lies strictly ahead of the data taken and of every request before it.
   */
  ghost predicate Handled(r: seq<byte>, data: seq<byte>, file: seq<byte>, offset: nat, skips: seq<Skip>,
                          file': seq<byte>, offset': nat, skips': seq<Skip>, request: Option<nat>) {
    && Accounted(r, file, offset, skips, file', offset', skips')
    && |file| <= |file'| <= |file| + |data| && (data != [] ==> |file| < |file'|)
    && (match request
        case Some(n) => n == offset' > offset + (|file'| - |file|)
        case None => offset' == offset + |data| && skips' == skips)
  }

  /** A block that stays before the next skip is written as it is. */
  lemma TakeBlock(r: seq<byte>, file: seq<byte>, offset: nat, data: seq<byte>, skips: seq<Skip>)
    requires BlockAt(r, offset, data) && SkipsOk(offset, skips) && (skips != [] ==> offset + |data| < skips[0].at)
    ensures SkipsOk(offset + |data|, skips) == true
    ensures Handled(r, data, file, offset, skips, file + data[..|data|], offset + |data|, skips, None) == true
  {
    var next := offset + |data|;
    assert data[..|data|] == data;
    if skips == [] {
      Cut(r, offset, next, |r|);
    } else {
      Cut(r, offset, next, Clip(skips[0].at, |r|));
      Regroup(data, Slice(r, next, skips[0].at), RestFrom(r, skips[0].to, skips, 1));
    }
    Regroup(file, data, Rest(r, next, skips));
  }

  /** A block that reaches the next skip is written up to it. */
  lemma TakePart(r: seq<byte>, file: seq<byte>, offset: nat, data: seq<byte>, skips: seq<Skip>)
    requires BlockAt(r, offset, data) && SkipsOk(offset, skips) && skips != [] && skips[0].at <= offset + |data|
    ensures SkipsOk(skips[0].to, skips[1..]) == true
    ensures Handled(r, data, file, offset, skips, file + data[..skips[0].at - offset], skips[0].to, skips[1..], Some(skips[0].to)) == true
  {
    SkipsTail(offset, skips);
    RestTail(r, skips[0].to, skips, 1);
    assert data[..skips[0].at - offset] == r[offset..skips[0].at];
    Regroup(file, r[offset..skips[0].at], Rest(r, skips[0].to, skips[1..]));
  }

  /** Either way the block is handled. */
  lemma TakeSome(r: seq<byte>, file: seq<byte>, offset: nat, data: seq<byte>, skips: seq<Skip>,
                 toWrite: nat, offset': nat, skips': seq<Skip>, request: Option<nat>)
    requires BlockAt(r, offset, data) && SkipsOk(offset, skips)
    requires if skips != [] && skips[0].at <= offset + |data|
             then toWrite == skips[0].at - offset && offset' == skips[0].to && skips' == skips[1..] && request == Some(skips[0].to)
             else toWrite == |data| && offset' == offset + |data| && skips' == skips && request == None
    ensures SkipsOk(offset', skips') == true && toWrite <= |data| && (toWrite == 0 <==> data == [])
    ensures Handled(r, data, file, offset, skips, file + data[..toWrite], offset', skips', request) == true
  {
    if skips != [] && skips[0].at <= offset + |data| {
      TakePart(r, file, offset, data, skips);
    } else {
      TakeBlock(r, file, offset, data, skips);
    }
  }

  /** The block is what the resource holds at the offset. */
  ghost predicate BlockAt(r: seq<byte>, offset: nat, data: seq<byte>) {
    offset + |data| <= |r| && data == r[offset..offset + |data|]
  }

  lemma Cut(r: seq<byte>, i: nat, j: nat, k: nat)
    requires i <= j <= k <= |r|
    ensures r[i..k] == r[i..j] + r[j..k]
  {}

  lemma {:induction false} NothingLeft(r: seq<byte>, offset: nat, skips: seq<Skip>, k: nat)
    requires k <= |skips| && |r| <= offset && SkipsOk(offset, skips) && (k > 0 ==> |r| <= skips[k - 1].to)
    ensures RestFrom(r, if k == 0 then offset else skips[k - 1].to, skips, k) == []
    decreases |skips| - k
  {
    if k < |skips| {
      if k > 0 { assert skips[k - 1].to < skips[k].at; }
      NothingLeft(r, offset, skips, k + 1);
    }
  }

  lemma SkipsTail(offset: nat, skips: seq<Skip>)
    requires SkipsOk(offset, skips) && skips != []
    ensures SkipsOk(skips[0].to, skips[1..])
  {
    var tail := skips[1..];
    forall i, j | 0 <= i && j == i + 1 && j < |tail| ensures tail[i].to < tail[j].at {
      assert skips[i + 1].to < skips[j + 1].at;
    }
    if tail != [] { assert skips[0].to < skips[1].at; }
  }

  // ---------------------------------------------------------------- the code

  /** There is memory for all these skips. */
  ghost predicate Enough(fails: nat -> bool, skips: seq<Skip>) { forall k :: 0 <= k < |skips| ==> !fails(k) }

  /** demo_download_user_data_t. */
  class Download {
    var skips: seq<Skip>
    var currentOffset: nat
    var file: seq<byte>

    ghost predicate Valid()
      reads this
    {
      SkipsOk(currentOffset, skips)
    }

    constructor ()
      ensures Valid() && skips == [] && currentOffset == 0 && file == []
    {
      skips, currentOffset, file := [], 0, [];
    }

    /** One token of the range parser. */
    method ParseOne(strtol: Strtol, token: string, lastEnd: int) returns (x: Option<Range>)
      requires Sane(strtol)
      ensures var p := ParseToken(strtol, token); x == if p.Some? && p.value.start > lastEnd then p else None
    {
      var a := strtol(token);
      var rest := token[a.used..];
      if a.value <= lastEnd || (rest != [] && rest[0] != '-') {
        return None;
      }
      if |rest| < 2 {
        return Some(Range(a.value, None));
      }
      var b := strtol(rest[1..]);
      if b.value <= a.value || b.used < |rest[1..]| {
        return None;
      }
      x := Some(Range(a.value, if b.value < LONG_MAX then Some(b.value) else None));
    }

    /** What the parser loop does with an accepted range; fails(k) says that allocating the k-th skip fails. */
    method AddRange(x: Range, fails: nat -> bool, ghost ranges: seq<Range>) returns (ok: bool)
      requires Ordered(ranges) && RangeOk(x) && (ranges != [] ==> Apart(ranges[|ranges| - 1], x))
      requires skips == SkipsOf(ranges) && currentOffset == StartOf(ranges) && Enough(fails, skips)
      modifies this`skips, this`currentOffset
      ensures ok <==> x.end.None? || !fails(|ranges|)
      ensures Ordered(ranges + [x])
      ensures ok ==> skips == SkipsOf(ranges + [x]) && currentOffset == StartOf(ranges + [x]) && Enough(fails, skips) == true
    {
      OrderedSnoc(ranges, x);
      if skips != [] {
        skips := skips[|skips| - 1 := skips[|skips| - 1].(to := x.start)];
      } else {
        currentOffset := x.start;
      }
      if x.end.Some? {
        if fails(|skips|) {
          return false;
        }
        skips := skips + [Skip(x.end.value, SIZE_MAX)];
      }
      ok := true;
    }

    /** The parser loop. */
    method ParseRanges(strtol: Strtol, tokens: seq<string>, fails: nat -> bool) returns (ok: bool)
      requires Sane(strtol) && skips == [] && currentOffset == 0
      modifies this`skips, this`currentOffset
      ensures ok <==> Legal(strtol, tokens) && Enough(fails, SkipsOf(Ranges(strtol, tokens)))
      ensures ok ==> currentOffset == StartOf(Ranges(strtol, tokens)) && skips == SkipsOf(Ranges(strtol, tokens))
      ensures ok ==> AllMean(strtol, tokens, Ranges(strtol, tokens))
    {
      LegalMeaning(strtol, tokens);
      var lastEnd := -1;
      ghost var ranges := Ranges(strtol, tokens[..0]);
      for i := 0 to |tokens|
        invariant Legal(strtol, tokens[..i]) && ranges == Ranges(strtol, tokens[..i]) && lastEnd == LastEnd(ranges)
        invariant currentOffset == StartOf(ranges) && skips == SkipsOf(ranges) && Enough(fails, skips) == true
      {
        LegalNext(strtol, tokens, i);
        var x := ParseOne(strtol, tokens[i], lastEnd);
        if x.None? {
          NeverLegal(strtol, tokens, i + 1);
          return false;
        }
        ok := AddRange(x.value, fails, ranges);
        ranges := ranges + [x.value];
        if !ok {
          FailsAnyway(strtol, tokens, i, fails);
          return;
        }
        lastEnd := if x.value.end.Some? then x.value.end.value else LONG_MAX;
      }
      assert tokens[..|tokens|] == tokens;
      ok := true;
    }

    /** Where the callback stops writing, and where it goes on. */
    method Advance(size: nat) returns (toWrite: nat, request: Option<nat>)
      requires Valid()
      modifies this`currentOffset, this`skips
      ensures var offset, ahead := old(currentOffset), old(skips);
              if ahead != [] && ahead[0].at <= offset + size
              then toWrite == ahead[0].at - offset && currentOffset == ahead[0].to && skips == ahead[1..] && request == Some(ahead[0].to)
              else toWrite == size && currentOffset == offset + size && skips == ahead && request == None
    {
      toWrite, request := size, None;
      if skips != [] && skips[0].at <= currentOffset + size {
        toWrite := skips[0].at - currentOffset;
        currentOffset, skips := skips[0].to, skips[1..];
        request := Some(currentOffset);
      } else {
        currentOffset := currentOffset + toWrite;
      }
    }

    /** dl_write_next_block_new. */
    method OnNextBlock(data: seq<byte>, ghost r: seq<byte>) returns (result: int, request: Option<nat>)
      requires Valid() && BlockAt(r, currentOffset, data)
      modifies this
      ensures Valid() && (result == 0 <==> data != [])
      ensures Handled(r, data, old(file), old(currentOffset), old(skips), file, currentOffset, skips, request)
    {
      ghost var offset, ahead := currentOffset, skips;
      var toWrite;
      toWrite, request := Advance(|data|);
      TakeSome(r, file, offset, data, ahead, toWrite, currentOffset, skips, request);
      file := file + data[..toWrite];
      result := if toWrite == 0 then -1 else 0;
    }

    /**
     * The downloader's side of the contract in include_public/anjay/download.h: blocks of any size, each from the
     * last requested offset or, without a request, from where the last one ended, until the resource is exhausted.
     */
    method Run(r: seq<byte>, cut: nat -> nat)
      requires Valid()
      modifies this
      ensures Valid() && file == old(file) + Rest(r, old(currentOffset), old(skips))
    {
      var at, count := currentOffset, 0;
      while at < |r|
        invariant Valid() && at == currentOffset
        invariant Accounted(r, old(file), old(currentOffset), old(skips), file, currentOffset, skips)
        decreases |r| - at
      {
        var n := if cut(count) == 0 then 1 else if cut(count) < |r| - at then cut(count) else |r| - at;
        var result, request := OnNextBlock(r[at..at + n], r);
        assert result == 0;
        at, count := if request.Some? then request.value else at + n, count + 1;
      }
      NothingLeft(r, currentOffset, skips, 0);
    }
  }

  lemma NeverLegal(strtol: Strtol, tokens: seq<string>, i: nat)
    requires Sane(strtol) && i <= |tokens| && !Legal(strtol, tokens[..i])
    ensures Legal(strtol, tokens) == false
  {
    if Legal(strtol, tokens) { LegalPrefix(strtol, tokens, i); }
  }

  lemma FailsAnyway(strtol: Strtol, tokens: seq<string>, i: nat, fails: nat -> bool)
    requires Sane(strtol) && i < |tokens| && ParseToken(strtol, tokens[i]).Some? && ParseToken(strtol, tokens[i]).value.end.Some?
    requires fails(i)
    ensures !(Legal(strtol, tokens) && Enough(fails, SkipsOf(Ranges(strtol, tokens))))
  {
    if Legal(strtol, tokens) { assert i < |SkipsOf(Ranges(strtol, tokens))|; }
  }

  /**
   * The whole command: for every accepted range list and every way to cut the resource into blocks, the file
   * is the concatenation of the ranges its tokens mean, clipped to the resource: the bytes at the offsets asked for.
   */
  method DownloadBlocks(strtol: Strtol, tokens: seq<string>, fails: nat -> bool, r: seq<byte>, cut: nat -> nat)
    returns (ok: bool, file: seq<byte>)
    requires Sane(strtol) && |r| <= SIZE_MAX
    ensures ok <==> Legal(strtol, tokens) && Enough(fails, SkipsOf(Ranges(strtol, tokens)))
    ensures file == if ok then Wanted(r, Ranges(strtol, tokens)) else []
    ensures ok ==> AllMean(strtol, tokens, Ranges(strtol, tokens)) && file == Chosen(r, Ranges(strtol, tokens), 0, |r|)
    ensures forall ranges | AllMean(strtol, tokens, ranges) && Ordered(ranges) ::
              && (ok <==> Enough(fails, SkipsOf(ranges))) && (ok ==> file == Chosen(r, ranges, 0, |r|))
  {
    var d := new Download();
    LegalMeaning(strtol, tokens);
    ok := d.ParseRanges(strtol, tokens, fails);
    if ok {
      ghost var ranges := Ranges(strtol, tokens);
      WantedIsChosen(r, ranges);
      SkipsOfOk(ranges);
      RestWanted(r, ranges);
      d.Run(r, cut);
    }
    file := d.file;
  }
}
