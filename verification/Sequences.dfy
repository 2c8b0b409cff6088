/** Sequences put together from parts. */
module Sequences {
  import opened Options

  lemma Regroup<T>(a: seq<T>, b: seq<T>, c: seq<T>)
    ensures a + b + c == a + (b + c)
  {}

  /** Pieces one after the other. */
  function Joined<T>(pieces: seq<seq<T>>): seq<T> {
    if pieces == [] then [] else Joined(pieces[..|pieces| - 1]) + pieces[|pieces| - 1]
  }

  /** What a loop has read so far, followed by what the rest stands for, if it stands for anything. */
  function Prefixed<T>(got: seq<T>, rest: Option<seq<T>>): Option<seq<T>> {
    match rest
    case None => None
    case Some(s) => Some(got + s)
  }

  lemma PrefixedNone<T>(rest: Option<seq<T>>)
    ensures Prefixed([], rest) == rest
  {
    if rest.Some? { assert [] + rest.value == rest.value; }
  }

  lemma PrefixedNext<T>(got: seq<T>, x: T, rest: Option<seq<T>>)
    ensures Prefixed(got, Prefixed([x], rest)) == Prefixed(got + [x], rest)
  {
    if rest.Some? { Regroup(got, [x], rest.value); }
  }
}
