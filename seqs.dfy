/** Sequence helpers shared by the frontend and the backend. */
module Seqs {

  function Min(a: int, b: int): int { if a <= b then a else b }

  /** The last `n` elements, in order: JavaScript's `xs.slice(-n)` and
      Python's `xs[-n:]` for a positive `n`. */
  function LastN<T>(s: seq<T>, n: nat): (r: seq<T>)
    requires n > 0
    ensures |r| == Min(|s|, n)
    ensures r == s[|s| - |r|..]
  {
    if |s| <= n then s else s[|s| - n..]
  }

  /** Taking the last `m` of the last `n` is taking the last `m` when `m <= n`. */
  lemma LastNOfLastN<T>(s: seq<T>, n: nat, m: nat)
    requires 0 < m <= n
    ensures LastN(LastN(s, n), m) == LastN(s, m)
  {
  }

  lemma ConcatAssoc<T>(x: seq<T>, y: seq<T>, z: seq<T>)
    ensures (x + y) + z == x + (y + z)
  {
  }

  /** Dropping the last element of `a + b` drops the last element of `b`. */
  lemma InitOfAppend<T>(a: seq<T>, b: seq<T>)
    requires b != []
    ensures (a + b)[..|a + b| - 1] == a + b[..|b| - 1]
    ensures (a + b)[|a + b| - 1] == b[|b| - 1]
  {
  }

  /** Concatenation of a sequence of sequences. */
  function Flatten<T>(ss: seq<seq<T>>): (r: seq<T>)
    decreases |ss|
  {
    if ss == [] then [] else Flatten(ss[..|ss| - 1]) + ss[|ss| - 1]
  }

  lemma {:induction false} FlattenAppend<T>(a: seq<seq<T>>, b: seq<seq<T>>)
    ensures Flatten(a + b) == Flatten(a) + Flatten(b)
    decreases |b|
  {
    if b == [] {
      assert a + b == a;
    } else {
      var n := |b| - 1;
      FlattenAppend(a, b[..n]);
      InitOfAppend(a, b);
      ConcatAssoc(Flatten(a), Flatten(b[..n]), b[n]);
    }
  }
}
