/** Result types, bytes and the integer widths of the wire types. */
module Basics {
  datatype Option<+T> = None | Some(value: T)

  datatype Result<+T, +E> = Ok(value: T) | Err(error: E)

  type byte = x: int | 0 <= x < 256

  type Bytes = seq<byte>

  const UINT64_LIMIT := 0x1_0000_0000_0000_0000
  const INT64_LIMIT := 0x8000_0000_0000_0000

  type uint64 = x: int | 0 <= x < UINT64_LIMIT

  function Max(a: int, b: int): int {
    if a < b then b else a
  }

  lemma {:induction false} Assoc<T>(a: seq<T>, b: seq<T>, c: seq<T>)
    ensures (a + b) + c == a + (b + c)
  {
  }

  // Dropping a known front.
  lemma {:induction false} DropFront<T>(a: seq<T>, b: seq<T>)
    ensures (a + b)[..|a|] == a && (a + b)[|a|..] == b
  {
  }

  lemma {:induction false} Split3<T>(a: T, b: T, c: T)
    ensures [a, b, c] == [a] + ([b] + ([c] + []))
  {
  }

  // What every step from a good state keeps and relates holds along a whole run.
  lemma {:induction false} Along<S(!new)>(
    step: (S, S) -> bool, good: S -> bool, related: (S, S) -> bool, run: seq<S>, i: nat, j: nat)
    requires i <= j < |run| && good(run[0])
    requires forall k | 0 <= k < |run| - 1 :: step(run[k], run[k + 1])
    requires forall s, t | good(s) && step(s, t) :: good(t) && related(s, t)
    requires forall s, t, u | related(s, t) && related(t, u) :: related(s, u)
    requires forall s :: related(s, s)
    ensures good(run[j]) && related(run[i], run[j])
    decreases j
  {
    if j > 0 {
      Along(step, good, related, run, if i < j then i else j - 1, j - 1);
      assert step(run[j - 1], run[j - 1 + 1]);
    }
  }
}
