/** Small shared types. */
module Prelude {

  datatype Option<+T> = None | Some(value: T)

  type Byte = b: int | 0 <= b < 0x100
  type Bytes = seq<Byte>

  type U32 = n: int | 0 <= n < 0x1_0000_0000

  /** A 32-bit checksum. Every result below holds for every such function. */
  type Checksum = Bytes -> U32

  /**
   * How a database transaction ends. It can fail at a statement or at the commit, and a commit
   * whose confirmation is lost reports an error although it happened.
   */
  datatype TransactionOutcome = Committed | RolledBack(afterStatements: nat) | CommittedButUnconfirmed

  function Min(a: int, b: int): int {
    if a <= b then a else b
  }

  function Max(a: int, b: int): int {
    if a <= b then b else a
  }

  function Range(from: nat, to: nat): seq<nat>
    requires from <= to
  {
    seq(to - from, i requires 0 <= i < to - from => from + i)
  }

  /** `tail` is what is left of `whole` after dropping some number of leading elements. */
  ghost predicate SuffixOf<T>(tail: seq<T>, whole: seq<T>) {
    |tail| <= |whole| && tail == whole[|whole| - |tail|..]
  }

  lemma SuffixTransitive<T>(a: seq<T>, b: seq<T>, c: seq<T>)
    requires SuffixOf(a, b) && SuffixOf(b, c)
    ensures SuffixOf(a, c)
  {
    assert b[|b| - |a|..] == c[|c| - |a|..];
  }

  lemma SuffixOfSelf<T>(a: seq<T>)
    ensures SuffixOf(a, a)
  {
  }

  lemma SuffixOfAppend<T>(head: seq<T>, tail: seq<T>)
    ensures SuffixOf(tail, head + tail)
  {
  }
}
