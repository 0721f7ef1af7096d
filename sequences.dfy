/** Small facts about sequences, each proved on its own so that the proofs that use them
    need not establish sequence equalities element by element. */
module Sequences {

  /** Concatenation regroups freely ... */
  lemma AppendAssoc<T>(a: seq<T>, b: seq<T>, c: seq<T>)
    ensures a + b + c == a + (b + c)
  {
  }

  /** ... and the empty sequence is its unit. */
  lemma AppendNil<T>(a: seq<T>)
    ensures a + [] == a
  {
  }

  /** A non-empty sequence is its front followed by its last element ... */
  lemma Unsnoc<T>(a: seq<T>)
    requires a != []
    ensures a[..|a| - 1] + [a[|a| - 1]] == a
  {
  }

  /** ... and its first element followed by the rest. */
  lemma Uncons<T>(a: seq<T>)
    requires a != []
    ensures a == [a[0]] + a[1..]
  {
  }

  /** The empty sequence is a unit on the left too. */
  lemma NilAppend<T>(a: seq<T>)
    ensures [] + a == a
  {
  }

  /** Taking as many elements as the left part has gives back the left part. */
  lemma LeftOfAppend<T>(a: seq<T>, b: seq<T>)
    ensures (a + b)[..|a|] == a
  {
  }

  /** Dropping as many elements as the left part has gives back the right part. */
  lemma RightOfAppend<T>(a: seq<T>, b: seq<T>)
    ensures (a + b)[|a|..] == b
  {
  }

  /** Dropping the first element of a concatenation with a non-empty left part drops it
      from that part. */
  lemma RestOfAppend<T>(a: seq<T>, b: seq<T>)
    requires a != []
    ensures (a + b)[1..] == a[1..] + b
  {
  }

  /** A prefix of a prefix is a prefix. */
  lemma PrefixOfPrefix<T>(a: seq<T>, n: nat, i: nat)
    requires i <= n <= |a|
    ensures a[..n][..i] == a[..i]
  {
  }

  /** A prefix one longer is the prefix followed by the next element ... */
  lemma PrefixSnoc<T>(a: seq<T>, j: nat)
    requires j < |a|
    ensures a[..j + 1] == a[..j] + [a[j]]
  {
  }

  /** ... and the prefix as long as the whole is the whole. */
  lemma PrefixAll<T>(a: seq<T>)
    ensures a[..|a|] == a
  {
  }

  /** Dropping the last element of a concatenation with a non-empty right part drops it
      from that part. */
  lemma FrontOfAppend<T>(a: seq<T>, b: seq<T>)
    requires b != []
    ensures (a + b)[..|a + b| - 1] == a + b[..|b| - 1]
  {
  }
}
