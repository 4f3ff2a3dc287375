/**
 Small facts about sequences (and so about strings), each proved once in a
 context of its own so that the proofs that use them stay small.
 */
module Seqs {
  /** Concatenation is associative; stated once so that larger proofs need not rediscover it. */
  lemma Assoc<T>(a: seq<T>, b: seq<T>, c: seq<T>)
    ensures a + (b + c) == a + b + c
  {
  }

  /** A sequence is its part before `i`, its element at `i`, and its part after `i`. */
  lemma SplitAt<T>(s: seq<T>, i: nat)
    requires i < |s|
    ensures s == s[..i] + ([s[i]] + s[i + 1..])
  {
  }

  /** A prefix of `a` is a prefix of `a + b`, and stays one behind a common start. */
  lemma PrefixOfAppend<T>(x: seq<T>, p: seq<T>, a: seq<T>, b: seq<T>)
    requires p <= a
    ensures x + p <= x + (a + b)
  {
    assert (x + (a + b))[..|x + p|] == x + p;
  }

  /** An element in neither part is not in their concatenation. */
  lemma NotInAppend<T>(c: T, a: seq<T>, b: seq<T>)
    requires c !in a && c !in b
    ensures c !in a + b
  {
  }

  /** Dropping a first part's prefix from a concatenation. */
  lemma DropAppend<T>(a: seq<T>, b: seq<T>, k: nat)
    requires k <= |a|
    ensures (a + b)[k..] == a[k..] + b
  {
  }
}
