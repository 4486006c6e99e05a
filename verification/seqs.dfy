/** Small facts about sequences, stated once and used wherever a proof
    about plans, children or split pieces needs them. */
module Seqs {
  /** Appending is associative. */
  lemma AppendAssociative<T>(a: seq<T>, b: seq<T>, c: seq<T>)
    ensures a + (b + c) == (a + b) + c
  {
  }

  /** Replacing the first element of `left` by `first`, before or after
      appending `right`, gives the same sequence. */
  lemma ReplaceHead<T>(first: T, left: seq<T>, right: seq<T>)
    requires |left| >= 1
    ensures [first] + (left + right)[1..] == ([first] + left[1..]) + right
  {
    assert (left + right)[1..] == left[1..] + right;
  }

  /** Being a prefix is transitive. */
  lemma PrefixTransitive<T>(a: seq<T>, b: seq<T>, c: seq<T>)
    requires a <= b && b <= c
    ensures a <= c
  {
    assert forall k :: 0 <= k < |a| ==> a[k] == b[k] == c[k];
  }

  /** Taking all of a sequence. */
  lemma TakeAll<T>(s: seq<T>)
    ensures s[..|s|] == s
  {
  }

  /** Taking `a` elements of the first `b`. */
  lemma TakeTake<T>(s: seq<T>, a: nat, b: nat)
    requires a <= b <= |s|
    ensures s[..b][..a] == s[..a]
  {
  }

  /** An element of the left part of a concatenation. */
  lemma AppendLeft<T>(a: seq<T>, b: seq<T>, k: nat)
    requires k < |a|
    ensures (a + b)[k] == a[k]
  {
  }

  /** An element of the right part of a concatenation. */
  lemma AppendRight<T>(a: seq<T>, b: seq<T>, j: nat)
    requires j < |b|
    ensures (a + b)[|a| + j] == b[j]
  {
  }

  /** Taking one more element of `b` after `a`. */
  lemma TakeOneMore<T>(a: seq<T>, b: seq<T>, j: nat)
    requires j < |b|
    ensures a + b[..j + 1] == (a + b[..j]) + [b[j]]
  {
    assert b[..j + 1] == b[..j] + [b[j]];
  }

  /** A slice that runs to the end is the suffix. */
  lemma SliceToEnd<T>(s: seq<T>, i: nat, j: nat)
    requires i <= j == |s|
    ensures s[i..j] == s[i..]
  {
  }

  /** A non-empty sequence is its front followed by its last element. */
  lemma FrontLast<T>(s: seq<T>)
    requires |s| > 0
    ensures s[..|s| - 1] + [s[|s| - 1]] == s
  {
  }

  /** Appending none of `b`. */
  lemma AppendNone<T>(a: seq<T>, b: seq<T>)
    ensures a + b[..0] == a
  {
  }

  /** A prefix agrees with the whole sequence at its own indices. */
  lemma PrefixAt<T>(a: seq<T>, b: seq<T>, k: nat)
    requires a <= b && k < |a|
    ensures k < |b| && b[k] == a[k]
  {
  }
}
