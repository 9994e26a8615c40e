/** Generic facts about sequences used by the search filter and the paginator. */
module Seqs {

  function Min(a: int, b: int): int {
    if a <= b then a else b
  }

  /** `a` is obtained from `b` by deleting zero or more elements, keeping the
      order of the rest: the shape of every `Array.prototype.filter` result. */
  predicate IsSubseq<T(==)>(a: seq<T>, b: seq<T>)
    decreases |b|
  {
    a == [] || (b != [] && ((a[0] == b[0] && IsSubseq(a[1..], b[1..])) || IsSubseq(a, b[1..])))
  }

  /** `idx` maps every position of `a` to a position of `b` holding the same
      element, and the positions strictly increase. */
  ghost predicate Embeds<T>(a: seq<T>, b: seq<T>, idx: seq<nat>) {
    && |idx| == |a|
    && (forall k :: 0 <= k < |idx| ==> idx[k] < |b| && b[idx[k]] == a[k])
    && (forall k, l :: 0 <= k < l < |idx| ==> idx[k] < idx[l])
  }

  function Shift(idx: seq<nat>): (r: seq<nat>)
    ensures |r| == |idx|
    ensures forall k :: 0 <= k < |r| ==> r[k] == idx[k] + 1
  {
    seq(|idx|, k requires 0 <= k < |idx| => idx[k] + 1)
  }

  /** The strictly increasing positions at which a subsequence sits inside
      the sequence it was taken from. */
  function Embedding<T(==)>(a: seq<T>, b: seq<T>): (idx: seq<nat>)
    requires IsSubseq(a, b)
    ensures Embeds(a, b, idx)
    decreases |b|
  {
    if a == [] then []
    else if a[0] == b[0] && IsSubseq(a[1..], b[1..]) then [0] + Shift(Embedding(a[1..], b[1..]))
    else Shift(Embedding(a, b[1..]))
  }

  /** Conversely, any increasing embedding witnesses a subsequence. */
  lemma {:induction false} EmbedsIsSubseq<T>(a: seq<T>, b: seq<T>, idx: seq<nat>)
    requires Embeds(a, b, idx)
    ensures IsSubseq(a, b)
    decreases |b|
  {
    if a != [] {
      assert forall k :: 0 < k < |idx| ==> idx[0] < idx[k];
      var tail := seq(|idx| - 1, k requires 0 <= k < |idx| - 1 => idx[k + 1] - 1);
      if idx[0] == 0 {
        assert Embeds(a[1..], b[1..], tail) by {
          forall k | 0 <= k < |tail| ensures tail[k] < |b| - 1 && b[1..][tail[k]] == a[1..][k] {
            assert idx[0] < idx[k + 1];
          }
        }
        EmbedsIsSubseq(a[1..], b[1..], tail);
      } else {
        var down := seq(|idx|, k requires 0 <= k < |idx| => idx[k] - 1);
        assert Embeds(a, b[1..], down) by {
          forall k | 0 <= k < |down| ensures down[k] < |b| - 1 && b[1..][down[k]] == a[k] {
            assert k == 0 || idx[0] < idx[k];
          }
        }
        EmbedsIsSubseq(a, b[1..], down);
      }
    }
  }

  lemma {:induction false} SubseqRefl<T>(a: seq<T>)
    ensures IsSubseq(a, a)
  {
    if a != [] {
      SubseqRefl(a[1..]);
    }
  }

  /** A subsequence never holds an element more often than its source. */
  lemma {:induction false} SubseqMultiset<T>(a: seq<T>, b: seq<T>)
    requires IsSubseq(a, b)
    ensures multiset(a) <= multiset(b)
    decreases |b|
  {
    if a != [] {
      assert b == [b[0]] + b[1..];
      if a[0] == b[0] && IsSubseq(a[1..], b[1..]) {
        SubseqMultiset(a[1..], b[1..]);
        assert a == [a[0]] + a[1..];
      } else {
        SubseqMultiset(a, b[1..]);
      }
    }
  }

  lemma SubseqMember<T>(a: seq<T>, b: seq<T>, x: T)
    requires IsSubseq(a, b) && x in a
    ensures x in b
  {
    SubseqMultiset(a, b);
    assert x in multiset(a);
  }
}
