/** Generic facts about sequences that the scans over headers rely on. */
module Seqs {

  /** After a common prefix, equal sequences have equal rests. */
  lemma PrefixCancel<T>(head: seq<T>, x: seq<T>, y: seq<T>)
    ensures head + x == head + y ==> x == y
  {
    if head + x == head + y {
      assert x == (head + x)[|head|..];
      assert y == (head + y)[|head|..];
    }
  }

  /** Between a common prefix and a common suffix, equal sequences have equal middles. */
  lemma MiddleDetermined<T>(head: seq<T>, x: seq<T>, y: seq<T>, tail: seq<T>)
    ensures head + x + tail == head + y + tail ==> x == y
  {
    if head + x + tail == head + y + tail {
      var t := head + x + tail;
      assert |x| == |y|;
      assert x == t[|head|..|head| + |x|];
      assert y == (head + y + tail)[|head|..|head| + |y|];
    }
  }

  /** The concatenation of f's result on each element, in order. */
  function FlatMap<T, U>(f: T -> seq<U>, xs: seq<T>): seq<U> {
    if xs == [] then [] else f(xs[0]) + FlatMap(f, xs[1..])
  }

  lemma {:induction false} FlatMapAppend<T, U>(f: T -> seq<U>, a: seq<T>, b: seq<T>)
    ensures FlatMap(f, a + b) == FlatMap(f, a) + FlatMap(f, b)
  {
    if a == [] {
      assert a + b == b;
    } else {
      assert (a + b)[0] == a[0];
      assert (a + b)[1..] == a[1..] + b;
      FlatMapAppend(f, a[1..], b);
    }
  }

  lemma FlatMapSnoc<T, U>(f: T -> seq<U>, xs: seq<T>, x: T)
    ensures FlatMap(f, xs + [x]) == FlatMap(f, xs) + f(x)
  {
    FlatMapAppend(f, xs, [x]);
    assert [x][1..] == [];
  }

  lemma FlatMapAround<T, U>(f: T -> seq<U>, xs: seq<T>, i: nat)
    requires i < |xs|
    ensures FlatMap(f, xs) == FlatMap(f, xs[..i]) + f(xs[i]) + FlatMap(f, xs[i + 1..])
  {
    hide FlatMap;
    PrefixSnoc(xs, i);
    assert xs[..i + 1] + xs[i + 1..] == xs;
    FlatMapAppend(f, xs[..i + 1], xs[i + 1..]);
    FlatMapSnoc(f, xs[..i], xs[i]);
  }

  lemma {:induction false} FlatMapMembers<T, U>(f: T -> seq<U>, xs: seq<T>, y: U)
    ensures y in FlatMap(f, xs) <==> exists i :: 0 <= i < |xs| && y in f(xs[i])
  {
    if xs != [] {
      FlatMapMembers(f, xs[1..], y);
      assert forall i :: 1 <= i < |xs| ==> xs[i] == xs[1..][i - 1];
    }
  }

  /** A sequence is its prefix, its k-th element and its suffix. */
  lemma Around<T>(s: seq<T>, k: nat)
    requires k < |s|
    ensures s == s[..k] + ([s[k]] + s[k + 1..])
  {
  }

  lemma PrefixSnoc<T>(s: seq<T>, k: nat)
    requires k < |s|
    ensures s[..k + 1] == s[..k] + [s[k]]
  {
  }

  /** A non-empty sequence is its prefix followed by its last element. */
  lemma DropLast<T>(s: seq<T>)
    requires s != []
    ensures s[..|s| - 1] + [s[|s| - 1]] == s
  {
  }

  lemma TakeAll<T>(s: seq<T>)
    ensures s[..|s|] == s
  {
  }

  lemma AppendDrop<T>(a: seq<T>, b: seq<T>)
    ensures (a + b)[|a|..] == b && (a + b)[..|a|] == a
  {
  }

  lemma AppendAssoc<T>(a: seq<T>, b: seq<T>, x: T)
    ensures a + (b + [x]) == (a + b) + [x]
  {
  }
}
