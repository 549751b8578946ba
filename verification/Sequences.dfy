/**
  Lists that are written down one element after the other, and slices of sequences.
 */
module Sequences {

  ghost predicate CanEncode<T, B>(xs: seq<T>, enc: T --> seq<B>) {
    forall x :: x in xs ==> enc.requires(x)
  }

  /** What the elements are written as, one after the other. */
  function Join<T, B>(xs: seq<T>, enc: T --> seq<B>): seq<B>
    requires CanEncode(xs, enc)
  {
    if xs == [] then [] else enc(xs[0]) + Join(xs[1..], enc)
  }

  lemma {:induction false} JoinAppend<T, B>(a: seq<T>, b: seq<T>, enc: T --> seq<B>)
    requires CanEncode(a, enc) && CanEncode(b, enc)
    ensures CanEncode(a + b, enc) && Join(a + b, enc) == Join(a, enc) + Join(b, enc)
  {
    if a == [] {
      assert a + b == b;
    } else {
      assert (a + b)[1..] == a[1..] + b;
      JoinAppend(a[1..], b, enc);
    }
  }

  lemma JoinOne<T, B>(x: T, enc: T --> seq<B>)
    requires enc.requires(x)
    ensures CanEncode([x], enc) && Join([x], enc) == enc(x)
  {
    assert Join([x], enc) == enc(x) + Join([x][1..], enc);
  }

  lemma JoinSnoc<T, B>(xs: seq<T>, x: T, enc: T --> seq<B>)
    requires CanEncode(xs, enc) && enc.requires(x)
    ensures CanEncode(xs + [x], enc) && Join(xs + [x], enc) == Join(xs, enc) + enc(x)
  {
    hide Join;
    JoinOne(x, enc);
    JoinAppend(xs, [x], enc);
  }

  /** Around element `k`. */
  lemma JoinSplit<T, B>(xs: seq<T>, k: nat, enc: T --> seq<B>)
    requires CanEncode(xs, enc) && k < |xs|
    ensures CanEncode(xs[..k], enc) && CanEncode(xs[..k + 1], enc) && CanEncode(xs[k + 1..], enc)
    ensures enc.requires(xs[k])
    ensures Join(xs, enc) == Join(xs[..k], enc) + (enc(xs[k]) + Join(xs[k + 1..], enc))
    ensures Join(xs[..k + 1], enc) == Join(xs[..k], enc) + enc(xs[k])
  {
    assert xs[k..][1..] == xs[k + 1..] && xs == xs[..k] + xs[k..] && xs[..k + 1] == xs[..k] + [xs[k]];
    assert xs[k] in xs;
    JoinAppend(xs[..k], xs[k..], enc);
    JoinSnoc(xs[..k], xs[k], enc);
  }

  /** The position of the first element that satisfies `p`, or the length of the list. */
  function First<T>(xs: seq<T>, p: T -> bool): (k: nat)
    ensures k <= |xs| && (k < |xs| ==> p(xs[k])) && forall j :: 0 <= j < k ==> !p(xs[j])
  {
    if xs == [] || p(xs[0]) then 0 else 1 + First(xs[1..], p)
  }

  /** A slice of a slice. */
  lemma SliceSlice<T>(b: seq<T>, i: nat, j: nat, p: nat, q: nat)
    requires i <= j <= |b| && p <= q <= j - i
    ensures b[i..j][p..q] == b[i + p..i + q]
  {
    var c := b[i..j];
    assert forall k :: p <= k < q ==> c[k] == b[i + k];
  }

  lemma UpdateIs<T>(xs: seq<T>, k: nat, x: T)
    requires k < |xs|
    ensures xs[k := x] == xs[..k] + ([x] + xs[k + 1..])
  {
  }

  lemma Assoc<T>(a: seq<T>, b: seq<T>, c: seq<T>)
    ensures (a + b) + c == a + (b + c)
  {
  }

  lemma SliceJoin<T>(b: seq<T>, i: nat, j: nat, k: nat)
    requires i <= j <= k <= |b|
    ensures b[i..k] == b[i..j] + b[j..k]
  {
  }
}
