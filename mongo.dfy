/**
 * The array-update operators of the document store that the request handlers
 * apply to id lists, and the order-preserving subsequence relation used to
 * describe JavaScript's `filter` and `slice`.
 *
 * `$push` appends one element and allows duplicates; `$pull` removes every
 * element equal to its argument and keeps the others in order.
 */
module Mongo {

  /** A document id (an ObjectId); `toString()` comparison is id equality. */
  type Id = nat

  /** `$pull: { field: x }` on an array field. */
  function Pull(xs: seq<Id>, x: Id): (r: seq<Id>)
    ensures x !in r
    ensures forall y :: y in r <==> y in xs && y != x
    ensures forall y :: y != x ==> multiset(r)[y] == multiset(xs)[y]
    ensures |r| <= |xs|
    ensures x in xs ==> |r| < |xs|
  {
    if xs == [] then []
    else
      assert xs == [xs[0]] + xs[1..];
      if xs[0] == x then Pull(xs[1..], x) else [xs[0]] + Pull(xs[1..], x)
  }

  /** `$pull` distributes over concatenation: it keeps the order of what it leaves. */
  lemma {:induction false} PullAppend(xs: seq<Id>, ys: seq<Id>, x: Id)
    ensures Pull(xs + ys, x) == Pull(xs, x) + Pull(ys, x)
  {
    if xs == [] {
      assert xs + ys == ys;
    } else {
      assert (xs + ys)[1..] == xs[1..] + ys;
      PullAppend(xs[1..], ys, x);
    }
  }

  /** Pulling an element that is not there changes nothing. */
  lemma {:induction false} PullAbsent(xs: seq<Id>, x: Id)
    requires x !in xs
    ensures Pull(xs, x) == xs
  {
    if xs != [] {
      PullAbsent(xs[1..], x);
    }
  }

  /**
   * The paired update of two mirrored lists done by the like/unlike and the
   * follow/unfollow handlers. The decision is taken on `a` alone: when `x` is
   * not in `a`, `x` is pushed onto `a` and `y` onto `b`; otherwise every `x`
   * is pulled from `a` and every `y` from `b`.
   */
  function MirroredToggle(a: seq<Id>, x: Id, b: seq<Id>, y: Id): (r: (seq<Id>, seq<Id>))
    ensures x in r.0 <==> x !in a
    ensures y in r.1 <==> x !in a
    ensures forall z :: z != x ==> (z in r.0 <==> z in a)
    ensures forall w :: w != y ==> (w in r.1 <==> w in b)
    ensures x !in a ==> r.0 == a + [x] && r.1 == b + [y]
    ensures x in a ==> r == (Pull(a, x), Pull(b, y)) && |r.0| < |a|
  {
    if x !in a then (a + [x], b + [y]) else (Pull(a, x), Pull(b, y))
  }

  /** Mirrored lists stay mirrored: if `x in a` agreed with `y in b` before, it does after. */
  lemma MirroredToggleKeepsMirror(a: seq<Id>, x: Id, b: seq<Id>, y: Id)
    requires x in a <==> y in b
    ensures var r := MirroredToggle(a, x, b, y); x in r.0 <==> y in r.1
  {
  }

  /**
   * On mirrored lists, toggling twice restores membership in both lists;
   * starting from a pair in which neither element was present, it restores
   * both lists exactly.
   */
  lemma {:induction false} MirroredToggleTwice(a: seq<Id>, x: Id, b: seq<Id>, y: Id)
    requires x in a <==> y in b
    ensures var r := MirroredToggle(a, x, b, y);
            var s := MirroredToggle(r.0, x, r.1, y);
            (forall z :: z in s.0 <==> z in a) && (forall w :: w in s.1 <==> w in b)
    ensures x !in a ==>
            var r := MirroredToggle(a, x, b, y);
            MirroredToggle(r.0, x, r.1, y) == (a, b)
  {
    if x !in a {
      PullAppend(a, [x], x);
      PullAppend(b, [y], y);
      PullAbsent(a, x);
      PullAbsent(b, y);
      assert [x][1..] == [] && [y][1..] == [];
      assert Pull([x], x) == [] && Pull([y], y) == [];
      assert Pull(a + [x], x) == a + [];
      assert Pull(b + [y], y) == b + [];
      assert a + [] == a && b + [] == b;
    }
  }

  /** `a` is `b` with some elements left out, the rest in their order. */
  predicate IsSubsequence(a: seq<Id>, b: seq<Id>)
    decreases |b|
  {
    a == [] || (b != [] && if a[0] == b[0] then IsSubsequence(a[1..], b[1..]) else IsSubsequence(a, b[1..]))
  }

  /** A subsequence stays one when the longer sequence gains a first element. */
  lemma {:induction false} SubsequenceCons(a: seq<Id>, x: Id, b: seq<Id>)
    requires IsSubsequence(a, b)
    ensures IsSubsequence(a, [x] + b)
    decreases |b|, 1
  {
    if a != [] && a[0] == x {
      assert ([x] + b)[1..] == b;
      SubsequenceTail(a, b);
    }
  }

  /** Dropping the first element of a subsequence keeps it a subsequence. */
  lemma {:induction false} SubsequenceTail(a: seq<Id>, b: seq<Id>)
    requires a != [] && IsSubsequence(a, b)
    ensures IsSubsequence(a[1..], b)
    decreases |b|, 0
  {
    if a[0] == b[0] {
      if a[1..] != [] {
        SubsequenceCons(a[1..], b[0], b[1..]);
        assert [b[0]] + b[1..] == b;
      }
    } else {
      SubsequenceTail(a, b[1..]);
      if a[1..] != [] {
        SubsequenceCons(a[1..], b[0], b[1..]);
        assert [b[0]] + b[1..] == b;
      }
    }
  }

  /** Every prefix of a subsequence is a subsequence: `slice(0, k)` after `filter`. */
  lemma {:induction false} SubsequencePrefix(a: seq<Id>, b: seq<Id>, k: nat)
    requires IsSubsequence(a, b) && k <= |a|
    ensures IsSubsequence(a[..k], b)
    decreases |b|
  {
    if k > 0 {
      if a[0] == b[0] {
        assert a[..k][1..] == a[1..][..k - 1];
        SubsequencePrefix(a[1..], b[1..], k - 1);
      } else {
        SubsequencePrefix(a, b[1..], k);
      }
    }
  }

  /** Every element of a subsequence occurs in the longer sequence. */
  lemma {:induction false} SubsequenceMembers(a: seq<Id>, b: seq<Id>)
    requires IsSubsequence(a, b)
    ensures forall z :: z in a ==> z in b
    decreases |b|
  {
    if a != [] {
      if a[0] == b[0] {
        SubsequenceMembers(a[1..], b[1..]);
        assert a == [a[0]] + a[1..];
      } else {
        SubsequenceMembers(a, b[1..]);
      }
    }
  }
}
