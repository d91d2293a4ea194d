/** Order kept: what is left of a sequence when some of its elements are taken out. */
module Subsequences {
  /** `a` is what is left of `b` after taking out some elements. */
  ghost predicate Subsequence<A(!new)>(a: seq<A>, b: seq<A>) {
    if b == [] then a == []
    else Subsequence(a, b[..|b| - 1]) || (a != [] && a[|a| - 1] == b[|b| - 1] && Subsequence(a[..|a| - 1], b[..|b| - 1]))
  }

  lemma {:induction false} SubsequenceExtend<A(!new)>(a: seq<A>, b: seq<A>, c: seq<A>)
    requires Subsequence(a, b)
    ensures Subsequence(a, b + c)
  {
    if c == [] {
      assert b + c == b;
    } else {
      SubsequenceExtend(a, b, c[..|c| - 1]);
      assert (b + c)[..|b + c| - 1] == b + c[..|c| - 1];
    }
  }

  lemma SubsequenceLast<A(!new)>(a: seq<A>, b: seq<A>, x: A)
    requires Subsequence(a, b)
    ensures Subsequence(a, b + [x]) && Subsequence(a + [x], b + [x])
  {
    assert (a + [x])[..|a|] == a && (b + [x])[..|b|] == b;
  }

  lemma {:induction false} SubsequenceTrans<A(!new)>(a: seq<A>, b: seq<A>, c: seq<A>)
    requires Subsequence(a, b) && Subsequence(b, c)
    ensures Subsequence(a, c)
    decreases |b| + |c|
  {
    if c == [] || b == [] {
    } else {
      var c', b' := c[..|c| - 1], b[..|b| - 1];
      if Subsequence(b, c') {
        SubsequenceTrans(a, b, c');
      } else if Subsequence(a, b') {
        SubsequenceTrans(a, b', c');
      } else {
        SubsequenceTrans(a[..|a| - 1], b', c');
      }
    }
  }

  lemma {:induction false} SubsequenceMember<A(!new)>(a: seq<A>, b: seq<A>, i: nat)
    requires Subsequence(a, b) && i < |a|
    ensures a[i] in b
  {
    if b == [] {
    } else {
      var b' := b[..|b| - 1];
      if Subsequence(a, b') {
        SubsequenceMember(a, b', i);
      } else if i < |a| - 1 {
        SubsequenceMember(a[..|a| - 1], b', i);
      }
    }
  }

  lemma {:induction false} SubsequenceSelf<A(!new)>(a: seq<A>)
    ensures Subsequence(a, a)
  {
    if a == [] {
    } else {
      SubsequenceSelf(a[..|a| - 1]);
    }
  }

  lemma {:induction false} SubsequenceNone<A(!new)>(b: seq<A>)
    ensures Subsequence([], b)
  {
    if b == [] {
    } else {
      SubsequenceNone(b[..|b| - 1]);
    }
  }

  lemma {:induction false} SubsequenceJoin<A(!new)>(a: seq<A>, b: seq<A>, c: seq<A>, d: seq<A>)
    requires Subsequence(a, b) && Subsequence(c, d)
    ensures Subsequence(a + c, b + d)
  {
    if d == [] {
      assert a + c == a && b + d == b;
    } else {
      var d' := d[..|d| - 1];
      assert (b + d)[..|b + d| - 1] == b + d';
      if Subsequence(c, d') {
        SubsequenceJoin(a, b, c, d');
      } else {
        SubsequenceJoin(a, b, c[..|c| - 1], d');
        assert (a + c)[..|a + c| - 1] == a + c[..|c| - 1];
      }
    }
  }

  lemma SubsequenceFront<A(!new)>(b: seq<A>, n: nat)
    requires n <= |b|
    ensures Subsequence(b[..n], b)
  {
    SubsequenceSelf(b[..n]);
    SubsequenceExtend(b[..n], b[..n], b[n..]);
    assert b[..n] + b[n..] == b;
  }
}
