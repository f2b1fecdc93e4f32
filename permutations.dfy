/** `Collections.shuffle` as a permutation the caller supplies, and `List.indexOf`. */
module Permutations {

  /** `p` puts every position below `n` somewhere, each exactly once: after a shuffle
      the element at position `i` is the one that was at position `p[i]`. */
  predicate IsPermutation(p: seq<int>, n: nat)
  {
    && |p| == n
    && (forall i | 0 <= i < n :: 0 <= p[i] < n)
    && (forall i, j | 0 <= i < j < n :: p[i] != p[j])
  }

  predicate Distinct<T(==)>(s: seq<T>)
  {
    forall i, j | 0 <= i < j < |s| :: s[i] != s[j]
  }

  /** The positions below `n`. */
  ghost function Below(n: nat): set<int>
  {
    if n == 0 then {} else Below(n - 1) + {n - 1}
  }

  /** The values the first `m` entries of `p` take. */
  ghost function Image(p: seq<int>, m: nat): set<int>
    requires m <= |p|
  {
    set i | 0 <= i < m :: p[i]
  }

  lemma {:induction false} BelowCard(n: nat)
    ensures |Below(n)| == n
    ensures forall k :: k in Below(n) <==> 0 <= k < n
  {
    if n > 0 {
      BelowCard(n - 1);
    }
  }

  /** Distinct entries take as many values as there are entries. */
  lemma {:induction false} ImageCard(p: seq<int>, m: nat)
    requires m <= |p|
    requires forall i, j | 0 <= i < j < m :: p[i] != p[j]
    ensures |Image(p, m)| == m
  {
    if m > 0 {
      ImageCard(p, m - 1);
      assert Image(p, m) == Image(p, m - 1) + {p[m - 1]};
      assert p[m - 1] !in Image(p, m - 1);
    }
  }

  /** Pigeonhole: `n` distinct positions below `n` leave none out. */
  lemma PermutationCovers(p: seq<int>, n: nat)
    requires IsPermutation(p, n)
    ensures forall k | 0 <= k < n :: k in p
  {
    ImageCard(p, n);
    BelowCard(n);
    var taken, all := Image(p, n), Below(n);
    assert taken <= all;
    assert all == taken + (all - taken);
    assert all - taken == {};
    forall k | 0 <= k < n ensures k in p {
      assert k in all;
      assert k in taken;
    }
  }

  /** The list after a shuffle: the same elements, in the order `p` gives. */
  function Permute<T>(s: seq<T>, p: seq<int>): (r: seq<T>)
    requires IsPermutation(p, |s|)
    ensures |r| == |s|
    ensures forall i | 0 <= i < |r| :: r[i] in s
    ensures forall k | 0 <= k < |s| :: s[k] in r
    ensures Distinct(s) ==> Distinct(r)
  {
    PermutationCovers(p, |s|);
    var r := seq(|s|, i requires 0 <= i < |s| => s[p[i]]);
    assert forall k | 0 <= k < |s| :: s[k] in r by {
      forall k | 0 <= k < |s| ensures s[k] in r {
        assert k in p;
        var i :| 0 <= i < |s| && p[i] == k;
        assert r[i] == s[k];
      }
    }
    r
  }

  /** The permutation of the first n - 1 positions left once entry `p[n-1]` is taken out
      and the positions above it close up. */
  function Shrink(p: seq<int>): seq<int>
    requires |p| > 0
  {
    seq(|p| - 1, i requires 0 <= i < |p| - 1 => if p[i] > p[|p| - 1] then p[i] - 1 else p[i])
  }

  lemma ShrinkIsPermutation(p: seq<int>, n: nat)
    requires n > 0 && IsPermutation(p, n)
    ensures IsPermutation(Shrink(p), n - 1)
  {
    var j, q := p[n - 1], Shrink(p);
    forall a | 0 <= a < n - 1 ensures 0 <= q[a] < n - 1 {
      assert p[a] != j;
    }
    forall a, b | 0 <= a < b < n - 1 ensures q[a] != q[b] {
      assert p[a] != p[b] && p[a] != j && p[b] != j;
    }
  }

  /** Shuffling a list is shuffling it without the element `p` puts last, then appending
      that element. */
  lemma PermuteShrinks<T>(s: seq<T>, p: seq<int>)
    requires |s| > 0 && IsPermutation(p, |s|)
    ensures IsPermutation(Shrink(p), |s| - 1)
    ensures Permute(s, p)
            == Permute(s[..p[|s| - 1]] + s[p[|s| - 1] + 1..], Shrink(p)) + [s[p[|s| - 1]]]
  {
    var n, j := |s|, p[|s| - 1];
    var rest, q := s[..j] + s[j + 1..], Shrink(p);
    ShrinkIsPermutation(p, n);
    var lhs, rhs := Permute(s, p), Permute(rest, q) + [s[j]];
    forall i | 0 <= i < n ensures lhs[i] == rhs[i] {
      if i < n - 1 {
        assert p[i] != j;
      }
    }
  }

  /** A shuffle is a permutation of the list: every element occurs as often after it as
      before. */
  lemma {:induction false} PermuteKeepsMultiset<T>(s: seq<T>, p: seq<int>)
    requires IsPermutation(p, |s|)
    ensures multiset(Permute(s, p)) == multiset(s)
    decreases |s|
  {
    if |s| > 0 {
      var j := p[|s| - 1];
      var rest := s[..j] + s[j + 1..];
      PermuteShrinks(s, p);
      PermuteKeepsMultiset(rest, Shrink(p));
      RemoveOne(s, j);
    }
  }

  /** Taking the element at `j` out of a list takes one occurrence of it out of the
      multiset. */
  lemma RemoveOne<T>(s: seq<T>, j: int)
    requires 0 <= j < |s|
    ensures multiset(s) == multiset(s[..j] + s[j + 1..]) + multiset{s[j]}
  {
    assert s == s[..j] + [s[j]] + s[j + 1..];
  }

  /** `List.indexOf`: the first position holding `x`, or -1. */
  function IndexOf<T(==)>(s: seq<T>, x: T): (r: int)
    ensures -1 <= r < |s|
    ensures r == -1 <==> x !in s
    ensures 0 <= r ==> s[r] == x && x !in s[..r]
  {
    if |s| == 0 then -1
    else if s[0] == x then 0
    else
      var k := IndexOf(s[1..], x);
      if k == -1 then -1
      else
        assert s[..k + 1] == [s[0]] + s[1..][..k];
        k + 1
  }

  /** The first position holding `x` is the only position `j` that holds it with no
      earlier occurrence. */
  lemma IndexOfIsFirst<T>(s: seq<T>, x: T, j: int)
    requires 0 <= j < |s| && s[j] == x && x !in s[..j]
    ensures IndexOf(s, x) == j
  {
    assert x in s;
  }

  /** The inverse of a shuffle: where position `i` went. */
  function Inverse(p: seq<int>): seq<int>
  {
    seq(|p|, i requires 0 <= i < |p| => IndexOf(p, i))
  }

  /** The inverse of a permutation is a permutation, and undoes it. */
  lemma {:induction false} InverseIsPermutation(p: seq<int>, n: nat)
    requires IsPermutation(p, n)
    ensures IsPermutation(Inverse(p), n)
    ensures forall i | 0 <= i < n :: p[Inverse(p)[i]] == i
  {
    PermutationCovers(p, n);
    var q := Inverse(p);
    forall i | 0 <= i < n ensures 0 <= q[i] < n && p[q[i]] == i {
      assert i in p;
    }
    forall i, j | 0 <= i < j < n ensures q[i] != q[j] {
      assert p[q[i]] == i && p[q[j]] == j;
    }
  }

  /** Looking a distinct element up in a shuffled copy of its list (`List.indexOf` on
      the copy) finds it where the shuffle put its position. */
  lemma IndexOfPermuted<T>(s: seq<T>, p: seq<int>, i: int)
    requires Distinct(s) && IsPermutation(p, |s|) && 0 <= i < |s|
    ensures IndexOf(Permute(s, p), s[i]) == Inverse(p)[i]
  {
    InverseIsPermutation(p, |s|);
    var t := Permute(s, p);
    var j := Inverse(p)[i];
    assert t[j] == s[i];
    forall m | 0 <= m < j ensures t[..j][m] != s[i] {
      assert p[m] != i;
    }
    IndexOfIsFirst(t, s[i], j);
  }
}
