/**
 * Generic sequence operations the peer relies on: concatenation of pieces,
 * splitting into fixed-size pieces, JavaScript's `filter` and the
 * first/last-match lookups, together with the laws the rest of the model uses.
 */
module Seqs {
  import opened Wrappers

  /** A prefix one longer is the shorter prefix and the next element. */
  lemma TakeSnoc<T>(s: seq<T>, k: nat)
    requires 0 < k <= |s|
    ensures s[..k - 1] + [s[k - 1]] == s[..k]
  {
  }

  /** The pieces of `ss` joined end to end, in order. */
  function Flatten<T>(ss: seq<seq<T>>): seq<T>
  {
    if ss == [] then [] else Flatten(ss[..|ss| - 1]) + ss[|ss| - 1]
  }

  lemma {:induction false} FlattenAppend<T>(a: seq<seq<T>>, b: seq<seq<T>>)
    ensures Flatten(a + b) == Flatten(a) + Flatten(b)
    decreases |b|
  {
    if b == [] {
      assert a + b == a;
    } else {
      var b' := b[..|b| - 1];
      assert (a + b)[..|a + b| - 1] == a + b';
      assert (a + b)[|a + b| - 1] == b[|b| - 1];
      FlattenAppend(a, b');
      assert Flatten(b) == Flatten(b') + b[|b| - 1];
    }
  }

  lemma FlattenSingle<T>(x: seq<T>)
    ensures Flatten([x]) == x
  {
    assert [x][..0] == [];
  }

  /**
   * `s` cut into pieces of length `n`, the last piece holding the remainder;
   * the empty sequence gives no pieces at all.
   */
  function Split<T>(s: seq<T>, n: nat): (r: seq<seq<T>>)
    requires n > 0
    ensures forall i :: 0 <= i < |r| ==> 0 < |r[i]| <= n
    ensures forall i :: 0 <= i < |r| - 1 ==> |r[i]| == n
    decreases |s|
  {
    if |s| == 0 then []
    else if |s| <= n then [s]
    else [s[..n]] + Split(s[n..], n)
  }

  /** A split has ceil(|s| / n) pieces. */
  lemma {:induction false} SplitLength<T>(s: seq<T>, n: nat)
    requires n > 0
    ensures |Split(s, n)| == (|s| + n - 1) / n
    decreases |s|
  {
    if |s| == 0 {
    } else if |s| <= n {
      DivOne(|s| + n - 1, n);
    } else {
      SplitLength(s[n..], n);
      DivStep(|s| - 1, n);
    }
  }

  lemma DivOne(x: int, n: int)
    requires 0 < n <= x < 2 * n
    ensures x / n == 1
  {
  }

  lemma DivStep(x: int, n: int)
    requires n > 0
    ensures (x + n) / n == x / n + 1
  {
    DivUnique(x + n, n, x / n + 1, x % n);
  }

  /** Euclidean division is determined by quotient and remainder. */
  lemma DivUnique(a: int, n: int, q: int, r: int)
    requires n > 0 && 0 <= r < n && a == n * q + r
    ensures a / n == q
  {
    var q0, r0 := a / n, a % n;
    assert n * q0 + r0 == n * q + r;
    var d := q - q0;
    assert n * d == r0 - r by {
      assert n * q - n * q0 == n * (q - q0);
    }
  }

  /** Joining the pieces of a split gives back the original sequence. */
  lemma {:induction false} SplitFlatten<T>(s: seq<T>, n: nat)
    requires n > 0
    ensures Flatten(Split(s, n)) == s
    decreases |s|
  {
    if |s| == 0 {
    } else if |s| <= n {
      FlattenSingle(s);
    } else {
      SplitFlatten(s[n..], n);
      FlattenAppend([s[..n]], Split(s[n..], n));
      FlattenSingle(s[..n]);
      assert s == s[..n] + s[n..];
    }
  }

  /** Piece `i` of a split is the slice `[n*i, n*(i+1))`, the last one running to the end. */
  lemma SplitAt<T>(s: seq<T>, n: nat, i: nat)
    requires n > 0 && i < |Split(s, n)|
    ensures n * i < |s|
    ensures i < |Split(s, n)| - 1 ==> n * i + n <= |s| && Split(s, n)[i] == s[n * i .. n * i + n]
    ensures i == |Split(s, n)| - 1 ==> Split(s, n)[i] == s[n * i ..]
  {
    SplitSuffix(s, n, i);
    MulIsProduct(n, i);
    var r, u := Split(s, n), s[n * i ..];
    assert r[i] == Split(u, n)[0] && |r| - i == |Split(u, n)| by {
      assert r[i..][0] == r[i];
    }
    if |u| > n {
      assert u[..n] == s[n * i .. n * i + n];
    }
  }

  /** `n * i` as repeated addition, which keeps the slicing proofs linear. */
  function Mul(n: nat, i: nat): nat
  {
    if i == 0 then 0 else Mul(n, i - 1) + n
  }

  lemma {:induction false} MulIsProduct(n: nat, i: nat)
    ensures Mul(n, i) == n * i
  {
    if i > 0 {
      MulIsProduct(n, i - 1);
    }
  }

  /** The pieces from `i` on are the split of what follows the first `i` pieces. */
  lemma {:induction false} SplitSuffix<T>(s: seq<T>, n: nat, i: nat)
    requires n > 0 && i < |Split(s, n)|
    ensures Mul(n, i) < |s| && Split(s, n)[i..] == Split(s[Mul(n, i)..], n)
    decreases i
  {
    if i > 0 {
      var t := s[n..];
      assert Split(s, n) == [s[..n]] + Split(t, n);
      SplitSuffix(t, n, i - 1);
      var j := Mul(n, i - 1);
      assert t[j..] == s[j + n..];
      assert Split(s, n)[i..] == Split(t, n)[i - 1..];
    }
  }

  /** Splitting distributes over a concatenation whose left part is a whole number of pieces. */
  lemma SplitAppend<T>(p: seq<T>, q: seq<T>, n: nat, k: nat)
    requires n > 0 && |p| == n * k
    ensures Split(p + q, n) == Split(p, n) + Split(q, n)
  {
    MulIsProduct(n, k);
    SplitAppendPieces(p, q, n, k);
  }

  lemma {:induction false} SplitAppendPieces<T>(p: seq<T>, q: seq<T>, n: nat, k: nat)
    requires n > 0 && |p| == Mul(n, k)
    ensures Split(p + q, n) == Split(p, n) + Split(q, n)
    decreases k
  {
    if k == 0 {
      assert p + q == q;
    } else if k == 1 {
      if q == [] {
        assert p + q == p;
      } else {
        assert (p + q)[..n] == p && (p + q)[n..] == q;
      }
    } else {
      var p' := p[n..];
      assert (p + q)[..n] == p[..n];
      assert (p + q)[n..] == p' + q;
      SplitAppendPieces(p', q, n, k - 1);
    }
  }

  /** A sequence no longer than one piece and not empty is split into itself. */
  lemma SplitShort<T>(c: seq<T>, n: nat)
    requires 0 < |c| <= n
    ensures Split(c, n) == [c]
  {
  }

  /** JavaScript's `Array.prototype.filter`: the elements satisfying `p`, in their order. */
  function Filter<T(==,!new)>(s: seq<T>, p: T -> bool): (r: seq<T>)
    ensures |r| <= |s|
    ensures forall x :: x in r <==> x in s && p(x)
  {
    if s == [] then []
    else
      assert s == [s[0]] + s[1..];
      (if p(s[0]) then [s[0]] else []) + Filter(s[1..], p)
  }

  /** `filter` with a predicate every element passes returns its input. */
  lemma {:induction false} FilterAll<T(!new)>(s: seq<T>, p: T -> bool)
    requires forall i :: 0 <= i < |s| ==> p(s[i])
    ensures Filter(s, p) == s
    decreases |s|
  {
    if s != [] {
      forall i | 0 <= i < |s[1..]| ensures p(s[1..][i]) {
        assert s[1..][i] == s[i + 1];
      }
      FilterAll(s[1..], p);
      assert s == [s[0]] + s[1..];
      FilterCons(s[0], s[1..], p);
    }
  }

  /** `filter` with a predicate no element passes returns the empty sequence. */
  lemma {:induction false} FilterNone<T(!new)>(s: seq<T>, p: T -> bool)
    requires forall i :: 0 <= i < |s| ==> !p(s[i])
    ensures Filter(s, p) == []
    decreases |s|
  {
    if s != [] {
      FilterNone(s[1..], p);
    }
  }

  /** `filter` keeps every occurrence of a passing element and none of a failing one. */
  lemma {:induction false} FilterMultiplicity<T(!new)>(s: seq<T>, p: T -> bool, x: T)
    ensures multiset(Filter(s, p))[x] == if p(x) then multiset(s)[x] else 0
    decreases |s|
  {
    if s != [] {
      FilterMultiplicity(s[1..], p, x);
      assert s == [s[0]] + s[1..];
      assert Filter(s, p) == (if p(s[0]) then [s[0]] else []) + Filter(s[1..], p);
    }
  }

  /** `r` is `s` with some elements left out, the rest in their original order. */
  predicate IsSubsequence<T(==,!new)>(r: seq<T>, s: seq<T>)
    decreases |s|
  {
    r == [] || (s != [] && ((r[0] == s[0] && IsSubsequence(r[1..], s[1..])) || IsSubsequence(r, s[1..])))
  }

  lemma {:induction false} FilterKeepsOrder<T(!new)>(s: seq<T>, p: T -> bool)
    ensures IsSubsequence(Filter(s, p), s)
    decreases |s|
  {
    if s != [] {
      FilterKeepsOrder(s[1..], p);
      var r := Filter(s, p);
      if p(s[0]) {
        assert r[0] == s[0] && r[1..] == Filter(s[1..], p);
      } else {
        assert r == Filter(s[1..], p);
      }
    }
  }

  lemma {:induction false} FilterAppend<T(!new)>(a: seq<T>, b: seq<T>, p: T -> bool)
    ensures Filter(a + b, p) == Filter(a, p) + Filter(b, p)
    decreases |a|
  {
    if a == [] {
      assert a + b == b;
    } else {
      var x, a' := a[0], a[1..];
      var h := if p(x) then [x] else [];
      assert a == [x] + a';
      assert a + b == [x] + (a' + b);
      calc {
        Filter(a + b, p);
        == { FilterCons(x, a' + b, p); }
        h + Filter(a' + b, p);
        == { FilterAppend(a', b, p); }
        h + (Filter(a', p) + Filter(b, p));
        ==
        (h + Filter(a', p)) + Filter(b, p);
        == { FilterCons(x, a', p); }
        Filter(a, p) + Filter(b, p);
      }
    }
  }

  /** `filter` on a sequence with a first element. */
  lemma FilterCons<T(!new)>(x: T, s: seq<T>, p: T -> bool)
    ensures Filter([x] + s, p) == (if p(x) then [x] else []) + Filter(s, p)
  {
    assert ([x] + s)[1..] == s;
  }


  /** The index of the first element satisfying `p` (destructuring `[x] = s.filter(p)`). */
  function FindFirst<T>(s: seq<T>, p: T -> bool): (r: Option<nat>)
    ensures r.None? <==> forall i :: 0 <= i < |s| ==> !p(s[i])
    ensures r.Some? ==> r.value < |s| && p(s[r.value]) && forall i :: 0 <= i < r.value ==> !p(s[i])
  {
    if s == [] then None
    else if p(s[0]) then Some(0)
    else match FindFirst(s[1..], p)
      case None => None
      case Some(i) => Some(i + 1)
  }

  /** The index of the last element satisfying `p`. */
  function FindLast<T>(s: seq<T>, p: T -> bool): (r: Option<nat>)
    ensures r.None? <==> forall i :: 0 <= i < |s| ==> !p(s[i])
    ensures r.Some? ==> r.value < |s| && p(s[r.value]) && forall i :: r.value < i < |s| ==> !p(s[i])
  {
    if s == [] then None
    else if p(s[|s| - 1]) then Some(|s| - 1)
    else FindLast(s[..|s| - 1], p)
  }
}
