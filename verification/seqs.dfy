/** Sequence helpers for traces built from nested loops: flattening the
    blocks of a loop, and projecting a trace onto the events of one kind. */
module Seqs {

  /** The concatenation of the blocks, in order. */
  function Flatten<T>(ss: seq<seq<T>>): seq<T>
  {
    if |ss| == 0 then [] else ss[0] + Flatten(ss[1..])
  }

  /** Blocks of equal length `n` give `|ss| * n` elements. */
  lemma {:induction false} FlattenLength<T>(ss: seq<seq<T>>, n: nat)
    requires forall i :: 0 <= i < |ss| ==> |ss[i]| == n
    ensures |Flatten(ss)| == |ss| * n
  {
    if |ss| > 0 {
      FlattenLength(ss[1..], n);
      assert |ss| * n == n + (|ss| - 1) * n;
    }
  }

  /** With blocks of equal length `n`, block `i`'s element `j` sits at `i * n + j`. */
  lemma {:induction false} FlattenIndex<T>(ss: seq<seq<T>>, n: nat, i: nat, j: nat)
    requires forall k :: 0 <= k < |ss| ==> |ss[k]| == n
    requires i < |ss| && j < n
    ensures i * n + j < |Flatten(ss)|
    ensures Flatten(ss)[i * n + j] == ss[i][j]
  {
    FlattenLength(ss, n);
    BlockPosition(i, j, |ss|, n);
    var rest := ss[1..];
    assert Flatten(ss) == ss[0] + Flatten(rest);
    if i > 0 {
      RestBlocks(ss, n);
      FlattenIndex(rest, n, i - 1, j);
    }
  }

  /** Element `j` of block `i` lies inside `m` blocks of `n`, one block
      further on than element `j` of block `i - 1`. */
  lemma BlockPosition(i: nat, j: nat, m: nat, n: nat)
    requires i < m && j < n
    ensures i * n + j < m * n
    ensures i > 0 ==> i * n + j == (i - 1) * n + j + n
  {
    MulMono(i + 1, m, n);
    assert (i + 1) * n == i * n + n;
    if i > 0 {
      assert i * n == (i - 1) * n + n;
    }
  }

  /** Dropping the first block keeps every block's length. */
  lemma RestBlocks<T>(ss: seq<seq<T>>, n: nat)
    requires |ss| > 0
    requires forall k :: 0 <= k < |ss| ==> |ss[k]| == n
    ensures forall k :: 0 <= k < |ss[1..]| ==> |ss[1..][k]| == n
  {
    forall k | 0 <= k < |ss[1..]| ensures |ss[1..][k]| == n {
      assert ss[1..][k] == ss[k + 1];
    }
  }

  /** Blocks of one element each flatten to the sequence of those elements. */
  lemma FlattenSingletons<T>(ss: seq<seq<T>>)
    requires forall i :: 0 <= i < |ss| ==> |ss[i]| == 1
    ensures |Flatten(ss)| == |ss|
    ensures forall i :: 0 <= i < |ss| ==> Flatten(ss)[i] == ss[i][0]
  {
    FlattenLength(ss, 1);
    forall i | 0 <= i < |ss|
      ensures Flatten(ss)[i] == ss[i][0]
    {
      FlattenIndex(ss, 1, i, 0);
    }
  }

  /** An element of the concatenation comes from one of the blocks, and every
      element of a block is in the concatenation. */
  lemma {:induction false} FlattenMember<T>(ss: seq<seq<T>>, x: T)
    ensures x in Flatten(ss) <==> exists i :: 0 <= i < |ss| && x in ss[i]
  {
    if |ss| > 0 {
      FlattenMember(ss[1..], x);
      assert Flatten(ss) == ss[0] + Flatten(ss[1..]);
      if x in Flatten(ss[1..]) {
        var i :| 0 <= i < |ss[1..]| && x in ss[1..][i];
        assert x in ss[i + 1];
      }
      if exists i :: 0 <= i < |ss| && x in ss[i] {
        var i :| 0 <= i < |ss| && x in ss[i];
        if i > 0 {
          assert x in ss[1..][i - 1];
        }
      }
    }
  }

  /** The images of the elements of `t` under `f`, concatenated. */
  function Project<E, T>(t: seq<E>, f: E -> seq<T>): seq<T>
  {
    if |t| == 0 then [] else f(t[0]) + Project(t[1..], f)
  }

  lemma {:induction false} ProjectAppend<E, T>(a: seq<E>, b: seq<E>, f: E -> seq<T>)
    ensures Project(a + b, f) == Project(a, f) + Project(b, f)
  {
    if |a| == 0 {
      assert a + b == b;
    } else {
      assert (a + b)[0] == a[0];
      assert (a + b)[1..] == a[1..] + b;
      ProjectAppend(a[1..], b, f);
    }
  }

  lemma ProjectSingle<E, T>(x: E, f: E -> seq<T>)
    ensures Project([x], f) == f(x)
  {
    assert [x][1..] == [];
    assert Project([x], f) == f(x) + Project([x][1..], f);
  }

  /** Each block projected on its own. */
  function ProjectEach<E, T>(ss: seq<seq<E>>, f: E -> seq<T>): (r: seq<seq<T>>)
    ensures |r| == |ss|
    ensures forall i :: 0 <= i < |ss| ==> r[i] == Project(ss[i], f)
  {
    if |ss| == 0 then [] else [Project(ss[0], f)] + ProjectEach(ss[1..], f)
  }

  /** Projecting the concatenation projects each block. */
  lemma {:induction false} ProjectFlatten<E, T>(ss: seq<seq<E>>, f: E -> seq<T>)
    ensures Project(Flatten(ss), f) == Flatten(ProjectEach(ss, f))
  {
    if |ss| > 0 {
      ProjectAppend(ss[0], Flatten(ss[1..]), f);
      ProjectFlatten(ss[1..], f);
      assert ProjectEach(ss, f)[1..] == ProjectEach(ss[1..], f);
    }
  }

  /** When every block projects to `n` values, the concatenation projects to
      `|ss| * n` values. */
  lemma ProjectFlattenCount<E, T>(ss: seq<seq<E>>, f: E -> seq<T>, n: nat)
    requires forall i :: 0 <= i < |ss| ==> |Project(ss[i], f)| == n
    ensures |Project(Flatten(ss), f)| == |ss| * n
  {
    ProjectFlatten(ss, f);
    FlattenLength(ProjectEach(ss, f), n);
  }

  /** Block-wise equal projections give equal projections of the
      concatenations. */
  lemma {:induction false} ProjectFlattenSame<E, T>(ss: seq<seq<E>>, tt: seq<seq<E>>, f: E -> seq<T>)
    requires |ss| == |tt|
    requires forall i :: 0 <= i < |ss| ==> Project(ss[i], f) == Project(tt[i], f)
    ensures Project(Flatten(ss), f) == Project(Flatten(tt), f)
  {
    if |ss| > 0 {
      ProjectAppend(ss[0], Flatten(ss[1..]), f);
      ProjectAppend(tt[0], Flatten(tt[1..]), f);
      ProjectFlattenSame(ss[1..], tt[1..], f);
    }
  }

  /** When every block projects to one value, the concatenation projects to
      those values in block order. */
  lemma ProjectFlattenSingles<E, T>(ss: seq<seq<E>>, f: E -> seq<T>)
    requires forall i :: 0 <= i < |ss| ==> |Project(ss[i], f)| == 1
    ensures |Project(Flatten(ss), f)| == |ss|
    ensures forall i :: 0 <= i < |ss| ==> Project(Flatten(ss), f)[i] == Project(ss[i], f)[0]
  {
    ProjectFlatten(ss, f);
    FlattenSingletons(ProjectEach(ss, f));
  }

  /** When no block projects to anything, neither does the concatenation. */
  lemma ProjectFlattenEmpty<E, T>(ss: seq<seq<E>>, f: E -> seq<T>)
    requires forall i :: 0 <= i < |ss| ==> Project(ss[i], f) == []
    ensures Project(Flatten(ss), f) == []
  {
    ProjectFlatten(ss, f);
    FlattenLength(ProjectEach(ss, f), 0);
  }

  /** With `n` values per block, value `j` of block `i` is value `i * n + j`
      of the whole. */
  lemma ProjectFlattenAt<E, T>(ss: seq<seq<E>>, f: E -> seq<T>, n: nat, i: nat, j: nat)
    requires forall k :: 0 <= k < |ss| ==> |Project(ss[k], f)| == n
    requires i < |ss| && j < n
    ensures |Project(Flatten(ss), f)| == |ss| * n
    ensures i * n + j < |ss| * n
    ensures Project(Flatten(ss), f)[i * n + j] == Project(ss[i], f)[j]
  {
    ProjectFlatten(ss, f);
    FlattenLength(ProjectEach(ss, f), n);
    FlattenIndex(ProjectEach(ss, f), n, i, j);
  }

  /** When every block projects to the same `n` values `g(0) .. g(n-1)`,
      value `k` of the whole is `g(k % n)`. */
  lemma ProjectFlattenPeriodic<E, T>(ss: seq<seq<E>>, f: E -> seq<T>, n: nat, g: int -> T)
    requires n > 0
    requires forall i :: 0 <= i < |ss| ==> |Project(ss[i], f)| == n
    requires forall i, j :: 0 <= i < |ss| && 0 <= j < n ==> Project(ss[i], f)[j] == g(j)
    ensures |Project(Flatten(ss), f)| == |ss| * n
    ensures forall k :: 0 <= k < |ss| * n ==> Project(Flatten(ss), f)[k] == g(k % n)
  {
    ProjectFlattenCount(ss, f, n);
    forall k | 0 <= k < |ss| * n
      ensures Project(Flatten(ss), f)[k] == g(k % n)
    {
      BlockOf(k, |ss|, n);
      ProjectFlattenAt(ss, f, n, k / n, k % n);
    }
  }

  /** Position `k` of `m` blocks of `n` lies in block `k / n` at `k % n`. */
  lemma BlockOf(k: int, m: nat, n: nat)
    requires n > 0 && 0 <= k < m * n
    ensures 0 <= k / n < m && 0 <= k % n < n
    ensures k == (k / n) * n + k % n
  {
    var i := k / n;
    assert k == i * n + k % n;
    MulAtLeast(i - m, n);
    assert i * n == (i - m) * n + m * n;
  }

  /** A non-negative multiple of a non-negative `n` is non-negative. */
  lemma MulAtLeast(x: int, n: int)
    ensures x >= 0 && n >= 0 ==> x * n >= 0
  {
  }

  /** A non-zero multiple of a positive `n` is at least `n` away from zero. */
  lemma MulSign(x: int, n: int)
    ensures n > 0 && x >= 1 ==> x * n >= n
    ensures n > 0 && x <= -1 ==> x * n <= -n
  {
    if n > 0 && x >= 1 {
      assert x * n == (x - 1) * n + n;
    }
    if n > 0 && x <= -1 {
      assert x * n == (x + 1) * n - n;
    }
  }

  lemma MulMono(a: nat, b: nat, n: nat)
    requires a <= b
    ensures a * n <= b * n
  {
  }

  /** When `f` keeps every element as exactly one value, the projection is
      element-wise. */
  lemma {:induction false} ProjectOneEach<E, T>(t: seq<E>, f: E -> seq<T>)
    requires forall i :: 0 <= i < |t| ==> |f(t[i])| == 1
    ensures |Project(t, f)| == |t|
    ensures forall i :: 0 <= i < |t| ==> Project(t, f)[i] == f(t[i])[0]
  {
    if |t| > 0 {
      ProjectOneEach(t[1..], f);
    }
  }

  /** When `f` drops every element, the projection is empty. */
  lemma {:induction false} ProjectNone<E, T>(t: seq<E>, f: E -> seq<T>)
    requires forall i :: 0 <= i < |t| ==> f(t[i]) == []
    ensures Project(t, f) == []
  {
    if |t| > 0 {
      ProjectNone(t[1..], f);
    }
  }
}
