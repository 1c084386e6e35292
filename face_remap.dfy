/**
 * Face-index remapping of VisualizeReconstructionResult.
 *
 * A caller selects faces of the original quad mesh by index. The renderer,
 * however, draws the mesh after it has been triangulated (every quad i becomes
 * the triangles 2i and 2i+1) and subdivided some number of times (every face f
 * becomes the four faces 4f .. 4f+3). This module states that convention as
 * pure functions and proves what the remapped index list looks like.
 *
 * Both rewriting steps are instances of one operation, `Expand(s, m)`, which
 * replaces every index f of `s`, in order, by the block m*f, m*f+1, ..., m*f+m-1.
 */
module FaceRemap {

  /** 4^n: the number of faces one face becomes after n subdivision passes. */
  function Pow4(n: nat): (p: nat)
    ensures p >= 1
  {
    if n == 0 then 1 else 4 * Pow4(n - 1)
  }

  /** The m child indices of face f, in increasing order. */
  function Block(f: int, m: nat): seq<int>
  {
    seq(m, r => m * f + r)
  }

  /** Every index of `s`, in order, replaced by its block of m children. */
  function Expand(s: seq<int>, m: nat): seq<int>
  {
    if s == [] then [] else Block(s[0], m) + Expand(s[1..], m)
  }

  /** Triangulation: quad i becomes triangles 2i and 2i+1. */
  function Tri(q: seq<int>): seq<int>
  {
    Expand(q, 2)
  }

  /** One subdivision pass: face f becomes faces 4f, 4f+1, 4f+2 and 4f+3. */
  function Sub(h: seq<int>): seq<int>
  {
    Expand(h, 4)
  }

  /** `passes` subdivision passes, each applied to the output of the previous one. */
  function Subs(h: seq<int>, passes: nat): seq<int>
  {
    if passes == 0 then h else Sub(Subs(h, passes - 1))
  }

  /** Quad indices moved into the index space of the triangulated mesh subdivided `levels` times. */
  function Remap(q: seq<int>, levels: nat): seq<int>
  {
    Subs(Tri(q), levels)
  }

  /** The number of subdivision passes the visualiser applies. */
  function Passes(noSubdivision: bool): nat
  {
    if noSubdivision then 0 else 1
  }

  /** Number of final faces that one original quad becomes after `levels` passes. */
  function RunLength(levels: nat): nat
  {
    2 * Pow4(levels)
  }

  predicate Distinct(s: seq<int>)
  {
    forall i, j :: 0 <= i < j < |s| ==> s[i] != s[j]
  }

  predicate StrictlyIncreasing(s: seq<int>)
  {
    forall i, j :: 0 <= i < j < |s| ==> s[i] < s[j]
  }

  const Int32Min: int := -0x8000_0000
  const Int32Max: int := 0x7fff_ffff

  predicate InInt32(x: int)
  {
    Int32Min <= x <= Int32Max
  }

  /**
   * Every index the remapping computes for the quads of `q` fits in a C++ `int`:
   * the final run of each quad, 2*q[k]*4^L .. (2*q[k]+2)*4^L - 1, lies in
   * 32-bit range (the intermediate values then do too, see RemapInInt32).
   */
  predicate NoOverflow(q: seq<int>, levels: nat)
  {
    forall k :: 0 <= k < |q| ==>
      InInt32(RunLength(levels) * q[k]) && InInt32(RunLength(levels) * q[k] + RunLength(levels) - 1)
  }

  // ---------------------------------------------------------------------------
  // Expand: the one operation behind both steps

  lemma {:induction false} ExpandLength(s: seq<int>, m: nat)
    ensures |Expand(s, m)| == m * |s|
  {
    if s != [] {
      ExpandLength(s[1..], m);
      calc {
        |Expand(s, m)|;
        m + m * (|s| - 1);
        m * |s|;
      }
    }
  }

  /** Child r of the k-th input index sits at position k*m + r and is m*s[k] + r. */
  lemma {:induction false} ExpandAt(s: seq<int>, m: nat, k: nat, r: nat)
    requires k < |s| && r < m
    ensures k * m + r < |Expand(s, m)|
    ensures Expand(s, m)[k * m + r] == m * s[k] + r
  {
    var b, rest := Block(s[0], m), Expand(s[1..], m);
    assert Expand(s, m) == b + rest;
    if k == 0 {
      assert b[r] == m * s[0] + r;
    } else {
      ExpandAt(s[1..], m, k - 1, r);
      var i := (k - 1) * m + r;
      MulSucc(k, m);
      assert k * m + r == m + i;
      assert (b + rest)[m + i] == rest[i];
    }
  }

  /** Expanding a concatenation expands each part: earlier inputs come entirely first. */
  lemma {:induction false} ExpandAppend(a: seq<int>, b: seq<int>, m: nat)
    ensures Expand(a + b, m) == Expand(a, m) + Expand(b, m)
  {
    if a != [] {
      assert (a + b)[0] == a[0];
      assert (a + b)[1..] == a[1..] + b;
      ExpandAppend(a[1..], b, m);
    } else {
      assert a + b == b;
    }
  }

  lemma {:induction false} ExpandOne(s: seq<int>)
    ensures Expand(s, 1) == s
  {
    if s != [] {
      ExpandOne(s[1..]);
      assert Block(s[0], 1) == [s[0]];
    }
  }

  /** Position j < m*n splits into block k < n and offset r < m. */
  lemma {:induction false} Split(j: nat, n: nat, m: nat) returns (k: nat, r: nat)
    requires j < m * n
    ensures k < n && r < m && j == k * m + r
    decreases n
  {
    MulSucc(n, m);
    if j < m {
      k, r := 0, j;
    } else {
      k, r := Split(j - m, n - 1, m);
      MulSucc(k + 1, m);
      k := k + 1;
    }
  }

  /** Position j < (a*b)*n splits into block k of a*b and, inside it, sub-block r1 of b and offset r2. */
  lemma SplitTwice(j: nat, n: nat, a: nat, b: nat) returns (k: nat, r1: nat, r2: nat)
    requires j < (a * b) * n
    ensures k < n && r1 < a && r2 < b && r1 * b + r2 < a * b
    ensures j == k * (a * b) + (r1 * b + r2)
    ensures j == (k * a + r1) * b + r2
  {
    var r;
    k, r := Split(j, n, a * b);
    r1, r2 := Split(r, a, b);
    Distrib(k, a, r1, b);
  }

  lemma ComposeAt(s: seq<int>, a: nat, b: nat, j: nat)
    requires j < (a * b) * |s|
    ensures j < |Expand(Expand(s, a), b)| && j < |Expand(s, a * b)|
    ensures Expand(Expand(s, a), b)[j] == Expand(s, a * b)[j]
  {
    var k, r1, r2 := SplitTwice(j, |s|, a, b);
    ExpandAt(s, a * b, k, r1 * b + r2);
    ExpandAt(s, a, k, r1);
    ExpandAt(Expand(s, a), b, k * a + r1, r2);
    ComposeValue(s[k], a, b, r1, r2);
  }

  /** Expanding by a and then by b is expanding by a*b. */
  lemma {:induction false} ExpandCompose(s: seq<int>, a: nat, b: nat)
    ensures Expand(Expand(s, a), b) == Expand(s, a * b)
  {
    var lhs, rhs := Expand(Expand(s, a), b), Expand(s, a * b);
    ExpandLength(s, a);
    ExpandLength(Expand(s, a), b);
    ExpandLength(s, a * b);
    MulAssoc(b, a, |s|);
    forall j | 0 <= j < |rhs|
      ensures lhs[j] == rhs[j]
    {
      ComposeAt(s, a, b, j);
    }
  }

  // ---------------------------------------------------------------------------
  // The two steps, one at a time

  /** Triangulation doubles the list; entries 2k and 2k+1 are 2*q[k] and 2*q[k]+1. */
  lemma TriSpec(q: seq<int>)
    ensures |Tri(q)| == 2 * |q|
    ensures forall k :: 0 <= k < |q| ==> Tri(q)[2 * k] == 2 * q[k] && Tri(q)[2 * k + 1] == 2 * q[k] + 1
  {
    ExpandLength(q, 2);
    forall k | 0 <= k < |q|
      ensures Tri(q)[2 * k] == 2 * q[k] && Tri(q)[2 * k + 1] == 2 * q[k] + 1
    {
      ExpandAt(q, 2, k, 0);
      ExpandAt(q, 2, k, 1);
    }
  }

  /** A subdivision pass quadruples the list; entry 4k+r is 4*h[k]+r for r in 0..3. */
  lemma SubSpec(h: seq<int>)
    ensures |Sub(h)| == 4 * |h|
    ensures forall k :: 0 <= k < |h| ==>
      Sub(h)[4 * k] == 4 * h[k] && Sub(h)[4 * k + 1] == 4 * h[k] + 1 &&
      Sub(h)[4 * k + 2] == 4 * h[k] + 2 && Sub(h)[4 * k + 3] == 4 * h[k] + 3
  {
    ExpandLength(h, 4);
    forall k | 0 <= k < |h|
      ensures Sub(h)[4 * k] == 4 * h[k] && Sub(h)[4 * k + 1] == 4 * h[k] + 1 &&
              Sub(h)[4 * k + 2] == 4 * h[k] + 2 && Sub(h)[4 * k + 3] == 4 * h[k] + 3
    {
      ExpandAt(h, 4, k, 0);
      ExpandAt(h, 4, k, 1);
      ExpandAt(h, 4, k, 2);
      ExpandAt(h, 4, k, 3);
    }
  }

  /** `passes` subdivision passes are a single expansion by 4^passes. */
  lemma {:induction false} SubsIsExpand(h: seq<int>, passes: nat)
    ensures Subs(h, passes) == Expand(h, Pow4(passes))
  {
    if passes == 0 {
      ExpandOne(h);
    } else {
      SubsIsExpand(h, passes - 1);
      ExpandCompose(h, Pow4(passes - 1), 4);
    }
  }

  /** The whole remapping is a single expansion by 2*4^levels. */
  lemma RemapIsExpand(q: seq<int>, levels: nat)
    ensures Remap(q, levels) == Expand(q, RunLength(levels))
  {
    SubsIsExpand(Tri(q), levels);
    ExpandCompose(q, 2, Pow4(levels));
  }

  // ---------------------------------------------------------------------------
  // What the remapped list looks like

  /** Length and content: child r of quad k sits at k*B + r and is B*q[k] + r, B = 2*4^levels. */
  lemma RemapAt(q: seq<int>, levels: nat, k: nat, r: nat)
    requires k < |q| && r < RunLength(levels)
    ensures |Remap(q, levels)| == RunLength(levels) * |q|
    ensures k * RunLength(levels) + r < |Remap(q, levels)|
    ensures Remap(q, levels)[k * RunLength(levels) + r] == RunLength(levels) * q[k] + r
  {
    var m := RunLength(levels);
    RemapIsExpand(q, levels);
    ExpandLength(q, m);
    ExpandAt(q, m, k, r);
  }

  /** The visualiser's instance: 2*|q| indices without subdivision, 8*|q| with one pass. */
  lemma RemapSourceLength(q: seq<int>, noSubdivision: bool)
    ensures |Remap(q, Passes(noSubdivision))| == if noSubdivision then 2 * |q| else 8 * |q|
  {
    RemapIsExpand(q, Passes(noSubdivision));
    ExpandLength(q, RunLength(Passes(noSubdivision)));
  }

  /** An empty selection stays empty, whatever the number of passes. */
  lemma {:induction false} RemapEmpty(levels: nat)
    ensures Remap([], levels) == []
  {
    if levels > 0 {
      RemapEmpty(levels - 1);
    }
  }

  /** One quad i becomes the increasing contiguous run 2i*4^L, ..., (2i+2)*4^L - 1. */
  lemma RemapSingle(i: int, levels: nat)
    ensures |Remap([i], levels)| == RunLength(levels)
    ensures forall j :: 0 <= j < RunLength(levels) ==> Remap([i], levels)[j] == 2 * i * Pow4(levels) + j
  {
    RemapIsExpand([i], levels);
    assert Expand([i], RunLength(levels)) == Block(i, RunLength(levels)) + Expand([], RunLength(levels));
  }

  /** Order: the indices of an earlier part of the selection all come before those of a later part. */
  lemma RemapAppend(a: seq<int>, b: seq<int>, levels: nat)
    ensures Remap(a + b, levels) == Remap(a, levels) + Remap(b, levels)
  {
    RemapIsExpand(a + b, levels);
    RemapIsExpand(a, levels);
    RemapIsExpand(b, levels);
    ExpandAppend(a, b, RunLength(levels));
  }

  /** Final face x is one of the RunLength(levels) faces that quad f of the original mesh becomes. */
  predicate DescendsFrom(x: int, f: int, levels: nat)
  {
    RunLength(levels) * f <= x < RunLength(levels) * f + RunLength(levels)
  }

  /** A final index is in the result exactly when it descends from a selected quad. */
  lemma RemapMembership(q: seq<int>, levels: nat, x: int)
    ensures x in Remap(q, levels) <==> exists k :: 0 <= k < |q| && DescendsFrom(x, q[k], levels)
  {
    var m := RunLength(levels);
    var s := Remap(q, levels);
    RemapIsExpand(q, levels);
    ExpandLength(q, m);
    if x in s {
      var j :| 0 <= j < |s| && s[j] == x;
      var k, r := Split(j, |q|, m);
      RemapAt(q, levels, k, r);
      assert DescendsFrom(x, q[k], levels);
    }
    if exists k :: 0 <= k < |q| && DescendsFrom(x, q[k], levels) {
      var k :| 0 <= k < |q| && DescendsFrom(x, q[k], levels);
      RemapAt(q, levels, k, x - m * q[k]);
    }
  }

  /** Distinctness is preserved in both directions: no quad twice exactly when no final face twice. */
  lemma RemapDistinct(q: seq<int>, levels: nat)
    ensures Distinct(q) <==> Distinct(Remap(q, levels))
  {
    var m := RunLength(levels);
    var s := Remap(q, levels);
    RemapIsExpand(q, levels);
    ExpandLength(q, m);
    if Distinct(q) {
      forall i, j | 0 <= i < j < |s|
        ensures s[i] != s[j]
      {
        var k1, r1 := Split(i, |q|, m);
        var k2, r2 := Split(j, |q|, m);
        RemapAt(q, levels, k1, r1);
        RemapAt(q, levels, k2, r2);
        if q[k1] < q[k2] {
          BlockLess(q[k1], q[k2], m, r1, r2);
        } else if q[k2] < q[k1] {
          BlockLess(q[k2], q[k1], m, r2, r1);
        } else {
          assert k1 == k2;
        }
      }
    }
    if Distinct(s) {
      forall k1, k2 | 0 <= k1 < k2 < |q|
        ensures q[k1] != q[k2]
      {
        RemapAt(q, levels, k1, 0);
        RemapAt(q, levels, k2, 0);
        MulLess(k1, k2, m);
      }
    }
  }

  /** Order: a strictly increasing selection gives a strictly increasing result. */
  lemma RemapIncreasing(q: seq<int>, levels: nat)
    requires StrictlyIncreasing(q)
    ensures StrictlyIncreasing(Remap(q, levels))
  {
    var m := RunLength(levels);
    var s := Remap(q, levels);
    RemapIsExpand(q, levels);
    ExpandLength(q, m);
    forall i, j | 0 <= i < j < |s|
      ensures s[i] < s[j]
    {
      var k1, r1 := Split(i, |q|, m);
      var k2, r2 := Split(j, |q|, m);
      RemapAt(q, levels, k1, r1);
      RemapAt(q, levels, k2, r2);
      MulSucc(k2 + 1, m);
      MulLessCancel(k1, k2 + 1, m);
      if k1 < k2 {
        BlockLess(q[k1], q[k2], m, r1, r2);
      }
    }
  }

  /** Bounds: quads in [0, n) give final faces in [0, 2n*4^levels). */
  lemma RemapBounds(q: seq<int>, levels: nat, n: int)
    requires forall k :: 0 <= k < |q| ==> 0 <= q[k] < n
    ensures forall i :: 0 <= i < |Remap(q, levels)| ==> 0 <= Remap(q, levels)[i] < RunLength(levels) * n
  {
    var m := RunLength(levels);
    var s := Remap(q, levels);
    RemapIsExpand(q, levels);
    ExpandLength(q, m);
    forall i | 0 <= i < |s|
      ensures 0 <= s[i] < m * n
    {
      var k, r := Split(i, |q|, m);
      RemapAt(q, levels, k, r);
      BlockWithin(q[k], n, m, r);
    }
  }

  /** When 2n*4^levels fits in a C++ int, quads in [0, n) never make the remapping overflow. */
  lemma RemapBoundsNoOverflow(q: seq<int>, levels: nat, n: int)
    requires forall k :: 0 <= k < |q| ==> 0 <= q[k] < n
    requires RunLength(levels) * n <= Int32Max + 1
    ensures NoOverflow(q, levels)
  {
    var m := RunLength(levels);
    forall k | 0 <= k < |q|
      ensures InInt32(m * q[k]) && InInt32(m * q[k] + m - 1)
    {
      MulLeMono(0, q[k], m);
      MulLeMono(q[k] + 1, n, m);
    }
  }

  /** NoOverflow at the final level implies it at every earlier level. */
  lemma NoOverflowEarlier(q: seq<int>, levels: nat, j: nat)
    requires NoOverflow(q, levels) && j <= levels
    ensures NoOverflow(q, j)
  {
    var m, mj := RunLength(levels), RunLength(j);
    Pow4Monotone(j, levels);
    forall k | 0 <= k < |q|
      ensures InInt32(mj * q[k]) && InInt32(mj * q[k] + mj - 1)
    {
      var f := q[k];
      if f >= 0 {
        MulLeMono(mj, m, f);
        MulLeMono(mj, m, f + 1);
      } else {
        MulLeAnti(mj, m, f);
        MulLeAnti(mj, m, f + 1);
      }
    }
  }

  /** Under NoOverflow, every index computed after j <= levels passes fits in a C++ int. */
  lemma RemapInInt32(q: seq<int>, levels: nat, j: nat, i: nat)
    requires NoOverflow(q, levels) && j <= levels && i < |Remap(q, j)|
    ensures InInt32(Remap(q, j)[i])
  {
    var m := RunLength(j);
    NoOverflowEarlier(q, levels, j);
    RemapIsExpand(q, j);
    ExpandLength(q, m);
    var k, r := Split(i, |q|, m);
    RemapAt(q, j, k, r);
  }

  lemma {:induction false} Pow4Monotone(i: nat, j: nat)
    requires i <= j
    ensures Pow4(i) <= Pow4(j)
    decreases j
  {
    if i < j {
      Pow4Monotone(i, j - 1);
    }
  }

  // ---------------------------------------------------------------------------
  // Arithmetic about blocks

  lemma BlockLess(a: int, b: int, m: int, r1: int, r2: int)
    requires a < b && 0 <= r1 < m && 0 <= r2
    ensures m * a + r1 < m * b + r2
  {
    MulLeMono(a + 1, b, m);
  }

  lemma BlockWithin(f: int, n: int, m: int, r: int)
    requires 0 <= f < n && 0 <= r < m
    ensures 0 <= m * f + r < m * n
  {
    MulLeMono(0, f, m);
    MulLeMono(f + 1, n, m);
  }

  // ---------------------------------------------------------------------------
  // Nonlinear-arithmetic hints. Dafny proves each of these without a body; they
  // only hand the solver a fact about products where a proof above needs it.

  lemma MulLess(a: int, b: int, m: int)
    requires a < b && m > 0
    ensures a * m < b * m
  {
  }

  lemma MulLessCancel(a: int, b: int, m: int)
    requires a * m < b * m && m >= 0
    ensures a < b
  {
  }

  lemma MulLeMono(a: int, b: int, c: int)
    requires a <= b && c >= 0
    ensures a * c <= b * c
  {
  }

  lemma MulLeAnti(a: int, b: int, c: int)
    requires a <= b && c <= 0
    ensures a * c >= b * c
  {
  }

  lemma MulSucc(k: int, m: int)
    ensures k * m == m + (k - 1) * m
  {
  }

  lemma Distrib(k: int, a: int, r1: int, b: int)
    ensures (k * a + r1) * b == k * (a * b) + r1 * b
  {
  }

  lemma ComposeValue(x: int, a: nat, b: nat, r1: nat, r2: nat)
    ensures b * (a * x + r1) + r2 == (a * b) * x + (r1 * b + r2)
  {
  }

  lemma MulAssoc(b: int, a: int, n: int)
    ensures b * (a * n) == (a * b) * n
  {
  }
}
