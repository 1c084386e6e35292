/**
 * The loops of VisualizeReconstructionResult that rewrite the selected quad
 * indices, over C++ `int` values. Every `*` and `+` below is 32-bit arithmetic
 * on `Int32`, so Dafny proves that none of them overflows under NoOverflow.
 */
module FaceRemapImpl {
  import opened FaceRemap

  /** A C++ `int` on the targeted platforms. */
  newtype Int32 = x: int | -0x8000_0000 <= x < 0x8000_0000

  /** The mathematical values of a list of C++ ints. */
  function AsInts(s: seq<Int32>): seq<int>
  {
    seq(|s|, i requires 0 <= i < |s| => s[i] as int)
  }

  /**
   * Triangulates the selected quads, then applies `levels` subdivision passes,
   * each building a new list from the previous one.
   */
  method RemapFaceIndices(quadIndices: seq<Int32>, levels: nat) returns (indices: seq<Int32>)
    requires NoOverflow(AsInts(quadIndices), levels)
    ensures AsInts(indices) == Remap(AsInts(quadIndices), levels)
  {
    ghost var q := AsInts(quadIndices);
    var triangles: seq<Int32> := [];
    for i := 0 to |quadIndices|
      invariant AsInts(triangles) == Tri(q[..i])
    {
      var fidx := quadIndices[i];
      TriangulateStep(q, levels, i);
      AsIntsAppend(triangles, [fidx * 2, fidx * 2 + 1]);
      triangles := triangles + [fidx * 2, fidx * 2 + 1];
    }
    assert q[..|quadIndices|] == q;

    var current := triangles;
    for pass := 0 to levels
      invariant AsInts(current) == Remap(q, pass)
    {
      var next: seq<Int32> := [];
      for j := 0 to |current|
        invariant AsInts(next) == Sub(AsInts(current)[..j])
      {
        var fidx := current[j];
        SubdivideStep(q, levels, pass, j);
        var fidxBase := fidx * 4;
        AsIntsAppend(next, [fidxBase, fidxBase + 1, fidxBase + 2, fidxBase + 3]);
        next := next + [fidxBase, fidxBase + 1, fidxBase + 2, fidxBase + 3];
      }
      assert AsInts(current)[..|current|] == AsInts(current);
      current := next;
    }
    indices := current;
  }

  /**
   * The whole face-selection block: no subdivision pass when `noSubdivision`
   * is set, one otherwise.
   */
  method RemapSelectedFaces(quadIndices: seq<Int32>, noSubdivision: bool) returns (indices: seq<Int32>)
    requires NoOverflow(AsInts(quadIndices), Passes(noSubdivision))
    ensures AsInts(indices) == Remap(AsInts(quadIndices), Passes(noSubdivision))
    ensures |indices| == if noSubdivision then 2 * |quadIndices| else 8 * |quadIndices|
  {
    var maxSubdivisions := if noSubdivision then 0 else 1;
    indices := RemapFaceIndices(quadIndices, maxSubdivisions);
    RemapSourceLength(AsInts(quadIndices), noSubdivision);
  }

  // ---------------------------------------------------------------------------
  // One iteration of each loop

  lemma AsIntsAppend(a: seq<Int32>, b: seq<Int32>)
    ensures AsInts(a + b) == AsInts(a) + AsInts(b)
  {
  }

  /** Expanding one more index appends its block. */
  lemma ExpandSnoc(s: seq<int>, x: int, m: nat)
    ensures Expand(s + [x], m) == Expand(s, m) + Block(x, m)
  {
    ExpandAppend(s, [x], m);
    assert Expand([x], m) == Block(x, m) + Expand([], m);
  }

  /** Quad i adds 2*q[i] and 2*q[i]+1 to the triangle list, and both fit in an int. */
  lemma TriangulateStep(q: seq<int>, levels: nat, i: nat)
    requires NoOverflow(q, levels) && i < |q|
    ensures Tri(q[..i + 1]) == Tri(q[..i]) + [2 * q[i], 2 * q[i] + 1]
    ensures InInt32(2 * q[i]) && InInt32(2 * q[i] + 1)
  {
    assert q[..i + 1] == q[..i] + [q[i]];
    ExpandSnoc(q[..i], q[i], 2);
    TriSpec(q);
    RemapInInt32(q, levels, 0, 2 * i);
    RemapInInt32(q, levels, 0, 2 * i + 1);
  }

  /**
   * Face j of the list after `pass` passes adds its four children to the next
   * list, and all four fit in an int while pass < levels.
   */
  lemma SubdivideStep(q: seq<int>, levels: nat, pass: nat, j: nat)
    requires NoOverflow(q, levels) && pass < levels && j < |Remap(q, pass)|
    ensures var h, f := Remap(q, pass), Remap(q, pass)[j];
      Sub(h[..j + 1]) == Sub(h[..j]) + [4 * f, 4 * f + 1, 4 * f + 2, 4 * f + 3]
    ensures var f := Remap(q, pass)[j];
      InInt32(4 * f) && InInt32(4 * f + 1) && InInt32(4 * f + 2) && InInt32(4 * f + 3)
  {
    var h := Remap(q, pass);
    assert h[..j + 1] == h[..j] + [h[j]];
    ExpandSnoc(h[..j], h[j], 4);
    assert Remap(q, pass + 1) == Sub(h);
    SubSpec(h);
    RemapInInt32(q, levels, pass + 1, 4 * j);
    RemapInInt32(q, levels, pass + 1, 4 * j + 1);
    RemapInInt32(q, levels, pass + 1, 4 * j + 2);
    RemapInInt32(q, levels, pass + 1, 4 * j + 3);
  }
}
