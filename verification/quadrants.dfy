/**
 * The fixed four-way split of an image at row and column 32 and its inverse,
 * shared by the embedder and the scorer. Slicing follows numpy: a cut beyond
 * the end of the array is clamped to it.
 */
module Quadrants {
  import opened Grid

  /** The hard-coded split index; it is not derived from the image size. */
  const Cut: nat := 32

  /** Top-left, top-right, bottom-left and bottom-right quadrants. */
  datatype Quads = Quads(tl: Matrix, tr: Matrix, bl: Matrix, br: Matrix)

  /** `rows[:, :32]` */
  function LeftOf(rows: Matrix): Matrix {
    seq(|rows|, i requires 0 <= i < |rows| => rows[i][..Min(Cut, |rows[i]|)])
  }

  /** `rows[:, 32:]` */
  function RightOf(rows: Matrix): Matrix {
    seq(|rows|, i requires 0 <= i < |rows| => rows[i][Min(Cut, |rows[i]|)..])
  }

  /** `image[:32, :32]`, `image[:32, 32:]`, `image[32:, :32]`, `image[32:, 32:]`. */
  function Split(m: Matrix): (q: Quads)
    ensures |q.tl| == |q.tr| && |q.bl| == |q.br|
  {
    var k := Min(Cut, |m|);
    Quads(LeftOf(m[..k]), RightOf(m[..k]), LeftOf(m[k..]), RightOf(m[k..]))
  }

  /** `np.hstack((a, b))`: row by row concatenation. */
  function HStack(a: Matrix, b: Matrix): (r: Matrix)
    requires |a| == |b|
    ensures |r| == |a|
    ensures forall i :: 0 <= i < |a| ==>
      |r[i]| == |a[i]| + |b[i]| && r[i][..|a[i]|] == a[i] && r[i][|a[i]|..] == b[i]
  {
    seq(|a|, i requires 0 <= i < |a| => a[i] + b[i])
  }

  /** The top quadrants side by side, stacked over the bottom quadrants side by side. */
  function Reassemble(q: Quads): (r: Matrix)
    requires |q.tl| == |q.tr| && |q.bl| == |q.br|
    ensures |r| == |q.tl| + |q.bl|
    ensures forall i :: 0 <= i < |q.tl| ==>
      |r[i]| == |q.tl[i]| + |q.tr[i]| && r[i][..|q.tl[i]|] == q.tl[i] && r[i][|q.tl[i]|..] == q.tr[i]
    ensures forall i :: 0 <= i < |q.bl| ==>
      |r[|q.tl| + i]| == |q.bl[i]| + |q.br[i]|
      && r[|q.tl| + i][..|q.bl[i]|] == q.bl[i] && r[|q.tl| + i][|q.bl[i]|..] == q.br[i]
  {
    HStack(q.tl, q.tr) + HStack(q.bl, q.br)
  }

  /** Reassembling the four quadrants of any image gives the image back. */
  lemma ReassembleSplit(m: Matrix)
    ensures Reassemble(Split(m)) == m
  {
    var k := Min(Cut, |m|);
    var r := Reassemble(Split(m));
    assert |r| == |m|;
    forall i | 0 <= i < |m|
      ensures r[i] == m[i]
    {
      if i < k {
        assert r[i] == m[i][..Min(Cut, |m[i]|)] + m[i][Min(Cut, |m[i]|)..];
      } else {
        assert r[i] == m[i][..Min(Cut, |m[i]|)] + m[i][Min(Cut, |m[i]|)..];
      }
    }
  }

  /**
   * Quadrants shaped as the split of an image at least 32 x 32 produces:
   * the top ones have 32 rows, and every row of the left ones is 32 wide.
   */
  predicate Aligned(q: Quads) {
    && |q.tl| == Cut && |q.tr| == Cut && |q.bl| == |q.br|
    && (forall i :: 0 <= i < |q.tl| ==> |q.tl[i]| == Cut)
    && (forall i :: 0 <= i < |q.bl| ==> |q.bl[i]| == Cut)
  }

  /** Splitting reassembled, aligned quadrants gives back the same quadrants. */
  lemma SplitReassemble(q: Quads)
    requires Aligned(q)
    ensures Split(Reassemble(q)) == q
  {
    var m := Reassemble(q);
    var s := Split(m);
    assert m[..Cut] == HStack(q.tl, q.tr);
    assert m[Cut..] == HStack(q.bl, q.br);
    assert s.tl == q.tl;
    assert s.tr == q.tr;
    assert s.bl == q.bl;
    assert s.br == q.br;
  }

  /** The shapes of the four quadrants of an H x W image with H, W >= 32. */
  lemma SplitShape(m: Matrix, height: nat, width: nat)
    requires IsMatrix(m, height, width)
    requires height >= Cut && width >= Cut
    ensures Aligned(Split(m))
    ensures IsMatrix(Split(m).tl, Cut, Cut)
    ensures IsMatrix(Split(m).tr, Cut, width - Cut)
    ensures IsMatrix(Split(m).bl, height - Cut, Cut)
    ensures IsMatrix(Split(m).br, height - Cut, width - Cut)
  {
  }

  /** Quadrants the same shape as another image's quadrants reassemble to the same shape. */
  lemma ReassembleSameShape(p: Quads, q: Quads)
    requires |p.tl| == |p.tr| && |p.bl| == |p.br|
    requires SameShape(p.tl, q.tl) && SameShape(p.tr, q.tr)
    requires SameShape(p.bl, q.bl) && SameShape(p.br, q.br)
    ensures SameShape(Reassemble(p), Reassemble(q))
  {
  }

  /** Quadrants shaped like aligned ones are aligned. */
  lemma AlignedSameShape(p: Quads, q: Quads)
    requires Aligned(q)
    requires SameShape(p.tl, q.tl) && SameShape(p.tr, q.tr)
    requires SameShape(p.bl, q.bl) && SameShape(p.br, q.br)
    ensures Aligned(p)
  {
  }
}
