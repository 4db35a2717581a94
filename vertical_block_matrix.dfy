/**
 * VerticalBlockMatrix.h: a dense matrix whose columns are split into
 * blocks of given widths.  The block boundaries are the prefix sums that
 * fillOffsets writes; rowStart, rowEnd and firstBlock change the apparent
 * view without touching the matrix.  The debug-only invariant and block
 * checks are preconditions.
 */
module VerticalBlockMatrices {
  import opened Wrappers
  import opened Matrices

  /** The message of the invalid_argument thrown when the widths do not match the matrix. */
  const DimensionsMismatch: string :=
    "Requested to create a VerticalBlockMatrix with dimensions that do not sum to the total columns of the provided matrix."

  /** The sum of the block widths. */
  function DimSum(dims: seq<nat>): nat
  {
    if |dims| == 0 then 0 else DimSum(dims[..|dims| - 1]) + dims[|dims| - 1]
  }

  /** The column offsets of the blocks: 0, then each offset the previous one plus the width of the block before. */
  function Offsets(dims: seq<nat>): (offsets: seq<nat>)
    ensures |offsets| == |dims| + 1 && offsets[0] == 0
  {
    if |dims| == 0 then [0]
    else
      var init := Offsets(dims[..|dims| - 1]);
      init + [init[|init| - 1] + dims[|dims| - 1]]
  }

  /** Consecutive offsets differ by the width of the block between them. */
  lemma {:induction false} OffsetsStep(dims: seq<nat>)
    ensures forall j :: 0 <= j < |dims| ==> Offsets(dims)[j + 1] == Offsets(dims)[j] + dims[j]
  {
    if |dims| > 0 {
      var init := dims[..|dims| - 1];
      OffsetsStep(init);
      assert forall j :: 0 <= j < |init| ==> init[j] == dims[j];
      assert forall j :: 0 <= j <= |init| ==> Offsets(dims)[j] == Offsets(init)[j];
    }
  }

  /** Each offset is the sum of the widths before it. */
  lemma {:induction false} OffsetPrefixSum(dims: seq<nat>, j: nat)
    requires j <= |dims|
    ensures Offsets(dims)[j] == DimSum(dims[..j])
  {
    if j > 0 {
      OffsetPrefixSum(dims, j - 1);
      OffsetsStep(dims);
      assert dims[..j][..j - 1] == dims[..j - 1];
    }
  }

  /** The last offset is the sum of all the widths. */
  lemma LastOffset(dims: seq<nat>)
    ensures Offsets(dims)[|dims|] == DimSum(dims)
  {
    OffsetPrefixSum(dims, |dims|);
    assert dims[..|dims|] == dims;
  }

  /** Offsets never decrease. */
  predicate Nondecreasing(offsets: seq<nat>)
  {
    forall i, j :: 0 <= i <= j < |offsets| ==> offsets[i] <= offsets[j]
  }

  lemma OffsetsNondecreasing(dims: seq<nat>)
    ensures Nondecreasing(Offsets(dims))
  {
    var offsets := Offsets(dims);
    forall i, j | 0 <= i <= j < |offsets|
      ensures offsets[i] <= offsets[j]
    {
      OffsetPrefixSum(dims, i);
      OffsetPrefixSum(dims, j);
      PrefixSumMonotone(dims, i, j);
    }
  }

  lemma {:induction false} PrefixSumMonotone(dims: seq<nat>, i: nat, j: nat)
    requires i <= j <= |dims|
    ensures DimSum(dims[..i]) <= DimSum(dims[..j])
    decreases j - i
  {
    if i < j {
      PrefixSumMonotone(dims, i, j - 1);
      assert dims[..j][..j - 1] == dims[..j - 1];
    }
  }

  class VerticalBlockMatrix {
    var matrix: Matrix
    var offsets: seq<nat>
    var rowStart: nat
    var rowEnd: nat
    var blockStart: nat

    /** ASSERT_INVARIANTS, with the shape of the offsets that fillOffsets guarantees. */
    predicate Valid()
      reads this
    {
      matrix.Valid() && |offsets| >= 1 && offsets[0] == 0 && Nondecreasing(offsets) &&
      matrix.cols == offsets[|offsets| - 1] && blockStart < |offsets| &&
      rowStart <= matrix.rows && rowEnd <= matrix.rows && rowStart <= rowEnd
    }

    /** CHECK_BLOCK(block): a block before the last offset that starts inside the matrix. */
    predicate BlockChecked(block: nat)
      reads this
    {
      |offsets| >= 1 && matrix.cols == offsets[|offsets| - 1] && block < |offsets| - 1 &&
      offsets[block] < matrix.cols && offsets[block + 1] <= matrix.cols
    }

    /** The empty matrix: a single offset 0 and no rows. */
    constructor()
      ensures Valid() && offsets == [0] && rowStart == 0 && rowEnd == 0 && blockStart == 0 && matrix == Zeros(0, 0)
    {
      matrix := Zeros(0, 0);
      offsets := [0];
      rowStart, rowEnd, blockStart := 0, 0, 0;
    }

    /** From the block widths and a height; the entries of the resized matrix are left unmodelled as zeros. */
    constructor WithHeight(dims: seq<nat>, height: nat)
      ensures Valid() && offsets == Offsets(dims) && matrix == Zeros(height, DimSum(dims))
      ensures rowStart == 0 && rowEnd == height && blockStart == 0
    {
      rowStart, rowEnd, blockStart := 0, height, 0;
      matrix := Zeros(0, 0);
      offsets := [0];
      new;
      FillOffsets(dims);
      matrix := Zeros(height, offsets[|offsets| - 1]);
      LastOffset(dims);
      OffsetsNondecreasing(dims);
    }

    /** From the block widths and a prepared matrix; invalid_argument when the widths do not sum to its columns. */
    static method WithMatrix(dims: seq<nat>, matrix: Matrix) returns (r: Result<VerticalBlockMatrix>)
      requires matrix.Valid()
      ensures r.Ok? <==> DimSum(dims) == matrix.cols
      ensures r.Ok? ==> fresh(r.value) && r.value.Valid() && r.value.matrix == matrix && r.value.offsets == Offsets(dims)
      ensures r.Ok? ==> r.value.rowStart == 0 && r.value.rowEnd == matrix.rows && r.value.blockStart == 0
      ensures r.Err? ==> r.error == InvalidArgument(DimensionsMismatch)
    {
      var v := new VerticalBlockMatrix.WithHeight(dims, matrix.rows);
      LastOffset(dims);
      if v.offsets[|v.offsets| - 1] != matrix.cols {
        return Err(InvalidArgument(DimensionsMismatch));
      }
      v.matrix := matrix;
      return Ok(v);
    }

    /** fillOffsets: offsets resized to one more than the blocks, 0 first, then running sums. */
    method FillOffsets(dims: seq<nat>)
      modifies this
      ensures offsets == Offsets(dims)
      ensures matrix == old(matrix) && rowStart == old(rowStart) && rowEnd == old(rowEnd) && blockStart == old(blockStart)
    {
      offsets := seq(|dims| + 1, _ => 0);
      for j := 0 to |dims|
        invariant |offsets| == |dims| + 1 && offsets[..j + 1] == Offsets(dims[..j])
        invariant matrix == old(matrix) && rowStart == old(rowStart) && rowEnd == old(rowEnd) && blockStart == old(blockStart)
      {
        assert dims[..j + 1][..j] == dims[..j];
        offsets := offsets[j + 1 := offsets[j] + dims[j]];
        assert offsets[..j + 2] == offsets[..j + 1] + [offsets[j + 1]];
      }
      assert dims[..|dims|] == dims;
      assert offsets[..|dims| + 1] == offsets;
    }

    /** rows(): the height of the view. */
    function Rows(): (n: nat)
      requires Valid()
      reads this
      ensures n <= matrix.rows
    {
      rowEnd - rowStart
    }

    /** cols(): the width from the first block of the view to the end. */
    function Cols(): (n: nat)
      requires Valid()
      reads this
      ensures n <= matrix.cols
    {
      offsets[|offsets| - 1] - offsets[blockStart]
    }

    /** nBlocks(): the blocks from the first one of the view. */
    function NBlocks(): nat
      requires Valid()
      reads this
    {
      |offsets| - 1 - blockStart
    }

    /** The checks range(startBlock, endBlock) makes before it reads the offsets. */
    predicate RangeAllowed(startBlock: nat, endBlock: nat)
      reads this
    {
      Valid() && startBlock <= endBlock && endBlock + blockStart < |offsets| &&
      ((startBlock != 0 || endBlock != 0) ==> BlockChecked(startBlock + blockStart))
    }

    /** range(startBlock, endBlock): the rows of the view and the columns of those blocks. */
    function Range(startBlock: nat, endBlock: nat): (B: Matrix)
      requires RangeAllowed(startBlock, endBlock)
      reads this
      ensures B.Valid() && B.rows == Rows() && B.cols == offsets[endBlock + blockStart] - offsets[startBlock + blockStart]
      ensures forall k, l :: 0 <= k < B.rows && 0 <= l < B.cols ==>
        B.entries[k][l] == matrix.entries[rowStart + k][offsets[startBlock + blockStart] + l]
    {
      Block(matrix, rowStart, rowEnd, offsets[startBlock + blockStart], offsets[endBlock + blockStart])
    }

    /** operator()(block): the range of that single block. */
    function BlockAt(block: nat): (B: Matrix)
      requires RangeAllowed(block, block + 1)
      reads this
      ensures B.rows == Rows() && B.cols == offsets[block + 1 + blockStart] - offsets[block + blockStart]
    {
      Range(block, block + 1)
    }

    /** full(): the range of all the blocks of the view, as wide as cols(). */
    function Full(): (B: Matrix)
      requires Valid() && RangeAllowed(0, NBlocks())
      reads this
      ensures B.rows == Rows() && B.cols == Cols()
    {
      Range(0, NBlocks())
    }

    /** offset(block): where the block starts. */
    function Offset(block: nat): (c: nat)
      requires Valid() && BlockChecked(block + blockStart)
      reads this
      ensures c < matrix.cols
    {
      offsets[block + blockStart]
    }

    /** rowStart() = r through the mutable reference. */
    method SetRowStart(r: nat)
      modifies this
      ensures rowStart == r && matrix == old(matrix) && offsets == old(offsets)
      ensures rowEnd == old(rowEnd) && blockStart == old(blockStart)
    {
      rowStart := r;
    }

    /** rowEnd() = r through the mutable reference. */
    method SetRowEnd(r: nat)
      modifies this
      ensures rowEnd == r && matrix == old(matrix) && offsets == old(offsets)
      ensures rowStart == old(rowStart) && blockStart == old(blockStart)
    {
      rowEnd := r;
    }

    /** firstBlock() = b through the mutable reference. */
    method SetFirstBlock(b: nat)
      modifies this
      ensures blockStart == b && matrix == old(matrix) && offsets == old(offsets)
      ensures rowStart == old(rowStart) && rowEnd == old(rowEnd)
    {
      blockStart := b;
    }

    /** Two adjacent ranges side by side make the range that spans both. */
    lemma RangeSplit(s: nat, m: nat, e: nat)
      requires RangeAllowed(s, m) && RangeAllowed(m, e) && RangeAllowed(s, e)
      ensures Range(s, m).cols + Range(m, e).cols == Range(s, e).cols
      ensures forall k, l :: 0 <= k < Rows() && 0 <= l < Range(s, m).cols ==> Range(s, e).entries[k][l] == Range(s, m).entries[k][l]
      ensures forall k, l :: 0 <= k < Rows() && 0 <= l < Range(m, e).cols ==>
        Range(s, e).entries[k][Range(s, m).cols + l] == Range(m, e).entries[k][l]
    {
    }

    /** With the offsets of dims, the view's width is the sum of the widths of its blocks and each block's range is as wide as its width. */
    lemma ColsFromDims(dims: seq<nat>)
      requires Valid() && offsets == Offsets(dims)
      ensures Cols() == DimSum(dims) - DimSum(dims[..blockStart])
      ensures NBlocks() == |dims| - blockStart
      ensures forall b :: blockStart <= b < |dims| ==> offsets[b + 1] - offsets[b] == dims[b]
    {
      OffsetsStep(dims);
      LastOffset(dims);
      OffsetPrefixSum(dims, blockStart);
    }
  }
}
