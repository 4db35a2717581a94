/**
 * ExecutionTrace.h: the tagged union that records how one node of an
 * expression tree was executed (a constant, a leaf with its key, or a
 * function whose call record lies in the trace storage), and the leaf case
 * of reverse-mode differentiation, which adds a Jacobian block into the map
 * of Jacobians in place.
 *
 * The call records themselves (CallRecord.h) are not part of this model:
 * a record is referred to by its position in the trace storage and by the
 * number of arguments of its function, and the record's own reverse pass is
 * a parameter of the methods that hand over to it.
 */
module ExecutionTraces {
  import opened Wrappers
  import opened Vectors
  import opened Matrices

  /** A variable key. */
  type Key = nat

  /** A pointer to a call record: its position in the trace storage and the arity of its function. */
  datatype RecordRef = RecordRef(address: nat, arity: nat)

  /** The kind of a trace together with the content of the union that goes with it. */
  datatype TraceState = Constant | Leaf(key: Key) | Function(record: RecordRef)

  /** The n-by-n identity, the Jacobian of a leaf with respect to itself. */
  function Identity(n: nat): (I: Matrix)
    ensures I.Valid() && I.rows == n && I.cols == n
    ensures forall i, j :: 0 <= i < n && 0 <= j < n ==> I.entries[i][j] == if i == j then 1.0 else 0.0
  {
    Matrix(n, n, seq(n, i => seq(n, j => if i == j then 1.0 else 0.0)))
  }

  /** D added into the top-left corner of J, the rest of J kept. */
  function AddTopLeft(J: Matrix, D: Matrix): (S: Matrix)
    requires J.Valid() && D.Valid() && D.rows <= J.rows && D.cols <= J.cols
    ensures S.Valid() && S.rows == J.rows && S.cols == J.cols
    ensures forall i, j :: 0 <= i < J.rows && 0 <= j < J.cols ==>
      S.entries[i][j] == J.entries[i][j] + (if i < D.rows && j < D.cols then D.entries[i][j] else 0.0)
  {
    Matrix(J.rows, J.cols,
      seq(J.rows, i requires 0 <= i < J.rows =>
        seq(J.cols, j requires 0 <= j < J.cols =>
          J.entries[i][j] + (if i < D.rows && j < D.cols then D.entries[i][j] else 0.0))))
  }

  /** The entrywise sum of two matrices of one size. */
  function Plus(A: Matrix, B: Matrix): (S: Matrix)
    requires A.Valid() && B.Valid() && A.rows == B.rows && A.cols == B.cols
    ensures S.Valid() && S.rows == A.rows && S.cols == A.cols
    ensures forall i, j :: 0 <= i < A.rows && 0 <= j < A.cols ==> S.entries[i][j] == A.entries[i][j] + B.entries[i][j]
  {
    Matrix(A.rows, A.cols,
      seq(A.rows, i requires 0 <= i < A.rows => seq(A.cols, j requires 0 <= j < A.cols => A.entries[i][j] + B.entries[i][j])))
  }

  /** Adding a zero block changes nothing. */
  lemma AddTopLeftZero(J: Matrix, rows: nat, cols: nat)
    requires J.Valid() && rows <= J.rows && cols <= J.cols
    ensures AddTopLeft(J, Zeros(rows, cols)) == J
  {
    Extensionality(AddTopLeft(J, Zeros(rows, cols)), J);
  }

  /** Two leaves with the same key accumulate: adding D1 and then D2 adds their sum. */
  lemma AddTopLeftTwice(J: Matrix, D1: Matrix, D2: Matrix)
    requires J.Valid() && D1.Valid() && D2.Valid() && D1.rows == D2.rows && D1.cols == D2.cols
    requires D1.rows <= J.rows && D1.cols <= J.cols
    ensures AddTopLeft(AddTopLeft(J, D1), D2) == AddTopLeft(J, Plus(D1, D2))
  {
    Extensionality(AddTopLeft(AddTopLeft(J, D1), D2), AddTopLeft(J, Plus(D1, D2)));
  }

  /**
   * What the two variants of addToJacobian accept: the key has a block, and
   * dTdA fits into its top-left corner (fixed-size dTdA, added into a block
   * of the same shape) or has exactly its shape (dynamic dTdA).
   */
  predicate Accepts(blocks: map<Key, Matrix>, key: Key, dTdA: Matrix, fixedSize: bool)
  {
    key in blocks && blocks[key].Valid() && dTdA.Valid() &&
    if fixedSize then dTdA.rows <= blocks[key].rows && dTdA.cols <= blocks[key].cols
    else dTdA.rows == blocks[key].rows && dTdA.cols == blocks[key].cols
  }

  /** The Jacobians being accumulated, one block per key; reverse AD adds into them in place. */
  class JacobianMap {
    var blocks: map<Key, Matrix>

    constructor(blocks: map<Key, Matrix>)
      ensures this.blocks == blocks
    {
      this.blocks := blocks;
    }
  }

  /** handleLeafCase(dTdA, jacobians, key): dTdA added into the block of the key, every other block kept. */
  method HandleLeafCase(dTdA: Matrix, jacobians: JacobianMap, key: Key, fixedSize: bool)
    requires Accepts(jacobians.blocks, key, dTdA, fixedSize)
    modifies jacobians
    ensures jacobians.blocks == old(jacobians.blocks)[key := AddTopLeft(old(jacobians.blocks)[key], dTdA)]
  {
    jacobians.blocks := jacobians.blocks[key := AddTopLeft(jacobians.blocks[key], dTdA)];
  }

  /** The class ExecutionTrace: the dimension of its value type and the tagged union. */
  class ExecutionTrace {
    const dim: nat
    var state: TraceState

    /** A trace always starts out as a Constant. */
    constructor(dim: nat)
      ensures this.dim == dim && state == Constant
    {
      this.dim := dim;
      state := Constant;
    }

    /** setLeaf(key): the trace becomes a Leaf holding the key. */
    method SetLeaf(key: Key)
      modifies this
      ensures state == Leaf(key)
    {
      state := Leaf(key);
    }

    /** setFunction(record): the trace becomes a Function holding the record pointer. */
    method SetFunction(record: RecordRef)
      modifies this
      ensures state == Function(record)
    {
      state := Function(record);
    }

    /** record<Record>(): the record when the trace is a Function whose record has the requested type, none otherwise. */
    function Record(arity: nat): (r: Option<RecordRef>)
      reads this
      ensures r.Some? <==> state.Function? && state.record.arity == arity
      ensures r.Some? ==> r.value == state.record
    {
      if !state.Function? then None
      else if state.record.arity == arity then Some(state.record)
      else None
    }

    /**
     * startReverseAD1(jacobians): a Leaf adds the identity into its own block,
     * a Function hands over to its record, a Constant leaves the map alone.
     */
    method StartReverseAD1(jacobians: JacobianMap, startReverseAD2: (RecordRef, map<Key, Matrix>) -> map<Key, Matrix>)
      requires state.Leaf? ==> Accepts(jacobians.blocks, state.key, Identity(dim), true)
      modifies jacobians
      ensures state.Constant? ==> jacobians.blocks == old(jacobians.blocks)
      ensures state.Leaf? ==>
        jacobians.blocks == old(jacobians.blocks)[state.key := AddTopLeft(old(jacobians.blocks)[state.key], Identity(dim))]
      ensures state.Function? ==> jacobians.blocks == startReverseAD2(state.record, old(jacobians.blocks))
    {
      if state.Leaf? {
        HandleLeafCase(Identity(dim), jacobians, state.key, true);
      } else if state.Function? {
        jacobians.blocks := startReverseAD2(state.record, jacobians.blocks);
      }
    }

    /**
     * reverseAD1(dTdA, jacobians): a Leaf adds dTdA into its own block, a
     * Function hands dTdA to its record, a Constant does nothing.
     */
    method ReverseAD1(dTdA: Matrix, fixedSize: bool, jacobians: JacobianMap,
                      reverseAD2: (RecordRef, Matrix, map<Key, Matrix>) -> map<Key, Matrix>)
      requires state.Leaf? ==> Accepts(jacobians.blocks, state.key, dTdA, fixedSize)
      modifies jacobians
      ensures state.Constant? ==> jacobians.blocks == old(jacobians.blocks)
      ensures state.Leaf? ==>
        jacobians.blocks == old(jacobians.blocks)[state.key := AddTopLeft(old(jacobians.blocks)[state.key], dTdA)]
      ensures state.Function? ==> jacobians.blocks == reverseAD2(state.record, dTdA, old(jacobians.blocks))
    {
      if state.Leaf? {
        HandleLeafCase(dTdA, jacobians, state.key, fixedSize);
      } else if state.Function? {
        jacobians.blocks := reverseAD2(state.record, dTdA, jacobians.blocks);
      }
    }
  }

  /**
   * For a leaf, the reverse pass changes only the block of its key, and it
   * changes it by exactly dTdA: the other keys keep their Jacobians.
   */
  lemma LeafReverseADLocal(blocks: map<Key, Matrix>, key: Key, dTdA: Matrix, fixedSize: bool, other: Key)
    requires Accepts(blocks, key, dTdA, fixedSize) && other != key
    ensures other in blocks ==> blocks[key := AddTopLeft(blocks[key], dTdA)][other] == blocks[other]
    ensures blocks[key := AddTopLeft(blocks[key], dTdA)].Keys == blocks.Keys
    ensures !fixedSize ==> AddTopLeft(blocks[key], dTdA) == Plus(blocks[key], dTdA)
  {
    if !fixedSize {
      Extensionality(AddTopLeft(blocks[key], dTdA), Plus(blocks[key], dTdA));
    }
  }
}
