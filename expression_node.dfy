/**
 * ExpressionNode.h: the nodes of an expression tree (constant, leaf, and
 * functions of one, two or three arguments) and their bookkeeping: the keys
 * an expression depends on, the map of key dimensions, its value, the size
 * of the buffer its execution trace needs, and the execution itself, which
 * writes one call record per function node into that buffer.
 *
 * Values of every type are abstracted to one real number, and the
 * dimension of a node's value type is carried as a number. A function's
 * Jacobians are not modelled: a record keeps its arguments' values and
 * traces. Sizes are machine words, so the rounding of upAlign is reduced
 * modulo 2^64 as it is on the machine. The trace alignment (TraceAlignment,
 * from CallRecord.h, which is not part of this model) is a parameter.
 */
module ExpressionNodes {
  import opened Wrappers
  import opened ExecutionTraces

  const WordModulus: nat := 0x1_0000_0000_0000_0000

  /** size_t */
  type Word = x: nat | x < 0x1_0000_0000_0000_0000

  /** An alignment, an unsigned int that must not be zero (the remainder by it would be undefined). */
  type Alignment = a: nat | 0 < a < 0x1_0000_0000 witness 1

  /* ---------------------------------------------------------------- upAlign */

  lemma MulMonotone(a: int, x: int, y: int)
    requires a > 0 && x <= y
    ensures a * x <= a * y
  {
    assert a * y - a * x == a * (y - x);
  }

  lemma MulBetween(a: int, d: int)
    requires a > 0 && 0 <= a * d < a
    ensures d == 0
  {
    if d >= 1 {
      MulMonotone(a, 1, d);
    } else if d <= -1 {
      MulMonotone(a, d, -1);
    }
  }

  lemma MulMod(a: int, k: int)
    requires a > 0
    ensures (a * k) % a == 0
  {
    var q := (a * k) / a;
    var r := (a * k) % a;
    assert a * k == a * q + r && 0 <= r < a;
    assert a * (k - q) == r;
    MulBetween(a, k - q);
  }

  lemma AddMultiples(x: int, y: int, a: int)
    requires a > 0 && x % a == 0 && y % a == 0
    ensures (x + y) % a == 0
  {
    assert x == a * (x / a);
    assert y == a * (y / a);
    assert x + y == a * (x / a + y / a);
    MulMod(a, x / a + y / a);
  }

  /**
   * upAligned(value, alignment): value rounded up to a multiple of the
   * alignment by adding the missing part, in size_t arithmetic.
   */
  function UpAligned(value: Word, alignment: Alignment): (r: Word)
    ensures value % alignment == 0 ==> r == value
    ensures value + alignment <= WordModulus ==> value <= r < value + alignment && r % alignment == 0
  {
    var misAlignment := value % alignment;
    if misAlignment != 0 then
      var sum := value + (alignment - misAlignment);
      assert sum == alignment * (value / alignment + 1);
      MulMod(alignment, value / alignment + 1);
      sum % WordModulus
    else
      value
  }

  /** Without overflow, no multiple of the alignment lies between value and upAligned(value). */
  lemma UpAlignedSmallest(value: Word, alignment: Alignment, m: nat)
    requires value + alignment <= WordModulus
    requires m % alignment == 0 && value <= m
    ensures UpAligned(value, alignment) <= m
  {
    var r := UpAligned(value, alignment);
    if m < r {
      var q := value / alignment;
      var qm := m / alignment;
      assert value == alignment * q + value % alignment;
      assert r == alignment * (q + 1);
      assert m == alignment * qm;
      if qm > q {
        MulMonotone(alignment, q + 1, qm);
      }
      MulMonotone(alignment, qm, q);
    }
  }

  /** Rounding an aligned value again changes nothing. */
  lemma UpAlignedIdempotent(value: Word, alignment: Alignment)
    requires value + alignment <= WordModulus
    ensures UpAligned(UpAligned(value, alignment), alignment) == UpAligned(value, alignment)
  {
  }

  /** Near the top of the word the rounding wraps around to a small number. */
  lemma UpAlignedWraps()
    ensures UpAligned(WordModulus - 1, 16) == 0
  {
  }

  /** upAlign(value, alignment): the size held in a cell rounded up in place. */
  class SizeCell {
    var value: Word

    constructor(value: Word)
      ensures this.value == value
    {
      this.value := value;
    }

    method UpAlign(alignment: Alignment)
      modifies this
      ensures value == UpAligned(old(value), alignment)
    {
      var misAlignment := value % alignment;
      if misAlignment != 0 {
        value := (value + (alignment - misAlignment)) % WordModulus;
      }
    }
  }

  /* ------------------------------------------------------- expression tree */

  /**
   * The node kinds. Every node carries the dimension of its value type; a
   * function node carries its function, the size of its call record
   * (sizeof(Record)) and its one, two or three arguments.
   */
  datatype Expression =
    | ConstantExpression(constant: real, dimension: nat)
    | LeafExpression(key: Key, dimension: nat)
    | FunctionExpression(fn: seq<real> -> real, dimension: nat, recordSize: Word, args: seq<Expression>)

  /** Function nodes are unary, binary or ternary, and a record is a non-empty struct. */
  predicate WellFormed(e: Expression)
  {
    match e
    case FunctionExpression(_, _, size, args) =>
      1 <= |args| <= 3 && 0 < size < 0x1_0000_0000 &&
      forall i :: 0 <= i < |args| ==> WellFormed(args[i])
    case _ => true
  }

  /** keys(): the keys of the leaves, each once. */
  function Keys(e: Expression): set<Key>
    decreases e, 0
  {
    match e
    case ConstantExpression(_, _) => {}
    case LeafExpression(key, _) => {key}
    case FunctionExpression(_, _, _, args) => ArgsKeys(args, 0)
  }

  /** The union of the keys of args[i..]. */
  function ArgsKeys(args: seq<Expression>, i: nat): set<Key>
    requires i <= |args|
    decreases args, |args| - i
  {
    if i == |args| then {} else Keys(args[i]) + ArgsKeys(args, i + 1)
  }

  /** Some leaf of e has the key. */
  predicate HasLeaf(e: Expression, k: Key)
  {
    match e
    case ConstantExpression(_, _) => false
    case LeafExpression(key, _) => key == k
    case FunctionExpression(_, _, _, args) => exists j :: 0 <= j < |args| && HasLeaf(args[j], k)
  }

  /** Some leaf of e has the key and the dimension. */
  predicate HasLeafDim(e: Expression, k: Key, d: nat)
  {
    match e
    case ConstantExpression(_, _) => false
    case LeafExpression(key, dimension) => key == k && dimension == d
    case FunctionExpression(_, _, _, args) => exists j :: 0 <= j < |args| && HasLeafDim(args[j], k, d)
  }

  /** A key is among keys() exactly when some leaf carries it. */
  lemma {:induction false} KeysAreLeaves(e: Expression, k: Key)
    ensures k in Keys(e) <==> HasLeaf(e, k)
    decreases e, 0
  {
    match e
    case ConstantExpression(_, _) =>
    case LeafExpression(_, _) =>
    case FunctionExpression(_, _, _, args) =>
      ArgsKeysAreLeaves(args, 0, k);
  }

  lemma {:induction false} ArgsKeysAreLeaves(args: seq<Expression>, i: nat, k: Key)
    requires i <= |args|
    ensures k in ArgsKeys(args, i) <==> exists j :: i <= j < |args| && HasLeaf(args[j], k)
    decreases args, |args| - i
  {
    if i < |args| {
      KeysAreLeaves(args[i], k);
      ArgsKeysAreLeaves(args, i + 1, k);
      if exists j :: i <= j < |args| && HasLeaf(args[j], k) {
        var j :| i <= j < |args| && HasLeaf(args[j], k);
        assert j == i || (i + 1 <= j < |args| && HasLeaf(args[j], k));
      }
    }
  }

  /* ------------------------------------------------------------------ dims */

  /** dims(map): the leaves write their dimensions into the map, left to right, the last write winning. */
  function DimsInto(e: Expression, m: map<Key, nat>): map<Key, nat>
    decreases e, 0
  {
    match e
    case ConstantExpression(_, _) => m
    case LeafExpression(key, dimension) => m[key := dimension]
    case FunctionExpression(_, _, _, args) => DimsArgs(args, 0, m)
  }

  function DimsArgs(args: seq<Expression>, i: nat, m: map<Key, nat>): map<Key, nat>
    requires i <= |args|
    decreases args, |args| - i
  {
    if i == |args| then m else DimsArgs(args, i + 1, DimsInto(args[i], m))
  }

  /**
   * The merged map has the old keys and the keys of the expression; the
   * other entries are kept, and every key of the expression maps to the
   * dimension of one of its leaves with that key.
   */
  lemma {:induction false} DimsMerge(e: Expression, m: map<Key, nat>)
    ensures DimsInto(e, m).Keys == m.Keys + Keys(e)
    ensures forall k :: k in m && k !in Keys(e) ==> DimsInto(e, m)[k] == m[k]
    ensures forall k :: k in Keys(e) ==> HasLeafDim(e, k, DimsInto(e, m)[k])
    decreases e, 0
  {
    match e
    case ConstantExpression(_, _) =>
    case LeafExpression(_, _) =>
    case FunctionExpression(_, _, _, args) =>
      DimsArgsMerge(args, 0, m);
      forall k | k in Keys(e)
        ensures HasLeafDim(e, k, DimsInto(e, m)[k])
      {
        var j :| 0 <= j < |args| && HasLeafDim(args[j], k, DimsInto(e, m)[k]);
      }
  }

  lemma {:induction false} DimsArgsMerge(args: seq<Expression>, i: nat, m: map<Key, nat>)
    requires i <= |args|
    ensures DimsArgs(args, i, m).Keys == m.Keys + ArgsKeys(args, i)
    ensures forall k :: k in m && k !in ArgsKeys(args, i) ==> DimsArgs(args, i, m)[k] == m[k]
    ensures forall k :: k in ArgsKeys(args, i) ==>
      exists j :: i <= j < |args| && HasLeafDim(args[j], k, DimsArgs(args, i, m)[k])
    decreases args, |args| - i
  {
    if i < |args| {
      var m1 := DimsInto(args[i], m);
      DimsMerge(args[i], m);
      DimsArgsMerge(args, i + 1, m1);
      forall k | k in ArgsKeys(args, i)
        ensures exists j :: i <= j < |args| && HasLeafDim(args[j], k, DimsArgs(args, i, m)[k])
      {
        if k !in ArgsKeys(args, i + 1) {
          assert HasLeafDim(args[i], k, DimsArgs(args, i, m)[k]);
        }
      }
    }
  }

  /** The map dims() fills, held by the caller. */
  class DimensionMap {
    var dims: map<Key, nat>

    constructor()
      ensures dims == map[]
    {
      dims := map[];
    }
  }

  /** dims(map) on a caller's map, updated in place by each leaf in turn. */
  method Dims(e: Expression, dm: DimensionMap)
    modifies dm
    ensures dm.dims == DimsInto(e, old(dm.dims))
    decreases e
  {
    match e
    case ConstantExpression(_, _) =>
    case LeafExpression(key, dimension) =>
      dm.dims := dm.dims[key := dimension];
    case FunctionExpression(_, _, _, args) =>
      DimsArguments(args, 0, dm);
  }

  /** dims(map) of args[i..], one after the other. */
  method DimsArguments(args: seq<Expression>, i: nat, dm: DimensionMap)
    requires i <= |args|
    modifies dm
    ensures dm.dims == DimsArgs(args, i, old(dm.dims))
    decreases args, |args| - i
  {
    if i < |args| {
      Dims(args[i], dm);
      DimsArguments(args, i + 1, dm);
    }
  }

  /* ----------------------------------------------------------------- value */

  /** value(values): None where a leaf's key is missing from the values (values.at throws). */
  function Value(e: Expression, values: map<Key, real>): Option<real>
    decreases e, 0
  {
    match e
    case ConstantExpression(c, _) => Some(c)
    case LeafExpression(key, _) => if key in values then Some(values[key]) else None
    case FunctionExpression(fn, _, _, args) =>
      match ArgValues(args, 0, values)
      case None => None
      case Some(vs) => Some(fn(vs))
  }

  /** The values of args[i..], evaluated in order, or None at the first that fails. */
  function ArgValues(args: seq<Expression>, i: nat, values: map<Key, real>): (r: Option<seq<real>>)
    requires i <= |args|
    ensures r.Some? ==> |r.value| == |args| - i
    decreases args, |args| - i
  {
    if i == |args| then Some([])
    else match Value(args[i], values)
      case None => None
      case Some(v) =>
        match ArgValues(args, i + 1, values)
        case None => None
        case Some(vs) => Some([v] + vs)
  }

  /** value() succeeds exactly when every key of the expression has a value. */
  lemma {:induction false} ValueDefined(e: Expression, values: map<Key, real>)
    ensures Value(e, values).Some? <==> Keys(e) <= values.Keys
    decreases e, 0
  {
    match e
    case ConstantExpression(_, _) =>
    case LeafExpression(_, _) =>
    case FunctionExpression(_, _, _, args) =>
      ArgValuesDefined(args, 0, values);
  }

  lemma {:induction false} ArgValuesDefined(args: seq<Expression>, i: nat, values: map<Key, real>)
    requires i <= |args|
    ensures ArgValues(args, i, values).Some? <==> ArgsKeys(args, i) <= values.Keys
    decreases args, |args| - i
  {
    if i < |args| {
      ValueDefined(args[i], values);
      ArgValuesDefined(args, i + 1, values);
    }
  }

  /** Two value assignments that agree on the keys of e give e the same value; a constant ignores them. */
  predicate AgreeOnKeys(ks: set<Key>, v1: map<Key, real>, v2: map<Key, real>)
  {
    forall k :: k in ks ==> (k in v1 <==> k in v2) && (k in v1 ==> v1[k] == v2[k])
  }

  lemma {:induction false} ValueLocal(e: Expression, v1: map<Key, real>, v2: map<Key, real>)
    requires AgreeOnKeys(Keys(e), v1, v2)
    ensures Value(e, v1) == Value(e, v2)
    decreases e, 0
  {
    match e
    case ConstantExpression(_, _) =>
    case LeafExpression(_, _) =>
    case FunctionExpression(_, _, _, args) =>
      ArgValuesLocal(args, 0, v1, v2);
  }

  lemma {:induction false} ArgValuesLocal(args: seq<Expression>, i: nat, v1: map<Key, real>, v2: map<Key, real>)
    requires i <= |args| && AgreeOnKeys(ArgsKeys(args, i), v1, v2)
    ensures ArgValues(args, i, v1) == ArgValues(args, i, v2)
    decreases args, |args| - i
  {
    if i < |args| {
      ValueLocal(args[i], v1, v2);
      ArgValuesLocal(args, i + 1, v1, v2);
    }
  }

  /* ------------------------------------------------------------ trace size */

  /**
   * traceSize(): nothing for a constant or a leaf; for a function node its
   * own record rounded up to the alignment, and then its arguments' traces.
   */
  function TraceSize(e: Expression, align: Alignment): nat
    decreases e, 0
  {
    match e
    case FunctionExpression(_, _, size, args) => UpAligned(size, align) + ArgsSize(args, 0, align)
    case _ => 0
  }

  /** The trace sizes of args[i..] added up. */
  function ArgsSize(args: seq<Expression>, i: nat, align: Alignment): nat
    requires i <= |args|
    decreases args, |args| - i
  {
    if i == |args| then 0 else TraceSize(args[i], align) + ArgsSize(args, i + 1, align)
  }

  /**
   * Every trace size is a multiple of the alignment, so a pointer advanced
   * by whole trace sizes stays aligned; and a function node needs room for
   * at least its own record.
   */
  lemma {:induction false} TraceSizeAligned(e: Expression, align: Alignment)
    requires WellFormed(e)
    ensures TraceSize(e, align) % align == 0
    ensures e.FunctionExpression? ==> TraceSize(e, align) >= e.recordSize > 0
    decreases e, 0
  {
    match e
    case ConstantExpression(_, _) =>
    case LeafExpression(_, _) =>
    case FunctionExpression(_, _, size, args) =>
      ArgsSizeAligned(args, 0, align);
      AddMultiples(UpAligned(size, align), ArgsSize(args, 0, align), align);
  }

  lemma {:induction false} ArgsSizeAligned(args: seq<Expression>, i: nat, align: Alignment)
    requires i <= |args| && forall j :: i <= j < |args| ==> WellFormed(args[j])
    ensures ArgsSize(args, i, align) % align == 0
    decreases args, |args| - i
  {
    if i < |args| {
      TraceSizeAligned(args[i], align);
      ArgsSizeAligned(args, i + 1, align);
      AddMultiples(TraceSize(args[i], align), ArgsSize(args, i + 1, align), align);
    }
  }

  /* ------------------------------------------------------- traceExecution */

  /**
   * One place of the trace storage: nothing yet, or the call record of a
   * function node with its arguments' values and execution traces.
   */
  datatype Slot = Unwritten | Record(argValues: seq<real>, traces: seq<TraceState>)

  /** What traceExecution leaves behind: the value, the caller's trace, the storage. */
  datatype Traced = Traced(value: real, state: TraceState, mem: seq<Slot>)

  /** The same for the arguments args[i..]: their values, their traces, the storage. */
  datatype TracedArgs = TracedArgs(values: seq<real>, states: seq<TraceState>, mem: seq<Slot>)

  /**
   * traceExecution(values, trace, ptr) on storage mem: a constant leaves the
   * trace as it is, a leaf marks it Leaf(key), a function node traces its
   * arguments after its own record, writes the record at ptr and marks the
   * trace Function. None stands for the exception values.at throws.
   *
   * With corrected false the arguments are traced as ExpressionNode.h does
   * it, every argument at the same pointer; with corrected true each
   * argument starts where the previous one's trace ends.
   */
  function Trace(e: Expression, values: map<Key, real>, ptr: nat, mem: seq<Slot>, align: Alignment,
                 corrected: bool, trace: TraceState): (r: Option<Traced>)
    requires WellFormed(e) && ptr % align == 0 && ptr + TraceSize(e, align) <= |mem|
    ensures r.Some? ==> |r.value.mem| == |mem|
    ensures r.Some? && e.ConstantExpression? ==> r.value.state == trace
    ensures r.Some? && e.LeafExpression? ==> r.value.state == Leaf(e.key)
    ensures r.Some? && e.FunctionExpression? ==> r.value.state == Function(RecordRef(ptr, |e.args|))
    decreases e, 0
  {
    match e
    case ConstantExpression(c, _) => Some(Traced(c, trace, mem))
    case LeafExpression(key, _) => if key in values then Some(Traced(values[key], Leaf(key), mem)) else None
    case FunctionExpression(fn, _, size, args) =>
      TraceSizeAligned(e, align);
      var base := ptr + UpAligned(size, align);
      AddMultiples(ptr, UpAligned(size, align), align);
      match TraceArgs(args, 0, values, base, mem, align, corrected)
      case None => None
      case Some(t) => Some(Traced(fn(t.values), Function(RecordRef(ptr, |args|)), t.mem[ptr := Record(t.values, t.states)]))
  }

  /** The arguments args[i..] traced in order from pointer p, each with a fresh (Constant) trace. */
  function TraceArgs(args: seq<Expression>, i: nat, values: map<Key, real>, p: nat, mem: seq<Slot>,
                     align: Alignment, corrected: bool): (r: Option<TracedArgs>)
    requires i <= |args| && forall j :: i <= j < |args| ==> WellFormed(args[j])
    requires p % align == 0 && p + ArgsSize(args, i, align) <= |mem|
    ensures r.Some? ==> |r.value.mem| == |mem| && |r.value.values| == |args| - i && |r.value.states| == |args| - i
    decreases args, |args| - i
  {
    if i == |args| then Some(TracedArgs([], [], mem))
    else match Trace(args[i], values, p, mem, align, corrected, Constant)
      case None => None
      case Some(t) =>
        TraceSizeAligned(args[i], align);
        var next := if corrected then p + TraceSize(args[i], align) else p;
        AddMultiples(p, TraceSize(args[i], align), align);
        match TraceArgs(args, i + 1, values, next, t.mem, align, corrected)
        case None => None
        case Some(rest) => Some(TracedArgs([t.value] + rest.values, [t.state] + rest.states, rest.mem))
  }

  /** traceExecution returns what value() returns, and throws where it throws, whichever way the pointer moves. */
  lemma {:induction false} TraceValue(e: Expression, values: map<Key, real>, ptr: nat, mem: seq<Slot>, align: Alignment,
                                      corrected: bool, trace: TraceState)
    requires WellFormed(e) && ptr % align == 0 && ptr + TraceSize(e, align) <= |mem|
    ensures Trace(e, values, ptr, mem, align, corrected, trace).Some? <==> Value(e, values).Some?
    ensures Trace(e, values, ptr, mem, align, corrected, trace).Some? ==>
      Trace(e, values, ptr, mem, align, corrected, trace).value.value == Value(e, values).value
    decreases e, 0
  {
    match e
    case ConstantExpression(_, _) =>
    case LeafExpression(_, _) =>
    case FunctionExpression(_, _, size, args) =>
      TraceSizeAligned(e, align);
      AddMultiples(ptr, UpAligned(size, align), align);
      TraceArgsValues(args, 0, values, ptr + UpAligned(size, align), mem, align, corrected);
  }

  lemma {:induction false} TraceArgsValues(args: seq<Expression>, i: nat, values: map<Key, real>, p: nat, mem: seq<Slot>,
                                           align: Alignment, corrected: bool)
    requires i <= |args| && forall j :: i <= j < |args| ==> WellFormed(args[j])
    requires p % align == 0 && p + ArgsSize(args, i, align) <= |mem|
    ensures TraceArgs(args, i, values, p, mem, align, corrected).Some? <==> ArgValues(args, i, values).Some?
    ensures TraceArgs(args, i, values, p, mem, align, corrected).Some? ==>
      TraceArgs(args, i, values, p, mem, align, corrected).value.values == ArgValues(args, i, values).value
    decreases args, |args| - i
  {
    if i < |args| {
      TraceValue(args[i], values, p, mem, align, corrected, Constant);
      var t := Trace(args[i], values, p, mem, align, corrected, Constant);
      if t.Some? {
        TraceSizeAligned(args[i], align);
        AddMultiples(p, TraceSize(args[i], align), align);
        var next := if corrected then p + TraceSize(args[i], align) else p;
        TraceArgsValues(args, i + 1, values, next, t.value.mem, align, corrected);
      }
    }
  }

  /** m1 and m2 have one length and differ at most in [lo, hi). */
  predicate AgreeOutside(m1: seq<Slot>, m2: seq<Slot>, lo: nat, hi: nat)
  {
    |m1| == |m2| && forall j :: 0 <= j < |m1| && (j < lo || hi <= j) ==> m1[j] == m2[j]
  }

  /** m1 and m2 have one length and are equal in [lo, hi). */
  predicate AgreeOn(m1: seq<Slot>, m2: seq<Slot>, lo: nat, hi: nat)
  {
    |m1| == |m2| && forall j :: lo <= j < hi && j < |m1| ==> m1[j] == m2[j]
  }

  /** traceExecution writes only inside [ptr, ptr + traceSize()), whichever way the pointer moves. */
  lemma {:induction false} TraceFrame(e: Expression, values: map<Key, real>, ptr: nat, mem: seq<Slot>, align: Alignment,
                                      corrected: bool, trace: TraceState)
    requires WellFormed(e) && ptr % align == 0 && ptr + TraceSize(e, align) <= |mem|
    ensures Trace(e, values, ptr, mem, align, corrected, trace).Some? ==>
      AgreeOutside(mem, Trace(e, values, ptr, mem, align, corrected, trace).value.mem, ptr, ptr + TraceSize(e, align))
    decreases e, 0
  {
    match e
    case ConstantExpression(_, _) =>
    case LeafExpression(_, _) =>
    case FunctionExpression(_, _, size, args) =>
      TraceSizeAligned(e, align);
      AddMultiples(ptr, UpAligned(size, align), align);
      TraceArgsFrame(args, 0, values, ptr + UpAligned(size, align), mem, align, corrected);
  }

  lemma {:induction false} TraceArgsFrame(args: seq<Expression>, i: nat, values: map<Key, real>, p: nat, mem: seq<Slot>,
                                          align: Alignment, corrected: bool)
    requires i <= |args| && forall j :: i <= j < |args| ==> WellFormed(args[j])
    requires p % align == 0 && p + ArgsSize(args, i, align) <= |mem|
    ensures TraceArgs(args, i, values, p, mem, align, corrected).Some? ==>
      AgreeOutside(mem, TraceArgs(args, i, values, p, mem, align, corrected).value.mem, p, p + ArgsSize(args, i, align))
    decreases args, |args| - i
  {
    if i < |args| {
      var t := Trace(args[i], values, p, mem, align, corrected, Constant);
      if t.Some? {
        TraceFrame(args[i], values, p, mem, align, corrected, Constant);
        TraceSizeAligned(args[i], align);
        AddMultiples(p, TraceSize(args[i], align), align);
        var next := if corrected then p + TraceSize(args[i], align) else p;
        TraceArgsFrame(args, i + 1, values, next, t.value.mem, align, corrected);
      }
    }
  }

  /* ------------------------------------------------ reading a trace back */

  /** The tree reverse AD walks: from a trace, through the records it points to. */
  datatype TraceTree = ConstantTrace | LeafTrace(key: Key) | FunctionTrace(children: seq<TraceTree>) | Dangling

  /**
   * The tree reached from a trace in the storage, following each Function
   * trace to its record and that record's traces in turn, fuel levels deep.
   */
  function Readback(s: TraceState, mem: seq<Slot>, fuel: nat): TraceTree
    decreases fuel, 0
  {
    match s
    case Constant => ConstantTrace
    case Leaf(key) => LeafTrace(key)
    case Function(r) =>
      if fuel == 0 || r.address >= |mem| || !mem[r.address].Record? || |mem[r.address].traces| != r.arity then Dangling
      else FunctionTrace(ReadbackAll(mem[r.address].traces, mem, fuel - 1))
  }

  /** The trees reached from each of the traces ss. */
  function ReadbackAll(ss: seq<TraceState>, mem: seq<Slot>, fuel: nat): seq<TraceTree>
    decreases fuel, 1, |ss|
  {
    if ss == [] then [] else [Readback(ss[0], mem, fuel)] + ReadbackAll(ss[1..], mem, fuel)
  }

  /** The tree reverse AD should walk for e: its own shape. */
  function Shape(e: Expression): TraceTree
    decreases e, 0
  {
    match e
    case ConstantExpression(_, _) => ConstantTrace
    case LeafExpression(key, _) => LeafTrace(key)
    case FunctionExpression(_, _, _, args) => FunctionTrace(ShapeArgs(args, 0))
  }

  function ShapeArgs(args: seq<Expression>, i: nat): seq<TraceTree>
    requires i <= |args|
    decreases args, |args| - i
  {
    if i == |args| then [] else [Shape(args[i])] + ShapeArgs(args, i + 1)
  }

  /** The number of function nodes on the longest path from e down to a leaf. */
  function Depth(e: Expression): (d: nat)
    ensures e.FunctionExpression? ==> forall j :: 0 <= j < |e.args| ==> Depth(e.args[j]) < d
    decreases e, 0
  {
    match e
    case FunctionExpression(_, _, _, args) => 1 + ArgsDepth(args, 0)
    case _ => 0
  }

  function ArgsDepth(args: seq<Expression>, i: nat): (d: nat)
    requires i <= |args|
    ensures forall j :: i <= j < |args| ==> Depth(args[j]) <= d
    decreases args, |args| - i
  {
    if i == |args| then 0
    else var d1 := Depth(args[i]); var d2 := ArgsDepth(args, i + 1); if d1 < d2 then d2 else d1
  }

  /** A function node: its record goes at ptr, its arguments are traced from the aligned end of the record on. */
  lemma TraceFunctionUnfold(e: Expression, values: map<Key, real>, ptr: nat, mem: seq<Slot>, align: Alignment,
                            corrected: bool, trace: TraceState)
    requires WellFormed(e) && e.FunctionExpression? && ptr % align == 0 && ptr + TraceSize(e, align) <= |mem|
    ensures
      var base := ptr + UpAligned(e.recordSize, align);
      ptr < base && base % align == 0 && base + ArgsSize(e.args, 0, align) == ptr + TraceSize(e, align) &&
      (Trace(e, values, ptr, mem, align, corrected, trace).Some? <==> TraceArgs(e.args, 0, values, base, mem, align, corrected).Some?) &&
      (Trace(e, values, ptr, mem, align, corrected, trace).Some? ==>
        var t := TraceArgs(e.args, 0, values, base, mem, align, corrected).value;
        Trace(e, values, ptr, mem, align, corrected, trace).value ==
          Traced(e.fn(t.values), Function(RecordRef(ptr, |e.args|)), t.mem[ptr := Record(t.values, t.states)]))
  {
    TraceSizeAligned(e, align);
    AddMultiples(ptr, UpAligned(e.recordSize, align), align);
  }

  /** One step of tracing the arguments: the first is traced at p, the rest after it (or at p again, as written). */
  lemma TraceArgsCons(args: seq<Expression>, i: nat, values: map<Key, real>, p: nat, mem: seq<Slot>,
                      align: Alignment, corrected: bool)
    requires i < |args| && forall j :: i <= j < |args| ==> WellFormed(args[j])
    requires p % align == 0 && p + ArgsSize(args, i, align) <= |mem|
    requires TraceArgs(args, i, values, p, mem, align, corrected).Some?
    ensures Trace(args[i], values, p, mem, align, corrected, Constant).Some?
    ensures
      var t := Trace(args[i], values, p, mem, align, corrected, Constant).value;
      var next := if corrected then p + TraceSize(args[i], align) else p;
      next % align == 0 && next + ArgsSize(args, i + 1, align) <= |t.mem| &&
      TraceArgs(args, i + 1, values, next, t.mem, align, corrected).Some? &&
      TraceArgs(args, i, values, p, mem, align, corrected).value.states ==
        [t.state] + TraceArgs(args, i + 1, values, next, t.mem, align, corrected).value.states &&
      TraceArgs(args, i, values, p, mem, align, corrected).value.mem ==
        TraceArgs(args, i + 1, values, next, t.mem, align, corrected).value.mem
  {
    TraceSizeAligned(args[i], align);
    AddMultiples(p, TraceSize(args[i], align), align);
  }

  /** Storage that agrees with m[at := x] on [lo, hi) holds x at at, and agrees with m on the part of the range after at. */
  lemma AgreeOnUpdate(m: seq<Slot>, at: nat, x: Slot, m2: seq<Slot>, lo: nat, from: nat, hi: nat)
    requires lo <= at < from && at < hi && at < |m| && AgreeOn(m[at := x], m2, lo, hi)
    ensures at < |m2| && m2[at] == x && AgreeOn(m, m2, from, hi)
  {
    assert m[at := x][at] == x;
    forall j | from <= j < hi && j < |m|
      ensures m[j] == m2[j]
    {
      assert m[at := x][j] == m[j];
    }
  }

  /** Storage that agrees with m on [lo, hi) and that m agrees with outside [mid, hi) agrees with the other on [lo, mid). */
  lemma AgreeOnBefore(m: seq<Slot>, final: seq<Slot>, m2: seq<Slot>, lo: nat, mid: nat, hi: nat)
    requires lo <= mid <= hi && AgreeOutside(m, final, mid, hi) && AgreeOn(final, m2, lo, hi)
    ensures AgreeOn(m, m2, lo, mid)
  {
  }

  /**
   * With each argument traced after the previous one, the trace of e reads
   * back as the shape of e, in any storage that agrees with the one written
   * on [ptr, ptr + traceSize()): the records of different nodes never
   * overwrite each other.
   */
  lemma {:induction false} TraceReadsBack(e: Expression, values: map<Key, real>, ptr: nat, mem: seq<Slot>, align: Alignment,
                                          mem2: seq<Slot>, fuel: nat)
    requires WellFormed(e) && ptr % align == 0 && ptr + TraceSize(e, align) <= |mem|
    requires Trace(e, values, ptr, mem, align, true, Constant).Some?
    requires AgreeOn(Trace(e, values, ptr, mem, align, true, Constant).value.mem, mem2, ptr, ptr + TraceSize(e, align))
    requires fuel >= Depth(e)
    ensures Readback(Trace(e, values, ptr, mem, align, true, Constant).value.state, mem2, fuel) == Shape(e)
    decreases e, 0
  {
    if e.FunctionExpression? {
      TraceFunctionUnfold(e, values, ptr, mem, align, true, Constant);
      var base := ptr + UpAligned(e.recordSize, align);
      var t := TraceArgs(e.args, 0, values, base, mem, align, true).value;
      AgreeOnUpdate(t.mem, ptr, Record(t.values, t.states), mem2, ptr, base, ptr + TraceSize(e, align));
      TraceArgsReadBack(e.args, 0, values, base, mem, align, mem2, fuel - 1);
    }
  }

  lemma {:induction false} TraceArgsReadBack(args: seq<Expression>, i: nat, values: map<Key, real>, p: nat, mem: seq<Slot>,
                                             align: Alignment, mem2: seq<Slot>, fuel: nat)
    requires i <= |args| && forall j :: i <= j < |args| ==> WellFormed(args[j])
    requires p % align == 0 && p + ArgsSize(args, i, align) <= |mem|
    requires TraceArgs(args, i, values, p, mem, align, true).Some?
    requires AgreeOn(TraceArgs(args, i, values, p, mem, align, true).value.mem, mem2, p, p + ArgsSize(args, i, align))
    requires forall j :: i <= j < |args| ==> fuel >= Depth(args[j])
    ensures ReadbackAll(TraceArgs(args, i, values, p, mem, align, true).value.states, mem2, fuel) == ShapeArgs(args, i)
    decreases args, |args| - i
  {
    if i < |args| {
      var whole := TraceArgs(args, i, values, p, mem, align, true).value;
      TraceArgsCons(args, i, values, p, mem, align, true);
      var t := Trace(args[i], values, p, mem, align, true, Constant).value;
      var next := p + TraceSize(args[i], align);
      var rest := TraceArgs(args, i + 1, values, next, t.mem, align, true).value;
      assert whole.states == [t.state] + rest.states && whole.mem == rest.mem;
      TraceArgsFrame(args, i + 1, values, next, t.mem, align, true);
      AgreeOnBefore(t.mem, rest.mem, mem2, p, next, p + ArgsSize(args, i, align));
      TraceReadsBack(args[i], values, p, mem, align, mem2, fuel);
      TraceArgsReadBack(args, i + 1, values, next, t.mem, align, mem2, fuel);
      assert whole.states[1..] == rest.states;
    }
  }

  /** A unary node over a leaf, with a one-byte record. */
  function UnaryOfLeaf(fn: seq<real> -> real, k: Key): Expression
  {
    FunctionExpression(fn, 1, 1, [LeafExpression(k, 1)])
  }

  /** A binary node over two unary nodes over two leaves. */
  function BinaryOfUnaries(fn: seq<real> -> real, k1: Key, k2: Key): Expression
  {
    FunctionExpression(fn, 1, 1, [UnaryOfLeaf(fn, k1), UnaryOfLeaf(fn, k2)])
  }

  /** With alignment 1, a unary node over a leaf needs one place, the binary node three. */
  lemma BinaryOfUnariesSize(fn: seq<real> -> real, k1: Key, k2: Key)
    ensures WellFormed(BinaryOfUnaries(fn, k1, k2))
    ensures TraceSize(UnaryOfLeaf(fn, k1), 1) == 1 && TraceSize(UnaryOfLeaf(fn, k2), 1) == 1
    ensures TraceSize(BinaryOfUnaries(fn, k1, k2), 1) == 3
  {
    var l1 := LeafExpression(k1, 1);
    var l2 := LeafExpression(k2, 1);
    var u1 := UnaryOfLeaf(fn, k1);
    var u2 := UnaryOfLeaf(fn, k2);
    assert UpAligned(1, 1) == 1;
    assert ArgsSize([l1], 0, 1) == 0 by { assert ArgsSize([l1], 1, 1) == 0; }
    assert ArgsSize([l2], 0, 1) == 0 by { assert ArgsSize([l2], 1, 1) == 0; }
    assert ArgsSize([u1, u2], 0, 1) == 2 by { assert ArgsSize([u1, u2], 1, 1) == 1; }
  }

  /** Tracing a unary node over a leaf at place 1 writes its record there. */
  lemma UnaryOfLeafTrace(fn: seq<real> -> real, k: Key, values: map<Key, real>, mem: seq<Slot>, corrected: bool)
    requires k in values && |mem| == 3
    ensures TraceSize(UnaryOfLeaf(fn, k), 1) == 1
    ensures Trace(UnaryOfLeaf(fn, k), values, 1, mem, 1, corrected, Constant) ==
      Some(Traced(fn([values[k]]), Function(RecordRef(1, 1)), mem[1 := Record([values[k]], [Leaf(k)])]))
  {
    var l := LeafExpression(k, 1);
    BinaryOfUnariesSize(fn, k, k);
    assert Trace(l, values, 2, mem, 1, corrected, Constant) == Some(Traced(values[k], Leaf(k), mem));
    assert TraceArgs([l], 1, values, 2, mem, 1, corrected) == Some(TracedArgs([], [], mem));
    assert [values[k]] + [] == [values[k]] && [Leaf(k)] + [] == [Leaf(k)];
    assert TraceArgs([l], 0, values, 2, mem, 1, corrected) == Some(TracedArgs([values[k]], [Leaf(k)], mem));
  }

  /** The shape of the binary node names both leaves. */
  lemma BinaryOfUnariesShape(fn: seq<real> -> real, k1: Key, k2: Key)
    ensures Shape(BinaryOfUnaries(fn, k1, k2)).FunctionTrace?
    ensures |Shape(BinaryOfUnaries(fn, k1, k2)).children| >= 1
    ensures Shape(BinaryOfUnaries(fn, k1, k2)).children[0] == FunctionTrace([LeafTrace(k1)])
  {
    var l1 := LeafExpression(k1, 1);
    var u1 := UnaryOfLeaf(fn, k1);
    var u2 := UnaryOfLeaf(fn, k2);
    assert ShapeArgs([l1], 1) == [];
    assert ShapeArgs([l1], 0) == [LeafTrace(k1)] + [];
    assert Shape(BinaryOfUnaries(fn, k1, k2)) == FunctionTrace([Shape(u1)] + ShapeArgs([u1, u2], 1));
  }

  /** A root record at 0 whose two traces both lead to the record at 1 reads back as that record twice. */
  lemma SharedRecordReadback(m: seq<Slot>, vs: seq<real>, v: real, k: Key)
    requires |m| == 3 && m[0] == Record(vs, [Function(RecordRef(1, 1)), Function(RecordRef(1, 1))])
    requires m[1] == Record([v], [Leaf(k)])
    ensures Readback(Function(RecordRef(0, 2)), m, 2) == FunctionTrace([FunctionTrace([LeafTrace(k)]), FunctionTrace([LeafTrace(k)])])
  {
    var f := Function(RecordRef(1, 1));
    assert ReadbackAll([Leaf(k)], m, 0) == [LeafTrace(k)] by {
      assert [Leaf(k)][1..] == [];
    }
    assert Readback(f, m, 1) == FunctionTrace([LeafTrace(k)]);
    assert ReadbackAll([f], m, 1) == [FunctionTrace([LeafTrace(k)])] by {
      assert [f][1..] == [];
    }
    assert [f, f][1..] == [f];
  }

  /**
   * As ExpressionNode.h traces a binary node, both arguments write their
   * records at the same place: the first argument's record is overwritten
   * by the second's, and both traces of the root record lead to it, so
   * reverse AD reaches k2 twice and k1 never.
   */
  lemma AsWrittenLosesFirstRecord(fn: seq<real> -> real, k1: Key, k2: Key, x1: real, x2: real)
    requires k1 != k2
    ensures WellFormed(BinaryOfUnaries(fn, k1, k2)) && TraceSize(BinaryOfUnaries(fn, k1, k2), 1) == 3
    ensures Trace(BinaryOfUnaries(fn, k1, k2), map[k1 := x1, k2 := x2], 0, seq(3, _ => Unwritten), 1, false, Constant).Some?
    ensures
      var t := Trace(BinaryOfUnaries(fn, k1, k2), map[k1 := x1, k2 := x2], 0, seq(3, _ => Unwritten), 1, false, Constant).value;
      Readback(t.state, t.mem, 2) == FunctionTrace([FunctionTrace([LeafTrace(k2)]), FunctionTrace([LeafTrace(k2)])]) &&
      Readback(t.state, t.mem, 2) != Shape(BinaryOfUnaries(fn, k1, k2))
  {
    var e := BinaryOfUnaries(fn, k1, k2);
    var values := map[k1 := x1, k2 := x2];
    var mem: seq<Slot> := seq(3, _ => Unwritten);
    var u1 := UnaryOfLeaf(fn, k1);
    var u2 := UnaryOfLeaf(fn, k2);
    BinaryOfUnariesSize(fn, k1, k2);
    BinaryOfUnariesShape(fn, k1, k2);
    UnaryOfLeafTrace(fn, k1, values, mem, false);
    var m1 := mem[1 := Record([x1], [Leaf(k1)])];
    UnaryOfLeafTrace(fn, k2, values, m1, false);
    var m2 := m1[1 := Record([x2], [Leaf(k2)])];
    var f := Function(RecordRef(1, 1));
    assert TraceArgs([u1, u2], 2, values, 1, m2, 1, false) == Some(TracedArgs([], [], m2));
    assert [fn([x2])] + [] == [fn([x2])] && [f] + [] == [f];
    assert TraceArgs([u1, u2], 1, values, 1, m1, 1, false) == Some(TracedArgs([fn([x2])], [f], m2));
    assert [fn([x1])] + [fn([x2])] == [fn([x1]), fn([x2])] && [f] + [f] == [f, f];
    assert TraceArgs([u1, u2], 0, values, 1, mem, 1, false) == Some(TracedArgs([fn([x1]), fn([x2])], [f, f], m2));
    var m3 := m2[0 := Record([fn([x1]), fn([x2])], [f, f])];
    assert Trace(e, values, 0, mem, 1, false, Constant).value.mem == m3;
    SharedRecordReadback(m3, [fn([x1]), fn([x2])], x2, k2);
  }

  /* ------------------------------------------- traceExecution, in place */

  /** The outcome of tracing some arguments, with the values and traces of earlier arguments put in front. */
  function Prepend(vs: seq<real>, ss: seq<TraceState>, r: Option<TracedArgs>): Option<TracedArgs>
  {
    match r
    case None => None
    case Some(t) => Some(TracedArgs(vs + t.values, ss + t.states, t.mem))
  }

  /** Tracing args[i..] is tracing args[i], then the rest from where it ends; it fails where args[i] fails. */
  lemma TraceArgsStep(args: seq<Expression>, i: nat, values: map<Key, real>, p: nat, mem: seq<Slot>, align: Alignment)
    requires i < |args| && forall j :: i <= j < |args| ==> WellFormed(args[j])
    requires p % align == 0 && p + ArgsSize(args, i, align) <= |mem|
    ensures Trace(args[i], values, p, mem, align, true, Constant).None? ==> TraceArgs(args, i, values, p, mem, align, true).None?
    ensures Trace(args[i], values, p, mem, align, true, Constant).Some? ==>
      var t := Trace(args[i], values, p, mem, align, true, Constant).value;
      var next := p + TraceSize(args[i], align);
      next % align == 0 && next + ArgsSize(args, i + 1, align) <= |t.mem| &&
      TraceArgs(args, i, values, p, mem, align, true) ==
        Prepend([t.value], [t.state], TraceArgs(args, i + 1, values, next, t.mem, align, true))
  {
    TraceSizeAligned(args[i], align);
    AddMultiples(p, TraceSize(args[i], align), align);
  }

  /**
   * traceExecution(values, trace, ptr) on a storage buffer: the records go
   * into the buffer in place and the caller's trace is set; the result is
   * None where values.at throws. Each argument is traced where the previous
   * one's trace ends.
   */
  method TraceExecution(e: Expression, values: map<Key, real>, trace: ExecutionTrace, storage: array<Slot>,
                        ptr: nat, align: Alignment) returns (r: Option<real>)
    requires WellFormed(e) && ptr % align == 0 && ptr + TraceSize(e, align) <= storage.Length
    modifies trace, storage
    ensures var t := Trace(e, values, ptr, old(storage[..]), align, true, old(trace.state));
      (r.Some? <==> t.Some?) &&
      (t.Some? ==> r.value == t.value.value && trace.state == t.value.state && storage[..] == t.value.mem)
    decreases e, 0
  {
    match e
    case ConstantExpression(c, _) =>
      return Some(c);
    case LeafExpression(key, _) =>
      trace.SetLeaf(key);
      if key !in values {
        return None;
      }
      return Some(values[key]);
    case FunctionExpression(fn, _, size, args) =>
      TraceFunctionUnfold(e, values, ptr, storage[..], align, true, trace.state);
      var base := ptr + UpAligned(size, align);
      var argValues, states, ok := TraceArguments(args, 0, values, storage, base, align);
      if !ok {
        return None;
      }
      // the record's fields are complete once its arguments are traced; they write only past it
      storage[ptr] := Record(argValues, states);
      trace.SetFunction(RecordRef(ptr, |args|));
      return Some(fn(argValues));
  }

  /** The arguments args[i..] traced one after the other from p, each into a fresh trace. */
  method TraceArguments(args: seq<Expression>, i: nat, values: map<Key, real>, storage: array<Slot>, p: nat, align: Alignment)
    returns (argValues: seq<real>, states: seq<TraceState>, ok: bool)
    requires i <= |args| && forall j :: i <= j < |args| ==> WellFormed(args[j])
    requires p % align == 0 && p + ArgsSize(args, i, align) <= storage.Length
    modifies storage
    ensures var t := TraceArgs(args, i, values, p, old(storage[..]), align, true);
      (ok <==> t.Some?) &&
      (ok ==> argValues == t.value.values && states == t.value.states && storage[..] == t.value.mem)
    decreases args, |args| - i
  {
    if i == |args| {
      return [], [], true;
    }
    TraceArgsStep(args, i, values, p, storage[..], align);
    var child := new ExecutionTrace(args[i].dimension);
    var v := TraceExecution(args[i], values, child, storage, p, align);
    if v.None? {
      return [], [], false;
    }
    var restValues, restStates;
    restValues, restStates, ok := TraceArguments(args, i + 1, values, storage, p + TraceSize(args[i], align), align);
    if !ok {
      return [], [], false;
    }
    return [v.value] + restValues, [child.state] + restStates, true;
  }
}
