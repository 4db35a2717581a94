/**
 * The linear factor of LinearFactor.h: a map from variable names to their
 * matrices A, a right-hand side b and one standard deviation per row.  The
 * map has std::map insert semantics: inserting under a name that already
 * has a matrix keeps the old one.
 */
module LinearFactors {
  import opened Wrappers
  import opened Vectors
  import opened Matrices

  /** The message get_A puts in front of an unknown key. */
  const InvalidKeyMessage: string := "LinearFactor::[] invalid key: "

  /** std::map::insert: the pair goes in only when the key is not there yet. */
  function MapInsert(m: map<string, Matrix>, key: string, A: Matrix): (m': map<string, Matrix>)
    ensures m'.Keys == m.Keys + {key}
    ensures forall k :: k in m ==> m'[k] == m[k]
    ensures key !in m ==> m'[key] == A
  {
    if key in m then m else m[key := A]
  }

  /** Inserting the terms one after the other, as the n-ary constructors do. */
  function InsertAll(m: map<string, Matrix>, terms: seq<(string, Matrix)>): (m': map<string, Matrix>)
    decreases |terms|
  {
    if |terms| == 0 then m else InsertAll(MapInsert(m, terms[0].0, terms[0].1), terms[1..])
  }

  /** The index of the first term with the key. */
  function FirstTerm(terms: seq<(string, Matrix)>, key: string): (i: nat)
    requires exists i :: 0 <= i < |terms| && terms[i].0 == key
    ensures i < |terms| && terms[i].0 == key
    ensures forall j :: 0 <= j < i ==> terms[j].0 != key
  {
    if terms[0].0 == key then 0
    else
      assert exists i :: 0 <= i < |terms[1..]| && terms[1..][i].0 == key by {
        var i :| 0 <= i < |terms| && terms[i].0 == key;
        assert terms[1..][i - 1].0 == key;
      }
      1 + FirstTerm(terms[1..], key)
  }

  /**
   * Starting from a map, the terms add one block for every new name; a name
   * already in the map keeps its block, and a new name gets the matrix of its
   * first term.
   */
  lemma {:induction false} InsertAllBlocks(m: map<string, Matrix>, terms: seq<(string, Matrix)>)
    ensures InsertAll(m, terms).Keys == m.Keys + set i | 0 <= i < |terms| :: terms[i].0
    ensures forall k :: k in m ==> InsertAll(m, terms)[k] == m[k]
    ensures forall k :: k !in m && (exists i :: 0 <= i < |terms| && terms[i].0 == k) ==>
      InsertAll(m, terms)[k] == terms[FirstTerm(terms, k)].1
    decreases |terms|
  {
    if |terms| > 0 {
      var m' := MapInsert(m, terms[0].0, terms[0].1);
      var rest := terms[1..];
      InsertAllBlocks(m', rest);
      var names, restNames := set i | 0 <= i < |terms| :: terms[i].0, set i | 0 <= i < |rest| :: rest[i].0;
      assert names == {terms[0].0} + restNames by {
        forall k | k in names
          ensures k in {terms[0].0} + restNames
        {
          var i :| 0 <= i < |terms| && terms[i].0 == k;
          if i > 0 {
            assert rest[i - 1].0 == k;
          }
        }
      }
      forall k | k !in m && (exists i :: 0 <= i < |terms| && terms[i].0 == k)
        ensures InsertAll(m, terms)[k] == terms[FirstTerm(terms, k)].1
      {
        if k != terms[0].0 {
          var i :| 0 <= i < |terms| && terms[i].0 == k;
          assert rest[i - 1].0 == k;
          assert FirstTerm(terms, k) == 1 + FirstTerm(rest, k);
        }
      }
    }
  }

  /** The class LinearFactor. */
  class LinearFactor {
    var As: map<string, Matrix>
    var b: Vector
    var sigmas: Vector

    /** The default constructor: no blocks, an empty b and no sigmas. */
    constructor()
      ensures As == map[] && b == [] && sigmas == []
    {
      As := map[];
      b := [];
      sigmas := [];
    }

    /** The null factor: no blocks, b as given and unit sigmas. */
    constructor FromB(b: Vector)
      ensures As == map[] && this.b == b && sigmas == Repeat(|b|, 1.0)
    {
      As := map[];
      this.b := b;
      sigmas := Repeat(|b|, 1.0);
    }

    /** The unary factor: one block, and sigma repeated for every row of b. */
    constructor Unary(key1: string, A1: Matrix, b: Vector, sigma: real)
      ensures As == map[key1 := A1] && this.b == b && sigmas == Repeat(|b|, sigma)
    {
      As := map[];
      this.b := b;
      sigmas := Repeat(|b|, sigma);
      new;
      As := MapInsert(As, key1, A1);
    }

    /** The binary factor: two insertions, so a repeated key keeps the first matrix. */
    constructor Binary(key1: string, A1: Matrix, key2: string, A2: Matrix, b: Vector, sigma: real)
      ensures As == InsertAll(map[], [(key1, A1), (key2, A2)]) && this.b == b && sigmas == Repeat(|b|, sigma)
    {
      As := map[];
      this.b := b;
      sigmas := Repeat(|b|, sigma);
      new;
      As := MapInsert(As, key1, A1);
      As := MapInsert(As, key2, A2);
      ghost var terms := [(key1, A1), (key2, A2)];
      ghost var m1 := MapInsert(map[], key1, A1);
      assert terms[1..][1..] == [];
      assert InsertAll(MapInsert(m1, key2, A2), terms[1..][1..]) == As;
      assert InsertAll(m1, terms[1..]) == As;
      assert InsertAll(map[], terms) == As;
    }

    /** The ternary factor: three insertions in argument order. */
    constructor Ternary(key1: string, A1: Matrix, key2: string, A2: Matrix, key3: string, A3: Matrix,
                        b: Vector, sigma: real)
      ensures As == InsertAll(map[], [(key1, A1), (key2, A2), (key3, A3)]) && this.b == b && sigmas == Repeat(|b|, sigma)
    {
      As := map[];
      this.b := b;
      sigmas := Repeat(|b|, sigma);
      new;
      As := MapInsert(As, key1, A1);
      As := MapInsert(As, key2, A2);
      As := MapInsert(As, key3, A3);
      ghost var terms := [(key1, A1), (key2, A2), (key3, A3)];
      ghost var m1 := MapInsert(map[], key1, A1);
      ghost var m2 := MapInsert(m1, key2, A2);
      assert terms[1..][1..][1..] == [];
      assert InsertAll(m2, terms[1..][1..]) == As;
      assert InsertAll(m1, terms[1..]) == As;
      assert InsertAll(map[], terms) == As;
    }

    /** The n-ary factor with one sigma: the terms inserted in order. */
    constructor FromTerms(terms: seq<(string, Matrix)>, b: Vector, sigma: real)
      ensures As == InsertAll(map[], terms) && this.b == b && sigmas == Repeat(|b|, sigma)
    {
      this.b := b;
      sigmas := Repeat(|b|, sigma);
      As := map[];
      new;
      for i := 0 to |terms|
        invariant InsertAll(map[], terms) == InsertAll(As, terms[i..])
        invariant this.b == b && this.sigmas == Repeat(|b|, sigma)
      {
        assert terms[i..][1..] == terms[i + 1..];
        As := MapInsert(As, terms[i].0, terms[i].1);
      }
      assert terms[|terms|..] == [];
    }

    /** The n-ary factor with a sigma per row, taken as given. */
    constructor FromTermsWithSigmas(terms: seq<(string, Matrix)>, b: Vector, sigmas: Vector)
      ensures As == InsertAll(map[], terms) && this.b == b && this.sigmas == sigmas
    {
      this.b := b;
      this.sigmas := sigmas;
      As := map[];
      new;
      for i := 0 to |terms|
        invariant InsertAll(map[], terms) == InsertAll(As, terms[i..])
        invariant this.b == b && this.sigmas == sigmas
      {
        assert terms[i..][1..] == terms[i + 1..];
        As := MapInsert(As, terms[i].0, terms[i].1);
      }
      assert terms[|terms|..] == [];
    }

    /** size(): the number of blocks. */
    function Size(): (n: nat)
      reads this
      ensures n == |As.Keys|
    {
      |As|
    }

    /** empty(): b has no rows. */
    predicate Empty()
      reads this
    {
      |b| == 0
    }

    /** numberOfRows(): the length of b. */
    function NumberOfRows(): nat
      reads this
    {
      |b|
    }

    /** involves(key): is there a block for the key? */
    predicate Involves(key: string)
      reads this
    {
      key in As
    }

    /** get_A(key) and operator[]: the block of the key, or invalid_argument when there is none. */
    function GetA(key: string): (r: Result<Matrix>)
      reads this
      ensures r.Ok? <==> Involves(key)
      ensures r.Ok? ==> r.value == As[key]
      ensures r.Err? ==> r.error == InvalidArgument(InvalidKeyMessage + key)
    {
      if key in As then Ok(As[key]) else Err(InvalidArgument(InvalidKeyMessage + key))
    }

    /** insert(key, A): a new block, unless the key already has one. */
    method Insert(key: string, A: Matrix)
      modifies this
      ensures As == MapInsert(old(As), key, A) && b == old(b) && sigmas == old(sigmas)
    {
      As := MapInsert(As, key, A);
    }

    /** set_A(key, A): the same as insert. */
    method SetA(key: string, A: Matrix)
      modifies this
      ensures As == MapInsert(old(As), key, A) && b == old(b) && sigmas == old(sigmas)
    {
      Insert(key, A);
    }

    /** set_b(b): b is replaced. */
    method SetB(b: Vector)
      modifies this
      ensures this.b == b && As == old(As) && sigmas == old(sigmas)
    {
      this.b := b;
    }
  }

  /** After insert or set_A the factor involves the key, and an existing block is never replaced. */
  lemma InsertKeepsBlocks(m: map<string, Matrix>, key: string, A: Matrix)
    ensures key in MapInsert(m, key, A)
    ensures key in m ==> MapInsert(m, key, A)[key] == m[key]
    ensures |MapInsert(m, key, A)| == if key in m then |m| else |m| + 1
  {
    if key !in m {
      assert MapInsert(m, key, A).Keys == m.Keys + {key};
    }
  }
}
