/**
 * The scene graph's column-major matrix, instantiated over integers. A
 * `colN x rowN` matrix stores `colN` column vectors of `rowN` components;
 * `m[i][j]` is row `j` of column `i`. The class keeps its entries in a
 * two-dimensional array and a ghost value (a sequence of columns) that the
 * operations are specified against.
 */
module SgMatrix {
  import SgVector

  /** A matrix value: a sequence of columns. */
  type Mat = seq<seq<int>>

  predicate IsMat(m: Mat, colN: nat, rowN: nat)
  {
    |m| == colN && forall i :: 0 <= i < colN ==> |m[i]| == rowN
  }

  predicate IsSquare(m: Mat, n: nat)
  {
    IsMat(m, n, n)
  }

  function ZeroMat(colN: nat, rowN: nat): Mat
  {
    seq(colN, _ => seq(rowN, _ => 0))
  }

  /** The initializer-list constructor's value: the first `min(colN, |list|)`
      columns from the list, zero columns after them. */
  function FromColumns(colN: nat, rowN: nat, list: seq<seq<int>>): Mat
  {
    seq(colN, i requires 0 <= i < colN => if i < |list| then list[i] else seq(rowN, _ => 0))
  }

  function IdentityMat(n: nat): Mat
  {
    seq(n, i => seq(n, j => if i == j then 1 else 0))
  }

  function MatAdd(a: Mat, b: Mat, colN: nat, rowN: nat): Mat
    requires IsMat(a, colN, rowN) && IsMat(b, colN, rowN)
  {
    seq(colN, i requires 0 <= i < colN => SgVector.Add(a[i], b[i]))
  }

  function MatSub(a: Mat, b: Mat, colN: nat, rowN: nat): Mat
    requires IsMat(a, colN, rowN) && IsMat(b, colN, rowN)
  {
    seq(colN, i requires 0 <= i < colN => SgVector.Sub(a[i], b[i]))
  }

  /** The first `k` terms of entry `[i][j]` of `m1 * m2`: the sum over
      `k' < k` of `m1[k'][j] * m2[i][k']`. */
  function ProdSum(m1: Mat, m2: Mat, n: nat, i: nat, j: nat, k: nat): int
    requires IsSquare(m1, n) && IsSquare(m2, n) && i < n && j < n && k <= n
  {
    if k == 0 then 0 else ProdSum(m1, m2, n, i, j, k - 1) + m1[k - 1][j] * m2[i][k - 1]
  }

  function MatMul(m1: Mat, m2: Mat, n: nat): Mat
    requires IsSquare(m1, n) && IsSquare(m2, n)
  {
    seq(n, i requires 0 <= i < n => seq(n, j requires 0 <= j < n => ProdSum(m1, m2, n, i, j, n)))
  }

  /** The first `k` terms of component `i` of `mat * vec`: the sum over
      `j < k` of `mat[j][i] * vec[j]`. */
  function VecSum(mat: Mat, vec: seq<int>, n: nat, i: nat, k: nat): int
    requires IsSquare(mat, n) && |vec| == n && i < n && k <= n
  {
    if k == 0 then 0 else VecSum(mat, vec, n, i, k - 1) + mat[k - 1][i] * vec[k - 1]
  }

  function MatVec(mat: Mat, vec: seq<int>, n: nat): seq<int>
    requires IsSquare(mat, n) && |vec| == n
  {
    seq(n, i requires 0 <= i < n => VecSum(mat, vec, n, i, n))
  }

  function Transpose(m: Mat, n: nat): Mat
    requires IsSquare(m, n)
  {
    seq(n, i requires 0 <= i < n => seq(n, j requires 0 <= j < n => m[j][i]))
  }

  /** The identity has 1 on the diagonal and 0 elsewhere, and it is neutral
      for the product on both sides and for the matrix-vector product. */
  lemma {:induction false} IdentityNeutral(m: Mat, v: seq<int>, n: nat)
    requires IsSquare(m, n) && |v| == n
    ensures IsSquare(IdentityMat(n), n)
    ensures forall i, j :: 0 <= i < n && 0 <= j < n ==> IdentityMat(n)[i][j] == (if i == j then 1 else 0)
    ensures MatMul(IdentityMat(n), m, n) == m
    ensures MatMul(m, IdentityMat(n), n) == m
    ensures MatVec(IdentityMat(n), v, n) == v
  {
    var id := IdentityMat(n);
    forall i, j | 0 <= i < n && 0 <= j < n
      ensures MatMul(id, m, n)[i][j] == m[i][j] && MatMul(m, id, n)[i][j] == m[i][j]
    {
      IdentityLeft(m, n, i, j, n);
      IdentityRight(m, n, i, j, n);
    }
    forall i | 0 <= i < n ensures MatMul(id, m, n)[i] == m[i] && MatMul(m, id, n)[i] == m[i] {
    }
    forall i | 0 <= i < n ensures MatVec(id, v, n)[i] == v[i] {
      IdentityVec(v, n, i, n);
    }
  }

  lemma {:induction false} IdentityLeft(m: Mat, n: nat, i: nat, j: nat, k: nat)
    requires IsSquare(m, n) && i < n && j < n && k <= n
    ensures ProdSum(IdentityMat(n), m, n, i, j, k) == if j < k then m[i][j] else 0
  {
    if k > 0 {
      IdentityLeft(m, n, i, j, k - 1);
    }
  }

  lemma {:induction false} IdentityRight(m: Mat, n: nat, i: nat, j: nat, k: nat)
    requires IsSquare(m, n) && i < n && j < n && k <= n
    ensures ProdSum(m, IdentityMat(n), n, i, j, k) == if i < k then m[i][j] else 0
  {
    if k > 0 {
      IdentityRight(m, n, i, j, k - 1);
    }
  }

  lemma {:induction false} IdentityVec(v: seq<int>, n: nat, i: nat, k: nat)
    requires |v| == n && i < n && k <= n
    ensures VecSum(IdentityMat(n), v, n, i, k) == if i < k then v[i] else 0
  {
    if k > 0 {
      IdentityVec(v, n, i, k - 1);
    }
  }

  /** Transposing twice restores the matrix and keeps the diagonal, and the
      identity is its own transpose. */
  lemma TransposeInvolution(m: Mat, n: nat)
    requires IsSquare(m, n)
    ensures IsSquare(Transpose(m, n), n)
    ensures Transpose(Transpose(m, n), n) == m
    ensures forall i :: 0 <= i < n ==> Transpose(m, n)[i][i] == m[i][i]
    ensures Transpose(IdentityMat(n), n) == IdentityMat(n)
  {
    var t := Transpose(m, n);
    forall i | 0 <= i < n ensures Transpose(t, n)[i] == m[i] {
      assert forall j :: 0 <= j < n ==> Transpose(t, n)[i][j] == t[j][i] == m[i][j];
    }
    var id := IdentityMat(n);
    forall i | 0 <= i < n ensures Transpose(id, n)[i] == id[i] {
      assert forall j :: 0 <= j < n ==> Transpose(id, n)[i][j] == id[j][i] == id[i][j];
    }
  }

  /** Subtraction undoes addition. */
  lemma MatAddSubInverse(a: Mat, b: Mat, colN: nat, rowN: nat)
    requires IsMat(a, colN, rowN) && IsMat(b, colN, rowN)
    ensures IsMat(MatAdd(a, b, colN, rowN), colN, rowN)
    ensures MatSub(MatAdd(a, b, colN, rowN), b, colN, rowN) == a
    ensures MatAdd(a, b, colN, rowN) == MatAdd(b, a, colN, rowN)
  {
    forall i | 0 <= i < colN
      ensures MatSub(MatAdd(a, b, colN, rowN), b, colN, rowN)[i] == a[i]
      ensures MatAdd(a, b, colN, rowN)[i] == MatAdd(b, a, colN, rowN)[i]
    {
      SgVector.ArithmeticInverses(a[i], b[i], 1);
    }
  }

  /** Entry `[i][j]` of a 2x2 product and component `i` of a 4x4
      matrix-vector product, written out. */
  lemma ProdSum2(m1: Mat, m2: Mat, i: nat, j: nat)
    requires IsSquare(m1, 2) && IsSquare(m2, 2) && i < 2 && j < 2
    ensures ProdSum(m1, m2, 2, i, j, 2) == m1[0][j] * m2[i][0] + m1[1][j] * m2[i][1]
  {
    assert ProdSum(m1, m2, 2, i, j, 1) == m1[0][j] * m2[i][0];
  }

  lemma VecSum4(mat: Mat, vec: seq<int>, i: nat)
    requires IsSquare(mat, 4) && |vec| == 4 && i < 4
    ensures VecSum(mat, vec, 4, i, 4)
         == mat[0][i] * vec[0] + mat[1][i] * vec[1] + mat[2][i] * vec[2] + mat[3][i] * vec[3]
  {
    assert VecSum(mat, vec, 4, i, 1) == mat[0][i] * vec[0];
    assert VecSum(mat, vec, 4, i, 2) == mat[0][i] * vec[0] + mat[1][i] * vec[1];
  }

  /** The values the matrix unit tests expect: construction from columns,
      `-=` then `+=`, and the free `-` and `+`. */
  lemma MatrixAddSubExamples()
    ensures FromColumns(3, 2, [[10, -20], [-30, 40], [-512, -256]]) == [[10, -20], [-30, 40], [-512, -256]]
    ensures MatAdd(MatSub([[1, 2], [3, 4]], [[-2, -3], [-4, -5]], 2, 2), [[2, 2], [3, 3]], 2, 2) == [[5, 7], [10, 12]]
    ensures MatSub([[5, 7], [10, 12]], [[-2, -3], [-4, -5]], 2, 2) == [[7, 10], [14, 17]]
    ensures MatAdd([[5, 7], [10, 12]], [[-2, -3], [-4, -5]], 2, 2) == [[3, 4], [6, 7]]
  {
    var d := MatSub([[1, 2], [3, 4]], [[-2, -3], [-4, -5]], 2, 2);
    assert SgVector.Sub([1, 2], [-2, -3]) == [3, 5];
    assert SgVector.Sub([3, 4], [-4, -5]) == [7, 9];
    assert d == [[3, 5], [7, 9]];
    assert SgVector.Add([3, 5], [2, 2]) == [5, 7];
    assert SgVector.Add([7, 9], [3, 3]) == [10, 12];
    assert SgVector.Sub([5, 7], [-2, -3]) == [7, 10];
    assert SgVector.Sub([10, 12], [-4, -5]) == [14, 17];
    assert SgVector.Add([5, 7], [-2, -3]) == [3, 4];
    assert SgVector.Add([10, 12], [-4, -5]) == [6, 7];
  }

  /** The unit tests' products: `m7 * m8`, then that times `m7`. */
  lemma MatrixMulExamples()
    ensures MatMul([[1, 0], [4, 1]], [[3, 0], [0, 1]], 2) == [[3, 0], [4, 1]]
    ensures MatMul([[3, 0], [4, 1]], [[1, 0], [4, 1]], 2) == [[3, 0], [16, 1]]
  {
    var m7, m8, m9 := [[1, 0], [4, 1]], [[3, 0], [0, 1]], [[3, 0], [4, 1]];
    ProdSum2(m7, m8, 0, 0); ProdSum2(m7, m8, 0, 1); ProdSum2(m7, m8, 1, 0); ProdSum2(m7, m8, 1, 1);
    ProdSum2(m9, m7, 0, 0); ProdSum2(m9, m7, 0, 1); ProdSum2(m9, m7, 1, 0); ProdSum2(m9, m7, 1, 1);
    assert MatMul(m7, m8, 2)[0] == [3, 0] && MatMul(m7, m8, 2)[1] == [4, 1];
    assert MatMul(m9, m7, 2)[0] == [3, 0] && MatMul(m9, m7, 2)[1] == [16, 1];
  }

  /** The unit test's translation matrix applied to a point, and its
      transpose example. */
  lemma MatrixVecExamples()
    ensures MatVec([[1, 0, 0, 0], [0, 1, 0, 0], [0, 0, 1, 0], [5, 10, 2, 1]], [2, 3, 4, 1], 4) == [7, 13, 6, 1]
    ensures Transpose([[1, 2], [4, 5]], 2) == [[1, 4], [2, 5]]
  {
    var m11, v1 := [[1, 0, 0, 0], [0, 1, 0, 0], [0, 0, 1, 0], [5, 10, 2, 1]], [2, 3, 4, 1];
    VecSum4(m11, v1, 0); VecSum4(m11, v1, 1); VecSum4(m11, v1, 2); VecSum4(m11, v1, 3);
    var t := Transpose([[1, 2], [4, 5]], 2);
    assert t[0] == [1, 4] && t[1] == [2, 5];
  }

  // ---- `operator*=` when the operand is the receiver itself ----

  /** Entry `j` of the column being rebuilt, after `k` steps of the source's
      accumulation loop, when the right operand is the receiver: the loop
      reads the column it is writing, so step `j` reads the partial sum and
      steps below `j` read entries already replaced. `c` is the column as the
      loop finds it when it reaches entry `j`. */
  function AliasedAcc(t: Mat, c: seq<int>, n: nat, j: nat, k: nat): int
    requires IsSquare(t, n) && |c| == n && j < n && k <= n
  {
    if k == 0 then 0
    else
      var acc := AliasedAcc(t, c, n, j, k - 1);
      acc + t[k - 1][j] * (if k - 1 == j then acc else c[k - 1])
  }

  /** Column `c` after the source's loop has rebuilt entries `j..n-1`. */
  function AliasedColumn(t: Mat, c: seq<int>, n: nat, j: nat): (r: seq<int>)
    requires IsSquare(t, n) && |c| == n && j <= n
    ensures |r| == n
    decreases n - j
  {
    if j == n then c else AliasedColumn(t, c[j := AliasedAcc(t, c, n, j, n)], n, j + 1)
  }

  /** What `m *= m` leaves in `m`, as written: each column is rebuilt from
      the saved copy `t` and from itself. */
  function SelfMulAsWritten(t: Mat, n: nat): Mat
    requires IsSquare(t, n)
  {
    seq(n, i requires 0 <= i < n => AliasedColumn(t, t[i], n, 0))
  }

  /** `m *= m` on the 2x2 identity gives the zero matrix, while the product
      of the identity with itself is the identity. */
  lemma SelfMulAsWrittenDiffers()
    ensures SelfMulAsWritten(IdentityMat(2), 2) == ZeroMat(2, 2)
    ensures MatMul(IdentityMat(2), IdentityMat(2), 2) == IdentityMat(2)
  {
    var id := IdentityMat(2);
    assert id[0] == [1, 0] && id[1] == [0, 1];
    // Column 0: entry 0 reads itself after it was reset, entry 1 reads the
    // replaced entry 0.
    assert AliasedAcc(id, [1, 0], 2, 0, 1) == 0;
    assert AliasedAcc(id, [1, 0], 2, 0, 2) == 0;
    assert [1, 0][0 := 0] == [0, 0];
    assert AliasedAcc(id, [0, 0], 2, 1, 1) == 0;
    assert AliasedAcc(id, [0, 0], 2, 1, 2) == 0;
    assert [0, 0][1 := 0] == [0, 0];
    assert AliasedColumn(id, [0, 0], 2, 2) == [0, 0];
    assert AliasedColumn(id, [0, 0], 2, 1) == [0, 0];
    assert AliasedColumn(id, [1, 0], 2, 0) == [0, 0];
    // Column 1: entry 0 reads entry 1, which is still 1 but weighted by 0;
    // entry 1 reads its own reset value.
    assert AliasedAcc(id, [0, 1], 2, 0, 1) == 0;
    assert AliasedAcc(id, [0, 1], 2, 0, 2) == 0;
    assert [0, 1][0 := 0] == [0, 1];
    assert AliasedAcc(id, [0, 1], 2, 1, 1) == 0;
    assert AliasedAcc(id, [0, 1], 2, 1, 2) == 0;
    assert [0, 1][1 := 0] == [0, 0];
    assert AliasedColumn(id, [0, 0], 2, 2) == [0, 0];
    assert AliasedColumn(id, [0, 1], 2, 1) == [0, 0];
    assert AliasedColumn(id, [0, 1], 2, 0) == [0, 0];
    assert SelfMulAsWritten(id, 2)[0] == [0, 0] && SelfMulAsWritten(id, 2)[1] == [0, 0];
    assert ZeroMat(2, 2)[0] == [0, 0] && ZeroMat(2, 2)[1] == [0, 0];
    IdentityNeutral(id, [0, 0], 2);
  }

  class Matrix {
    const colN: nat
    const rowN: nat
    const data: array2<int>
    ghost var value: Mat

    ghost predicate Valid()
      reads this, data
    {
      && colN > 0 && rowN > 0
      && data.Length0 == colN && data.Length1 == rowN
      && IsMat(value, colN, rowN)
      && forall i, j :: 0 <= i < colN && 0 <= j < rowN ==> data[i, j] == value[i][j]
    }

    /** `Matrix(std::initializer_list<Vector>)`: each list element is a
        column of `rowN` components; the default constructor is the empty
        list. */
    constructor (colN: nat, rowN: nat, list: seq<seq<int>>)
      requires colN > 0 && rowN > 0
      requires forall v :: v in list ==> |v| == rowN
      ensures Valid() && fresh(data)
      ensures this.colN == colN && this.rowN == rowN
      ensures value == FromColumns(colN, rowN, list)
    {
      this.colN, this.rowN := colN, rowN;
      var a := new int[colN, rowN]((_, _) => 0);
      var m := if colN < |list| then colN else |list|;
      for i := 0 to m
        invariant forall p, q :: 0 <= p < i && 0 <= q < rowN ==> a[p, q] == list[p][q]
        invariant forall p, q :: i <= p < colN && 0 <= q < rowN ==> a[p, q] == 0
      {
        assert list[i] in list;
        for j := 0 to rowN
          invariant forall p, q :: 0 <= p < i && 0 <= q < rowN ==> a[p, q] == list[p][q]
          invariant forall q :: 0 <= q < j ==> a[i, q] == list[i][q]
          invariant forall p, q :: i <= p < colN && 0 <= q < rowN && (p != i || j <= q) ==> a[p, q] == 0
        {
          a[i, j] := list[i][j];
        }
      }
      data := a;
      value := FromColumns(colN, rowN, list);
      new;
      forall p | 0 <= p < |list| ensures |list[p]| == rowN {
        assert list[p] in list;
      }
    }

    /** `identity()`: a square matrix with 1 on the diagonal. */
    static method Identity(n: nat) returns (m: Matrix)
      requires n > 0
      ensures fresh(m) && fresh(m.data) && m.Valid()
      ensures m.colN == n && m.rowN == n && m.value == IdentityMat(n)
    {
      m := new Matrix(n, n, []);
      for i := 0 to n
        invariant m.Valid() && fresh(m.data)
        invariant forall p, q :: 0 <= p < n && 0 <= q < n ==> m.value[p][q] == if p == q && p < i then 1 else 0
        modifies m, m.data
      {
        m.data[i, i] := 1;
        m.value := m.value[i := m.value[i][i := 1]];
      }
      assert m.value == IdentityMat(n) by {
        forall p | 0 <= p < n ensures m.value[p] == IdentityMat(n)[p] {
        }
      }
    }

    /** `columns()` and `rows()`. */
    function Columns(): (r: nat)
      reads this, data
      requires Valid()
      ensures r == |value| && r > 0
    {
      colN
    }

    function Rows(): (r: nat)
      reads this, data
      requires Valid()
      ensures forall i :: 0 <= i < |value| ==> |value[i]| == r
      ensures r > 0
    {
      rowN
    }

    /** Entries `[p][q]` for columns `p >= i` still hold their old values. */
    ghost predicate UntouchedFrom(old_: Mat, i: nat)
      reads this, data
      requires data.Length0 == colN && data.Length1 == rowN && IsMat(old_, colN, rowN)
    {
      forall p, q :: i <= p < colN && 0 <= q < rowN ==> data[p, q] == old_[p][q]
    }

    /** `operator-=`. The argument may be this matrix itself. */
    method SubAssign(other: Matrix)
      requires Valid() && other.Valid() && other.colN == colN && other.rowN == rowN
      modifies this, data
      ensures Valid()
      ensures value == MatSub(old(value), old(other.value), colN, rowN)
    {
      ghost var a, b := value, other.value;
      ghost var r := MatSub(a, b, colN, rowN);
      for i := 0 to colN
        invariant forall p, q :: 0 <= p < i && 0 <= q < rowN ==> data[p, q] == r[p][q]
        invariant UntouchedFrom(a, i)
        invariant forall p, q :: i <= p < colN && 0 <= q < rowN ==> other.data[p, q] == b[p][q]
      {
        for j := 0 to rowN
          invariant forall p, q :: 0 <= p < i && 0 <= q < rowN ==> data[p, q] == r[p][q]
          invariant forall q :: 0 <= q < j ==> data[i, q] == r[i][q]
          invariant UntouchedFrom(a, i + 1)
          invariant forall q :: j <= q < rowN ==> data[i, q] == a[i][q]
          invariant forall p, q :: i <= p < colN && 0 <= q < rowN && (p != i || j <= q) ==> other.data[p, q] == b[p][q]
        {
          data[i, j] := data[i, j] - other.data[i, j];
        }
      }
      value := r;
    }

    /** `operator+=`. The argument may be this matrix itself. */
    method AddAssign(other: Matrix)
      requires Valid() && other.Valid() && other.colN == colN && other.rowN == rowN
      modifies this, data
      ensures Valid()
      ensures value == MatAdd(old(value), old(other.value), colN, rowN)
    {
      ghost var a, b := value, other.value;
      ghost var r := MatAdd(a, b, colN, rowN);
      for i := 0 to colN
        invariant forall p, q :: 0 <= p < i && 0 <= q < rowN ==> data[p, q] == r[p][q]
        invariant UntouchedFrom(a, i)
        invariant forall p, q :: i <= p < colN && 0 <= q < rowN ==> other.data[p, q] == b[p][q]
      {
        for j := 0 to rowN
          invariant forall p, q :: 0 <= p < i && 0 <= q < rowN ==> data[p, q] == r[p][q]
          invariant forall q :: 0 <= q < j ==> data[i, q] == r[i][q]
          invariant UntouchedFrom(a, i + 1)
          invariant forall q :: j <= q < rowN ==> data[i, q] == a[i][q]
          invariant forall p, q :: i <= p < colN && 0 <= q < rowN && (p != i || j <= q) ==> other.data[p, q] == b[p][q]
        {
          data[i, j] := data[i, j] + other.data[i, j];
        }
      }
      value := r;
    }

    /** A fresh array holding this matrix's entries (the source's
        `const auto tmp = *this`). */
    method Snapshot() returns (s: array2<int>)
      requires Valid()
      ensures fresh(s) && s.Length0 == colN && s.Length1 == rowN
      ensures forall p, q :: 0 <= p < colN && 0 <= q < rowN ==> s[p, q] == value[p][q]
    {
      s := new int[colN, rowN]((_, _) => 0);
      for i := 0 to colN
        invariant forall p, q :: 0 <= p < i && 0 <= q < rowN ==> s[p, q] == value[p][q]
      {
        for j := 0 to rowN
          invariant forall p, q :: 0 <= p < i && 0 <= q < rowN ==> s[p, q] == value[p][q]
          invariant forall q :: 0 <= q < j ==> s[i, q] == value[i][q]
        {
          s[i, j] := data[i, j];
        }
      }
    }

    /** `operator*=` with the right operand saved before the receiver is
        overwritten, so `m *= m` also yields `m * m`. */
    method MulAssign(other: Matrix)
      requires Valid() && other.Valid() && colN == rowN && other.colN == colN && other.rowN == rowN
      modifies this, data
      ensures Valid()
      ensures value == MatMul(old(value), old(other.value), colN)
    {
      var n := colN;
      ghost var a, b := value, other.value;
      var tmp := Snapshot();
      var rhs := other.Snapshot();
      for i := 0 to n
        invariant forall p, q :: 0 <= p < i && 0 <= q < n ==> data[p, q] == ProdSum(a, b, n, p, q, n)
        invariant forall p, q :: 0 <= p < n && 0 <= q < n ==> tmp[p, q] == a[p][q] && rhs[p, q] == b[p][q]
      {
        for j := 0 to n
          invariant forall p, q :: 0 <= p < i && 0 <= q < n ==> data[p, q] == ProdSum(a, b, n, p, q, n)
          invariant forall q :: 0 <= q < j ==> data[i, q] == ProdSum(a, b, n, i, q, n)
          invariant forall p, q :: 0 <= p < n && 0 <= q < n ==> tmp[p, q] == a[p][q] && rhs[p, q] == b[p][q]
        {
          data[i, j] := 0;
          AccumulateEntry(data, tmp, rhs, a, b, n, i, j);
        }
      }
      value := MatMul(a, b, n);
    }

    /** Entry `[i][j]` of `m *= m` as written: the sum runs over column `i`
        of the receiver, whose entry `[i][j]` is the running sum itself. */
    method AliasedEntry(tmp: array2<int>, i: nat, j: nat, ghost t: Mat, ghost cur: seq<int>)
      requires colN == rowN && data.Length0 == colN && data.Length1 == colN && tmp != data
      requires tmp.Length0 == colN && tmp.Length1 == colN && IsSquare(t, colN)
      requires |cur| == colN && i < colN && j < colN
      requires forall p, q :: 0 <= p < colN && 0 <= q < colN ==> tmp[p, q] == t[p][q]
      requires data[i, j] == 0 && forall q :: 0 <= q < colN && q != j ==> data[i, q] == cur[q]
      modifies data
      ensures data[i, j] == AliasedAcc(t, cur, colN, j, colN)
      ensures forall p, q :: 0 <= p < colN && 0 <= q < colN && !(p == i && q == j) ==> data[p, q] == old(data[p, q])
    {
      var n := colN;
      for k := 0 to n
        invariant forall p, q :: 0 <= p < n && 0 <= q < n && !(p == i && q == j) ==> data[p, q] == old(data[p, q])
        invariant data[i, j] == AliasedAcc(t, cur, n, j, k)
      {
        data[i, j] := data[i, j] + tmp[k, j] * data[i, k];
      }
    }

    /** `m *= m` exactly as the source's loop runs it: the saved copy is
        the left operand, but the right operand is the receiver, whose
        column `i` is being overwritten while it is read. */
    method MulAssignSelfAsWritten()
      requires Valid() && colN == rowN
      modifies this, data
      ensures Valid()
      ensures value == SelfMulAsWritten(old(value), colN)
    {
      var n := colN;
      ghost var t := value;
      var tmp := Snapshot();
      for i := 0 to n
        invariant forall p, q :: 0 <= p < n && 0 <= q < n ==> tmp[p, q] == t[p][q]
        invariant forall p, q :: 0 <= p < i && 0 <= q < n ==> data[p, q] == SelfMulAsWritten(t, n)[p][q]
        invariant UntouchedFrom(t, i)
      {
        ghost var cur := t[i];
        for j := 0 to n
          invariant forall p, q :: 0 <= p < n && 0 <= q < n ==> tmp[p, q] == t[p][q]
          invariant forall p, q :: 0 <= p < i && 0 <= q < n ==> data[p, q] == SelfMulAsWritten(t, n)[p][q]
          invariant UntouchedFrom(t, i + 1)
          invariant |cur| == n && forall q :: 0 <= q < n ==> data[i, q] == cur[q]
          invariant AliasedColumn(t, cur, n, j) == AliasedColumn(t, t[i], n, 0)
        {
          data[i, j] := 0;
          AliasedEntry(tmp, i, j, t, cur);
          cur := cur[j := AliasedAcc(t, cur, n, j, n)];
        }
      }
      value := SelfMulAsWritten(t, n);
    }

    /** In-place `transpose()`: swaps `[i][j]` with `[j][i]` above the
        diagonal. */
    method TransposeInPlace()
      requires Valid() && colN == rowN
      modifies this, data
      ensures Valid()
      ensures value == Transpose(old(value), colN)
    {
      var n := colN;
      ghost var a := value;
      for i := 0 to n
        invariant forall p, q :: 0 <= p < n && 0 <= q < n ==>
          data[p, q] == if p < i || q < i then a[q][p] else a[p][q]
      {
        for j := i + 1 to n
          invariant forall p, q :: 0 <= p < n && 0 <= q < n ==>
            data[p, q] == if p < i || q < i || (p == i && q < j) || (q == i && p < j) then a[q][p] else a[p][q]
        {
          data[i, j], data[j, i] := data[j, i], data[i, j];
        }
      }
      value := Transpose(a, n);
    }
  }

  /** Free `operator-`: a new matrix; the operands are unchanged. */
  method Minus(left: Matrix, right: Matrix) returns (res: Matrix)
    requires left.Valid() && right.Valid() && left.colN == right.colN && left.rowN == right.rowN
    ensures fresh(res) && fresh(res.data) && res.Valid()
    ensures res.colN == left.colN && res.rowN == left.rowN
    ensures res.value == MatSub(left.value, right.value, left.colN, left.rowN)
  {
    res := new Matrix(left.colN, left.rowN, []);
    var r := MatSub(left.value, right.value, left.colN, left.rowN);
    for i := 0 to res.colN
      invariant forall p, q :: 0 <= p < i && 0 <= q < res.rowN ==> res.data[p, q] == r[p][q]
    {
      for j := 0 to res.rowN
        invariant forall p, q :: 0 <= p < i && 0 <= q < res.rowN ==> res.data[p, q] == r[p][q]
        invariant forall q :: 0 <= q < j ==> res.data[i, q] == r[i][q]
      {
        res.data[i, j] := left.data[i, j] - right.data[i, j];
      }
    }
    res.value := r;
  }

  /** Free `operator+`. */
  method Plus(left: Matrix, right: Matrix) returns (res: Matrix)
    requires left.Valid() && right.Valid() && left.colN == right.colN && left.rowN == right.rowN
    ensures fresh(res) && fresh(res.data) && res.Valid()
    ensures res.colN == left.colN && res.rowN == left.rowN
    ensures res.value == MatAdd(left.value, right.value, left.colN, left.rowN)
  {
    res := new Matrix(left.colN, left.rowN, []);
    var r := MatAdd(left.value, right.value, left.colN, left.rowN);
    for i := 0 to res.colN
      invariant forall p, q :: 0 <= p < i && 0 <= q < res.rowN ==> res.data[p, q] == r[p][q]
    {
      for j := 0 to res.rowN
        invariant forall p, q :: 0 <= p < i && 0 <= q < res.rowN ==> res.data[p, q] == r[p][q]
        invariant forall q :: 0 <= q < j ==> res.data[i, q] == r[i][q]
      {
        res.data[i, j] := left.data[i, j] + right.data[i, j];
      }
    }
    res.value := r;
  }

  /** The innermost loop of a product: `dst[i, j] += l[k, j] * r[i, k]` for
      every `k`, where `l` and `r` hold `a` and `b`. */
  method AccumulateEntry(dst: array2<int>, l: array2<int>, r: array2<int>, ghost a: Mat, ghost b: Mat,
                         n: nat, i: nat, j: nat)
    requires dst != l && dst != r && IsSquare(a, n) && IsSquare(b, n) && i < n && j < n
    requires dst.Length0 == n && dst.Length1 == n && l.Length0 == n && l.Length1 == n
    requires r.Length0 == n && r.Length1 == n
    requires forall p, q :: 0 <= p < n && 0 <= q < n ==> l[p, q] == a[p][q] && r[p, q] == b[p][q]
    requires dst[i, j] == 0
    modifies dst
    ensures dst[i, j] == ProdSum(a, b, n, i, j, n)
    ensures forall p, q :: 0 <= p < n && 0 <= q < n && !(p == i && q == j) ==> dst[p, q] == old(dst[p, q])
  {
    for k := 0 to n
      invariant forall p, q :: 0 <= p < n && 0 <= q < n && !(p == i && q == j) ==> dst[p, q] == old(dst[p, q])
      invariant dst[i, j] == ProdSum(a, b, n, i, j, k)
    {
      dst[i, j] := dst[i, j] + l[k, j] * r[i, k];
    }
  }

  /** Free `operator*` of two square matrices. */
  method Times(m1: Matrix, m2: Matrix) returns (res: Matrix)
    requires m1.Valid() && m2.Valid() && m1.colN == m1.rowN && m2.colN == m1.colN && m2.rowN == m1.rowN
    ensures fresh(res) && fresh(res.data) && res.Valid()
    ensures res.colN == m1.colN && res.rowN == m1.colN
    ensures res.value == MatMul(m1.value, m2.value, m1.colN)
  {
    var n := m1.colN;
    res := new Matrix(n, n, []);
    for i := 0 to n
      invariant forall p, q :: 0 <= p < i && 0 <= q < n ==> res.data[p, q] == ProdSum(m1.value, m2.value, n, p, q, n)
      invariant forall p, q :: i <= p < n && 0 <= q < n ==> res.data[p, q] == 0
    {
      for j := 0 to n
        invariant forall p, q :: 0 <= p < i && 0 <= q < n ==> res.data[p, q] == ProdSum(m1.value, m2.value, n, p, q, n)
        invariant forall q :: 0 <= q < j ==> res.data[i, q] == ProdSum(m1.value, m2.value, n, i, q, n)
        invariant forall p, q :: i <= p < n && 0 <= q < n && (p != i || j <= q) ==> res.data[p, q] == 0
      {
        AccumulateEntry(res.data, m1.data, m2.data, m1.value, m2.value, n, i, j);
      }
    }
    res.value := MatMul(m1.value, m2.value, n);
  }

  /** Free `operator*(Matrix, Vector)`: component `i` is the sum over `j` of
      `mat[j][i] * vec[j]`. */
  method TimesVec(mat: Matrix, vec: SgVector.Vector) returns (res: SgVector.Vector)
    requires mat.Valid() && mat.colN == mat.rowN && vec.data.Length == mat.colN
    ensures fresh(res) && fresh(res.data)
    ensures res.data[..] == MatVec(mat.value, vec.data[..], mat.colN)
  {
    var n := mat.colN;
    res := new SgVector.Vector(n, []);
    for i := 0 to n
      invariant forall p :: 0 <= p < i ==> res.data[p] == VecSum(mat.value, vec.data[..], n, p, n)
      invariant forall p :: i <= p < n ==> res.data[p] == 0
    {
      for j := 0 to n
        invariant forall p :: 0 <= p < i ==> res.data[p] == VecSum(mat.value, vec.data[..], n, p, n)
        invariant forall p :: i < p < n ==> res.data[p] == 0
        invariant res.data[i] == VecSum(mat.value, vec.data[..], n, i, j)
      {
        res.data[i] := res.data[i] + mat.data[j, i] * vec.data[j];
      }
    }
  }

  /** Free `operator*=(Vector, Matrix)`: `vec = mat * vec`. */
  method MulAssignVec(vec: SgVector.Vector, mat: Matrix)
    requires mat.Valid() && mat.colN == mat.rowN && vec.data.Length == mat.colN
    modifies vec.data
    ensures vec.data[..] == MatVec(mat.value, old(vec.data[..]), mat.colN)
  {
    var prod := TimesVec(mat, vec);
    forall i | 0 <= i < vec.data.Length {
      vec.data[i] := prod.data[i];
    }
  }

  /** Step `i` of `transpose(mat)`: the diagonal entry, then `[i][j]` and
      `[j][i]` for every `j > i`; nothing else is written. */
  method TransposeStep(dst: array2<int>, mat: Matrix, i: nat)
    requires mat.Valid() && mat.colN == mat.rowN && dst != mat.data
    requires dst.Length0 == mat.colN && dst.Length1 == mat.colN && i < mat.colN
    modifies dst
    ensures forall q :: i <= q < mat.colN ==> dst[i, q] == mat.value[q][i] && dst[q, i] == mat.value[i][q]
    ensures forall p, q :: 0 <= p < mat.colN && 0 <= q < mat.colN && !((p == i && q >= i) || (q == i && p >= i)) ==>
      dst[p, q] == old(dst[p, q])
  {
    var n := mat.colN;
    dst[i, i] := mat.data[i, i];
    for j := i + 1 to n
      invariant forall p, q :: 0 <= p < n && 0 <= q < n && !((p == i && q >= i) || (q == i && p >= i)) ==>
        dst[p, q] == old(dst[p, q])
      invariant dst[i, i] == mat.value[i][i]
      invariant forall q :: i < q < j ==> dst[i, q] == mat.value[q][i] && dst[q, i] == mat.value[i][q]
    {
      dst[i, j] := mat.data[j, i];
      dst[j, i] := mat.data[i, j];
    }
  }

  /** Free `transpose()`: a new matrix; the argument is unchanged. */
  method TransposeOf(mat: Matrix) returns (res: Matrix)
    requires mat.Valid() && mat.colN == mat.rowN
    ensures fresh(res) && fresh(res.data) && res.Valid()
    ensures res.colN == mat.colN && res.rowN == mat.colN
    ensures res.value == Transpose(mat.value, mat.colN)
  {
    var n := mat.colN;
    res := new Matrix(n, n, []);
    for i := 0 to n
      invariant forall p, q :: 0 <= p < n && 0 <= q < n && (p < i || q < i) ==> res.data[p, q] == mat.value[q][p]
    {
      TransposeStep(res.data, mat, i);
    }
    res.value := Transpose(mat.value, n);
  }

  /** In-place and free transposition agree. */
  method TransposeAgrees(m: Matrix) returns (copy: Matrix)
    requires m.Valid() && m.colN == m.rowN
    modifies m, m.data
    ensures fresh(copy) && copy.Valid() && m.Valid()
    ensures copy.value == m.value
  {
    copy := TransposeOf(m);
    m.TransposeInPlace();
  }
}
