/** The accessor shared by every matrix size (src/maths/matrix_methods.rs): a
    square matrix seen as its row-major storage plus its side length. */
module MatrixMethods {
  import opened Wrappers
  import FC = FloatCompare

  datatype MatrixMethods = MatrixMethods(data: seq<real>, size: nat)

  /** `MatrixMethods::new`: a view of `data` as a `size` by `size` matrix. */
  function New(data: seq<real>, size: nat): (m: MatrixMethods)
    ensures m.data == data && m.size == size
  {
    MatrixMethods(data, size)
  }

  /** `MatrixMethods::at`. The guard only rejects a row or a column that is
      strictly greater than the size; the slice index `row * size + col` then
      panics on its own when it falls outside the storage. A panic is `None`. */
  function At(m: MatrixMethods, row: nat, col: nat): Option<real>
  {
    if row > m.size || col > m.size then None
    else if row * m.size + col < |m.data| then Some(m.data[row * m.size + col])
    else None
  }

  /** A well-formed view: exactly `size * size` entries. */
  predicate Valid(m: MatrixMethods)
  {
    |m.data| == m.size * m.size
  }

  /** Row `row` ends before row `row + 1` starts, so row-major indices of a
      well-formed matrix stay inside its storage. */
  lemma IndexBound(size: nat, row: nat, col: nat)
    requires row < size && col < size
    ensures row * size + col < size * size
  {
    var k := size - (row + 1);
    assert size * size == (row + 1) * size + k * size;
    assert k * size >= 0;
  }

  /** Reading one past the end of a row is reading the start of the next. */
  lemma NextRow(size: nat, row: nat)
    ensures row * size + size == (row + 1) * size
  {
  }

  /** When the guard passes and the index is inside the storage, `at` reads
      the entry at that index. */
  lemma AtIndex(m: MatrixMethods, row: nat, col: nat)
    requires row <= m.size && col <= m.size && row * m.size + col < |m.data|
    ensures At(m, row, col) == Some(m.data[row * m.size + col])
  {
  }

  /** Inside the matrix, `at` reads the row-major entry. */
  lemma AtInRange(m: MatrixMethods, row: nat, col: nat)
    requires Valid(m) && row < m.size && col < m.size
    ensures row * m.size + col < |m.data|
    ensures At(m, row, col) == Some(m.data[row * m.size + col])
  {
    IndexBound(m.size, row, col);
    AtIndex(m, row, col);
  }

  /** The guard lets `col == size` through: on any row but the last it reads
      the first entry of the next row instead of panicking, and on the last
      row the slice index panics. */
  lemma AtGuardQuirk(m: MatrixMethods, row: nat)
    requires Valid(m) && row + 1 < m.size
    ensures (row + 1) * m.size < |m.data|
    ensures At(m, row, m.size) == At(m, row + 1, 0) == Some(m.data[(row + 1) * m.size])
    ensures At(m, m.size - 1, m.size) == None
  {
    var n := m.size;
    IndexBound(n, row + 1, 0);
    NextRow(n, row);
    NextRow(n, n - 1);
    assert (row + 1) * n + 0 < |m.data|;
  }

  /** The accessor with the guard the row-major layout calls for: the
      coordinates of a `size` by `size` matrix run from 0 to `size - 1`, so
      a row or a column equal to the size is already outside it. On a
      well-formed matrix it fails exactly outside the matrix and otherwise
      agrees with `At`. */
  function CheckedAt(m: MatrixMethods, row: nat, col: nat): (r: Option<real>)
    requires Valid(m)
    ensures r.Some? <==> row < m.size && col < m.size
    ensures r.Some? ==> row * m.size + col < |m.data| && r == At(m, row, col)
  {
    if row >= m.size || col >= m.size then None
    else
      AtInRange(m, row, col);
      Some(m.data[row * m.size + col])
  }

  /** The index, in the full matrix, of line `i` of a submatrix from which
      line `k` has been removed. */
  function Skip(k: nat, i: nat): (j: nat)
    ensures j != k
    ensures j == i || j == i + 1
    ensures i < k <==> j < k
  {
    if i < k then i else i + 1
  }

  /** Matrix equality: same shape and every entry `is_same`. */
  predicate Eq(a: MatrixMethods, b: MatrixMethods)
  {
    a.size == b.size && |a.data| == |b.data| &&
    forall i :: 0 <= i < |a.data| ==> FC.IsSame(a.data[i], b.data[i])
  }

  /** Equality is reflexive and symmetric, and identical storage is equal. */
  lemma EqReflexiveSymmetric(a: MatrixMethods, b: MatrixMethods)
    ensures Eq(a, a)
    ensures Eq(a, b) <==> Eq(b, a)
    ensures a == b ==> Eq(a, b)
  {
    forall i | 0 <= i < |a.data|
      ensures FC.IsSame(a.data[i], a.data[i])
    {
      FC.IsSameReflexiveSymmetric(a.data[i], a.data[i]);
    }
    if Eq(a, b) {
      forall i | 0 <= i < |b.data|
        ensures FC.IsSame(b.data[i], a.data[i])
      {
        FC.IsSameReflexiveSymmetric(a.data[i], b.data[i]);
      }
    }
    if Eq(b, a) {
      forall i | 0 <= i < |a.data|
        ensures FC.IsSame(a.data[i], b.data[i])
      {
        FC.IsSameReflexiveSymmetric(b.data[i], a.data[i]);
      }
    }
  }
}
