/**
 * The column side of the flat sparse matrix read as the row side of its
 * transpose. `iterator2` and `find2` mirror `iterator1` and `find1` with the
 * roles of the two indices exchanged; `Transposed (f)` is the orientation
 * that stores the transpose of a matrix in the same storage, and each
 * column-side operation of `f` is proved to be the row-side operation of
 * `Transposed (f)` with the cursor's indices exchanged. What is proved of
 * rows in `Traversal` then holds of columns.
 */
module Transpose {
  import opened Checks
  import opened OrderedStore
  import opened Orientation
  import opened SparseMatrix
  import opened Traversal

  /** The orientation that stores (j, i) of an s2 x s1 matrix where `f` stores (i, j) of an s1 x s2 matrix. */
  function Transposed(f: Orientation): Orientation {
    Orientation(
      (i: nat, s1: nat, j: nat, s2: nat) => f.element(j, s2, i, s1),
      (k: nat, s1: nat, s2: nat) => f.index2(k, s2, s1),
      (k: nat, s1: nat, s2: nat) => f.index1(k, s2, s1),
      (s1: nat, s2: nat) => f.one2(s2, s1),
      (s1: nat, s2: nat) => f.one1(s2, s1),
      f.forward2, f.forward1)
  }

  /** The same storage read as the transposed matrix. */
  function TransposedMatrix<T>(m: Matrix<T>): (t: Matrix<T>)
    ensures t.size1 == m.size2 && t.size2 == m.size1 && t.data == m.data
  {
    Matrix(m.size2, m.size1, m.nonZeroes, m.data)
  }

  /** A cursor with its two indices exchanged. */
  function Flip(c: Cursor): (d: Cursor)
    ensures d.owner == c.owner && d.i == c.j && d.j == c.i && d.pos == c.pos
  {
    Cursor(c.owner, c.j, c.i, c.pos)
  }

  /** `Flip` applied to a successful cursor result; a failure is kept. */
  function FlipResult(r: Result<Cursor>): (s: Result<Cursor>)
    ensures s.Failure? <==> r.Failure?
    ensures s.Failure? ==> s.error == r.error
    ensures s.Success? ==> s.value == Flip(r.value)
  {
    match r
    case Success(c) => Success(Flip(c))
    case Failure(e) => Failure(e)
  }

  /** Transposing twice gives back the keys, decodings and strides of `f`. */
  lemma TransposedTwice(f: Orientation, s1: nat, s2: nat, i: nat, j: nat, k: nat)
    ensures Transposed(Transposed(f)).element(i, s1, j, s2) == f.element(i, s1, j, s2)
    ensures Transposed(Transposed(f)).index1(k, s1, s2) == f.index1(k, s1, s2)
    ensures Transposed(Transposed(f)).index2(k, s1, s2) == f.index2(k, s1, s2)
    ensures Transposed(Transposed(f)).one1(s1, s2) == f.one1(s1, s2)
    ensures Transposed(Transposed(f)).one2(s1, s2) == f.one2(s1, s2)
  {
  }

  /** The key of (j, i) in the transpose is the key of (i, j). */
  lemma TransposedKey<T>(f: Orientation, m: Matrix<T>, i: nat, j: nat)
    ensures Key(Transposed(f), TransposedMatrix(m), j, i) == Key(f, m, i, j)
  {
  }

  /** If `f` meets the flat contract for s1 x s2 matrices, its transpose meets it for s2 x s1 matrices. */
  lemma ValidTransposes(f: Orientation, s1: nat, s2: nat)
    requires Valid(f, s1, s2)
    ensures Valid(Transposed(f), s2, s1)
  {
    var t := Transposed(f);
    forall k: nat
      ensures t.element(t.index1(k, s2, s1), s2, t.index2(k, s2, s1), s1) == k
    {
      assert f.element(f.index1(k, s1, s2), s1, f.index2(k, s1, s2), s2) == k;
    }
    forall i: nat, j: nat | i < s2 && j < s1
      ensures t.index1(t.element(i, s2, j, s1), s2, s1) == i && t.index2(t.element(i, s2, j, s1), s2, s1) == j
    {
      assert f.index2(f.element(j, s1, i, s2), s1, s2) == i && f.index1(f.element(j, s1, i, s2), s1, s2) == j;
    }
    forall i: nat, j: nat, j': nat | j < j'
      ensures t.element(i, s2, j, s1) < t.element(i, s2, j', s1)
    {
      assert f.element(j, s1, i, s2) < f.element(j', s1, i, s2);
    }
    forall i: nat, i': nat, j: nat | i < i'
      ensures t.element(i, s2, j, s1) < t.element(i', s2, j, s1)
    {
      assert f.element(j, s1, i, s2) < f.element(j, s1, i', s2);
    }
  }

  /** The rows of the transpose are contiguous runs exactly where the columns of `f` are. */
  lemma RunsTranspose(f: Orientation, s1: nat, s2: nat)
    ensures MajorRuns1(Transposed(f), s2, s1) <==> MajorRuns2(f, s1, s2)
    ensures MajorRuns2(Transposed(f), s2, s1) <==> MajorRuns1(f, s1, s2)
  {
    var t := Transposed(f);
    if MajorRuns2(f, s1, s2) {
      forall i: nat, j: nat, k: nat | t.element(i, s2, 0, s1) <= k < t.element(i, s2, j, s1)
        ensures t.index2(k, s2, s1) < j
      {
        assert f.element(0, s1, i, s2) <= k < f.element(j, s1, i, s2);
      }
    }
    if MajorRuns1(t, s2, s1) {
      forall i: nat, j: nat, k: nat | f.element(0, s1, j, s2) <= k < f.element(i, s1, j, s2)
        ensures f.index1(k, s1, s2) < i
      {
        assert t.element(j, s2, 0, s1) <= k < t.element(j, s2, i, s1);
        assert t.index2(k, s2, s1) < i;
      }
    }
    if MajorRuns1(f, s1, s2) {
      forall i: nat, j: nat, k: nat | t.element(0, s2, j, s1) <= k < t.element(i, s2, j, s1)
        ensures t.index1(k, s2, s1) < i
      {
        assert f.element(j, s1, 0, s2) <= k < f.element(j, s1, i, s2);
      }
    }
    if MajorRuns2(t, s2, s1) {
      forall i: nat, j: nat, k: nat | f.element(i, s1, 0, s2) <= k < f.element(i, s1, j, s2)
        ensures f.index2(k, s1, s2) < j
      {
        assert t.element(0, s2, i, s1) <= k < t.element(j, s2, i, s1);
        assert t.index1(k, s2, s1) < j;
      }
    }
  }

  /** If the transpose meets the flat contract for s2 x s1 matrices, `f` meets it for s1 x s2 matrices. */
  lemma ValidFromTransposed(f: Orientation, s1: nat, s2: nat)
    requires Valid(Transposed(f), s2, s1)
    ensures Valid(f, s1, s2)
  {
    var t := Transposed(f);
    forall k: nat
      ensures f.element(f.index1(k, s1, s2), s1, f.index2(k, s1, s2), s2) == k
    {
      assert t.element(t.index1(k, s2, s1), s2, t.index2(k, s2, s1), s1) == k;
    }
    forall i: nat, j: nat | i < s1 && j < s2
      ensures f.index1(f.element(i, s1, j, s2), s1, s2) == i && f.index2(f.element(i, s1, j, s2), s1, s2) == j
    {
      assert t.index2(t.element(j, s2, i, s1), s2, s1) == i && t.index1(t.element(j, s2, i, s1), s2, s1) == j;
    }
    forall i: nat, j: nat, j': nat | j < j'
      ensures f.element(i, s1, j, s2) < f.element(i, s1, j', s2)
    {
      assert t.element(j, s2, i, s1) < t.element(j', s2, i, s1);
    }
    forall i: nat, i': nat, j: nat | i < i'
      ensures f.element(i, s1, j, s2) < f.element(i', s1, j, s2)
    {
      assert t.element(j, s2, i, s1) < t.element(j, s2, i', s1);
    }
  }

  /** The transpose meets the flat contract exactly when `f` does, and its runs are the columns of `f`. */
  lemma TransposedValid(f: Orientation, s1: nat, s2: nat)
    ensures Valid(Transposed(f), s2, s1) <==> Valid(f, s1, s2)
    ensures MajorRuns1(Transposed(f), s2, s1) <==> MajorRuns2(f, s1, s2)
    ensures MajorRuns2(Transposed(f), s2, s1) <==> MajorRuns1(f, s1, s2)
  {
    if Valid(f, s1, s2) {
      ValidTransposes(f, s1, s2);
    }
    if Valid(Transposed(f), s2, s1) {
      ValidFromTransposed(f, s1, s2);
    }
    RunsTranspose(f, s1, s2);
  }

  /** The `find2` loop for `one2 >= 1` is the `find1` loop of the transpose. */
  lemma {:induction false} Seek2LowerFlips<T>(f: Orientation, m: Matrix<T>, i: nat, j: nat)
    requires Wf(m) && Valid(f, m.size1, m.size2)
    ensures Valid(Transposed(f), m.size2, m.size1)
    ensures Seek1Lower(Transposed(f), TransposedMatrix(m), j, i) == Seek2Lower(f, m, i, j)
    decreases |m.data| - LowerBound(m.data, Key(f, m, i, j))
  {
    TransposedValid(f, m.size1, m.size2);
    var t, tm := Transposed(f), TransposedMatrix(m);
    assert Key(t, tm, j, i) == Key(f, m, i, j);
    var p := LowerBound(m.data, Key(f, m, i, j));
    if p < |m.data| && f.index1(m.data[p].key, m.size1, m.size2) < i {
      var j' := f.index2(m.data[p].key, m.size1, m.size2);
      assert t.index1(m.data[p].key, m.size2, m.size1) == j' && t.index2(m.data[p].key, m.size2, m.size1) < i;
      RowShortProgress(f, m, m.data[p].key, i);
      LowerBoundPast(m.data, p, Key(f, m, i, j'));
      Seek2LowerFlips(f, m, i, j');
    } else {
      assert p < |m.data| ==> i <= t.index2(m.data[p].key, m.size2, m.size1);
    }
  }

  /** The `find2` loop for `one2 <= -1` is the `find1` loop of the transpose. */
  lemma {:induction false} Seek2UpperFlips<T>(f: Orientation, m: Matrix<T>, i: nat, j: nat)
    requires Wf(m) && Valid(f, m.size1, m.size2)
    ensures Valid(Transposed(f), m.size2, m.size1)
    ensures Seek1Upper(Transposed(f), TransposedMatrix(m), j, i) == Seek2Upper(f, m, i, j)
    decreases |m.data| - UpperBound(m.data, Key(f, m, i, j))
  {
    TransposedValid(f, m.size1, m.size2);
    var t, tm := Transposed(f), TransposedMatrix(m);
    assert Key(t, tm, j, i) == Key(f, m, i, j);
    var p := UpperBound(m.data, Key(f, m, i, j));
    if p < |m.data| && f.index1(m.data[p].key, m.size1, m.size2) < i {
      var j' := f.index2(m.data[p].key, m.size1, m.size2);
      assert t.index1(m.data[p].key, m.size2, m.size1) == j' && t.index2(m.data[p].key, m.size2, m.size1) < i;
      RowShortProgress(f, m, m.data[p].key, i);
      UpperBoundPast(m.data, p, Key(f, m, i, j'));
      Seek2UpperFlips(f, m, i, j');
    } else {
      assert p < |m.data| ==> i <= t.index2(m.data[p].key, m.size2, m.size1);
    }
  }

  /** The `find1` loop for `one1 >= 1` is the `find2` loop of the transpose. */
  lemma {:induction false} Seek1LowerFlips<T>(f: Orientation, m: Matrix<T>, i: nat, j: nat)
    requires Wf(m) && Valid(f, m.size1, m.size2)
    ensures Valid(Transposed(f), m.size2, m.size1)
    ensures Seek2Lower(Transposed(f), TransposedMatrix(m), j, i) == Seek1Lower(f, m, i, j)
    decreases |m.data| - LowerBound(m.data, Key(f, m, i, j))
  {
    TransposedValid(f, m.size1, m.size2);
    var t, tm := Transposed(f), TransposedMatrix(m);
    assert Key(t, tm, j, i) == Key(f, m, i, j);
    var p := LowerBound(m.data, Key(f, m, i, j));
    if p < |m.data| && f.index2(m.data[p].key, m.size1, m.size2) < j {
      var i' := f.index1(m.data[p].key, m.size1, m.size2);
      assert t.index2(m.data[p].key, m.size2, m.size1) == i' && t.index1(m.data[p].key, m.size2, m.size1) < j;
      ColumnShortProgress(f, m, m.data[p].key, j);
      LowerBoundPast(m.data, p, Key(f, m, i', j));
      Seek1LowerFlips(f, m, i', j);
    } else {
      assert p < |m.data| ==> j <= t.index1(m.data[p].key, m.size2, m.size1);
    }
  }

  /** The `find1` loop for `one1 <= -1` is the `find2` loop of the transpose. */
  lemma {:induction false} Seek1UpperFlips<T>(f: Orientation, m: Matrix<T>, i: nat, j: nat)
    requires Wf(m) && Valid(f, m.size1, m.size2)
    ensures Valid(Transposed(f), m.size2, m.size1)
    ensures Seek2Upper(Transposed(f), TransposedMatrix(m), j, i) == Seek1Upper(f, m, i, j)
    decreases |m.data| - UpperBound(m.data, Key(f, m, i, j))
  {
    TransposedValid(f, m.size1, m.size2);
    var t, tm := Transposed(f), TransposedMatrix(m);
    assert Key(t, tm, j, i) == Key(f, m, i, j);
    var p := UpperBound(m.data, Key(f, m, i, j));
    if p < |m.data| && f.index2(m.data[p].key, m.size1, m.size2) < j {
      var i' := f.index1(m.data[p].key, m.size1, m.size2);
      assert t.index2(m.data[p].key, m.size2, m.size1) == i' && t.index1(m.data[p].key, m.size2, m.size1) < j;
      ColumnShortProgress(f, m, m.data[p].key, j);
      UpperBoundPast(m.data, p, Key(f, m, i', j));
      Seek1UpperFlips(f, m, i', j);
    } else {
      assert p < |m.data| ==> j <= t.index1(m.data[p].key, m.size2, m.size1);
    }
  }

  /** `find2 (i, j)` is `find1 (j, i)` of the transpose, with the indices of the result exchanged. */
  lemma Find2Flips<T>(f: Orientation, id: MatrixId, m: Matrix<T>, i: nat, j: nat)
    requires Wf(m) && Valid(f, m.size1, m.size2)
    ensures Valid(Transposed(f), m.size2, m.size1)
    ensures Find1(Transposed(f), id, TransposedMatrix(m), j, i) == FlipResult(Find2(f, id, m, i, j))
  {
    Seek2LowerFlips(f, m, i, j);
    Seek2UpperFlips(f, m, i, j);
  }

  /** `find1 (i, j)` is `find2 (j, i)` of the transpose, with the indices of the result exchanged. */
  lemma Find1Flips<T>(f: Orientation, id: MatrixId, m: Matrix<T>, i: nat, j: nat)
    requires Wf(m) && Valid(f, m.size1, m.size2)
    ensures Valid(Transposed(f), m.size2, m.size1)
    ensures Find2(Transposed(f), id, TransposedMatrix(m), j, i) == FlipResult(Find1(f, id, m, i, j))
  {
    Seek1LowerFlips(f, m, i, j);
    Seek1UpperFlips(f, m, i, j);
  }

  /** The transpose decodes a cursor's element to the exchanged indices. */
  lemma IndicesFlip<T>(f: Orientation, m: Matrix<T>, c: Cursor)
    requires c.pos < |m.data|
    ensures Index1(Transposed(f), TransposedMatrix(m), Flip(c)) == Index2(f, m, c)
    ensures Index2(Transposed(f), TransposedMatrix(m), Flip(c)) == Index1(f, m, c)
  {
  }

  /** `begin2 ()` and `end2 ()` are `begin1 ()` and `end1 ()` of the transpose, and the other way round. */
  lemma BoundsFlip<T>(f: Orientation, id: MatrixId, m: Matrix<T>)
    requires Wf(m) && Valid(f, m.size1, m.size2)
    ensures Valid(Transposed(f), m.size2, m.size1)
    ensures Begin1(Transposed(f), id, TransposedMatrix(m)) == FlipResult(Begin2(f, id, m))
    ensures End1(Transposed(f), id, TransposedMatrix(m)) == FlipResult(End2(f, id, m))
    ensures Begin2(Transposed(f), id, TransposedMatrix(m)) == FlipResult(Begin1(f, id, m))
    ensures End2(Transposed(f), id, TransposedMatrix(m)) == FlipResult(End1(f, id, m))
  {
    Find2Flips(f, id, m, 0, 0);
    Find2Flips(f, id, m, 0, m.size2);
    Find1Flips(f, id, m, 0, 0);
    Find1Flips(f, id, m, m.size1, 0);
  }

  /** `iterator2::begin ()` and `end ()` are `iterator1::begin ()` and `end ()` of the transpose. */
  lemma ColumnRunFlips<T>(f: Orientation, m: Matrix<T>, c: Cursor)
    requires Wf(m) && Valid(f, m.size1, m.size2) && c.pos < |m.data|
    ensures Valid(Transposed(f), m.size2, m.size1)
    ensures RowBegin(Transposed(f), TransposedMatrix(m), Flip(c)) == FlipResult(ColumnBegin(f, m, c))
    ensures RowEnd(Transposed(f), TransposedMatrix(m), Flip(c)) == FlipResult(ColumnEnd(f, m, c))
  {
    Find1Flips(f, c.owner, m, 0, Index2(f, m, c));
    Find1Flips(f, c.owner, m, m.size1, Index2(f, m, c));
  }

  // ---------------------------------------------------------------- columns

  /**
   * A layout walked column by column, the column twin of `RowWise`: whole
   * columns are contiguous key ranges in column order, the end of column `j`
   * is the start of column `j + 1`, `iterator1` takes single forward storage
   * steps, and a unit column stride steps from each column to the next.
   */
  ghost predicate ColumnWise(f: Orientation, s1: nat, s2: nat) {
    && Valid(f, s1, s2)
    && (forall j: nat, k: nat :: f.element(0, s1, j, s2) <= k ==> j <= f.index2(k, s1, s2))
    && (forall j: nat :: f.element(s1, s1, j, s2) == f.element(0, s1, j + 1, s2))
    && f.one1(s1, s2) == 1 && f.forward1
    && f.one2(s1, s2) >= 1
    && (Unit(f.one2(s1, s2)) ==> f.forward2 && forall k: nat :: f.element(0, s1, f.index2(k, s1, s2) + 1, s2) == k + 1)
  }

  /** Columns in order for `f` are rows in order for the transpose. */
  lemma ColumnsInOrderTranspose(f: Orientation, s1: nat, s2: nat)
    requires forall j: nat, k: nat :: f.element(0, s1, j, s2) <= k ==> j <= f.index2(k, s1, s2)
    ensures RowsInOrder(Transposed(f), s2, s1)
  {
    var t := Transposed(f);
    forall i: nat, k: nat | t.element(i, s2, 0, s1) <= k
      ensures i <= t.index1(k, s2, s1)
    {
      assert f.element(0, s1, i, s2) <= k;
    }
  }

  /** The column boundaries of `f` are the row boundaries of the transpose. */
  lemma ColumnEndsTranspose(f: Orientation, s1: nat, s2: nat)
    requires forall j: nat :: f.element(s1, s1, j, s2) == f.element(0, s1, j + 1, s2)
    requires Unit(f.one2(s1, s2)) ==> f.forward2 && forall k: nat :: f.element(0, s1, f.index2(k, s1, s2) + 1, s2) == k + 1
    ensures forall i: nat :: Transposed(f).element(i, s2, s1, s1) == Transposed(f).element(i + 1, s2, 0, s1)
    ensures Unit(Transposed(f).one1(s2, s1)) ==>
              Transposed(f).forward1 && forall k: nat :: Transposed(f).element(Transposed(f).index1(k, s2, s1) + 1, s2, 0, s1) == k + 1
  {
    var t := Transposed(f);
    forall i: nat
      ensures t.element(i, s2, s1, s1) == t.element(i + 1, s2, 0, s1)
    {
      assert f.element(s1, s1, i, s2) == f.element(0, s1, i + 1, s2);
    }
    if Unit(t.one1(s2, s1)) {
      forall k: nat
        ensures t.element(t.index1(k, s2, s1) + 1, s2, 0, s1) == k + 1
      {
        assert f.element(0, s1, f.index2(k, s1, s2) + 1, s2) == k + 1;
      }
    }
  }

  /** A column-wise layout is a row-wise layout of the transpose. */
  lemma ColumnWiseTransposes(f: Orientation, s1: nat, s2: nat)
    requires ColumnWise(f, s1, s2)
    ensures RowWise(Transposed(f), s2, s1)
  {
    ValidTransposes(f, s1, s2);
    ColumnsInOrderTranspose(f, s1, s2);
    ColumnEndsTranspose(f, s1, s2);
  }

  /** A key between the starts of columns `y` and `y + 1` lies in column `y`. */
  lemma ColumnBetween<T>(f: Orientation, m: Matrix<T>, k: nat, y: nat)
    requires ColumnWise(f, m.size1, m.size2)
    requires Key(f, m, 0, y) <= k < Key(f, m, 0, y + 1)
    ensures f.index2(k, m.size1, m.size2) == y
  {
    var x, r := f.index1(k, m.size1, m.size2), f.index2(k, m.size1, m.size2);
    assert Key(f, m, x, r) == k;
    assert Key(f, m, 0, r) <= k;
  }

  /** `find2 (0, j)` never loops: no row is before 0. */
  lemma Find2FromTop<T>(f: Orientation, id: MatrixId, m: Matrix<T>, j: nat)
    requires Wf(m) && Valid(f, m.size1, m.size2) && f.one2(m.size1, m.size2) >= 1
    ensures Find2(f, id, m, 0, j) == Success(Cursor(id, 0, j, LowerBound(m.data, Key(f, m, 0, j))))
  {
  }

  /**
   * For a column cursor at the start of its column: the nested `begin ()` is
   * the same position and the nested `end ()` is the start of the next column.
   */
  lemma ColumnSpan<T>(f: Orientation, m: Matrix<T>, c: Cursor, col: nat)
    requires Wf(m) && ColumnWise(f, m.size1, m.size2)
    requires c.pos < |m.data| && c.pos == LowerBound(m.data, Key(f, m, 0, col))
    ensures ColumnBegin(f, m, c) == Success(Cursor(c.owner, 0, Index2(f, m, c), c.pos))
    ensures ColumnEnd(f, m, c) ==
              Success(Cursor(c.owner, m.size1, Index2(f, m, c), LowerBound(m.data, Key(f, m, 0, Index2(f, m, c) + 1))))
  {
    ColumnWiseTransposes(f, m.size1, m.size2);
    IndicesFlip(f, m, c);
    RowSpan(Transposed(f), TransposedMatrix(m), Flip(c), col);
    ColumnRunFlips(f, m, c);
  }

  /** With a unit column stride, `++` of `iterator2` is one storage step, which is where the next column starts. */
  lemma ColumnStepUnit<T>(f: Orientation, m: Matrix<T>, c: Cursor)
    requires Wf(m) && c.pos < |m.data| && Unit(f.one2(m.size1, m.size2)) && f.forward2
    requires forall k: nat :: f.element(0, m.size1, f.index2(k, m.size1, m.size2) + 1, m.size2) == k + 1
    ensures LowerBound(m.data, Key(f, m, 0, Index2(f, m, c) + 1)) == c.pos + 1
  {
    var k := m.data[c.pos].key;
    var next := Key(f, m, 0, Index2(f, m, c) + 1);
    assert f.element(0, m.size1, f.index2(k, m.size1, m.size2) + 1, m.size2) == k + 1;
    forall a | 0 <= a < c.pos + 1
      ensures m.data[a].key < next
    {
      assert m.data[a].key <= m.data[c.pos].key;
    }
    LowerBoundIs(m.data, next, c.pos + 1);
  }

  /** With a longer column stride, `++` of `iterator2` from row 0 searches from the top of the next column. */
  lemma ColumnStepSearch<T>(f: Orientation, m: Matrix<T>, c: Cursor)
    requires Wf(m) && Valid(f, m.size1, m.size2) && f.one2(m.size1, m.size2) >= 1 && !Unit(f.one2(m.size1, m.size2))
    requires c.pos < |m.data| && c.i == 0
    ensures Increment2(f, m, c) == Success(c.(pos := LowerBound(m.data, Key(f, m, 0, Index2(f, m, c) + 1))))
  {
    Find2FromTop(f, c.owner, m, Index2(f, m, c) + 1);
  }

  /** The column twin of `NextRow`: `++` of a column cursor at row 0 lands on the start of the next column. */
  lemma NextColumn<T>(f: Orientation, m: Matrix<T>, c: Cursor)
    requires Wf(m) && ColumnWise(f, m.size1, m.size2) && c.pos < |m.data| && c.i == 0
    ensures Increment2(f, m, c) == Success(c.(pos := LowerBound(m.data, Key(f, m, 0, Index2(f, m, c) + 1))))
  {
    if Unit(f.one2(m.size1, m.size2)) {
      ColumnStepUnit(f, m, c);
      UnitRetreat2Undoes(f, m, c);
    } else {
      ColumnStepSearch(f, m, c);
    }
  }

  /** A column cursor found at row 0 moves with `++` to the start of the next column, strictly later in storage. */
  lemma ColumnStep<T>(f: Orientation, m: Matrix<T>, c: Cursor)
    requires Wf(m) && ColumnWise(f, m.size1, m.size2)
    requires c.pos < |m.data| && c.i == 0
    ensures c.pos < LowerBound(m.data, Key(f, m, 0, Index2(f, m, c) + 1))
    ensures Increment2(f, m, c) == Success(c.(pos := LowerBound(m.data, Key(f, m, 0, Index2(f, m, c) + 1))))
  {
    LowerBoundPast(m.data, c.pos, Key(f, m, 0, Index2(f, m, c) + 1));
    NextColumn(f, m, c);
  }

  /** `++` from a column start at row 0 lands on the start of the next column, which is a column boundary again. */
  lemma IncrementToNextColumnStart<T>(f: Orientation, m: Matrix<T>, c: Cursor)
    requires Wf(m) && ColumnWise(f, m.size1, m.size2)
    requires c.pos < |m.data| && c.i == 0
    ensures c.pos < LowerBound(m.data, Key(f, m, 0, Index2(f, m, c) + 1))
    ensures Increment2(f, m, c) == Success(c.(pos := LowerBound(m.data, Key(f, m, 0, Index2(f, m, c) + 1))))
    ensures ColumnStartOf(f, m, Increment2(f, m, c).value) == Increment2(f, m, c).value.pos
  {
    var p1 := LowerBound(m.data, Key(f, m, 0, Index2(f, m, c) + 1));
    ColumnStep(f, m, c);
    if p1 < |m.data| {
      ColumnStart(f, m, Index2(f, m, c) + 1, p1);
    }
  }

  /** A column boundary that holds an element is the start of that element's column. */
  lemma ColumnStart<T>(f: Orientation, m: Matrix<T>, col: nat, p: nat)
    requires Wf(m) && ColumnWise(f, m.size1, m.size2)
    requires p == LowerBound(m.data, Key(f, m, 0, col)) && p < |m.data|
    ensures LowerBound(m.data, Key(f, m, 0, f.index2(m.data[p].key, m.size1, m.size2))) == p
  {
    var k := m.data[p].key;
    var x, y := f.index1(k, m.size1, m.size2), f.index2(k, m.size1, m.size2);
    assert Key(f, m, x, y) == k;
    if 0 < x {
      assert Key(f, m, 0, y) < Key(f, m, x, y);
    }
    assert col <= y;
    if col < y {
      assert Key(f, m, 0, col) < Key(f, m, 0, y);
    }
    LowerBoundIs(m.data, Key(f, m, 0, y), p);
  }

  /**
   * The corrected step back of `iterator2` with a non-unit stride: from a
   * column boundary whose previous element lies in column `y`, it lands on
   * the start of column `y`.
   */
  lemma RetreatToColumnStart<T>(f: Orientation, m: Matrix<T>, c: Cursor, y: nat)
    requires Wf(m) && ColumnWise(f, m.size1, m.size2) && !Unit(f.one2(m.size1, m.size2))
    requires c.pos <= |m.data| && 0 < c.pos && c.i == 0 && c.pos == ColumnStartOf(f, m, c)
    requires Key(f, m, 0, y) <= m.data[c.pos - 1].key < Key(f, m, 0, y + 1)
    ensures Retreat2(f, m, c) == Success(c.(pos := LowerBound(m.data, Key(f, m, 0, y))))
  {
    ColumnBetween(f, m, m.data[c.pos - 1].key, y);
    Find2FromTop(f, c.owner, m, y);
  }

  /**
   * The corrected step back undoes `++` of `iterator2`: a column cursor found
   * at row 0 at the start of its column comes back to itself.
   */
  lemma RetreatUndoesIncrement2<T>(f: Orientation, m: Matrix<T>, c: Cursor)
    requires Wf(m) && ColumnWise(f, m.size1, m.size2)
    requires c.pos < |m.data| && c.i == 0 && c.pos == ColumnStartOf(f, m, c)
    ensures Increment2(f, m, c).Success?
    ensures c.pos < Increment2(f, m, c).value.pos <= |m.data|
    ensures ColumnStartOf(f, m, Increment2(f, m, c).value) == Increment2(f, m, c).value.pos
    ensures Retreat2(f, m, Increment2(f, m, c).value) == Success(c)
  {
    IncrementToNextColumnStart(f, m, c);
    if Unit(f.one2(m.size1, m.size2)) {
      UnitRetreat2Undoes(f, m, c);
    } else {
      RetreatFromNextColumn(f, m, c);
    }
  }

  /** With a longer column stride, the corrected step back from the start of the next column returns to `c`. */
  lemma RetreatFromNextColumn<T>(f: Orientation, m: Matrix<T>, c: Cursor)
    requires Wf(m) && ColumnWise(f, m.size1, m.size2) && !Unit(f.one2(m.size1, m.size2))
    requires c.pos < |m.data| && c.i == 0 && c.pos == ColumnStartOf(f, m, c)
    requires c.pos < LowerBound(m.data, Key(f, m, 0, Index2(f, m, c) + 1))
    requires ColumnStartOf(f, m, c.(pos := LowerBound(m.data, Key(f, m, 0, Index2(f, m, c) + 1)))) ==
               LowerBound(m.data, Key(f, m, 0, Index2(f, m, c) + 1))
    ensures Retreat2(f, m, c.(pos := LowerBound(m.data, Key(f, m, 0, Index2(f, m, c) + 1)))) == Success(c)
  {
    var y := Index2(f, m, c);
    var c1 := c.(pos := LowerBound(m.data, Key(f, m, 0, y + 1)));
    assert m.data[c.pos].key <= m.data[c1.pos - 1].key;
    RetreatToColumnStart(f, m, c1, y);
  }

  /** The start of the column after `y` is the boundary `c` sits on when `y` holds the element just before it. */
  lemma NextColumnBoundary<T>(f: Orientation, m: Matrix<T>, c: Cursor, y: nat)
    requires Wf(m) && ColumnWise(f, m.size1, m.size2)
    requires c.pos <= |m.data| && 0 < c.pos && c.pos == ColumnStartOf(f, m, c)
    requires m.data[c.pos - 1].key < Key(f, m, 0, y + 1)
    requires f.index2(m.data[c.pos - 1].key, m.size1, m.size2) == y
    ensures LowerBound(m.data, Key(f, m, 0, y + 1)) == c.pos
  {
    ColumnWiseTransposes(f, m.size1, m.size2);
    if c.pos < |m.data| {
      IndicesFlip(f, m, c);
    }
    NextBoundary(Transposed(f), TransposedMatrix(m), Flip(c), y);
  }

  /**
   * `++` of `iterator2` undoes its corrected step back: a column cursor found
   * at row 0 at the start of a column that is not the first (or at the
   * storage end) steps back and forward to itself.
   */
  lemma IncrementUndoesRetreat2<T>(f: Orientation, m: Matrix<T>, c: Cursor)
    requires Wf(m) && ColumnWise(f, m.size1, m.size2)
    requires c.pos <= |m.data| && 0 < c.pos && c.i == 0 && c.pos == ColumnStartOf(f, m, c)
    ensures Retreat2(f, m, c).Success? && Retreat2(f, m, c).value.pos < c.pos
    ensures Increment2(f, m, Retreat2(f, m, c).value) == Success(c)
  {
    if Unit(f.one2(m.size1, m.size2)) {
      UnitRetreat2Undoes(f, m, c.(pos := c.pos - 1));
    } else {
      var y := f.index2(m.data[c.pos - 1].key, m.size1, m.size2);
      RetreatToPreviousColumn(f, m, c, y);
      IncrementFromPreviousColumn(f, m, c, y);
    }
  }

  /** The corrected step back from a column boundary lands on the start of the column `y` of the element just before it. */
  lemma RetreatToPreviousColumn<T>(f: Orientation, m: Matrix<T>, c: Cursor, y: nat)
    requires Wf(m) && ColumnWise(f, m.size1, m.size2) && !Unit(f.one2(m.size1, m.size2))
    requires c.pos <= |m.data| && 0 < c.pos && c.i == 0 && c.pos == ColumnStartOf(f, m, c)
    requires y == f.index2(m.data[c.pos - 1].key, m.size1, m.size2)
    ensures LowerBound(m.data, Key(f, m, 0, y)) < c.pos
    ensures Retreat2(f, m, c) == Success(c.(pos := LowerBound(m.data, Key(f, m, 0, y))))
  {
    var k := m.data[c.pos - 1].key;
    assert Key(f, m, 0, y) <= k by {
      assert Key(f, m, f.index1(k, m.size1, m.size2), y) == k;
    }
    RetreatToColumnStart(f, m, c, y);
  }

  /** From the start of column `y`, `++` comes back to the boundary after column `y` that `c` sits on. */
  lemma IncrementFromPreviousColumn<T>(f: Orientation, m: Matrix<T>, c: Cursor, y: nat)
    requires Wf(m) && ColumnWise(f, m.size1, m.size2)
    requires c.pos <= |m.data| && 0 < c.pos && c.i == 0 && c.pos == ColumnStartOf(f, m, c)
    requires y == f.index2(m.data[c.pos - 1].key, m.size1, m.size2)
    requires LowerBound(m.data, Key(f, m, 0, y)) < c.pos
    ensures Increment2(f, m, c.(pos := LowerBound(m.data, Key(f, m, 0, y)))) == Success(c)
  {
    var k := m.data[c.pos - 1].key;
    var q := LowerBound(m.data, Key(f, m, 0, y));
    assert Key(f, m, 0, y) <= m.data[q].key < Key(f, m, 0, y + 1) by {
      assert m.data[q].key <= k;
    }
    ColumnBetween(f, m, m.data[q].key, y);
    NextColumn(f, m, c.(pos := q));
    NextColumnBoundary(f, m, c, y);
  }

  // ------------------------------------------------------ column traversal

  /** `begin2 ()` stands on the first stored element and `end2 ()` at the storage end. */
  lemma ColumnBounds<T>(f: Orientation, id: MatrixId, m: Matrix<T>)
    requires Wf(m) && ColumnWise(f, m.size1, m.size2) && KeysInRange(f, m)
    ensures Begin2(f, id, m) == Success(Cursor(id, 0, 0, 0))
    ensures End2(f, id, m) == Success(Cursor(id, 0, m.size2, |m.data|))
  {
    Find2FromTop(f, id, m, 0);
    Find2FromTop(f, id, m, m.size2);
    forall a | 0 <= a < |m.data|
      ensures m.data[a].key < Key(f, m, 0, m.size2)
    {
      BeforeLastColumnEnd(f, m, m.data[a].key);
    }
    LowerBoundIs(m.data, Key(f, m, 0, m.size2), |m.data|);
    OriginLeast(f, m);
    LowerBoundIs(m.data, Key(f, m, 0, 0), 0);
  }

  /** In a column-wise layout, the key of an in-range element is below the key of (0, size2). */
  lemma BeforeLastColumnEnd<T>(f: Orientation, m: Matrix<T>, k: nat)
    requires ColumnWise(f, m.size1, m.size2)
    requires f.index1(k, m.size1, m.size2) < m.size1 && f.index2(k, m.size1, m.size2) < m.size2
    ensures k < Key(f, m, 0, m.size2)
  {
    var x, y := f.index1(k, m.size1, m.size2), f.index2(k, m.size1, m.size2);
    assert Key(f, m, x, y) == k;
    assert Key(f, m, x, y) < Key(f, m, m.size1, y);
    assert Key(f, m, m.size1, y) == Key(f, m, 0, y + 1);
    if y + 1 < m.size2 {
      assert Key(f, m, 0, y + 1) < Key(f, m, 0, m.size2);
    }
  }

  /** The inner loop: a row cursor from `start` to `stop` appends the elements stored in between. */
  method VisitColumn<T>(f: Orientation, m: Matrix<T>, start: Cursor, stop: Cursor, visited0: seq<(nat, nat, T)>)
    returns (visited: seq<(nat, nat, T)>)
    requires Wf(m) && ColumnWise(f, m.size1, m.size2) && KeysInRange(f, m)
    requires start.owner == stop.owner && start.pos <= stop.pos <= |m.data|
    requires visited0 == Decoded(f, m)[..start.pos]
    ensures visited == Decoded(f, m)[..stop.pos]
  {
    var it1 := start;
    visited := visited0;
    while !Equal(it1, stop).value
      invariant it1.owner == stop.owner
      invariant start.pos <= it1.pos <= stop.pos
      invariant visited == Decoded(f, m)[..it1.pos]
      decreases stop.pos - it1.pos
    {
      var v := Deref(f, m, it1).value;
      visited := visited + [(Index1(f, m, it1), Index2(f, m, it1), v)];
      assert Decoded(f, m)[..it1.pos + 1] == Decoded(f, m)[..it1.pos] + [Decoded(f, m)[it1.pos]];
      it1 := Increment1(f, m, it1).value;
    }
  }

  /**
   * One round of the outer loop over columns: walk the column cursor's
   * `begin ()` .. `end ()`, then `++` the column cursor, which lands on the
   * next column's start.
   */
  method VisitColumnAt<T>(f: Orientation, m: Matrix<T>, it2: Cursor, ghost col: nat, visited0: seq<(nat, nat, T)>)
    returns (next: Cursor, visited: seq<(nat, nat, T)>, ghost col': nat)
    requires Wf(m) && ColumnWise(f, m.size1, m.size2) && KeysInRange(f, m)
    requires it2.pos < |m.data| && it2.i == 0 && it2.pos == LowerBound(m.data, Key(f, m, 0, col))
    requires visited0 == Decoded(f, m)[..it2.pos]
    ensures next.owner == it2.owner && next.i == 0
    ensures it2.pos < next.pos <= |m.data| && next.pos == LowerBound(m.data, Key(f, m, 0, col'))
    ensures visited == Decoded(f, m)[..next.pos]
  {
    ColumnSpan(f, m, it2, col);
    ColumnStep(f, m, it2);
    var it1 := ColumnBegin(f, m, it2).value;
    var end1 := ColumnEnd(f, m, it2).value;
    visited := VisitColumn(f, m, it1, end1, visited0);
    col' := Index2(f, m, it2) + 1;
    next := Increment2(f, m, it2).value;
  }

  /**
   * The nested traversal `begin2 ()` .. `end2 ()`, and inside it the column
   * cursor's `begin ()` .. `end ()`: for a layout whose runs are columns it
   * visits exactly the stored elements, in storage order.
   */
  method TraverseColumns<T>(f: Orientation, id: MatrixId, m: Matrix<T>) returns (visited: seq<(nat, nat, T)>)
    requires Wf(m) && ColumnWise(f, m.size1, m.size2) && KeysInRange(f, m)
    ensures visited == Decoded(f, m)
  {
    ColumnBounds(f, id, m);
    var it2 := Begin2(f, id, m).value;
    var end2 := End2(f, id, m).value;
    ghost var col: nat := 0;
    visited := [];
    while !Equal(it2, end2).value
      invariant it2.owner == id && it2.i == 0 && end2.owner == id && end2.pos == |m.data|
      invariant it2.pos <= |m.data| && it2.pos == LowerBound(m.data, Key(f, m, 0, col))
      invariant visited == Decoded(f, m)[..it2.pos]
      decreases |m.data| - it2.pos
    {
      it2, visited, col := VisitColumnAt(f, m, it2, col, visited);
    }
    assert Decoded(f, m)[..|m.data|] == Decoded(f, m);
  }

  /** Column-major order is a column-wise layout whenever there is at least one row. */
  lemma ColumnMajorColumnWise(s1: nat, s2: nat)
    requires 0 < s1
    ensures ColumnWise(ColumnMajor(), s1, s2)
  {
    ColumnMajorValid(s1, s2);
    ColumnMajorColumns(s1, s2);
    ColumnMajorEnds(s1, s2);
    ColumnMajorUnitColumns(s1, s2);
  }

  /** Column-major keys keep whole columns together. */
  lemma ColumnMajorColumns(s1: nat, s2: nat)
    requires 0 < s1
    ensures forall j: nat, k: nat :: ColumnMajor().element(0, s1, j, s2) <= k ==> j <= ColumnMajor().index2(k, s1, s2)
  {
    var o := ColumnMajor();
    forall j: nat, k: nat | o.element(0, s1, j, s2) <= k
      ensures j <= o.index2(k, s1, s2)
    {
      RowAtLeast(k, j, s1);
    }
  }

  /** The end of column `j` is the start of column `j + 1`. */
  lemma ColumnMajorEnds(s1: nat, s2: nat)
    ensures forall j: nat :: ColumnMajor().element(s1, s1, j, s2) == ColumnMajor().element(0, s1, j + 1, s2)
  {
    var o := ColumnMajor();
    forall j: nat
      ensures o.element(s1, s1, j, s2) == o.element(0, s1, j + 1, s2)
    {
      assert (j + 1) * s1 == j * s1 + s1;
    }
  }

  /** A column-major column stride is a unit only with a single row, where keys are the column indices themselves. */
  lemma ColumnMajorUnitColumns(s1: nat, s2: nat)
    requires 0 < s1
    ensures Unit(ColumnMajor().one2(s1, s2)) ==>
              ColumnMajor().forward2 && forall k: nat :: ColumnMajor().element(0, s1, ColumnMajor().index2(k, s1, s2) + 1, s2) == k + 1
  {
    if s1 == 1 {
      var o := ColumnMajor();
      forall k: nat
        ensures o.element(0, s1, o.index2(k, s1, s2) + 1, s2) == k + 1
      {
        assert o.index2(k, s1, s2) == k;
      }
    }
  }

  /** The column traversal over the column-major layout. */
  method ColumnMajorTraversal<T>(id: MatrixId, m: Matrix<T>) returns (visited: seq<(nat, nat, T)>)
    requires Wf(m) && 0 < m.size1 && KeysInRange(ColumnMajor(), m)
    ensures visited == Decoded(ColumnMajor(), m)
  {
    ColumnMajorColumnWise(m.size1, m.size2);
    visited := TraverseColumns(ColumnMajor(), id, m);
  }
}
