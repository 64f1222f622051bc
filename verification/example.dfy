/**
 * Concrete 3 x 3 matrices: three insertions, a read of a hole, the nested
 * traversal of what was stored, the column range `begin2 ()` .. `end2 ()`,
 * and the step back over an empty row or column.
 */
module Example {
  import opened Checks
  import opened OrderedStore
  import opened Orientation
  import opened SparseMatrix
  import opened Traversal
  import opened Transpose

  /** The empty 3 x 3 matrix. */
  function Empty(): (m: Matrix<int>)
    ensures m.data == [] && m.size1 == 3 && m.size2 == 3
  {
    Create(3, 3, 3)
  }

  /** Inserting (0, 0) = 1 into the empty matrix stores key 0. */
  lemma FirstInsert()
    ensures SparseMatrix.Insert(RowMajor(), Empty(), 0, 0, 1).data == [Entry(0, 1)]
  {
    assert Key(RowMajor(), Empty(), 0, 0) == 0;
  }

  /** Inserting (1, 2) = 5 next stores key 5 after key 0. */
  lemma SecondInsert()
    ensures SparseMatrix.Insert(RowMajor(), Matrix(3, 3, 3, [Entry(0, 1)]), 1, 2, 5).data == [Entry(0, 1), Entry(5, 5)]
  {
    var s := [Entry(0, 1)];
    assert Key(RowMajor(), Matrix(3, 3, 3, s), 1, 2) == 5;
    assert LowerBound(s, 5) == 1;
  }

  /** Inserting (2, 1) = 9 last stores key 7 after key 5. */
  lemma ThirdInsert()
    ensures SparseMatrix.Insert(RowMajor(), Matrix(3, 3, 3, [Entry(0, 1), Entry(5, 5)]), 2, 1, 9).data ==
              [Entry(0, 1), Entry(5, 5), Entry(7, 9)]
  {
    var s := [Entry(0, 1), Entry(5, 5)];
    assert Key(RowMajor(), Matrix(3, 3, 3, s), 2, 1) == 7;
    assert LowerBound(s[1..], 7) == 1;
    assert LowerBound(s, 7) == 2;
  }

  /** The 3 x 3 matrix holding (0, 0) = 1, (1, 2) = 5 and (2, 1) = 9, as row-major keys 0, 5 and 7. */
  function Three(): Matrix<int> {
    Matrix(3, 3, 3, [Entry(0, 1), Entry(5, 5), Entry(7, 9)])
  }

  /** The three insertions into the empty matrix build exactly `Three ()`. */
  lemma InsertsBuildThree()
    ensures var f := RowMajor();
            SparseMatrix.Insert(f, SparseMatrix.Insert(f, SparseMatrix.Insert(f, Empty(), 0, 0, 1), 1, 2, 5), 2, 1, 9) == Three()
  {
    FirstInsert();
    SecondInsert();
    ThirdInsert();
  }

  /** The three stored keys decode back to the inserted elements, row by row. */
  lemma ThreeDecoded()
    ensures KeysInRange(RowMajor(), Three())
    ensures Decoded(RowMajor(), Three()) == [(0, 0, 1), (1, 2, 5), (2, 1, 9)]
  {
    var m := Three();
    assert RowMajor().index1(5, 3, 3) == 1 && RowMajor().index2(5, 3, 3) == 2;
    assert RowMajor().index1(7, 3, 3) == 2 && RowMajor().index2(7, 3, 3) == 1;
    assert Decoded(RowMajor(), m)[1] == (1, 2, 5);
    assert Decoded(RowMajor(), m)[2] == (2, 1, 9);
  }

  /** The stored keys are ascending, and none of them is 1. */
  lemma ThreeKeys()
    ensures Wf(Three()) && !HasKey(Three().data, 1)
  {
    var s := Three().data;
    assert s[0].key == 0 && s[1].key == 5 && s[2].key == 7;
  }

  /** The hole (0, 1) of the stored matrix reads as 0. */
  lemma HoleReadsZero()
    ensures Wf(Three()) && Get(RowMajor(), Three(), 0, 1, 0) == 0
  {
    ThreeKeys();
    assert Key(RowMajor(), Three(), 0, 1) == 1;
  }

  /**
   * Widening `Three ()` to 3 x 4 keeps its entries, whose keys now decode
   * with four columns: key 5 stood for (1, 2) and now stands for (1, 1).
   */
  lemma ResizeMovesElements()
    ensures var r := SparseMatrix.Resize(Three(), 3, 4, 3);
            Get(RowMajor(), r, 1, 2, 0) == 0 && Get(RowMajor(), r, 1, 1, 0) == 5
  {
    ThreeKeys();
    var r := SparseMatrix.Resize(Three(), 3, 4, 3);
    assert Key(RowMajor(), r, 1, 2) == 6 && Key(RowMajor(), r, 1, 1) == 5;
  }

  /** The 3 x 3 matrix holding (0, 0) = 1 and (2, 1) = 9: row 1 is empty. */
  function Gap(): Matrix<int> {
    Matrix(3, 3, 2, [Entry(0, 1), Entry(7, 9)])
  }

  /** `Gap ()` is sorted, and row-major order meets the functor's contract for 3 x 3 matrices. */
  lemma GapWf()
    ensures Wf(Gap()) && Valid(RowMajor(), 3, 3) && RowWise(RowMajor(), 3, 3)
    ensures Gap().data[0].key == 0 && Gap().data[1].key == 7
    ensures RowMajor().index1(7, 3, 3) == 2
  {
    RowMajorValid(3, 3);
    RowMajorRowWise(3, 3);
  }

  /** `++` from row 0 of `Gap ()` skips the empty row 1 and lands on row 2. */
  lemma GapForward()
    ensures Wf(Gap()) && Valid(RowMajor(), 3, 3)
    ensures Increment1(RowMajor(), Gap(), Cursor(0, 0, 0, 0)) == Success(Cursor(0, 0, 0, 1))
  {
    var f, m := RowMajor(), Gap();
    GapWf();
    LowerBoundIs(m.data, Key(f, m, 1, 0), 1);
    NextRow(f, m, Cursor(0, 0, 0, 0));
  }

  /** `--` as written from row 2 of `Gap ()` searches forward from row 1 and stays where it is. */
  lemma GapDecrementStays()
    ensures Wf(Gap()) && Valid(RowMajor(), 3, 3)
    ensures Decrement1(RowMajor(), Gap(), Cursor(0, 0, 0, 1)) == Success(Cursor(0, 0, 0, 1))
  {
    var f, m := RowMajor(), Gap();
    GapWf();
    LowerBoundIs(m.data, Key(f, m, 1, 0), 1);
    Find1NoSkip(f, 0, m, 1);
  }

  /**
   * The corrected step back from row 2 of `Gap ()` returns to row 0, where
   * `--` as written stays on row 2.
   */
  lemma GapRetreat()
    ensures Wf(Gap()) && Valid(RowMajor(), 3, 3)
    ensures Retreat1(RowMajor(), Gap(), Cursor(0, 0, 0, 1)) == Success(Cursor(0, 0, 0, 0))
  {
    var f, m := RowMajor(), Gap();
    GapWf();
    LowerBoundIs(m.data, Key(f, m, 2, 0), 1);
    LowerBoundIs(m.data, Key(f, m, 0, 0), 0);
    Find1NoSkip(f, 0, m, 0);
  }

  /** Read column-major, `Gap ()` holds (0, 0) = 1 and (1, 2) = 9: column 1 is empty. */
  lemma GapColumnsWf()
    ensures Wf(Gap()) && Valid(ColumnMajor(), 3, 3)
    ensures ColumnMajor().index2(0, 3, 3) == 0 && ColumnMajor().index2(7, 3, 3) == 2
  {
    ColumnMajorValid(3, 3);
  }

  /** `--` of `iterator2` as written from column 2 searches forward from column 1 and stays where it is. */
  lemma GapColumnDecrementStays()
    ensures Wf(Gap()) && Valid(ColumnMajor(), 3, 3)
    ensures Decrement2(ColumnMajor(), Gap(), Cursor(0, 0, 0, 1)) == Success(Cursor(0, 0, 0, 1))
  {
    var f, m := ColumnMajor(), Gap();
    GapColumnsWf();
    LowerBoundIs(m.data, Key(f, m, 0, 1), 1);
    Find2FromTop(f, 0, m, 1);
  }

  /** The corrected step back of `iterator2` from column 2 returns to column 0. */
  lemma GapColumnRetreat()
    ensures Wf(Gap()) && Valid(ColumnMajor(), 3, 3)
    ensures Retreat2(ColumnMajor(), Gap(), Cursor(0, 0, 0, 1)) == Success(Cursor(0, 0, 0, 0))
  {
    var f, m := ColumnMajor(), Gap();
    GapColumnsWf();
    LowerBoundIs(m.data, Key(f, m, 0, 2), 1);
    LowerBoundIs(m.data, Key(f, m, 0, 0), 0);
    Find2FromTop(f, 0, m, 0);
  }

  /**
   * On the row-major `Three ()`, `begin2 ()` .. `end2 ()` is not a walk of
   * the whole matrix: `end2 ()` is `find2 (0, size2)`, whose key 3 is the
   * start of row 1, so the range holds only the element of row 0.
   */
  lemma RowMajorColumnRangeIsRowZero()
    ensures Wf(Three()) && Valid(RowMajor(), 3, 3)
    ensures Begin2(RowMajor(), 0, Three()) == Success(Cursor(0, 0, 0, 0))
    ensures End2(RowMajor(), 0, Three()) == Success(Cursor(0, 0, 3, 1))
  {
    var f, m := RowMajor(), Three();
    ThreeKeys();
    RowMajorValid(3, 3);
    RowMajorRowWise(3, 3);
    assert Key(f, m, 0, 3) == 3;
    LowerBoundIs(m.data, Key(f, m, 0, 0), 0);
    LowerBoundIs(m.data, Key(f, m, 0, 3), 1);
    Find2NoSkip(f, 0, m, 0, 0);
    Find2NoSkip(f, 0, m, 0, 3);
  }

  /**
   * Inserting (0, 0) = 1, (1, 2) = 5 and (2, 1) = 9 into an empty 3 x 3
   * matrix: the hole (0, 1) reads as 0, and the traversal yields the three
   * elements row by row.
   */
  method ThreeByThree() returns (hole: int, visited: seq<(nat, nat, int)>)
    ensures hole == 0
    ensures visited == [(0, 0, 1), (1, 2, 5), (2, 1, 9)]
  {
    var f := RowMajor();
    var m := Empty();
    m := SparseMatrix.Insert(f, m, 0, 0, 1);
    m := SparseMatrix.Insert(f, m, 1, 2, 5);
    m := SparseMatrix.Insert(f, m, 2, 1, 9);
    InsertsBuildThree();
    HoleReadsZero();
    ThreeDecoded();
    hole := Get(f, m, 0, 1, 0);
    visited := RowMajorTraversal(0, m);
  }
}
