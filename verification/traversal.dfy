/**
 * The nested traversal the library's algorithms run over a sparse matrix:
 * a row cursor from `begin1 ()` to `end1 ()`, and for each row a column
 * cursor from the row cursor's `begin ()` to its `end ()`. For the flat
 * row-major matrix this visits every stored element exactly once, in
 * storage order.
 */
module Traversal {
  import opened Checks
  import opened OrderedStore
  import opened Orientation
  import opened SparseMatrix

  /** The stored elements as (index1, index2, value) triples in storage order. */
  function Decoded<T>(f: Orientation, m: Matrix<T>): (r: seq<(nat, nat, T)>)
    ensures |r| == |m.data|
  {
    seq(|m.data|, a requires 0 <= a < |m.data| =>
      (f.index1(m.data[a].key, m.size1, m.size2), f.index2(m.data[a].key, m.size1, m.size2), m.data[a].value))
  }

  /** Every stored key decodes to an element inside the matrix. */
  ghost predicate KeysInRange<T>(f: Orientation, m: Matrix<T>) {
    forall a :: 0 <= a < |m.data| ==>
      f.index1(m.data[a].key, m.size1, m.size2) < m.size1 && f.index2(m.data[a].key, m.size1, m.size2) < m.size2
  }

  /** Every key from the start of row `i` on decodes to row `i` or later: whole rows are contiguous key ranges. */
  ghost predicate RowsInOrder(f: Orientation, s1: nat, s2: nat) {
    forall i: nat, k: nat :: f.element(i, s1, 0, s2) <= k ==> i <= f.index1(k, s1, s2)
  }

  /** A key lies between the start of its row and the start of the next row. */
  lemma RowOf(k: nat, s2: nat)
    requires 0 < s2
    ensures (k / s2) * s2 <= k < (k / s2) * s2 + s2
  {
    assert k == (k / s2) * s2 + k % s2;
  }

  /** A key at or past the start of row `i` lies in row `i` or later. */
  lemma RowAtLeast(k: nat, i: nat, s2: nat)
    requires 0 < s2 && i * s2 <= k
    ensures i <= k / s2
  {
    RowOf(k, s2);
    if k / s2 < i {
      MulMonotone(k / s2, i, s2);
    }
  }

  /** Row-major keys keep whole rows together; the end of row `i` is the start of row `i + 1`. */
  lemma RowMajorRows(s1: nat, s2: nat)
    requires 0 < s2
    ensures RowsInOrder(RowMajor(), s1, s2)
    ensures forall i: nat :: RowMajor().element(i, s1, s2, s2) == RowMajor().element(i + 1, s1, 0, s2)
  {
    var o := RowMajor();
    forall i: nat, k: nat | o.element(i, s1, 0, s2) <= k
      ensures i <= o.index1(k, s1, s2)
    {
      RowAtLeast(k, i, s2);
    }
  }

  /** With a single column, row-major keys are the row indices themselves. */
  lemma RowMajorSingleColumn(s1: nat)
    ensures forall k: nat :: RowMajor().index1(k, s1, 1) == k && RowMajor().element(k, s1, 0, 1) == k
  {
  }

  /** When rows are contiguous, `find2 (i, j)` never loops: it stops at the lower bound of `element (i, j)`. */
  lemma Find2NoSkip<T>(f: Orientation, id: MatrixId, m: Matrix<T>, i: nat, j: nat)
    requires Wf(m) && Valid(f, m.size1, m.size2) && RowsInOrder(f, m.size1, m.size2)
    requires f.one2(m.size1, m.size2) >= 1
    ensures Find2(f, id, m, i, j) == Success(Cursor(id, i, j, LowerBound(m.data, Key(f, m, i, j))))
  {
    var p := LowerBound(m.data, Key(f, m, i, j));
    if p < |m.data| && 0 < j {
      assert Key(f, m, i, 0) < Key(f, m, i, j);
    }
  }

  /** `find1 (i, 0)` never loops: no column is before 0. */
  lemma Find1NoSkip<T>(f: Orientation, id: MatrixId, m: Matrix<T>, i: nat)
    requires Wf(m) && Valid(f, m.size1, m.size2)
    requires f.one1(m.size1, m.size2) >= 1
    ensures Find1(f, id, m, i, 0) == Success(Cursor(id, i, 0, LowerBound(m.data, Key(f, m, i, 0))))
  {
  }

  /** A row boundary that holds an element is the start of that element's row. */
  lemma RowStart<T>(f: Orientation, m: Matrix<T>, r: nat, p: nat)
    requires Wf(m) && Valid(f, m.size1, m.size2) && RowsInOrder(f, m.size1, m.size2)
    requires p == LowerBound(m.data, Key(f, m, r, 0)) && p < |m.data|
    ensures LowerBound(m.data, Key(f, m, f.index1(m.data[p].key, m.size1, m.size2), 0)) == p
  {
    var k := m.data[p].key;
    var x, y := f.index1(k, m.size1, m.size2), f.index2(k, m.size1, m.size2);
    assert Key(f, m, x, y) == k;
    if 0 < y {
      assert Key(f, m, x, 0) < Key(f, m, x, y);
    }
    assert r <= x;
    if r < x {
      assert Key(f, m, r, 0) < Key(f, m, x, 0);
    }
    LowerBoundIs(m.data, Key(f, m, x, 0), p);
  }

  /**
   * What the row traversal needs of a layout: the flat contract, whole rows
   * as contiguous key ranges, the end key of a row equal to the start key of
   * the next, unit forward steps along a row, and a row cursor whose single
   * storage step (when `one1` is a unit stride) lands on the next row.
   */
  ghost predicate RowWise(f: Orientation, s1: nat, s2: nat) {
    && Valid(f, s1, s2)
    && RowsInOrder(f, s1, s2)
    && (forall i: nat :: f.element(i, s1, s2, s2) == f.element(i + 1, s1, 0, s2))
    && f.one2(s1, s2) == 1 && f.forward2
    && f.one1(s1, s2) >= 1
    && (Unit(f.one1(s1, s2)) ==> f.forward1 && forall k: nat :: f.element(f.index1(k, s1, s2) + 1, s1, 0, s2) == k + 1)
  }

  /** Row-major order is such a layout whenever there is at least one column. */
  lemma RowMajorRowWise(s1: nat, s2: nat)
    requires 0 < s2
    ensures RowWise(RowMajor(), s1, s2)
  {
    RowMajorValid(s1, s2);
    RowMajorRows(s1, s2);
    RowMajorUnitRows(s1, s2);
  }

  /** A row-major row stride is a unit only with a single column, where the next row starts at the next key. */
  lemma RowMajorUnitRows(s1: nat, s2: nat)
    requires 0 < s2
    ensures Unit(RowMajor().one1(s1, s2)) ==>
              RowMajor().forward1 && forall k: nat :: RowMajor().element(RowMajor().index1(k, s1, s2) + 1, s1, 0, s2) == k + 1
  {
    if s2 == 1 {
      RowMajorSingleColumn(s1);
    }
  }

  /** With a unit row stride the next row starts right after the cursor's element. */
  lemma NextRowIsNextEntry<T>(f: Orientation, m: Matrix<T>, p: nat)
    requires Wf(m) && p < |m.data|
    requires Key(f, m, f.index1(m.data[p].key, m.size1, m.size2) + 1, 0) == m.data[p].key + 1
    ensures LowerBound(m.data, Key(f, m, f.index1(m.data[p].key, m.size1, m.size2) + 1, 0)) == p + 1
  {
    var next := m.data[p].key + 1;
    forall a | 0 <= a < p + 1
      ensures m.data[a].key < next
    {
      assert m.data[a].key <= m.data[p].key;
    }
    LowerBoundIs(m.data, next, p + 1);
  }

  /** `iterator1::operator ++` moves a row cursor found at column 0 to the start of the next row holding an element. */
  lemma NextRow<T>(f: Orientation, m: Matrix<T>, c: Cursor)
    requires Wf(m) && RowWise(f, m.size1, m.size2) && c.pos < |m.data| && c.j == 0
    ensures Increment1(f, m, c) == Success(c.(pos := LowerBound(m.data, Key(f, m, Index1(f, m, c) + 1, 0))))
  {
    if Unit(f.one1(m.size1, m.size2)) {
      UnitRowStep(f, m, c);
    } else {
      Find1NoSkip(f, c.owner, m, Index1(f, m, c) + 1);
    }
  }

  /** The unit-stride path of `NextRow`: the single storage step lands on the start of the next row. */
  lemma UnitRowStep<T>(f: Orientation, m: Matrix<T>, c: Cursor)
    requires Wf(m) && c.pos < |m.data|
    requires Unit(f.one1(m.size1, m.size2)) ==> f.forward1
    requires forall k: nat :: f.element(f.index1(k, m.size1, m.size2) + 1, m.size1, 0, m.size2) == k + 1
    ensures f.forward1 ==> Step(c.pos, f.forward1) == LowerBound(m.data, Key(f, m, Index1(f, m, c) + 1, 0))
  {
    var k := m.data[c.pos].key;
    assert f.element(f.index1(k, m.size1, m.size2) + 1, m.size1, 0, m.size2) == k + 1;
    NextRowIsNextEntry(f, m, c.pos);
  }

  /** A key between the starts of rows `x` and `x + 1` lies in row `x`. */
  lemma RowBetween<T>(f: Orientation, m: Matrix<T>, k: nat, x: nat)
    requires Valid(f, m.size1, m.size2) && RowsInOrder(f, m.size1, m.size2)
    requires Key(f, m, x, 0) <= k < Key(f, m, x + 1, 0)
    ensures f.index1(k, m.size1, m.size2) == x
  {
    var r, y := f.index1(k, m.size1, m.size2), f.index2(k, m.size1, m.size2);
    assert Key(f, m, r, y) == k;
    assert Key(f, m, r, 0) <= k;
  }

  /** A key below the start of row `x` lies in an earlier row. */
  lemma RowBelow<T>(f: Orientation, m: Matrix<T>, k: nat, x: nat)
    requires Valid(f, m.size1, m.size2)
    requires k < Key(f, m, x, 0)
    ensures f.index1(k, m.size1, m.size2) < x
  {
    var r, y := f.index1(k, m.size1, m.size2), f.index2(k, m.size1, m.size2);
    assert Key(f, m, r, y) == k;
    assert Key(f, m, r, 0) <= k;
  }

  /**
   * The corrected step back with a non-unit stride: from a row boundary whose
   * previous element lies in row `x`, it lands on the start of row `x`.
   */
  lemma RetreatToRowStart<T>(f: Orientation, m: Matrix<T>, c: Cursor, x: nat)
    requires Wf(m) && RowWise(f, m.size1, m.size2) && !Unit(f.one1(m.size1, m.size2))
    requires c.pos <= |m.data| && 0 < c.pos && c.j == 0 && c.pos == RowStartOf(f, m, c)
    requires Key(f, m, x, 0) <= m.data[c.pos - 1].key < Key(f, m, x + 1, 0)
    ensures Retreat1(f, m, c) == Success(c.(pos := LowerBound(m.data, Key(f, m, x, 0))))
  {
    RowBetween(f, m, m.data[c.pos - 1].key, x);
    Find1NoSkip(f, c.owner, m, x);
  }

  /** `++` from a row start at column 0 lands on the start of the next row, which is a row boundary again. */
  lemma IncrementToNextRowStart<T>(f: Orientation, m: Matrix<T>, c: Cursor)
    requires Wf(m) && RowWise(f, m.size1, m.size2)
    requires c.pos < |m.data| && c.j == 0
    ensures c.pos < LowerBound(m.data, Key(f, m, Index1(f, m, c) + 1, 0))
    ensures Increment1(f, m, c) == Success(c.(pos := LowerBound(m.data, Key(f, m, Index1(f, m, c) + 1, 0))))
    ensures RowStartOf(f, m, Increment1(f, m, c).value) == Increment1(f, m, c).value.pos
  {
    var p1 := LowerBound(m.data, Key(f, m, Index1(f, m, c) + 1, 0));
    RowStep(f, m, c);
    if p1 < |m.data| {
      RowStart(f, m, Index1(f, m, c) + 1, p1);
    }
  }

  /**
   * The corrected step back undoes `++`: a row cursor found at column 0 at
   * the start of its row comes back to itself.
   */
  lemma RetreatUndoesIncrement<T>(f: Orientation, m: Matrix<T>, c: Cursor)
    requires Wf(m) && RowWise(f, m.size1, m.size2)
    requires c.pos < |m.data| && c.j == 0 && c.pos == RowStartOf(f, m, c)
    ensures Increment1(f, m, c).Success?
    ensures c.pos < Increment1(f, m, c).value.pos <= |m.data|
    ensures RowStartOf(f, m, Increment1(f, m, c).value) == Increment1(f, m, c).value.pos
    ensures Retreat1(f, m, Increment1(f, m, c).value) == Success(c)
  {
    IncrementToNextRowStart(f, m, c);
    if Unit(f.one1(m.size1, m.size2)) {
      UnitRetreat1Undoes(f, m, c);
    } else {
      RetreatFromNextRow(f, m, c);
    }
  }

  /** With a longer row stride, the corrected step back from the start of the next row returns to `c`. */
  lemma RetreatFromNextRow<T>(f: Orientation, m: Matrix<T>, c: Cursor)
    requires Wf(m) && RowWise(f, m.size1, m.size2) && !Unit(f.one1(m.size1, m.size2))
    requires c.pos < |m.data| && c.j == 0 && c.pos == RowStartOf(f, m, c)
    requires c.pos < LowerBound(m.data, Key(f, m, Index1(f, m, c) + 1, 0))
    requires RowStartOf(f, m, c.(pos := LowerBound(m.data, Key(f, m, Index1(f, m, c) + 1, 0)))) ==
               LowerBound(m.data, Key(f, m, Index1(f, m, c) + 1, 0))
    ensures Retreat1(f, m, c.(pos := LowerBound(m.data, Key(f, m, Index1(f, m, c) + 1, 0)))) == Success(c)
  {
    var x := Index1(f, m, c);
    var c1 := c.(pos := LowerBound(m.data, Key(f, m, x + 1, 0)));
    assert m.data[c.pos].key <= m.data[c1.pos - 1].key;
    RetreatToRowStart(f, m, c1, x);
  }

  /**
   * `++` undoes the corrected step back: a row cursor found at column 0 at
   * the start of a row that is not the first (or at the storage end) steps
   * back and forward to itself.
   */
  lemma IncrementUndoesRetreat<T>(f: Orientation, m: Matrix<T>, c: Cursor)
    requires Wf(m) && RowWise(f, m.size1, m.size2)
    requires c.pos <= |m.data| && 0 < c.pos && c.j == 0 && c.pos == RowStartOf(f, m, c)
    ensures Retreat1(f, m, c).Success? && Retreat1(f, m, c).value.pos < c.pos
    ensures Increment1(f, m, Retreat1(f, m, c).value) == Success(c)
  {
    if Unit(f.one1(m.size1, m.size2)) {
      UnitRetreat1Undoes(f, m, c.(pos := c.pos - 1));
    } else {
      var x := f.index1(m.data[c.pos - 1].key, m.size1, m.size2);
      RetreatToPreviousRow(f, m, c, x);
      IncrementFromPreviousRow(f, m, c, x);
    }
  }

  /** The corrected step back from a row boundary lands on the start of the row `x` of the element just before it. */
  lemma RetreatToPreviousRow<T>(f: Orientation, m: Matrix<T>, c: Cursor, x: nat)
    requires Wf(m) && RowWise(f, m.size1, m.size2) && !Unit(f.one1(m.size1, m.size2))
    requires c.pos <= |m.data| && 0 < c.pos && c.j == 0 && c.pos == RowStartOf(f, m, c)
    requires x == f.index1(m.data[c.pos - 1].key, m.size1, m.size2)
    ensures LowerBound(m.data, Key(f, m, x, 0)) < c.pos
    ensures Retreat1(f, m, c) == Success(c.(pos := LowerBound(m.data, Key(f, m, x, 0))))
  {
    var k := m.data[c.pos - 1].key;
    RowBelow(f, m, k, x + 1);
    assert Key(f, m, x, 0) <= k;
    RetreatToRowStart(f, m, c, x);
  }

  /** From the start of row `x`, `++` comes back to the boundary after row `x` that `c` sits on. */
  lemma IncrementFromPreviousRow<T>(f: Orientation, m: Matrix<T>, c: Cursor, x: nat)
    requires Wf(m) && RowWise(f, m.size1, m.size2)
    requires c.pos <= |m.data| && 0 < c.pos && c.j == 0 && c.pos == RowStartOf(f, m, c)
    requires x == f.index1(m.data[c.pos - 1].key, m.size1, m.size2)
    requires LowerBound(m.data, Key(f, m, x, 0)) < c.pos
    ensures Increment1(f, m, c.(pos := LowerBound(m.data, Key(f, m, x, 0)))) == Success(c)
  {
    var k := m.data[c.pos - 1].key;
    var q := LowerBound(m.data, Key(f, m, x, 0));
    RowBelow(f, m, k, x + 1);
    RowBetween(f, m, m.data[q].key, x);
    NextRow(f, m, c.(pos := q));
    NextBoundary(f, m, c, x);
  }

  /** The start of the row after `x` is the boundary `c` sits on when `x` holds the element just before it. */
  lemma NextBoundary<T>(f: Orientation, m: Matrix<T>, c: Cursor, x: nat)
    requires Wf(m) && Valid(f, m.size1, m.size2) && RowsInOrder(f, m.size1, m.size2)
    requires c.pos <= |m.data| && 0 < c.pos && c.pos == RowStartOf(f, m, c)
    requires m.data[c.pos - 1].key < Key(f, m, x + 1, 0)
    requires f.index1(m.data[c.pos - 1].key, m.size1, m.size2) == x
    ensures LowerBound(m.data, Key(f, m, x + 1, 0)) == c.pos
  {
    if c.pos < |m.data| {
      RowBelow(f, m, m.data[c.pos - 1].key, Index1(f, m, c));
    }
    LowerBoundIs(m.data, Key(f, m, x + 1, 0), c.pos);
  }

  /** The inner loop: a column cursor from `start` to `stop` appends the elements stored in between. */
  method VisitRow<T>(f: Orientation, m: Matrix<T>, start: Cursor, stop: Cursor, visited0: seq<(nat, nat, T)>)
    returns (visited: seq<(nat, nat, T)>)
    requires Wf(m) && RowWise(f, m.size1, m.size2) && KeysInRange(f, m)
    requires start.owner == stop.owner && start.pos <= stop.pos <= |m.data|
    requires visited0 == Decoded(f, m)[..start.pos]
    ensures visited == Decoded(f, m)[..stop.pos]
  {
    var it2 := start;
    visited := visited0;
    while !Equal(it2, stop).value
      invariant it2.owner == stop.owner
      invariant start.pos <= it2.pos <= stop.pos
      invariant visited == Decoded(f, m)[..it2.pos]
      decreases stop.pos - it2.pos
    {
      var v := Deref(f, m, it2).value;
      visited := visited + [(Index1(f, m, it2), Index2(f, m, it2), v)];
      assert Decoded(f, m)[..it2.pos + 1] == Decoded(f, m)[..it2.pos] + [Decoded(f, m)[it2.pos]];
      it2 := Increment2(f, m, it2).value;
    }
  }

  /** `begin1 ()` stands on the first stored element and `end1 ()` at the storage end. */
  lemma TraversalBounds<T>(f: Orientation, id: MatrixId, m: Matrix<T>)
    requires Wf(m) && RowWise(f, m.size1, m.size2) && KeysInRange(f, m)
    ensures Begin1(f, id, m) == Success(Cursor(id, 0, 0, 0))
    ensures End1(f, id, m) == Success(Cursor(id, m.size1, 0, |m.data|))
  {
    Find1NoSkip(f, id, m, 0);
    Find1NoSkip(f, id, m, m.size1);
    forall a | 0 <= a < |m.data|
      ensures m.data[a].key < Key(f, m, m.size1, 0)
    {
    }
    LowerBoundIs(m.data, Key(f, m, m.size1, 0), |m.data|);
    if 0 < |m.data| {
      OriginFirst(f, m, m.data[0].key);
    }
    LowerBoundIs(m.data, Key(f, m, 0, 0), 0);
  }

  /**
   * For a row cursor at the start of its row: the nested `begin ()` is the
   * same position and the nested `end ()` is the start of the next row.
   */
  lemma RowSpan<T>(f: Orientation, m: Matrix<T>, c: Cursor, row: nat)
    requires Wf(m) && RowWise(f, m.size1, m.size2)
    requires c.pos < |m.data| && c.pos == LowerBound(m.data, Key(f, m, row, 0))
    ensures RowBegin(f, m, c) == Success(Cursor(c.owner, Index1(f, m, c), 0, c.pos))
    ensures RowEnd(f, m, c) ==
              Success(Cursor(c.owner, Index1(f, m, c), m.size2, LowerBound(m.data, Key(f, m, Index1(f, m, c) + 1, 0))))
  {
    var x := Index1(f, m, c);
    RowStart(f, m, row, c.pos);
    Find2NoSkip(f, c.owner, m, x, 0);
    Find2NoSkip(f, c.owner, m, x, m.size2);
  }

  /** A row cursor found at column 0 moves with `++` to the start of the next row, strictly later in storage. */
  lemma RowStep<T>(f: Orientation, m: Matrix<T>, c: Cursor)
    requires Wf(m) && RowWise(f, m.size1, m.size2)
    requires c.pos < |m.data| && c.j == 0
    ensures c.pos < LowerBound(m.data, Key(f, m, Index1(f, m, c) + 1, 0))
    ensures Increment1(f, m, c) == Success(c.(pos := LowerBound(m.data, Key(f, m, Index1(f, m, c) + 1, 0))))
  {
    var x := Index1(f, m, c);
    LowerBoundPast(m.data, c.pos, Key(f, m, x + 1, 0));
    NextRow(f, m, c);
  }

  /**
   * One round of the outer loop: walk the row cursor's `begin ()` ..
   * `end ()`, then `++` the row cursor, which lands on the next row's start.
   */
  method VisitRowAt<T>(f: Orientation, m: Matrix<T>, it1: Cursor, ghost row: nat, visited0: seq<(nat, nat, T)>)
    returns (next: Cursor, visited: seq<(nat, nat, T)>, ghost row': nat)
    requires Wf(m) && RowWise(f, m.size1, m.size2) && KeysInRange(f, m)
    requires it1.pos < |m.data| && it1.j == 0 && it1.pos == LowerBound(m.data, Key(f, m, row, 0))
    requires visited0 == Decoded(f, m)[..it1.pos]
    ensures next.owner == it1.owner && next.j == 0
    ensures it1.pos < next.pos <= |m.data| && next.pos == LowerBound(m.data, Key(f, m, row', 0))
    ensures visited == Decoded(f, m)[..next.pos]
  {
    RowSpan(f, m, it1, row);
    RowStep(f, m, it1);
    var it2 := RowBegin(f, m, it1).value;
    var end2 := RowEnd(f, m, it1).value;
    visited := VisitRow(f, m, it2, end2, visited0);
    row' := Index1(f, m, it1) + 1;
    next := Increment1(f, m, it1).value;
  }

  /**
   * The nested traversal `begin1 ()` .. `end1 ()`, and inside it the row
   * cursor's `begin ()` .. `end ()`, visits exactly the stored elements, in
   * storage order, as (index1 (), index2 (), *it) triples.
   */
  method Traverse<T>(f: Orientation, id: MatrixId, m: Matrix<T>) returns (visited: seq<(nat, nat, T)>)
    requires Wf(m) && RowWise(f, m.size1, m.size2) && KeysInRange(f, m)
    ensures visited == Decoded(f, m)
  {
    TraversalBounds(f, id, m);
    var it1 := Begin1(f, id, m).value;
    var end1 := End1(f, id, m).value;
    ghost var row: nat := 0;
    visited := [];
    while !Equal(it1, end1).value
      invariant it1.owner == id && it1.j == 0 && end1.owner == id && end1.pos == |m.data|
      invariant it1.pos <= |m.data| && it1.pos == LowerBound(m.data, Key(f, m, row, 0))
      invariant visited == Decoded(f, m)[..it1.pos]
      decreases |m.data| - it1.pos
    {
      it1, visited, row := VisitRowAt(f, m, it1, row, visited);
    }
    assert Decoded(f, m)[..|m.data|] == Decoded(f, m);
  }

  /** The traversal over the row-major layout. */
  method RowMajorTraversal<T>(id: MatrixId, m: Matrix<T>) returns (visited: seq<(nat, nat, T)>)
    requires Wf(m) && 0 < m.size2 && KeysInRange(RowMajor(), m)
    ensures visited == Decoded(RowMajor(), m)
  {
    RowMajorRowWise(m.size1, m.size2);
    visited := Traverse(RowMajor(), id, m);
  }
}
