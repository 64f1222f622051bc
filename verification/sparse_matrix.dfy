/**
 * `sparse_matrix<T, F, A>`: a matrix that stores only the elements written
 * to it, in one ordered map from the linear key `F::element(i, size1, j,
 * size2)` to the value. Cursors (`iterator1`/`iterator2` and their const
 * twins, collapsed into one `Cursor`) hold the owner's identity, the (i, j)
 * they were sought with and a storage position.
 */
module SparseMatrix {
  import opened Checks
  import opened OrderedStore
  import opened Orientation

  datatype Matrix<T> = Matrix(size1: nat, size2: nat, nonZeroes: nat, data: seq<Entry<T>>)

  /** The storage is an ordered map. */
  ghost predicate Wf<T>(m: Matrix<T>) {
    Sorted(m.data)
  }

  /** A position in the storage of the matrix named `owner`; `i_`/`j_` are the indices it was sought with. */
  datatype Cursor = Cursor(owner: MatrixId, i: nat, j: nat, pos: nat)

  /** The storage key of element (i, j). */
  function Key<T>(f: Orientation, m: Matrix<T>, i: nat, j: nat): nat {
    f.element(i, m.size1, j, m.size2)
  }

  /** The origin's key is the least key of every element. */
  lemma OriginFirst<T>(f: Orientation, m: Matrix<T>, k: nat)
    requires Valid(f, m.size1, m.size2)
    ensures Key(f, m, 0, 0) <= k
  {
    var x, y := f.index1(k, m.size1, m.size2), f.index2(k, m.size1, m.size2);
    assert Key(f, m, x, y) == k;
    if 0 < y {
      assert Key(f, m, x, 0) < Key(f, m, x, y);
    }
    if 0 < x {
      assert Key(f, m, 0, 0) < Key(f, m, x, 0);
    }
  }

  /** Distinct in-range elements have distinct keys. */
  lemma KeyInjective<T>(f: Orientation, m: Matrix<T>, i: nat, j: nat, i': nat, j': nat)
    requires Valid(f, m.size1, m.size2)
    requires i < m.size1 && j < m.size2 && i' < m.size1 && j' < m.size2
    requires (i, j) != (i', j')
    ensures Key(f, m, i, j) != Key(f, m, i', j')
  {
  }

  // ---------------------------------------------------------------- construction

  /** `sparse_matrix (size1, size2, non_zeroes)`; the default constructor is `Create(0, 0, 0)`. */
  function Create<T>(size1: nat, size2: nat, nonZeroes: nat): (m: Matrix<T>)
    ensures Wf(m) && m.size1 == size1 && m.size2 == size2 && m.nonZeroes == nonZeroes
    ensures forall k :: !HasKey(m.data, k)
  {
    Matrix(size1, size2, nonZeroes, [])
  }

  /**
   * `resize`: only the three size fields change; every stored entry is kept
   * unchanged. Keys are decoded with the sizes, so an entry may now denote a
   * different element, or none.
   */
  function Resize<T>(m: Matrix<T>, size1: nat, size2: nat, nonZeroes: nat): (r: Matrix<T>)
    requires Wf(m)
    ensures Wf(r) && r.size1 == size1 && r.size2 == size2 && r.nonZeroes == nonZeroes
    ensures r.data == m.data
  {
    m.(size1 := size1, size2 := size2, nonZeroes := nonZeroes)
  }

  // ---------------------------------------------------------------- element access

  /** The const `operator () (i, j)`: the stored value, or `zero` when nothing is stored at (i, j). */
  function Get<T>(f: Orientation, m: Matrix<T>, i: nat, j: nat, zero: T): (r: T)
    requires Wf(m)
    ensures !HasKey(m.data, Key(f, m, i, j)) ==> r == zero
    ensures forall a :: 0 <= a < |m.data| && m.data[a].key == Key(f, m, i, j) ==> r == m.data[a].value
  {
    var k := Key(f, m, i, j);
    var p := Find(m.data, k);
    if p == |m.data| || m.data[p].key != k then zero else m.data[p].value
  }

  /**
   * The mutable `operator () (i, j)`, `data_ [element (i, j)]`: the matrix
   * after the call and the storage position the returned reference denotes.
   * A missing element is first created holding `zero` (`T ()`).
   */
  function Access<T>(f: Orientation, m: Matrix<T>, i: nat, j: nat, zero: T): (r: (Matrix<T>, nat))
    requires Wf(m)
    ensures Wf(r.0) && r.0.size1 == m.size1 && r.0.size2 == m.size2 && r.0.nonZeroes == m.nonZeroes
    ensures r.1 < |r.0.data| && r.0.data[r.1].key == Key(f, m, i, j)
    ensures HasKey(m.data, Key(f, m, i, j)) ==> r.0 == m
    ensures !HasKey(m.data, Key(f, m, i, j)) ==> |r.0.data| == |m.data| + 1 && r.0.data[r.1].value == zero
    ensures r.0.data[r.1].value == Get(f, m, i, j, zero)
    ensures forall k :: k != Key(f, m, i, j) ==> Lookup(r.0.data, k) == Lookup(m.data, k)
  {
    var (data, p) := FindOrInsert(m.data, Key(f, m, i, j), zero);
    (m.(data := data), p)
  }

  /** Storing `v` through a reference at storage position `p` (`*ref = v`). */
  function Write<T>(m: Matrix<T>, p: nat, v: T): (r: Matrix<T>)
    requires Wf(m) && p < |m.data|
    ensures Wf(r) && r.size1 == m.size1 && r.size2 == m.size2 && r.nonZeroes == m.nonZeroes
    ensures |r.data| == |m.data|
    ensures Lookup(r.data, m.data[p].key) == Some(v)
    ensures forall k :: k != m.data[p].key ==> Lookup(r.data, k) == Lookup(m.data, k)
  {
    m.(data := SetValue(m.data, p, v))
  }

  /** `m (i, j) = v` followed by a const read of (i, j) yields `v`; every other key keeps its value. */
  lemma AccessWriteRead<T>(f: Orientation, m: Matrix<T>, i: nat, j: nat, v: T, zero: T)
    requires Wf(m)
    ensures var (m1, p) := Access(f, m, i, j, zero);
            var m2 := Write(m1, p, v);
            && Get(f, m2, i, j, zero) == v
            && |m2.data| <= |m.data| + 1
            && forall i': nat, j': nat :: Key(f, m, i', j') != Key(f, m, i, j) ==> Get(f, m2, i', j', zero) == Get(f, m, i', j', zero)
  {
    var (m1, p) := Access(f, m, i, j, zero);
    var m2 := Write(m1, p, v);
    var k := Key(f, m, i, j);
    assert Lookup(m2.data, k) == Some(v);
    forall i': nat, j': nat | Key(f, m, i', j') != k
      ensures Get(f, m2, i', j', zero) == Get(f, m, i', j', zero)
    {
      var k' := Key(f, m, i', j');
      assert Lookup(m2.data, k') == Lookup(m.data, k');
      if HasKey(m.data, k') {
        var b :| 0 <= b < |m.data| && m.data[b].key == k';
        assert Lookup(m2.data, k').Some?;
        var c :| 0 <= c < |m2.data| && m2.data[c].key == k';
      }
    }
  }

  /** Accessing the same (i, j) a second time neither grows nor changes the storage. */
  lemma AccessIdempotent<T>(f: Orientation, m: Matrix<T>, i: nat, j: nat, zero: T)
    ensures Wf(m) ==> var (m1, p) := Access(f, m, i, j, zero);
                      Access(f, m1, i, j, zero) == (m1, p)
  {
    if Wf(m) {
      var (m1, p) := Access(f, m, i, j, zero);
      assert HasKey(m1.data, Key(f, m1, i, j));
      var q := Access(f, m1, i, j, zero).1;
      assert m1.data[q].key == m1.data[p].key;
    }
  }

  // ---------------------------------------------------------------- insertion and clearing

  /**
   * `insert (i, j, t)`, an append-hinted insert into an ordered map: stores
   * `t` when nothing is stored at (i, j) and is a no-op otherwise.
   */
  function Insert<T>(f: Orientation, m: Matrix<T>, i: nat, j: nat, t: T): (r: Matrix<T>)
    requires Wf(m)
    ensures Wf(r) && r.size1 == m.size1 && r.size2 == m.size2 && r.nonZeroes == m.nonZeroes
    ensures HasKey(m.data, Key(f, m, i, j)) ==> r == m
    ensures !HasKey(m.data, Key(f, m, i, j)) ==> |r.data| == |m.data| + 1
    ensures !HasKey(m.data, Key(f, m, i, j)) ==> Lookup(r.data, Key(f, m, i, j)) == Some(t)
    ensures forall k :: k != Key(f, m, i, j) ==> Lookup(r.data, k) == Lookup(m.data, k)
  {
    m.(data := OrderedStore.Insert(m.data, Key(f, m, i, j), t))
  }

  /** A read after `insert` of an absent element returns the inserted value; other elements read as before. */
  lemma InsertThenGet<T>(f: Orientation, m: Matrix<T>, i: nat, j: nat, t: T, zero: T)
    requires Wf(m) && Valid(f, m.size1, m.size2)
    requires i < m.size1 && j < m.size2
    requires !HasKey(m.data, Key(f, m, i, j))
    ensures Get(f, Insert(f, m, i, j, t), i, j, zero) == t
    ensures forall i': nat, j': nat :: i' < m.size1 && j' < m.size2 && (i', j') != (i, j) ==>
              Get(f, Insert(f, m, i, j, t), i', j', zero) == Get(f, m, i', j', zero)
  {
    var r := Insert(f, m, i, j, t);
    forall i': nat, j': nat | i' < m.size1 && j' < m.size2 && (i', j') != (i, j)
      ensures Get(f, r, i', j', zero) == Get(f, m, i', j', zero)
    {
      var k' := Key(f, m, i', j');
      KeyInjective(f, m, i, j, i', j');
      assert Lookup(r.data, k') == Lookup(m.data, k');
      if HasKey(m.data, k') {
        assert Lookup(r.data, k').Some?;
        var c :| 0 <= c < |r.data| && r.data[c].key == k';
      }
    }
  }

  /** `clear`: no element stays stored; the sizes are kept. */
  function Clear<T>(m: Matrix<T>): (r: Matrix<T>)
    ensures Wf(r) && r.size1 == m.size1 && r.size2 == m.size2 && r.nonZeroes == m.nonZeroes
    ensures forall k :: !HasKey(r.data, k)
  {
    m.(data := [])
  }

  // ---------------------------------------------------------------- assignment and swap

  /** The copy assignment `*this = src`: sizes must agree; the storage becomes a copy of `src`'s. */
  function Assign<T>(dst: Matrix<T>, src: Matrix<T>): (r: Result<Matrix<T>>)
    requires Wf(src)
    ensures r.Success? <==> dst.size1 == src.size1 && dst.size2 == src.size2 && dst.nonZeroes == src.nonZeroes
    ensures r.Failure? ==> r.error == BadSize
    ensures r.Success? ==> Wf(r.value) && r.value.data == src.data
    ensures r.Success? ==> r.value.size1 == dst.size1 && r.value.size2 == dst.size2 && r.value.nonZeroes == dst.nonZeroes
  {
    var _ :- Require(dst.size1 == src.size1, BadSize);
    var _ :- Require(dst.size2 == src.size2, BadSize);
    var _ :- Require(dst.nonZeroes == src.nonZeroes, BadSize);
    Success(dst.(data := src.data))
  }

  /**
   * `a.swap (b)` for the matrices named `ida` and `idb`: rejects a self-swap,
   * then requires equal sizes and exchanges the storage.
   */
  function Swap<T>(ida: MatrixId, a: Matrix<T>, idb: MatrixId, b: Matrix<T>): (r: Result<(Matrix<T>, Matrix<T>)>)
    ensures r.Success? <==> ida != idb && a.size1 == b.size1 && a.size2 == b.size2 && a.nonZeroes == b.nonZeroes
    ensures r.Failure? ==> r.error == (if ida == idb then ExternalLogic else BadSize)
    ensures r.Success? ==> r.value.0.data == b.data && r.value.1.data == a.data
    ensures r.Success? ==> r.value.0.size1 == a.size1 && r.value.0.size2 == a.size2 && r.value.0.nonZeroes == a.nonZeroes
    ensures r.Success? ==> r.value.1.size1 == b.size1 && r.value.1.size2 == b.size2 && r.value.1.nonZeroes == b.nonZeroes
  {
    var _ :- Require(ida != idb, ExternalLogic);
    var _ :- Require(a.size1 == b.size1, BadSize);
    var _ :- Require(a.size2 == b.size2, BadSize);
    var _ :- Require(a.nonZeroes == b.nonZeroes, BadSize);
    Success((Matrix(b.size1, b.size2, b.nonZeroes, b.data), Matrix(a.size1, a.size2, a.nonZeroes, a.data)))
  }

  /** Swapping twice restores both matrices. */
  lemma SwapTwice<T>(ida: MatrixId, a: Matrix<T>, idb: MatrixId, b: Matrix<T>)
    requires Swap(ida, a, idb, b).Success?
    ensures var (a1, b1) := Swap(ida, a, idb, b).value;
            Swap(ida, a1, idb, b1) == Success((a, b))
  {
  }

  // ---------------------------------------------------------------- boundary-seeking search

  /** Skipping a key whose column is short of `j` moves the search bound strictly past that key. */
  lemma ColumnShortProgress<T>(f: Orientation, m: Matrix<T>, k: nat, j: nat)
    requires Valid(f, m.size1, m.size2)
    requires f.index2(k, m.size1, m.size2) < j
    ensures k < Key(f, m, f.index1(k, m.size1, m.size2), j)
    ensures Key(f, m, f.index1(k, m.size1, m.size2), 0) <= k
  {
    var i0, j0 := f.index1(k, m.size1, m.size2), f.index2(k, m.size1, m.size2);
    assert f.element(i0, m.size1, j0, m.size2) == k;
    assert f.element(i0, m.size1, j0, m.size2) < f.element(i0, m.size1, j, m.size2);
    if 0 < j0 {
      assert f.element(i0, m.size1, 0, m.size2) < f.element(i0, m.size1, j0, m.size2);
    }
  }

  /** Skipping a key whose row is short of `i` moves the search bound strictly past that key. */
  lemma RowShortProgress<T>(f: Orientation, m: Matrix<T>, k: nat, i: nat)
    requires Valid(f, m.size1, m.size2)
    requires f.index1(k, m.size1, m.size2) < i
    ensures k < Key(f, m, i, f.index2(k, m.size1, m.size2))
    ensures Key(f, m, 0, f.index2(k, m.size1, m.size2)) <= k
  {
    var i0, j0 := f.index1(k, m.size1, m.size2), f.index2(k, m.size1, m.size2);
    assert f.element(i0, m.size1, j0, m.size2) == k;
    assert f.element(i0, m.size1, j0, m.size2) < f.element(i, m.size1, j0, m.size2);
    if 0 < i0 {
      assert f.element(0, m.size1, j0, m.size2) < f.element(i0, m.size1, j0, m.size2);
    }
  }

  /**
   * The loop of `find1` for `one1 >= 1`: from `lower_bound (element (i, j))`,
   * while the entry found lies in a column before `j`, move `i` to that
   * entry's row and search again. Yields the final `i` and position.
   */
  function Seek1Lower<T>(f: Orientation, m: Matrix<T>, i: nat, j: nat): (r: (nat, nat))
    requires Wf(m) && Valid(f, m.size1, m.size2)
    ensures r.1 <= |m.data|
    ensures LowerBound(m.data, Key(f, m, i, j)) <= r.1
    ensures r.1 < |m.data| ==> Key(f, m, i, j) <= m.data[r.1].key && j <= f.index2(m.data[r.1].key, m.size1, m.size2)
    decreases |m.data| - LowerBound(m.data, Key(f, m, i, j))
  {
    var p := LowerBound(m.data, Key(f, m, i, j));
    if p < |m.data| && f.index2(m.data[p].key, m.size1, m.size2) < j then
      var i' := f.index1(m.data[p].key, m.size1, m.size2);
      ColumnShortProgress(f, m, m.data[p].key, j);
      LowerBoundPast(m.data, p, Key(f, m, i', j));
      Seek1Lower(f, m, i', j)
    else
      LowerBoundSplits(m.data, Key(f, m, i, j));
      (i, p)
  }

  /** The loop of `find1` for `one1 <= -1`: the same search driven by `upper_bound`. */
  function Seek1Upper<T>(f: Orientation, m: Matrix<T>, i: nat, j: nat): (r: (nat, nat))
    requires Wf(m) && Valid(f, m.size1, m.size2)
    ensures r.1 <= |m.data|
    ensures UpperBound(m.data, Key(f, m, i, j)) <= r.1
    ensures r.1 < |m.data| ==> j <= f.index2(m.data[r.1].key, m.size1, m.size2)
    decreases |m.data| - UpperBound(m.data, Key(f, m, i, j))
  {
    var p := UpperBound(m.data, Key(f, m, i, j));
    if p < |m.data| && f.index2(m.data[p].key, m.size1, m.size2) < j then
      var i' := f.index1(m.data[p].key, m.size1, m.size2);
      ColumnShortProgress(f, m, m.data[p].key, j);
      UpperBoundPast(m.data, p, Key(f, m, i', j));
      Seek1Upper(f, m, i', j)
    else (i, p)
  }

  /** The loop of `find2` for `one2 >= 1`: the row-wise twin of `Seek1Lower`. */
  function Seek2Lower<T>(f: Orientation, m: Matrix<T>, i: nat, j: nat): (r: (nat, nat))
    requires Wf(m) && Valid(f, m.size1, m.size2)
    ensures r.1 <= |m.data|
    ensures LowerBound(m.data, Key(f, m, i, j)) <= r.1
    ensures r.1 < |m.data| ==> Key(f, m, i, j) <= m.data[r.1].key && i <= f.index1(m.data[r.1].key, m.size1, m.size2)
    decreases |m.data| - LowerBound(m.data, Key(f, m, i, j))
  {
    var p := LowerBound(m.data, Key(f, m, i, j));
    if p < |m.data| && f.index1(m.data[p].key, m.size1, m.size2) < i then
      var j' := f.index2(m.data[p].key, m.size1, m.size2);
      RowShortProgress(f, m, m.data[p].key, i);
      LowerBoundPast(m.data, p, Key(f, m, i, j'));
      Seek2Lower(f, m, i, j')
    else
      LowerBoundSplits(m.data, Key(f, m, i, j));
      (j, p)
  }

  /** The loop of `find2` for `one2 <= -1`. */
  function Seek2Upper<T>(f: Orientation, m: Matrix<T>, i: nat, j: nat): (r: (nat, nat))
    requires Wf(m) && Valid(f, m.size1, m.size2)
    ensures r.1 <= |m.data|
    ensures UpperBound(m.data, Key(f, m, i, j)) <= r.1
    ensures r.1 < |m.data| ==> i <= f.index1(m.data[r.1].key, m.size1, m.size2)
    decreases |m.data| - UpperBound(m.data, Key(f, m, i, j))
  {
    var p := UpperBound(m.data, Key(f, m, i, j));
    if p < |m.data| && f.index1(m.data[p].key, m.size1, m.size2) < i then
      var j' := f.index2(m.data[p].key, m.size1, m.size2);
      RowShortProgress(f, m, m.data[p].key, i);
      UpperBoundPast(m.data, p, Key(f, m, i, j'));
      Seek2Upper(f, m, i, j')
    else (j, p)
  }

  /**
   * The keys from a short-column key `k` up to the key of (i', j) in the row
   * i' of `k` all lie in columns before `j`.
   */
  lemma ShortColumnRun<T>(f: Orientation, m: Matrix<T>, p: nat, q: nat, i': nat, j: nat)
    requires Sorted(m.data) && MajorRuns1(f, m.size1, m.size2)
    requires p < |m.data| && q <= |m.data| && Key(f, m, i', 0) <= m.data[p].key
    requires forall a :: 0 <= a < q ==> m.data[a].key < Key(f, m, i', j)
    ensures forall a :: p <= a < q ==> f.index2(m.data[a].key, m.size1, m.size2) < j
  {
    forall a | p <= a < q
      ensures f.index2(m.data[a].key, m.size1, m.size2) < j
    {
      assert m.data[p].key <= m.data[a].key;
    }
  }

  /** The row-wise twin: the keys from a short-row key up to the key of (i, j') in its column lie in rows before `i`. */
  lemma ShortRowRun<T>(f: Orientation, m: Matrix<T>, p: nat, q: nat, i: nat, j': nat)
    requires Sorted(m.data) && MajorRuns2(f, m.size1, m.size2)
    requires p < |m.data| && q <= |m.data| && Key(f, m, 0, j') <= m.data[p].key
    requires forall a :: 0 <= a < q ==> m.data[a].key < Key(f, m, i, j')
    ensures forall a :: p <= a < q ==> f.index1(m.data[a].key, m.size1, m.size2) < i
  {
    forall a | p <= a < q
      ensures f.index1(m.data[a].key, m.size1, m.size2) < i
    {
      assert m.data[p].key <= m.data[a].key;
    }
  }

  /**
   * In a layout whose runs are rows, every position the `find1` loop skips
   * holds a column before `j`: the search stops at the first match.
   */
  lemma {:induction false} Seek1LowerSkipsShortColumns<T>(f: Orientation, m: Matrix<T>, i: nat, j: nat)
    requires Wf(m) && Valid(f, m.size1, m.size2) && MajorRuns1(f, m.size1, m.size2)
    ensures forall a :: LowerBound(m.data, Key(f, m, i, j)) <= a < Seek1Lower(f, m, i, j).1 ==>
              f.index2(m.data[a].key, m.size1, m.size2) < j
    decreases |m.data| - LowerBound(m.data, Key(f, m, i, j))
  {
    var p := LowerBound(m.data, Key(f, m, i, j));
    if p < |m.data| && f.index2(m.data[p].key, m.size1, m.size2) < j {
      var i' := f.index1(m.data[p].key, m.size1, m.size2);
      var q := LowerBound(m.data, Key(f, m, i', j));
      ColumnShortProgress(f, m, m.data[p].key, j);
      ShortColumnRun(f, m, p, q, i', j);
      Seek1LowerSkipsShortColumns(f, m, i', j);
      var stop := Seek1Lower(f, m, i', j).1;
      assert Seek1Lower(f, m, i, j).1 == stop;
      forall a | p <= a < stop
        ensures f.index2(m.data[a].key, m.size1, m.size2) < j
      {
        if q <= a {
          assert LowerBound(m.data, Key(f, m, i', j)) <= a;
        }
      }
    } else {
      assert Seek1Lower(f, m, i, j).1 == p;
    }
  }

  /** The row-wise twin: every position the `find2` loop skips holds a row before `i`. */
  lemma {:induction false} Seek2LowerSkipsShortRows<T>(f: Orientation, m: Matrix<T>, i: nat, j: nat)
    requires Wf(m) && Valid(f, m.size1, m.size2) && MajorRuns2(f, m.size1, m.size2)
    ensures forall a :: LowerBound(m.data, Key(f, m, i, j)) <= a < Seek2Lower(f, m, i, j).1 ==>
              f.index1(m.data[a].key, m.size1, m.size2) < i
    decreases |m.data| - LowerBound(m.data, Key(f, m, i, j))
  {
    var p := LowerBound(m.data, Key(f, m, i, j));
    if p < |m.data| && f.index1(m.data[p].key, m.size1, m.size2) < i {
      var j' := f.index2(m.data[p].key, m.size1, m.size2);
      var q := LowerBound(m.data, Key(f, m, i, j'));
      RowShortProgress(f, m, m.data[p].key, i);
      ShortRowRun(f, m, p, q, i, j');
      Seek2LowerSkipsShortRows(f, m, i, j');
      var stop := Seek2Lower(f, m, i, j').1;
      assert Seek2Lower(f, m, i, j).1 == stop;
      forall a | p <= a < stop
        ensures f.index1(m.data[a].key, m.size1, m.size2) < i
      {
        if q <= a {
          assert LowerBound(m.data, Key(f, m, i, j')) <= a;
        }
      }
    } else {
      assert Seek2Lower(f, m, i, j).1 == p;
    }
  }

  /**
   * `find1 (i, j)`: a cursor at or after the bound the stride's direction
   * picks for (i, j), on an element whose column is not before `j` or at the
   * end; a stride `one1` of 0 raises `internal_logic`. That it stops at the
   * first such element is `Find1FirstMatch`, for layouts whose runs are rows.
   */
  function Find1<T>(f: Orientation, id: MatrixId, m: Matrix<T>, i: nat, j: nat): (r: Result<Cursor>)
    requires Wf(m)
    requires f.one1(m.size1, m.size2) != 0 ==> Valid(f, m.size1, m.size2)
    ensures r.Failure? <==> f.one1(m.size1, m.size2) == 0
    ensures r.Failure? ==> r.error == InternalLogic
    ensures r.Success? ==> r.value.owner == id && r.value.j == j && r.value.pos <= |m.data|
    ensures r.Success? && r.value.pos < |m.data| ==> j <= f.index2(m.data[r.value.pos].key, m.size1, m.size2)
    ensures r.Success? && f.one1(m.size1, m.size2) >= 1 ==> LowerBound(m.data, Key(f, m, i, j)) <= r.value.pos
    ensures r.Success? && f.one1(m.size1, m.size2) <= -1 ==> UpperBound(m.data, Key(f, m, i, j)) <= r.value.pos
  {
    var o := f.one1(m.size1, m.size2);
    if o >= 1 then
      var (i', p) := Seek1Lower(f, m, i, j);
      Success(Cursor(id, i', j, p))
    else if o <= -1 then
      var (i', p) := Seek1Upper(f, m, i, j);
      Success(Cursor(id, i', j, p))
    else
      Failure(InternalLogic)
  }

  /**
   * `find2 (i, j)`: a cursor at or after the bound the stride's direction
   * picks for (i, j), on an element whose row is not before `i` or at the
   * end; a stride `one2` of 0 raises `internal_logic`. That it stops at the
   * first such element is `Find2FirstMatch`, for layouts whose runs are columns.
   */
  function Find2<T>(f: Orientation, id: MatrixId, m: Matrix<T>, i: nat, j: nat): (r: Result<Cursor>)
    requires Wf(m)
    requires f.one2(m.size1, m.size2) != 0 ==> Valid(f, m.size1, m.size2)
    ensures r.Failure? <==> f.one2(m.size1, m.size2) == 0
    ensures r.Failure? ==> r.error == InternalLogic
    ensures r.Success? ==> r.value.owner == id && r.value.i == i && r.value.pos <= |m.data|
    ensures r.Success? && r.value.pos < |m.data| ==> i <= f.index1(m.data[r.value.pos].key, m.size1, m.size2)
    ensures r.Success? && f.one2(m.size1, m.size2) >= 1 ==> LowerBound(m.data, Key(f, m, i, j)) <= r.value.pos
    ensures r.Success? && f.one2(m.size1, m.size2) <= -1 ==> UpperBound(m.data, Key(f, m, i, j)) <= r.value.pos
  {
    var o := f.one2(m.size1, m.size2);
    if o >= 1 then
      var (j', p) := Seek2Lower(f, m, i, j);
      Success(Cursor(id, i, j', p))
    else if o <= -1 then
      var (j', p) := Seek2Upper(f, m, i, j);
      Success(Cursor(id, i, j', p))
    else
      Failure(InternalLogic)
  }

  /**
   * For `one1 >= 1` in a layout whose runs are rows, `find1` returns the
   * first position from `lower_bound (element (i, j))` on that is the end
   * or holds a column `>= j`.
   */
  lemma Find1FirstMatch<T>(f: Orientation, id: MatrixId, m: Matrix<T>, i: nat, j: nat)
    requires Wf(m) && f.one1(m.size1, m.size2) >= 1
    requires Valid(f, m.size1, m.size2) && MajorRuns1(f, m.size1, m.size2)
    ensures var c := Find1(f, id, m, i, j).value;
            && LowerBound(m.data, Key(f, m, i, j)) <= c.pos <= |m.data|
            && (c.pos < |m.data| ==> j <= f.index2(m.data[c.pos].key, m.size1, m.size2))
            && forall a :: LowerBound(m.data, Key(f, m, i, j)) <= a < c.pos ==> f.index2(m.data[a].key, m.size1, m.size2) < j
  {
    Seek1LowerSkipsShortColumns(f, m, i, j);
  }

  /** The row-wise twin of `Find1FirstMatch` for `find2`. */
  lemma Find2FirstMatch<T>(f: Orientation, id: MatrixId, m: Matrix<T>, i: nat, j: nat)
    requires Wf(m) && f.one2(m.size1, m.size2) >= 1
    requires Valid(f, m.size1, m.size2) && MajorRuns2(f, m.size1, m.size2)
    ensures var c := Find2(f, id, m, i, j).value;
            && LowerBound(m.data, Key(f, m, i, j)) <= c.pos <= |m.data|
            && (c.pos < |m.data| ==> i <= f.index1(m.data[c.pos].key, m.size1, m.size2))
            && forall a :: LowerBound(m.data, Key(f, m, i, j)) <= a < c.pos ==> f.index1(m.data[a].key, m.size1, m.size2) < i
  {
    Seek2LowerSkipsShortRows(f, m, i, j);
  }

  // ---------------------------------------------------------------- cursors

  /**
   * `begin1 ()`: `find1 (0, 0)`, the first stored element. With a negative
   * stride the search starts past an element stored at (0, 0), so it can
   * stand one position later.
   */
  function Begin1<T>(f: Orientation, id: MatrixId, m: Matrix<T>): (r: Result<Cursor>)
    requires Wf(m) && (f.one1(m.size1, m.size2) != 0 ==> Valid(f, m.size1, m.size2))
    ensures r.Failure? <==> f.one1(m.size1, m.size2) == 0
    ensures r.Success? ==> r.value.owner == id && r.value.i == 0 && r.value.j == 0
    ensures r.Success? && f.one1(m.size1, m.size2) >= 1 ==> r.value.pos == 0
    ensures r.Success? && f.one1(m.size1, m.size2) <= -1 ==> r.value.pos <= 1
  {
    OriginLeast(f, m);
    Find1(f, id, m, 0, 0)
  }

  /**
   * `end1 ()`: `find1 (size1, 0)`, the boundary between the elements stored
   * before the key of (size1, 0) and the rest.
   */
  function End1<T>(f: Orientation, id: MatrixId, m: Matrix<T>): (r: Result<Cursor>)
    requires Wf(m) && (f.one1(m.size1, m.size2) != 0 ==> Valid(f, m.size1, m.size2))
    ensures r.Failure? <==> f.one1(m.size1, m.size2) == 0
    ensures r.Success? ==> r.value.owner == id && r.value.i == m.size1 && r.value.j == 0 && r.value.pos <= |m.data|
    ensures r.Success? && f.one1(m.size1, m.size2) >= 1 ==>
              && (forall a :: 0 <= a < r.value.pos ==> m.data[a].key < Key(f, m, m.size1, 0))
              && (r.value.pos < |m.data| ==> Key(f, m, m.size1, 0) <= m.data[r.value.pos].key)
    ensures r.Success? && f.one1(m.size1, m.size2) <= -1 ==>
              && (forall a :: 0 <= a < r.value.pos ==> m.data[a].key <= Key(f, m, m.size1, 0))
              && (r.value.pos < |m.data| ==> Key(f, m, m.size1, 0) < m.data[r.value.pos].key)
  {
    Find1(f, id, m, m.size1, 0)
  }

  /** `begin2 ()`: `find2 (0, 0)`, the first stored element, as for `begin1 ()`. */
  function Begin2<T>(f: Orientation, id: MatrixId, m: Matrix<T>): (r: Result<Cursor>)
    requires Wf(m) && (f.one2(m.size1, m.size2) != 0 ==> Valid(f, m.size1, m.size2))
    ensures r.Failure? <==> f.one2(m.size1, m.size2) == 0
    ensures r.Success? ==> r.value.owner == id && r.value.i == 0 && r.value.j == 0
    ensures r.Success? && f.one2(m.size1, m.size2) >= 1 ==> r.value.pos == 0
    ensures r.Success? && f.one2(m.size1, m.size2) <= -1 ==> r.value.pos <= 1
  {
    OriginLeast(f, m);
    Find2(f, id, m, 0, 0)
  }

  /**
   * `end2 ()`: `find2 (0, size2)`, the boundary at the key of (0, size2).
   * That key ends the whole storage only in a layout whose runs are columns;
   * in row-major order it is the start of row 1.
   */
  function End2<T>(f: Orientation, id: MatrixId, m: Matrix<T>): (r: Result<Cursor>)
    requires Wf(m) && (f.one2(m.size1, m.size2) != 0 ==> Valid(f, m.size1, m.size2))
    ensures r.Failure? <==> f.one2(m.size1, m.size2) == 0
    ensures r.Success? ==> r.value.owner == id && r.value.i == 0 && r.value.j == m.size2 && r.value.pos <= |m.data|
    ensures r.Success? && f.one2(m.size1, m.size2) >= 1 ==>
              && (forall a :: 0 <= a < r.value.pos ==> m.data[a].key < Key(f, m, 0, m.size2))
              && (r.value.pos < |m.data| ==> Key(f, m, 0, m.size2) <= m.data[r.value.pos].key)
    ensures r.Success? && f.one2(m.size1, m.size2) <= -1 ==>
              && (forall a :: 0 <= a < r.value.pos ==> m.data[a].key <= Key(f, m, 0, m.size2))
              && (r.value.pos < |m.data| ==> Key(f, m, 0, m.size2) < m.data[r.value.pos].key)
  {
    Find2(f, id, m, 0, m.size2)
  }

  /**
   * Under the functor's contract, no stored key is below the key of the
   * origin, so at most the first entry is not past it.
   */
  lemma OriginLeast<T>(f: Orientation, m: Matrix<T>)
    requires Wf(m)
    ensures Valid(f, m.size1, m.size2) ==> forall a :: 0 <= a < |m.data| ==> Key(f, m, 0, 0) <= m.data[a].key
    ensures Valid(f, m.size1, m.size2) ==> UpperBound(m.data, Key(f, m, 0, 0)) <= 1
  {
    if Valid(f, m.size1, m.size2) {
      forall a | 0 <= a < |m.data|
        ensures Key(f, m, 0, 0) <= m.data[a].key
      {
        OriginFirst(f, m, m.data[a].key);
      }
    }
  }

  /** `index1 ()`: the row the cursor's storage key decodes to. */
  function Index1<T>(f: Orientation, m: Matrix<T>, c: Cursor): nat
    requires c.pos < |m.data|
  {
    f.index1(m.data[c.pos].key, m.size1, m.size2)
  }

  /** `index2 ()`: the column the cursor's storage key decodes to. */
  function Index2<T>(f: Orientation, m: Matrix<T>, c: Cursor): nat
    requires c.pos < |m.data|
  {
    f.index2(m.data[c.pos].key, m.size1, m.size2)
  }

  /**
   * Under the functor's contract, `index1 ()` and `index2 ()` decode the
   * cursor's key: it encodes back from them, and they are the indices of
   * every in-range element with that key.
   */
  lemma IndicesDecode<T>(f: Orientation, m: Matrix<T>, c: Cursor)
    requires Valid(f, m.size1, m.size2) && c.pos < |m.data|
    ensures Key(f, m, Index1(f, m, c), Index2(f, m, c)) == m.data[c.pos].key
    ensures forall i: nat, j: nat :: i < m.size1 && j < m.size2 && Key(f, m, i, j) == m.data[c.pos].key ==>
              Index1(f, m, c) == i && Index2(f, m, c) == j
  {
    forall i: nat, j: nat | i < m.size1 && j < m.size2 && Key(f, m, i, j) == m.data[c.pos].key
      ensures Index1(f, m, c) == i && Index2(f, m, c) == j
    {
      assert f.index1(f.element(i, m.size1, j, m.size2), m.size1, m.size2) == i;
    }
  }

  /** `operator *`: the stored value, after checking that the decoded indices are in range. */
  function Deref<T>(f: Orientation, m: Matrix<T>, c: Cursor): (r: Result<T>)
    requires c.pos < |m.data|
    ensures r.Success? <==> Index1(f, m, c) < m.size1 && Index2(f, m, c) < m.size2
    ensures r.Failure? ==> r.error == BadIndex
    ensures r.Success? ==> r.value == m.data[c.pos].value
  {
    var _ :- Require(Index1(f, m, c) < m.size1, BadIndex);
    var _ :- Require(Index2(f, m, c) < m.size2, BadIndex);
    Success(m.data[c.pos].value)
  }

  /** Dereferencing a cursor yields what a const read at its decoded indices yields. */
  lemma DerefAgreesWithGet<T>(f: Orientation, m: Matrix<T>, c: Cursor, zero: T)
    requires Wf(m) && Valid(f, m.size1, m.size2) && c.pos < |m.data|
    requires Index1(f, m, c) < m.size1 && Index2(f, m, c) < m.size2
    ensures Deref(f, m, c) == Success(Get(f, m, Index1(f, m, c), Index2(f, m, c), zero))
  {
    var k := m.data[c.pos].key;
    assert Key(f, m, Index1(f, m, c), Index2(f, m, c)) == k;
  }

  /** `operator ==`: both cursors must belong to the same matrix; then their storage positions are compared. */
  function Equal(c: Cursor, d: Cursor): (r: Result<bool>)
    ensures r.Failure? <==> c.owner != d.owner
    ensures r.Failure? ==> r.error == ExternalLogic
    ensures r.Success? ==> (r.value <==> c.pos == d.pos)
  {
    var _ :- Require(c.owner == d.owner, ExternalLogic);
    Success(c.pos == d.pos)
  }

  /**
   * `iterator1::operator ++`: a single storage step when `one1` is +1 or -1,
   * otherwise the position of `find1 (index1 () + 1, j_)`.
   */
  function Increment1<T>(f: Orientation, m: Matrix<T>, c: Cursor): (r: Result<Cursor>)
    requires Wf(m) && c.pos < |m.data|
    requires Unit(f.one1(m.size1, m.size2)) && !f.forward1 ==> 0 < c.pos
    requires f.one1(m.size1, m.size2) != 0 ==> Valid(f, m.size1, m.size2)
    ensures r.Failure? <==> f.one1(m.size1, m.size2) == 0
    ensures r.Success? ==> r.value.owner == c.owner && r.value.i == c.i && r.value.j == c.j
    ensures r.Success? && Unit(f.one1(m.size1, m.size2)) ==> r.value.pos == Step(c.pos, f.forward1)
    ensures r.Success? && !Unit(f.one1(m.size1, m.size2)) ==>
              r.value.pos == Find1(f, c.owner, m, Index1(f, m, c) + 1, c.j).value.pos
  {
    if Unit(f.one1(m.size1, m.size2)) then
      Success(c.(pos := Step(c.pos, f.forward1)))
    else
      var found :- Find1(f, c.owner, m, Index1(f, m, c) + 1, c.j);
      Success(c.(pos := found.pos))
  }

  /**
   * `iterator1::operator --`: a single storage step back when `one1` is +1
   * or -1, otherwise the position of `find1 (index1 () - 1, j_)`.
   */
  function Decrement1<T>(f: Orientation, m: Matrix<T>, c: Cursor): (r: Result<Cursor>)
    requires Wf(m) && c.pos <= |m.data|
    requires Unit(f.one1(m.size1, m.size2)) ==> (if f.forward1 then 0 < c.pos else c.pos < |m.data|)
    requires !Unit(f.one1(m.size1, m.size2)) ==> c.pos < |m.data| && 1 <= Index1(f, m, c)
    requires f.one1(m.size1, m.size2) != 0 ==> Valid(f, m.size1, m.size2)
    ensures r.Failure? <==> f.one1(m.size1, m.size2) == 0
    ensures r.Success? ==> r.value.owner == c.owner && r.value.i == c.i && r.value.j == c.j
    ensures r.Success? && Unit(f.one1(m.size1, m.size2)) ==> r.value.pos == Step(c.pos, !f.forward1)
    ensures r.Success? && !Unit(f.one1(m.size1, m.size2)) ==>
              r.value.pos == Find1(f, c.owner, m, Index1(f, m, c) - 1, c.j).value.pos
  {
    if Unit(f.one1(m.size1, m.size2)) then
      Success(c.(pos := Step(c.pos, !f.forward1)))
    else
      var found :- Find1(f, c.owner, m, Index1(f, m, c) - 1, c.j);
      Success(c.(pos := found.pos))
  }

  /** With a unit row stride `++` and `--` of `iterator1` undo each other. */
  lemma UnitSteps1Undo<T>(f: Orientation, m: Matrix<T>, c: Cursor)
    requires Wf(m) && Valid(f, m.size1, m.size2) && Unit(f.one1(m.size1, m.size2))
    requires c.pos < |m.data| && (!f.forward1 ==> 0 < c.pos)
    ensures Increment1(f, m, c).Success? && Decrement1(f, m, Increment1(f, m, c).value) == Success(c)
    ensures (if f.forward1 then 0 < c.pos else c.pos + 1 < |m.data|) ==>
              Decrement1(f, m, c).Success? && Increment1(f, m, Decrement1(f, m, c).value) == Success(c)
  {
  }

  /** Where the row of the cursor's element starts; the storage end for a cursor at the end. */
  function RowStartOf<T>(f: Orientation, m: Matrix<T>, c: Cursor): nat
    requires c.pos <= |m.data|
  {
    if c.pos < |m.data| then LowerBound(m.data, Key(f, m, Index1(f, m, c), 0)) else |m.data|
  }

  /**
   * The step back a bidirectional `iterator1` needs. As written, `operator --`
   * re-searches `find1 (index1 () - 1, j_)`, a forward search that cannot
   * pass an empty row. Here the unit-stride path is the single storage step
   * back, as written, and the re-search path goes to the row of the element
   * stored just before the start of the cursor's row, searched with `j_`.
   */
  function Retreat1<T>(f: Orientation, m: Matrix<T>, c: Cursor): (r: Result<Cursor>)
    requires Wf(m) && c.pos <= |m.data|
    requires Unit(f.one1(m.size1, m.size2)) ==> (if f.forward1 then 0 < c.pos else c.pos < |m.data|)
    requires !Unit(f.one1(m.size1, m.size2)) ==> 0 < RowStartOf(f, m, c)
    requires f.one1(m.size1, m.size2) != 0 ==> Valid(f, m.size1, m.size2)
    ensures r.Failure? <==> f.one1(m.size1, m.size2) == 0
    ensures r.Success? ==> r.value.owner == c.owner && r.value.i == c.i && r.value.j == c.j
    ensures r.Success? && Unit(f.one1(m.size1, m.size2)) ==> r.value.pos == Step(c.pos, !f.forward1)
    ensures r.Success? && f.one1(m.size1, m.size2) >= 1 && !Unit(f.one1(m.size1, m.size2)) && c.j == 0 ==>
              r.value.pos < RowStartOf(f, m, c)
  {
    if Unit(f.one1(m.size1, m.size2)) then
      Success(c.(pos := Step(c.pos, !f.forward1)))
    else
      var k := m.data[RowStartOf(f, m, c) - 1].key;
      var found :- Find1(f, c.owner, m, f.index1(k, m.size1, m.size2), c.j);
      ghost var x := f.index1(k, m.size1, m.size2);
      assert f.one1(m.size1, m.size2) >= 1 && c.j == 0 ==> Key(f, m, x, 0) <= k by {
        if f.one1(m.size1, m.size2) >= 1 {
          assert Key(f, m, x, f.index2(k, m.size1, m.size2)) == k;
          assert 0 < f.index2(k, m.size1, m.size2) ==> Key(f, m, x, 0) < Key(f, m, x, f.index2(k, m.size1, m.size2));
        }
      }
      Success(c.(pos := found.pos))
  }

  /** With a forward unit row stride, `++` is one storage step and the corrected step back returns from it. */
  lemma UnitRetreat1Undoes<T>(f: Orientation, m: Matrix<T>, c: Cursor)
    requires Wf(m) && Valid(f, m.size1, m.size2) && Unit(f.one1(m.size1, m.size2)) && f.forward1
    requires c.pos < |m.data|
    ensures Increment1(f, m, c) == Success(c.(pos := c.pos + 1))
    ensures Retreat1(f, m, c.(pos := c.pos + 1)) == Success(c)
  {
  }

  /**
   * `iterator2::operator ++`: a single storage step when `one2` is +1 or -1,
   * otherwise the position of `find2 (i_, index2 () + 1)`.
   */
  function Increment2<T>(f: Orientation, m: Matrix<T>, c: Cursor): (r: Result<Cursor>)
    requires Wf(m) && c.pos < |m.data|
    requires Unit(f.one2(m.size1, m.size2)) && !f.forward2 ==> 0 < c.pos
    requires f.one2(m.size1, m.size2) != 0 ==> Valid(f, m.size1, m.size2)
    ensures r.Failure? <==> f.one2(m.size1, m.size2) == 0
    ensures r.Success? ==> r.value.owner == c.owner && r.value.i == c.i && r.value.j == c.j
    ensures r.Success? && Unit(f.one2(m.size1, m.size2)) ==> r.value.pos == Step(c.pos, f.forward2)
    ensures r.Success? && !Unit(f.one2(m.size1, m.size2)) ==>
              r.value.pos == Find2(f, c.owner, m, c.i, Index2(f, m, c) + 1).value.pos
  {
    if Unit(f.one2(m.size1, m.size2)) then
      Success(c.(pos := Step(c.pos, f.forward2)))
    else
      var found :- Find2(f, c.owner, m, c.i, Index2(f, m, c) + 1);
      Success(c.(pos := found.pos))
  }

  /**
   * `iterator2::operator --`: a single storage step back when `one2` is +1
   * or -1, otherwise the position of `find2 (i_, index2 () - 1)`.
   */
  function Decrement2<T>(f: Orientation, m: Matrix<T>, c: Cursor): (r: Result<Cursor>)
    requires Wf(m) && c.pos <= |m.data|
    requires Unit(f.one2(m.size1, m.size2)) ==> (if f.forward2 then 0 < c.pos else c.pos < |m.data|)
    requires !Unit(f.one2(m.size1, m.size2)) ==> c.pos < |m.data| && 1 <= Index2(f, m, c)
    requires f.one2(m.size1, m.size2) != 0 ==> Valid(f, m.size1, m.size2)
    ensures r.Failure? <==> f.one2(m.size1, m.size2) == 0
    ensures r.Success? ==> r.value.owner == c.owner && r.value.i == c.i && r.value.j == c.j
    ensures r.Success? && Unit(f.one2(m.size1, m.size2)) ==> r.value.pos == Step(c.pos, !f.forward2)
    ensures r.Success? && !Unit(f.one2(m.size1, m.size2)) ==>
              r.value.pos == Find2(f, c.owner, m, c.i, Index2(f, m, c) - 1).value.pos
  {
    if Unit(f.one2(m.size1, m.size2)) then
      Success(c.(pos := Step(c.pos, !f.forward2)))
    else
      var found :- Find2(f, c.owner, m, c.i, Index2(f, m, c) - 1);
      Success(c.(pos := found.pos))
  }

  /** With a unit column stride `++` and `--` of `iterator2` undo each other. */
  lemma UnitSteps2Undo<T>(f: Orientation, m: Matrix<T>, c: Cursor)
    requires Wf(m) && Valid(f, m.size1, m.size2) && Unit(f.one2(m.size1, m.size2))
    requires c.pos < |m.data| && (!f.forward2 ==> 0 < c.pos)
    ensures Increment2(f, m, c).Success? && Decrement2(f, m, Increment2(f, m, c).value) == Success(c)
    ensures (if f.forward2 then 0 < c.pos else c.pos + 1 < |m.data|) ==>
              Decrement2(f, m, c).Success? && Increment2(f, m, Decrement2(f, m, c).value) == Success(c)
  {
  }

  /** Where the column of the cursor's element starts; the storage end for a cursor at the end. */
  function ColumnStartOf<T>(f: Orientation, m: Matrix<T>, c: Cursor): nat
    requires c.pos <= |m.data|
  {
    if c.pos < |m.data| then LowerBound(m.data, Key(f, m, 0, Index2(f, m, c))) else |m.data|
  }

  /**
   * The column-wise twin of `Retreat1` for `iterator2`, whose `operator --`
   * re-searches `find2 (i_, index2 () - 1)` as written.
   */
  function Retreat2<T>(f: Orientation, m: Matrix<T>, c: Cursor): (r: Result<Cursor>)
    requires Wf(m) && c.pos <= |m.data|
    requires Unit(f.one2(m.size1, m.size2)) ==> (if f.forward2 then 0 < c.pos else c.pos < |m.data|)
    requires !Unit(f.one2(m.size1, m.size2)) ==> 0 < ColumnStartOf(f, m, c)
    requires f.one2(m.size1, m.size2) != 0 ==> Valid(f, m.size1, m.size2)
    ensures r.Failure? <==> f.one2(m.size1, m.size2) == 0
    ensures r.Success? ==> r.value.owner == c.owner && r.value.i == c.i && r.value.j == c.j
    ensures r.Success? && Unit(f.one2(m.size1, m.size2)) ==> r.value.pos == Step(c.pos, !f.forward2)
    ensures r.Success? && f.one2(m.size1, m.size2) >= 1 && !Unit(f.one2(m.size1, m.size2)) && c.i == 0 ==>
              r.value.pos < ColumnStartOf(f, m, c)
  {
    if Unit(f.one2(m.size1, m.size2)) then
      Success(c.(pos := Step(c.pos, !f.forward2)))
    else
      var k := m.data[ColumnStartOf(f, m, c) - 1].key;
      var found :- Find2(f, c.owner, m, c.i, f.index2(k, m.size1, m.size2));
      ghost var y := f.index2(k, m.size1, m.size2);
      assert f.one2(m.size1, m.size2) >= 1 && c.i == 0 ==> Key(f, m, 0, y) <= k by {
        if f.one2(m.size1, m.size2) >= 1 {
          assert Key(f, m, f.index1(k, m.size1, m.size2), y) == k;
          assert 0 < f.index1(k, m.size1, m.size2) ==> Key(f, m, 0, y) < Key(f, m, f.index1(k, m.size1, m.size2), y);
        }
      }
      Success(c.(pos := found.pos))
  }

  /** With a forward unit column stride, `++` is one storage step and the corrected step back returns from it. */
  lemma UnitRetreat2Undoes<T>(f: Orientation, m: Matrix<T>, c: Cursor)
    requires Wf(m) && Valid(f, m.size1, m.size2) && Unit(f.one2(m.size1, m.size2)) && f.forward2
    requires c.pos < |m.data|
    ensures Increment2(f, m, c) == Success(c.(pos := c.pos + 1))
    ensures Retreat2(f, m, c.(pos := c.pos + 1)) == Success(c)
  {
  }

  /**
   * `iterator1::begin ()`: `find2 (index1 (), 0)`, a cursor on the cursor's
   * row at or after the key of (index1 (), 0), on an element of that row or
   * a later one, or at the end. That it is the row's first element in a
   * layout whose runs are rows is `Traversal.RowSpan`.
   */
  function RowBegin<T>(f: Orientation, m: Matrix<T>, c: Cursor): (r: Result<Cursor>)
    requires Wf(m) && c.pos < |m.data|
    requires f.one2(m.size1, m.size2) != 0 ==> Valid(f, m.size1, m.size2)
    ensures r.Failure? <==> f.one2(m.size1, m.size2) == 0
    ensures r.Success? ==> r.value.owner == c.owner && r.value.i == Index1(f, m, c) && r.value.pos <= |m.data|
    ensures r.Success? && r.value.pos < |m.data| ==> Index1(f, m, c) <= Index1(f, m, r.value)
    ensures r.Success? && f.one2(m.size1, m.size2) >= 1 ==> LowerBound(m.data, Key(f, m, Index1(f, m, c), 0)) <= r.value.pos
  {
    Find2(f, c.owner, m, Index1(f, m, c), 0)
  }

  /**
   * `iterator1::end ()`: `find2 (index1 (), size2)`, a cursor at or after
   * the key of (index1 (), size2), the boundary past the cursor's row.
   */
  function RowEnd<T>(f: Orientation, m: Matrix<T>, c: Cursor): (r: Result<Cursor>)
    requires Wf(m) && c.pos < |m.data|
    requires f.one2(m.size1, m.size2) != 0 ==> Valid(f, m.size1, m.size2)
    ensures r.Failure? <==> f.one2(m.size1, m.size2) == 0
    ensures r.Success? ==> r.value.owner == c.owner && r.value.i == Index1(f, m, c) && r.value.pos <= |m.data|
    ensures r.Success? && r.value.pos < |m.data| ==> Index1(f, m, c) <= Index1(f, m, r.value)
    ensures r.Success? && f.one2(m.size1, m.size2) >= 1 ==>
              LowerBound(m.data, Key(f, m, Index1(f, m, c), m.size2)) <= r.value.pos
  {
    Find2(f, c.owner, m, Index1(f, m, c), m.size2)
  }

  /**
   * `iterator2::begin ()`: `find1 (0, index2 ())`, a cursor at or after the
   * key of (0, index2 ()), on an element of the cursor's column or a later
   * one, or at the end. That it is the column's first element in a layout
   * whose runs are columns is `Transpose.ColumnSpan`.
   */
  function ColumnBegin<T>(f: Orientation, m: Matrix<T>, c: Cursor): (r: Result<Cursor>)
    requires Wf(m) && c.pos < |m.data|
    requires f.one1(m.size1, m.size2) != 0 ==> Valid(f, m.size1, m.size2)
    ensures r.Failure? <==> f.one1(m.size1, m.size2) == 0
    ensures r.Success? ==> r.value.owner == c.owner && r.value.j == Index2(f, m, c) && r.value.pos <= |m.data|
    ensures r.Success? && r.value.pos < |m.data| ==> Index2(f, m, c) <= Index2(f, m, r.value)
    ensures r.Success? && f.one1(m.size1, m.size2) >= 1 ==> LowerBound(m.data, Key(f, m, 0, Index2(f, m, c))) <= r.value.pos
  {
    Find1(f, c.owner, m, 0, Index2(f, m, c))
  }

  /**
   * `iterator2::end ()`: `find1 (size1, index2 ())`, a cursor at or after
   * the key of (size1, index2 ()), the boundary past the cursor's column.
   */
  function ColumnEnd<T>(f: Orientation, m: Matrix<T>, c: Cursor): (r: Result<Cursor>)
    requires Wf(m) && c.pos < |m.data|
    requires f.one1(m.size1, m.size2) != 0 ==> Valid(f, m.size1, m.size2)
    ensures r.Failure? <==> f.one1(m.size1, m.size2) == 0
    ensures r.Success? ==> r.value.owner == c.owner && r.value.j == Index2(f, m, c) && r.value.pos <= |m.data|
    ensures r.Success? && r.value.pos < |m.data| ==> Index2(f, m, c) <= Index2(f, m, r.value)
    ensures r.Success? && f.one1(m.size1, m.size2) >= 1 ==>
              LowerBound(m.data, Key(f, m, m.size1, Index2(f, m, c))) <= r.value.pos
  {
    Find1(f, c.owner, m, m.size1, Index2(f, m, c))
  }
}
