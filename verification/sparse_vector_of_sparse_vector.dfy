/**
 * `sparse_vector_of_sparse_vector`: the same matrix contract as
 * `sparse_matrix` over a two-level ordered map. The outer map is keyed by
 * the major key `element1 (i, size1, j, size2)`; each outer entry (a bucket)
 * is an inner ordered map keyed by the minor key `element2 (i, size1, j, size2)`.
 * Construction and `resize` leave a single empty sentinel bucket keyed by
 * the functor's `size1 (size1, size2)`.
 */
module SparseVectorOfSparseVector {
  import opened Checks
  import opened OrderedStore
  import opened Orientation

  /** One inner ordered map: the stored elements of one major index. */
  type Bucket<T> = seq<Entry<T>>

  datatype Matrix<T> = Matrix(size1: nat, size2: nat, nonZeroes: nat, data: seq<Entry<Bucket<T>>>)

  /** Both levels are ordered maps. */
  ghost predicate WfData<T>(s: seq<Entry<Bucket<T>>>) {
    Sorted(s) && forall a :: 0 <= a < |s| ==> Sorted(s[a].value)
  }

  ghost predicate Wf<T>(m: Matrix<T>) {
    WfData(m.data)
  }

  /**
   * A cursor: the owning matrix, the `i_`/`j_` it was found with, the outer
   * position `itv_` (which may be the outer end) and the inner iterator `it_`,
   * given as the bucket it points into and the position inside that bucket.
   */
  datatype Cursor = Cursor(owner: MatrixId, i: nat, j: nat, outer: nat, bucket: nat, inner: nat)

  /** The major key of (i, j). */
  function Key1<T>(f: TwoLevelOrientation, m: Matrix<T>, i: nat, j: nat): nat {
    f.element1(i, m.size1, j, m.size2)
  }

  /** The minor key of (i, j). */
  function Key2<T>(f: TwoLevelOrientation, m: Matrix<T>, i: nat, j: nat): nat {
    f.element2(i, m.size1, j, m.size2)
  }

  /** Distinct in-range index pairs have distinct (major, minor) key pairs. */
  lemma KeyPairInjective<T>(f: TwoLevelOrientation, m: Matrix<T>, i: nat, j: nat, i': nat, j': nat)
    requires ValidTwoLevel(f, m.size1, m.size2)
    requires i < m.size1 && j < m.size2 && i' < m.size1 && j' < m.size2
    requires Key1(f, m, i, j) == Key1(f, m, i', j') && Key2(f, m, i, j) == Key2(f, m, i', j')
    ensures i == i' && j == j'
  {
  }

  /** Some bucket keyed `a` holds an entry keyed `b`. */
  ghost predicate Holds<T>(s: seq<Entry<Bucket<T>>>, a: nat, b: nat) {
    exists p, q :: 0 <= p < |s| && 0 <= q < |s[p].value| && s[p].key == a && s[p].value[q].key == b
  }

  /** The value stored under the key pair (a, b), if any. */
  function Lookup2<T>(s: seq<Entry<Bucket<T>>>, a: nat, b: nat): (r: Option<T>)
    requires WfData(s)
    ensures r.None? <==> !Holds(s, a, b)
    ensures forall p, q :: 0 <= p < |s| && 0 <= q < |s[p].value| && s[p].key == a && s[p].value[q].key == b ==>
              r == Some(s[p].value[q].value)
  {
    match Lookup(s, a)
    case None => None
    case Some(bucket) => Lookup(bucket, b)
  }

  /**
   * `operator () (i, j) const`: zero when the bucket of the major key or the
   * entry of the minor key is missing, else the stored value.
   */
  function Get<T>(f: TwoLevelOrientation, m: Matrix<T>, i: nat, j: nat, zero: T): (r: T)
    requires Wf(m)
    ensures !Holds(m.data, Key1(f, m, i, j), Key2(f, m, i, j)) ==> r == zero
    ensures forall p, q ::
              (0 <= p < |m.data| && 0 <= q < |m.data[p].value| &&
               m.data[p].key == Key1(f, m, i, j) && m.data[p].value[q].key == Key2(f, m, i, j)) ==>
              r == m.data[p].value[q].value
  {
    match Lookup2(m.data, Key1(f, m, i, j), Key2(f, m, i, j))
    case None => zero
    case Some(v) => v
  }

  /**
   * Make sure the bucket `a` exists (created empty when missing) and that it
   * holds an entry `b` (created with `d` when missing); yields the storage and
   * the (bucket, inner) position of that entry. This is both the mutable
   * `operator ()` (`data_ [a] [b]`, with `d` the default value) and `insert`.
   */
  function Place<T>(s: seq<Entry<Bucket<T>>>, a: nat, b: nat, d: T): (r: (seq<Entry<Bucket<T>>>, nat, nat))
    requires WfData(s)
    ensures WfData(r.0)
    ensures r.1 < |r.0| && r.2 < |r.0[r.1].value|
    ensures r.0[r.1].key == a && r.0[r.1].value[r.2].key == b
    ensures Holds(s, a, b) ==> r.0 == s
    ensures !Holds(s, a, b) ==> r.0[r.1].value[r.2].value == d
    ensures forall a', b' :: a' != a || b' != b ==> Lookup2(r.0, a', b') == Lookup2(s, a', b')
  {
    var (s1, p) := FindOrInsert(s, a, []);
    assert WfData(s1);
    var (bucket, q) := FindOrInsert(s1[p].value, b, d);
    var s2 := SetValue(s1, p, bucket);
    assert s2[p] == Entry(a, bucket);
    assert WfData(s2);
    PlaceKeepsOthers(s, a, b, d, s1, p, bucket, s2);
    PlaceFindsPresent(s, a, b, d, s1, p, bucket, s2);
    (s2, p, q)
  }

  /** The frame part of `Place`: every other key pair keeps its value. */
  lemma PlaceKeepsOthers<T>(s: seq<Entry<Bucket<T>>>, a: nat, b: nat, d: T,
                            s1: seq<Entry<Bucket<T>>>, p: nat, bucket: Bucket<T>, s2: seq<Entry<Bucket<T>>>)
    requires WfData(s) && WfData(s1) && WfData(s2)
    requires (s1, p) == FindOrInsert(s, a, [])
    requires bucket == OrderedStore.Insert(s1[p].value, b, d)
    requires s2 == SetValue(s1, p, bucket)
    ensures forall a', b' :: a' != a || b' != b ==> Lookup2(s2, a', b') == Lookup2(s, a', b')
  {
    forall a', b' | a' != a || b' != b
      ensures Lookup2(s2, a', b') == Lookup2(s, a', b')
    {
      if a' != a {
        assert Lookup(s2, a') == Lookup(s1, a') == Lookup(s, a');
      } else {
        assert Lookup(s2, a) == Some(bucket);
        if HasKey(s, a) {
          assert Lookup(s, a) == Some(s1[p].value);
        }
      }
    }
  }

  /** When the element is already stored, `Place` leaves the storage as it is. */
  lemma PlaceFindsPresent<T>(s: seq<Entry<Bucket<T>>>, a: nat, b: nat, d: T,
                             s1: seq<Entry<Bucket<T>>>, p: nat, bucket: Bucket<T>, s2: seq<Entry<Bucket<T>>>)
    requires WfData(s) && WfData(s1)
    requires (s1, p) == FindOrInsert(s, a, [])
    requires bucket == OrderedStore.Insert(s1[p].value, b, d)
    requires s2 == SetValue(s1, p, bucket)
    ensures Holds(s, a, b) ==> s2 == s
  {
    if Holds(s, a, b) {
      HeldBucketFound(s, a, b, s1, p);
      assert bucket == s1[p].value;
      assert Entry(s1[p].key, bucket) == s1[p];
      assert s2 == s1[p := s1[p]];
    }
  }

  /** A stored pair's bucket is found where it is, and holds the inner key. */
  lemma HeldBucketFound<T>(s: seq<Entry<Bucket<T>>>, a: nat, b: nat, s1: seq<Entry<Bucket<T>>>, p: nat)
    requires WfData(s) && Holds(s, a, b)
    requires (s1, p) == FindOrInsert(s, a, [])
    ensures s1 == s && p < |s| && s[p].key == a && HasKey(s[p].value, b)
  {
    var x, y :| 0 <= x < |s| && 0 <= y < |s[x].value| && s[x].key == a && s[x].value[y].key == b;
    assert HasKey(s, a);
    assert s[p].key == a;
    assert x == p;
  }

  /** `operator () (i, j)`: the matrix after the access and the (bucket, inner) position of the element. */
  function Access<T>(f: TwoLevelOrientation, m: Matrix<T>, i: nat, j: nat, zero: T): (r: (Matrix<T>, nat, nat))
    requires Wf(m)
    ensures Wf(r.0) && r.0.size1 == m.size1 && r.0.size2 == m.size2 && r.0.nonZeroes == m.nonZeroes
    ensures r.1 < |r.0.data| && r.2 < |r.0.data[r.1].value|
    ensures r.0.data[r.1].key == Key1(f, m, i, j) && r.0.data[r.1].value[r.2].key == Key2(f, m, i, j)
    ensures Holds(m.data, Key1(f, m, i, j), Key2(f, m, i, j)) ==> r.0 == m
    ensures !Holds(m.data, Key1(f, m, i, j), Key2(f, m, i, j)) ==> r.0.data[r.1].value[r.2].value == zero
    ensures r.0.data[r.1].value[r.2].value == Get(f, m, i, j, zero)
    ensures forall a', b' :: a' != Key1(f, m, i, j) || b' != Key2(f, m, i, j) ==>
              Lookup2(r.0.data, a', b') == Lookup2(m.data, a', b')
  {
    var (s, p, q) := Place(m.data, Key1(f, m, i, j), Key2(f, m, i, j), zero);
    (m.(data := s), p, q)
  }

  /** `*ref = v` through the reference `operator ()` returned for the element at (p, q). */
  function Write<T>(m: Matrix<T>, p: nat, q: nat, v: T): (r: Matrix<T>)
    requires Wf(m) && p < |m.data| && q < |m.data[p].value|
    ensures Wf(r) && r.size1 == m.size1 && r.size2 == m.size2 && r.nonZeroes == m.nonZeroes
    ensures Lookup2(r.data, m.data[p].key, m.data[p].value[q].key) == Some(v)
    ensures forall a', b' :: a' != m.data[p].key || b' != m.data[p].value[q].key ==>
              Lookup2(r.data, a', b') == Lookup2(m.data, a', b')
  {
    var bucket := SetValue(m.data[p].value, q, v);
    var s := SetValue(m.data, p, bucket);
    assert s[p] == Entry(m.data[p].key, bucket);
    assert WfData(s);
    forall a', b' | a' != m.data[p].key || b' != m.data[p].value[q].key
      ensures Lookup2(s, a', b') == Lookup2(m.data, a', b')
    {
      assert Lookup(s, m.data[p].key) == Some(bucket);
    }
    m.(data := s)
  }

  /** Writing `v` through a mutable access makes the const read return `v`, and no other element changes. */
  lemma AccessWriteRead<T>(f: TwoLevelOrientation, m: Matrix<T>, i: nat, j: nat, zero: T, v: T)
    requires Wf(m)
    ensures var (m1, p, q) := Access(f, m, i, j, zero);
            && Get(f, Write(m1, p, q, v), i, j, zero) == v
            && forall a', b' :: a' != Key1(f, m, i, j) || b' != Key2(f, m, i, j) ==>
                 Lookup2(Write(m1, p, q, v).data, a', b') == Lookup2(m.data, a', b')
  {
  }

  /** A second access to the same element finds it in place and changes nothing. */
  lemma AccessIdempotent<T>(f: TwoLevelOrientation, m: Matrix<T>, i: nat, j: nat, zero: T)
    requires Wf(m)
    ensures var (m1, p, q) := Access(f, m, i, j, zero);
            Access(f, m1, i, j, zero) == (m1, p, q)
  {
    var (m1, p, q) := Access(f, m, i, j, zero);
    assert Holds(m1.data, Key1(f, m, i, j), Key2(f, m, i, j));
    var (m2, p2, q2) := Access(f, m1, i, j, zero);
    assert p2 == p by {
      assert m1.data[p2].key == m1.data[p].key;
    }
    assert q2 == q by {
      assert m1.data[p].value[q2].key == m1.data[p].value[q].key;
    }
  }

  /**
   * `insert (i, j, t)`: creates the bucket of the major key only when it is
   * missing, then inserts the entry into that bucket unless present.
   */
  function Insert<T>(f: TwoLevelOrientation, m: Matrix<T>, i: nat, j: nat, t: T): (r: Matrix<T>)
    requires Wf(m)
    ensures Wf(r) && r.size1 == m.size1 && r.size2 == m.size2 && r.nonZeroes == m.nonZeroes
    ensures Holds(m.data, Key1(f, m, i, j), Key2(f, m, i, j)) ==> r == m
    ensures !Holds(m.data, Key1(f, m, i, j), Key2(f, m, i, j)) ==>
              Lookup2(r.data, Key1(f, m, i, j), Key2(f, m, i, j)) == Some(t)
    ensures forall a', b' :: a' != Key1(f, m, i, j) || b' != Key2(f, m, i, j) ==>
              Lookup2(r.data, a', b') == Lookup2(m.data, a', b')
  {
    m.(data := Place(m.data, Key1(f, m, i, j), Key2(f, m, i, j), t).0)
  }

  /** After inserting into an absent in-range element the const read returns `t`; other in-range reads are unchanged. */
  lemma InsertThenGet<T>(f: TwoLevelOrientation, m: Matrix<T>, i: nat, j: nat, t: T, zero: T)
    requires Wf(m) && ValidTwoLevel(f, m.size1, m.size2)
    requires i < m.size1 && j < m.size2
    requires !Holds(m.data, Key1(f, m, i, j), Key2(f, m, i, j))
    ensures Get(f, Insert(f, m, i, j, t), i, j, zero) == t
    ensures forall i': nat, j': nat :: i' < m.size1 && j' < m.size2 && (i', j') != (i, j) ==>
              Get(f, Insert(f, m, i, j, t), i', j', zero) == Get(f, m, i', j', zero)
  {
    var r := Insert(f, m, i, j, t);
    forall i': nat, j': nat | i' < m.size1 && j' < m.size2 && (i', j') != (i, j)
      ensures Get(f, r, i', j', zero) == Get(f, m, i', j', zero)
    {
      if Key1(f, m, i', j') == Key1(f, m, i, j) && Key2(f, m, i', j') == Key2(f, m, i, j) {
        KeyPairInjective(f, m, i, j, i', j');
      }
      SameLookupSameGet(f, m, r, i', j', zero);
    }
  }

  /** Two matrices of the same sizes whose storages agree on the key pair of (i, j) read the same at (i, j). */
  lemma SameLookupSameGet<T>(f: TwoLevelOrientation, m: Matrix<T>, r: Matrix<T>, i: nat, j: nat, zero: T)
    requires Wf(m) && Wf(r) && r.size1 == m.size1 && r.size2 == m.size2
    requires Lookup2(r.data, Key1(f, m, i, j), Key2(f, m, i, j)) == Lookup2(m.data, Key1(f, m, i, j), Key2(f, m, i, j))
    ensures Get(f, r, i, j, zero) == Get(f, m, i, j, zero)
  {
  }

  /**
   * The constructor `(size1, size2, non_zeroes)`: no element stored and
   * exactly one empty bucket, keyed by the functor's `size1 (size1, size2)`.
   */
  function Create<T>(f: TwoLevelOrientation, size1: nat, size2: nat, nonZeroes: nat): (m: Matrix<T>)
    ensures Wf(m) && m.size1 == size1 && m.size2 == size2 && m.nonZeroes == nonZeroes
    ensures |m.data| == 1 && HasKey(m.data, f.size1(size1, size2))
    ensures forall a, b :: Lookup2(m.data, a, b) == None
  {
    var m := Matrix(size1, size2, nonZeroes, [Entry(f.size1(size1, size2), [])]);
    assert m.data[0].key == f.size1(size1, size2);
    m
  }

  /** `resize`: takes the new sizes and, unlike the flat matrix, discards every element, leaving only the sentinel bucket. */
  function Resize<T>(f: TwoLevelOrientation, m: Matrix<T>, size1: nat, size2: nat, nonZeroes: nat): (r: Matrix<T>)
    ensures Wf(r) && r.size1 == size1 && r.size2 == size2 && r.nonZeroes == nonZeroes
    ensures |r.data| == 1 && HasKey(r.data, f.size1(size1, size2))
    ensures forall a, b :: Lookup2(r.data, a, b) == None
  {
    Create(f, size1, size2, nonZeroes)
  }

  /** `clear`: removes every bucket, the sentinel included. */
  function Clear<T>(m: Matrix<T>): (r: Matrix<T>)
    ensures Wf(r) && r.size1 == m.size1 && r.size2 == m.size2 && r.nonZeroes == m.nonZeroes
    ensures forall a :: !HasKey(r.data, a)
  {
    m.(data := [])
  }

  /** Copy assignment: `bad_size` unless all three sizes agree; then the storage becomes the source's. */
  function Assign<T>(dst: Matrix<T>, src: Matrix<T>): (r: Result<Matrix<T>>)
    ensures r.Success? <==> dst.size1 == src.size1 && dst.size2 == src.size2 && dst.nonZeroes == src.nonZeroes
    ensures r.Failure? ==> r.error == BadSize
    ensures r.Success? ==> r.value.data == src.data
    ensures r.Success? ==> r.value.size1 == dst.size1 && r.value.size2 == dst.size2 && r.value.nonZeroes == dst.nonZeroes
    ensures r.Success? && Wf(src) ==> Wf(r.value)
  {
    var _ :- Require(dst.size1 == src.size1, BadSize);
    var _ :- Require(dst.size2 == src.size2, BadSize);
    var _ :- Require(dst.nonZeroes == src.nonZeroes, BadSize);
    Success(dst.(data := src.data))
  }

  /** After a successful assignment every element reads as it does in the source. */
  lemma AssignCopies<T>(f: TwoLevelOrientation, dst: Matrix<T>, src: Matrix<T>, zero: T)
    requires Wf(src)
    ensures var r := Assign(dst, src);
            r.Success? ==> forall i: nat, j: nat :: Get(f, r.value, i, j, zero) == Get(f, src, i, j, zero)
  {
  }

  /**
   * `swap`: `external_logic` when both sides are the same object, `bad_size`
   * unless all three sizes agree; then the two matrices exchange their contents.
   */
  function Swap<T>(ida: MatrixId, a: Matrix<T>, idb: MatrixId, b: Matrix<T>): (r: Result<(Matrix<T>, Matrix<T>)>)
    ensures r.Success? <==> ida != idb && a.size1 == b.size1 && a.size2 == b.size2 && a.nonZeroes == b.nonZeroes
    ensures r.Failure? && ida == idb ==> r.error == ExternalLogic
    ensures r.Failure? && ida != idb ==> r.error == BadSize
    ensures r.Success? ==> r.value.0.data == b.data && r.value.1.data == a.data
    ensures r.Success? ==> r.value.0.size1 == a.size1 && r.value.0.size2 == a.size2 && r.value.0.nonZeroes == a.nonZeroes
    ensures r.Success? ==> r.value.1.size1 == b.size1 && r.value.1.size2 == b.size2 && r.value.1.nonZeroes == b.nonZeroes
  {
    var _ :- Require(ida != idb, ExternalLogic);
    var _ :- Require(a.size1 == b.size1, BadSize);
    var _ :- Require(a.size2 == b.size2, BadSize);
    var _ :- Require(a.nonZeroes == b.nonZeroes, BadSize);
    Success((Matrix(b.size1, b.size2, b.nonZeroes, b.data), Matrix(a.size1, a.size2, a.nonZeroes, a.data)))
  }

  /** Swapping twice restores both matrices. */
  lemma SwapTwice<T>(ida: MatrixId, a: Matrix<T>, idb: MatrixId, b: Matrix<T>)
    requires Swap(ida, a, idb, b).Success?
    ensures var (a1, b1) := Swap(ida, a, idb, b).value;
            Swap(ida, a1, idb, b1) == Success((a, b))
  {
  }

  // ---------------------------------------------------------------- boundary-seeking search

  /**
   * Progress of the two-level search with lower bounds: a target pair (A, B)
   * strictly after the pair found at (p, q) moves the outer lower bound past
   * `p`, or keeps it at `p` and moves the inner lower bound past `q`.
   */
  lemma LowerPairPast<T>(s: seq<Entry<Bucket<T>>>, p: nat, q: nat, A: nat, B: nat)
    requires WfData(s) && p < |s| && q < |s[p].value|
    requires Before(s[p].key, s[p].value[q].key, A, B)
    ensures p <= LowerBound(s, A)
    ensures p == LowerBound(s, A) ==> q < LowerBound(s[p].value, B)
  {
    if s[p].key < A {
      LowerBoundPast(s, p, A);
    } else {
      LowerBoundPast(s[p].value, q, B);
    }
  }

  /** Progress of the two-level search with upper bounds: the outer upper bound always moves past `p`. */
  lemma UpperPairPast<T>(s: seq<Entry<Bucket<T>>>, p: nat, q: nat, A: nat, B: nat)
    requires WfData(s) && p < |s| && q < |s[p].value|
    requires Before(s[p].key, s[p].value[q].key, A, B)
    ensures p < UpperBound(s, A)
  {
    UpperBoundPast(s, p, A);
  }

  /** A stored pair whose column is short of `j` comes before the same row's key pair at column `j`. */
  lemma ColumnShortBefore<T>(f: TwoLevelOrientation, m: Matrix<T>, a: nat, b: nat, j: nat)
    requires ValidTwoLevel(f, m.size1, m.size2)
    requires f.index2(a, b) < j
    ensures Before(a, b, Key1(f, m, f.index1(a, b), j), Key2(f, m, f.index1(a, b), j))
  {
    var i0, j0 := f.index1(a, b), f.index2(a, b);
    assert f.element1(i0, m.size1, j0, m.size2) == a && f.element2(i0, m.size1, j0, m.size2) == b;
    assert Before(Key1(f, m, i0, j0), Key2(f, m, i0, j0), Key1(f, m, i0, j), Key2(f, m, i0, j));
  }

  /** A stored pair whose row is short of `i` comes before the same column's key pair at row `i`. */
  lemma RowShortBefore<T>(f: TwoLevelOrientation, m: Matrix<T>, a: nat, b: nat, i: nat)
    requires ValidTwoLevel(f, m.size1, m.size2)
    requires f.index1(a, b) < i
    ensures Before(a, b, Key1(f, m, i, f.index2(a, b)), Key2(f, m, i, f.index2(a, b)))
  {
    var i0, j0 := f.index1(a, b), f.index2(a, b);
    assert f.element1(i0, m.size1, j0, m.size2) == a && f.element2(i0, m.size1, j0, m.size2) == b;
    assert Before(Key1(f, m, i0, j0), Key2(f, m, i0, j0), Key1(f, m, i, j0), Key2(f, m, i, j0));
  }

  /**
   * The shape of every search result: either the outer end with the inner
   * iterator at the end of the last bucket (the step back from the outer
   * end), or a bucket with the inner iterator inside it or at its end.
   */
  predicate Placed<T>(m: Matrix<T>, c: Cursor) {
    && 0 < |m.data|
    && c.outer <= |m.data|
    && (c.outer == |m.data| ==> c.bucket == |m.data| - 1 && c.inner == |m.data[c.bucket].value|)
    && (c.outer < |m.data| ==> c.bucket == c.outer && c.inner <= |m.data[c.bucket].value|)
  }

  /**
   * The cursor stands at or after the lower-bound position of the key pair
   * (A, B) in storage order: past the outer lower bound of `A`, or in that
   * bucket at or past the inner lower bound of `B`.
   */
  ghost predicate FromLower<T>(s: seq<Entry<Bucket<T>>>, A: nat, B: nat, c: Cursor) {
    var p := LowerBound(s, A);
    p < c.outer || (p == c.outer && (p < |s| ==> LowerBound(s[p].value, B) <= c.inner))
  }

  /** The same start bound for the searches driven by `upper_bound`. */
  ghost predicate FromUpper<T>(s: seq<Entry<Bucket<T>>>, A: nat, B: nat, c: Cursor) {
    var p := UpperBound(s, A);
    p < c.outer || (p == c.outer && (p < |s| ==> UpperBound(s[p].value, B) <= c.inner))
  }

  /** A search that restarts strictly after the position (p, q) of the key pair (A, B) still ends at or after it. */
  lemma FromLowerStep<T>(s: seq<Entry<Bucket<T>>>, A: nat, B: nat, A': nat, B': nat, c: Cursor)
    requires WfData(s) && c.outer <= |s|
    requires LowerBound(s, A) < |s|
    requires LowerBound(s, A) <= LowerBound(s, A')
    requires LowerBound(s, A) == LowerBound(s, A') ==>
               LowerBound(s[LowerBound(s, A)].value, B) < LowerBound(s[LowerBound(s, A)].value, B')
    requires FromLower(s, A', B', c)
    ensures FromLower(s, A, B, c)
  {
  }

  /** The same for `upper_bound`, whose restarts always move past the outer position. */
  lemma FromUpperStep<T>(s: seq<Entry<Bucket<T>>>, A: nat, B: nat, A': nat, B': nat, c: Cursor)
    requires WfData(s) && c.outer <= |s|
    requires UpperBound(s, A) < UpperBound(s, A')
    requires FromUpper(s, A', B', c)
    ensures FromUpper(s, A, B, c)
  {
  }

  /**
   * A stored pair not before the key pair of (i, j) whose column is short of
   * `j` lies in row `i` or later: the row a search moves to never decreases.
   */
  lemma ShortColumnRowAtLeast<T>(f: TwoLevelOrientation, m: Matrix<T>, a: nat, b: nat, i: nat, j: nat)
    requires ValidTwoLevel(f, m.size1, m.size2)
    requires !Before(a, b, Key1(f, m, i, j), Key2(f, m, i, j))
    requires f.index2(a, b) < j
    ensures i <= f.index1(a, b)
  {
    var i0, j0 := f.index1(a, b), f.index2(a, b);
    assert f.element1(i0, m.size1, j0, m.size2) == a && f.element2(i0, m.size1, j0, m.size2) == b;
    assert Before(Key1(f, m, i0, j0), Key2(f, m, i0, j0), Key1(f, m, i0, j), Key2(f, m, i0, j));
    assert i0 < i ==> Before(Key1(f, m, i0, j), Key2(f, m, i0, j), Key1(f, m, i, j), Key2(f, m, i, j));
  }

  /** The row-wise twin: a stored pair not before the key pair of (i, j) whose row is short of `i` lies in column `j` or later. */
  lemma ShortRowColumnAtLeast<T>(f: TwoLevelOrientation, m: Matrix<T>, a: nat, b: nat, i: nat, j: nat)
    requires ValidTwoLevel(f, m.size1, m.size2)
    requires !Before(a, b, Key1(f, m, i, j), Key2(f, m, i, j))
    requires f.index1(a, b) < i
    ensures j <= f.index2(a, b)
  {
    var i0, j0 := f.index1(a, b), f.index2(a, b);
    assert f.element1(i0, m.size1, j0, m.size2) == a && f.element2(i0, m.size1, j0, m.size2) == b;
    assert Before(Key1(f, m, i0, j0), Key2(f, m, i0, j0), Key1(f, m, i, j0), Key2(f, m, i, j0));
    assert j0 < j ==> Before(Key1(f, m, i, j0), Key2(f, m, i, j0), Key1(f, m, i, j), Key2(f, m, i, j));
  }

  /** The cursor stands on a stored element, so `index1 ()`/`index2 ()` can read both keys. */
  predicate OnElement<T>(m: Matrix<T>, c: Cursor) {
    c.outer < |m.data| && c.bucket < |m.data| && c.inner < |m.data[c.bucket].value|
  }

  /** The entries of the bucket at the outer lower bound of (i, j) from the inner lower bound on; 0 at the outer end. */
  function LowerRoom<T>(f: TwoLevelOrientation, m: Matrix<T>, i: nat, j: nat): nat {
    var p := LowerBound(m.data, Key1(f, m, i, j));
    if p < |m.data| then |m.data[p].value| - LowerBound(m.data[p].value, Key2(f, m, i, j)) else 0
  }

  /** The end of the last bucket, reached by stepping back from the outer end. */
  function LastBucketEnd<T>(id: MatrixId, m: Matrix<T>, i: nat, j: nat): (c: Cursor)
    requires 0 < |m.data|
    ensures Placed(m, c) && c.outer == |m.data|
  {
    Cursor(id, i, j, |m.data|, |m.data| - 1, |m.data[|m.data| - 1].value|)
  }

  /**
   * The loop of `find1` for `one1 >= 1`: outer lower bound of `element1`;
   * at the outer end, the end of the last bucket; else the inner lower bound
   * of `element2`; at that bucket's end, stop there; else stop when the
   * column is not before `j`, or move `i` to the entry's row and repeat.
   */
  function Seek1Lower<T>(f: TwoLevelOrientation, id: MatrixId, m: Matrix<T>, i: nat, j: nat): (r: Cursor)
    requires Wf(m) && 0 < |m.data| && ValidTwoLevel(f, m.size1, m.size2)
    ensures r.owner == id && r.j == j && Placed(m, r)
    ensures i <= r.i && FromLower(m.data, Key1(f, m, i, j), Key2(f, m, i, j), r)
    ensures r.outer == LowerBound(m.data, Key1(f, m, r.i, j))
    ensures r.outer < |m.data| ==> r.inner == LowerBound(m.data[r.outer].value, Key2(f, m, r.i, j))
    ensures r.outer < |m.data| && r.inner < |m.data[r.outer].value| ==>
              j <= f.index2(m.data[r.outer].key, m.data[r.outer].value[r.inner].key)
    decreases |m.data| - LowerBound(m.data, Key1(f, m, i, j)), LowerRoom(f, m, i, j)
  {
    var p := LowerBound(m.data, Key1(f, m, i, j));
    if p == |m.data| then LastBucketEnd(id, m, i, j)
    else
      var q := LowerBound(m.data[p].value, Key2(f, m, i, j));
      if q == |m.data[p].value| then Cursor(id, i, j, p, p, q)
      else
        var a, b := m.data[p].key, m.data[p].value[q].key;
        if j <= f.index2(a, b) then Cursor(id, i, j, p, p, q)
        else
          ShortColumnRowAtLeast(f, m, a, b, i, j);
          ColumnShortBefore(f, m, a, b, j);
          LowerPairPast(m.data, p, q, Key1(f, m, f.index1(a, b), j), Key2(f, m, f.index1(a, b), j));
          var r := Seek1Lower(f, id, m, f.index1(a, b), j);
          FromLowerStep(m.data, Key1(f, m, i, j), Key2(f, m, i, j), Key1(f, m, f.index1(a, b), j), Key2(f, m, f.index1(a, b), j), r);
          r
  }

  /** The loop of `find1` for `one1 <= -1`: the same search driven by `upper_bound` at both levels. */
  function Seek1Upper<T>(f: TwoLevelOrientation, id: MatrixId, m: Matrix<T>, i: nat, j: nat): (r: Cursor)
    requires Wf(m) && 0 < |m.data| && ValidTwoLevel(f, m.size1, m.size2)
    ensures r.owner == id && r.j == j && Placed(m, r)
    ensures i <= r.i && FromUpper(m.data, Key1(f, m, i, j), Key2(f, m, i, j), r)
    ensures r.outer == UpperBound(m.data, Key1(f, m, r.i, j))
    ensures r.outer < |m.data| ==> r.inner == UpperBound(m.data[r.outer].value, Key2(f, m, r.i, j))
    ensures r.outer < |m.data| && r.inner < |m.data[r.outer].value| ==>
              j <= f.index2(m.data[r.outer].key, m.data[r.outer].value[r.inner].key)
    decreases |m.data| - UpperBound(m.data, Key1(f, m, i, j))
  {
    var p := UpperBound(m.data, Key1(f, m, i, j));
    if p == |m.data| then LastBucketEnd(id, m, i, j)
    else
      var q := UpperBound(m.data[p].value, Key2(f, m, i, j));
      if q == |m.data[p].value| then Cursor(id, i, j, p, p, q)
      else
        var a, b := m.data[p].key, m.data[p].value[q].key;
        if j <= f.index2(a, b) then Cursor(id, i, j, p, p, q)
        else
          ShortColumnRowAtLeast(f, m, a, b, i, j);
          ColumnShortBefore(f, m, a, b, j);
          UpperPairPast(m.data, p, q, Key1(f, m, f.index1(a, b), j), Key2(f, m, f.index1(a, b), j));
          var r := Seek1Upper(f, id, m, f.index1(a, b), j);
          FromUpperStep(m.data, Key1(f, m, i, j), Key2(f, m, i, j), Key1(f, m, f.index1(a, b), j), Key2(f, m, f.index1(a, b), j), r);
          r
  }

  /** The loop of `find2` for `one2 >= 1`: the row-wise twin of `Seek1Lower`, moving `j`. */
  function Seek2Lower<T>(f: TwoLevelOrientation, id: MatrixId, m: Matrix<T>, i: nat, j: nat): (r: Cursor)
    requires Wf(m) && 0 < |m.data| && ValidTwoLevel(f, m.size1, m.size2)
    ensures r.owner == id && r.i == i && Placed(m, r)
    ensures j <= r.j && FromLower(m.data, Key1(f, m, i, j), Key2(f, m, i, j), r)
    ensures r.outer == LowerBound(m.data, Key1(f, m, i, r.j))
    ensures r.outer < |m.data| ==> r.inner == LowerBound(m.data[r.outer].value, Key2(f, m, i, r.j))
    ensures r.outer < |m.data| && r.inner < |m.data[r.outer].value| ==>
              i <= f.index1(m.data[r.outer].key, m.data[r.outer].value[r.inner].key)
    decreases |m.data| - LowerBound(m.data, Key1(f, m, i, j)), LowerRoom(f, m, i, j)
  {
    var p := LowerBound(m.data, Key1(f, m, i, j));
    if p == |m.data| then LastBucketEnd(id, m, i, j)
    else
      var q := LowerBound(m.data[p].value, Key2(f, m, i, j));
      if q == |m.data[p].value| then Cursor(id, i, j, p, p, q)
      else
        var a, b := m.data[p].key, m.data[p].value[q].key;
        if i <= f.index1(a, b) then Cursor(id, i, j, p, p, q)
        else
          ShortRowColumnAtLeast(f, m, a, b, i, j);
          RowShortBefore(f, m, a, b, i);
          LowerPairPast(m.data, p, q, Key1(f, m, i, f.index2(a, b)), Key2(f, m, i, f.index2(a, b)));
          var r := Seek2Lower(f, id, m, i, f.index2(a, b));
          FromLowerStep(m.data, Key1(f, m, i, j), Key2(f, m, i, j), Key1(f, m, i, f.index2(a, b)), Key2(f, m, i, f.index2(a, b)), r);
          r
  }

  /** The loop of `find2` for `one2 <= -1`. */
  function Seek2Upper<T>(f: TwoLevelOrientation, id: MatrixId, m: Matrix<T>, i: nat, j: nat): (r: Cursor)
    requires Wf(m) && 0 < |m.data| && ValidTwoLevel(f, m.size1, m.size2)
    ensures r.owner == id && r.i == i && Placed(m, r)
    ensures j <= r.j && FromUpper(m.data, Key1(f, m, i, j), Key2(f, m, i, j), r)
    ensures r.outer == UpperBound(m.data, Key1(f, m, i, r.j))
    ensures r.outer < |m.data| ==> r.inner == UpperBound(m.data[r.outer].value, Key2(f, m, i, r.j))
    ensures r.outer < |m.data| && r.inner < |m.data[r.outer].value| ==>
              i <= f.index1(m.data[r.outer].key, m.data[r.outer].value[r.inner].key)
    decreases |m.data| - UpperBound(m.data, Key1(f, m, i, j))
  {
    var p := UpperBound(m.data, Key1(f, m, i, j));
    if p == |m.data| then LastBucketEnd(id, m, i, j)
    else
      var q := UpperBound(m.data[p].value, Key2(f, m, i, j));
      if q == |m.data[p].value| then Cursor(id, i, j, p, p, q)
      else
        var a, b := m.data[p].key, m.data[p].value[q].key;
        if i <= f.index1(a, b) then Cursor(id, i, j, p, p, q)
        else
          ShortRowColumnAtLeast(f, m, a, b, i, j);
          RowShortBefore(f, m, a, b, i);
          UpperPairPast(m.data, p, q, Key1(f, m, i, f.index2(a, b)), Key2(f, m, i, f.index2(a, b)));
          var r := Seek2Upper(f, id, m, i, f.index2(a, b));
          FromUpperStep(m.data, Key1(f, m, i, j), Key2(f, m, i, j), Key1(f, m, i, f.index2(a, b)), Key2(f, m, i, f.index2(a, b)), r);
          r
  }

  /**
   * `find1 (i, j)`: `internal_logic` when the stride `one1` is 0 or the outer
   * storage is empty; otherwise one of three stops: the end of the last
   * bucket (outer end), the end of the bucket found (inner end, without
   * moving on to the next bucket), or an element whose column is not before `j`.
   */
  function Find1<T>(f: TwoLevelOrientation, id: MatrixId, m: Matrix<T>, i: nat, j: nat): (r: Result<Cursor>)
    requires Wf(m)
    requires f.one1(m.size1, m.size2) != 0 ==> ValidTwoLevel(f, m.size1, m.size2)
    ensures r.Failure? <==> f.one1(m.size1, m.size2) == 0 || |m.data| == 0
    ensures r.Failure? ==> r.error == InternalLogic
    ensures r.Success? ==> r.value.owner == id && r.value.j == j && i <= r.value.i && Placed(m, r.value)
    ensures r.Success? && f.one1(m.size1, m.size2) >= 1 ==> FromLower(m.data, Key1(f, m, i, j), Key2(f, m, i, j), r.value)
    ensures r.Success? && f.one1(m.size1, m.size2) <= -1 ==> FromUpper(m.data, Key1(f, m, i, j), Key2(f, m, i, j), r.value)
    ensures r.Success? && r.value.outer < |m.data| && r.value.inner < |m.data[r.value.outer].value| ==>
              j <= f.index2(m.data[r.value.outer].key, m.data[r.value.outer].value[r.value.inner].key)
    ensures r.Success? && f.one1(m.size1, m.size2) >= 1 ==>
              && r.value.outer == LowerBound(m.data, Key1(f, m, r.value.i, j))
              && (r.value.outer < |m.data| ==> r.value.inner == LowerBound(m.data[r.value.outer].value, Key2(f, m, r.value.i, j)))
    ensures r.Success? && f.one1(m.size1, m.size2) <= -1 ==>
              && r.value.outer == UpperBound(m.data, Key1(f, m, r.value.i, j))
              && (r.value.outer < |m.data| ==> r.value.inner == UpperBound(m.data[r.value.outer].value, Key2(f, m, r.value.i, j)))
  {
    var o := f.one1(m.size1, m.size2);
    if o >= 1 then
      var _ :- Require(0 < |m.data|, InternalLogic);
      Success(Seek1Lower(f, id, m, i, j))
    else if o <= -1 then
      var _ :- Require(0 < |m.data|, InternalLogic);
      Success(Seek1Upper(f, id, m, i, j))
    else
      Failure(InternalLogic)
  }

  /** `find2 (i, j)`: the row-wise twin of `Find1`, stopping at an element whose row is not before `i`. */
  function Find2<T>(f: TwoLevelOrientation, id: MatrixId, m: Matrix<T>, i: nat, j: nat): (r: Result<Cursor>)
    requires Wf(m)
    requires f.one2(m.size1, m.size2) != 0 ==> ValidTwoLevel(f, m.size1, m.size2)
    ensures r.Failure? <==> f.one2(m.size1, m.size2) == 0 || |m.data| == 0
    ensures r.Failure? ==> r.error == InternalLogic
    ensures r.Success? ==> r.value.owner == id && r.value.i == i && j <= r.value.j && Placed(m, r.value)
    ensures r.Success? && f.one2(m.size1, m.size2) >= 1 ==> FromLower(m.data, Key1(f, m, i, j), Key2(f, m, i, j), r.value)
    ensures r.Success? && f.one2(m.size1, m.size2) <= -1 ==> FromUpper(m.data, Key1(f, m, i, j), Key2(f, m, i, j), r.value)
    ensures r.Success? && r.value.outer < |m.data| && r.value.inner < |m.data[r.value.outer].value| ==>
              i <= f.index1(m.data[r.value.outer].key, m.data[r.value.outer].value[r.value.inner].key)
    ensures r.Success? && f.one2(m.size1, m.size2) >= 1 ==>
              && r.value.outer == LowerBound(m.data, Key1(f, m, i, r.value.j))
              && (r.value.outer < |m.data| ==> r.value.inner == LowerBound(m.data[r.value.outer].value, Key2(f, m, i, r.value.j)))
    ensures r.Success? && f.one2(m.size1, m.size2) <= -1 ==>
              && r.value.outer == UpperBound(m.data, Key1(f, m, i, r.value.j))
              && (r.value.outer < |m.data| ==> r.value.inner == UpperBound(m.data[r.value.outer].value, Key2(f, m, i, r.value.j)))
  {
    var o := f.one2(m.size1, m.size2);
    if o >= 1 then
      var _ :- Require(0 < |m.data|, InternalLogic);
      Success(Seek2Lower(f, id, m, i, j))
    else if o <= -1 then
      var _ :- Require(0 < |m.data|, InternalLogic);
      Success(Seek2Upper(f, id, m, i, j))
    else
      Failure(InternalLogic)
  }

  /**
   * The sentinel bucket keeps the searches working. `clear` removes it, and a
   * search then fails until the storage holds a bucket again: after a
   * `resize`, an `insert`, a mutable access of an element, or an assignment
   * or swap from a matrix that holds one.
   */
  lemma SentinelKeepsSearchAlive<T>(f: TwoLevelOrientation, id: MatrixId, m: Matrix<T>, i: nat, j: nat, t: T)
    requires Wf(m)
    requires f.one1(m.size1, m.size2) != 0 && ValidTwoLevel(f, m.size1, m.size2)
    ensures Find1(f, id, Resize(f, m, m.size1, m.size2, m.nonZeroes), i, j).Success?
    ensures Find1(f, id, Clear(m), i, j) == Failure(InternalLogic)
    ensures Find1(f, id, Insert(f, Clear(m), i, j, t), i, j).Success?
    ensures Find1(f, id, Access(f, Clear(m), i, j, t).0, i, j).Success?
    ensures Find1(f, id, Assign(Clear(m), Resize(f, m, m.size1, m.size2, m.nonZeroes)).value, i, j).Success?
    ensures Find1(f, id, Swap(id, Clear(m), id + 1, Resize(f, m, m.size1, m.size2, m.nonZeroes)).value.0, i, j).Success?
  {
  }

  /**
   * With one bucket per row, both searches make a single round: they stop at
   * the lower bounds of (i, j) at both levels, that is at the first entry of
   * the first row from `i` on whose column is not before `j`, or at the end
   * of that row's bucket. No entry past the start bound is skipped.
   */
  lemma RowBucketsSearchOnce<T>(id: MatrixId, m: Matrix<T>, i: nat, j: nat)
    requires Wf(m) && 0 < |m.data|
    ensures ValidTwoLevel(TwoLevelRowMajor(), m.size1, m.size2)
    ensures var r := Find2(TwoLevelRowMajor(), id, m, i, j);
            && r.Success? && r.value.j == j && r.value.outer == LowerBound(m.data, i)
            && (r.value.outer < |m.data| ==> r.value.inner == LowerBound(m.data[r.value.outer].value, j))
    ensures 0 < m.size2 ==>
              var r := Find1(TwoLevelRowMajor(), id, m, i, j);
              && r.Success? && r.value.i == i && r.value.outer == LowerBound(m.data, i)
              && (r.value.outer < |m.data| ==> r.value.inner == LowerBound(m.data[r.value.outer].value, j))
  {
    TwoLevelInstancesValid(m.size1, m.size2);
  }

  /** The twin for one bucket per column: both searches stop at the lower bounds of (j, i). */
  lemma ColumnBucketsSearchOnce<T>(id: MatrixId, m: Matrix<T>, i: nat, j: nat)
    requires Wf(m) && 0 < |m.data|
    ensures ValidTwoLevel(TwoLevelColumnMajor(), m.size1, m.size2)
    ensures var r := Find1(TwoLevelColumnMajor(), id, m, i, j);
            && r.Success? && r.value.i == i && r.value.outer == LowerBound(m.data, j)
            && (r.value.outer < |m.data| ==> r.value.inner == LowerBound(m.data[r.value.outer].value, i))
    ensures 0 < m.size1 ==>
              var r := Find2(TwoLevelColumnMajor(), id, m, i, j);
              && r.Success? && r.value.j == j && r.value.outer == LowerBound(m.data, j)
              && (r.value.outer < |m.data| ==> r.value.inner == LowerBound(m.data[r.value.outer].value, i))
  {
    TwoLevelInstancesValid(m.size1, m.size2);
  }

  // ---------------------------------------------------------------- cursors

  /** No column is short of 0, so the lower-bound search for (i, 0) stops in its first round. */
  lemma Seek1LowerFirstRound<T>(f: TwoLevelOrientation, id: MatrixId, m: Matrix<T>, i: nat)
    requires Wf(m) && 0 < |m.data| && ValidTwoLevel(f, m.size1, m.size2)
    ensures Seek1Lower(f, id, m, i, 0).i == i
  {
  }

  /** The same for the upper-bound search. */
  lemma Seek1UpperFirstRound<T>(f: TwoLevelOrientation, id: MatrixId, m: Matrix<T>, i: nat)
    requires Wf(m) && 0 < |m.data| && ValidTwoLevel(f, m.size1, m.size2)
    ensures Seek1Upper(f, id, m, i, 0).i == i
  {
  }

  /** No row is short of 0, so the lower-bound search for (0, j) stops in its first round. */
  lemma Seek2LowerFirstRound<T>(f: TwoLevelOrientation, id: MatrixId, m: Matrix<T>, j: nat)
    requires Wf(m) && 0 < |m.data| && ValidTwoLevel(f, m.size1, m.size2)
    ensures Seek2Lower(f, id, m, 0, j).j == j
  {
  }

  /** The same for the upper-bound search. */
  lemma Seek2UpperFirstRound<T>(f: TwoLevelOrientation, id: MatrixId, m: Matrix<T>, j: nat)
    requires Wf(m) && 0 < |m.data| && ValidTwoLevel(f, m.size1, m.size2)
    ensures Seek2Upper(f, id, m, 0, j).j == j
  {
  }

  /** Hence `find1 (i, 0)` keeps `i`. */
  lemma FirstRound1<T>(f: TwoLevelOrientation, id: MatrixId, m: Matrix<T>, i: nat)
    requires Wf(m) && (f.one1(m.size1, m.size2) != 0 ==> ValidTwoLevel(f, m.size1, m.size2))
    ensures Find1(f, id, m, i, 0).Success? ==> Find1(f, id, m, i, 0).value.i == i
  {
    if f.one1(m.size1, m.size2) != 0 && 0 < |m.data| {
      Seek1LowerFirstRound(f, id, m, i);
      Seek1UpperFirstRound(f, id, m, i);
    }
  }

  /** Hence `find2 (0, j)` keeps `j`. */
  lemma FirstRound2<T>(f: TwoLevelOrientation, id: MatrixId, m: Matrix<T>, j: nat)
    requires Wf(m) && (f.one2(m.size1, m.size2) != 0 ==> ValidTwoLevel(f, m.size1, m.size2))
    ensures Find2(f, id, m, 0, j).Success? ==> Find2(f, id, m, 0, j).value.j == j
  {
    if f.one2(m.size1, m.size2) != 0 && 0 < |m.data| {
      Seek2LowerFirstRound(f, id, m, j);
      Seek2UpperFirstRound(f, id, m, j);
    }
  }

  /**
   * `begin1 ()`: `find1 (0, 0)`. No column is short of 0, so the search
   * stops in its first round, at the bounds of the key pair of (0, 0).
   */
  function Begin1<T>(f: TwoLevelOrientation, id: MatrixId, m: Matrix<T>): (r: Result<Cursor>)
    requires Wf(m) && (f.one1(m.size1, m.size2) != 0 ==> ValidTwoLevel(f, m.size1, m.size2))
    ensures r.Failure? <==> f.one1(m.size1, m.size2) == 0 || |m.data| == 0
    ensures r.Success? ==> r.value.owner == id && r.value.i == 0 && r.value.j == 0 && Placed(m, r.value)
    ensures r.Success? && f.one1(m.size1, m.size2) >= 1 ==>
              && r.value.outer == LowerBound(m.data, Key1(f, m, 0, 0))
              && (r.value.outer < |m.data| ==> r.value.inner == LowerBound(m.data[r.value.outer].value, Key2(f, m, 0, 0)))
    ensures r.Success? && f.one1(m.size1, m.size2) <= -1 ==>
              && r.value.outer == UpperBound(m.data, Key1(f, m, 0, 0))
              && (r.value.outer < |m.data| ==> r.value.inner == UpperBound(m.data[r.value.outer].value, Key2(f, m, 0, 0)))
  {
    FirstRound1(f, id, m, 0);
    Find1(f, id, m, 0, 0)
  }

  /** `end1 ()`: `find1 (size1, 0)`, which also stops in its first round, at the bounds of (size1, 0). */
  function End1<T>(f: TwoLevelOrientation, id: MatrixId, m: Matrix<T>): (r: Result<Cursor>)
    requires Wf(m) && (f.one1(m.size1, m.size2) != 0 ==> ValidTwoLevel(f, m.size1, m.size2))
    ensures r.Failure? <==> f.one1(m.size1, m.size2) == 0 || |m.data| == 0
    ensures r.Success? ==> r.value.owner == id && r.value.i == m.size1 && r.value.j == 0 && Placed(m, r.value)
    ensures r.Success? && f.one1(m.size1, m.size2) >= 1 ==>
              && r.value.outer == LowerBound(m.data, Key1(f, m, m.size1, 0))
              && (r.value.outer < |m.data| ==> r.value.inner == LowerBound(m.data[r.value.outer].value, Key2(f, m, m.size1, 0)))
    ensures r.Success? && f.one1(m.size1, m.size2) <= -1 ==>
              && r.value.outer == UpperBound(m.data, Key1(f, m, m.size1, 0))
              && (r.value.outer < |m.data| ==> r.value.inner == UpperBound(m.data[r.value.outer].value, Key2(f, m, m.size1, 0)))
  {
    FirstRound1(f, id, m, m.size1);
    Find1(f, id, m, m.size1, 0)
  }

  /** `begin2 ()`: `find2 (0, 0)`; no row is short of 0, so it stops at the bounds of (0, 0). */
  function Begin2<T>(f: TwoLevelOrientation, id: MatrixId, m: Matrix<T>): (r: Result<Cursor>)
    requires Wf(m) && (f.one2(m.size1, m.size2) != 0 ==> ValidTwoLevel(f, m.size1, m.size2))
    ensures r.Failure? <==> f.one2(m.size1, m.size2) == 0 || |m.data| == 0
    ensures r.Success? ==> r.value.owner == id && r.value.i == 0 && r.value.j == 0 && Placed(m, r.value)
    ensures r.Success? && f.one2(m.size1, m.size2) >= 1 ==>
              && r.value.outer == LowerBound(m.data, Key1(f, m, 0, 0))
              && (r.value.outer < |m.data| ==> r.value.inner == LowerBound(m.data[r.value.outer].value, Key2(f, m, 0, 0)))
    ensures r.Success? && f.one2(m.size1, m.size2) <= -1 ==>
              && r.value.outer == UpperBound(m.data, Key1(f, m, 0, 0))
              && (r.value.outer < |m.data| ==> r.value.inner == UpperBound(m.data[r.value.outer].value, Key2(f, m, 0, 0)))
  {
    FirstRound2(f, id, m, 0);
    Find2(f, id, m, 0, 0)
  }

  /** `end2 ()`: `find2 (0, size2)`, stopping at the bounds of (0, size2). */
  function End2<T>(f: TwoLevelOrientation, id: MatrixId, m: Matrix<T>): (r: Result<Cursor>)
    requires Wf(m) && (f.one2(m.size1, m.size2) != 0 ==> ValidTwoLevel(f, m.size1, m.size2))
    ensures r.Failure? <==> f.one2(m.size1, m.size2) == 0 || |m.data| == 0
    ensures r.Success? ==> r.value.owner == id && r.value.i == 0 && r.value.j == m.size2 && Placed(m, r.value)
    ensures r.Success? && f.one2(m.size1, m.size2) >= 1 ==>
              && r.value.outer == LowerBound(m.data, Key1(f, m, 0, m.size2))
              && (r.value.outer < |m.data| ==> r.value.inner == LowerBound(m.data[r.value.outer].value, Key2(f, m, 0, m.size2)))
    ensures r.Success? && f.one2(m.size1, m.size2) <= -1 ==>
              && r.value.outer == UpperBound(m.data, Key1(f, m, 0, m.size2))
              && (r.value.outer < |m.data| ==> r.value.inner == UpperBound(m.data[r.value.outer].value, Key2(f, m, 0, m.size2)))
  {
    FirstRound2(f, id, m, m.size2);
    Find2(f, id, m, 0, m.size2)
  }

  /** `index1 ()`: the row decoded from the outer key at `itv_` and the inner key at `it_`. */
  function Index1<T>(f: TwoLevelOrientation, m: Matrix<T>, c: Cursor): nat
    requires OnElement(m, c)
  {
    f.index1(m.data[c.outer].key, m.data[c.bucket].value[c.inner].key)
  }

  /** `index2 ()`: the column decoded from the same two keys. */
  function Index2<T>(f: TwoLevelOrientation, m: Matrix<T>, c: Cursor): nat
    requires OnElement(m, c)
  {
    f.index2(m.data[c.outer].key, m.data[c.bucket].value[c.inner].key)
  }

  /**
   * Under the functor's contract, `index1 ()` and `index2 ()` decode the
   * cursor's key pair: it encodes back from them, and they are the indices
   * of every in-range element with that key pair.
   */
  lemma IndicesDecode<T>(f: TwoLevelOrientation, m: Matrix<T>, c: Cursor)
    requires ValidTwoLevel(f, m.size1, m.size2) && OnElement(m, c)
    ensures Key1(f, m, Index1(f, m, c), Index2(f, m, c)) == m.data[c.outer].key
    ensures Key2(f, m, Index1(f, m, c), Index2(f, m, c)) == m.data[c.bucket].value[c.inner].key
    ensures forall i: nat, j: nat ::
              i < m.size1 && j < m.size2 && Key1(f, m, i, j) == m.data[c.outer].key
              && Key2(f, m, i, j) == m.data[c.bucket].value[c.inner].key ==>
              Index1(f, m, c) == i && Index2(f, m, c) == j
  {
  }

  /** `operator *`: the value at `it_`, after checking that the decoded indices are in range. */
  function Deref<T>(f: TwoLevelOrientation, m: Matrix<T>, c: Cursor): (r: Result<T>)
    requires OnElement(m, c)
    ensures r.Success? <==> Index1(f, m, c) < m.size1 && Index2(f, m, c) < m.size2
    ensures r.Failure? ==> r.error == BadIndex
    ensures r.Success? ==> r.value == m.data[c.bucket].value[c.inner].value
  {
    var _ :- Require(Index1(f, m, c) < m.size1, BadIndex);
    var _ :- Require(Index2(f, m, c) < m.size2, BadIndex);
    Success(m.data[c.bucket].value[c.inner].value)
  }

  /** For a cursor whose `itv_` and `it_` agree on the bucket, dereferencing yields the const read at its decoded indices. */
  lemma DerefAgreesWithGet<T>(f: TwoLevelOrientation, m: Matrix<T>, c: Cursor, zero: T)
    requires Wf(m) && ValidTwoLevel(f, m.size1, m.size2)
    requires OnElement(m, c) && c.outer == c.bucket
    requires Index1(f, m, c) < m.size1 && Index2(f, m, c) < m.size2
    ensures Deref(f, m, c) == Success(Get(f, m, Index1(f, m, c), Index2(f, m, c), zero))
  {
    var a, b := m.data[c.outer].key, m.data[c.bucket].value[c.inner].key;
    assert Key1(f, m, Index1(f, m, c), Index2(f, m, c)) == a;
    assert Key2(f, m, Index1(f, m, c), Index2(f, m, c)) == b;
  }

  /** `operator ==`: both cursors must belong to the same matrix; then only the inner iterators `it_` are compared. */
  function Equal(c: Cursor, d: Cursor): (r: Result<bool>)
    ensures r.Failure? <==> c.owner != d.owner
    ensures r.Failure? ==> r.error == ExternalLogic
    ensures r.Success? ==> (r.value <==> c.bucket == d.bucket && c.inner == d.inner)
  {
    var _ :- Require(c.owner == d.owner, ExternalLogic);
    Success(c.bucket == d.bucket && c.inner == d.inner)
  }

  /** The cursor's inner iterator stands at the end of the last bucket, where `itv_` may be that bucket or the outer end. */
  predicate AtLastEnd<T>(m: Matrix<T>, c: Cursor) {
    0 < |m.data| && c.bucket == |m.data| - 1 && c.inner == |m.data[|m.data| - 1].value|
  }

  /**
   * Two placed cursors of one matrix compare equal exactly when they stand at
   * the same outer and inner positions, or both at the end of the last
   * bucket whatever their `itv_`. In particular a placed cursor equals one at
   * the outer end (as `end1 ()` is when no bucket lies past its key) exactly
   * when it stands at the end of the last bucket.
   */
  lemma EqualPlaced<T>(m: Matrix<T>, c: Cursor, d: Cursor)
    requires Placed(m, c) && Placed(m, d) && c.owner == d.owner
    ensures Equal(c, d).Success?
    ensures Equal(c, d).value <==> (c.outer == d.outer && c.inner == d.inner) || (AtLastEnd(m, c) && AtLastEnd(m, d))
    ensures d.outer == |m.data| ==> (Equal(c, d).value <==> AtLastEnd(m, c))
  {
  }

  /** The storage positions of `found` put into `c`, whose `i_` and `j_` stay as they were. */
  function Relocate(c: Cursor, found: Cursor): (r: Cursor)
    ensures r.owner == c.owner && r.i == c.i && r.j == c.j
    ensures r.outer == found.outer && r.bucket == found.bucket && r.inner == found.inner
  {
    c.(outer := found.outer, bucket := found.bucket, inner := found.inner)
  }

  /**
   * `iterator1::operator ++`: a single step of `it_` inside its bucket when
   * `one1` is +1 or -1 (`itv_` stays), otherwise the positions of
   * `find1 (index1 () + 1, j_)`.
   */
  function Increment1<T>(f: TwoLevelOrientation, m: Matrix<T>, c: Cursor): (r: Result<Cursor>)
    requires Wf(m) && c.bucket < |m.data|
    requires Unit(f.one1(m.size1, m.size2)) ==> (if f.forward1 then c.inner < |m.data[c.bucket].value| else 0 < c.inner)
    requires !Unit(f.one1(m.size1, m.size2)) ==> OnElement(m, c)
    requires f.one1(m.size1, m.size2) != 0 ==> ValidTwoLevel(f, m.size1, m.size2)
    ensures r.Failure? <==> f.one1(m.size1, m.size2) == 0
    ensures r.Success? ==> r.value.owner == c.owner && r.value.i == c.i && r.value.j == c.j
    ensures r.Success? && Unit(f.one1(m.size1, m.size2)) ==>
              r.value.outer == c.outer && r.value.bucket == c.bucket && r.value.inner == Step(c.inner, f.forward1)
    ensures r.Success? && !Unit(f.one1(m.size1, m.size2)) ==>
              r.value == Relocate(c, Find1(f, c.owner, m, Index1(f, m, c) + 1, c.j).value)
  {
    if Unit(f.one1(m.size1, m.size2)) then
      Success(c.(inner := Step(c.inner, f.forward1)))
    else
      var found :- Find1(f, c.owner, m, Index1(f, m, c) + 1, c.j);
      Success(Relocate(c, found))
  }

  /**
   * `iterator1::operator --`: a single step back of `it_` when `one1` is +1
   * or -1, otherwise the positions of `find1 (index1 () - 1, j_)`.
   */
  function Decrement1<T>(f: TwoLevelOrientation, m: Matrix<T>, c: Cursor): (r: Result<Cursor>)
    requires Wf(m) && c.bucket < |m.data|
    requires Unit(f.one1(m.size1, m.size2)) ==> (if f.forward1 then 0 < c.inner else c.inner < |m.data[c.bucket].value|)
    requires !Unit(f.one1(m.size1, m.size2)) ==> OnElement(m, c) && 1 <= Index1(f, m, c)
    requires f.one1(m.size1, m.size2) != 0 ==> ValidTwoLevel(f, m.size1, m.size2)
    ensures r.Failure? <==> f.one1(m.size1, m.size2) == 0
    ensures r.Success? ==> r.value.owner == c.owner && r.value.i == c.i && r.value.j == c.j
    ensures r.Success? && Unit(f.one1(m.size1, m.size2)) ==>
              r.value.outer == c.outer && r.value.bucket == c.bucket && r.value.inner == Step(c.inner, !f.forward1)
    ensures r.Success? && !Unit(f.one1(m.size1, m.size2)) ==>
              r.value == Relocate(c, Find1(f, c.owner, m, Index1(f, m, c) - 1, c.j).value)
  {
    if Unit(f.one1(m.size1, m.size2)) then
      Success(c.(inner := Step(c.inner, !f.forward1)))
    else
      var found :- Find1(f, c.owner, m, Index1(f, m, c) - 1, c.j);
      Success(Relocate(c, found))
  }

  /**
   * `iterator2::operator ++`: a single step of `it_` when `one2` is +1 or -1,
   * otherwise the positions of `find2 (i_, index2 () + 1)`.
   */
  function Increment2<T>(f: TwoLevelOrientation, m: Matrix<T>, c: Cursor): (r: Result<Cursor>)
    requires Wf(m) && c.bucket < |m.data|
    requires Unit(f.one2(m.size1, m.size2)) ==> (if f.forward2 then c.inner < |m.data[c.bucket].value| else 0 < c.inner)
    requires !Unit(f.one2(m.size1, m.size2)) ==> OnElement(m, c)
    requires f.one2(m.size1, m.size2) != 0 ==> ValidTwoLevel(f, m.size1, m.size2)
    ensures r.Failure? <==> f.one2(m.size1, m.size2) == 0
    ensures r.Success? ==> r.value.owner == c.owner && r.value.i == c.i && r.value.j == c.j
    ensures r.Success? && Unit(f.one2(m.size1, m.size2)) ==>
              r.value.outer == c.outer && r.value.bucket == c.bucket && r.value.inner == Step(c.inner, f.forward2)
    ensures r.Success? && !Unit(f.one2(m.size1, m.size2)) ==>
              r.value == Relocate(c, Find2(f, c.owner, m, c.i, Index2(f, m, c) + 1).value)
  {
    if Unit(f.one2(m.size1, m.size2)) then
      Success(c.(inner := Step(c.inner, f.forward2)))
    else
      var found :- Find2(f, c.owner, m, c.i, Index2(f, m, c) + 1);
      Success(Relocate(c, found))
  }

  /**
   * `iterator2::operator --`: a single step back of `it_` when `one2` is +1
   * or -1, otherwise the positions of `find2 (i_, index2 () - 1)`.
   */
  function Decrement2<T>(f: TwoLevelOrientation, m: Matrix<T>, c: Cursor): (r: Result<Cursor>)
    requires Wf(m) && c.bucket < |m.data|
    requires Unit(f.one2(m.size1, m.size2)) ==> (if f.forward2 then 0 < c.inner else c.inner < |m.data[c.bucket].value|)
    requires !Unit(f.one2(m.size1, m.size2)) ==> OnElement(m, c) && 1 <= Index2(f, m, c)
    requires f.one2(m.size1, m.size2) != 0 ==> ValidTwoLevel(f, m.size1, m.size2)
    ensures r.Failure? <==> f.one2(m.size1, m.size2) == 0
    ensures r.Success? ==> r.value.owner == c.owner && r.value.i == c.i && r.value.j == c.j
    ensures r.Success? && Unit(f.one2(m.size1, m.size2)) ==>
              r.value.outer == c.outer && r.value.bucket == c.bucket && r.value.inner == Step(c.inner, !f.forward2)
    ensures r.Success? && !Unit(f.one2(m.size1, m.size2)) ==>
              r.value == Relocate(c, Find2(f, c.owner, m, c.i, Index2(f, m, c) - 1).value)
  {
    if Unit(f.one2(m.size1, m.size2)) then
      Success(c.(inner := Step(c.inner, !f.forward2)))
    else
      var found :- Find2(f, c.owner, m, c.i, Index2(f, m, c) - 1);
      Success(Relocate(c, found))
  }

  /** When `one1` is +1 or -1, `--` undoes `++` and `++` undoes `--`: both only move `it_` inside its bucket. */
  lemma UnitInnerSteps1Undo<T>(f: TwoLevelOrientation, m: Matrix<T>, c: Cursor)
    requires Wf(m) && ValidTwoLevel(f, m.size1, m.size2) && Unit(f.one1(m.size1, m.size2))
    requires c.bucket < |m.data| && c.inner < |m.data[c.bucket].value| && (!f.forward1 ==> 0 < c.inner)
    ensures Increment1(f, m, c).Success? && Decrement1(f, m, Increment1(f, m, c).value) == Success(c)
    ensures (f.forward1 ==> 0 < c.inner) ==>
              Decrement1(f, m, c).Success? && Increment1(f, m, Decrement1(f, m, c).value) == Success(c)
  {
  }

  /** The same for `iterator2` when `one2` is +1 or -1. */
  lemma UnitInnerSteps2Undo<T>(f: TwoLevelOrientation, m: Matrix<T>, c: Cursor)
    requires Wf(m) && ValidTwoLevel(f, m.size1, m.size2) && Unit(f.one2(m.size1, m.size2))
    requires c.bucket < |m.data| && c.inner < |m.data[c.bucket].value| && (!f.forward2 ==> 0 < c.inner)
    ensures Increment2(f, m, c).Success? && Decrement2(f, m, Increment2(f, m, c).value) == Success(c)
    ensures (f.forward2 ==> 0 < c.inner) ==>
              Decrement2(f, m, c).Success? && Increment2(f, m, Decrement2(f, m, c).value) == Success(c)
  {
  }

  /**
   * `iterator1::begin ()`: `find2 (index1 (), 0)`, the first stop at or
   * after the key pair of (index1 (), 0) whose row is not before `index1 ()`.
   */
  function RowBegin<T>(f: TwoLevelOrientation, m: Matrix<T>, c: Cursor): (r: Result<Cursor>)
    requires Wf(m) && OnElement(m, c)
    requires f.one2(m.size1, m.size2) != 0 ==> ValidTwoLevel(f, m.size1, m.size2)
    ensures r.Failure? <==> f.one2(m.size1, m.size2) == 0
    ensures r.Success? ==> r.value.owner == c.owner && r.value.i == Index1(f, m, c) && Placed(m, r.value)
    ensures r.Success? && f.one2(m.size1, m.size2) >= 1 ==>
              FromLower(m.data, Key1(f, m, Index1(f, m, c), 0), Key2(f, m, Index1(f, m, c), 0), r.value)
    ensures r.Success? && f.one2(m.size1, m.size2) <= -1 ==>
              FromUpper(m.data, Key1(f, m, Index1(f, m, c), 0), Key2(f, m, Index1(f, m, c), 0), r.value)
    ensures r.Success? && OnElement(m, r.value) ==> Index1(f, m, c) <= Index1(f, m, r.value)
  {
    Find2(f, c.owner, m, Index1(f, m, c), 0)
  }

  /** `iterator1::end ()`: `find2 (index1 (), size2)`, the first such stop at or after (index1 (), size2). */
  function RowEnd<T>(f: TwoLevelOrientation, m: Matrix<T>, c: Cursor): (r: Result<Cursor>)
    requires Wf(m) && OnElement(m, c)
    requires f.one2(m.size1, m.size2) != 0 ==> ValidTwoLevel(f, m.size1, m.size2)
    ensures r.Failure? <==> f.one2(m.size1, m.size2) == 0
    ensures r.Success? ==> r.value.owner == c.owner && r.value.i == Index1(f, m, c) && m.size2 <= r.value.j && Placed(m, r.value)
    ensures r.Success? && f.one2(m.size1, m.size2) >= 1 ==>
              FromLower(m.data, Key1(f, m, Index1(f, m, c), m.size2), Key2(f, m, Index1(f, m, c), m.size2), r.value)
    ensures r.Success? && f.one2(m.size1, m.size2) <= -1 ==>
              FromUpper(m.data, Key1(f, m, Index1(f, m, c), m.size2), Key2(f, m, Index1(f, m, c), m.size2), r.value)
    ensures r.Success? && OnElement(m, r.value) ==> Index1(f, m, c) <= Index1(f, m, r.value)
  {
    Find2(f, c.owner, m, Index1(f, m, c), m.size2)
  }

  /**
   * `iterator2::begin ()`: `find1 (0, index2 ())`, the first stop at or
   * after the key pair of (0, index2 ()) whose column is not before `index2 ()`.
   */
  function ColumnBegin<T>(f: TwoLevelOrientation, m: Matrix<T>, c: Cursor): (r: Result<Cursor>)
    requires Wf(m) && OnElement(m, c)
    requires f.one1(m.size1, m.size2) != 0 ==> ValidTwoLevel(f, m.size1, m.size2)
    ensures r.Failure? <==> f.one1(m.size1, m.size2) == 0
    ensures r.Success? ==> r.value.owner == c.owner && r.value.j == Index2(f, m, c) && Placed(m, r.value)
    ensures r.Success? && f.one1(m.size1, m.size2) >= 1 ==>
              FromLower(m.data, Key1(f, m, 0, Index2(f, m, c)), Key2(f, m, 0, Index2(f, m, c)), r.value)
    ensures r.Success? && f.one1(m.size1, m.size2) <= -1 ==>
              FromUpper(m.data, Key1(f, m, 0, Index2(f, m, c)), Key2(f, m, 0, Index2(f, m, c)), r.value)
    ensures r.Success? && OnElement(m, r.value) ==> Index2(f, m, c) <= Index2(f, m, r.value)
  {
    Find1(f, c.owner, m, 0, Index2(f, m, c))
  }

  /** `iterator2::end ()`: `find1 (size1, index2 ())`, the first such stop at or after (size1, index2 ()). */
  function ColumnEnd<T>(f: TwoLevelOrientation, m: Matrix<T>, c: Cursor): (r: Result<Cursor>)
    requires Wf(m) && OnElement(m, c)
    requires f.one1(m.size1, m.size2) != 0 ==> ValidTwoLevel(f, m.size1, m.size2)
    ensures r.Failure? <==> f.one1(m.size1, m.size2) == 0
    ensures r.Success? ==> r.value.owner == c.owner && r.value.j == Index2(f, m, c) && m.size1 <= r.value.i && Placed(m, r.value)
    ensures r.Success? && f.one1(m.size1, m.size2) >= 1 ==>
              FromLower(m.data, Key1(f, m, m.size1, Index2(f, m, c)), Key2(f, m, m.size1, Index2(f, m, c)), r.value)
    ensures r.Success? && f.one1(m.size1, m.size2) <= -1 ==>
              FromUpper(m.data, Key1(f, m, m.size1, Index2(f, m, c)), Key2(f, m, m.size1, Index2(f, m, c)), r.value)
    ensures r.Success? && OnElement(m, r.value) ==> Index2(f, m, c) <= Index2(f, m, r.value)
  {
    Find1(f, c.owner, m, m.size1, Index2(f, m, c))
  }

  // ---------------------------------------------------------------- one bucket per row or per column

  /**
   * With one bucket per row, the four ends: `begin1 ()` and `begin2 ()` are
   * the first entry of the first bucket, `end1 ()` is the start of the first
   * bucket keyed `size1` or more (the sentinel bucket when it is there), and
   * `end2 ()` stops inside the first bucket: begin2 ()..end2 () covers only
   * the first stored row.
   */
  lemma RowBucketsEnds<T>(id: MatrixId, m: Matrix<T>)
    requires Wf(m) && 0 < |m.data|
    ensures ValidTwoLevel(TwoLevelRowMajor(), m.size1, m.size2)
    ensures 0 < m.size2 ==> Begin1(TwoLevelRowMajor(), id, m) == Success(Cursor(id, 0, 0, 0, 0, 0))
    ensures 0 < m.size2 ==>
              var p := LowerBound(m.data, m.size1);
              End1(TwoLevelRowMajor(), id, m) ==
                Success(if p < |m.data| then Cursor(id, m.size1, 0, p, p, 0) else LastBucketEnd(id, m, m.size1, 0))
    ensures Begin2(TwoLevelRowMajor(), id, m) == Success(Cursor(id, 0, 0, 0, 0, 0))
    ensures End2(TwoLevelRowMajor(), id, m) ==
              Success(Cursor(id, 0, m.size2, 0, 0, LowerBound(m.data[0].value, m.size2)))
  {
    TwoLevelInstancesValid(m.size1, m.size2);
    LowerBoundIs(m.data, 0, 0);
    LowerBoundIs(m.data[0].value, 0, 0);
    var p := LowerBound(m.data, m.size1);
    if p < |m.data| {
      LowerBoundIs(m.data[p].value, 0, 0);
    }
  }

  /**
   * With one bucket per column, the twin: `end1 ()` stops inside the first
   * bucket, so begin1 ()..end1 () covers only the first stored column, and
   * `end2 ()` is the start of the first bucket keyed `size2` or more.
   */
  lemma ColumnBucketsEnds<T>(id: MatrixId, m: Matrix<T>)
    requires Wf(m) && 0 < |m.data|
    ensures ValidTwoLevel(TwoLevelColumnMajor(), m.size1, m.size2)
    ensures Begin1(TwoLevelColumnMajor(), id, m) == Success(Cursor(id, 0, 0, 0, 0, 0))
    ensures End1(TwoLevelColumnMajor(), id, m) ==
              Success(Cursor(id, m.size1, 0, 0, 0, LowerBound(m.data[0].value, m.size1)))
    ensures 0 < m.size1 ==> Begin2(TwoLevelColumnMajor(), id, m) == Success(Cursor(id, 0, 0, 0, 0, 0))
    ensures 0 < m.size1 ==>
              var p := LowerBound(m.data, m.size2);
              End2(TwoLevelColumnMajor(), id, m) ==
                Success(if p < |m.data| then Cursor(id, 0, m.size2, p, p, 0) else LastBucketEnd(id, m, 0, m.size2))
  {
    TwoLevelInstancesValid(m.size1, m.size2);
    LowerBoundIs(m.data, 0, 0);
    LowerBoundIs(m.data[0].value, 0, 0);
    var p := LowerBound(m.data, m.size2);
    if p < |m.data| {
      LowerBoundIs(m.data[p].value, 0, 0);
    }
  }

  /**
   * With one bucket per row, `iterator1::begin ()` and `end ()` of a cursor
   * in a bucket are the start of that bucket and the end of its entries
   * whose column is before `size2`.
   */
  lemma RowBucketsRowRange<T>(m: Matrix<T>, c: Cursor)
    requires Wf(m) && OnElement(m, c) && c.outer == c.bucket
    ensures ValidTwoLevel(TwoLevelRowMajor(), m.size1, m.size2)
    ensures var x := m.data[c.outer].key;
            && RowBegin(TwoLevelRowMajor(), m, c) == Success(Cursor(c.owner, x, 0, c.outer, c.outer, 0))
            && RowEnd(TwoLevelRowMajor(), m, c) ==
                 Success(Cursor(c.owner, x, m.size2, c.outer, c.outer, LowerBound(m.data[c.outer].value, m.size2)))
  {
    TwoLevelInstancesValid(m.size1, m.size2);
    var x := m.data[c.outer].key;
    RowBucketsSearchOnce(c.owner, m, x, 0);
    RowBucketsSearchOnce(c.owner, m, x, m.size2);
    LowerBoundIs(m.data, x, c.outer);
    LowerBoundIs(m.data[c.outer].value, 0, 0);
  }

  /** With one bucket per column, the twin for `iterator2::begin ()` and `end ()`. */
  lemma ColumnBucketsColumnRange<T>(m: Matrix<T>, c: Cursor)
    requires Wf(m) && OnElement(m, c) && c.outer == c.bucket
    ensures ValidTwoLevel(TwoLevelColumnMajor(), m.size1, m.size2)
    ensures var y := m.data[c.outer].key;
            && ColumnBegin(TwoLevelColumnMajor(), m, c) == Success(Cursor(c.owner, 0, y, c.outer, c.outer, 0))
            && ColumnEnd(TwoLevelColumnMajor(), m, c) ==
                 Success(Cursor(c.owner, m.size1, y, c.outer, c.outer, LowerBound(m.data[c.outer].value, m.size1)))
  {
    TwoLevelInstancesValid(m.size1, m.size2);
    var y := m.data[c.outer].key;
    ColumnBucketsSearchOnce(c.owner, m, 0, y);
    ColumnBucketsSearchOnce(c.owner, m, m.size1, y);
    LowerBoundIs(m.data, y, c.outer);
    LowerBoundIs(m.data[c.outer].value, 0, 0);
  }


  /** The lower bound of the key one above the key at `p` is the next position. */
  lemma LowerBoundOneAbove<V>(s: seq<Entry<V>>, p: nat)
    requires Sorted(s) && p < |s|
    ensures LowerBound(s, s[p].key + 1) == p + 1
  {
    LowerBoundIs(s, s[p].key + 1, p + 1);
  }

  /** The previous position when it holds exactly the key one below the key at `p`, else `p`. */
  function OneBelow<V>(s: seq<Entry<V>>, p: nat): nat
    requires p < |s|
  {
    if 0 < p && s[p - 1].key + 1 == s[p].key then p - 1 else p
  }

  /** The lower bound of the key one below the key at `p` is `OneBelow`. */
  lemma LowerBoundOneBelow<V>(s: seq<Entry<V>>, p: nat)
    requires Sorted(s) && p < |s| && 1 <= s[p].key
    ensures LowerBound(s, s[p].key - 1) == OneBelow(s, p)
  {
    if 0 < p && s[p - 1].key + 1 == s[p].key {
      LowerBoundIs(s, s[p].key - 1, p - 1);
    } else {
      LowerBoundIs(s, s[p].key - 1, p);
    }
  }

  /**
   * With one bucket per row, the search `++` of an `iterator1` makes from
   * the bucket at `b` (`find1 (index1 () + 1, j_)`, with `index1 ()` the
   * bucket's key) stops in the next bucket, at its first entry whose column
   * is not before `j`; from the last bucket it stops at the outer end.
   */
  lemma RowBucketsNext<T>(id: MatrixId, m: Matrix<T>, b: nat, j: nat)
    requires Wf(m) && 0 < m.size2 && b < |m.data|
    ensures ValidTwoLevel(TwoLevelRowMajor(), m.size1, m.size2)
    ensures var x, p := m.data[b].key + 1, b + 1;
            Find1(TwoLevelRowMajor(), id, m, x, j) ==
              Success(if p < |m.data| then Cursor(id, x, j, p, p, LowerBound(m.data[p].value, j))
                      else LastBucketEnd(id, m, x, j))
  {
    RowBucketsSearchOnce(id, m, m.data[b].key + 1, j);
    LowerBoundOneAbove(m.data, b);
  }

  /**
   * With one bucket per row, the search `--` of an `iterator1` makes from
   * the bucket at `b` (`find1 (index1 () - 1, j_)`) runs forwards from row
   * `index1 () - 1`: it stops in the previous bucket only when that bucket
   * holds exactly that row, and otherwise in the bucket at `b` again.
   */
  lemma RowBucketsPrevious<T>(id: MatrixId, m: Matrix<T>, b: nat, j: nat)
    requires Wf(m) && 0 < m.size2 && b < |m.data| && 1 <= m.data[b].key
    ensures ValidTwoLevel(TwoLevelRowMajor(), m.size1, m.size2)
    ensures var x := m.data[b].key - 1;
            var p := OneBelow(m.data, b);
            Find1(TwoLevelRowMajor(), id, m, x, j) == Success(Cursor(id, x, j, p, p, LowerBound(m.data[p].value, j)))
  {
    var x := m.data[b].key - 1;
    RowBucketsSearchOnce(id, m, x, j);
    LowerBoundOneBelow(m.data, b);
    var r := Find1(TwoLevelRowMajor(), id, m, x, j).value;
    assert r.outer == LowerBound(m.data, x) < |m.data|;
  }

  /** With one bucket per column, the search `++` of an `iterator2` makes: the twin of `RowBucketsNext`. */
  lemma ColumnBucketsNext<T>(id: MatrixId, m: Matrix<T>, b: nat, i: nat)
    requires Wf(m) && 0 < m.size1 && b < |m.data|
    ensures ValidTwoLevel(TwoLevelColumnMajor(), m.size1, m.size2)
    ensures var y, p := m.data[b].key + 1, b + 1;
            Find2(TwoLevelColumnMajor(), id, m, i, y) ==
              Success(if p < |m.data| then Cursor(id, i, y, p, p, LowerBound(m.data[p].value, i))
                      else LastBucketEnd(id, m, i, y))
  {
    ColumnBucketsSearchOnce(id, m, i, m.data[b].key + 1);
    LowerBoundOneAbove(m.data, b);
  }

  /** With one bucket per column, the search `--` of an `iterator2` makes: the twin of `RowBucketsPrevious`. */
  lemma ColumnBucketsPrevious<T>(id: MatrixId, m: Matrix<T>, b: nat, i: nat)
    requires Wf(m) && 0 < m.size1 && b < |m.data| && 1 <= m.data[b].key
    ensures ValidTwoLevel(TwoLevelColumnMajor(), m.size1, m.size2)
    ensures var y := m.data[b].key - 1;
            var p := OneBelow(m.data, b);
            Find2(TwoLevelColumnMajor(), id, m, i, y) == Success(Cursor(id, i, y, p, p, LowerBound(m.data[p].value, i)))
  {
    var y := m.data[b].key - 1;
    ColumnBucketsSearchOnce(id, m, i, y);
    LowerBoundOneBelow(m.data, b);
    var r := Find2(TwoLevelColumnMajor(), id, m, i, y).value;
    assert r.outer == LowerBound(m.data, y) < |m.data|;
  }
}
