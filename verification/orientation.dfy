/**
 * The orientation functor `F` of both sparse matrices, as a record of pure
 * functions of the index and the two dimensions. The containers only call
 * these functions; what they rely on is stated by `Valid` (flat layout) and
 * `ValidTwoLevel` (two-level layout). Row-major and column-major instances
 * are given and proved to meet those contracts.
 */
module Orientation {

  /**
   * Flat layout: `element(i, size1, j, size2)` is the single storage key of
   * (i, j); `index1`/`index2` decode a key; `one1`/`one2` are the storage
   * strides of the two dimensions (+1 or -1 means that neighbouring elements
   * along that dimension are neighbouring storage positions); `forward1`/
   * `forward2` say whether the functor's `increment` of a storage position
   * moves it forward (true) or backward (false).
   */
  datatype Orientation = Orientation(
    element: (nat, nat, nat, nat) -> nat,
    index1: (nat, nat, nat) -> nat,
    index2: (nat, nat, nat) -> nat,
    one1: (nat, nat) -> int,
    one2: (nat, nat) -> int,
    forward1: bool,
    forward2: bool)

  /**
   * What the flat containers assume of their functor for an s1 x s2 matrix:
   * every key decodes to indices that encode back to it; in-range indices
   * survive an encode/decode round trip; the key grows strictly with each
   * index when the other is fixed.
   */
  ghost predicate Valid(o: Orientation, s1: nat, s2: nat) {
    && (forall k: nat :: o.element(o.index1(k, s1, s2), s1, o.index2(k, s1, s2), s2) == k)
    && (forall i: nat, j: nat :: i < s1 && j < s2 ==>
          o.index1(o.element(i, s1, j, s2), s1, s2) == i && o.index2(o.element(i, s1, j, s2), s1, s2) == j)
    && (forall i: nat, j: nat, j': nat :: j < j' ==> o.element(i, s1, j, s2) < o.element(i, s1, j', s2))
    && (forall i: nat, i': nat, j: nat :: i < i' ==> o.element(i, s1, j, s2) < o.element(i', s1, j, s2))
  }

  /**
   * The keys of one index1-run (fixed i) come before column j exactly when
   * their column is below j: the shape of a layout whose major index is i.
   */
  ghost predicate MajorRuns1(o: Orientation, s1: nat, s2: nat) {
    forall i: nat, j: nat, k: nat :: o.element(i, s1, 0, s2) <= k < o.element(i, s1, j, s2) ==> o.index2(k, s1, s2) < j
  }

  /** The same shape with j as the major index. */
  ghost predicate MajorRuns2(o: Orientation, s1: nat, s2: nat) {
    forall i: nat, j: nat, k: nat :: o.element(0, s1, j, s2) <= k < o.element(i, s1, j, s2) ==> o.index1(k, s1, s2) < i
  }

  /** Row-major layout: key `i * size2 + j`; rows are contiguous, so `one2` is 1 and `one1` is `size2`. */
  function RowMajor(): Orientation {
    Orientation(
      (i: nat, s1: nat, j: nat, s2: nat) => i * s2 + j,
      (k: nat, s1: nat, s2: nat) => if s2 == 0 then 0 else k / s2,
      (k: nat, s1: nat, s2: nat) => if s2 == 0 then k else k % s2,
      (s1: nat, s2: nat) => s2 as int,
      (s1: nat, s2: nat) => 1,
      true, true)
  }

  /** Column-major layout: key `j * size1 + i`; `one1` is 1 and `one2` is `size1`. */
  function ColumnMajor(): Orientation {
    Orientation(
      (i: nat, s1: nat, j: nat, s2: nat) => j * s1 + i,
      (k: nat, s1: nat, s2: nat) => if s1 == 0 then k else k % s1,
      (k: nat, s1: nat, s2: nat) => if s1 == 0 then 0 else k / s1,
      (s1: nat, s2: nat) => 1,
      (s1: nat, s2: nat) => s1 as int,
      true, true)
  }

  /** `one` is a contiguous stride: a cursor along that dimension can take a single storage step. */
  predicate Unit(one: int) {
    one == 1 || one == -1
  }

  /** One storage step of a position in the direction the functor's `increment` moves it. */
  function Step(pos: nat, forward: bool): nat
    requires !forward ==> 0 < pos
  {
    if forward then pos + 1 else pos - 1
  }

  /** Quotient and remainder of `q * n + r` for `r < n`. */
  lemma DivModOf(q: nat, r: nat, n: nat)
    requires r < n
    ensures (q * n + r) / n == q && (q * n + r) % n == r
  {
    var x := q * n + r;
    var d := x / n - q;
    assert x == (x / n) * n + x % n;
    assert (x / n) * n == q * n + d * n;
  }

  /** `q * n` grows strictly with `q` for a positive `n`. */
  lemma MulMonotone(q: nat, q': nat, n: nat)
    requires q < q' && 0 < n
    ensures q * n + n <= q' * n
  {
    var d: nat := q' - q - 1;
    assert q' * n == q * n + n + d * n;
  }

  /** Every row-major key decodes to a (row, column) pair that encodes back to it. */
  lemma RowMajorDecode(s1: nat, s2: nat, k: nat)
    requires 0 < s2
    ensures RowMajor().element(RowMajor().index1(k, s1, s2), s1, RowMajor().index2(k, s1, s2), s2) == k
  {
    assert k == (k / s2) * s2 + k % s2;
  }

  /** Row-major meets the flat contract whenever there is at least one column. */
  lemma RowMajorValid(s1: nat, s2: nat)
    requires 0 < s2
    ensures Valid(RowMajor(), s1, s2)
    ensures MajorRuns1(RowMajor(), s1, s2)
    ensures RowMajor().one2(s1, s2) == 1
  {
    var o := RowMajor();
    forall k: nat
      ensures o.element(o.index1(k, s1, s2), s1, o.index2(k, s1, s2), s2) == k
    {
      RowMajorDecode(s1, s2, k);
    }
    forall i: nat, j: nat | i < s1 && j < s2
      ensures o.index1(o.element(i, s1, j, s2), s1, s2) == i && o.index2(o.element(i, s1, j, s2), s1, s2) == j
    {
      DivModOf(i, j, s2);
    }
    forall i: nat, i': nat, j: nat | i < i'
      ensures o.element(i, s1, j, s2) < o.element(i', s1, j, s2)
    {
      MulMonotone(i, i', s2);
    }
    forall i: nat, j: nat, k: nat | o.element(i, s1, 0, s2) <= k < o.element(i, s1, j, s2)
      ensures o.index2(k, s1, s2) < j
    {
      if j <= s2 {
        DivModOf(i, k - i * s2, s2);
      }
    }
  }

  /** Every column-major key decodes to a (row, column) pair that encodes back to it. */
  lemma ColumnMajorDecode(s1: nat, s2: nat, k: nat)
    requires 0 < s1
    ensures ColumnMajor().element(ColumnMajor().index1(k, s1, s2), s1, ColumnMajor().index2(k, s1, s2), s2) == k
  {
    assert k == (k / s1) * s1 + k % s1;
  }

  /** Column-major meets the flat contract whenever there is at least one row. */
  lemma ColumnMajorValid(s1: nat, s2: nat)
    requires 0 < s1
    ensures Valid(ColumnMajor(), s1, s2)
    ensures MajorRuns2(ColumnMajor(), s1, s2)
    ensures ColumnMajor().one1(s1, s2) == 1
  {
    var o := ColumnMajor();
    forall k: nat
      ensures o.element(o.index1(k, s1, s2), s1, o.index2(k, s1, s2), s2) == k
    {
      ColumnMajorDecode(s1, s2, k);
    }
    forall i: nat, j: nat | i < s1 && j < s2
      ensures o.index1(o.element(i, s1, j, s2), s1, s2) == i && o.index2(o.element(i, s1, j, s2), s1, s2) == j
    {
      DivModOf(j, i, s1);
    }
    forall i: nat, j: nat, j': nat | j < j'
      ensures o.element(i, s1, j, s2) < o.element(i, s1, j', s2)
    {
      MulMonotone(j, j', s1);
    }
    forall i: nat, j: nat, k: nat | o.element(0, s1, j, s2) <= k < o.element(i, s1, j, s2)
      ensures o.index1(k, s1, s2) < i
    {
      if i <= s1 {
        DivModOf(j, k - j * s1, s1);
      }
    }
  }

  /** Lexicographic order on (major key, minor key) pairs. */
  predicate Before(a1: nat, a2: nat, b1: nat, b2: nat) {
    a1 < b1 || (a1 == b1 && a2 < b2)
  }

  /**
   * Two-level layout: `element1` is the outer (major) key and `element2` the
   * inner (minor) key of (i, j); `index1`/`index2` decode a (major, minor)
   * pair; `size1(size1, size2)` is the key of the sentinel bucket.
   */
  datatype TwoLevelOrientation = TwoLevelOrientation(
    element1: (nat, nat, nat, nat) -> nat,
    element2: (nat, nat, nat, nat) -> nat,
    index1: (nat, nat) -> nat,
    index2: (nat, nat) -> nat,
    size1: (nat, nat) -> nat,
    one1: (nat, nat) -> int,
    one2: (nat, nat) -> int,
    forward1: bool,
    forward2: bool)

  /** What the two-level container assumes of its functor: the flat contract with (major, minor) pairs for keys. */
  ghost predicate ValidTwoLevel(o: TwoLevelOrientation, s1: nat, s2: nat) {
    && (forall a: nat, b: nat :: o.element1(o.index1(a, b), s1, o.index2(a, b), s2) == a
                    && o.element2(o.index1(a, b), s1, o.index2(a, b), s2) == b)
    && (forall i: nat, j: nat :: i < s1 && j < s2 ==>
          && o.index1(o.element1(i, s1, j, s2), o.element2(i, s1, j, s2)) == i
          && o.index2(o.element1(i, s1, j, s2), o.element2(i, s1, j, s2)) == j)
    && (forall i: nat, j: nat, j': nat :: j < j' ==>
          Before(o.element1(i, s1, j, s2), o.element2(i, s1, j, s2), o.element1(i, s1, j', s2), o.element2(i, s1, j', s2)))
    && (forall i: nat, i': nat, j: nat :: i < i' ==>
          Before(o.element1(i, s1, j, s2), o.element2(i, s1, j, s2), o.element1(i', s1, j, s2), o.element2(i', s1, j, s2)))
  }

  /** Two-level row-major: one bucket per row keyed by i, entries keyed by j, sentinel bucket `size1`. */
  function TwoLevelRowMajor(): TwoLevelOrientation {
    TwoLevelOrientation(
      (i: nat, s1: nat, j: nat, s2: nat) => i,
      (i: nat, s1: nat, j: nat, s2: nat) => j,
      (a: nat, b: nat) => a,
      (a: nat, b: nat) => b,
      (s1: nat, s2: nat) => s1,
      (s1: nat, s2: nat) => s2 as int,
      (s1: nat, s2: nat) => 1,
      true, true)
  }

  /** Two-level column-major: one bucket per column keyed by j, entries keyed by i, sentinel bucket `size2`. */
  function TwoLevelColumnMajor(): TwoLevelOrientation {
    TwoLevelOrientation(
      (i: nat, s1: nat, j: nat, s2: nat) => j,
      (i: nat, s1: nat, j: nat, s2: nat) => i,
      (a: nat, b: nat) => b,
      (a: nat, b: nat) => a,
      (s1: nat, s2: nat) => s2,
      (s1: nat, s2: nat) => 1,
      (s1: nat, s2: nat) => s1 as int,
      true, true)
  }

  /** Both two-level instances meet the contract for every size. */
  lemma TwoLevelInstancesValid(s1: nat, s2: nat)
    ensures ValidTwoLevel(TwoLevelRowMajor(), s1, s2)
    ensures ValidTwoLevel(TwoLevelColumnMajor(), s1, s2)
  {
  }
}
