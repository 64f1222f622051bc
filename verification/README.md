# Sparse matrices of uBLAS, modelled in Dafny

This project models the two associative sparse matrices of
`boost/numeric/ublas/matrix_sp.h`:

- `sparse_matrix<T, F, A>` keeps one ordered map from a linear key
  `F::element (i, size1, j, size2)` to the stored value;
- `sparse_vector_of_sparse_vector<T, F, A>` keeps an ordered map of ordered
  maps: the outer map is keyed by the major key `F::element1`, and each
  bucket is keyed by the minor key `F::element2`.

Both matrices store only the elements that were written. A read of anything
else yields zero. Both expose the same interface:

- element reads and writes, `insert`, `clear`, `resize`;
- copy assignment and `swap`;
- the boundary-seeking searches `find1`/`find2`;
- the cursors `iterator1`/`iterator2` with their const twins.

The model is split into these modules:

- `Checks`: the failures. `check<bad_size>`, `check<bad_index>`,
  `check<external_logic>` and `throw internal_logic ()` become a `Failure`
  of a `Result`. Object identity (`this != &m`, the owner comparison of
  cursors) is an explicit `MatrixId`.
- `OrderedStore`: the ordered map, as a strictly key-sorted sequence of
  entries. An iterator is a position; the length plays `end ()`. The module
  provides `lower_bound`, `upper_bound`, `find`, insert-if-absent,
  `operator[]` (find-or-insert) and assignment through an iterator.
- `Orientation`: the orientation functor `F` as a record of functions.
  - The flat layout's obligations are `Valid`: keys decode and encode back,
    and keys grow strictly in each index.
  - The two-level layout's obligations are `ValidTwoLevel`.
  - Row-major and column-major instances are proved to meet the flat
    contract.
  - `one1`/`one2` are the strides. A stride of +1 or -1 lets a cursor take a
    single storage step.
  - The functor's `increment` of a storage iterator is the flag
    `forward1`/`forward2`.
- `SparseMatrix`: the flat matrix and its cursors.
- `SparseVectorOfSparseVector`: the two-level matrix and its cursors. A
  cursor holds `itv_` (an outer position, possibly the outer end) and `it_`
  (a bucket plus a position inside it).
- `Traversal`: the nested walk the library's algorithms perform: a row
  cursor runs from `begin1 ()` to `end1 ()`, and for each row a column cursor
  runs from the row cursor's `begin ()` to its `end ()`. For every layout
  satisfying `RowWise`, including row-major, when every stored key decodes
  inside the matrix, the walk is proved to visit every stored element
  exactly once, in storage order.
- `Transpose`: the same walk with the roles of rows and columns exchanged.
  A column cursor runs from `begin2 ()` to `end2 ()`, and for each column a
  row cursor runs from the column cursor's `begin ()` to its `end ()`. Each
  search of a layout is proved equal to the opposite search of the
  transposed layout. The column walk is proved to visit every stored element
  exactly once for every layout satisfying `ColumnWise`, including
  column-major, when every stored key decodes inside the matrix.
- `Example`: the 3 x 3 row-major matrix with (0,0)=1, (1,2)=5 and (2,1)=9.
  The hole (0,1) reads 0, and the row traversal yields (0,0,1), (1,2,5),
  (2,1,9). A second 3 x 3 matrix, with an empty middle row (or column, when
  read column-major), shows `--` failing to step back across the gap.

Six behaviours of the code that are easy to misread are modelled as
written:

- The two-level sentinel bucket is keyed by the functor's
  `size1 (size1_, size2_)` (lines 748, 753, 772). For the row-major and
  column-major functors that is the major key one past the last row or
  column.
- When the inner bound reaches the end of the bucket it found, a two-level
  search stops there (lines 940-942), even if a later bucket holds a
  match.
- Flat `insert` (line 215) is the insert of an ordered map. It adds an
  absent element and leaves a present one untouched. The two-level
  `insert` (lines 913-918) does the same at both levels.
- Two-level `clear` (line 909) removes the sentinel bucket as well. Every
  two-level search then fails with `internal_logic` until the storage holds
  a bucket again: after a `resize`, an `insert`, a mutable access, or an
  assignment or swap from a matrix that holds one.
- Flat `resize` (lines 73-77) keeps every stored entry, key and value,
  unchanged. Keys are decoded with the sizes, so after a resize an entry
  may denote a different element, or none. Widening the example to 3 x 4
  moves the value 5 from (1,2) to (1,1) (`Example.ResizeMovesElements`).
- `end2 ()` is `find2 (0, size2)` (lines 609-611). In row-major order
  that key is the start of row 1, so `begin2 ()`..`end2 ()` holds only the
  elements of row 0 (`Example.RowMajorColumnRangeIsRowZero`). The column
  walk covers the whole matrix only in layouts whose runs are columns
  (`Transpose.TraverseColumns`).

## Model

| member | source | states |
|---|---|---|
| OrderedStore.LowerBound | boost/boost/numeric/ublas/matrix_sp.h:229 | `lower_bound`: every position before the result holds a smaller key, and the result is the end or holds a key not below the one sought |
| OrderedStore.UpperBound | boost/boost/numeric/ublas/matrix_sp.h:237 | `upper_bound`: every position before the result holds a key not above the one sought, and the result is the end or holds a greater key |
| OrderedStore.Find | boost/boost/numeric/ublas/matrix_sp.h:90-95 | the position found holds the key exactly when the key is stored; otherwise it is the end |
| OrderedStore.Lookup | boost/boost/numeric/ublas/matrix_sp.h:90-95 | no value exactly when the key is absent; otherwise the value of the entry carrying that key |
| OrderedStore.Insert | boost/boost/numeric/ublas/matrix_sp.h:214-216 | the map stays sorted; a present key leaves it unchanged; an absent key adds one entry holding the value; every other key keeps its value, and no foreign entry appears |
| OrderedStore.FindOrInsert | boost/boost/numeric/ublas/matrix_sp.h:97-99 | `operator[]`: the returned position holds the key; a present entry is returned as it was; a missing one is created holding the default |
| OrderedStore.SetValue | boost/boost/numeric/ublas/matrix_sp.h:97-99 | assigning through the reference changes the value of that one key and keeps the map sorted and every other key's value |
| SparseMatrix.Create | boost/boost/numeric/ublas/matrix_sp.h:56-60 | a new matrix has the given sizes and stores no element |
| SparseMatrix.Resize | boost/boost/numeric/ublas/matrix_sp.h:73-77 | only the three sizes change; every stored entry is kept unchanged, so an entry may now decode to a different element or to none |
| SparseMatrix.Get | boost/boost/numeric/ublas/matrix_sp.h:90-95 | an element with no stored key reads as zero; a stored one reads as its stored value |
| SparseMatrix.Access | boost/boost/numeric/ublas/matrix_sp.h:97-99 | the reference denotes the entry keyed `element (i, j)`; a present element leaves the matrix unchanged; an absent one grows the storage by one zero entry; no other key changes |
| SparseMatrix.Write | boost/boost/numeric/ublas/matrix_sp.h:97-99 | storing through the reference sets that key's value and no other key's |
| SparseMatrix.AccessWriteRead | boost/boost/numeric/ublas/matrix_sp.h:90-99 | `m (i, j) = v` then a const read of (i, j) gives `v`; the storage grows by at most one; every element with another key reads as before |
| SparseMatrix.AccessIdempotent | boost/boost/numeric/ublas/matrix_sp.h:97-99 | a second mutable access to the same element returns the same position and changes nothing |
| SparseMatrix.Insert | boost/boost/numeric/ublas/matrix_sp.h:214-216 | insert of a stored element is a no-op; insert of an absent one adds it with the given value; every other key keeps its value |
| SparseMatrix.InsertThenGet | boost/boost/numeric/ublas/matrix_sp.h:214-216 | after inserting an absent in-range element, a read returns the value; every other in-range element reads as before |
| SparseMatrix.Clear | boost/boost/numeric/ublas/matrix_sp.h:210-212 | no element stays stored; the sizes are kept |
| SparseMatrix.Assign | boost/boost/numeric/ublas/matrix_sp.h:125-131 | succeeds exactly when all three sizes agree and otherwise fails with `bad_size`; on success the storage equals the source's |
| SparseMatrix.Swap | boost/boost/numeric/ublas/matrix_sp.h:191-201 | a self-swap fails with `external_logic`; differing sizes fail with `bad_size`; otherwise sizes and storage are exchanged |
| SparseMatrix.SwapTwice | boost/boost/numeric/ublas/matrix_sp.h:191-201 | a successful swap repeated restores both matrices |
| SparseMatrix.Seek1Lower | boost/boost/numeric/ublas/matrix_sp.h:228-235 | the `find1` loop ends at or after `lower_bound (element (i, j))`, at the end or at a key not below it whose column is not before `j` |
| SparseMatrix.Seek1Upper | boost/boost/numeric/ublas/matrix_sp.h:236-243 | the same loop driven by `upper_bound` ends at the end or at a column not before `j` |
| SparseMatrix.Seek2Lower | boost/boost/numeric/ublas/matrix_sp.h:274-281 | the `find2` loop ends at or after `lower_bound (element (i, j))`, at the end or at a row not before `i` |
| SparseMatrix.Seek2Upper | boost/boost/numeric/ublas/matrix_sp.h:282-289 | the `upper_bound` form of the `find2` loop ends at the end or at a row not before `i` |
| SparseMatrix.Seek1LowerSkipsShortColumns | boost/boost/numeric/ublas/matrix_sp.h:231-234 | in a layout whose runs are rows, every position the `find1` loop skips holds a column before `j` |
| SparseMatrix.Seek2LowerSkipsShortRows | boost/boost/numeric/ublas/matrix_sp.h:277-280 | in a layout whose runs are columns, every position the `find2` loop skips holds a row before `i` |
| SparseMatrix.Find1 | boost/boost/numeric/ublas/matrix_sp.h:226-246 | fails with `internal_logic` exactly when `one1` is 0; otherwise a cursor of this matrix with `j_` kept, at the end or at an element whose column is not before `j`, no earlier than the bound it starts from |
| SparseMatrix.Find2 | boost/boost/numeric/ublas/matrix_sp.h:272-292 | fails with `internal_logic` exactly when `one2` is 0; otherwise a cursor of this matrix with `i_` kept, at the end or at an element whose row is not before `i`, no earlier than the bound it starts from |
| SparseMatrix.Find1FirstMatch | boost/boost/numeric/ublas/matrix_sp.h:226-235 | for a positive stride in a row-run layout, `find1` returns the first position from the lower bound on that is the end or has a column not before `j` |
| SparseMatrix.Find2FirstMatch | boost/boost/numeric/ublas/matrix_sp.h:272-281 | for a positive stride in a column-run layout, `find2` returns the first position from the lower bound on that is the end or has a row not before `i` |
| SparseMatrix.OriginLeast | boost/boost/numeric/ublas/matrix_sp.h:410-412 | under the functor's contract no stored key is below the key of (0, 0), so at most the first stored position is not past it |
| SparseMatrix.Begin1 | boost/boost/numeric/ublas/matrix_sp.h:410-412 | `begin1 ()` fails exactly when `one1` is 0; otherwise a cursor of this matrix at (0, 0) on the first stored position, or at most one past it for a negative stride |
| SparseMatrix.End1 | boost/boost/numeric/ublas/matrix_sp.h:414-416 | `end1 ()` fails exactly when `one1` is 0; otherwise a cursor at (size1, 0) whose position splits the keys below the key of (size1, 0) from the rest (not above it, for a negative stride) |
| SparseMatrix.Begin2 | boost/boost/numeric/ublas/matrix_sp.h:605-607 | `begin2 ()` fails exactly when `one2` is 0; otherwise a cursor at (0, 0) on the first stored position, or at most one past it for a negative stride |
| SparseMatrix.End2 | boost/boost/numeric/ublas/matrix_sp.h:609-611 | `end2 ()` fails exactly when `one2` is 0; otherwise a cursor at (0, size2) whose position splits the keys below the key of (0, size2) from the rest |
| SparseMatrix.IndicesDecode | boost/boost/numeric/ublas/matrix_sp.h:384-395 | `index1 ()` and `index2 ()` encode back to the cursor's key, and they are the only in-range indices with that key |
| SparseMatrix.RowBegin | boost/boost/numeric/ublas/matrix_sp.h:373-377 | `iterator1::begin ()` fails exactly when `one2` is 0; otherwise a cursor of the same matrix whose `i_` is the cursor's row, at or after the lower bound of (row, 0), on an element of that row or a later one |
| SparseMatrix.RowEnd | boost/boost/numeric/ublas/matrix_sp.h:378-382 | `iterator1::end ()` fails exactly when `one2` is 0; otherwise a cursor with the cursor's row, at or after the lower bound of (row, size2), on that row or a later one |
| SparseMatrix.ColumnBegin | boost/boost/numeric/ublas/matrix_sp.h:568-572 | `iterator2::begin ()` fails exactly when `one1` is 0; otherwise a cursor whose `j_` is the cursor's column, at or after the lower bound of (0, column), on that column or a later one |
| SparseMatrix.ColumnEnd | boost/boost/numeric/ublas/matrix_sp.h:573-577 | `iterator2::end ()` fails exactly when `one1` is 0; otherwise a cursor with the cursor's column, at or after the lower bound of (size1, column) |
| SparseMatrix.Deref | boost/boost/numeric/ublas/matrix_sp.h:367-371 | succeeds exactly when both decoded indices are inside the matrix, with the stored value; otherwise fails with `bad_index` |
| SparseMatrix.DerefAgreesWithGet | boost/boost/numeric/ublas/matrix_sp.h:367-371 | dereferencing an in-range cursor gives what a const read at its decoded indices gives |
| SparseMatrix.Equal | boost/boost/numeric/ublas/matrix_sp.h:398-401 | comparing cursors of different matrices fails with `external_logic`; otherwise they are equal exactly when their positions are |
| SparseMatrix.Increment1 | boost/boost/numeric/ublas/matrix_sp.h:337-349 | a unit stride takes one storage step in the functor's direction; any other stride moves to where `find1 (index1 () + 1, j_)` lands; a zero stride fails; owner, `i_` and `j_` are kept |
| SparseMatrix.Decrement1 | boost/boost/numeric/ublas/matrix_sp.h:351-363 | a unit stride takes one storage step against the functor's direction; otherwise the cursor moves to `find1 (index1 () - 1, j_)` |
| SparseMatrix.UnitSteps1Undo | boost/boost/numeric/ublas/matrix_sp.h:337-363 | with a unit row stride, `--` undoes `++`, and `++` undoes `--` wherever the step back stays inside the storage |
| SparseMatrix.Retreat1 | boost/boost/numeric/ublas/matrix_sp.h:351-363 | the corrected `iterator1::operator --`: fails exactly when `one1` is 0; a unit stride steps back as written; otherwise, for a positive stride and `j_` 0, it lands strictly before the start of the cursor's row |
| SparseMatrix.UnitRetreat1Undoes | boost/boost/numeric/ublas/matrix_sp.h:337-363 | with a forward unit row stride, `++` is one storage step and the corrected step back returns to the starting cursor |
| SparseMatrix.Increment2 | boost/boost/numeric/ublas/matrix_sp.h:532-544 | a unit stride takes one storage step; otherwise the cursor moves to `find2 (i_, index2 () + 1)`; a zero stride fails |
| SparseMatrix.Decrement2 | boost/boost/numeric/ublas/matrix_sp.h:546-558 | a unit stride takes one storage step back; otherwise the cursor moves to `find2 (i_, index2 () - 1)` |
| SparseMatrix.UnitSteps2Undo | boost/boost/numeric/ublas/matrix_sp.h:532-558 | with a unit column stride, `--` undoes `++`, and `++` undoes `--` wherever the step back stays inside the storage |
| SparseMatrix.Retreat2 | boost/boost/numeric/ublas/matrix_sp.h:546-558 | the corrected `iterator2::operator --`: fails exactly when `one2` is 0; a unit stride steps back as written; otherwise, for a positive stride and `i_` 0, it lands strictly before the start of the cursor's column |
| SparseMatrix.UnitRetreat2Undoes | boost/boost/numeric/ublas/matrix_sp.h:532-558 | with a forward unit column stride, `++` is one storage step and the corrected step back returns to the starting cursor |
| SparseVectorOfSparseVector.Lookup2 | boost/boost/numeric/ublas/matrix_sp.h:786-794 | the two-hop lookup finds no value exactly when no bucket with the major key holds the minor key; otherwise it finds that entry's value |
| SparseVectorOfSparseVector.Get | boost/boost/numeric/ublas/matrix_sp.h:786-794 | an element is zero when its bucket or its inner entry is missing; otherwise it is the stored value |
| SparseVectorOfSparseVector.Place | boost/boost/numeric/ublas/matrix_sp.h:796-798 | the bucket is created lazily, then the entry; the result points at the element's pair of keys; a present element leaves the storage unchanged; a new one holds the default; every other key pair keeps its value |
| SparseVectorOfSparseVector.Access | boost/boost/numeric/ublas/matrix_sp.h:796-798 | the reference denotes the element's (bucket, entry); it holds the const read's value; a present element leaves the matrix unchanged; no other element changes |
| SparseVectorOfSparseVector.Write | boost/boost/numeric/ublas/matrix_sp.h:796-798 | storing through the reference sets that key pair's value and no other |
| SparseVectorOfSparseVector.AccessWriteRead | boost/boost/numeric/ublas/matrix_sp.h:786-798 | `m (i, j) = v` then a const read of (i, j) gives `v`; elements with another key pair read as before |
| SparseVectorOfSparseVector.AccessIdempotent | boost/boost/numeric/ublas/matrix_sp.h:796-798 | a second mutable access to the same element returns the same positions and changes nothing |
| SparseVectorOfSparseVector.Insert | boost/boost/numeric/ublas/matrix_sp.h:913-918 | a missing bucket is created first; a stored element is kept as it was; an absent one gets the value; every other key pair keeps its value |
| SparseVectorOfSparseVector.InsertThenGet | boost/boost/numeric/ublas/matrix_sp.h:913-918 | after inserting an absent in-range element, a read returns the value; every other in-range element reads as before |
| SparseVectorOfSparseVector.Create | boost/boost/numeric/ublas/matrix_sp.h:751-754 | a new matrix stores no element and has exactly one bucket, the empty sentinel keyed `size1 (size1, size2)` |
| SparseVectorOfSparseVector.Resize | boost/boost/numeric/ublas/matrix_sp.h:767-773 | unlike the flat matrix, every element is discarded; only the sentinel bucket for the new sizes remains |
| SparseVectorOfSparseVector.Clear | boost/boost/numeric/ublas/matrix_sp.h:909-911 | no bucket stays, the sentinel included; the sizes are kept |
| SparseVectorOfSparseVector.Assign | boost/boost/numeric/ublas/matrix_sp.h:824-830 | succeeds exactly when all three sizes agree and otherwise fails with `bad_size`; on success the storage equals the source's and is well formed when the source's is |
| SparseVectorOfSparseVector.AssignCopies | boost/boost/numeric/ublas/matrix_sp.h:824-830 | after a successful assignment every element (i, j) reads as it does in the source |
| SparseVectorOfSparseVector.Swap | boost/boost/numeric/ublas/matrix_sp.h:890-900 | a self-swap fails with `external_logic`; differing sizes fail with `bad_size`; otherwise sizes and storage are exchanged |
| SparseVectorOfSparseVector.SwapTwice | boost/boost/numeric/ublas/matrix_sp.h:890-900 | a successful swap repeated restores both matrices |
| SparseVectorOfSparseVector.LastBucketEnd | boost/boost/numeric/ublas/matrix_sp.h:935-936 | at the outer end the inner iterator is the end of the last bucket, a well-formed search result |
| SparseVectorOfSparseVector.Seek1Lower | boost/boost/numeric/ublas/matrix_sp.h:930-946 | the loop ends with `itv_` at the outer lower bound of the final row's major key; `it_` is at that bucket's inner lower bound; any element reached has a column not before `j` |
| SparseVectorOfSparseVector.Seek1Upper | boost/boost/numeric/ublas/matrix_sp.h:947-963 | the same loop with upper bounds at both levels |
| SparseVectorOfSparseVector.Seek2Lower | boost/boost/numeric/ublas/matrix_sp.h:1012-1028 | the loop ends at the outer and inner lower bounds of the final column's keys; any element reached has a row not before `i` |
| SparseVectorOfSparseVector.Seek2Upper | boost/boost/numeric/ublas/matrix_sp.h:1029-1045 | the same loop with upper bounds at both levels |
| SparseVectorOfSparseVector.Find1 | boost/boost/numeric/ublas/matrix_sp.h:928-966 | fails with `internal_logic` exactly when `one1` is 0 or there is no bucket; otherwise a well-placed cursor of this matrix with `j_` kept, at the bounds of the final row's keys, on an element whose column is not before `j` or at a bucket end |
| SparseVectorOfSparseVector.Find2 | boost/boost/numeric/ublas/matrix_sp.h:1010-1048 | fails with `internal_logic` exactly when `one2` is 0 or there is no bucket; otherwise a well-placed cursor with `i_` kept, on an element whose row is not before `i` or at a bucket end |
| SparseVectorOfSparseVector.RowBucketsSearchOnce | boost/boost/numeric/ublas/matrix_sp.h:1010-1028 | with one bucket per row, `find2 (i, j)` (and `find1` when `size2` is positive) makes one round: it stops at the first bucket from row `i` on, at its first entry whose column is not before `j` or at that bucket's end |
| SparseVectorOfSparseVector.ColumnBucketsSearchOnce | boost/boost/numeric/ublas/matrix_sp.h:928-946 | with one bucket per column, `find1 (i, j)` (and `find2` when `size1` is positive) stops at the first bucket from column `j` on, at its first entry whose row is not before `i` or at that bucket's end |
| SparseVectorOfSparseVector.FirstRound1 | boost/boost/numeric/ublas/matrix_sp.h:928-946 | `find1 (i, 0)` ends with row `i`: no column is before 0, so the loop makes one round |
| SparseVectorOfSparseVector.FirstRound2 | boost/boost/numeric/ublas/matrix_sp.h:1010-1028 | `find2 (0, j)` ends with column `j`: no row is before 0 |
| SparseVectorOfSparseVector.Begin1 | boost/boost/numeric/ublas/matrix_sp.h:1189-1191 | `begin1 ()` fails exactly when `one1` is 0 or there is no bucket; otherwise a well-placed cursor at (0, 0), standing at the outer and inner lower bounds of the keys of (0, 0), or at the upper bounds for a negative stride |
| SparseVectorOfSparseVector.End1 | boost/boost/numeric/ublas/matrix_sp.h:1193-1195 | `end1 ()` fails exactly when `one1` is 0 or there is no bucket; otherwise a well-placed cursor at (size1, 0), at both bounds of the keys of (size1, 0) |
| SparseVectorOfSparseVector.Begin2 | boost/boost/numeric/ublas/matrix_sp.h:1394-1396 | `begin2 ()` fails exactly when `one2` is 0 or there is no bucket; otherwise a well-placed cursor at (0, 0), at both bounds of the keys of (0, 0) |
| SparseVectorOfSparseVector.End2 | boost/boost/numeric/ublas/matrix_sp.h:1398-1400 | `end2 ()` fails exactly when `one2` is 0 or there is no bucket; otherwise a well-placed cursor at (0, size2), at both bounds of the keys of (0, size2) |
| SparseVectorOfSparseVector.RowBucketsEnds | boost/boost/numeric/ublas/matrix_sp.h:1189-1195 | with one bucket per row, `begin1 ()` and `begin2 ()` are the first entry of the first bucket, `end1 ()` is the start of the first bucket keyed `size1` or more, and `end2 ()` stops inside the first bucket |
| SparseVectorOfSparseVector.ColumnBucketsEnds | boost/boost/numeric/ublas/matrix_sp.h:1394-1400 | with one bucket per column, `end1 ()` stops inside the first bucket and `end2 ()` is the start of the first bucket keyed `size2` or more |
| SparseVectorOfSparseVector.SentinelKeepsSearchAlive | boost/boost/numeric/ublas/matrix_sp.h:909-918 | after `resize` the sentinel lets `find1` succeed; after `clear` it fails with `internal_logic`, and an `insert`, a mutable access, or an assignment or swap from a matrix holding a bucket makes it succeed again |
| SparseVectorOfSparseVector.Deref | boost/boost/numeric/ublas/matrix_sp.h:1145-1149 | succeeds exactly when both decoded indices are inside the matrix, with the value at `it_`; otherwise fails with `bad_index` |
| SparseVectorOfSparseVector.IndicesDecode | boost/boost/numeric/ublas/matrix_sp.h:1162-1173 | `index1 ()` and `index2 ()` encode back to the major key at `itv_` and the minor key at `it_`, and they are the only in-range indices with those keys |
| SparseVectorOfSparseVector.DerefAgreesWithGet | boost/boost/numeric/ublas/matrix_sp.h:1145-1149 | dereferencing an in-range cursor whose `itv_` and `it_` agree gives the const read at its decoded indices |
| SparseVectorOfSparseVector.Equal | boost/boost/numeric/ublas/matrix_sp.h:1176-1179 | cursors of different matrices fail with `external_logic`; otherwise they are equal exactly when their inner iterators are, whatever `itv_` is |
| SparseVectorOfSparseVector.EqualPlaced | boost/boost/numeric/ublas/matrix_sp.h:1176-1179 | two placed cursors of one matrix are equal exactly when they share outer and inner positions or both stand at the end of the last bucket; so a placed cursor equals one at the outer end exactly when it stands at the end of the last bucket, whatever its `itv_` |
| SparseVectorOfSparseVector.Relocate | boost/boost/numeric/ublas/matrix_sp.h:1119-1122 | the re-search path of `++`/`--` takes `itv_` and `it_` from the cursor found and keeps its own owner, `i_` and `j_` |
| SparseVectorOfSparseVector.Increment1 | boost/boost/numeric/ublas/matrix_sp.h:1111-1125 | a unit stride steps only `it_` inside its bucket, with `itv_` kept; any other stride takes both iterators from `find1 (index1 () + 1, j_)`; `i_`/`j_` are kept |
| SparseVectorOfSparseVector.Decrement1 | boost/boost/numeric/ublas/matrix_sp.h:1127-1141 | a unit stride steps `it_` back; otherwise both iterators come from `find1 (index1 () - 1, j_)` |
| SparseVectorOfSparseVector.Increment2 | boost/boost/numeric/ublas/matrix_sp.h:1316-1330 | a unit stride steps only `it_`; otherwise both iterators come from `find2 (i_, index2 () + 1)` |
| SparseVectorOfSparseVector.Decrement2 | boost/boost/numeric/ublas/matrix_sp.h:1332-1346 | a unit stride steps `it_` back; otherwise both iterators come from `find2 (i_, index2 () - 1)` |
| SparseVectorOfSparseVector.UnitInnerSteps1Undo | boost/boost/numeric/ublas/matrix_sp.h:1111-1141 | with a unit `one1`, `++` and `--` move `it_` inside its bucket and undo each other while they stay inside it |
| SparseVectorOfSparseVector.UnitInnerSteps2Undo | boost/boost/numeric/ublas/matrix_sp.h:1316-1346 | with a unit `one2`, `++` and `--` move `it_` inside its bucket and undo each other while they stay inside it |
| SparseVectorOfSparseVector.RowBegin | boost/boost/numeric/ublas/matrix_sp.h:1151-1155 | `iterator1::begin ()` fails exactly when `one2` is 0; otherwise a well-placed cursor whose `i_` is the cursor's row, from the bounds of (row, 0), on no earlier row |
| SparseVectorOfSparseVector.RowEnd | boost/boost/numeric/ublas/matrix_sp.h:1156-1160 | `iterator1::end ()` fails exactly when `one2` is 0; otherwise a well-placed cursor with the cursor's row and `j_` at least `size2`, from the bounds of (row, size2), on no earlier row |
| SparseVectorOfSparseVector.ColumnBegin | boost/boost/numeric/ublas/matrix_sp.h:1356-1360 | `iterator2::begin ()` fails exactly when `one1` is 0; otherwise a well-placed cursor whose `j_` is the cursor's column, from the bounds of (0, column), on no earlier column |
| SparseVectorOfSparseVector.ColumnEnd | boost/boost/numeric/ublas/matrix_sp.h:1361-1365 | `iterator2::end ()` fails exactly when `one1` is 0; otherwise a well-placed cursor with the cursor's column and `i_` at least `size1`, from the bounds of (size1, column) |
| SparseVectorOfSparseVector.RowBucketsRowRange | boost/boost/numeric/ublas/matrix_sp.h:1151-1160 | with one bucket per row, a row cursor's `begin ()` is the start of its bucket and its `end ()` the end of the bucket's entries whose column is before `size2` |
| SparseVectorOfSparseVector.ColumnBucketsColumnRange | boost/boost/numeric/ublas/matrix_sp.h:1356-1365 | with one bucket per column, a column cursor's `begin ()` is the start of its bucket and its `end ()` the end of the entries whose row is before `size1` |
| SparseVectorOfSparseVector.RowBucketsNext | boost/boost/numeric/ublas/matrix_sp.h:1111-1125 | with one bucket per row, the search `++` makes from a bucket stops in the next bucket at its first entry whose column is not before `j_`, or at the outer end after the last bucket |
| SparseVectorOfSparseVector.RowBucketsPrevious | boost/boost/numeric/ublas/matrix_sp.h:1127-1141 | with one bucket per row, the search `--` makes from the bucket of row `x` reaches the previous bucket only when that bucket is row `x - 1`; otherwise it stops in the same bucket again |
| SparseVectorOfSparseVector.ColumnBucketsNext | boost/boost/numeric/ublas/matrix_sp.h:1316-1330 | with one bucket per column, the search `++` of `iterator2` stops in the next bucket at its first entry whose row is not before `i_`, or at the outer end |
| SparseVectorOfSparseVector.ColumnBucketsPrevious | boost/boost/numeric/ublas/matrix_sp.h:1332-1346 | with one bucket per column, the search `--` of `iterator2` from column `y` reaches the previous bucket only when it is column `y - 1`, and otherwise stays in the same bucket |
| Traversal.Find2NoSkip | boost/boost/numeric/ublas/matrix_sp.h:272-281 | when rows are contiguous key ranges, `find2 (i, j)` stops at `lower_bound (element (i, j))` without looping |
| Traversal.Find1NoSkip | boost/boost/numeric/ublas/matrix_sp.h:226-235 | `find1 (i, 0)` stops at `lower_bound (element (i, 0))`, since no column is before 0 |
| Traversal.NextRow | boost/boost/numeric/ublas/matrix_sp.h:337-349 | a row cursor's `++` lands on the start of the next row that holds an element, on both the unit-step path and the re-search path |
| Traversal.TraversalBounds | boost/boost/numeric/ublas/matrix_sp.h:410-417 | `begin1 ()` stands on the first stored element and `end1 ()` at the storage end |
| Traversal.RowSpan | boost/boost/numeric/ublas/matrix_sp.h:374-382 | for a row cursor at the start of its row, the nested `begin ()` is its own position and the nested `end ()` is the start of the next row |
| Traversal.RowStep | boost/boost/numeric/ublas/matrix_sp.h:337-349 | a row cursor's `++` reaches the start of the next row, strictly later in storage, so the outer walk makes progress |
| Traversal.IncrementToNextRowStart | boost/boost/numeric/ublas/matrix_sp.h:337-349 | `++` from a cursor in a row moves strictly forward to the start of the next row that holds an element, again a row start |
| Traversal.RetreatToPreviousRow | boost/boost/numeric/ublas/matrix_sp.h:351-363 | the corrected step back from a row start lands strictly earlier, at the start of the row holding the element stored just before it |
| Traversal.IncrementFromPreviousRow | boost/boost/numeric/ublas/matrix_sp.h:337-349 | `++` from the start of that previous row returns to the row start it came from |
| Traversal.RetreatUndoesIncrement | boost/boost/numeric/ublas/matrix_sp.h:337-363 | from a row start, `++` moves strictly forward and the corrected step back returns to the starting cursor |
| Traversal.IncrementUndoesRetreat | boost/boost/numeric/ublas/matrix_sp.h:337-363 | from a row start after the first stored element, the corrected step back moves strictly back and `++` returns to the starting cursor |
| Traversal.VisitRow | boost/boost/numeric/ublas/matrix_sp.h:532-544 | walking a column cursor from `begin ()` to `end ()` appends exactly the elements stored between the two positions |
| Traversal.VisitRowAt | boost/boost/numeric/ublas/matrix_sp.h:337-382 | one round of the outer walk appends the row's elements and moves the row cursor strictly forward to the next row's start |
| Traversal.Traverse | boost/boost/numeric/ublas/matrix_sp.h:410-417 | when every stored key decodes inside the matrix, the nested walk from `begin1 ()` to `end1 ()` visits every stored element exactly once, in storage order, with its decoded indices |
| Traversal.RowMajorTraversal | boost/boost/numeric/ublas/matrix_sp.h:410-417 | the same holds for the row-major layout when all keys are in range |
| Traversal.RowMajorRowWise | boost/boost/numeric/ublas/matrix_sp.h:337-349 | the row-major functor meets every assumption the traversal makes, including the unit-step path of `iterator1::operator ++` |
| Transpose.Find1Flips | boost/boost/numeric/ublas/matrix_sp.h:226-246 | `find1` of a layout is `find2` of the transposed layout on the same storage, with the indices exchanged, failures included |
| Transpose.Find2Flips | boost/boost/numeric/ublas/matrix_sp.h:272-292 | `find2` of a layout is `find1` of the transposed layout, with the indices exchanged |
| Transpose.BoundsFlip | boost/boost/numeric/ublas/matrix_sp.h:605-611 | `begin2 ()`/`end2 ()` are the transposed layout's `begin1 ()`/`end1 ()` with the indices exchanged, and the other way round |
| Transpose.ColumnRunFlips | boost/boost/numeric/ublas/matrix_sp.h:568-577 | a column cursor's `begin ()`/`end ()` are the transposed layout's row-cursor `begin ()`/`end ()`, with the indices exchanged |
| Transpose.ColumnBounds | boost/boost/numeric/ublas/matrix_sp.h:605-611 | in a layout whose runs are columns, with all keys in range, `begin2 ()` stands on the first stored element and `end2 ()` at the storage end |
| Transpose.ColumnSpan | boost/boost/numeric/ublas/matrix_sp.h:568-577 | for a column cursor at the start of its column, the nested `begin ()` is its own position and the nested `end ()` the start of the next column |
| Transpose.ColumnStep | boost/boost/numeric/ublas/matrix_sp.h:532-544 | a column cursor's `++` reaches the start of the next column, strictly later in storage |
| Transpose.IncrementToNextColumnStart | boost/boost/numeric/ublas/matrix_sp.h:532-544 | `++` from a column cursor moves strictly forward to the start of the next column that holds an element, again a column start |
| Transpose.RetreatToPreviousColumn | boost/boost/numeric/ublas/matrix_sp.h:546-558 | the corrected step back from a column start lands strictly earlier, at the start of the column holding the element stored just before it |
| Transpose.IncrementFromPreviousColumn | boost/boost/numeric/ublas/matrix_sp.h:532-544 | `++` from the start of that previous column returns to the column start it came from |
| Transpose.RetreatUndoesIncrement2 | boost/boost/numeric/ublas/matrix_sp.h:532-558 | from a column start, `++` moves strictly forward and the corrected step back returns to the starting cursor |
| Transpose.IncrementUndoesRetreat2 | boost/boost/numeric/ublas/matrix_sp.h:532-558 | from a column start after the first stored element, the corrected step back moves strictly back and `++` returns to the starting cursor |
| Transpose.VisitColumn | boost/boost/numeric/ublas/matrix_sp.h:337-349 | walking a row cursor from a column's `begin ()` to its `end ()` appends exactly the elements stored between the two positions |
| Transpose.VisitColumnAt | boost/boost/numeric/ublas/matrix_sp.h:532-577 | one round of the column walk appends the column's elements and moves the column cursor strictly forward to the next column's start |
| Transpose.TraverseColumns | boost/boost/numeric/ublas/matrix_sp.h:605-611 | when every stored key decodes inside the matrix, the nested walk from `begin2 ()` to `end2 ()` visits every stored element exactly once, in storage order, in a layout whose runs are columns |
| Transpose.ColumnMajorColumnWise | boost/boost/numeric/ublas/matrix_sp.h:532-544 | the column-major functor meets every assumption the column walk makes |
| Transpose.ColumnMajorTraversal | boost/boost/numeric/ublas/matrix_sp.h:605-611 | the column walk visits every stored element of a column-major matrix once, in storage order, when all keys are in range |
| Example.InsertsBuildThree | boost/boost/numeric/ublas/matrix_sp.h:214-216 | inserting (0,0)=1, (1,2)=5 and (2,1)=9 into an empty row-major 3 x 3 matrix stores exactly the keys 0, 5 and 7 with those values |
| Example.HoleReadsZero | boost/boost/numeric/ublas/matrix_sp.h:90-95 | in that matrix the unstored element (0,1) reads as 0 |
| Example.ResizeMovesElements | boost/boost/numeric/ublas/matrix_sp.h:73-77 | widening the row-major example to 3 x 4 keeps key 5, which now reads at (1,1), while (1,2) reads 0 |
| Example.GapForward | boost/boost/numeric/ublas/matrix_sp.h:337-349 | in the row-major 3 x 3 matrix storing (0,0) and (2,1), `++` from (0,0) crosses the empty row 1 and lands on (2,1) |
| Example.GapDecrementStays | boost/boost/numeric/ublas/matrix_sp.h:351-363 | in that matrix `--` from (2,1) re-searches from row 1 and stays on (2,1) |
| Example.GapRetreat | boost/boost/numeric/ublas/matrix_sp.h:351-363 | the corrected step back from (2,1) returns to (0,0) |
| Example.GapColumnDecrementStays | boost/boost/numeric/ublas/matrix_sp.h:546-558 | read column-major, the same storage holds (0,0) and (1,2); `iterator2::operator --` from (1,2) re-searches from column 1 and stays on (1,2) |
| Example.GapColumnRetreat | boost/boost/numeric/ublas/matrix_sp.h:546-558 | the corrected column step back from (1,2) returns to (0,0) |
| Example.RowMajorColumnRangeIsRowZero | boost/boost/numeric/ublas/matrix_sp.h:605-611 | in the row-major example `end2 ()` is position 1, the start of row 1, so `begin2 ()`..`end2 ()` holds only the element of row 0 |
| Example.ThreeByThree | boost/boost/numeric/ublas/matrix_sp.h:214-216 | after inserting (0,0)=1, (1,2)=5 and (2,1)=9, the hole (0,1) reads 0 and the row traversal yields exactly those three elements, in row order |

## Left out

- The orientation functors (`row_major`, `column_major` and their `functor1_type`/`functor2_type`) and the storage type `A` are defined in `functional.hpp` and the map header. Those files are not part of this model. The functor is an abstract parameter constrained by `Valid`/`ValidTwoLevel`, and row-major and column-major instances are supplied.
- Expression-template plumbing is left out because it calls collaborators whose code is not part of this model. This covers construction from a `matrix_expression`, `operator =`/`+=`/`-=`/`*=`/`/=` with an expression, `assign`, `assign_temporary`, and the `row`/`column`/`project` views.
- `prod` and `prec_prod` (lines 1512-1611) are generic over arbitrary expressions and depend on type promotion; they are not modelled.
- `size1 ()`/`size2 ()` are plain field reads.
- `non_zeroes_` is only a capacity hint. It is carried as a field and takes part in the size checks of assignment and swap, nothing else.
- `size_type` is unbounded. The model has no 32/64-bit wrap-around of `element (i, j)`.
- SparseMatrix.Decrement1, SparseMatrix.Decrement2, SparseVectorOfSparseVector.Decrement1 and SparseVectorOfSparseVector.Decrement2: on the re-search path they require the decoded index to be at least 1. In the code, `index1 () - 1` at index 0 wraps around to the largest `size_type`, and the decrement then moves to the end.
- The unit-stride steps require the storage iterator not to leave its range (`++` at the end, `--` at the beginning). In the code that is undefined behaviour.
- The const and mutable versions of `find1`, `find2` and each cursor class are identical apart from constness. Each is modelled once.
- The mutable two-level `iterator1::operator --` (lines 1236-1238) declares a local named `it_` and then reads an undeclared `it`, so it does not compile. The model follows its const twin (lines 1136-1138).
- Division by zero is not modelled: when the non-stride dimension is 0, the row-major index decoding divides by 0. `RowMajorValid` and `ColumnMajorValid` assume a positive dimension.
- Cursors borrow their matrix. The model does not track cursor invalidation after `clear`, `resize` or `swap`, which is undefined behaviour in the code.
- SparseVectorOfSparseVector.Find1 and SparseVectorOfSparseVector.Find2: the general contracts state the start bound, the stopping shape and the bounds of the final keys, not first match. First match does not hold in general: a two-level search stops at the end of the bucket it found (lines 940-942), even when a later bucket holds a matching element. For one bucket per row or per column, where each search makes a single round, RowBucketsSearchOnce and ColumnBucketsSearchOnce state exactly where it stops.
- SparseMatrix.Find1 and SparseMatrix.Find2 state the row (or column) reached only through the stopping position. The first-match lemmas add that, in a layout whose runs follow the major index, nothing earlier matches.
- The nested walks are proved only for the flat matrix, and each only for the layouts it fits. The row walk (`Traversal.Traverse`) needs rows that are contiguous key ranges, as in row-major order. The column walk (`Transpose.TraverseColumns`) needs columns that are, as in column-major order. In row-major order `begin2 ()`..`end2 ()` covers only row 0 (`Example.RowMajorColumnRangeIsRowZero`). For the two-level matrix only the four ends and the row and column ranges of one bucket per row or column are stated (RowBucketsEnds, ColumnBucketsEnds, RowBucketsRowRange, ColumnBucketsColumnRange).
- SparseVectorOfSparseVector.Decrement1 and SparseVectorOfSparseVector.Decrement2 are modelled as written. Their re-search path has the same defect as the flat `--` listed under Findings; RowBucketsPrevious and ColumnBucketsPrevious exhibit it. No corrected two-level step back is modelled. With one bucket per row and `size2` equal to 1, `one1` is 1 and `--` takes the unit path instead.
- SparseVectorOfSparseVector.Increment1, SparseVectorOfSparseVector.Decrement1, SparseVectorOfSparseVector.Increment2 and SparseVectorOfSparseVector.Decrement2: on the re-search path their contracts say the result is the search's cursor relocated onto the cursor (`Relocate`). RowBucketsNext, RowBucketsPrevious, ColumnBucketsNext and ColumnBucketsPrevious give that search's exact result for one bucket per row or column. The two facts are not combined into one lemma per operator.
- SparseMatrix.Index1, SparseMatrix.Index2, SparseVectorOfSparseVector.Index1 and SparseVectorOfSparseVector.Index2 carry no contract of their own. The matching IndicesDecode lemma states what they compute.
- The `swap (m1, m2)` friend and `std::swap` of the storage are the same exchange as the member `swap`.

## Findings

| source | as written | input that shows it | evidently intended | confidence | as-written member | corrected member |
|---|---|---|---|---|---|---|
| boost/boost/numeric/ublas/matrix_sp.h:351-363 | with a non-unit row stride, `iterator1::operator --` re-searches `find1 (index1 () - 1, j_)`. That search runs forwards from the row above, so across an empty row it finds the cursor's own element again | row-major 3 x 3 storing only (0,0) and (2,1): `--` from (2,1) stays on (2,1) | `--` undoes `++`: it steps back to the previous row that holds an element | medium, not executed | SparseMatrix.Decrement1, exhibited by Example.GapDecrementStays | SparseMatrix.Retreat1, with Traversal.RetreatUndoesIncrement, Traversal.IncrementUndoesRetreat and Example.GapRetreat |
| boost/boost/numeric/ublas/matrix_sp.h:546-558 | with a non-unit column stride, `iterator2::operator --` re-searches `find2 (i_, index2 () - 1)` forwards, so across an empty column it finds the cursor's own element again | column-major 3 x 3 storing only (0,0) and (1,2): `--` from (1,2) stays on (1,2) | `--` undoes `++`: it steps back to the previous column that holds an element | medium, not executed | SparseMatrix.Decrement2, exhibited by Example.GapColumnDecrementStays | SparseMatrix.Retreat2, with Transpose.RetreatUndoesIncrement2, Transpose.IncrementUndoesRetreat2 and Example.GapColumnRetreat |
