/**
 * The ordered associative storage behind both sparse matrices: a map from
 * a natural key to a value, kept as a sequence of entries strictly sorted by
 * key. A storage iterator is a position `p <= |s|`, with `|s|` playing the
 * role of `end()`.
 */
module OrderedStore {
  import opened Checks

  datatype Entry<V> = Entry(key: nat, value: V)

  /** Keys strictly ascending, hence unique: the ordered-map invariant. */
  ghost predicate Sorted<V>(s: seq<Entry<V>>) {
    forall a, b :: 0 <= a < b < |s| ==> s[a].key < s[b].key
  }

  /** Some entry of `s` carries key `k`. */
  ghost predicate HasKey<V>(s: seq<Entry<V>>, k: nat) {
    exists a :: 0 <= a < |s| && s[a].key == k
  }

  /** `lower_bound(k)`: the first position whose key is not less than `k`. */
  function LowerBound<V>(s: seq<Entry<V>>, k: nat): (p: nat)
    ensures p <= |s|
    ensures forall a :: 0 <= a < p ==> s[a].key < k
    ensures p < |s| ==> k <= s[p].key
  {
    if |s| == 0 || k <= s[0].key then 0 else 1 + LowerBound(s[1..], k)
  }

  /** `upper_bound(k)`: the first position whose key is greater than `k`. */
  function UpperBound<V>(s: seq<Entry<V>>, k: nat): (p: nat)
    ensures p <= |s|
    ensures forall a :: 0 <= a < p ==> s[a].key <= k
    ensures p < |s| ==> k < s[p].key
  {
    if |s| == 0 || k < s[0].key then 0 else 1 + UpperBound(s[1..], k)
  }

  /** `p` is the lower bound of `k` as soon as it splits the keys below `k` from the rest. */
  lemma LowerBoundIs<V>(s: seq<Entry<V>>, k: nat, p: nat)
    requires p <= |s|
    requires forall a :: 0 <= a < p ==> s[a].key < k
    requires p < |s| ==> k <= s[p].key
    ensures LowerBound(s, k) == p
  {
  }

  /** In sorted storage every position from the lower bound on holds a key `>= k`. */
  lemma LowerBoundSplits<V>(s: seq<Entry<V>>, k: nat)
    requires Sorted(s)
    ensures forall a :: LowerBound(s, k) <= a < |s| ==> k <= s[a].key
  {
  }

  /**
   * A bound strictly above the key at position `p` puts the lower bound
   * strictly after `p`: the progress step of every boundary-seeking search.
   */
  lemma LowerBoundPast<V>(s: seq<Entry<V>>, p: nat, k: nat)
    requires Sorted(s)
    requires p < |s| && s[p].key < k
    ensures p < LowerBound(s, k)
  {
  }

  /** The same progress step for `upper_bound`. */
  lemma UpperBoundPast<V>(s: seq<Entry<V>>, p: nat, k: nat)
    requires Sorted(s)
    requires p < |s| && s[p].key <= k
    ensures p < UpperBound(s, k)
  {
  }

  /** `find(k)`: the position holding key `k`, or the end position when `k` is absent. */
  function Find<V>(s: seq<Entry<V>>, k: nat): (p: nat)
    requires Sorted(s)
    ensures p <= |s|
    ensures p < |s| <==> HasKey(s, k)
    ensures p < |s| ==> s[p].key == k
  {
    var p := LowerBound(s, k);
    if p < |s| && s[p].key == k then p else |s|
  }

  /** The value stored under `k`, if any. */
  function Lookup<V>(s: seq<Entry<V>>, k: nat): (r: Option<V>)
    requires Sorted(s)
    ensures r.None? <==> !HasKey(s, k)
    ensures forall a :: 0 <= a < |s| && s[a].key == k ==> r == Some(s[a].value)
    ensures r.Some? ==> Entry(k, r.value) in s
  {
    var p := Find(s, k);
    if p < |s| then Some(s[p].value) else None
  }

  /** Entry `e` placed at position `p`, shifting the tail one place right. */
  function Splice<V>(s: seq<Entry<V>>, p: nat, e: Entry<V>): (r: seq<Entry<V>>)
    requires p <= |s|
    ensures |r| == |s| + 1 && r[p] == e
    ensures forall a :: 0 <= a < p ==> r[a] == s[a]
    ensures forall a :: p < a <= |s| ==> r[a] == s[a - 1]
  {
    s[..p] + [e] + s[p..]
  }

  /**
   * `insert(value_type(k, v))` of an ordered map: adds the entry when `k` is
   * absent and leaves the storage untouched when it is present.
   */
  function Insert<V>(s: seq<Entry<V>>, k: nat, v: V): (r: seq<Entry<V>>)
    requires Sorted(s)
    ensures Sorted(r)
    ensures HasKey(s, k) ==> r == s
    ensures !HasKey(s, k) ==> |r| == |s| + 1 && Lookup(r, k) == Some(v)
    ensures forall k' :: k' != k ==> Lookup(r, k') == Lookup(s, k')
    ensures forall x :: 0 <= x < |r| ==> r[x] == Entry(k, v) || r[x] in s
  {
    var p := LowerBound(s, k);
    if p < |s| && s[p].key == k then s
    else
      var r := Splice(s, p, Entry(k, v));
      SpliceKeepsOthers(s, p, Entry(k, v));
      r
  }

  /** Splicing a fresh key at its lower bound keeps the storage sorted. */
  lemma SpliceSorted<V>(s: seq<Entry<V>>, p: nat, e: Entry<V>)
    requires Sorted(s)
    requires p == LowerBound(s, e.key)
    requires !(p < |s| && s[p].key == e.key)
    ensures Sorted(Splice(s, p, e))
  {
    LowerBoundSplits(s, e.key);
  }

  /** A splice adds exactly the spliced key. */
  lemma SpliceKeys<V>(s: seq<Entry<V>>, p: nat, e: Entry<V>, k: nat)
    requires p <= |s|
    requires k != e.key
    ensures HasKey(Splice(s, p, e), k) <==> HasKey(s, k)
  {
    var r := Splice(s, p, e);
    if HasKey(s, k) {
      var b :| 0 <= b < |s| && s[b].key == k;
      var a := if b < p then b else b + 1;
      assert r[a] == s[b];
    }
    if HasKey(r, k) {
      var a :| 0 <= a < |r| && r[a].key == k;
      var b := if a < p then a else a - 1;
      assert s[b] == r[a];
    }
  }

  /** Splicing a fresh key at its lower bound keeps every other key's value. */
  lemma SpliceKeepsOthers<V>(s: seq<Entry<V>>, p: nat, e: Entry<V>)
    requires Sorted(s)
    requires p == LowerBound(s, e.key)
    requires !(p < |s| && s[p].key == e.key)
    ensures Sorted(Splice(s, p, e))
    ensures Lookup(Splice(s, p, e), e.key) == Some(e.value)
    ensures forall k' :: k' != e.key ==> Lookup(Splice(s, p, e), k') == Lookup(s, k')
  {
    SpliceSorted(s, p, e);
    forall k' | k' != e.key
      ensures Lookup(Splice(s, p, e), k') == Lookup(s, k')
    {
      SpliceKeepsOne(s, p, e, k');
    }
  }

  /** One key of `SpliceKeepsOthers`: a key other than the spliced one keeps its value. */
  lemma SpliceKeepsOne<V>(s: seq<Entry<V>>, p: nat, e: Entry<V>, k: nat)
    requires Sorted(s) && p <= |s| && Sorted(Splice(s, p, e))
    requires k != e.key
    ensures Lookup(Splice(s, p, e), k) == Lookup(s, k)
  {
    var r := Splice(s, p, e);
    SpliceKeys(s, p, e, k);
    if HasKey(s, k) {
      var b :| 0 <= b < |s| && s[b].key == k;
      var a := if b < p then b else b + 1;
      assert r[a] == s[b];
    }
  }

  /** The storage after `*it = v` for an iterator at position `p`. */
  function SetValue<V>(s: seq<Entry<V>>, p: nat, v: V): (r: seq<Entry<V>>)
    requires Sorted(s)
    requires p < |s|
    ensures Sorted(r) && |r| == |s|
    ensures Lookup(r, s[p].key) == Some(v)
    ensures forall k' :: k' != s[p].key ==> Lookup(r, k') == Lookup(s, k')
  {
    var r := s[p := Entry(s[p].key, v)];
    assert forall k' :: HasKey(r, k') <==> HasKey(s, k') by {
      forall k' ensures HasKey(r, k') <==> HasKey(s, k') {
        if HasKey(s, k') {
          var b :| 0 <= b < |s| && s[b].key == k';
          assert r[b].key == k';
        }
        if HasKey(r, k') {
          var b :| 0 <= b < |r| && r[b].key == k';
          assert s[b].key == k';
        }
      }
    }
    r
  }

  /**
   * `operator[](k)` of an ordered map: the storage after the call and the
   * position of the entry for `k`; a missing key is first inserted with the
   * default value `d`.
   */
  function FindOrInsert<V>(s: seq<Entry<V>>, k: nat, d: V): (r: (seq<Entry<V>>, nat))
    requires Sorted(s)
    ensures Sorted(r.0) && r.1 < |r.0| && r.0[r.1].key == k
    ensures r.0 == Insert(s, k, d)
    ensures HasKey(s, k) ==> r.0[r.1] == s[Find(s, k)]
    ensures !HasKey(s, k) ==> r.0[r.1].value == d
  {
    var s' := Insert(s, k, d);
    var p := Find(s', k);
    (s', p)
  }
}
