/** PHP associative arrays as ordered association lists.

    A PHP array is an ordered map whose keys are integers or strings. It is
    modelled here as a sequence of (key, value) entries in insertion order in
    which no key occurs twice. PHP's coercion of numeric strings to integer
    keys is not modelled: the two kinds of key are kept apart by `Key`. */
module Arrays {

  datatype Key = IntKey(i: int) | StrKey(s: string)

  datatype Option<T> = None | Some(value: T) {
    /** The carried value, or `default` for a miss. */
    function GetOr(default: T): T {
      match this
      case Some(v) => v
      case None => default
    }
  }

  /** The values that appear in the test suite: integers, strings and nested arrays. */
  datatype Value = Int(n: int) | Str(s: string) | Arr(entries: AssocArray<Value>)

  /** The set of keys used by a list of entries. */
  function Keys<V>(a: seq<(Key, V)>): set<Key>
  {
    if |a| == 0 then {} else {a[0].0} + Keys(a[1..])
  }

  /** No key occurs in two entries. */
  predicate UniqueKeys<V>(a: seq<(Key, V)>)
  {
    |a| == 0 || (a[0].0 !in Keys(a[1..]) && UniqueKeys(a[1..]))
  }

  /** A PHP array: entries in insertion order, each key at most once. */
  type AssocArray<V> = a: seq<(Key, V)> | UniqueKeys(a) witness []

  /** A key is used by the entries exactly when some entry carries it. */
  lemma {:induction false} KeysAt<V>(a: seq<(Key, V)>, k: Key)
    ensures k in Keys(a) <==> exists i :: 0 <= i < |a| && a[i].0 == k
  {
    if |a| > 0 {
      KeysAt(a[1..], k);
      if k in Keys(a[1..]) {
        var i :| 0 <= i < |a[1..]| && a[1..][i].0 == k;
        assert a[i + 1].0 == k;
      }
      if exists i :: 0 <= i < |a| && a[i].0 == k {
        var i :| 0 <= i < |a| && a[i].0 == k;
        if i > 0 {
          assert a[1..][i - 1].0 == k;
        }
      }
    }
  }

  /** `$a[$k]`: the value stored under `k`, or `None` when `k` is absent. */
  function Lookup<V>(a: seq<(Key, V)>, k: Key): (r: Option<V>)
    ensures r.Some? <==> k in Keys(a)
  {
    if |a| == 0 then None
    else if a[0].0 == k then Some(a[0].1)
    else Lookup(a[1..], k)
  }

  /** What `Lookup` finds is an entry of the array. */
  lemma {:induction false} LookupFound<V>(a: seq<(Key, V)>, k: Key)
    ensures Lookup(a, k).Some? ==> (k, Lookup(a, k).value) in a
  {
    if |a| > 0 && a[0].0 != k {
      LookupFound(a[1..], k);
    }
  }

  /** In an array with unique keys, the i-th entry is what its key looks up. */
  lemma {:induction false} LookupAt<V>(a: AssocArray<V>, i: nat)
    requires i < |a|
    ensures Lookup(a, a[i].0) == Some(a[i].1)
  {
    if i > 0 {
      LookupAt(a[1..], i - 1);
      assert a[1..][i - 1] == a[i];
      KeysAt(a[1..], a[i].0);
    }
  }

  /** In an array with unique keys, every entry is what its key looks up. */
  lemma LookupEveryEntry<V>(a: AssocArray<V>)
    ensures forall i :: 0 <= i < |a| ==> Lookup(a, a[i].0) == Some(a[i].1)
  {
  }

  /** In an array with unique keys, an entry is found by looking up its key. */
  lemma {:induction false} LookupEntry<V>(a: AssocArray<V>, k: Key)
    ensures forall v :: Lookup(a, k) == Some(v) <==> (k, v) in a
  {
    LookupFound(a, k);
    forall v | (k, v) in a
      ensures Lookup(a, k) == Some(v)
    {
      var i :| 0 <= i < |a| && a[i] == (k, v);
      LookupAt(a, i);
    }
  }

  /** `$a[$k] = $v`: an existing key keeps its position and takes the new
      value; a new key is appended at the end. */
  function Put<V>(a: AssocArray<V>, k: Key, v: V): (r: AssocArray<V>)
    ensures Lookup(r, k) == Some(v)
    ensures forall k' :: k' != k ==> Lookup(r, k') == Lookup(a, k')
    ensures Keys(r) == Keys(a) + {k}
  {
    if |a| == 0 then
      assert [(k, v)][1..] == [];
      [(k, v)]
    else if a[0].0 == k then [(k, v)] + a[1..]
    else
      var rest := Put(a[1..], k, v);
      assert ([a[0]] + rest)[1..] == rest;
      [a[0]] + rest
  }

  /** Where `Put` leaves its entry: a new key goes to the end, an existing
      key stays where it was and no entry moves. */
  lemma {:induction false} PutShape<V>(a: AssocArray<V>, k: Key, v: V)
    ensures k !in Keys(a) ==> Put(a, k, v) == a + [(k, v)]
    ensures k in Keys(a) ==> |Put(a, k, v)| == |a| && forall i :: 0 <= i < |a| ==> Put(a, k, v)[i].0 == a[i].0
  {
    if |a| > 0 && a[0].0 != k {
      PutShape(a[1..], k, v);
      var r := Put(a, k, v);
      assert r == [a[0]] + Put(a[1..], k, v);
      if k !in Keys(a) {
        assert a == [a[0]] + a[1..];
      } else {
        forall i | 0 <= i < |a| ensures r[i].0 == a[i].0 {
          if i > 0 {
            assert r[i] == Put(a[1..], k, v)[i - 1];
          }
        }
      }
    }
  }

  /** Writing the same key twice leaves what the second write alone leaves. */
  lemma {:induction false} PutPut<V>(a: AssocArray<V>, k: Key, v1: V, v2: V)
    ensures Put(Put(a, k, v1), k, v2) == Put(a, k, v2)
  {
    if |a| > 0 && a[0].0 != k {
      PutPut(a[1..], k, v1, v2);
    }
  }

  /** Writes every entry of `d` into `a` in `d`'s order, so a key of `d`
      overwrites the same key of `a` (PHP's `array_replace($a, $d)`). */
  function Merge<V>(a: AssocArray<V>, d: AssocArray<V>): (r: AssocArray<V>)
    ensures Keys(r) == Keys(a) + Keys(d)
    ensures forall k :: Lookup(r, k) == if k in Keys(d) then Lookup(d, k) else Lookup(a, k)
    decreases |d|
  {
    if |d| == 0 then a
    else
      var r := Merge(Put(a, d[0].0, d[0].1), d[1..]);
      MergeStep(a, d, r);
      r
  }

  /** One step of `Merge`: the first entry of `d` goes in first, the rest after it. */
  lemma MergeStep<V>(a: AssocArray<V>, d: AssocArray<V>, r: AssocArray<V>)
    requires |d| > 0
    requires forall k :: Lookup(r, k) == if k in Keys(d[1..]) then Lookup(d[1..], k) else Lookup(Put(a, d[0].0, d[0].1), k)
    ensures forall k :: Lookup(r, k) == if k in Keys(d) then Lookup(d, k) else Lookup(a, k)
  {
  }

  /** The next integer key PHP assigns on `$a[] = $v`: one more than the
      largest integer key, and 0 when there is no non-negative one. */
  function NextIndex<V>(a: seq<(Key, V)>): (n: nat)
    ensures n == 0 || IntKey(n - 1) in Keys(a)
  {
    if |a| == 0 then 0
    else
      var m := NextIndex(a[1..]);
      match a[0].0
      case IntKey(i) => if i + 1 > m then i + 1 else m
      case StrKey(_) => m
  }

  /** Every integer key lies below `NextIndex`, so the index it picks is free. */
  lemma {:induction false} NextIndexAbove<V>(a: seq<(Key, V)>, i: int)
    requires IntKey(i) in Keys(a)
    ensures i < NextIndex(a)
  {
    if a[0].0 != IntKey(i) {
      NextIndexAbove(a[1..], i);
    }
  }

  /** `NextIndex` never names a key already in use. */
  lemma NextIndexFresh<V>(a: seq<(Key, V)>)
    ensures IntKey(NextIndex(a)) !in Keys(a)
  {
    if IntKey(NextIndex(a)) in Keys(a) {
      NextIndexAbove(a, NextIndex(a));
    }
  }

  /** Appending one entry moves `NextIndex` past its key when that key is an integer. */
  lemma {:induction false} NextIndexSnoc<V>(a: seq<(Key, V)>, i: int, v: V)
    ensures NextIndex(a + [(IntKey(i), v)]) == if i + 1 > NextIndex(a) then i + 1 else NextIndex(a)
  {
    if |a| > 0 {
      assert (a + [(IntKey(i), v)])[1..] == a[1..] + [(IntKey(i), v)];
      NextIndexSnoc(a[1..], i, v);
    }
  }

  /** `$a[] = $v`: append `v` under the next free integer key. */
  function Push<V>(a: AssocArray<V>, v: V): (r: AssocArray<V>)
    ensures r == a + [(IntKey(NextIndex(a)), v)]
    ensures NextIndex(r) == NextIndex(a) + 1
  {
    NextIndexFresh(a);
    PutShape(a, IntKey(NextIndex(a)), v);
    NextIndexSnoc(a, NextIndex(a), v);
    Put(a, IntKey(NextIndex(a)), v)
  }
}
