/** `collections.OrderedDict` built from a list of key-value pairs: a key
    keeps the position of its first occurrence and takes the value of its
    last. */
module OrderedDicts {
  import opened Wrappers

  datatype Entry<V> = Entry(key: string, value: V)

  /** The position at which `key` first occurs in `d`, if it occurs. */
  function Find<V>(d: seq<Entry<V>>, key: string): (r: Option<nat>)
    ensures r.None? <==> forall i :: 0 <= i < |d| ==> d[i].key != key
    ensures r.Some? ==> r.value < |d| && d[r.value].key == key
    ensures r.Some? ==> forall j :: 0 <= j < r.value ==> d[j].key != key
  {
    if |d| == 0 then None
    else
      var prefix := d[..|d| - 1];
      var found := Find(prefix, key);
      if found.Some? then found
      else if d[|d| - 1].key == key then Some(|d| - 1)
      else None
  }

  /** The position at which `key` last occurs in `pairs`. */
  function LastIndex<V>(pairs: seq<Entry<V>>, key: string): (i: nat)
    requires Find(pairs, key).Some?
    ensures i < |pairs| && pairs[i].key == key
    ensures forall j :: i < j < |pairs| ==> pairs[j].key != key
  {
    var n := |pairs|;
    if pairs[n - 1].key == key then n - 1
    else
      assert Find(pairs[..n - 1], key).Some? by {
        var k := Find(pairs, key).value;
        assert pairs[..n - 1][k].key == key;
      }
      LastIndex(pairs[..n - 1], key)
  }

  /** No key occurs twice. */
  predicate DistinctKeys<V>(d: seq<Entry<V>>)
  {
    forall i, j :: 0 <= i < j < |d| ==> d[i].key != d[j].key
  }

  /** `d[e.key] = e.value`: an existing key keeps its place and takes the new
      value; a new key goes at the end. */
  function Insert<V>(d: seq<Entry<V>>, e: Entry<V>): (r: seq<Entry<V>>)
    requires DistinctKeys(d)
    ensures DistinctKeys(r)
    ensures Find(d, e.key).None? ==> r == d + [e]
    ensures Find(d, e.key).Some? ==> |r| == |d|
    ensures Find(d, e.key).Some? ==> forall i :: 0 <= i < |d| ==> r[i] == (if d[i].key == e.key then e else d[i])
  {
    match Find(d, e.key)
    case Some(i) => d[i := e]
    case None => d + [e]
  }

  /** `d` and `pairs` hold the same keys. */
  ghost predicate SameKeys<V>(d: seq<Entry<V>>, pairs: seq<Entry<V>>)
  {
    forall k :: Find(d, k).Some? <==> Find(pairs, k).Some?
  }

  /** Each entry of `d` is the last pair in `pairs` with its key. */
  ghost predicate LastValues<V>(d: seq<Entry<V>>, pairs: seq<Entry<V>>)
  {
    forall j :: 0 <= j < |d| ==>
      Find(pairs, d[j].key).Some? && d[j] == pairs[LastIndex(pairs, d[j].key)]
  }

  /** The entries of `d` are ordered by where their key first occurs in
      `pairs`. */
  ghost predicate FirstOrder<V>(d: seq<Entry<V>>, pairs: seq<Entry<V>>)
  {
    forall j, k :: 0 <= j < k < |d| ==>
      Find(pairs, d[j].key).Some? && Find(pairs, d[k].key).Some? &&
      Find(pairs, d[j].key).value < Find(pairs, d[k].key).value
  }

  /** `d` is the ordered dictionary `OrderedDict(pairs)` builds. */
  ghost predicate Represents<V>(d: seq<Entry<V>>, pairs: seq<Entry<V>>)
  {
    DistinctKeys(d) && SameKeys(d, pairs) && LastValues(d, pairs) && FirstOrder(d, pairs)
  }

  /** `OrderedDict(pairs)`: its keys are distinct and are exactly the keys of
      `pairs`, each entry is the last pair with its key, and entries are
      ordered by where their key first occurs in `pairs`. */
  function OrderedDictOf<V>(pairs: seq<Entry<V>>): (d: seq<Entry<V>>)
    ensures Represents(d, pairs)
  {
    if |pairs| == 0 then []
    else
      var prefix := pairs[..|pairs| - 1];
      var d := OrderedDictOf(prefix);
      SameKeysStep(d, pairs);
      LastValuesStep(d, pairs);
      FirstOrderStep(d, pairs);
      Insert(d, pairs[|pairs| - 1])
  }

  /** The dictionary is empty exactly when no pairs were given. */
  lemma {:induction false} EmptyExactlyWithoutPairs<V>(pairs: seq<Entry<V>>)
    ensures |OrderedDictOf(pairs)| == 0 <==> |pairs| == 0
  {
    var d := OrderedDictOf(pairs);
    if |pairs| > 0 {
      assert Find(pairs, pairs[0].key).Some?;
      assert Find(d, pairs[0].key).Some?;
    }
  }

  /** The keys of `d`, in order. */
  function Keys<V>(d: seq<Entry<V>>): (ks: seq<string>)
    ensures |ks| == |d|
    ensures forall i :: 0 <= i < |d| ==> ks[i] == d[i].key
  {
    seq(|d|, i requires 0 <= i < |d| => d[i].key)
  }

  /** Each key of `keys` once, in the order of its first occurrence. */
  function FirstOccurrences(keys: seq<string>): (r: seq<string>)
    ensures forall k :: k in r <==> k in keys
    ensures forall i, j :: 0 <= i < j < |r| ==> r[i] != r[j]
  {
    if |keys| == 0 then []
    else
      var prefix := keys[..|keys| - 1];
      var last := keys[|keys| - 1];
      var seen := FirstOccurrences(prefix);
      assert forall k :: k in keys <==> k in prefix || k == last by {
        assert keys == prefix + [last];
      }
      if last in seen then seen else seen + [last]
  }

  /** The dictionary's keys are the keys of `pairs`, each once, in the order
      they first occur. */
  lemma {:induction false} KeysInFirstOrder<V>(pairs: seq<Entry<V>>)
    ensures Keys(OrderedDictOf(pairs)) == FirstOccurrences(Keys(pairs))
  {
    if |pairs| > 0 {
      var n := |pairs|;
      var prefix := pairs[..n - 1];
      var e := pairs[n - 1];
      var d := OrderedDictOf(prefix);
      KeysInFirstOrder(prefix);
      var ks := Keys(pairs);
      assert ks[..n - 1] == Keys(prefix);
      assert FirstOccurrences(ks) == if e.key in Keys(d) then Keys(d) else Keys(d) + [e.key];
      OrderedDictSnoc(pairs);
      InsertedKeys(d, e);
    }
  }

  /** Inserting a key already present keeps the keys; a new key is appended
      to them. */
  lemma {:induction false} InsertedKeys<V>(d: seq<Entry<V>>, e: Entry<V>)
    requires DistinctKeys(d)
    ensures Keys(Insert(d, e)) == if e.key in Keys(d) then Keys(d) else Keys(d) + [e.key]
  {
    if e.key in Keys(d) {
      var i :| 0 <= i < |d| && Keys(d)[i] == e.key;
      assert d[i].key == e.key;
      assert Find(d, e.key).Some?;
      assert Keys(Insert(d, e)) == Keys(d);
    } else {
      assert Find(d, e.key).None?;
      assert Keys(d + [e]) == Keys(d) + [e.key];
    }
  }

  /** Inserting adds the inserted key to the keys and nothing else. */
  lemma {:induction false} InsertKeys<V>(d: seq<Entry<V>>, e: Entry<V>, k: string)
    requires DistinctKeys(d)
    ensures Find(Insert(d, e), k).Some? <==> Find(d, k).Some? || k == e.key
  {
    match Find(d, e.key)
    case None =>
      assert Insert(d, e) == d + [e];
      AppendKeys(d, e, k);
    case Some(i) =>
      assert Insert(d, e) == d[i := e];
      SameKeyOrder(d, d[i := e], k);
  }

  /** Appending an entry adds its key. */
  lemma {:induction false} AppendKeys<V>(d: seq<Entry<V>>, e: Entry<V>, k: string)
    ensures Find(d + [e], k).Some? <==> Find(d, k).Some? || k == e.key
  {
    var r := d + [e];
    assert r[..|r| - 1] == d;
    FindSnoc(r, k);
  }

  /** Two sequences with the same key at every position find every key at
      the same place. */
  lemma {:induction false} SameKeyOrder<V>(d: seq<Entry<V>>, d': seq<Entry<V>>, k: string)
    requires |d| == |d'|
    requires forall j :: 0 <= j < |d| ==> d[j].key == d'[j].key
    ensures Find(d, k) == Find(d', k)
  {
    if Find(d, k).Some? {
      var i := Find(d, k).value;
      assert d'[i].key == k;
    }
  }

  /** A key occurs in `pairs` when it occurs before the last pair or is the
      last pair's key, and is first found where it is found before. */
  lemma {:induction false} FindSnoc<V>(pairs: seq<Entry<V>>, k: string)
    requires |pairs| > 0
    ensures Find(pairs, k).Some? <==> Find(pairs[..|pairs| - 1], k).Some? || k == pairs[|pairs| - 1].key
    ensures Find(pairs[..|pairs| - 1], k).Some? ==> Find(pairs, k) == Find(pairs[..|pairs| - 1], k)
    ensures Find(pairs[..|pairs| - 1], k).None? && k == pairs[|pairs| - 1].key ==> Find(pairs, k) == Some(|pairs| - 1)
  {
  }

  lemma {:induction false} SameKeysStep<V>(d: seq<Entry<V>>, pairs: seq<Entry<V>>)
    requires |pairs| > 0
    requires DistinctKeys(d) && SameKeys(d, pairs[..|pairs| - 1])
    ensures SameKeys(Insert(d, pairs[|pairs| - 1]), pairs)
  {
    forall k ensures Find(Insert(d, pairs[|pairs| - 1]), k).Some? <==> Find(pairs, k).Some? {
      InsertKeys(d, pairs[|pairs| - 1], k);
      FindSnoc(pairs, k);
    }
  }

  lemma {:induction false} LastValuesStep<V>(d: seq<Entry<V>>, pairs: seq<Entry<V>>)
    requires |pairs| > 0
    requires DistinctKeys(d) && SameKeys(d, pairs[..|pairs| - 1]) && LastValues(d, pairs[..|pairs| - 1])
    ensures LastValues(Insert(d, pairs[|pairs| - 1]), pairs)
  {
    var n := |pairs|;
    var prefix := pairs[..n - 1];
    var e := pairs[n - 1];
    var r := Insert(d, e);
    forall j | 0 <= j < |r|
      ensures Find(pairs, r[j].key).Some? && r[j] == pairs[LastIndex(pairs, r[j].key)]
    {
      var key := r[j].key;
      FindSnoc(pairs, key);
      if key == e.key {
        assert r[j] == e;
      } else {
        assert j < |d| && r[j] == d[j];
        assert Find(prefix, key).Some?;
        assert LastIndex(pairs, key) == LastIndex(prefix, key);
      }
    }
  }

  lemma {:induction false} FirstOrderStep<V>(d: seq<Entry<V>>, pairs: seq<Entry<V>>)
    requires |pairs| > 0
    requires DistinctKeys(d) && SameKeys(d, pairs[..|pairs| - 1]) && FirstOrder(d, pairs[..|pairs| - 1])
    ensures FirstOrder(Insert(d, pairs[|pairs| - 1]), pairs)
  {
    var n := |pairs|;
    var prefix := pairs[..n - 1];
    var e := pairs[n - 1];
    var r := Insert(d, e);
    forall j | 0 <= j < |d|
      ensures Find(prefix, d[j].key).Some? && r[j].key == d[j].key
      ensures Find(pairs, d[j].key) == Find(prefix, d[j].key)
    {
      assert Find(d, d[j].key).Some?;
      FindSnoc(pairs, d[j].key);
    }
    if Find(d, e.key).None? {
      FindSnoc(pairs, e.key);
      assert Find(pairs, e.key) == Some(n - 1);
    }
  }

  /** Pairs with distinct keys make an ordered dictionary holding exactly
      those pairs, in the same order. */
  lemma {:induction false} DistinctPairsKept<V>(pairs: seq<Entry<V>>)
    requires DistinctKeys(pairs)
    ensures OrderedDictOf(pairs) == pairs
  {
    if |pairs| > 0 {
      var prefix := pairs[..|pairs| - 1];
      DistinctPrefix(pairs);
      DistinctPairsKept(prefix);
      OrderedDictSnoc(pairs);
      assert prefix + [pairs[|pairs| - 1]] == pairs;
    }
  }

  /** Dropping the last of distinct pairs leaves distinct pairs that do not
      hold the last key. */
  lemma {:induction false} DistinctPrefix<V>(pairs: seq<Entry<V>>)
    requires |pairs| > 0 && DistinctKeys(pairs)
    ensures DistinctKeys(pairs[..|pairs| - 1])
    ensures Find(pairs[..|pairs| - 1], pairs[|pairs| - 1].key).None?
  {
    var prefix := pairs[..|pairs| - 1];
    assert forall i :: 0 <= i < |prefix| ==> prefix[i] == pairs[i];
  }

  /** Building from pairs inserts the last pair into the dictionary built
      from the others. */
  lemma {:induction false} OrderedDictSnoc<V>(pairs: seq<Entry<V>>)
    requires |pairs| > 0
    ensures OrderedDictOf(pairs) == Insert(OrderedDictOf(pairs[..|pairs| - 1]), pairs[|pairs| - 1])
  {
  }

  /** Two pairs with the same key make a one-entry dictionary holding the
      second. */
  lemma {:induction false} SameKeyKeepsLast<V>(p: Entry<V>, q: Entry<V>)
    requires p.key == q.key
    ensures OrderedDictOf([p, q]) == [q]
  {
    assert [p, q][..1] == [p] && [p][..0] == [];
    assert OrderedDictOf([p]) == [p];
    assert Find([p], q.key) == Some(0);
  }
}
