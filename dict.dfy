/** `Dictionary<string, V>` as the entries in enumeration order. A .NET
    dictionary that is only ever added to enumerates in insertion order, and
    assigning through the indexer to a present key keeps its position; both
    are visible in the query strings and bodies built from parameters. */
module Dict {
  import opened Wrappers
  import opened Errors

  type Entries<V> = seq<(string, V)>

  function Keys<V>(m: Entries<V>): (ks: seq<string>)
    ensures |ks| == |m| && forall i :: 0 <= i < |m| ==> ks[i] == m[i].0
  {
    seq(|m|, i requires 0 <= i < |m| => m[i].0)
  }

  /** No key occurs twice: the invariant every `Dictionary` keeps. */
  predicate Distinct<V>(m: Entries<V>) {
    forall i, j :: 0 <= i < j < |m| ==> m[i].0 != m[j].0
  }

  /** The position of `k`: its first entry, or `|m|` when it is absent. */
  function KeyIndex<V>(m: Entries<V>, k: string): (i: nat)
    ensures i <= |m| && (i < |m| ==> m[i].0 == k)
    ensures forall j :: 0 <= j < i ==> m[j].0 != k
    ensures i == |m| <==> k !in Keys(m)
    decreases |m|
  {
    if |m| == 0 || m[0].0 == k then 0
    else
      assert forall j :: 0 <= j < |m| - 1 ==> m[1..][j] == m[j + 1];
      1 + KeyIndex(m[1..], k)
  }

  /** Two dictionaries with the same keys in the same order place every
      key at the same position. */
  lemma SameKeysSameIndex<V>(m: Entries<V>, n: Entries<V>, k: string)
    requires |m| == |n| && forall j :: 0 <= j < |m| ==> m[j].0 == n[j].0
    ensures KeyIndex(m, k) == KeyIndex(n, k)
  {
  }

  /** `TryGetValue`. */
  function Lookup<V>(m: Entries<V>, k: string): (r: Option<V>)
    ensures r.None? <==> k !in Keys(m)
    ensures r.Some? ==> exists i :: 0 <= i < |m| && m[i] == (k, r.value)
  {
    var i := KeyIndex(m, k);
    if i < |m| then Some(m[i].1) else None
  }

  /** The indexer `m[k] = v`: the key keeps its position when present and
      is appended otherwise; `PutLookup` states that last write wins and no
      other key changes. */
  function Put<V>(m: Entries<V>, k: string, v: V): (r: Entries<V>)
    ensures Keys(r) == if k in Keys(m) then Keys(m) else Keys(m) + [k]
    ensures Distinct(m) ==> Distinct(r)
  {
    var i := KeyIndex(m, k);
    if i < |m| then
      var r := m[i := (k, v)];
      assert Keys(r) == Keys(m);
      r
    else
      var r := m + [(k, v)];
      assert Keys(r) == Keys(m) + [k];
      r
  }

  /** After `m[k] = v`, `k` holds `v` and every other key keeps its value. */
  lemma PutLookup<V>(m: Entries<V>, k: string, v: V, j: string)
    ensures Lookup(Put(m, k, v), j) == if j == k then Some(v) else Lookup(m, j)
  {
    var r := Put(m, k, v);
    var i := KeyIndex(m, k);
    if i < |m| {
      SameKeysSameIndex(m, r, j);
    } else if j != k {
      var b := KeyIndex(m, j);
      assert forall x :: 0 <= x < |m| ==> r[x] == m[x];
      if b == |m| {
        assert KeyIndex(r, j) == |r|;
      } else {
        assert KeyIndex(r, j) == b;
      }
    } else {
      assert forall x :: 0 <= x < |m| ==> r[x] == m[x];
    }
  }

  /** `Add(k, v)`: raises on a key that is already present, appends otherwise. */
  function Add<V>(m: Entries<V>, k: string, v: V): (r: Result<Entries<V>>)
    ensures r.Err? <==> k in Keys(m)
    ensures r.Err? ==> r.error == DuplicateKey(k)
    ensures r.Ok? ==> r.value == m + [(k, v)] && Lookup(r.value, k) == Some(v)
    ensures r.Ok? ==> forall j :: j != k ==> Lookup(r.value, j) == Lookup(m, j)
    ensures r.Ok? && Distinct(m) ==> Distinct(r.value)
  {
    if Lookup(m, k).Some? then Err(DuplicateKey(k))
    else
      var r := m + [(k, v)];
      assert Keys(r) == Keys(m) + [k];
      AppendLookup(m, k, v);
      Ok(r)
  }

  lemma AppendLookup<V>(m: Entries<V>, k: string, v: V)
    requires k !in Keys(m)
    ensures Lookup(m + [(k, v)], k) == Some(v)
    ensures forall j :: j != k ==> Lookup(m + [(k, v)], j) == Lookup(m, j)
  {
    assert Put(m, k, v) == m + [(k, v)];
    forall j | j != k
      ensures Lookup(m + [(k, v)], j) == Lookup(m, j)
    {
      PutLookup(m, k, v, j);
    }
    PutLookup(m, k, v, k);
  }

  /** The value a sequence of assignments leaves for `k`: its last one. */
  function LastValue<V>(kvs: Entries<V>, k: string): Option<V>
    decreases |kvs|
  {
    if |kvs| == 0 then None
    else if kvs[|kvs| - 1].0 == k then Some(kvs[|kvs| - 1].1)
    else LastValue(kvs[..|kvs| - 1], k)
  }

  /** Assigning each pair in turn through the indexer, as a `foreach` over
      `SetParam` does. */
  function PutAll<V>(m: Entries<V>, kvs: Entries<V>): Entries<V>
    decreases |kvs|
  {
    if |kvs| == 0 then m else Put(PutAll(m, kvs[..|kvs| - 1]), kvs[|kvs| - 1].0, kvs[|kvs| - 1].1)
  }

  /** One more assignment of a batch. */
  lemma PutAllNext<V>(m: Entries<V>, kvs: Entries<V>, i: nat)
    requires i < |kvs|
    ensures PutAll(m, kvs[..i + 1]) == Put(PutAll(m, kvs[..i]), kvs[i].0, kvs[i].1)
  {
    assert kvs[..i + 1][..i] == kvs[..i];
  }

  /** After a batch of assignments every key holds the last value assigned
      to it in the batch, or its old value when the batch does not name it. */
  lemma {:induction false} PutAllLastWins<V>(m: Entries<V>, kvs: Entries<V>, k: string)
    ensures Lookup(PutAll(m, kvs), k) == match LastValue(kvs, k) case Some(v) => Some(v) case None => Lookup(m, k)
    decreases |kvs|
  {
    if |kvs| > 0 {
      PutAllLastWins(m, kvs[..|kvs| - 1], k);
      PutLookup(PutAll(m, kvs[..|kvs| - 1]), kvs[|kvs| - 1].0, kvs[|kvs| - 1].1, k);
    }
  }

  /** A batch of assignments keeps the dictionary free of duplicate keys. */
  lemma {:induction false} PutAllDistinct<V>(m: Entries<V>, kvs: Entries<V>)
    requires Distinct(m)
    ensures Distinct(PutAll(m, kvs))
    decreases |kvs|
  {
    if |kvs| > 0 {
      PutAllDistinct(m, kvs[..|kvs| - 1]);
    }
  }
}
