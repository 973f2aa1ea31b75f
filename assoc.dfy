/**
 * Records keyed by strings whose keys keep insertion order: the plain
 * objects (`{ ...topicSkills, [key]: value }`) and `Map`s the site builds.
 */
module Assoc {
  import opened Optional

  function Keys<V>(m: seq<(string, V)>): (ks: seq<string>)
    ensures |ks| == |m|
    ensures forall i :: 0 <= i < |m| ==> ks[i] == m[i].0
  {
    if m == [] then [] else [m[0].0] + Keys(m[1..])
  }

  predicate DistinctKeys<V>(m: seq<(string, V)>) {
    forall i, j :: 0 <= i < j < |m| ==> m[i].0 != m[j].0
  }

  /** The value stored under `k`, if any. */
  function Find<V>(m: seq<(string, V)>, k: string): (r: Option<V>)
    ensures r.None? <==> k !in Keys(m)
    ensures r.Some? ==> exists i :: 0 <= i < |m| && m[i] == (k, r.value)
  {
    if m == [] then None
    else if m[0].0 == k then Some(m[0].1)
    else Find(m[1..], k)
  }

  /** `m[k] = v`: the value of an existing key is replaced where it stands, a new key goes last. */
  function Put<V>(m: seq<(string, V)>, k: string, v: V): (r: seq<(string, V)>)
    ensures k in Keys(m) ==> |r| == |m|
    ensures k !in Keys(m) ==> |r| == |m| + 1
  {
    if m == [] then [(k, v)]
    else if m[0].0 == k then [(k, v)] + m[1..]
    else [m[0]] + Put(m[1..], k, v)
  }

  /** `delete m[k]`. */
  function Remove<V>(m: seq<(string, V)>, k: string): (r: seq<(string, V)>)
    ensures |r| <= |m|
    ensures k !in Keys(r)
  {
    if m == [] then []
    else if m[0].0 == k then Remove(m[1..], k)
    else [m[0]] + Remove(m[1..], k)
  }

  function Values<V>(m: seq<(string, V)>): (vs: seq<V>)
    ensures |vs| == |m|
    ensures forall i :: 0 <= i < |m| ==> vs[i] == m[i].1
  {
    if m == [] then [] else [m[0].1] + Values(m[1..])
  }

  /** After `m[k] = v`, reading `k` gives `v`. */
  lemma {:induction false} FindPutSame<V>(m: seq<(string, V)>, k: string, v: V)
    ensures Find(Put(m, k, v), k) == Some(v)
  {
    if m != [] && m[0].0 != k {
      FindPutSame(m[1..], k, v);
    }
  }

  /** After `m[k] = v`, every other key reads as before. */
  lemma {:induction false} FindPutOther<V>(m: seq<(string, V)>, k: string, v: V, other: string)
    requires other != k
    ensures Find(Put(m, k, v), other) == Find(m, other)
  {
    if m != [] && m[0].0 != k {
      FindPutOther(m[1..], k, v, other);
    }
  }

  /** The keys after `m[k] = v` are the old keys, plus `k`. */
  lemma {:induction false} KeysPut<V>(m: seq<(string, V)>, k: string, v: V)
    ensures forall x :: x in Keys(Put(m, k, v)) <==> x in Keys(m) || x == k
  {
    if m != [] && m[0].0 != k {
      KeysPut(m[1..], k, v);
      assert Keys(Put(m, k, v)) == [m[0].0] + Keys(Put(m[1..], k, v));
      assert Keys(m) == [m[0].0] + Keys(m[1..]);
    } else if m != [] {
      assert Keys(Put(m, k, v)) == [k] + Keys(m[1..]);
      assert Keys(m) == [k] + Keys(m[1..]);
    }
  }

  lemma {:induction false} PutKeepsDistinct<V>(m: seq<(string, V)>, k: string, v: V)
    requires DistinctKeys(m)
    ensures DistinctKeys(Put(m, k, v))
  {
    if m != [] && m[0].0 != k {
      PutKeepsDistinct(m[1..], k, v);
      KeysPut(m[1..], k, v);
      var r := Put(m, k, v);
      forall j | 0 < j < |r|
        ensures r[0].0 != r[j].0
      {
        assert r[j].0 in Keys(Put(m[1..], k, v));
      }
    }
  }

  /** After `delete m[k]`, every other key reads as before. */
  lemma {:induction false} FindRemoveOther<V>(m: seq<(string, V)>, k: string, other: string)
    requires other != k
    ensures Find(Remove(m, k), other) == Find(m, other)
  {
    if m != [] {
      FindRemoveOther(m[1..], k, other);
    }
  }

  /** Deleting a key drops keys and adds none. */
  lemma {:induction false} KeysRemove<V>(m: seq<(string, V)>, k: string)
    ensures forall x :: x in Keys(Remove(m, k)) ==> x in Keys(m)
  {
    if m != [] {
      KeysRemove(m[1..], k);
      assert Keys(m) == [m[0].0] + Keys(m[1..]);
      if m[0].0 != k {
        assert Keys(Remove(m, k)) == [m[0].0] + Keys(Remove(m[1..], k));
      }
    }
  }

  lemma {:induction false} RemoveKeepsDistinct<V>(m: seq<(string, V)>, k: string)
    requires DistinctKeys(m)
    ensures DistinctKeys(Remove(m, k))
  {
    if m != [] {
      RemoveKeepsDistinct(m[1..], k);
      if m[0].0 != k {
        KeysRemove(m[1..], k);
        var r := Remove(m, k);
        forall j | 0 < j < |r|
          ensures r[0].0 != r[j].0
        {
          assert r[j].0 in Keys(Remove(m[1..], k));
          assert r[j].0 in Keys(m[1..]);
        }
      }
    }
  }

  /** Deleting a key that was just added gives the old record back. */
  lemma {:induction false} RemovePutNew<V>(m: seq<(string, V)>, k: string, v: V)
    requires k !in Keys(m)
    ensures Remove(Put(m, k, v), k) == m
  {
    if m != [] {
      assert Keys(m) == [m[0].0] + Keys(m[1..]);
      RemovePutNew(m[1..], k, v);
    }
  }

  /** A second write to a key overrides the first. */
  lemma {:induction false} PutPut<V>(m: seq<(string, V)>, k: string, v1: V, v2: V)
    ensures Put(Put(m, k, v1), k, v2) == Put(m, k, v2)
  {
    if m != [] && m[0].0 != k {
      PutPut(m[1..], k, v1, v2);
    }
  }

  /** Writing back the value a key holds changes nothing. */
  lemma {:induction false} PutFound<V>(m: seq<(string, V)>, k: string)
    requires Find(m, k).Some?
    ensures Put(m, k, Find(m, k).value) == m
  {
    if m[0].0 != k {
      PutFound(m[1..], k);
    }
  }

  /** Every entry after `m[k] = v` is the new one or an old one. */
  lemma {:induction false} PutEntries<V>(m: seq<(string, V)>, k: string, v: V)
    ensures forall e :: e in Put(m, k, v) ==> e == (k, v) || e in m
  {
    if m != [] && m[0].0 != k {
      PutEntries(m[1..], k, v);
    }
  }

  /** Every entry after `delete m[k]` is an old one. */
  lemma {:induction false} RemoveEntries<V>(m: seq<(string, V)>, k: string)
    ensures forall e :: e in Remove(m, k) ==> e in m
  {
    if m != [] {
      RemoveEntries(m[1..], k);
    }
  }

  // ---------------------------------------------------------------- counters

  /** The sum of the counts in a counter map. */
  function Total(m: seq<(string, int)>): int {
    if m == [] then 0 else m[0].1 + Total(m[1..])
  }

  /** `m.set(k, (m.get(k) || 0) + 1)`. */
  function Bump(m: seq<(string, int)>, k: string): seq<(string, int)> {
    Put(m, k, (match Find(m, k) case Some(n) => n case None => 0) + 1)
  }

  /** Bumping a key adds exactly one to the total, whether the key was there or not. */
  lemma {:induction false} TotalBump(m: seq<(string, int)>, k: string)
    ensures Total(Bump(m, k)) == Total(m) + 1
  {
    if m != [] && m[0].0 != k {
      TotalBump(m[1..], k);
      assert Bump(m, k) == [m[0]] + Bump(m[1..], k);
    }
  }

  /** Bumping a key raises its count by one and leaves every other count alone. */
  lemma BumpFind(m: seq<(string, int)>, k: string, other: string)
    ensures Find(Bump(m, k), k) == Some((match Find(m, k) case Some(n) => n case None => 0) + 1)
    ensures other != k ==> Find(Bump(m, k), other) == Find(m, other)
  {
    FindPutSame(m, k, (match Find(m, k) case Some(n) => n case None => 0) + 1);
    if other != k {
      FindPutOther(m, k, (match Find(m, k) case Some(n) => n case None => 0) + 1, other);
    }
  }
}
