/** The runtime's Map: entries in the order their keys were first set. */
module OrderedMap {
  import opened Basics

  function Drop<K(==)>(s: seq<K>, k: K): seq<K> {
    var i := Find(s, k);
    if i == -1 then s else s[..i] + s[i + 1..]
  }

  /** The place an element of the shortened sequence had before. */
  function Before(p: int, n: int): int {
    if p >= 0 && n >= p then n + 1 else n
  }

  lemma DropAt<K>(s: seq<K>, k: K, n: int)
    requires 0 <= n < |Drop(s, k)|
    ensures 0 <= Before(Find(s, k), n) < |s| && Drop(s, k)[n] == s[Before(Find(s, k), n)]
    ensures |Drop(s, k)| == if Find(s, k) == -1 then |s| else |s| - 1
  {
    hide Find;
    var i := Find(s, k);
    if i >= 0 {
      assert |s[..i]| == i && |s[i + 1..]| == |s| - i - 1;
      assert n < i ==> Drop(s, k)[n] == s[..i][n];
      assert n >= i ==> Drop(s, k)[n] == s[i + 1..][n - i];
    }
  }

  lemma FindAt<K(!new)>(s: seq<K>, n: int)
    requires Distinct(s) && 0 <= n < |s|
    ensures Find(s, s[n]) == n
  {
    var j := Find(s, s[n]);
  }

  lemma DropDistinct<K(!new)>(s: seq<K>, k: K)
    requires Distinct(s)
    ensures Distinct(Drop(s, k)) && k !in Drop(s, k)
    ensures forall x :: x in Drop(s, k) <==> x in s && x != k
    ensures k in s ==> |Drop(s, k)| == |s| - 1
  {
    var i := Find(s, k);
    if i >= 0 {
      forall x | x in s && x != k ensures x in Drop(s, k) {
        var j :| 0 <= j < |s| && s[j] == x;
        assert if j < i then Drop(s, k)[j] == x else Drop(s, k)[j - 1] == x;
      }
    }
  }

  datatype OMap<K, V> = OMap(keys: seq<K>, vals: map<K, V>)

  ghost predicate Wf<K(!new), V>(m: OMap<K, V>) {
    Distinct(m.keys) && forall k :: k in m.vals <==> k in m.keys
  }

  function Put<K(==), V>(m: OMap<K, V>, k: K, v: V): OMap<K, V> {
    OMap(if k in m.vals then m.keys else m.keys + [k], m.vals[k := v])
  }

  function Delete<K(==), V>(m: OMap<K, V>, k: K): OMap<K, V> {
    OMap(Drop(m.keys, k), m.vals - {k})
  }

  lemma PutWf<K(!new), V>(m: OMap<K, V>, k: K, v: V)
    requires Wf(m)
    ensures Wf(Put(m, k, v))
  {
  }

  lemma DeleteWf<K(!new), V>(m: OMap<K, V>, k: K)
    requires Wf(m)
    ensures Wf(Delete(m, k))
  {
    DropDistinct(m.keys, k);
  }

  /** Distinct members of a set are no more than the set has. */
  lemma {:induction false} DistinctCount<K(!new)>(s: seq<K>, all: set<K>)
    requires Distinct(s) && forall k :: k in s ==> k in all
    ensures |s| <= |all|
    decreases |s|
  {
    if s != [] {
      DistinctCount(s[1..], all - {s[0]});
    }
  }
}
