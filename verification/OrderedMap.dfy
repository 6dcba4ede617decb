/** Rust's `BTreeMap<String, V>` as the strictly sorted sequence its iterators
    walk. `Get` is the abstract view: a key to an optional value. */
module OrderedMap {
  import opened Wrappers
  import opened Lexicographic

  datatype Entry<+V> = Entry(key: string, value: V)

  predicate Sorted<V>(m: seq<Entry<V>>) {
    |m| <= 1 || (Less(m[0].key, m[1].key) && Sorted(m[1..]))
  }

  function Get<V>(m: seq<Entry<V>>, k: string): Option<V> {
    if m == [] then None
    else if m[0].key == k then Some(m[0].value)
    else Get(m[1..], k)
  }

  /** `BTreeMap::insert`: replaces the value of an existing key. */
  function Put<V>(m: seq<Entry<V>>, k: string, v: V): seq<Entry<V>> {
    if m == [] then [Entry(k, v)]
    else if m[0].key == k then [Entry(k, v)] + m[1..]
    else if Less(k, m[0].key) then [Entry(k, v)] + m
    else [m[0]] + Put(m[1..], k, v)
  }

  /** `BTreeMap::remove`. */
  function Remove<V>(m: seq<Entry<V>>, k: string): seq<Entry<V>> {
    if m == [] then []
    else if m[0].key == k then m[1..]
    else [m[0]] + Remove(m[1..], k)
  }

  /** `BTreeMap::values`, in key order. */
  function Values<V>(m: seq<Entry<V>>): (vs: seq<V>)
    ensures |vs| == |m|
    ensures forall i :: 0 <= i < |m| ==> vs[i] == m[i].value
  {
    if m == [] then [] else [m[0].value] + Values(m[1..])
  }

  lemma {:induction false} SortedPairs<V>(m: seq<Entry<V>>, i: nat, j: nat)
    requires Sorted(m) && i < j < |m|
    ensures Less(m[i].key, m[j].key)
  {
    if i > 0 {
      SortedPairs(m[1..], i - 1, j - 1);
    } else if j > 1 {
      SortedPairs(m[1..], 0, j - 1);
      Transitive(m[0].key, m[1].key, m[j].key);
    }
  }

  lemma {:induction false} SortedFromPairs<V>(m: seq<Entry<V>>)
    requires forall i, j :: 0 <= i < j < |m| ==> Less(m[i].key, m[j].key)
    ensures Sorted(m)
  {
    if |m| > 1 {
      SortedFromPairs(m[1..]);
    }
  }

  /** A key below the first one is absent. */
  lemma {:induction false} BelowHead<V>(m: seq<Entry<V>>, k: string)
    requires Sorted(m) && (m == [] || Less(k, m[0].key))
    ensures Get(m, k) == None
  {
    if m != [] {
      Asymmetric(k, m[0].key);
      if |m| > 1 {
        Transitive(k, m[0].key, m[1].key);
      }
      BelowHead(m[1..], k);
    }
  }

  lemma HeadNotInTail<V>(m: seq<Entry<V>>)
    requires Sorted(m) && m != []
    ensures Get(m[1..], m[0].key) == None
  {
    BelowHead(m[1..], m[0].key);
  }

  /** Every stored entry is what `Get` returns, and `Get` returns nothing else. */
  lemma {:induction false} GetAt<V>(m: seq<Entry<V>>, i: nat)
    requires Sorted(m) && i < |m|
    ensures Get(m, m[i].key) == Some(m[i].value)
  {
    if i > 0 {
      SortedPairs(m, 0, i);
      Asymmetric(m[0].key, m[i].key);
      GetAt(m[1..], i - 1);
    }
  }

  lemma {:induction false} GetFrom<V>(m: seq<Entry<V>>, k: string) returns (i: nat)
    requires Get(m, k).Some?
    ensures i < |m| && m[i] == Entry(k, Get(m, k).value)
  {
    if m[0].key == k {
      i := 0;
    } else {
      var j := GetFrom(m[1..], k);
      i := j + 1;
    }
  }

  lemma {:induction false} PutSorted<V>(m: seq<Entry<V>>, k: string, v: V)
    requires Sorted(m)
    ensures Sorted(Put(m, k, v))
  {
    if m != [] && m[0].key != k && !Less(k, m[0].key) {
      Total(k, m[0].key);
      PutSorted(m[1..], k, v);
    }
  }

  lemma {:induction false} GetPut<V>(m: seq<Entry<V>>, k: string, v: V, x: string)
    ensures Get(Put(m, k, v), x) == if x == k then Some(v) else Get(m, x)
  {
    if m != [] && m[0].key != k && !Less(k, m[0].key) {
      GetPut(m[1..], k, v, x);
    }
  }

  lemma {:induction false} RemoveSorted<V>(m: seq<Entry<V>>, k: string)
    requires Sorted(m)
    ensures Sorted(Remove(m, k))
    ensures forall x :: Get(Remove(m, k), x) == if x == k then None else Get(m, x)
  {
    if m != [] {
      HeadNotInTail(m);
      if m[0].key != k {
        RemoveSorted(m[1..], k);
        if |m| > 2 && m[1].key == k {
          Transitive(m[0].key, m[1].key, m[2].key);
        }
      }
    }
  }

  lemma {:induction false} RemoveAbsent<V>(m: seq<Entry<V>>, k: string)
    requires Get(m, k).None?
    ensures Remove(m, k) == m
  {
    if m != [] {
      RemoveAbsent(m[1..], k);
    }
  }

  /** The sorted form is canonical: equal views are equal maps. */
  lemma {:induction false} Canonical<V>(a: seq<Entry<V>>, b: seq<Entry<V>>)
    requires Sorted(a) && Sorted(b)
    requires forall k :: Get(a, k) == Get(b, k)
    ensures a == b
  {
    if a == [] || b == [] {
      if a != [] {
        assert Get(a, a[0].key) != Get(b, a[0].key);
      } else if b != [] {
        assert Get(a, b[0].key) != Get(b, b[0].key);
      }
    } else {
      var x, y := a[0].key, b[0].key;
      Total(x, y);
      assert Get(a, x) == Get(b, x) && Get(a, y) == Get(b, y);
      if Less(x, y) {
        BelowHead(b, x);
      } else if Less(y, x) {
        BelowHead(a, y);
      } else {
        HeadNotInTail(a);
        HeadNotInTail(b);
        forall k
          ensures Get(a[1..], k) == Get(b[1..], k)
        {
          assert Get(a, k) == Get(b, k);
        }
        Canonical(a[1..], b[1..]);
        assert a == [a[0]] + a[1..] && b == [b[0]] + b[1..];
      }
    }
  }

  /** An insertion adds one entry exactly when the key is new. */
  lemma {:induction false} PutSize<V>(m: seq<Entry<V>>, k: string, v: V)
    requires Sorted(m)
    ensures |Put(m, k, v)| == |m| + if Get(m, k).None? then 1 else 0
  {
    if m != [] {
      if m[0].key != k {
        if Less(k, m[0].key) {
          BelowHead(m, k);
        } else {
          PutSize(m[1..], k, v);
        }
      }
    }
  }
}
