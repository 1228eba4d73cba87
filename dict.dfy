/**
 * A JavaScript object used as a dictionary from keys to counts, held as
 * its entries in enumeration order (`Object.entries`): no key twice;
 * assigning a new key appends it, assigning an existing key keeps its
 * place, `delete` drops it.
 */
module Dict {

  type Entries<K> = seq<(K, int)>

  predicate DistinctKeys<K(==,!new)>(d: Entries<K>) {
    forall i, j :: 0 <= i < j < |d| ==> d[i].0 != d[j].0
  }

  predicate HasKey<K(==,!new)>(d: Entries<K>, k: K) {
    exists i :: 0 <= i < |d| && d[i].0 == k
  }

  /** `d[k] || 0`. */
  function Get<K(==,!new)>(d: Entries<K>, k: K): (v: int)
    ensures !HasKey(d, k) ==> v == 0
    ensures forall i :: 0 <= i < |d| && d[i].0 == k && (forall j :: 0 <= j < i ==> d[j].0 != k) ==> v == d[i].1
  {
    if d == [] then 0 else if d[0].0 == k then d[0].1 else Get(d[1..], k)
  }

  /** `d[k] = v`. */
  function Put<K(==,!new)>(d: Entries<K>, k: K, v: int): (r: Entries<K>)
    requires DistinctKeys(d)
    ensures DistinctKeys(r)
    ensures Get(r, k) == v && HasKey(r, k)
    ensures forall x :: x != k ==> Get(r, x) == Get(d, x) && (HasKey(r, x) <==> HasKey(d, x))
    ensures HasKey(d, k) ==> |r| == |d|
    ensures !HasKey(d, k) ==> r == d + [(k, v)]
  {
    if d == [] then [(k, v)]
    else
      Uncons(d);
      if d[0].0 == k then
        Cons((k, v), d[1..]);
        [(k, v)] + d[1..]
      else
        var rest := Put(d[1..], k, v);
        Cons(d[0], rest);
        ConsSnoc(d, (k, v));
        [d[0]] + rest
  }

  /** `delete d[k]`. */
  function Remove<K(==,!new)>(d: Entries<K>, k: K): (r: Entries<K>)
    requires DistinctKeys(d)
    ensures DistinctKeys(r)
    ensures !HasKey(r, k) && Get(r, k) == 0
    ensures forall x :: x != k ==> Get(r, x) == Get(d, x) && (HasKey(r, x) <==> HasKey(d, x))
  {
    if d == [] then []
    else
      Uncons(d);
      var rest := Remove(d[1..], k);
      if d[0].0 == k then rest
      else
        Cons(d[0], rest);
        [d[0]] + rest
  }

  /** A non-empty dictionary is its first entry followed by a dictionary without that key. */
  lemma Uncons<K(!new)>(d: Entries<K>)
    requires DistinctKeys(d) && d != []
    ensures DistinctKeys(d[1..]) && !HasKey(d[1..], d[0].0)
    ensures forall x :: HasKey(d, x) <==> x == d[0].0 || HasKey(d[1..], x)
    ensures forall x :: Get(d, x) == if x == d[0].0 then d[0].1 else Get(d[1..], x)
  {
    forall x | HasKey(d, x) ensures x == d[0].0 || HasKey(d[1..], x) {
      var i :| 0 <= i < |d| && d[i].0 == x;
      if i > 0 { assert d[1..][i - 1] == d[i]; }
    }
    forall x | HasKey(d[1..], x) ensures HasKey(d, x) && x != d[0].0 {
      var i :| 0 <= i < |d[1..]| && d[1..][i].0 == x;
      assert d[i + 1] == d[1..][i];
    }
  }

  /** The first element, then the rest with `t` appended, is the whole with `t` appended. */
  lemma ConsSnoc<T>(d: seq<T>, t: T)
    requires d != []
    ensures [d[0]] + (d[1..] + [t]) == d + [t]
  {
    var a, b := [d[0]] + (d[1..] + [t]), d + [t];
    forall i | 0 <= i < |a| ensures a[i] == b[i] {
      if 0 < i < |d| { assert a[i] == d[1..][i - 1]; }
    }
  }

  /** Putting an entry in front of a dictionary without its key. */
  lemma Cons<K(!new)>(e: (K, int), rest: Entries<K>)
    requires DistinctKeys(rest) && !HasKey(rest, e.0)
    ensures ([e] + rest)[1..] == rest
    ensures DistinctKeys([e] + rest)
    ensures forall x :: HasKey([e] + rest, x) <==> x == e.0 || HasKey(rest, x)
    ensures forall x :: Get([e] + rest, x) == if x == e.0 then e.1 else Get(rest, x)
  {
    var r := [e] + rest;
    assert r[1..] == rest;
    forall i, j | 0 <= i < j < |r| ensures r[i].0 != r[j].0 {
      assert r[j] == rest[j - 1];
      if i > 0 { assert r[i] == rest[i - 1]; }
    }
    forall x | HasKey(rest, x) ensures HasKey(r, x) {
      var i :| 0 <= i < |rest| && rest[i].0 == x;
      assert r[i + 1] == rest[i];
    }
    forall x | HasKey(r, x) ensures x == e.0 || HasKey(rest, x) {
      var i :| 0 <= i < |r| && r[i].0 == x;
      if i > 0 { assert r[i] == rest[i - 1]; }
    }
    forall x ensures Get(r, x) == if x == e.0 then e.1 else Get(rest, x) {
      assert r[0] == e;
    }
  }

  /** The sum of the counts (`entries.reduce((sum, [, qty]) => sum + qty, 0)`). */
  function Total<K(==,!new)>(d: Entries<K>): int {
    if d == [] then 0 else d[0].1 + Total(d[1..])
  }

  predicate AllPositive<K(==,!new)>(d: Entries<K>) {
    forall i :: 0 <= i < |d| ==> d[i].1 > 0
  }

  /** Setting a key changes the total by the difference of the new and the old count. */
  lemma {:induction false} TotalPut<K(!new)>(d: Entries<K>, k: K, v: int)
    requires DistinctKeys(d)
    ensures Total(Put(d, k, v)) == Total(d) - Get(d, k) + v
    decreases |d|
  {
    if d == [] {
    } else if d[0].0 == k {
      assert ([(k, v)] + d[1..])[1..] == d[1..];
    } else {
      TotalPut(d[1..], k, v);
      assert ([d[0]] + Put(d[1..], k, v))[1..] == Put(d[1..], k, v);
    }
  }

  /** Deleting a key takes its count off the total. */
  lemma {:induction false} TotalRemove<K(!new)>(d: Entries<K>, k: K)
    requires DistinctKeys(d)
    ensures Total(Remove(d, k)) == Total(d) - Get(d, k)
    decreases |d|
  {
    if d == [] {
    } else {
      TotalRemove(d[1..], k);
      if d[0].0 == k {
        assert Get(d[1..], k) == 0 by {
          assert !HasKey(d[1..], k) by {
            forall i | 0 <= i < |d[1..]| ensures d[1..][i].0 != k {
              assert d[1..][i] == d[i + 1];
            }
          }
        }
      } else {
        assert ([d[0]] + Remove(d[1..], k))[1..] == Remove(d[1..], k);
      }
    }
  }

  /** Counts that are all positive add up to a positive total exactly when there is an entry. */
  lemma {:induction false} PositiveTotal<K(!new)>(d: Entries<K>)
    requires AllPositive(d)
    ensures Total(d) >= |d|
    ensures Total(d) > 0 <==> d != []
    decreases |d|
  {
    if d != [] {
      assert AllPositive(d[1..]) by {
        forall i | 0 <= i < |d[1..]| ensures d[1..][i].1 > 0 {
          assert d[1..][i] == d[i + 1];
        }
      }
      PositiveTotal(d[1..]);
    }
  }

  /** A key's count, when the key is present, is one of the entries. */
  lemma GetPresent<K(!new)>(d: Entries<K>, i: int)
    requires DistinctKeys(d) && 0 <= i < |d|
    ensures Get(d, d[i].0) == d[i].1
  {
  }
}
