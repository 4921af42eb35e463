/** The two list updates the client applies to keyed records:
    `list.filter(x => x.id !== k)` and
    `list.map(x => x.id === k ? f(x) : x)`. */
module Lists {

  /** `s.filter(x => key(x) !== k)`: every record with key `k` removed. */
  function Without<T, K(==)>(s: seq<T>, key: T -> K, k: K): (r: seq<T>)
    ensures |r| <= |s|
    ensures forall i :: 0 <= i < |r| ==> r[i] in s && key(r[i]) != k
    ensures forall i :: 0 <= i < |s| && key(s[i]) != k ==> s[i] in r
  {
    if s == [] then []
    else if key(s[0]) == k then Without(s[1..], key, k)
    else [s[0]] + Without(s[1..], key, k)
  }

  /** Removing distributes over concatenation: what is kept stays in the
      order it had. */
  lemma {:induction false} WithoutConcat<T, K>(s: seq<T>, t: seq<T>, key: T -> K, k: K)
    ensures Without(s + t, key, k) == Without(s, key, k) + Without(t, key, k)
  {
    if s == [] {
      assert s + t == t;
    } else {
      assert (s + t)[0] == s[0] && (s + t)[1..] == s[1..] + t;
      WithoutConcat(s[1..], t, key, k);
    }
  }

  /** A list without key `k` is left as it is. */
  lemma {:induction false} WithoutAbsent<T, K>(s: seq<T>, key: T -> K, k: K)
    requires forall i :: 0 <= i < |s| ==> key(s[i]) != k
    ensures Without(s, key, k) == s
  {
    if s != [] {
      WithoutAbsent(s[1..], key, k);
    }
  }

  /** Removing twice is removing once. */
  lemma WithoutIdempotent<T, K>(s: seq<T>, key: T -> K, k: K)
    ensures Without(Without(s, key, k), key, k) == Without(s, key, k)
  {
    var r := Without(s, key, k);
    WithoutAbsent(r, key, k);
  }

  /** How many records of `s` carry key `k`. */
  function CountKey<T, K(==)>(s: seq<T>, key: T -> K, k: K): (n: nat)
    ensures n <= |s|
  {
    if s == [] then 0 else (if key(s[0]) == k then 1 else 0) + CountKey(s[1..], key, k)
  }

  /** Exactly the records with key `k` are dropped. */
  lemma {:induction false} WithoutLength<T, K>(s: seq<T>, key: T -> K, k: K)
    ensures |Without(s, key, k)| == |s| - CountKey(s, key, k)
  {
    if s != [] {
      WithoutLength(s[1..], key, k);
    }
  }

  /** `s.map(x => key(x) === k ? f(x) : x)` */
  function UpdateWhere<T, K(==)>(s: seq<T>, key: T -> K, k: K, f: T -> T): (r: seq<T>)
    ensures |r| == |s|
    ensures forall i :: 0 <= i < |s| ==> r[i] == if key(s[i]) == k then f(s[i]) else s[i]
  {
    if s == [] then []
    else [if key(s[0]) == k then f(s[0]) else s[0]] + UpdateWhere(s[1..], key, k, f)
  }

  /** Updating a key that no record carries changes nothing. */
  lemma UpdateWhereAbsent<T, K>(s: seq<T>, key: T -> K, k: K, f: T -> T)
    requires forall i :: 0 <= i < |s| ==> key(s[i]) != k
    ensures UpdateWhere(s, key, k, f) == s
  {
    var r := UpdateWhere(s, key, k, f);
    assert forall i :: 0 <= i < |s| ==> r[i] == s[i];
  }
}
