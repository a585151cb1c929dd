/**
 * PHP arrays with string keys, as the persistence core uses them for column
 * maps, primary-key definitions and ids: an ordered list of key/value pairs
 * in which each key appears at most once.
 */
module PhpArrays {
  import opened Wrappers

  /** The keys, in array order (`array_keys`). */
  function Keys<V>(a: seq<(string, V)>): seq<string>
  {
    seq(|a|, i requires 0 <= i < |a| => a[i].0)
  }

  /** The values, in array order (`array_values`). */
  function ValuesOf<V>(a: seq<(string, V)>): seq<V>
  {
    seq(|a|, i requires 0 <= i < |a| => a[i].1)
  }

  predicate Distinct(ks: seq<string>)
  {
    forall i, j :: 0 <= i < j < |ks| ==> ks[i] != ks[j]
  }

  predicate DistinctKeys<V>(a: seq<(string, V)>)
  {
    forall i, j :: 0 <= i < j < |a| ==> a[i].0 != a[j].0
  }

  /** A PHP array: the language never stores a key twice. */
  type PhpArray<V> = a: seq<(string, V)> | DistinctKeys(a) witness []

  /** `$a[$k]`, when the key is present. */
  function Get<V>(a: seq<(string, V)>, k: string): (r: Option<V>)
    ensures r.Some? <==> k in Keys(a)
    ensures r.Some? ==> (k, r.value) in a
  {
    if a == [] then None
    else if a[0].0 == k then assert Keys(a)[0] == k; Some(a[0].1)
    else assert Keys(a) == [a[0].0] + Keys(a[1..]); Get(a[1..], k)
  }

  /** With distinct keys, the entry stored under a key is the one found. */
  lemma {:induction false} GetAt<V>(a: PhpArray<V>, i: nat)
    requires i < |a|
    ensures Get(a, a[i].0) == Some(a[i].1)
  {
    if i > 0 {
      var tail: PhpArray<V> := a[1..];
      GetAt(tail, i - 1);
    }
  }

  /** A pair is in the array exactly when Get finds its value under its key. */
  lemma GetIffIn<V>(a: PhpArray<V>, k: string, v: V)
    ensures Get(a, k) == Some(v) <==> (k, v) in a
  {
    if (k, v) in a {
      var i :| 0 <= i < |a| && a[i] == (k, v);
      GetAt(a, i);
    }
  }

  /** The entries whose key is not among `ks`, in array order (repeated `unset`). */
  function Without<V>(a: seq<(string, V)>, ks: seq<string>): (r: seq<(string, V)>)
    ensures forall i :: 0 <= i < |r| ==> r[i] in a && r[i].0 !in ks
    ensures forall i :: 0 <= i < |a| && a[i].0 !in ks ==> a[i] in r
    ensures |r| <= |a|
  {
    if a == [] then []
    else (if a[0].0 in ks then [] else [a[0]]) + Without(a[1..], ks)
  }

  lemma {:induction false} WithoutKeepsDistinct<V>(a: seq<(string, V)>, ks: seq<string>)
    requires DistinctKeys(a)
    ensures DistinctKeys(Without(a, ks))
  {
    if a != [] {
      WithoutKeepsDistinct(a[1..], ks);
      var rest := Without(a[1..], ks);
      forall i | 0 <= i < |rest| ensures rest[i].0 != a[0].0 {
        var j :| 0 <= j < |a[1..]| && a[1..][j] == rest[i];
        assert a[j + 1] == rest[i];
      }
    }
  }

  /** The keys of a PHP array are pairwise different. */
  lemma KeysDistinct<V>(a: seq<(string, V)>)
    requires DistinctKeys(a)
    ensures Distinct(Keys(a))
  {
    forall i, j | 0 <= i < j < |a| ensures Keys(a)[i] != Keys(a)[j] {
      assert Keys(a)[i] == a[i].0 && Keys(a)[j] == a[j].0;
    }
  }

  /** Removing `ks` and then `k` is removing `ks + [k]`. */
  lemma {:induction false} WithoutStep<V>(a: seq<(string, V)>, ks: seq<string>, k: string)
    ensures Without(Without(a, ks), [k]) == Without(a, ks + [k])
  {
    if a != [] {
      WithoutStep(a[1..], ks, k);
      var head := if a[0].0 in ks then [] else [a[0]];
      assert Without(a, ks) == head + Without(a[1..], ks);
      WithoutAppend(head, Without(a[1..], ks), [k]);
    }
  }

  lemma {:induction false} WithoutAppend<V>(a: seq<(string, V)>, b: seq<(string, V)>, ks: seq<string>)
    ensures Without(a + b, ks) == Without(a, ks) + Without(b, ks)
  {
    if a != [] {
      assert (a + b)[1..] == a[1..] + b;
      WithoutAppend(a[1..], b, ks);
    } else {
      assert a + b == b;
    }
  }

  lemma {:induction false} WithoutNothing<V>(a: seq<(string, V)>)
    ensures Without(a, []) == a
  {
    if a != [] {
      WithoutNothing(a[1..]);
      assert a == [a[0]] + a[1..];
    }
  }

  lemma PrefixStep(ks: seq<string>, i: nat)
    requires i < |ks|
    ensures ks[..i + 1] == ks[..i] + [ks[i]]
  {
  }

  /** Removing other keys does not change what a key maps to. */
  lemma {:induction false} GetWithout<V>(a: seq<(string, V)>, ks: seq<string>, k: string)
    requires k !in ks
    ensures Get(Without(a, ks), k) == Get(a, k)
  {
    if a != [] {
      GetWithout(a[1..], ks, k);
      var rest := Without(a[1..], ks);
      if a[0].0 in ks {
        assert Without(a, ks) == rest;
        assert Get(a, k) == Get(a[1..], k);
      } else {
        var w := [a[0]] + rest;
        assert Without(a, ks) == w;
        assert w[0] == a[0] && w[1..] == rest;
        if a[0].0 != k {
          assert Get(w, k) == Get(rest, k);
          assert Get(a, k) == Get(a[1..], k);
        }
      }
    }
  }

  /** The entries whose key is among `ks`, in array order (`array_intersect_key`). */
  function Only<V>(a: seq<(string, V)>, ks: seq<string>): (r: seq<(string, V)>)
    ensures forall i :: 0 <= i < |r| ==> r[i] in a && r[i].0 in ks
    ensures forall i :: 0 <= i < |a| && a[i].0 in ks ==> a[i] in r
    ensures |r| <= |a|
  {
    if a == [] then []
    else (if a[0].0 in ks then [a[0]] else []) + Only(a[1..], ks)
  }

  lemma {:induction false} OnlyKeepsDistinct<V>(a: seq<(string, V)>, ks: seq<string>)
    requires DistinctKeys(a)
    ensures DistinctKeys(Only(a, ks))
  {
    if a != [] {
      OnlyKeepsDistinct(a[1..], ks);
      var rest := Only(a[1..], ks);
      forall i | 0 <= i < |rest| ensures rest[i].0 != a[0].0 {
        var j :| 0 <= j < |a[1..]| && a[1..][j] == rest[i];
        assert a[j + 1] == rest[i];
      }
    }
  }

  /** Every entry lands in exactly one of the two parts. */
  lemma {:induction false} WithoutOnlySplit<V>(a: seq<(string, V)>, ks: seq<string>)
    ensures |Without(a, ks)| + |Only(a, ks)| == |a|
  {
    if a != [] {
      WithoutOnlySplit(a[1..], ks);
    }
  }

  /** The names not among `ks`, in order. */
  function Exclude(cs: seq<string>, ks: seq<string>): (r: seq<string>)
    ensures forall c :: c in r <==> c in cs && c !in ks
  {
    if cs == [] then []
    else
      assert forall c :: c in cs <==> c == cs[0] || c in cs[1..];
      (if cs[0] in ks then [] else [cs[0]]) + Exclude(cs[1..], ks)
  }

  /** `x` is `y` with some elements dropped: the order of what is kept is unchanged. */
  predicate SubSeq<T(==)>(x: seq<T>, y: seq<T>)
    decreases |y|
  {
    if x == [] then true
    else if y == [] then false
    else (x[0] == y[0] && SubSeq(x[1..], y[1..])) || SubSeq(x, y[1..])
  }

  /** Whatever is kept from the tail is kept from the whole: `x` may skip the head of `y`. */
  lemma {:induction false} SubSeqSkip<T>(x: seq<T>, y: seq<T>)
    requires y != [] && SubSeq(x, y[1..])
    ensures SubSeq(x, y) && SubSeq([y[0]] + x, y)
  {
    assert ([y[0]] + x)[1..] == x;
  }

  /** Dropping keys keeps the order of the rest. */
  lemma {:induction false} ExcludeInOrder(cs: seq<string>, ks: seq<string>)
    ensures SubSeq(Exclude(cs, ks), cs)
  {
    if cs != [] {
      ExcludeInOrder(cs[1..], ks);
      var rest := Exclude(cs[1..], ks);
      SubSeqSkip(rest, cs);
      if cs[0] in ks {
        assert Exclude(cs, ks) == rest;
      } else {
        assert Exclude(cs, ks) == [cs[0]] + rest;
      }
    }
  }

  lemma {:induction false} KeysWithout<V>(a: seq<(string, V)>, ks: seq<string>)
    ensures Keys(Without(a, ks)) == Exclude(Keys(a), ks)
  {
    if a != [] {
      KeysWithout(a[1..], ks);
      var rest := Without(a[1..], ks);
      assert Keys(a)[1..] == Keys(a[1..]);
      if a[0].0 in ks {
        assert Without(a, ks) == rest;
      } else {
        KeysAppend([a[0]], rest);
      }
    }
  }

  lemma KeysAppend<V>(x: seq<(string, V)>, y: seq<(string, V)>)
    ensures Keys(x + y) == Keys(x) + Keys(y)
  {
  }

  lemma {:induction false} WithoutInOrder<V>(a: seq<(string, V)>, ks: seq<string>)
    ensures SubSeq(Keys(Without(a, ks)), Keys(a))
  {
    if a != [] {
      WithoutInOrder(a[1..], ks);
      var r := Without(a, ks);
      var rest := Without(a[1..], ks);
      assert Keys(a)[1..] == Keys(a[1..]);
      if a[0].0 !in ks {
        assert r == [a[0]] + rest;
        assert Keys(r)[1..] == Keys(rest);
      } else {
        assert r == rest;
      }
    }
  }

  lemma {:induction false} OnlyInOrder<V>(a: seq<(string, V)>, ks: seq<string>)
    ensures SubSeq(Keys(Only(a, ks)), Keys(a))
  {
    if a != [] {
      OnlyInOrder(a[1..], ks);
      var r := Only(a, ks);
      var rest := Only(a[1..], ks);
      assert Keys(a)[1..] == Keys(a[1..]);
      if a[0].0 in ks {
        assert r == [a[0]] + rest;
        assert Keys(r)[1..] == Keys(rest);
      } else {
        assert r == rest;
      }
    }
  }

  lemma KeysOnlyMembership<V>(a: seq<(string, V)>, ks: seq<string>)
    ensures forall c :: c in Keys(Only(a, ks)) <==> c in Keys(a) && c in ks
  {
    var r := Only(a, ks);
    forall c | c in Keys(a) && c in ks
      ensures c in Keys(r)
    {
      var i :| 0 <= i < |a| && a[i].0 == c;
      var j :| 0 <= j < |r| && r[j] == a[i];
      assert Keys(r)[j] == c;
    }
    forall c | c in Keys(r)
      ensures c in Keys(a) && c in ks
    {
      var j :| 0 <= j < |r| && r[j].0 == c;
      var i :| 0 <= i < |a| && a[i] == r[j];
      assert Keys(a)[i] == c;
    }
  }
}
