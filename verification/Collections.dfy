/** Facts about sequences that several components share: a stable sort by key
    (the `sort_by_key` of the bots), and sums over sequences. */
module Collections {

  datatype Option<+T> = None | Some(value: T)

  datatype Result<+T, +E> = Ok(value: T) | Err(error: E)

  // ---------- Stable sort ----------

  function InsertByKey<T>(x: T, s: seq<T>, key: T -> int): seq<T> {
    if s == [] || key(x) <= key(s[0]) then [x] + s else [s[0]] + InsertByKey(x, s[1..], key)
  }

  /** A stable sort: an element stays ahead of the later elements with the same key. */
  function SortByKey<T>(s: seq<T>, key: T -> int): seq<T> {
    if s == [] then [] else InsertByKey(s[0], SortByKey(s[1..], key), key)
  }

  ghost predicate SortedByKey<T>(s: seq<T>, key: T -> int) {
    forall i, j :: 0 <= i < j < |s| ==> key(s[i]) <= key(s[j])
  }

  lemma {:induction false} InsertByKeyMultiset<T>(x: T, s: seq<T>, key: T -> int)
    ensures multiset(InsertByKey(x, s, key)) == multiset([x]) + multiset(s)
  {
    if s == [] || key(x) <= key(s[0]) {
    } else {
      InsertByKeyMultiset(x, s[1..], key);
      assert s == [s[0]] + s[1..];
    }
  }

  lemma {:induction false} InsertByKeySorted<T>(x: T, s: seq<T>, key: T -> int, low: int)
    requires SortedByKey(s, key)
    requires low <= key(x) && forall i :: 0 <= i < |s| ==> low <= key(s[i])
    ensures SortedByKey(InsertByKey(x, s, key), key)
    ensures forall y :: y in InsertByKey(x, s, key) ==> low <= key(y)
  {
    if s == [] || key(x) <= key(s[0]) {
    } else {
      InsertByKeySorted(x, s[1..], key, key(s[0]));
    }
  }

  /** The sort rearranges its input, losing and inventing nothing. */
  lemma {:induction false} SortByKeyProperties<T>(s: seq<T>, key: T -> int)
    ensures SortedByKey(SortByKey(s, key), key)
    ensures multiset(SortByKey(s, key)) == multiset(s)
    ensures |SortByKey(s, key)| == |s|
  {
    if s == [] {
    } else {
      SortByKeyProperties(s[1..], key);
      var rest := SortByKey(s[1..], key);
      InsertByKeyMultiset(s[0], rest, key);
      InsertByKeySorted(s[0], rest, key, if rest == [] || key(s[0]) <= key(rest[0]) then key(s[0]) else key(rest[0]));
      assert s == [s[0]] + s[1..];
    }
    assert |multiset(SortByKey(s, key))| == |multiset(s)|;
  }

  /** The elements with this key, in their order. */
  function WithKey<T>(s: seq<T>, key: T -> int, k: int): seq<T> {
    if s == [] then [] else (if key(s[0]) == k then [s[0]] else []) + WithKey(s[1..], key, k)
  }

  lemma {:induction false} InsertKeepsOrder<T>(x: T, s: seq<T>, key: T -> int, k: int)
    requires SortedByKey(s, key)
    ensures WithKey(InsertByKey(x, s, key), key, k) == (if key(x) == k then [x] else []) + WithKey(s, key, k)
  {
    if s == [] || key(x) <= key(s[0]) {
      assert ([x] + s)[1..] == s;
    } else {
      InsertKeepsOrder(x, s[1..], key, k);
      assert ([s[0]] + InsertByKey(x, s[1..], key))[1..] == InsertByKey(x, s[1..], key);
    }
  }

  /** Elements with the same key keep their order. */
  lemma {:induction false} SortIsStable<T>(s: seq<T>, key: T -> int, k: int)
    ensures WithKey(SortByKey(s, key), key, k) == WithKey(s, key, k)
  {
    if s != [] {
      SortIsStable(s[1..], key, k);
      SortByKeyProperties(s[1..], key);
      InsertKeepsOrder(s[0], SortByKey(s[1..], key), key, k);
    }
  }

  lemma {:induction false} SortOfSorted<T>(s: seq<T>, key: T -> int)
    requires SortedByKey(s, key)
    ensures SortByKey(s, key) == s
  {
    if s != [] {
      SortOfSorted(s[1..], key);
      assert s == [s[0]] + s[1..];
    }
  }

  /** Membership only depends on the multiset of elements. */
  lemma SameElements<T>(s: seq<T>, t: seq<T>)
    requires multiset(s) <= multiset(t)
    ensures forall x :: x in s ==> x in t
  {
    forall x | x in s
      ensures x in t
    {
      assert x in multiset(s);
      assert x in multiset(t);
    }
  }

  // ---------- Removing one element of a sequence ----------

  function RemoveAt<T>(s: seq<T>, i: nat): (r: seq<T>)
    requires i < |s|
    ensures |r| == |s| - 1
  {
    s[..i] + s[i + 1..]
  }

  lemma RemoveAtMultiset<T>(s: seq<T>, i: nat)
    requires i < |s|
    ensures multiset(s) == multiset(RemoveAt(s, i)) + multiset{s[i]}
  {
    assert s == s[..i] + [s[i]] + s[i + 1..];
  }

  lemma LastMultiset<T>(s: seq<T>)
    requires s != []
    ensures multiset(s) == multiset(s[..|s| - 1]) + multiset{s[|s| - 1]}
  {
    assert s == s[..|s| - 1] + [s[|s| - 1]];
  }

  /** Taking the last element of `t` out of a part of `t` leaves a part of the rest. */
  lemma PartWithoutLast<T>(s: seq<T>, i: nat, t: seq<T>)
    requires i < |s| && t != [] && s[i] == t[|t| - 1]
    requires multiset(s) <= multiset(t)
    ensures multiset(RemoveAt(s, i)) <= multiset(t[..|t| - 1])
  {
    RemoveAtMultiset(s, i);
    LastMultiset(t);
    assert multiset(RemoveAt(s, i)) == multiset(s) - multiset{s[i]};
    assert multiset(t[..|t| - 1]) == multiset(t) - multiset{s[i]};
  }

  lemma PartOfRest<T>(s: seq<T>, t: seq<T>)
    requires t != [] && t[|t| - 1] !in s
    requires multiset(s) <= multiset(t)
    ensures multiset(s) <= multiset(t[..|t| - 1])
  {
    LastMultiset(t);
  }

  /** An element that is still there when one element is taken out stands at another place. */
  lemma Elsewhere<T>(s: seq<T>, i: nat, x: T) returns (j: nat)
    requires i < |s| && x in multiset(s) - multiset{s[i]}
    ensures j < |s| && j != i && s[j] == x
  {
    RemoveAtMultiset(s, i);
    assert multiset(RemoveAt(s, i)) == multiset(s) - multiset{s[i]};
    var k :| 0 <= k < |s| - 1 && RemoveAt(s, i)[k] == x;
    j := if k < i then k else k + 1;
  }

  lemma StillThere<T>(s: seq<T>, i: nat, j: nat)
    requires i < j < |s|
    ensures s[j] in multiset(s) - multiset{s[i]}
  {
    RemoveAtMultiset(s, i);
    assert multiset(RemoveAt(s, i)) == multiset(s) - multiset{s[i]};
    assert RemoveAt(s, i)[j - 1] == s[j];
  }

  /** Two places of a rearranged sequence come from two different places of the original. */
  lemma TwoPlaces<T>(s: seq<T>, t: seq<T>, i: nat, j: nat) returns (a: nat, b: nat)
    requires multiset(s) == multiset(t) && i < j < |t|
    ensures a < |s| && b < |s| && a != b && s[a] == t[i] && s[b] == t[j]
  {
    assert t[i] in multiset(s);
    a :| 0 <= a < |s| && s[a] == t[i];
    StillThere(t, i, j);
    b := Elsewhere(s, a, t[j]);
  }

  // ---------- Sums ----------

  function SumBy<T>(s: seq<T>, f: T -> nat): nat {
    if s == [] then 0 else SumBy(s[..|s| - 1], f) + f(s[|s| - 1])
  }

  lemma {:induction false} SumByAppend<T>(s: seq<T>, t: seq<T>, f: T -> nat)
    ensures SumBy(s + t, f) == SumBy(s, f) + SumBy(t, f)
  {
    if t == [] {
      assert s + t == s;
    } else {
      var u := t[..|t| - 1];
      assert (s + t)[..|s + t| - 1] == s + u;
      SumByAppend(s, u, f);
    }
  }

  lemma SumOfOne<T>(s: seq<T>, f: T -> nat)
    requires |s| <= 1
    ensures SumBy(s, f) == if s == [] then 0 else f(s[0])
  {
    if s != [] {
      assert s[..0] == [];
    }
  }

  lemma SumByFirst<T>(s: seq<T>, f: T -> nat)
    requires s != []
    ensures SumBy(s, f) == f(s[0]) + SumBy(s[1..], f)
  {
    assert s == [s[0]] + s[1..];
    SumByAppend([s[0]], s[1..], f);
    SumOfOne([s[0]], f);
  }

  lemma {:induction false} SumByRemoveAt<T>(s: seq<T>, i: nat, f: T -> nat)
    requires i < |s|
    ensures SumBy(s, f) == SumBy(RemoveAt(s, i), f) + f(s[i])
  {
    var n := |s| - 1;
    if i == n {
      assert RemoveAt(s, i) == s[..n];
    } else {
      SumByRemoveAt(s[..n], i, f);
      assert RemoveAt(s, i)[..n - 1] == RemoveAt(s[..n], i);
    }
  }

  /** Drawing only some of the elements cannot give a larger sum. */
  lemma {:induction false} SumByPart<T>(s: seq<T>, t: seq<T>, f: T -> nat)
    requires multiset(s) <= multiset(t)
    ensures SumBy(s, f) <= SumBy(t, f)
  {
    if s == [] {
    } else {
      var n := |s| - 1;
      assert s == s[..n] + [s[n]];
      assert multiset(s) == multiset(s[..n]) + multiset{s[n]};
      assert s[n] in multiset(t);
      var i :| 0 <= i < |t| && t[i] == s[n];
      RemoveAtMultiset(t, i);
      SumByRemoveAt(t, i, f);
      assert multiset(s[..n]) == multiset(s) - multiset{s[n]};
      assert multiset(RemoveAt(t, i)) == multiset(t) - multiset{t[i]};
      SumByPart(s[..n], RemoveAt(t, i), f);
    }
  }

  lemma SumByPermutation<T>(s: seq<T>, t: seq<T>, f: T -> nat)
    requires multiset(s) == multiset(t)
    ensures SumBy(s, f) == SumBy(t, f)
  {
    SumByPart(s, t, f);
    SumByPart(t, s, f);
  }

  lemma {:induction false} SumByBound<T>(s: seq<T>, f: T -> nat, g: T -> nat)
    requires forall x :: x in s ==> f(x) <= g(x)
    ensures SumBy(s, f) <= SumBy(s, g)
  {
    if s == [] {
    } else {
      SumByBound(s[..|s| - 1], f, g);
    }
  }

  /** If every part is that of its weight, rounded down, the parts make at most their share of the whole, and
      less than one for each of them below it. */
  lemma {:induction false} SumOfParts<T>(s: seq<T>, weight: T -> nat, part: T -> nat, whole: nat, total: nat)
    requires forall x :: x in s ==> part(x) * total <= weight(x) * whole < (part(x) + 1) * total
    ensures SumBy(s, part) * total <= SumBy(s, weight) * whole
    ensures s != [] ==> SumBy(s, weight) * whole < (SumBy(s, part) + |s|) * total
  {
    if s != [] {
      var n := |s| - 1;
      SumOfParts(s[..n], weight, part, whole, total);
      AddPart(SumBy(s[..n], part), part(s[n]), SumBy(s[..n], weight), weight(s[n]), n, whole, total);
    }
  }

  lemma AddPart(parts: nat, part: nat, weights: nat, weight: nat, n: nat, whole: nat, total: nat)
    requires parts * total <= weights * whole <= (parts + n) * total
    requires part * total <= weight * whole < (part + 1) * total
    ensures (parts + part) * total <= (weights + weight) * whole < (parts + part + n + 1) * total
  {
    assert (parts + part) * total == parts * total + part * total;
    assert (weights + weight) * whole == weights * whole + weight * whole;
    assert (parts + part + n + 1) * total == (parts + n) * total + (part + 1) * total;
  }

  // ---------- Sums over a set ----------

  ghost function SumSet<K(!new)>(keys: set<K>, f: K -> nat): nat {
    if keys == {} then 0 else var k :| k in keys; f(k) + SumSet(keys - {k}, f)
  }

  /** The order in which the elements are taken does not matter. */
  lemma {:induction false} SumSetWithout<K(!new)>(keys: set<K>, k: K, f: K -> nat)
    requires k in keys
    ensures SumSet(keys, f) == f(k) + SumSet(keys - {k}, f)
  {
    var j :| j in keys && SumSet(keys, f) == f(j) + SumSet(keys - {j}, f);
    if j != k {
      SumSetWithout(keys - {j}, k, f);
      SumSetWithout(keys - {k}, j, f);
      assert keys - {j} - {k} == keys - {k} - {j};
    }
  }

  lemma {:induction false} SumSetSame<K(!new)>(keys: set<K>, f: K -> nat, g: K -> nat)
    requires forall k :: k in keys ==> f(k) == g(k)
    ensures SumSet(keys, f) == SumSet(keys, g)
  {
    if keys != {} {
      var k :| k in keys;
      SumSetWithout(keys, k, f);
      SumSetWithout(keys, k, g);
      SumSetSame(keys - {k}, f, g);
    }
  }
}
