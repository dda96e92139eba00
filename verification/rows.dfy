/** The list operations the frontend's tables and editors share: looking a
    row up by its key, replacing or removing the rows with a key, and the
    next numeric id (`Math.max(...ids) + 1`, or 1 for an empty table). */
module Rows {

  /** `findIndex(x => key(x) === k)`: the first index with that key, or -1. */
  function FindIndex<T, K(==)>(xs: seq<T>, key: T -> K, k: K): (i: int)
    ensures -1 <= i < |xs|
    ensures i == -1 <==> forall j :: 0 <= j < |xs| ==> key(xs[j]) != k
    ensures i >= 0 ==> key(xs[i]) == k && forall j :: 0 <= j < i ==> key(xs[j]) != k
  {
    if |xs| == 0 then -1
    else if key(xs[0]) == k then 0
    else
      var i := FindIndex(xs[1..], key, k);
      assert forall j :: 1 <= j < |xs| ==> xs[j] == xs[1..][j - 1];
      if i == -1 then -1 else i + 1
  }

  /** `filter(x => key(x) !== k)`. */
  function Remove<T, K(==)>(xs: seq<T>, key: T -> K, k: K): (r: seq<T>)
    ensures |r| <= |xs|
    ensures forall j :: 0 <= j < |r| ==> key(r[j]) != k
  {
    if |xs| == 0 then []
    else
      var rest := Remove(xs[1..], key, k);
      if key(xs[0]) == k then rest else [xs[0]] + rest
  }

  /** Removing distributes over concatenation, so with the one-element case
      it keeps exactly the other rows, in their order. */
  lemma {:induction false} RemoveAppend<T, K>(a: seq<T>, b: seq<T>, key: T -> K, k: K)
    ensures Remove(a + b, key, k) == Remove(a, key, k) + Remove(b, key, k)
  {
    if |a| > 0 {
      assert (a + b)[1..] == a[1..] + b;
      RemoveAppend(a[1..], b, key, k);
    } else {
      assert a + b == b;
    }
  }

  lemma RemoveOne<T, K>(x: T, key: T -> K, k: K)
    ensures Remove([x], key, k) == if key(x) == k then [] else [x]
  {
    assert [x][1..] == [];
  }

  /** Removing a key no row has changes nothing. */
  lemma {:induction false} RemoveAbsent<T, K>(xs: seq<T>, key: T -> K, k: K)
    requires forall j :: 0 <= j < |xs| ==> key(xs[j]) != k
    ensures Remove(xs, key, k) == xs
  {
    if |xs| > 0 {
      RemoveAbsent(xs[1..], key, k);
      assert xs == [xs[0]] + xs[1..];
    }
  }

  /** Adding a row under a new key and removing that key again gives the
      list back. */
  lemma RemoveAdded<T, K>(xs: seq<T>, x: T, key: T -> K)
    requires forall j :: 0 <= j < |xs| ==> key(xs[j]) != key(x)
    ensures Remove(xs + [x], key, key(x)) == xs
  {
    RemoveAppend(xs, [x], key, key(x));
    RemoveOne(x, key, key(x));
    RemoveAbsent(xs, key, key(x));
  }

  /** Every row whose key differs survives a removal. */
  lemma {:induction false} RemoveKeeps<T, K>(xs: seq<T>, key: T -> K, k: K, j: nat)
    requires j < |xs| && key(xs[j]) != k
    ensures xs[j] in Remove(xs, key, k)
  {
    if j > 0 {
      RemoveKeeps(xs[1..], key, k, j - 1);
    }
  }

  /** `map(x => key(x) === k ? f(x) : x)`. */
  function ReplaceWhere<T, K(==)>(xs: seq<T>, key: T -> K, k: K, f: T -> T): (r: seq<T>)
    ensures |r| == |xs|
  {
    if |xs| == 0 then []
    else [if key(xs[0]) == k then f(xs[0]) else xs[0]] + ReplaceWhere(xs[1..], key, k, f)
  }

  /** The rows with the key are changed by `f`, the others stay. */
  lemma {:induction false} ReplaceWhereAt<T, K>(xs: seq<T>, key: T -> K, k: K, f: T -> T, j: nat)
    requires j < |xs|
    ensures ReplaceWhere(xs, key, k, f)[j] == if key(xs[j]) == k then f(xs[j]) else xs[j]
  {
    if j > 0 {
      ReplaceWhereAt(xs[1..], key, k, f, j - 1);
    }
  }

  /** An update that keeps the key keeps the list of keys, so the table
      keeps its distinct ids. */
  lemma ReplaceKeepsKeys<T, K>(xs: seq<T>, key: T -> K, k: K, f: T -> T)
    requires forall x :: key(f(x)) == key(x)
    ensures forall j :: 0 <= j < |xs| ==> key(ReplaceWhere(xs, key, k, f)[j]) == key(xs[j])
    ensures DistinctKeys(xs, key) ==> DistinctKeys(ReplaceWhere(xs, key, k, f), key)
  {
    forall j | 0 <= j < |xs| ensures key(ReplaceWhere(xs, key, k, f)[j]) == key(xs[j]) {
      ReplaceWhereAt(xs, key, k, f, j);
    }
  }

  /** Replacing a key no row has changes nothing. */
  lemma {:induction false} ReplaceAbsent<T, K>(xs: seq<T>, key: T -> K, k: K, f: T -> T)
    requires forall j :: 0 <= j < |xs| ==> key(xs[j]) != k
    ensures ReplaceWhere(xs, key, k, f) == xs
  {
    if |xs| > 0 {
      ReplaceAbsent(xs[1..], key, k, f);
      assert xs == [xs[0]] + xs[1..];
    }
  }

  /** Overwriting the first row with a key by another row with that key:
      it is still the first, the key set stays and nothing else moves. */
  lemma UpdateFound<T, K>(xs: seq<T>, key: T -> K, k: K, y: T)
    requires FindIndex(xs, key, k) >= 0 && key(y) == k
    ensures var i := FindIndex(xs, key, k);
            FindIndex(xs[i := y], key, k) == i
            && (DistinctKeys(xs, key) ==> DistinctKeys(xs[i := y], key))
            && forall j :: 0 <= j < |xs| && j != i ==> xs[i := y][j] == xs[j]
  {
    var i := FindIndex(xs, key, k);
    var r := xs[i := y];
    assert forall j :: 0 <= j < |xs| ==> key(r[j]) == key(xs[j]);
    FindFirst(r, key, k, i);
  }

  /** Appending a row whose key is new: it is found at the end. */
  lemma AppendNew<T, K>(xs: seq<T>, key: T -> K, y: T)
    requires FindIndex(xs, key, key(y)) == -1
    ensures FindIndex(xs + [y], key, key(y)) == |xs|
    ensures DistinctKeys(xs, key) ==> DistinctKeys(xs + [y], key)
    ensures forall j :: 0 <= j < |xs| ==> (xs + [y])[j] == xs[j]
  {
    FindFirst(xs + [y], key, key(y), |xs|);
  }

  /** `FindIndex` is the first index carrying the key. */
  lemma FindFirst<T, K>(xs: seq<T>, key: T -> K, k: K, i: nat)
    requires i < |xs| && key(xs[i]) == k && forall j :: 0 <= j < i ==> key(xs[j]) != k
    ensures FindIndex(xs, key, k) == i
  {
    var f := FindIndex(xs, key, k);
    assert f != -1;
    assert !(f < i) && !(f > i);
  }

  predicate DistinctKeys<T, K(==)>(xs: seq<T>, key: T -> K)
  {
    forall i, j :: 0 <= i < j < |xs| ==> key(xs[i]) != key(xs[j])
  }

  function Max(xs: seq<int>): (m: int)
    requires |xs| > 0
    ensures m in xs && forall j :: 0 <= j < |xs| ==> xs[j] <= m
  {
    if |xs| == 1 then xs[0]
    else
      var rest := Max(xs[1..]);
      assert forall j :: 1 <= j < |xs| ==> xs[j] == xs[1..][j - 1];
      if xs[0] >= rest then xs[0] else rest
  }

  /** `rows.length > 0 ? Math.max(...rows.map(r => r.id)) + 1 : 1`. */
  function NextId(ids: seq<int>): (r: int)
    ensures forall j :: 0 <= j < |ids| ==> ids[j] < r
    ensures |ids| == 0 ==> r == 1
    ensures |ids| > 0 ==> r - 1 in ids
  {
    if |ids| > 0 then Max(ids) + 1 else 1
  }

  /** The mock tables start with the ids 1, 2 and 3, so the first row added
      gets 4. */
  lemma ThreeIds(ids: seq<int>)
    requires ids == [1, 2, 3]
    ensures NextId(ids) == 4
  {
    assert ids[1..] == [2, 3] && ids[1..][1..] == [3];
    assert Max(ids[1..][1..]) == 3;
    assert Max(ids[1..]) == 3;
  }

  function Keys<T, K>(xs: seq<T>, key: T -> K): (ks: seq<K>)
    ensures |ks| == |xs| && forall j :: 0 <= j < |xs| ==> ks[j] == key(xs[j])
  {
    seq(|xs|, j requires 0 <= j < |xs| => key(xs[j]))
  }

  /** A row appended under the next id keeps the ids distinct. */
  lemma AppendNextId<T>(xs: seq<T>, key: T -> int, x: T)
    requires DistinctKeys(xs, key) && key(x) == NextId(Keys(xs, key))
    ensures DistinctKeys(xs + [x], key)
    ensures forall j :: 0 <= j < |xs| ==> key(xs[j]) != key(x)
  {
    var ks := Keys(xs, key);
    assert forall j :: 0 <= j < |xs| ==> key(xs[j]) == ks[j] < key(x);
  }

  /** The rows with a key not seen before, in the order first seen: what
      filling a `Map` keyed by `key(x)` with `if (!map.has(k)) map.set(k, x)`
      over `xs` and reading back `map.values()` gives. */
  function FirstSeen<T, K(==)>(xs: seq<T>, key: T -> K): (r: seq<T>)
    ensures |r| <= |xs|
    ensures DistinctKeys(r, key)
  {
    if |xs| == 0 then []
    else
      var prev := FirstSeen(xs[..|xs| - 1], key);
      var x := xs[|xs| - 1];
      if FindIndex(prev, key, key(x)) >= 0 then prev else prev + [x]
  }

  /** Every kept row comes from `xs`. */
  lemma {:induction false} FirstSeenFrom<T, K>(xs: seq<T>, key: T -> K)
    ensures forall i :: 0 <= i < |FirstSeen(xs, key)| ==> FirstSeen(xs, key)[i] in xs
  {
    if |xs| > 0 {
      var init := xs[..|xs| - 1];
      FirstSeenFrom(init, key);
      assert forall y :: y in init ==> y in xs;
    }
  }

  /** Every key of `xs` is kept. */
  lemma {:induction false} FirstSeenCovers<T, K>(xs: seq<T>, key: T -> K)
    ensures forall j :: 0 <= j < |xs| ==> FindIndex(FirstSeen(xs, key), key, key(xs[j])) >= 0
  {
    if |xs| > 0 {
      var init := xs[..|xs| - 1];
      var prev := FirstSeen(init, key);
      var x := xs[|xs| - 1];
      FirstSeenCovers(init, key);
      if FindIndex(prev, key, key(x)) < 0 {
        var r := prev + [x];
        forall j | 0 <= j < |xs| ensures FindIndex(r, key, key(xs[j])) >= 0 {
          if j < |init| {
            assert init[j] == xs[j];
            var p := FindIndex(prev, key, key(xs[j]));
            assert r[p] == prev[p];
          } else {
            assert r[|prev|] == x;
          }
        }
      }
    }
  }

  /** `FindIndex` on a longer list finds a key the shorter prefix has at the
      same place. */
  lemma FindIndexPrefix<T, K>(xs: seq<T>, n: nat, key: T -> K, k: K)
    requires n <= |xs| && FindIndex(xs[..n], key, k) >= 0
    ensures FindIndex(xs, key, k) == FindIndex(xs[..n], key, k)
  {
    var i := FindIndex(xs[..n], key, k);
    assert forall j :: 0 <= j <= i ==> xs[..n][j] == xs[j];
    FindFirst(xs, key, k, i);
  }

  /** A key of a kept row is first found in `xs` at the same place as in
      every longer list that starts with `xs`. */
  lemma KeptKeyInPrefix<T, K>(xs: seq<T>, n: nat, key: T -> K, y: T)
    requires n <= |xs| && y in FirstSeen(xs[..n], key)
    ensures FindIndex(xs[..n], key, key(y)) >= 0
    ensures FindIndex(xs, key, key(y)) == FindIndex(xs[..n], key, key(y))
  {
    FirstSeenFrom(xs[..n], key);
    var i :| 0 <= i < |FirstSeen(xs[..n], key)| && FirstSeen(xs[..n], key)[i] == y;
    assert y in xs[..n];
    FindIndexPrefix(xs, n, key, key(y));
  }

  /** Each kept row is the first row of `xs` with its key. */
  lemma {:induction false} FirstSeenIsFirst<T, K>(xs: seq<T>, key: T -> K, i: nat)
    requires i < |FirstSeen(xs, key)|
    ensures var r := FirstSeen(xs, key);
            FindIndex(xs, key, key(r[i])) >= 0 && r[i] == xs[FindIndex(xs, key, key(r[i]))]
  {
    var n := |xs| - 1;
    var init := xs[..n];
    var prev := FirstSeen(init, key);
    if i < |prev| {
      FirstSeenIsFirst(init, key, i);
      KeptKeyInPrefix(xs, n, key, prev[i]);
      assert init[FindIndex(init, key, key(prev[i]))] == xs[FindIndex(init, key, key(prev[i]))];
    } else {
      NewKeyIsLast(xs, key);
    }
  }

  /** The kept rows keep the order of their first appearance in `xs`. */
  lemma {:induction false} FirstSeenOrder<T, K>(xs: seq<T>, key: T -> K, i: nat, j: nat)
    requires i < j < |FirstSeen(xs, key)|
    ensures var r := FirstSeen(xs, key);
            FindIndex(xs, key, key(r[i])) < FindIndex(xs, key, key(r[j]))
  {
    var n := |xs| - 1;
    var init := xs[..n];
    var prev := FirstSeen(init, key);
    KeptKeyInPrefix(xs, n, key, prev[i]);
    if j < |prev| {
      FirstSeenOrder(init, key, i, j);
      KeptKeyInPrefix(xs, n, key, prev[j]);
    } else {
      NewKeyIsLast(xs, key);
    }
  }

  /** A row whose key the kept rows of the shorter list lack is the first of
      its key. */
  lemma NewKeyIsLast<T, K>(xs: seq<T>, key: T -> K)
    requires |xs| > 0 && FindIndex(FirstSeen(xs[..|xs| - 1], key), key, key(xs[|xs| - 1])) < 0
    ensures FindIndex(xs, key, key(xs[|xs| - 1])) == |xs| - 1
  {
    var n := |xs| - 1;
    var init := xs[..n];
    FirstSeenCovers(init, key);
    forall j | 0 <= j < n ensures key(xs[j]) != key(xs[n]) {
      assert init[j] == xs[j];
    }
    FindFirst(xs, key, key(xs[n]), n);
  }

  /** The first row is always kept, first. */
  lemma {:induction false} FirstSeenHead<T, K>(xs: seq<T>, key: T -> K)
    requires |xs| > 0
    ensures |FirstSeen(xs, key)| > 0 && FirstSeen(xs, key)[0] == xs[0]
  {
    var init := xs[..|xs| - 1];
    if |init| > 0 {
      FirstSeenHead(init, key);
    } else {
      assert FirstSeen(init, key) == [];
    }
  }
}
