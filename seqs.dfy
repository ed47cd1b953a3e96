/**
 * The array and map operations of the JavaScript runtime that the modelled code relies on:
 * `filter`, removal of every occurrence of a value, de-duplication through
 * `[...new Set(a)]`, which keeps the first occurrence of each element, and a `Map` whose
 * iteration order matters, kept as a sequence of entries with distinct keys.
 */
module Seqs {
  import Types

  /** `s.filter(p)`. */
  function Filter<T>(s: seq<T>, p: T -> bool): (r: seq<T>)
    ensures |r| <= |s|
  {
    if s == [] then [] else (if p(s[0]) then [s[0]] else []) + Filter(s[1..], p)
  }

  /** Filter keeps exactly the elements that satisfy p. */
  lemma {:induction false} FilterMembers<T(!new)>(s: seq<T>, p: T -> bool)
    ensures forall x :: x in Filter(s, p) <==> x in s && p(x)
  {
    if s != [] {
      FilterMembers(s[1..], p);
      assert forall x :: x in s <==> x == s[0] || x in s[1..];
    }
  }

  /** Filter keeps everything when every element satisfies p. */
  lemma {:induction false} FilterAll<T>(s: seq<T>, p: T -> bool)
    requires forall x :: x in s ==> p(x)
    ensures Filter(s, p) == s
  {
    if s != [] {
      assert s[0] in s;
      assert forall x :: x in s[1..] ==> x in s;
      FilterAll(s[1..], p);
    }
  }

  /** Filter keeps nothing when no element satisfies p. */
  lemma {:induction false} FilterNone<T>(s: seq<T>, p: T -> bool)
    requires forall x :: x in s ==> !p(x)
    ensures Filter(s, p) == []
  {
    if s != [] {
      assert forall x :: x in s[1..] ==> x in s;
      FilterNone(s[1..], p);
    }
  }

  /** `s.filter(t => t !== x)`: every occurrence of x removed, the rest in order. */
  function Without<T(==,!new)>(s: seq<T>, x: T): (r: seq<T>)
    ensures x !in r
    ensures forall y :: y in r <==> y in s && y != x
    ensures x !in s ==> r == s
    ensures |r| <= |s|
  {
    if s == [] then []
    else
      var rest := Without(s[1..], x);
      assert forall y :: y in s <==> y == s[0] || y in s[1..];
      if s[0] == x then rest else [s[0]] + rest
  }

  /** Removing an element that was just appended to a list without it gives the list back. */
  lemma {:induction false} WithoutAppended<T(!new)>(s: seq<T>, x: T)
    requires x !in s
    ensures Without(s + [x], x) == s
  {
    if s != [] {
      assert (s + [x])[1..] == s[1..] + [x];
      WithoutAppended(s[1..], x);
    } else {
      assert [x][1..] == [];
    }
  }

  predicate NoDuplicates<T(==)>(s: seq<T>) {
    forall i, j :: 0 <= i < j < |s| ==> s[i] != s[j]
  }

  /** `[...new Set(s)]`: the first occurrence of each element, in order. */
  function Dedup<T(==,!new)>(s: seq<T>): (r: seq<T>)
    ensures NoDuplicates(r)
    ensures forall x :: x in r <==> x in s
    decreases |s|
  {
    if s == [] then []
    else
      var n := |s| - 1;
      var prefix := Dedup(s[..n]);
      assert forall x :: x in s <==> x in s[..n] || x == s[n];
      if s[n] in prefix then prefix else prefix + [s[n]]
  }

  /** De-duplicating a sequence without duplicates changes nothing. */
  lemma {:induction false} DedupOfDistinct<T(!new)>(s: seq<T>)
    requires NoDuplicates(s)
    ensures Dedup(s) == s
    decreases |s|
  {
    if s != [] {
      var n := |s| - 1;
      DedupOfDistinct(s[..n]);
      assert s[n] !in s[..n];
      assert s[..n] + [s[n]] == s;
    }
  }

  /** Filtering a sequence extended by one element. */
  lemma {:induction false} FilterSnoc<T>(s: seq<T>, x: T, p: T -> bool)
    ensures Filter(s + [x], p) == Filter(s, p) + (if p(x) then [x] else [])
  {
    if s != [] {
      assert (s + [x])[1..] == s[1..] + [x];
      FilterSnoc(s[1..], x, p);
    }
  }

  /** Every entry of m is stored under its own key. */
  ghost predicate Keyed<T>(m: map<string, T>, key: T -> string) {
    forall k :: k in m ==> key(m[k]) == k
  }

  /**
   * `s.forEach(x => m.set(key(x), x))` on an empty map: every element stored under its
   * key, a later element replacing an earlier one with the same key.
   */
  function IndexBy<T>(s: seq<T>, key: T -> string): (r: map<string, T>)
    ensures Keyed(r, key)
    decreases |s|
  {
    if s == [] then map[]
    else
      var n := |s| - 1;
      IndexBy(s[..n], key)[key(s[n]) := s[n]]
  }

  /**
   * The keys of IndexBy are exactly the keys of the elements, every stored value comes from
   * s, and the value under a key is the last element of s with that key.
   */
  lemma {:induction false} IndexByExact<T>(s: seq<T>, key: T -> string)
    ensures forall x :: x in s ==> key(x) in IndexBy(s, key)
    ensures forall k :: k in IndexBy(s, key) ==> IndexBy(s, key)[k] in s
    ensures forall i :: 0 <= i < |s| && (forall j :: i < j < |s| ==> key(s[j]) != key(s[i]))
                        ==> IndexBy(s, key)[key(s[i])] == s[i]
    decreases |s|
  {
    if s != [] {
      var n := |s| - 1;
      IndexByExact(s[..n], key);
      assert forall x :: x in s <==> x in s[..n] || x == s[n];
      forall i | 0 <= i < |s| && (forall j :: i < j < |s| ==> key(s[j]) != key(s[i]))
        ensures IndexBy(s, key)[key(s[i])] == s[i]
      {
        if i < n {
          assert key(s[n]) != key(s[i]);
          assert s[..n][i] == s[i];
          assert forall j :: i < j < n ==> s[..n][j] == s[j];
        }
      }
    }
  }

  // ---------------------------------------------------------------------------------------
  // An insertion-ordered map, as a sequence of entries with distinct keys
  // ---------------------------------------------------------------------------------------

  /** No two entries share a key. */
  predicate DistinctKeys<T>(s: seq<T>, key: T -> string) {
    forall i, j :: 0 <= i < j < |s| ==> key(s[i]) != key(s[j])
  }

  predicate HasKey<T>(s: seq<T>, k: string, key: T -> string) {
    exists i :: 0 <= i < |s| && key(s[i]) == k
  }

  /** `m.get(k)`: the entry with key k. */
  function Find<T>(s: seq<T>, k: string, key: T -> string): Types.Option<T> {
    if s == [] then Types.None else if key(s[0]) == k then Types.Some(s[0]) else Find(s[1..], k, key)
  }

  /** `m.set(key(x), x)`: replaces the entry with x's key where it stands, or appends x. */
  function Put<T>(s: seq<T>, x: T, key: T -> string): (r: seq<T>)
    ensures |r| == |s| || |r| == |s| + 1
  {
    if s == [] then [x]
    else if key(s[0]) == key(x) then [x] + s[1..]
    else [s[0]] + Put(s[1..], x, key)
  }

  /** `m.set` of every element of s in turn, starting from an empty map. */
  function PutAll<T>(s: seq<T>, key: T -> string): seq<T>
    decreases |s|
  {
    if s == [] then [] else Put(PutAll(s[..|s| - 1], key), s[|s| - 1], key)
  }

  /** Find yields an entry with the key asked for, and nothing exactly when there is none. */
  lemma {:induction false} FindSpec<T>(s: seq<T>, k: string, key: T -> string)
    ensures Find(s, k, key).Some? ==> Find(s, k, key).value in s && key(Find(s, k, key).value) == k
    ensures Find(s, k, key).None? <==> !HasKey(s, k, key)
  {
    if s != [] && key(s[0]) != k {
      FindSpec(s[1..], k, key);
      assert HasKey(s, k, key) ==> HasKey(s[1..], k, key) by {
        if HasKey(s, k, key) {
          var i :| 0 <= i < |s| && key(s[i]) == k;
          assert s[1..][i - 1] == s[i];
        }
      }
      assert HasKey(s[1..], k, key) ==> HasKey(s, k, key) by {
        if HasKey(s[1..], k, key) {
          var i :| 0 <= i < |s[1..]| && key(s[1..][i]) == k;
          assert s[i + 1] == s[1..][i];
        }
      }
    }
  }

  /** Find yields the first element with key k: the one no earlier element shares the key with. */
  lemma {:induction false} FindFirst<T>(s: seq<T>, k: string, key: T -> string, i: nat)
    requires i < |s| && key(s[i]) == k
    requires forall j :: 0 <= j < i ==> key(s[j]) != k
    ensures Find(s, k, key) == Types.Some(s[i])
  {
    if i > 0 {
      assert key(s[0]) != k;
      assert forall j :: 0 <= j < i - 1 ==> s[1..][j] == s[j + 1];
      FindFirst(s[1..], k, key, i - 1);
    }
  }

  /** After `set`, `get` of that key yields the new entry and every other key is unaffected. */
  lemma {:induction false} FindPut<T>(s: seq<T>, x: T, k: string, key: T -> string)
    ensures Find(Put(s, x, key), k, key) == if k == key(x) then Types.Some(x) else Find(s, k, key)
  {
    if s != [] && key(s[0]) != key(x) {
      FindPut(s[1..], x, k, key);
    } else if s != [] {
      assert (if k == key(x) then [x] + s[1..] else s)[1..] == s[1..];
    }
  }

  /** Put overwrites the entry with x's key where it stands, or appends x at the end. */
  lemma PutSpec<T(!new)>(s: seq<T>, x: T, key: T -> string)
    requires DistinctKeys(s, key)
    ensures forall i :: 0 <= i < |s| && key(s[i]) == key(x) ==> Put(s, x, key) == s[i := x]
    ensures !HasKey(s, key(x), key) ==> Put(s, x, key) == s + [x]
    ensures DistinctKeys(Put(s, x, key), key)
  {
    forall i | 0 <= i < |s| && key(s[i]) == key(x) ensures Put(s, x, key) == s[i := x] {
      PutReplaces(s, x, key, i);
    }
    if !HasKey(s, key(x), key) {
      PutAppends(s, x, key);
    }
    PutDistinct(s, x, key);
  }

  lemma {:induction false} PutReplaces<T>(s: seq<T>, x: T, key: T -> string, i: nat)
    requires DistinctKeys(s, key) && i < |s| && key(s[i]) == key(x)
    ensures Put(s, x, key) == s[i := x]
  {
    if i == 0 {
      assert [x] + s[1..] == s[0 := x];
    } else {
      assert key(s[0]) != key(s[i]);
      PutReplaces(s[1..], x, key, i - 1);
      assert s[1..][i - 1 := x] == s[i := x][1..];
    }
  }

  lemma {:induction false} PutAppends<T>(s: seq<T>, x: T, key: T -> string)
    requires !HasKey(s, key(x), key)
    ensures Put(s, x, key) == s + [x]
  {
    if s != [] {
      assert key(s[0]) != key(x);
      assert !HasKey(s[1..], key(x), key) by {
        assert forall j :: 0 <= j < |s[1..]| ==> s[1..][j] == s[j + 1];
      }
      PutAppends(s[1..], x, key);
      assert [s[0]] + (s[1..] + [x]) == s + [x];
    }
  }

  lemma {:induction false} PutMembers<T(!new)>(s: seq<T>, x: T, key: T -> string)
    ensures forall y :: y in Put(s, x, key) ==> y == x || y in s
  {
    if s != [] && key(s[0]) != key(x) {
      PutMembers(s[1..], x, key);
    }
  }

  lemma {:induction false} PutDistinct<T(!new)>(s: seq<T>, x: T, key: T -> string)
    requires DistinctKeys(s, key)
    ensures DistinctKeys(Put(s, x, key), key)
  {
    if s != [] && key(s[0]) != key(x) {
      PutDistinct(s[1..], x, key);
      var t := Put(s[1..], x, key);
      PutMembers(s[1..], x, key);
      forall y | y in t ensures key(y) != key(s[0]) {
        if y != x {
          var j :| 0 <= j < |s[1..]| && s[1..][j] == y;
          assert s[j + 1] == y;
        }
      }
      assert Put(s, x, key) == [s[0]] + t;
    } else if s != [] {
      forall i, j | 0 <= i < j < |s| ensures key(Put(s, x, key)[i]) != key(Put(s, x, key)[j]) {
        assert key(s[i]) != key(s[j]);
      }
    }
  }

  /** Setting every element in turn keeps keys distinct, and keeps a list with distinct keys as it is. */
  lemma {:induction false} PutAllSpec<T(!new)>(s: seq<T>, key: T -> string)
    ensures DistinctKeys(PutAll(s, key), key)
    ensures DistinctKeys(s, key) ==> PutAll(s, key) == s
    decreases |s|
  {
    if s != [] {
      var n := |s| - 1;
      PutAllSpec(s[..n], key);
      PutSpec(PutAll(s[..n], key), s[n], key);
      if DistinctKeys(s, key) {
        assert DistinctKeys(s[..n], key);
        assert !HasKey(s[..n], key(s[n]), key);
        assert s[..n] + [s[n]] == s;
      }
    }
  }

  /** The loop `s.forEach(x => m.set(key(x), x))` on an empty map. */
  method IndexEach<T>(s: seq<T>, key: T -> string) returns (m: map<string, T>)
    ensures m == IndexBy(s, key)
  {
    m := map[];
    var i := 0;
    while i < |s|
      invariant 0 <= i <= |s| && m == IndexBy(s[..i], key)
    {
      assert s[..i + 1][..i] == s[..i];
      m := m[key(s[i]) := s[i]];
      i := i + 1;
    }
    assert s[..|s|] == s;
  }

  /** The same loop on an insertion-ordered map: the entries keep distinct keys. */
  method PutEach<T(!new)>(s: seq<T>, key: T -> string) returns (r: seq<T>)
    ensures r == PutAll(s, key) && DistinctKeys(r, key)
  {
    r := [];
    var i := 0;
    while i < |s|
      invariant 0 <= i <= |s| && r == PutAll(s[..i], key)
    {
      assert s[..i + 1][..i] == s[..i];
      r := Put(r, s[i], key);
      i := i + 1;
    }
    assert s[..|s|] == s;
    PutAllSpec(s, key);
  }

  /** Filtering keeps keys distinct. */
  lemma {:induction false} FilterKeepsDistinctKeys<T(!new)>(s: seq<T>, p: T -> bool, key: T -> string)
    requires DistinctKeys(s, key)
    ensures DistinctKeys(Filter(s, p), key)
  {
    if s != [] {
      FilterKeepsDistinctKeys(s[1..], p, key);
      FilterMembers(s[1..], p);
      var t := Filter(s[1..], p);
      forall y | y in t ensures key(y) != key(s[0]) {
        var j :| 0 <= j < |s[1..]| && s[1..][j] == y;
        assert s[j + 1] == y;
      }
    }
  }
}
