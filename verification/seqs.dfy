/**
 * Sequence and map helpers shared by the model: `LinkedHashSet` insertion,
 * the search loop of the catalogue enums, and the iteration of a `HashMap`'s
 * key set in an order the model does not fix.
 */
module Seqs {
  import opened Wrappers

  predicate NoDuplicates<T(==)>(s: seq<T>)
  {
    forall i, j :: 0 <= i < j < |s| ==> s[i] != s[j]
  }

  /** The position of the first occurrence of `x` in `s`. */
  function FirstIndex<T(==)>(s: seq<T>, x: T): (i: nat)
    requires x in s
    ensures i < |s| && s[i] == x && x !in s[..i]
  {
    if s[0] == x then 0 else 1 + FirstIndex(s[1..], x)
  }

  lemma FirstIndexUnique<T>(s: seq<T>, x: T, i: nat)
    requires i < |s| && s[i] == x && x !in s[..i]
    ensures FirstIndex(s, x) == i
  {
  }

  /** A prefix that already holds `x` places it where the whole sequence does. */
  lemma FirstIndexPrefix<T>(s: seq<T>, m: nat, x: T)
    requires m <= |s| && x in s[..m]
    ensures FirstIndex(s, x) == FirstIndex(s[..m], x)
  {
    var k := FirstIndex(s[..m], x);
    assert s[..m][..k] == s[..k];
    FirstIndexUnique(s, x, k);
  }

  /**
   * The elements of `s` in the order a `LinkedHashSet` holds them after
   * adding `s[0]`, `s[1]`, ... in turn: each element once, at its first occurrence.
   */
  function Dedup<T(==)>(s: seq<T>): (r: seq<T>)
    ensures forall i :: 0 <= i < |r| ==> r[i] in s
    ensures forall i :: 0 <= i < |s| ==> s[i] in r
    ensures NoDuplicates(r)
    ensures |r| <= |s|
  {
    if s == [] then []
    else
      var n := |s| - 1;
      var d := Dedup(s[..n]);
      assert forall i :: 0 <= i < n ==> s[i] == s[..n][i];
      if s[n] in d then d else d + [s[n]]
  }

  /** `Dedup` keeps the elements in the order of their first occurrence. */
  lemma {:induction false} DedupKeepsFirstOccurrenceOrder<T>(s: seq<T>)
    ensures forall i, j :: 0 <= i < j < |Dedup(s)| ==> FirstIndex(s, Dedup(s)[i]) < FirstIndex(s, Dedup(s)[j])
  {
    if s != [] {
      var n := |s| - 1;
      var p := s[..n];
      var d := Dedup(p);
      DedupKeepsFirstOccurrenceOrder(p);
      forall x | x in d ensures FirstIndex(s, x) == FirstIndex(p, x) < n {
        FirstIndexPrefix(s, n, x);
      }
      if s[n] !in d {
        FirstIndexUnique(s, s[n], n);
        assert Dedup(s) == d + [s[n]];
      } else {
        assert Dedup(s) == d;
      }
    }
  }

  lemma {:induction false} DedupOfDistinct<T>(s: seq<T>)
    requires NoDuplicates(s)
    ensures Dedup(s) == s
  {
    if s != [] {
      var n := |s| - 1;
      var p := s[..n];
      assert NoDuplicates(p) by {
        forall i, j | 0 <= i < j < |p| ensures p[i] != p[j] {
          assert p[i] == s[i] && p[j] == s[j];
        }
      }
      DedupOfDistinct(p);
      assert s[n] !in p by {
        forall i | 0 <= i < |p| ensures p[i] != s[n] {
          assert p[i] == s[i];
        }
      }
      assert Dedup(s) == Dedup(p) + [s[n]];
      assert s == p + [s[n]];
    }
  }

  /**
   * The search loop of an enum's `fromId`: the first value of `s` whose key is `id`.
   */
  function FindFirst<T>(s: seq<T>, key: T -> int, id: int): (r: Option<T>)
    ensures r.Some? ==> r.value in s && key(r.value) == id
    ensures r.Some? ==> exists i :: 0 <= i < |s| && s[i] == r.value && forall j :: 0 <= j < i ==> key(s[j]) != id
    ensures r.None? <==> forall x :: x in s ==> key(x) != id
  {
    if s == [] then None
    else if key(s[0]) == id then Some(s[0])
    else FindFirst(s[1..], key, id)
  }

  /** With distinct keys, searching for the key of a member finds that member. */
  lemma {:induction false} FindFirstMember<T>(s: seq<T>, key: T -> int, x: T)
    requires x in s
    requires forall i, j :: 0 <= i < j < |s| ==> key(s[i]) != key(s[j])
    ensures FindFirst(s, key, key(x)) == Some(x)
  {
    if s[0] != x {
      assert x in s[1..];
      forall i, j | 0 <= i < j < |s| - 1 ensures key(s[1..][i]) != key(s[1..][j]) {
        assert s[1..][i] == s[i + 1] && s[1..][j] == s[j + 1];
      }
      var k :| 0 <= k < |s| && s[k] == x;
      assert key(s[0]) != key(x);
      FindFirstMember(s[1..], key, x);
    }
  }

  /** No value is stored under two keys. */
  predicate Injective<K, V(==)>(m: map<K, V>)
  {
    forall a, b :: a in m && b in m && a != b ==> m[a] != m[b]
  }

  /** A map that stores every value under the value's own id holds no value
      twice. */
  lemma KeyedByIdIsInjective<T>(m: map<int, T>, id: T -> int)
    requires forall k :: k in m ==> id(m[k]) == k
    ensures Injective(m)
  {
    forall a, b | a in m && b in m && a != b ensures m[a] != m[b] {
      assert id(m[a]) == a && id(m[b]) == b;
    }
  }

  /**
   * `r` lists the values `m` holds under the keys `ids`, each exactly once,
   * in some order.
   */
  predicate Enumerates<K, V(==)>(r: seq<V>, m: map<K, V>, ids: set<K>)
  {
    && ids <= m.Keys
    && |r| == |ids|
    && NoDuplicates(r)
    && (forall i :: 0 <= i < |r| ==> exists k :: k in ids && m[k] == r[i])
    && (forall k :: k in ids ==> m[k] in r)
  }

  /**
   * The stream `ids.stream().map(m::get).filter(Objects::nonNull)`: walks the
   * ids in an order the model leaves open (a hash set's), keeping the values
   * of those that are keys of `m`.
   */
  method SelectValues<K, V(==)>(m: map<K, V>, ids: set<K>) returns (r: seq<V>)
    requires Injective(m)
    ensures Enumerates(r, m, ids * m.Keys)
  {
    r := [];
    ghost var ks: seq<K> := [];
    ghost var seen: set<K> := {};
    var rest := ids;
    while rest != {}
      invariant rest <= ids
      invariant forall k :: k in seen <==> k in ids && k !in rest && k in m
      invariant |r| == |ks| == |seen|
      invariant forall i :: 0 <= i < |ks| ==> ks[i] in seen && r[i] == m[ks[i]]
      invariant forall k :: k in seen ==> k in ks
      invariant NoDuplicates(r)
      decreases rest
    {
      var k :| k in rest;
      if k in m {
        assert k !in seen;
        forall i | 0 <= i < |r| ensures r[i] != m[k] {
          assert ks[i] in seen;
        }
        r, ks, seen := r + [m[k]], ks + [k], seen + {k};
      }
      rest := rest - {k};
    }
    assert seen == ids * m.Keys;
    EnumeratesByKeys(r, ks, m, seen);
  }

  /** A listing paired, position by position, with the keys it was read from. */
  lemma EnumeratesByKeys<K, V>(r: seq<V>, ks: seq<K>, m: map<K, V>, ids: set<K>)
    requires ids <= m.Keys && NoDuplicates(r)
    requires |r| == |ks| == |ids|
    requires forall i :: 0 <= i < |ks| ==> ks[i] in ids && r[i] == m[ks[i]]
    requires forall k :: k in ids ==> k in ks
    ensures Enumerates(r, m, ids)
  {
    forall i | 0 <= i < |r| ensures exists k :: k in ids && m[k] == r[i] {
      assert ks[i] in ids;
    }
    forall k | k in ids ensures m[k] in r {
      var i :| 0 <= i < |ks| && ks[i] == k;
      assert r[i] == m[k];
    }
  }

  /** A sequence whose multiset sits inside that of a duplicate-free one has no duplicates. */
  lemma SubMultisetNoDuplicates<T>(r: seq<T>, s: seq<T>)
    requires multiset(r) <= multiset(s) && NoDuplicates(s)
    ensures NoDuplicates(r)
  {
    forall i, j | 0 <= i < j < |r| ensures r[i] != r[j] {
      if r[i] == r[j] {
        var x := r[i];
        assert r == r[..i] + [x] + r[i + 1..j] + [x] + r[j + 1..];
        assert multiset(r)[x] >= 2;
        CountAtMostOne(s, x);
        assert false;
      }
    }
  }

  lemma {:induction false} CountAtMostOne<T>(s: seq<T>, x: T)
    requires NoDuplicates(s)
    ensures multiset(s)[x] <= 1
  {
    if s != [] {
      assert s == [s[0]] + s[1..];
      assert NoDuplicates(s[1..]) by {
        forall i, j | 0 <= i < j < |s| - 1 ensures s[1..][i] != s[1..][j] {
          assert s[1..][i] == s[i + 1] && s[1..][j] == s[j + 1];
        }
      }
      CountAtMostOne(s[1..], x);
      if s[0] == x {
        assert x !in s[1..];
      }
    }
  }

  /** The image of `s` under `f`. */
  function Image<A, B>(s: set<A>, f: A -> B): set<B>
  {
    set x | x in s :: f(x)
  }

  /** Mapping a set through a function that tells its elements apart keeps
      the size: no two elements collapse into one. */
  lemma {:induction false} InjectiveImageSize<A, B>(s: set<A>, f: A -> B)
    requires forall a, b :: a in s && b in s && a != b ==> f(a) != f(b)
    ensures |Image(s, f)| == |s|
  {
    if s != {} {
      var x :| x in s;
      var rest := s - {x};
      InjectiveImageSize(rest, f);
      assert Image(s, f) == Image(rest, f) + {f(x)};
      assert f(x) !in Image(rest, f);
    }
  }
}
