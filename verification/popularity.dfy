/**
 * The ranking inside `InMemoryFilmStorage.getPopularFilms`: a stable sort of
 * the films by the size of their like sets, most liked first, cut to `count`.
 */
module Popularity {
  import opened Model
  import opened Seqs

  function Likes(f: Film): nat
  {
    |f.likes|
  }

  /** Like counts never go up along `s`. */
  predicate NonIncreasing(s: seq<Film>)
  {
    forall i, j :: 0 <= i < j < |s| ==> Likes(s[i]) >= Likes(s[j])
  }

  /** Places `f` in front of the first film with no more likes than it has. */
  function Insert(f: Film, s: seq<Film>): (r: seq<Film>)
    requires NonIncreasing(s)
    ensures NonIncreasing(r)
    ensures multiset(r) == multiset(s) + multiset{f}
    ensures |r| == |s| + 1
    ensures forall i :: 0 <= i < |r| ==> r[i] == f || r[i] in s
  {
    if s == [] || Likes(s[0]) <= Likes(f) then [f] + s
    else
      var t := Insert(f, s[1..]);
      assert forall i :: 0 <= i < |t| ==> Likes(t[i]) <= Likes(s[0]) by {
        forall i | 0 <= i < |t| ensures Likes(t[i]) <= Likes(s[0]) {
          if t[i] != f {
            var j :| 0 <= j < |s[1..]| && s[1..][j] == t[i];
            assert s[1..][j] == s[j + 1];
          }
        }
      }
      assert s == [s[0]] + s[1..];
      [s[0]] + t
  }

  /** `sorted` with the comparator `compare(f2.likes.size(), f1.likes.size())`:
      a stable sort, most liked first. */
  function SortByLikes(s: seq<Film>): (r: seq<Film>)
    ensures NonIncreasing(r)
    ensures multiset(r) == multiset(s)
    ensures |r| == |s|
  {
    if s == [] then []
    else
      assert s == [s[0]] + s[1..];
      Insert(s[0], SortByLikes(s[1..]))
  }

  /** `sorted(...).limit(count)` for a non-negative count. */
  function Top(s: seq<Film>, count: nat): (r: seq<Film>)
    ensures |r| == if count < |s| then count else |s|
    ensures NonIncreasing(r)
    ensures multiset(r) <= multiset(s)
    ensures forall x, i :: x in s && x !in r && 0 <= i < |r| ==> Likes(x) <= Likes(r[i])
  {
    var t := SortByLikes(s);
    var k := if count < |t| then count else |t|;
    PrefixOfRanking(s, t, k);
    t[..k]
  }

  /** The first `k` films of a ranking of `s` form a ranking drawn from `s`
      that no film of `s` outside it beats. */
  lemma PrefixOfRanking(s: seq<Film>, t: seq<Film>, k: nat)
    requires NonIncreasing(t) && multiset(t) == multiset(s) && k <= |t|
    ensures NonIncreasing(t[..k])
    ensures multiset(t[..k]) <= multiset(s)
    ensures forall x, i :: x in s && x !in t[..k] && 0 <= i < k ==> Likes(x) <= Likes(t[i])
  {
    assert t == t[..k] + t[k..];
    assert multiset(t) == multiset(t[..k]) + multiset(t[k..]);
    forall x, i | x in s && x !in t[..k] && 0 <= i < k ensures Likes(x) <= Likes(t[i]) {
      assert x in multiset(s);
      var j :| 0 <= j < |t| && t[j] == x;
    }
  }

  /** With no duplicate in the input there is none in the ranking either. */
  lemma TopNoDuplicates(s: seq<Film>, count: nat)
    requires NoDuplicates(s)
    ensures NoDuplicates(Top(s, count))
  {
    SubMultisetNoDuplicates(Top(s, count), s);
  }

  /** No two distinct films of `s` share a like count. */
  predicate DistinctLikes(s: seq<Film>)
  {
    forall x, y :: x in s && y in s && x != y ==> Likes(x) != Likes(y)
  }

  /** Two rankings of the same films start with the same film when no two
      distinct films share a like count. */
  lemma SameHead(a: seq<Film>, b: seq<Film>)
    requires NonIncreasing(a) && NonIncreasing(b) && a != []
    requires multiset(a) == multiset(b) && DistinctLikes(a)
    ensures b != [] && a[0] == b[0]
  {
    assert a[0] in multiset(b);
    var i :| 0 <= i < |b| && b[i] == a[0];
    assert b[0] in multiset(a);
    var j :| 0 <= j < |a| && a[j] == b[0];
    assert Likes(b[0]) >= Likes(b[i]);
    assert Likes(a[0]) >= Likes(a[j]);
  }

  lemma DistinctLikesPermutation(a: seq<Film>, b: seq<Film>)
    requires multiset(a) == multiset(b) && DistinctLikes(a)
    ensures DistinctLikes(b)
  {
    forall x, y | x in b && y in b && x != y ensures Likes(x) != Likes(y) {
      assert x in multiset(b) && y in multiset(b);
      assert x in a && y in a;
    }
  }

  /** Dropping the first film keeps a ranking a ranking. */
  lemma RankingTail(a: seq<Film>)
    requires a != [] && NonIncreasing(a) && DistinctLikes(a)
    ensures NonIncreasing(a[1..]) && DistinctLikes(a[1..])
    ensures multiset(a[1..]) == multiset(a) - multiset([a[0]])
  {
    var a' := a[1..];
    assert a == [a[0]] + a';
    forall i, j | 0 <= i < j < |a'| ensures Likes(a'[i]) >= Likes(a'[j]) {
      assert a'[i] == a[i + 1] && a'[j] == a[j + 1];
    }
    forall x, y | x in a' && y in a' && x != y ensures Likes(x) != Likes(y) {
      assert x in a && y in a;
    }
  }

  /** Two rankings of the same films agree as soon as no two distinct films
      share a like count: the order among equally liked films is the only
      thing the input order decides. */
  lemma {:induction false} RankingDeterminedByLikes(a: seq<Film>, b: seq<Film>)
    requires NonIncreasing(a) && NonIncreasing(b)
    requires multiset(a) == multiset(b)
    requires DistinctLikes(a)
    ensures a == b
  {
    if a != [] {
      SameHead(a, b);
      DistinctLikesPermutation(a, b);
      RankingTail(a);
      RankingTail(b);
      RankingDeterminedByLikes(a[1..], b[1..]);
      assert a == [a[0]] + a[1..] && b == [b[0]] + b[1..];
    }
  }

  /** Whatever order the films come in, distinct like counts fix the ranking. */
  lemma TopIndependentOfOrder(s: seq<Film>, t: seq<Film>, count: nat)
    requires multiset(s) == multiset(t)
    requires DistinctLikes(s)
    ensures Top(s, count) == Top(t, count)
  {
    var a, b := SortByLikes(s), SortByLikes(t);
    assert multiset(a) == multiset(b);
    DistinctLikesPermutation(s, a);
    RankingDeterminedByLikes(a, b);
  }

  /** The ranking example: a film liked by two users comes before one liked
      by a single user, whichever the store yields first. */
  lemma TwoLikesBeforeOne(matrix: Film, up: Film)
    requires Likes(matrix) == 1 && Likes(up) == 2
    ensures Top([matrix, up], 2) == [up, matrix]
    ensures Top([up, matrix], 2) == [up, matrix]
  {
    assert [matrix, up][1..] == [up] && [up][1..] == [];
    assert Insert(up, []) == [up];
    assert SortByLikes([up]) == [up];
    assert Insert(matrix, []) == [matrix];
    assert Insert(matrix, [up]) == [up] + Insert(matrix, []);
    assert SortByLikes([matrix, up]) == [up, matrix];
    assert [up, matrix][1..] == [matrix] && [matrix][1..] == [];
    assert SortByLikes([matrix]) == [matrix];
    assert Insert(up, [matrix]) == [up, matrix];
    assert SortByLikes([up, matrix]) == [up, matrix];
  }
}
