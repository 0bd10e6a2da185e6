/**
 * The shape shared by every store query of the backend: keep the rows a
 * WHERE clause accepts, ORDER BY a timestamp DESC, then OFFSET and LIMIT.
 * The table is a sequence in insertion order; the order is by the key
 * alone, and rows with equal keys may come in either order, as in SQL.
 */
module Queries {
  import opened Wrappers

  /** The rows of `s` that `keep` accepts, in their original order. */
  function Filter<T(!new)>(s: seq<T>, keep: T -> bool): (r: seq<T>)
    ensures |r| <= |s|
    ensures forall x :: x in r <==> x in s && keep(x)
    ensures forall x :: multiset(r)[x] == if keep(x) then multiset(s)[x] else 0
  {
    if s == [] then []
    else
      var rest := Filter(s[1..], keep);
      assert s == [s[0]] + s[1..];
      if keep(s[0]) then [s[0]] + rest else rest
  }

  /** `s` is ordered newest first: keys never increase along it. */
  ghost predicate NewestFirst<T(!new)>(s: seq<T>, key: T -> int) {
    forall i, j :: 0 <= i < j < |s| ==> key(s[i]) >= key(s[j])
  }

  /** In a newest-first sequence, no element is newer than the head. */
  lemma HeadIsNewest<T(!new)>(s: seq<T>, key: T -> int)
    requires NewestFirst(s, key) && s != []
    ensures forall y :: y in s ==> key(y) <= key(s[0])
  {
    forall y | y in s ensures key(y) <= key(s[0]) {
      var k :| 0 <= k < |s| && s[k] == y;
    }
  }

  /** Putting an element no older than every other in front keeps the order. */
  lemma ConsNewest<T(!new)>(h: T, t: seq<T>, key: T -> int)
    requires NewestFirst(t, key)
    requires forall y :: y in t ==> key(y) <= key(h)
    ensures NewestFirst([h] + t, key)
  {
    var r := [h] + t;
    forall i, j | 0 <= i < j < |r| ensures key(r[i]) >= key(r[j]) {
      assert r[j] == t[j - 1];
      if i > 0 {
        assert r[i] == t[i - 1];
      }
    }
  }

  /** Places `x` into a newest-first sequence, keeping it newest first. */
  function Insert<T(!new)>(x: T, s: seq<T>, key: T -> int): (r: seq<T>)
    requires NewestFirst(s, key)
    ensures |r| == |s| + 1
    ensures NewestFirst(r, key)
    ensures multiset(r) == multiset(s) + multiset{x}
    ensures forall y :: y in r <==> y == x || y in s
  {
    if s == [] then [x]
    else if key(x) >= key(s[0]) then
      assert NewestFirst([x] + s, key) by {
        HeadIsNewest(s, key);
        ConsNewest(x, s, key);
      }
      [x] + s
    else
      var rest := Insert(x, s[1..], key);
      assert NewestFirst([s[0]] + rest, key) by {
        assert s == [s[0]] + s[1..];
        HeadIsNewest(s, key);
        ConsNewest(s[0], rest, key);
      }
      assert multiset(s) == multiset{s[0]} + multiset(s[1..]) by {
        assert s == [s[0]] + s[1..];
      }
      [s[0]] + rest
  }

  /** ORDER BY key DESC over the whole of `s`. */
  function SortNewestFirst<T(!new)>(s: seq<T>, key: T -> int): (r: seq<T>)
    ensures |r| == |s|
    ensures NewestFirst(r, key)
    ensures multiset(r) == multiset(s)
  {
    if s == [] then []
    else
      assert s == [s[0]] + s[1..];
      Insert(s[0], SortNewestFirst(s[1..], key), key)
  }

  /** OFFSET `skip` LIMIT `limit`. */
  function Page<T(!new)>(s: seq<T>, skip: nat, limit: nat): (r: seq<T>)
    ensures |r| == Min(limit, if skip <= |s| then |s| - skip else 0)
    ensures forall i :: 0 <= i < |r| ==> skip + i < |s| && r[i] == s[skip + i]
    ensures forall x :: x in r ==> x in s
    ensures skip == 0 ==> r == s[..|r|]
  {
    var rest := if skip <= |s| then s[skip..] else [];
    if limit <= |rest| then rest[..limit] else rest
  }

  /** Every row `keep` accepts, newest first, with no limit. */
  function AllNewest<T(!new)>(s: seq<T>, keep: T -> bool, key: T -> int): (r: seq<T>)
    ensures NewestFirst(r, key)
    ensures forall x :: x in r <==> x in s && keep(x)
    ensures forall x :: multiset(r)[x] == if keep(x) then multiset(s)[x] else 0
    ensures |r| == |Filter(s, keep)|
  {
    SortNewestFirst(Filter(s, keep), key)
  }

  /** Filtering a newest-first sequence leaves it newest first. */
  lemma {:induction false} FilterKeepsOrder<T(!new)>(s: seq<T>, keep: T -> bool, key: T -> int)
    requires NewestFirst(s, key)
    ensures NewestFirst(Filter(s, keep), key)
  {
    if s != [] {
      assert s == [s[0]] + s[1..];
      FilterKeepsOrder(s[1..], keep, key);
      HeadIsNewest(s, key);
      if keep(s[0]) {
        ConsNewest(s[0], Filter(s[1..], keep), key);
      }
    }
  }

  /** A prefix of a newest-first sequence holds its newest elements. */
  lemma {:induction false} PrefixIsNewest<T(!new)>(s: seq<T>, n: nat, key: T -> int)
    requires NewestFirst(s, key) && n <= |s|
    ensures forall i, y :: 0 <= i < n && y in s && y !in s[..n] ==> key(y) <= key(s[i])
  {
    forall i, y | 0 <= i < n && y in s && y !in s[..n]
      ensures key(y) <= key(s[i])
    {
      var j :| 0 <= j < |s| && s[j] == y;
    }
  }

  /** A page of a newest-first sequence is newest first. */
  lemma PageKeepsOrder<T(!new)>(s: seq<T>, skip: nat, limit: nat, key: T -> int)
    requires NewestFirst(s, key)
    ensures NewestFirst(Page(s, skip, limit), key)
  {
    var r := Page(s, skip, limit);
    forall i, j | 0 <= i < j < |r| ensures key(r[i]) >= key(r[j]) {
      assert r[i] == s[skip + i] && r[j] == s[skip + j];
    }
  }

  /** A page holds no row more often than the sequence it is taken from. */
  lemma PageSubMultiset<T(!new)>(s: seq<T>, skip: nat, limit: nat)
    ensures multiset(Page(s, skip, limit)) <= multiset(s)
  {
    var r := Page(s, skip, limit);
    if skip <= |s| {
      assert s == s[..skip] + s[skip..skip + |r|] + s[skip + |r|..];
      assert r == s[skip..skip + |r|];
    } else {
      assert r == [];
    }
  }

  /**
   * In a newest-first sequence, a row that a prefix holds fewer times than
   * the whole is no newer than any row of the prefix.
   */
  lemma PrefixCopiesAreNewest<T(!new)>(s: seq<T>, n: nat, key: T -> int)
    requires NewestFirst(s, key) && n <= |s|
    ensures forall i, y :: 0 <= i < n && multiset(s[..n])[y] < multiset(s)[y] ==> key(y) <= key(s[i])
  {
    forall i, y | 0 <= i < n && multiset(s[..n])[y] < multiset(s)[y]
      ensures key(y) <= key(s[i])
    {
      assert s == s[..n] + s[n..];
      assert multiset(s) == multiset(s[..n]) + multiset(s[n..]);
      assert y in s[n..];
      var j :| 0 <= j < |s[n..]| && s[n..][j] == y;
      assert s[n + j] == y;
    }
  }

  /** Filtering with a WHERE clause every row satisfies keeps the whole table. */
  lemma {:induction false} FilterAll<T(!new)>(s: seq<T>, keep: T -> bool)
    requires forall x :: x in s ==> keep(x)
    ensures Filter(s, keep) == s
  {
    if s != [] {
      assert s == [s[0]] + s[1..];
      FilterAll(s[1..], keep);
    }
  }

  /** The size of a page depends only on the size of what is paged. */
  lemma PageLength<T(!new)>(all: seq<T>, n: nat, skip: nat, limit: nat)
    requires |all| == n
    ensures |Page(all, skip, limit)| == Min(limit, if skip <= n then n - skip else 0)
  {
  }

  /**
   * What a page of the accepted rows, newest first, holds: the exact number
   * of rows, and without an offset the newest of the accepted rows, all of
   * them when they fit.
   */
  lemma NewestPageFacts<T(!new)>(s: seq<T>, keep: T -> bool, key: T -> int, skip: nat, limit: nat)
    ensures var r := Page(AllNewest(s, keep, key), skip, limit);
      && |r| == Min(limit, if skip <= |Filter(s, keep)| then |Filter(s, keep)| - skip else 0)
      && (forall x :: x in r ==> x in s && keep(x))
      && NewestFirst(r, key)
      && (skip == 0 ==>
           forall i, y :: 0 <= i < |r| && y in s && keep(y) && y !in r ==> key(y) <= key(r[i]))
      && (skip == 0 && |Filter(s, keep)| <= limit ==>
           forall x :: multiset(r)[x] == if keep(x) then multiset(s)[x] else 0)
  {
    var all := AllNewest(s, keep, key);
    var r := Page(all, skip, limit);
    PageLength(all, |Filter(s, keep)|, skip, limit);
    PageKeepsOrder(all, skip, limit, key);
    if skip == 0 {
      PrefixIsNewest(all, |r|, key);
      if |all| <= limit {
        assert r == all;
      }
    }
  }

  /**
   * A page of the accepted rows, newest first, holds no row more often than
   * the table; without an offset, a row it holds fewer times than the table
   * is no newer than any row returned.
   */
  lemma NewestPageCopies<T(!new)>(s: seq<T>, keep: T -> bool, key: T -> int, skip: nat, limit: nat)
    ensures var r := Page(AllNewest(s, keep, key), skip, limit);
      && multiset(r) <= multiset(s)
      && (skip == 0 ==>
           forall i, y :: 0 <= i < |r| && keep(y) && multiset(r)[y] < multiset(s)[y] ==> key(y) <= key(r[i]))
  {
    var all := AllNewest(s, keep, key);
    var r := Page(all, skip, limit);
    PageSubMultiset(all, skip, limit);
    assert multiset(all) <= multiset(s);
    if skip == 0 {
      PrefixCopiesAreNewest(all, |r|, key);
      assert r == all[..|r|];
    }
  }

  /**
   * The query shape: WHERE `keep` ORDER BY `key` DESC OFFSET `skip` LIMIT `limit`.
   * The result is the page at `skip` of every accepted row, newest first;
   * without an offset, the rows returned are the newest of those accepted.
   */
  function NewestPage<T(!new)>(s: seq<T>, keep: T -> bool, key: T -> int, skip: nat, limit: nat): (r: seq<T>)
    ensures r == Page(AllNewest(s, keep, key), skip, limit)
    ensures |r| == Min(limit, if skip <= |Filter(s, keep)| then |Filter(s, keep)| - skip else 0)
    ensures forall x :: x in r ==> x in s && keep(x)
    ensures NewestFirst(r, key)
    ensures skip == 0 ==>
      forall i, y :: 0 <= i < |r| && y in s && keep(y) && y !in r ==> key(y) <= key(r[i])
    ensures skip == 0 && |Filter(s, keep)| <= limit ==>
      forall x :: multiset(r)[x] == if keep(x) then multiset(s)[x] else 0
    ensures multiset(r) <= multiset(s)
    ensures skip == 0 ==>
      forall i, y :: 0 <= i < |r| && keep(y) && multiset(r)[y] < multiset(s)[y] ==> key(y) <= key(r[i])
  {
    NewestPageFacts(s, keep, key, skip, limit);
    NewestPageCopies(s, keep, key, skip, limit);
    Page(AllNewest(s, keep, key), skip, limit)
  }
}
