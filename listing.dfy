/** The database's evaluation of `ORDER BY bump_time DESC LIMIT n` (app.py:67), by repeated
    selection of the latest-bumped remaining row. Its contract leaves the order of ties open. */
module Listing {
  import opened Tables

  /** The position of a row whose bump time no other row exceeds. */
  method LatestBumped(s: seq<Thread>) returns (m: nat)
    requires |s| > 0
    ensures m < |s|
    ensures forall k :: 0 <= k < |s| ==> s[k].bumpTime <= s[m].bumpTime
  {
    m := 0;
    var i := 1;
    while i < |s|
      invariant 1 <= i <= |s|
      invariant m < i
      invariant forall k :: 0 <= k < i ==> s[k].bumpTime <= s[m].bumpTime
    {
      if s[i].bumpTime > s[m].bumpTime {
        m := i;
      }
      i := i + 1;
    }
  }

  /** Part way through the selection: `r` is listed, latest first, and `rest` holds the rows of
      `pool` not yet listed, none bumped later than a listed one. */
  ghost predicate Selecting(pool: seq<Thread>, r: seq<Thread>, rest: seq<Thread>)
  {
    && multiset(r) + multiset(rest) == multiset(pool)
    && |r| + |rest| == |pool|
    && (forall i, j :: 0 <= i < j < |r| ==> r[i].bumpTime >= r[j].bumpTime)
    && (forall t, i :: t in rest && 0 <= i < |r| ==> t.bumpTime <= r[i].bumpTime)
  }

  /** Moving a latest-bumped row of `rest` to the end of `r` keeps the selection state. */
  lemma SelectStep(pool: seq<Thread>, r: seq<Thread>, rest: seq<Thread>, m: nat)
    requires Selecting(pool, r, rest)
    requires m < |rest| && forall k :: 0 <= k < |rest| ==> rest[k].bumpTime <= rest[m].bumpTime
    ensures Selecting(pool, r + [rest[m]], rest[..m] + rest[m + 1..])
  {
    var picked := rest[m];
    var rest' := rest[..m] + rest[m + 1..];
    var r' := r + [picked];
    assert rest == rest[..m] + [picked] + rest[m + 1..];
    assert multiset(rest) == multiset(rest') + multiset{picked};
    forall t | t in rest' ensures t in rest && t.bumpTime <= picked.bumpTime {
      var k :| 0 <= k < |rest'| && rest'[k] == t;
      if k < m { assert rest[k] == t; } else { assert rest[k + 1] == t; }
    }
  }

  /** When the selection stops, the listed rows form a bump listing of the pool. */
  lemma SelectDone(pool: seq<Thread>, r: seq<Thread>, rest: seq<Thread>, n: nat)
    requires Selecting(pool, r, rest) && |r| <= n
    requires |r| == n || rest == []
    ensures IsBumpListing(pool, r, n)
  {
    forall t, i | t in pool && t !in r && 0 <= i < |r|
      ensures t.bumpTime <= r[i].bumpTime
    {
      assert t in multiset(pool);
      assert t !in multiset(r);
      assert t in multiset(rest);
    }
  }

  /** The first `n` rows of `pool` by bump time, latest first. */
  method TopByBump(pool: seq<Thread>, n: nat) returns (r: seq<Thread>)
    ensures IsBumpListing(pool, r, n)
  {
    r := [];
    var rest := pool;
    while |r| < n && rest != []
      invariant Selecting(pool, r, rest)
      invariant |r| <= n
      decreases |rest|
    {
      var m := LatestBumped(rest);
      SelectStep(pool, r, rest, m);
      r := r + [rest[m]];
      rest := rest[..m] + rest[m + 1..];
    }
    SelectDone(pool, r, rest, n);
  }
}
