/** The rows of the two SQLite tables created by init_db (app.py:27-47) and the
    queries the handlers issue against them, as functions over the tables' rows.
    Both tables are filtered the same way (`WHERE board=?` on threads, `WHERE thread_id=?`
    on replies), so their id-order predicates, filters and order lemmas come in pairs of
    the same shape, one per row type. */
module Tables {
  import opened Wrappers

  /** A row of `threads` (app.py:28-36). Timestamps are integers: the stored text
      "%Y-%m-%d %H:%M:%S" sorts in the same order as the instants it denotes. */
  datatype Thread = Thread(
    id: int,
    board: string,
    title: string,
    content: string,
    image: Option<string>,
    createdAt: int,
    bumpTime: int)

  /** A row of `replies` (app.py:39-46). `threadId` is not checked against `threads`:
      SQLite leaves the FOREIGN KEY unenforced unless it is switched on. */
  datatype Reply = Reply(
    id: int,
    threadId: int,
    content: string,
    image: Option<string>,
    createdAt: int)

  /** Rows in strictly ascending id order, as AUTOINCREMENT issues them. */
  ghost predicate ThreadIdsAscending(ts: seq<Thread>)
  {
    forall i, j :: 0 <= i < j < |ts| ==> ts[i].id < ts[j].id
  }

  ghost predicate ReplyIdsAscending(rs: seq<Reply>)
  {
    forall i, j :: 0 <= i < j < |rs| ==> rs[i].id < rs[j].id
  }

  /** `SELECT * FROM threads WHERE board=?`, in table order. */
  function ThreadsOn(ts: seq<Thread>, board: string): (r: seq<Thread>)
    ensures forall t :: t in r <==> t in ts && t.board == board
    ensures |r| <= |ts|
  {
    if |ts| == 0 then []
    else
      var last := ts[|ts| - 1];
      ThreadsOn(ts[..|ts| - 1], board) + (if last.board == board then [last] else [])
  }

  /** Filtering keeps ascending id order, so `WHERE board=?` returns each row of the board
      once, in table order. */
  lemma {:induction false} ThreadsOnAscending(ts: seq<Thread>, board: string)
    requires ThreadIdsAscending(ts)
    ensures ThreadIdsAscending(ThreadsOn(ts, board))
  {
    if |ts| > 0 {
      var init := ts[..|ts| - 1];
      ThreadsOnAscending(init, board);
      var r := ThreadsOn(ts, board);
      var p := ThreadsOn(init, board);
      forall i, j | 0 <= i < j < |r| ensures r[i].id < r[j].id {
        if j >= |p| {
          assert r[i] in init;
          assert r[j] == ts[|ts| - 1];
        }
      }
    }
  }

  /** `SELECT * FROM replies WHERE thread_id=? ORDER BY id ASC` (app.py:145, app.py:78-80):
      the replies of one thread, in table order, which is id order. */
  function RepliesOf(rs: seq<Reply>, threadId: int): (r: seq<Reply>)
    ensures forall x :: x in r <==> x in rs && x.threadId == threadId
    ensures |r| <= |rs|
  {
    if |rs| == 0 then []
    else
      var last := rs[|rs| - 1];
      RepliesOf(rs[..|rs| - 1], threadId) + (if last.threadId == threadId then [last] else [])
  }

  /** Filtering keeps ascending id order, so RepliesOf is the thread's replies sorted by id. */
  lemma {:induction false} RepliesOfAscending(rs: seq<Reply>, threadId: int)
    requires ReplyIdsAscending(rs)
    ensures ReplyIdsAscending(RepliesOf(rs, threadId))
  {
    if |rs| > 0 {
      var init := rs[..|rs| - 1];
      RepliesOfAscending(init, threadId);
      var r := RepliesOf(rs, threadId);
      var p := RepliesOf(init, threadId);
      forall i, j | 0 <= i < j < |r| ensures r[i].id < r[j].id {
        if j >= |p| {
          assert r[i] in init;
          assert r[j] == rs[|rs| - 1];
        }
      }
    }
  }

  /** Adding one reply row changes only the reply list of the thread it names. */
  lemma RepliesOfAppend(rs: seq<Reply>, x: Reply, threadId: int)
    ensures RepliesOf(rs + [x], threadId)
         == RepliesOf(rs, threadId) + (if x.threadId == threadId then [x] else [])
  {
    assert (rs + [x])[..|rs|] == rs;
  }

  /** Appending a reply newer than every row keeps the table in id order and extends the reply
      list of its own thread only. */
  lemma AppendNewest(rs: seq<Reply>, row: Reply)
    requires ReplyIdsAscending(rs)
    requires forall i :: 0 <= i < |rs| ==> rs[i].id < row.id
    ensures ReplyIdsAscending(rs + [row])
    ensures forall threadId ::
      RepliesOf(rs + [row], threadId) == RepliesOf(rs, threadId) + (if row.threadId == threadId then [row] else [])
  {
    forall threadId ensures RepliesOf(rs + [row], threadId)
      == RepliesOf(rs, threadId) + (if row.threadId == threadId then [row] else [])
    {
      RepliesOfAppend(rs, row, threadId);
    }
  }

  /** `SELECT COUNT(*) FROM replies WHERE thread_id=?` (app.py:73-74) counts distinct rows:
      with ascending (hence distinct) ids, that is the length of the thread's reply list. */
  lemma {:induction false} ReplyCountIsCount(rs: seq<Reply>, threadId: int)
    requires ReplyIdsAscending(rs)
    ensures |RepliesOf(rs, threadId)| == |set x | x in rs && x.threadId == threadId|
  {
    if |rs| > 0 {
      var init := rs[..|rs| - 1];
      var last := rs[|rs| - 1];
      ReplyCountIsCount(init, threadId);
      RowsOfLast(rs, threadId);
    }
  }

  /** The rows of `rs` with that thread id are those of its prefix, plus the last row when it
      matches; with ascending ids the last row is not already among them. */
  lemma RowsOfLast(rs: seq<Reply>, threadId: int)
    requires ReplyIdsAscending(rs) && |rs| > 0
    ensures var init, last := rs[..|rs| - 1], rs[|rs| - 1];
      var s0 := set x | x in init && x.threadId == threadId;
      && (set x | x in rs && x.threadId == threadId)
         == s0 + (if last.threadId == threadId then {last} else {})
      && last !in s0
  {
    var init, last := rs[..|rs| - 1], rs[|rs| - 1];
    assert rs == init + [last];
    forall k | 0 <= k < |init| ensures init[k] != last {
      assert rs[k].id < rs[|rs| - 1].id;
    }
  }

  /** The board preview: `ORDER BY id ASC LIMIT 3` (app.py:77-83), the first replies. */
  const PreviewSize: nat := 3

  function Preview(rs: seq<Reply>, threadId: int): (p: seq<Reply>)
    ensures |p| <= PreviewSize
  {
    var all := RepliesOf(rs, threadId);
    if |all| <= PreviewSize then all else all[..PreviewSize]
  }

  /** The preview holds the earliest replies of the thread: at most three, all of that thread,
      in ascending id order, a prefix of the thread's reply list, as long as it can be, and
      every reply of the thread left out of it is newer than every reply in it. */
  lemma PreviewEarliest(rs: seq<Reply>, threadId: int)
    requires ReplyIdsAscending(rs)
    ensures var p := Preview(rs, threadId);
      && |p| <= PreviewSize
      && (forall x :: x in p ==> x in rs && x.threadId == threadId)
      && ReplyIdsAscending(p)
      && p == RepliesOf(rs, threadId)[..|p|]
      && (|p| == PreviewSize || p == RepliesOf(rs, threadId))
      && (forall x, y :: x in p && y in rs && y.threadId == threadId && y !in p ==> x.id < y.id)
  {
    var all := RepliesOf(rs, threadId);
    var p := Preview(rs, threadId);
    RepliesOfAscending(rs, threadId);
    assert p == all[..|p|];
    PrefixIsOlder(all, |p|);
  }

  /** In a list in ascending id order, every row of a prefix is older than every row after it. */
  lemma PrefixIsOlder(all: seq<Reply>, n: nat)
    requires ReplyIdsAscending(all) && n <= |all|
    ensures ReplyIdsAscending(all[..n])
    ensures forall x, y :: x in all[..n] && y in all && y !in all[..n] ==> x.id < y.id
  {
    var p := all[..n];
    forall x, y | x in p && y in all && y !in p
      ensures x.id < y.id
    {
      var i :| 0 <= i < n && p[i] == x;
      var j :| 0 <= j < |all| && all[j] == y;
      assert all[i] == x;
      assert forall k :: 0 <= k < n ==> all[k] in p;
    }
  }

  /** `SELECT * FROM threads WHERE id=?` (app.py:139-140): the position of the row with that id. */
  function FindThread(ts: seq<Thread>, id: int): (r: Option<nat>)
    ensures r.Some? ==> r.value < |ts| && ts[r.value].id == id
    ensures r.None? <==> forall i :: 0 <= i < |ts| ==> ts[i].id != id
  {
    if |ts| == 0 then None
    else if ts[|ts| - 1].id == id then Some(|ts| - 1)
    else FindThread(ts[..|ts| - 1], id)
  }

  /** `UPDATE threads SET bump_time=? WHERE id=?` (app.py:148-149, app.py:177): every row
      with that id gets the new bump time; no other column and no other row changes. */
  function Bumped(ts: seq<Thread>, id: int, now: int): (r: seq<Thread>)
    ensures |r| == |ts|
    ensures forall i :: 0 <= i < |ts| ==> r[i].(bumpTime := ts[i].bumpTime) == ts[i]
    ensures forall i :: 0 <= i < |ts| && ts[i].id == id ==> r[i].bumpTime == now
    ensures forall i :: 0 <= i < |ts| && ts[i].id != id ==> r[i] == ts[i]
  {
    seq(|ts|, i requires 0 <= i < |ts| => if ts[i].id == id then ts[i].(bumpTime := now) else ts[i])
  }

  /** With unique ids the UPDATE touches nothing when no row has the id, and otherwise
      exactly the row FindThread locates. */
  lemma BumpedIsPointUpdate(ts: seq<Thread>, id: int, now: int)
    requires ThreadIdsAscending(ts)
    ensures FindThread(ts, id).None? ==> Bumped(ts, id, now) == ts
    ensures FindThread(ts, id).Some? ==>
      var k := FindThread(ts, id).value;
      Bumped(ts, id, now) == ts[k := ts[k].(bumpTime := now)]
  {
    var r := Bumped(ts, id, now);
    match FindThread(ts, id)
    case None =>
      assert forall i :: 0 <= i < |ts| ==> r[i] == ts[i];
    case Some(k) =>
      forall i | 0 <= i < |ts| ensures r[i] == ts[k := ts[k].(bumpTime := now)][i] {
        if i != k {
          assert ts[i].id != ts[k].id by {
            if i < k { assert ts[i].id < ts[k].id; } else { assert ts[k].id < ts[i].id; }
          }
        }
      }
  }

  /** The board listing `ORDER BY bump_time DESC LIMIT n` (app.py:67) up to the order of
      ties, which SQL leaves undefined: `r` is min(n, |pool|) rows of `pool`, with bump times
      non-increasing, and no row of `pool` left out is bumped later than a row listed. */
  ghost predicate IsBumpListing(pool: seq<Thread>, r: seq<Thread>, n: nat)
  {
    && |r| == (if |pool| < n then |pool| else n)
    && multiset(r) <= multiset(pool)
    && (forall i, j :: 0 <= i < j < |r| ==> r[i].bumpTime >= r[j].bumpTime)
    && (forall t, i :: t in pool && t !in r && 0 <= i < |r| ==> t.bumpTime <= r[i].bumpTime)
  }

  /** Bumping to the top: a row bumped strictly later than every other row of the pool is
      listed first, whatever order the ties elsewhere take. */
  lemma ListingLeader(pool: seq<Thread>, r: seq<Thread>, n: nat, t: Thread)
    requires IsBumpListing(pool, r, n) && n > 0
    requires t in pool
    requires forall u :: u in pool && u != t ==> u.bumpTime < t.bumpTime
    ensures |r| > 0 && r[0] == t
  {
    assert |r| > 0;
    assert r[0] in multiset(r);
    assert r[0] in pool;
    if t in r {
      var k :| 0 <= k < |r| && r[k] == t;
      assert r[0].bumpTime >= r[k].bumpTime;
    }
    assert t.bumpTime <= r[0].bumpTime;
  }

  /** Every listed row is a row of the pool. */
  lemma ListedFromPool(pool: seq<Thread>, r: seq<Thread>, n: nat)
    requires IsBumpListing(pool, r, n)
    ensures forall i :: 0 <= i < |r| ==> r[i] in pool
  {
    forall i | 0 <= i < |r| ensures r[i] in pool {
      assert r[i] in multiset(r);
    }
  }

  /** A row occurs at most once in a table with ascending ids. */
  lemma {:induction false} AscendingOnce(ts: seq<Thread>, t: Thread)
    requires ThreadIdsAscending(ts)
    ensures multiset(ts)[t] <= 1
  {
    if |ts| > 0 {
      var init := ts[..|ts| - 1];
      assert ts == init + [ts[|ts| - 1]];
      AscendingOnce(init, t);
      if t == ts[|ts| - 1] {
        assert t !in init;
      }
    }
  }

  /** In a table with ascending ids, the id determines the row. */
  lemma RowOfId(ts: seq<Thread>, x: Thread, y: Thread)
    requires ThreadIdsAscending(ts) && x in ts && y in ts && x.id == y.id
    ensures x == y
  {
  }

  /** A row at two positions of a sequence is counted twice by its multiset. */
  lemma CountedTwice(r: seq<Thread>, i: nat, j: nat)
    requires i < j < |r| && r[i] == r[j]
    ensures multiset(r)[r[i]] >= 2
  {
    assert r == r[..j] + r[j..];
    assert r[i] in r[..j] && r[j] in r[j..];
  }

  /** A listing of a pool in ascending id order never shows a thread twice. */
  lemma ListedOnce(pool: seq<Thread>, r: seq<Thread>, n: nat)
    requires ThreadIdsAscending(pool) && IsBumpListing(pool, r, n)
    ensures forall i, j :: 0 <= i < j < |r| ==> r[i].id != r[j].id
  {
    ListedFromPool(pool, r, n);
    forall i, j | 0 <= i < j < |r| ensures r[i].id != r[j].id {
      if r[i].id == r[j].id {
        RowOfId(pool, r[i], r[j]);
        CountedTwice(r, i, j);
        AscendingOnce(pool, r[i]);
      }
    }
  }

  /** Bumping to the top: when one thread of a board is bumped at an instant later than the
      bump time of every other thread of that board, any listing of the board puts it first. */
  lemma BumpedThreadLeads(ts: seq<Thread>, k: nat, now: int, r: seq<Thread>, n: nat)
    requires ThreadIdsAscending(ts) && k < |ts| && n > 0
    requires forall i :: 0 <= i < |ts| && i != k && ts[i].board == ts[k].board ==> ts[i].bumpTime < now
    requires IsBumpListing(ThreadsOn(Bumped(ts, ts[k].id, now), ts[k].board), r, n)
    ensures |r| > 0 && r[0] == ts[k].(bumpTime := now)
  {
    var t := ts[k].(bumpTime := now);
    var ts' := Bumped(ts, ts[k].id, now);
    var pool := ThreadsOn(ts', ts[k].board);
    BumpedIsPointUpdate(ts, ts[k].id, now);
    assert FindThread(ts, ts[k].id) == Some(k);
    assert ts'[k] == t;
    forall u | u in pool && u != t ensures u.bumpTime < t.bumpTime {
      var i :| 0 <= i < |ts'| && ts'[i] == u;
      assert i != k;
      assert u == ts[i];
    }
    ListingLeader(pool, r, n, t);
  }
}
