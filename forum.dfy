/** The thread/reply store behind the Flask handlers of app.py, held in memory: the two
    tables as sequences of rows in id order and their AUTOINCREMENT counters. */
module Forum {
  import opened Wrappers
  import opened Uploads
  import opened Tables
  import Listing

  /** The fixed set of board codes and their display names (app.py:11-21). */
  const Boards: map<string, string> := map[
    "b" := "Бред",
    "a" := "Аниме",
    "v" := "Видеоигры",
    "mu" := "Музыка",
    "t" := "Технологии",
    "m" := "Мужчины",
    "f" := "Девушки",
    "c" := "Комиксы",
    "k" := "Книги"]

  /** `BOARDS.get(board, "")` (app.py:155): a display name exactly for the known codes. */
  function BoardName(board: string): (name: string)
    ensures name != "" <==> board in Boards
    ensures name == "" || name in Boards.Values
  {
    if board in Boards then Boards[board] else ""
  }

  /** The largest integer sqlite3 binds as a parameter (a signed 64-bit SQLite INTEGER); a
      larger Python int makes the statement raise OverflowError before it runs. */
  const MaxSqliteInteger: int := 0x7FFF_FFFF_FFFF_FFFF

  /** What a handler answers: a page, a redirect, or a server error from an exception. */
  datatype Response<T> = Shown(value: T) | Redirect | ServerError

  /** `LIMIT 10` of the board query (app.py:67). */
  const ListSize: nat := 10

  /** One entry of the board page (app.py:86-96). `preview` is the source's `last_replies`,
      which holds the EARLIEST replies (ORDER BY id ASC LIMIT 3). */
  datatype ThreadSummary = ThreadSummary(thread: Thread, replyCount: nat, preview: seq<Reply>)

  datatype BoardPage = BoardPage(board: string, boardName: string, threads: seq<ThreadSummary>)

  datatype ThreadPage = ThreadPage(thread: Thread, replies: seq<Reply>, boardName: string)

  function Listed(ss: seq<ThreadSummary>): (ts: seq<Thread>)
    ensures |ts| == |ss|
    ensures forall i :: 0 <= i < |ss| ==> ts[i] == ss[i].thread
  {
    seq(|ss|, i requires 0 <= i < |ss| => ss[i].thread)
  }

  /** The effect of an accepted reply (app.py:172-177) on the tables, from the state before
      (`ts0`, `rs0`, `next0`) to the state after (`ts`, `rs`, `next`): exactly `row` appended with
      the next reply id, newer than every earlier reply; the UPDATE bumps the thread it names
      if there is one and changes no other row; only that thread's reply list grows. */
  ghost predicate ReplyPosted(ts0: seq<Thread>, rs0: seq<Reply>, next0: int, row: Reply,
                              ts: seq<Thread>, rs: seq<Reply>, next: int, now: int)
  {
    && rs == rs0 + [row]
    && next == next0 + 1
    && (forall x :: x in rs0 ==> x.id < row.id)
    && ts == Bumped(ts0, row.threadId, now)
    && (FindThread(ts0, row.threadId).None? ==> ts == ts0)
    && (FindThread(ts0, row.threadId).Some? ==>
         var k := FindThread(ts0, row.threadId).value;
         ts == ts0[k := ts0[k].(bumpTime := now)])
    && RepliesOf(rs, row.threadId) == RepliesOf(rs0, row.threadId) + [row]
    && (forall other :: other != row.threadId ==> RepliesOf(rs, other) == RepliesOf(rs0, other))
  }

  class Store {
    var threads: seq<Thread>
    var replies: seq<Reply>
    /** The next id AUTOINCREMENT hands out in each table; ids are never reused. */
    var nextThreadId: int
    var nextReplyId: int

    ghost predicate Valid()
      reads this
    {
      && 1 <= nextThreadId && 1 <= nextReplyId
      && ThreadIdsAscending(threads)
      && ReplyIdsAscending(replies)
      && (forall i :: 0 <= i < |threads| ==> 1 <= threads[i].id < nextThreadId)
      && (forall i :: 0 <= i < |replies| ==> 1 <= replies[i].id < nextReplyId)
      && (forall i :: 0 <= i < |threads| ==> threads[i].board in Boards)
    }

    /** init_db on a fresh database file (app.py:24-48): two empty tables. */
    constructor ()
      ensures Valid()
      ensures threads == [] && replies == []
      ensures nextThreadId == 1 && nextReplyId == 1
    {
      threads, replies := [], [];
      nextThreadId, nextReplyId := 1, 1;
    }

    /** The POST branch of create_thread (app.py:104-130). An unknown board is a redirect with
        no write; otherwise one row is inserted, created and bumped `now`, and its id returned. */
    method CreateThread(board: string, title: string, content: string,
                        file: Option<string>, secure: string -> string, now: int)
      returns (id: Option<int>)
      requires Valid()
      modifies this
      ensures Valid()
      ensures replies == old(replies) && nextReplyId == old(nextReplyId)
      ensures board !in Boards ==> id.None? && threads == old(threads) && nextThreadId == old(nextThreadId)
      ensures board in Boards ==>
        && id == Some(old(nextThreadId))
        && threads == old(threads) + [Thread(id.value, board, title, content, StoredImage(file, secure), now, now)]
        && nextThreadId == old(nextThreadId) + 1
        && (forall t :: t in old(threads) ==> t.id < id.value)
        && ThreadsOn(threads, board) == ThreadsOn(old(threads), board) + [threads[|threads| - 1]]
    {
      if board !in Boards {
        return None;
      }
      var filename := StoredImage(file, secure);
      var row := Thread(nextThreadId, board, title, content, filename, now, now);
      ghost var before := threads;
      threads := threads + [row];
      assert threads[..|before|] == before;
      id := Some(nextThreadId);
      nextThreadId := nextThreadId + 1;
    }

    /** reply (app.py:158-180): the reply row is inserted whether or not the thread exists,
        then `UPDATE threads SET bump_time=? WHERE id=?` bumps the thread if there is one.
        A thread id beyond a SQLite INTEGER makes the INSERT raise: nothing is written and
        the request fails (`ok` is false). */
    method PostReply(threadId: nat, content: string,
                     file: Option<string>, secure: string -> string, now: int)
      returns (ok: bool)
      requires Valid()
      modifies this
      ensures Valid()
      ensures ok <==> threadId <= MaxSqliteInteger
      ensures !ok ==> && threads == old(threads) && replies == old(replies)
                      && nextThreadId == old(nextThreadId) && nextReplyId == old(nextReplyId)
      ensures ok ==> ReplyPosted(old(threads), old(replies), old(nextReplyId),
                                 Reply(old(nextReplyId), threadId, content, StoredImage(file, secure), now),
                                 threads, replies, nextReplyId, now)
      ensures nextThreadId == old(nextThreadId)
    {
      if threadId > MaxSqliteInteger {
        return false;
      }
      ok := true;
      var row := Reply(nextReplyId, threadId, content, StoredImage(file, secure), now);
      ghost var threads0, replies0, next0 := threads, replies, nextReplyId;
      Insert(row);
      Bump(threadId, now);
      assert ReplyPosted(threads0, replies0, next0, row, threads, replies, nextReplyId, now);
    }

    /** `INSERT INTO replies` (app.py:172-175) of a row carrying the next reply id: the row
        joins the reply list of the thread it names, and of no other thread. */
    method Insert(row: Reply)
      requires Valid() && row.id == nextReplyId
      modifies this`replies, this`nextReplyId
      ensures Valid()
      ensures replies == old(replies) + [row] && nextReplyId == old(nextReplyId) + 1
      ensures forall x :: x in old(replies) ==> x.id < row.id
      ensures RepliesOf(replies, row.threadId) == RepliesOf(old(replies), row.threadId) + [row]
      ensures forall other :: other != row.threadId ==> RepliesOf(replies, other) == RepliesOf(old(replies), other)
    {
      AppendNewest(replies, row);
      replies := replies + [row];
      nextReplyId := nextReplyId + 1;
    }

    /** `UPDATE threads SET bump_time=? WHERE id=?` (app.py:148-149, app.py:177). */
    method Bump(threadId: int, now: int)
      requires Valid()
      modifies this`threads
      ensures Valid()
      ensures threads == Bumped(old(threads), threadId, now)
      ensures FindThread(old(threads), threadId).None? ==> threads == old(threads)
      ensures FindThread(old(threads), threadId).Some? ==>
        var k := FindThread(old(threads), threadId).value;
        threads == old(threads)[k := old(threads)[k].(bumpTime := now)]
    {
      BumpedIsPointUpdate(threads, threadId, now);
      var found := FindThread(threads, threadId);
      if found.Some? {
        var k := found.value;
        threads := threads[k := threads[k].(bumpTime := now)];
      }
    }

    /** thread (app.py:135-155): a missing id is a redirect with no write; otherwise the row
        as fetched, its replies in id order, and then the row's bump time is set to `now`.
        A thread id beyond a SQLite INTEGER makes the first SELECT raise: a server error,
        nothing written. */
    method ViewThread(threadId: nat, now: int) returns (page: Response<ThreadPage>)
      requires Valid()
      modifies this
      ensures Valid()
      ensures replies == old(replies)
      ensures nextThreadId == old(nextThreadId) && nextReplyId == old(nextReplyId)
      ensures page.ServerError? <==> threadId > MaxSqliteInteger
      ensures page.Redirect? <==>
        threadId <= MaxSqliteInteger && forall t :: t in old(threads) ==> t.id != threadId
      ensures !page.Shown? ==> threads == old(threads)
      ensures page.Shown? ==>
        && FindThread(old(threads), threadId).Some?
        && var k := FindThread(old(threads), threadId).value;
        && page.value.thread == old(threads)[k]
        && page.value.boardName == Boards[old(threads)[k].board]
        && (forall x :: x in page.value.replies <==> x in replies && x.threadId == threadId)
        && ReplyIdsAscending(page.value.replies)
        && threads == old(threads)[k := old(threads)[k].(bumpTime := now)]
    {
      if threadId > MaxSqliteInteger {
        return ServerError;
      }
      var found := FindThread(threads, threadId);
      if found.None? {
        return Redirect;
      }
      var thread := threads[found.value];
      var rows := RepliesOf(replies, threadId);
      RepliesOfAscending(replies, threadId);
      threads := threads[found.value := thread.(bumpTime := now)];
      page := Shown(ThreadPage(thread, rows, BoardName(thread.board)));
    }

    /** board (app.py:60-102): an unknown board is a redirect; otherwise the board's ten
        latest-bumped threads, each with its reply count and the preview of its first replies.
        Nothing is written. */
    method ListBoard(board: string) returns (page: Response<BoardPage>)
      requires Valid()
      ensures page.Redirect? <==> board !in Boards
      ensures !page.ServerError?
      ensures page.Shown? ==>
        && page.value.board == board
        && page.value.boardName == Boards[board]
        && |page.value.threads| <= ListSize
        && IsBumpListing(ThreadsOn(threads, board), Listed(page.value.threads), ListSize)
        && (forall i, j :: 0 <= i < j < |page.value.threads| ==>
              page.value.threads[i].thread.id != page.value.threads[j].thread.id)
        && forall k :: 0 <= k < |page.value.threads| ==>
          var s := page.value.threads[k];
          && s.thread in threads
          && s.thread.board == board
          && s.replyCount == |set x | x in replies && x.threadId == s.thread.id|
          && s.preview == Preview(replies, s.thread.id)
    {
      if board !in Boards {
        return Redirect;
      }
      var pool := ThreadsOn(threads, board);
      var top := Listing.TopByBump(pool, ListSize);
      ListedFromPool(pool, top, ListSize);
      ThreadsOnAscending(threads, board);
      ListedOnce(pool, top, ListSize);
      assert forall k :: 0 <= k < |top| ==> top[k] in threads && top[k].board == board;
      var enriched := Summarise(top);
      page := Shown(BoardPage(board, Boards[board], enriched));
    }

    /** The loop of board (app.py:71-96): for each listed thread, its `COUNT(*)` of replies
        and the preview of its first replies, in listing order. */
    method Summarise(top: seq<Thread>) returns (enriched: seq<ThreadSummary>)
      requires Valid()
      ensures Listed(enriched) == top
      ensures forall k :: 0 <= k < |top| ==>
        && enriched[k].replyCount == |set x | x in replies && x.threadId == top[k].id|
        && enriched[k].preview == Preview(replies, top[k].id)
    {
      enriched := [];
      for i := 0 to |top|
        invariant |enriched| == i
        invariant forall k :: 0 <= k < i ==> enriched[k].thread == top[k]
        invariant forall k :: 0 <= k < i ==>
          && enriched[k].replyCount == |set x | x in replies && x.threadId == top[k].id|
          && enriched[k].preview == Preview(replies, top[k].id)
      {
        var t := top[i];
        var replyCount := |RepliesOf(replies, t.id)|;
        ReplyCountIsCount(replies, t.id);
        var lastReplies := Preview(replies, t.id);
        enriched := enriched + [ThreadSummary(t, replyCount, lastReplies)];
      }
    }
  }

  /** Clients of the store: what the handlers' contracts alone let a caller conclude.
      First, on a fresh store, a thread on an unknown board and one on /b/. */
  method WalkthroughCreate(secure: string -> string) returns (store: Store)
    ensures fresh(store) && store.Valid()
    ensures store.threads == [Thread(1, "b", "", "hello", None, 100, 100)]
  {
    store := new Store();
    assert "zz" !in Boards && "b" in Boards;
    assert StoredImage(None, secure) == None;
    var bad := store.CreateThread("zz", "", "hello", None, secure, 100);
    assert bad.None? && store.threads == [];
    var id := store.CreateThread("b", "", "hello", None, secure, 100);
    assert id == Some(1);
  }

  /** Then a reply to that thread bumps it, and a reply to a missing thread bumps nothing. */
  method WalkthroughReply(store: Store, secure: string -> string)
    requires store.Valid()
    requires store.threads == [Thread(1, "b", "", "hello", None, 100, 100)]
    modifies store
    ensures store.Valid()
    ensures store.threads == [Thread(1, "b", "", "hello", None, 100, 200)]
    ensures |RepliesOf(store.replies, 1)| == |RepliesOf(old(store.replies), 1)| + 1
  {
    var t1 := store.threads[0];
    assert FindThread(store.threads, 1) == Some(0);
    var ok := store.PostReply(1, "hi", None, secure, 200);
    assert ok && store.threads == [t1.(bumpTime := 200)];
    assert FindThread(store.threads, 7) == None;
    ok := store.PostReply(7, "to nowhere", None, secure, 300);
    assert ok && store.threads == [t1.(bumpTime := 200)];
    assert store.replies[|store.replies| - 1].threadId == 7;
  }

  /** Viewing the thread shows it as stored and then bumps it; an id no SQLite INTEGER holds
      is a server error. */
  method WalkthroughView(store: Store)
    requires store.Valid()
    requires store.threads == [Thread(1, "b", "", "hello", None, 100, 200)]
    modifies store
    ensures store.Valid()
    ensures store.threads == [Thread(1, "b", "", "hello", None, 100, 400)]
  {
    var t1 := store.threads[0];
    assert t1 in store.threads;
    var page := store.ViewThread(1, 400);
    assert page.Shown? && page.value.thread.bumpTime == 200;
    assert store.threads == [t1.(bumpTime := 400)];
    var huge := store.ViewThread(MaxSqliteInteger + 1, 500);
    assert huge.ServerError?;
  }

  /** The three steps in sequence; then the board page lists the one thread of /b/ once. */
  method Walkthrough(secure: string -> string)
  {
    var store := WalkthroughCreate(secure);
    WalkthroughReply(store, secure);
    WalkthroughView(store);
    assert store.threads[0].bumpTime == 400;
    var page := store.ListBoard("b");
    assert "b" in Boards;
    assert ThreadsOn(store.threads, "b") == store.threads;
    assert page.Shown? && |page.value.threads| == 1;
  }
}
