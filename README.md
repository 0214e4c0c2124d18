# Forum thread store — a Dafny model

This project models the core of a small anonymous image-board written with Flask and SQLite
(`app.py`): the two tables `threads` and `replies`, the handlers that write and read them
(`create_thread`, `reply`, `thread`, `board`), and the `allowed_file` check that decides
whether an uploaded file is kept as a post's image.

The database is replaced by an in-memory `Store` class whose fields are the two tables (rows
in id order) and their AUTOINCREMENT counters. Each handler is a method of that class and
states the whole new state of the store. The filters the handlers issue (`WHERE board=?`,
`WHERE thread_id=? ORDER BY id ASC`, `LIMIT 3`, `UPDATE ... WHERE id=?`) are functions over the
rows. `COUNT(*)` is the length of a thread's reply list, which a lemma equates with the number of
reply rows naming that thread. `ORDER BY bump_time DESC LIMIT n` is a method, `TopByBump`,
proved against the tie-agnostic specification `IsBumpListing`. The properties the board page
relies on are lemmas about these.

Modules:

- `Wrappers` (`wrappers.dfy`): `Option`.
- `Uploads` (`uploads.dfy`): `allowed_file` and the upload gate in front of both write handlers.
- `Tables` (`tables.dfy`): the row types, the queries as functions, and the listing
  specification `IsBumpListing` with its lemmas.
- `Listing` (`listing.dfy`): the evaluation of `ORDER BY bump_time DESC LIMIT n`.
- `Forum` (`forum.dfy`): the board configuration and the `Store` class with the handlers.

Choices made in the model:

- Time is an integer parameter `now`. The stored text `%Y-%m-%d %H:%M:%S` orders the same way
  as the instants it denotes, so comparing integers is comparing the stored strings. No
  monotonicity of the clock is assumed: the source reads the wall clock.
- Ids come from per-table counters starting at 1. The source never deletes a row, so SQLite's
  AUTOINCREMENT hands out exactly these values.
- `ORDER BY bump_time DESC` leaves ties in an undefined order. `IsBumpListing` states the listing
  up to that: the right number of rows of the board, bump times non-increasing, and no row left
  out bumped later than a row listed. The method that computes it may break ties any way.
- The board page's `last_replies` (named `preview` here) holds the FIRST three replies by id:
  the query says `ORDER BY id ASC LIMIT 3`, although the comment above it speaks of the last ones.
  The model follows the query.
- A reply to a thread id with no thread is still inserted and bumps nothing: the handler does
  not look the thread up, and SQLite does not enforce the declared foreign key by default.
- The thread id of `thread` and `reply` is a `nat`: Flask's `<int:...>` route converter
  matches any run of decimal digits. sqlite3 binds a Python int only if it fits a signed 64-bit
  SQLite INTEGER; a larger id makes the first statement raise OverflowError, so nothing is
  written and the request ends in a server error. Both handlers model that path.
- Viewing a thread bumps it: `thread` runs `UPDATE threads SET bump_time=?` after reading. The
  page shows the row as read, that is with its bump time before the update.
- `app.py` has no flood control, no per-board thread cap or eviction, no deletion, no
  moderation and no check that `content` is non-empty; none of these is modelled.
- `lower()` is modelled on A–Z only. Among the other characters Python lower-cases, only U+212A
  (Kelvin sign, to "k") and U+0130 (to "i" followed by the combining U+0307) reach an ASCII
  letter. "k" is in none of `png`, `jpg`, `jpeg`, `gif`, and the U+0307 after the "i" stops the
  extension from being one of them, so the verdict of `allowed_file` is the same.

## Model

| member | source | states |
|---|---|---|
| Uploads.AfterLastDot | app.py:52 | `rsplit(".", 1)[1]`: absent exactly when the name has no '.', otherwise the text after the last '.' in the name |
| Uploads.AllowedFile | app.py:51-52 | a file name is allowed iff it has a last '.' and the text after it, lower-cased, is one of png, jpg, jpeg, gif (app.py:9) |
| Uploads.ExtensionAfterLastDot | app.py:52 | the `"." in filename and rsplit(...)[1]` test is the test on the text after the unique last '.' |
| Uploads.LastDotUnique | app.py:52 | the last '.' of a name is unique, so the extension `allowed_file` tests is the text after it |
| Uploads.StoredImage | app.py:113-117 | a post carries an image iff a file was sent whose name has a last '.' followed by an allowed extension in any letter case; it is stored under the sanitised name |
| Tables.ThreadsOn | app.py:67 | `WHERE board=?` keeps exactly the rows of that board |
| Tables.ThreadsOnAscending | app.py:67 | on a table in id order the board's rows come out in ascending id order, so each once |
| Tables.RepliesOf | app.py:145 | `WHERE thread_id=?` keeps exactly the replies naming that thread |
| Tables.RepliesOfAscending | app.py:145 | the replies of a thread come out in ascending id order |
| Tables.RepliesOfAppend | app.py:172-175 | inserting a reply extends the reply list of the thread it names by that reply and leaves every other thread's list unchanged |
| Tables.ReplyCountIsCount | app.py:73-74 | `COUNT(*)` of a thread's replies is the number of distinct reply rows naming that thread |
| Tables.Preview | app.py:77-83 | the preview has at most three replies |
| Tables.PreviewEarliest | app.py:77-83 | the preview is the longest prefix of at most three of the thread's replies by id: all of that thread, ascending, and older than every reply of the thread it leaves out |
| Tables.FindThread | app.py:139-143 | `SELECT ... WHERE id=?` finds a row with that id, and finds none exactly when no row has it |
| Tables.Bumped | app.py:177 | `UPDATE threads SET bump_time=? WHERE id=?`: every row keeps all its other columns, rows with that id get bump time `now`, all other rows are unchanged |
| Tables.BumpedIsPointUpdate | app.py:177 | the bump UPDATE changes nothing when no thread has the id, and otherwise only the bump time of that one thread |
| Tables.ListingLeader | app.py:67 | a thread bumped strictly later than every other thread of the board is listed first, however ties fall |
| Tables.ListedFromPool | app.py:67 | every listed thread is a thread of the queried board |
| Tables.ListedOnce | app.py:67 | a listing of a board whose rows are in id order never shows a thread twice |
| Tables.BumpedThreadLeads | app.py:172-177 | after a thread is bumped at an instant later than every other thread of its board, it heads the board listing |
| Listing.LatestBumped | app.py:67 | picks a row no other row is bumped later than |
| Listing.TopByBump | app.py:67 | `ORDER BY bump_time DESC LIMIT n`: min(n, pool) rows of the pool, bump times non-increasing, no omitted row bumped later than a listed one |
| Forum.BoardName | app.py:155 | `BOARDS.get(board, "")`: the name is non-empty exactly for a known board code, and is then one of the configured display names |
| Forum.Store.constructor | app.py:24-48 | `init_db` on a fresh file: both tables empty, both counters at 1 |
| Forum.Store.CreateThread | app.py:104-130 | unknown board: no write; otherwise exactly one thread appended with created and bump time `now`, an id above every earlier one, returned; replies untouched |
| Forum.Store.PostReply | app.py:158-180 | an id beyond a SQLite INTEGER: a failed request and no write; otherwise `ReplyPosted`: exactly one reply appended with the given thread id, time `now` and a fresh id larger than every earlier one; that thread's reply list grows by exactly that row and every other thread's list is unchanged; the thread with that id, if any, gets bump time `now` and no other row changes |
| Forum.Store.Insert | app.py:172-175 | the row with the next reply id is appended, is newer than every stored reply, and joins the reply list of its own thread and of no other |
| Tables.AppendNewest | app.py:172-175 | appending a reply newer than all stored ones keeps replies in id order and extends exactly its thread's reply list |
| Forum.Store.Bump | app.py:177 | `UPDATE threads SET bump_time=? WHERE id=?`: that thread's bump time is `now`, every other row is unchanged |
| Forum.Store.ViewThread | app.py:135-155 | an id beyond a SQLite INTEGER: a server error and no write; missing id: a redirect, nothing changed; otherwise the row as read, exactly its replies in ascending id order, and only its bump time set to `now` |
| Forum.Store.ListBoard | app.py:60-102 | unknown board: a redirect, and never a server error; otherwise a listing of that board satisfying `IsBumpListing` with limit ten, no thread twice, each with its reply count and its first-three preview; no state changes |
| Forum.Store.Summarise | app.py:71-96 | the listed threads in listing order, each with the number of reply rows naming it and its first-three preview |

## Left out

- HTTP glue: routing, `render_template`, `redirect`/`url_for`, the GET branch of `create_thread`
  that only renders a form, and the 400 Flask returns when the `content` field is missing.
  The handlers take their form fields as parameters and return the data the page shows.
- `secure_filename` is a library function whose code is not part of this model: the handlers take
  it as a parameter `secure`. Saving the file (`file.save`) and serving it
  (`send_from_directory`) are file-system I/O and are not modelled.
- `MAX_CONTENT_LENGTH` is enforced inside Flask, before the handlers run.
- SQLite connections, commits, transactions and durability; `CREATE TABLE IF NOT EXISTS` on a
  file that already holds rows (the constructor models a fresh file).
- `datetime.now()` and its formatting: the time is a parameter.
- Forum.Store.ListBoard and Forum.Store.ViewThread: concurrent requests are not modelled; each
  handler is taken as one atomic step on the store. Flask's server (app.py:245) handles requests
  on separate threads. Each write handler commits one transaction, but `board` reads in
  several statements (the listing, then a COUNT and a preview per thread, app.py:67-83) and
  `thread` reads twice before its UPDATE (app.py:139-148). A reply committed between those
  statements makes the page mix two states. For example, a `reply_count` of 2 can appear next
  to three preview replies. The model's contracts rule that out: in one atomic step the preview
  holds min(3, reply count) replies.
- Forum.Store.CreateThread and Forum.Store.PostReply: the id counters are unbounded integers. SQLite's
  AUTOINCREMENT fails with SQLITE_FULL once the largest id reaches 2^63 - 1; that failure,
  out of reach in practice, is not modelled.
- `setup_tor_hidden_service` and the `__main__` block: process and network bootstrap.
