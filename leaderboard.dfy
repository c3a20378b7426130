/**
 * `get_user_problem_counts`: the leaderboard query. Every `user_problems` row
 * whose user has a `users` row contributes its username; rows are grouped by
 * username (so users sharing a name are merged), counted with `COUNT(*)`
 * (duplicate submissions included) and ordered by count, largest first. SQL
 * leaves the order of equal counts open; `IsLeaderboard` leaves it open too.
 */
module Leaderboard {
  import opened Data

  datatype NameCount = NameCount(username: string, count: nat)

  /** The joined username of each `user_problems` row, in table order (the JOIN). */
  function JoinedNames(users: map<UserId, string>, rows: seq<UserProblem>): (names: seq<string>)
    ensures forall n :: n in names <==> exists r :: r in rows && r.userId in users && users[r.userId] == n
  {
    if rows == [] then []
    else
      var last := rows[|rows| - 1];
      assert rows == rows[..|rows| - 1] + [last];
      JoinedNames(users, rows[..|rows| - 1]) + (if last.userId in users then [users[last.userId]] else [])
  }

  /** One entry per username. */
  predicate DistinctNames(board: seq<NameCount>) {
    forall i, j :: 0 <= i < j < |board| ==> board[i].username != board[j].username
  }

  /** Counts never increase along the board. */
  predicate ByCountDescending(board: seq<NameCount>) {
    forall i, j :: 0 <= i < j < |board| ==> board[i].count >= board[j].count
  }

  /**
   * `board` is a correct answer to the query over the joined usernames `names`:
   * one entry per username that occurs, whose count is its number of occurrences,
   * largest count first.
   */
  predicate IsLeaderboard(names: seq<string>, board: seq<NameCount>) {
    && DistinctNames(board)
    && ByCountDescending(board)
    && (forall i :: 0 <= i < |board| ==>
          board[i].username in names && board[i].count == multiset(names)[board[i].username])
    && (forall n :: n in names ==> exists i :: 0 <= i < |board| && board[i].username == n)
  }

  // ---------------------------------------------------------------------------
  // Grouping

  predicate HasName(board: seq<NameCount>, n: string) {
    exists i :: 0 <= i < |board| && board[i].username == n
  }

  /** Counts one more row for username `n`. */
  function Bump(board: seq<NameCount>, n: string): seq<NameCount> {
    if HasName(board, n) then
      seq(|board|, i requires 0 <= i < |board| =>
        if board[i].username == n then NameCount(n, board[i].count + 1) else board[i])
    else board + [NameCount(n, 1)]
  }

  /** The usernames grouped in order of first occurrence, each with its row count. */
  function Tally(names: seq<string>): seq<NameCount> {
    if names == [] then [] else Bump(Tally(names[..|names| - 1]), names[|names| - 1])
  }

  /** The grouping half of the query: what `IsLeaderboard` asks except the order. */
  predicate Grouped(names: seq<string>, board: seq<NameCount>) {
    && DistinctNames(board)
    && (forall i :: 0 <= i < |board| ==>
          board[i].username in names && board[i].count == multiset(names)[board[i].username])
    && (forall n :: n in names ==> HasName(board, n))
  }

  lemma {:induction false} TallyGroups(names: seq<string>)
    ensures Grouped(names, Tally(names))
  {
    if names != [] {
      var prefix, n := names[..|names| - 1], names[|names| - 1];
      assert names == prefix + [n];
      TallyGroups(prefix);
      BumpCounts(prefix, Tally(prefix), n);
      BumpNames(prefix, Tally(prefix), n);
    }
  }

  /** Counting one more row for `n` keeps names distinct and every count exact. */
  lemma BumpCounts(names: seq<string>, board: seq<NameCount>, n: string)
    requires Grouped(names, board)
    ensures var b := Bump(board, n);
      && DistinctNames(b)
      && (forall i :: 0 <= i < |b| ==>
            b[i].username in names + [n] && b[i].count == multiset(names + [n])[b[i].username])
  {
    assert multiset(names + [n]) == multiset(names) + multiset{n};
    if HasName(board, n) {
      BumpExisting(names, board, n);
    } else {
      BumpNew(names, board, n);
    }
  }

  lemma BumpExisting(names: seq<string>, board: seq<NameCount>, n: string)
    requires Grouped(names, board) && HasName(board, n)
    ensures var b := Bump(board, n);
      && DistinctNames(b)
      && (forall i :: 0 <= i < |b| ==>
            b[i].username in names + [n] && b[i].count == (multiset(names) + multiset{n})[b[i].username])
  {
    var b := Bump(board, n);
    forall i | 0 <= i < |b|
      ensures b[i].username == board[i].username
      ensures b[i].count == if board[i].username == n then board[i].count + 1 else board[i].count
    {
    }
  }

  lemma BumpNew(names: seq<string>, board: seq<NameCount>, n: string)
    requires Grouped(names, board) && !HasName(board, n)
    ensures var b := Bump(board, n);
      && DistinctNames(b)
      && (forall i :: 0 <= i < |b| ==>
            b[i].username in names + [n] && b[i].count == (multiset(names) + multiset{n})[b[i].username])
  {
    assert n !in names;
    forall i | 0 <= i < |board| ensures board[i].username != n { }
    var b := Bump(board, n);
    assert b == board + [NameCount(n, 1)];
  }

  /** Counting one more row for `n` keeps every name and adds `n`. */
  lemma BumpNames(names: seq<string>, board: seq<NameCount>, n: string)
    requires Grouped(names, board)
    ensures forall m :: m in names + [n] ==> HasName(Bump(board, n), m)
  {
    var b := Bump(board, n);
    forall m | m in names + [n] ensures HasName(b, m) {
      if m == n {
        if HasName(board, n) {
          var i :| 0 <= i < |board| && board[i].username == n;
          assert b[i].username == n;
        } else {
          assert b[|board|].username == n;
        }
      } else {
        assert m in names;
        var i :| 0 <= i < |board| && board[i].username == m;
        assert b[i].username == m;
      }
    }
  }

  // ---------------------------------------------------------------------------
  // Ordering

  /** Inserts `e` before the first entry with a count not above its own. */
  function Insert(e: NameCount, board: seq<NameCount>): (r: seq<NameCount>)
    ensures multiset(r) == multiset(board) + multiset{e}
    ensures |r| == |board| + 1
  {
    if board == [] || e.count >= board[0].count then [e] + board
    else
      assert board == [board[0]] + board[1..];
      [board[0]] + Insert(e, board[1..])
  }

  /** Insertion sort, largest count first. */
  function SortByCount(board: seq<NameCount>): (r: seq<NameCount>)
    ensures multiset(r) == multiset(board)
  {
    if board == [] then []
    else
      assert board == [board[0]] + board[1..];
      Insert(board[0], SortByCount(board[1..]))
  }

  lemma {:induction false} InsertOrdered(e: NameCount, board: seq<NameCount>)
    requires ByCountDescending(board)
    ensures ByCountDescending(Insert(e, board))
  {
    if board != [] && e.count < board[0].count {
      InsertOrdered(e, board[1..]);
      var r := Insert(e, board[1..]);
      forall x | x in r ensures x.count <= board[0].count {
        assert x in multiset(r);
        if x != e { assert x in board[1..]; }
      }
    }
  }

  lemma {:induction false} InsertDistinct(e: NameCount, board: seq<NameCount>)
    requires DistinctNames(board)
    requires forall i :: 0 <= i < |board| ==> board[i].username != e.username
    ensures DistinctNames(Insert(e, board))
  {
    if board != [] && e.count < board[0].count {
      InsertDistinct(e, board[1..]);
      var r := Insert(e, board[1..]);
      forall x | x in r ensures x.username != board[0].username {
        assert x in multiset(r);
        if x != e { assert x in board[1..]; }
      }
    }
  }

  lemma {:induction false} SortByCountCorrect(board: seq<NameCount>)
    requires DistinctNames(board)
    ensures DistinctNames(SortByCount(board)) && ByCountDescending(SortByCount(board))
  {
    if board != [] {
      SortByCountCorrect(board[1..]);
      var rest := SortByCount(board[1..]);
      InsertOrdered(board[0], rest);
      forall i | 0 <= i < |rest| ensures rest[i].username != board[0].username {
        assert rest[i] in multiset(board[1..]);
      }
      InsertDistinct(board[0], rest);
    }
  }

  /** Sorting keeps exactly the entries it was given. */
  lemma SortKeepsEntries(board: seq<NameCount>, e: NameCount)
    ensures e in SortByCount(board) <==> e in board
  {
    assert e in SortByCount(board) <==> e in multiset(SortByCount(board));
  }

  // ---------------------------------------------------------------------------
  // The query

  /** Ordering a correct grouping by count gives a correct answer to the query. */
  lemma {:induction false} SortedGroupingIsLeaderboard(names: seq<string>, grouped: seq<NameCount>)
    requires Grouped(names, grouped)
    ensures IsLeaderboard(names, SortByCount(grouped))
  {
    SortByCountCorrect(grouped);
    var board := SortByCount(grouped);
    forall i | 0 <= i < |board|
      ensures board[i].username in names && board[i].count == multiset(names)[board[i].username]
    {
      SortKeepsEntries(grouped, board[i]);
    }
    forall n | n in names ensures exists i :: 0 <= i < |board| && board[i].username == n {
      var j :| 0 <= j < |grouped| && grouped[j].username == n;
      SortKeepsEntries(grouped, grouped[j]);
      var i :| 0 <= i < |board| && board[i] == grouped[j];
    }
  }

  /** `get_user_problem_counts` over the `users` and `user_problems` tables. */
  function UserProblemCounts(users: map<UserId, string>, rows: seq<UserProblem>): (board: seq<NameCount>)
    ensures IsLeaderboard(JoinedNames(users, rows), board)
  {
    var names := JoinedNames(users, rows);
    TallyGroups(names);
    SortedGroupingIsLeaderboard(names, Tally(names));
    SortByCount(Tally(names))
  }

  /**
   * The query determines its answer up to the order of equal counts: two correct
   * answers hold the same entries.
   */
  lemma {:induction false} LeaderboardUnique(names: seq<string>, b1: seq<NameCount>, b2: seq<NameCount>)
    requires IsLeaderboard(names, b1) && IsLeaderboard(names, b2)
    ensures forall e :: e in b1 <==> e in b2
  {
    forall e | e in b1 ensures e in b2 {
      var j :| 0 <= j < |b2| && b2[j].username == e.username;
      assert b2[j] == e;
    }
    forall e | e in b2 ensures e in b1 {
      var j :| 0 <= j < |b1| && b1[j].username == e.username;
      assert b1[j] == e;
    }
  }

  /**
   * One more row adds one to the count of its user's name when the user has a
   * `users` row, and leaves every other count as it was; a row whose user has
   * none joins nothing. Submitting the same problem twice is counted twice.
   */
  lemma {:induction false} CountAfterAppend(users: map<UserId, string>, rows: seq<UserProblem>, row: UserProblem, n: string)
    ensures multiset(JoinedNames(users, rows + [row]))[n]
         == multiset(JoinedNames(users, rows))[n] + (if row.userId in users && users[row.userId] == n then 1 else 0)
  {
    assert (rows + [row])[..|rows + [row]| - 1] == rows;
  }

  /** The positions of the `user_problems` rows that join to a user named `n`. */
  function RowsNamed(users: map<UserId, string>, rows: seq<UserProblem>, n: string): set<nat> {
    set i: nat | i < |rows| && rows[i].userId in users && users[rows[i].userId] == n
  }

  /**
   * The JOIN yields a username once per joined row: `n` occurs in the joined
   * names as many times as there are rows whose user is named `n`.
   */
  lemma {:induction false} JoinedNamesCount(users: map<UserId, string>, rows: seq<UserProblem>, n: string)
    ensures multiset(JoinedNames(users, rows))[n] == |RowsNamed(users, rows, n)|
  {
    if rows != [] {
      var k := |rows| - 1;
      var prefix, last := rows[..k], rows[k];
      assert rows == prefix + [last];
      JoinedNamesCount(users, prefix, n);
      CountAfterAppend(users, prefix, last, n);
      var before := RowsNamed(users, prefix, n);
      var after := RowsNamed(users, rows, n);
      assert k !in before;
      if last.userId in users && users[last.userId] == n {
        assert after == before + {k};
      } else {
        assert after == before;
      }
    }
  }
}
