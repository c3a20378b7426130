/**
 * The bot's score ledger: the `users`, `leetcode_problems` and `user_problems`
 * tables, held in memory by a `Ledger` object, with their insert rules, and the
 * lookup of a problem's level. The set of today's problem ids is kept beside
 * them.
 */
module Data {
  import opened Wrappers

  type UserId = int
  type ProblemId = int

  /** A calendar day as a day number: later days have larger numbers. */
  type Date = int

  /** A row of `leetcode_problems`; its `problem_id` is the key of the map holding it. */
  datatype Problem = Problem(title: string, level: int)

  /** A row of `user_problems`; its autoincrement id is its position in the table. */
  datatype UserProblem = UserProblem(
    userId: UserId, problemId: ProblemId, percentile: real, date: Date, level: int)

  datatype LookupError = ProblemNotFound(problemId: ProblemId)

  /**
   * `INSERT OR IGNORE` into a table keyed by `k`: the row is added when the key is
   * new; a row already stored under `k` is kept as it is.
   */
  function InsertOrIgnore<K, V>(table: map<K, V>, k: K, v: V): (r: map<K, V>)
    ensures r.Keys == table.Keys + {k}
    ensures k in table ==> r[k] == table[k]
    ensures k !in table ==> r[k] == v
    ensures forall k' :: k' in table ==> r[k'] == table[k']
  {
    if k in table then table else table[k := v]
  }

  /** Inserting the same key twice stores what the first insert stored. */
  lemma InsertOrIgnoreTwice<K, V>(table: map<K, V>, k: K, v1: V, v2: V)
    ensures InsertOrIgnore(InsertOrIgnore(table, k, v1), k, v2) == InsertOrIgnore(table, k, v1)
  {
  }

  /**
   * `get_problem_level_by_id`: the stored level of the problem, or the error the
   * source raises when no row has that id.
   */
  function ProblemLevelById(problems: map<ProblemId, Problem>, problemId: ProblemId): (r: Result<int, LookupError>)
    ensures r.Ok? <==> problemId in problems
    ensures r.Ok? ==> r.value == problems[problemId].level
    ensures r.Err? ==> r.error == ProblemNotFound(problemId)
  {
    if problemId in problems then Ok(problems[problemId].level) else Err(ProblemNotFound(problemId))
  }

  /** After a problem is registered its level can be looked up, and it is the first registration's. */
  lemma LevelAfterRegistration(problems: map<ProblemId, Problem>, problemId: ProblemId, title: string, level: int)
    ensures ProblemLevelById(InsertOrIgnore(problems, problemId, Problem(title, level)), problemId)
         == Ok(if problemId in problems then problems[problemId].level else level)
  {
  }

  class Ledger {
    /** `users`: user_id -> username. */
    var users: map<UserId, string>
    /** `leetcode_problems`: problem_id -> (title, level). */
    var problems: map<ProblemId, Problem>
    /** `user_problems`, in insertion order; there is no uniqueness constraint. */
    var userProblems: seq<UserProblem>
    /** The ids of today's problems. */
    var daily: set<ProblemId>

    /** A fresh database: every table empty. */
    constructor ()
      ensures users == map[] && problems == map[] && userProblems == [] && daily == {}
    {
      users, problems, userProblems, daily := map[], map[], [], {};
    }

    /** `add_user`: insert-or-ignore on `user_id`. */
    method AddUser(userId: UserId, username: string)
      modifies this
      ensures users == InsertOrIgnore(old(users), userId, username)
      ensures problems == old(problems) && userProblems == old(userProblems) && daily == old(daily)
    {
      users := InsertOrIgnore(users, userId, username);
    }

    /** `add_user_problem`: appends exactly one row, whatever rows already exist. */
    method AddUserProblem(userId: UserId, problemId: ProblemId, percentile: real, date: Date, level: int)
      modifies this
      ensures userProblems == old(userProblems) + [UserProblem(userId, problemId, percentile, date, level)]
      ensures users == old(users) && problems == old(problems) && daily == old(daily)
    {
      userProblems := userProblems + [UserProblem(userId, problemId, percentile, date, level)];
    }

    /** `add_leetcode_problem`: insert-or-ignore on `problem_id`; a stored problem never changes. */
    method AddLeetcodeProblem(problemId: ProblemId, title: string, level: int)
      modifies this
      ensures problems == InsertOrIgnore(old(problems), problemId, Problem(title, level))
      ensures users == old(users) && userProblems == old(userProblems) && daily == old(daily)
    {
      problems := InsertOrIgnore(problems, problemId, Problem(title, level));
    }

    /** Publishes a new set of today's problems, replacing the previous one. */
    method ReplaceDailyProblems(problemIds: seq<ProblemId>)
      modifies this
      ensures daily == set i | 0 <= i < |problemIds| :: problemIds[i]
      ensures users == old(users) && problems == old(problems) && userProblems == old(userProblems)
    {
      daily := set i | 0 <= i < |problemIds| :: problemIds[i];
    }
  }
}
