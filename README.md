# LeetcodeBot score ledger, in Dafny

A model of the score ledger behind a Discord bot that hands out daily LeetCode
problems. The ledger has three tables:

- `users`: insert-or-ignore on the user id.
- `leetcode_problems`: insert-or-ignore on the problem id, never updated.
- `user_problems`: plain append, with no uniqueness rule.

It also holds the set of today's problem ids. The model covers:

- the insert rules and the problem-level lookup (`data.py`);
- the leaderboard query, the per-user progress query, the loop that turns
  progress rows into running per-level totals, and the chart tick interval
  (`data.py`);
- the daily selection filter, with its random choice as a parameter
  (`problems.py`);
- the two commands that write: `leet`, which selects, publishes and registers
  today's problems, and `report_score`, which validates a `!solved <id>
  <percentile>` message and writes nothing unless every check passes
  (`main.py`).

Files and modules:

- `wrappers.dfy`, module `Wrappers`: `Option` and `Result`.
- `text.dfy`, module `Text`: Python's `str.split()`, `int()` and `str.title()` on
  strings.
- `data.dfy`, module `Data`: the class `Ledger`, holding the tables as fields
  (`map`s, a `seq`, a `set`); its insert methods; `InsertOrIgnore`; the level
  lookup.
- `leaderboard.dfy`, module `Leaderboard`: `get_user_problem_counts`, specified
  by `IsLeaderboard`.
- `progress.dfy`, module `Progress`:
  - `get_user_progress`, specified by `IsProgress`;
  - the accumulation loop of `plot_user_progress`, as a method over a
    three-element array;
  - `get_tick_interval`.
- `problems.py` is modelled in `problems.dfy`, module `Problems`:
  `get_random_unsolved_questions` as a loop proved against the function
  `Selection`, with lemmas about `Selection`.
- `commands.dfy`, module `Commands`:
  - `leet` and `report_score` as methods on a `Ledger`;
  - `ScoreOutcome`, the pure function that specifies `report_score`'s
    validation chain.

Behaviour that the model reproduces as the code has it:

- The random pick is made among all unsolved problems (problems.py:43), not
  among those of the requested difficulty. An entry recorded under "Easy" can
  therefore hold a Hard problem (`Problems.EasyEntryCanHoldHardProblem`). Its
  stored level is the level of the difficulty key.
- `leet` registers the entries in dictionary order with insert-or-ignore. If
  the same problem is picked for two difficulties, the first entry's level is
  the one stored.
- `counts[level - 1]` follows Python's list indexing. Level 0 adds to the Hard
  slot and level -1 to the Medium one. A level outside -2..3 raises
  `IndexError`, modelled as an `Err` result.
- `get_tick_interval(x)` is `max(1, 5 * ((x + 12) div 25))`. `x / 25` is never
  halfway between two integers when `x` is an integer, so Python's rounding never
  has to break a tie.

Other behaviour of the code that the model keeps:

- `user_problems` is append-only. Reporting the same problem twice adds two
  rows, and the leaderboard counts both (`Commands.ReportTwice`,
  `Leaderboard.CountAfterAppend`). There is no upsert on (user, problem).
- The `solved` command names a problem id, not a difficulty keyword.
- There is no score-removal command.

## Model

| member | source | states |
|---|---|---|
| `Data.InsertOrIgnore` | data.py:42-44 | An insert on an existing key keeps the stored row. A new key gets the given row. Every other row is unchanged. The same rule is used for `leetcode_problems` (data.py:58-60). |
| `Data.InsertOrIgnoreTwice` | data.py:58-60 | Inserting the same key twice stores what the first insert stored. |
| `Data.ProblemLevelById` | data.py:51-56 | Returns the stored level when the id is present. Returns the not-found error exactly when it is absent. |
| `Data.LevelAfterRegistration` | data.py:51-60 | After a problem is registered, the lookup succeeds. It returns the level of the first registration. |
| `Data.Ledger.constructor` | data.py:7-40 | A new ledger has empty `users`, `leetcode_problems` and `user_problems` tables and an empty set of today's problems. |
| `Data.Ledger.AddUser` | data.py:42-44 | `users` becomes the insert-or-ignore of (id, name). The other tables are unchanged. |
| `Data.Ledger.AddUserProblem` | data.py:46-49 | Appends exactly one row with the given fields. Nothing else changes. |
| `Data.Ledger.AddLeetcodeProblem` | data.py:58-60 | `leetcode_problems` becomes the insert-or-ignore of the problem. The other tables are unchanged. |
| `Data.Ledger.ReplaceDailyProblems` | main.py:36-37 | Today's set becomes exactly the given ids. No table changes. |
| `Leaderboard.JoinedNames` | data.py:65-67 | A username occurs exactly when some `user_problems` row has a user with that name (the JOIN). |
| `Leaderboard.JoinedNamesCount` | data.py:65-67 | Each username occurs once per `user_problems` row whose user has that name, so duplicate rows count separately. |
| `Leaderboard.TallyGroups` | data.py:65-68 | Grouping gives one entry per joined username. Each count is that name's number of rows. Every name is present. |
| `Leaderboard.Insert` | data.py:69 | Insertion adds exactly one entry: the result is a permutation of the input plus that entry. |
| `Leaderboard.SortByCount` | data.py:69 | The sorted board is a permutation of the grouped board. |
| `Leaderboard.SortByCountCorrect` | data.py:69 | The sorted board keeps names distinct and lists counts in non-increasing order. |
| `Leaderboard.SortKeepsEntries` | data.py:69 | An entry is in the sorted board if and only if it was in the grouped board. |
| `Leaderboard.SortedGroupingIsLeaderboard` | data.py:62-70 | Sorting a correct grouping by count gives a correct answer to the query. |
| `Leaderboard.UserProblemCounts` | data.py:62-70 | The result satisfies `IsLeaderboard`: one row per username with at least one joined row; each count is the number of rows, duplicates included; users sharing a name are merged; rows are sorted by non-increasing count. |
| `Leaderboard.LeaderboardUnique` | data.py:62-70 | Two correct answers to the query hold the same entries. They can differ only in the order of tied counts. |
| `Leaderboard.CountAfterAppend` | data.py:46-70 | Appending a row adds one to the count of its user's name if the user has a `users` row. Otherwise no count changes, and no other name's count ever changes. |
| `Progress.PlaceCorrect` | data.py:78 | Adding a row to the strictly (day, level)-ordered groups keeps them ordered and adds the problem to its group. All other groups are unchanged and every key is kept. |
| `Progress.GroupsCorrect` | data.py:75-78 | The groups are strictly ordered by (day, level). Each holds exactly the user's distinct problems for its key and is non-empty. Every row of the user has its group. |
| `Progress.UserProgress` | data.py:72-80 | The result satisfies `IsProgress`: only the given user's rows count; there is one row per (day, level) with a submission; each count is the number of distinct problems, so at least 1; rows are in non-decreasing day order. |
| `Progress.Slot` | data.py:118 | `counts[level - 1]` names slot `(level - 1) mod 3` exactly when level is in -2..3. Levels 1, 2 and 3 name slots 0, 1 and 2. |
| `Progress.Cumulative` | data.py:114-119 | The dict's keys are exactly the days of the rows, and each value has three counts. |
| `Progress.TotalsAreLevelSums` | data.py:113-119 | The final totals are the per-level sums of all row counts. |
| `Progress.TotalsNeverDecrease` | data.py:118 | No per-level total after a prefix of the rows exceeds that level's final total. |
| `Progress.CumulativeAtLastRow` | data.py:116-119 | Each day maps to the totals as they stood after the last row of that day. |
| `Progress.CumulativeNeverDecreases` | data.py:116-119 | On rows in day order, a later day's totals are at least an earlier day's, level by level. |
| `Progress.ProgressChartNeverDecreases` | data.py:111-119 | On the rows the progress query returns, the chart's per-level totals never decrease from one day to a later one. |
| `Progress.AccumulateProgress` | data.py:112-119 | The loop fails exactly when some level has no slot. It then reports the level of the first row without a slot. Otherwise it returns `Totals` and `Cumulative` of the rows. |
| `Progress.TickInterval` | data.py:82-83 | The result is at least 1 and is 1 or a multiple of 5. It is 1 when x ≤ 12. For larger x it is 5·n, where n is the integer nearest x/25 (so \|x − 25·n\| ≤ 12). |
| `Problems.Pick` | problems.py:43 | The random choice returns a member of the candidates. |
| `Problems.Unsolved` | problems.py:21-23 | A problem is kept if and only if it is in the catalogue and its status is not "ac". |
| `Problems.OfLevel` | problems.py:36-39 | A problem is kept if and only if it is unsolved and has the given level. |
| `Problems.LevelOf` | problems.py:26-30 | Easy maps to 1, Medium to 2 and Hard to 3. Every other name gives the KeyError. |
| `Problems.ProblemUrl` | problems.py:48 | The URL is the problems prefix, then the slug, then "/". |
| `Problems.AssignFacts` | problems.py:52-58 | Dict item assignment: the key ends up with the new value; other items are unchanged and keep their places; keys stay distinct. |
| `Problems.SelectionStep` | problems.py:29-58 | One loop step adds the pick for a difficulty exactly when it has candidates. |
| `Problems.SelectionCorrect` | problems.py:28-60 | Keys are distinct, so a repeated difficulty gives one key. A difficulty is a key if and only if it was requested and some unsolved problem has its level. Each entry's level is `levels[difficulty]`. Each pick is an unsolved problem. |
| `Problems.LastRequestWins` | problems.py:52 | Each entry is the pick of the last request for its difficulty. |
| `Problems.EasyEntryCanHoldHardProblem` | problems.py:41-43 | Because the pick is drawn from all unsolved problems, an Easy entry can hold a level-3 problem. |
| `Problems.GetRandomUnsolvedQuestions` | problems.py:16-60 | Fails with KeyError on the first unknown difficulty. Otherwise it returns `Selection` of the unsolved problems. |
| `Text.Split` | main.py:69 | Every token of `split()` is a non-empty run of non-whitespace characters. |
| `Text.SplitWord` | main.py:69 | A string with no whitespace splits into itself alone. |
| `Text.SplitSpace` | main.py:69 | Splitting around a whitespace character gives the tokens of the part before it, then those of the part after. With `SplitWord`, this fixes the tokens as the maximal whitespace-free runs, whatever the spacing. |
| `Text.SplitJoin` | main.py:69 | Splitting words joined by single spaces gives the words back. |
| `Text.ParseInt` | main.py:77 | `int()` succeeds exactly on an optional sign followed by decimal digits. |
| `Text.ParseShowInt` | main.py:77 | `int(str(n)) == n` for every integer. |
| `Text.TitleFrom` | main.py:32 | Title-casing keeps the length and changes no uncased character. A cased character becomes lower case if the character before it is cased, and upper case otherwise. |
| `Text.TitleIdempotent` | main.py:32 | Title-casing a title-cased string changes nothing. |
| `Commands.RequestedDifficulties` | main.py:32 | A name is requested if and only if it is the title-cased key of a config item with a truthy value. |
| `Commands.SelectedIds` | main.py:36 | The published ids are the selected problems' ids, in dictionary order. |
| `Commands.SelectedIdsSet` | main.py:36-37 | Today's set, built from the published id list, is exactly the set of the selected problems' ids. |
| `Commands.RegisterAllKeys` | main.py:47-53 | After `leet`'s loop, `leetcode_problems` holds the old problems and every selected problem, and nothing else. |
| `Commands.RegisterAllKeepsStored` | main.py:47-53 | A problem already stored keeps its title and level. |
| `Commands.RegisterAllFirstWins` | main.py:47-53 | A new problem is stored as its first selection entry describes it. |
| `Commands.Leet` | main.py:28-61 | On KeyError nothing is written. Otherwise the result is the selection for the enabled difficulties; today's set becomes its ids; every selected problem is registered; `users` and `user_problems` are unchanged. |
| `Commands.ScoreOutcome` | main.py:66-86 | A message is accepted if and only if all hold: it has three tokens, the percentile parses and lies in [0, 100] with both bounds inclusive, and the id parses, is in today's set and is in `leetcode_problems`. The accepted row carries the author, the parsed id, the rounded percentile, today's date and the looked-up level. A wrong token count, an unparsable percentile, and an unparsable id after an in-range percentile each give their own error, in that order. |
| `Commands.RangeCheckedBeforeProblem` | main.py:69-78 | A parsed percentile is rejected as out of range if and only if it is below 0 or above 100, whatever the problem id. |
| `Commands.ProblemChecks` | main.py:76-81 | An id not in today's set is rejected. An id in today's set but missing from `leetcode_problems` fails the level lookup. |
| `Commands.ReportScore` | main.py:63-92 | The outcome is `ScoreOutcome`. On failure `users` and `user_problems` are unchanged. On success the user is inserted if absent and exactly that one row is appended. `leetcode_problems` and today's set never change. |
| `Commands.ReportTwice` | main.py:82-86 | Two reports of the same acceptable message keep the old rows and append the accepted row twice. |

## Left out

- Discord is not modelled: bot setup, the async handlers, embeds, messages and
  files. The error message echoed to the user is not modelled either; the error
  kind is. All of this is user interface and I/O.
- Loading the configuration file and building the LeetCode API client are not
  modelled. The catalogue's `stat_status_pairs` are a parameter, with a missing
  status shown as `""`. These are foreign libraries and network access.
- The SQLite connection, schema creation and transactions are replaced by
  in-memory fields of `Ledger`. Both `leetcode_problems.level` (a TEXT column)
  and the lookup by the token string rely on SQLite's type affinity; the model
  uses integers throughout.
- `add_daily_problems` and `get_daily_problems` (called at main.py:37 and
  main.py:76) are not part of this model. Today's set is a field of `Ledger` that `leet` replaces and
  `report_score` reads.
- `float()` and `round(p, 1)` on the percentile are function parameters, because
  they are binary floating point. A NaN, which passes the range check, cannot be
  represented.
- `datetime.now().date()` is a parameter. Days are day numbers, so the
  `date(timestamp, 'start of day')` truncation and the `strptime` parse are the
  identity.
- The random choice is a parameter: `draw(i)` is the random number used for the
  i-th requested difficulty.
- The acceptance-rate division (problems.py:49) and the debug prints are not
  modelled. They are floating point and output. A problem with no submissions
  would raise ZeroDivisionError there; the model does not show that failure.
- All matplotlib and numpy plotting is not modelled, apart from
  `get_tick_interval` and the accumulation loop. This is presentation.
- `Progress.Cumulative` is a `map`, so it drops the insertion order of the
  Python dict's keys. For rows in day order, as the query returns them, that
  order is ascending by day.
- `Progress.UserProgress` orders rows within a day by level. SQL leaves that
  order open, and `IsProgress` does not depend on it.
- `Text` covers ASCII only. Title-casing handles only ASCII letters, and `int()`
  accepts neither Unicode digits nor `_` separators.
- `Progress.TickInterval` uses exact integer arithmetic. Python computes `x / 25`
  in floating point, so the two agree only while that quotient is exact enough,
  up to about 2^52. Counts of solved problems stay far below that.
