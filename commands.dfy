/**
 * The two bot commands that write to the ledger: `leet` publishes today's
 * problems and registers them in `leetcode_problems`; `report_score` (the
 * `solved` command) validates a message and, only when every check passes,
 * records the user and appends one score row.
 */
module Commands {
  import opened Wrappers
  import opened Text
  import opened Data
  import opened Problems

  // ---------------------------------------------------------------------------
  // leet

  /** An item of the configuration's `problem_difficulties`, with its value's truthiness. */
  datatype ConfigItem = ConfigItem(key: string, enabled: bool)

  /** The difficulty names `leet` asks for: the enabled keys, title-cased, in order. */
  function RequestedDifficulties(config: seq<ConfigItem>): (difficulties: seq<string>)
    ensures forall d :: d in difficulties <==> exists c :: c in config && c.enabled && d == Title(c.key)
  {
    if config == [] then []
    else
      var last := config[|config| - 1];
      assert config == config[..|config| - 1] + [last];
      RequestedDifficulties(config[..|config| - 1]) + (if last.enabled then [Title(last.key)] else [])
  }

  /** `daily_problems_ids`: the id of every selected problem, in dictionary order. */
  function SelectedIds(selection: seq<Entry>): (ids: seq<ProblemId>)
    ensures |ids| == |selection|
    ensures forall i :: 0 <= i < |selection| ==> ids[i] == selection[i].info.id
  {
    seq(|selection|, i requires 0 <= i < |selection| => selection[i].info.id)
  }

  /** The published ids, as a set, are the ids of the selected problems. */
  lemma SelectedIdsSet(selection: seq<Entry>)
    ensures var ids := SelectedIds(selection);
      (set i | 0 <= i < |ids| :: ids[i]) == (set e | e in selection :: e.info.id)
  {
    var ids := SelectedIds(selection);
    var published := set i | 0 <= i < |ids| :: ids[i];
    var selected := set e | e in selection :: e.info.id;
    forall id | id in published ensures id in selected {
      var i :| 0 <= i < |ids| && ids[i] == id;
      assert selection[i] in selection;
    }
    forall id | id in selected ensures id in published {
      var e :| e in selection && e.info.id == id;
      var i :| 0 <= i < |selection| && selection[i] == e;
      assert ids[i] == id;
    }
  }

  /** `leetcode_problems` after `add_leetcode_problem` has run on each selected problem in order. */
  function RegisterAll(problems: map<ProblemId, Problem>, selection: seq<Entry>): map<ProblemId, Problem> {
    if selection == [] then problems
    else
      var last := selection[|selection| - 1].info;
      InsertOrIgnore(RegisterAll(problems, selection[..|selection| - 1]), last.id, Problem(last.title, last.level))
  }

  /** Registration adds every selected problem and nothing else. */
  lemma {:induction false} RegisterAllKeys(problems: map<ProblemId, Problem>, selection: seq<Entry>)
    ensures RegisterAll(problems, selection).Keys == problems.Keys + (set e | e in selection :: e.info.id)
  {
    if selection != [] {
      var n := |selection| - 1;
      assert selection == selection[..n] + [selection[n]];
      RegisterAllKeys(problems, selection[..n]);
    }
  }

  /** A problem already stored keeps its title and level (insert-or-ignore). */
  lemma {:induction false} RegisterAllKeepsStored(problems: map<ProblemId, Problem>, selection: seq<Entry>, id: ProblemId)
    requires id in problems
    ensures id in RegisterAll(problems, selection) && RegisterAll(problems, selection)[id] == problems[id]
  {
    if selection != [] {
      RegisterAllKeepsStored(problems, selection[..|selection| - 1], id);
    }
  }

  /** A new problem is stored as the first selection entry carrying its id describes it. */
  lemma {:induction false} RegisterAllFirstWins(problems: map<ProblemId, Problem>, selection: seq<Entry>, i: nat)
    requires i < |selection| && selection[i].info.id !in problems
    requires forall j :: 0 <= j < i ==> selection[j].info.id != selection[i].info.id
    ensures var r := RegisterAll(problems, selection);
      selection[i].info.id in r && r[selection[i].info.id] == Problem(selection[i].info.title, selection[i].info.level)
  {
    var n := |selection| - 1;
    var prefix := selection[..n];
    var id := selection[i].info.id;
    if i < n {
      assert prefix[i] == selection[i];
      RegisterAllFirstWins(problems, prefix, i);
    } else {
      forall j | 0 <= j < |prefix| ensures prefix[j].info.id != id {
        assert prefix[j] == selection[j];
      }
      NotRegistered(problems, prefix, id);
    }
  }

  /** An id that is neither stored nor selected stays absent. */
  lemma {:induction false} NotRegistered(problems: map<ProblemId, Problem>, selection: seq<Entry>, id: ProblemId)
    requires id !in problems
    requires forall j :: 0 <= j < |selection| ==> selection[j].info.id != id
    ensures id !in RegisterAll(problems, selection)
  {
    if selection != [] {
      var prefix := selection[..|selection| - 1];
      forall j | 0 <= j < |prefix| ensures prefix[j].info.id != id {
        assert prefix[j] == selection[j];
      }
      NotRegistered(problems, prefix, id);
    }
  }

  /**
   * `leet`: select today's problems for the enabled difficulties, publish their
   * ids as today's set and register each in `leetcode_problems`. A difficulty that
   * `levels` does not know raises `KeyError` before anything is written.
   */
  method Leet(ledger: Ledger, config: seq<ConfigItem>, pairs: seq<ApiProblem>, draw: nat -> nat)
    returns (r: Result<seq<Entry>, KeyError>)
    modifies ledger
    ensures r.Ok? <==> AllKnown(RequestedDifficulties(config))
    ensures r.Ok? ==> r.value == Selection(Unsolved(pairs), RequestedDifficulties(config), draw)
    ensures r.Ok? ==> ledger.daily == (set e | e in r.value :: e.info.id)
    ensures r.Ok? ==> ledger.problems == RegisterAll(old(ledger.problems), r.value)
    ensures r.Err? ==> ledger.daily == old(ledger.daily) && ledger.problems == old(ledger.problems)
    ensures ledger.users == old(ledger.users) && ledger.userProblems == old(ledger.userProblems)
  {
    var difficultyLevels := RequestedDifficulties(config);
    r := GetRandomUnsolvedQuestions(pairs, difficultyLevels, draw);
    if r.Err? {
      return;
    }
    var leetProblems := r.value;
    var dailyProblemsIds := SelectedIds(leetProblems);
    ledger.ReplaceDailyProblems(dailyProblemsIds);
    SelectedIdsSet(leetProblems);
    ghost var daily := ledger.daily;
    var i := 0;
    while i < |leetProblems|
      invariant 0 <= i <= |leetProblems|
      invariant ledger.problems == RegisterAll(old(ledger.problems), leetProblems[..i])
      invariant ledger.daily == daily
      invariant ledger.users == old(ledger.users) && ledger.userProblems == old(ledger.userProblems)
    {
      var info := leetProblems[i].info;
      assert leetProblems[..i + 1][..i] == leetProblems[..i];
      ledger.AddLeetcodeProblem(info.id, info.title, info.level);
      i := i + 1;
    }
    assert leetProblems[..i] == leetProblems;
  }

  // ---------------------------------------------------------------------------
  // report_score

  /** Why `report_score` refuses a message; the first check that fails decides. */
  datatype ReportError =
    | WrongTokenCount(count: nat)              // `_, problem_id, percentile = ...split()` fails
    | PercentileNotANumber(token: string)      // `float(percentile)` raises
    | PercentileOutOfRange(percentile: real)   // below 0 or above 100
    | ProblemIdNotAnInteger(token: string)     // `int(problem_id)` raises
    | NotTodaysProblem(problemId: ProblemId)   // not in today's set
    | Lookup(cause: LookupError)               // `get_problem_level_by_id` raises

  /**
   * Every check of `report_score` passes: three tokens, a percentile that parses
   * and lies in [0, 100], a problem id that parses, is one of today's problems and
   * is in `leetcode_problems`.
   */
  predicate Acceptable(content: string, parseFloat: string -> Option<real>,
                       daily: set<ProblemId>, problems: map<ProblemId, Problem>)
  {
    var tokens := Split(content);
    && |tokens| == 3
    && parseFloat(tokens[2]).Some?
    && 0.0 <= parseFloat(tokens[2]).value <= 100.0
    && ParseInt(tokens[1]).Some?
    && ParseInt(tokens[1]).value in daily
    && ParseInt(tokens[1]).value in problems
  }

  /**
   * What `report_score` decides for a message, given today's set and
   * `leetcode_problems`: the row it appends, or the first failing check. The
   * percentile parser and the rounding to one decimal are parameters.
   */
  function ScoreOutcome(content: string, authorId: UserId, today: Date,
                        parseFloat: string -> Option<real>, round1: real -> real,
                        daily: set<ProblemId>, problems: map<ProblemId, Problem>)
    : (r: Result<UserProblem, ReportError>)
    ensures r.Ok? <==> Acceptable(content, parseFloat, daily, problems)
    ensures r.Ok? ==>
      var tokens := Split(content);
      && r.value.userId == authorId
      && Some(r.value.problemId) == ParseInt(tokens[1])
      && r.value.percentile == round1(parseFloat(tokens[2]).value)
      && r.value.date == today
      && r.value.level == problems[r.value.problemId].level
    ensures |Split(content)| != 3 ==> r == Err(WrongTokenCount(|Split(content)|))
    ensures |Split(content)| == 3 && parseFloat(Split(content)[2]).None? ==>
      r == Err(PercentileNotANumber(Split(content)[2]))
    ensures |Split(content)| == 3 && parseFloat(Split(content)[2]).Some?
            && 0.0 <= parseFloat(Split(content)[2]).value <= 100.0
            && ParseInt(Split(content)[1]).None? ==>
      r == Err(ProblemIdNotAnInteger(Split(content)[1]))
  {
    var tokens := Split(content);
    if |tokens| != 3 then Err(WrongTokenCount(|tokens|))
    else
      var problemToken, percentileToken := tokens[1], tokens[2];
      match parseFloat(percentileToken)
      case None => Err(PercentileNotANumber(percentileToken))
      case Some(percentile) =>
        if percentile < 0.0 || percentile > 100.0 then Err(PercentileOutOfRange(percentile))
        else
          var rounded := round1(percentile);
          match ParseInt(problemToken)
          case None => Err(ProblemIdNotAnInteger(problemToken))
          case Some(problemId) =>
            if problemId !in daily then Err(NotTodaysProblem(problemId))
            else
              match ProblemLevelById(problems, problemId)
              case Err(e) => Err(Lookup(e))
              case Ok(level) => Ok(UserProblem(authorId, problemId, rounded, today, level))
  }

  /**
   * The checks run in order: a percentile outside [0, 100] is reported as such
   * whatever the problem id, both bounds being allowed values.
   */
  lemma RangeCheckedBeforeProblem(content: string, authorId: UserId, today: Date,
                                  parseFloat: string -> Option<real>, round1: real -> real,
                                  daily: set<ProblemId>, problems: map<ProblemId, Problem>)
    requires |Split(content)| == 3 && parseFloat(Split(content)[2]).Some?
    ensures var p := parseFloat(Split(content)[2]).value;
      var r := ScoreOutcome(content, authorId, today, parseFloat, round1, daily, problems);
      (p < 0.0 || p > 100.0 <==> r == Err(PercentileOutOfRange(p)))
  {
  }

  /**
   * A problem id outside today's set is refused even when the problem is in
   * `leetcode_problems`; one in today's set but missing there fails the lookup.
   */
  lemma ProblemChecks(content: string, authorId: UserId, today: Date,
                      parseFloat: string -> Option<real>, round1: real -> real,
                      daily: set<ProblemId>, problems: map<ProblemId, Problem>)
    requires |Split(content)| == 3
    requires parseFloat(Split(content)[2]).Some? && 0.0 <= parseFloat(Split(content)[2]).value <= 100.0
    requires ParseInt(Split(content)[1]).Some?
    ensures var id := ParseInt(Split(content)[1]).value;
      var r := ScoreOutcome(content, authorId, today, parseFloat, round1, daily, problems);
      && (id !in daily ==> r == Err(NotTodaysProblem(id)))
      && (id in daily && id !in problems ==> r == Err(Lookup(ProblemNotFound(id))))
  {
  }

  /**
   * `report_score` on the ledger: the checks first, then `add_user` and
   * `add_user_problem`; on any failure no table changes.
   */
  method ReportScore(ledger: Ledger, content: string, authorId: UserId, authorName: string, today: Date,
                     parseFloat: string -> Option<real>, round1: real -> real)
    returns (r: Result<UserProblem, ReportError>)
    modifies ledger
    ensures r == ScoreOutcome(content, authorId, today, parseFloat, round1, old(ledger.daily), old(ledger.problems))
    ensures r.Err? ==> ledger.users == old(ledger.users) && ledger.userProblems == old(ledger.userProblems)
    ensures r.Ok? ==> ledger.users == InsertOrIgnore(old(ledger.users), authorId, authorName)
    ensures r.Ok? ==> ledger.userProblems == old(ledger.userProblems) + [r.value]
    ensures ledger.problems == old(ledger.problems) && ledger.daily == old(ledger.daily)
  {
    var tokens := Split(content);
    if |tokens| != 3 {
      return Err(WrongTokenCount(|tokens|));
    }
    var problemToken, percentileToken := tokens[1], tokens[2];
    var parsed := parseFloat(percentileToken);
    if parsed.None? {
      return Err(PercentileNotANumber(percentileToken));
    }
    var percentile := parsed.value;
    if percentile < 0.0 || percentile > 100.0 {
      return Err(PercentileOutOfRange(percentile));
    }
    percentile := round1(percentile);

    var dailyProblems := ledger.daily;
    var problemId := ParseInt(problemToken);
    if problemId.None? {
      return Err(ProblemIdNotAnInteger(problemToken));
    }
    if problemId.value !in dailyProblems {
      return Err(NotTodaysProblem(problemId.value));
    }

    var level := ProblemLevelById(ledger.problems, problemId.value);
    if level.Err? {
      return Err(Lookup(level.error));
    }

    ledger.AddUser(authorId, authorName);
    ledger.AddUserProblem(authorId, problemId.value, percentile, today, level.value);
    r := Ok(UserProblem(authorId, problemId.value, percentile, today, level.value));
  }

  /** Reporting the same problem twice appends two rows: the table has no uniqueness rule. */
  method ReportTwice(ledger: Ledger, content: string, authorId: UserId, authorName: string, today: Date,
                     parseFloat: string -> Option<real>, round1: real -> real)
    requires Acceptable(content, parseFloat, ledger.daily, ledger.problems)
    modifies ledger
    ensures var row := ScoreOutcome(content, authorId, today, parseFloat, round1,
                                    old(ledger.daily), old(ledger.problems)).value;
      ledger.userProblems == old(ledger.userProblems) + [row, row]
  {
    var first := ReportScore(ledger, content, authorId, authorName, today, parseFloat, round1);
    var second := ReportScore(ledger, content, authorId, authorName, today, parseFloat, round1);
  }
}
