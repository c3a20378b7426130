/**
 * A user's progress: the `get_user_progress` query (distinct problems per day
 * and level), the loop of `plot_user_progress` that turns its rows into running
 * per-level totals, and `get_tick_interval`.
 */
module Progress {
  import opened Wrappers
  import opened Data

  /** A row of `get_user_progress`: day, level and the number of distinct problems. */
  datatype ProgressRow = ProgressRow(date: Date, level: int, count: nat)

  /** The problems `userId` submitted on day `d` at level `l`. */
  function ProblemsOn(rows: seq<UserProblem>, userId: UserId, d: Date, l: int): set<ProblemId> {
    set r | r in rows && r.userId == userId && r.date == d && r.level == l :: r.problemId
  }

  /**
   * `out` is a correct answer to the progress query for `userId`: one row per
   * (day, level) at which the user submitted something, counting the distinct
   * problems submitted then, ordered by day.
   */
  predicate IsProgress(rows: seq<UserProblem>, userId: UserId, out: seq<ProgressRow>) {
    && (forall i, j :: 0 <= i < j < |out| ==> out[i].date <= out[j].date)
    && (forall i, j :: 0 <= i < j < |out| ==> (out[i].date, out[i].level) != (out[j].date, out[j].level))
    && (forall i :: 0 <= i < |out| ==>
          out[i].count >= 1 && out[i].count == |ProblemsOn(rows, userId, out[i].date, out[i].level)|)
    && (forall r :: r in rows && r.userId == userId ==>
          exists i :: 0 <= i < |out| && out[i].date == r.date && out[i].level == r.level)
  }

  // ---------------------------------------------------------------------------
  // Grouping by (day, level)

  datatype Group = Group(date: Date, level: int, problems: set<ProblemId>)

  /** The (day, level) order in which the groups are kept. */
  predicate KeyBefore(d1: Date, l1: int, d2: Date, l2: int) {
    d1 < d2 || (d1 == d2 && l1 < l2)
  }

  predicate StrictlyOrdered(groups: seq<Group>) {
    forall i, j :: 0 <= i < j < |groups| ==>
      KeyBefore(groups[i].date, groups[i].level, groups[j].date, groups[j].level)
  }

  predicate HasKey(groups: seq<Group>, d: Date, l: int) {
    exists i :: 0 <= i < |groups| && groups[i].date == d && groups[i].level == l
  }

  /** The problems held by the group with key (d, l), none if there is no such group. */
  function ProblemsAt(groups: seq<Group>, d: Date, l: int): set<ProblemId> {
    if groups == [] then {}
    else if groups[0].date == d && groups[0].level == l then groups[0].problems
    else ProblemsAt(groups[1..], d, l)
  }

  /** Adds one submitted problem to its (day, level) group, opening the group if needed. */
  function Place(groups: seq<Group>, r: UserProblem): seq<Group> {
    if groups == [] then [Group(r.date, r.level, {r.problemId})]
    else if groups[0].date == r.date && groups[0].level == r.level then
      [groups[0].(problems := groups[0].problems + {r.problemId})] + groups[1..]
    else if KeyBefore(r.date, r.level, groups[0].date, groups[0].level) then
      [Group(r.date, r.level, {r.problemId})] + groups
    else [groups[0]] + Place(groups[1..], r)
  }

  /** The user's rows grouped by (day, level) (the WHERE and GROUP BY). */
  function Groups(rows: seq<UserProblem>, userId: UserId): seq<Group> {
    if rows == [] then []
    else
      var prefix := Groups(rows[..|rows| - 1], userId);
      var last := rows[|rows| - 1];
      if last.userId == userId then Place(prefix, last) else prefix
  }

  /**
   * `p` is `groups` with `r` placed: still strictly ordered, the group with r's
   * key gains r's problem, every other group is an old one, and no key is lost.
   */
  predicate PlacedWell(groups: seq<Group>, r: UserProblem, p: seq<Group>) {
    && StrictlyOrdered(p)
    && (forall i :: 0 <= i < |p| ==>
          if p[i].date == r.date && p[i].level == r.level
          then p[i].problems == ProblemsAt(groups, r.date, r.level) + {r.problemId}
          else p[i] in groups)
    && (forall g :: g in groups ==> HasKey(p, g.date, g.level))
    && HasKey(p, r.date, r.level)
  }

  lemma {:induction false} PlaceCorrect(groups: seq<Group>, r: UserProblem)
    requires StrictlyOrdered(groups)
    ensures PlacedWell(groups, r, Place(groups, r))
  {
    if groups == [] {
      var p := Place(groups, r);
      assert p[0].date == r.date && p[0].level == r.level;
    } else if groups[0].date == r.date && groups[0].level == r.level {
      PlaceMerges(groups, r);
    } else if KeyBefore(r.date, r.level, groups[0].date, groups[0].level) {
      PlaceOpens(groups, r);
    } else {
      PlaceCorrect(groups[1..], r);
      PlaceBehind(groups, r);
    }
  }

  /** r's key is the first group's: the problem joins that group. */
  lemma PlaceMerges(groups: seq<Group>, r: UserProblem)
    requires StrictlyOrdered(groups)
    requires groups != [] && groups[0].date == r.date && groups[0].level == r.level
    ensures PlacedWell(groups, r, Place(groups, r))
  {
    var p := Place(groups, r);
    assert p[0].date == r.date && p[0].level == r.level;
    forall g | g in groups ensures HasKey(p, g.date, g.level) {
      var k :| 0 <= k < |groups| && groups[k] == g;
      assert p[k].date == g.date && p[k].level == g.level;
    }
  }

  /** r's key comes before every group: a new group opens at the front. */
  lemma PlaceOpens(groups: seq<Group>, r: UserProblem)
    requires StrictlyOrdered(groups)
    requires groups != [] && !(groups[0].date == r.date && groups[0].level == r.level)
    requires KeyBefore(r.date, r.level, groups[0].date, groups[0].level)
    ensures PlacedWell(groups, r, Place(groups, r))
  {
    var p := Place(groups, r);
    assert p[0].date == r.date && p[0].level == r.level;
    assert ProblemsAt(groups, r.date, r.level) == {} by { NoKeyNoProblems(groups, r.date, r.level); }
    forall g | g in groups ensures HasKey(p, g.date, g.level) {
      var k :| 0 <= k < |groups| && groups[k] == g;
      assert p[k + 1] == g;
    }
  }

  /** r's key comes after the first group: placing it in the rest is enough. */
  lemma PlaceBehind(groups: seq<Group>, r: UserProblem)
    requires StrictlyOrdered(groups)
    requires groups != [] && !(groups[0].date == r.date && groups[0].level == r.level)
    requires !KeyBefore(r.date, r.level, groups[0].date, groups[0].level)
    requires PlacedWell(groups[1..], r, Place(groups[1..], r))
    ensures PlacedWell(groups, r, Place(groups, r))
  {
    PlaceBehindOrdered(groups, r);
    PlaceBehindContents(groups, r);
    PlaceBehindKeys(groups, r);
  }

  /** Behind the first group, only r's group changes. */
  lemma PlaceBehindContents(groups: seq<Group>, r: UserProblem)
    requires groups != [] && !(groups[0].date == r.date && groups[0].level == r.level)
    requires !KeyBefore(r.date, r.level, groups[0].date, groups[0].level)
    requires forall i :: 0 <= i < |Place(groups[1..], r)| ==>
      var g := Place(groups[1..], r)[i];
      if g.date == r.date && g.level == r.level
      then g.problems == ProblemsAt(groups[1..], r.date, r.level) + {r.problemId}
      else g in groups[1..]
    ensures var p := Place(groups, r);
      forall i :: 0 <= i < |p| ==>
        if p[i].date == r.date && p[i].level == r.level
        then p[i].problems == ProblemsAt(groups, r.date, r.level) + {r.problemId}
        else p[i] in groups
  {
    var p := Place(groups, r);
    var tail := groups[1..];
    var q := Place(tail, r);
    assert p == [groups[0]] + q;
    var before := ProblemsAt(tail, r.date, r.level);
    assert ProblemsAt(groups, r.date, r.level) == before;
    forall i | 0 <= i < |p|
      ensures if p[i].date == r.date && p[i].level == r.level
              then p[i].problems == before + {r.problemId}
              else p[i] in groups
    {
      if i == 0 {
        assert p[0] == groups[0];
      } else {
        assert p[i] == q[i - 1];
        assert 0 <= i - 1 < |q|;
        if q[i - 1].date == r.date && q[i - 1].level == r.level {
          assert q[i - 1].problems == before + {r.problemId};
        } else {
          var k :| 0 <= k < |tail| && tail[k] == q[i - 1];
          assert groups[k + 1] == q[i - 1];
        }
      }
    }
  }

  /** Behind the first group, no key is lost and r's key is present. */
  lemma PlaceBehindKeys(groups: seq<Group>, r: UserProblem)
    requires groups != [] && !(groups[0].date == r.date && groups[0].level == r.level)
    requires !KeyBefore(r.date, r.level, groups[0].date, groups[0].level)
    requires var q := Place(groups[1..], r);
      (forall g :: g in groups[1..] ==> HasKey(q, g.date, g.level)) && HasKey(q, r.date, r.level)
    ensures var p := Place(groups, r);
      (forall g :: g in groups ==> HasKey(p, g.date, g.level)) && HasKey(p, r.date, r.level)
  {
    var p := Place(groups, r);
    var tail := groups[1..];
    var q := Place(tail, r);
    assert p == [groups[0]] + q;
    forall g | g in groups ensures HasKey(p, g.date, g.level) {
      if g == groups[0] {
        assert p[0] == g;
      } else {
        assert g in tail;
        var k :| 0 <= k < |q| && q[k].date == g.date && q[k].level == g.level;
        assert p[k + 1] == q[k];
      }
    }
    var k :| 0 <= k < |q| && q[k].date == r.date && q[k].level == r.level;
    assert p[k + 1] == q[k];
  }

  /** The first group stays ahead of the rest with r placed in it. */
  lemma PlaceBehindOrdered(groups: seq<Group>, r: UserProblem)
    requires StrictlyOrdered(groups)
    requires groups != [] && !(groups[0].date == r.date && groups[0].level == r.level)
    requires !KeyBefore(r.date, r.level, groups[0].date, groups[0].level)
    requires PlacedWell(groups[1..], r, Place(groups[1..], r))
    ensures StrictlyOrdered(Place(groups, r))
  {
    var tail := groups[1..];
    var q := Place(tail, r);
    assert Place(groups, r) == [groups[0]] + q;
    forall i | 0 <= i < |q| ensures KeyBefore(groups[0].date, groups[0].level, q[i].date, q[i].level) {
      if !(q[i].date == r.date && q[i].level == r.level) {
        var k :| 0 <= k < |tail| && tail[k] == q[i];
        assert tail[k] == groups[k + 1];
      }
    }
  }

  /** Groups before key (d, l) in the order hold nothing for it. */
  lemma {:induction false} NoKeyNoProblems(groups: seq<Group>, d: Date, l: int)
    requires StrictlyOrdered(groups)
    requires groups != [] ==> KeyBefore(d, l, groups[0].date, groups[0].level)
    ensures ProblemsAt(groups, d, l) == {}
  {
    if groups != [] {
      if |groups| > 1 {
        assert KeyBefore(groups[0].date, groups[0].level, groups[1].date, groups[1].level);
      }
      NoKeyNoProblems(groups[1..], d, l);
    }
  }

  /** In strictly ordered groups, each group is the one `ProblemsAt` finds for its key. */
  lemma {:induction false} ProblemsAtOwnKey(groups: seq<Group>, i: nat)
    requires StrictlyOrdered(groups) && i < |groups|
    ensures ProblemsAt(groups, groups[i].date, groups[i].level) == groups[i].problems
  {
    if i > 0 {
      assert KeyBefore(groups[0].date, groups[0].level, groups[i].date, groups[i].level);
      ProblemsAtOwnKey(groups[1..], i - 1);
    }
  }

  /** What the grouping keeps true as rows are added. */
  predicate GroupsInvariant(rows: seq<UserProblem>, userId: UserId, groups: seq<Group>) {
    && StrictlyOrdered(groups)
    && (forall i :: 0 <= i < |groups| ==>
          groups[i].problems != {} && groups[i].problems == ProblemsOn(rows, userId, groups[i].date, groups[i].level))
    && (forall r :: r in rows && r.userId == userId ==> HasKey(groups, r.date, r.level))
  }

  lemma {:induction false} GroupsCorrect(rows: seq<UserProblem>, userId: UserId)
    ensures GroupsInvariant(rows, userId, Groups(rows, userId))
  {
    if rows != [] {
      var prefix, last := rows[..|rows| - 1], rows[|rows| - 1];
      assert rows == prefix + [last];
      GroupsCorrect(prefix, userId);
      var gs := Groups(prefix, userId);
      if last.userId != userId {
        forall i | 0 <= i < |gs|
          ensures ProblemsOn(rows, userId, gs[i].date, gs[i].level) == ProblemsOn(prefix, userId, gs[i].date, gs[i].level)
        {
          ProblemsOnAppend(prefix, last, userId, gs[i].date, gs[i].level);
        }
      } else {
        PlaceCorrect(gs, last);
        var p := Place(gs, last);
        forall i | 0 <= i < |p|
          ensures p[i].problems != {} && p[i].problems == ProblemsOn(rows, userId, p[i].date, p[i].level)
        {
          ProblemsOnAppend(prefix, last, userId, p[i].date, p[i].level);
          if p[i].date == last.date && p[i].level == last.level {
            if HasKey(gs, last.date, last.level) {
              var k :| 0 <= k < |gs| && gs[k].date == last.date && gs[k].level == last.level;
              ProblemsAtOwnKey(gs, k);
            } else {
              AbsentKeyNoProblems(gs, last.date, last.level);
              forall r | r in prefix && r.userId == userId ensures !(r.date == last.date && r.level == last.level) { }
            }
          } else {
            var k :| 0 <= k < |gs| && gs[k] == p[i];
          }
        }
        forall r | r in rows && r.userId == userId ensures HasKey(p, r.date, r.level) {
          if r != last {
            assert r in prefix;
            var k :| 0 <= k < |gs| && gs[k].date == r.date && gs[k].level == r.level;
            assert gs[k] in gs;
          }
        }
      }
    }
  }

  lemma {:induction false} AbsentKeyNoProblems(groups: seq<Group>, d: Date, l: int)
    requires !HasKey(groups, d, l)
    ensures ProblemsAt(groups, d, l) == {}
  {
    if groups != [] {
      assert !(groups[0].date == d && groups[0].level == l);
      AbsentKeyNoProblems(groups[1..], d, l);
    }
  }

  lemma ProblemsOnAppend(rows: seq<UserProblem>, r: UserProblem, userId: UserId, d: Date, l: int)
    ensures ProblemsOn(rows + [r], userId, d, l)
         == ProblemsOn(rows, userId, d, l)
            + (if r.userId == userId && r.date == d && r.level == l then {r.problemId} else {})
  {
  }

  /** `get_user_progress`: the user's distinct problems per (day, level), ordered by day. */
  function UserProgress(rows: seq<UserProblem>, userId: UserId): (out: seq<ProgressRow>)
    ensures IsProgress(rows, userId, out)
  {
    var groups := Groups(rows, userId);
    GroupsCorrect(rows, userId);
    var out := seq(|groups|, i requires 0 <= i < |groups| =>
      ProgressRow(groups[i].date, groups[i].level, |groups[i].problems|));
    assert forall r :: r in rows && r.userId == userId ==>
      exists i :: 0 <= i < |out| && out[i].date == r.date && out[i].level == r.level
    by {
      forall r | r in rows && r.userId == userId
        ensures exists i :: 0 <= i < |out| && out[i].date == r.date && out[i].level == r.level
      {
        var k :| 0 <= k < |groups| && groups[k].date == r.date && groups[k].level == r.level;
        assert out[k].date == r.date && out[k].level == r.level;
      }
    }
    out
  }

  // ---------------------------------------------------------------------------
  // The running totals of `plot_user_progress`

  /**
   * The element `counts[level - 1]` names in Python's three-element list: negative
   * indices count from the end (level 0 is the last slot), and `None` stands for
   * the `IndexError` raised outside -3..2.
   */
  function Slot(level: int): (s: Option<nat>)
    ensures s.Some? <==> -2 <= level <= 3
    ensures s.Some? ==> s.value < 3 && s.value == (level - 1) % 3
    ensures 1 <= level <= 3 ==> s == Some(level - 1)
  {
    var i := level - 1;
    if 0 <= i < 3 then Some(i) else if -3 <= i < 0 then Some(i + 3) else None
  }

  /** Every row's level names an element of `counts`. */
  predicate Indexable(progress: seq<ProgressRow>) {
    forall i :: 0 <= i < |progress| ==> Slot(progress[i].level).Some?
  }

  /** `counts` after the loop has run over `progress`: each row adds its count to its slot. */
  function Totals(progress: seq<ProgressRow>): (t: seq<nat>)
    requires Indexable(progress)
    ensures |t| == 3
  {
    if progress == [] then [0, 0, 0]
    else
      var prev := Totals(progress[..|progress| - 1]);
      var row := progress[|progress| - 1];
      var s := Slot(row.level).value;
      prev[s := prev[s] + row.count]
  }

  /** `cum_problems` after the loop: each row records a copy of `counts` under its day. */
  function Cumulative(progress: seq<ProgressRow>): (cum: map<Date, seq<nat>>)
    requires Indexable(progress)
    ensures cum.Keys == set i | 0 <= i < |progress| :: progress[i].date
    ensures forall d :: d in cum ==> |cum[d]| == 3
  {
    if progress == [] then map[]
    else
      var prefix := progress[..|progress| - 1];
      var cum := Cumulative(prefix)[progress[|progress| - 1].date := Totals(progress)];
      assert forall i :: 0 <= i < |prefix| ==> prefix[i] == progress[i];
      cum
  }

  /** The sum of the counts of the rows whose level lands in slot `j`. */
  function LevelSum(progress: seq<ProgressRow>, j: nat): nat {
    if progress == [] then 0
    else
      var row := progress[|progress| - 1];
      LevelSum(progress[..|progress| - 1], j) + (if Slot(row.level) == Some(j) then row.count else 0)
  }

  /** The final totals are the per-level sums of the group counts. */
  lemma {:induction false} TotalsAreLevelSums(progress: seq<ProgressRow>, j: nat)
    requires Indexable(progress) && j < 3
    ensures Totals(progress)[j] == LevelSum(progress, j)
  {
    if progress != [] {
      TotalsAreLevelSums(progress[..|progress| - 1], j);
    }
  }

  lemma {:induction false} LevelSumGrows(progress: seq<ProgressRow>, k: nat, j: nat)
    requires k <= |progress|
    ensures LevelSum(progress[..k], j) <= LevelSum(progress, j)
  {
    if k < |progress| {
      var prefix := progress[..|progress| - 1];
      assert prefix[..k] == progress[..k];
      LevelSumGrows(prefix, k, j);
      assert LevelSum(prefix, j) <= LevelSum(progress, j);
    } else {
      assert progress[..k] == progress;
    }
  }

  /** Per-level totals never decrease as the loop goes on. */
  lemma TotalsNeverDecrease(progress: seq<ProgressRow>, k: nat, j: nat)
    requires Indexable(progress) && k <= |progress| && j < 3
    ensures Indexable(progress[..k]) && Totals(progress[..k])[j] <= Totals(progress)[j]
  {
    assert Indexable(progress[..k]);
    TotalsAreLevelSums(progress[..k], j);
    TotalsAreLevelSums(progress, j);
    LevelSumGrows(progress, k, j);
  }

  /** Each day maps to the totals as they were after the last row of that day. */
  lemma {:induction false} CumulativeAtLastRow(progress: seq<ProgressRow>, k: nat)
    requires Indexable(progress) && k < |progress|
    requires forall i :: k < i < |progress| ==> progress[i].date != progress[k].date
    ensures Indexable(progress[..k + 1])
    ensures Cumulative(progress)[progress[k].date] == Totals(progress[..k + 1])
  {
    assert Indexable(progress[..k + 1]);
    if k < |progress| - 1 {
      var prefix := progress[..|progress| - 1];
      assert prefix[..k + 1] == progress[..k + 1];
      CumulativeAtLastRow(prefix, k);
    } else {
      assert progress[..k + 1] == progress;
    }
  }

  /** Rows ordered by day, as the progress query returns them. */
  predicate DateOrdered(progress: seq<ProgressRow>) {
    forall i, j :: 0 <= i < j < |progress| ==> progress[i].date <= progress[j].date
  }

  /** Over rows ordered by day, a later day's totals are at least an earlier day's, level by level. */
  lemma {:induction false} CumulativeNeverDecreases(progress: seq<ProgressRow>, d1: Date, d2: Date, j: nat)
    requires Indexable(progress) && DateOrdered(progress) && j < 3
    requires d1 in Cumulative(progress) && d2 in Cumulative(progress) && d1 <= d2
    ensures Cumulative(progress)[d1][j] <= Cumulative(progress)[d2][j]
  {
    var cum := Cumulative(progress);
    assert d1 in cum.Keys && d2 in cum.Keys;
    var k1 := LastRowOf(progress, d1);
    var k2 := LastRowOf(progress, d2);
    CumulativeAtLastRow(progress, k1);
    CumulativeAtLastRow(progress, k2);
    if d1 < d2 {
      EarlierDayEarlierRow(progress, k1, k2);
      TotalsGrowAlong(progress, k1, k2, j);
    }
  }

  /** The totals after row `k1` are at most those after a later row `k2`. */
  lemma TotalsGrowAlong(progress: seq<ProgressRow>, k1: nat, k2: nat, j: nat)
    requires Indexable(progress) && k1 <= k2 < |progress| && j < 3
    ensures Indexable(progress[..k1 + 1]) && Indexable(progress[..k2 + 1])
    ensures Totals(progress[..k1 + 1])[j] <= Totals(progress[..k2 + 1])[j]
  {
    var upto := progress[..k2 + 1];
    assert Indexable(upto);
    assert upto[..k1 + 1] == progress[..k1 + 1];
    TotalsNeverDecrease(upto, k1 + 1, j);
  }

  lemma EarlierDayEarlierRow(progress: seq<ProgressRow>, k1: nat, k2: nat)
    requires DateOrdered(progress) && k1 < |progress| && k2 < |progress|
    requires progress[k1].date < progress[k2].date
    ensures k1 < k2
  {
  }

  /**
   * On the rows the progress query returns, the chart's per-level lines never go
   * down from one day to a later one.
   */
  lemma ProgressChartNeverDecreases(rows: seq<UserProblem>, userId: UserId, d1: Date, d2: Date, j: nat)
    requires Indexable(UserProgress(rows, userId)) && j < 3
    requires d1 in Cumulative(UserProgress(rows, userId)) && d2 in Cumulative(UserProgress(rows, userId))
    requires d1 <= d2
    ensures Cumulative(UserProgress(rows, userId))[d1][j] <= Cumulative(UserProgress(rows, userId))[d2][j]
  {
    CumulativeNeverDecreases(UserProgress(rows, userId), d1, d2, j);
  }

  /** The position of the last row of day `d`. */
  function LastRowOf(progress: seq<ProgressRow>, d: Date): (k: nat)
    requires exists i :: 0 <= i < |progress| && progress[i].date == d
    ensures k < |progress| && progress[k].date == d
    ensures forall i :: k < i < |progress| ==> progress[i].date != d
  {
    if progress[|progress| - 1].date == d then |progress| - 1
    else LastRowOf(progress[..|progress| - 1], d)
  }

  datatype Accumulated = Accumulated(counts: seq<nat>, cumulative: map<Date, seq<nat>>)

  datatype IndexError = IndexError(level: int)

  /**
   * The loop of `plot_user_progress`: running per-level totals over the rows of
   * the progress query, with a copy of the totals recorded under each row's day.
   * A level outside -2..3 raises `IndexError` at `counts[level - 1]`.
   */
  method AccumulateProgress(progress: seq<ProgressRow>) returns (r: Result<Accumulated, IndexError>)
    ensures r.Ok? <==> Indexable(progress)
    ensures r.Ok? ==> r.value == Accumulated(Totals(progress), Cumulative(progress))
    ensures r.Err? ==> exists i :: 0 <= i < |progress| && Indexable(progress[..i])
                                && Slot(progress[i].level).None?
                                && r.error == IndexError(progress[i].level)
  {
    var counts := new nat[3](_ => 0);
    var cum: map<Date, seq<nat>> := map[];
    var i := 0;
    while i < |progress|
      invariant 0 <= i <= |progress|
      invariant Indexable(progress[..i])
      invariant counts[..] == Totals(progress[..i])
      invariant cum == Cumulative(progress[..i])
    {
      var row := progress[i];
      var slot := Slot(row.level);
      if slot.None? {
        return Err(IndexError(row.level));
      }
      assert progress[..i + 1][..i] == progress[..i];
      counts[slot.value] := counts[slot.value] + row.count;
      cum := cum[row.date := counts[..]];
      i := i + 1;
    }
    assert progress[..i] == progress;
    return Ok(Accumulated(counts[..], cum));
  }

  // ---------------------------------------------------------------------------
  // Axis ticks

  /**
   * `get_tick_interval`: five times the integer nearest to `x / 25`, at least 1.
   * An integer never lies halfway between two multiples of 25, so Python's
   * rounding never meets a tie and the nearest integer is `(x + 12) / 25`.
   */
  function TickInterval(x: int): (r: int)
    ensures r >= 1 && (r == 1 || r % 5 == 0)
    ensures x <= 12 ==> r == 1
    ensures x >= 13 ==> r % 5 == 0 && -12 <= x - 5 * r <= 12
  {
    var nearest := (x + 12) / 25;
    if 5 * nearest > 1 then 5 * nearest else 1
  }
}
